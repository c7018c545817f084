/**
 When a dry run of a 1C import is a faithful preview: exactly when no two rows of the file are matched to one variant.
 */
module OneCPreview {
  import opened Common
  import opened Inventory
  import opened OneCParser
  import opened OneCImporter

  /** What row `k` adds to the stock counter of a run. */
  function Term(states: States, matched: seq<Matched>, dryRun: bool, run: nat, k: nat): nat
    requires k < |matched|
  {
    StockDiffers(Lookup(Compared(states, matched[..k], dryRun, run), matched[k].variant), matched[k].row)
  }

  /** A run that counts no row less than another run, and one row more, counts more. */
  lemma {:induction false} CountsLess(states: States, matched: seq<Matched>, low: bool, lowId: nat, high: bool,
                                      highId: nat, j: int)
    requires forall k: nat | k < |matched| ::
               Term(states, matched, low, lowId, k) <= Term(states, matched, high, highId, k)
    requires 0 <= j < |matched| ==> Term(states, matched, low, lowId, j) < Term(states, matched, high, highId, j)
    ensures StockUpdates(states, matched, low, lowId) <= StockUpdates(states, matched, high, highId)
    ensures 0 <= j < |matched| ==>
              StockUpdates(states, matched, low, lowId) < StockUpdates(states, matched, high, highId)
  {
    if matched != [] {
      var n := |matched| - 1;
      forall k: nat | k < n
        ensures Term(states, matched[..n], low, lowId, k) == Term(states, matched, low, lowId, k)
        ensures Term(states, matched[..n], high, highId, k) == Term(states, matched, high, highId, k)
      {
        assert matched[..n][..k] == matched[..k];
      }
      CountsLess(states, matched[..n], low, lowId, high, highId, j);
      assert Term(states, matched, low, lowId, n) <= Term(states, matched, high, highId, n);
    }
  }

  /** In an empty inventory the preview counts every row. */
  lemma EmptyPreviewCountsAll(matched: seq<Matched>, dryId: nat, k: nat)
    requires k < |matched|
    ensures Term(map[], matched, true, dryId, k) == 1
  {
  }

  /** If the preview is right for the empty inventory, every row changes the stock of its variant. */
  lemma EveryRowCounts(matched: seq<Matched>, dryId: nat, realId: nat, k: nat)
    requires StockUpdates(map[], matched, true, dryId) == StockUpdates(map[], matched, false, realId)
    requires k < |matched|
    ensures Term(map[], matched, false, realId, k) == 1
  {
    forall l: nat | l < |matched| {
      EmptyPreviewCountsAll(matched, dryId, l);
    }
    if Term(map[], matched, false, realId, k) == 0 {
      CountsLess(map[], matched, false, realId, true, dryId, k);
    }
  }

  ghost predicate FirstPair(matched: seq<Matched>, i: nat, j: nat) {
    && i < j < |matched| && matched[i].variant == matched[j].variant
    && forall k | 0 <= k < j && k != i :: matched[k].variant != matched[i].variant
  }

  lemma {:induction false} FindFirstPair(matched: seq<Matched>) returns (i: nat, j: nat)
    requires !DistinctVariants(matched)
    ensures FirstPair(matched, i, j)
  {
    var n := |matched| - 1;
    if DistinctVariants(matched[..n]) {
      j := n;
      i :| 0 <= i < n && matched[i].variant == matched[n].variant;
      forall k | 0 <= k < n && k != i ensures matched[k].variant != matched[i].variant {
        assert matched[..n][k] == matched[k] && matched[..n][i] == matched[i];
      }
    } else {
      i, j := FindFirstPair(matched[..n]);
      assert forall k | 0 <= k < n :: matched[..n][k] == matched[k];
    }
  }

  /** The shared variant already holds the stock of its second row, from the time of its first. */
  function HoldsSecond(matched: seq<Matched>, i: nat, j: nat): States
    requires FirstPair(matched, i, j)
  {
    map[matched[i].variant :=
          State(matched[j].row.stock, Some(0), "", matched[i].row.code, matched[i].row.updatedAt, 0)]
  }

  /** After the first row of the shared variant both inventories agree on it, and on the others they always did. */
  lemma {:induction false} SameFromFirstRow(matched: seq<Matched>, i: nat, j: nat, run: nat, k: nat, variant: nat)
    requires FirstPair(matched, i, j) && k <= |matched| && (variant == matched[i].variant ==> i < k)
    ensures Lookup(RowsApplied(HoldsSecond(matched, i, j), matched[..k], run), variant)
            == Lookup(RowsApplied(map[], matched[..k], run), variant)
  {
    if k > 0 {
      var m := matched[k - 1];
      assert matched[..k][..k - 1] == matched[..k - 1];
      if m.variant != variant {
        SameFromFirstRow(matched, i, j, run, k - 1, variant);
      } else if k - 1 == i {
        UntouchedBefore(HoldsSecond(matched, i, j), matched, i, run);
        UntouchedBefore(map[], matched, i, run);
      } else {
        SameFromFirstRow(matched, i, j, run, k - 1, variant);
      }
    }
  }

  lemma UntouchedBefore(states: States, matched: seq<Matched>, i: nat, run: nat)
    requires i < |matched| && forall k | 0 <= k < i :: matched[k].variant != matched[i].variant
    ensures Lookup(RowsApplied(states, matched[..i], run), matched[i].variant) == Lookup(states, matched[i].variant)
  {
    UntouchedVariant(states, matched[..i], run, matched[i].variant);
  }

  /** With the shared variant's stock set up like that, the real run counts its second row and the preview does not. */
  lemma SharedVariantBreaksPreview(matched: seq<Matched>, i: nat, j: nat, dryId: nat, realId: nat)
    requires FirstPair(matched, i, j)
    requires StockUpdates(map[], matched, true, dryId) == StockUpdates(map[], matched, false, realId)
    ensures StockUpdates(HoldsSecond(matched, i, j), matched, true, dryId)
            < StockUpdates(HoldsSecond(matched, i, j), matched, false, realId)
  {
    var states := HoldsSecond(matched, i, j);
    forall k: nat | k < |matched|
      ensures Term(states, matched, true, dryId, k) <= Term(states, matched, false, realId, k)
      ensures k == j ==> Term(states, matched, true, dryId, k) < Term(states, matched, false, realId, k)
    {
      if k == i {
        UntouchedBefore(states, matched, i, realId);
      } else {
        SameFromFirstRow(matched, i, j, realId, k, matched[k].variant);
        EveryRowCounts(matched, dryId, realId, k);
      }
    }
    CountsLess(states, matched, true, dryId, false, realId, j);
  }

  /** From this inventory the dry run counts what the real run counts. */
  predicate CountersPreviewed(states: States, matched: seq<Matched>, dryId: nat, realId: nat) {
    && StockUpdates(states, matched, true, dryId) == StockUpdates(states, matched, false, realId)
    && CostUpdates(states, matched, true, dryId) == CostUpdates(states, matched, false, realId)
  }

  /** The items `more` are the given ones, perhaps others besides, and the rows are matched with them as with the given
      ones; every variant in stock comes from one of them. */
  ghost predicate CanExist(settings: Settings, items: Items, more: Items, states: States, rows: seq<Row>) {
    && items.Keys <= more.Keys && SourcesKnown(states, more)
    && MatchedRows(settings, more, rows) == MatchedRows(settings, items, rows)
  }

  /** The given items and one that was never mapped by hand, as an earlier file may have left it. */
  function WithUnmapped(items: Items, code: string): Items {
    if code in items then items else items[code := Item(None, None, "", false, Unmatched)]
  }

  lemma {:induction false} UnmappedIsNotSeen(settings: Settings, items: Items, code: string, rows: seq<Row>)
    ensures MatchedRows(settings, WithUnmapped(items, code), rows) == MatchedRows(settings, items, rows)
  {
    if rows != [] {
      UnmappedIsNotSeen(settings, items, code, rows[..|rows| - 1]);
    }
  }

  /** Both inventories of the argument can exist. */
  lemma WitnessesCanExist(settings: Settings, items: Items, rows: seq<Row>, i: nat, j: nat)
    requires FirstPair(MatchedRows(settings, items, rows), i, j)
    ensures CanExist(settings, items, items, map[], rows)
    ensures var matched := MatchedRows(settings, items, rows);
      CanExist(settings, items, WithUnmapped(items, matched[i].row.code), HoldsSecond(matched, i, j), rows)
  {
    hide MatchedRows;
    UnmappedIsNotSeen(settings, items, MatchedRows(settings, items, rows)[i].row.code, rows);
  }

  /** The counters of a dry run are those of the real run, whatever is in the inventory and whatever other items exist,
      exactly when no two rows are matched to one variant. */
  lemma CountersPreviewedExactlyWhen(settings: Settings, items: Items, rows: seq<Row>, dryId: nat, realId: nat)
    ensures (forall states, more | CanExist(settings, items, more, states, rows) ::
               CountersPreviewed(states, MatchedRows(settings, more, rows), dryId, realId))
            <==> DistinctVariants(MatchedRows(settings, items, rows))
  {
    hide MatchedRows, StockUpdates, CostUpdates, SourcesKnown;
    var matched := MatchedRows(settings, items, rows);
    if DistinctVariants(matched) {
      forall states, more | CanExist(settings, items, more, states, rows)
        ensures CountersPreviewed(states, MatchedRows(settings, more, rows), dryId, realId)
      {
        LiveCountsArePreview(states, matched, realId, dryId);
      }
    } else {
      var i, j := FindFirstPair(matched);
      WitnessesCanExist(settings, items, rows, i, j);
      if CountersPreviewed(map[], matched, dryId, realId) {
        SharedVariantBreaksPreview(matched, i, j, dryId, realId);
        assert !CountersPreviewed(HoldsSecond(matched, i, j), matched, dryId, realId);
      }
    }
  }

  /** The finished record of the dry run is that of the real run, apart from saying that it was dry. */
  predicate Previewed(settings: Settings, items: Items, states: States, file: ParsedFile, started: Run,
                      dryId: nat, realId: nat)
  {
    Finished(settings, items, states, file, started.(dryRun := true), dryId).(dryRun := false)
    == Finished(settings, items, states, file, started.(dryRun := false), realId)
  }

  /** The two inventories of the argument are accepted with the file: nothing in stock is missing from it. */
  lemma NothingMissing(settings: Settings, items: Items, states: States, file: ParsedFile, mode: Mode)
    requires forall v | v in states :: exists row | row in file.rows :: row.code == states[v].source
    ensures MissingTolerated(settings, states, file, mode)
  {
    assert MissingZero(states, file.rows) == {};
  }

  lemma TolerableMeansCounted(settings: Settings, items: Items, states: States, file: ParsedFile, started: Run,
                              dryId: nat, realId: nat)
    requires GatePasses(settings, file, started.mode) && MissingTolerated(settings, states, file, started.mode)
    ensures Previewed(settings, items, states, file, started, dryId, realId)
            <==> CountersPreviewed(states, MatchedRows(settings, items, file.rows), dryId, realId)
  {
    hide MatchedRows, StockUpdates, CostUpdates, MissingTolerated, CountUnmatched, CountAmbiguous;
  }

  /** A dry run tells what the real run will report, from every inventory that can exist and beside whatever other
      items, exactly when the file is turned away at the gate or no two of its rows are matched to one variant. */
  lemma PreviewedExactlyWhen(settings: Settings, items: Items, file: ParsedFile, started: Run, dryId: nat, realId: nat)
    ensures (forall states, more | CanExist(settings, items, more, states, file.rows) ::
               Previewed(settings, more, states, file, started, dryId, realId))
            <==> !GatePasses(settings, file, started.mode) || DistinctVariants(MatchedRows(settings, items, file.rows))
  {
    hide MatchedRows, StockUpdates, CostUpdates, MissingZero, Active, CanExist, Previewed, Finished;
    var matched := MatchedRows(settings, items, file.rows);
    if GatePasses(settings, file, started.mode) && !DistinctVariants(matched) {
      BrokenPreview(settings, items, file, started, dryId, realId);
    } else {
      forall states, more | CanExist(settings, items, more, states, file.rows)
        ensures Previewed(settings, more, states, file, started, dryId, realId)
      {
        SameFinish(settings, items, more, states, file, started, dryId, realId);
      }
    }
  }

  lemma SameFinish(settings: Settings, items: Items, more: Items, states: States, file: ParsedFile, started: Run,
                   dryId: nat, realId: nat)
    requires CanExist(settings, items, more, states, file.rows)
    requires GatePasses(settings, file, started.mode) ==> DistinctVariants(MatchedRows(settings, items, file.rows))
    ensures Previewed(settings, more, states, file, started, dryId, realId)
  {
    hide MatchedRows, StockUpdates, CostUpdates, MissingZero, Active, SourcesKnown;
    if GatePasses(settings, file, started.mode) {
      DryRunPreviews(settings, more, states, file, started, dryId, realId);
    }
  }

  lemma BrokenPreview(settings: Settings, items: Items, file: ParsedFile, started: Run, dryId: nat, realId: nat)
    requires GatePasses(settings, file, started.mode) && !DistinctVariants(MatchedRows(settings, items, file.rows))
    ensures exists states, more | CanExist(settings, items, more, states, file.rows) ::
              !Previewed(settings, more, states, file, started, dryId, realId)
  {
    hide MatchedRows, StockUpdates, CostUpdates, MissingZero, Active, CanExist, Previewed, Finished, SourcesKnown,
      DistinctVariants;
    var matched := MatchedRows(settings, items, file.rows);
    var i, j := FindFirstPair(matched);
    MatchedComeFromRows(settings, items, file.rows);
    assert matched[i] in matched;
    var more, states := WithUnmapped(items, matched[i].row.code), HoldsSecond(matched, i, j);
    WitnessesCanExist(settings, items, file.rows, i, j);
    UnmappedIsNotSeen(settings, items, matched[i].row.code, file.rows);
    NothingMissing(settings, items, map[], file, started.mode);
    NothingMissing(settings, more, states, file, started.mode);
    TolerableMeansCounted(settings, items, map[], file, started, dryId, realId);
    TolerableMeansCounted(settings, more, states, file, started, dryId, realId);
    if CountersPreviewed(map[], matched, dryId, realId) {
      SharedVariantBreaksPreview(matched, i, j, dryId, realId);
      assert !Previewed(settings, more, states, file, started, dryId, realId);
    } else {
      assert !Previewed(settings, items, map[], file, started, dryId, realId);
    }
  }
}
