/**
 Which 1C imports are turned away, over the records of the file and the inventory.
 */
module OneCGates {
  import opened Common
  import opened Inventory
  import opened OneCParser
  import opened OneCImporter

  /** The codes that well-formed records carry. */
  function CodesOf(records: seq<Record>): set<string> {
    set i | 0 <= i < |records| && records[i].WellFormed? :: records[i].row.code
  }

  function InStock(states: States): set<nat> {
    set v | v in states && states[v].stock > 0
  }

  /** Those in stock whose source item no well-formed record carries. */
  function Absent(states: States, records: seq<Record>): set<nat> {
    set v | v in states && states[v].stock > 0 && states[v].source !in CodesOf(records)
  }

  function Counted(records: seq<Record>): nat {
    |records| + |Conflicts(records)|
  }

  /** The file has too few codes, or too small a share of well-formed ones, or misses too much of what is in stock. */
  predicate TurnedAway(settings: Settings, states: States, records: seq<Record>) {
    var codes := |CodesOf(records)|;
    || codes < settings.minRows
    || codes * settings.validDen < settings.validNum * (if records == [] then 1 else Counted(records))
    || settings.missingNum * |InStock(states)| < |Absent(states, records)| * settings.missingDen
  }

  lemma {:induction false} RowsAreCodes(records: seq<Record>)
    ensures |FirstRows(records)| == |CodesOf(records)|
    ensures forall code :: code in CodesOf(records) <==> Mentions(records, code)
  {
    hide CodesOf, Mentions;
    if records == [] {
      NoCodes();
    } else {
      var n := |records| - 1;
      var front, r := records[..n], records[n];
      RowsAreCodes(front);
      CodesExtend(records);
      assert records[..n + 1] == records;
      forall code {
        MentionsPrefix(records, n, code);
      }
      if r.WellFormed? {
        OneMoreCode(CodesOf(front), r.row.code);
      }
    }
  }

  lemma OneMoreCode(codes: set<string>, code: string)
    ensures |codes + {code}| == |codes| + if code in codes then 0 else 1
  {
    if code in codes {
      assert codes + {code} == codes;
    }
  }

  lemma NoCodes()
    ensures CodesOf([]) == {} && forall code :: !Mentions([], code)
  {
  }

  lemma CodesExtend(records: seq<Record>)
    requires records != []
    ensures var n := |records| - 1;
      CodesOf(records) == CodesOf(records[..n]) + if records[n].WellFormed? then {records[n].row.code} else {}
  {
    var n := |records| - 1;
    assert forall i | 0 <= i < n :: records[..n][i] == records[i];
  }

  lemma AbsentIsMissing(states: States, records: seq<Record>)
    ensures MissingZero(states, FirstRows(records)) == Absent(states, records)
  {
    RowsAreCodes(records);
    forall v | v in states
      ensures (forall row | row in FirstRows(records) :: row.code != states[v].source)
              <==> states[v].source !in CodesOf(records)
    {
      KeptCodes(records, states[v].source);
    }
  }

  /** An import that no error strikes is rejected exactly when it is FULL and its file is turned away. */
  lemma RejectedExactlyWhen(settings: Settings, items: Items, states: States, file: ParsedFile, records: seq<Record>,
                            exportedAt: Time, started: Run, id: nat)
    requires ReadFrom(file, records, exportedAt)
    ensures var status := Finished(settings, items, states, file, started, id).status;
      && (status == Rejected <==> started.mode == Full && TurnedAway(settings, states, records))
      && (status != Rejected ==> status == if started.warned then CompletedWithWarnings else Completed)
  {
    hide MatchedRows, StockUpdates, CostUpdates, CountUnmatched, CountAmbiguous, FirstRows, MissingZero, Absent,
      CodesOf, Conflicts, Duplicates;
    RowsAreCodes(records);
    AbsentIsMissing(states, records);
    NothingInStock(states, records);
    assert Active(states) == InStock(states);
    assert records == [] ==> Conflicts(records) == {} by {
      ConflictsArePositions(records);
    }
  }

  lemma NothingInStock(states: States, records: seq<Record>)
    ensures InStock(states) == {} ==> Absent(states, records) == {}
  {
  }

  lemma ConflictsArePositions(records: seq<Record>)
    ensures forall i | i in Conflicts(records) :: i < |records|
  {
  }

  // ---------- What a run reports ----------

  /** The matched rows that give another stock than the table they are compared with. */
  ghost function StockMoves(states: States, matched: seq<Matched>, dryRun: bool, run: nat): set<nat> {
    set i: nat | i < |matched| &&
      var s := Lookup(Compared(states, matched[..i], dryRun, run), matched[i].variant);
      s.None? || s.value.stock != matched[i].row.stock
  }

  ghost function CostMoves(states: States, matched: seq<Matched>, dryRun: bool, run: nat): set<nat> {
    set i: nat | i < |matched| &&
      var s := Lookup(Compared(states, matched[..i], dryRun, run), matched[i].variant);
      s.None? || s.value.cost != Some(matched[i].row.cost) || s.value.currency != matched[i].row.currency
  }

  /** The counters of a run are numbers of rows: those whose variant has no stock yet or another, and the same for the
      cost with its currency; compared with the table before the run if it is dry, and otherwise as left by the rows
      before. */
  lemma {:induction false} CountersAreRows(states: States, matched: seq<Matched>, dryRun: bool, run: nat)
    ensures StockUpdates(states, matched, dryRun, run) == |StockMoves(states, matched, dryRun, run)|
    ensures CostUpdates(states, matched, dryRun, run) == |CostMoves(states, matched, dryRun, run)|
  {
    if matched != [] {
      var n := |matched| - 1;
      CountersAreRows(states, matched[..n], dryRun, run);
      MovesExtend(states, matched, dryRun, run);
      hide RowsApplied, StockMoves, CostMoves;
      var s := Lookup(Compared(states, matched[..n], dryRun, run), matched[n].variant);
      var row := matched[n].row;
      SetGrows(StockMoves(states, matched[..n], dryRun, run), StockMoves(states, matched, dryRun, run), n,
               s.None? || s.value.stock != row.stock);
      SetGrows(CostMoves(states, matched[..n], dryRun, run), CostMoves(states, matched, dryRun, run), n,
               s.None? || s.value.cost != Some(row.cost) || s.value.currency != row.currency);
    }
  }

  lemma MovesExtend(states: States, matched: seq<Matched>, dryRun: bool, run: nat)
    requires matched != []
    ensures var n := |matched| - 1;
      var s, row := Lookup(Compared(states, matched[..n], dryRun, run), matched[n].variant), matched[n].row;
      && (forall i: nat :: i in StockMoves(states, matched, dryRun, run) <==>
            || i in StockMoves(states, matched[..n], dryRun, run)
            || ((s.None? || s.value.stock != row.stock) && i == n))
      && (forall i: nat :: i in CostMoves(states, matched, dryRun, run) <==>
            || i in CostMoves(states, matched[..n], dryRun, run)
            || ((s.None? || s.value.cost != Some(row.cost) || s.value.currency != row.currency) && i == n))
      && n !in StockMoves(states, matched[..n], dryRun, run) && n !in CostMoves(states, matched[..n], dryRun, run)
  {
    hide Compared;
    var n := |matched| - 1;
    forall i: nat | i < n ensures matched[..n][..i] == matched[..i] && matched[..n][i] == matched[i] {
    }
  }

  /** Record `i` is not taken as it stands: it has the wrong keys or a bad field, or contradicts an earlier one. */
  ghost predicate IsFlawed(records: seq<Record>, i: nat) {
    i < |records| && (!records[i].WellFormed? || IsConflict(records, i))
  }

  lemma WarnedMeansFlawed(records: seq<Record>)
    ensures InvalidRows(records) != [] || |Conflicts(records)| > 0 <==> exists i: nat :: IsFlawed(records, i)
  {
    hide IsConflict;
    if i: nat :| IsFlawed(records, i) {
      InvalidRowsAreFlawed(records, InvalidRow(i + 1, Flaw(records, i).value));
    }
    if InvalidRows(records) != [] {
      var row := InvalidRows(records)[0];
      InvalidRowsAreFlawed(records, row);
      assert row in InvalidRows(records);
      assert IsFlawed(records, row.number - 1);
    }
    if |Conflicts(records)| > 0 {
      var i := AnElement(Conflicts(records));
      assert IsFlawed(records, i);
    }
  }

  /** The finished record of a run in terms of the records of the file; what is turned away at the gate reports no
      matches and no changes. */
  lemma ReportInFields(settings: Settings, items: Items, states: States, file: ParsedFile, records: seq<Record>,
                       exportedAt: Time, hash: nat, mode: Mode, dryRun: bool, id: nat)
    requires ReadFrom(file, records, exportedAt)
    ensures var run := Finished(settings, items, states, file, Begun(hash, mode, dryRun, file), id);
      var matched := MatchedRows(settings, items, FirstRows(records));
      && run.hash == hash && run.mode == mode && run.dryRun == dryRun
      && run.total == Counted(records) && run.valid == |CodesOf(records)| && run.duplicates == |Duplicates(records)|
      && run.total == run.valid + run.invalid + run.duplicates
      && (run.warned <==> exists i: nat :: IsFlawed(records, i))
      && (!GatePasses(settings, file, mode) ==>
            && run.matched == run.unmatched == run.ambiguous == 0
            && run.wouldStock == run.wouldCost == run.wouldZero == 0)
      && (GatePasses(settings, file, mode) ==>
            && run.matched == |matched| && run.matched + run.unmatched + run.ambiguous == run.valid
            && run.ambiguous == CountAmbiguous(settings, items, FirstRows(records))
            && run.wouldZero == (if mode == Full then |Absent(states, records)| else 0))
      && (run.status != Rejected ==>
            && run.wouldStock == |StockMoves(states, matched, dryRun, id)|
            && run.wouldCost == |CostMoves(states, matched, dryRun, id)|)
      && (run.status == Rejected ==> run.wouldStock == run.wouldCost == 0)
  {
    hide MatchedRows, StockUpdates, CostUpdates, CountUnmatched, CountAmbiguous, FirstRows, MissingZero, Absent,
      CodesOf, Conflicts, Duplicates, StockMoves, CostMoves, GatePasses, MissingTolerated, InvalidRows, IsFlawed;
    RowsAreCodes(records);
    WarnedMeansFlawed(records);
    AbsentIsMissing(states, records);
    MatchedComeFromRows(settings, items, FirstRows(records));
    CountersAreRows(states, MatchedRows(settings, items, FirstRows(records)), dryRun, id);
  }

  lemma {:induction false} RowDecidesItem(settings: Settings, items: Items, rows: seq<Row>, i: nat)
    requires i < |rows| && forall k | i < k < |rows| :: rows[k].code != rows[i].code
    ensures var row, before := rows[i], Lookup(items, rows[i].code);
      && row.code in ItemsAfter(settings, items, rows)
      && ItemsAfter(settings, items, rows)[row.code] == UpdatedItem(before, row, MatchRow(settings, before, row))
  {
    hide MatchRow, UpdatedItem, Lookup;
    var n := |rows| - 1;
    if i < n {
      assert rows[..n][i] == rows[i] && rows[n].code != rows[i].code;
      RowDecidesItem(settings, items, rows[..n], i);
    }
  }

  /** After a run that is not dry the item of every row carries what the row says; a mapping made by hand stays, and
      every other item takes what the catalog gives for the row. */
  lemma ItemsInFields(settings: Settings, items: Items, rows: seq<Row>, row: Row)
    requires UniqueCodes(rows) && row in rows
    ensures var after, before := ItemsAfter(settings, items, rows), Lookup(items, row.code);
      var byHand := before.Some? && before.value.explicitMapping;
      && row.code in after
      && after[row.code].sku == row.sku && after[row.code].barcode == row.barcode && after[row.code].name == row.name
      && after[row.code].explicitMapping == byHand
      && after[row.code].matched == if byHand then before.value.matched else settings.catalogMatch(row)
  {
    hide MatchRow, UpdatedItem, ItemsAfter, Lookup;
    var i :| 0 <= i < |rows| && rows[i] == row;
    RowDecidesItem(settings, items, rows, i);
    ItemOfRow(settings, items, row);
  }

  lemma ItemOfRow(settings: Settings, items: Items, row: Row)
    ensures var before := Lookup(items, row.code);
      var byHand := before.Some? && before.value.explicitMapping;
      var item := UpdatedItem(before, row, MatchRow(settings, before, row));
      && item.sku == row.sku && item.barcode == row.barcode && item.name == row.name
      && item.explicitMapping == byHand
      && item.matched == if byHand then before.value.matched else settings.catalogMatch(row)
  {
  }
}
