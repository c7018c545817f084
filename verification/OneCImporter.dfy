/**
 Importing a 1C export into the inventory of the catalog's variants.

 A FULL import also sets to zero the stock of variants whose source item is absent from the file. The list of those
 variants is taken before the rows of the file are applied, and each is written with the export time.
 */
module OneCImporter {
  import opened Arithmetic
  import opened Common
  import opened Inventory
  import opened OneCParser

  datatype Mode = Full | Partial

  datatype Status = Processing | Completed | CompletedWithWarnings | Failed | Rejected | DuplicateFile

  datatype Match = MatchedTo(variant: nat) | Unmatched | Ambiguous

  datatype Item = Item(sku: Option<string>, barcode: Option<string>, name: string, explicitMapping: bool,
                       matched: Match)

  /** `catalogMatch` stands for the search by barcode, code and name in a catalog that an import never changes. Ratios
      are kept as numerator and denominator. */
  datatype Settings = Settings(minRows: nat, validNum: nat, validDen: nat, missingNum: nat, missingDen: nat,
                               catalogMatch: Row -> Match)

  datatype Run = Run(hash: nat, mode: Mode, dryRun: bool, status: Status, total: nat, valid: nat, invalid: nat,
                     duplicates: nat, warned: bool, matched: nat, unmatched: nat, ambiguous: nat,
                     wouldStock: nat, wouldCost: nat, wouldZero: nat)

  /** Where an import raises, if anywhere: before row `before` is matched, before matched row `before` is applied, or
      before the zero that follows `after` others is written. */
  datatype Fault = NoFault | WhileMatching(before: nat) | WhileApplying(before: nat) | WhileZeroing(after: nat)

  datatype Matched = Matched(row: Row, variant: nat)

  type Items = map<string, Item>

  // ---------- Matching rows ----------

  /** A mapping made by hand comes before the catalog. */
  function MatchRow(settings: Settings, item: Option<Item>, row: Row): Match {
    if item.Some? && item.value.explicitMapping && item.value.matched.MatchedTo? then item.value.matched
    else settings.catalogMatch(row)
  }

  function UpdatedItem(item: Option<Item>, row: Row, m: Match): Item {
    if item.Some? && item.value.explicitMapping then
      item.value.(sku := row.sku, barcode := row.barcode, name := row.name)
    else Item(row.sku, row.barcode, row.name, false, m)
  }

  function MatchedRows(settings: Settings, items: Items, rows: seq<Row>): seq<Matched> {
    if rows == [] then [] else
      var row := rows[|rows| - 1];
      var m := MatchRow(settings, Lookup(items, row.code), row);
      MatchedRows(settings, items, rows[..|rows| - 1]) + if m.MatchedTo? then [Matched(row, m.variant)] else []
  }

  function CountUnmatched(settings: Settings, items: Items, rows: seq<Row>): nat {
    if rows == [] then 0 else
      var row := rows[|rows| - 1];
      CountUnmatched(settings, items, rows[..|rows| - 1])
      + if MatchRow(settings, Lookup(items, row.code), row) == Unmatched then 1 else 0
  }

  function CountAmbiguous(settings: Settings, items: Items, rows: seq<Row>): nat {
    if rows == [] then 0 else
      var row := rows[|rows| - 1];
      CountAmbiguous(settings, items, rows[..|rows| - 1])
      + if MatchRow(settings, Lookup(items, row.code), row) == Ambiguous then 1 else 0
  }

  function ItemsAfter(settings: Settings, items: Items, rows: seq<Row>): (after: Items)
    ensures items.Keys <= after.Keys
    ensures forall row | row in rows :: row.code in after
  {
    if rows == [] then items else
      var row := rows[|rows| - 1];
      var before := ItemsAfter(settings, items, rows[..|rows| - 1]);
      assert forall r | r in rows :: r in rows[..|rows| - 1] || r == row;
      before[row.code := UpdatedItem(Lookup(items, row.code), row, MatchRow(settings, Lookup(items, row.code), row))]
  }

  // ---------- Applying rows and zeroing absent items ----------

  function RowUpdate(row: Row, run: nat): Update {
    Update(row.stock, Some(row.cost), row.currency, row.code, row.updatedAt, run)
  }

  function RowsApplied(states: States, matched: seq<Matched>, run: nat): (after: States)
    ensures states.Keys <= after.Keys
  {
    if matched == [] then states else
      var before := RowsApplied(states, matched[..|matched| - 1], run);
      var m := matched[|matched| - 1];
      before[m.variant := Stored(Lookup(before, m.variant), RowUpdate(m.row, run))]
  }

  function Active(states: States): set<nat> {
    set v | v in states && states[v].stock > 0
  }

  /** The variants in stock whose source item is absent from the file. */
  function MissingZero(states: States, rows: seq<Row>): set<nat> {
    set v | v in states && states[v].stock > 0 && forall row | row in rows :: row.code != states[v].source
  }

  /** Zeroing keeps the cost that is stored by then and names the item that was the source when the list was taken. */
  function ZeroUpdate(listed: State, current: State, exportedAt: Time, run: nat): Update {
    Update(0, current.cost, current.currency, listed.source, exportedAt, run)
  }

  function Zeroed(listed: States, current: States, missing: set<nat>, exportedAt: Time, run: nat): States
    requires missing <= listed.Keys
  {
    map v | v in current ::
      if v in missing then Stored(Some(current[v]), ZeroUpdate(listed[v], current[v], exportedAt, run)) else current[v]
  }

  predicate GatePasses(settings: Settings, file: ParsedFile, mode: Mode) {
    mode == Full ==>
      && settings.minRows <= |file.rows|
      && settings.validNum * (if file.TotalRows() >= 1 then file.TotalRows() else 1) <= |file.rows| * settings.validDen
  }

  function MissingIn(states: States, file: ParsedFile, mode: Mode): (missing: set<nat>)
    ensures missing <= states.Keys
  {
    if mode == Full then MissingZero(states, file.rows) else {}
  }

  predicate MissingTolerated(settings: Settings, states: States, file: ParsedFile, mode: Mode) {
    mode == Full && Active(states) != {} ==>
      |MissingZero(states, file.rows)| * settings.missingDen <= settings.missingNum * |Active(states)|
  }

  predicate Accepted(settings: Settings, states: States, file: ParsedFile, mode: Mode) {
    GatePasses(settings, file, mode) && MissingTolerated(settings, states, file, mode)
  }

  /** The inventory after an accepted import. */
  function Imported(settings: Settings, items: Items, states: States, file: ParsedFile, mode: Mode, run: nat): States {
    Zeroed(states, RowsApplied(states, MatchedRows(settings, items, file.rows), run), MissingIn(states, file, mode),
           file.exportedAt, run)
  }

  // ---------- Counting what would change ----------

  function StockDiffers(s: Option<State>, row: Row): nat {
    if s == None || s.value.stock != row.stock then 1 else 0
  }

  function CostDiffers(s: Option<State>, row: Row): nat {
    if s == None || s.value.cost != Some(row.cost) || s.value.currency != row.currency then 1 else 0
  }

  /** The states that the counting loop compares a row with: untouched in a dry run, else those left by earlier rows. */
  function Compared(states: States, earlier: seq<Matched>, dryRun: bool, run: nat): States {
    if dryRun then states else RowsApplied(states, earlier, run)
  }

  function StockUpdates(states: States, matched: seq<Matched>, dryRun: bool, run: nat): nat {
    if matched == [] then 0 else
      var m, front := matched[|matched| - 1], matched[..|matched| - 1];
      StockUpdates(states, front, dryRun, run)
        + StockDiffers(Lookup(Compared(states, front, dryRun, run), m.variant), m.row)
  }

  function CostUpdates(states: States, matched: seq<Matched>, dryRun: bool, run: nat): nat {
    if matched == [] then 0 else
      var m, front := matched[|matched| - 1], matched[..|matched| - 1];
      CostUpdates(states, front, dryRun, run)
        + CostDiffers(Lookup(Compared(states, front, dryRun, run), m.variant), m.row)
  }

  /** The finished record of a run that does not raise. */
  function Finished(settings: Settings, items: Items, states: States, file: ParsedFile, started: Run, id: nat): Run {
    if !GatePasses(settings, file, started.mode) then started.(status := Rejected) else
      var matched := MatchedRows(settings, items, file.rows);
      var counted := started.(matched := |matched|,
                              unmatched := CountUnmatched(settings, items, file.rows),
                              ambiguous := CountAmbiguous(settings, items, file.rows),
                              wouldZero := |MissingIn(states, file, started.mode)|);
      if !MissingTolerated(settings, states, file, started.mode) then counted.(status := Rejected)
      else counted.(wouldStock := StockUpdates(states, matched, started.dryRun, id),
                    wouldCost := CostUpdates(states, matched, started.dryRun, id),
                    status := if started.warned then CompletedWithWarnings else Completed)
  }

  // ---------- Imports that raise ----------

  /** Does the fault strike before the import has ended? */
  predicate Strikes(settings: Settings, items: Items, states: States, file: ParsedFile, mode: Mode, dryRun: bool,
                    fault: Fault)
  {
    && GatePasses(settings, file, mode)
    && match fault
       case NoFault => false
       case WhileMatching(n) => n < |file.rows|
       case WhileApplying(n) =>
         MissingTolerated(settings, states, file, mode) && n < |MatchedRows(settings, items, file.rows)|
       case WhileZeroing(n) =>
         MissingTolerated(settings, states, file, mode) && !dryRun && n < |MissingIn(states, file, mode)|
  }

  /** The items after a run that is not dry; a fault in the matching loop leaves the rows before it. */
  function ItemsLeft(settings: Settings, items: Items, file: ParsedFile, fault: Fault): Items {
    if fault.WhileMatching? && fault.before < |file.rows| then ItemsAfter(settings, items, file.rows[..fault.before])
    else ItemsAfter(settings, items, file.rows)
  }

  /** The inventory that a striking fault leaves: untouched, with the rows before it, or with all rows and as many of
      the zeroes as were written. */
  ghost predicate StatesLeft(settings: Settings, items: Items, states: States, file: ParsedFile, mode: Mode,
                             dryRun: bool, run: nat, fault: Fault, after: States)
    requires Strikes(settings, items, states, file, mode, dryRun, fault)
  {
    var matched := MatchedRows(settings, items, file.rows);
    match fault
    case WhileMatching(_) => after == states
    case WhileApplying(n) => after == Compared(states, matched[..n], dryRun, run)
    case WhileZeroing(n) =>
      exists done | done <= MissingIn(states, file, mode) ::
        |done| == n && after == Zeroed(states, RowsApplied(states, matched, run), done, file.exportedAt, run)
  }

  // ---------- The import variant by variant ----------

  /** The writes that the matched rows make to one variant. */
  function UpdatesFor(matched: seq<Matched>, variant: nat, run: nat): seq<Update> {
    if matched == [] then [] else
      var m := matched[|matched| - 1];
      UpdatesFor(matched[..|matched| - 1], variant, run) + if m.variant == variant then [RowUpdate(m.row, run)] else []
  }

  lemma {:induction false} RowsAppliedPointwise(states: States, matched: seq<Matched>, run: nat, variant: nat)
    ensures Lookup(RowsApplied(states, matched, run), variant)
            == Fold(Lookup(states, variant), UpdatesFor(matched, variant, run))
  {
    if matched != [] {
      var front, m := matched[..|matched| - 1], matched[|matched| - 1];
      RowsAppliedPointwise(states, front, run, variant);
      var updates := UpdatesFor(front, variant, run);
      assert (updates + [RowUpdate(m.row, run)])[..|updates|] == updates;
      assert updates + [] == updates;
    }
  }

  /** An import acts on each variant alone: its rows in file order, then zero if it was listed as missing. */
  lemma ImportedPointwise(settings: Settings, items: Items, states: States, file: ParsedFile, mode: Mode, run: nat,
                          variant: nat)
    ensures Lookup(Imported(settings, items, states, file, mode, run), variant) ==
            var rowed := Fold(Lookup(states, variant),
                              UpdatesFor(MatchedRows(settings, items, file.rows), variant, run));
            if variant in MissingIn(states, file, mode) && rowed.Some? then
              Some(Stored(rowed, ZeroUpdate(states[variant], rowed.value, file.exportedAt, run)))
            else rowed
    ensures variant in MissingIn(states, file, mode) ==>
              Fold(Lookup(states, variant), UpdatesFor(MatchedRows(settings, items, file.rows), variant, run)).Some?
  {
    RowsAppliedPointwise(states, MatchedRows(settings, items, file.rows), run, variant);
  }

  ghost predicate DistinctVariants(matched: seq<Matched>) {
    forall i, j | 0 <= i < j < |matched| :: matched[i].variant != matched[j].variant
  }

  lemma {:induction false} UpdatesForUnmatched(matched: seq<Matched>, variant: nat, run: nat)
    requires forall m | m in matched :: m.variant != variant
    ensures UpdatesFor(matched, variant, run) == []
  {
    if matched != [] {
      assert matched[|matched| - 1] in matched;
      UpdatesForUnmatched(matched[..|matched| - 1], variant, run);
    }
  }

  lemma {:induction false} UpdatesForDistinct(matched: seq<Matched>, m: Matched, run: nat)
    requires DistinctVariants(matched) && m in matched
    ensures UpdatesFor(matched, m.variant, run) == [RowUpdate(m.row, run)]
  {
    var front, last := matched[..|matched| - 1], matched[|matched| - 1];
    if last == m {
      forall x | x in front ensures x.variant != m.variant {
        var i :| 0 <= i < |front| && front[i] == x;
        assert matched[i] == x;
      }
      UpdatesForUnmatched(front, m.variant, run);
    } else {
      var i :| 0 <= i < |matched| && matched[i] == m;
      assert front[i] == m;
      UpdatesForDistinct(front, m, run);
    }
  }

  /** The specification of an import whose matched rows go to distinct variants, none of them listed as missing: each
      matched variant takes its row unless the row is older, each listed variant becomes zero unless it is newer than
      the export, and every other variant is unchanged. */
  lemma ImportSpecification(settings: Settings, items: Items, states: States, file: ParsedFile, mode: Mode, run: nat,
                            variant: nat)
    requires var matched := MatchedRows(settings, items, file.rows);
             DistinctVariants(matched) && forall m | m in matched :: m.variant !in MissingIn(states, file, mode)
    ensures var after := Lookup(Imported(settings, items, states, file, mode, run), variant);
            var s := Lookup(states, variant);
            && (forall m | m in MatchedRows(settings, items, file.rows) && m.variant == variant ::
                  after == if s.Some? && m.row.updatedAt < s.value.updatedAt then s
                           else Some(State(m.row.stock, Some(m.row.cost), m.row.currency, m.row.code, m.row.updatedAt,
                                           run)))
            && (variant in MissingIn(states, file, mode) ==>
                  after == if file.exportedAt < s.value.updatedAt then s
                           else Some(s.value.(stock := 0, updatedAt := file.exportedAt, run := run)))
            && (variant in MissingIn(states, file, mode)
                || after == s
                || exists m | m in MatchedRows(settings, items, file.rows) :: m.variant == variant)
  {
    var matched := MatchedRows(settings, items, file.rows);
    ImportedPointwise(settings, items, states, file, mode, run, variant);
    hide MatchedRows, Imported, MissingZero;
    var s := Lookup(states, variant);
    assert Fold(s, []) == s;
    if m :| m in matched && m.variant == variant {
      forall m' | m' in matched && m'.variant == variant ensures m' == m {
        var i, j :| 0 <= i < |matched| && 0 <= j < |matched| && matched[i] == m && matched[j] == m';
      }
      UpdatesForDistinct(matched, m, run);
      assert [RowUpdate(m.row, run)][..0] == [];
      assert Fold(s, [RowUpdate(m.row, run)]) == Some(Stored(s, RowUpdate(m.row, run)));
    } else {
      UpdatesForUnmatched(matched, variant, run);
    }
  }

  /** What the rows wrote survives the zeroing exactly when they wrote no stock, or the variant was not listed as
      missing, or what they wrote is newer than the export. */
  lemma RowedStockSurvivesExactlyWhen(settings: Settings, items: Items, states: States, file: ParsedFile, mode: Mode,
                                      run: nat, variant: nat)
    requires variant in RowsApplied(states, MatchedRows(settings, items, file.rows), run)
    ensures var rowed := RowsApplied(states, MatchedRows(settings, items, file.rows), run)[variant];
            && variant in Imported(settings, items, states, file, mode, run)
            && (Imported(settings, items, states, file, mode, run)[variant].stock == rowed.stock
                <==> rowed.stock == 0 || variant !in MissingIn(states, file, mode) || file.exportedAt < rowed.updatedAt)
  {
  }

  /** The variants whose state the zeroing changes after the rows have been applied. */
  function ZeroedByAbsence(settings: Settings, items: Items, states: States, file: ParsedFile, mode: Mode,
                           run: nat): set<nat>
  {
    var rowed := RowsApplied(states, MatchedRows(settings, items, file.rows), run);
    var after := Imported(settings, items, states, file, mode, run);
    set v | v in after && after[v] != rowed[v]
  }

  /** Absence zeroes at most the configured share of the variants in stock, and nothing in a PARTIAL import. */
  lemma ZeroedByAbsenceBounded(settings: Settings, items: Items, states: States, file: ParsedFile, mode: Mode, run: nat)
    requires Accepted(settings, states, file, mode)
    ensures mode == Partial ==> ZeroedByAbsence(settings, items, states, file, mode, run) == {}
    ensures |ZeroedByAbsence(settings, items, states, file, mode, run)| * settings.missingDen
         <= settings.missingNum * |Active(states)|
  {
    var byAbsence := ZeroedByAbsence(settings, items, states, file, mode, run);
    var missing := MissingIn(states, file, mode);
    assert byAbsence <= missing <= Active(states);
    hide MissingZero, Active, ZeroedByAbsence;
    if mode == Full && Active(states) != {} {
      SubsetSize(byAbsence, missing);
      MulMonotone(|byAbsence|, |missing|, settings.missingDen);
    } else {
      assert byAbsence == {};
      assert |byAbsence| * settings.missingDen == 0;
      assert 0 <= settings.missingNum * |Active(states)|;
    }
  }

  lemma SubsetSize<T>(a: set<T>, b: set<T>)
    requires a <= b
    ensures |a| <= |b|
  {
    assert b == a + (b - a);
  }

  // ---------- Dry runs ----------

  lemma {:induction false} UntouchedVariant(states: States, matched: seq<Matched>, run: nat, variant: nat)
    requires forall m | m in matched :: m.variant != variant
    ensures Lookup(RowsApplied(states, matched, run), variant) == Lookup(states, variant)
  {
    if matched != [] {
      UntouchedVariant(states, matched[..|matched| - 1], run, variant);
    }
  }

  lemma {:induction false} LiveCountsArePreview(states: States, matched: seq<Matched>, run: nat, dryRun: nat)
    requires DistinctVariants(matched)
    ensures StockUpdates(states, matched, false, run) == StockUpdates(states, matched, true, dryRun)
    ensures CostUpdates(states, matched, false, run) == CostUpdates(states, matched, true, dryRun)
  {
    if matched != [] {
      var front, m := matched[..|matched| - 1], matched[|matched| - 1];
      LiveCountsArePreview(states, front, run, dryRun);
      forall x | x in front ensures x.variant != m.variant {
        var i :| 0 <= i < |front| && front[i] == x;
        assert matched[i] == x;
      }
      UntouchedVariant(states, front, run, m.variant);
    }
  }

  /** From the same tables and file, a dry run reports what the real run will report, unless two rows of the file are
      matched to one variant. */
  lemma DryRunPreviews(settings: Settings, items: Items, states: States, file: ParsedFile, started: Run, dryId: nat,
                       realId: nat)
    requires DistinctVariants(MatchedRows(settings, items, file.rows))
    ensures Finished(settings, items, states, file, started.(dryRun := true), dryId).(dryRun := false)
         == Finished(settings, items, states, file, started.(dryRun := false), realId)
  {
    LiveCountsArePreview(states, MatchedRows(settings, items, file.rows), realId, dryId);
  }

  // ---------- The importer ----------

  /** A run that stands for its file: neither failed nor a note that the file was seen before. */
  predicate Standing(r: Run) {
    r.status != Failed && r.status != DuplicateFile
  }

  /** No two standing runs share a file and a dry-run flag. */
  ghost predicate OneStandingRunPerFile(runs: seq<Run>) {
    forall i, j | 0 <= i < j < |runs| && Standing(runs[i]) && Standing(runs[j]) ::
      runs[i].hash != runs[j].hash || runs[i].dryRun != runs[j].dryRun
  }

  ghost predicate SourcesKnown(states: States, items: Items) {
    forall v | v in states :: states[v].source in items
  }

  lemma {:induction false} RowsAppliedSources(states: States, items: Items, matched: seq<Matched>, run: nat)
    requires SourcesKnown(states, items) && forall m | m in matched :: m.row.code in items
    ensures SourcesKnown(RowsApplied(states, matched, run), items)
  {
    if matched != [] {
      RowsAppliedSources(states, items, matched[..|matched| - 1], run);
    }
  }

  lemma {:induction false} MatchedComeFromRows(settings: Settings, items: Items, rows: seq<Row>)
    ensures forall m | m in MatchedRows(settings, items, rows) :: m.row in rows
    ensures |MatchedRows(settings, items, rows)| + CountUnmatched(settings, items, rows)
            + CountAmbiguous(settings, items, rows) == |rows|
  {
    if rows != [] {
      MatchedComeFromRows(settings, items, rows[..|rows| - 1]);
    }
  }

  /** Rows that do not carry a code leave the item of that code alone. */
  lemma {:induction false} ItemsAfterElsewhere(settings: Settings, items: Items, rows: seq<Row>, code: string)
    requires forall row | row in rows :: row.code != code
    ensures Lookup(ItemsAfter(settings, items, rows), code) == Lookup(items, code)
  {
    if rows != [] {
      ItemsAfterElsewhere(settings, items, rows[..|rows| - 1], code);
    }
  }

  /** The stock history grows by rows of the file, and behind them by zeroes that are marked as due to absence. */
  ghost predicate Marked(before: seq<StockRow>, after: seq<StockRow>, matched: seq<Matched>, missing: set<nat>) {
    && before <= after
    && (forall i | |before| <= i < |after| ::
          if after[i].byAbsence then after[i].stock == 0 && after[i].variant in missing
          else exists m | m in matched :: m.variant == after[i].variant && m.row.stock == after[i].stock)
    && (forall i, j | |before| <= i < j < |after| && after[i].byAbsence :: after[j].byAbsence)
  }

  ghost predicate MarkedByFile(settings: Settings, items: Items, states: States, records: seq<Record>, mode: Mode,
                               before: seq<StockRow>, after: seq<StockRow>)
  {
    Marked(before, after, MatchedRows(settings, items, FirstRows(records)),
           if mode == Full then MissingZero(states, FirstRows(records)) else {})
  }

  /** One more row of the history: of a matched row as long as none is due to absence, or due to absence itself. */
  lemma MarkedExtends(before: seq<StockRow>, after: seq<StockRow>, matched: seq<Matched>, missing: set<nat>,
                      s: Option<State>, variant: nat, u: Update, byAbsence: bool)
    requires Marked(before, after, matched, missing)
    requires if byAbsence then u.stock == 0 && variant in missing
             else && (exists m | m in matched :: m.variant == variant && m.row.stock == u.stock)
                  && forall i | |before| <= i < |after| :: !after[i].byAbsence
    ensures Marked(before, after + StockRows(s, variant, u, byAbsence), matched, missing)
    ensures forall r | r in StockRows(s, variant, u, byAbsence) :: r.byAbsence == byAbsence
  {
  }

  class Importer {
    const settings: Settings
    var items: Items
    var states: States
    var stocks: seq<StockRow>
    var costs: seq<CostRow>
    var runs: seq<Run>

    ghost predicate Valid()
      reads this
    {
      && HistoriesFit(states, stocks, costs)
      && SourcesKnown(states, items)
      && OneStandingRunPerFile(runs)
    }

    constructor (settings: Settings)
      ensures Valid() && this.settings == settings
      ensures items == map[] && states == map[] && stocks == [] && costs == [] && runs == []
    {
      this.settings := settings;
      items, states, stocks, costs, runs := map[], map[], [], [], [];
    }

    method ApplyState(variant: nat, u: Update, byAbsence: bool)
      requires HistoriesFit(states, stocks, costs)
      modifies this`states, this`stocks, this`costs
      ensures HistoriesFit(states, stocks, costs)
      ensures states == old(states)[variant := Stored(Lookup(old(states), variant), u)]
      ensures stocks == old(stocks) + StockRows(Lookup(old(states), variant), variant, u, byAbsence)
      ensures costs == old(costs) + CostRows(Lookup(old(states), variant), variant, u)
    {
      hide HistoriesFit;
      HistoriesFitAfter(states, stocks, costs, variant, u, byAbsence);
      if variant in states && u.at < states[variant].updatedAt {
        assert states[variant := states[variant]] == states;
        assert stocks + [] == stocks && costs + [] == costs;
        return;
      }
      var stockChanged := variant !in states || states[variant].stock != u.stock;
      var costChanged := u.cost.Some?
        && (variant !in states || states[variant].cost != u.cost || states[variant].currency != u.currency);
      if variant !in states {
        states := states[variant := State(u.stock, u.cost, u.currency, u.source, u.at, u.run)];
      } else {
        var s := states[variant].(stock := u.stock);
        if u.cost.Some? {
          s := s.(cost := u.cost, currency := u.currency);
        }
        states := states[variant := s.(source := u.source, updatedAt := u.at, run := u.run)];
      }
      stocks := stocks + if stockChanged then [StockRow(variant, u.stock, u.source, u.run, u.at, byAbsence)] else [];
      costs := costs + if costChanged then [CostRow(variant, u.cost.value, u.currency, u.source, u.run, u.at)] else [];
    }

    /** Matches every row against the items as they were, and brings the items up to date unless the run is dry. */
    method MatchRows(rows: seq<Row>, dryRun: bool)
      returns (matched: seq<Matched>, unmatched: nat, ambiguous: nat)
      requires UniqueCodes(rows)
      modifies this`items
      ensures matched == MatchedRows(settings, old(items), rows)
      ensures unmatched == CountUnmatched(settings, old(items), rows)
      ensures ambiguous == CountAmbiguous(settings, old(items), rows)
      ensures items == if dryRun then old(items) else ItemsAfter(settings, old(items), rows)
    {
      matched, unmatched, ambiguous := [], 0, 0;
      for i := 0 to |rows|
        invariant matched == MatchedRows(settings, old(items), rows[..i])
        invariant unmatched == CountUnmatched(settings, old(items), rows[..i])
        invariant ambiguous == CountAmbiguous(settings, old(items), rows[..i])
        invariant items == if dryRun then old(items) else ItemsAfter(settings, old(items), rows[..i])
      {
        var row := rows[i];
        assert rows[..i + 1][..i] == rows[..i];
        ItemsAfterElsewhere(settings, old(items), rows[..i], row.code);
        var existing := Lookup(items, row.code);
        assert existing == Lookup(old(items), row.code);
        var m := MatchRow(settings, existing, row);
        match m {
          case MatchedTo(variant) => matched := matched + [Matched(row, variant)];
          case Ambiguous => ambiguous := ambiguous + 1;
          case Unmatched => unmatched := unmatched + 1;
        }
        if !dryRun {
          items := items[row.code := UpdatedItem(existing, row, m)];
        }
      }
      assert rows[..|rows|] == rows;
    }

    /** Applies the matched rows in file order; raises before row `faultAt` if there is one. */
    method ApplyRows(matched: seq<Matched>, dryRun: bool, id: nat, faultAt: Option<nat>)
      returns (wouldStock: nat, wouldCost: nat, raised: bool)
      requires HistoriesFit(states, stocks, costs)
      modifies this`states, this`stocks, this`costs
      ensures HistoriesFit(states, stocks, costs)
      ensures raised <==> faultAt.Some? && faultAt.value < |matched|
      ensures var n := if raised then faultAt.value else |matched|;
              && states == Compared(old(states), matched[..n], dryRun, id)
              && wouldStock == StockUpdates(old(states), matched[..n], dryRun, id)
              && wouldCost == CostUpdates(old(states), matched[..n], dryRun, id)
      ensures old(stocks) <= stocks && old(costs) <= costs
      ensures Marked(old(stocks), stocks, matched, {})
      ensures dryRun ==> stocks == old(stocks) && costs == old(costs)
    {
      hide HistoriesFit, Marked, StockRows, CostRows;
      NothingMarked(stocks, matched, {});
      wouldStock, wouldCost := 0, 0;
      for i := 0 to |matched|
        invariant HistoriesFit(states, stocks, costs)
        invariant faultAt.Some? ==> i <= faultAt.value || |matched| <= faultAt.value
        invariant states == Compared(old(states), matched[..i], dryRun, id)
        invariant wouldStock == StockUpdates(old(states), matched[..i], dryRun, id)
        invariant wouldCost == CostUpdates(old(states), matched[..i], dryRun, id)
        invariant old(stocks) <= stocks && old(costs) <= costs
        invariant Marked(old(stocks), stocks, matched, {})
        invariant dryRun ==> stocks == old(stocks) && costs == old(costs)
      {
        if faultAt == Some(i) {
          return wouldStock, wouldCost, true;
        }
        var m := matched[i];
        assert matched[..i + 1][..i] == matched[..i];
        wouldStock := wouldStock + StockDiffers(Lookup(states, m.variant), m.row);
        wouldCost := wouldCost + CostDiffers(Lookup(states, m.variant), m.row);
        if !dryRun {
          MarkedByRow(old(stocks), stocks, matched, Lookup(states, m.variant), m, id);
          ApplyState(m.variant, RowUpdate(m.row, id), false);
        }
      }
      assert matched[..|matched|] == matched;
      raised := false;
    }

    /** Zeroes `upTo` of the listed variants, in any order; the list was taken from the table `listed`. */
    method ZeroMissing(listed: States, missing: set<nat>, upTo: nat, exportedAt: Time, id: nat,
                       ghost stocks0: seq<StockRow>, ghost matched: seq<Matched>)
      returns (ghost done: set<nat>)
      requires Marked(stocks0, stocks, matched, {})
      requires HistoriesFit(states, stocks, costs)
      requires missing <= listed.Keys <= states.Keys && upTo <= |missing|
      modifies this`states, this`stocks, this`costs
      ensures HistoriesFit(states, stocks, costs)
      ensures done <= missing && |done| == upTo && (upTo == |missing| ==> done == missing)
      ensures states == Zeroed(listed, old(states), done, exportedAt, id)
      ensures old(stocks) <= stocks && old(costs) <= costs
      ensures Marked(stocks0, stocks, matched, missing)
    {
      hide HistoriesFit, Zeroed, Marked;
      MarkedByMore(stocks0, stocks, matched, missing);
      var todo := missing;
      done := {};
      NothingZeroed(listed, states, exportedAt, id);
      for i := 0 to upTo
        invariant done !! todo && done + todo == missing && |done| == i && |todo| == |missing| - i
        invariant HistoriesFit(states, stocks, costs)
        invariant states == Zeroed(listed, old(states), done, exportedAt, id)
        invariant old(stocks) <= stocks && old(costs) <= costs
        invariant Marked(stocks0, stocks, matched, missing)
      {
        var v := AnyOf(todo);
        todo := todo - {v};
        ZeroedExtends(listed, old(states), done, v, exportedAt, id);
        MarkedExtends(stocks0, stocks, matched, missing, Lookup(states, v), v,
                      ZeroUpdate(listed[v], states[v], exportedAt, id), true);
        ApplyState(v, ZeroUpdate(listed[v], states[v], exportedAt, id), true);
        done := done + {v};
      }
      if upTo == |missing| {
        assert todo == {};
      }
    }

    /** The two writing loops: the matched rows, then the zeroes. */
    method WriteStates(matched: seq<Matched>, missing: set<nat>, dryRun: bool, exportedAt: Time, id: nat, fault: Fault)
      returns (wouldStock: nat, wouldCost: nat, raised: bool)
      requires HistoriesFit(states, stocks, costs) && SourcesKnown(states, items)
      requires missing <= states.Keys && (!dryRun ==> forall m | m in matched :: m.row.code in items)
      modifies this`states, this`stocks, this`costs
      ensures HistoriesFit(states, stocks, costs) && SourcesKnown(states, items)
      ensures old(stocks) <= stocks && old(costs) <= costs
      ensures Marked(old(stocks), stocks, matched, missing)
      ensures raised <==> (fault.WhileApplying? && fault.before < |matched|)
                          || (fault.WhileZeroing? && !dryRun && fault.after < |missing|)
      ensures dryRun ==> states == old(states) && stocks == old(stocks) && costs == old(costs)
      ensures !raised ==>
                && wouldStock == StockUpdates(old(states), matched, dryRun, id)
                && wouldCost == CostUpdates(old(states), matched, dryRun, id)
                && (!dryRun ==>
                      states == Zeroed(old(states), RowsApplied(old(states), matched, id), missing, exportedAt, id))
      ensures raised && fault.WhileApplying? ==> states == Compared(old(states), matched[..fault.before], dryRun, id)
      ensures raised && fault.WhileZeroing? ==>
                exists done | done <= missing ::
                  |done| == fault.after
                  && states == Zeroed(old(states), RowsApplied(old(states), matched, id), done, exportedAt, id)
    {
      hide HistoriesFit, RowsApplied, StockUpdates, CostUpdates, Zeroed, SourcesKnown, Marked;
      ghost var listed := states;
      var before := states;
      var strike := if fault.WhileApplying? then Some(fault.before) else None;
      wouldStock, wouldCost, raised := ApplyRows(matched, dryRun, id, strike);
      if !dryRun {
        ghost var n := if raised then fault.before else |matched|;
        assert forall m | m in matched[..n] :: m in matched;
        RowsAppliedSources(listed, items, matched[..n], id);
      }
      assert matched[..|matched|] == matched;
      MarkedByMore(old(stocks), stocks, matched, missing);
      if raised || dryRun {
        return;
      }
      raised := fault.WhileZeroing? && fault.after < |missing|;
      ghost var rowed := states;
      ghost var done := ZeroMissing(before, missing, if raised then fault.after else |missing|, exportedAt, id,
                                    old(stocks), matched);
      ZeroedSources(listed, rowed, done, exportedAt, id, items);
    }

    /** `raised` leaves whatever had been written by then in place. */
    method ApplyImport(started: Run, file: ParsedFile, id: nat, fault: Fault) returns (run: Run, raised: bool)
      requires UniqueCodes(file.rows)
      requires HistoriesFit(states, stocks, costs) && SourcesKnown(states, items)
      modifies this`items, this`states, this`stocks, this`costs
      ensures HistoriesFit(states, stocks, costs) && SourcesKnown(states, items)
      ensures old(stocks) <= stocks && old(costs) <= costs
      ensures items == if started.dryRun || !GatePasses(settings, file, started.mode) then old(items)
                       else ItemsLeft(settings, old(items), file, fault)
      ensures run.hash == started.hash && run.dryRun == started.dryRun
      ensures raised <==> Strikes(settings, old(items), old(states), file, started.mode, started.dryRun, fault)
      ensures raised ==>
                StatesLeft(settings, old(items), old(states), file, started.mode, started.dryRun, id, fault, states)
      ensures !raised ==> run == Finished(settings, old(items), old(states), file, started, id)
      ensures !raised && run.status != Rejected && !started.dryRun ==>
                states == Imported(settings, old(items), old(states), file, started.mode, id)
      ensures !raised && run.status == Rejected ==>
                states == old(states) && stocks == old(stocks) && costs == old(costs)
      ensures started.dryRun ==> states == old(states) && stocks == old(stocks) && costs == old(costs)
      ensures Marked(old(stocks), stocks, MatchedRows(settings, old(items), file.rows),
                     MissingIn(old(states), file, started.mode))
    {
      hide HistoriesFit, MatchedRows, CountUnmatched, CountAmbiguous, RowsApplied, ItemsAfter, MissingZero, Active,
           StockUpdates, CostUpdates, Zeroed, GatePasses, MissingTolerated, UniqueCodes, Marked;
      NothingMarked(stocks, MatchedRows(settings, items, file.rows), MissingIn(states, file, started.mode));
      run, raised := started, false;
      if !GatePasses(settings, file, started.mode) {
        run := run.(status := Rejected);
        return;
      }
      if fault.WhileMatching? && fault.before < |file.rows| {
        UniqueInPrefix(file.rows, fault.before);
        var _, _, _ := MatchRows(file.rows[..fault.before], started.dryRun);
        return run, true;
      }
      ghost var before := items;
      var matched, unmatched, ambiguous := MatchRows(file.rows, started.dryRun);
      MatchedComeFromRows(settings, before, file.rows);
      assert SourcesKnown(states, items);
      var listed := states;
      var missing := MissingIn(states, file, started.mode);
      run := run.(matched := |matched|, unmatched := unmatched, ambiguous := ambiguous, wouldZero := |missing|);
      if !MissingTolerated(settings, states, file, started.mode) {
        run := run.(status := Rejected);
        return;
      }
      var wouldStock, wouldCost;
      wouldStock, wouldCost, raised := WriteStates(matched, missing, started.dryRun, file.exportedAt, id, fault);
      run := run.(wouldStock := wouldStock, wouldCost := wouldCost);
      if raised {
        return;
      }
      run := run.(status := if run.warned then CompletedWithWarnings else Completed);
    }

    /** Imports a file given by the hash of its content and its records. A file that a standing run of the same kind
        already covers changes nothing. */
    method ImportFile(hash: nat, records: seq<Record>, exportedAt: Time, mode: Mode, dryRun: bool, fault: Fault)
      returns (run: Run)
      requires Valid()
      modifies this
      ensures Valid()
      ensures runs == old(runs) + [run] && run.hash == hash && run.dryRun == dryRun
      ensures run.status == DuplicateFile
         <==> exists r | r in old(runs) :: r.hash == hash && r.dryRun == dryRun && r.status != Failed
      ensures old(stocks) <= stocks && old(costs) <= costs
      ensures run.status == DuplicateFile || run.status == Rejected || dryRun ==>
                states == old(states) && stocks == old(stocks) && costs == old(costs)
      ensures run.status == DuplicateFile || dryRun ==> items == old(items)
      ensures MarkedByFile(settings, old(items), old(states), records, mode, old(stocks), stocks)
      ensures run.status != DuplicateFile ==>
                exists file | ReadFrom(file, records, exportedAt) ::
                  Leaves(settings, old(items), old(states), file, Begun(hash, mode, dryRun, file), |old(runs)|, fault,
                         run, items, states)
    {
      hide HistoriesFit, SourcesKnown, Imported, MissingZero, Active, FirstRows, Conflicts, Duplicates, InvalidRows,
           ItemsAfter, MatchedRows, Compared, GatePasses, MissingTolerated, CountUnmatched, CountAmbiguous,
           StockUpdates, CostUpdates, Strikes, StatesLeft, ItemsLeft, Marked, MarkedByFile, MissingIn;
      NothingMarkedByFile(settings, items, states, records, mode, stocks);
      var known := exists r | r in runs :: r.hash == hash && r.dryRun == dryRun && r.status != Failed;
      if known {
        var existing :|
          existing in runs && existing.hash == hash && existing.dryRun == dryRun && existing.status != Failed;
        run := existing.(mode := mode, status := DuplicateFile);
        runs := runs + [run];
        return;
      }
      var file := ParseRecords(records, exportedAt);
      var raised;
      run, raised := ApplyImport(Begun(hash, mode, dryRun, file), file, |runs|, fault);
      if raised {
        run := run.(status := Failed);
      } else {
        FinishedIsNotFailed(settings, old(items), old(states), file, Begun(hash, mode, dryRun, file), |old(runs)|);
      }
      FileMarks(settings, old(items), old(states), records, mode, old(stocks), stocks, file);
      runs := runs + [run];
      assert ReadFrom(file, records, exportedAt);
    }
  }

  lemma NothingMarked(stocks: seq<StockRow>, matched: seq<Matched>, missing: set<nat>)
    ensures Marked(stocks, stocks, matched, missing)
  {
  }

  lemma MarkedByRow(before: seq<StockRow>, after: seq<StockRow>, matched: seq<Matched>, s: Option<State>, m: Matched,
                    id: nat)
    requires Marked(before, after, matched, {}) && m in matched
    ensures Marked(before, after + StockRows(s, m.variant, RowUpdate(m.row, id), false), matched, {})
  {
    MarkedExtends(before, after, matched, {}, s, m.variant, RowUpdate(m.row, id), false);
  }

  lemma NothingMarkedByFile(settings: Settings, items: Items, states: States, records: seq<Record>, mode: Mode,
                            stocks: seq<StockRow>)
    ensures MarkedByFile(settings, items, states, records, mode, stocks, stocks)
  {
  }

  lemma FileMarks(settings: Settings, items: Items, states: States, records: seq<Record>, mode: Mode,
                  before: seq<StockRow>, after: seq<StockRow>, file: ParsedFile)
    requires file.rows == FirstRows(records)
    requires Marked(before, after, MatchedRows(settings, items, file.rows), MissingIn(states, file, mode))
    ensures MarkedByFile(settings, items, states, records, mode, before, after)
  {
    hide Marked, MatchedRows, MissingZero;
  }

  lemma MarkedByMore(before: seq<StockRow>, after: seq<StockRow>, matched: seq<Matched>, missing: set<nat>)
    requires Marked(before, after, matched, {})
    ensures Marked(before, after, matched, missing)
  {
  }

  lemma NothingZeroed(listed: States, current: States, exportedAt: Time, run: nat)
    ensures Zeroed(listed, current, {}, exportedAt, run) == current
  {
  }

  lemma ZeroedExtends(listed: States, current: States, done: set<nat>, v: nat, exportedAt: Time, run: nat)
    requires done <= listed.Keys && v in listed && v in current && v !in done
    ensures var before := Zeroed(listed, current, done, exportedAt, run);
      && v in before
      && Zeroed(listed, current, done + {v}, exportedAt, run)
         == before[v := Stored(Lookup(before, v), ZeroUpdate(listed[v], before[v], exportedAt, run))]
  {
  }

  lemma ZeroedSources(listed: States, current: States, done: set<nat>, exportedAt: Time, run: nat, items: Items)
    requires done <= listed.Keys && SourcesKnown(listed, items) && SourcesKnown(current, items)
    ensures SourcesKnown(Zeroed(listed, current, done, exportedAt, run), items)
  {
  }

  method AnyOf(s: set<nat>) returns (v: nat)
    requires s != {}
    ensures v in s
  {
    v :| v in s;
  }

  lemma UniqueInPrefix(rows: seq<Row>, n: nat)
    requires UniqueCodes(rows) && n <= |rows|
    ensures UniqueCodes(rows[..n])
  {
  }

  /** What is known of the parsed file. */
  ghost predicate ReadFrom(file: ParsedFile, records: seq<Record>, exportedAt: Time) {
    && file.exportedAt == exportedAt && file.rows == FirstRows(records)
    && file.duplicates == |Duplicates(records)| && |file.warnings| == |Conflicts(records)|
    && file.TotalRows() == |records| + |Conflicts(records)| && file.invalid == InvalidRows(records)
  }

  /** The record with which a run starts. */
  function Begun(hash: nat, mode: Mode, dryRun: bool, file: ParsedFile): Run {
    Run(hash, mode, dryRun, Processing, file.TotalRows(), |file.rows|, |file.invalid|, file.duplicates,
        file.warnings != [] || file.invalid != [], 0, 0, 0, 0, 0, 0)
  }

  /** The finished record and tables of a run, or what a striking fault leaves of them. */
  ghost predicate Leaves(settings: Settings, items: Items, states: States, file: ParsedFile, started: Run, id: nat,
                         fault: Fault, run: Run, itemsAfter: Items, statesAfter: States)
  {
    && itemsAfter == (if started.dryRun || !GatePasses(settings, file, started.mode) then items
                      else ItemsLeft(settings, items, file, fault))
    && if Strikes(settings, items, states, file, started.mode, started.dryRun, fault) then
         && run.status == Failed
         && StatesLeft(settings, items, states, file, started.mode, started.dryRun, id, fault, statesAfter)
       else
         && run == Finished(settings, items, states, file, started, id)
         && statesAfter == (if run.status == Rejected || started.dryRun then states
                            else Imported(settings, items, states, file, started.mode, id))
  }

  lemma FinishedIsNotFailed(settings: Settings, items: Items, states: States, file: ParsedFile, started: Run, id: nat)
    ensures Finished(settings, items, states, file, started, id).status in {Rejected, Completed, CompletedWithWarnings}
  {
  }
}
