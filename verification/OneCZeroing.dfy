/**
 A FULL 1C import that sets to zero the stock that one of its own rows has just written: when it happens, and that
 imports which the program accepts can do it.
 */
module OneCZeroing {
  import opened Arithmetic
  import opened Common
  import opened Inventory
  import opened OneCParser
  import opened OneCImporter

  /** The row is matched to a variant whose stock so far comes from an item that the file no longer lists, and the row
      is neither older than that stock nor newer than the export. */
  predicate OvertakesAbsentItem(settings: Settings, items: Items, states: States, file: ParsedFile, m: Matched) {
    && m in MatchedRows(settings, items, file.rows)
    && m.variant in MissingZero(states, file.rows)
    && states[m.variant].updatedAt <= m.row.updatedAt <= file.exportedAt
  }

  /** Such a row is applied and then undone: the rows leave its stock, the import leaves zero. */
  lemma OwnRowIsZeroed(settings: Settings, items: Items, states: States, file: ParsedFile, run: nat, m: Matched)
    requires DistinctVariants(MatchedRows(settings, items, file.rows))
    requires OvertakesAbsentItem(settings, items, states, file, m)
    ensures var rowed := Lookup(RowsApplied(states, MatchedRows(settings, items, file.rows), run), m.variant);
      rowed.Some? && rowed.value.stock == m.row.stock && rowed.value.source == m.row.code
    ensures var after := Lookup(Imported(settings, items, states, file, Full, run), m.variant);
      after.Some? && after.value.stock == 0 && after.value.updatedAt == file.exportedAt
  {
    hide MatchedRows, MissingZero, Imported, RowsApplied, UpdatesFor;
    var matched := MatchedRows(settings, items, file.rows);
    UpdatesForDistinct(matched, m, run);
    RowsAppliedPointwise(states, matched, run, m.variant);
    ImportedPointwise(settings, items, states, file, Full, run, m.variant);
    var s := Lookup(states, m.variant);
    assert [RowUpdate(m.row, run)][..0] == [];
    assert Fold(s, []) == s;
  }

  // ---------- Accepted imports that do it ----------

  const OLD := "old"

  /** Pairwise different codes, none of which is `OLD`. */
  function Code(k: nat): string {
    seq(k + 1, _ => 'x')
  }

  function RowOf(k: nat, stock: nat): Row {
    Row(Code(k), None, None, "", stock, 0, "RUB", 0, None, [])
  }

  /** An export of `n + 1` items. */
  function Export(n: nat, stock: nat): ParsedFile {
    ParsedFile(0, seq(n + 1, k requires 0 <= k => RowOf(k, stock)), [], 0, [])
  }

  function UpTo(n: nat): (numbers: set<nat>)
    ensures forall v: nat :: v in numbers <==> v <= n
    ensures |numbers| == n + 1
  {
    if n == 0 then {0} else UpTo(n - 1) + {n}
  }

  function Codes(n: nat): (codes: set<string>)
    ensures OLD in codes && forall k: nat | k <= n :: Code(k) in codes
  {
    if n == 0 then {OLD, Code(0)} else Codes(n - 1) + {Code(n)}
  }

  /** Variant 0 was in stock as the item `OLD`; the variants 1 to `n` are in stock as items of the export. */
  function InStock(n: nat): States {
    map v | v in UpTo(n) :: State(1, Some(0), "RUB", if v == 0 then OLD else Code(v), 0, 0)
  }

  function KnownItems(n: nat): Items {
    map code | code in Codes(n) :: Item(None, None, "", false, Unmatched)
  }

  /** Of the rows only the first is matched, to variant 0. */
  function FirstOnly(row: Row): Match {
    if row.code == Code(0) then MatchedTo(0) else Unmatched
  }

  function SettingsWith(minRows: nat, validNum: nat, validDen: nat, missingNum: nat, missingDen: nat): Settings {
    Settings(minRows, validNum, validDen, missingNum, missingDen, FirstOnly)
  }

  lemma {:induction false} OnlyFirstMatched(settings: Settings, n: nat, stock: nat, k: nat)
    requires settings.catalogMatch == FirstOnly && k <= n
    ensures MatchedRows(settings, KnownItems(n), Export(n, stock).rows[..k + 1]) == [Matched(RowOf(0, stock), 0)]
  {
    var rows := Export(n, stock).rows;
    assert rows[..k + 1][..k] == rows[..k];
    assert rows[..k + 1][k] == RowOf(k, stock);
    if k > 0 {
      OnlyFirstMatched(settings, n, stock, k - 1);
      assert |Code(k)| != |Code(0)|;
    } else {
      assert rows[..0] == [];
    }
  }

  lemma OnlyOldMissing(n: nat, stock: nat)
    ensures MissingZero(InStock(n), Export(n, stock).rows) == {0}
    ensures Active(InStock(n)) == UpTo(n)
  {
    var rows := Export(n, stock).rows;
    forall row | row in rows ensures row.code != OLD {
      assert row.code[0] == 'x';
    }
    forall v: nat | 1 <= v && v in UpTo(n) ensures v !in MissingZero(InStock(n), rows) {
      assert rows[v] in rows && rows[v].code == Code(v);
    }
  }

  lemma ExportAccepted(n: nat, settings: Settings, stock: nat)
    requires settings.minRows <= n && settings.missingDen <= n
    requires 0 < settings.missingNum && settings.validNum <= settings.validDen
    ensures Accepted(settings, InStock(n), Export(n, stock), Full)
  {
    OnlyOldMissing(n, stock);
    hide MissingZero, Active, InStock, UpTo;
    MulMonotone(settings.validNum, settings.validDen, n + 1);
    MulMonotone(1, settings.missingNum, n + 1);
  }

  lemma ExportIsWellFormed(n: nat, stock: nat)
    ensures SourcesKnown(InStock(n), KnownItems(n)) && UniqueCodes(Export(n, stock).rows)
  {
    var rows := Export(n, stock).rows;
    forall i, j | 0 <= i < j < |rows| ensures rows[i].code != rows[j].code {
      assert |rows[i].code| == i + 1 && |rows[j].code| == j + 1;
    }
  }

  lemma ExportOvertakes(n: nat, settings: Settings, stock: nat)
    requires settings.catalogMatch == FirstOnly
    ensures MatchedRows(settings, KnownItems(n), Export(n, stock).rows) == [Matched(RowOf(0, stock), 0)]
    ensures OvertakesAbsentItem(settings, KnownItems(n), InStock(n), Export(n, stock), Matched(RowOf(0, stock), 0))
  {
    hide MatchedRows, MissingZero, Active, UpTo, Codes, KnownItems;
    var rows := Export(n, stock).rows;
    OnlyOldMissing(n, stock);
    OnlyFirstMatched(settings, n, stock, n);
    assert rows[..n + 1] == rows;
    assert 0 in InStock(n) && InStock(n)[0].updatedAt == 0;
  }

  /** Whatever the least number of rows and the tolerated share of missing variants, as long as that share is not zero
      and a file of valid rows passes, there are an inventory over known items and an export that is accepted, and the
      one row of it that is matched is applied and then zeroed. */
  lemma AcceptedImportZeroesOwnRow(minRows: nat, validNum: nat, validDen: nat, missingNum: nat, missingDen: nat,
                                   stock: nat, run: nat)
    requires 0 < missingNum && validNum <= validDen && 0 < stock
    ensures var n := missingDen + minRows;
      var settings := SettingsWith(minRows, validNum, validDen, missingNum, missingDen);
      var after := Imported(settings, KnownItems(n), InStock(n), Export(n, stock), Full, run);
      && Accepted(settings, InStock(n), Export(n, stock), Full)
      && SourcesKnown(InStock(n), KnownItems(n)) && UniqueCodes(Export(n, stock).rows)
      && Matched(RowOf(0, stock), 0) in MatchedRows(settings, KnownItems(n), Export(n, stock).rows)
      && 0 in after && after[0].stock == 0
  {
    var n := missingDen + minRows;
    var settings := SettingsWith(minRows, validNum, validDen, missingNum, missingDen);
    hide MatchedRows, MissingZero, Imported, Active, Accepted, SourcesKnown, UniqueCodes, UpTo, Codes, Export, InStock,
      KnownItems;
    ExportAccepted(n, settings, stock);
    ExportIsWellFormed(n, stock);
    ExportOvertakes(n, settings, stock);
    OwnRowIsZeroed(settings, KnownItems(n), InStock(n), Export(n, stock), run, Matched(RowOf(0, stock), 0));
  }
}
