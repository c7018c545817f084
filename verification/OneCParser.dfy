/**
 Reading a 1C export: one row per internal code, with every other record accounted for.

 Field conversion is a function of one record and is represented by its outcome; the loop that deduplicates and counts
 is the part modelled here.
 */
module OneCParser {
  import opened Common

  datatype Row = Row(
    code: string,
    sku: Option<string>,
    barcode: Option<string>,
    name: string,
    stock: nat,
    cost: nat,
    currency: string,
    updatedAt: Time,
    stockByStore: Option<map<string, nat>>,
    warnings: seq<string>)

  datatype Record = UnexpectedKeys | Malformed(reason: string) | WellFormed(row: Row)

  datatype InvalidReason = Unexpected | BadField(reason: string) | DuplicateConflict

  datatype InvalidRow = InvalidRow(number: nat, reason: InvalidReason)

  datatype ParsedFile = ParsedFile(exportedAt: Time, rows: seq<Row>, invalid: seq<InvalidRow>, duplicates: nat,
                                   warnings: seq<string>)
  {
    /** The number of rows that an import run reports for the file. */
    function TotalRows(): nat {
      |rows| + |invalid| + duplicates
    }
  }

  ghost predicate UniqueCodes(rows: seq<Row>) {
    forall i, j | 0 <= i < j < |rows| :: rows[i].code != rows[j].code
  }

  /** Some well-formed record carries the code. */
  predicate Mentions(records: seq<Record>, code: string) {
    exists j | 0 <= j < |records| :: records[j].WellFormed? && records[j].row.code == code
  }

  /** The first well-formed record of each code, in order of appearance. */
  function FirstRows(records: seq<Record>): seq<Row> {
    if records == [] then [] else
      var front, r := records[..|records| - 1], records[|records| - 1];
      if r.WellFormed? && !Mentions(front, r.row.code) then FirstRows(front) + [r.row] else FirstRows(front)
  }

  /** Record `i` repeats the code of an earlier well-formed record. */
  predicate IsDuplicate(records: seq<Record>, i: nat)
    requires i < |records|
  {
    records[i].WellFormed? && Mentions(records[..i], records[i].row.code)
  }

  /** Record `i` repeats a code with content that differs from the row kept for it. */
  predicate IsConflict(records: seq<Record>, i: nat)
    requires i < |records|
  {
    IsDuplicate(records, i) && records[i].row !in FirstRows(records[..i])
  }

  function Duplicates(records: seq<Record>): set<nat> {
    set i: nat | i < |records| && IsDuplicate(records, i)
  }

  function Conflicts(records: seq<Record>): set<nat> {
    set i: nat | i < |records| && IsConflict(records, i)
  }

  /** Why record `i` is listed as invalid, if it is. */
  function Flaw(records: seq<Record>, i: nat): Option<InvalidReason>
    requires i < |records|
  {
    match records[i]
    case UnexpectedKeys => Some(Unexpected)
    case Malformed(reason) => Some(BadField(reason))
    case WellFormed(_) => if IsConflict(records, i) then Some(DuplicateConflict) else None
  }

  function InvalidRows(records: seq<Record>): seq<InvalidRow> {
    if records == [] then [] else
      var n := |records| - 1;
      var flaw := Flaw(records, n);
      InvalidRows(records[..n]) + if flaw.Some? then [InvalidRow(n + 1, flaw.value)] else []
  }

  /** The dictionary holds exactly the rows kept, each under its code. */
  ghost predicate Keyed(byCode: map<string, Row>, rows: seq<Row>) {
    && (forall code | code in byCode :: byCode[code] in rows && byCode[code].code == code)
    && (forall row | row in rows :: row.code in byCode && byCode[row.code] == row)
  }

  lemma MentionsPrefix(records: seq<Record>, n: nat, code: string)
    requires n < |records|
    ensures Mentions(records[..n + 1], code)
       <==> Mentions(records[..n], code) || (records[n].WellFormed? && records[n].row.code == code)
  {
  }

  /** A code is kept exactly when some well-formed record carries it. */
  lemma {:induction false} KeptCodes(records: seq<Record>, code: string)
    ensures Mentions(records, code) <==> exists row | row in FirstRows(records) :: row.code == code
  {
    if records != [] {
      var n := |records| - 1;
      KeptCodes(records[..n], code);
      MentionsPrefix(records, n, code);
      assert records[..n + 1] == records;
      if records[n].WellFormed? && records[n].row.code == code && !Mentions(records[..n], code) {
        assert records[n].row in FirstRows(records);
      }
    }
  }

  lemma {:induction false} KeptCodesUnique(records: seq<Record>)
    ensures UniqueCodes(FirstRows(records))
  {
    if records != [] {
      var front := records[..|records| - 1];
      KeptCodesUnique(front);
      var r := records[|records| - 1];
      if r.WellFormed? && !Mentions(front, r.row.code) {
        KeptCodes(front, r.row.code);
        forall i | 0 <= i < |FirstRows(front)| ensures FirstRows(front)[i].code != r.row.code {
          assert FirstRows(front)[i] in FirstRows(front);
        }
      }
    }
  }

  /** What is kept is exactly what the first record of each code says. */
  lemma {:induction false} KeptRowsAreFirst(records: seq<Record>, row: Row)
    ensures row in FirstRows(records)
       <==> exists i: nat | i < |records| :: records[i] == WellFormed(row) && !IsDuplicate(records, i)
  {
    if records != [] {
      var n := |records| - 1;
      var front := records[..n];
      KeptRowsAreFirst(front, row);
      forall i: nat | i < n ensures front[i] == records[i] && IsDuplicate(front, i) == IsDuplicate(records, i) {
        assert front[..i] == records[..i];
      }
      if i: nat :| i < n && front[i] == WellFormed(row) && !IsDuplicate(front, i) {
        assert records[i] == WellFormed(row) && !IsDuplicate(records, i);
      }
    }
  }

  lemma PrefixDecides(records: seq<Record>, n: nat, i: nat)
    requires i < n <= |records|
    ensures IsDuplicate(records[..n], i) == IsDuplicate(records, i)
    ensures IsConflict(records[..n], i) == IsConflict(records, i)
  {
    hide Mentions, FirstRows;
    assert records[..n][..i] == records[..i];
  }

  lemma DuplicatesExtend(records: seq<Record>, n: nat)
    requires n < |records|
    ensures |Duplicates(records[..n + 1])| == |Duplicates(records[..n])| + if IsDuplicate(records, n) then 1 else 0
    ensures |Conflicts(records[..n + 1])| == |Conflicts(records[..n])| + if IsConflict(records, n) then 1 else 0
  {
    hide IsDuplicate, IsConflict;
    forall i: nat | i <= n
      ensures IsDuplicate(records[..n + 1], i) == IsDuplicate(records, i)
      ensures IsConflict(records[..n + 1], i) == IsConflict(records, i)
    {
      PrefixDecides(records, n + 1, i);
    }
    forall i: nat | i < n
      ensures IsDuplicate(records[..n], i) == IsDuplicate(records, i)
      ensures IsConflict(records[..n], i) == IsConflict(records, i)
    {
      PrefixDecides(records, n, i);
    }
    SetGrows(Duplicates(records[..n]), Duplicates(records[..n + 1]), n, IsDuplicate(records, n));
    SetGrows(Conflicts(records[..n]), Conflicts(records[..n + 1]), n, IsConflict(records, n));
  }

  /** One more record: whether it is a duplicate or a conflict is what the dictionary says. */
  lemma DictionaryDecides(records: seq<Record>, n: nat, byCode: map<string, Row>)
    requires n < |records| && records[n].WellFormed? && Keyed(byCode, FirstRows(records[..n]))
    ensures var row := records[n].row;
            && (IsDuplicate(records, n) <==> row.code in byCode)
            && (IsConflict(records, n) <==> row.code in byCode && byCode[row.code] != row)
            && (row.code in byCode ==> FirstRows(records[..n + 1]) == FirstRows(records[..n]))
            && (row.code !in byCode ==> FirstRows(records[..n + 1]) == FirstRows(records[..n]) + [row])
  {
    KeptCodes(records[..n], records[n].row.code);
    assert records[..n + 1][..n] == records[..n];
  }

  /** The invalid rows are listed in order, each under the number of its record, counted from one. */
  lemma {:induction false} InvalidRowsAreFlawed(records: seq<Record>, row: InvalidRow)
    ensures row in InvalidRows(records)
            <==> 1 <= row.number <= |records| && Flaw(records, row.number - 1) == Some(row.reason)
    ensures forall i, j | 0 <= i < j < |InvalidRows(records)| ::
              InvalidRows(records)[i].number < InvalidRows(records)[j].number <= |records|
  {
    hide IsConflict;
    if records != [] {
      var n := |records| - 1;
      InvalidRowsAreFlawed(records[..n], row);
      InvalidNumbers(records[..n]);
      if 1 <= row.number <= n {
        PrefixDecides(records, n, row.number - 1);
      }
    }
  }

  lemma {:induction false} InvalidNumbers(records: seq<Record>)
    ensures forall i | 0 <= i < |InvalidRows(records)| :: InvalidRows(records)[i].number <= |records|
  {
    hide Flaw;
    if records != [] {
      InvalidNumbers(records[..|records| - 1]);
    }
  }

  lemma OneMoreFlaw(records: seq<Record>, n: nat)
    requires n < |records|
    ensures var flaw := Flaw(records, n);
      InvalidRows(records[..n + 1])
      == InvalidRows(records[..n]) + if flaw.Some? then [InvalidRow(n + 1, flaw.value)] else []
  {
    hide IsConflict;
    PrefixDecides(records, n + 1, n);
    assert records[..n + 1][..n] == records[..n];
  }

  lemma NoRecords(records: seq<Record>)
    ensures FirstRows(records[..0]) == [] && InvalidRows(records[..0]) == [] && Keyed(map[], [])
    ensures Duplicates(records[..0]) == {} && Conflicts(records[..0]) == {}
  {
  }

  lemma NotWellFormed(records: seq<Record>, n: nat)
    requires n < |records|
    ensures !records[n].WellFormed? ==>
              && FirstRows(records[..n + 1]) == FirstRows(records[..n])
              && !IsDuplicate(records, n) && !IsConflict(records, n)
  {
    assert records[..n + 1][..n] == records[..n];
  }

  lemma KeyedExtends(byCode: map<string, Row>, rows: seq<Row>, row: Row)
    requires Keyed(byCode, rows) && row.code !in byCode
    ensures Keyed(byCode[row.code := row], rows + [row])
  {
  }

  /** Every record is kept, invalid or a duplicate; a duplicate that contradicts the kept row is both of the latter,
      and is therefore counted twice in the reported total. */
  method ParseRecords(records: seq<Record>, exportedAt: Time) returns (f: ParsedFile)
    ensures f.exportedAt == exportedAt
    ensures f.rows == FirstRows(records) && UniqueCodes(f.rows)
    ensures f.duplicates == |Duplicates(records)|
    ensures f.TotalRows() == |records| + |Conflicts(records)|
    ensures |f.warnings| == |Conflicts(records)|
    ensures f.invalid == InvalidRows(records)
  {
    hide Mentions, Duplicates, Conflicts, InvalidRows, FirstRows, Keyed, IsConflict, IsDuplicate;
    NoRecords(records);
    var byCode: map<string, Row> := map[];
    var rows: seq<Row> := [];
    var invalid: seq<InvalidRow> := [];
    var duplicates := 0;
    var warnings: seq<string> := [];
    for index := 0 to |records|
      invariant rows == FirstRows(records[..index]) && Keyed(byCode, rows)
      invariant duplicates == |Duplicates(records[..index])|
      invariant |rows| + |invalid| + duplicates == index + |Conflicts(records[..index])|
      invariant |warnings| == |Conflicts(records[..index])|
      invariant invalid == InvalidRows(records[..index])
    {
      OneMoreFlaw(records, index);
      DuplicatesExtend(records, index);
      NotWellFormed(records, index);
      match records[index]
      case UnexpectedKeys =>
        invalid := invalid + [InvalidRow(index + 1, Unexpected)];
      case Malformed(reason) =>
        invalid := invalid + [InvalidRow(index + 1, BadField(reason))];
      case WellFormed(row) =>
        DictionaryDecides(records, index, byCode);
        if row.code !in byCode {
          KeyedExtends(byCode, rows, row);
          byCode := byCode[row.code := row];
          rows := rows + [row];
          continue;
        }
        duplicates := duplicates + 1;
        if byCode[row.code] != row {
          invalid := invalid + [InvalidRow(index + 1, DuplicateConflict)];
          warnings := warnings + ["duplicate internal_code conflict: " + row.code];
        }
    }
    assert records[..|records|] == records;
    KeptCodesUnique(records);
    f := ParsedFile(exportedAt, rows, invalid, duplicates, warnings);
  }
}
