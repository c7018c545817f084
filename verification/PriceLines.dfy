/**
 What each line of a price text becomes, said over the text: the section it is read in, the earlier line it repeats, and
 the status its fields earn.
 */
module PriceLines {
  import opened Common
  import opened PriceConflicts

  // ---------- Sections ----------

  predicate IsHeader(reader: Reader, text: seq<string>, i: nat) {
    i < |text| && reader.section(text[i]).Some?
  }

  /** Line `i` opens the section that holds after the text: no later line opens another. */
  ghost predicate OpensLast(reader: Reader, text: seq<string>, i: nat) {
    IsHeader(reader, text, i) && forall j: nat | i < j :: !IsHeader(reader, text, j)
  }

  /** The section that holds after a text is that of its last header, and there is none without a header. */
  lemma {:induction false} SectionIsLastHeader(reader: Reader, text: seq<string>)
    ensures forall i: nat | OpensLast(reader, text, i) :: Context(reader, text) == reader.section(text[i])
    ensures Context(reader, text).None? <==> forall i: nat :: !IsHeader(reader, text, i)
  {
    hide Context, IsHeader;
    HeadersOf(reader, text);
    if text != [] {
      var n := |text| - 1;
      SectionIsLastHeader(reader, text[..n]);
      if IsHeader(reader, text, n) {
        assert forall i: nat | OpensLast(reader, text, i) :: i == n;
      } else {
        assert forall i: nat | OpensLast(reader, text, i) :: OpensLast(reader, text[..n], i);
      }
    }
  }

  lemma HeadersOf(reader: Reader, text: seq<string>)
    ensures text == [] ==> Context(reader, text).None?
    ensures forall i: nat | IsHeader(reader, text, i) :: i < |text|
    ensures text != [] ==>
              var n := |text| - 1;
              && (forall i: nat :: IsHeader(reader, text[..n], i) <==> i < n && IsHeader(reader, text, i))
              && (IsHeader(reader, text, n) <==> reader.section(text[n]).Some?)
              && Context(reader, text) == if IsHeader(reader, text, n) then reader.section(text[n])
                                          else Context(reader, text[..n])
  {
  }

  // ---------- Repeated lines ----------

  function ReadingAt(reader: Reader, text: seq<string>, i: nat): Reading
    requires i < |text|
  {
    reader.read(text[i], Context(reader, text[..i]))
  }

  /** Line `i` is no header and has this lookup form. */
  predicate Reads(reader: Reader, text: seq<string>, i: nat, key: string) {
    i < |text| && reader.section(text[i]).None? && reader.lookup(text[i]) == key && key != ""
  }

  ghost predicate Occurs(reader: Reader, text: seq<string>, key: string) {
    exists i: nat :: Reads(reader, text, i, key)
  }

  /** Later lines with the same lookup form are compared with line `i`: it is the first one, or no product. */
  ghost predicate Registers(reader: Reader, text: seq<string>, i: nat, key: string) {
    && Reads(reader, text, i, key)
    && (ReadingAt(reader, text, i).NotAProduct? || forall j: nat | j < i :: !Reads(reader, text, j, key))
  }

  ghost predicate RegistersLast(reader: Reader, text: seq<string>, i: nat, key: string) {
    Registers(reader, text, i, key) && forall j: nat | i < j :: !Registers(reader, text, j, key)
  }

  lemma ReadingKept(reader: Reader, text: seq<string>, i: nat)
    requires i < |text| - 1
    ensures ReadingAt(reader, text[..|text| - 1], i) == ReadingAt(reader, text, i)
  {
    assert text[..|text| - 1][..i] == text[..i];
  }

  lemma PrefixRegisters(reader: Reader, text: seq<string>, key: string)
    requires text != []
    ensures var front := text[..|text| - 1];
      && (forall i: nat :: Reads(reader, front, i, key) <==> i < |front| && Reads(reader, text, i, key))
      && (forall i: nat :: Registers(reader, front, i, key) <==> i < |front| && Registers(reader, text, i, key))
      && (forall i: nat | Reads(reader, text, i, key) :: i <= |front|)
  {
    hide Context;
    forall i: nat | i < |text| - 1 {
      ReadingKept(reader, text, i);
    }
  }

  lemma StatusOfReading(reader: Reader, number: nat, raw: string, context: Option<string>)
    ensures ParseLine(reader, number, raw, context).status == Ignored <==> reader.read(raw, context).NotAProduct?
  {
    hide Score;
  }

  lemma {:induction false} SeenIsLastRegistered(reader: Reader, text: seq<string>, key: string)
    ensures key in Seen(reader, text) <==> Occurs(reader, text, key)
    ensures forall i: nat | RegistersLast(reader, text, i, key) ::
              key in Seen(reader, text) && Seen(reader, text)[key] == i + 1
    ensures key in Seen(reader, text) ==> exists i: nat :: RegistersLast(reader, text, i, key)
  {
    if text != [] {
      var n := |text| - 1;
      SeenIsLastRegistered(reader, text[..n], key);
      PrefixRegisters(reader, text, key);
      StatusOfReading(reader, |text|, text[n], Context(reader, text[..n]));
      hide Registers, Reads, ParseLine, Context;
      SeenGrows(reader, text, key);
      if Registers(reader, text, n, key) {
        assert RegistersLast(reader, text, n, key);
      } else {
        assert forall i: nat :: RegistersLast(reader, text, i, key) <==> RegistersLast(reader, text[..n], i, key);
      }
    }
  }

  lemma SeenGrows(reader: Reader, text: seq<string>, key: string)
    requires text != []
    requires key in Seen(reader, text[..|text| - 1]) <==> Occurs(reader, text[..|text| - 1], key)
    ensures var n := |text| - 1;
      Lookup(Seen(reader, text), key) == if Registers(reader, text, n, key) then Some(|text|)
                                         else Lookup(Seen(reader, text[..n]), key)
    ensures Reads(reader, text, |text| - 1, key) ==> key in Seen(reader, text)
    ensures Registers(reader, text, |text| - 1, key) ==> Reads(reader, text, |text| - 1, key)
  {
    var n := |text| - 1;
    hide ParseLine, Context;
    PrefixRegisters(reader, text, key);
    StatusOfReading(reader, |text|, text[n], Context(reader, text[..n]));
  }

  /** Line `i` of a text before prices are compared: a header or no product is ignored; a product has the fields read in
      the last header's section, and repeats exactly the line that earlier lines of its lookup form point to. */
  lemma FirstPassInFields(reader: Reader, text: seq<string>, i: nat)
    requires i < |text|
    ensures var line, key := FirstPass(reader, text, i), reader.lookup(text[i]);
      && line.number == i + 1 && line.raw == text[i]
      && (line.status == Ignored <==> IsHeader(reader, text, i) || ReadingAt(reader, text, i).NotAProduct?)
      && (line.status == Ignored ==>
            && line.fields == Fields(None, None, None, None, None, None, None, []) && line.key.None?
            && line.confidence == 0 && line.flags == [] && line.duplicateOf.None? && line.evidence == [])
      && (line.status != Ignored ==>
            && line.fields == ReadingAt(reader, text, i).fields
            && line.key == (if NonEmpty(line.fields.brand) && NonEmpty(line.fields.model) then
                              Some(reader.identity(line.fields))
                            else None)
            && (line.duplicateOf.Some? <==> Occurs(reader, text[..i], key))
            && (forall j: nat | RegistersLast(reader, text[..i], j, key) :: line.duplicateOf == Some(j + 1))
            && line.flags == line.fields.flags + if line.duplicateOf.Some? then [DuplicateLine] else [])
  {
    hide Score, Context, Seen;
    SeenIsLastRegistered(reader, text[..i], reader.lookup(text[i]));
    StatusOfReading(reader, i + 1, text[i], Context(reader, text[..i]));
  }

  // ---------- Confidence and status ----------

  function Points(present: bool, points: nat): nat {
    if present then points else 0
  }

  /** The points of a line's fields, of which one hundred are enough. */
  function FieldPoints(f: Fields): nat {
    Points(NonEmpty(f.brand), 20) + Points(NonEmpty(f.model), 28) + Points(f.price.Some?, 25)
    + Points(f.storage.Some?, 14) + Points(NonEmpty(f.code), 6) + Points(NonEmpty(f.color), 7)
    + Points(NonEmpty(f.region), 6)
  }

  /** The flags that cost four points each. */
  function Costly(flags: seq<Flag>): set<Flag> {
    (set f | f in flags) - {PriceConflict}
  }

  /** Fully parsed: brand, model, price and memory, and two of code, colour and region. */
  predicate Complete(f: Fields) {
    && NonEmpty(f.brand) && NonEmpty(f.model) && f.price.Some? && f.storage.Some?
    && Points(NonEmpty(f.code), 1) + Points(NonEmpty(f.color), 1) + Points(NonEmpty(f.region), 1) >= 2
  }

  lemma ScoreInPoints(line: Line)
    ensures var left := FieldPoints(line.fields) - 4 * |Costly(line.flags)|;
      Score(line) == if left > 100 then 10000 else if left < 0 then 0 else 100 * left
    ensures line.flags == [] ==> (Score(line) >= 9800 <==> Complete(line.fields))
  {
    assert Costly(line.flags) == set f | f in line.flags && f != PriceConflict;
  }

  /** A line of a parsed text keeps what was read; the status follows from the fields, the flags and the other lines. */
  lemma ResultInFields(reader: Reader, text: seq<string>, i: nat)
    requires reader.ReadsSingleLines() && i < |text|
    ensures var first, r := FirstPass(reader, text, i), Result(reader, text)[i];
      var contradicted := Contradicted(Result(reader, text), i);
      && r.number == first.number && r.raw == first.raw && r.fields == first.fields && r.key == first.key
      && r.duplicateOf == first.duplicateOf
      && r.flags == first.flags + (if contradicted then [PriceConflict] else [])
      && (r.status == Ignored <==> first.status == Ignored)
      && (r.status != Ignored ==>
            && (r.status == InConflict <==> contradicted)
            && (r.status == Parsed <==> r.flags == [] && Complete(r.fields))
            && (r.status == PartlyParsed <==>
                  && !contradicted && InvalidPrice !in r.flags && !(r.flags == [] && Complete(r.fields))
                  && 80 <= FieldPoints(r.fields) - 4 * |Costly(r.flags)|))
  {
    var first, r := FirstPass(reader, text, i), Result(reader, text)[i];
    FlaggedExactlyWhenContradicted(reader, text, i);
    ConflictExactlyWhenContradicted(reader, text, i);
    FirstPassUnflagged(reader, text, i);
    KeptByResult(reader, text, i);
    ScoreInPoints(r);
    hide Score, Contradicted, Result, FirstPass, FieldPoints, Complete, Costly;
  }

  lemma KeptByResult(reader: Reader, text: seq<string>, i: nat)
    requires i < |text|
    ensures var first, r := FirstPass(reader, text, i), Result(reader, text)[i];
      && r.number == first.number && r.raw == first.raw && r.fields == first.fields && r.key == first.key
      && r.duplicateOf == first.duplicateOf
      && (r.flags == first.flags || (PriceConflict !in first.flags && r.flags == first.flags + [PriceConflict]))
      && (first.status == Ignored ==> r.status == Ignored)
      && (first.status != Ignored ==>
            r.confidence == Score(r) && r.status == StatusFromConfidence(r.(status := ToReview)))
  {
    hide Score, FirstPass, KeyOrder, Conflicting, EvidenceAt, Group;
    var lines := FirstPasses(reader, text);
    var marked := MarkedIn(lines, i, KeyOrder(Detecting, lines));
    assert lines[i] == FirstPass(reader, text, i);
    assert Result(reader, text)[i] == Rescored(marked);
    assert marked.status == Ignored <==> lines[i].status == Ignored;
    ScoreIgnoresStatus(marked);
  }

  lemma ScoreIgnoresStatus(line: Line)
    ensures Score(Scored(line)) == Score(line)
    ensures line.status != Ignored ==>
              Scored(line).status == StatusFromConfidence(Scored(line).(status := ToReview))
  {
  }
}
