/**
 Reading a supplier's price text line by line and finding the lines that contradict each other: the same product
 identity at different prices.

 The extraction of fields from a line is a function of the line and its section and is left open; everything that is
 done with the fields is modelled.
 */
module PriceConflicts {
  import opened Common

  datatype Flag =
    | UnknownSection | UnknownRegion | InvalidPrice | MissingPrice | AmbiguousMemory | PossibleModelCode
    | UnknownColor | MissingModel | AmbiguousModel | DuplicateLine | PriceConflict

  /** What is read off one product line. */
  datatype Fields = Fields(brand: Option<string>, model: Option<string>, code: Option<string>, storage: Option<nat>,
                           color: Option<string>, region: Option<string>, price: Option<int>, flags: seq<Flag>)

  datatype Reading = NotAProduct | Product(fields: Fields)

  /** Section detection, field extraction, the identity key and the lookup form of a line; `read` cannot report a price
      conflict, which no single line shows. */
  datatype Reader = Reader(
    section: string -> Option<string>,
    read: (string, Option<string>) -> Reading,
    identity: Fields -> string,
    lookup: string -> string)
  {
    ghost predicate ReadsSingleLines() {
      forall raw, context :: read(raw, context).Product? ==> PriceConflict !in read(raw, context).fields.flags
    }
  }

  datatype Evidence = Evidence(number: nat, raw: string, price: Option<int>)

  datatype Line = Line(number: nat, raw: string, fields: Fields, key: Option<string>, status: ParseStatus,
                       confidence: int, flags: seq<Flag>, duplicateOf: Option<nat>, evidence: seq<Evidence>)

  datatype DataConflict = DataConflict(key: string, prices: set<int>, evidence: seq<Evidence>)

  const NO_FIELDS := Fields(None, None, None, None, None, None, None, [])

  // ---------- Confidence ----------

  function Weight(present: bool, weight: int): int {
    if present then weight else 0
  }

  predicate NonEmpty(s: Option<string>): (present: bool)
    ensures present <==> s !in {None, Some("")}
  {
    s.Some? && s.value != ""
  }

  function Penalties(flags: seq<Flag>): nat {
    |set f | f in flags && f != PriceConflict|
  }

  /** In ten-thousandths. */
  function Score(line: Line): int {
    var f := line.fields;
    var score :=
      Weight(NonEmpty(f.brand), 2000) + Weight(NonEmpty(f.model), 2800) + Weight(f.price.Some?, 2500)
      + Weight(f.storage.Some?, 1400) + Weight(NonEmpty(f.code), 600) + Weight(NonEmpty(f.color), 700)
      + Weight(NonEmpty(f.region), 600) - 400 * Penalties(line.flags);
    if score > 10000 then 10000 else if score < 0 then 0 else score
  }

  function StatusFromConfidence(line: Line): ParseStatus {
    if PriceConflict in line.flags then InConflict
    else if line.status == Ignored then Ignored
    else if InvalidPrice in line.flags then ToReview
    else if line.confidence >= 9800 && line.flags == [] then Parsed
    else if line.confidence >= 8000 then PartlyParsed
    else ToReview
  }

  function Scored(line: Line): Line {
    var scored := line.(confidence := Score(line));
    scored.(status := StatusFromConfidence(scored))
  }

  function IgnoredLine(number: nat, raw: string): Line {
    Line(number, raw, NO_FIELDS, None, Ignored, 0, [], None, [])
  }

  function ParseLine(reader: Reader, number: nat, raw: string, context: Option<string>): Line {
    match reader.read(raw, context)
    case NotAProduct => IgnoredLine(number, raw)
    case Product(f) =>
      var key := if NonEmpty(f.brand) && NonEmpty(f.model) then Some(reader.identity(f)) else None;
      Scored(Line(number, raw, f, key, ToReview, 0, f.flags, None, []))
  }

  // ---------- Groups ----------

  /** What a pass groups: the priced lines (detection) or the lines already flagged (recording). */
  datatype Pass = Detecting | Recording

  predicate Eligible(line: Line) {
    NonEmpty(line.key) && line.fields.price.Some? && line.status != Ignored
  }

  predicate Counts(pass: Pass, line: Line): (counts: bool)
    ensures counts ==> NonEmpty(line.key)
  {
    match pass
    case Detecting => Eligible(line)
    case Recording => PriceConflict in line.flags && NonEmpty(line.key)
  }

  predicate InGroup(pass: Pass, line: Line, key: string) {
    Counts(pass, line) && line.key == Some(key)
  }

  predicate Within(group: seq<nat>, lines: seq<Line>) {
    forall k | 0 <= k < |group| :: group[k] < |lines|
  }

  /** The positions of the lines that count for a key, in order. */
  function Group(pass: Pass, lines: seq<Line>, key: string): (group: seq<nat>)
    ensures Within(group, lines)
  {
    if lines == [] then [] else
      var last := |lines| - 1;
      Group(pass, lines[..last], key) + if InGroup(pass, lines[last], key) then [last] else []
  }

  /** The keys in the order of their first line. */
  function KeyOrder(pass: Pass, lines: seq<Line>): seq<string> {
    if lines == [] then [] else
      var last := lines[|lines| - 1];
      var before := KeyOrder(pass, lines[..|lines| - 1]);
      if Counts(pass, last) && last.key.value !in before then before + [last.key.value] else before
  }

  function PricesAt(lines: seq<Line>, group: seq<nat>): set<int>
    requires Within(group, lines)
  {
    set k | 0 <= k < |group| && lines[group[k]].fields.price.Some? :: lines[group[k]].fields.price.value
  }

  function EvidenceOf(line: Line): Evidence {
    Evidence(line.number, line.raw, line.fields.price)
  }

  function EvidenceAt(lines: seq<Line>, group: seq<nat>): seq<Evidence>
    requires Within(group, lines)
  {
    seq(|group|, k requires 0 <= k < |group| => EvidenceOf(lines[group[k]]))
  }

  predicate Conflicting(pass: Pass, lines: seq<Line>, key: string) {
    |PricesAt(lines, Group(pass, lines, key))| > 1
  }

  /** Another line that is not ignored has the same identity and a different price. */
  ghost predicate Contradicted(lines: seq<Line>, i: nat)
    requires i < |lines|
  {
    && Eligible(lines[i])
    && exists j: nat | j < |lines| ::
         InGroup(Detecting, lines[j], lines[i].key.value) && lines[j].fields.price != lines[i].fields.price
  }

  lemma {:induction false} GroupMembers(pass: Pass, lines: seq<Line>, key: string, i: nat)
    ensures i in Group(pass, lines, key) <==> i < |lines| && InGroup(pass, lines[i], key)
  {
    hide InGroup;
    if lines != [] {
      GroupMembers(pass, lines[..|lines| - 1], key, i);
    }
  }

  /** A group lists its lines in the order of the text, each once. */
  lemma {:induction false} GroupAscends(pass: Pass, lines: seq<Line>, key: string)
    ensures forall k, l | 0 <= k < l < |Group(pass, lines, key)| ::
              Group(pass, lines, key)[k] < Group(pass, lines, key)[l]
  {
    if lines != [] {
      GroupAscends(pass, lines[..|lines| - 1], key);
    }
  }

  lemma {:induction false} KeyOrderMembers(pass: Pass, lines: seq<Line>, key: string)
    ensures key in KeyOrder(pass, lines) <==> exists i :: 0 <= i < |lines| && InGroup(pass, lines[i], key)
  {
    if lines != [] {
      var last := |lines| - 1;
      KeyOrderMembers(pass, lines[..last], key);
      assert forall i | 0 <= i < last :: lines[..last][i] == lines[i];
    }
  }

  lemma {:induction false} KeyOrderDistinct(pass: Pass, lines: seq<Line>)
    ensures forall k, l | 0 <= k < l < |KeyOrder(pass, lines)| ::
              KeyOrder(pass, lines)[k] != KeyOrder(pass, lines)[l]
  {
    if lines != [] {
      KeyOrderDistinct(pass, lines[..|lines| - 1]);
    }
  }

  lemma OtherPrice(prices: set<int>, a: int) returns (b: int)
    requires a in prices && |prices| > 1
    ensures b in prices && b != a
  {
    b := AnElement(prices - {a});
  }

  lemma PriceInGroup(lines: seq<Line>, i: nat)
    requires i < |lines| && Eligible(lines[i])
    ensures lines[i].fields.price.value in PricesAt(lines, Group(Detecting, lines, lines[i].key.value))
  {
    var group := Group(Detecting, lines, lines[i].key.value);
    GroupMembers(Detecting, lines, lines[i].key.value, i);
    var k :| 0 <= k < |group| && group[k] == i;
    assert lines[group[k]].fields.price.Some?;
  }

  /** A key conflicts exactly when each line of its group is contradicted by another one. */
  lemma ConflictingMeansContradicted(lines: seq<Line>, i: nat)
    requires i < |lines| && Eligible(lines[i])
    ensures Conflicting(Detecting, lines, lines[i].key.value) <==> Contradicted(lines, i)
  {
    var key, price := lines[i].key.value, lines[i].fields.price.value;
    var group := Group(Detecting, lines, key);
    var prices := PricesAt(lines, group);
    PriceInGroup(lines, i);
    if Conflicting(Detecting, lines, key) {
      var b := OtherPrice(prices, price);
      var k :| 0 <= k < |group| && lines[group[k]].fields.price == Some(b);
      assert group[k] in group;
      GroupMembers(Detecting, lines, key, group[k]);
    }
    if Contradicted(lines, i) {
      var j: nat :| j < |lines| && InGroup(Detecting, lines[j], key) && lines[j].fields.price != lines[i].fields.price;
      PriceInGroup(lines, j);
      TwoElements(prices, price, lines[j].fields.price.value);
    }
  }

  /** Grouping, price collection and evidence look at nothing that marking changes. */
  ghost predicate SameButMarks(a: seq<Line>, b: seq<Line>) {
    && |a| == |b|
    && forall i | 0 <= i < |a| ::
         && EvidenceOf(a[i]) == EvidenceOf(b[i])
         && a[i].key == b[i].key
         && (a[i].status == Ignored <==> b[i].status == Ignored)
  }

  lemma {:induction false} MarksLeaveGroups(a: seq<Line>, b: seq<Line>, key: string)
    requires SameButMarks(a, b)
    ensures Group(Detecting, a, key) == Group(Detecting, b, key)
  {
    if a != [] {
      var last := |a| - 1;
      assert EvidenceOf(a[last]) == EvidenceOf(b[last]);
      assert SameButMarks(a[..last], b[..last]) by {
        assert forall i | 0 <= i < last :: a[..last][i] == a[i] && b[..last][i] == b[i];
      }
      MarksLeaveGroups(a[..last], b[..last], key);
    }
  }

  lemma MarksLeaveEvidence(a: seq<Line>, b: seq<Line>, group: seq<nat>)
    requires SameButMarks(a, b)
    requires Within(group, a)
    ensures PricesAt(a, group) == PricesAt(b, group) && EvidenceAt(a, group) == EvidenceAt(b, group)
  {
  }

  lemma OneMoreLine(pass: Pass, lines: seq<Line>, i: nat)
    requires i < |lines|
    ensures forall key ::
              Group(pass, lines[..i + 1], key) ==
              Group(pass, lines[..i], key) + if InGroup(pass, lines[i], key) then [i] else []
    ensures var before := KeyOrder(pass, lines[..i]);
      KeyOrder(pass, lines[..i + 1]) ==
      if Counts(pass, lines[i]) && lines[i].key.value !in before then before + [lines[i].key.value] else before
  {
    hide Counts, InGroup;
    assert lines[..i + 1][..i] == lines[..i];
  }

  lemma NoLinesYet(pass: Pass, lines: seq<Line>)
    ensures KeyOrder(pass, lines[..0]) == []
  {
  }

  /** The dictionary of lists that both passes build, with its insertion order. */
  method BuildGroups(pass: Pass, lines: seq<Line>) returns (order: seq<string>, groups: map<string, seq<nat>>)
    ensures order == KeyOrder(pass, lines)
    ensures forall key | key in order :: key in groups && groups[key] == Group(pass, lines, key)
  {
    hide Counts, Group, KeyOrder;
    order, groups := [], map[];
    NoLinesYet(pass, lines);
    for i := 0 to |lines|
      invariant order == KeyOrder(pass, lines[..i])
      invariant forall key :: key in order <==> key in groups
      invariant forall key | key in groups :: groups[key] == Group(pass, lines[..i], key)
    {
      OneMoreLine(pass, lines, i);
      if Counts(pass, lines[i]) {
        var key := lines[i].key.value;
        if key !in groups {
          NoGroupBefore(pass, lines[..i], key);
          order := order + [key];
          groups := groups[key := []];
        }
        groups := groups[key := groups[key] + [i]];
      }
    }
    assert lines[..|lines|] == lines;
  }

  lemma {:induction false} NoGroupBefore(pass: Pass, lines: seq<Line>, key: string)
    requires key !in KeyOrder(pass, lines)
    ensures Group(pass, lines, key) == []
  {
    if lines != [] {
      NoGroupBefore(pass, lines[..|lines| - 1], key);
    }
  }

  method CollectGroup(lines: seq<Line>, group: seq<nat>) returns (prices: set<int>, evidence: seq<Evidence>)
    requires Within(group, lines)
    ensures prices == PricesAt(lines, group) && evidence == EvidenceAt(lines, group)
  {
    prices, evidence := {}, [];
    for k := 0 to |group|
      invariant prices == PricesAt(lines, group[..k])
      invariant evidence == EvidenceAt(lines, group[..k])
    {
      var line := lines[group[k]];
      if line.fields.price.Some? {
        prices := prices + {line.fields.price.value};
      }
      evidence := evidence + [EvidenceOf(line)];
    }
    assert group[..|group|] == group;
  }

  // ---------- Marking ----------

  function Marked(line: Line, evidence: seq<Evidence>): Line {
    line.(flags := if PriceConflict in line.flags then line.flags else line.flags + [PriceConflict],
          evidence := evidence,
          status := InConflict)
  }

  /** What conflict detection makes of line `i`, once the groups of the keys in `keys` were looked at. */
  function MarkedIn(lines: seq<Line>, i: nat, keys: seq<string>): Line
    requires i < |lines|
  {
    if Eligible(lines[i]) && lines[i].key.value in keys && Conflicting(Detecting, lines, lines[i].key.value) then
      Marked(lines[i], EvidenceAt(lines, Group(Detecting, lines, lines[i].key.value)))
    else lines[i]
  }

  method MarkGroup(a: array<Line>, group: seq<nat>, evidence: seq<Evidence>)
    requires Within(group, a[..])
    modifies a
    ensures forall i: nat | i < a.Length ::
              a[i] == if i in group then Marked(old(a[i]), evidence) else old(a[i])
  {
    for k := 0 to |group|
      invariant forall i: nat | i < a.Length ::
                  a[i] == if i in group[..k] then Marked(old(a[i]), evidence) else old(a[i])
    {
      assert forall i :: i in group[..k + 1] <==> i in group[..k] || i == group[k];
      a[group[k]] := Marked(a[group[k]], evidence);
    }
    assert group[..|group|] == group;
  }

  /** One turn of the detection loop, over the group of `key`. */
  method DetectInGroup(a: array<Line>, group: seq<nat>, ghost lines: seq<Line>, ghost done: seq<string>, key: string)
    requires |lines| == a.Length && group == Group(Detecting, lines, key) && key !in done
    requires forall i: nat | i < a.Length :: a[i] == MarkedIn(lines, i, done)
    modifies a
    ensures forall i: nat | i < a.Length :: a[i] == MarkedIn(lines, i, done + [key])
  {
    assert SameButMarks(a[..], lines);
    MarksLeaveEvidence(a[..], lines, group);
    var prices, evidence := CollectGroup(a[..], group);
    forall i: nat {
      GroupMembers(Detecting, lines, key, i);
    }
    if |prices| > 1 {
      MarkGroup(a, group, evidence);
    }
  }

  method DetectPriceConflicts(a: array<Line>)
    modifies a
    ensures forall i: nat | i < a.Length :: a[i] == MarkedIn(old(a[..]), i, KeyOrder(Detecting, old(a[..])))
  {
    ghost var lines := a[..];
    var order, groups := BuildGroups(Detecting, a[..]);
    KeyOrderDistinct(Detecting, lines);
    for k := 0 to |order|
      invariant forall i: nat | i < a.Length :: a[i] == MarkedIn(lines, i, order[..k])
    {
      assert order[..k + 1] == order[..k] + [order[k]];
      DetectInGroup(a, groups[order[k]], lines, order[..k], order[k]);
    }
    assert order[..|order|] == order;
  }

  // ---------- The whole text ----------

  /** The section that holds after the given lines. */
  function Context(reader: Reader, text: seq<string>): Option<string> {
    if text == [] then None else
      var section := reader.section(text[|text| - 1]);
      if section.Some? then section else Context(reader, text[..|text| - 1])
  }

  /** The line numbers by lookup form that later lines are compared with. */
  function Seen(reader: Reader, text: seq<string>): map<string, nat> {
    if text == [] then map[] else
      var before := text[..|text| - 1];
      var raw := text[|text| - 1];
      var seen := Seen(reader, before);
      if reader.section(raw).Some? || reader.lookup(raw) == "" then seen
      else if reader.lookup(raw) in seen
              && ParseLine(reader, |text|, raw, Context(reader, before)).status != Ignored then
        seen
      else seen[reader.lookup(raw) := |text|]
  }

  function FirstLine(reader: Reader, number: nat, raw: string, context: Option<string>, seen: map<string, nat>): Line {
    if reader.section(raw).Some? then IgnoredLine(number, raw) else
      var line := ParseLine(reader, number, raw, context);
      if reader.lookup(raw) != "" && reader.lookup(raw) in seen && line.status != Ignored then
        line.(flags := line.flags + [DuplicateLine], duplicateOf := Some(seen[reader.lookup(raw)]))
      else line
  }

  /** Line `i` as it is before lines are compared for prices. */
  function FirstPass(reader: Reader, text: seq<string>, i: nat): Line
    requires i < |text|
  {
    FirstLine(reader, i + 1, text[i], Context(reader, text[..i]), Seen(reader, text[..i]))
  }

  function Rescored(line: Line): Line {
    if line.status != Ignored then Scored(line) else line
  }

  function FirstPasses(reader: Reader, text: seq<string>): (lines: seq<Line>)
    ensures |lines| == |text|
  {
    seq(|text|, i requires 0 <= i < |text| => FirstPass(reader, text, i))
  }

  function Result(reader: Reader, text: seq<string>): (lines: seq<Line>)
    ensures |lines| == |text|
  {
    var lines := FirstPasses(reader, text);
    seq(|text|, i requires 0 <= i < |text| => Rescored(MarkedIn(lines, i, KeyOrder(Detecting, lines))))
  }

  method ReadLines(reader: Reader, text: seq<string>) returns (a: array<Line>)
    ensures fresh(a) && a[..] == FirstPasses(reader, text)
  {
    a := new Line[|text|](_ => IgnoredLine(0, ""));
    var context: Option<string> := None;
    var seenLines: map<string, nat> := map[];
    for i := 0 to |text|
      invariant context == Context(reader, text[..i]) && seenLines == Seen(reader, text[..i])
      invariant forall k: nat | k < i :: a[k] == FirstPass(reader, text, k)
    {
      assert text[..i + 1][..i] == text[..i];
      var raw := text[i];
      var section := reader.section(raw);
      if section.Some? {
        context := section;
        a[i] := IgnoredLine(i + 1, raw);
      } else {
        var item := ParseLine(reader, i + 1, raw, context);
        var key := reader.lookup(raw);
        if key != "" && key in seenLines && item.status != Ignored {
          item := item.(flags := item.flags + [DuplicateLine], duplicateOf := Some(seenLines[key]));
        } else if key != "" {
          seenLines := seenLines[key := i + 1];
        }
        a[i] := item;
      }
    }
    assert a[..] == FirstPasses(reader, text);
  }

  method ParsePriceText(reader: Reader, text: seq<string>) returns (a: array<Line>)
    ensures fresh(a) && a[..] == Result(reader, text)
  {
    hide Scored, MarkedIn, FirstPass, KeyOrder;
    a := ReadLines(reader, text);
    ghost var lines := FirstPasses(reader, text);
    DetectPriceConflicts(a);
    ghost var marked := a[..];
    for i := 0 to a.Length
      invariant forall k: nat | k < a.Length ::
                  a[k] == if k < i then Rescored(marked[k]) else marked[k]
    {
      if a[i].status != Ignored {
        a[i] := Scored(a[i]);
      }
    }
    assert forall k: nat | k < a.Length :: a[k] == Rescored(MarkedIn(lines, k, KeyOrder(Detecting, lines)));
    assert a[..] == Result(reader, text);
  }

  // ---------- What a parse promises ----------

  lemma ResultKeepsLines(reader: Reader, text: seq<string>)
    ensures SameButMarks(Result(reader, text), FirstPasses(reader, text))
    ensures SameButMarks(FirstPasses(reader, text), Result(reader, text))
  {
    hide Score, FirstPass, Conflicting, KeyOrder, EvidenceAt;
  }

  /** Being contradicted is the same before and after the conflicts are marked. */
  lemma ContradictedEitherWay(a: seq<Line>, b: seq<Line>, i: nat)
    requires SameButMarks(a, b) && i < |a|
    requires Contradicted(a, i)
    ensures Contradicted(b, i)
  {
  }

  lemma FirstPassUnflagged(reader: Reader, text: seq<string>, i: nat)
    requires reader.ReadsSingleLines() && i < |text|
    ensures PriceConflict !in FirstPasses(reader, text)[i].flags
    ensures FirstPasses(reader, text)[i].status != InConflict
  {
  }

  lemma FlagsOf(reader: Reader, text: seq<string>, i: nat)
    requires reader.ReadsSingleLines() && i < |text|
    ensures PriceConflict in Result(reader, text)[i].flags
            <==> Eligible(FirstPasses(reader, text)[i])
                 && Conflicting(Detecting, FirstPasses(reader, text), FirstPasses(reader, text)[i].key.value)
  {
    hide Score, Group, KeyOrder, PricesAt, EvidenceAt, FirstPass, Conflicting;
    var lines := FirstPasses(reader, text);
    FirstPassUnflagged(reader, text, i);
    if Eligible(lines[i]) {
      KeyOrderMembers(Detecting, lines, lines[i].key.value);
      assert InGroup(Detecting, lines[i], lines[i].key.value);
    }
  }

  lemma ContradictedNeedsEligible(lines: seq<Line>, i: nat)
    requires i < |lines|
    ensures Contradicted(lines, i) ==> Eligible(lines[i])
  {
  }

  /** A line is flagged exactly when it is contradicted, ... */
  lemma FlaggedExactlyWhenContradicted(reader: Reader, text: seq<string>, i: nat)
    requires reader.ReadsSingleLines() && i < |text|
    ensures PriceConflict in Result(reader, text)[i].flags <==> Contradicted(Result(reader, text), i)
  {
    hide Conflicting, Contradicted, SameButMarks, FirstPasses, Result;
    var lines, result := FirstPasses(reader, text), Result(reader, text);
    ResultKeepsLines(reader, text);
    FlagsOf(reader, text, i);
    ContradictedNeedsEligible(lines, i);
    if Contradicted(result, i) {
      ContradictedEitherWay(result, lines, i);
    }
    if Contradicted(lines, i) {
      ContradictedEitherWay(lines, result, i);
    }
    if Eligible(lines[i]) {
      ConflictingMeansContradicted(lines, i);
    }
  }

  /** ... and that is exactly when its status is CONFLICT. */
  lemma ConflictExactlyWhenContradicted(reader: Reader, text: seq<string>, i: nat)
    requires reader.ReadsSingleLines() && i < |text|
    ensures Result(reader, text)[i].status == InConflict <==> Contradicted(Result(reader, text), i)
  {
    FlaggedExactlyWhenContradicted(reader, text, i);
  }

  /** Outside the conflicts an identity has one price, and an identity in conflict has no line outside. */
  lemma OnePricePerIdentity(reader: Reader, text: seq<string>, i: nat, j: nat)
    requires reader.ReadsSingleLines() && i < |text| && j < |text|
    ensures var result := Result(reader, text);
      Eligible(result[i]) && Eligible(result[j]) && result[i].key == result[j].key && result[i].status != InConflict ==>
      result[i].fields.price == result[j].fields.price && result[j].status != InConflict
  {
    var result := Result(reader, text);
    ConflictExactlyWhenContradicted(reader, text, i);
    ConflictExactlyWhenContradicted(reader, text, j);
    if Eligible(result[i]) && Eligible(result[j]) && result[i].key == result[j].key {
      assert InGroup(Detecting, result[j], result[i].key.value);
    }
  }

  // ---------- Recording the conflicts ----------

  function RecordedFor(lines: seq<Line>, keys: seq<string>): seq<DataConflict> {
    if keys == [] then [] else
      var key := keys[|keys| - 1];
      var group := Group(Recording, lines, key);
      RecordedFor(lines, keys[..|keys| - 1]) +
      if Conflicting(Recording, lines, key) then
        [DataConflict(key, PricesAt(lines, group), EvidenceAt(lines, group))]
      else []
  }

  function Recorded(lines: seq<Line>): seq<DataConflict> {
    RecordedFor(lines, KeyOrder(Recording, lines))
  }

  method CreateDataConflicts(lines: seq<Line>) returns (conflicts: seq<DataConflict>)
    ensures conflicts == Recorded(lines)
  {
    var order, groups := BuildGroups(Recording, lines);
    conflicts := [];
    for k := 0 to |order|
      invariant conflicts == RecordedFor(lines, order[..k])
    {
      assert order[..k + 1][..k] == order[..k];
      var prices, evidence := CollectGroup(lines, groups[order[k]]);
      if |prices| > 1 {
        conflicts := conflicts + [DataConflict(order[k], prices, evidence)];
      }
    }
    assert order[..|order|] == order;
  }

  lemma {:induction false} RecordedForExactly(lines: seq<Line>, keys: seq<string>)
    requires forall k, l | 0 <= k < l < |keys| :: keys[k] != keys[l]
    ensures forall k, l | 0 <= k < l < |RecordedFor(lines, keys)| ::
              RecordedFor(lines, keys)[k].key != RecordedFor(lines, keys)[l].key
    ensures forall c ::
              c in RecordedFor(lines, keys) <==>
                && c.key in keys && Conflicting(Recording, lines, c.key)
                && c.prices == PricesAt(lines, Group(Recording, lines, c.key))
                && c.evidence == EvidenceAt(lines, Group(Recording, lines, c.key))
  {
    if keys != [] {
      RecordedForExactly(lines, keys[..|keys| - 1]);
      assert keys == keys[..|keys| - 1] + [keys[|keys| - 1]];
    }
  }

  /** The flagged lines of a conflicting identity are its whole group; other identities have none. */
  lemma {:induction false} FlaggedGroup(lines: seq<Line>, key: string, conflicting: bool)
    requires forall i: nat | i < |lines| && lines[i].key == Some(key) ::
               PriceConflict in lines[i].flags <==> conflicting && Eligible(lines[i])
    ensures Group(Recording, lines, key) == if conflicting then Group(Detecting, lines, key) else []
  {
    if lines != [] {
      FlaggedGroup(lines[..|lines| - 1], key, conflicting);
    }
  }

  lemma FlaggedInResult(reader: Reader, text: seq<string>, key: string)
    requires reader.ReadsSingleLines()
    ensures var result := Result(reader, text);
      Group(Recording, result, key) ==
      if Conflicting(Detecting, result, key) then Group(Detecting, result, key) else []
  {
    var result := Result(reader, text);
    forall i: nat | i < |result| && result[i].key == Some(key)
      ensures PriceConflict in result[i].flags <==> Conflicting(Detecting, result, key) && Eligible(result[i])
    {
      FlaggedExactlyWhenContradicted(reader, text, i);
      if Eligible(result[i]) {
        ConflictingMeansContradicted(result, i);
      }
    }
    FlaggedGroup(result, key, Conflicting(Detecting, result, key));
  }

  /** One data conflict is recorded for each identity with two prices and none for any other, and its prices and
      evidence are exactly those of the lines that are not ignored and have this identity. */
  lemma OneConflictPerIdentity(reader: Reader, text: seq<string>)
    requires reader.ReadsSingleLines()
    ensures var result := Result(reader, text);
      && (forall k, l | 0 <= k < l < |Recorded(result)| :: Recorded(result)[k].key != Recorded(result)[l].key)
      && (forall c ::
            c in Recorded(result) <==>
              && Conflicting(Detecting, result, c.key)
              && c.prices == PricesAt(result, Group(Detecting, result, c.key))
              && c.evidence == EvidenceAt(result, Group(Detecting, result, c.key)))
  {
    var result := Result(reader, text);
    var keys := KeyOrder(Recording, result);
    KeyOrderDistinct(Recording, result);
    RecordedForExactly(result, keys);
    forall key
      ensures Conflicting(Recording, result, key) <==> Conflicting(Detecting, result, key)
      ensures Conflicting(Recording, result, key) ==> key in keys
      ensures Conflicting(Recording, result, key) ==> Group(Recording, result, key) == Group(Detecting, result, key)
    {
      FlaggedInResult(reader, text, key);
      if Conflicting(Recording, result, key) && key !in keys {
        NoGroupBefore(Recording, result, key);
      }
    }
  }
}
