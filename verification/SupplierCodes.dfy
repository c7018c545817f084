/**
 Supplier codes: a seed made from the name, and the first free code among the seed and its numbered variants.
 */
module SupplierCodes {

  // ---------- The seed ----------

  predicate IsCodeChar(c: char) {
    'a' <= c <= 'z' || '0' <= c <= '9'
  }

  /** Runs of other characters become one dash. */
  function Dashed(name: string): string {
    if name == [] then [] else
      var before := Dashed(name[..|name| - 1]);
      var last := name[|name| - 1];
      if IsCodeChar(last) then before + [last]
      else if before != [] && before[|before| - 1] == '-' then before
      else before + ['-']
  }

  function StripLeft(s: string): string {
    if s != [] && s[0] == '-' then StripLeft(s[1..]) else s
  }

  function StripRight(s: string): string {
    if s != [] && s[|s| - 1] == '-' then StripRight(s[..|s| - 1]) else s
  }

  /** The seed for a name in lower case. */
  function SupplierCodeSeed(lowered: string): string {
    var seed := StripRight(StripLeft(Dashed(lowered)));
    Prefix(if seed == [] then "supplier" else seed, 48)
  }

  /** A slice from the start as Python takes it: a negative bound counts from the end. */
  function Prefix(s: string, k: int): (p: string)
    ensures p <= s
    ensures 0 <= k ==> |p| == if k < |s| then k else |s|
  {
    if k >= |s| then s else if k >= 0 then s[..k] else if |s| + k >= 0 then s[..|s| + k] else []
  }

  /** Letters, digits and single dashes, not starting with a dash. */
  ghost predicate WellFormed(code: string) {
    && code != [] && code[0] != '-'
    && (forall k | 0 <= k < |code| :: IsCodeChar(code[k]) || code[k] == '-')
    && (forall k | 0 <= k < |code| - 1 :: code[k] == '-' ==> code[k + 1] != '-')
  }

  ghost predicate SingleDashes(s: string) {
    && (forall k | 0 <= k < |s| :: IsCodeChar(s[k]) || s[k] == '-')
    && (forall k | 0 <= k < |s| - 1 :: s[k] == '-' ==> s[k + 1] != '-')
  }

  lemma {:induction false} DashedIsSingle(name: string)
    ensures SingleDashes(Dashed(name))
  {
    if name != [] {
      DashedIsSingle(name[..|name| - 1]);
    }
  }

  lemma {:induction false} StripLeftKeeps(s: string)
    requires SingleDashes(s)
    ensures SingleDashes(StripLeft(s)) && (StripLeft(s) != [] ==> StripLeft(s)[0] != '-')
  {
  }

  lemma {:induction false} StripRightIsPrefix(s: string)
    ensures StripRight(s) <= s
  {
    if s != [] && s[|s| - 1] == '-' {
      StripRightIsPrefix(s[..|s| - 1]);
    }
  }

  /** Every name, also one without a usable character, gives a seed that can start a code. */
  lemma SeedIsWellFormed(lowered: string)
    ensures WellFormed(SupplierCodeSeed(lowered)) && |SupplierCodeSeed(lowered)| <= 48
  {
    var dashed := Dashed(lowered);
    DashedIsSingle(lowered);
    StripLeftKeeps(dashed);
    StripRightIsPrefix(StripLeft(dashed));
    var seed := StripRight(StripLeft(dashed));
    if seed != [] {
      assert seed[0] == StripLeft(dashed)[0];
    }
    var whole := if seed == [] then "supplier" else seed;
    assert WellFormed(whole);
    assert Prefix(whole, 48) <= whole;
  }

  // ---------- The words of a name ----------

  /** The lower-case letters and the digits of ASCII. */
  lemma CodeChars(c: char)
    ensures IsCodeChar(c) <==> 97 <= c as int <= 122 || 48 <= c as int <= 57
  {
  }

  /** The runs of letters and digits in a name, in order. */
  function Words(name: string): seq<string> {
    if name == [] then [] else
      var n := |name| - 1;
      var before := Words(name[..n]);
      if !IsCodeChar(name[n]) then before
      else if n == 0 || !IsCodeChar(name[n - 1]) || before == [] then before + [[name[n]]]
      else before[..|before| - 1] + [before[|before| - 1] + [name[n]]]
  }

  function Joined(words: seq<string>): string {
    if words == [] then [] else
      var last := words[|words| - 1];
      if |words| == 1 then last else Joined(words[..|words| - 1]) + "-" + last
  }

  ghost predicate AreWords(words: seq<string>) {
    forall w | w in words :: w != [] && forall k | 0 <= k < |w| :: IsCodeChar(w[k])
  }

  lemma {:induction false} JoinedWords(words: seq<string>)
    requires AreWords(words)
    ensures Joined(words) == [] <==> words == []
    ensures words != [] ==> IsCodeChar(Joined(words)[0]) && IsCodeChar(Joined(words)[|Joined(words)| - 1])
  {
    if |words| > 1 {
      JoinedWords(words[..|words| - 1]);
      assert words[|words| - 1] in words;
    } else if |words| == 1 {
      assert words[0] in words;
    }
  }

  lemma {:induction false} WordsAreWords(name: string)
    ensures AreWords(Words(name))
    ensures name != [] && IsCodeChar(name[|name| - 1]) ==> Words(name) != []
  {
    if name != [] {
      WordsAreWords(name[..|name| - 1]);
    }
  }

  lemma JoinedOneMore(words: seq<string>, word: string)
    ensures Joined(words + [word]) == if words == [] then word else Joined(words) + "-" + word
  {
    assert (words + [word])[..|words|] == words;
  }

  lemma JoinedExtends(front: seq<string>, word: string, c: char)
    ensures Joined(front + [word + [c]]) == Joined(front + [word]) + [c]
  {
    JoinedOneMore(front, word);
    JoinedOneMore(front, word + [c]);
    hide Joined;
    if front != [] {
      var before := Joined(front) + "-";
      assert before + (word + [c]) == before + word + [c];
    }
  }

  lemma WordsOneMore(front: string, c: char)
    ensures var before := Words(front);
      Words(front + [c]) ==
      if !IsCodeChar(c) then before
      else if front == [] || !IsCodeChar(front[|front| - 1]) || before == [] then before + [[c]]
      else before[..|before| - 1] + [before[|before| - 1] + [c]]
  {
    assert (front + [c])[..|front|] == front;
  }

  lemma DashedOneMore(front: string, c: char)
    ensures Dashed(front + [c]) ==
            if IsCodeChar(c) then Dashed(front) + [c]
            else if EndsWithDash(Dashed(front)) then Dashed(front)
            else Dashed(front) + ['-']
  {
    assert (front + [c])[..|front|] == front;
  }

  lemma {:induction false} StripLeftAppends(s: string, c: char)
    ensures StripLeft(s + [c]) == if StripLeft(s) == [] && c == '-' then [] else StripLeft(s) + [c]
  {
    if s != [] {
      assert (s + [c])[1..] == s[1..] + [c];
      StripLeftAppends(s[1..], c);
    }
  }

  /** After the dashes in front are gone the words stand there, joined by dashes, and one more dash if the name goes on
      after the last of them. */
  lemma {:induction false} DashedJoinsWords(name: string)
    ensures StripLeft(Dashed(name)) == Joined(Words(name)) + if EndsApart(name) then "-" else ""
    ensures EndsWithDash(Dashed(name)) <==> name != [] && !IsCodeChar(name[|name| - 1])
  {
    hide Dashed, StripLeft, Joined, Words;
    if name == [] {
      NoWords();
    } else {
      var n := |name| - 1;
      assert name == name[..n] + [name[n]];
      DashedJoinsWords(name[..n]);
      if IsCodeChar(name[n]) {
        OneMoreLetter(name[..n], name[n]);
      } else {
        OneMoreDash(name[..n], name[n]);
      }
    }
  }

  lemma NoWords()
    ensures Words([]) == [] && Dashed([]) == [] && StripLeft([]) == [] && Joined([]) == []
  {
  }

  lemma OneMoreLetter(front: string, c: char)
    requires StripLeft(Dashed(front)) == Joined(Words(front)) + if EndsApart(front) then "-" else ""
    requires IsCodeChar(c)
    ensures StripLeft(Dashed(front + [c])) == Joined(Words(front + [c])) && !EndsWithDash(Dashed(front + [c]))
  {
    hide Dashed, StripLeft, Joined, Words;
    DashedOneMore(front, c);
    StripLeftAppends(Dashed(front), c);
    WordsAreWords(front);
    WordsOneMore(front, c);
    NoWords();
    var words := Words(front);
    JoinedWords(words);
    if front != [] && IsCodeChar(front[|front| - 1]) {
      assert words == words[..|words| - 1] + [words[|words| - 1]];
      JoinedExtends(words[..|words| - 1], words[|words| - 1], c);
    } else {
      JoinedOneMore(words, [c]);
    }
  }

  lemma OneMoreDash(front: string, c: char)
    requires StripLeft(Dashed(front)) == Joined(Words(front)) + if EndsApart(front) then "-" else ""
    requires !IsCodeChar(c)
    requires EndsWithDash(Dashed(front)) <==> front != [] && !IsCodeChar(front[|front| - 1])
    ensures StripLeft(Dashed(front + [c])) == Joined(Words(front + [c])) + if EndsApart(front + [c]) then "-" else ""
    ensures EndsWithDash(Dashed(front + [c]))
  {
    hide Dashed, StripLeft, Joined, Words;
    DashedOneMore(front, c);
    StripLeftAppends(Dashed(front), '-');
    WordsOneMore(front, c);
    WordsAreWords(front);
    JoinedWords(Words(front));
  }

  predicate EndsWithDash(s: string) {
    s != [] && s[|s| - 1] == '-'
  }

  /** The name has a word, and ends with something else. */
  predicate EndsApart(name: string) {
    name != [] && !IsCodeChar(name[|name| - 1]) && Words(name) != []
  }

  /** The seed is made of all words of the name in order, joined by single dashes, and cut off after 48 characters; a
      name without words gives "supplier". */
  lemma SeedJoinsWords(lowered: string)
    ensures var words := Words(lowered);
      var whole := if words == [] then "supplier" else Joined(words);
      SupplierCodeSeed(lowered) == if |whole| <= 48 then whole else whole[..48]
  {
    hide Joined, Words, Dashed, StripLeft;
    var words := Words(lowered);
    DashedJoinsWords(lowered);
    WordsAreWords(lowered);
    JoinedWords(words);
    var joined := Joined(words);
    assert StripRight(joined) == joined;
    if EndsApart(lowered) {
      assert (joined + "-")[..|joined|] == joined;
    }
  }

  // ---------- Numbered codes ----------

  function Digit(d: nat): (c: char)
    requires d < 10
    ensures '0' <= c <= '9'
  {
    ('0' as int + d) as char
  }

  function Decimal(n: nat): (digits: string)
    ensures digits != [] && forall k | 0 <= k < |digits| :: '0' <= digits[k] <= '9'
  {
    if n < 10 then [Digit(n)] else Decimal(n / 10) + [Digit(n % 10)]
  }

  function Value(digits: string): int {
    if digits == [] then 0 else 10 * Value(digits[..|digits| - 1]) + (digits[|digits| - 1] as int - '0' as int)
  }

  lemma {:induction false} ValueOfDecimal(n: nat)
    ensures Value(Decimal(n)) == n
  {
    if n < 10 {
      assert Value([]) == 0 && Decimal(n)[..0] == [];
    } else {
      ValueOfDecimal(n / 10);
      assert Decimal(n)[..|Decimal(n)| - 1] == Decimal(n / 10);
    }
  }

  function Tail(suffix: nat): string {
    "-" + Decimal(suffix)
  }

  /** The seed, cut so that the number fits in 64 characters, and the number. */
  function Numbered(seed: string, suffix: nat): string {
    Prefix(seed, 64 - |Tail(suffix)|) + Tail(suffix)
  }

  lemma DashThenDigits(s: string, n: nat)
    ensures |s + Tail(n)| == |s| + 1 + |Decimal(n)|
    ensures (s + Tail(n))[|s|] == '-'
    ensures forall k | |s| < k < |s + Tail(n)| :: (s + Tail(n))[k] != '-'
    ensures (s + Tail(n))[|s| + 1..] == Decimal(n)
  {
  }

  lemma EqualTails(a: string, b: string, m: nat, n: nat)
    requires a + Tail(m) == b + Tail(n)
    ensures m == n
  {
    hide Tail, Decimal;
    DashThenDigits(a, m);
    DashThenDigits(b, n);
    assert |a| == |b|;
    ValueOfDecimal(m);
    ValueOfDecimal(n);
  }

  /** Whatever was cut off the seed, different numbers give different codes. */
  lemma NumberedCodesDiffer(seed: string, m: nat, n: nat)
    requires m != n
    ensures Numbered(seed, m) != Numbered(seed, n)
  {
    if Numbered(seed, m) == Numbered(seed, n) {
      EqualTails(Prefix(seed, 64 - |Tail(m)|), Prefix(seed, 64 - |Tail(n)|), m, n);
    }
  }

  /** A numbered code fits in the column exactly when its number has at most 63 digits. */
  lemma NumberedFitsExactlyWhen(seed: string, suffix: nat)
    ensures |Numbered(seed, suffix)| <= 64 <==> |Decimal(suffix)| <= 63
  {
  }

  lemma {:induction false} DecimalLengthMonotone(m: nat, n: nat)
    requires m <= n
    ensures |Decimal(m)| <= |Decimal(n)|
  {
    if m >= 10 {
      DecimalLengthMonotone(m / 10, n / 10);
    }
  }

  /** The first free code. The codes tried are all different, so a finite set cannot hold them all. */
  method UniqueSupplierCode(existing: set<string>, seed: string) returns (code: string, ghost suffix: nat)
    ensures code !in existing
    ensures seed !in existing ==> code == seed
    ensures seed in existing ==>
              && 2 <= suffix <= |existing| + 2
              && code == Numbered(seed, suffix)
              && forall k | 2 <= k < suffix :: Numbered(seed, k) in existing
    ensures |seed| <= 64 && |Decimal(|existing| + 2)| <= 63 ==> |code| <= 64
  {
    hide Numbered;
    code := seed;
    var next: nat := 2;
    ghost var left := existing;
    while code in existing
      invariant next >= 2 && left <= existing && |left| == |existing| - if next == 2 then 0 else next - 3
      invariant code == if next == 2 then seed else Numbered(seed, next - 1)
      invariant next > 2 ==> seed in existing
      invariant forall k | 2 <= k < next - 1 :: Numbered(seed, k) in existing
      invariant forall k | 2 <= k && next - 1 <= k && Numbered(seed, k) in existing :: Numbered(seed, k) in left
      decreases next == 2, |left|
    {
      if next > 2 {
        forall k: nat | next <= k ensures Numbered(seed, k) != code {
          NumberedCodesDiffer(seed, k, next - 1);
        }
        left := left - {code};
      }
      code := Numbered(seed, next);
      next := next + 1;
    }
    suffix := next - 1;
    NumberedFitsExactlyWhen(seed, suffix);
    if next > 2 {
      DecimalLengthMonotone(suffix, |existing| + 2);
    }
  }
}
