/** Datatypes and sequence facts shared by the other modules. */
module Common {

  /** A value that the program may leave as `None`. */
  datatype Option<+T> = None | Some(value: T)

  /** Instants and durations, in the smallest unit of the program's clock. */
  type Time = int

  /** What the parser says of a line of a price list. */
  datatype ParseStatus = Parsed | PartlyParsed | ToReview | InConflict | Ignored

  function Lookup<K, V>(m: map<K, V>, key: K): Option<V> {
    if key in m then Some(m[key]) else None
  }

  lemma AnElement<T>(s: set<T>) returns (x: T)
    requires |s| > 0
    ensures x in s
  {
    x :| x in s;
  }

  lemma TwoElements<T>(s: set<T>, x: T, y: T)
    requires x in s && y in s && x != y
    ensures |s| > 1
  {
    assert s == {x, y} + (s - {x, y});
  }

  lemma SetGrows(before: set<nat>, after: set<nat>, n: nat, grows: bool)
    requires forall i: nat :: i in after <==> i in before || (grows && i == n)
    requires n !in before
    ensures |after| == |before| + if grows then 1 else 0
  {
    assert after == before + if grows then {n} else {};
  }

  lemma TwoOccurrences<T>(s: seq<T>, i: nat, j: nat)
    requires i < |s| && j < |s| && i != j && s[i] == s[j]
    ensures multiset(s)[s[i]] >= 2
  {
    var lo, hi := if i < j then i else j, if i < j then j else i;
    assert s == s[..lo] + [s[lo]] + s[lo + 1..hi] + [s[hi]] + s[hi + 1..];
  }

  /** Element `k` carries a strictly later time than every other element. */
  ghost predicate IsLatest<T>(s: seq<T>, at: T -> Time, k: int) {
    0 <= k < |s| && forall i | 0 <= i < |s| && i != k :: at(s[i]) < at(s[k])
  }

  /** A strictly latest element stays the strictly latest one in every rearrangement. */
  lemma LatestSurvivesRearrangement<T>(first: seq<T>, second: seq<T>, at: T -> Time, k: int) returns (there: int)
    requires multiset(first) == multiset(second) && IsLatest(first, at, k)
    ensures IsLatest(second, at, there) && second[there] == first[k]
  {
    var a := first[k];
    assert first == first[..k] + [a] + first[k + 1..];
    assert a !in first[..k] && a !in first[k + 1..];
    assert multiset(first)[a] == 1;
    assert a in multiset(second);
    there :| 0 <= there < |second| && second[there] == a;
    forall i | 0 <= i < |second| && i != there ensures at(second[i]) < at(a) {
      assert second[i] in multiset(first);
      if second[i] == a {
        TwoOccurrences(second, i, there);
        assert false;
      }
    }
  }
}
