/**
 Which supplier snapshots count, and what a run without errors leaves of every offer, said over the lines themselves:
 their positions, status, price, flags and matches.
 */
module SnapshotGate {
  import opened Arithmetic
  import opened Common
  import opened Availability
  import opened SupplierSnapshots
  import PriceConflicts

  // ---------- Which snapshots complete ----------

  function NotIgnored(lines: seq<ListedLine>): set<nat> {
    set i: nat | i < |lines| && lines[i].parse != Ignored
  }

  ghost predicate IsUsable(line: ListedLine) {
    && line.parse != Ignored && line.price.Some?
    && PriceConflicts.InvalidPrice !in line.flags && PriceConflicts.MissingPrice !in line.flags
    && PriceConflicts.PriceConflict !in line.flags
  }

  ghost function Usable(lines: seq<ListedLine>): set<nat> {
    set i: nat | i < |lines| && IsUsable(lines[i])
  }

  /** The matcher found or made the variant for line `i`. */
  ghost predicate Names(lines: seq<ListedLine>, i: nat, variant: nat) {
    && i < |lines| && lines[i].parse in {Parsed, PartlyParsed, ToReview}
    && lines[i].outcome in {ExactMatch, AutoCreated} && lines[i].variant == Some(variant)
  }

  /** Matching line `i` stores an offer under the key. */
  ghost predicate Stores(lines: seq<ListedLine>, i: nat, key: OfferKey) {
    Names(lines, i, key.variant) && lines[i].supplier == key.supplier && lines[i].price.Some?
  }

  /** Some line names the variant when the supplier has an offer for it: from before, or from a line up to there. */
  ghost predicate Shown(offers: Offers, lines: seq<ListedLine>, key: OfferKey) {
    exists i: nat :: Names(lines, i, key.variant) && HasOffer(offers, lines, i, key)
  }

  ghost predicate HasOffer(offers: Offers, lines: seq<ListedLine>, i: nat, key: OfferKey) {
    key in offers || exists j: nat :: j <= i && Stores(lines, j, key)
  }

  lemma {:induction false} CountsArePositions(lines: seq<ListedLine>)
    ensures Candidates(lines) == |NotIgnored(lines)| && Successful(lines) == |Usable(lines)|
  {
    if lines != [] {
      var n := |lines| - 1;
      CountsArePositions(lines[..n]);
      forall i: nat
        ensures i in NotIgnored(lines) <==> i in NotIgnored(lines[..n]) || (i == n && lines[n].parse != Ignored)
        ensures i in Usable(lines) <==> i in Usable(lines[..n]) || (i == n && IsUsable(lines[n]))
      {
        assert i < n ==> lines[..n][i] == lines[i];
      }
      hide NotIgnored, Usable, IsUsable;
      SetGrows(NotIgnored(lines[..n]), NotIgnored(lines), n, lines[n].parse != Ignored);
      SetGrows(Usable(lines[..n]), Usable(lines), n, IsUsable(lines[n]));
      UsableMeansUnblocked(lines[n]);
    }
  }

  lemma UsableMeansUnblocked(line: ListedLine)
    ensures IsUsable(line) <==> line.parse != Ignored && line.price.Some? && line.flags !! BLOCKING
  {
  }

  function ParsedAs(lines: seq<ListedLine>, parse: ParseStatus): set<nat> {
    set i: nat | i < |lines| && lines[i].parse == parse
  }

  ghost function EndingAs(lines: seq<ListedLine>, outcome: MatchStatus): set<nat> {
    set i: nat | i < |lines| && EndsAs(lines[i], outcome)
  }

  /** The other counters of a snapshot are positions too. */
  lemma {:induction false} LineCountsArePositions(lines: seq<ListedLine>, parse: ParseStatus, outcome: MatchStatus)
    ensures CountParse(lines, parse) == |ParsedAs(lines, parse)|
    ensures CountLines(lines, outcome) == |EndingAs(lines, outcome)|
  {
    if lines != [] {
      var n := |lines| - 1;
      LineCountsArePositions(lines[..n], parse, outcome);
      assert forall i: nat | i < n :: lines[..n][i] == lines[i];
      SetGrows(ParsedAs(lines[..n], parse), ParsedAs(lines, parse), n, lines[n].parse == parse);
      SetGrows(EndingAs(lines[..n], outcome), EndingAs(lines, outcome), n, EndsAs(lines[n], outcome));
    }
  }

  /** A line in conflict counts as blocked without being matched, an ignored one not at all. */
  ghost predicate EndsAs(line: ListedLine, outcome: MatchStatus) {
    || (line.parse == InConflict && outcome == ConflictBlocked)
    || (line.parse in {Parsed, PartlyParsed, ToReview} && line.outcome == outcome)
  }

  /** The counter of a change of level: to suspect, to out of stock, back in stock from one of these, or in stock. */
  lemma CounterOfEachChange(before: Offers, after: Offers, c: Counter, key: OfferKey)
    ensures key in Moves(before, after, c) <==>
            && key in before && key in after && before[key].level != after[key].level
            && match c
               case MovedToSuspect => after[key].level == SuspectMissing
               case MovedToOutOfStock => after[key].level == OutOfStock
               case Restored =>
                 after[key].level in {InStock, Unknown} && before[key].level in {SuspectMissing, OutOfStock}
               case MovedToInStock =>
                 after[key].level in {InStock, Unknown} && before[key].level in {InStock, Unknown}
  {
  }

  lemma {:induction false} StoredOffers(offers: Offers, lines: seq<ListedLine>, record: nat, key: OfferKey)
    ensures key in AfterLines(offers, lines, record) <==> key in offers || exists j: nat :: Stores(lines, j, key)
  {
    if lines != [] {
      var n := |lines| - 1;
      StoredOffers(offers, lines[..n], record, key);
      assert forall j: nat :: j < n ==> (Stores(lines[..n], j, key) <==> Stores(lines, j, key));
      assert forall j: nat | Stores(lines, j, key) :: j < n || j == n;
      assert forall j: nat | Stores(lines[..n], j, key) :: j < n;
      if Stores(lines, n, key) {
        assert key == OfferKey(lines[n].supplier, lines[n].variant.value);
      }
    }
  }

  lemma {:induction false} ShownKeys(offers: Offers, lines: seq<ListedLine>, supplier: nat, record: nat, key: OfferKey)
    ensures key in SeenKeys(offers, lines, supplier, record)
            <==> key.supplier == supplier && Shown(offers, lines, key)
  {
    if lines != [] {
      hide Stores;
      var n := |lines| - 1;
      ShownKeys(offers, lines[..n], supplier, record, key);
      ShownByPrefix(offers, lines, key);
      StoredOffers(offers, lines, record, key);
      StoresInRange(lines, key);
      assert key in LineSeen(AfterLines(offers, lines, record), lines[n], supplier)
             <==> key.supplier == supplier && Names(lines, n, key.variant) && HasOffer(offers, lines, n, key);
    }
  }

  lemma StoresInRange(lines: seq<ListedLine>, key: OfferKey)
    ensures forall j: nat | Stores(lines, j, key) :: j < |lines|
  {
  }

  lemma ShownByPrefix(offers: Offers, lines: seq<ListedLine>, key: OfferKey)
    requires lines != []
    ensures var n := |lines| - 1;
      Shown(offers, lines, key) <==>
        || Shown(offers, lines[..n], key)
        || (Names(lines, n, key.variant) && HasOffer(offers, lines, n, key))
  {
    var n := |lines| - 1;
    assert forall i: nat | i < n :: Names(lines[..n], i, key.variant) <==> Names(lines, i, key.variant);
    assert forall i: nat | i < n :: Stores(lines[..n], i, key) <==> Stores(lines, i, key);
    forall i: nat | i < n ensures HasOffer(offers, lines[..n], i, key) <==> HasOffer(offers, lines, i, key) {
      hide Stores, Names;
      if j: nat :| j <= i && Stores(lines, j, key) {
        assert Stores(lines[..n], j, key);
      }
    }
  }

  /** The reason noted with a snapshot, a PARTIAL one included. */
  lemma ReasonExactlyWhen(offers: Offers, s: Snapshot, lines: seq<ListedLine>, num: nat, den: nat)
    ensures var nothing := Usable(lines) == {}
                           || !exists key: OfferKey :: key.supplier == s.supplier && Shown(offers, lines, key);
      FinalSnapshot(offers, s, lines, NoFault, num, den).gateReason
      == if lines == [] then Some(EmptyRawText)
         else if nothing then Some(NoValidItems)
         else if |Usable(lines)| * den < num * |NotIgnored(lines)| then Some(LowValidItemRatio)
         else None
  {
    hide Shown;
    CountsArePositions(lines);
    var seen := SeenKeys(offers, lines, s.supplier, s.record);
    forall key: OfferKey ensures key in seen <==> key.supplier == s.supplier && Shown(offers, lines, key) {
      ShownKeys(offers, lines, s.supplier, s.record, key);
    }
    if key: OfferKey :| key.supplier == s.supplier && Shown(offers, lines, key) {
      assert key in seen;
    }
    if |seen| > 0 {
      var key := AnElement(seen);
    }
    if Usable(lines) != {} {
      var i :| i in Usable(lines);
      assert i in NotIgnored(lines);
    }
  }

  /** A FULL text counts. */
  ghost predicate TextCounts(offers: Offers, s: Snapshot, lines: seq<ListedLine>, num: nat, den: nat) {
    && lines != [] && Usable(lines) != {}
    && (exists key: OfferKey :: key.supplier == s.supplier && Shown(offers, lines, key))
    && num * |NotIgnored(lines)| <= |Usable(lines)| * den
  }

  /** A FULL snapshot processed without error completes exactly when its text is not empty, some line is usable, some
      offer is shown, and the usable lines reach the least share of those that are not ignored; otherwise it is
      rejected. A PARTIAL one always completes. */
  lemma CompletedExactlyWhen(offers: Offers, s: Snapshot, lines: seq<ListedLine>, num: nat, den: nat)
    ensures var status := FinalSnapshot(offers, s, lines, NoFault, num, den).status;
      && (status == Completed <==> s.kind == Partial || TextCounts(offers, s, lines, num, den))
      && (status == Completed || status == Rejected)
  {
    hide Shown, FinalSnapshot, Usable, NotIgnored;
    ReasonExactlyWhen(offers, s, lines, num, den);
    VerdictFollowsReason(offers, s, lines, num, den);
  }

  lemma VerdictFollowsReason(offers: Offers, s: Snapshot, lines: seq<ListedLine>, num: nat, den: nat)
    ensures var final := FinalSnapshot(offers, s, lines, NoFault, num, den);
      final.status == if final.gateReason.None? || s.kind == Partial then Completed else Rejected
  {
  }

  /** The line still does what it did: it names the same variant, or none before, and stores an offer if it did. */
  ghost predicate Keeps(line: ListedLine, better: ListedLine) {
    && better.supplier == line.supplier
    && (line.Matched() ==> better.Matched() && better.variant == line.variant)
  }

  /** Making one line usable, with what it matches kept, never turns a completed snapshot into a rejected one. */
  lemma UsableLineNeverRejects(offers: Offers, s: Snapshot, lines: seq<ListedLine>, num: nat, den: nat, i: nat,
                               better: ListedLine)
    requires i < |lines| && IsUsable(better) && Keeps(lines[i], better)
    requires FinalSnapshot(offers, s, lines, NoFault, num, den).status == Completed
    ensures FinalSnapshot(offers, s, lines[i := better], NoFault, num, den).status == Completed
  {
    hide FinalSnapshot, Shown;
    var after := lines[i := better];
    CompletedExactlyWhen(offers, s, lines, num, den);
    CompletedExactlyWhen(offers, s, after, num, den);
    if s.kind == Full {
      var key: OfferKey :| key.supplier == s.supplier && Shown(offers, lines, key);
      StillShown(offers, lines, i, better, key);
      ShareGrows(lines, i, better, num, den);
    }
  }

  lemma StillShown(offers: Offers, lines: seq<ListedLine>, i: nat, better: ListedLine, key: OfferKey)
    requires i < |lines| && IsUsable(better) && Keeps(lines[i], better) && Shown(offers, lines, key)
    ensures Shown(offers, lines[i := better], key)
  {
    var after := lines[i := better];
    var k: nat :| Names(lines, k, key.variant) && HasOffer(offers, lines, k, key);
    assert Names(after, k, key.variant);
    if key !in offers {
      var j: nat :| j <= k && Stores(lines, j, key);
      assert Stores(after, j, key);
    }
    assert HasOffer(offers, after, k, key);
  }

  lemma ShareGrows(lines: seq<ListedLine>, i: nat, better: ListedLine, num: nat, den: nat)
    requires i < |lines| && IsUsable(better) && Usable(lines) != {}
    requires num * |NotIgnored(lines)| <= |Usable(lines)| * den
    ensures Usable(lines[i := better]) != {}
    ensures num * |NotIgnored(lines[i := better])| <= |Usable(lines[i := better])| * den
  {
    var after := lines[i := better];
    assert forall k: nat :: k in NotIgnored(after) <==> k in NotIgnored(lines) || k == i;
    assert forall k: nat :: k in Usable(after) <==> k in Usable(lines) || k == i;
    assert forall k: nat | k in Usable(lines) :: k in NotIgnored(lines);
    hide IsUsable, NotIgnored, Usable;
    var c, u := NotIgnored(lines), Usable(lines);
    SetGains(c, NotIgnored(after), i);
    SetGains(u, Usable(after), i);
    SubsetIsSmaller(u, c);
    ShareArithmetic(|u|, |c|, num, den);
    var gain := if i in u then 0 else 1;
    assert |NotIgnored(after)| <= |c| + gain && |Usable(after)| == |u| + gain;
    MulMonotone(num, den, gain);
    assert num * (|c| + gain) == num * |c| + num * gain && (|u| + gain) * den == |u| * den + gain * den;
    ScaledMonotone(|NotIgnored(after)|, |c| + gain, num);
  }

  lemma ScaledMonotone(a: nat, b: nat, k: nat)
    requires a <= b
    ensures k * a <= k * b
  {
    MulMonotone(a, b, k);
  }

  lemma SetGains(before: set<nat>, after: set<nat>, n: nat)
    requires forall k: nat :: k in after <==> k in before || k == n
    ensures |after| == |before| + if n in before then 0 else 1
  {
    if n in before {
      assert after == before;
    } else {
      SetGrows(before, after, n, true);
    }
  }

  lemma SubsetIsSmaller(a: set<nat>, b: set<nat>)
    requires a <= b
    ensures |a| <= |b|
  {
    assert b == a + (b - a);
  }

  /** A share that is reached by some of the lines is at most the whole. */
  lemma ShareArithmetic(usable: nat, candidates: nat, num: nat, den: nat)
    requires 0 < usable <= candidates && num * candidates <= usable * den
    ensures num <= den
  {
    if den < num {
      MulMonotone(usable, candidates, den);
      assert num * candidates == den * candidates + (num - den) * candidates;
      MulMonotone(1, num - den, candidates);
    }
  }

  // ---------- What a run leaves of every offer ----------

  /** Storing an offer: a new one has the price, the record and the level of the payload and no history; an existing one
      takes the price and, if the payload knows one, the level, and names the record if either is new. */
  lemma UpsertedInFields(offers: Offers, key: OfferKey, price: int, record: nat, level: Level)
    ensures var after := Upserted(offers, key, price, record, level);
      && after.Keys == offers.Keys + {key}
      && (forall other | other in offers && other != key :: after[other] == offers[other])
      && (key !in offers ==> after[key] == Offer(price, record, level, 0, None, None, None))
      && (key in offers ==>
            var o, known := offers[key], if level == Unknown then offers[key].level else level;
            && after[key] == o.(price := price, level := known, sourceRecord := after[key].sourceRecord)
            && after[key].sourceRecord == if price == o.price && known == o.level then o.sourceRecord else record)
  {
  }

  /** Line `i` is the last one to store an offer under the key. */
  ghost predicate LastStore(lines: seq<ListedLine>, i: nat, key: OfferKey) {
    Stores(lines, i, key) && forall j: nat | i < j :: !Stores(lines, j, key)
  }

  /** The lines leave price and record of an offer to the last line that stores it, and nothing else is theirs. */
  ghost predicate Priced(before: Option<Offer>, after: Offer, lines: seq<ListedLine>, record: nat, key: OfferKey) {
    && (forall i: nat | LastStore(lines, i, key) :: Some(after.price) == lines[i].price)
    && (before.Some? && !(exists j: nat :: Stores(lines, j, key)) ==> after == before.value)
    && (before.Some? ==> after == before.value.(price := after.price, sourceRecord := after.sourceRecord))
    && (before.None? ==> after == Offer(after.price, after.sourceRecord, Unknown, 0, None, None, None))
    && (before.None? || after != before.value ==> after.sourceRecord == record)
  }

  lemma {:induction false} LinesPrice(offers: Offers, lines: seq<ListedLine>, record: nat, key: OfferKey)
    requires key in AfterLines(offers, lines, record)
    ensures Priced(Lookup(offers, key), AfterLines(offers, lines, record)[key], lines, record, key)
  {
    if lines != [] {
      var n := |lines| - 1;
      var earlier := AfterLines(offers, lines[..n], record);
      assert forall j: nat | j < n :: Stores(lines[..n], j, key) <==> Stores(lines, j, key);
      assert forall j: nat | Stores(lines, j, key) :: j <= n;
      assert forall j: nat | Stores(lines[..n], j, key) :: j < n;
      if key in earlier {
        LinesPrice(offers, lines[..n], record, key);
      }
      if Stores(lines, n, key) {
        assert key == OfferKey(lines[n].supplier, lines[n].variant.value);
        assert LastStore(lines, n, key);
      } else {
        assert AfterLines(offers, lines, record)[key] == earlier[key];
        assert forall i: nat | LastStore(lines, i, key) :: LastStore(lines[..n], i, key);
      }
    }
  }

  /** What snapshot `id` makes of an offer of its supplier: nothing if it does not count or the offer has seen a later
      one; in stock if it shows the offer; one more miss if it is FULL and does not. */
  ghost predicate Moved(o: Offer, after: Offer, id: nat, s: Snapshot, counts: bool, shown: bool, threshold: nat) {
    if !counts || (o.lastProcessed.Some? && s.capturedAt < o.lastProcessed.value) || (!shown && s.kind == Partial) then
      after == o
    else if shown then
      after == o.(level := InStock, missing := 0, lastSeen := Some(id), lastProcessed := Some(s.capturedAt))
    else
      && after == o.(level := after.level, missing := o.missing + 1, lastMissing := Some(id),
                     lastProcessed := Some(s.capturedAt))
      && after.level == if threshold <= o.missing + 1 then OutOfStock
                        else if o.level in {InStock, Unknown} then SuspectMissing
                        else o.level
  }

  /** Priced by the lines, then moved by the snapshot if it is the supplier's. */
  ghost predicate Left(offers: Offers, after: Offer, id: nat, s: Snapshot, lines: seq<ListedLine>, threshold: nat,
                       counts: bool, key: OfferKey)
  {
    exists o: Offer ::
      && Priced(Lookup(offers, key), o, lines, s.record, key)
      && Moved(o, after, id, s, counts && key.supplier == s.supplier, Shown(offers, lines, key), threshold)
  }

  /** After a run without error there are the offers of before and those that lines store, each as said above. */
  lemma RunLeavesOffers(offers: Offers, id: nat, s: Snapshot, lines: seq<ListedLine>, threshold: nat, num: nat,
                        den: nat, key: OfferKey)
    ensures var final := FinalOffers(offers, id, s, lines, NoFault, threshold, num, den);
      && (key in final <==> key in offers || exists j: nat :: Stores(lines, j, key))
      && (key in final ==>
            Left(offers, final[key], id, s, lines, threshold,
                 s.kind == Partial || TextCounts(offers, s, lines, num, den), key))
  {
    hide Stores, Shown, TextCounts, Priced, GateOf;
    StoredOffers(offers, lines, s.record, key);
    ShownKeys(offers, lines, s.supplier, s.record, key);
    CompletedExactlyWhen(offers, s, lines, num, den);
    var touched := AfterLines(offers, lines, s.record);
    if key in touched {
      LinesPrice(offers, lines, s.record, key);
      var counts := s.kind == Partial || TextCounts(offers, s, lines, num, den);
      var after := FinalOffers(offers, id, s, lines, NoFault, threshold, num, den)[key];
      assert Moved(touched[key], after, id, s, counts && key.supplier == s.supplier, Shown(offers, lines, key),
                   threshold);
    }
  }
}
