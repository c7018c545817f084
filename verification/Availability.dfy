/**
 The availability of one supplier offer, as a function of the snapshots that concerned it.

 A snapshot that lists the offer is a "seen" event; a complete FULL snapshot of its supplier that does not list it is
 a "missing" event. Snapshots arrive in any order, and one that is older than the last one taken into account is
 ignored.
 */
module Availability {
  import opened Common

  datatype Level = InStock | OutOfStock | Unknown | SuspectMissing

  datatype Offer = Offer(
    price: int,
    sourceRecord: nat,
    level: Level,
    missing: nat,
    lastProcessed: Option<Time>,
    lastSeen: Option<nat>,
    lastMissing: Option<nat>)

  datatype Event = Event(at: Time, seen: bool)

  /** An offer as the matcher creates it. */
  function NewOffer(price: int, sourceRecord: nat): Offer {
    Offer(price, sourceRecord, Unknown, 0, None, None, None)
  }

  /** The snapshot is older than the last one that this offer took into account. */
  predicate Stale(o: Offer, at: Time) {
    o.lastProcessed.Some? && at < o.lastProcessed.value
  }

  /** What a snapshot captured at `at` does to an offer that it lists. */
  function AfterSeen(o: Offer, snapshot: nat, at: Time): Offer {
    if Stale(o, at) then o else
      o.(missing := 0, lastSeen := Some(snapshot), lastProcessed := Some(at), level := InStock)
  }

  /** What a FULL snapshot captured at `at` does to an offer of its supplier that it does not list. */
  function AfterMissing(o: Offer, snapshot: nat, at: Time, threshold: nat): Offer {
    if Stale(o, at) then o else
      o.(missing := o.missing + 1, lastMissing := Some(snapshot), lastProcessed := Some(at),
         level := if o.missing + 1 >= threshold then OutOfStock
                  else if o.level == InStock || o.level == Unknown then SuspectMissing
                  else o.level)
  }

  // ---------- The trace of an offer ----------

  /** The events that are taken into account: each one that is not older than the last one taken into account. */
  function Accepted(events: seq<Event>): seq<Event> {
    if events == [] then [] else
      var trace := Accepted(events[..|events| - 1]);
      var e := events[|events| - 1];
      if trace != [] && e.at < trace[|trace| - 1].at then trace else trace + [e]
  }

  /** The length of the longest suffix of missing events. */
  function TrailingMissing(trace: seq<Event>): (n: nat)
    ensures n <= |trace|
    ensures forall i | |trace| - n <= i < |trace| :: !trace[i].seen
    ensures n < |trace| ==> trace[|trace| - n - 1].seen
  {
    if trace == [] || trace[|trace| - 1].seen then 0 else
      1 + TrailingMissing(trace[..|trace| - 1])
  }

  function LevelOf(trace: seq<Event>, threshold: nat): Level {
    if trace == [] then Unknown
    else if trace[|trace| - 1].seen then InStock
    else if TrailingMissing(trace) < threshold then SuspectMissing
    else OutOfStock
  }

  /** The stored fields are exactly what the accepted trace says. */
  ghost predicate Agrees(o: Offer, trace: seq<Event>, threshold: nat) {
    && o.missing == TrailingMissing(trace)
    && o.level == LevelOf(trace, threshold)
    && o.lastProcessed == if trace == [] then None else Some(trace[|trace| - 1].at)
  }

  lemma AcceptedAppend(events: seq<Event>, e: Event)
    ensures Accepted(events + [e])
         == var trace := Accepted(events);
            if trace != [] && e.at < trace[|trace| - 1].at then trace else trace + [e]
  {
  }

  ghost predicate Chronological(trace: seq<Event>) {
    forall i, j | 0 <= i < j < |trace| :: trace[i].at <= trace[j].at
  }

  /** The trace is chronological although the events need not be. */
  lemma {:induction false} AcceptedIsChronological(events: seq<Event>)
    ensures Chronological(Accepted(events))
  {
    if events != [] {
      AcceptedIsChronological(events[..|events| - 1]);
    }
  }

  lemma SeenKeepsAgreement(o: Offer, events: seq<Event>, snapshot: nat, at: Time, threshold: nat)
    requires Agrees(o, Accepted(events), threshold)
    ensures Agrees(AfterSeen(o, snapshot, at), Accepted(events + [Event(at, true)]), threshold)
  {
    hide Accepted;
    AcceptedAppend(events, Event(at, true));
  }

  lemma MissingKeepsAgreement(o: Offer, events: seq<Event>, snapshot: nat, at: Time, threshold: nat)
    requires 1 <= threshold && Agrees(o, Accepted(events), threshold)
    ensures Agrees(AfterMissing(o, snapshot, at, threshold), Accepted(events + [Event(at, false)]), threshold)
  {
    hide Accepted;
    AcceptedAppend(events, Event(at, false));
    if !Stale(o, at) {
      OneMoreMiss(Accepted(events), at);
    }
  }

  lemma OneMoreMiss(trace: seq<Event>, at: Time)
    ensures TrailingMissing(trace + [Event(at, false)]) == TrailingMissing(trace) + 1
  {
    assert (trace + [Event(at, false)])[..|trace|] == trace;
  }

  /** An offer is declared out of stock only after `threshold` FULL snapshots in a row, in chronological order, none
      of which listed it, with no listing in between. */
  lemma OutOfStockMeansThresholdMisses(o: Offer, events: seq<Event>, threshold: nat)
    requires 1 <= threshold && Agrees(o, Accepted(events), threshold)
    ensures o.level == OutOfStock
       <==> var trace := Accepted(events);
            threshold <= |trace| && forall i | |trace| - threshold <= i < |trace| :: !trace[i].seen
  {
  }

  // ---------- Order of arrival ----------

  /** The snapshots of a run that concern an offer, each with its identifier. */
  datatype Arrival = Arrival(snapshot: nat, event: Event)

  function Step(o: Offer, a: Arrival, threshold: nat): Offer {
    if a.event.seen then AfterSeen(o, a.snapshot, a.event.at) else AfterMissing(o, a.snapshot, a.event.at, threshold)
  }

  function Run(o: Offer, arrivals: seq<Arrival>, threshold: nat): Offer {
    if arrivals == [] then o else
      Step(Run(o, arrivals[..|arrivals| - 1], threshold), arrivals[|arrivals| - 1], threshold)
  }

  function CapturedAt(a: Arrival): Time {
    a.event.at
  }

  lemma {:induction false} RunIsBounded(o: Offer, arrivals: seq<Arrival>, threshold: nat, bound: Time)
    requires forall a | a in arrivals :: a.event.at < bound
    requires o.lastProcessed.Some? ==> o.lastProcessed.value <= bound
    ensures var r := Run(o, arrivals, threshold); r.lastProcessed.Some? ==> r.lastProcessed.value <= bound
  {
    if arrivals != [] {
      RunIsBounded(o, arrivals[..|arrivals| - 1], threshold, bound);
    }
  }

  /** Whatever the order of arrival and whatever the offer looked like before, the latest capture decides whether the
      offer ends in stock. */
  lemma {:induction false} LatestCaptureDecides(o: Offer, arrivals: seq<Arrival>, threshold: nat, latest: int)
    requires IsLatest(arrivals, CapturedAt, latest)
    requires !Stale(o, arrivals[latest].event.at)
    ensures var r := Run(o, arrivals, threshold);
            && r.lastProcessed == Some(arrivals[latest].event.at)
            && (r.level == InStock <==> arrivals[latest].event.seen)
  {
    var n := |arrivals| - 1;
    var front := arrivals[..n];
    if latest == n {
      RunIsBounded(o, front, threshold, arrivals[n].event.at);
    } else {
      LatestCaptureDecides(o, front, threshold, latest);
    }
  }

  /** Two orders of arrival of the same distinct captures agree on the last processed time and on being in stock. */
  lemma ArrivalOrderIrrelevantForStock(o: Offer, first: seq<Arrival>, second: seq<Arrival>, threshold: nat, latest: int)
    requires multiset(first) == multiset(second)
    requires IsLatest(first, CapturedAt, latest)
    requires !Stale(o, first[latest].event.at)
    ensures Run(o, first, threshold).lastProcessed == Run(o, second, threshold).lastProcessed
    ensures Run(o, first, threshold).level == InStock <==> Run(o, second, threshold).level == InStock
  {
    LatestCaptureDecides(o, first, threshold, latest);
    var there := LatestSurvivesRearrangement(first, second, CapturedAt, latest);
    LatestCaptureDecides(o, second, threshold, there);
  }

  // ---------- When the order of arrival decides nothing ----------

  lemma {:induction false} AcceptedEndsWithMax(events: seq<Event>)
    ensures events != [] ==> Accepted(events) != []
    ensures forall e | e in events :: e.at <= Accepted(events)[|Accepted(events)| - 1].at
    ensures events != [] ==> Accepted(events)[|Accepted(events)| - 1] in events
  {
    if events != [] {
      AcceptedEndsWithMax(events[..|events| - 1]);
    }
  }

  /** Position `k` holds `e`, and nothing captured later has arrived before it. */
  ghost predicate ArrivesInTime(events: seq<Event>, e: Event, k: int) {
    0 <= k < |events| && events[k] == e && forall i | 0 <= i < k :: events[i].at <= e.at
  }

  /** An event is taken into account exactly when nothing captured later has arrived before it. */
  lemma {:induction false} AcceptedExactly(events: seq<Event>, e: Event)
    ensures e in Accepted(events) <==> exists k :: ArrivesInTime(events, e, k)
  {
    if events != [] {
      var n := |events| - 1;
      var front := events[..n];
      AcceptedExactly(front, e);
      AcceptedEndsWithMax(front);
      assert forall k | 0 <= k < n :: ArrivesInTime(front, e, k) <==> ArrivesInTime(events, e, k);
      LastArrivesInTime(events);
    }
  }

  lemma LastArrivesInTime(events: seq<Event>)
    requires events != []
    ensures var n := |events| - 1;
      && (ArrivesInTime(events, events[n], n)
          <==> Accepted(events[..n]) == [] || Accepted(events[..n])[|Accepted(events[..n])| - 1].at <= events[n].at)
  {
    var n := |events| - 1;
    AcceptedEndsWithMax(events[..n]);
    assert forall i | 0 <= i < n :: events[i] in events[..n];
  }

  lemma {:induction false} AcceptedIsShorter(events: seq<Event>)
    ensures |Accepted(events)| <= |events|
    ensures |Accepted(events)| == |events| ==> Accepted(events) == events
  {
    if events != [] {
      AcceptedIsShorter(events[..|events| - 1]);
    }
  }

  lemma {:induction false} ChronologicalAllAccepted(events: seq<Event>)
    requires Chronological(events)
    ensures Accepted(events) == events
  {
    if events != [] {
      ChronologicalAllAccepted(events[..|events| - 1]);
    }
  }

  /** Nothing is ignored exactly when the snapshots arrive in the order in which they were captured. */
  lemma {:induction false} AllAcceptedExactlyWhenChronological(events: seq<Event>)
    ensures Accepted(events) == events <==> Chronological(events)
  {
    AcceptedIsChronological(events);
    if Chronological(events) {
      ChronologicalAllAccepted(events);
    }
  }

  ghost predicate Increasing(events: seq<Event>) {
    forall i, j | 0 <= i < j < |events| :: events[i].at < events[j].at
  }

  ghost predicate DistinctTimes(events: seq<Event>) {
    forall i, j | 0 <= i < j < |events| :: events[i].at != events[j].at
  }

  /** A miss that was captured after every listing. */
  ghost predicate AfterListings(events: seq<Event>, e: Event) {
    !e.seen && forall x | x in events && x.seen :: x.at < e.at
  }

  ghost predicate LatestListing(events: seq<Event>, e: Event) {
    e in events && e.seen && forall x | x in events && x.seen :: x.at <= e.at
  }

  /** The latest listing arrives before every miss captured after it, and those misses arrive in capture order; nothing
      is said about the events captured before that listing. */
  ghost predicate Orderly(events: seq<Event>) {
    forall i, j | && 0 <= i < j < |events| && AfterListings(events, events[i])
                  && (AfterListings(events, events[j]) || LatestListing(events, events[j])) ::
      events[i].at <= events[j].at
  }

  /** The part of a trace that the counter and the level depend on: its last listing, if any, and what follows. */
  function Ending(trace: seq<Event>): seq<Event> {
    if trace == [] then [] else
      var last := trace[|trace| - 1];
      if last.seen then [last] else Ending(trace[..|trace| - 1]) + [last]
  }

  function From(events: seq<Event>, cut: Time): seq<Event> {
    if events == [] then [] else
      var last := events[|events| - 1];
      From(events[..|events| - 1], cut) + if last.at >= cut then [last] else []
  }

  lemma {:induction false} FromMembers(events: seq<Event>, cut: Time, e: Event)
    ensures e in From(events, cut) <==> e in events && e.at >= cut
  {
    if events != [] {
      FromMembers(events[..|events| - 1], cut, e);
    }
  }

  predicate Within(a: seq<Event>, b: seq<Event>) {
    forall e | e in a :: e in b
  }

  lemma {:induction false} IncreasingUnique(a: seq<Event>, b: seq<Event>)
    requires Increasing(a) && Increasing(b) && Within(a, b) && Within(b, a)
    ensures a == b
  {
    if a == [] {
      if b != [] {
        WithinNonEmpty(b, a);
      }
    } else {
      SameEnd(a, b);
      WithinFront(a, b);
      WithinFront(b, a);
      IncreasingUnique(a[..|a| - 1], b[..|b| - 1]);
      assert a == a[..|a| - 1] + [a[|a| - 1]] && b == b[..|b| - 1] + [b[|b| - 1]];
    }
  }

  lemma WithinNonEmpty(a: seq<Event>, b: seq<Event>)
    requires a != [] && Within(a, b)
    ensures b != []
  {
    assert a[0] in b;
  }

  lemma SameEnd(a: seq<Event>, b: seq<Event>)
    requires Increasing(a) && Increasing(b) && Within(a, b) && Within(b, a) && a != []
    ensures b != [] && a[|a| - 1] == b[|b| - 1]
  {
    assert a[|a| - 1] in b && b[|b| - 1] in a;
  }

  lemma WithinFront(a: seq<Event>, b: seq<Event>)
    requires a != [] && b != [] && Increasing(a) && Within(a, b) && a[|a| - 1] == b[|b| - 1]
    ensures Within(a[..|a| - 1], b[..|b| - 1])
  {
    var front := a[..|a| - 1];
    forall e | e in front ensures e in b[..|b| - 1] {
      var k :| 0 <= k < |a| - 1 && a[k] == e;
      assert e.at < b[|b| - 1].at;
      assert e in b;
    }
  }

  // ---------- The cut at the latest listing ----------

  lemma {:induction false} FindLatestListing(events: seq<Event>) returns (latest: Event)
    requires exists e :: e in events && e.seen
    ensures LatestListing(events, latest)
  {
    var n := |events| - 1;
    if exists e :: e in events[..n] && e.seen {
      latest := FindLatestListing(events[..n]);
      if events[n].seen && latest.at < events[n].at {
        latest := events[n];
      }
    } else {
      latest := events[n];
    }
  }

  /** With the cut at the latest listing: nothing captured later arrives before that listing or out of turn. */
  ghost predicate OrderlyFrom(events: seq<Event>, cut: Time) {
    forall i, j | 0 <= i < j < |events| && events[i].at > cut && events[j].at >= cut :: events[i].at <= events[j].at
  }

  lemma OrderlyMeansFromCut(events: seq<Event>, latest: Event)
    requires LatestListing(events, latest) && DistinctTimes(events)
    ensures Orderly(events) <==> OrderlyFrom(events, latest.at)
  {
    forall i | 0 <= i < |events|
      ensures AfterListings(events, events[i]) <==> events[i].at > latest.at
      ensures events[i].at == latest.at <==> events[i] == latest
      ensures LatestListing(events, events[i]) <==> events[i].at == latest.at
    {
    }
  }

  lemma {:induction false} FromIsIncreasing(events: seq<Event>, cut: Time)
    requires DistinctTimes(events) && OrderlyFrom(events, cut)
    requires forall i, j | 0 <= i < j < |events| && events[i].at == cut :: events[j].at != cut
    ensures Increasing(From(events, cut))
  {
    if events != [] {
      var n := |events| - 1;
      FromIsIncreasing(events[..n], cut);
      forall e | e in From(events[..n], cut) && events[n].at >= cut ensures e.at < events[n].at {
        FromMembers(events[..n], cut, e);
        var i :| 0 <= i < n && events[i] == e;
      }
    }
  }

  /** In a trace in capture order, what counts is what lies from the latest listing on. */
  lemma {:induction false} EndingIsFrom(trace: seq<Event>, latest: Event)
    requires Increasing(trace) && LatestListing(trace, latest)
    ensures Ending(trace) == From(trace, latest.at)
  {
    var n := |trace| - 1;
    if trace[n].seen {
      assert trace[n].at == latest.at;
      var before := From(trace[..n], latest.at);
      if before != [] {
        FromMembers(trace[..n], latest.at, before[0]);
      }
    } else {
      EndingIsFrom(trace[..n], latest);
    }
  }

  lemma {:induction false} EndingWithoutListing(trace: seq<Event>)
    requires forall e | e in trace :: !e.seen
    ensures Ending(trace) == trace
  {
    if trace != [] {
      EndingWithoutListing(trace[..|trace| - 1]);
    }
  }

  lemma AcceptedWithin(events: seq<Event>)
    ensures Within(Accepted(events), events)
  {
    forall e | e in Accepted(events) ensures e in events {
      AcceptedExactly(events, e);
    }
  }

  lemma {:induction false} AcceptedIncreasing(events: seq<Event>)
    requires DistinctTimes(events)
    ensures Increasing(Accepted(events))
  {
    if events != [] {
      AcceptedIncreasing(events[..|events| - 1]);
      AcceptedEndsWithMax(events[..|events| - 1]);
    }
  }

  /** The counter and the level of a trace are those of its ending. */
  lemma {:induction false} EndingDecidesStanding(trace: seq<Event>, threshold: nat)
    ensures TrailingMissing(Ending(trace)) == TrailingMissing(trace)
    ensures LevelOf(Ending(trace), threshold) == LevelOf(trace, threshold)
  {
    if trace != [] && !trace[|trace| - 1].seen {
      var front := trace[..|trace| - 1];
      EndingDecidesStanding(front, threshold);
      assert Ending(trace)[..|Ending(front)|] == Ending(front);
    }
  }

  lemma {:induction false} EndingWithin(trace: seq<Event>)
    ensures Within(Ending(trace), trace)
  {
    if trace != [] {
      EndingWithin(trace[..|trace| - 1]);
    }
  }

  /** An orderly arrival takes the latest listing and everything captured after it into account. */
  lemma OrderlyAccepts(events: seq<Event>, latest: Event, e: Event)
    requires DistinctTimes(events) && LatestListing(events, latest) && OrderlyFrom(events, latest.at)
    requires e in events && e.at >= latest.at
    ensures e in Accepted(events)
  {
    var k :| 0 <= k < |events| && events[k] == e;
    assert ArrivesInTime(events, e, k);
    AcceptedExactly(events, e);
  }

  lemma OrderlyEnding(events: seq<Event>, latest: Event)
    requires DistinctTimes(events) && LatestListing(events, latest) && OrderlyFrom(events, latest.at)
    ensures Ending(Accepted(events)) == From(events, latest.at)
  {
    hide Accepted;
    var trace := Accepted(events);
    AcceptedIncreasing(events);
    AcceptedWithin(events);
    OrderlyAccepts(events, latest, latest);
    EndingIsFrom(trace, latest);
    FromIsIncreasing(events, latest.at);
    FromIncreasing(trace, latest.at);
    forall e | e in From(events, latest.at) ensures e in From(trace, latest.at) {
      FromMembers(events, latest.at, e);
      FromMembers(trace, latest.at, e);
      OrderlyAccepts(events, latest, e);
    }
    forall e | e in From(trace, latest.at) ensures e in From(events, latest.at) {
      FromMembers(events, latest.at, e);
      FromMembers(trace, latest.at, e);
    }
    IncreasingUnique(From(events, latest.at), From(trace, latest.at));
  }

  lemma FromIncreasing(trace: seq<Event>, cut: Time)
    requires Increasing(trace)
    ensures Increasing(From(trace, cut))
  {
    FromIsIncreasing(trace, cut);
  }

  /** The same captures in another order; both orders are free of equal capture times. */
  ghost predicate Rearranged(first: seq<Event>, second: seq<Event>) {
    DistinctTimes(first) && DistinctTimes(second) && Within(first, second) && Within(second, first)
  }

  /** What an arrival leaves to count is what chronological arrival leaves exactly when the arrival is orderly. */
  lemma EndingIsChronologicalExactlyWhen(events: seq<Event>, sorted: seq<Event>)
    requires Rearranged(events, sorted) && Increasing(sorted)
    ensures Ending(Accepted(events)) == Ending(sorted) <==> Orderly(events)
  {
    hide Accepted, Ending;
    if exists e :: e in events && e.seen {
      var latest := FindLatestListing(events);
      assert LatestListing(sorted, latest);
      EndingIsFrom(sorted, latest);
      OrderlyMeansFromCut(events, latest);
      if Orderly(events) {
        OrderlyEnding(events, latest);
        SameFrom(events, sorted, latest.at);
      } else {
        DisorderlyEnding(events, sorted, latest);
      }
    } else {
      EndingWithoutListings(events, sorted);
    }
  }

  lemma SameFrom(events: seq<Event>, sorted: seq<Event>, cut: Time)
    requires Rearranged(events, sorted) && Increasing(sorted) && OrderlyFrom(events, cut)
    ensures From(events, cut) == From(sorted, cut)
  {
    FromIsIncreasing(events, cut);
    FromIncreasing(sorted, cut);
    forall e ensures e in From(events, cut) <==> e in From(sorted, cut) {
      FromMembers(events, cut, e);
      FromMembers(sorted, cut, e);
    }
    IncreasingUnique(From(events, cut), From(sorted, cut));
  }

  /** An event overtaken by a later capture is in what chronological arrival leaves, and not in the accepted trace. */
  lemma DisorderlyEnding(events: seq<Event>, sorted: seq<Event>, latest: Event)
    requires Rearranged(events, sorted) && Increasing(sorted)
    requires LatestListing(events, latest) && !OrderlyFrom(events, latest.at)
    requires Ending(sorted) == From(sorted, latest.at)
    ensures Ending(Accepted(events)) != Ending(sorted)
  {
    hide Accepted, Ending;
    var i, j :| 0 <= i < j < |events| && events[i].at > latest.at && events[j].at >= latest.at
                && events[i].at > events[j].at;
    OvertakenIsIgnored(events, i, j);
    FromMembers(sorted, latest.at, events[j]);
    assert events[j] in events;
    EndingWithin(Accepted(events));
  }

  lemma OvertakenIsIgnored(events: seq<Event>, i: nat, j: nat)
    requires DistinctTimes(events) && i < j < |events| && events[i].at > events[j].at
    ensures events[j] !in Accepted(events)
  {
    hide Accepted;
    AcceptedExactly(events, events[j]);
    assert forall k | 0 <= k < |events| && events[k] == events[j] :: k == j;
  }

  lemma EndingWithoutListings(events: seq<Event>, sorted: seq<Event>)
    requires Rearranged(events, sorted) && Increasing(sorted) && forall e | e in events :: !e.seen
    ensures Ending(Accepted(events)) == Ending(sorted) <==> Orderly(events)
  {
    AcceptedWithin(events);
    AcceptedIncreasing(events);
    EndingWithoutListing(Accepted(events));
    EndingWithoutListing(sorted);
    hide Accepted, Ending;
    assert forall i | 0 <= i < |events| :: AfterListings(events, events[i]);
    if Orderly(events) {
      assert Increasing(events);
      IncreasingUnique(events, sorted);
      ChronologicalAllAccepted(events);
    } else {
      var i, j :| 0 <= i < j < |events| && events[i].at > events[j].at;
      OvertakenIsIgnored(events, i, j);
      assert events[j] in events;
      assert events[j] in sorted;
    }
  }

  // ---------- Orderly arrivals of offers ----------

  function Events(arrivals: seq<Arrival>): seq<Event> {
    seq(|arrivals|, i requires 0 <= i < |arrivals| => arrivals[i].event)
  }

  /** A run without the identifiers of the snapshots. */
  function RunEvents(o: Offer, events: seq<Event>, threshold: nat): Offer {
    if events == [] then o else
      Step(RunEvents(o, events[..|events| - 1], threshold), Arrival(0, events[|events| - 1]), threshold)
  }

  predicate SameStanding(o: Offer, p: Offer) {
    o.missing == p.missing && o.level == p.level && o.lastProcessed == p.lastProcessed
  }

  lemma {:induction false} RunByEvents(o: Offer, arrivals: seq<Arrival>, threshold: nat)
    ensures SameStanding(Run(o, arrivals, threshold), RunEvents(o, Events(arrivals), threshold))
  {
    if arrivals != [] {
      var n := |arrivals| - 1;
      RunByEvents(o, arrivals[..n], threshold);
      assert Events(arrivals)[..n] == Events(arrivals[..n]);
    }
  }

  lemma {:induction false} TimeOnlyGrows(o: Offer, events: seq<Event>, threshold: nat, bound: Time)
    requires o.lastProcessed.Some? && bound < o.lastProcessed.value
    ensures var r := RunEvents(o, events, threshold); r.lastProcessed.Some? && bound < r.lastProcessed.value
  {
    if events != [] {
      TimeOnlyGrows(o, events[..|events| - 1], threshold, bound);
    }
  }

  lemma OneMoreEvent(o: Offer, events: seq<Event>, e: Event, threshold: nat)
    ensures RunEvents(o, events + [e], threshold) == Step(RunEvents(o, events, threshold), Arrival(0, e), threshold)
    ensures events + [] == events
  {
    assert (events + [e])[..|events|] == events;
  }

  /** For an offer that has seen something newer than the latest listing, older events are nothing. */
  lemma {:induction false} StaleCutDecides(o: Offer, events: seq<Event>, cut: Time, threshold: nat)
    requires Stale(o, cut)
    ensures RunEvents(o, events, threshold) == RunEvents(o, From(events, cut), threshold)
  {
    if events != [] {
      var n := |events| - 1;
      StaleCutDecides(o, events[..n], cut, threshold);
      TimeOnlyGrows(o, events[..n], threshold, cut);
      OneMoreEvent(o, From(events[..n], cut), events[n], threshold);
    }
  }

  lemma {:induction false} EventsAreBounded(o: Offer, events: seq<Event>, threshold: nat, bound: Time)
    requires forall e | e in events :: e.at <= bound
    requires o.lastProcessed.Some? ==> o.lastProcessed.value <= bound
    ensures var r := RunEvents(o, events, threshold); r.lastProcessed.Some? ==> r.lastProcessed.value <= bound
  {
    if events != [] {
      EventsAreBounded(o, events[..|events| - 1], threshold, bound);
    }
  }

  /** For any other offer, what an orderly arrival brings before the latest listing is forgotten with it. */
  lemma {:induction false} FreshCutDecides(o: Offer, events: seq<Event>, latest: Event, threshold: nat)
    requires DistinctTimes(events) && LatestListing(events, latest) && OrderlyFrom(events, latest.at)
    requires !Stale(o, latest.at)
    ensures SameStanding(RunEvents(o, events, threshold), RunEvents(o, From(events, latest.at), threshold))
    ensures var r := RunEvents(o, events, threshold); r.lastProcessed.Some? && latest.at <= r.lastProcessed.value
  {
    hide Orderly, From, Accepted;
    var n := |events| - 1;
    var front, cut := events[..n], latest.at;
    LastFrom(events, cut);
    OneMoreEvent(o, From(front, cut), events[n], threshold);
    if events[n] == latest {
      NothingFrom(front, cut);
      EventsAreBounded(o, front, threshold, cut);
      assert From(front, cut) == [];
    } else {
      assert LatestListing(front, latest);
      FreshCutDecides(o, front, latest, threshold);
    }
  }

  lemma LastFrom(events: seq<Event>, cut: Time)
    requires events != []
    ensures var n := |events| - 1;
      From(events, cut) == From(events[..n], cut) + if events[n].at >= cut then [events[n]] else []
  {
  }

  lemma {:induction false} NothingFrom(events: seq<Event>, cut: Time)
    requires forall e | e in events :: e.at < cut
    ensures From(events, cut) == []
  {
    if events != [] {
      NothingFrom(events[..|events| - 1], cut);
    }
  }

  lemma CutDecides(o: Offer, events: seq<Event>, latest: Event, threshold: nat)
    requires DistinctTimes(events) && LatestListing(events, latest) && Orderly(events)
    ensures SameStanding(RunEvents(o, events, threshold), RunEvents(o, From(events, latest.at), threshold))
  {
    OrderlyMeansFromCut(events, latest);
    if Stale(o, latest.at) {
      StaleCutDecides(o, events, latest.at, threshold);
    } else {
      FreshCutDecides(o, events, latest, threshold);
    }
  }

  lemma ChronologicalIsOrderly(sorted: seq<Event>)
    requires Increasing(sorted)
    ensures Orderly(sorted)
  {
  }

  lemma OrderlyWithoutListings(events: seq<Event>)
    requires DistinctTimes(events) && Orderly(events) && forall e | e in events :: !e.seen
    ensures Increasing(events)
  {
    assert forall i | 0 <= i < |events| :: AfterListings(events, events[i]);
  }

  lemma SameCut(first: seq<Event>, second: seq<Event>, latest: Event)
    requires Rearranged(first, second) && Orderly(first) && Orderly(second) && LatestListing(first, latest)
    ensures LatestListing(second, latest) && From(first, latest.at) == From(second, latest.at)
  {
    OrderlyMeansFromCut(first, latest);
    OrderlyMeansFromCut(second, latest);
    FromIsIncreasing(first, latest.at);
    FromIsIncreasing(second, latest.at);
    forall e ensures e in From(first, latest.at) <==> e in From(second, latest.at) {
      FromMembers(first, latest.at, e);
      FromMembers(second, latest.at, e);
    }
    IncreasingUnique(From(first, latest.at), From(second, latest.at));
  }

  /** Whatever the offer looked like before and whatever the threshold, two orderly arrivals of the same captures end
      with the same counter, level and time; chronological arrival is one of them. */
  lemma OrderlyArrivalsAgree(o: Offer, first: seq<Arrival>, second: seq<Arrival>, threshold: nat)
    requires Rearranged(Events(first), Events(second)) && Orderly(Events(first)) && Orderly(Events(second))
    ensures SameStanding(Run(o, first, threshold), Run(o, second, threshold))
  {
    hide Orderly, DistinctTimes, RunEvents, Run, From;
    var a, b := Events(first), Events(second);
    RunByEvents(o, first, threshold);
    RunByEvents(o, second, threshold);
    if exists e :: e in a && e.seen {
      var latest := FindLatestListing(a);
      SameCut(a, b, latest);
      CutDecides(o, a, latest, threshold);
      CutDecides(o, b, latest, threshold);
    } else {
      OrderlyWithoutListings(a);
      OrderlyWithoutListings(b);
      IncreasingUnique(a, b);
    }
  }

  /** The order of arrival does decide between a suspicion and a stock-out: with threshold two, a listing that arrives
      late leaves two misses in a row, where chronological arrival counts one. */
  lemma ArrivalOrderDecidesStockOut(o: Offer)
    requires o == NewOffer(100, 0)
    ensures var miss1, seen2, miss3 :=
              Arrival(1, Event(1, false)), Arrival(2, Event(2, true)), Arrival(3, Event(3, false));
            && Run(o, [miss1, seen2, miss3], 2).level == SuspectMissing
            && Run(o, [miss1, miss3, seen2], 2).level == OutOfStock
  {
    var miss1, seen2, miss3 :=
      Arrival(1, Event(1, false)), Arrival(2, Event(2, true)), Arrival(3, Event(3, false));
    var a1, a2 := [miss1], [miss1, seen2];
    var b2 := [miss1, miss3];
    assert [miss1, seen2, miss3][..2] == a2 && a2[..1] == a1 && a1[..0] == [];
    assert [miss1, miss3, seen2][..2] == b2 && b2[..1] == a1;
    assert Run(o, [], 2) == o;
    assert Run(o, a1, 2) == Step(o, miss1, 2);
    assert Run(o, a2, 2) == Step(Run(o, a1, 2), seen2, 2);
    assert Run(o, b2, 2) == Step(Run(o, a1, 2), miss3, 2);
  }
}
