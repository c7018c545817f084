/**
 Processing of supplier price-list snapshots: matched lines create and touch offers, a quality gate decides whether a
 FULL snapshot counts, and the availability of every offer of the supplier is moved on.

 `SnapshotProcessor` holds the tables that the program updates. Its ghost `log` records which snapshots had an effect;
 `Valid` says that every offer is the function of that log defined in module `Availability`.
 */
module SupplierSnapshots {
  import opened Common
  import opened Availability
  import PriceConflicts

  /** Offers are unique by supplier and stock-keeping unit, and the pipeline uses the variant as that unit. */
  datatype OfferKey = OfferKey(supplier: nat, variant: nat)

  datatype Kind = Full | Partial

  datatype Status = Pending | Processing | Completed | Failed | Rejected

  datatype GateReason = EmptyRawText | NoValidItems | LowValidItemRatio

  datatype Snapshot = Snapshot(supplier: nat, kind: Kind, capturedAt: Time, record: nat, status: Status,
                               gateReason: Option<GateReason>)

  datatype MatchStatus = ExactMatch | AutoCreated | Review | MatchRejected | ConflictBlocked

  /** One line of the price list with what the parser and the matcher answer for it. */
  datatype ListedLine = ListedLine(parse: ParseStatus, price: Option<int>, flags: set<PriceConflicts.Flag>,
                                   supplier: nat, outcome: MatchStatus, variant: Option<nat>)
  {
    /** The matcher stores an offer for this line. */
    predicate Matched() {
      parse != Ignored && parse != InConflict && (outcome == ExactMatch || outcome == AutoCreated) && variant.Some?
    }
  }

  /** The flags with which a price is not usable. */
  const BLOCKING := {PriceConflicts.InvalidPrice, PriceConflicts.MissingPrice, PriceConflicts.PriceConflict}

  /** Where processing raises, if anywhere. */
  datatype Fault = NoFault | WhileMatching(after: nat) | BeforeCommit | InSummary

  datatype Counter = MovedToInStock | MovedToSuspect | MovedToOutOfStock | Restored

  datatype Counts = Counts(inStock: nat, suspect: nat, outOfStock: nat, restored: nat)
  {
    function Get(c: Counter): nat {
      match c
      case MovedToInStock => inStock
      case MovedToSuspect => suspect
      case MovedToOutOfStock => outOfStock
      case Restored => restored
    }

    function Total(): nat {
      inStock + suspect + outOfStock + restored
    }

    function Bump(c: Counter): Counts {
      match c
      case MovedToInStock => this.(inStock := inStock + 1)
      case MovedToSuspect => this.(suspect := suspect + 1)
      case MovedToOutOfStock => this.(outOfStock := outOfStock + 1)
      case Restored => this.(restored := restored + 1)
    }
  }

  datatype Outcomes = Outcomes(exact: nat, autoCreated: nat, review: nat, conflict: nat, rejected: nat)
  {
    function Total(): nat {
      exact + autoCreated + review + conflict + rejected
    }

    function Get(m: MatchStatus): nat {
      match m
      case ExactMatch => exact
      case AutoCreated => autoCreated
      case Review => review
      case MatchRejected => rejected
      case ConflictBlocked => conflict
    }
  }

  datatype Quality = Quality(candidates: nat, successful: nat, review: nat, conflict: nat)

  datatype AuditRow = AuditRow(offer: OfferKey, previous: Level, current: Level, snapshot: nat, missing: nat)

  datatype Result = NotFound | AlreadyDone(status: Status) | Raised
    | Summary(status: Status, counts: Counts, outcomes: Outcomes)

  datatype Entry = Created(key: OfferKey)
    | Applied(snapshot: nat, supplier: nat, kind: Kind, at: Time, seen: set<OfferKey>)

  type Offers = map<OfferKey, Offer>

  // ---------- What the lines of a snapshot do to the offers ----------

  /** The offer service: a payload without a known level leaves the availability of an existing offer alone. */
  function Upserted(offers: Offers, key: OfferKey, price: int, record: nat, level: Level): Offers {
    if key !in offers then offers[key := NewOffer(price, record).(level := level)] else
      var levelChanged := level != Unknown && offers[key].level != level;
      if offers[key].price != price || levelChanged then
        offers[key := offers[key].(price := price, sourceRecord := record,
                                   level := if levelChanged then level else offers[key].level)]
      else offers
  }

  /** What matching one line does to the offers. */
  function LineApplied(offers: Offers, line: ListedLine, record: nat): (after: Offers)
    ensures offers.Keys <= after.Keys
  {
    if line.Matched() && line.price.Some? then
      Upserted(offers, OfferKey(line.supplier, line.variant.value), line.price.value, record, Unknown)
    else offers
  }

  /** The offer that a matched line shows, if the snapshot's own supplier has one for its variant. */
  function LineSeen(after: Offers, line: ListedLine, supplier: nat): (seen: set<OfferKey>)
    ensures seen <= after.Keys && forall key | key in seen :: key.supplier == supplier
  {
    if line.Matched() && OfferKey(supplier, line.variant.value) in after then {OfferKey(supplier, line.variant.value)}
    else {}
  }

  function AfterLines(offers: Offers, lines: seq<ListedLine>, record: nat): (after: Offers)
    ensures offers.Keys <= after.Keys
  {
    if lines == [] then offers else
      LineApplied(AfterLines(offers, lines[..|lines| - 1], record), lines[|lines| - 1], record)
  }

  /** The offers that the lines show, as the snapshot's own supplier. */
  function SeenKeys(offers: Offers, lines: seq<ListedLine>, supplier: nat, record: nat): (seen: set<OfferKey>)
    ensures seen <= AfterLines(offers, lines, record).Keys
    ensures forall key | key in seen :: key.supplier == supplier
  {
    if lines == [] then {} else
      SeenKeys(offers, lines[..|lines| - 1], supplier, record)
      + LineSeen(AfterLines(offers, lines, record), lines[|lines| - 1], supplier)
  }

  /** What matching one line adds to the log. */
  function LineCreates(offers: Offers, line: ListedLine): seq<Entry> {
    if line.Matched() && line.price.Some? && OfferKey(line.supplier, line.variant.value) !in offers then
      [Created(OfferKey(line.supplier, line.variant.value))]
    else []
  }

  /** The offers that the lines create, in order. */
  function CreatedBy(offers: Offers, lines: seq<ListedLine>, record: nat): seq<Entry> {
    if lines == [] then [] else
      var front := lines[..|lines| - 1];
      CreatedBy(offers, front, record) + LineCreates(AfterLines(offers, front, record), lines[|lines| - 1])
  }

  /** The outcome counter that a line belongs to; an ignored line belongs to none. */
  predicate CountsAs(line: ListedLine, m: MatchStatus) {
    && line.parse != Ignored
    && (if line.parse == InConflict then m == ConflictBlocked else m == line.outcome)
  }

  function CountLines(lines: seq<ListedLine>, m: MatchStatus): nat {
    if lines == [] then 0 else
      CountLines(lines[..|lines| - 1], m) + if CountsAs(lines[|lines| - 1], m) then 1 else 0
  }

  function Candidates(lines: seq<ListedLine>): nat {
    if lines == [] then 0 else
      Candidates(lines[..|lines| - 1]) + if lines[|lines| - 1].parse != Ignored then 1 else 0
  }

  function CountParse(lines: seq<ListedLine>, parse: ParseStatus): nat {
    if lines == [] then 0 else
      CountParse(lines[..|lines| - 1], parse) + if lines[|lines| - 1].parse == parse then 1 else 0
  }

  /** Lines with a price and none of the flags that make a price unusable. */
  function Successful(lines: seq<ListedLine>): nat {
    if lines == [] then 0 else
      var line := lines[|lines| - 1];
      Successful(lines[..|lines| - 1])
      + if line.parse != Ignored && line.price.Some? && line.flags !! BLOCKING then 1 else 0
  }

  /** `None` is a passed gate. The ratio `successful / candidates` is compared with `num / den` without division. */
  function QualityGate(totalLines: nat, candidates: nat, successful: nat, offersSeen: nat, num: nat,
                       den: nat): Option<GateReason>
  {
    if totalLines == 0 then Some(EmptyRawText)
    else if successful < 1 || offersSeen < 1 then Some(NoValidItems)
    else if candidates <= 0 then Some(NoValidItems)
    else if successful * den < num * candidates then Some(LowValidItemRatio)
    else None
  }

  // ---------- What a counted snapshot does to the offers ----------

  function SeenApplied(offers: Offers, seen: set<OfferKey>, snapshot: nat, at: Time): Offers {
    map key | key in offers :: if key in seen then AfterSeen(offers[key], snapshot, at) else offers[key]
  }

  function MissingApplied(offers: Offers, missed: set<OfferKey>, snapshot: nat, at: Time, threshold: nat): Offers {
    map key | key in offers :: if key in missed then AfterMissing(offers[key], snapshot, at, threshold) else offers[key]
  }

  function Missed(offers: Offers, supplier: nat, seen: set<OfferKey>): set<OfferKey> {
    set key | key in offers && key.supplier == supplier && key !in seen
  }

  function AfterSnapshot(offers: Offers, id: nat, s: Snapshot, seen: set<OfferKey>, threshold: nat): Offers {
    var marked := SeenApplied(offers, seen, id, s.capturedAt);
    match s.kind
    case Partial => marked
    case Full => MissingApplied(marked, Missed(offers, s.supplier, seen), id, s.capturedAt, threshold)
  }

  function GateOf(offers: Offers, s: Snapshot, lines: seq<ListedLine>, num: nat, den: nat): Option<GateReason> {
    QualityGate(|lines|, Candidates(lines), Successful(lines), |SeenKeys(offers, lines, s.supplier, s.record)|, num,
                den)
  }

  /** A PARTIAL snapshot always completes; a FULL one completes exactly when it passes the gate. */
  function Verdict(gate: Option<GateReason>, kind: Kind): Status {
    if gate == None || kind == Partial then Completed else Rejected
  }

  /** What a whole run of processing that reaches its commit does to the offers. */
  function Processed(offers: Offers, id: nat, s: Snapshot, lines: seq<ListedLine>, threshold: nat, num: nat,
                     den: nat): Offers
  {
    var touched := AfterLines(offers, lines, s.record);
    if Verdict(GateOf(offers, s, lines, num, den), s.kind) == Completed then
      AfterSnapshot(touched, id, s, SeenKeys(offers, lines, s.supplier, s.record), threshold)
    else touched
  }

  /** The lines that are matched before processing ends or raises. */
  function LinesReached(lines: seq<ListedLine>, fault: Fault): (n: nat)
    ensures n <= |lines|
  {
    if fault.WhileMatching? && fault.after < |lines| then fault.after else |lines|
  }

  /** The commit happens unless something raises before it; a failing summary comes after it. */
  predicate Commits(fault: Fault) {
    fault == NoFault || fault == InSummary
  }

  function FinalOffers(offers: Offers, id: nat, s: Snapshot, lines: seq<ListedLine>, fault: Fault, threshold: nat,
                       num: nat, den: nat): Offers
  {
    if Commits(fault) then Processed(offers, id, s, lines, threshold, num, den)
    else AfterLines(offers, lines[..LinesReached(lines, fault)], s.record)
  }

  function FinalSnapshot(offers: Offers, s: Snapshot, lines: seq<ListedLine>, fault: Fault, num: nat,
                         den: nat): Snapshot
  {
    var gate := GateOf(offers, s, lines, num, den);
    match fault
    case NoFault => s.(status := Verdict(gate, s.kind), gateReason := gate)
    case InSummary => s.(status := Failed, gateReason := gate)
    case _ => s.(status := Failed)
  }

  /** Does the run move availability on? */
  predicate TakesEffect(offers: Offers, s: Snapshot, lines: seq<ListedLine>, fault: Fault, num: nat, den: nat) {
    Commits(fault) && Verdict(GateOf(offers, s, lines, num, den), s.kind) == Completed
  }

  /** What a run adds to the log: the offers its lines created and, if it takes effect, the snapshot with what it
      showed. */
  function AddedToLog(offers: Offers, id: nat, s: Snapshot, lines: seq<ListedLine>, fault: Fault, num: nat,
                      den: nat): seq<Entry>
  {
    CreatedBy(offers, lines[..LinesReached(lines, fault)], s.record) +
    if TakesEffect(offers, s, lines, fault, num, den) then
      [Applied(id, s.supplier, s.kind, s.capturedAt, SeenKeys(offers, lines, s.supplier, s.record))]
    else []
  }

  /** A run that takes effect and then fails in its summary is noted as reopening its snapshot. */
  function ReopenedAfter(reopened: map<nat, nat>, offers: Offers, id: nat, s: Snapshot, lines: seq<ListedLine>,
                         fault: Fault, num: nat, den: nat): map<nat, nat>
  {
    if fault == InSummary && TakesEffect(offers, s, lines, fault, num, den) then
      reopened[id := (if id in reopened then reopened[id] else 0) + 1]
    else reopened
  }

  /** The counter that a change of level belongs to. */
  function CounterFor(previous: Level, current: Level): Counter {
    match current
    case SuspectMissing => MovedToSuspect
    case OutOfStock => MovedToOutOfStock
    case _ => if previous == SuspectMissing || previous == OutOfStock then Restored else MovedToInStock
  }

  /** The offers whose level differs between two tables, by the counter of the change. */
  function Moves(before: Offers, after: Offers, c: Counter): set<OfferKey> {
    set key | key in before && key in after && before[key].level != after[key].level
              && CounterFor(before[key].level, after[key].level) == c
  }

  function Changed(before: Offers, after: Offers): set<OfferKey> {
    set key | key in before && key in after && before[key].level != after[key].level
  }

  ghost predicate CountsMoves(counts: Counts, before: Offers, after: Offers) {
    forall c: Counter :: counts.Get(c) == |Moves(before, after, c)|
  }

  // ---------- Events and the invariant ----------

  /** What one log entry adds to the events of an offer. */
  ghost function Extended(events: seq<Event>, e: Entry, key: OfferKey): seq<Event> {
    if e.Created? then
      if e.key == key then [] else events
    else if key in e.seen then events + [Event(e.at, true)]
    else if e.kind == Full && key.supplier == e.supplier then events + [Event(e.at, false)]
    else events
  }

  /** The events that concern an offer since it was created. */
  ghost function EventsFor(log: seq<Entry>, key: OfferKey): seq<Event> {
    if log == [] then [] else Extended(EventsFor(log[..|log| - 1], key), log[|log| - 1], key)
  }

  ghost function TimesApplied(log: seq<Entry>, id: nat): nat {
    if log == [] then 0 else
      TimesApplied(log[..|log| - 1], id)
      + if log[|log| - 1].Applied? && log[|log| - 1].snapshot == id then 1 else 0
  }

  ghost predicate OffersFollowLog(offers: Offers, log: seq<Entry>, threshold: nat) {
    forall key | key in offers :: Agrees(offers[key], Accepted(EventsFor(log, key)), threshold)
  }

  ghost function ReopenedCount(reopened: map<nat, nat>, id: nat): nat {
    if id in reopened then reopened[id] else 0
  }

  /** A snapshot took effect once for its completion and once more for each time a failing summary reopened it. */
  ghost predicate AppliedAsRecorded(snapshots: map<nat, Snapshot>, log: seq<Entry>, reopened: map<nat, nat>) {
    forall id: nat ::
      TimesApplied(log, id)
      == ReopenedCount(reopened, id) + if id in snapshots && snapshots[id].status == Completed then 1 else 0
  }

  lemma EventsAppend(log: seq<Entry>, e: Entry, key: OfferKey)
    ensures EventsFor(log + [e], key) == Extended(EventsFor(log, key), e, key)
  {
  }

  lemma TimesAppliedAppend(log: seq<Entry>, e: Entry)
    ensures forall id: nat ::
              TimesApplied(log + [e], id) == TimesApplied(log, id) + if e.Applied? && e.snapshot == id then 1 else 0
  {
  }

  lemma RecordedAfterCreation(snapshots: map<nat, Snapshot>, log: seq<Entry>, reopened: map<nat, nat>, key: OfferKey)
    requires AppliedAsRecorded(snapshots, log, reopened)
    ensures AppliedAsRecorded(snapshots, log + [Created(key)], reopened)
  {
    hide TimesApplied;
    TimesAppliedAppend(log, Created(key));
  }

  lemma RecordedAfterStatus(snapshots: map<nat, Snapshot>, log: seq<Entry>, reopened: map<nat, nat>, id: nat,
                            s: Snapshot)
    requires AppliedAsRecorded(snapshots, log, reopened)
    requires id in snapshots && snapshots[id].status != Completed && s.status != Completed
    ensures AppliedAsRecorded(snapshots[id := s], log, reopened)
  {
  }

  lemma RecordedAfterCompletion(snapshots: map<nat, Snapshot>, log: seq<Entry>, reopened: map<nat, nat>, s: Snapshot,
                                e: Entry)
    requires AppliedAsRecorded(snapshots, log, reopened)
    requires e.Applied? && e.snapshot in snapshots && snapshots[e.snapshot].status != Completed && s.status == Completed
    ensures AppliedAsRecorded(snapshots[e.snapshot := s], log + [e], reopened)
  {
  }

  lemma RecordedAfterReopening(snapshots: map<nat, Snapshot>, log: seq<Entry>, reopened: map<nat, nat>, id: nat,
                               s: Snapshot)
    requires AppliedAsRecorded(snapshots, log, reopened)
    requires id in snapshots && s.status != Completed
    ensures AppliedAsRecorded(
              snapshots[id := s], log,
              if snapshots[id].status == Completed then reopened[id := ReopenedCount(reopened, id) + 1] else reopened)
  {
  }

  lemma UpsertFollowsLog(offers: Offers, log: seq<Entry>, threshold: nat, key: OfferKey, price: int, record: nat)
    requires OffersFollowLog(offers, log, threshold)
    ensures key !in offers ==>
            OffersFollowLog(Upserted(offers, key, price, record, Unknown), log + [Created(key)], threshold)
    ensures key in offers ==> OffersFollowLog(Upserted(offers, key, price, record, Unknown), log, threshold)
  {
  }

  /** Applying a snapshot to the offers and appending it to the log keep each other in step. */
  lemma SnapshotFollowsLog(offers: Offers, log: seq<Entry>, threshold: nat, id: nat, s: Snapshot, seen: set<OfferKey>)
    requires 1 <= threshold && OffersFollowLog(offers, log, threshold)
    requires forall key | key in seen :: key.supplier == s.supplier
    ensures OffersFollowLog(AfterSnapshot(offers, id, s, seen, threshold),
                            log + [Applied(id, s.supplier, s.kind, s.capturedAt, seen)], threshold)
  {
    var entry := Applied(id, s.supplier, s.kind, s.capturedAt, seen);
    var after := AfterSnapshot(offers, id, s, seen, threshold);
    hide Agrees, Accepted, EventsFor, Stale;
    forall key | key in after ensures Agrees(after[key], Accepted(EventsFor(log + [entry], key)), threshold) {
      EventsAppend(log, entry, key);
      var events := EventsFor(log, key);
      SeenKeepsAgreement(offers[key], events, id, s.capturedAt, threshold);
      MissingKeepsAgreement(offers[key], events, id, s.capturedAt, threshold);
    }
  }

  lemma FourParts<T>(a: set<T>, b: set<T>, c: set<T>, d: set<T>)
    requires a !! b !! c !! d
    ensures |a + b + c + d| == |a| + |b| + |c| + |d|
  {
  }

  lemma MovesDisjoint(before: Offers, after: Offers, c: Counter, d: Counter)
    requires c != d
    ensures Moves(before, after, c) !! Moves(before, after, d)
  {
  }

  lemma MovesCoverChanges(before: Offers, after: Offers)
    ensures Changed(before, after)
         == Moves(before, after, MovedToInStock) + Moves(before, after, MovedToSuspect)
            + Moves(before, after, MovedToOutOfStock) + Moves(before, after, Restored)
  {
  }

  /** The four counters partition the offers whose availability changed. */
  lemma CountersPartitionChanges(counts: Counts, before: Offers, after: Offers)
    requires CountsMoves(counts, before, after)
    ensures counts.Total() == |Changed(before, after)|
  {
    hide Moves, Changed;
    var a, b := Moves(before, after, MovedToInStock), Moves(before, after, MovedToSuspect);
    var c, d := Moves(before, after, MovedToOutOfStock), Moves(before, after, Restored);
    assert counts.Get(MovedToInStock) == |a| && counts.Get(MovedToSuspect) == |b|;
    assert counts.Get(MovedToOutOfStock) == |c| && counts.Get(Restored) == |d|;
    MovesCoverChanges(before, after);
    MovesDisjoint(before, after, MovedToInStock, MovedToSuspect);
    MovesDisjoint(before, after, MovedToInStock, MovedToOutOfStock);
    MovesDisjoint(before, after, MovedToInStock, Restored);
    MovesDisjoint(before, after, MovedToSuspect, MovedToOutOfStock);
    MovesDisjoint(before, after, MovedToSuspect, Restored);
    MovesDisjoint(before, after, MovedToOutOfStock, Restored);
    FourParts(a, b, c, d);
  }

  /** The counts after one offer, so far as at the start, becomes `o`. */
  function Counted(counts: Counts, was: Level, now: Level): Counts {
    if was == now then counts else counts.Bump(CounterFor(was, now))
  }

  lemma MovesExtend(before: Offers, current: Offers, key: OfferKey, o: Offer, c: Counter)
    requires key in before && key in current && current[key].level == before[key].level
    ensures |Moves(before, current[key := o], c)|
         == |Moves(before, current, c)|
            + if o.level != before[key].level && CounterFor(before[key].level, o.level) == c then 1 else 0
  {
    var moved := o.level != before[key].level && CounterFor(before[key].level, o.level) == c;
    var was, now := Moves(before, current, c), Moves(before, current[key := o], c);
    forall k ensures k in now <==> k in was || (moved && k == key) {
      hide CounterFor;
    }
    assert key !in was;
    hide Moves, CounterFor;
    if moved {
      assert now == was + {key};
    } else {
      assert now == was;
    }
  }

  lemma CountsExtend(counts: Counts, before: Offers, current: Offers, key: OfferKey, o: Offer)
    requires CountsMoves(counts, before, current)
    requires key in before && key in current && current[key].level == before[key].level
    ensures CountsMoves(Counted(counts, before[key].level, o.level), before, current[key := o])
  {
    hide Moves;
    forall c: Counter
      ensures Counted(counts, before[key].level, o.level).Get(c) == |Moves(before, current[key := o], c)|
    {
      MovesExtend(before, current, key, o, c);
      assert counts.Get(c) == |Moves(before, current, c)|;
    }
  }

  lemma NothingMoved(offers: Offers)
    ensures CountsMoves(Counts(0, 0, 0, 0), offers, offers)
  {
  }

  lemma SeenAppliedExtend(offers: Offers, done: set<OfferKey>, key: OfferKey, id: nat, at: Time)
    requires key in offers && key !in done
    ensures var current := SeenApplied(offers, done, id, at);
            && current[key] == offers[key]
            && current[key := AfterSeen(offers[key], id, at)] == SeenApplied(offers, done + {key}, id, at)
  {
  }

  lemma MissingAppliedExtend(offers: Offers, done: set<OfferKey>, key: OfferKey, id: nat, at: Time, threshold: nat)
    requires key in offers && key !in done
    ensures var current := MissingApplied(offers, done, id, at, threshold);
            && current[key] == offers[key]
            && current[key := AfterMissing(offers[key], id, at, threshold)]
               == MissingApplied(offers, done + {key}, id, at, threshold)
  {
  }

  /** Matching lines never disturbs the availability of an existing offer, and creates offers in the unknown level. */
  lemma {:induction false} LinesKeepAvailability(offers: Offers, lines: seq<ListedLine>, record: nat, key: OfferKey)
    requires key in AfterLines(offers, lines, record)
    ensures var o := AfterLines(offers, lines, record)[key];
            if key in offers then
              o == offers[key].(price := o.price, sourceRecord := o.sourceRecord)
            else
              o == NewOffer(o.price, o.sourceRecord)
  {
    if lines != [] && key in AfterLines(offers, lines[..|lines| - 1], record) {
      LinesKeepAvailability(offers, lines[..|lines| - 1], record, key);
    }
  }

  /** The five outcome counters partition the candidate lines. */
  lemma {:induction false} OutcomesPartitionCandidates(lines: seq<ListedLine>)
    ensures CountLines(lines, ExactMatch) + CountLines(lines, AutoCreated) + CountLines(lines, Review)
            + CountLines(lines, MatchRejected) + CountLines(lines, ConflictBlocked) == Candidates(lines)
  {
    if lines != [] {
      OutcomesPartitionCandidates(lines[..|lines| - 1]);
    }
  }

  /** Taking the same snapshot into account a second time, with the same offers shown and nothing in between, changes
      something exactly when it is FULL and misses an offer that has seen nothing newer; such offers would be counted
      missing twice for one price list. A retry reads the text again and may find other offers by then, or follow other
      snapshots; the log, with one entry for each time, says what it does. */
  lemma ReapplyingIsHarmlessExactlyWhen(offers: Offers, id: nat, s: Snapshot, seen: set<OfferKey>, threshold: nat)
    requires seen <= offers.Keys
    ensures AfterSnapshot(AfterSnapshot(offers, id, s, seen, threshold), id, s, seen, threshold)
            == AfterSnapshot(offers, id, s, seen, threshold)
            <==> || s.kind == Partial
                 || forall key | key in Missed(offers, s.supplier, seen) :: Stale(offers[key], s.capturedAt)
  {
    var once := AfterSnapshot(offers, id, s, seen, threshold);
    var twice := AfterSnapshot(once, id, s, seen, threshold);
    assert once.Keys == offers.Keys && twice.Keys == offers.Keys;
    if s.kind == Full {
      assert Missed(once, s.supplier, seen) == Missed(offers, s.supplier, seen);
      if key :| key in Missed(offers, s.supplier, seen) && !Stale(offers[key], s.capturedAt) {
        assert once[key].missing == offers[key].missing + 1;
        assert twice[key].missing == offers[key].missing + 2;
      } else {
        forall key | key in offers ensures twice[key] == once[key] {
          if key in seen {
            assert once[key] == AfterSeen(offers[key], id, s.capturedAt);
          }
        }
      }
    } else {
      forall key | key in offers ensures twice[key] == once[key] {
      }
    }
  }

  class SnapshotProcessor {
    const threshold: nat
    const ratioNum: nat
    const ratioDen: nat
    var snapshots: map<nat, Snapshot>
    var offers: Offers
    var audit: seq<AuditRow>
    ghost var log: seq<Entry>
    ghost var reopened: map<nat, nat>

    ghost predicate Valid()
      reads this
    {
      && 1 <= threshold
      && OffersFollowLog(offers, log, threshold)
      && AppliedAsRecorded(snapshots, log, reopened)
    }

    constructor (threshold: nat, ratioNum: nat, ratioDen: nat)
      requires 1 <= threshold
      ensures Valid() && snapshots == map[] && offers == map[] && audit == [] && log == [] && reopened == map[]
      ensures this.threshold == threshold && this.ratioNum == ratioNum && this.ratioDen == ratioDen
    {
      this.threshold, this.ratioNum, this.ratioDen := threshold, ratioNum, ratioDen;
      snapshots, offers, audit, log, reopened := map[], map[], [], [], map[];
    }

    /** A snapshot is created once per supplier, record and kind of run; the identifier stands for that identity. */
    method CreateSnapshot(id: nat, supplier: nat, kind: Kind, capturedAt: Time, record: nat)
      requires Valid()
      modifies this`snapshots
      ensures Valid()
      ensures id in old(snapshots) ==> snapshots == old(snapshots)
      ensures id !in old(snapshots) ==>
                snapshots == old(snapshots)[id := Snapshot(supplier, kind, capturedAt, record, Pending, None)]
    {
      if id in snapshots {
        return;
      }
      snapshots := snapshots[id := Snapshot(supplier, kind, capturedAt, record, Pending, None)];
    }

    /** Records a change of level, its counter and its audit row; a change to the same level is no change. */
    method TransitionOffer(key: OfferKey, current: Level, snapshot: nat, counts: Counts, counter: Counter)
      returns (counts': Counts)
      requires key in offers
      modifies this`offers, this`audit
      ensures offers == old(offers)[key := old(offers)[key].(level := current)]
      ensures counts' == if old(offers)[key].level == current then counts else counts.Bump(counter)
      ensures audit == old(audit) + if old(offers)[key].level == current then []
                                    else [AuditRow(key, old(offers)[key].level, current, snapshot,
                                                   old(offers)[key].missing)]
    {
      var previous := offers[key].level;
      if previous == current {
        return counts;
      }
      offers := offers[key := offers[key].(level := current)];
      audit := audit + [AuditRow(key, previous, current, snapshot, offers[key].missing)];
      return counts.Bump(counter);
    }

    /** One turn of the loop over the seen offers. */
    method MarkSeen(key: OfferKey, id: nat, at: Time, counts: Counts) returns (counts': Counts)
      requires key in offers
      modifies this`offers, this`audit
      ensures offers == old(offers)[key := AfterSeen(old(offers)[key], id, at)]
      ensures counts' == Counted(counts, old(offers)[key].level, offers[key].level)
      ensures old(audit) <= audit && |audit| + counts.Total() == |old(audit)| + counts'.Total()
    {
      counts' := counts;
      if offers[key].lastProcessed.Some? && at < offers[key].lastProcessed.value {
        return;
      }
      var wasMissing := offers[key].level == SuspectMissing || offers[key].level == OutOfStock;
      offers := offers[key := offers[key].(missing := 0, lastSeen := Some(id), lastProcessed := Some(at))];
      if offers[key].level != InStock {
        counts' := TransitionOffer(key, InStock, id, counts, if wasMissing then Restored else MovedToInStock);
      }
    }

    /** One turn of the loop over the supplier's offers that the snapshot does not list. */
    method MarkMissing(key: OfferKey, id: nat, at: Time, counts: Counts) returns (counts': Counts)
      requires key in offers
      modifies this`offers, this`audit
      ensures offers == old(offers)[key := AfterMissing(old(offers)[key], id, at, threshold)]
      ensures counts' == Counted(counts, old(offers)[key].level, offers[key].level)
      ensures old(audit) <= audit && |audit| + counts.Total() == |old(audit)| + counts'.Total()
    {
      counts' := counts;
      if offers[key].lastProcessed.Some? && at < offers[key].lastProcessed.value {
        return;
      }
      var previous := offers[key].level;
      offers := offers[key := offers[key].(missing := offers[key].missing + 1, lastMissing := Some(id),
                                           lastProcessed := Some(at))];
      if offers[key].missing >= threshold {
        counts' := TransitionOffer(key, OutOfStock, id, counts, MovedToOutOfStock);
      } else if offers[key].level == InStock {
        counts' := TransitionOffer(key, SuspectMissing, id, counts, MovedToSuspect);
      } else if previous == Unknown {
        counts' := TransitionOffer(key, SuspectMissing, id, counts, MovedToSuspect);
      }
    }

    method MarkSeenOffersInStock(id: nat, s: Snapshot, seen: set<OfferKey>) returns (counts: Counts)
      requires seen <= offers.Keys
      modifies this`offers, this`audit
      ensures offers == SeenApplied(old(offers), seen, id, s.capturedAt)
      ensures CountsMoves(counts, old(offers), offers)
      ensures old(audit) <= audit && |audit| == |old(audit)| + counts.Total()
    {
      ghost var before := offers;
      counts := Counts(0, 0, 0, 0);
      NothingMoved(offers);
      var todo := seen;
      ghost var done: set<OfferKey> := {};
      assert SeenApplied(before, done, id, s.capturedAt) == before;
      while todo != {}
        invariant done !! todo && done + todo == seen
        invariant offers == SeenApplied(before, done, id, s.capturedAt)
        invariant CountsMoves(counts, before, offers)
        invariant old(audit) <= audit && |audit| == |old(audit)| + counts.Total()
      {
        var key :| key in todo;
        todo := todo - {key};
        SeenAppliedExtend(before, done, key, id, s.capturedAt);
        CountsExtend(counts, before, offers, key, AfterSeen(before[key], id, s.capturedAt));
        counts := MarkSeen(key, id, s.capturedAt, counts);
        done := done + {key};
      }
      assert done == seen;
    }

    method ApplySnapshotAvailability(id: nat, s: Snapshot, seen: set<OfferKey>) returns (counts: Counts)
      requires seen <= offers.Keys && s.kind == Full
      modifies this`offers, this`audit
      ensures offers == AfterSnapshot(old(offers), id, s, seen, threshold)
      ensures CountsMoves(counts, old(offers), offers)
      ensures old(audit) <= audit && |audit| == |old(audit)| + counts.Total()
    {
      ghost var before := offers;
      counts := MarkSeenOffersInStock(id, s, seen);
      ghost var marked := offers;
      var todo := set key | key in offers && key.supplier == s.supplier;
      ghost var done: set<OfferKey> := {};
      ghost var missed := Missed(before, s.supplier, seen);
      assert MissingApplied(marked, done, id, s.capturedAt, threshold) == marked;
      while todo != {}
        invariant done !! todo && done <= missed <= done + todo
        invariant todo <= before.Keys && forall key | key in todo :: key.supplier == s.supplier
        invariant offers == MissingApplied(marked, done, id, s.capturedAt, threshold)
        invariant CountsMoves(counts, before, offers)
        invariant old(audit) <= audit && |audit| == |old(audit)| + counts.Total()
      {
        var key :| key in todo;
        todo := todo - {key};
        if key !in seen {
          MissingAppliedExtend(marked, done, key, id, s.capturedAt, threshold);
          CountsExtend(counts, before, offers, key, AfterMissing(before[key], id, s.capturedAt, threshold));
          counts := MarkMissing(key, id, s.capturedAt, counts);
          done := done + {key};
        }
      }
      assert done == missed;
    }

    /** A new offer starts its history of events; an existing one keeps it. */
    method UpsertSupplierOffer(key: OfferKey, price: int, record: nat, level: Level) returns (created: bool)
      modifies this`offers, this`log
      ensures created <==> key !in old(offers)
      ensures offers == Upserted(old(offers), key, price, record, level)
      ensures log == if created then old(log) + [Created(key)] else old(log)
    {
      created := key !in offers;
      if created {
        offers := offers[key := NewOffer(price, record).(level := level)];
        log := log + [Created(key)];
        return;
      }
      var levelChanged := level != Unknown && offers[key].level != level;
      if offers[key].price != price || levelChanged {
        offers := offers[key := offers[key].(price := price, sourceRecord := record,
                                             level := if levelChanged then level else offers[key].level)];
      }
    }

    /** One turn of the loop over the parsed lines. */
    method MatchLine(line: ListedLine, supplier: nat, record: nat, outcomes: Outcomes)
      returns (shown: set<OfferKey>, outcomes': Outcomes)
      requires Valid()
      modifies this`offers, this`log
      ensures Valid()
      ensures offers == LineApplied(old(offers), line, record)
      ensures shown == LineSeen(offers, line, supplier)
      ensures log == old(log) + LineCreates(old(offers), line)
      ensures forall m: MatchStatus :: outcomes'.Get(m) == outcomes.Get(m) + if CountsAs(line, m) then 1 else 0
    {
      hide OffersFollowLog, AppliedAsRecorded, Upserted;
      shown, outcomes' := {}, outcomes;
      if line.parse == Ignored {
        return;
      }
      if line.parse == InConflict {
        outcomes' := outcomes.(conflict := outcomes.conflict + 1);
        return;
      }
      if line.Matched() && line.price.Some? {
        var key := OfferKey(line.supplier, line.variant.value);
        UpsertFollowsLog(offers, log, threshold, key, line.price.value, record);
        RecordedAfterCreation(snapshots, log, reopened, key);
        var _ := UpsertSupplierOffer(key, line.price.value, record, Unknown);
      }
      match line.outcome {
        case ExactMatch => outcomes' := outcomes.(exact := outcomes.exact + 1);
        case AutoCreated => outcomes' := outcomes.(autoCreated := outcomes.autoCreated + 1);
        case Review => outcomes' := outcomes.(review := outcomes.review + 1);
        case MatchRejected => outcomes' := outcomes.(rejected := outcomes.rejected + 1);
        case ConflictBlocked => outcomes' := outcomes.(conflict := outcomes.conflict + 1);
      }
      if line.Matched() && OfferKey(supplier, line.variant.value) in offers {
        shown := {OfferKey(supplier, line.variant.value)};
      }
    }

    /** Matches the first `upTo` lines, as the loop does before it ends or raises. */
    method MatchLines(lines: seq<ListedLine>, upTo: nat, supplier: nat, record: nat)
      returns (seen: set<OfferKey>, outcomes: Outcomes)
      requires upTo <= |lines| && Valid()
      modifies this`offers, this`log
      ensures Valid()
      ensures offers == AfterLines(old(offers), lines[..upTo], record)
      ensures seen == SeenKeys(old(offers), lines[..upTo], supplier, record)
      ensures log == old(log) + CreatedBy(old(offers), lines[..upTo], record)
      ensures forall m: MatchStatus :: outcomes.Get(m) == CountLines(lines[..upTo], m)
    {
      seen, outcomes := {}, Outcomes(0, 0, 0, 0, 0);
      for i := 0 to upTo
        invariant Valid()
        invariant offers == AfterLines(old(offers), lines[..i], record)
        invariant seen == SeenKeys(old(offers), lines[..i], supplier, record)
        invariant log == old(log) + CreatedBy(old(offers), lines[..i], record)
        invariant forall m: MatchStatus :: outcomes.Get(m) == CountLines(lines[..i], m)
      {
        assert lines[..i + 1][..i] == lines[..i];
        var shown, next := MatchLine(lines[i], supplier, record, outcomes);
        seen, outcomes := seen + shown, next;
      }
    }

    method ParserQualityCounts(lines: seq<ListedLine>) returns (q: Quality)
      ensures q.candidates == Candidates(lines) && q.successful == Successful(lines)
      ensures q.review == CountParse(lines, ToReview) && q.conflict == CountParse(lines, InConflict)
      ensures q.successful <= q.candidates
    {
      q := Quality(0, 0, 0, 0);
      for i := 0 to |lines|
        invariant q.candidates == Candidates(lines[..i]) && q.successful == Successful(lines[..i])
        invariant q.review == CountParse(lines[..i], ToReview) && q.conflict == CountParse(lines[..i], InConflict)
        invariant q.successful <= q.candidates
      {
        var line := lines[i];
        assert lines[..i + 1][..i] == lines[..i];
        if line.parse == Ignored {
          continue;
        }
        q := q.(candidates := q.candidates + 1);
        if line.parse == InConflict {
          q := q.(conflict := q.conflict + 1);
        }
        if line.parse == ToReview {
          q := q.(review := q.review + 1);
        }
        if line.price.Some? && line.flags !! BLOCKING {
          q := q.(successful := q.successful + 1);
        }
      }
      assert lines[..|lines|] == lines;
    }

    /** The transaction that moves availability and the status of the snapshot on together. */
    method Commit(id: nat, s: Snapshot, seen: set<OfferKey>, gate: Option<GateReason>) returns (counts: Counts)
      requires Valid() && id in snapshots && seen <= offers.Keys
      requires forall key | key in seen :: key.supplier == s.supplier
      requires snapshots[id].status != Completed
      modifies this`offers, this`audit, this`snapshots, this`log
      ensures Valid()
      ensures snapshots == old(snapshots)[id := s.(status := Verdict(gate, s.kind), gateReason := gate)]
      ensures offers == if Verdict(gate, s.kind) == Completed then AfterSnapshot(old(offers), id, s, seen, threshold)
                        else old(offers)
      ensures log == old(log) + if Verdict(gate, s.kind) == Completed then
                                  [Applied(id, s.supplier, s.kind, s.capturedAt, seen)]
                                else []
      ensures CountsMoves(counts, old(offers), offers)
      ensures old(audit) <= audit && |audit| == |old(audit)| + counts.Total()
    {
      hide OffersFollowLog, AppliedAsRecorded, SeenApplied, MissingApplied, Missed, Moves, CountsMoves;
      ghost var entry := Applied(id, s.supplier, s.kind, s.capturedAt, seen);
      var moved := s.(status := Verdict(gate, s.kind), gateReason := gate);
      if gate == None && s.kind == Full {
        counts := ApplySnapshotAvailability(id, s, seen);
      } else if s.kind == Partial {
        counts := MarkSeenOffersInStock(id, s, seen);
      } else {
        counts := Counts(0, 0, 0, 0);
        NothingMoved(offers);
      }
      if moved.status == Completed {
        SnapshotFollowsLog(old(offers), log, threshold, id, s, seen);
        RecordedAfterCompletion(snapshots, log, reopened, moved, entry);
        log := log + [entry];
      } else {
        RecordedAfterStatus(snapshots, log, reopened, id, moved);
      }
      snapshots := snapshots[id := moved];
    }

    method SetStatus(id: nat, s: Snapshot)
      requires Valid() && id in snapshots && snapshots[id].status != Completed && s.status != Completed
      modifies this`snapshots
      ensures Valid() && snapshots == old(snapshots)[id := s]
    {
      RecordedAfterStatus(snapshots, log, reopened, id, s);
      snapshots := snapshots[id := s];
    }

    /** A failing closing summary marks a snapshot FAILED although its effect is already committed. */
    method Reopen(id: nat)
      requires Valid() && id in snapshots
      modifies this`snapshots, this`reopened
      ensures Valid()
      ensures snapshots == old(snapshots)[id := old(snapshots)[id].(status := Failed)]
      ensures reopened == if old(snapshots)[id].status == Completed then
                            old(reopened)[id := ReopenedCount(old(reopened), id) + 1]
                          else old(reopened)
    {
      RecordedAfterReopening(snapshots, log, reopened, id, snapshots[id].(status := Failed));
      reopened := if snapshots[id].status == Completed then reopened[id := ReopenedCount(reopened, id) + 1]
                  else reopened;
      snapshots := snapshots[id := snapshots[id].(status := Failed)];
    }

    /** Processing up to and including its commit. */
    method RunToCommit(id: nat, lines: seq<ListedLine>) returns (counts: Counts, outcomes: Outcomes)
      requires Valid() && id in snapshots && snapshots[id].status != Completed
      modifies this`offers, this`audit, this`snapshots, this`log
      ensures Valid()
      ensures offers == Processed(old(offers), id, old(snapshots)[id], lines, threshold, ratioNum, ratioDen)
      ensures snapshots
              == old(snapshots)[id := FinalSnapshot(old(offers), old(snapshots)[id], lines, NoFault, ratioNum,
                                                    ratioDen)]
      ensures log == old(log) + AddedToLog(old(offers), id, old(snapshots)[id], lines, NoFault, ratioNum, ratioDen)
      ensures CountsMoves(counts, AfterLines(old(offers), lines, old(snapshots)[id].record), offers)
      ensures old(audit) <= audit && |audit| == |old(audit)| + counts.Total()
      ensures outcomes.Total() == Candidates(lines)
    {
      hide OffersFollowLog, AppliedAsRecorded, AfterLines, SeenKeys, CreatedBy, Candidates, Successful, CountLines,
           CountParse, AfterSnapshot, Moves;
      var s := snapshots[id];
      SetStatus(id, s.(status := Processing));
      var seen;
      seen, outcomes := MatchLines(lines, |lines|, s.supplier, s.record);
      assert lines[..|lines|] == lines;
      OutcomesPartitionCandidates(lines);
      var q := ParserQualityCounts(lines);
      var gate := QualityGate(|lines|, q.candidates, q.successful, |seen|, ratioNum, ratioDen);
      counts := Commit(id, s, seen, gate);
    }

    /** The run of a snapshot that is neither completed nor rejected. */
    method ProcessLocked(id: nat, lines: seq<ListedLine>, fault: Fault) returns (r: Result)
      requires Valid() && id in snapshots && snapshots[id].status != Completed
      modifies this
      ensures Valid()
      ensures r == Raised || r.Summary?
      ensures r == Raised <==> fault != NoFault
      ensures offers == FinalOffers(old(offers), id, old(snapshots)[id], lines, fault, threshold, ratioNum, ratioDen)
      ensures snapshots
              == old(snapshots)[id := FinalSnapshot(old(offers), old(snapshots)[id], lines, fault, ratioNum, ratioDen)]
      ensures log == old(log) + AddedToLog(old(offers), id, old(snapshots)[id], lines, fault, ratioNum, ratioDen)
      ensures reopened
              == ReopenedAfter(old(reopened), old(offers), id, old(snapshots)[id], lines, fault, ratioNum, ratioDen)
      ensures r.Summary? ==>
                && r.status == snapshots[id].status
                && CountsMoves(r.counts, AfterLines(old(offers), lines, snapshots[id].record), offers)
                && |audit| == |old(audit)| + r.counts.Total()
                && r.outcomes.Total() == Candidates(lines)
    {
      hide OffersFollowLog, AppliedAsRecorded, AfterLines, SeenKeys, CreatedBy, Candidates, Successful, CountLines,
           CountParse, AfterSnapshot, Moves;
      var s := snapshots[id];
      if !Commits(fault) {
        SetStatus(id, s.(status := Processing));
        var _, _ := MatchLines(lines, LinesReached(lines, fault), s.supplier, s.record);
        SetStatus(id, s.(status := Failed));
        return Raised;
      }
      var counts, outcomes := RunToCommit(id, lines);
      if fault == InSummary {
        Reopen(id);
        return Raised;
      }
      return Summary(snapshots[id].status, counts, outcomes);
    }

    /** Processes a snapshot whose text the parser and the matcher read as `lines`. */
    method ProcessSnapshot(id: nat, lines: seq<ListedLine>, fault: Fault) returns (r: Result)
      requires Valid()
      modifies this
      ensures Valid()
      ensures r == NotFound <==> id !in old(snapshots)
      ensures r.AlreadyDone? <==> id in old(snapshots) && old(snapshots)[id].status in {Completed, Rejected}
      ensures r == NotFound || r.AlreadyDone? ==>
                && offers == old(offers) && snapshots == old(snapshots) && audit == old(audit)
                && log == old(log) && reopened == old(reopened)
      ensures r == Raised || r.Summary? ==>
                && (r == Raised <==> fault != NoFault)
                && offers == FinalOffers(old(offers), id, old(snapshots)[id], lines, fault, threshold, ratioNum,
                                         ratioDen)
                && snapshots
                   == old(snapshots)[id := FinalSnapshot(old(offers), old(snapshots)[id], lines, fault, ratioNum,
                                                         ratioDen)]
                && log == old(log) + AddedToLog(old(offers), id, old(snapshots)[id], lines, fault, ratioNum, ratioDen)
                && reopened == ReopenedAfter(old(reopened), old(offers), id, old(snapshots)[id], lines, fault,
                                             ratioNum, ratioDen)
      ensures r.Summary? ==>
                && r.status == snapshots[id].status
                && CountsMoves(r.counts, AfterLines(old(offers), lines, snapshots[id].record), offers)
                && |audit| == |old(audit)| + r.counts.Total()
                && r.outcomes.Total() == Candidates(lines)
    {
      if id !in snapshots {
        return NotFound;
      }
      if snapshots[id].status == Completed || snapshots[id].status == Rejected {
        return AlreadyDone(snapshots[id].status);
      }
      r := ProcessLocked(id, lines, fault);
    }
  }
}
