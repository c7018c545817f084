/**
 Who may be collecting for a source at once: the start of an execution in its three parts, the look for another running
 job, the lock, and the commit that marks the job running, interleaved between any number of workers.

 A worker holds its job's row from the look to that commit. It may stop between any two parts. A job may be delivered
 again, and it may be put back to waiting by the recovery of old running jobs or by a late record that it was queued,
 whether or not a worker is collecting it. `disturbed` remembers the jobs to which that happened while one was.
 */
module CollectingSection {
  import opened Common
  import Locks

  datatype Status = Waiting | Running | Ended

  datatype Row = Row(source: nat, status: Status)

  datatype Phase =
    | Looked(job: nat, lookedAt: Time)
    | Holding(job: nat, lookedAt: Time, token: nat, acquiredAt: Time)
    | Collecting(job: nat, lookedAt: Time, token: nat, acquiredAt: Time, markedAt: Time)
    | Leaving(job: nat, token: nat)

  datatype State = State(now: Time, jobs: map<nat, Row>, entries: Locks.Entries, workers: map<nat, Phase>,
                         issued: set<nat>, disturbed: set<nat>)

  datatype Step =
    | Pass(delay: nat)
    | Create(job: nat, source: nat)
    | Look(worker: nat, job: nat)
    | Refuse(job: nat)
    | Acquire(worker: nat, token: nat)
    | Mark(worker: nat)
    | End(worker: nat, again: bool)
    | Leave(worker: nat)
    | Die(worker: nat)
    | PutBack(job: nat)

  /** Some worker is collecting the job. */
  predicate Collected(s: State, job: nat) {
    exists w | w in s.workers :: s.workers[w].Collecting? && s.workers[w].job == job
  }

  /** The job's row is free: no execution of it is between its look and its commit. */
  predicate RowFree(s: State, job: nat) {
    forall w | w in s.workers && s.workers[w].job == job :: s.workers[w].Collecting? || s.workers[w].Leaving?
  }

  predicate OtherRunning(s: State, job: nat)
    requires job in s.jobs
  {
    exists other | other in s.jobs ::
      other != job && s.jobs[other].source == s.jobs[job].source && s.jobs[other].status == Running
  }

  predicate Enabled(s: State, step: Step) {
    match step
    case Pass(_) => true
    case Create(job, _) => job !in s.jobs
    case Look(worker, job) =>
      worker !in s.workers && job in s.jobs && RowFree(s, job) && s.jobs[job].status != Ended && !OtherRunning(s, job)
    case Refuse(job) => job in s.jobs && RowFree(s, job)
    case Acquire(worker, token) => worker in s.workers && s.workers[worker].Looked? && token !in s.issued
    case Mark(worker) => worker in s.workers && s.workers[worker].Holding?
    case End(worker, _) => worker in s.workers && s.workers[worker].Collecting?
    case Leave(worker) => worker in s.workers && s.workers[worker].Leaving?
    case Die(worker) => worker in s.workers
    case PutBack(job) => job in s.jobs
  }

  function WithStatus(s: State, job: nat, status: Status): map<nat, Row> {
    if job in s.jobs then s.jobs[job := s.jobs[job].(status := status)] else s.jobs
  }

  function SourceOf(s: State, job: nat): nat {
    if job in s.jobs then s.jobs[job].source else 0
  }

  function Disturb(s: State, job: nat): set<nat> {
    if Collected(s, job) then s.disturbed + {job} else s.disturbed
  }

  /** `Refuse` is a delivery that ends the job: its source is missing or disabled, or another job of it is running. A
      worker that finds the lock taken ends its job too. */
  function Next(s: State, step: Step, ttl: nat): State
    requires Enabled(s, step)
  {
    match step
    case Pass(delay) => s.(now := s.now + delay)
    case Create(job, source) => s.(jobs := s.jobs[job := Row(source, Waiting)])
    case Look(worker, job) =>
      s.(workers := s.workers[worker := Looked(job, s.now)], disturbed := Disturb(s, job))
    case Refuse(job) => s.(jobs := WithStatus(s, job, Ended), disturbed := Disturb(s, job))
    case Acquire(worker, token) =>
      var w := s.workers[worker];
      var source := SourceOf(s, w.job);
      if Locks.Live(s.entries, source, s.now) then
        s.(jobs := WithStatus(s, w.job, Ended), workers := s.workers - {worker}, issued := s.issued + {token})
      else
        s.(entries := Locks.Acquired(s.entries, source, token, s.now, ttl),
           workers := s.workers[worker := Holding(w.job, w.lookedAt, token, s.now)],
           issued := s.issued + {token})
    case Mark(worker) =>
      var w := s.workers[worker];
      s.(jobs := WithStatus(s, w.job, Running),
         workers := s.workers[worker := Collecting(w.job, w.lookedAt, w.token, w.acquiredAt, s.now)])
    case End(worker, again) =>
      var w := s.workers[worker];
      s.(jobs := WithStatus(s, w.job, if again then Waiting else Ended),
         workers := s.workers[worker := Leaving(w.job, w.token)])
    case Leave(worker) =>
      var w := s.workers[worker];
      s.(entries := Locks.Released(s.entries, SourceOf(s, w.job), w.token, s.now), workers := s.workers - {worker})
    case Die(worker) => s.(workers := s.workers - {worker})
    case PutBack(job) => s.(jobs := WithStatus(s, job, Waiting), disturbed := Disturb(s, job))
  }

  function Initial(now: Time): State {
    State(now, map[], map[], map[], {}, {})
  }

  ghost predicate Possible(now: Time, steps: seq<Step>, ttl: nat)
    decreases steps, 0
  {
    steps != [] ==>
      && Possible(now, steps[..|steps| - 1], ttl)
      && Enabled(After(now, steps[..|steps| - 1], ttl), steps[|steps| - 1])
  }

  ghost function After(now: Time, steps: seq<Step>, ttl: nat): State
    requires Possible(now, steps, ttl)
    decreases steps, 1
  {
    if steps == [] then Initial(now) else
      Next(After(now, steps[..|steps| - 1], ttl), steps[|steps| - 1], ttl)
  }

  // ---------- What every step keeps ----------

  predicate HasLock(w: Phase) {
    w.Holding? || w.Collecting?
  }

  ghost predicate WorkerFits(s: State, w: Phase, ttl: nat) {
    && w.job in s.jobs
    && (!w.Leaving? ==> w.lookedAt <= s.now)
    && (!w.Looked? ==> w.token in s.issued)
    && (HasLock(w) ==>
          && w.lookedAt <= w.acquiredAt <= s.now
          && (s.now < w.acquiredAt + ttl ==>
                && SourceOf(s, w.job) in s.entries
                && s.entries[SourceOf(s, w.job)] == Locks.Entry(w.token, w.acquiredAt + ttl)))
    && (w.Collecting? ==> w.acquiredAt <= w.markedAt <= s.now)
    && (w.Collecting? && w.job !in s.disturbed ==> s.jobs[w.job].status == Running)
  }

  /** Two workers: their tokens differ; two holders of one source's lock took it a lifetime apart; a worker that is
      starting looked before any undisturbed other one of the source was marked; no two start the same job, and one
      that starts a job beside a worker collecting it disturbs it. */
  ghost predicate PairFits(s: State, v: Phase, w: Phase, ttl: nat) {
    && (!v.Looked? && !w.Looked? ==> v.token != w.token)
    && (HasLock(v) && HasLock(w) && SourceOf(s, v.job) == SourceOf(s, w.job) ==>
          v.acquiredAt + ttl <= w.acquiredAt || w.acquiredAt + ttl <= v.acquiredAt)
    && (v.Collecting? && !w.Leaving? && v.job != w.job && v.job !in s.disturbed
        && SourceOf(s, v.job) == SourceOf(s, w.job) ==>
          w.lookedAt <= v.markedAt)
    && (v.Collecting? && !w.Leaving? && v.job == w.job ==> v.job in s.disturbed)
    && (!v.Collecting? && !v.Leaving? && !w.Collecting? && !w.Leaving? ==> v.job != w.job)
  }

  ghost predicate Inv(s: State, ttl: nat) {
    && (forall w | w in s.workers :: WorkerFits(s, s.workers[w], ttl))
    && (forall v, w | v in s.workers && w in s.workers && v != w :: PairFits(s, s.workers[v], s.workers[w], ttl))
    && (forall source | source in s.entries :: s.entries[source].expiresAt <= s.now + ttl)
  }

  predicate Starts(step: Step) {
    step.Look? || step.Acquire? || step.Mark?
  }

  lemma StartKeepsWorker(s: State, step: Step, ttl: nat, w: nat)
    requires Inv(s, ttl) && Enabled(s, step) && Starts(step) && w in Next(s, step, ttl).workers
    ensures WorkerFits(Next(s, step, ttl), Next(s, step, ttl).workers[w], ttl)
  {
    hide RowFree, OtherRunning;
  }

  lemma RestKeepsWorker(s: State, step: Step, ttl: nat, w: nat)
    requires Inv(s, ttl) && Enabled(s, step) && !Starts(step) && w in Next(s, step, ttl).workers
    ensures WorkerFits(Next(s, step, ttl), Next(s, step, ttl).workers[w], ttl)
  {
    hide RowFree, OtherRunning;
  }

  lemma StartKeepsPair(s: State, step: Step, ttl: nat, v: nat, w: nat)
    requires Inv(s, ttl) && Enabled(s, step) && Starts(step) && v != w
    requires v in Next(s, step, ttl).workers && w in Next(s, step, ttl).workers
    ensures PairFits(Next(s, step, ttl), Next(s, step, ttl).workers[v], Next(s, step, ttl).workers[w], ttl)
  {
    hide Next, PairFits;
    match step
    case Look(worker, job) => LookKeepsPair(s, worker, job, ttl, v, w);
    case Acquire(worker, token) => AcquireKeepsPair(s, worker, token, ttl, v, w);
    case Mark(worker) => MarkKeepsPair(s, worker, ttl, v, w);
  }

  lemma LookKeepsPair(s: State, worker: nat, job: nat, ttl: nat, v: nat, w: nat)
    requires Inv(s, ttl) && Enabled(s, Look(worker, job)) && v != w
    requires v in Next(s, Look(worker, job), ttl).workers && w in Next(s, Look(worker, job), ttl).workers
    ensures var t := Next(s, Look(worker, job), ttl); PairFits(t, t.workers[v], t.workers[w], ttl)
  {
  }

  lemma AcquireKeepsPair(s: State, worker: nat, token: nat, ttl: nat, v: nat, w: nat)
    requires Inv(s, ttl) && Enabled(s, Acquire(worker, token)) && v != w
    requires v in Next(s, Acquire(worker, token), ttl).workers && w in Next(s, Acquire(worker, token), ttl).workers
    ensures var t := Next(s, Acquire(worker, token), ttl); PairFits(t, t.workers[v], t.workers[w], ttl)
  {
    hide RowFree, OtherRunning;
  }

  lemma MarkKeepsPair(s: State, worker: nat, ttl: nat, v: nat, w: nat)
    requires Inv(s, ttl) && Enabled(s, Mark(worker)) && v != w
    requires v in Next(s, Mark(worker), ttl).workers && w in Next(s, Mark(worker), ttl).workers
    ensures var t := Next(s, Mark(worker), ttl); PairFits(t, t.workers[v], t.workers[w], ttl)
  {
    hide RowFree, OtherRunning;
  }

  lemma RestKeepsPair(s: State, step: Step, ttl: nat, v: nat, w: nat)
    requires Inv(s, ttl) && Enabled(s, step) && !Starts(step) && v != w
    requires v in Next(s, step, ttl).workers && w in Next(s, step, ttl).workers
    ensures PairFits(Next(s, step, ttl), Next(s, step, ttl).workers[v], Next(s, step, ttl).workers[w], ttl)
  {
    hide RowFree, OtherRunning;
  }

  lemma StepKeepsEntries(s: State, step: Step, ttl: nat)
    requires Inv(s, ttl) && Enabled(s, step)
    ensures var t := Next(s, step, ttl);
      forall source | source in t.entries :: t.entries[source].expiresAt <= t.now + ttl
  {
    hide RowFree, OtherRunning, WorkerFits, PairFits;
  }

  lemma StepKeepsInv(s: State, step: Step, ttl: nat)
    requires Inv(s, ttl) && Enabled(s, step)
    ensures Inv(Next(s, step, ttl), ttl)
  {
    var t := Next(s, step, ttl);
    StepKeepsEntries(s, step, ttl);
    forall w | w in t.workers ensures WorkerFits(t, t.workers[w], ttl) {
      hide Next, WorkerFits;
      if Starts(step) {
        StartKeepsWorker(s, step, ttl, w);
      } else {
        RestKeepsWorker(s, step, ttl, w);
      }
    }
    forall v, w | v in t.workers && w in t.workers && v != w ensures PairFits(t, t.workers[v], t.workers[w], ttl) {
      hide Next, PairFits;
      if Starts(step) {
        StartKeepsPair(s, step, ttl, v, w);
      } else {
        RestKeepsPair(s, step, ttl, v, w);
      }
    }
  }

  lemma {:induction false} RunKeepsInv(now: Time, steps: seq<Step>, ttl: nat)
    requires Possible(now, steps, ttl)
    ensures Inv(After(now, steps, ttl), ttl)
  {
    hide Inv, Enabled, Next;
    if steps != [] {
      RunKeepsInv(now, steps[..|steps| - 1], ttl);
      StepKeepsInv(After(now, steps[..|steps| - 1], ttl), steps[|steps| - 1], ttl);
    } else {
      InitialFits(now, ttl);
    }
  }

  lemma InitialFits(now: Time, ttl: nat)
    ensures Inv(Initial(now), ttl)
  {
  }

  // ---------- Two workers for one source ----------

  /** Worker `w` is collecting for the source, and its job was neither delivered again nor put back meanwhile. */
  predicate CollectsFor(s: State, w: nat, source: nat) {
    && w in s.workers && s.workers[w].Collecting?
    && SourceOf(s, s.workers[w].job) == source && s.workers[w].job !in s.disturbed
  }

  /** How long the worker took from its look to its commit. */
  function StartTime(s: State, w: nat): int
    requires w in s.workers && s.workers[w].Collecting?
  {
    s.workers[w].markedAt - s.workers[w].lookedAt
  }

  /** In every reachable state, if two workers collect for one source without their jobs having been disturbed, their
      starts together took at least the lifetime of a lock. How long they collect does not matter. */
  lemma TwoCollectingStartedSlowly(now: Time, steps: seq<Step>, ttl: nat, v: nat, w: nat, source: nat)
    requires Possible(now, steps, ttl) && v != w
    requires var s := After(now, steps, ttl); CollectsFor(s, v, source) && CollectsFor(s, w, source)
    ensures var s := After(now, steps, ttl); ttl <= StartTime(s, v) + StartTime(s, w)
  {
    hide After, Possible;
    var s := After(now, steps, ttl);
    RunKeepsInv(now, steps, ttl);
    assert WorkerFits(s, s.workers[v], ttl) && WorkerFits(s, s.workers[w], ttl);
    assert PairFits(s, s.workers[v], s.workers[w], ttl) && PairFits(s, s.workers[w], s.workers[v], ttl);
  }

  // ---------- Runs in which two workers collect for one source ----------

  lemma OneMoreStep(now: Time, steps: seq<Step>, step: Step, ttl: nat)
    requires Possible(now, steps, ttl) && Enabled(After(now, steps, ttl), step)
    ensures Possible(now, steps + [step], ttl)
    ensures After(now, steps + [step], ttl) == Next(After(now, steps, ttl), step, ttl)
  {
    assert (steps + [step])[..|steps|] == steps;
  }

  /** Two jobs of one source; worker 1 has looked at the first and taken the lock. */
  function OneHolding(source: nat): seq<Step> {
    [Create(1, source)] + [Create(2, source)] + [Look(1, 1)] + [Acquire(1, 10)]
  }

  lemma OneHoldingRuns(now: Time, source: nat, ttl: nat)
    ensures Possible(now, OneHolding(source), ttl)
    ensures After(now, OneHolding(source), ttl)
            == State(now, map[1 := Row(source, Waiting), 2 := Row(source, Waiting)],
                     map[source := Locks.Entry(10, now + ttl)], map[1 := Holding(1, now, 10, now)], {10}, {})
  {
    var a, b := [Create(1, source)], [Create(1, source)] + [Create(2, source)];
    assert Possible(now, [], ttl) && After(now, [], ttl) == Initial(now);
    hide Possible, After;
    OneMoreStep(now, [], Create(1, source), ttl);
    assert [] + a == a;
    OneMoreStep(now, a, Create(2, source), ttl);
    OneMoreStep(now, b, Look(1, 1), ttl);
    OneMoreStep(now, b + [Look(1, 1)], Acquire(1, 10), ttl);
  }

  /** Worker 1 waits for `first`; worker 2 looks just before worker 1 is marked. */
  function BothLooked(first: nat, source: nat): seq<Step> {
    OneHolding(source) + [Pass(first)] + [Look(2, 2)]
  }

  lemma BothLookedRuns(now: Time, first: nat, source: nat, ttl: nat)
    ensures Possible(now, BothLooked(first, source), ttl)
    ensures After(now, BothLooked(first, source), ttl)
            == State(now + first, map[1 := Row(source, Waiting), 2 := Row(source, Waiting)],
                     map[source := Locks.Entry(10, now + ttl)],
                     map[1 := Holding(1, now, 10, now), 2 := Looked(2, now + first)], {10}, {})
  {
    OneHoldingRuns(now, source, ttl);
    hide Possible, After, OneHolding;
    OneMoreStep(now, OneHolding(source), Pass(first), ttl);
    OneMoreStep(now, OneHolding(source) + [Pass(first)], Look(2, 2), ttl);
  }

  function BothStarting(first: nat, source: nat): seq<Step> {
    BothLooked(first, source) + [Mark(1)]
  }

  lemma BothStartingRuns(now: Time, first: nat, source: nat, ttl: nat)
    ensures Possible(now, BothStarting(first, source), ttl)
    ensures After(now, BothStarting(first, source), ttl)
            == State(now + first, map[1 := Row(source, Running), 2 := Row(source, Waiting)],
                     map[source := Locks.Entry(10, now + ttl)],
                     map[1 := Collecting(1, now, 10, now, now + first), 2 := Looked(2, now + first)], {10}, {})
  {
    BothLookedRuns(now, first, source, ttl);
    hide Possible, After, BothLooked;
    OneMoreStep(now, BothLooked(first, source), Mark(1), ttl);
  }

  /** Then worker 2 waits for `second` before it goes on. */
  function SlowStarts(first: nat, second: nat, source: nat): seq<Step> {
    BothStarting(first, source) + [Pass(second)] + [Acquire(2, 20)] + [Mark(2)]
  }

  /** The bound is exact: starts of any two lengths that add up to a lifetime can leave both workers collecting. */
  lemma SlowStartsCollide(now: Time, first: nat, second: nat, source: nat, ttl: nat)
    requires ttl <= first + second
    ensures var steps := SlowStarts(first, second, source);
      && Possible(now, steps, ttl)
      && CollectsFor(After(now, steps, ttl), 1, source) && CollectsFor(After(now, steps, ttl), 2, source)
      && StartTime(After(now, steps, ttl), 1) == first && StartTime(After(now, steps, ttl), 2) == second
  {
    var a := BothStarting(first, source) + [Pass(second)];
    BothStartingRuns(now, first, source, ttl);
    hide Possible, After, BothStarting;
    OneMoreStep(now, BothStarting(first, source), Pass(second), ttl);
    OneMoreStep(now, a, Acquire(2, 20), ttl);
    OneMoreStep(now, a + [Acquire(2, 20)], Mark(2), ttl);
  }

  /** Worker 1 collects for a lifetime, however quickly it started. */
  function LongCollecting(source: nat, ttl: nat): seq<Step> {
    OneHolding(source) + [Mark(1)] + [Pass(ttl)]
  }

  lemma LongCollectingRuns(now: Time, source: nat, ttl: nat)
    ensures Possible(now, LongCollecting(source, ttl), ttl)
    ensures After(now, LongCollecting(source, ttl), ttl)
            == State(now + ttl, map[1 := Row(source, Running), 2 := Row(source, Waiting)],
                     map[source := Locks.Entry(10, now + ttl)], map[1 := Collecting(1, now, 10, now, now)], {10}, {})
  {
    OneHoldingRuns(now, source, ttl);
    hide Possible, After, OneHolding;
    OneMoreStep(now, OneHolding(source), Mark(1), ttl);
    OneMoreStep(now, OneHolding(source) + [Mark(1)], Pass(ttl), ttl);
  }

  /** Both workers collect for the source, having started at once. */
  predicate BothCollect(s: State, source: nat) {
    && 1 in s.workers && 2 in s.workers && s.workers[1].Collecting? && s.workers[2].Collecting?
    && SourceOf(s, s.workers[1].job) == SourceOf(s, s.workers[2].job) == source
    && StartTime(s, 1) == StartTime(s, 2) == 0
  }

  /** Worker 2 starts a job without delay. */
  function Starting(job: nat): seq<Step> {
    [Look(2, job)] + [Acquire(2, 20)] + [Mark(2)]
  }

  lemma StartingRuns(now: Time, steps: seq<Step>, job: nat, ttl: nat)
    requires Possible(now, steps, ttl)
    requires var s := After(now, steps, ttl);
      Enabled(s, Look(2, job)) && 20 !in s.issued && !Locks.Live(s.entries, SourceOf(s, job), s.now)
    ensures Possible(now, steps + Starting(job), ttl)
    ensures var s, t := After(now, steps, ttl), After(now, steps + Starting(job), ttl);
      && t.workers == s.workers[2 := Collecting(job, s.now, 20, s.now, s.now)]
      && t.jobs == WithStatus(s, job, Running)
  {
    hide Possible, After, RowFree, OtherRunning, Collected;
    OneMoreStep(now, steps, Look(2, job), ttl);
    OneMoreStep(now, steps + [Look(2, job)], Acquire(2, 20), ttl);
    OneMoreStep(now, steps + [Look(2, job)] + [Acquire(2, 20)], Mark(2), ttl);
    assert steps + [Look(2, job)] + [Acquire(2, 20)] + [Mark(2)] == steps + Starting(job);
  }

  /** With a second delivery of a job that is being collected, quick starts do not help. */
  lemma RedeliveryCollides(now: Time, source: nat, ttl: nat)
    ensures var steps := LongCollecting(source, ttl) + Starting(1);
      Possible(now, steps, ttl) && BothCollect(After(now, steps, ttl), source)
  {
    LongCollectingRuns(now, source, ttl);
    hide Possible, After, LongCollecting, Starting;
    StartingRuns(now, LongCollecting(source, ttl), 1, ttl);
  }

  lemma PutBackRuns(now: Time, source: nat, ttl: nat)
    ensures Possible(now, LongCollecting(source, ttl) + [PutBack(1)], ttl)
    ensures After(now, LongCollecting(source, ttl) + [PutBack(1)], ttl)
            == State(now + ttl, map[1 := Row(source, Waiting), 2 := Row(source, Waiting)],
                     map[source := Locks.Entry(10, now + ttl)], map[1 := Collecting(1, now, 10, now, now)], {10}, {1})
  {
    LongCollectingRuns(now, source, ttl);
    hide Possible, After, LongCollecting;
    var s := After(now, LongCollecting(source, ttl), ttl);
    assert s.workers[1].Collecting? && s.workers[1].job == 1;
    assert Collected(s, 1);
    OneMoreStep(now, LongCollecting(source, ttl), PutBack(1), ttl);
  }

  /** Nor do they when a job is put back to waiting while its worker collects. */
  lemma PuttingBackCollides(now: Time, source: nat, ttl: nat)
    ensures var steps := LongCollecting(source, ttl) + [PutBack(1)] + Starting(2);
      Possible(now, steps, ttl) && BothCollect(After(now, steps, ttl), source)
  {
    PutBackRuns(now, source, ttl);
    hide Possible, After, LongCollecting, Starting;
    StartingRuns(now, LongCollecting(source, ttl) + [PutBack(1)], 2, ttl);
  }
}
