/**
 The life of collection jobs under interleaved workers: queued messages, executions, failures, bounded retries, workers
 that die, and the recovery of jobs they leave behind.

 Queueing a job sends its message first and records the status, with a retry also the attempt, in a later commit; both
 are steps, and anything may happen between them.

 `Tame` marks the steps that keep to four assumptions: a message is delivered at most once, recovery picks only jobs
 whose worker is gone, a message is not taken before its job's status is recorded, and nobody stops between sending and
 recording. For each of the other steps a lemma says exactly when it keeps the invariant, and runs show that it need
 not.
 */
module JobLifecycle {
  import opened Common

  datatype Status = Pending | Queued | Running | Succeeded | RetryWait | Failed | Skipped

  predicate Terminal(status: Status) {
    status == Succeeded || status == Failed || status == Skipped
  }

  datatype Job = Job(source: nat, status: Status, attempt: nat, maxAttempts: nat, scheduledFor: Time, startedAt: Time)

  /** What a worker finds before it collects, apart from other running jobs of the source. */
  datatype Found = SourceMissing | SourceDisabled | LockHeld | LockFree

  datatype Outcome = Collected | TransientFailure | PermanentFailure

  /** Somebody is queueing a job: about to send its message, or about to record it with this attempt. */
  datatype Sender = ToSend | Sent(attempt: nat)

  /** `live` holds the jobs that a living worker is collecting, `senders` those that somebody is queueing. */
  datatype State = State(jobs: map<nat, Job>, queue: multiset<nat>, live: set<nat>, senders: map<nat, Sender>)

  datatype Step =
    | Create(job: nat, source: nat, maxAttempts: nat, now: Time)
    | Send(job: nat, now: Time)
    | RecordQueued(job: nat)
    | SenderDies(job: nat)
    | Deliver(job: nat, found: Found, now: Time)
    | Finish(job: nat, outcome: Outcome, now: Time)
    | Die(job: nat)
    | Recover(job: nat, now: Time)
    | Redeliver(job: nat, found: Found, now: Time)
    | RecoverLive(job: nat, now: Time)

  /** How long a job runs before it counts as stale. */
  const STALE_AFTER: Time := 900

  function RetryBackoff(attempt: nat): Time {
    if attempt == 1 then 30 else if attempt == 2 then 120 else 300
  }

  predicate HasStatus(s: State, id: nat, status: Status) {
    id in s.jobs && s.jobs[id].status == status
  }

  predicate OtherRunning(s: State, id: nat)
    requires id in s.jobs
  {
    exists other | other in s.jobs ::
      other != id && s.jobs[other].source == s.jobs[id].source && s.jobs[other].status == Running
  }

  /** The status in which an execution that begins leaves the job. */
  function Started(s: State, id: nat, found: Found): Status
    requires id in s.jobs
  {
    if Terminal(s.jobs[id].status) then s.jobs[id].status
    else if found == SourceMissing then Failed
    else if found == SourceDisabled || OtherRunning(s, id) || found == LockHeld then Skipped
    else Running
  }

  /** The classification of a failure: another attempt, after a pause, while there is one left. */
  function Classified(job: Job, transient: bool, now: Time): Job {
    if transient && job.attempt < job.maxAttempts then
      job.(status := RetryWait, scheduledFor := now + RetryBackoff(job.attempt))
    else job.(status := Failed)
  }

  predicate DueForRetry(job: Job, now: Time) {
    job.status == RetryWait && job.scheduledFor <= now && job.attempt < job.maxAttempts
  }

  predicate StaleRunning(job: Job, now: Time) {
    job.status == Running && job.startedAt < now - STALE_AFTER
  }

  /** The creator of a job sends its message; whoever looks for due retries sends that of a job nobody is queueing. */
  predicate MaySend(s: State, id: nat, now: Time) {
    && id in s.jobs
    && if id in s.senders then s.senders[id] == ToSend else DueForRetry(s.jobs[id], now)
  }

  predicate Enabled(s: State, step: Step) {
    match step
    case Create(id, _, maxAttempts, _) => id !in s.jobs && 1 <= maxAttempts
    case Send(id, now) => MaySend(s, id, now)
    case RecordQueued(id) => id in s.jobs && id in s.senders && s.senders[id].Sent?
    case SenderDies(id) => id in s.senders
    case Deliver(id, _, _) => id in s.jobs && id in s.queue
    case Finish(id, _, _) => id in s.jobs && id in s.live
    case Die(id) => id in s.live
    case Recover(id, now) => id in s.jobs && StaleRunning(s.jobs[id], now) && id !in s.live
    case Redeliver(id, _, _) => id in s.jobs
    case RecoverLive(id, now) => id in s.jobs && StaleRunning(s.jobs[id], now) && id in s.live
  }

  predicate Tame(s: State, step: Step) {
    match step
    case Redeliver(_, _, _) => false
    case RecoverLive(_, _) => false
    case Deliver(id, _, _) => id !in s.senders
    case SenderDies(id) => id in s.senders && s.senders[id] == ToSend
    case _ => true
  }

  /** An execution begins: with it the job is started, ended or left as it is. */
  function Begun(s: State, id: nat, found: Found, now: Time): State
    requires id in s.jobs
  {
    var status := Started(s, id, found);
    var startedAt := if status == Running then now else s.jobs[id].startedAt;
    s.(jobs := s.jobs[id := s.jobs[id].(status := status, startedAt := startedAt)],
       live := if status == Running then s.live + {id} else s.live)
  }

  function Next(s: State, step: Step): State
    requires Enabled(s, step)
  {
    match step
    case Create(id, source, maxAttempts, now) =>
      s.(jobs := s.jobs[id := Job(source, Pending, 1, maxAttempts, now, now)], senders := s.senders[id := ToSend])
    case Send(id, now) =>
      var attempt := if id in s.senders then s.jobs[id].attempt else s.jobs[id].attempt + 1;
      s.(queue := s.queue + multiset{id}, senders := s.senders[id := Sent(attempt)])
    case RecordQueued(id) =>
      s.(jobs := s.jobs[id := s.jobs[id].(status := Queued, attempt := s.senders[id].attempt)],
         senders := s.senders - {id})
    case SenderDies(id) => s.(senders := s.senders - {id})
    case Deliver(id, found, now) => Begun(s, id, found, now).(queue := s.queue - multiset{id})
    case Finish(id, outcome, now) =>
      s.(jobs := s.jobs[id := if outcome == Collected then s.jobs[id].(status := Succeeded)
                              else Classified(s.jobs[id], outcome == TransientFailure, now)],
         live := s.live - {id})
    case Die(id) => s.(live := s.live - {id})
    case Recover(id, now) => s.(jobs := s.jobs[id := Classified(s.jobs[id], true, now)])
    case Redeliver(id, found, now) => Begun(s, id, found, now)
    case RecoverLive(id, now) => s.(jobs := s.jobs[id := Classified(s.jobs[id], true, now)])
  }

  const EMPTY := State(map[], multiset{}, {}, map[])

  ghost predicate Possible(steps: seq<Step>)
    decreases steps, 0
  {
    steps != [] ==> Possible(steps[..|steps| - 1]) && Enabled(After(steps[..|steps| - 1]), steps[|steps| - 1])
  }

  /** The state that a run reaches from empty tables. */
  ghost function After(steps: seq<Step>): State
    requires Possible(steps)
    decreases steps, 1
  {
    if steps == [] then EMPTY else Next(After(steps[..|steps| - 1]), steps[|steps| - 1])
  }

  /** A run that keeps to the assumptions. */
  ghost predicate TameRun(steps: seq<Step>) {
    Possible(steps) &&
    (steps != [] ==>
       TameRun(steps[..|steps| - 1]) && Tame(After(steps[..|steps| - 1]), steps[|steps| - 1]))
  }

  // ---------- The invariant ----------

  /** While somebody is queueing a job, it is pending or waits for a retry, and its message is under way exactly if it
      was sent; otherwise one message is under way exactly for a queued job. A job is being collected only while it is
      running, and waits for a retry only while an attempt is left. */
  ghost predicate JobFits(s: State, id: nat) {
    if id in s.jobs then
      var job := s.jobs[id];
      && 1 <= job.attempt <= job.maxAttempts
      && (job.status == RetryWait ==> job.attempt < job.maxAttempts)
      && (id in s.live ==> job.status == Running)
      && if id !in s.senders then s.queue[id] == (if job.status == Queued then 1 else 0)
         else if s.senders[id] == ToSend then s.queue[id] == 0 && job.status == Pending
         else s.queue[id] == 1 && (|| (job.status == Pending && s.senders[id].attempt == job.attempt)
                                   || (job.status == RetryWait && s.senders[id].attempt == job.attempt + 1))
    else s.queue[id] == 0 && id !in s.live && id !in s.senders
  }

  ghost predicate Inv(s: State) {
    forall id: nat :: JobFits(s, id)
  }

  function Concerns(step: Step): nat {
    step.job
  }

  lemma StepLeavesOthers(s: State, step: Step, id: nat)
    requires Enabled(s, step) && id != Concerns(step)
    ensures var t := Next(s, step);
            && Lookup(t.jobs, id) == Lookup(s.jobs, id) && Lookup(t.senders, id) == Lookup(s.senders, id)
            && t.queue[id] == s.queue[id] && (id in t.live <==> id in s.live)
  {
  }

  lemma StepKeepsFit(s: State, step: Step)
    requires Enabled(s, step) && Tame(s, step) && JobFits(s, Concerns(step))
    ensures JobFits(Next(s, step), Concerns(step))
  {
  }

  lemma StepKeepsInv(s: State, step: Step)
    requires Inv(s) && Enabled(s, step) && Tame(s, step)
    ensures Inv(Next(s, step))
  {
    forall id: nat ensures JobFits(Next(s, step), id) {
      assert JobFits(s, id);
      if id == Concerns(step) {
        StepKeepsFit(s, step);
      } else {
        hide Next, Enabled;
        StepLeavesOthers(s, step, id);
        assert id in Next(s, step).jobs <==> Lookup(s.jobs, id).Some?;
        assert id in Next(s, step).senders <==> Lookup(s.senders, id).Some?;
      }
    }
  }

  /** In every reachable state no attempt exceeds its bound, a job waiting for a retry can still be retried, and every
      queued job has exactly one message. */
  lemma {:induction false} RunKeepsInv(steps: seq<Step>)
    requires TameRun(steps)
    ensures Inv(After(steps))
  {
    if steps != [] {
      RunKeepsInv(steps[..|steps| - 1]);
      StepKeepsInv(After(steps[..|steps| - 1]), steps[|steps| - 1]);
    }
  }

  // ---------- Every job comes to an end ----------

  /** How far the current attempt has come, counted down. */
  function Rank(s: State, id: nat): nat
    requires id in s.jobs
  {
    match s.jobs[id].status
    case Pending => if id !in s.senders then 6 else if s.senders[id] == ToSend then 8 else 7
    case Queued => 5
    case Running => if id in s.live then 4 else 3
    case RetryWait => if id !in s.senders then 2 else 1
    case _ => 0
  }

  /** What is left of a job's life: attempts first, then how far the current one has come. */
  function Measure(s: State, id: nat): nat {
    if id !in s.jobs || Terminal(s.jobs[id].status) then 0 else
      var job := s.jobs[id];
      6 * (if job.attempt < job.maxAttempts then job.maxAttempts - job.attempt else 0) + Rank(s, id)
  }

  lemma StepDecreasesMeasure(s: State, step: Step)
    requires JobFits(s, Concerns(step)) && Enabled(s, step) && Tame(s, step) && !step.Create?
    ensures Measure(Next(s, step), Concerns(step)) < Measure(s, Concerns(step))
  {
  }

  lemma StepKeepsOtherMeasure(s: State, step: Step, id: nat)
    requires Enabled(s, step) && id != Concerns(step)
    ensures Measure(Next(s, step), id) == Measure(s, id)
  {
    hide Next, Enabled;
    StepLeavesOthers(s, step, id);
    assert id in Next(s, step).jobs <==> Lookup(s.jobs, id).Some?;
    assert id in Next(s, step).senders <==> Lookup(s.senders, id).Some?;
  }

  /** The steps of a run that concern a job. */
  function StepsOf(steps: seq<Step>, id: nat): nat {
    if steps == [] then 0 else
      StepsOf(steps[..|steps| - 1], id) + if Concerns(steps[|steps| - 1]) == id then 1 else 0
  }

  /** The number of steps that concern a job is bounded by its attempts, over runs of any length. */
  lemma {:induction false} LifeIsBounded(steps: seq<Step>, id: nat)
    requires TameRun(steps)
    ensures var s := After(steps);
            if id in s.jobs then StepsOf(steps, id) + Measure(s, id) <= 6 * s.jobs[id].maxAttempts + 3
            else StepsOf(steps, id) == 0
  {
    if steps != [] {
      var front, step := steps[..|steps| - 1], steps[|steps| - 1];
      var s := After(front);
      LifeIsBounded(front, id);
      RunKeepsInv(front);
      assert JobFits(s, id);
      if Concerns(step) != id {
        StepKeepsOtherMeasure(s, step, id);
        StepLeavesOthers(s, step, id);
        hide Next, Enabled, Measure;
        assert id in Next(s, step).jobs <==> Lookup(s.jobs, id).Some?;
      } else if !step.Create? {
        StepDecreasesMeasure(s, step);
      }
    }
  }

  /** Some step concerning the job can happen, given time. */
  ghost predicate CanMove(s: State, id: nat) {
    exists step :: Enabled(s, step) && Tame(s, step) && Concerns(step) == id
  }

  /** In every state that tame runs reach the jobs that can move no further are exactly those that have ended and those
      whose creator stopped before sending. */
  lemma StuckExactlyWhen(steps: seq<Step>, id: nat)
    requires TameRun(steps) && id in After(steps).jobs
    ensures var s := After(steps);
            !CanMove(s, id) <==> Terminal(s.jobs[id].status) || (s.jobs[id].status == Pending && id !in s.senders)
  {
    hide Next, After, Started, Begun, Classified;
    var s := After(steps);
    RunKeepsInv(steps);
    assert JobFits(s, id);
    var job := s.jobs[id];
    if id in s.senders {
      var step := if s.senders[id] == ToSend then Send(id, 0) else RecordQueued(id);
      assert Enabled(s, step) && Tame(s, step) && Concerns(step) == id;
    } else {
      var step :=
        match job.status
        case Queued => Deliver(id, LockFree, 0)
        case Running => if id in s.live then Die(id) else Recover(id, job.startedAt + STALE_AFTER + 1)
        case _ => Send(id, job.scheduledFor);
      assert job.status in {Queued, Running, RetryWait} ==> Enabled(s, step) && Tame(s, step) && Concerns(step) == id;
    }
  }

  // ---------- How an attempt begins and ends ----------

  function Pause(attempt: nat): Time {
    match attempt
    case 1 => 30
    case 2 => 120
    case _ => 300
  }

  /** A job that collected has succeeded; one that failed for the time being waits for another attempt if there is one
      left, and its message can be sent again just when the pause is over; every other failure is final. */
  lemma EndDecides(s: State, id: nat, outcome: Outcome, now: Time, later: Time)
    requires Enabled(s, Finish(id, outcome, now)) && id !in s.senders
    ensures var job, t := s.jobs[id], Next(s, Finish(id, outcome, now));
      && id in t.jobs
      && (t.jobs[id].status == Succeeded <==> outcome == Collected)
      && (t.jobs[id].status == RetryWait <==> outcome == TransientFailure && job.attempt < job.maxAttempts)
      && (t.jobs[id].status == Failed <==>
            outcome == PermanentFailure || (outcome == TransientFailure && job.maxAttempts <= job.attempt))
      && (Enabled(t, Send(id, later)) <==> t.jobs[id].status == RetryWait && now + Pause(job.attempt) <= later)
      && t.jobs[id].attempt == job.attempt
  {
  }

  /** A message of a job that has ended changes nothing. One of an open job fails it if the source is gone, starts it if
      the source is enabled, nothing else of it is running and the lock is free, and skips it otherwise; a started job
      can be recovered only more than fifteen minutes later. */
  lemma BeginDecides(s: State, id: nat, found: Found, now: Time, later: Time)
    requires Enabled(s, Deliver(id, found, now))
    ensures var job, t := s.jobs[id], Next(s, Deliver(id, found, now));
      && id in t.jobs
      && (job.status in {Succeeded, Failed, Skipped} ==> t.jobs[id] == job && t.live == s.live)
      && (job.status !in {Succeeded, Failed, Skipped} ==>
            && (t.jobs[id].status == Failed <==> found == SourceMissing)
            && (t.jobs[id].status == Running <==>
                  found == LockFree
                  && !exists other | other in s.jobs && other != id ::
                       s.jobs[other].source == job.source && s.jobs[other].status == Running)
            && t.jobs[id].status in {Failed, Running, Skipped}
            && (t.jobs[id].status == Running ==>
                  && id in t.live
                  && (Enabled(t, RecoverLive(id, later)) <==> now + 900 < later)))
  {
  }

  /** A recovered job waits for another attempt just while there is one left, with the same pause, and has failed
      otherwise, whether its worker lives or not. */
  lemma RecoveryDecides(s: State, id: nat, now: Time, later: Time)
    requires id in s.jobs && StaleRunning(s.jobs[id], now) && id !in s.senders
    ensures var job := s.jobs[id];
      var t := Next(s, if id in s.live then RecoverLive(id, now) else Recover(id, now));
      && id in t.jobs && t.live == s.live && t.queue == s.queue
      && (t.jobs[id].status == RetryWait <==> job.attempt < job.maxAttempts)
      && (t.jobs[id].status == Failed <==> job.maxAttempts <= job.attempt)
      && (Enabled(t, Send(id, later)) <==> job.attempt < job.maxAttempts && now + Pause(job.attempt) <= later)
  {
  }

  // ---------- What the assumptions protect ----------

  function WithStatus(s: State, id: nat, status: Status): State
    requires id in s.jobs
  {
    s.(jobs := s.jobs[id := s.jobs[id].(status := status)])
  }

  /** A second delivery keeps the invariant exactly when no message for the job is under way or about to be and, if a
      worker is still collecting, the delivery starts collecting too, which only an expired lock allows. */
  lemma RedeliveryKeepsExactlyWhen(s: State, id: nat, found: Found, now: Time)
    requires Inv(s) && id in s.jobs
    ensures Inv(Next(s, Redeliver(id, found, now)))
            <==> && s.jobs[id].status != Queued && id !in s.senders
                 && (id in s.live ==> Started(s, id, found) == Running)
  {
    var t := Next(s, Redeliver(id, found, now));
    assert JobFits(s, id);
    OthersFit(s, Redeliver(id, found, now));
    assert JobFits(t, id) <==> && s.jobs[id].status != Queued && id !in s.senders
                               && (id in s.live ==> Started(s, id, found) == Running);
  }

  lemma OthersFit(s: State, step: Step)
    requires Enabled(s, step) && forall other: nat | other != Concerns(step) :: JobFits(s, other)
    ensures forall other: nat | other != Concerns(step) :: JobFits(Next(s, step), other)
  {
    forall other: nat | other != Concerns(step) ensures JobFits(Next(s, step), other) {
      assert JobFits(s, other);
      hide Next, Enabled;
      StepLeavesOthers(s, step, other);
      assert other in Next(s, step).jobs <==> Lookup(s.jobs, other).Some?;
      assert other in Next(s, step).senders <==> Lookup(s.senders, other).Some?;
    }
  }

  /** Recovering an old running job keeps the invariant exactly when its worker is gone. */
  lemma RecoveryKeepsExactlyWhen(s: State, id: nat, now: Time)
    requires Inv(s) && id in s.jobs && StaleRunning(s.jobs[id], now)
    ensures Inv(Next(s, if id in s.live then RecoverLive(id, now) else Recover(id, now))) <==> id !in s.live
  {
    assert JobFits(s, id);
    if id in s.live {
      assert !JobFits(Next(s, RecoverLive(id, now)), id);
    } else {
      StepKeepsInv(s, Recover(id, now));
    }
  }

  /** Taking a message keeps the invariant exactly when nobody is still to record its job as queued. */
  lemma DeliveryKeepsExactlyWhen(s: State, id: nat, found: Found, now: Time)
    requires Inv(s) && id in s.queue && id in s.jobs
    ensures Inv(Next(s, Deliver(id, found, now))) <==> id !in s.senders
  {
    assert JobFits(s, id);
    if id in s.senders {
      assert !JobFits(Next(s, Deliver(id, found, now)), id);
    } else {
      StepKeepsInv(s, Deliver(id, found, now));
    }
  }

  /** Whatever has happened to a job since its message was sent, recording it as queued puts it in order exactly while
      that message is untaken and no worker is collecting it. */
  lemma RecordKeepsExactlyWhen(s: State, id: nat)
    requires Enabled(s, RecordQueued(id)) && forall other: nat | other != id :: JobFits(s, other)
    requires 1 <= s.senders[id].attempt <= s.jobs[id].maxAttempts
    ensures Inv(Next(s, RecordQueued(id))) <==> s.queue[id] == 1 && id !in s.live
  {
    var t := Next(s, RecordQueued(id));
    OthersFit(s, RecordQueued(id));
    assert JobFits(t, id) <==> s.queue[id] == 1 && id !in s.live;
  }

  /** Stopping while queueing keeps the invariant exactly before the message is sent. */
  lemma SenderDeathKeepsExactlyWhen(s: State, id: nat)
    requires Inv(s) && id in s.senders
    ensures Inv(Next(s, SenderDies(id))) <==> s.senders[id] == ToSend
  {
    assert JobFits(s, id);
    if s.senders[id] == ToSend {
      StepKeepsInv(s, SenderDies(id));
    } else {
      assert !JobFits(Next(s, SenderDies(id)), id);
    }
  }

  // ---------- Runs outside the assumptions ----------

  lemma OneMoreStep(steps: seq<Step>, step: Step)
    requires Possible(steps) && Enabled(After(steps), step)
    ensures Possible(steps + [step]) && After(steps + [step]) == Next(After(steps), step)
  {
    assert (steps + [step])[..|steps|] == steps;
  }

  /** A new job whose message was sent and not yet recorded. */
  function Sending(id: nat, source: nat): seq<Step> {
    [Create(id, source, 3, 0)] + [Send(id, 0)]
  }

  lemma SendingRuns(id: nat, source: nat)
    ensures Possible(Sending(id, source))
    ensures After(Sending(id, source))
            == State(map[id := Job(source, Pending, 1, 3, 0, 0)], multiset{id}, {}, map[id := Sent(1)])
  {
    assert Possible([]) && After([]) == EMPTY;
    OneMoreStep([], Create(id, source, 3, 0));
    assert [] + [Create(id, source, 3, 0)] == [Create(id, source, 3, 0)];
    OneMoreStep([Create(id, source, 3, 0)], Send(id, 0));
  }

  /** A run after which the first worker of a job is collecting. */
  function Collecting(id: nat, source: nat): seq<Step> {
    Sending(id, source) + [RecordQueued(id)] + [Deliver(id, LockFree, 0)]
  }

  lemma CollectingRuns(id: nat, source: nat)
    ensures Possible(Collecting(id, source))
    ensures After(Collecting(id, source))
            == State(map[id := Job(source, Running, 1, 3, 0, 0)], multiset{}, {id}, map[])
  {
    SendingRuns(id, source);
    OneMoreStep(Sending(id, source), RecordQueued(id));
    OneMoreStep(Sending(id, source) + [RecordQueued(id)], Deliver(id, LockFree, 0));
  }

  /** No terminal status is final with a second delivery: that of a job whose worker holds the lock marks it SKIPPED,
      and the worker then marks the same job SUCCEEDED. */
  lemma SkippedJobCanSucceed(id: nat, source: nat)
    ensures var again := Collecting(id, source) + [Redeliver(id, LockHeld, 1)];
      var finished := again + [Finish(id, Collected, 2)];
      && Possible(finished)
      && HasStatus(After(again), id, Skipped) && id in After(again).live
      && HasStatus(After(finished), id, Succeeded)
  {
    var again := Collecting(id, source) + [Redeliver(id, LockHeld, 1)];
    CollectingRuns(id, source);
    OneMoreStep(Collecting(id, source), Redeliver(id, LockHeld, 1));
    OneMoreStep(again, Finish(id, Collected, 2));
  }

  /** Recovering a job whose worker lives starts a second attempt beside it; the first worker's end then leaves a
      message for a job that has succeeded. */
  lemma RecoveredJobCanSucceed(id: nat, source: nat)
    ensures var recovered := Collecting(id, source) + [RecoverLive(id, 901)];
      var retried := recovered + [Send(id, 931)] + [RecordQueued(id)];
      var finished := retried + [Finish(id, Collected, 932)];
      && Possible(finished)
      && HasStatus(After(retried), id, Queued) && After(retried).jobs[id].attempt == 2 && id in After(retried).live
      && HasStatus(After(finished), id, Succeeded) && id in After(finished).queue
  {
    var recovered := Collecting(id, source) + [RecoverLive(id, 901)];
    var retried := recovered + [Send(id, 931)] + [RecordQueued(id)];
    CollectingRuns(id, source);
    OneMoreStep(Collecting(id, source), RecoverLive(id, 901));
    OneMoreStep(recovered, Send(id, 931));
    OneMoreStep(recovered + [Send(id, 931)], RecordQueued(id));
    OneMoreStep(retried, Finish(id, Collected, 932));
  }

  /** If the worker takes the message and finishes before the status is recorded, the record overwrites the end of the
      job, new or retried, with a queued status that no message will ever move. */
  lemma LateRecordStrandsJob(s: State, id: nat, now: Time)
    requires Inv(s) && id in s.jobs && id in s.senders && s.senders[id].Sent? && !OtherRunning(s, id)
    ensures Enabled(s, Deliver(id, LockFree, now))
    ensures var taken := Next(s, Deliver(id, LockFree, now));
      && Enabled(taken, Finish(id, Collected, now))
      && var finished := Next(taken, Finish(id, Collected, now));
         && HasStatus(finished, id, Succeeded) && Enabled(finished, RecordQueued(id))
         && var late := Next(finished, RecordQueued(id));
            HasStatus(late, id, Queued) && !CanMove(late, id)
  {
    assert JobFits(s, id);
  }

  /** Such a state is reached by creating a job and sending its message. */
  lemma LateRecordHappens(id: nat, source: nat)
    ensures var finished := Sending(id, source) + [Deliver(id, LockFree, 0)] + [Finish(id, Collected, 0)];
      var steps := finished + [RecordQueued(id)];
      Possible(steps) && HasStatus(After(steps), id, Queued) && !CanMove(After(steps), id)
  {
    SendingRuns(id, source);
    var s := After(Sending(id, source));
    assert forall other: nat :: JobFits(s, other);
    assert !OtherRunning(s, id);
    LateRecordStrandsJob(s, id, 0);
    hide Next, CanMove, Enabled;
    OneMoreStep(Sending(id, source), Deliver(id, LockFree, 0));
    OneMoreStep(Sending(id, source) + [Deliver(id, LockFree, 0)], Finish(id, Collected, 0));
    OneMoreStep(Sending(id, source) + [Deliver(id, LockFree, 0)] + [Finish(id, Collected, 0)], RecordQueued(id));
  }

  /** Stopping between sending and recording leaves a due retry due: it is sent a second time. */
  lemma DeadSenderSendsTwice(s: State, id: nat, now: Time)
    requires Inv(s) && id in s.jobs && id !in s.senders && DueForRetry(s.jobs[id], now)
    ensures var stopped := Next(Next(s, Send(id, now)), SenderDies(id));
      Enabled(stopped, Send(id, now)) && Next(stopped, Send(id, now)).queue[id] == 2
  {
    assert JobFits(s, id);
  }

  // ---------- The running jobs of a source ----------

  ghost predicate OneRunning(s: State) {
    forall a, b | a in s.jobs && b in s.jobs && a != b && s.jobs[a].status == Running && s.jobs[b].status == Running ::
      s.jobs[a].source != s.jobs[b].source
  }

  lemma StepKeepsOneRunning(s: State, step: Step)
    requires OneRunning(s) && Enabled(s, step)
    ensures OneRunning(Next(s, step))
  {
    var t := Next(s, step);
    forall a, b | && a in t.jobs && b in t.jobs && a != b
                  && t.jobs[a].status == Running && t.jobs[b].status == Running
      ensures t.jobs[a].source != t.jobs[b].source
    {
      hide Next;
      if a != Concerns(step) {
        StepLeavesOthers(s, step, a);
      }
      if b != Concerns(step) {
        StepLeavesOthers(s, step, b);
      }
      StepStartsAlone(s, step);
    }
  }

  /** A step leaves its job running only if it was, or if no other job of the source is. */
  lemma StepStartsAlone(s: State, step: Step)
    requires Enabled(s, step)
    ensures var id, t := Concerns(step), Next(s, step);
      && (forall other | other in t.jobs && other != id :: other in s.jobs && t.jobs[other] == s.jobs[other])
      && (id in t.jobs && t.jobs[id].status == Running ==>
            && id in s.jobs && t.jobs[id].source == s.jobs[id].source
            && (s.jobs[id].status == Running || !OtherRunning(s, id)))
  {
  }

  /** Over every run, redeliveries, recoveries of living workers' jobs and late records included, at most one job of a
      source is marked running. */
  lemma {:induction false} OneRunningPerSource(steps: seq<Step>)
    requires Possible(steps)
    ensures OneRunning(After(steps))
  {
    if steps != [] {
      OneRunningPerSource(steps[..|steps| - 1]);
      StepKeepsOneRunning(After(steps[..|steps| - 1]), steps[|steps| - 1]);
    }
  }

  /** Over every tame run, two jobs that workers are collecting have different sources, whatever the locks do. */
  lemma CollectedSourcesDiffer(steps: seq<Step>, a: nat, b: nat)
    requires TameRun(steps) && a != b && a in After(steps).live && b in After(steps).live
    ensures var s := After(steps);
      a in s.jobs && b in s.jobs && s.jobs[a].source != s.jobs[b].source
  {
    hide After, Possible;
    var s := After(steps);
    RunKeepsInv(steps);
    assert JobFits(s, a) && JobFits(s, b);
    TameIsPossible(steps);
    OneRunningPerSource(steps);
  }

  /** A living worker is collecting another job of the same source. */
  ghost predicate WorkedOn(s: State, id: nat)
    requires id in s.jobs
  {
    exists other | other in s.live && other in s.jobs :: other != id && s.jobs[other].source == s.jobs[id].source
  }

  /** Beginning a job lets a second worker in beside a living one exactly when the job has not ended, the lock is free
      and no other job of the source is marked running, that of the living worker included. */
  lemma SecondWorkerExactlyWhen(s: State, id: nat, found: Found, now: Time)
    requires id in s.jobs && id !in s.live && WorkedOn(s, id)
    ensures id in Begun(s, id, found, now).live
            <==> && !Terminal(s.jobs[id].status) && found == LockFree
                 && forall other | other in s.jobs && other != id && s.jobs[other].source == s.jobs[id].source ::
                      s.jobs[other].status != Running
    ensures id in Begun(s, id, found, now).live ==> WorkedOn(Begun(s, id, found, now), id) && !Inv(s)
  {
    if id in Begun(s, id, found, now).live {
      var other :| other in s.live && other in s.jobs && other != id && s.jobs[other].source == s.jobs[id].source;
      assert !JobFits(s, other);
      assert other in Begun(s, id, found, now).live;
    }
  }

  lemma TameIsPossible(steps: seq<Step>)
    ensures TameRun(steps) ==> Possible(steps)
  {
  }

  /** A run goes on with a new job being created, sent and recorded. */
  function Queueing(steps: seq<Step>, id: nat, source: nat, now: Time): seq<Step> {
    steps + [Create(id, source, 3, now)] + [Send(id, now)] + [RecordQueued(id)]
  }

  lemma QueueingRuns(steps: seq<Step>, id: nat, source: nat, now: Time)
    requires Possible(steps) && id !in After(steps).jobs && id !in After(steps).senders
    ensures var s := After(steps);
      && Possible(Queueing(steps, id, source, now))
      && After(Queueing(steps, id, source, now))
         == State(s.jobs[id := Job(source, Queued, 1, 3, now, now)], s.queue + multiset{id}, s.live, s.senders)
  {
    hide Possible, After;
    var a := steps + [Create(id, source, 3, now)];
    OneMoreStep(steps, Create(id, source, 3, now));
    OneMoreStep(a, Send(id, now));
    OneMoreStep(a + [Send(id, now)], RecordQueued(id));
  }

  /** The job of a living worker is recovered, and another job of the source is queued and delivered. */
  function RecoveredBeside(first: nat, second: nat, source: nat): seq<Step> {
    Queueing(Collecting(first, source) + [RecoverLive(first, 901)], second, source, 901)
    + [Deliver(second, LockFree, 901)]
  }

  /** In this run two workers come to collect for one source. */
  lemma RecoveredSourceCollectedTwice(first: nat, second: nat, source: nat)
    requires first != second
    ensures var steps := RecoveredBeside(first, second, source);
      && Possible(steps) && After(steps).live == {first, second}
      && first in After(steps).jobs && second in After(steps).jobs
      && After(steps).jobs[first].source == After(steps).jobs[second].source == source
  {
    hide Collecting, Possible, After, Queueing;
    var recovered := Collecting(first, source) + [RecoverLive(first, 901)];
    CollectingRuns(first, source);
    OneMoreStep(Collecting(first, source), RecoverLive(first, 901));
    QueueingRuns(recovered, second, source, 901);
    OneMoreStep(Queueing(recovered, second, source, 901), Deliver(second, LockFree, 901));
  }

  // ---------- The job table ----------

  function DueRetries(jobs: map<nat, Job>, now: Time): set<nat> {
    set id | id in jobs && DueForRetry(jobs[id], now)
  }

  function Stale(jobs: map<nat, Job>, now: Time): set<nat> {
    set id | id in jobs && StaleRunning(jobs[id], now)
  }

  class JobTable {
    var jobs: map<nat, Job>
    var queue: multiset<nat>
    ghost var live: set<nat>
    ghost var senders: map<nat, Sender>

    ghost function Abstract(): State
      reads this
    {
      State(jobs, queue, live, senders)
    }

    ghost predicate Valid()
      reads this
    {
      Inv(Abstract())
    }

    constructor ()
      ensures Valid() && jobs == map[] && queue == multiset{} && live == {} && senders == map[]
    {
      jobs, queue, live, senders := map[], multiset{}, {}, map[];
    }

    /** The part of an execution that precedes collecting. */
    method BeginExecution(id: nat, found: Found, now: Time) returns (collecting: bool)
      requires Enabled(Abstract(), Deliver(id, found, now))
      modifies this
      ensures Abstract() == Next(old(Abstract()), Deliver(id, found, now))
      ensures old(Valid()) && id !in senders ==> Valid()
      ensures collecting <==> Started(old(Abstract()), id, found) == Running
    {
      if Inv(Abstract()) && id !in senders {
        StepKeepsInv(Abstract(), Deliver(id, found, now));
      }
      queue := queue - multiset{id};
      collecting := false;
      var job := jobs[id];
      if job.status == Succeeded || job.status == Failed || job.status == Skipped {
        assert jobs[id := job] == jobs;
        return;
      }
      if found == SourceMissing {
        jobs := jobs[id := job.(status := Failed)];
        return;
      }
      if found == SourceDisabled {
        jobs := jobs[id := job.(status := Skipped)];
        return;
      }
      var running := exists other | other in jobs ::
        other != id && jobs[other].source == job.source && jobs[other].status == Running;
      if running || found == LockHeld {
        jobs := jobs[id := job.(status := Skipped)];
        return;
      }
      jobs := jobs[id := job.(status := Running, startedAt := now)];
      live := live + {id};
      collecting := true;
    }

    /** The part of an execution that follows collecting. */
    method EndExecution(id: nat, outcome: Outcome, now: Time)
      requires Valid() && Enabled(Abstract(), Finish(id, outcome, now))
      modifies this
      ensures Valid() && Abstract() == Next(old(Abstract()), Finish(id, outcome, now))
    {
      StepKeepsInv(Abstract(), Finish(id, outcome, now));
      var job := jobs[id];
      if outcome == Collected {
        job := job.(status := Succeeded);
      } else if outcome == TransientFailure && job.attempt < job.maxAttempts {
        job := job.(status := RetryWait, scheduledFor := now + RetryBackoff(job.attempt));
      } else {
        job := job.(status := Failed);
      }
      jobs := jobs[id := job];
      live := live - {id};
    }

    /** The message first, the status in a later commit. */
    method EnqueueJob(id: nat, attempt: nat, now: Time)
      requires Valid() && MaySend(Abstract(), id, now)
      requires attempt == if id in senders then jobs[id].attempt else jobs[id].attempt + 1
      modifies this`jobs, this`queue, this`senders
      ensures Valid()
      ensures jobs == old(jobs)[id := old(jobs)[id].(status := Queued, attempt := attempt)]
      ensures queue == old(queue) + multiset{id} && senders == old(senders) - {id}
    {
      StepKeepsInv(Abstract(), Send(id, now));
      queue, senders := queue + multiset{id}, senders[id := Sent(attempt)];
      StepKeepsInv(Abstract(), RecordQueued(id));
      jobs, senders := jobs[id := jobs[id].(status := Queued, attempt := attempt)], senders - {id};
    }

    /** Every job whose pause is over gets its next attempt and one message; no other job changes. */
    method EnqueueDueRetries(now: Time)
      requires Valid() && DueRetries(jobs, now) !! senders.Keys
      modifies this`jobs, this`queue, this`senders
      ensures Valid() && jobs.Keys == old(jobs).Keys && senders == old(senders)
      ensures forall id | id in jobs ::
                jobs[id] == if DueForRetry(old(jobs)[id], now)
                            then old(jobs)[id].(status := Queued, attempt := old(jobs)[id].attempt + 1)
                            else old(jobs)[id]
    {
      var todo := DueRetries(jobs, now);
      while todo != {}
        invariant Valid() && jobs.Keys == old(jobs).Keys && todo <= DueRetries(old(jobs), now)
        invariant senders == old(senders)
        invariant forall id | id in jobs ::
                    jobs[id] == if DueForRetry(old(jobs)[id], now) && id !in todo
                                then old(jobs)[id].(status := Queued, attempt := old(jobs)[id].attempt + 1)
                                else old(jobs)[id]
      {
        hide Inv;
        var id :| id in todo;
        todo := todo - {id};
        EnqueueJob(id, jobs[id].attempt + 1, now);
      }
    }

    /** Every stale running job waits for another attempt or fails, whether or not its worker lives. */
    method RecoverStaleRunningJobs(now: Time)
      requires Valid()
      modifies this`jobs
      ensures Stale(old(jobs), now) !! live ==> Valid()
      ensures jobs.Keys == old(jobs).Keys
      ensures forall id | id in jobs ::
                jobs[id] == if StaleRunning(old(jobs)[id], now) then Classified(old(jobs)[id], true, now)
                            else old(jobs)[id]
    {
      var todo := Stale(jobs, now);
      while todo != {}
        invariant jobs.Keys == old(jobs).Keys && todo <= Stale(old(jobs), now)
        invariant Stale(old(jobs), now) !! live ==> Valid()
        invariant forall id | id in jobs ::
                    jobs[id] == if StaleRunning(old(jobs)[id], now) && id !in todo
                                then Classified(old(jobs)[id], true, now)
                                else old(jobs)[id]
      {
        hide Inv;
        var id :| id in todo;
        todo := todo - {id};
        if Stale(old(jobs), now) !! live {
          StepKeepsInv(Abstract(), Recover(id, now));
        }
        var job := jobs[id];
        if job.attempt < job.maxAttempts {
          job := job.(status := RetryWait, scheduledFor := now + RetryBackoff(job.attempt));
        } else {
          job := job.(status := Failed);
        }
        jobs := jobs[id := job];
      }
    }
  }
}
