/**
 The scheduler of collection jobs: when a source is due, one job is created for its slot and the slot moves on to the
 first later point of its grid that lies in the future.
 */
module Scheduling {
  import opened Arithmetic
  import opened Common

  datatype Source = Source(interval: Time, jitter: Time, next: Option<Time>)

  datatype JobType = Scheduled | ManualIncremental | ManualBackfill | Retry

  /** The idempotency key of a job: source, scheduled time and type. */
  datatype Key = Key(source: nat, at: Time, jobType: JobType)

  /** The source has a usable interval; jitter is a function of the source alone. */
  predicate Usable(s: Source) {
    0 < s.interval && 0 <= s.jitter
  }

  predicate OnGrid(base: Time, interval: Time, p: Time)
    requires 0 < interval
  {
    (p - base) % interval == 0
  }

  /** `next` is the first point of the grid after `slot` that is strictly after `now`. */
  ghost predicate IsNextSlot(slot: Time, interval: Time, now: Time, next: Time)
    requires 0 < interval
  {
    && slot < next && now < next && OnGrid(slot, interval, next)
    && forall p | slot < p && now < p && OnGrid(slot, interval, p) :: next <= p
  }

  lemma MultipleOnGrid(base: Time, interval: Time, k: int)
    requires 0 < interval
    ensures OnGrid(base, interval, base + k * interval)
  {
    MultipleHasNoRemainder(k, interval);
  }

  /** No grid point lies strictly between two consecutive ones. */
  lemma GridGap(base: Time, interval: Time, p: Time, q: Time)
    requires 0 < interval && OnGrid(base, interval, p) && OnGrid(base, interval, q) && p < q
    ensures p + interval <= q
  {
    MultiplesAreApart(p - base, q - base, interval);
  }

  /** Grids with bases on one grid are the same grid. */
  lemma GridShift(base: Time, interval: Time, slot: Time, p: Time)
    requires 0 < interval && OnGrid(base, interval, slot) && OnGrid(slot, interval, p)
    ensures OnGrid(base, interval, p)
  {
    SumOfMultiples(slot - base, p - slot, interval);
  }

  lemma NextSlotUnique(slot: Time, interval: Time, now: Time, a: Time, b: Time)
    requires 0 < interval && IsNextSlot(slot, interval, now, a) && IsNextSlot(slot, interval, now, b)
    ensures a == b
  {
  }

  lemma FirstStepBeyondNow(slot: Time, interval: Time, now: Time, k: int)
    requires 0 < interval && 1 <= k && now < slot + k * interval
    requires k == 1 || slot + (k - 1) * interval <= now
    ensures IsNextSlot(slot, interval, now, slot + k * interval)
  {
    var next, previous := slot + k * interval, slot + (k - 1) * interval;
    assert next == previous + interval;
    MultipleOnGrid(slot, interval, k);
    MultipleOnGrid(slot, interval, k - 1);
    MulMonotone(1, k, interval);
    forall p | slot < p && now < p && OnGrid(slot, interval, p) ensures next <= p {
      GridGap(slot, interval, previous, p);
    }
  }

  /** The slot that the loop of `NextFutureSlot` ends at. */
  function NextSlot(slot: Time, interval: Time, now: Time): (next: Time)
    requires 0 < interval
    ensures IsNextSlot(slot, interval, now, next)
  {
    var k := if slot + interval > now then 1 else (now - slot) / interval + 1;
    FirstStepBeyondNow(slot, interval, now, k);
    slot + k * interval
  }

  /** The loop of the program; it has no guard against an interval that is not positive, and ends without one only if
      the first step already reaches the future. */
  method NextFutureSlot(scheduledFor: Time, interval: Time, now: Time) returns (nextAt: Time)
    requires 0 < interval || now < scheduledFor + interval
    ensures nextAt == if 0 < interval then NextSlot(scheduledFor, interval, now) else scheduledFor + interval
  {
    ghost var k := 1;
    nextAt := scheduledFor + interval;
    while nextAt <= now
      invariant 1 <= k && nextAt == scheduledFor + k * interval
      invariant k == 1 || (0 < interval && nextAt - interval <= now)
      decreases now - nextAt
    {
      assert (k + 1) * interval == k * interval + interval;
      nextAt := nextAt + interval;
      k := k + 1;
    }
    if 0 < interval {
      assert (k - 1) * interval == k * interval - interval;
      FirstStepBeyondNow(scheduledFor, interval, now, k);
      NextSlotUnique(scheduledFor, interval, now, nextAt, NextSlot(scheduledFor, interval, now));
    }
  }

  /** Without a positive interval and with the first step not in the future, no number of steps gets there. */
  lemma LoopNeverEnds(scheduledFor: Time, interval: Time, now: Time, k: nat)
    requires interval <= 0 && scheduledFor + interval <= now && 1 <= k
    ensures scheduledFor + k * interval <= now
  {
  }

  // ---------- One source over a run of ticks ----------

  predicate Due(s: Source, now: Time) {
    s.next == None || s.next.value <= now
  }

  function SlotOf(s: Source, now: Time): Time {
    if s.next.Some? then s.next.value else now
  }

  /** A slot that is more than an interval late is scheduled for now. */
  function ScheduledFor(s: Source, now: Time): Time {
    (if SlotOf(s, now) < now - s.interval then now else SlotOf(s, now)) + s.jitter
  }

  function Ticked(s: Source, now: Time): (r: Source)
    requires Usable(s)
    ensures Usable(r)
  {
    if Due(s, now) then s.(next := Some(NextSlot(SlotOf(s, now), s.interval, now))) else s
  }

  /** A job created at `tick` for `slot`. */
  datatype Fired = Fired(tick: Time, slot: Time, scheduled: Time)

  ghost predicate NonDecreasing(ticks: seq<Time>) {
    forall i, j | 0 <= i < j < |ticks| :: ticks[i] <= ticks[j]
  }

  function After(s: Source, ticks: seq<Time>): (r: Source)
    requires Usable(s)
    ensures Usable(r) && r.interval == s.interval && r.jitter == s.jitter
  {
    if ticks == [] then s else Ticked(After(s, ticks[..|ticks| - 1]), ticks[|ticks| - 1])
  }

  function Jobs(s: Source, ticks: seq<Time>): seq<Fired>
    requires Usable(s)
  {
    if ticks == [] then [] else
      var before, now := After(s, ticks[..|ticks| - 1]), ticks[|ticks| - 1];
      Jobs(s, ticks[..|ticks| - 1])
      + if Due(before, now) then [Fired(now, SlotOf(before, now), ScheduledFor(before, now))] else []
  }

  /** Each job's slot is due and on the grid of the first; each later slot lies after the tick that served the earlier
      one, at least an interval after its slot; scheduled times increase with them. */
  ghost predicate WellSpaced(fired: seq<Fired>, interval: Time, jitter: Time)
    requires 0 < interval
  {
    && (forall i | 0 <= i < |fired| ::
          && fired[i].slot <= fired[i].tick
          && fired[i].slot <= fired[i].scheduled - jitter <= fired[i].tick
          && OnGrid(fired[0].slot, interval, fired[i].slot))
    && (forall i, j | 0 <= i < j < |fired| ::
          fired[i].tick < fired[j].slot && fired[i].slot + interval <= fired[j].slot)
  }

  /** The next slot lies after everything that the jobs so far have served, on their grid. */
  ghost predicate NextFollows(fired: seq<Fired>, next: Option<Time>, interval: Time)
    requires 0 < interval
  {
    fired != [] ==>
      && next.Some? && OnGrid(fired[0].slot, interval, next.value)
      && forall i | 0 <= i < |fired| :: fired[i].tick < next.value && fired[i].slot + interval <= next.value
  }

  lemma FiredExtend(fired: seq<Fired>, s: Source, now: Time)
    requires Usable(s) && Due(s, now)
    requires WellSpaced(fired, s.interval, s.jitter) && NextFollows(fired, s.next, s.interval)
    requires forall i | 0 <= i < |fired| :: fired[i].tick <= now
    ensures var longer := fired + [Fired(now, SlotOf(s, now), ScheduledFor(s, now))];
            WellSpaced(longer, s.interval, s.jitter) && NextFollows(longer, Ticked(s, now).next, s.interval)
  {
    var slot, next := SlotOf(s, now), NextSlot(SlotOf(s, now), s.interval, now);
    MultipleOnGrid(slot, s.interval, 0);
    GridGap(slot, s.interval, slot, next);
    if fired != [] {
      GridShift(fired[0].slot, s.interval, slot, next);
    }
    hide OnGrid, NextSlot;
  }

  lemma {:induction false} JobsWellSpaced(s: Source, ticks: seq<Time>)
    requires Usable(s) && NonDecreasing(ticks)
    ensures WellSpaced(Jobs(s, ticks), s.interval, s.jitter)
    ensures NextFollows(Jobs(s, ticks), After(s, ticks).next, s.interval)
    ensures forall i | 0 <= i < |Jobs(s, ticks)| :: ticks != [] && Jobs(s, ticks)[i].tick <= ticks[|ticks| - 1]
  {
    if ticks != [] {
      var front, now := ticks[..|ticks| - 1], ticks[|ticks| - 1];
      JobsWellSpaced(s, front);
      var fired, before := Jobs(s, front), After(s, front);
      forall i | 0 <= i < |fired| ensures fired[i].tick <= now {
        assert fired[i].tick <= front[|front| - 1] == ticks[|front| - 1] <= now;
      }
      if Due(before, now) {
        hide WellSpaced, NextFollows, Due, SlotOf, ScheduledFor;
        FiredExtend(fired, before, now);
      }
    }
  }

  /** No two scheduled jobs of a source get the same idempotency key, whatever ticks were missed or repeated. */
  lemma ScheduledKeysDistinct(s: Source, ticks: seq<Time>, id: nat, i: nat, j: nat)
    requires Usable(s) && NonDecreasing(ticks)
    requires i < j < |Jobs(s, ticks)|
    ensures Key(id, Jobs(s, ticks)[i].scheduled, Scheduled) != Key(id, Jobs(s, ticks)[j].scheduled, Scheduled)
    ensures Jobs(s, ticks)[i].scheduled < Jobs(s, ticks)[j].scheduled
  {
    JobsWellSpaced(s, ticks);
  }

  lemma {:induction false} SlotsSpread(fired: seq<Fired>, interval: Time, jitter: Time, i: nat, j: nat)
    requires 0 < interval && WellSpaced(fired, interval, jitter) && i <= j < |fired|
    ensures fired[i].slot + (j - i) * interval <= fired[j].slot
    decreases j - i
  {
    if i < j {
      SlotsSpread(fired, interval, jitter, i, j - 1);
      assert fired[j - 1].slot + interval <= fired[j].slot;
      assert (j - i) * interval == (j - 1 - i) * interval + interval;
    }
  }

  /** In every window that starts and ends with a job, all jobs but two fit strictly into the elapsed time. */
  lemma JobsInWindow(s: Source, ticks: seq<Time>, i: nat, j: nat)
    requires Usable(s) && NonDecreasing(ticks) && i < j < |Jobs(s, ticks)|
    ensures var fired := Jobs(s, ticks); (j - i - 1) * s.interval < fired[j].tick - fired[i].tick
  {
    hide Jobs, OnGrid;
    var fired := Jobs(s, ticks);
    JobsWellSpaced(s, ticks);
    SlotsSpread(fired, s.interval, s.jitter, i + 1, j);
    assert fired[i].tick < fired[i + 1].slot && fired[j].slot <= fired[j].tick;
    var gaps := j - (i + 1);
    assert gaps == j - i - 1;
  }

  /** One job at the start and at most one more for each full interval elapsed. */
  ghost predicate OnePerInterval(fired: seq<Fired>, interval: Time) {
    fired != [] ==> (|fired| - 1) * interval <= fired[|fired| - 1].tick - fired[0].tick
  }

  lemma {:induction false} FirstTickFires(s: Source, now: Time, ticks: seq<Time>)
    requires Usable(s) && Due(s, now)
    ensures Jobs(s, [now] + ticks) != []
    ensures Jobs(s, [now] + ticks)[0] == Fired(now, SlotOf(s, now), ScheduledFor(s, now))
  {
    if ticks == [] {
      assert [now] + ticks == [now] && [now][..0] == [];
      assert After(s, []) == s;
    } else {
      assert ([now] + ticks)[..|ticks|] == [now] + ticks[..|ticks| - 1];
      FirstTickFires(s, now, ticks[..|ticks| - 1]);
    }
  }

  lemma OnTimeTickBounds(s: Source, now: Time, ticks: seq<Time>)
    requires Usable(s) && Due(s, now) && OnGrid(SlotOf(s, now), s.interval, now) && NonDecreasing([now] + ticks)
    ensures OnePerInterval(Jobs(s, [now] + ticks), s.interval)
  {
    var fired := Jobs(s, [now] + ticks);
    FirstTickFires(s, now, ticks);
    JobsWellSpaced(s, [now] + ticks);
    hide Jobs, OnGrid;
    if |fired| > 1 {
      var last := |fired| - 1;
      GridGap(SlotOf(s, now), s.interval, now, fired[1].slot);
      SlotsSpread(fired, s.interval, s.jitter, 1, last);
      assert last * s.interval == (last - 1) * s.interval + s.interval;
    }
  }

  /** The jobs created from a due tick on are bounded by one per elapsed interval plus one, for every continuation,
      exactly when that tick is itself on the grid; a late tick can be followed by the next slot too soon. */
  lemma OnePerIntervalExactlyWhen(s: Source, now: Time)
    requires Usable(s) && Due(s, now)
    ensures (forall ticks | NonDecreasing([now] + ticks) :: OnePerInterval(Jobs(s, [now] + ticks), s.interval))
       <==> OnGrid(SlotOf(s, now), s.interval, now)
  {
    if OnGrid(SlotOf(s, now), s.interval, now) {
      forall ticks | NonDecreasing([now] + ticks) ensures OnePerInterval(Jobs(s, [now] + ticks), s.interval) {
        OnTimeTickBounds(s, now, ticks);
      }
    } else {
      var next := NextSlot(SlotOf(s, now), s.interval, now);
      LateTickIsFollowedTooSoon(s, now);
      hide Jobs, OnGrid;
      assert NonDecreasing([now] + [next]) && !OnePerInterval(Jobs(s, [now] + [next]), s.interval);
    }
  }

  lemma LateTickIsFollowedTooSoon(s: Source, now: Time)
    requires Usable(s) && Due(s, now) && !OnGrid(SlotOf(s, now), s.interval, now)
    ensures var next := NextSlot(SlotOf(s, now), s.interval, now);
            && now < next && |Jobs(s, [now] + [next])| == 2
            && Jobs(s, [now] + [next])[0].tick == now && Jobs(s, [now] + [next])[1].tick == next
            && next - now < s.interval
  {
    var slot := SlotOf(s, now);
    var next := NextSlot(slot, s.interval, now);
    assert ([now] + [next])[..1] == [now] && [now][..0] == [];
    assert After(s, []) == s && After(s, [now]) == Ticked(s, now);
    FirstTickFires(s, now, []);
    assert [now] + [] == [now];
    var k := (next - slot) / s.interval;
    MultipleOnGrid(slot, s.interval, k - 1);
    assert next - s.interval == slot + (k - 1) * s.interval;
    MultipleOnGrid(slot, s.interval, 0);
    GridGap(slot, s.interval, slot, next);
  }

  /** A job is scheduled for its slot, or for the tick if the slot is more than an interval late by then. So if a tick
      stops before the slot has moved on, a later one finds the key in use exactly while the slot is not that late. */
  lemma KeyRepeatsExactlyWhen(s: Source, slot: Time, now: Time, later: Time)
    requires Usable(s) && s.next == Some(slot) && Due(s, now) && now < later
    ensures ScheduledFor(s, now) == ScheduledFor(s, later) <==> later <= slot + s.interval
    ensures later <= slot + s.interval ==> ScheduledFor(s, later) == slot + s.jitter
    ensures later - s.interval <= ScheduledFor(s, later) - s.jitter <= later
  {
  }

  // ---------- The scheduler ----------

  function KeyFor(sources: map<nat, Source>, id: nat, now: Time): Key
    requires id in sources
  {
    Key(id, ScheduledFor(sources[id], now), Scheduled)
  }

  function DueIds(sources: map<nat, Source>, now: Time): set<nat> {
    set id | id in sources && Due(sources[id], now)
  }

  function TickedAll(sources: map<nat, Source>, ids: set<nat>, now: Time): (after: map<nat, Source>)
    requires forall id | id in sources :: Usable(sources[id])
    ensures after.Keys == sources.Keys && forall id | id in after :: Usable(after[id])
  {
    map id | id in sources :: if id in ids then Ticked(sources[id], now) else sources[id]
  }

  /** The jobs are those from before and one for the slot of each source in `ids`. */
  ghost predicate JobsAdded(before: set<Key>, after: set<Key>, sources: map<nat, Source>, ids: set<nat>, now: Time)
    requires ids <= sources.Keys
  {
    forall key :: key in after <==> key in before || (key.source in ids && key == KeyFor(sources, key.source, now))
  }

  /** A tick adds jobs of the scheduled kind only, each for a due source and within an interval of the tick. */
  lemma AddedJobsAreTimely(before: set<Key>, after: set<Key>, sources: map<nat, Source>, now: Time, key: Key)
    requires forall id | id in sources :: Usable(sources[id])
    requires JobsAdded(before, after, sources, DueIds(sources, now), now) && key in after && key !in before
    ensures key.jobType == Scheduled && key.source in sources
    ensures var s := sources[key.source];
      && (s.next.Some? ==> s.next.value <= now)
      && now - s.interval <= key.at - s.jitter <= now
      && (s.next.Some? && now <= s.next.value + s.interval ==> key.at == s.next.value + s.jitter)
  {
  }

  lemma TickedExtend(sources: map<nat, Source>, done: set<nat>, id: nat, now: Time)
    requires forall id | id in sources :: Usable(sources[id])
    requires done <= sources.Keys && id in sources && id !in done
    ensures TickedAll(sources, done, now)[id] == sources[id]
    ensures TickedAll(sources, done, now)[id := Ticked(sources[id], now)] == TickedAll(sources, done + {id}, now)
  {
  }

  lemma JobsExtend(before: set<Key>, after: set<Key>, sources: map<nat, Source>, done: set<nat>, id: nat, now: Time)
    requires done <= sources.Keys && id in sources && JobsAdded(before, after, sources, done, now)
    ensures JobsAdded(before, after + {KeyFor(sources, id, now)}, sources, done + {id}, now)
    ensures before <= after
  {
  }

  function NewKeys(jobs: set<Key>, key: Key): seq<Key> {
    if key in jobs then [] else [key]
  }

  /** The queue grew by each of the fresh keys, once. */
  ghost predicate Enqueued(before: seq<Key>, after: seq<Key>, added: set<Key>) {
    && before <= after
    && |after| == |before| + |added|
    && forall key :: key in added <==> key in after[|before|..]
  }

  lemma NewKeysEnqueued(before: seq<Key>, queue: seq<Key>, start: set<Key>, jobs: set<Key>, key: Key)
    requires start <= jobs && Enqueued(before, queue, jobs - start)
    ensures Enqueued(before, queue + NewKeys(jobs, key), jobs + {key} - start)
  {
    var after := queue + NewKeys(jobs, key);
    assert after[|before|..] == queue[|before|..] + NewKeys(jobs, key);
    if key in jobs {
      assert jobs + {key} - start == jobs - start;
    } else {
      assert jobs + {key} - start == (jobs - start) + {key};
    }
  }

  class Scheduler {
    var sources: map<nat, Source>
    var jobs: set<Key>
    var queue: seq<Key>

    ghost predicate Valid()
      reads this
    {
      forall id | id in sources :: Usable(sources[id])
    }

    constructor ()
      ensures Valid() && sources == map[] && jobs == {} && queue == []
    {
      sources, jobs, queue := map[], {}, [];
    }

    method CreateJob(key: Key) returns (created: bool)
      modifies this`jobs
      ensures created <==> key !in old(jobs)
      ensures jobs == old(jobs) + {key}
    {
      created := key !in jobs;
      jobs := jobs + {key};
    }

    /** One turn of the loop over the due sources. */
    method TickSource(id: nat, now: Time)
      requires id in sources && Usable(sources[id]) && Due(sources[id], now)
      modifies this
      ensures sources == old(sources)[id := Ticked(old(sources)[id], now)]
      ensures jobs == old(jobs) + {KeyFor(old(sources), id, now)}
      ensures queue == old(queue) + NewKeys(old(jobs), KeyFor(old(sources), id, now))
    {
      var s := sources[id];
      var key := Key(id, ScheduledFor(s, now), Scheduled);
      var created := CreateJob(key);
      queue := queue + if created then [key] else [];
      var next := NextFutureSlot(SlotOf(s, now), s.interval, now);
      sources := sources[id := s.(next := Some(next))];
    }

    /** The tables after the sources `done` have been served, from their values at the start of a tick. */
    ghost predicate Served(sources0: map<nat, Source>, jobs0: set<Key>, queue0: seq<Key>, done: set<nat>, now: Time)
      requires done <= sources0.Keys && forall id | id in sources0 :: Usable(sources0[id])
      reads this
    {
      && Valid()
      && sources == TickedAll(sources0, done, now)
      && JobsAdded(jobs0, jobs, sources0, done, now)
      && Enqueued(queue0, queue, jobs - jobs0)
    }

    method ServeSource(ghost sources0: map<nat, Source>, ghost jobs0: set<Key>, ghost queue0: seq<Key>,
                       ghost done: set<nat>, id: nat, now: Time)
      requires done <= sources0.Keys && forall id | id in sources0 :: Usable(sources0[id])
      requires Served(sources0, jobs0, queue0, done, now)
      requires id in sources0 && id !in done && Due(sources0[id], now)
      modifies this
      ensures Served(sources0, jobs0, queue0, done + {id}, now)
    {
      hide JobsAdded, TickedAll, Due, Ticked, ScheduledFor, NewKeys, Enqueued;
      TickedExtend(sources0, done, id, now);
      JobsExtend(jobs0, jobs, sources0, done, id, now);
      NewKeysEnqueued(queue0, queue, jobs0, jobs, KeyFor(sources0, id, now));
      TickSource(id, now);
    }

    lemma NothingServed(now: Time)
      requires Valid()
      ensures Served(sources, jobs, queue, {}, now)
    {
    }

    /** Each due source gets at most one job, however many slots it has missed, and only new jobs are queued, once. */
    method Tick(now: Time)
      requires Valid()
      modifies this
      ensures Valid()
      ensures Served(old(sources), old(jobs), old(queue), DueIds(old(sources), now), now)
    {
      ghost var sources0, jobs0, queue0 := sources, jobs, queue;
      ghost var due := DueIds(sources, now);
      var todo := DueIds(sources, now);
      ghost var done: set<nat> := {};
      NothingServed(now);
      assert forall id | id in due :: id in sources0 && Due(sources0[id], now);
      while todo != {}
        invariant done !! todo && done + todo == due
        invariant Served(sources0, jobs0, queue0, done, now)
      {
        hide Served, JobsAdded, TickedAll, Due;
        var id :| id in todo;
        todo := todo - {id};
        ServeSource(sources0, jobs0, queue0, done, id, now);
        done := done + {id};
      }
      assert done == due;
    }
  }
}
