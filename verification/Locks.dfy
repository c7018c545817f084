/**
 The lock that keeps the collection of one source to one worker: a shared store with set-if-absent, expiry, and a
 release that deletes the entry only if it still carries the releasing worker's token.

 Workers interleave freely with each other and with the clock, and may die without releasing. Only the lock is modelled
 here, not what else an execution does before and while it holds it.
 */
module Locks {
  import opened Common

  datatype Entry = Entry(token: nat, expiresAt: Time)

  type Entries = map<nat, Entry>

  /** The store forgets an entry at its expiry. */
  predicate Live(entries: Entries, source: nat, now: Time) {
    source in entries && now < entries[source].expiresAt
  }

  function Acquired(entries: Entries, source: nat, token: nat, now: Time, ttl: nat): Entries {
    if Live(entries, source, now) then entries else entries[source := Entry(token, now + ttl)]
  }

  function Released(entries: Entries, source: nat, token: nat, now: Time): Entries {
    if Live(entries, source, now) && entries[source].token == token then entries - {source} else entries
  }

  /** The shared store that lock objects work on. */
  class LockStore {
    var now: Time
    var entries: Entries

    constructor (now: Time)
      ensures this.now == now && entries == map[]
    {
      this.now, entries := now, map[];
    }
  }

  class SourceLock {
    const store: LockStore
    const source: nat
    const token: nat
    const ttl: nat

    constructor (store: LockStore, source: nat, token: nat, ttl: nat)
      ensures this.store == store && this.source == source && this.token == token && this.ttl == ttl
    {
      this.store, this.source, this.token, this.ttl := store, source, token, ttl;
    }

    method Acquire() returns (ok: bool)
      modifies store`entries
      ensures ok <==> !Live(old(store.entries), source, store.now)
      ensures store.entries == Acquired(old(store.entries), source, token, store.now, ttl)
    {
      ok := !(source in store.entries && store.now < store.entries[source].expiresAt);
      if ok {
        store.entries := store.entries[source := Entry(token, store.now + ttl)];
      }
    }

    method Release()
      modifies store`entries
      ensures store.entries == Released(old(store.entries), source, token, store.now)
    {
      if source in store.entries && store.now < store.entries[source].expiresAt
        && store.entries[source].token == token {
        store.entries := store.entries - {source};
      }
    }
  }

  // ---------- Interleavings ----------

  datatype Worker = Outside | Inside(source: nat, token: nat, acquiredAt: Time)

  /** `issued` are the tokens drawn so far; a new lock object always draws a new one. */
  datatype State = State(now: Time, entries: Entries, workers: map<nat, Worker>, issued: set<nat>)

  datatype Step =
    | Wait(delay: nat)
    | Enter(worker: nat, source: nat, token: nat)
    | Leave(worker: nat)
    | Die(worker: nat)

  function PhaseOf(s: State, worker: nat): Worker {
    if worker in s.workers then s.workers[worker] else Outside
  }

  predicate Enabled(s: State, step: Step) {
    match step
    case Wait(_) => true
    case Enter(worker, _, token) => PhaseOf(s, worker) == Outside && token !in s.issued
    case Leave(worker) => PhaseOf(s, worker).Inside?
    case Die(worker) => PhaseOf(s, worker).Inside?
  }

  /** A worker that fails to acquire stays outside: its job is skipped. */
  function Next(s: State, step: Step, ttl: nat): State
    requires Enabled(s, step)
  {
    match step
    case Wait(delay) => s.(now := s.now + delay)
    case Enter(worker, source, token) =>
      s.(entries := Acquired(s.entries, source, token, s.now, ttl),
         workers := s.workers[worker := if Live(s.entries, source, s.now) then Outside
                                        else Inside(source, token, s.now)],
         issued := s.issued + {token})
    case Leave(worker) =>
      s.(entries := Released(s.entries, s.workers[worker].source, s.workers[worker].token, s.now),
         workers := s.workers[worker := Outside])
    case Die(worker) => s.(workers := s.workers[worker := Outside])
  }

  ghost predicate Possible(s: State, steps: seq<Step>, ttl: nat)
    decreases steps, 0
  {
    steps != [] ==>
      Possible(s, steps[..|steps| - 1], ttl) && Enabled(After(s, steps[..|steps| - 1], ttl), steps[|steps| - 1])
  }

  ghost function After(s: State, steps: seq<Step>, ttl: nat): State
    requires Possible(s, steps, ttl)
    decreases steps, 1
  {
    if steps == [] then s else Next(After(s, steps[..|steps| - 1], ttl), steps[|steps| - 1], ttl)
  }

  function Initial(now: Time): State {
    State(now, map[], map[], {})
  }

  /** The worker has been inside for at least the lifetime of its lock. */
  predicate Overstayed(s: State, worker: nat, ttl: nat) {
    PhaseOf(s, worker).Inside? && PhaseOf(s, worker).acquiredAt + ttl <= s.now
  }

  ghost predicate Inv(s: State, ttl: nat) {
    && (forall w | w in s.workers && s.workers[w].Inside? :: s.workers[w].token in s.issued)
    && (forall w | w in s.workers && s.workers[w].Inside? && s.now < s.workers[w].acquiredAt + ttl ::
          && s.workers[w].source in s.entries
          && s.entries[s.workers[w].source] == Entry(s.workers[w].token, s.workers[w].acquiredAt + ttl))
    && (forall v, w | v in s.workers && w in s.workers && v != w && s.workers[v].Inside? && s.workers[w].Inside? ::
          s.workers[v].token != s.workers[w].token)
    && (forall source | source in s.entries :: s.entries[source].expiresAt <= s.now + ttl)
  }

  lemma StepKeepsInv(s: State, step: Step, ttl: nat)
    requires Inv(s, ttl) && Enabled(s, step)
    ensures Inv(Next(s, step, ttl), ttl)
  {
  }

  lemma {:induction false} RunKeepsInv(now: Time, steps: seq<Step>, ttl: nat)
    requires Possible(Initial(now), steps, ttl)
    ensures Inv(After(Initial(now), steps, ttl), ttl)
  {
    if steps != [] {
      RunKeepsInv(now, steps[..|steps| - 1], ttl);
      StepKeepsInv(After(Initial(now), steps[..|steps| - 1], ttl), steps[|steps| - 1], ttl);
    }
  }

  /** In every state that the lock alone allows, of two workers inside for one source at least one has outlived its
      lock. */
  lemma TwoInsideMeansOneOverstayed(now: Time, steps: seq<Step>, ttl: nat, v: nat, w: nat)
    requires Possible(Initial(now), steps, ttl)
    requires var s := After(Initial(now), steps, ttl);
             v != w && PhaseOf(s, v).Inside? && PhaseOf(s, w).Inside? && PhaseOf(s, v).source == PhaseOf(s, w).source
    ensures var s := After(Initial(now), steps, ttl); Overstayed(s, v, ttl) || Overstayed(s, w, ttl)
  {
    RunKeepsInv(now, steps, ttl);
  }

  /** On the lock's own steps, which know nothing of jobs, the lifetime is all that exclusion rests on. An execution
      also looks for running jobs of the source before it takes the lock; module `CollectingSection` has both. */
  lemma OverstayingBreaksExclusion(now: Time, ttl: nat, source: nat)
    ensures var steps := [Enter(1, source, 10), Wait(ttl), Enter(2, source, 20)];
            && Possible(Initial(now), steps, ttl)
            && PhaseOf(After(Initial(now), steps, ttl), 1) == Inside(source, 10, now)
            && PhaseOf(After(Initial(now), steps, ttl), 2) == Inside(source, 20, now + ttl)
  {
    var one, two := [Enter(1, source, 10)], [Enter(1, source, 10), Wait(ttl)];
    var all := [Enter(1, source, 10), Wait(ttl), Enter(2, source, 20)];
    assert all[..2] == two && two[..1] == one && one[..0] == [];
    var s0 := Initial(now);
    assert Possible(s0, [], ttl) && After(s0, [], ttl) == s0;
    assert Possible(s0, one, ttl) && After(s0, one, ttl) == Next(s0, Enter(1, source, 10), ttl);
    assert Possible(s0, two, ttl) && After(s0, two, ttl) == Next(After(s0, one, ttl), Wait(ttl), ttl);
  }

  /** A release touches no entry but a live one that carries the releasing worker's own token. */
  lemma ReleaseRemovesOnlyOwn(now: Time, steps: seq<Step>, ttl: nat, worker: nat, source: nat)
    requires Possible(Initial(now), steps, ttl)
    requires Enabled(After(Initial(now), steps, ttl), Leave(worker))
    requires source in After(Initial(now), steps, ttl).entries
    ensures var s := After(Initial(now), steps, ttl);
            var t := Next(s, Leave(worker), ttl);
            && (source in t.entries ==> t.entries[source] == s.entries[source])
            && (source !in t.entries ==>
                  && source == PhaseOf(s, worker).source && s.entries[source].token == PhaseOf(s, worker).token
                  && forall w | w != worker && PhaseOf(s, w).Inside? :: s.entries[source].token != PhaseOf(s, w).token)
  {
    RunKeepsInv(now, steps, ttl);
  }

  /** No source stays locked by workers that have left or died: after one lifetime anyone can enter. */
  lemma FreeAfterOneLifetime(now: Time, steps: seq<Step>, ttl: nat, worker: nat, source: nat, token: nat)
    requires Possible(Initial(now), steps, ttl)
    requires var s := After(Initial(now), steps, ttl); PhaseOf(s, worker) == Outside && token !in s.issued
    ensures var later := Next(After(Initial(now), steps, ttl), Wait(ttl), ttl);
            && Enabled(later, Enter(worker, source, token))
            && PhaseOf(Next(later, Enter(worker, source, token), ttl), worker) == Inside(source, token, later.now)
  {
    RunKeepsInv(now, steps, ttl);
  }
}
