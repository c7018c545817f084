/**
 The inventory state of one variant: a register that the latest source time writes last, with two histories that record
 only changes.
 */
module Inventory {
  import opened Common

  datatype State = State(stock: int, cost: Option<int>, currency: string, source: string, updatedAt: Time, run: nat)

  /** One write: `source` is the internal code of the item it comes from, `at` the time the source gives. */
  datatype Update = Update(stock: int, cost: Option<int>, currency: string, source: string, at: Time, run: nat)

  datatype StockRow = StockRow(variant: nat, stock: int, source: string, run: nat, at: Time, byAbsence: bool)

  datatype CostRow = CostRow(variant: nat, cost: int, currency: string, source: string, run: nat, at: Time)

  type States = map<nat, State>

  /** An update that is older than the stored state is ignored. */
  predicate Accepts(s: Option<State>, u: Update) {
    s == None || s.value.updatedAt <= u.at
  }

  /** An update without a cost keeps the stored cost and currency. */
  function Stored(s: Option<State>, u: Update): State {
    if s == None then State(u.stock, u.cost, u.currency, u.source, u.at, u.run)
    else if !Accepts(s, u) then s.value
    else State(u.stock,
               if u.cost.Some? then u.cost else s.value.cost,
               if u.cost.Some? then u.currency else s.value.currency,
               u.source, u.at, u.run)
  }

  predicate StockChanges(s: Option<State>, u: Update) {
    Accepts(s, u) && (s == None || s.value.stock != u.stock)
  }

  predicate CostChanges(s: Option<State>, u: Update) {
    Accepts(s, u) && u.cost.Some? && (s == None || s.value.cost != u.cost || s.value.currency != u.currency)
  }

  function Fold(s: Option<State>, updates: seq<Update>): Option<State> {
    if updates == [] then s else
      Some(Stored(Fold(s, updates[..|updates| - 1]), updates[|updates| - 1]))
  }

  // ---------- Last writer wins ----------

  function At(u: Update): Time {
    u.at
  }

  /** The stored time is the greatest one offered, so it never goes back. */
  lemma {:induction false} StoredTimeIsGreatest(s: Option<State>, updates: seq<Update>)
    requires updates != []
    ensures var r := Fold(s, updates).value;
            && (s.Some? ==> s.value.updatedAt <= r.updatedAt)
            && (forall u | u in updates :: u.at <= r.updatedAt)
            && (s == Some(r) || exists u | u in updates :: u.at == r.updatedAt)
  {
    var front, u := updates[..|updates| - 1], updates[|updates| - 1];
    if front != [] {
      StoredTimeIsGreatest(s, front);
    }
    assert forall v | v in updates :: v in front || v == u;
  }

  /** The update with the latest time decides the whole state, wherever it stands among the updates. */
  lemma {:induction false} LatestUpdateWins(s: Option<State>, updates: seq<Update>, k: int)
    requires IsLatest(updates, At, k) && Accepts(s, updates[k])
    ensures var u := updates[k];
            var r := Fold(s, updates);
            && r.Some?
            && r.value.stock == u.stock && r.value.source == u.source
            && r.value.updatedAt == u.at && r.value.run == u.run
            && (u.cost.Some? ==> r.value.cost == u.cost && r.value.currency == u.currency)
  {
    var n := |updates| - 1;
    var front := updates[..n];
    if k < n {
      LatestUpdateWins(s, front, k);
    } else if front != [] {
      StoredTimeIsGreatest(s, front);
      assert forall u | u in front :: u.at < updates[k].at;
    }
  }

  /** A state newer than every update is left alone. */
  lemma {:induction false} OlderUpdatesIgnored(s: Option<State>, updates: seq<Update>)
    requires forall u | u in updates :: !Accepts(s, u)
    ensures Fold(s, updates) == s
  {
    if updates != [] {
      OlderUpdatesIgnored(s, updates[..|updates| - 1]);
      assert updates[|updates| - 1] in updates;
    }
  }

  /** Updates of which the strictly latest carries a cost end in the same state in every order. */
  lemma UpdateOrderIrrelevant(s: Option<State>, first: seq<Update>, second: seq<Update>, k: int)
    requires multiset(first) == multiset(second)
    requires IsLatest(first, At, k) && first[k].cost.Some?
    ensures Fold(s, first) == Fold(s, second)
  {
    var there := LatestSurvivesRearrangement(first, second, At, k);
    if Accepts(s, first[k]) {
      LatestUpdateWins(s, first, k);
      LatestUpdateWins(s, second, there);
    } else {
      forall u | u in first || u in second ensures !Accepts(s, u) {
        assert u in multiset(first) <==> u in multiset(second);
        var i :| 0 <= i < |first| && first[i] == u;
        assert At(first[i]) <= At(first[k]);
      }
      OlderUpdatesIgnored(s, first);
      OlderUpdatesIgnored(s, second);
    }
  }

  // ---------- Histories ----------

  function StockLog(history: seq<StockRow>, variant: nat): seq<int> {
    if history == [] then [] else
      var row := history[|history| - 1];
      StockLog(history[..|history| - 1], variant) + if row.variant == variant then [row.stock] else []
  }

  function CostLog(history: seq<CostRow>, variant: nat): seq<(int, string)> {
    if history == [] then [] else
      var row := history[|history| - 1];
      CostLog(history[..|history| - 1], variant) + if row.variant == variant then [(row.cost, row.currency)] else []
  }

  ghost predicate NoRepeats<T>(log: seq<T>) {
    forall i | 0 < i < |log| :: log[i - 1] != log[i]
  }

  /** The log of stocks ends in the current stock and records only changes. */
  ghost predicate StockLogFits(s: Option<State>, log: seq<int>) {
    && NoRepeats(log)
    && (if s == None then log == [] else log != [] && log[|log| - 1] == s.value.stock)
  }

  ghost predicate CostLogFits(s: Option<State>, log: seq<(int, string)>) {
    && NoRepeats(log)
    && (if s == None || s.value.cost == None then log == []
        else log != [] && log[|log| - 1] == (s.value.cost.value, s.value.currency))
  }

  ghost predicate HistoriesFit(states: States, stocks: seq<StockRow>, costs: seq<CostRow>) {
    forall v: nat ::
      StockLogFits(Lookup(states, v), StockLog(stocks, v)) && CostLogFits(Lookup(states, v), CostLog(costs, v))
  }

  function StockRows(s: Option<State>, variant: nat, u: Update, byAbsence: bool): seq<StockRow> {
    if StockChanges(s, u) then [StockRow(variant, u.stock, u.source, u.run, u.at, byAbsence)] else []
  }

  function CostRows(s: Option<State>, variant: nat, u: Update): seq<CostRow> {
    if CostChanges(s, u) then [CostRow(variant, u.cost.value, u.currency, u.source, u.run, u.at)] else []
  }

  lemma LogsAppend(stocks: seq<StockRow>, costs: seq<CostRow>, s: Option<State>, variant: nat, u: Update,
                   byAbsence: bool, v: nat)
    ensures StockLog(stocks + StockRows(s, variant, u, byAbsence), v)
         == StockLog(stocks, v) + if v == variant && StockChanges(s, u) then [u.stock] else []
    ensures CostLog(costs + CostRows(s, variant, u), v)
         == CostLog(costs, v) + if v == variant && CostChanges(s, u) then [(u.cost.value, u.currency)] else []
  {
    if StockChanges(s, u) {
      var more := stocks + StockRows(s, variant, u, byAbsence);
      assert more[..|more| - 1] == stocks;
    } else {
      assert stocks + [] == stocks;
    }
    if CostChanges(s, u) {
      var more := costs + CostRows(s, variant, u);
      assert more[..|more| - 1] == costs;
    } else {
      assert costs + [] == costs;
    }
  }

  lemma LogsFitAfter(s: Option<State>, u: Update, stockLog: seq<int>, costLog: seq<(int, string)>)
    requires StockLogFits(s, stockLog) && CostLogFits(s, costLog)
    ensures StockLogFits(Some(Stored(s, u)), stockLog + if StockChanges(s, u) then [u.stock] else [])
    ensures CostLogFits(Some(Stored(s, u)), costLog + if CostChanges(s, u) then [(u.cost.value, u.currency)] else [])
  {
  }

  /** Writing the state and its change rows together keeps both histories in step with it. */
  lemma HistoriesFitAfter(states: States, stocks: seq<StockRow>, costs: seq<CostRow>, variant: nat, u: Update,
                          byAbsence: bool)
    requires HistoriesFit(states, stocks, costs)
    ensures var s := Lookup(states, variant);
            HistoriesFit(states[variant := Stored(s, u)], stocks + StockRows(s, variant, u, byAbsence),
                         costs + CostRows(s, variant, u))
  {
    var s := Lookup(states, variant);
    var after := states[variant := Stored(s, u)];
    hide StockLogFits, CostLogFits, Stored, StockRows, CostRows;
    forall v: nat
      ensures StockLogFits(Lookup(after, v), StockLog(stocks + StockRows(s, variant, u, byAbsence), v))
      ensures CostLogFits(Lookup(after, v), CostLog(costs + CostRows(s, variant, u), v))
    {
      LogsAppend(stocks, costs, s, variant, u, byAbsence, v);
      assert StockLogFits(Lookup(states, v), StockLog(stocks, v)) && CostLogFits(Lookup(states, v), CostLog(costs, v));
      if v == variant {
        LogsFitAfter(s, u, StockLog(stocks, v), CostLog(costs, v));
      } else {
        assert Lookup(after, v) == Lookup(states, v);
        assert StockLog(stocks, v) + [] == StockLog(stocks, v) && CostLog(costs, v) + [] == CostLog(costs, v);
      }
    }
  }
}
