/**
 Choosing what a variant's price is built on, its own stock or the cheapest usable supplier offer, and keeping the
 history of the decisions.

 Supplier numbers are compared as their identifiers are compared as text.
 */
module PricingEngine {
  import opened Availability
  import opened Common
  import opened Pricing

  datatype SupplierOffer = SupplierOffer(supplier: nat, price: int, level: Level, lastSeen: Time, source: Option<nat>)

  datatype ConflictRow = ConflictRow(isOpen: bool, variant: Option<nat>, source: Option<nat>, supplier: Option<nat>)

  datatype Stock = Stock(total: int, cost: Option<int>)

  datatype Idle = CostMissing | SupplierConflict | OfferStale | NoStock

  /** Built on own stock or on a supplier's offer, or not priced at all. */
  datatype Verdict =
    | Own(decision: Decision, cost: int) | FromSupplier(decision: Decision, offer: SupplierOffer) | Unpriced(idle: Idle)

  datatype Inputs = Inputs(variant: nat, stock: Option<Stock>, offers: seq<SupplierOffer>, conflicts: seq<ConflictRow>,
                           policy: Policy, override: Override, cutoff: Time)

  // ---------- Usable offers ----------

  predicate Blocks(conflict: ConflictRow, offer: SupplierOffer, variant: nat) {
    && conflict.isOpen && conflict.variant == Some(variant)
    && (conflict.source == offer.source || conflict.supplier == Some(offer.supplier))
  }

  predicate Conflicted(offer: SupplierOffer, i: Inputs) {
    exists c | c in i.conflicts :: Blocks(c, offer, i.variant)
  }

  predicate Usable(offer: SupplierOffer, i: Inputs) {
    offer.level == InStock && !Conflicted(offer, i) && offer.lastSeen >= i.cutoff
  }

  predicate HasConflicted(i: Inputs) {
    exists o | o in i.offers :: o.level == InStock && Conflicted(o, i)
  }

  predicate HasStale(i: Inputs) {
    exists o | o in i.offers :: o.level == InStock && !Conflicted(o, i) && o.lastSeen < i.cutoff
  }

  method SupplierCandidates(i: Inputs) returns (candidates: seq<SupplierOffer>, staleSeen: bool, conflictSeen: bool)
    ensures forall o :: o in candidates <==> o in i.offers && Usable(o, i)
    ensures staleSeen <==> HasStale(i)
    ensures conflictSeen <==> HasConflicted(i)
  {
    hide Conflicted;
    candidates, staleSeen, conflictSeen := [], false, false;
    for k := 0 to |i.offers|
      invariant forall o :: o in candidates <==> o in i.offers[..k] && Usable(o, i)
      invariant staleSeen <==> exists o | o in i.offers[..k] ::
                                 o.level == InStock && !Conflicted(o, i) && o.lastSeen < i.cutoff
      invariant conflictSeen <==> exists o | o in i.offers[..k] :: o.level == InStock && Conflicted(o, i)
    {
      var offer := i.offers[k];
      assert i.offers[..k + 1] == i.offers[..k] + [offer];
      if offer.level != InStock {
        continue;
      }
      if Conflicted(offer, i) {
        conflictSeen := true;
        continue;
      }
      if offer.lastSeen < i.cutoff {
        staleSeen := true;
        continue;
      }
      candidates := candidates + [offer];
    }
    assert i.offers[..|i.offers|] == i.offers;
  }

  /** Cheaper first, then seen later, then by supplier. */
  predicate Before(a: SupplierOffer, b: SupplierOffer) {
    || a.price < b.price
    || (a.price == b.price && a.lastSeen > b.lastSeen)
    || (a.price == b.price && a.lastSeen == b.lastSeen && a.supplier <= b.supplier)
  }

  ghost predicate IsFirst(best: SupplierOffer, offers: seq<SupplierOffer>) {
    best in offers && forall o | o in offers :: Before(best, o)
  }

  method First(offers: seq<SupplierOffer>) returns (best: SupplierOffer)
    requires offers != []
    ensures IsFirst(best, offers)
  {
    best := offers[0];
    for k := 1 to |offers|
      invariant best in offers[..k] && forall o | o in offers[..k] :: Before(best, o)
    {
      assert offers[..k + 1] == offers[..k] + [offers[k]];
      if !Before(best, offers[k]) {
        best := offers[k];
      }
    }
    assert offers[..|offers|] == offers;
  }

  // ---------- The decision ----------

  const OWN_STOCK := Given(0)
  const SUPPLIER_STOCK := Given(1)
  const LOWEST_PRICE := Given(2)

  ghost predicate Decided(v: Verdict, i: Inputs) {
    if i.stock.Some? && i.stock.value.total > 0 then
      match i.stock.value.cost
      case None => v == Unpriced(CostMissing)
      case Some(cost) => v == Own(PriceFromCost(cost, i.policy, i.override, [OWN_STOCK]), cost)
    else if exists o | o in i.offers :: Usable(o, i) then
      && v.FromSupplier? && v.offer in i.offers && Usable(v.offer, i)
      && (forall o | o in i.offers && Usable(o, i) :: Before(v.offer, o))
      && v.decision == PriceFromCost(v.offer.price, i.policy, i.override, [SUPPLIER_STOCK, LOWEST_PRICE])
    else
      v == Unpriced(if HasConflicted(i) then SupplierConflict else if HasStale(i) then OfferStale else NoStock)
  }

  method BuildDecision(i: Inputs) returns (v: Verdict)
    ensures Decided(v, i)
  {
    hide Usable, PriceFromCost, HasConflicted, HasStale, Before;
    if i.stock.Some? && i.stock.value.total > 0 {
      if i.stock.value.cost.None? {
        return Unpriced(CostMissing);
      }
      var cost := i.stock.value.cost.value;
      return Own(PriceFromCost(cost, i.policy, i.override, [OWN_STOCK]), cost);
    }
    var candidates, staleSeen, conflictSeen := SupplierCandidates(i);
    if candidates != [] {
      var selected := First(candidates);
      return FromSupplier(
          PriceFromCost(selected.price, i.policy, i.override, [SUPPLIER_STOCK, LOWEST_PRICE]), selected);
    }
    assert forall o | o in i.offers :: !Usable(o, i) by {
      assert forall o | o in i.offers && Usable(o, i) :: o in candidates;
    }
    v := Unpriced(if conflictSeen then SupplierConflict else if staleSeen then OfferStale else NoStock);
  }

  // ---------- What a decision promises ----------

  predicate Sold(v: Verdict) {
    !v.Unpriced? && v.decision.stockDecision == Active
  }

  /** What the variant really costs: its own cost, or the price of the offer that was chosen. */
  function CostOf(v: Verdict): int
    requires !v.Unpriced?
  {
    if v.Own? then v.cost else v.offer.price
  }

  /** Whatever is sold leaves the minimum profit over what it costs, on the price asked and after the commission. */
  lemma SoldAboveCost(v: Verdict, i: Inputs)
    requires Decided(v, i) && Sold(v)
    ensures v.decision.finalPrice.Some?
    ensures NetOfAvito(v.decision.finalPrice.value, i.policy)
            >= CostOf(v) + (i.policy.fixedRequiredCost + i.policy.reserve) + MinimumProfit(CostOf(v), i.policy)
  {
    var reasons := if v.Own? then [OWN_STOCK] else [SUPPLIER_STOCK, LOWEST_PRICE];
    ActiveKeepsMinimumProfit(CostOf(v), i.policy, i.override, reasons);
  }

  /** A supplier is chosen only for what is in stock, seen recently and without open conflict, and no such offer is
      cheaper. */
  lemma ChosenOfferIsCheapest(v: Verdict, i: Inputs)
    requires Decided(v, i) && v.FromSupplier?
    ensures v.offer in i.offers && Usable(v.offer, i)
    ensures forall o | o in i.offers && Usable(o, i) :: v.offer.price <= o.price
  {
  }

  /** The order in which the offers are read decides nothing. */
  lemma OfferOrderIrrelevant(v: Verdict, w: Verdict, i: Inputs, offers: seq<SupplierOffer>)
    requires forall o :: o in offers <==> o in i.offers
    requires Decided(v, i) && Decided(w, i.(offers := offers))
    ensures v.Unpriced? ==> v == w
    ensures !v.Unpriced? ==> !w.Unpriced? && v.decision == w.decision && CostOf(v) == CostOf(w)
    ensures v.FromSupplier? ==> w.FromSupplier? && v.offer.supplier == w.offer.supplier
  {
    hide PriceFromCost, Conflicted;
    var j := i.(offers := offers);
    assert forall o :: (Conflicted(o, i) <==> Conflicted(o, j)) && (Usable(o, i) <==> Usable(o, j)) by {
      SameConflicts(i, j);
    }
    assert HasConflicted(i) <==> HasConflicted(j);
    assert HasStale(i) <==> HasStale(j);
  }

  lemma SameConflicts(i: Inputs, j: Inputs)
    requires i.variant == j.variant && i.conflicts == j.conflicts && i.cutoff == j.cutoff
    ensures forall o :: Conflicted(o, i) <==> Conflicted(o, j)
    ensures forall o :: Usable(o, i) <==> Usable(o, j)
  {
  }

  /** A conflict row that names no variant, as the parser's do, keeps no offer from being used: with such rows only, the
      decision is the one that would be made without any. */
  lemma ConflictsWithoutVariantDecideNothing(v: Verdict, i: Inputs)
    requires forall c | c in i.conflicts :: c.variant.None?
    ensures Decided(v, i) <==> Decided(v, i.(conflicts := []))
  {
    hide PriceFromCost, Before;
    var j := i.(conflicts := []);
    assert forall o :: !Conflicted(o, i) && !Conflicted(o, j);
    assert forall o :: Usable(o, i) <==> Usable(o, j);
    assert HasStale(i) <==> HasStale(j);
  }

  // ---------- Keeping the decisions ----------

  datatype Fulfilment = OwnStock | Supplier(id: nat) | Nobody

  datatype StockDecision = Sell | Hold | Pause | OutOfStock

  /** What is compared to decide whether a decision is a new one; the reasons are compared without their order. */
  datatype Snapshot = Snapshot(policy: nat, mode: Mode, fulfilment: Fulfilment, base: Option<int>, floor: Option<int>,
                               recommended: Option<int>, manual: Option<int>, final: Option<int>,
                               decision: StockDecision, reasons: multiset<Reason>, idle: Option<Idle>)

  function SnapshotOf(v: Verdict, policy: nat, i: Inputs): Snapshot {
    if v.Unpriced? then
      Snapshot(policy, if i.override.manualModeEnabled then Manual else i.policy.mode,
               if v.idle == CostMissing then OwnStock else Nobody,
               None, None, None, if i.override.manualModeEnabled then i.override.manualPrice else None, None,
               match v.idle case CostMissing => Hold case SupplierConflict => Hold
                            case OfferStale => Pause case NoStock => StockDecision.OutOfStock,
               multiset{}, Some(v.idle))
    else
      var d := v.decision;
      Snapshot(policy, d.mode, if v.Own? then OwnStock else Supplier(v.offer.supplier), Some(CostOf(v)),
               if d.parts.Some? then Some(d.parts.value.floor) else None, d.recommended, d.manualPrice, d.finalPrice,
               if d.stockDecision == Active then Sell else Hold, multiset(d.reasons), None)
  }

  /** The parts of the floor, which are stored with a decision and not compared. */
  datatype Costs = Costs(required: Option<int>, avito: Option<int>, profit: Option<int>)

  function CostsIn(v: Verdict): Costs {
    if v.Unpriced? || v.decision.parts.None? then Costs(None, None, None) else
      var parts := v.decision.parts.value;
      Costs(Some(parts.required), Some(parts.avitoCosts), Some(parts.profit))
  }

  datatype Row = Row(previous: Option<int>, snapshot: Snapshot)

  /** Each row starts from the price the row before it ended with, and differs from it. */
  ghost predicate Chained(rows: seq<Row>) {
    && (rows != [] ==> rows[0].previous == None)
    && (forall k | 0 < k < |rows| ::
          rows[k].previous == rows[k - 1].snapshot.final && rows[k].snapshot != rows[k - 1].snapshot)
  }

  ghost predicate RowsFit(rows: seq<Row>, state: Snapshot) {
    Chained(rows) && rows != [] && rows[|rows| - 1].snapshot == state
  }

  lemma RowsExtend(rows: seq<Row>, state: Snapshot, next: Snapshot)
    requires RowsFit(rows, state) && next != state
    ensures RowsFit(rows + [Row(state.final, next)], next)
  {
  }

  lemma FirstRowFits(snapshot: Snapshot)
    ensures RowsFit([Row(None, snapshot)], snapshot)
  {
  }

  class PricingStore {
    var states: map<nat, Snapshot>
    var costs: map<nat, Costs>
    var history: map<nat, seq<Row>>

    constructor ()
      ensures Valid() && states == map[] && costs == map[]
    {
      states, costs, history := map[], map[], map[];
    }

    ghost predicate Valid()
      reads this
    {
      && states.Keys == history.Keys == costs.Keys
      && forall v | v in history :: RowsFit(history[v], states[v])
    }

    ghost function HistoryOf(v: nat): seq<Row>
      reads this
    {
      if v in history then history[v] else []
    }

    /** The state becomes the decision; the history grows by one row exactly when the decision is a new one. */
    method PersistDecision(variant: nat, snapshot: Snapshot, parts: Costs) returns (changed: bool)
      requires Valid()
      modifies this
      ensures Valid()
      ensures states == old(states)[variant := snapshot] && costs == old(costs)[variant := parts]
      ensures changed <==> Lookup(old(states), variant) != Some(snapshot)
      ensures HistoryOf(variant) == old(HistoryOf(variant)) +
              if changed then
                [Row(if variant in old(states) then old(states)[variant].final else None, snapshot)]
              else []
      ensures forall v | v != variant :: HistoryOf(v) == old(HistoryOf(v))
    {
      hide RowsFit, Chained;
      var previous := if variant in states then states[variant].final else None;
      changed := variant !in states || states[variant] != snapshot;
      if changed {
        var rows := if variant in history then history[variant] else [];
        if variant in history {
          RowsExtend(rows, states[variant], snapshot);
        } else {
          FirstRowFits(snapshot);
          assert rows + [Row(previous, snapshot)] == [Row(None, snapshot)];
        }
        history := history[variant := rows + [Row(previous, snapshot)]];
      }
      states, costs := states[variant := snapshot], costs[variant := parts];
    }

    method RecalculateVariantPricing(policy: nat, i: Inputs) returns (changed: bool, ghost v: Verdict)
      requires Valid()
      modifies this
      ensures Valid() && Decided(v, i)
      ensures states == old(states)[i.variant := SnapshotOf(v, policy, i)]
      ensures costs == old(costs)[i.variant := CostsIn(v)]
      ensures changed <==> Lookup(old(states), i.variant) != Some(SnapshotOf(v, policy, i))
    {
      hide Decided, SnapshotOf, CostsIn;
      var verdict := BuildDecision(i);
      v := verdict;
      changed := PersistDecision(i.variant, SnapshotOf(verdict, policy, i), CostsIn(verdict));
    }
  }

  /** Calculating again from the same rows, read in whatever order, gives the same snapshot, and so records nothing. */
  lemma RecalculationIsStable(v: Verdict, w: Verdict, policy: nat, i: Inputs, offers: seq<SupplierOffer>)
    requires forall o :: o in offers <==> o in i.offers
    ensures Decided(v, i) && Decided(w, i.(offers := offers)) ==>
              SnapshotOf(v, policy, i) == SnapshotOf(w, policy, i.(offers := offers))
  {
    if Decided(v, i) && Decided(w, i.(offers := offers)) {
      OfferOrderIrrelevant(v, w, i, offers);
      OfferOrderIrrelevant(w, v, i.(offers := offers), i.offers);
      assert i.(offers := offers).(offers := i.offers) == i;
    }
  }

  /** For a priced decision these parts and the base cost add up to the compared floor. */
  lemma CostsAddUpToFloor(v: Verdict, policy: nat, i: Inputs)
    requires Decided(v, i) && !v.Unpriced? && i.policy.CommissionInRange()
    ensures var s, c := SnapshotOf(v, policy, i), CostsIn(v);
      && s.floor.Some? && s.base.Some? && c.required.Some? && c.avito.Some? && c.profit.Some?
      && s.floor.value == s.base.value + c.required.value + c.avito.value + c.profit.value
  {
    FloorDecomposes(CostOf(v), i.policy);
  }

  // ---------- In the terms of the rows ----------

  predicate HasOwnStock(i: Inputs) {
    i.stock.Some? && 0 < i.stock.value.total
  }

  /** An open conflict about the variant names the offer's source or its supplier. */
  ghost predicate InDispute(o: SupplierOffer, i: Inputs) {
    exists c | c in i.conflicts ::
      c.isOpen && c.variant == Some(i.variant) && (c.source == o.source || c.supplier == Some(o.supplier))
  }

  ghost predicate Sellable(o: SupplierOffer, i: Inputs) {
    o in i.offers && o.level == InStock && i.cutoff <= o.lastSeen && !InDispute(o, i)
  }

  /** What a price is built on: own stock comes first and needs a cost; without any, the sellable offer that is
      cheapest, among equals the latest seen, among these the first supplier's; without any, the reason is a dispute,
      then staleness, then that there is nothing. */
  lemma VerdictInFields(v: Verdict, i: Inputs)
    requires Decided(v, i)
    ensures v.Own? <==> HasOwnStock(i) && i.stock.value.cost.Some?
    ensures v.Own? ==> Some(v.cost) == i.stock.value.cost
    ensures v == Unpriced(CostMissing) <==> HasOwnStock(i) && i.stock.value.cost.None?
    ensures v.FromSupplier? <==> !HasOwnStock(i) && exists o :: Sellable(o, i)
    ensures v.FromSupplier? ==>
              && Sellable(v.offer, i)
              && forall o | Sellable(o, i) ::
                   && v.offer.price <= o.price
                   && (v.offer.price == o.price ==> o.lastSeen <= v.offer.lastSeen)
                   && (v.offer.price == o.price && v.offer.lastSeen == o.lastSeen ==> v.offer.supplier <= o.supplier)
    ensures var nothing := !HasOwnStock(i) && !exists o :: Sellable(o, i);
      var disputed := exists o | o in i.offers :: o.level == InStock && InDispute(o, i);
      var inStock := exists o | o in i.offers :: o.level == InStock;
      && (v == Unpriced(SupplierConflict) <==> nothing && disputed)
      && (v == Unpriced(OfferStale) <==> nothing && !disputed && inStock)
      && (v == Unpriced(NoStock) <==> nothing && !inStock)
  {
    hide PriceFromCost;
    forall o: SupplierOffer
      ensures InDispute(o, i) <==> Conflicted(o, i)
      ensures Sellable(o, i) <==> o in i.offers && Usable(o, i)
    {
    }
  }

  /** Whatever is sold leaves both minimum profits over what it costs, and whatever is priced and leaves them is
      sold. */
  lemma SoldExactlyWhenItPays(v: Verdict, i: Inputs, commission: int)
    requires Decided(v, i) && !v.Unpriced?
    requires v.decision.finalPrice.Some? ==> IsCommission(commission, v.decision.finalPrice.value, i.policy)
    ensures Sold(v) <==>
              v.decision.finalPrice.Some? && Profitable(CostOf(v), i.policy, v.decision.finalPrice.value, commission)
  {
    hide PriceFromCost, Profitable, IsCommission;
    var reasons := if v.Own? then [OWN_STOCK] else [SUPPLIER_STOCK, LOWEST_PRICE];
    SoldExactlyWhenProfitable(CostOf(v), i.policy, i.override, reasons, commission);
  }

  /** The stored row: it sells exactly what is sold, pauses for stale offers, and is out of stock for nothing at all; it
      names the supplier of the offer that was chosen, its cost, and the price asked. */
  lemma StoredInFields(v: Verdict, policy: nat, i: Inputs)
    requires Decided(v, i)
    ensures var s := SnapshotOf(v, policy, i);
      && s.policy == policy
      && (s.decision == Sell <==> Sold(v)) && (s.decision == Pause <==> v == Unpriced(OfferStale))
      && (s.decision == StockDecision.OutOfStock <==> v == Unpriced(NoStock))
      && (s.fulfilment == OwnStock <==> HasOwnStock(i))
      && (forall id :: s.fulfilment == Supplier(id) <==> v.FromSupplier? && id == v.offer.supplier)
      && s.base == (if v.Unpriced? then None else Some(CostOf(v)))
      && (v.Unpriced? ==> s.floor.None? && s.recommended.None? && s.final.None? && s.idle == Some(v.idle))
      && (!v.Unpriced? ==>
            && s.recommended == v.decision.recommended && s.final == v.decision.finalPrice && s.idle.None?
            && s.mode == v.decision.mode)
      && var proper := v.Unpriced? || i.policy.avitoPercentBps < BPS_DENOMINATOR;
         && (proper && i.override.manualModeEnabled ==> s.mode == Manual && s.manual == i.override.manualPrice)
         && (proper && !i.override.manualModeEnabled ==> s.mode == i.policy.mode && s.manual.None?)
         && (!proper ==> s.mode == i.policy.mode && s.manual == i.override.manualPrice && s.decision == Hold)
  {
    hide HardFloor, Usable, Before, HasConflicted, HasStale;
    assert HardFloor(CostOfOrZero(v), i.policy).Some? <==> i.policy.avitoPercentBps < BPS_DENOMINATOR by {
      FloorExists(CostOfOrZero(v), i.policy);
    }
  }

  function CostOfOrZero(v: Verdict): int {
    if v.Unpriced? then 0 else CostOf(v)
  }

  lemma FloorExists(base: int, policy: Policy)
    ensures HardFloor(base, policy).Some? <==> policy.avitoPercentBps < BPS_DENOMINATOR
  {
  }
}
