/**
 The pricing formulas: integer minor units, ceilings and basis points.

 The commission is charged on the final price, so the least acceptable price solves an inequality in which the
 price occurs on both sides. The theorems say that the closed formula of `HardFloor` solves it exactly.
 */
module Pricing {
  import opened Arithmetic
  import opened Common

  const BPS_DENOMINATOR := 10000

  datatype Mode = Balanced | Margin | Aggressive | Clearance | Manual

  datatype Rounding = Up | Nearest

  datatype StockDecision = Active | Review

  datatype Reason = Given(code: nat) | HardFloorApplied | ManualPriceApplied | ManualPriceBelowFloor | InvalidPolicy

  datatype Policy = Policy(
    mode: Mode,
    fixedRequiredCost: int,
    reserve: int,
    avitoFixedCost: int,
    avitoPercentBps: int,
    minimumProfitFixed: int,
    minimumProfitBps: int,
    markupFixed: int,
    markupBps: int,
    marginMarkup: int,
    aggressiveMarkup: int,
    clearanceMarkup: int,
    roundingStep: int,
    roundingMode: Rounding)
  {
    /** The commission is a proper fraction of the price. */
    predicate CommissionInRange() {
      0 <= avitoPercentBps < BPS_DENOMINATOR
    }

    /** The ranges that the policy schema enforces. */
    predicate InSchema() {
      && CommissionInRange()
      && 0 <= fixedRequiredCost && 0 <= reserve && 0 <= avitoFixedCost
      && 0 <= minimumProfitFixed && 0 <= minimumProfitBps
      && 0 <= markupFixed && 0 <= markupBps && 0 <= marginMarkup && 0 <= aggressiveMarkup && 0 <= clearanceMarkup
      && 1 <= roundingStep
    }
  }

  datatype Override = Override(manualModeEnabled: bool, manualPrice: Option<int>)

  datatype FloorParts = FloorParts(floor: int, required: int, avitoCosts: int, profit: int)

  datatype Decision = Decision(
    mode: Mode,
    parts: Option<FloorParts>,
    markup: Option<int>,
    recommended: Option<int>,
    manualPrice: Option<int>,
    finalPrice: Option<int>,
    stockDecision: StockDecision,
    reasons: seq<Reason>)

  function Max(a: int, b: int): int {
    if a >= b then a else b
  }

  /** Division rounded up, for a positive denominator: the least `r` with `r * d >= n`. */
  function CeilQuotient(n: int, d: int): (r: int)
    requires 0 < d
    ensures n <= r * d < n + d
  {
    var q := -n / d;
    assert -n == q * d + -n % d;
    assert -q * d == n + -n % d;
    -q
  }

  /** The program raises an error for a denominator that is not positive. */
  function CeilDiv(n: int, d: int): (r: Option<int>)
    ensures r.None? <==> d <= 0
    ensures r.Some? ==> n <= r.value * d < n + d
  {
    if d <= 0 then None else Some(CeilQuotient(n, d))
  }

  function BpsAmount(base: int, bps: int): int {
    CeilQuotient(base * bps, BPS_DENOMINATOR)
  }

  function RoundPrice(price: int, step: int, mode: Rounding): int {
    if step <= 0 then price else
      var remainder := price % step;
      if remainder == 0 then price else
        match mode
        case Nearest =>
          var down := price - remainder;
          var up := down + step;
          if price - down >= up - price then up else down
        case Up => price + step - remainder
  }

  function MinimumProfit(base: int, policy: Policy): int {
    Max(policy.minimumProfitFixed, BpsAmount(base, policy.minimumProfitBps))
  }

  function AutomaticMarkup(base: int, policy: Policy): int {
    var baseMarkup := Max(policy.markupFixed, BpsAmount(base, policy.markupBps));
    match policy.mode
    case Margin => baseMarkup + policy.marginMarkup
    case Aggressive => policy.aggressiveMarkup
    case Clearance => policy.clearanceMarkup
    case _ => baseMarkup
  }

  /** Everything the price must cover apart from the percentage commission. */
  function NonPercentFloor(base: int, policy: Policy): int {
    base + (policy.fixedRequiredCost + policy.reserve) + policy.avitoFixedCost + MinimumProfit(base, policy)
  }

  /** `None` is the error raised for a commission of 10000 basis points or more. */
  function HardFloor(base: int, policy: Policy): Option<FloorParts> {
    if policy.avitoPercentBps >= BPS_DENOMINATOR then None else
      var floor :=
        CeilQuotient(NonPercentFloor(base, policy) * BPS_DENOMINATOR, BPS_DENOMINATOR - policy.avitoPercentBps);
      Some(FloorParts(
             floor,
             policy.fixedRequiredCost + policy.reserve,
             policy.avitoFixedCost + BpsAmount(floor, policy.avitoPercentBps),
             MinimumProfit(base, policy)))
  }

  function RecommendedRaw(base: int, policy: Policy, parts: FloorParts): int {
    Max(parts.floor, base + parts.required + parts.avitoCosts + parts.profit + AutomaticMarkup(base, policy))
  }

  function Recommended(base: int, policy: Policy, parts: FloorParts): int {
    Max(parts.floor, RoundPrice(RecommendedRaw(base, policy, parts), policy.roundingStep, policy.roundingMode))
  }

  function PriceFromCost(base: int, policy: Policy, override: Override, reasons: seq<Reason>): Decision {
    match HardFloor(base, policy)
    case None =>
      Decision(policy.mode, None, None, None, override.manualPrice, None, Review, reasons + [InvalidPolicy])
    case Some(parts) =>
      var markup := AutomaticMarkup(base, policy);
      var raw := RecommendedRaw(base, policy, parts);
      var recommended := Recommended(base, policy, parts);
      var noted := if recommended == parts.floor || raw < parts.floor then reasons + [HardFloorApplied] else reasons;
      if override.manualModeEnabled then
        if override.manualPrice == None || override.manualPrice.value < parts.floor then
          Decision(Manual, Some(parts), Some(markup), Some(recommended), override.manualPrice, override.manualPrice,
                   Review, noted + [ManualPriceBelowFloor])
        else
          Decision(Manual, Some(parts), Some(markup), Some(recommended), override.manualPrice, override.manualPrice,
                   Active, noted + [ManualPriceApplied])
      else
        Decision(policy.mode, Some(parts), Some(markup), Some(recommended), None, Some(recommended), Active, noted)
  }

  /** What is left of a price after the marketplace has taken its fixed fee and its rounded-up percentage. */
  function NetOfAvito(price: int, policy: Policy): int {
    price - policy.avitoFixedCost - BpsAmount(price, policy.avitoPercentBps)
  }

  // ---------- Ceilings ----------

  /** The ceiling is the least integer whose multiple reaches the numerator. */
  lemma CeilQuotientLeast(n: int, d: int, q: int)
    requires 0 < d
    ensures q * d >= n <==> q >= CeilQuotient(n, d)
  {
    var r := CeilQuotient(n, d);
    if q >= r {
      MulMonotone(r, q, d);
    } else {
      MulMonotone(q, r - 1, d);
    }
  }

  lemma CeilQuotientMonotone(n: int, m: int, d: int)
    requires n <= m && 0 < d
    ensures CeilQuotient(n, d) <= CeilQuotient(m, d)
  {
    CeilQuotientLeast(n, d, CeilQuotient(m, d));
  }

  lemma BpsAmountMonotone(a: int, b: int, bps: int)
    requires a <= b && 0 <= bps
    ensures BpsAmount(a, bps) <= BpsAmount(b, bps)
  {
  }

  /** A price covers a target after commission exactly when its retained share reaches the target. */
  lemma NetCovers(price: int, bps: int, target: int)
    ensures price - BpsAmount(price, bps) >= target <==> price * (BPS_DENOMINATOR - bps) >= target * BPS_DENOMINATOR
  {
  }

  // ---------- The hard floor ----------

  /** Among all integer prices, those that keep cost, required costs and minimum profit are exactly those at or above
      the hard floor. */
  lemma FloorIsLeastCoveringPrice(base: int, policy: Policy, price: int)
    requires policy.avitoPercentBps < BPS_DENOMINATOR
    ensures HardFloor(base, policy).Some?
    ensures var parts := HardFloor(base, policy).value;
            NetOfAvito(price, policy) >= base + parts.required + parts.profit <==> price >= parts.floor
  {
    var target := NonPercentFloor(base, policy);
    NetCovers(price, policy.avitoPercentBps, target);
    CeilQuotientLeast(target * BPS_DENOMINATOR, BPS_DENOMINATOR - policy.avitoPercentBps, price);
  }

  /** Nothing is lost to rounding: the floor is the sum of the parts reported beside it. */
  lemma FloorDecomposes(base: int, policy: Policy)
    requires policy.CommissionInRange()
    ensures var parts := HardFloor(base, policy).value;
            parts.floor == base + parts.required + parts.avitoCosts + parts.profit
  {
  }

  lemma RawIsFloorPlusMarkup(base: int, policy: Policy)
    requires policy.CommissionInRange()
    ensures var parts := HardFloor(base, policy).value;
            RecommendedRaw(base, policy, parts) == parts.floor + Max(0, AutomaticMarkup(base, policy))
    ensures policy.InSchema() ==> 0 <= AutomaticMarkup(base, policy)
  {
  }

  lemma MinimumProfitMonotone(base: int, base': int, policy: Policy)
    requires base <= base' && 0 <= policy.minimumProfitBps
    ensures MinimumProfit(base, policy) <= MinimumProfit(base', policy)
  {
  }

  lemma FloorMonotone(base: int, base': int, policy: Policy)
    requires base <= base' && policy.InSchema()
    ensures HardFloor(base, policy).value.floor <= HardFloor(base', policy).value.floor
  {
    MinimumProfitMonotone(base, base', policy);
    CeilQuotientMonotone(NonPercentFloor(base, policy) * BPS_DENOMINATOR,
                         NonPercentFloor(base', policy) * BPS_DENOMINATOR,
                         BPS_DENOMINATOR - policy.avitoPercentBps);
  }

  // ---------- Rounding ----------

  lemma ShiftedMultiple(price: int, step: int)
    requires 0 < step
    ensures (price - price % step) % step == 0 && (price - price % step + step) % step == 0
  {
    var q := price / step;
    assert price - price % step == q * step;
    assert price - price % step + step == (q + 1) * step;
    MultipleHasNoRemainder(q, step);
    MultipleHasNoRemainder(q + 1, step);
  }

  ghost predicate LeastMultipleAtOrAbove(r: int, price: int, step: int)
    requires 0 < step
  {
    && r % step == 0 && price <= r
    && forall m | m % step == 0 && price <= m :: r <= m
  }

  /** `r` is a closest multiple of `step`, and the upper one when two are equally close. */
  ghost predicate NearestMultipleTiesUp(r: int, price: int, step: int)
    requires 0 < step
  {
    && r % step == 0
    && forall m | m % step == 0 ::
         Distance(r, price) <= Distance(m, price) && (Distance(r, price) == Distance(m, price) ==> m <= r)
  }

  function Distance(a: int, b: int): nat {
    if a <= b then b - a else a - b
  }

  lemma RoundUpIsLeastMultiple(price: int, step: int)
    requires 0 < step
    ensures LeastMultipleAtOrAbove(RoundPrice(price, step, Up), price, step)
  {
    var r := RoundPrice(price, step, Up);
    ShiftedMultiple(price, step);
    forall m | m % step == 0 && price <= m ensures r <= m {
      if m < r {
        MultiplesAreApart(m, r, step);
      }
    }
  }

  lemma RoundNearestIsNearest(price: int, step: int)
    requires 0 < step
    ensures NearestMultipleTiesUp(RoundPrice(price, step, Nearest), price, step)
  {
    var down := price - price % step;
    var up := down + step;
    var r := RoundPrice(price, step, Nearest);
    ShiftedMultiple(price, step);
    forall m | m % step == 0
      ensures Distance(r, price) <= Distance(m, price) && (Distance(r, price) == Distance(m, price) ==> m <= r)
    {
      if m < down {
        MultiplesAreApart(m, down, step);
      } else if down < m < up {
        MultiplesAreApart(down, m, step);
      } else if up < m {
        MultiplesAreApart(up, m, step);
      }
    }
  }

  lemma RoundPriceMonotone(a: int, b: int, step: int, mode: Rounding)
    requires a <= b
    ensures RoundPrice(a, step, mode) <= RoundPrice(b, step, mode)
  {
    if 0 < step {
      var ra, rb := RoundPrice(a, step, mode), RoundPrice(b, step, mode);
      ShiftedMultiple(a, step);
      ShiftedMultiple(b, step);
      if rb < ra {
        MultiplesAreApart(rb, ra, step);
        match mode
        case Up => RoundUpIsLeastMultiple(a, step);
        case Nearest =>
          var downA, downB := a - a % step, b - b % step;
          if downA < downB {
            MultiplesAreApart(downA, downB, step);
          } else if downB < downA {
            MultiplesAreApart(downB, downA, step);
          }
      }
    }
  }

  // ---------- Decisions ----------

  /** A cheaper purchase never leads to a dearer recommendation, in any mode and under either rounding. */
  lemma RecommendedMonotoneInCost(base: int, base': int, policy: Policy)
    requires base <= base' && policy.InSchema()
    ensures Recommended(base, policy, HardFloor(base, policy).value)
         <= Recommended(base', policy, HardFloor(base', policy).value)
  {
    FloorMonotone(base, base', policy);
    RawIsFloorPlusMarkup(base, policy);
    RawIsFloorPlusMarkup(base', policy);
    BpsAmountMonotone(base, base', policy.markupBps);
    RoundPriceMonotone(RecommendedRaw(base, policy, HardFloor(base, policy).value),
                       RecommendedRaw(base', policy, HardFloor(base', policy).value),
                       policy.roundingStep, policy.roundingMode);
  }

  /** Rounding up is never overruled by the floor; rounding to nearest is, exactly when it would fall below it. */
  lemma RecommendedIsRounded(base: int, policy: Policy)
    requires policy.CommissionInRange() && 0 < policy.roundingStep
    ensures var parts := HardFloor(base, policy).value;
            var raw := RecommendedRaw(base, policy, parts);
            var r := Recommended(base, policy, parts);
            match policy.roundingMode
            case Up => LeastMultipleAtOrAbove(r, raw, policy.roundingStep)
            case Nearest =>
              var nearest := RoundPrice(raw, policy.roundingStep, Nearest);
              && NearestMultipleTiesUp(nearest, raw, policy.roundingStep)
              && r == if nearest < parts.floor then parts.floor else nearest
  {
    var parts := HardFloor(base, policy).value;
    var raw := RecommendedRaw(base, policy, parts);
    RoundUpIsLeastMultiple(raw, policy.roundingStep);
    RoundNearestIsNearest(raw, policy.roundingStep);
  }

  /** Which inputs are sold: a usable policy, and no manual price or one that is not below the floor. */
  lemma ActiveExactlyWhen(base: int, policy: Policy, override: Override, reasons: seq<Reason>)
    ensures PriceFromCost(base, policy, override, reasons).stockDecision == Active
       <==> && policy.avitoPercentBps < BPS_DENOMINATOR
            && (override.manualModeEnabled ==>
                  && override.manualPrice.Some?
                  && NetOfAvito(override.manualPrice.value, policy)
                     >= base + (policy.fixedRequiredCost + policy.reserve) + MinimumProfit(base, policy))
  {
    if policy.avitoPercentBps < BPS_DENOMINATOR && override.manualPrice.Some? {
      FloorIsLeastCoveringPrice(base, policy, override.manualPrice.value);
    }
  }

  /** No active decision, automatic or manual, sells below cost plus required costs plus minimum profit, with the
      commission charged on the price actually asked. */
  lemma ActiveKeepsMinimumProfit(base: int, policy: Policy, override: Override, reasons: seq<Reason>)
    requires PriceFromCost(base, policy, override, reasons).stockDecision == Active
    ensures var d := PriceFromCost(base, policy, override, reasons);
            && d.finalPrice.Some? && d.parts.Some?
            && NetOfAvito(d.finalPrice.value, policy) - base - d.parts.value.required >= d.parts.value.profit
            && d.parts.value.profit == MinimumProfit(base, policy)
  {
    var d := PriceFromCost(base, policy, override, reasons);
    FloorIsLeastCoveringPrice(base, policy, d.finalPrice.value);
  }

  /** The floor is reported as the reason exactly when the recommended price is the floor itself. */
  lemma HardFloorReasonExact(base: int, policy: Policy, override: Override, reasons: seq<Reason>)
    requires policy.CommissionInRange() && HardFloorApplied !in reasons
    ensures var d := PriceFromCost(base, policy, override, reasons);
            && d.parts.Some? && d.recommended.Some?
            && (HardFloorApplied in d.reasons <==> d.recommended.value == d.parts.value.floor)
  {
  }

  // ---------- In the terms of the policy ----------

  /** The required profit is the least amount that is neither below the fixed minimum nor below the percentage of the
      cost. */
  lemma MinimumProfitIsLeast(base: int, policy: Policy, amount: int)
    ensures MinimumProfit(base, policy) <= amount
            <==> policy.minimumProfitFixed <= amount && base * policy.minimumProfitBps <= amount * 10000
  {
    CeilQuotientLeast(base * policy.minimumProfitBps, BPS_DENOMINATOR, amount);
  }

  /** The markup of each mode: balanced is the least amount that is neither below the fixed markup nor below the
      percentage, margin adds its own amount to that, and the other two take theirs instead. */
  lemma MarkupOfEachMode(base: int, policy: Policy, amount: int)
    ensures var above := if policy.mode == Margin then amount - policy.marginMarkup else amount;
      AutomaticMarkup(base, policy) <= amount <==>
        match policy.mode
        case Aggressive => policy.aggressiveMarkup <= amount
        case Clearance => policy.clearanceMarkup <= amount
        case _ => policy.markupFixed <= above && base * policy.markupBps <= above * 10000
  {
    CeilQuotientLeast(base * policy.markupBps, BPS_DENOMINATOR, amount);
    CeilQuotientLeast(base * policy.markupBps, BPS_DENOMINATOR, amount - policy.marginMarkup);
  }

  /** The commission is the least amount that is not below its percentage of the price. */
  predicate IsCommission(commission: int, price: int, policy: Policy) {
    commission * 10000 - 10000 < price * policy.avitoPercentBps <= commission * 10000
  }

  /** A price leaves this after purchase, required costs, fee and commission. */
  function LeftOver(base: int, policy: Policy, price: int, commission: int): int {
    price - base - policy.fixedRequiredCost - policy.reserve - policy.avitoFixedCost - commission
  }

  predicate Profitable(base: int, policy: Policy, price: int, commission: int) {
    var left := LeftOver(base, policy, price, commission);
    policy.minimumProfitFixed <= left && base * policy.minimumProfitBps <= left * 10000
  }

  lemma NetInFields(base: int, policy: Policy, price: int, commission: int)
    requires IsCommission(commission, price, policy)
    ensures commission == BpsAmount(price, policy.avitoPercentBps)
    ensures Profitable(base, policy, price, commission) <==>
              NetOfAvito(price, policy)
              >= base + (policy.fixedRequiredCost + policy.reserve) + MinimumProfit(base, policy)
  {
    CeilQuotientLeast(price * policy.avitoPercentBps, BPS_DENOMINATOR, commission);
    CeilQuotientLeast(price * policy.avitoPercentBps, BPS_DENOMINATOR, commission - 1);
    MinimumProfitIsLeast(base, policy, LeftOver(base, policy, price, commission));
  }

  /** A policy with a proper commission and, if the price is set by hand, a price that leaves both minimum profits: just
      those are sold, and whatever is sold leaves them. */
  lemma SoldExactlyWhenProfitable(base: int, policy: Policy, override: Override, reasons: seq<Reason>, commission: int)
    requires var d := PriceFromCost(base, policy, override, reasons);
      d.finalPrice.Some? ==> IsCommission(commission, d.finalPrice.value, policy)
    ensures var d := PriceFromCost(base, policy, override, reasons);
      && (d.stockDecision == Active ==> d.finalPrice.Some?)
      && (d.finalPrice.Some? ==>
            (d.stockDecision == Active <==> Profitable(base, policy, d.finalPrice.value, commission)))
      && (d.finalPrice.None? <==> policy.avitoPercentBps >= 10000
                                  || (override.manualModeEnabled && override.manualPrice.None?))
  {
    var d := PriceFromCost(base, policy, override, reasons);
    if d.finalPrice.Some? {
      NetInFields(base, policy, d.finalPrice.value, commission);
      FloorIsLeastCoveringPrice(base, policy, d.finalPrice.value);
    }
  }

  /** The least price that keeps the minimum profits, among all integers. */
  ghost predicate IsFloor(base: int, policy: Policy, floor: int) {
    forall price: int, commission: int | IsCommission(commission, price, policy) ::
      Profitable(base, policy, price, commission) <==> floor <= price
  }

  /** The price asked: by hand, or the least profitable price with the markup on top, rounded as the policy says and
      never below that least price. */
  lemma AskedPrice(base: int, policy: Policy, override: Override, reasons: seq<Reason>)
    requires policy.CommissionInRange() && 0 < policy.roundingStep
    ensures var d := PriceFromCost(base, policy, override, reasons);
      && d.parts.Some? && IsFloor(base, policy, d.parts.value.floor)
      && d.manualPrice == (if override.manualModeEnabled then override.manualPrice else None)
      && d.markup == Some(AutomaticMarkup(base, policy))
      && d.mode == (if override.manualModeEnabled then Manual else policy.mode)
      && d.recommended.Some?
      && d.finalPrice == (if override.manualModeEnabled then override.manualPrice else d.recommended)
      && var floor, wanted := d.parts.value.floor, d.parts.value.floor + Max(0, AutomaticMarkup(base, policy));
         match policy.roundingMode
         case Up => LeastMultipleAtOrAbove(d.recommended.value, wanted, policy.roundingStep)
         case Nearest =>
           exists nearest: int ::
             && NearestMultipleTiesUp(nearest, wanted, policy.roundingStep)
             && d.recommended.value == if nearest < floor then floor else nearest
  {
    hide LeastMultipleAtOrAbove, NearestMultipleTiesUp, RoundPrice, AutomaticMarkup;
    var floor := HardFloor(base, policy).value.floor;
    FloorIsFloor(base, policy);
    RawIsFloorPlusMarkup(base, policy);
    RecommendedIsRounded(base, policy);
  }

  lemma FloorIsFloor(base: int, policy: Policy)
    requires policy.avitoPercentBps < BPS_DENOMINATOR
    ensures IsFloor(base, policy, HardFloor(base, policy).value.floor)
  {
    hide Profitable, IsCommission;
    forall price: int, commission: int | IsCommission(commission, price, policy)
      ensures Profitable(base, policy, price, commission) <==> HardFloor(base, policy).value.floor <= price
    {
      NetInFields(base, policy, price, commission);
      FloorIsLeastCoveringPrice(base, policy, price);
    }
  }

  /** What is noted beside a price: that it is the floor, that the manual price was applied or is too low, or that the
      policy cannot be used; what was given stays in front. */
  lemma NotedExactlyWhen(base: int, policy: Policy, override: Override, given: seq<Reason>)
    requires forall r | r in given :: r.Given?
    ensures var d := PriceFromCost(base, policy, override, given);
      var manual := override.manualModeEnabled;
      && given <= d.reasons && |d.reasons| <= |given| + 2
      && (InvalidPolicy in d.reasons <==> 10000 <= policy.avitoPercentBps)
      && (HardFloorApplied in d.reasons ==> d.parts.Some? && d.recommended.Some?)
      && (d.parts.Some? ==> d.recommended.Some?)
      && (d.parts.Some? ==>
            && (HardFloorApplied in d.reasons <==> d.recommended.value <= d.parts.value.floor)
            && (ManualPriceApplied in d.reasons <==> manual && d.stockDecision == Active)
            && (ManualPriceBelowFloor in d.reasons <==> manual && d.stockDecision == Review))
      && (d.parts.None? ==> d.reasons == given + [InvalidPolicy] && d.stockDecision == Review)
  {
    hide CeilQuotient, RoundPrice, AutomaticMarkup;
  }
}
