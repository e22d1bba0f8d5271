/** Where the contract's saturating arithmetic is exact: in the operating range no saturation
    changes any value of a plan, so every exact result holds of the contract there. */
module LiquidationWidth {
  import opened Arith
  import opened Constants
  import opened Liquidation
  import opened LiquidationBounds
  import opened LiquidationTarget

  /** Values up to 10^29 keep every intermediate result of a plan representable. */
  const VALUE_LIMIT: int := 100_000_000_000_000_000_000_000_000_000

  /** Collateral and debt that are each worth no more than that, and settings that pass the administrator's
      validation; neither the units nor the prices are bounded on their own. */
  predicate Operating(q: Quote) {
    && Sound(q)
    && q.coll * q.priceColl <= VALUE_LIMIT * PRICE_SCALE
    && q.debt * q.priceDebt <= VALUE_LIMIT * PRICE_SCALE
    && q.threshold <= 9_500
    && q.params.baseBonus <= 2_500
    && q.params.maxBonus <= 2_500
    && q.params.penaltyCap <= 2_500
  }

  /** Units below 2^63 at any price up to the ceiling of price checks are worth less than a tenth of that. */
  lemma {:induction false} AcceptedPricesOperate(units: int, price: int)
    requires 0 <= units < 0x8000_0000_0000_0000 && 0 < price <= MAX_PRICE
    ensures units * price * 10 < VALUE_LIMIT * PRICE_SCALE
  {
    MulLe(units, 0x8000_0000_0000_0000, price);
    MulLe(price, MAX_PRICE, 0x8000_0000_0000_0000);
  }

  lemma {:induction false} MulExact(a: int, b: int, x: int, y: int)
    requires 0 <= a <= x && 0 <= b <= y && x * y <= I128_MAX
    ensures 0 <= a * b <= x * y
    ensures Mul(I128, a, b) == a * b
  {
    MulLe(a, x, b);
    MulLe(b, y, x);
    assert a * b >= 0;
  }

  lemma {:induction false} ExactValue(units: int, price: int)
    requires 0 <= units && 0 < price && units * price <= VALUE_LIMIT * PRICE_SCALE
    ensures UnitsToValue(I128, units, price) == UnitsToValue(Unbounded, units, price)
    ensures 0 <= UnitsToValue(I128, units, price) <= VALUE_LIMIT
  {
    assert units * price >= 0;
    FloorMono(VALUE_LIMIT * PRICE_SCALE, PRICE_SCALE, units * price, PRICE_SCALE);
    Floor(units * price, PRICE_SCALE);
  }

  lemma {:induction false} ExactUnits(value: int, price: int)
    requires 0 <= value <= 2 * VALUE_LIMIT
    ensures ValueToUnits(I128, value, price) == ValueToUnits(Unbounded, value, price)
  {
    MulExact(value, PRICE_SCALE, 2 * VALUE_LIMIT, PRICE_SCALE);
  }

  lemma {:induction false} ExactHealth(q: Quote)
    requires Operating(q)
    ensures CollValue(I128, q) == CollValue(Unbounded, q) && DebtValue(I128, q) == DebtValue(Unbounded, q)
    ensures 0 <= CollValue(I128, q) <= VALUE_LIMIT && 0 <= DebtValue(I128, q) <= VALUE_LIMIT
    ensures Health(I128, q) == Health(Unbounded, q)
    ensures 0 <= Health(I128, q).0 && 0 <= Health(I128, q).1 <= VALUE_LIMIT * BPS
  {
    ExactValue(q.coll, q.priceColl);
    ExactValue(q.debt, q.priceDebt);
    MulExact(CollValue(I128, q), q.threshold, VALUE_LIMIT, 9_500);
    MulExact(DebtValue(I128, q), BPS, VALUE_LIMIT, BPS);
  }

  lemma {:induction false} ExactDynamicBonus(num: int, den: int, params: LiqParams)
    requires 0 <= num && den <= VALUE_LIMIT * BPS
    requires params.maxBonus <= 2_500
    ensures DynamicBonus(I128, num, den, params) == DynamicBonus(Unbounded, num, den, params)
  {
    if 0 < den && num < den {
      var span := Max(params.maxBonus - params.baseBonus, 0);
      MulExact(span, (den - num) * 2, 2_500, VALUE_LIMIT * BPS * 2);
    }
  }

  lemma {:induction false} ExactGross(q: Quote)
    requires Operating(q)
    ensures Bonus(I128, q) == Bonus(Unbounded, q)
    ensures Gross(I128, q) == Gross(Unbounded, q) <= BPS + 2_500
  {
    ExactHealth(q);
    ExactDynamicBonus(Health(I128, q).0, Health(I128, q).1, q.params);
  }

  lemma {:induction false} ExactReach(q: Quote)
    requires Operating(q)
    ensures Reach(I128, q) == Reach(Unbounded, q)
  {
    ExactGross(q);
    MulExact(TARGET_HF_DEN * Gross(I128, q), q.threshold, 125_000, 9_500);
  }

  lemma {:induction false} ExactShortfall(q: Quote)
    requires Operating(q)
    ensures Shortfall(I128, q) == Shortfall(Unbounded, q)
    ensures Shortfall(I128, q) <= TARGET_HF_NUM * BPS * VALUE_LIMIT
  {
    ExactHealth(q);
    MulExact(TARGET_HF_NUM * BPS, DebtValue(I128, q), TARGET_HF_NUM * BPS, VALUE_LIMIT);
    MulExact(TARGET_HF_DEN * q.threshold, CollValue(I128, q), 95_000, VALUE_LIMIT);
  }

  /** Only an oversized request can saturate, and the cap at the debt value hides it. */
  lemma {:induction false} ExactRequest(units: int, price: int, v: int)
    requires 0 <= units && 0 < price && v <= VALUE_LIMIT
    ensures Min(UnitsToValue(I128, units, price), v) == Min(UnitsToValue(Unbounded, units, price), v)
  {
    assert units * price >= 0;
    if units * price > I128_MAX {
      FloorMono(units * price, PRICE_SCALE, I128_MAX, PRICE_SCALE);
      assert I128_MAX / PRICE_SCALE >= VALUE_LIMIT;
    }
  }

  lemma {:induction false} ExactWanted(q: Quote, mode: RepayMode)
    requires Operating(q)
    ensures Min(TargetValue(I128, q, mode), DebtValue(I128, q))
         == Min(TargetValue(Unbounded, q, mode), DebtValue(Unbounded, q))
  {
    ExactHealth(q);
    match mode
    case PartialToTarget =>
      ExactReach(q);
      ExactShortfall(q);
      MulExact(BPS, Max(Shortfall(I128, q), 0), BPS, TARGET_HF_NUM * BPS * VALUE_LIMIT);
    case Full =>
    case Specified(units) =>
      ExactRequest(Max(units, 0), q.priceDebt, DebtValue(I128, q));
  }

  lemma {:induction false} ExactAffordable(q: Quote)
    requires Operating(q)
    ensures Affordable(I128, q) == Affordable(Unbounded, q)
  {
    ExactHealth(q);
    ExactGross(q);
    MulExact(CollValue(I128, q), BPS, VALUE_LIMIT, BPS);
  }

  lemma {:induction false} ExactRepay(q: Quote, mode: RepayMode)
    requires Operating(q)
    ensures RepayValue(I128, q, mode) == RepayValue(Unbounded, q, mode)
    ensures 0 <= RepayValue(I128, q, mode) <= VALUE_LIMIT
    ensures RepayUnits(I128, q, mode) == RepayUnits(Unbounded, q, mode)
  {
    ExactHealth(q);
    ExactWanted(q, mode);
    ExactAffordable(q);
    ExactUnits(RepayValue(I128, q, mode), q.priceDebt);
  }

  lemma {:induction false} ExactSeize(q: Quote, mode: RepayMode)
    requires Operating(q)
    ensures SeizeValue(I128, q, mode) == SeizeValue(Unbounded, q, mode)
    ensures SeizeUnits(I128, q, mode) == SeizeUnits(Unbounded, q, mode)
  {
    ExactRepay(q, mode);
    ExactGross(q);
    var r, g := RepayValue(I128, q, mode), Gross(I128, q);
    MulExact(r, g, VALUE_LIMIT, 12_500);
    FloorMono(VALUE_LIMIT * 12_500, BPS, r * g, BPS);
    Floor(r * g, BPS);
    ExactUnits(SeizeValue(I128, q, mode), q.priceColl);
  }

  /** In the operating range the contract computes exactly the exact plan. */
  lemma {:induction false} NoSaturation(q: Quote, mode: RepayMode)
    requires Operating(q)
    ensures ComputePlan(I128, q, mode) == ComputePlan(Unbounded, q, mode)
    ensures Liquidatable(I128, q) == Liquidatable(Unbounded, q)
    ensures Drained(I128, q, mode) == Drained(Unbounded, q, mode)
  {
    ExactHealth(q);
    ExactGross(q);
    ExactRepay(q, mode);
    ExactSeize(q, mode);
  }

  lemma {:induction false} StillOperating(q: Quote, plan: Plan)
    requires Operating(q) && 0 <= plan.seize <= q.coll && 0 <= plan.repay && 0 <= plan.badDebt
    requires plan.repay + plan.badDebt <= q.debt
    ensures Operating(After(q, plan))
  {
    MulLe(q.coll - plan.seize, q.coll, q.priceColl);
    MulLe(q.debt - plan.repay - plan.badDebt, q.debt, q.priceDebt);
  }

  /** When the contract itself leaves a health factor of at least 11/10. */
  lemma {:induction false} ContractMeetsTargetIff(q: Quote, mode: RepayMode)
    requires Operating(q) && Liquidatable(I128, q)
    requires ComputePlan(I128, q, mode).repay > 0 && !Drained(I128, q, mode)
    ensures var (num, den) := Health(I128, After(q, ComputePlan(I128, q, mode)));
            TARGET_HF_DEN * num >= TARGET_HF_NUM * den <==> Margin(q, mode) >= 0
  {
    NoSaturation(q, mode);
    PlanIsContained(I128, q, mode);
    StillOperating(q, ComputePlan(I128, q, mode));
    TargetIsMetIff(q, mode);
    ExactHealth(After(q, ComputePlan(I128, q, mode)));
  }

  /** When the contract can liquidate a position again. */
  lemma {:induction false} ContractLiquidatableAgainIff(q: Quote, mode: RepayMode)
    requires Operating(q) && Liquidatable(I128, q)
    requires ComputePlan(I128, q, mode).repay > 0 && !Drained(I128, q, mode)
    ensures Liquidatable(I128, After(q, ComputePlan(I128, q, mode))) <==> !LeavesHealthy(q, mode)
  {
    NoSaturation(q, mode);
    PlanIsContained(I128, q, mode);
    StillOperating(q, ComputePlan(I128, q, mode));
    LiquidatableAgainIff(q, mode);
    ExactHealth(After(q, ComputePlan(I128, q, mode)));
  }

  /** The target guarantee of the contract itself. */
  lemma {:induction false} ContractRestoresTarget(q: Quote)
    requires Operating(q) && Liquidatable(I128, q)
    requires ComputePlan(I128, q, PartialToTarget).repay > 0 && !Drained(I128, q, PartialToTarget)
    ensures var rest := After(q, ComputePlan(I128, q, PartialToTarget));
            && Operating(rest)
            && TARGET_HF_DEN * Health(I128, rest).0 + Slack(q) >= TARGET_HF_NUM * Health(I128, rest).1
  {
    NoSaturation(q, PartialToTarget);
    PlanIsContained(I128, q, PartialToTarget);
    StillOperating(q, ComputePlan(I128, q, PartialToTarget));
    PartialRestoresTarget(q);
    ExactHealth(After(q, ComputePlan(I128, q, PartialToTarget)));
  }
}
