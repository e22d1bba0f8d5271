/** What the liquidator is entitled to, what dust a liquidation leaves, and when debt is written off. */
module LiquidationLimits {
  import opened Arith
  import opened Constants
  import opened Liquidation
  import opened LiquidationBounds
  import opened LiquidationTarget

  // ----- Entitlements and dust -----

  lemma {:induction false} SeizedWorth(w: Width, q: Quote, mode: RepayMode)
    requires Sound(q)
    ensures 0 <= SeizeUnits(w, q, mode) <= q.coll
    ensures SeizeUnits(w, q, mode) * q.priceColl <= SeizeValue(w, q, mode) * PRICE_SCALE
    ensures w.Unbounded? && SeizeUnits(w, q, mode) != q.coll ==>
              SeizeValue(w, q, mode) * PRICE_SCALE < SeizeUnits(w, q, mode) * q.priceColl + q.priceColl
  {
    RepayValueBounds(w, q, mode);
    var sv := SeizeValue(w, q, mode);
    ToUnits(w, sv, q.priceColl);
    MulLe(SeizeUnits(w, q, mode), ValueToUnits(w, sv, q.priceColl), q.priceColl);
  }

  /** Through every rounding and saturating step, what the liquidator seizes is worth less than the gross
      of one token more than what was repaid. */
  lemma {:induction false} LiquidatorTakeIsBounded(w: Width, q: Quote, mode: RepayMode)
    requires Sound(q)
    ensures var plan := ComputePlan(w, q, mode);
            plan.seize * q.priceColl * BPS < (BPS + plan.bonus) * (plan.repay + 1) * q.priceDebt
    ensures ComputePlan(w, q, mode).bonus <= q.params.penaltyCap
  {
    if ComputePlan(w, q, mode).repay > 0 {
      TakeOfRepayment(w, q, mode);
    } else {
      PlanIsContained(w, q, mode);
      NothingTaken(Gross(w, q), q.priceDebt);
    }
  }

  lemma {:induction false} NothingTaken(g: int, price: int)
    requires g > 0 && price > 0
    ensures 0 < g * (0 + 1) * price
  {
  }

  lemma {:induction false} TakeOfRepayment(w: Width, q: Quote, mode: RepayMode)
    requires Sound(q)
    ensures SeizeUnits(w, q, mode) * q.priceColl * BPS
          < Gross(w, q) * (RepayUnits(w, q, mode) + 1) * q.priceDebt
  {
    SeizedWorth(w, q, mode);
    RepaidWorth(w, q, mode);
    TakeArithmetic(SeizeUnits(w, q, mode), q.priceColl, SeizeValue(w, q, mode),
                   RepayValue(w, q, mode), Gross(w, q), RepayUnits(w, q, mode), q.priceDebt);
  }

  lemma {:induction false} RepaidWorth(w: Width, q: Quote, mode: RepayMode)
    requires Sound(q)
    ensures RepayValue(w, q, mode) * PRICE_SCALE < (RepayUnits(w, q, mode) + 1) * q.priceDebt
    ensures SeizeValue(w, q, mode) * BPS <= RepayValue(w, q, mode) * Gross(w, q)
  {
    var r := RepayValue(w, q, mode);
    RepayValueBounds(w, q, mode);
    RepayUnitsBounds(w, q, mode);
    DebtValueFits(w, q);
    OneMoreUnitCovers(w, r, q.priceDebt);
    SeizedFromRepaid(w, r, Gross(w, q));
  }

  /** A saturated debt value still converts back without saturating. */
  lemma {:induction false} DebtValueFits(w: Width, q: Quote)
    requires q.debt >= 0 && q.priceDebt > 0
    ensures w.I128? ==> DebtValue(w, q) * PRICE_SCALE <= I128_MAX
  {
    assert q.debt * q.priceDebt >= 0;
    Floor(Mul(w, q.debt, q.priceDebt), PRICE_SCALE);
  }

  lemma {:induction false} OneMoreUnitCovers(w: Width, value: int, price: int)
    requires value >= 0 && price > 0 && (w.I128? ==> value * PRICE_SCALE <= I128_MAX)
    ensures value * PRICE_SCALE < (ValueToUnits(w, value, price) + 1) * price
  {
    Floor(value * PRICE_SCALE, price);
    var k := ValueToUnits(w, value, price);
    assert (k + 1) * price == k * price + price;
  }

  lemma {:induction false} SeizedFromRepaid(w: Width, r: int, g: int)
    requires r >= 0 && g >= 0
    ensures 0 <= Quot(Mul(w, r, g), BPS) * BPS <= r * g
  {
    assert r * g >= 0;
    Floor(Mul(w, r, g), BPS);
  }

  lemma {:induction false} TakeArithmetic(su: int, pc: int, sv: int, r: int, g: int, ru: int, pd: int)
    requires su * pc <= sv * PRICE_SCALE && sv * BPS <= r * g && r * PRICE_SCALE < (ru + 1) * pd && g > 0
    ensures su * pc * BPS < g * (ru + 1) * pd
  {
    MulLe(r * PRICE_SCALE + 1, (ru + 1) * pd, g);
    assert (r * PRICE_SCALE + 1) * g == (r * g) * PRICE_SCALE + g;
    assert ((ru + 1) * pd) * g == g * (ru + 1) * pd;
  }

  /** And it is worth at least the gross of the repayment, less one collateral token and one value unit, unless it is
      all of the collateral. */
  lemma {:induction false} LiquidatorTakeIsSubstantial(q: Quote, mode: RepayMode)
    requires Sound(q)
    ensures var plan := ComputePlan(Unbounded, q, mode);
            || plan.repay == 0 || plan.seize == q.coll
            || (plan.seize + 1) * q.priceColl * BPS + BPS * PRICE_SCALE
               > (BPS + plan.bonus) * plan.repay * q.priceDebt
  {
    var plan := ComputePlan(Unbounded, q, mode);
    if plan.repay > 0 && plan.seize != q.coll {
      var r := RepayValue(Unbounded, q, mode);
      RepayValueBounds(Unbounded, q, mode);
      RepayUnitsBounds(Unbounded, q, mode);
      SeizedWorth(Unbounded, q, mode);
      SeizedExactly(q, mode);
      ToUnits(Unbounded, r, q.priceDebt);
      WorthOfTake(plan.seize, q.priceColl, SeizeValue(Unbounded, q, mode), r, Gross(Unbounded, q),
                  plan.repay, q.priceDebt);
    }
  }

  lemma {:induction false} WorthOfTake(su: int, pc: int, sv: int, r: int, g: int, ru: int, pd: int)
    requires sv * PRICE_SCALE < su * pc + pc && r * g < BPS * sv + BPS && ru * pd <= r * PRICE_SCALE && g > 0
    ensures (su + 1) * pc * BPS + BPS * PRICE_SCALE > g * ru * pd
  {
    MulLe(ru * pd, r * PRICE_SCALE, g);
    assert ru * pd * g == g * ru * pd && r * PRICE_SCALE * g == r * g * PRICE_SCALE;
    assert (su + 1) * pc == su * pc + pc;
  }

  /** A drained position keeps only collateral dust and no debt. */
  lemma {:induction false} DrainedLeavesDust(q: Quote, mode: RepayMode)
    requires Sound(q) && Liquidatable(Unbounded, q)
    requires RepayUnits(Unbounded, q, mode) > 0 && Drained(Unbounded, q, mode)
    ensures var rest := After(q, ComputePlan(Unbounded, q, mode));
            rest.debt == 0 && rest.coll >= 0 && rest.coll * q.priceColl < PRICE_SCALE + q.priceColl
  {
    RepayUnitsBounds(Unbounded, q, mode);
    SeizedWorth(Unbounded, q, mode);
    ToValue(Unbounded, q.coll, q.priceColl);
    DustArithmetic(q.coll, SeizeUnits(Unbounded, q, mode), q.priceColl,
                   CollValue(Unbounded, q), SeizeValue(Unbounded, q, mode));
  }

  /** A drained position keeps no collateral if and only if what the rounded-up cap seizes covers the units exactly,
      as it does whenever these are worth a whole number of value units. */
  lemma {:induction false} DrainedEmptiesIff(q: Quote, mode: RepayMode)
    requires Sound(q) && Liquidatable(Unbounded, q)
    requires RepayUnits(Unbounded, q, mode) > 0 && Drained(Unbounded, q, mode)
    ensures var rest := After(q, ComputePlan(Unbounded, q, mode));
            && (rest.coll == 0
                <==> Affordable(Unbounded, q) * Gross(Unbounded, q) / BPS * PRICE_SCALE >= q.coll * q.priceColl)
            && (q.coll * q.priceColl % PRICE_SCALE == 0 ==> rest.coll == 0)
  {
    RepayValueBounds(Unbounded, q, mode);
    DrainedIffAtCap(q, mode);
    SeizedAtCap(q, mode);
    UnitsReachedIff(SeizeValue(Unbounded, q, mode), q.coll, q.priceColl);
    WholeWorthIsReached(q.coll, q.priceColl, SeizeValue(Unbounded, q, mode));
  }

  lemma {:induction false} SeizedAtCap(q: Quote, mode: RepayMode)
    requires Sound(q) && RepayValue(Unbounded, q, mode) == Affordable(Unbounded, q)
    ensures SeizeValue(Unbounded, q, mode) == Affordable(Unbounded, q) * Gross(Unbounded, q) / BPS
  {
    RepayValueBounds(Unbounded, q, mode);
    NothingNegative(Affordable(Unbounded, q), Gross(Unbounded, q));
  }

  lemma {:induction false} NothingNegative(a: int, b: int)
    requires a >= 0 && b >= 0
    ensures a * b >= 0
  {
  }

  lemma {:induction false} UnitsReachedIff(value: int, units: int, price: int)
    requires value >= 0 && price > 0
    ensures ValueToUnits(Unbounded, value, price) >= units <==> value * PRICE_SCALE >= units * price
  {
    FloorGe(value * PRICE_SCALE, price, units);
  }

  lemma {:induction false} WholeWorthIsReached(units: int, price: int, value: int)
    requires units >= 0 && price > 0 && UnitsToValue(Unbounded, units, price) <= value
    ensures units * price % PRICE_SCALE == 0 ==> value * PRICE_SCALE >= units * price
  {
    assert units * price >= 0;
  }

  /** A full liquidation of this position drains it and leaves one unit of collateral. */
  lemma {:induction false} DrainedCanLeaveDust()
    ensures var q := Quote(10, 1_500, 33_333_333, 100_000_000, 8_000, LiqParams(500, 1_500, 2_000));
            && Sound(q) && Liquidatable(Unbounded, q) && Drained(Unbounded, q, Full)
            && ComputePlan(Unbounded, q, Full) == Plan(3, 9, 1_500, 1_497)
            && After(q, ComputePlan(Unbounded, q, Full)).coll == 1
  {
    var q := Quote(10, 1_500, 33_333_333, 100_000_000, 8_000, LiqParams(500, 1_500, 2_000));
    assert CollValue(Unbounded, q) == 3 && DebtValue(Unbounded, q) == 1_500;
    assert Bonus(Unbounded, q) == 1_500;
    assert Affordable(Unbounded, q) == 3;
    assert RepayValue(Unbounded, q, Full) == 3 && SeizeValue(Unbounded, q, Full) == 3;
    assert RepayUnits(Unbounded, q, Full) == 3 && SeizeUnits(Unbounded, q, Full) == 9;
  }

  lemma {:induction false} DustArithmetic(coll: int, su: int, price: int, c: int, sv: int)
    requires 0 <= su <= coll && price > 0 && c <= sv
    requires coll * price < c * PRICE_SCALE + PRICE_SCALE
    requires su == coll || sv * PRICE_SCALE < su * price + price
    ensures (coll - su) * price < PRICE_SCALE + price
  {
    assert (coll - su) * price == coll * price - su * price;
  }

  /** A full liquidation that does not drain the position repays all of the debt but dust. */
  lemma {:induction false} FullLeavesDust(q: Quote)
    requires Sound(q) && Liquidatable(Unbounded, q)
    requires RepayUnits(Unbounded, q, Full) > 0 && !Drained(Unbounded, q, Full)
    ensures var rest := After(q, ComputePlan(Unbounded, q, Full));
            0 <= rest.debt && rest.debt * q.priceDebt < PRICE_SCALE + q.priceDebt
  {
    DrainedIffAtCap(q, Full);
    AffordableIsCeiling(q);
    RepayValueBounds(Unbounded, q, Full);
    RepayUnitsBounds(Unbounded, q, Full);
    assert RepayValue(Unbounded, q, Full) == DebtValue(Unbounded, q);
    ConversionRoundTrip(q.debt, q.priceDebt);
  }

  /** A requested amount is never exceeded, at either width. */
  lemma {:induction false} RequestIsNeverExceeded(w: Width, q: Quote, units: i128)
    requires q.debt >= 0 && q.priceDebt > 0 && units >= 0
    ensures RepayUnits(w, q, Specified(units)) <= units
  {
    RepayValueBounds(w, q, Specified(units));
    RepayUnitsBounds(w, q, Specified(units));
    ToValue(w, units, q.priceDebt);
    MulLe(RepayValue(w, q, Specified(units)), UnitsToValue(w, units, q.priceDebt), PRICE_SCALE);
    UnitsCovered(w, RepayValue(w, q, Specified(units)), units, q.priceDebt);
  }

  /** It is met up to one value unit and one token unless the debt or the collateral caps it. */
  lemma {:induction false} RequestIsRespected(q: Quote, units: i128)
    requires Sound(q) && units >= 0
    ensures var repay := RepayUnits(Unbounded, q, Specified(units));
            && repay <= units
            && (UnitsToValue(Unbounded, units, q.priceDebt)
                  <= Min(DebtValue(Unbounded, q), Affordable(Unbounded, q)) ==>
                  (units - repay) * q.priceDebt < PRICE_SCALE + q.priceDebt)
  {
    var value := UnitsToValue(Unbounded, units, q.priceDebt);
    RepayValueBounds(Unbounded, q, Specified(units));
    RepayUnitsBounds(Unbounded, q, Specified(units));
    ToValue(Unbounded, units, q.priceDebt);
    MulLe(RepayValue(Unbounded, q, Specified(units)), value, PRICE_SCALE);
    UnitsCovered(Unbounded, RepayValue(Unbounded, q, Specified(units)), units, q.priceDebt);
    ConversionRoundTrip(units, q.priceDebt);
  }

  // ----- Write-offs -----

  /** What a mode asks for, capped by the debt and by what the collateral can back. */
  function Capped(w: Width, q: Quote, wanted: int): int {
    Min(Min(wanted, DebtValue(w, q)), Affordable(w, q))
  }

  lemma {:induction false} TargetIsNonNegative(w: Width, q: Quote, mode: RepayMode)
    requires q.debt >= 0 && q.priceDebt > 0
    ensures TargetValue(w, q, mode) >= 0
  {
    ToValue(w, q.debt, q.priceDebt);
    if mode.Specified? {
      ToValue(w, Max(mode.units, 0), q.priceDebt);
    }
  }

  lemma {:induction false} NoUnitsIff(w: Width, value: int, price: int)
    requires value >= 0 && price > 0 && (w.I128? ==> value * PRICE_SCALE <= I128_MAX)
    ensures ValueToUnits(w, value, price) == 0 <==> value * PRICE_SCALE < price
  {
    FloorGe(value * PRICE_SCALE, price, 0);
    FloorGe(value * PRICE_SCALE, price, 1);
  }

  /** Nothing is repaid exactly when the capped target is worth less than one debt token. */
  lemma {:induction false} RepaysNothingIff(w: Width, q: Quote, mode: RepayMode)
    requires q.debt >= 0 && q.priceDebt > 0
    ensures RepayUnits(w, q, mode) == 0
        <==> Capped(w, q, TargetValue(w, q, mode)) * PRICE_SCALE < q.priceDebt
  {
    TargetIsNonNegative(w, q, mode);
    RepayValueBounds(w, q, mode);
    RepayUnitsBounds(w, q, mode);
    DebtValueFits(w, q);
    NoUnitsIff(w, RepayValue(w, q, mode), q.priceDebt);
  }

  lemma {:induction false} LiquidatableIsPriced(w: Width, q: Quote)
    requires q.debt >= 0 && Liquidatable(w, q)
    ensures q.debt > 0 && q.priceDebt > 0
  {
  }

  /** At either width a plan repays nothing, seizes nothing and writes off the whole debt if and only if the capped
      target is worth less than one debt token; nothing else is ever written off against a position that is not
      drained. The collateral's price does not matter. */
  lemma {:induction false} UndrainedWriteOffIff(w: Width, q: Quote, mode: RepayMode)
    requires q.debt >= 0 && Liquidatable(w, q)
    ensures var plan := ComputePlan(w, q, mode);
            var dust := Capped(w, q, TargetValue(w, q, mode)) * PRICE_SCALE < q.priceDebt;
            && (plan == Plan(0, 0, Bonus(w, q), q.debt) <==> dust)
            && (plan.badDebt > 0 && !(plan.repay > 0 && Drained(w, q, mode)) <==> dust)
  {
    LiquidatableIsPriced(w, q);
    RepaysNothingIff(w, q, mode);
    RepayUnitsBounds(w, q, mode);
  }

  /** The same for a requested number of units, in terms of the request. */
  lemma {:induction false} RequestWritesOffIff(w: Width, q: Quote, units: i128)
    requires q.debt >= 0 && Liquidatable(w, q)
    ensures ComputePlan(w, q, Specified(units)) == Plan(0, 0, Bonus(w, q), q.debt)
        <==> Capped(w, q, UnitsToValue(w, Max(units, 0), q.priceDebt)) * PRICE_SCALE < q.priceDebt
  {
    UndrainedWriteOffIff(w, q, Specified(units));
  }

  /** When a request for one unit clears the debt for nothing: whenever the debt token is not worth a whole number
      of value units, or the debt or its backing is worth less than a token. */
  predicate OneUnitIsDust(w: Width, q: Quote) {
    q.priceDebt % PRICE_SCALE != 0 || Min(DebtValue(w, q), Affordable(w, q)) * PRICE_SCALE < q.priceDebt
  }

  lemma {:induction false} OneUnitIsDustIff(w: Width, q: Quote)
    requires q.debt >= 0 && q.priceDebt > 0
    ensures Capped(w, q, TargetValue(w, q, Specified(1))) * PRICE_SCALE < q.priceDebt <==> OneUnitIsDust(w, q)
  {
    UnitOfValue(w, q.priceDebt);
    DebtValueFits(w, q);
  }

  /** One unit's value is its price in whole value units, unless the price itself is not representable. */
  lemma {:induction false} UnitOfValue(w: Width, price: int)
    requires price > 0
    ensures var value := UnitsToValue(w, 1, price) * PRICE_SCALE;
            if w.I128? && price > I128_MAX then value < price else value == price - price % PRICE_SCALE
  {
  }

  lemma {:induction false} OneUnitWritesOffIff(w: Width, q: Quote)
    requires q.debt >= 0 && Liquidatable(w, q)
    ensures ComputePlan(w, q, Specified(1)) == Plan(0, 0, Bonus(w, q), q.debt) <==> OneUnitIsDust(w, q)
  {
    LiquidatableIsPriced(w, q);
    UndrainedWriteOffIff(w, q, Specified(1));
    OneUnitIsDustIff(w, q);
  }

  /** A full liquidation writes the debt off for nothing only when debt or backing are worth less than a token. */
  lemma {:induction false} FullWritesOffIff(w: Width, q: Quote)
    requires q.debt >= 0 && Liquidatable(w, q)
    ensures ComputePlan(w, q, Full) == Plan(0, 0, Bonus(w, q), q.debt)
        <==> Min(DebtValue(w, q), Affordable(w, q)) * PRICE_SCALE < q.priceDebt
  {
    UndrainedWriteOffIff(w, q, Full);
  }

  /** Full and partial liquidations repay at least a fixed share of what they could. */
  lemma {:induction false} RepaymentIsSubstantial(q: Quote, mode: RepayMode)
    requires Sound(q) && Liquidatable(Unbounded, q) && !mode.Specified?
    ensures RepayValue(Unbounded, q, mode)
         >= Min(DebtValue(Unbounded, q) / TARGET_HF_NUM, Affordable(Unbounded, q))
  {
    ToValue(Unbounded, q.debt, q.priceDebt);
    AffordableIsCeiling(q);
    TargetIsSubstantial(q, mode);
  }

  lemma {:induction false} TargetIsSubstantial(q: Quote, mode: RepayMode)
    requires Sound(q) && Liquidatable(Unbounded, q) && !mode.Specified?
    ensures TargetValue(Unbounded, q, mode) >= DebtValue(Unbounded, q) / TARGET_HF_NUM
  {
    if mode.PartialToTarget? && Reach(Unbounded, q) > 0 {
      ShortfallExceedsDebt(q);
      ReachAtMost(q);
      PartialTargetIs(q);
      EleventhOfDebt(BPS * Shortfall(Unbounded, q), Reach(Unbounded, q), DebtValue(Unbounded, q));
    } else {
      ToValue(Unbounded, q.debt, q.priceDebt);
    }
  }

  lemma {:induction false} PartialTargetIs(q: Quote)
    requires Reach(Unbounded, q) > 0 && Shortfall(Unbounded, q) > 0
    ensures TargetValue(Unbounded, q, PartialToTarget) == BPS * Shortfall(Unbounded, q) / Reach(Unbounded, q)
  {
    Floor(BPS * Shortfall(Unbounded, q), Reach(Unbounded, q));
  }

  lemma {:induction false} EleventhOfDebt(a: int, reach: int, d: int)
    requires a >= BPS * BPS * d && 0 < reach <= 11 * BPS * BPS && d >= 0
    ensures d / TARGET_HF_NUM <= a / reach
  {
    MulLe(reach, 11 * BPS * BPS, d);
    assert reach * d == d * reach;
    FloorMono(a, reach, d, TARGET_HF_NUM);
  }

  /** When a debt token is worth no more than the debt and the collateral can back, nor than what is requested,
      bad debt arises only from a drained position. */
  lemma {:induction false} WriteOffOnlyWhenDrained(q: Quote, mode: RepayMode)
    requires Sound(q) && Liquidatable(Unbounded, q)
    requires Min(DebtValue(Unbounded, q) / TARGET_HF_NUM, Affordable(Unbounded, q)) * PRICE_SCALE >= q.priceDebt
    requires mode.Specified? ==> UnitsToValue(Unbounded, Max(mode.units, 0), q.priceDebt) * PRICE_SCALE >= q.priceDebt
    ensures ComputePlan(Unbounded, q, mode).badDebt > 0 ==> Drained(Unbounded, q, mode)
  {
    ToValue(Unbounded, q.debt, q.priceDebt);
    if !mode.Specified? {
      TargetIsSubstantial(q, mode);
    }
    UndrainedWriteOffIff(Unbounded, q, mode);
  }

  /** The condition matters: asking for one unit clears the whole debt of this position, which is not even
      underwater and keeps all of its collateral. */
  lemma {:induction false} DustRequestWritesOffEverything()
    ensures var q := Quote(1_200, 1_000, 100_000_000, 99_999_999, 8_000, LiqParams(500, 1_500, 2_000));
            && Sound(q) && Liquidatable(Unbounded, q)
            && ComputePlan(Unbounded, q, Specified(1)) == Plan(0, 0, 578, 1_000)
            && CollValue(Unbounded, q) > DebtValue(Unbounded, q)
  {
    var q := Quote(1_200, 1_000, 100_000_000, 99_999_999, 8_000, LiqParams(500, 1_500, 2_000));
    assert CollValue(Unbounded, q) == 1_200 && DebtValue(Unbounded, q) == 999;
    assert Health(Unbounded, q) == (9_600_000, 9_990_000);
    assert Bonus(Unbounded, q) == 578;
    OneUnitWritesOffIff(Unbounded, q);
  }
}
