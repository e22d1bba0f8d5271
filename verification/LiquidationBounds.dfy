/** What a liquidation plan guarantees, through every rounding step it takes.
    Facts stated for all widths hold of the saturating contract on every input; the
    others are about exact arithmetic, and `LiquidationWidth` carries them to the contract. */
module LiquidationBounds {
  import opened Arith
  import opened Constants
  import opened Liquidation

  // ----- Conversions -----

  lemma {:induction false} ToValue(w: Width, units: int, price: int)
    requires units >= 0 && price > 0
    ensures 0 <= UnitsToValue(w, units, price)
    ensures UnitsToValue(w, units, price) * PRICE_SCALE <= units * price
    ensures w.Unbounded? ==> units * price < UnitsToValue(w, units, price) * PRICE_SCALE + PRICE_SCALE
  {
    assert units * price >= 0;
    Floor(Mul(w, units, price), PRICE_SCALE);
  }

  lemma {:induction false} ToUnits(w: Width, value: int, price: int)
    requires value >= 0 && price > 0
    ensures 0 <= ValueToUnits(w, value, price)
    ensures ValueToUnits(w, value, price) * price <= value * PRICE_SCALE
    ensures w.Unbounded? ==> value * PRICE_SCALE < ValueToUnits(w, value, price) * price + price
  {
    Floor(Mul(w, value, PRICE_SCALE), price);
  }

  /** Without a positive price nothing is worth anything, and no value buys anything. */
  lemma {:induction false} NoPriceNoWorth(w: Width, x: int, price: int)
    requires price <= 0
    ensures UnitsToValue(w, x, price) == 0 && ValueToUnits(w, x, price) == 0
  {
  }

  /** A value that some units are worth at least buys no more than those units. */
  lemma {:induction false} UnitsCovered(w: Width, value: int, units: int, price: int)
    requires value >= 0 && price > 0 && value * PRICE_SCALE <= units * price
    ensures 0 <= ValueToUnits(w, value, price) <= units
  {
    ToUnits(w, value, price);
    Cancel(ValueToUnits(w, value, price), units, price);
  }

  /** Converting to value and back never creates units and loses less than one value unit plus one token. */
  lemma {:induction false} ConversionRoundTrip(units: int, price: int)
    requires units >= 0 && price > 0
    ensures var back := ValueToUnits(Unbounded, UnitsToValue(Unbounded, units, price), price);
            0 <= back <= units && (units - back) * price < PRICE_SCALE + price
  {
    var v := UnitsToValue(Unbounded, units, price);
    ToValue(Unbounded, units, price);
    ToUnits(Unbounded, v, price);
    UnitsCovered(Unbounded, v, units, price);
    var back := ValueToUnits(Unbounded, v, price);
    assert (units - back) * price == units * price - back * price;
  }

  // ----- Every plan, at every width -----

  lemma {:induction false} RepayValueBounds(w: Width, q: Quote, mode: RepayMode)
    requires q.debt >= 0 && q.priceDebt > 0
    ensures 0 <= RepayValue(w, q, mode) <= DebtValue(w, q)
    ensures RepayValue(w, q, mode) <= Max(Affordable(w, q), 0)
    ensures 0 <= SeizeValue(w, q, mode)
  {
    ToValue(w, q.debt, q.priceDebt);
    NonNegativeShare(w, RepayValue(w, q, mode), Gross(w, q));
  }

  lemma {:induction false} NonNegativeShare(w: Width, value: int, gross: int)
    requires value >= 0 && gross >= 0
    ensures Quot(Mul(w, value, gross), BPS) >= 0
  {
    assert value * gross >= 0;
    Floor(Mul(w, value, gross), BPS);
  }

  lemma {:induction false} RepayUnitsBounds(w: Width, q: Quote, mode: RepayMode)
    requires q.debt >= 0 && q.priceDebt > 0
    ensures 0 <= RepayUnits(w, q, mode) <= q.debt
    ensures RepayUnits(w, q, mode) == ValueToUnits(w, RepayValue(w, q, mode), q.priceDebt)
  {
    RepayValueBounds(w, q, mode);
    ToValue(w, q.debt, q.priceDebt);
    UnitsCovered(w, RepayValue(w, q, mode), q.debt, q.priceDebt);
  }

  /** A plan never takes more than the position holds, and the debt it clears is either
      repaid or written off, never partly written off. Healthy positions are untouched. */
  lemma {:induction false} PlanIsContained(w: Width, q: Quote, mode: RepayMode)
    requires Sound(q)
    ensures var p := ComputePlan(w, q, mode);
            && 0 <= p.repay <= q.debt
            && 0 <= p.seize <= q.coll
            && 0 <= p.bonus <= q.params.penaltyCap
            && (p.badDebt == 0 || p.badDebt == q.debt - p.repay)
            && (p.repay == 0 ==> p.seize == 0)
            && (!Liquidatable(w, q) ==> p.repay == p.seize == p.badDebt == 0)
            && (Liquidatable(w, q) ==> p.repay > 0 || p.badDebt > 0)
  {
    RepayUnitsBounds(w, q, mode);
    ToValue(w, q.debt, q.priceDebt);
    if q.debt == 0 {
      assert DebtValue(w, q) == 0;
    }
  }

  /** A seizure short of the collateral's value leaves some collateral behind, so a borrower who
      keeps debt keeps collateral: no plan leaves debt without collateral. */
  lemma {:induction false} NoDebtWithoutCollateral(w: Width, q: Quote, mode: RepayMode)
    requires Sound(q) && Liquidatable(w, q)
    ensures var rest := After(q, ComputePlan(w, q, mode));
            rest.coll == 0 ==> rest.debt == 0
  {
    PlanIsContained(w, q, mode);
    if RepayUnits(w, q, mode) != 0 && !Drained(w, q, mode) {
      UndrainedLeavesCollateral(w, q, mode);
    }
  }

  lemma {:induction false} UndrainedLeavesCollateral(w: Width, q: Quote, mode: RepayMode)
    requires Sound(q) && RepayUnits(w, q, mode) != 0 && !Drained(w, q, mode)
    ensures SeizeUnits(w, q, mode) < q.coll
  {
    ToValue(w, q.coll, q.priceColl);
    RepayValueBounds(w, q, mode);
    if CollValue(w, q) == 0 {
      WorthlessIsUnaffordable(w, q);
      RepayUnitsBounds(w, q, mode);
      ZeroUnits(w, q.priceDebt);
    } else {
      UnitsBelow(w, SeizeValue(w, q, mode), CollValue(w, q), q.coll, q.priceColl);
    }
  }

  lemma {:induction false} ZeroUnits(w: Width, price: int)
    requires price > 0
    ensures ValueToUnits(w, 0, price) == 0
  {
    UnitsCovered(w, 0, 0, price);
  }

  lemma {:induction false} WorthlessIsUnaffordable(w: Width, q: Quote)
    requires CollValue(w, q) == 0
    ensures Affordable(w, q) <= 0
  {
    FloorGe(Gross(w, q) - 1, Gross(w, q), 1);
  }

  lemma {:induction false} UnitsBelow(w: Width, value: int, worth: int, units: int, price: int)
    requires 0 <= value < worth && price > 0 && worth * PRICE_SCALE <= units * price
    ensures ValueToUnits(w, value, price) < units
  {
    ToUnits(w, value, price);
    if ValueToUnits(w, value, price) >= units {
      MulLe(units, ValueToUnits(w, value, price), price);
    }
  }

  // ----- Draining -----

  /** The affordability cap is the collateral value divided by the gross factor, rounded up. */
  lemma {:induction false} AffordableIsCeiling(q: Quote)
    requires Sound(q)
    ensures Affordable(Unbounded, q) == CeilDiv(CollValue(Unbounded, q) * BPS, Gross(Unbounded, q))
    ensures Affordable(Unbounded, q) >= 0
  {
    ToValue(Unbounded, q.coll, q.priceColl);
    Floor(CollValue(Unbounded, q) * BPS + Gross(Unbounded, q) - 1, Gross(Unbounded, q));
  }

  /** Repaying r seizes all of the collateral value exactly when r reaches the rounded-up cap. */
  lemma {:induction false} SeizesAllIff(q: Quote, r: int)
    requires Sound(q) && r >= 0
    ensures r * Gross(Unbounded, q) / BPS >= CollValue(Unbounded, q) <==> r >= Affordable(Unbounded, q)
  {
    var c, g := CollValue(Unbounded, q), Gross(Unbounded, q);
    AffordableIsCeiling(q);
    FloorGe(r * g, BPS, c);
    CeilLe(c * BPS, g, r);
  }

  /** A repayment happens only against collateral of positive value. */
  lemma {:induction false} RepaymentNeedsCollateral(q: Quote, mode: RepayMode)
    requires Sound(q) && RepayUnits(Unbounded, q, mode) > 0
    ensures RepayValue(Unbounded, q, mode) > 0 && CollValue(Unbounded, q) > 0
  {
    ToValue(Unbounded, q.coll, q.priceColl);
    RepayValueBounds(Unbounded, q, mode);
    RepayUnitsBounds(Unbounded, q, mode);
    ToUnits(Unbounded, RepayValue(Unbounded, q, mode), q.priceDebt);
    SeizesAllIff(q, 0);
  }

  /** A plan drains the position exactly when its repayment sits at the rounded-up cap. */
  lemma {:induction false} DrainedIffAtCap(q: Quote, mode: RepayMode)
    requires Sound(q) && RepayUnits(Unbounded, q, mode) > 0
    ensures Drained(Unbounded, q, mode) <==> RepayValue(Unbounded, q, mode) == Affordable(Unbounded, q)
  {
    RepaymentNeedsCollateral(q, mode);
    RepayValueBounds(Unbounded, q, mode);
    AffordableIsCeiling(q);
    SeizesAllIff(q, RepayValue(Unbounded, q, mode));
  }

  /** Only a position whose collateral does not cover its debt plus the bonus can be drained, in any
      mode; a full liquidation drains exactly those. */
  lemma {:induction false} DrainedOnlyUnderwater(q: Quote, mode: RepayMode)
    requires Sound(q) && RepayUnits(Unbounded, q, mode) > 0
    ensures var underwater := DebtValue(Unbounded, q) * Gross(Unbounded, q) >= CollValue(Unbounded, q) * BPS;
            && (Drained(Unbounded, q, mode) ==> underwater)
            && (mode.Full? ==> (Drained(Unbounded, q, mode) <==> underwater))
  {
    DrainedIffAtCap(q, mode);
    RepayValueBounds(Unbounded, q, mode);
    AffordableIsCeiling(q);
    CeilLe(CollValue(Unbounded, q) * BPS, Gross(Unbounded, q), DebtValue(Unbounded, q));
  }

  /** When no repayment can reach the target, a partial liquidation repays up to the cap and drains. */
  lemma {:induction false} UnreachableTargetDrains(q: Quote)
    requires Sound(q) && Liquidatable(Unbounded, q) && Reach(Unbounded, q) <= 0
    ensures RepayValue(Unbounded, q, PartialToTarget) == Affordable(Unbounded, q)
    ensures RepayUnits(Unbounded, q, PartialToTarget) > 0 ==> Drained(Unbounded, q, PartialToTarget)
  {
    var c, d, g := CollValue(Unbounded, q), DebtValue(Unbounded, q), Gross(Unbounded, q);
    ToValue(Unbounded, q.debt, q.priceDebt);
    ToValue(Unbounded, q.coll, q.priceColl);
    AffordableIsCeiling(q);
    CapBelowDebt(c, d, g, q.threshold);
    CeilLe(c * BPS, g, d);
    if RepayUnits(Unbounded, q, PartialToTarget) > 0 {
      DrainedIffAtCap(q, PartialToTarget);
    }
  }

  lemma {:induction false} CapBelowDebt(c: int, d: int, g: int, t: int)
    requires c >= 0 && d >= 0 && g >= 0 && t >= 0
    requires c * t < d * BPS && 10 * g * t >= 11 * BPS * BPS
    ensures c * BPS <= d * g
  {
    assert t > 0;
    assert (c * BPS) * t == (c * t) * BPS;
    MulLe(11 * BPS * BPS, 10 * g * t, d);
    assert (10 * g * t) * d == 10 * ((d * g) * t);
    Cancel(c * BPS, d * g, t);
  }
}
