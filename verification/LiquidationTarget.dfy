/** How close a liquidation comes to the target health factor 11/10. */
module LiquidationTarget {
  import opened Arith
  import opened Constants
  import opened Liquidation
  import opened LiquidationBounds

  // ----- The target equation in value terms -----

  /** Health after repaying `r` value and seizing its gross, compared with 11/10 without rounding. */
  predicate MeetsTarget(q: Quote, r: int) {
    var c, d := CollValue(Unbounded, q), DebtValue(Unbounded, q);
    TARGET_HF_DEN * q.threshold * (c * BPS - r * Gross(Unbounded, q))
    >= TARGET_HF_NUM * BPS * BPS * (d - r)
  }

  /** A repayment meets the target exactly when it covers the shortfall at the rate `Reach`. */
  lemma {:induction false} MeetsTargetIff(q: Quote, r: int)
    ensures MeetsTarget(q, r) <==> r * Reach(Unbounded, q) >= BPS * Shortfall(Unbounded, q)
  {
    var c, d, g, t := CollValue(Unbounded, q), DebtValue(Unbounded, q), Gross(Unbounded, q), q.threshold;
    TargetEquation(c, d, g, t, r);
  }

  lemma {:induction false} TargetEquation(c: int, d: int, g: int, t: int, r: int)
    ensures 10 * t * (c * BPS - r * g) - 11 * BPS * BPS * (d - r)
         == r * (11 * BPS * BPS - 10 * g * t) - BPS * (11 * BPS * d - 10 * t * c)
  {
    assert 10 * t * (c * BPS - r * g) == BPS * (10 * t * c) - r * (10 * g * t);
    assert r * (11 * BPS * BPS - 10 * g * t) == 11 * BPS * BPS * r - r * (10 * g * t);
  }

  lemma {:induction false} ShortfallExceedsDebt(q: Quote)
    requires Sound(q) && Liquidatable(Unbounded, q)
    ensures Shortfall(Unbounded, q) > BPS * DebtValue(Unbounded, q) >= BPS
  {
    var c, d, t := CollValue(Unbounded, q), DebtValue(Unbounded, q), q.threshold;
    assert 10 * t * c == 10 * (c * t);
  }

  /** No repayment at all can bring a liquidatable position to the target when `Reach` is not positive. */
  lemma {:induction false} TargetUnreachable(q: Quote, r: int)
    requires Sound(q) && Liquidatable(Unbounded, q) && Reach(Unbounded, q) <= 0 && r >= 0
    ensures !MeetsTarget(q, r)
  {
    ShortfallExceedsDebt(q);
    MeetsTargetIff(q, r);
    MulLe(Reach(Unbounded, q), 0, r);
  }

  /** The computed target is the exact solution rounded down: one more value unit always meets the
      target, and the target itself meets it if and only if the division left no remainder. */
  lemma {:induction false} TargetValueIsFloor(q: Quote)
    requires Sound(q) && Liquidatable(Unbounded, q) && Reach(Unbounded, q) > 0
    ensures var r := TargetValue(Unbounded, q, PartialToTarget);
            && r >= 0
            && !MeetsTarget(q, r - 1)
            && MeetsTarget(q, r + 1)
            && (MeetsTarget(q, r) <==> (BPS * Shortfall(Unbounded, q)) % Reach(Unbounded, q) == 0)
  {
    ShortfallExceedsDebt(q);
    var r := TargetValue(Unbounded, q, PartialToTarget);
    FlooredRoot(BPS * Shortfall(Unbounded, q), Reach(Unbounded, q));
    MeetsTargetIff(q, r - 1);
    MeetsTargetIff(q, r);
    MeetsTargetIff(q, r + 1);
  }

  lemma {:induction false} FlooredRoot(a: int, b: int)
    requires a >= 0 && b > 0
    ensures var r := a / b;
            r >= 0 && (r - 1) * b < a <= (r + 1) * b && (r * b >= a <==> a % b == 0)
  {
    var r := a / b;
    Floor(a, b);
    assert (r - 1) * b == r * b - b && (r + 1) * b == r * b + b;
    assert a == r * b + a % b;
  }

  // ----- The health factor that is left, through every rounding -----

  /** Taking a value's worth of units from some units lowers their value by that value, except for what
      the remainders of the two conversions carry over. */
  function Carry(units: int, price: int, value: int): (carry: int)
    requires price > 0
    ensures carry >= 0
  {
    (units * price % PRICE_SCALE + value * PRICE_SCALE % price) / PRICE_SCALE
  }

  lemma {:induction false} ShiftedFloor(m: int, x: int)
    ensures (m * PRICE_SCALE + x) / PRICE_SCALE == m + x / PRICE_SCALE
  {
  }

  lemma {:induction false} ValueAfter(units: int, price: int, value: int)
    requires units >= 0 && price > 0 && 0 <= value && ValueToUnits(Unbounded, value, price) <= units
    ensures UnitsToValue(Unbounded, units - ValueToUnits(Unbounded, value, price), price)
         == UnitsToValue(Unbounded, units, price) - value + Carry(units, price, value)
  {
    var k, v := ValueToUnits(Unbounded, value, price), UnitsToValue(Unbounded, units, price);
    assert units * price >= 0 && (units - k) * price >= 0;
    assert (units - k) * price == units * price - k * price;
    assert value * PRICE_SCALE == k * price + value * PRICE_SCALE % price;
    assert units * price == v * PRICE_SCALE + units * price % PRICE_SCALE;
    ShiftedFloor(v - value, units * price % PRICE_SCALE + value * PRICE_SCALE % price);
  }

  function CollCarry(q: Quote, mode: RepayMode): int
    requires q.priceColl > 0
  {
    Carry(q.coll, q.priceColl, SeizeValue(Unbounded, q, mode))
  }

  function DebtCarry(q: Quote, mode: RepayMode): int
    requires q.priceDebt > 0
  {
    Carry(q.debt, q.priceDebt, RepayValue(Unbounded, q, mode))
  }

  /** The two values of a position after a plan that does not drain it. */
  lemma {:induction false} ValuesAfter(q: Quote, mode: RepayMode)
    requires Sound(q) && Liquidatable(Unbounded, q)
    requires RepayUnits(Unbounded, q, mode) > 0 && !Drained(Unbounded, q, mode)
    ensures var rest := After(q, ComputePlan(Unbounded, q, mode));
            && CollValue(Unbounded, rest)
               == CollValue(Unbounded, q) - SeizeValue(Unbounded, q, mode) + CollCarry(q, mode) >= 0
            && DebtValue(Unbounded, rest)
               == DebtValue(Unbounded, q) - RepayValue(Unbounded, q, mode) + DebtCarry(q, mode) >= 0
  {
    RepayValueBounds(Unbounded, q, mode);
    RepayUnitsBounds(Unbounded, q, mode);
    UndrainedSeizure(q, mode);
    ValueAfter(q.coll, q.priceColl, SeizeValue(Unbounded, q, mode));
    ValueAfter(q.debt, q.priceDebt, RepayValue(Unbounded, q, mode));
    ToValue(Unbounded, q.coll - SeizeUnits(Unbounded, q, mode), q.priceColl);
    ToValue(Unbounded, q.debt - RepayUnits(Unbounded, q, mode), q.priceDebt);
  }

  /** Short of draining, a seizure is not cut off by the collateral at hand. */
  lemma {:induction false} UndrainedSeizure(q: Quote, mode: RepayMode)
    requires Sound(q) && RepayUnits(Unbounded, q, mode) != 0 && !Drained(Unbounded, q, mode)
    ensures SeizeUnits(Unbounded, q, mode) == ValueToUnits(Unbounded, SeizeValue(Unbounded, q, mode), q.priceColl)
    ensures 0 <= SeizeUnits(Unbounded, q, mode) < q.coll
  {
    UndrainedLeavesCollateral(Unbounded, q, mode);
    RepayValueBounds(Unbounded, q, mode);
    ToUnits(Unbounded, SeizeValue(Unbounded, q, mode), q.priceColl);
  }

  /** What rounding the seizure down leaves with the borrower, in the units of the margin. */
  function Returned(q: Quote, mode: RepayMode): int
    requires q.priceColl > 0
  {
    10 * q.threshold * (RepayValue(Unbounded, q, mode) * Gross(Unbounded, q) % BPS + BPS * CollCarry(q, mode))
  }

  /** BPS times the distance of the resulting health comparison from the target, as the quote determines it:
      the value-level equation, what the seizure's rounding returns, and what the debt's rounding costs. */
  function Margin(q: Quote, mode: RepayMode): int
    requires q.priceColl > 0 && q.priceDebt > 0
  {
    RepayValue(Unbounded, q, mode) * Reach(Unbounded, q) - BPS * Shortfall(Unbounded, q)
    + Returned(q, mode)
    - 11 * BPS * BPS * DebtCarry(q, mode)
  }

  lemma {:induction false} MarginArithmetic(
      c: int, d: int, g: int, t: int, r: int, sv: int, cc: int, dc: int, c1: int, d1: int)
    requires BPS * sv == r * g - r * g % BPS && c1 == c - sv + cc && d1 == d - r + dc
    ensures BPS * (10 * (c1 * t) - 11 * (d1 * BPS))
         == r * (11 * BPS * BPS - 10 * g * t) - BPS * (11 * BPS * d - 10 * t * c)
            + 10 * t * (r * g % BPS + BPS * cc) - 11 * BPS * BPS * dc
  {
    TargetEquation(c, d, g, t, r);
    var x := r * g % BPS;
    assert BPS * c1 == (c * BPS - r * g) + (x + BPS * cc);
    Distribute(t, BPS * c1, c * BPS - r * g, x + BPS * cc);
    assert BPS * (c1 * t) == t * (BPS * c1);
  }

  lemma {:induction false} Distribute(t: int, a: int, b: int, c: int)
    requires a == b + c
    ensures t * a == t * b + t * c
  {
  }

  /** The health comparison a plan leaves, exactly. */
  lemma {:induction false} HealthAfter(q: Quote, mode: RepayMode)
    requires Sound(q) && Liquidatable(Unbounded, q)
    requires RepayUnits(Unbounded, q, mode) > 0 && !Drained(Unbounded, q, mode)
    ensures var (num, den) := Health(Unbounded, After(q, ComputePlan(Unbounded, q, mode)));
            BPS * (TARGET_HF_DEN * num - TARGET_HF_NUM * den) == Margin(q, mode)
  {
    var r, g := RepayValue(Unbounded, q, mode), Gross(Unbounded, q);
    var rest := After(q, ComputePlan(Unbounded, q, mode));
    ValuesAfter(q, mode);
    SeizedExactly(q, mode);
    MarginArithmetic(CollValue(Unbounded, q), DebtValue(Unbounded, q), g, q.threshold, r,
                     SeizeValue(Unbounded, q, mode), CollCarry(q, mode), DebtCarry(q, mode),
                     CollValue(Unbounded, rest), DebtValue(Unbounded, rest));
    EquationForm(q, r);
  }

  lemma {:induction false} SeizedExactly(q: Quote, mode: RepayMode)
    requires Sound(q)
    ensures var x := RepayValue(Unbounded, q, mode) * Gross(Unbounded, q);
            BPS * SeizeValue(Unbounded, q, mode) == x - x % BPS
  {
    RepayValueBounds(Unbounded, q, mode);
    var x := RepayValue(Unbounded, q, mode) * Gross(Unbounded, q);
    assert x >= 0;
    assert x == BPS * (x / BPS) + x % BPS;
  }

  lemma {:induction false} EquationForm(q: Quote, r: int)
    ensures r * Reach(Unbounded, q) - BPS * Shortfall(Unbounded, q)
         == r * (11 * BPS * BPS - 10 * Gross(Unbounded, q) * q.threshold)
            - BPS * (11 * BPS * DebtValue(Unbounded, q) - 10 * q.threshold * CollValue(Unbounded, q))
  {
  }

  /** The documented guarantee, settled for every mode: an undrained plan leaves a health factor of at least 11/10,
      recomputed from the units left, if and only if the margin of the quote is not negative. */
  lemma {:induction false} TargetIsMetIff(q: Quote, mode: RepayMode)
    requires Sound(q) && Liquidatable(Unbounded, q)
    requires RepayUnits(Unbounded, q, mode) > 0 && !Drained(Unbounded, q, mode)
    ensures var (num, den) := Health(Unbounded, After(q, ComputePlan(Unbounded, q, mode)));
            TARGET_HF_DEN * num >= TARGET_HF_NUM * den <==> Margin(q, mode) >= 0
  {
    HealthAfter(q, mode);
  }

  /** For a partial liquidation that repays its target the question is one of remainders alone: 11/10 is met if and
      only if what the seizure's rounding returns covers what rounding the target and the debt takes. */
  lemma {:induction false} PartialTargetIff(q: Quote)
    requires Sound(q) && Liquidatable(Unbounded, q) && Reach(Unbounded, q) > 0
    requires RepayUnits(Unbounded, q, PartialToTarget) > 0 && !Drained(Unbounded, q, PartialToTarget)
    requires RepayValue(Unbounded, q, PartialToTarget) == TargetValue(Unbounded, q, PartialToTarget)
    ensures var (num, den) := Health(Unbounded, After(q, ComputePlan(Unbounded, q, PartialToTarget)));
            TARGET_HF_DEN * num >= TARGET_HF_NUM * den
            <==> Returned(q, PartialToTarget)
                 >= BPS * Shortfall(Unbounded, q) % Reach(Unbounded, q) + 11 * BPS * BPS * DebtCarry(q, PartialToTarget)
  {
    TargetIsMetIff(q, PartialToTarget);
    TargetRemainder(q);
  }

  lemma {:induction false} TargetRemainder(q: Quote)
    requires Sound(q) && Liquidatable(Unbounded, q) && Reach(Unbounded, q) > 0
    ensures TargetValue(Unbounded, q, PartialToTarget) * Reach(Unbounded, q) - BPS * Shortfall(Unbounded, q)
         == -(BPS * Shortfall(Unbounded, q) % Reach(Unbounded, q))
  {
    ShortfallExceedsDebt(q);
    var a, b := BPS * Shortfall(Unbounded, q), Reach(Unbounded, q);
    Floor(a, b);
    assert a == (a / b) * b + a % b;
  }

  /** So a partial liquidation meets the target when its division leaves no remainder and the debt's conversions
      carry nothing, as they do when the repayment is worth a whole number of tokens. */
  lemma {:induction false} EvenDivisionsMeetTarget(q: Quote)
    requires Sound(q) && Liquidatable(Unbounded, q)
    requires RepayUnits(Unbounded, q, PartialToTarget) > 0 && !Drained(Unbounded, q, PartialToTarget)
    requires Reach(Unbounded, q) > 0 ==> BPS * Shortfall(Unbounded, q) % Reach(Unbounded, q) == 0
    requires DebtCarry(q, PartialToTarget) == 0 ||
             RepayValue(Unbounded, q, PartialToTarget) * PRICE_SCALE % q.priceDebt == 0
    ensures var (num, den) := Health(Unbounded, After(q, ComputePlan(Unbounded, q, PartialToTarget)));
            TARGET_HF_DEN * num >= TARGET_HF_NUM * den
  {
    UndrainedRepayment(q);
    if RepayValue(Unbounded, q, PartialToTarget) == DebtValue(Unbounded, q) {
      DebtCleared(q);
    } else {
      CollateralRoundingHelps(q, PartialToTarget);
      PartialTargetIff(q);
    }
  }

  lemma {:induction false} CollateralRoundingHelps(q: Quote, mode: RepayMode)
    requires Sound(q)
    ensures Returned(q, mode) >= 0
  {
    NonNegativeWeight(q.threshold, RepayValue(Unbounded, q, mode) * Gross(Unbounded, q) % BPS, CollCarry(q, mode));
  }

  lemma {:induction false} NonNegativeWeight(t: int, x: int, carry: int)
    requires t >= 0 && x >= 0 && carry >= 0
    ensures 10 * t * (x + BPS * carry) >= 0
  {
  }

  /** What unit rounding can cost: one value unit of repayment and what the debt's remainders carry over, each
      weighing 11 * BPS in the comparison. */
  function Slack(q: Quote): int
    requires q.priceDebt > 0
  {
    TARGET_HF_NUM * BPS * (1 + DebtCarry(q, PartialToTarget))
  }

  /** The carry per price: below one value unit a token carries at most one, a token worth a whole number of
      value units carries less than that number, and none at a price of exactly one. */
  lemma {:induction false} DebtCarryBound(q: Quote, mode: RepayMode)
    requires q.priceDebt > 0
    ensures 0 <= DebtCarry(q, mode) <= (PRICE_SCALE + q.priceDebt - 2) / PRICE_SCALE
    ensures q.priceDebt % PRICE_SCALE == 0 ==> DebtCarry(q, mode) < q.priceDebt / PRICE_SCALE
  {
    var a := q.debt * q.priceDebt;
    var r := RepayValue(Unbounded, q, mode);
    FloorMono(PRICE_SCALE + q.priceDebt - 2, PRICE_SCALE,
              a % PRICE_SCALE + r * PRICE_SCALE % q.priceDebt, PRICE_SCALE);
    if q.priceDebt % PRICE_SCALE == 0 {
      WholePriceCarry(q.debt, q.priceDebt / PRICE_SCALE, r);
    }
  }

  lemma {:induction false} WholePriceCarry(units: int, m: int, value: int)
    requires m > 0
    ensures units * (m * PRICE_SCALE) % PRICE_SCALE == 0
    ensures Carry(units, m * PRICE_SCALE, value) < m
  {
    assert units * (m * PRICE_SCALE) == (units * m) * PRICE_SCALE;
    ShiftedFloor(units * m, 0);
    var x := value * PRICE_SCALE % (m * PRICE_SCALE);
    assert 0 <= x < m * PRICE_SCALE;
    FloorGe(x, PRICE_SCALE, m);
  }

  /** A partial liquidation that does not drain the position misses the target health factor,
      recomputed from the units that are left, by no more than an explicit rounding slack. */
  lemma {:induction false} PartialRestoresTarget(q: Quote)
    requires Sound(q) && Liquidatable(Unbounded, q)
    requires RepayUnits(Unbounded, q, PartialToTarget) > 0 && !Drained(Unbounded, q, PartialToTarget)
    ensures var (num, den) := Health(Unbounded, After(q, ComputePlan(Unbounded, q, PartialToTarget)));
            TARGET_HF_DEN * num + Slack(q) >= TARGET_HF_NUM * den
  {
    UndrainedRepayment(q);
    if RepayValue(Unbounded, q, PartialToTarget) == DebtValue(Unbounded, q) {
      DebtCleared(q);
    } else {
      MarginAtTarget(q);
      HealthAfter(q, PartialToTarget);
    }
  }

  /** When the whole debt value is repaid, what is left of the debt is what the rounding carries over. */
  lemma {:induction false} DebtCleared(q: Quote)
    requires Sound(q) && Liquidatable(Unbounded, q)
    requires RepayUnits(Unbounded, q, PartialToTarget) > 0 && !Drained(Unbounded, q, PartialToTarget)
    requires RepayValue(Unbounded, q, PartialToTarget) == DebtValue(Unbounded, q)
    ensures var (num, den) := Health(Unbounded, After(q, ComputePlan(Unbounded, q, PartialToTarget)));
            num >= 0 && den == BPS * DebtCarry(q, PartialToTarget)
  {
    ValuesAfter(q, PartialToTarget);
    NonNegativeProduct(CollValue(Unbounded, After(q, ComputePlan(Unbounded, q, PartialToTarget))), q.threshold);
  }

  lemma {:induction false} NonNegativeProduct(a: int, b: int)
    requires a >= 0 && b >= 0
    ensures a * b >= 0
  {
  }

  lemma {:induction false} MarginAtTarget(q: Quote)
    requires Sound(q) && Liquidatable(Unbounded, q)
    requires RepayUnits(Unbounded, q, PartialToTarget) > 0 && !Drained(Unbounded, q, PartialToTarget)
    requires Reach(Unbounded, q) > 0
    requires RepayValue(Unbounded, q, PartialToTarget) == TargetValue(Unbounded, q, PartialToTarget)
    ensures Margin(q, PartialToTarget) >= -BPS * Slack(q)
  {
    TargetMissedByLessThanOne(q);
    CollateralRoundingHelps(q, PartialToTarget);
  }

  lemma {:induction false} TargetMissedByLessThanOne(q: Quote)
    requires Sound(q) && Liquidatable(Unbounded, q) && Reach(Unbounded, q) > 0
    ensures TargetValue(Unbounded, q, PartialToTarget) * Reach(Unbounded, q) - BPS * Shortfall(Unbounded, q)
         >= -11 * BPS * BPS
  {
    TargetRemainder(q);
    ReachAtMost(q);
  }

  lemma {:induction false} ReachAtMost(q: Quote)
    ensures Reach(Unbounded, q) <= 11 * BPS * BPS
  {
    ProductOfThree(Gross(Unbounded, q), q.threshold);
  }

  lemma {:induction false} ProductOfThree(g: int, t: int)
    requires g >= 0 && t >= 0
    ensures 10 * g * t >= 0
  {
  }

  /** Below the cap a partial liquidation repays either the whole debt value or the target. */
  lemma {:induction false} UndrainedRepayment(q: Quote)
    requires Sound(q) && Liquidatable(Unbounded, q)
    requires RepayUnits(Unbounded, q, PartialToTarget) > 0 && !Drained(Unbounded, q, PartialToTarget)
    ensures var r := RepayValue(Unbounded, q, PartialToTarget);
            r == DebtValue(Unbounded, q) ||
            (Reach(Unbounded, q) > 0 && r == TargetValue(Unbounded, q, PartialToTarget))
  {
    DrainedIffAtCap(q, PartialToTarget);
    AffordableIsCeiling(q);
    RepayValueBounds(Unbounded, q, PartialToTarget);
    ToValue(Unbounded, q.debt, q.priceDebt);
  }

  /** The guarantee fails even where the value-level target is met exactly: nothing remains of the target division
      here, yet the tokens left miss 11/10. */
  lemma {:induction false} EvenTargetCanMiss()
    ensures var q := Quote(1_870, 1_588, 100_000_000, 100_000_001, 8_000, LiqParams(500, 1_500, 2_000));
            && Sound(q) && Liquidatable(Unbounded, q)
            && RepayUnits(Unbounded, q, PartialToTarget) > 0 && !Drained(Unbounded, q, PartialToTarget)
            && MeetsTarget(q, TargetValue(Unbounded, q, PartialToTarget))
            && var (num, den) := Health(Unbounded, After(q, ComputePlan(Unbounded, q, PartialToTarget)));
            TARGET_HF_DEN * num + 70_000 == TARGET_HF_NUM * den
  {
    var q := Quote(1_870, 1_588, 100_000_000, 100_000_001, 8_000, LiqParams(500, 1_500, 2_000));
    assert CollValue(Unbounded, q) == 1_870 && DebtValue(Unbounded, q) == 1_588;
    assert Bonus(Unbounded, q) == 615;
    assert Reach(Unbounded, q) == 250_800_000 && Shortfall(Unbounded, q) == 25_080_000;
    assert TargetValue(Unbounded, q, PartialToTarget) == 1_000;
    MeetsTargetIff(q, 1_000);
    assert RepayValue(Unbounded, q, PartialToTarget) == 1_000;
    assert RepayUnits(Unbounded, q, PartialToTarget) == 999;
    assert SeizeValue(Unbounded, q, PartialToTarget) == 1_061;
    assert SeizeUnits(Unbounded, q, PartialToTarget) == 1_061;
  }

  /** The slack is needed and is nearly all used: on this position the target is missed
      by 219_970 of the 220_000 allowed, so the stated guarantee without slack is false. */
  lemma {:induction false} SlackIsNeeded()
    ensures var q := Quote(297_461, 261, 33_333_333, 50_076_426, 1, LiqParams(0, 2_500, 2_500));
            && Sound(q) && Liquidatable(Unbounded, q)
            && RepayUnits(Unbounded, q, PartialToTarget) > 0 && !Drained(Unbounded, q, PartialToTarget)
            && var (num, den) := Health(Unbounded, After(q, ComputePlan(Unbounded, q, PartialToTarget)));
            TARGET_HF_DEN * num + Slack(q) - 30 == TARGET_HF_NUM * den
  {
    var q := Quote(297_461, 261, 33_333_333, 50_076_426, 1, LiqParams(0, 2_500, 2_500));
    assert CollValue(Unbounded, q) == 99_153 && DebtValue(Unbounded, q) == 130;
    assert Bonus(Unbounded, q) == 2_500 by {
      assert Health(Unbounded, q) == (99_153, 1_300_000);
    }
    assert Reach(Unbounded, q) == 1_099_875_000;
    assert TargetValue(Unbounded, q, PartialToTarget) == 120;
    assert RepayValue(Unbounded, q, PartialToTarget) == 120;
    assert RepayUnits(Unbounded, q, PartialToTarget) == 239;
    assert SeizeValue(Unbounded, q, PartialToTarget) == 150;
    assert SeizeUnits(Unbounded, q, PartialToTarget) == 450;
  }

  /** Two positions the contract's own scenarios use, at the default incentives: a shallow fall in the collateral price
      leads to a partial repayment at a bonus of 580, a deep one to a drained position with debt written off. */
  lemma {:induction false} ScenarioPlans()
    ensures var shallow := Quote(2_000, 1_000, 60_000_000, 100_000_000, 8_000, LiqParams(500, 1_500, 2_000));
            && Liquidatable(Unbounded, shallow) && !Drained(Unbounded, shallow, PartialToTarget)
            && ComputePlan(Unbounded, shallow, PartialToTarget) == Plan(552, 973, 580, 0)
    ensures var deep := Quote(2_000, 1_500, 5_000_000, 100_000_000, 8_000, LiqParams(500, 1_500, 2_000));
            && Liquidatable(Unbounded, deep) && Drained(Unbounded, deep, Full)
            && ComputePlan(Unbounded, deep, Full) == Plan(87, 2_000, 1_500, 1_413)
  {
    var shallow := Quote(2_000, 1_000, 60_000_000, 100_000_000, 8_000, LiqParams(500, 1_500, 2_000));
    assert CollValue(Unbounded, shallow) == 1_200 && DebtValue(Unbounded, shallow) == 1_000;
    assert Bonus(Unbounded, shallow) == 580;
    assert TargetValue(Unbounded, shallow, PartialToTarget) == 552;
    assert RepayValue(Unbounded, shallow, PartialToTarget) == 552;
    assert SeizeValue(Unbounded, shallow, PartialToTarget) == 584;
    var deep := Quote(2_000, 1_500, 5_000_000, 100_000_000, 8_000, LiqParams(500, 1_500, 2_000));
    assert CollValue(Unbounded, deep) == 100 && DebtValue(Unbounded, deep) == 1_500;
    assert Bonus(Unbounded, deep) == 1_500;
    assert Affordable(Unbounded, deep) == 87;
    assert RepayValue(Unbounded, deep, Full) == 87;
    assert SeizeValue(Unbounded, deep, Full) == 100;
  }

  /** What is left of the debt's value after a plan that does not drain the position. */
  function DebtLeft(q: Quote, mode: RepayMode): int
    requires q.priceDebt > 0
  {
    DebtValue(Unbounded, q) - RepayValue(Unbounded, q, mode) + DebtCarry(q, mode)
  }

  /** The position such a plan leaves is healthy: it owes nothing of value, or it misses the target by no more than the
      target's distance from one, weighed by the debt that is left. */
  predicate LeavesHealthy(q: Quote, mode: RepayMode)
    requires q.priceColl > 0 && q.priceDebt > 0
  {
    DebtLeft(q, mode) <= 0 || Margin(q, mode) + BPS * BPS * DebtLeft(q, mode) >= 0
  }

  /** In every mode an undrained plan leaves a position that can be liquidated again if and only if that fails. */
  lemma {:induction false} LiquidatableAgainIff(q: Quote, mode: RepayMode)
    requires Sound(q) && Liquidatable(Unbounded, q)
    requires RepayUnits(Unbounded, q, mode) > 0 && !Drained(Unbounded, q, mode)
    ensures Liquidatable(Unbounded, After(q, ComputePlan(Unbounded, q, mode))) <==> !LeavesHealthy(q, mode)
  {
    HealthAfter(q, mode);
    ValuesAfter(q, mode);
  }

  /** So every further plan is empty exactly when the first one left the position healthy. */
  lemma {:induction false} SecondLiquidationIff(q: Quote, mode: RepayMode, again: RepayMode)
    requires Sound(q) && Liquidatable(Unbounded, q)
    requires RepayUnits(Unbounded, q, mode) > 0 && !Drained(Unbounded, q, mode)
    ensures var plan := ComputePlan(Unbounded, After(q, ComputePlan(Unbounded, q, mode)), again);
            plan.repay == plan.seize == plan.badDebt == 0 <==> LeavesHealthy(q, mode)
  {
    LiquidatableAgainIff(q, mode);
    PlanIsContained(Unbounded, q, mode);
    PlanIsContained(Unbounded, After(q, ComputePlan(Unbounded, q, mode)), again);
  }

  /** More debt left than the slack of a partial liquidation is enough. */
  lemma {:induction false} SlackLeavesHealthy(q: Quote)
    requires Sound(q) && Liquidatable(Unbounded, q)
    requires RepayUnits(Unbounded, q, PartialToTarget) > 0 && !Drained(Unbounded, q, PartialToTarget)
    requires Health(Unbounded, After(q, ComputePlan(Unbounded, q, PartialToTarget))).1 >= Slack(q)
    ensures LeavesHealthy(q, PartialToTarget)
  {
    PartialRestoresTarget(q);
    LiquidatableAgainIff(q, PartialToTarget);
  }

  /** A partial liquidation that leaves more debt than the slack makes the position healthy,
      so a second liquidation at the same prices finds nothing to liquidate. */
  lemma {:induction false} SecondLiquidationFindsNothing(q: Quote, mode: RepayMode)
    requires Sound(q) && Liquidatable(Unbounded, q)
    requires RepayUnits(Unbounded, q, PartialToTarget) > 0 && !Drained(Unbounded, q, PartialToTarget)
    requires Health(Unbounded, After(q, ComputePlan(Unbounded, q, PartialToTarget))).1 >= Slack(q)
    ensures var again := ComputePlan(Unbounded, After(q, ComputePlan(Unbounded, q, PartialToTarget)), mode);
            again.repay == again.seize == again.badDebt == 0
  {
    PartialRestoresTarget(q);
  }
}
