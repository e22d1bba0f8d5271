/** The liquidator incentive as a function of health. */
module Bonus {
  import opened Arith
  import opened Liquidation
  import opened LiquidationWidth

  /** Twice the depth below health one, as the interpolation sees it. */
  function Depth(num: int, den: int): int {
    if num >= den then 0 else Min((den - num) * 2, den * 2)
  }

  lemma {:induction false} BonusIsInterpolation(num: int, den: int, params: LiqParams)
    requires den > 0
    ensures var span := Max(params.maxBonus - params.baseBonus, 0);
            DynamicBonus(Unbounded, num, den, params)
            == Min(Min(params.baseBonus + span * Depth(num, den) / den, params.baseBonus + span), params.penaltyCap)
    ensures Depth(num, den) >= 0
  {
    var span := Max(params.maxBonus - params.baseBonus, 0);
    var depth := Depth(num, den);
    assert span * depth >= 0;
    Floor(span * depth, den);
    if num >= den || span == 0 {
      assert span * depth == 0;
      assert 0 / den == 0;
    }
  }

  lemma {:induction false} DepthMono(num1: int, den1: int, num2: int, den2: int)
    requires den1 > 0 && den2 > 0 && num1 * den2 <= num2 * den1
    ensures Depth(num2, den2) * den1 <= Depth(num1, den1) * den2
  {
    if num2 < den2 {
      assert num1 < den1 by {
        if den1 <= num1 {
          MulLe(den1, num1, den2);
          MulLe(num2 + 1, den2, den1);
        }
      }
      DepthLinear(num1, den1, den2);
      DepthLinear(num2, den2, den1);
    } else {
      assert Depth(num1, den1) * den2 >= 0;
    }
  }

  lemma {:induction false} DepthLinear(num: int, den: int, k: int)
    requires num < den && den > 0 && k > 0
    ensures Depth(num, den) * k == Min((den * k - num * k) * 2, den * k * 2)
  {
    assert (den - num) * 2 * k == (den * k - num * k) * 2;
    if num >= 0 {
      assert num * k >= 0;
    } else {
      assert num * k < 0;
    }
  }

  /** The incentive never falls as health worsens. */
  lemma {:induction false} AntitoneInHealth(num1: int, den1: int, num2: int, den2: int, params: LiqParams)
    requires den1 > 0 && den2 > 0 && num1 * den2 <= num2 * den1
    ensures DynamicBonus(Unbounded, num1, den1, params) >= DynamicBonus(Unbounded, num2, den2, params)
  {
    var span := Max(params.maxBonus - params.baseBonus, 0);
    BonusIsInterpolation(num1, den1, params);
    BonusIsInterpolation(num2, den2, params);
    DepthMono(num1, den1, num2, den2);
    SpanMono(span, Depth(num1, den1), den1, Depth(num2, den2), den2);
  }

  lemma {:induction false} SpanMono(span: int, x1: int, den1: int, x2: int, den2: int)
    requires span >= 0 && den1 > 0 && den2 > 0 && x2 * den1 <= x1 * den2
    ensures span * x2 / den2 <= span * x1 / den1
  {
    MulLe(x2 * den1, x1 * den2, span);
    assert span * x2 * den1 == (x2 * den1) * span && span * x1 * den2 == (x1 * den2) * span;
    FloorMono(span * x1, den1, span * x2, den2);
  }

  /** Only the health factor matters, not the fraction that expresses it. */
  lemma {:induction false} ScaleInvariant(num: int, den: int, k: int, params: LiqParams)
    requires den > 0 && k > 0
    ensures DynamicBonus(Unbounded, num * k, den * k, params) == DynamicBonus(Unbounded, num, den, params)
  {
    assert den * k > 0;
    assert num * k * den == num * (den * k);
    AntitoneInHealth(num * k, den * k, num, den, params);
    AntitoneInHealth(num, den, num * k, den * k, params);
  }

  /** Healthy positions get the base bonus, positions at half health or below the maximum; both capped. */
  lemma {:induction false} BonusAtTheEnds(num: int, den: int, params: LiqParams)
    requires den > 0 && params.baseBonus <= params.maxBonus
    ensures num >= den ==> DynamicBonus(Unbounded, num, den, params) == Min(params.baseBonus, params.penaltyCap)
    ensures 2 * num <= den ==> DynamicBonus(Unbounded, num, den, params) == Min(params.maxBonus, params.penaltyCap)
  {
    var span := params.maxBonus - params.baseBonus;
    BonusIsInterpolation(num, den, params);
    if num >= den {
      assert span * 0 == 0 && 0 / den == 0;
    } else if 2 * num <= den {
      MulLe(den, Depth(num, den), span);
      assert den * span == span * den && Depth(num, den) * span == span * Depth(num, den);
      FloorGe(span * Depth(num, den), den, span);
    }
  }

  /** At every health the bonus stays between the capped base and the capped maximum. */
  lemma {:induction false} BonusRange(num: int, den: int, params: LiqParams)
    requires den > 0 && params.baseBonus <= params.maxBonus
    ensures Min(params.baseBonus, params.penaltyCap)
         <= DynamicBonus(Unbounded, num, den, params)
         <= Min(params.maxBonus, params.penaltyCap)
  {
    BonusIsInterpolation(num, den, params);
    NonNegativeQuotient(params.maxBonus - params.baseBonus, Depth(num, den), den);
  }

  lemma {:induction false} NonNegativeQuotient(a: int, b: int, d: int)
    requires a >= 0 && b >= 0 && d > 0
    ensures a * b / d >= 0
  {
    assert a * b >= 0;
    Floor(a * b, d);
  }

  // ----- The bonus of a plan -----

  /** The interpolation in numbers: at health num / den, from `base` at one to `base + span` at one half. */
  function Interpolated(num: int, den: int, params: LiqParams): int {
    var base, span := params.baseBonus, Max(params.maxBonus - params.baseBonus, 0);
    var depth := if num >= den then 0 else Min((den - num) * 2, den * 2);
    Min(if den <= 0 then base else Min(base + span * depth / den, base + span), params.penaltyCap)
  }

  lemma {:induction false} DynamicBonusIsInterpolated(num: int, den: int, params: LiqParams)
    ensures DynamicBonus(Unbounded, num, den, params) == Interpolated(num, den, params)
  {
    if den > 0 {
      BonusIsInterpolation(num, den, params);
    }
  }

  lemma {:induction false} WorthInNumbers(units: int, price: int)
    requires units >= 0 && price > 0
    ensures UnitsToValue(Unbounded, units, price) == units * price / 100_000_000
  {
    assert units * price >= 0;
  }

  /** Every plan, in every mode and whether or not it does anything, reports the interpolation at the position's own
      health: collateral value times threshold over debt value times 10000. */
  lemma {:induction false} PlanBonusIsInterpolation(q: Quote, mode: RepayMode)
    requires Sound(q)
    ensures var num := q.coll * q.priceColl / 100_000_000 * q.threshold;
            var den := q.debt * q.priceDebt / 100_000_000 * 10_000;
            ComputePlan(Unbounded, q, mode).bonus == Interpolated(num, den, q.params)
  {
    WorthInNumbers(q.coll, q.priceColl);
    WorthInNumbers(q.debt, q.priceDebt);
    DynamicBonusIsInterpolated(Health(Unbounded, q).0, Health(Unbounded, q).1, q.params);
  }

  /** So does the contract. */
  lemma {:induction false} ContractBonusIsInterpolation(q: Quote, mode: RepayMode)
    requires Operating(q)
    ensures var num := q.coll * q.priceColl / 100_000_000 * q.threshold;
            var den := q.debt * q.priceDebt / 100_000_000 * 10_000;
            ComputePlan(I128, q, mode).bonus == Interpolated(num, den, q.params)
  {
    NoSaturation(q, mode);
    PlanBonusIsInterpolation(q, mode);
  }

  /** At either width the bonus does not depend on what the caller asks for. */
  lemma {:induction false} BonusIgnoresMode(w: Width, q: Quote, mode: RepayMode, other: RepayMode)
    ensures ComputePlan(w, q, mode).bonus == ComputePlan(w, q, other).bonus
         == DynamicBonus(w, Health(w, q).0, Health(w, q).1, q.params)
  {
  }
}
