/** When a liquidation that does not drain a position improves its health, and when it makes it worse. */
module LiquidationProgress {
  import opened Arith
  import opened Constants
  import opened Liquidation
  import opened LiquidationBounds
  import opened LiquidationTarget
  import opened LiquidationWidth

  /** The health factor of `now` is at least that of `was`. */
  predicate NoLessHealthy(w: Width, was: Quote, now: Quote) {
    Health(w, now).0 * Health(w, was).1 >= Health(w, was).0 * Health(w, now).1
  }

  /** Value for value, before any rounding, repaying does not lower the health factor exactly when the collateral
      covers the debt and its bonus. */
  lemma {:induction false} ValueHealthIff(q: Quote, r: int)
    requires r > 0
    ensures var (c, d, g) := (CollValue(Unbounded, q), DebtValue(Unbounded, q), Gross(Unbounded, q));
            (c * BPS - r * g) * d >= c * BPS * (d - r) <==> c * BPS >= d * g
  {
    var (c, d, g) := (CollValue(Unbounded, q), DebtValue(Unbounded, q), Gross(Unbounded, q));
    CrossDifference(c * BPS, d, r * g, r);
    CommonFactor(c * BPS, d, g, r);
    SignOfMultiple(r, c * BPS - d * g);
  }

  lemma {:induction false} CommonFactor(c: int, d: int, g: int, r: int)
    ensures c * r - d * (r * g) == r * (c - d * g)
  {
    assert d * (r * g) == r * (d * g);
  }

  lemma {:induction false} CrossDifference(c: int, d: int, taken: int, paid: int)
    ensures (c - taken) * d - c * (d - paid) == c * paid - d * taken
  {
  }

  lemma {:induction false} SignOfMultiple(k: int, x: int)
    requires k > 0
    ensures k * x >= 0 <==> x >= 0
  {
  }

  lemma {:induction false} CompareFractions(c: int, d: int, c1: int, d1: int, t: int)
    requires t >= 0
    ensures c1 * t * (d * BPS) >= c * t * (d1 * BPS) <==> t == 0 || c1 * d >= c * d1
  {
    assert c1 * t * (d * BPS) - c * t * (d1 * BPS) == t * BPS * (c1 * d - c * d1);
    if t > 0 {
      SignOfMultiple(t * BPS, c1 * d - c * d1);
    }
  }

  /** The same through every rounding: what the borrower is relieved of, less what the debt's conversions carry over,
      must weigh at least what is seized, less what the seizure's conversions carry over. */
  lemma {:induction false} HealthDoesNotFallIff(q: Quote, mode: RepayMode)
    requires Sound(q) && Liquidatable(Unbounded, q)
    requires RepayUnits(Unbounded, q, mode) > 0 && !Drained(Unbounded, q, mode)
    ensures NoLessHealthy(Unbounded, q, After(q, ComputePlan(Unbounded, q, mode)))
        <==> || q.threshold == 0
             || CollValue(Unbounded, q) * (RepayValue(Unbounded, q, mode) - DebtCarry(q, mode))
                >= DebtValue(Unbounded, q) * (SeizeValue(Unbounded, q, mode) - CollCarry(q, mode))
  {
    var rest := After(q, ComputePlan(Unbounded, q, mode));
    ValuesAfter(q, mode);
    CompareFractions(CollValue(Unbounded, q), DebtValue(Unbounded, q),
                     CollValue(Unbounded, rest), DebtValue(Unbounded, rest), q.threshold);
    CrossDifference(CollValue(Unbounded, q), DebtValue(Unbounded, q),
                    SeizeValue(Unbounded, q, mode) - CollCarry(q, mode),
                    RepayValue(Unbounded, q, mode) - DebtCarry(q, mode));
  }

  lemma {:induction false} SeizureWeighs(c: int, d: int, g: int, r: int, sv: int, carry: int)
    requires r > 0 && d >= 0 && carry >= 0 && sv * BPS <= r * g && c * BPS >= d * g
    ensures c * r >= d * (sv - carry)
  {
    MulLe(sv * BPS, r * g, d);
    MulLe(d * g, c * BPS, r);
    assert d * sv * BPS <= c * r * BPS by {
      assert sv * BPS * d == d * sv * BPS && r * g * d == d * g * r && c * BPS * r == c * r * BPS;
    }
    assert d * (sv - carry) == d * sv - d * carry;
    MulLe(0, carry, d);
  }

  /** A position whose collateral covers debt and bonus does not get worse when the debt's conversions carry nothing. */
  lemma {:induction false} CoveredDoesNotWorsen(q: Quote, mode: RepayMode)
    requires Sound(q) && Liquidatable(Unbounded, q)
    requires RepayUnits(Unbounded, q, mode) > 0 && !Drained(Unbounded, q, mode)
    requires CollValue(Unbounded, q) * BPS >= DebtValue(Unbounded, q) * Gross(Unbounded, q) && DebtCarry(q, mode) == 0
    ensures NoLessHealthy(Unbounded, q, After(q, ComputePlan(Unbounded, q, mode)))
  {
    HealthDoesNotFallIff(q, mode);
    RepaymentNeedsCollateral(q, mode);
    RepayValueBounds(Unbounded, q, mode);
    SeizedExactly(q, mode);
    SeizureWeighs(CollValue(Unbounded, q), DebtValue(Unbounded, q), Gross(Unbounded, q),
                  RepayValue(Unbounded, q, mode), SeizeValue(Unbounded, q, mode), CollCarry(q, mode));
  }

  /** When nothing is rounded, cover is also needed. */
  lemma {:induction false} EvenRepaymentHelpsIff(q: Quote, mode: RepayMode)
    requires Sound(q) && Liquidatable(Unbounded, q) && q.threshold > 0
    requires RepayUnits(Unbounded, q, mode) > 0 && !Drained(Unbounded, q, mode)
    requires RepayValue(Unbounded, q, mode) * Gross(Unbounded, q) % BPS == 0
    requires CollCarry(q, mode) == DebtCarry(q, mode) == 0
    ensures NoLessHealthy(Unbounded, q, After(q, ComputePlan(Unbounded, q, mode)))
        <==> CollValue(Unbounded, q) * BPS >= DebtValue(Unbounded, q) * Gross(Unbounded, q)
  {
    HealthDoesNotFallIff(q, mode);
    RepaymentNeedsCollateral(q, mode);
    SeizedExactly(q, mode);
    EvenSeizureWeighs(CollValue(Unbounded, q), DebtValue(Unbounded, q), Gross(Unbounded, q),
                      RepayValue(Unbounded, q, mode), SeizeValue(Unbounded, q, mode));
  }

  lemma {:induction false} EvenSeizureWeighs(c: int, d: int, g: int, r: int, sv: int)
    requires r > 0 && sv * BPS == r * g
    ensures c * r >= d * sv <==> c * BPS >= d * g
  {
    assert BPS * (c * r - d * sv) == r * (c * BPS - d * g) by {
      assert BPS * (d * sv) == d * (sv * BPS) && d * (r * g) == r * (d * g);
    }
    SignOfMultiple(BPS, c * r - d * sv);
    SignOfMultiple(r, c * BPS - d * g);
  }

  /** The contract itself. */
  lemma {:induction false} ContractHealthDoesNotFallIff(q: Quote, mode: RepayMode)
    requires Operating(q) && Liquidatable(I128, q)
    requires ComputePlan(I128, q, mode).repay > 0 && !Drained(I128, q, mode)
    ensures NoLessHealthy(I128, q, After(q, ComputePlan(I128, q, mode)))
        <==> || q.threshold == 0
             || CollValue(Unbounded, q) * (RepayValue(Unbounded, q, mode) - DebtCarry(q, mode))
                >= DebtValue(Unbounded, q) * (SeizeValue(Unbounded, q, mode) - CollCarry(q, mode))
  {
    NoSaturation(q, mode);
    PlanIsContained(I128, q, mode);
    StillOperating(q, ComputePlan(I128, q, mode));
    HealthDoesNotFallIff(q, mode);
    ExactHealth(q);
    ExactHealth(After(q, ComputePlan(I128, q, mode)));
  }

  /** A request that leaves this position worse off: it owes 1000 against 1000, and its health falls
      from 0.8 to 0.792. */
  lemma {:induction false} RequestCanWorsen()
    ensures var q := Quote(1_000, 1_000, 100_000_000, 100_000_000, 8_000, LiqParams(500, 1_500, 2_000));
            var rest := After(q, ComputePlan(Unbounded, q, Specified(100)));
            && Sound(q) && Liquidatable(Unbounded, q)
            && ComputePlan(Unbounded, q, Specified(100)) == Plan(100, 109, 900, 0)
            && Health(Unbounded, q) == (8_000_000, 10_000_000) && Health(Unbounded, rest) == (7_128_000, 9_000_000)
            && !NoLessHealthy(Unbounded, q, rest)
  {
    var q := Quote(1_000, 1_000, 100_000_000, 100_000_000, 8_000, LiqParams(500, 1_500, 2_000));
    assert CollValue(Unbounded, q) == 1_000 && DebtValue(Unbounded, q) == 1_000;
    assert Bonus(Unbounded, q) == 900;
    assert RepayValue(Unbounded, q, Specified(100)) == 100;
    assert SeizeValue(Unbounded, q, Specified(100)) == 109;
  }
}
