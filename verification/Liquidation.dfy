/** The liquidation arithmetic: health, incentives, unit/value conversions and the liquidation plan.
    Each function takes the width its operations run at: `I128` is the contract, `Unbounded` is exact. */
module Liquidation {
  import opened Arith
  import opened Constants

  datatype RepayMode = PartialToTarget | Full | Specified(units: i128)

  datatype LiqParams = LiqParams(baseBonus: u32, maxBonus: u32, penaltyCap: u32)

  /** Everything a plan is computed from, except how much the caller asks to repay. */
  datatype Quote = Quote(
    coll: int, debt: int, priceColl: int, priceDebt: int, threshold: u32, params: LiqParams)

  datatype Plan = Plan(repay: int, seize: int, bonus: int, badDebt: int)

  function UnitsToValue(w: Width, units: int, price: int): int {
    if price <= 0 then 0 else Quot(Mul(w, units, price), PRICE_SCALE)
  }

  function ValueToUnits(w: Width, value: int, price: int): int {
    if price <= 0 then 0 else Quot(Mul(w, value, PRICE_SCALE), price)
  }

  /** Health factor as a fraction (num, den). */
  function HealthRatio(w: Width, collValue: int, debtValue: int, threshold: u32): (int, int) {
    (Mul(w, collValue, threshold), Mul(w, debtValue, BPS))
  }

  predicate IsLiquidatable(num: int, den: int) {
    den > 0 && num < den
  }

  function DynamicBonus(w: Width, num: int, den: int, params: LiqParams): int {
    var base: int := params.baseBonus;
    var span := Max(params.maxBonus - params.baseBonus, 0);
    var bonus :=
      if den <= 0 || num >= den || span == 0 then base
      else base + Quot(Mul(w, span, Min(Mul(w, den - num, 2), Mul(w, den, 2))), den);
    Min(Min(Max(bonus, base), base + span), params.penaltyCap)
  }

  // ----- The intermediate values of a plan, named as the results below speak of them -----

  function CollValue(w: Width, q: Quote): int {
    UnitsToValue(w, q.coll, q.priceColl)
  }

  function DebtValue(w: Width, q: Quote): int {
    UnitsToValue(w, q.debt, q.priceDebt)
  }

  function Health(w: Width, q: Quote): (int, int) {
    HealthRatio(w, CollValue(w, q), DebtValue(w, q), q.threshold)
  }

  predicate Liquidatable(w: Width, q: Quote) {
    IsLiquidatable(Health(w, q).0, Health(w, q).1)
  }

  function Bonus(w: Width, q: Quote): (b: int)
    ensures 0 <= b <= q.params.penaltyCap
  {
    DynamicBonus(w, Health(w, q).0, Health(w, q).1, q.params)
  }

  /** What one value unit of repayment seizes, in basis points. */
  function Gross(w: Width, q: Quote): (g: int)
    ensures BPS <= g == BPS + Bonus(w, q)
  {
    Add(w, BPS, Bonus(w, q))
  }

  /** Denominator of the target equation; the target is out of reach when it is not positive. */
  function Reach(w: Width, q: Quote): int {
    Sub(w,
        Mul(w, Mul(w, TARGET_HF_NUM, BPS), BPS),
        Mul(w, Mul(w, TARGET_HF_DEN, Gross(w, q)), q.threshold))
  }

  /** How far the position is from the target before any repayment. */
  function Shortfall(w: Width, q: Quote): int {
    Sub(w,
        Mul(w, Mul(w, TARGET_HF_NUM, BPS), DebtValue(w, q)),
        Mul(w, Mul(w, TARGET_HF_DEN, q.threshold), CollValue(w, q)))
  }

  function TargetValue(w: Width, q: Quote, mode: RepayMode): int {
    match mode
    case PartialToTarget =>
      if Reach(w, q) > 0
      then Max(Quot(Mul(w, BPS, Max(Shortfall(w, q), 0)), Reach(w, q)), 0)
      else DebtValue(w, q)
    case Full => DebtValue(w, q)
    case Specified(units) => UnitsToValue(w, Max(units, 0), q.priceDebt)
  }

  /** Largest repayment the collateral can back, rounded up. */
  function Affordable(w: Width, q: Quote): int {
    Quot(Add(w, Mul(w, CollValue(w, q), BPS), Gross(w, q) - 1), Gross(w, q))
  }

  function RepayValue(w: Width, q: Quote, mode: RepayMode): int {
    var wanted := Max(Min(TargetValue(w, q, mode), DebtValue(w, q)), 0);
    Max(Min(wanted, Affordable(w, q)), 0)
  }

  function RepayUnits(w: Width, q: Quote, mode: RepayMode): int {
    Max(Min(ValueToUnits(w, RepayValue(w, q, mode), q.priceDebt), q.debt), 0)
  }

  function SeizeValue(w: Width, q: Quote, mode: RepayMode): int {
    Quot(Mul(w, RepayValue(w, q, mode), Gross(w, q)), BPS)
  }

  function SeizeUnits(w: Width, q: Quote, mode: RepayMode): int {
    Max(Min(ValueToUnits(w, SeizeValue(w, q, mode), q.priceColl), q.coll), 0)
  }

  predicate Drained(w: Width, q: Quote, mode: RepayMode) {
    CollValue(w, q) > 0 && SeizeValue(w, q, mode) >= CollValue(w, q)
  }

  function ComputePlan(w: Width, q: Quote, mode: RepayMode): Plan {
    var bonus := Bonus(w, q);
    if !Liquidatable(w, q) then Plan(0, 0, bonus, 0)
    else
      var repay := RepayUnits(w, q, mode);
      if repay == 0 then Plan(0, 0, bonus, q.debt)
      else Plan(repay, SeizeUnits(w, q, mode), bonus,
                if Drained(w, q, mode) then q.debt - repay else 0)
  }

  /** The position a plan leaves behind. */
  function After(q: Quote, plan: Plan): Quote {
    q.(coll := q.coll - plan.seize, debt := q.debt - plan.repay - plan.badDebt)
  }

  /** Quotes of real positions: nothing negative, prices positive. */
  predicate Sound(q: Quote) {
    q.coll >= 0 && q.debt >= 0 && q.priceColl > 0 && q.priceDebt > 0
  }
}
