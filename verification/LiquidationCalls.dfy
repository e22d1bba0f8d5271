/** What a liquidation does for each amount a caller can ask to repay. */
module LiquidationCalls {
  import opened Arith
  import opened Constants
  import opened Results
  import opened Liquidation
  import opened LiquidationBounds
  import opened LiquidationTarget
  import opened LiquidationLimits
  import opened LiquidationWidth
  import opened Bonus
  import opened Oracle
  import opened Pool
  import opened PoolInvariants
  import opened PoolHealth

  /** The borrower's position at the prices the call resolves, under the settings in force. */
  predicate Quoted(s: State, env: Env, borrower: Address, q: Quote) {
    && Resolve(s.collFeed, env.collAnswers, env.now).0 == Some(q.priceColl)
    && Resolve(s.debtFeed, env.debtAnswers, env.now).0 == Some(q.priceDebt)
    && q.coll == PositionOf(s, borrower).collateral && q.debt == PositionOf(s, borrower).debt
    && q.threshold == env.threshold && q.params == env.params
  }

  /** A successful liquidation reports its plan and leaves the position the plan leaves. */
  lemma {:induction false} CarriedOut(
      s: State, env: Env, liquidator: Address, borrower: Address, amount: i128, q: Quote, gd: int, gc: int)
    requires Inv(s, gd, gc) && Quoted(s, env, borrower, q) && Liquidate(s, env, liquidator, borrower, amount).Ok?
    ensures ModeOf(amount).Ok?
    ensures var plan := ComputePlan(I128, q, ModeOf(amount).value);
            var (after, outcome) := Liquidate(s, env, liquidator, borrower, amount).value;
            && outcome == Outcome(plan.repay, plan.seize, plan.bonus, plan.badDebt)
            && (plan.repay > 0 || plan.badDebt > 0)
            && QuoteFor(after, env, borrower, q.priceColl, q.priceDebt) == After(q, plan)
  {
    var plan, q1, mode := PositionAfterwards(s, env, liquidator, borrower, amount, gd, gc);
    var plan2, q2, mode2 := ReportsItsPlan(s, env, liquidator, borrower, amount, gd, gc);
  }

  lemma {:induction false} ReportsItsPlan(
      s: State, env: Env, liquidator: Address, borrower: Address, amount: i128, gd: int, gc: int)
    returns (plan: Plan, q: Quote, mode: RepayMode)
    requires Inv(s, gd, gc) && Liquidate(s, env, liquidator, borrower, amount).Ok?
    ensures Quoted(s, env, borrower, q) && ModeOf(amount) == Ok(mode) && plan == ComputePlan(I128, q, mode)
    ensures plan.repay > 0 || plan.badDebt > 0
    ensures Liquidate(s, env, liquidator, borrower, amount).value.1
         == Outcome(plan.repay, plan.seize, plan.bonus, plan.badDebt)
  {
    var priced: State;
    plan, priced, q, mode := LiquidationPlan(s, env, liquidator, borrower, amount);
    MoveFundsEffect(priced, liquidator, plan);
    SettleEffect(MoveFunds(priced, liquidator, plan).value, borrower, plan);
  }

  /** The reported bonus is the interpolation at the position's health, whatever was asked. */
  lemma {:induction false} ReportedBonus(
      s: State, env: Env, liquidator: Address, borrower: Address, amount: i128, q: Quote, gd: int, gc: int)
    requires Inv(s, gd, gc) && Quoted(s, env, borrower, q) && Liquidate(s, env, liquidator, borrower, amount).Ok?
    ensures var outcome := Liquidate(s, env, liquidator, borrower, amount).value.1;
            && outcome.bonus == DynamicBonus(I128, Health(I128, q).0, Health(I128, q).1, env.params)
            && (Operating(q) ==>
                  var num := q.coll * q.priceColl / 100_000_000 * env.threshold;
                  var den := q.debt * q.priceDebt / 100_000_000 * 10_000;
                  outcome.bonus == Interpolated(num, den, env.params))
  {
    CarriedOut(s, env, liquidator, borrower, amount, q, gd, gc);
    var mode := ModeOf(amount).value;
    BonusIgnoresMode(I128, q, mode, mode);
    if Operating(q) {
      ContractBonusIsInterpolation(q, mode);
    }
  }

  // ----- The outcome in numbers -----

  /** The plan for a value asked for, without modes, guards or saturation: the value is capped by the debt and by the
      collateral over one plus the bonus, rounded up; the collateral seized is the value plus the bonus. */
  function Settled(q: Quote, asked: int, bonus: int): Plan
    requires q.priceColl > 0 && q.priceDebt > 0 && bonus >= 0
  {
    var c, d := q.coll * q.priceColl / 100_000_000, q.debt * q.priceDebt / 100_000_000;
    var value := Min(Min(asked, d), CeilDiv(c * 10_000, 10_000 + bonus));
    var repay, worth := value * 100_000_000 / q.priceDebt, value * (10_000 + bonus) / 10_000;
    if repay == 0 then Plan(0, 0, bonus, q.debt)
    else Plan(repay, Min(worth * 100_000_000 / q.priceColl, q.coll), bonus, if worth >= c then q.debt - repay else 0)
  }

  /** What a mode asks for. */
  function AskedBy(q: Quote, mode: RepayMode, bonus: int): int
    requires q.priceDebt > 0
  {
    match mode
    case PartialToTarget => SolvedTarget(q, bonus)
    case Full => q.debt * q.priceDebt / 100_000_000
    case Specified(units) => Max(units, 0) * q.priceDebt / 100_000_000
  }

  lemma {:induction false} AskedIsTarget(q: Quote, mode: RepayMode)
    requires Sound(q) && Liquidatable(Unbounded, q)
    ensures TargetValue(Unbounded, q, mode) == AskedBy(q, mode, Liquidation.Bonus(Unbounded, q))
  {
    match mode
    case PartialToTarget => TargetInNumbers(q);
    case Full => WorthInNumbers(q.debt, q.priceDebt);
    case Specified(units) => WorthInNumbers(Max(units, 0), q.priceDebt);
  }

  lemma {:induction false} ValueIsCapped(q: Quote, mode: RepayMode)
    requires Sound(q)
    ensures RepayValue(Unbounded, q, mode)
         == Min(Min(TargetValue(Unbounded, q, mode), DebtValue(Unbounded, q)), Affordable(Unbounded, q)) >= 0
  {
    TargetIsNonNegative(Unbounded, q, mode);
    ToValue(Unbounded, q.debt, q.priceDebt);
    AffordableIsCeiling(q);
  }

  /** Every plan of a liquidatable position, in every mode, is that plan. */
  lemma {:induction false} PlanInNumbers(q: Quote, mode: RepayMode)
    requires Sound(q) && Liquidatable(Unbounded, q)
    ensures var bonus := Interpolated(q.coll * q.priceColl / 100_000_000 * q.threshold,
                                      q.debt * q.priceDebt / 100_000_000 * 10_000, q.params);
            bonus >= 0 && ComputePlan(Unbounded, q, mode) == Settled(q, AskedBy(q, mode, bonus), bonus)
  {
    WorthInNumbers(q.coll, q.priceColl);
    WorthInNumbers(q.debt, q.priceDebt);
    PlanBonusIsInterpolation(q, mode);
    AskedIsTarget(q, mode);
    ValueIsCapped(q, mode);
    AffordableIsCeiling(q);
    PlanFromValue(q, mode);
  }

  lemma {:induction false} PlanFromValue(q: Quote, mode: RepayMode)
    requires Sound(q) && Liquidatable(Unbounded, q)
    ensures var r, g := RepayValue(Unbounded, q, mode), Gross(Unbounded, q);
            var repay, worth := r * PRICE_SCALE / q.priceDebt, r * g / BPS;
            ComputePlan(Unbounded, q, mode)
            == if repay == 0 then Plan(0, 0, g - BPS, q.debt)
               else Plan(repay, Min(worth * PRICE_SCALE / q.priceColl, q.coll), g - BPS,
                         if worth >= CollValue(Unbounded, q) then q.debt - repay else 0)
  {
    var r, g := RepayValue(Unbounded, q, mode), Gross(Unbounded, q);
    RepayValueBounds(Unbounded, q, mode);
    RepayUnitsBounds(Unbounded, q, mode);
    NonNegativeProduct(r, g);
    UnitsInNumbers(r, q.priceDebt);
    UnitsInNumbers(SeizeValue(Unbounded, q, mode), q.priceColl);
    if RepayUnits(Unbounded, q, mode) > 0 {
      RepaymentNeedsCollateral(q, mode);
    }
  }

  lemma {:induction false} UnitsInNumbers(value: int, price: int)
    requires value >= 0 && price > 0
    ensures 0 <= ValueToUnits(Unbounded, value, price) == value * PRICE_SCALE / price
  {
    ToUnits(Unbounded, value, price);
  }

  /** What an amount asks for. */
  function AskedWith(q: Quote, amount: int, bonus: int): int
    requires q.priceDebt > 0
  {
    if amount == 0 then SolvedTarget(q, bonus)
    else if amount == 0x7fff_ffff_ffff_ffff_ffff_ffff_ffff_ffff then q.debt * q.priceDebt / 100_000_000
    else amount * q.priceDebt / 100_000_000
  }

  /** So is the outcome of every successful liquidation, and its write-off is charged to the depositors. */
  lemma {:induction false} OutcomeInNumbers(
      s: State, env: Env, liquidator: Address, borrower: Address, amount: i128, q: Quote, gd: int, gc: int)
    requires Inv(s, gd, gc) && Quoted(s, env, borrower, q) && Operating(q)
    requires Liquidate(s, env, liquidator, borrower, amount).Ok?
    ensures var bonus := Interpolated(q.coll * q.priceColl / 100_000_000 * q.threshold,
                                      q.debt * q.priceDebt / 100_000_000 * 10_000, q.params);
            && bonus >= 0
            && var plan := Settled(q, AskedWith(q, amount, bonus), bonus);
               Liquidate(s, env, liquidator, borrower, amount).value.1
               == Outcome(plan.repay, plan.seize, plan.bonus, plan.badDebt)
  {
    CarriedOut(s, env, liquidator, borrower, amount, q, gd, gc);
    PlanOfAmount(q, amount);
  }

  lemma {:induction false} PlanOfAmount(q: Quote, amount: i128)
    requires Operating(q) && ModeOf(amount).Ok?
    requires var plan := ComputePlan(I128, q, ModeOf(amount).value); plan.repay > 0 || plan.badDebt > 0
    ensures var bonus := Interpolated(q.coll * q.priceColl / 100_000_000 * q.threshold,
                                      q.debt * q.priceDebt / 100_000_000 * 10_000, q.params);
            && bonus >= 0
            && ComputePlan(I128, q, ModeOf(amount).value) == Settled(q, AskedWith(q, amount, bonus), bonus)
  {
    NoSaturation(q, ModeOf(amount).value);
    PlanInNumbers(q, ModeOf(amount).value);
  }

  // ----- Asking for nothing in particular: amount 0 -----

  /** The target equation's own repayment, (11 * d * 10^4 - 10 * c * t) * 10^4 / (11 * 10^8 - 10 * t * (10^4 + bonus)),
      or everything when that has no positive denominator. */
  function SolvedTarget(q: Quote, bonus: int): int {
    var c, d := q.coll * q.priceColl / 100_000_000, q.debt * q.priceDebt / 100_000_000;
    var reach := 1_100_000_000 - 10 * (10_000 + bonus) * q.threshold;
    if reach <= 0 then d else (110_000 * d - 10 * q.threshold * c) * 10_000 / reach
  }

  lemma {:induction false} PartialRepaysAtMostTarget(q: Quote)
    requires Sound(q) && Liquidatable(Unbounded, q)
    ensures RepayUnits(Unbounded, q, PartialToTarget) * q.priceDebt
         <= SolvedTarget(q, Liquidation.Bonus(Unbounded, q)) * PRICE_SCALE
  {
    var r := RepayValue(Unbounded, q, PartialToTarget);
    WorthInNumbers(q.coll, q.priceColl);
    WorthInNumbers(q.debt, q.priceDebt);
    RepayValueBounds(Unbounded, q, PartialToTarget);
    RepayUnitsBounds(Unbounded, q, PartialToTarget);
    ToUnits(Unbounded, r, q.priceDebt);
    TargetInNumbers(q);
    MulLe(r, SolvedTarget(q, Liquidation.Bonus(Unbounded, q)), PRICE_SCALE);
  }

  lemma {:induction false} TargetInNumbers(q: Quote)
    requires Sound(q) && Liquidatable(Unbounded, q)
    ensures TargetValue(Unbounded, q, PartialToTarget) == SolvedTarget(q, Liquidation.Bonus(Unbounded, q))
  {
    WorthInNumbers(q.coll, q.priceColl);
    WorthInNumbers(q.debt, q.priceDebt);
    ShortfallExceedsDebt(q);
    if Reach(Unbounded, q) > 0 {
      PartialTargetIs(q);
    }
  }

  /** Asking for 0 repays no more than the target equation's solution, and if nothing is written off leaves a health
      factor of 11/10 up to the rounding slack. */
  lemma {:induction false} ZeroRestoresTarget(
      s: State, env: Env, liquidator: Address, borrower: Address, q: Quote, gd: int, gc: int)
    requires Inv(s, gd, gc) && Quoted(s, env, borrower, q) && Operating(q)
    requires Liquidate(s, env, liquidator, borrower, 0).Ok?
    ensures var (after, outcome) := Liquidate(s, env, liquidator, borrower, 0).value;
            var (num, den) := Health(I128, QuoteFor(after, env, borrower, q.priceColl, q.priceDebt));
            && outcome.repay * q.priceDebt <= SolvedTarget(q, outcome.bonus) * 100_000_000
            && (outcome.socialized == 0 ==> 10 * num + Slack(q) >= 11 * den)
  {
    var plan := ComputePlan(I128, q, PartialToTarget);
    CarriedOut(s, env, liquidator, borrower, 0, q, gd, gc);
    NoSaturation(q, PartialToTarget);
    PlanIsContained(I128, q, PartialToTarget);
    PartialRepaysAtMostTarget(q);
    if plan.badDebt == 0 {
      if Drained(I128, q, PartialToTarget) {
        NothingOwed(After(q, plan));
      } else {
        ContractRestoresTarget(q);
      }
    }
  }

  lemma {:induction false} NothingOwed(q: Quote)
    requires q.coll >= 0 && q.debt == 0
    ensures Health(I128, q).0 >= 0 && Health(I128, q).1 == 0
  {
    if q.priceColl > 0 {
      ToValue(I128, q.coll, q.priceColl);
    }
    if q.priceDebt > 0 {
      ToValue(I128, q.debt, q.priceDebt);
    }
    NonNegativeProduct(CollValue(I128, q), q.threshold);
  }

  // ----- Asking for everything: the largest amount -----

  /** Asking for 2^127 - 1 leaves debt worth less than one value unit plus one token. */
  lemma {:induction false} LargestRepaysAll(
      s: State, env: Env, liquidator: Address, borrower: Address, q: Quote, gd: int, gc: int)
    requires Inv(s, gd, gc) && Quoted(s, env, borrower, q) && Operating(q)
    requires Liquidate(s, env, liquidator, borrower, 0x7fff_ffff_ffff_ffff_ffff_ffff_ffff_ffff).Ok?
    ensures var after := Liquidate(s, env, liquidator, borrower, 0x7fff_ffff_ffff_ffff_ffff_ffff_ffff_ffff).value.0;
            0 <= PositionOf(after, borrower).debt * q.priceDebt < 100_000_000 + q.priceDebt
  {
    CarriedOut(s, env, liquidator, borrower, I128_MAX, q, gd, gc);
    FullPlanLeavesDust(q);
  }

  lemma {:induction false} FullPlanLeavesDust(q: Quote)
    requires Operating(q) && ComputePlan(I128, q, Full).repay + ComputePlan(I128, q, Full).badDebt > 0
    ensures 0 <= After(q, ComputePlan(I128, q, Full)).debt * q.priceDebt < PRICE_SCALE + q.priceDebt
  {
    var plan := ComputePlan(Unbounded, q, Full);
    NoSaturation(q, Full);
    PlanIsContained(Unbounded, q, Full);
    NonNegativeProduct(After(q, plan).debt, q.priceDebt);
    if plan.badDebt == 0 && !Drained(Unbounded, q, Full) {
      FullLeavesDust(q);
    } else {
      assert After(q, plan).debt == 0;
    }
  }

  // ----- Asking for an amount in between -----

  /** A repayment of at most the amount, and of all of it up to one value unit and one token unless debt or backing
      cap it. */
  predicate Meets(q: Quote, amount: int, repay: int) {
    && repay <= amount
    && (Operating(q) && amount * q.priceDebt / 100_000_000 <= Min(DebtValue(I128, q), Affordable(I128, q)) ==>
          (amount - repay) * q.priceDebt < 100_000_000 + q.priceDebt)
  }

  /** A positive amount below that is never exceeded, and is met up to one value unit and one token unless debt or
      backing cap it. */
  lemma {:induction false} AmountIsRespected(
      s: State, env: Env, liquidator: Address, borrower: Address, amount: i128, q: Quote, gd: int, gc: int)
    requires Inv(s, gd, gc) && Quoted(s, env, borrower, q)
    requires 0 < amount < 0x7fff_ffff_ffff_ffff_ffff_ffff_ffff_ffff
    requires Liquidate(s, env, liquidator, borrower, amount).Ok?
    ensures Meets(q, amount, Liquidate(s, env, liquidator, borrower, amount).value.1.repay)
  {
    CarriedOut(s, env, liquidator, borrower, amount, q, gd, gc);
    PositionWithinTotals(s, borrower);
    RequestedRepayment(q, amount);
  }

  lemma {:induction false} RequestedRepayment(q: Quote, amount: i128)
    requires q.debt >= 0 && amount > 0
    requires ComputePlan(I128, q, Specified(amount)).repay + ComputePlan(I128, q, Specified(amount)).badDebt > 0
    ensures Meets(q, amount, ComputePlan(I128, q, Specified(amount)).repay)
  {
    LiquidatableIsPriced(I128, q);
    RequestIsNeverExceeded(I128, q, amount);
    if Operating(q) && amount * q.priceDebt / PRICE_SCALE <= Min(DebtValue(I128, q), Affordable(I128, q)) {
      RequestedPlan(q, amount);
    }
  }

  lemma {:induction false} RequestedPlan(q: Quote, amount: i128)
    requires Operating(q) && amount > 0 && Liquidatable(I128, q)
    requires amount * q.priceDebt / PRICE_SCALE <= Min(DebtValue(I128, q), Affordable(I128, q))
    ensures (amount - RepayUnits(I128, q, Specified(amount))) * q.priceDebt < PRICE_SCALE + q.priceDebt
  {
    ExactHealth(q);
    ExactAffordable(q);
    ExactRepay(q, Specified(amount));
    WorthInNumbers(amount, q.priceDebt);
    RequestIsRespected(q, amount);
  }

  /** A negative amount is refused. */
  lemma {:induction false} NegativeIsRefused(
      s: State, env: Env, liquidator: Address, borrower: Address, amount: i128)
    requires amount < 0
    ensures Liquidate(s, env, liquidator, borrower, amount).Err?
  {
  }
}
