/** Exactly when each call goes through, why it is refused otherwise, and what it records. */
module PoolGuards {
  import opened Arith
  import opened Results
  import opened Sums
  import opened Liquidation
  import opened LiquidationWidth
  import opened LiquidationCalls
  import opened Oracle
  import opened TwapHistory
  import opened Pool
  import opened PoolInvariants
  import opened PoolFairness
  import opened PoolHealth
  import opened PoolFeeds

  // ----- Prices and health -----

  /** A price that borrowing and withdrawing accept: positive and at most 10^17. */
  predicate Accepted(price: Option<int>) {
    price.Some? && 0 < price.value <= 100_000_000_000_000_000
  }

  lemma {:induction false} PriceAcceptedIff(feed: TwapState, a: Answers, now: int)
    ensures RequirePrice(feed, a, now)
         == if Accepted(Resolve(feed, a, now).0) then Ok((Resolve(feed, a, now).0.value, Resolve(feed, a, now).1))
            else Err(if Resolve(feed, a, now).0.None? then NoPriceSource else InvalidPrice)
  {
  }

  /** Both prices are accepted and the position is healthy at them. */
  predicate Backed(s: State, env: Env, pos: Position) {
    var coll := Resolve(s.collFeed, env.collAnswers, env.now).0;
    var debt := Resolve(s.debtFeed, env.debtAnswers, env.now).0;
    Accepted(coll) && Accepted(debt) && Healthy(pos, coll.value, debt.value, env.threshold)
  }

  lemma {:induction false} CheckPassesIff(s: State, env: Env, pos: Position, failure: Error)
    ensures CheckHealth(s, env, pos, failure).Ok? <==> Backed(s, env, pos)
    ensures Backed(s, env, pos) ==>
              CheckHealth(s, env, pos, failure)
              == Ok((Resolve(s.collFeed, env.collAnswers, env.now).1, Resolve(s.debtFeed, env.debtAnswers, env.now).1))
    ensures Accepted(Resolve(s.collFeed, env.collAnswers, env.now).0) &&
            Accepted(Resolve(s.debtFeed, env.debtAnswers, env.now).0) && !Backed(s, env, pos) ==>
              CheckHealth(s, env, pos, failure) == Err(failure)
  {
    PriceAcceptedIff(s.collFeed, env.collAnswers, env.now);
    PriceAcceptedIff(s.debtFeed, env.debtAnswers, env.now);
  }

  /** Health in numbers: collateral value times threshold is at least debt value times 10000. */
  lemma {:induction false} HealthyInNumbers(pos: Position, priceColl: int, priceDebt: int, threshold: u32)
    requires 0 <= pos.collateral && 0 <= pos.debt && 0 < priceColl && 0 < priceDebt && threshold <= 9_500
    requires pos.collateral * priceColl <= VALUE_LIMIT * 100_000_000
    requires pos.debt * priceDebt <= VALUE_LIMIT * 100_000_000
    ensures Healthy(pos, priceColl, priceDebt, threshold)
        <==> pos.collateral * priceColl / 100_000_000 * threshold >= pos.debt * priceDebt / 100_000_000 * 10_000
  {
    ExactHealth(Quote(pos.collateral, pos.debt, priceColl, priceDebt, threshold, LiqParams(0, 0, 0)));
    Bonus.WorthInNumbers(pos.collateral, priceColl);
    Bonus.WorthInNumbers(pos.debt, priceDebt);
  }

  // ----- When calls go through -----

  /** The guards every call of a user passes first. */
  predicate Admitted(env: Env, user: Address, amount: int) {
    !user.PoolAccount? && !env.paused && amount > 0
  }

  /** Supplies that fit the amount type. */
  ghost predicate Bounded(s: State) {
    Sum(s.debtToken) <= I128_MAX && Sum(s.collToken) <= I128_MAX
  }

  /** A deposit goes through exactly when the depositor holds it and the total stays representable. */
  lemma {:induction false} DepositAcceptedIff(s: State, env: Env, who: Address, amount: int, gd: int, gc: int)
    requires Inv(s, gd, gc) && Bounded(s)
    ensures Deposit(s, env, who, amount).Ok?
        <==> && Admitted(env, who, amount) && amount <= ValueAt(s.debtToken, who)
             && s.totalDeposits + amount <= I128_MAX
  {
    if Admitted(env, who, amount) {
      TransferIff(s.debtToken, who, PoolAccount, amount);
      EntryWithinSum(s.deposits, who);
    }
  }

  lemma {:induction false} WithdrawAcceptedIff(s: State, env: Env, who: Address, amount: int, gd: int, gc: int)
    requires Inv(s, gd, gc) && Bounded(s)
    ensures Withdraw(s, env, who, amount).Ok?
        <==> && Admitted(env, who, amount) && amount <= ValueAt(s.deposits, who)
             && amount <= s.totalDeposits - s.totalBorrowed
  {
    if Admitted(env, who, amount) {
      WithdrawIff(s, env, who, amount, gd, gc);
    }
  }

  /** Collateral can be posted exactly by whoever holds it. */
  lemma {:induction false} DepositCollateralAcceptedIff(
      s: State, env: Env, user: Address, amount: int, gd: int, gc: int)
    requires Inv(s, gd, gc) && Bounded(s)
    ensures DepositCollateral(s, env, user, amount).Ok?
        <==> Admitted(env, user, amount) && amount <= ValueAt(s.collToken, user)
  {
    if Admitted(env, user, amount) {
      TransferIff(s.collToken, user, PoolAccount, amount);
      PositionWithinTotals(s, user);
      if amount <= ValueAt(s.collToken, user) {
        TransferEffect(s.collToken, user, PoolAccount, amount);
      }
    }
  }

  /** A loan goes through exactly within the free liquidity and when it leaves the position backed. */
  lemma {:induction false} BorrowAcceptedIff(s: State, env: Env, user: Address, amount: int, gd: int, gc: int)
    requires Inv(s, gd, gc) && Bounded(s)
    ensures Borrow(s, env, user, amount).Ok?
        <==> && Admitted(env, user, amount) && amount <= s.totalDeposits - s.totalBorrowed
             && Backed(s, env, PositionOf(s, user).(debt := PositionOf(s, user).debt + amount))
  {
    if Admitted(env, user, amount) {
      BorrowIff(s, env, user, amount, gd, gc);
      CheckPassesIff(s, env, PositionOf(s, user).(debt := PositionOf(s, user).debt + amount), InsufficientCollateral);
    }
  }

  lemma {:induction false} RepayAcceptedIff(s: State, env: Env, user: Address, amount: int, gd: int, gc: int)
    requires Inv(s, gd, gc) && Bounded(s)
    ensures Repay(s, env, user, amount).Ok?
        <==> && Admitted(env, user, amount) && PositionOf(s, user).debt > 0
             && Min(amount, PositionOf(s, user).debt) <= ValueAt(s.debtToken, user)
  {
    if Admitted(env, user, amount) {
      RepayIff(s, env, user, amount, gd, gc);
    }
  }

  /** Collateral can be taken back exactly as far as it is posted and, for a borrower in debt, the rest is backed. */
  lemma {:induction false} WithdrawCollateralAcceptedIff(
      s: State, env: Env, user: Address, amount: int, gd: int, gc: int)
    requires Inv(s, gd, gc) && Bounded(s)
    ensures var pos := PositionOf(s, user);
            WithdrawCollateral(s, env, user, amount).Ok?
            <==> && Admitted(env, user, amount) && amount <= pos.collateral
                 && (pos.debt > 0 ==> Backed(s, env, pos.(collateral := pos.collateral - amount)))
  {
    var pos := PositionOf(s, user);
    if Admitted(env, user, amount) && amount <= pos.collateral {
      PositionWithinTotals(s, user);
      TransferIff(s.collToken, PoolAccount, user, amount);
      CheckPassesIff(s, env, pos.(collateral := pos.collateral - amount), WouldUndercollateralize);
    }
  }

  /** A liquidation goes through exactly against another account's liquidatable position, for an amount that is not
      negative, when the liquidator holds what its plan repays. */
  lemma {:induction false} LiquidateAcceptedIff(
      s: State, env: Env, liquidator: Address, borrower: Address, amount: i128, q: Quote, gd: int, gc: int)
    requires Inv(s, gd, gc) && Bounded(s) && Quoted(s, env, borrower, q)
    ensures Liquidate(s, env, liquidator, borrower, amount).Ok?
        <==> && !liquidator.PoolAccount? && !env.paused && liquidator != borrower && amount >= 0
             && Liquidatable(I128, q)
             && ComputePlan(I128, q, ModeOf(amount).value).repay <= ValueAt(s.debtToken, liquidator)
  {
    PositionWithinTotals(s, borrower);
    if !liquidator.PoolAccount? && !env.paused && liquidator != borrower && amount >= 0 {
      var plan := ComputePlan(I128, q, ModeOf(amount).value);
      PlanFits(q, ModeOf(amount).value);
      LiquidationChecks(s, env, liquidator, borrower, amount, q);
      FundsMoveIff(s, Resolve(s.collFeed, env.collAnswers, env.now).1, Resolve(s.debtFeed, env.debtAnswers, env.now).1,
                   liquidator, plan);
      ActsExactlyWhenLiquidatable(q, ModeOf(amount).value);
    }
  }

  lemma {:induction false} LiquidationChecks(
      s: State, env: Env, liquidator: Address, borrower: Address, amount: i128, q: Quote)
    requires Quoted(s, env, borrower, q)
    requires !liquidator.PoolAccount? && !env.paused && liquidator != borrower && amount >= 0
    ensures var plan := ComputePlan(I128, q, ModeOf(amount).value);
            var priced := s.(collFeed := Resolve(s.collFeed, env.collAnswers, env.now).1,
                             debtFeed := Resolve(s.debtFeed, env.debtAnswers, env.now).1);
            Liquidate(s, env, liquidator, borrower, amount).Ok?
            <==> && q.debt > 0 && (plan.repay != 0 || plan.badDebt != 0)
                 && MoveFunds(priced, liquidator, plan).Ok?
  {
  }

  lemma {:induction false} ActsExactlyWhenLiquidatable(q: Quote, mode: RepayMode)
    requires q.coll >= 0 && q.debt >= 0
    ensures var plan := ComputePlan(I128, q, mode);
            plan.repay != 0 || plan.badDebt != 0 <==> Liquidatable(I128, q)
    ensures Liquidatable(I128, q) ==> q.debt > 0
  {
  }

  lemma {:induction false} FundsMoveIff(
      s: State, collFeed: TwapState, debtFeed: TwapState, liquidator: Address, plan: Plan)
    requires ValidLedger(s.debtToken) && ValidLedger(s.collToken) && Bounded(s) && !liquidator.PoolAccount?
    requires 0 <= plan.repay && 0 <= plan.seize <= ValueAt(s.collToken, PoolAccount)
    ensures MoveFunds(s.(collFeed := collFeed, debtFeed := debtFeed), liquidator, plan).Ok?
        <==> plan.repay <= ValueAt(s.debtToken, liquidator)
  {
    TransferIff(s.debtToken, liquidator, PoolAccount, plan.repay);
    TransferIff(s.collToken, PoolAccount, liquidator, plan.seize);
    EntryWithinSum(s.debtToken, liquidator);
  }

  /** A feed can be refreshed whenever it resolves. */
  lemma {:induction false} RecordPriceAcceptedIff(s: State, env: Env, asset: Asset)
    ensures RecordPrice(s, env, asset).Ok?
        <==> !env.paused && Resolve(FeedOf(s, asset), AnswersFor(env, asset), env.now).0.Some?
  {
  }

  // ----- Why calls are refused -----

  /** Who a call acts for. */
  function Caller(op: Op): Address {
    match op
    case OpDeposit(who, _) => who
    case OpWithdraw(who, _) => who
    case OpDepositCollateral(user, _) => user
    case OpBorrow(user, _) => user
    case OpRepay(user, _) => user
    case OpWithdrawCollateral(user, _) => user
    case OpLiquidate(liquidator, _, _) => liquidator
    case OpRecordPrice(_) => Account(0)
    case OpTokenTransfer(_, from, _, _) => from
  }

  /** A paused pool refuses every call of its own, and no call is ever made in the pool's name. */
  lemma {:induction false} PausedRefusesAll(s: State, call: Call)
    ensures Caller(call.op).PoolAccount? ==> Apply(s, call) == Err(Unauthorized)
    ensures call.env.paused && !call.op.OpTokenTransfer? && !Caller(call.op).PoolAccount? ==>
              Apply(s, call) == Err(Paused)
  {
  }

  /** A transfer fails for a negative amount, for a payer that is short, and for a receiver that would overflow. */
  lemma {:induction false} TransferRefusals(ledger: Ledger, from: Address, to: Address, amount: int)
    ensures amount < 0 ==> Transfer(ledger, from, to, amount) == Err(InvalidAmount)
    ensures amount >= 0 && ValueAt(ledger, from) < amount ==>
              Transfer(ledger, from, to, amount) == Err(if from.PoolAccount? then PoolShort else PayerShort)
    ensures 0 <= amount <= ValueAt(ledger, from) && from != to && ValueAt(ledger, to) + amount > I128_MAX ==>
              Transfer(ledger, from, to, amount) == Err(Overflow)
  {
  }

  lemma {:induction false} DepositRefusals(s: State, env: Env, user: Address, amount: i128)
    requires !user.PoolAccount? && !env.paused
    ensures amount <= 0 ==>
              Deposit(s, env, user, amount) == DepositCollateral(s, env, user, amount) == Err(InvalidAmount)
    ensures amount > 0 && amount > ValueAt(s.debtToken, user) ==> Deposit(s, env, user, amount) == Err(PayerShort)
    ensures amount > 0 && amount > ValueAt(s.collToken, user) ==>
              DepositCollateral(s, env, user, amount) == Err(PayerShort)
  {
  }

  lemma {:induction false} WithdrawRefusals(s: State, env: Env, user: Address, amount: i128)
    requires !user.PoolAccount? && !env.paused
    ensures amount <= 0 ==>
              Withdraw(s, env, user, amount) == WithdrawCollateral(s, env, user, amount) == Err(InvalidAmount)
    ensures amount > 0 && amount > ValueAt(s.deposits, user) ==>
              Withdraw(s, env, user, amount) == Err(InsufficientDepositorBalance)
    ensures 0 < amount <= ValueAt(s.deposits, user) && FreeLiquidity(s) < amount ==>
              Withdraw(s, env, user, amount) == Err(InsufficientPoolLiquidity)
    ensures amount > 0 && amount > PositionOf(s, user).collateral ==>
              WithdrawCollateral(s, env, user, amount) == Err(InsufficientCollateral)
  {
  }

  /** A price that is missing or not accepted, the collateral's first. */
  function PriceRefusal(s: State, env: Env): Error {
    var coll := Resolve(s.collFeed, env.collAnswers, env.now).0;
    var debt := Resolve(s.debtFeed, env.debtAnswers, env.now).0;
    if coll.None? then NoPriceSource else if !Accepted(coll) then InvalidPrice
    else if debt.None? then NoPriceSource else InvalidPrice
  }

  predicate BothAccepted(s: State, env: Env) {
    && Accepted(Resolve(s.collFeed, env.collAnswers, env.now).0)
    && Accepted(Resolve(s.debtFeed, env.debtAnswers, env.now).0)
  }

  lemma {:induction false} CheckRefusals(s: State, env: Env, pos: Position, failure: Error)
    ensures !BothAccepted(s, env) ==> CheckHealth(s, env, pos, failure) == Err(PriceRefusal(s, env))
    ensures BothAccepted(s, env) && !Backed(s, env, pos) ==> CheckHealth(s, env, pos, failure) == Err(failure)
  {
    PriceAcceptedIff(s.collFeed, env.collAnswers, env.now);
    PriceAcceptedIff(s.debtFeed, env.debtAnswers, env.now);
  }

  lemma {:induction false} BorrowRefusals(s: State, env: Env, user: Address, amount: i128)
    requires !user.PoolAccount? && !env.paused
    ensures amount <= 0 ==> Borrow(s, env, user, amount) == Err(InvalidAmount)
    ensures amount > 0 && FreeLiquidity(s) < amount ==> Borrow(s, env, user, amount) == Err(InsufficientPoolLiquidity)
    ensures 0 < amount <= FreeLiquidity(s) && !BothAccepted(s, env) ==>
              Borrow(s, env, user, amount) == Err(PriceRefusal(s, env))
    ensures var pos := PositionOf(s, user);
            0 < amount <= FreeLiquidity(s) && BothAccepted(s, env) && 0 <= pos.debt && pos.debt + amount <= I128_MAX &&
            !Backed(s, env, pos.(debt := pos.debt + amount)) ==>
              Borrow(s, env, user, amount) == Err(InsufficientCollateral)
  {
    var pos := PositionOf(s, user);
    CheckRefusals(s, env, pos.(debt := Add(I128, pos.debt, amount)), InsufficientCollateral);
  }

  lemma {:induction false} ReleaseRefusals(s: State, env: Env, user: Address, amount: i128)
    requires !user.PoolAccount? && !env.paused && 0 < amount <= PositionOf(s, user).collateral
    requires PositionOf(s, user).debt > 0
    ensures !BothAccepted(s, env) ==> WithdrawCollateral(s, env, user, amount) == Err(PriceRefusal(s, env))
    ensures var pos := PositionOf(s, user);
            BothAccepted(s, env) && !Backed(s, env, pos.(collateral := pos.collateral - amount)) ==>
              WithdrawCollateral(s, env, user, amount) == Err(WouldUndercollateralize)
  {
    var pos := PositionOf(s, user);
    CheckRefusals(s, env, pos.(collateral := pos.collateral - amount), WouldUndercollateralize);
  }

  lemma {:induction false} RepayRefusals(s: State, env: Env, user: Address, amount: i128)
    requires !user.PoolAccount? && !env.paused && PositionOf(s, user).debt >= 0
    ensures amount <= 0 ==> Repay(s, env, user, amount) == Err(InvalidAmount)
    ensures amount > 0 && PositionOf(s, user).debt == 0 ==> Repay(s, env, user, amount) == Err(NothingToRepay)
    ensures amount > 0 && Min(amount, PositionOf(s, user).debt) > ValueAt(s.debtToken, user) >= 0 ==>
              Repay(s, env, user, amount) == Err(PayerShort)
  {
  }

  lemma {:induction false} LiquidateRefusals(s: State, env: Env, liquidator: Address, borrower: Address, amount: i128)
    requires !liquidator.PoolAccount? && !env.paused
    ensures liquidator == borrower ==> Liquidate(s, env, liquidator, borrower, amount) == Err(SelfLiquidation)
    ensures liquidator != borrower && PositionOf(s, borrower).debt <= 0 ==>
              Liquidate(s, env, liquidator, borrower, amount) == Err(NotLiquidatable)
    ensures var coll := Resolve(s.collFeed, env.collAnswers, env.now).0;
            var debt := Resolve(s.debtFeed, env.debtAnswers, env.now).0;
            liquidator != borrower && PositionOf(s, borrower).debt > 0 ==>
              && (coll.None? || debt.None? ==>
                    Liquidate(s, env, liquidator, borrower, amount) == Err(NoPriceSource))
              && (coll.Some? && debt.Some? && amount < 0 ==>
                    Liquidate(s, env, liquidator, borrower, amount) == Err(InvalidAmount))
              && (coll.Some? && debt.Some? && amount >= 0 &&
                  !Liquidatable(I128, QuoteFor(s, env, borrower, coll.value, debt.value)) ==>
                    Liquidate(s, env, liquidator, borrower, amount) == Err(NotLiquidatable))
  {
  }

  lemma {:induction false} RecordPriceRefusals(s: State, env: Env, asset: Asset)
    requires !env.paused && Resolve(FeedOf(s, asset), AnswersFor(env, asset), env.now).0.None?
    ensures RecordPrice(s, env, asset) == Err(NoPriceSource)
  {
  }

  // ----- What calls record -----

  /** A fresh pool has no deposits, positions or observations, over the two ledgers it is given. */
  lemma {:induction false} FreshIsEmpty(debtToken: Ledger, collToken: Ledger, u: Address)
    ensures var s := Fresh(debtToken, collToken);
            && s.debtToken == debtToken && s.collToken == collToken
            && ValueAt(s.deposits, u) == PositionOf(s, u).collateral == PositionOf(s, u).debt == 0
            && s.totalDeposits == s.totalBorrowed == 0 && s.depositors == []
            && s.collFeed == s.debtFeed == Replay([], BUFFER)
  {
  }

  /** Both feeds as resolving them leaves them. */
  predicate BothRecorded(s: State, after: State, env: Env) {
    && after.collFeed == Resolve(s.collFeed, env.collAnswers, env.now).1
    && after.debtFeed == Resolve(s.debtFeed, env.debtAnswers, env.now).1
  }

  predicate NothingRecorded(s: State, after: State) {
    after.collFeed == s.collFeed && after.debtFeed == s.debtFeed
  }

  /** Every call that asks for prices leaves the feeds resolved, and no other call touches them. */
  lemma {:induction false} AskingRecords(s: State, call: Call)
    requires Apply(s, call).Ok?
    ensures var after := Apply(s, call).value;
            match call.op
            case OpBorrow(_, _) => BothRecorded(s, after, call.env)
            case OpLiquidate(_, _, _) => BothRecorded(s, after, call.env)
            case OpWithdrawCollateral(user, _) =>
              if PositionOf(s, user).debt > 0 then BothRecorded(s, after, call.env) else NothingRecorded(s, after)
            case OpRecordPrice(asset) =>
              && after == s.(collFeed := after.collFeed, debtFeed := after.debtFeed)
              && FeedOf(after, asset) == Resolve(FeedOf(s, asset), AnswersFor(call.env, asset), call.env.now).1
              && (asset.CollateralAsset? ==> after.debtFeed == s.debtFeed)
              && (asset.DebtAsset? ==> after.collFeed == s.collFeed)
            case _ => NothingRecorded(s, after)
  {
    match call.op
    case OpLiquidate(liquidator, borrower, amount) => LiquidationRecords(s, call.env, liquidator, borrower, amount);
    case OpBorrow(user, amount) => BorrowRecords(s, call.env, user, amount);
    case OpWithdrawCollateral(user, amount) => ReleaseRecords(s, call.env, user, amount);
    case _ =>
  }

  lemma {:induction false} BorrowRecords(s: State, env: Env, user: Address, amount: i128)
    requires Borrow(s, env, user, amount).Ok?
    ensures BothRecorded(s, Borrow(s, env, user, amount).value, env)
  {
    var pos := PositionOf(s, user);
    CheckPassesIff(s, env, pos.(debt := Add(I128, pos.debt, amount)), InsufficientCollateral);
  }

  lemma {:induction false} ReleaseRecords(s: State, env: Env, user: Address, amount: i128)
    requires WithdrawCollateral(s, env, user, amount).Ok?
    ensures var after := WithdrawCollateral(s, env, user, amount).value;
            if PositionOf(s, user).debt > 0 then BothRecorded(s, after, env) else NothingRecorded(s, after)
  {
    WithdrawalChecked(s, env, user, amount);
  }

  lemma {:induction false} LiquidationRecords(
      s: State, env: Env, liquidator: Address, borrower: Address, amount: i128)
    requires Liquidate(s, env, liquidator, borrower, amount).Ok?
    ensures BothRecorded(s, Liquidate(s, env, liquidator, borrower, amount).value.0, env)
  {
    var coll := Resolve(s.collFeed, env.collAnswers, env.now);
    var debt := Resolve(s.debtFeed, env.debtAnswers, env.now);
    var plan := ComputePlan(I128, QuoteFor(s, env, borrower, coll.0.value, debt.0.value), ModeOf(amount).value);
    SettleKeepsFeeds(MoveFunds(s.(collFeed := coll.1, debtFeed := debt.1), liquidator, plan).value, borrower, plan);
  }

  /** Depositors are listed in the order of their first deposits: only a deposit adds to the list, and at its end. */
  lemma {:induction false} DepositorsKeepOrder(s: State, call: Call)
    ensures var after := Step(s, call).depositors;
            after == if call.op.OpDeposit? && Apply(s, call).Ok? && call.op.who !in s.depositors
                     then s.depositors + [call.op.who] else s.depositors
  {
    if call.op.OpLiquidate? && Apply(s, call).Ok? {
      LiquidationKeepsList(s, call.env, call.op.liquidator, call.op.borrower, call.op.amount);
    }
  }

  lemma {:induction false} LiquidationKeepsList(
      s: State, env: Env, liquidator: Address, borrower: Address, amount: i128)
    requires Liquidate(s, env, liquidator, borrower, amount).Ok?
    ensures Liquidate(s, env, liquidator, borrower, amount).value.0.depositors == s.depositors
  {
    var coll := Resolve(s.collFeed, env.collAnswers, env.now);
    var debt := Resolve(s.debtFeed, env.debtAnswers, env.now);
    var plan := ComputePlan(I128, QuoteFor(s, env, borrower, coll.0.value, debt.0.value), ModeOf(amount).value);
    SettleKeepsList(MoveFunds(s.(collFeed := coll.1, debtFeed := debt.1), liquidator, plan).value, borrower, plan);
  }

  lemma {:induction false} SettleKeepsList(s: State, borrower: Address, plan: Plan)
    ensures Settle(s, borrower, plan).0.depositors == s.depositors
  {
  }

  /** A liquidation that takes everything removes the position, any other keeps it. */
  lemma {:induction false} EmptiedPositionIsRemoved(
      s: State, env: Env, liquidator: Address, borrower: Address, amount: i128, gd: int, gc: int)
    requires Inv(s, gd, gc) && Liquidate(s, env, liquidator, borrower, amount).Ok?
    ensures var (after, outcome) := Liquidate(s, env, liquidator, borrower, amount).value;
            var was := PositionOf(s, borrower);
            borrower in after.positions
            <==> was.collateral > outcome.seize || was.debt > outcome.repay + outcome.socialized
  {
    var plan, priced, q, mode := LiquidationPlan(s, env, liquidator, borrower, amount);
    SettledPositions(priced, liquidator, borrower, plan);
    StoredIff(s.positions, borrower, Remainder(PositionOf(s, borrower), plan));
    BadDebtIsAbsorbed(s, env, liquidator, borrower, amount, gd, gc);
    StoreElsewhere(s.positions, borrower, Remainder(PositionOf(s, borrower), plan), borrower);
  }

  lemma {:induction false} StoredIff(positions: map<Address, Position>, user: Address, pos: Position)
    ensures user in StorePosition(positions, user, pos) <==> pos != NO_POSITION
  {
  }

  /** Without deposits or depositors there is nobody to charge: the total is cleared and nothing is applied. */
  lemma {:induction false} NobodyToCharge(s: State, loss: int)
    ensures loss <= 0 ==> Socialize(s, loss) == (s, 0)
    ensures loss > 0 && (s.totalDeposits <= 0 || s.depositors == []) ==>
              Socialize(s, loss) == (s.(totalDeposits := 0), 0)
  {
  }
}
