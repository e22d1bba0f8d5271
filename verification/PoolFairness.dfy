/** What each call does to each account: who gains, who pays, and when a call goes through. */
module PoolFairness {
  import opened Arith
  import opened Constants
  import opened Results
  import opened Sums
  import opened Liquidation
  import opened LiquidationLimits
  import opened Socialization
  import opened ProRata
  import opened Oracle
  import opened Pool
  import opened PoolInvariants

  /** What an account holds and is owed in debt tokens, less what it owes. */
  function NetDebtTokens(s: State, u: Address): int {
    ValueAt(s.debtToken, u) + ValueAt(s.deposits, u) - PositionOf(s, u).debt
  }

  /** What an account holds and has posted in collateral tokens. */
  function NetCollTokens(s: State, u: Address): int {
    ValueAt(s.collToken, u) + PositionOf(s, u).collateral
  }

  predicate SameWorth(s: State, after: State, u: Address) {
    NetDebtTokens(after, u) == NetDebtTokens(s, u) && NetCollTokens(after, u) == NetCollTokens(s, u)
  }

  /** Debt tokens flow into the pool by `debtIn` and collateral tokens by `collIn`. */
  predicate Flow(s: State, after: State, debtIn: int, collIn: int) {
    && ValueAt(after.debtToken, PoolAccount) == ValueAt(s.debtToken, PoolAccount) + debtIn
    && ValueAt(after.collToken, PoolAccount) == ValueAt(s.collToken, PoolAccount) + collIn
  }

  // ----- Lending calls move value, never create it -----

  lemma {:induction false} DepositIsFair(s: State, env: Env, who: Address, amount: int, u: Address)
    requires ValidLedger(s.debtToken) && Deposit(s, env, who, amount).Ok? && !u.PoolAccount?
    ensures var after := Deposit(s, env, who, amount).value;
            SameWorth(s, after, u) && Flow(s, after, amount, 0)
  {
    TransferEffect(s.debtToken, who, PoolAccount, amount);
  }

  lemma {:induction false} WithdrawIsFair(s: State, env: Env, who: Address, amount: int, u: Address)
    requires ValidLedger(s.debtToken) && Withdraw(s, env, who, amount).Ok? && !u.PoolAccount?
    ensures var after := Withdraw(s, env, who, amount).value;
            SameWorth(s, after, u) && Flow(s, after, -amount, 0)
  {
    TransferEffect(s.debtToken, PoolAccount, who, amount);
  }

  lemma {:induction false} DepositCollateralIsFair(s: State, env: Env, user: Address, amount: int, u: Address)
    requires ValidLedger(s.collToken) && DepositCollateral(s, env, user, amount).Ok? && !u.PoolAccount?
    ensures var after := DepositCollateral(s, env, user, amount).value;
            SameWorth(s, after, u) && Flow(s, after, 0, amount)
  {
    TransferEffect(s.collToken, user, PoolAccount, amount);
  }

  lemma {:induction false} BorrowIsFair(s: State, env: Env, user: Address, amount: int, u: Address)
    requires ValidLedger(s.debtToken) && PositionBook(s) && Borrow(s, env, user, amount).Ok? && !u.PoolAccount?
    ensures var after := Borrow(s, env, user, amount).value;
            SameWorth(s, after, u) && Flow(s, after, -amount, 0)
  {
    PositionWithinTotals(s, user);
    BorrowChecked(s, env, user, amount);
    TransferEffect(s.debtToken, PoolAccount, user, amount);
  }

  lemma {:induction false} RepayIsFair(s: State, env: Env, user: Address, amount: int, u: Address)
    requires ValidLedger(s.debtToken) && Repay(s, env, user, amount).Ok? && !u.PoolAccount?
    ensures var after := Repay(s, env, user, amount).value;
            SameWorth(s, after, u) && Flow(s, after, Min(amount, PositionOf(s, user).debt), 0)
  {
    TransferEffect(s.debtToken, user, PoolAccount, Min(amount, PositionOf(s, user).debt));
  }

  lemma {:induction false} WithdrawCollateralIsFair(s: State, env: Env, user: Address, amount: int, u: Address)
    requires ValidLedger(s.collToken) && WithdrawCollateral(s, env, user, amount).Ok? && !u.PoolAccount?
    ensures var after := WithdrawCollateral(s, env, user, amount).value;
            SameWorth(s, after, u) && Flow(s, after, 0, -amount)
  {
    WithdrawalChecked(s, env, user, amount);
    TransferEffect(s.collToken, PoolAccount, user, amount);
  }

  // ----- Liquidations -----

  /** What a liquidation takes from a depositor. */
  function Loss(s: State, after: State, u: Address): int {
    ValueAt(s.deposits, u) - ValueAt(after.deposits, u)
  }

  lemma {:induction false} MoveFundsAccounts(s: State, liquidator: Address, plan: Plan, u: Address)
    requires ValidLedger(s.debtToken) && ValidLedger(s.collToken) && !liquidator.PoolAccount? && !u.PoolAccount?
    requires plan.repay >= 0 && plan.seize >= 0 && MoveFunds(s, liquidator, plan).Ok?
    ensures var after := MoveFunds(s, liquidator, plan).value;
            && ValueAt(after.debtToken, u) == ValueAt(s.debtToken, u) - (if u == liquidator then plan.repay else 0)
            && ValueAt(after.collToken, u) == ValueAt(s.collToken, u) + (if u == liquidator then plan.seize else 0)
  {
    if plan.repay > 0 {
      TransferEffect(s.debtToken, liquidator, PoolAccount, plan.repay);
    }
    if plan.seize > 0 {
      TransferEffect(s.collToken, PoolAccount, liquidator, plan.seize);
    }
  }

  lemma {:induction false} StoreElsewhere(positions: map<Address, Position>, user: Address, pos: Position, u: Address)
    ensures Lookup(StorePosition(positions, user, pos), u) == if u == user then pos else Lookup(positions, u)
  {
  }

  /** Account by account: the liquidator pays the repayment and gets the seized collateral, the borrower loses
      that collateral and is rid of the repaid and written-off debt, depositors bear their losses,
      and nothing else changes hands. */
  lemma {:induction false} LiquidationByAccount(
      s: State, env: Env, liquidator: Address, borrower: Address, amount: i128, u: Address, gd: int, gc: int)
    requires Inv(s, gd, gc) && Liquidate(s, env, liquidator, borrower, amount).Ok? && !u.PoolAccount?
    ensures var (after, outcome) := Liquidate(s, env, liquidator, borrower, amount).value;
            && NetDebtTokens(after, u) == NetDebtTokens(s, u) - Loss(s, after, u)
                 - (if u == liquidator then outcome.repay else 0)
                 + (if u == borrower then outcome.repay + outcome.socialized else 0)
            && NetCollTokens(after, u) == NetCollTokens(s, u)
                 + (if u == liquidator then outcome.seize else 0)
                 - (if u == borrower then outcome.seize else 0)
  {
    var plan, priced, q, mode := LiquidationPlan(s, env, liquidator, borrower, amount);
    MoveFundsEffect(priced, liquidator, plan);
    MoveFundsAccounts(priced, liquidator, plan, u);
    SettleEffect(MoveFunds(priced, liquidator, plan).value, borrower, plan);
    StoreElsewhere(s.positions, borrower, Remainder(PositionOf(s, borrower), plan), u);
  }

  /** Every depositor loses its share of a loss rounded down, plus at most one unit for each other depositor. */
  predicate BorneProRata(s: State, after: State, loss: int)
    requires s.totalDeposits > 0
  {
    forall d <- s.depositors ::
      var share := ValueAt(s.deposits, d) * loss / s.totalDeposits;
      share <= Loss(s, after, d) <= share + |s.depositors| - 1
  }

  /** The residual that saturated shares leave reaches every depositor they fall short for. */
  predicate SpreadReaches(s: State, loss: int) {
    var balances := Amounts(s.depositors, s.deposits);
    forall i | 0 <= i < |balances| :: Reached(I128, balances, s.totalDeposits, loss, i)
  }

  /** What socialization takes from each depositor is its cut. */
  lemma {:induction false} LossIsCut(s: State, loss: int)
    requires DepositBook(s) && 0 < loss <= s.totalDeposits <= I128_MAX
    ensures var cuts := Cuts(I128, Amounts(s.depositors, s.deposits), s.totalDeposits, loss);
            && |cuts| == |s.depositors|
            && forall i | 0 <= i < |s.depositors| :: Loss(s, Socialize(s, loss).0, s.depositors[i]) == cuts[i]
  {
    var cuts := Cuts(I128, Amounts(s.depositors, s.deposits), s.totalDeposits, loss);
    SocializeAbsorbs(s, loss);
    SocializedCuts(s, loss);
    DeductEntries(s.deposits, s.depositors, cuts, |s.depositors|);
  }

  /** Socialization is pro rata, for any balances the contract can hold, if and only if the residual reaches
      everyone. */
  lemma {:induction false} SocializeIsProRataIff(s: State, loss: int)
    requires DepositBook(s) && 0 < loss <= s.totalDeposits <= I128_MAX
    ensures BorneProRata(s, Socialize(s, loss).0, loss) <==> SpreadReaches(s, loss)
  {
    var balances, after := Amounts(s.depositors, s.deposits), Socialize(s, loss).0;
    var cuts := Cuts(I128, balances, s.totalDeposits, loss);
    SocializedCuts(s, loss);
    LossIsCut(s, loss);
    LossIsProRataIff(I128, balances, s.totalDeposits, loss);
    BorneIsCut(s, after, cuts, loss);
  }

  lemma {:induction false} BorneIsCut(s: State, after: State, cuts: seq<int>, loss: int)
    requires s.totalDeposits > 0 && |cuts| == |s.depositors|
    requires forall i | 0 <= i < |s.depositors| :: Loss(s, after, s.depositors[i]) == cuts[i]
    ensures BorneProRata(s, after, loss)
        <==> IsProRata(cuts, Amounts(s.depositors, s.deposits), s.totalDeposits, loss)
  {
    var balances := Amounts(s.depositors, s.deposits);
    if BorneProRata(s, after, loss) {
      forall i | 0 <= i < |balances|
        ensures balances[i] * loss / s.totalDeposits <= cuts[i]
                  <= balances[i] * loss / s.totalDeposits + |balances| - 1
      {
        assert s.depositors[i] in s.depositors;
      }
    }
    if IsProRata(cuts, balances, s.totalDeposits, loss) {
      forall d <- s.depositors
        ensures var share := ValueAt(s.deposits, d) * loss / s.totalDeposits;
                share <= Loss(s, after, d) <= share + |s.depositors| - 1
      {
        var i :| 0 <= i < |s.depositors| && s.depositors[i] == d;
        assert balances[i] == ValueAt(s.deposits, d);
      }
    }
  }

  /** It does as long as no balance's product with the loss saturates. */
  lemma {:induction false} RepresentableProductsReach(s: State, loss: int)
    requires DepositBook(s) && 0 < loss <= s.totalDeposits <= I128_MAX
    requires forall d <- s.depositors :: ValueAt(s.deposits, d) * loss <= I128_MAX
    ensures SpreadReaches(s, loss)
  {
    SocializedCuts(s, loss);
    var balances := Amounts(s.depositors, s.deposits);
    forall i | 0 <= i < |balances|
      ensures balances[i] * loss <= I128_MAX
    {
      assert s.depositors[i] in s.depositors;
    }
    SharesDoNotSaturate(balances, s.totalDeposits, loss);
    LossIsProRataIff(I128, balances, s.totalDeposits, loss);
  }

  /** No losses without a write-off, and otherwise pro rata exactly when the residual reaches everyone. */
  ghost predicate LossesFollow(s: State, after: State, socialized: int) {
    if socialized == 0 then forall d :: Loss(s, after, d) == 0
    else
      s.totalDeposits > 0 && (BorneProRata(s, after, socialized) <==> SpreadReaches(s, socialized))
  }

  lemma {:induction false} OnlyDepositsMatter(s: State, t: State, after: State, socialized: int)
    requires s.deposits == t.deposits && s.depositors == t.depositors && s.totalDeposits == t.totalDeposits
    ensures LossesFollow(s, after, socialized) <==> LossesFollow(t, after, socialized)
  {
    assert forall d :: Loss(s, after, d) == Loss(t, after, d);
  }

  /** The depositors' losses in a whole liquidation are those of its socialized debt: none without any, and otherwise
      pro rata under the same condition. */
  lemma {:induction false} LiquidationLossesAreProRataIff(
      s: State, env: Env, liquidator: Address, borrower: Address, amount: i128, gd: int, gc: int)
    requires Inv(s, gd, gc) && Liquidate(s, env, liquidator, borrower, amount).Ok?
    ensures var (after, outcome) := Liquidate(s, env, liquidator, borrower, amount).value;
            LossesFollow(s, after, outcome.socialized)
  {
    var plan, priced, q, mode := LiquidationPlan(s, env, liquidator, borrower, amount);
    MoveFundsEffect(priced, liquidator, plan);
    var moved := MoveFunds(priced, liquidator, plan).value;
    SettlementLosses(moved, borrower, plan);
    OnlyDepositsMatter(s, moved, Settle(moved, borrower, plan).0, Settle(moved, borrower, plan).1);
  }

  lemma {:induction false} SettlementLosses(s: State, borrower: Address, plan: Plan)
    requires DepositBook(s) && PositionBook(s) && s.totalBorrowed <= s.totalDeposits <= I128_MAX
    requires Fits(plan, PositionOf(s, borrower))
    ensures var (after, socialized) := Settle(s, borrower, plan);
            LossesFollow(s, after, socialized)
  {
    PositionWithinTotals(s, borrower);
    SettleEffect(s, borrower, plan);
    SettleShape(s, borrower, plan);
    if plan.badDebt > 0 {
      SocializeIsProRataIff(s.(totalBorrowed := s.totalBorrowed - plan.repay - plan.badDebt), plan.badDebt);
    }
  }

  /** A pool of two depositors with 10^20 each. */
  function LargePool(): State {
    Fresh(map[], map[]).(deposits := map[Account(0) := LARGE, Account(1) := LARGE],
                         depositors := [Account(0), Account(1)], totalDeposits := 2 * LARGE)
  }

  lemma {:induction false} LargePoolBalances()
    ensures DepositBook(LargePool()) && Amounts(LargePool().depositors, LargePool().deposits) == [LARGE, LARGE]
  {
    var none: map<Address, int> := map[];
    SumUpdate(none, Account(0), LARGE);
    SumUpdate(none[Account(0) := LARGE], Account(1), LARGE);
    assert LargePool().deposits == none[Account(0) := LARGE][Account(1) := LARGE];
  }

  lemma {:induction false} LargeLosses(s: State, loss: int, cuts: seq<int>)
    requires s == LargePool() && loss == LARGE / 5 && cuts == Cuts(I128, [LARGE, LARGE], 2 * LARGE, loss)
    ensures |cuts| == 2
    ensures forall i | 0 <= i < 2 :: Loss(s, Socialize(s, loss).0, s.depositors[i]) == cuts[i]
  {
    LargePoolBalances();
    LossIsCut(s, loss);
  }

  /** Of a loss of a tenth of its deposits the first depositor bears more than nineteen twentieths. */
  lemma {:induction false} LargeLossIsLopsided(s: State, loss: int)
    requires s == LargePool() && loss == LARGE / 5
    ensures DepositBook(s) && 0 < loss <= s.totalDeposits <= I128_MAX
    ensures Loss(s, Socialize(s, loss).0, Account(0)) * 20 > 19 * loss
    ensures Loss(s, Socialize(s, loss).0, Account(1)) * 20 < loss
    ensures !BorneProRata(s, Socialize(s, loss).0, loss)
  {
    var cuts := Cuts(I128, [LARGE, LARGE], 2 * LARGE, loss);
    LargePoolBalances();
    LopsidedLoss();
    LargeLosses(s, loss, cuts);
    assert s.depositors[0] == Account(0) && s.depositors[1] == Account(1);
    BorneIsCut(s, Socialize(s, loss).0, cuts, loss);
  }

  // ----- Debt cleared for nothing -----

  /** A liquidation that costs its caller nothing: no repayment and no seizure, the whole debt charged to the
      depositors, and the borrower free of it with all of its collateral. */
  predicate ClearsForNothing(s: State, borrower: Address, r: Result<(State, Outcome)>) {
    r.Ok? &&
    var (after, outcome) := r.value;
    && outcome.repay == outcome.seize == 0
    && outcome.socialized == PositionOf(s, borrower).debt == s.totalDeposits - after.totalDeposits
    && PositionOf(after, borrower) == Position(PositionOf(s, borrower).collateral, 0)
    && after.debtToken == s.debtToken && after.collToken == s.collToken
  }

  /** A liquidation whose checks pass carries out its plan. */
  lemma {:induction false} LiquidationGoesThrough(
      s: State, env: Env, liquidator: Address, borrower: Address, amount: i128, priced: State, plan: Plan)
    requires !liquidator.PoolAccount? && !env.paused && liquidator != borrower && PositionOf(s, borrower).debt > 0
    requires ModeOf(amount).Ok? && (plan.repay != 0 || plan.badDebt != 0)
    requires var coll := Resolve(s.collFeed, env.collAnswers, env.now);
             var debt := Resolve(s.debtFeed, env.debtAnswers, env.now);
             && coll.0.Some? && debt.0.Some?
             && plan == ComputePlan(I128, QuoteFor(s, env, borrower, coll.0.value, debt.0.value), ModeOf(amount).value)
             && priced == s.(collFeed := coll.1, debtFeed := debt.1)
    requires MoveFunds(priced, liquidator, plan).Ok?
    ensures var settled := Settle(MoveFunds(priced, liquidator, plan).value, borrower, plan);
            Liquidate(s, env, liquidator, borrower, amount)
            == Ok((settled.0, Outcome(plan.repay, plan.seize, plan.bonus, settled.1)))
  {
  }

  /** A plan that only writes off settles as the write-off it is. */
  lemma {:induction false} WriteOffSettles(s: State, borrower: Address, bonus: int)
    requires DepositBook(s) && PositionBook(s) && s.totalBorrowed <= s.totalDeposits <= I128_MAX
    ensures var (after, socialized) := Settle(s, borrower, Plan(0, 0, bonus, PositionOf(s, borrower).debt));
            ClearsForNothing(s, borrower, Ok((after, Outcome(0, 0, bonus, socialized))))
  {
    var pos := PositionOf(s, borrower);
    PositionWithinTotals(s, borrower);
    SettleEffect(s, borrower, Plan(0, 0, bonus, pos.debt));
    StoreElsewhere(s.positions, borrower, pos.(debt := 0), borrower);
  }

  lemma {:induction false} NothingToMove(s: State, liquidator: Address, plan: Plan)
    requires plan.repay == plan.seize == 0
    ensures MoveFunds(s, liquidator, plan) == Ok(s)
  {
  }

  /** What a liquidation attempt against a liquidatable position needs before its plan is carried out. */
  ghost predicate Attempt(s: State, env: Env, liquidator: Address, borrower: Address, q: Quote) {
    && !liquidator.PoolAccount? && !env.paused && liquidator != borrower
    && Resolve(s.collFeed, env.collAnswers, env.now).0 == Some(q.priceColl)
    && Resolve(s.debtFeed, env.debtAnswers, env.now).0 == Some(q.priceDebt)
    && q == QuoteFor(s, env, borrower, q.priceColl, q.priceDebt)
    && Liquidatable(I128, q)
  }

  /** A liquidation clears the borrower's debt for nothing if and only if what its mode asks for, capped by the debt
      and its backing, is worth less than one debt token. */
  lemma {:induction false} ClearsForNothingIff(
      s: State, env: Env, liquidator: Address, borrower: Address, amount: i128, q: Quote, gd: int, gc: int)
    requires Inv(s, gd, gc) && Attempt(s, env, liquidator, borrower, q) && ModeOf(amount).Ok?
    ensures ClearsForNothing(s, borrower, Liquidate(s, env, liquidator, borrower, amount))
        <==> Capped(I128, q, TargetValue(I128, q, ModeOf(amount).value)) * PRICE_SCALE < q.priceDebt
  {
    var plan := ComputePlan(I128, q, ModeOf(amount).value);
    PositionWithinTotals(s, borrower);
    LiquidatableIsPriced(I128, q);
    UndrainedWriteOffIff(I128, q, ModeOf(amount).value);
    if plan == Plan(0, 0, Bonus(I128, q), q.debt) {
      var priced := s.(collFeed := Resolve(s.collFeed, env.collAnswers, env.now).1,
                       debtFeed := Resolve(s.debtFeed, env.debtAnswers, env.now).1);
      NothingToMove(priced, liquidator, plan);
      WriteOffSettles(priced, borrower, plan.bonus);
      LiquidationGoesThrough(s, env, liquidator, borrower, amount, priced, plan);
    } else if Liquidate(s, env, liquidator, borrower, amount).Ok? {
      ReportedRepayment(s, env, liquidator, borrower, amount, q);
    }
  }

  lemma {:induction false} ReportedRepayment(
      s: State, env: Env, liquidator: Address, borrower: Address, amount: i128, q: Quote)
    requires PositionBook(s) && Attempt(s, env, liquidator, borrower, q)
    requires Liquidate(s, env, liquidator, borrower, amount).Ok? && ModeOf(amount).Ok?
    ensures Liquidate(s, env, liquidator, borrower, amount).value.1.repay
         == ComputePlan(I128, q, ModeOf(amount).value).repay
  {
    var plan, priced, q1, mode := LiquidationPlan(s, env, liquidator, borrower, amount);
  }

  /** So anyone can clear any liquidatable debt for nothing by asking to repay one unit, if and only if the debt
      token is not worth a whole number of value units or the debt or its backing is worth less than a token. */
  lemma {:induction false} OneUnitClearsForNothingIff(
      s: State, env: Env, liquidator: Address, borrower: Address, q: Quote, gd: int, gc: int)
    requires Inv(s, gd, gc) && Attempt(s, env, liquidator, borrower, q)
    ensures ClearsForNothing(s, borrower, Liquidate(s, env, liquidator, borrower, 1)) <==> OneUnitIsDust(I128, q)
  {
    PositionWithinTotals(s, borrower);
    LiquidatableIsPriced(I128, q);
    ClearsForNothingIff(s, env, liquidator, borrower, 1, q, gd, gc);
    OneUnitIsDustIff(I128, q);
  }

  // ----- When calls go through -----

  /** With a token supply that fits the amount type no transfer overflows: it fails exactly when the payer is short. */
  lemma {:induction false} TransferIff(ledger: Ledger, from: Address, to: Address, amount: int)
    requires ValidLedger(ledger) && Sum(ledger) <= I128_MAX && amount >= 0
    ensures Transfer(ledger, from, to, amount).Ok? <==> amount <= ValueAt(ledger, from)
  {
    if amount <= ValueAt(ledger, from) {
      var debited := ledger[from := ValueAt(ledger, from) - amount];
      SumUpdate(ledger, from, ValueAt(ledger, from) - amount);
      EntryWithinSum(debited, to);
    }
  }

  /** A depositor can withdraw exactly up to its balance and the free liquidity. */
  lemma {:induction false} WithdrawIff(s: State, env: Env, who: Address, amount: int, gd: int, gc: int)
    requires Inv(s, gd, gc) && Sum(s.debtToken) <= I128_MAX && !who.PoolAccount? && !env.paused && amount > 0
    ensures Withdraw(s, env, who, amount).Ok?
        <==> amount <= ValueAt(s.deposits, who) && amount <= s.totalDeposits - s.totalBorrowed
  {
    FreeLiquidityIsCash(s, gd, gc);
    TransferIff(s.debtToken, PoolAccount, who, amount);
  }

  /** A user can borrow exactly up to the free liquidity and what leaves the position healthy. */
  lemma {:induction false} BorrowIff(s: State, env: Env, user: Address, amount: int, gd: int, gc: int)
    requires Inv(s, gd, gc) && Sum(s.debtToken) <= I128_MAX && !user.PoolAccount? && !env.paused && amount > 0
    ensures Borrow(s, env, user, amount).Ok?
        <==> && amount <= s.totalDeposits - s.totalBorrowed
             && var pos := PositionOf(s, user);
                CheckHealth(s, env, pos.(debt := pos.debt + amount), InsufficientCollateral).Ok?
  {
    FreeLiquidityIsCash(s, gd, gc);
    TransferIff(s.debtToken, PoolAccount, user, amount);
    PositionWithinTotals(s, user);
  }

  /** A borrower can repay whenever it owes something and holds the capped amount; no price is asked. */
  lemma {:induction false} RepayIff(s: State, env: Env, user: Address, amount: int, gd: int, gc: int)
    requires Inv(s, gd, gc) && Sum(s.debtToken) <= I128_MAX && !user.PoolAccount? && !env.paused && amount > 0
    ensures Repay(s, env, user, amount).Ok?
        <==> PositionOf(s, user).debt > 0 && Min(amount, PositionOf(s, user).debt) <= ValueAt(s.debtToken, user)
  {
    PositionWithinTotals(s, user);
    TransferIff(s.debtToken, user, PoolAccount, Min(amount, PositionOf(s, user).debt));
  }

  // ----- Calls that undo each other -----

  /** Same balances, claims and totals, whatever the feeds; only the list of depositors may have grown. */
  ghost predicate SameBooks(s: State, t: State) {
    && s.totalDeposits == t.totalDeposits && s.totalBorrowed == t.totalBorrowed
    && forall u :: && ValueAt(s.deposits, u) == ValueAt(t.deposits, u)
                   && PositionOf(s, u) == PositionOf(t, u)
                   && ValueAt(s.debtToken, u) == ValueAt(t.debtToken, u)
                   && ValueAt(s.collToken, u) == ValueAt(t.collToken, u)
  }

  lemma {:induction false} ThereAndBack(ledger: Ledger, a: Address, b: Address, amount: int)
    requires ValidLedger(ledger) && Transfer(ledger, a, b, amount).Ok?
    requires Transfer(Transfer(ledger, a, b, amount).value, b, a, amount).Ok?
    ensures var back := Transfer(Transfer(ledger, a, b, amount).value, b, a, amount).value;
            forall u :: ValueAt(back, u) == ValueAt(ledger, u)
  {
    TransferEffect(ledger, a, b, amount);
    TransferEffect(Transfer(ledger, a, b, amount).value, b, a, amount);
  }

  lemma {:induction false} DepositCanBeWithdrawn(
      s: State, env: Env, env2: Env, who: Address, amount: int, gd: int, gc: int)
    requires Inv(s, gd, gc) && Sum(s.debtToken) <= I128_MAX && Deposit(s, env, who, amount).Ok? && !env2.paused
    ensures Withdraw(Deposit(s, env, who, amount).value, env2, who, amount).Ok?
  {
    DepositKeeps(s, env, who, amount, gd, gc);
    WithdrawIff(Deposit(s, env, who, amount).value, env2, who, amount, gd, gc);
  }

  /** A deposit can be withdrawn at once, and then everyone has what they had. */
  lemma {:induction false} DepositThenWithdraw(
      s: State, env: Env, env2: Env, who: Address, amount: int, gd: int, gc: int)
    requires Inv(s, gd, gc) && Sum(s.debtToken) <= I128_MAX && Deposit(s, env, who, amount).Ok? && !env2.paused
    ensures var back := Withdraw(Deposit(s, env, who, amount).value, env2, who, amount);
            back.Ok? && SameBooks(s, back.value)
  {
    DepositCanBeWithdrawn(s, env, env2, who, amount, gd, gc);
    ThereAndBack(s.debtToken, who, PoolAccount, amount);
  }

  lemma {:induction false} LoanCanBeRepaid(s: State, env: Env, env2: Env, user: Address, amount: int, gd: int, gc: int)
    requires Inv(s, gd, gc) && Sum(s.debtToken) <= I128_MAX && Borrow(s, env, user, amount).Ok? && !env2.paused
    ensures Repay(Borrow(s, env, user, amount).value, env2, user, amount).Ok?
  {
    PositionWithinTotals(s, user);
    BorrowChecked(s, env, user, amount);
    BorrowKeeps(s, env, user, amount, gd, gc);
    TransferEffect(s.debtToken, PoolAccount, user, amount);
    RepayIff(Borrow(s, env, user, amount).value, env2, user, amount, gd, gc);
  }

  /** A loan can be repaid at once, and then everyone has what they had. */
  lemma {:induction false} BorrowThenRepay(s: State, env: Env, env2: Env, user: Address, amount: int, gd: int, gc: int)
    requires Inv(s, gd, gc) && Sum(s.debtToken) <= I128_MAX && Borrow(s, env, user, amount).Ok? && !env2.paused
    ensures var back := Repay(Borrow(s, env, user, amount).value, env2, user, amount);
            back.Ok? && SameBooks(s, back.value)
  {
    PositionWithinTotals(s, user);
    BorrowChecked(s, env, user, amount);
    LoanCanBeRepaid(s, env, env2, user, amount, gd, gc);
    ThereAndBack(s.debtToken, PoolAccount, user, amount);
    assert PositionOf(Borrow(s, env, user, amount).value, user).debt == PositionOf(s, user).debt + amount;
  }

  lemma {:induction false} PledgeCanBeReleased(
      s: State, env: Env, env2: Env, user: Address, amount: int, gd: int, gc: int)
    requires Inv(s, gd, gc) && Sum(s.collToken) <= I128_MAX && !env2.paused
    requires DepositCollateral(s, env, user, amount).Ok?
    requires PositionOf(s, user).debt == 0
    ensures Transfer(Transfer(s.collToken, user, PoolAccount, amount).value, PoolAccount, user, amount).Ok?
    ensures WithdrawCollateral(DepositCollateral(s, env, user, amount).value, env2, user, amount).Ok?
  {
    PositionWithinTotals(s, user);
    TransferEffect(s.collToken, user, PoolAccount, amount);
    TransferIff(Transfer(s.collToken, user, PoolAccount, amount).value, PoolAccount, user, amount);
  }

  /** Collateral posted by a borrower without debt can be taken back at once, and then everyone has what they had. */
  lemma {:induction false} PledgeThenRelease(
      s: State, env: Env, env2: Env, user: Address, amount: int, gd: int, gc: int)
    requires Inv(s, gd, gc) && Sum(s.collToken) <= I128_MAX && !env2.paused
    requires DepositCollateral(s, env, user, amount).Ok?
    requires PositionOf(s, user).debt == 0
    ensures var back := WithdrawCollateral(DepositCollateral(s, env, user, amount).value, env2, user, amount);
            back.Ok? && SameBooks(s, back.value)
  {
    PledgeCanBeReleased(s, env, env2, user, amount, gd, gc);
    ThereAndBack(s.collToken, user, PoolAccount, amount);
  }
}
