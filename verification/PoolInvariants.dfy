/** What every reachable state of the pool satisfies. */
module PoolInvariants {
  import opened Arith
  import opened Results
  import opened Sums
  import opened Liquidation
  import opened Socialization
  import opened Oracle
  import opened Pool

  function Debts(positions: map<Address, Position>): map<Address, int> {
    map u <- positions :: positions[u].debt
  }

  function Collaterals(positions: map<Address, Position>): map<Address, int> {
    map u <- positions :: positions[u].collateral
  }

  /** The depositor list names exactly the recorded balances, once each, and they add up. */
  ghost predicate DepositsBalance(deposits: map<Address, int>, depositors: seq<Address>, total: int) {
    && Distinct(depositors)
    && (forall d <- deposits :: d in depositors)
    && (forall d <- depositors :: d in deposits)
    && NonNegative(deposits)
    && total == Sum(deposits)
  }

  ghost predicate DepositBook(s: State) {
    DepositsBalance(s.deposits, s.depositors, s.totalDeposits)
  }

  ghost predicate DebtsBalance(positions: map<Address, Position>, total: int) {
    && NonNegative(Debts(positions))
    && NonNegative(Collaterals(positions))
    && total == Sum(Debts(positions))
  }

  ghost predicate PositionBook(s: State) {
    DebtsBalance(s.positions, s.totalBorrowed)
  }

  /** The pool's two token balances, up to the tokens it was given outside its own calls. */
  ghost predicate CashBook(s: State, giftDebt: int, giftColl: int) {
    && giftDebt >= 0 && giftColl >= 0
    && ValueAt(s.debtToken, PoolAccount) + s.totalBorrowed == s.totalDeposits + giftDebt
    && ValueAt(s.collToken, PoolAccount) == Sum(Collaterals(s.positions)) + giftColl
  }

  predicate ValidLedger(ledger: Ledger) {
    forall a <- ledger :: 0 <= ledger[a] <= I128_MAX
  }

  ghost predicate Inv(s: State, giftDebt: int, giftColl: int) {
    && DepositBook(s)
    && PositionBook(s)
    && CashBook(s, giftDebt, giftColl)
    && 0 <= s.totalBorrowed <= s.totalDeposits <= I128_MAX
    && ValidLedger(s.debtToken)
    && ValidLedger(s.collToken)
  }

  // ----- Ledgers and positions -----

  lemma {:induction false} TransferEffect(ledger: Ledger, from: Address, to: Address, amount: int)
    requires ValidLedger(ledger) && Transfer(ledger, from, to, amount).Ok?
    ensures var after := Transfer(ledger, from, to, amount).value;
            && ValidLedger(after)
            && Sum(after) == Sum(ledger)
            && (from != to ==> ValueAt(after, from) == ValueAt(ledger, from) - amount)
            && (from != to ==> ValueAt(after, to) == ValueAt(ledger, to) + amount)
            && (from == to ==> ValueAt(after, to) == ValueAt(ledger, to))
            && forall a | a != from && a != to :: ValueAt(after, a) == ValueAt(ledger, a)
  {
    var debited := ledger[from := ValueAt(ledger, from) - amount];
    SumUpdate(ledger, from, ValueAt(ledger, from) - amount);
    SumUpdate(debited, to, ValueAt(debited, to) + amount);
  }

  /** Storing or removing a position moves both totals by the difference. */
  lemma {:induction false} PositionUpdate(positions: map<Address, Position>, total: int, user: Address, pos: Position)
    requires DebtsBalance(positions, total) && pos.collateral >= 0 && pos.debt >= 0
    ensures var after, was := positions[user := pos], Lookup(positions, user);
            && DebtsBalance(after, total - was.debt + pos.debt)
            && Sum(Collaterals(after)) == Sum(Collaterals(positions)) - was.collateral + pos.collateral
  {
    var after := positions[user := pos];
    SumUpdate(Debts(positions), user, pos.debt);
    SumUpdate(Collaterals(positions), user, pos.collateral);
    assert Debts(after) == Debts(positions)[user := pos.debt];
    assert Collaterals(after) == Collaterals(positions)[user := pos.collateral];
  }

  lemma {:induction false} PositionRemove(positions: map<Address, Position>, total: int, user: Address)
    requires DebtsBalance(positions, total)
    ensures var after, was := positions - {user}, Lookup(positions, user);
            && DebtsBalance(after, total - was.debt)
            && Sum(Collaterals(after)) == Sum(Collaterals(positions)) - was.collateral
  {
    SumRemove(Debts(positions), user);
    SumRemove(Collaterals(positions), user);
    assert Debts(positions - {user}) == Debts(positions) - {user};
    assert Collaterals(positions - {user}) == Collaterals(positions) - {user};
  }

  lemma {:induction false} PositionStore(positions: map<Address, Position>, total: int, user: Address, pos: Position)
    requires DebtsBalance(positions, total) && pos.collateral >= 0 && pos.debt >= 0
    ensures var after, was := StorePosition(positions, user, pos), Lookup(positions, user);
            && DebtsBalance(after, total - was.debt + pos.debt)
            && Sum(Collaterals(after)) == Sum(Collaterals(positions)) - was.collateral + pos.collateral
            && Lookup(after, user) == pos
  {
    if pos == NO_POSITION {
      PositionRemove(positions, total, user);
    } else {
      PositionUpdate(positions, total, user, pos);
    }
  }

  /** Every position is non-negative and within the pool's totals. */
  lemma {:induction false} PositionWithinTotals(s: State, user: Address)
    requires PositionBook(s)
    ensures 0 <= PositionOf(s, user).debt <= s.totalBorrowed
    ensures 0 <= PositionOf(s, user).collateral <= Sum(Collaterals(s.positions))
  {
    EntryWithinSum(Debts(s.positions), user);
    EntryWithinSum(Collaterals(s.positions), user);
  }

  // ----- Each call -----

  /** A state that keeps the books of another one and holds the same token supplies. */
  ghost predicate Keeps(s: State, after: State, giftDebt: int, giftColl: int) {
    && Inv(after, giftDebt, giftColl)
    && Sum(after.debtToken) == Sum(s.debtToken)
    && Sum(after.collToken) == Sum(s.collToken)
  }

  /** Changing one balance moves the total by the difference and keeps the list complete. */
  lemma {:induction false} BalanceUpdate(
      deposits: map<Address, int>, depositors: seq<Address>, total: int, who: Address, balance: int)
    requires DepositsBalance(deposits, depositors, total) && balance >= 0
    ensures DepositsBalance(deposits[who := balance], Register(depositors, who),
                            total - ValueAt(deposits, who) + balance)
  {
    SumUpdate(deposits, who, balance);
  }

  /** Only one position changes, and the pool's cash with it. */
  lemma {:induction false} PositionStep(s: State, after: State, user: Address, pos: Position, gd: int, gc: int)
    requires Inv(s, gd, gc) && pos.collateral >= 0 && pos.debt >= 0
    requires after.deposits == s.deposits && after.depositors == s.depositors && after.totalDeposits == s.totalDeposits
    requires after.positions == s.positions[user := pos]
    requires ValidLedger(after.debtToken) && Sum(after.debtToken) == Sum(s.debtToken)
    requires ValidLedger(after.collToken) && Sum(after.collToken) == Sum(s.collToken)
    requires var was := PositionOf(s, user);
             && after.totalBorrowed == s.totalBorrowed - was.debt + pos.debt <= s.totalDeposits
             && ValueAt(after.debtToken, PoolAccount) == ValueAt(s.debtToken, PoolAccount) + was.debt - pos.debt
             && ValueAt(after.collToken, PoolAccount)
                == ValueAt(s.collToken, PoolAccount) + pos.collateral - was.collateral
    ensures Keeps(s, after, gd, gc)
  {
    PositionWithinTotals(s, user);
    PositionUpdate(s.positions, s.totalBorrowed, user, pos);
  }

  /** Only one depositor's balance changes, and the pool's cash with it. */
  lemma {:induction false} BalanceStep(s: State, after: State, who: Address, balance: int, gd: int, gc: int)
    requires Inv(s, gd, gc) && balance >= 0
    requires after.positions == s.positions && after.totalBorrowed == s.totalBorrowed && after.collToken == s.collToken
    requires after.deposits == s.deposits[who := balance] && after.depositors == Register(s.depositors, who)
    requires ValidLedger(after.debtToken) && Sum(after.debtToken) == Sum(s.debtToken)
    requires var change := balance - ValueAt(s.deposits, who);
             && s.totalBorrowed <= after.totalDeposits == s.totalDeposits + change <= I128_MAX
             && ValueAt(after.debtToken, PoolAccount) == ValueAt(s.debtToken, PoolAccount) + change
    ensures Keeps(s, after, gd, gc)
  {
    BalanceUpdate(s.deposits, s.depositors, s.totalDeposits, who, balance);
  }

  lemma {:induction false} DepositKeeps(s: State, env: Env, who: Address, amount: int, gd: int, gc: int)
    requires Inv(s, gd, gc) && Deposit(s, env, who, amount).Ok?
    ensures Keeps(s, Deposit(s, env, who, amount).value, gd, gc)
  {
    TransferEffect(s.debtToken, who, PoolAccount, amount);
    BalanceStep(s, Deposit(s, env, who, amount).value, who, ValueAt(s.deposits, who) + amount, gd, gc);
  }

  lemma {:induction false} WithdrawKeeps(s: State, env: Env, who: Address, amount: int, gd: int, gc: int)
    requires Inv(s, gd, gc) && Withdraw(s, env, who, amount).Ok?
    ensures Keeps(s, Withdraw(s, env, who, amount).value, gd, gc)
  {
    TransferEffect(s.debtToken, PoolAccount, who, amount);
    BalanceStep(s, Withdraw(s, env, who, amount).value, who, ValueAt(s.deposits, who) - amount, gd, gc);
  }

  lemma {:induction false} DepositCollateralKeeps(s: State, env: Env, user: Address, amount: int, gd: int, gc: int)
    requires Inv(s, gd, gc) && DepositCollateral(s, env, user, amount).Ok?
    ensures Keeps(s, DepositCollateral(s, env, user, amount).value, gd, gc)
  {
    var pos := PositionOf(s, user);
    PositionWithinTotals(s, user);
    TransferEffect(s.collToken, user, PoolAccount, amount);
    PositionStep(s, DepositCollateral(s, env, user, amount).value, user,
                 pos.(collateral := pos.collateral + amount), gd, gc);
  }

  /** A successful borrow stayed within the free liquidity, paid out exactly the amount, and left the larger
      debt healthy at the prices it resolved. */
  lemma {:induction false} BorrowChecked(s: State, env: Env, user: Address, amount: int)
    requires Borrow(s, env, user, amount).Ok? && PositionOf(s, user).debt >= 0
    ensures var coll := Resolve(s.collFeed, env.collAnswers, env.now);
            var debt := Resolve(s.debtFeed, env.debtAnswers, env.now);
            var pos := PositionOf(s, user);
            && !user.PoolAccount? && 0 < amount <= FreeLiquidity(s)
            && coll.0.Some? && debt.0.Some?
            && Healthy(pos.(debt := pos.debt + amount), coll.0.value, debt.0.value, env.threshold)
            && Transfer(s.debtToken, PoolAccount, user, amount).Ok?
            && Borrow(s, env, user, amount).value
               == s.(debtToken := Transfer(s.debtToken, PoolAccount, user, amount).value,
                     positions := s.positions[user := pos.(debt := pos.debt + amount)],
                     totalBorrowed := s.totalBorrowed + amount,
                     collFeed := coll.1, debtFeed := debt.1)
  {
  }

  /** A successful withdrawal of collateral paid out exactly the amount and left the position free of debt or healthy
      at the prices it resolved. */
  lemma {:induction false} WithdrawalChecked(s: State, env: Env, user: Address, amount: int)
    requires WithdrawCollateral(s, env, user, amount).Ok?
    ensures var coll := Resolve(s.collFeed, env.collAnswers, env.now);
            var debt := Resolve(s.debtFeed, env.debtAnswers, env.now);
            var (after, pos) := (WithdrawCollateral(s, env, user, amount).value, PositionOf(s, user));
            var rest := pos.(collateral := pos.collateral - amount);
            && !user.PoolAccount? && 0 < amount <= pos.collateral
            && (pos.debt > 0 ==>
                  coll.0.Some? && debt.0.Some? && Healthy(rest, coll.0.value, debt.0.value, env.threshold))
            && Transfer(s.collToken, PoolAccount, user, amount).Ok?
            && after == s.(collToken := Transfer(s.collToken, PoolAccount, user, amount).value,
                           positions := s.positions[user := rest],
                           collFeed := if pos.debt > 0 then coll.1 else s.collFeed,
                           debtFeed := if pos.debt > 0 then debt.1 else s.debtFeed)
  {
  }

  lemma {:induction false} BorrowedBooks(s: State, env: Env, user: Address, amount: int)
    requires Borrow(s, env, user, amount).Ok? && PositionOf(s, user).debt >= 0
    ensures var after, pos := Borrow(s, env, user, amount).value, PositionOf(s, user);
            && !user.PoolAccount? && 0 < amount <= FreeLiquidity(s)
            && Transfer(s.debtToken, PoolAccount, user, amount) == Ok(after.debtToken)
            && after.deposits == s.deposits && after.depositors == s.depositors && after.collToken == s.collToken
            && after.positions == s.positions[user := pos.(debt := pos.debt + amount)]
            && after.totalDeposits == s.totalDeposits && after.totalBorrowed == s.totalBorrowed + amount
  {
    BorrowChecked(s, env, user, amount);
  }

  lemma {:induction false} BorrowKeeps(s: State, env: Env, user: Address, amount: int, gd: int, gc: int)
    requires Inv(s, gd, gc) && Borrow(s, env, user, amount).Ok?
    ensures Keeps(s, Borrow(s, env, user, amount).value, gd, gc)
  {
    var pos := PositionOf(s, user);
    PositionWithinTotals(s, user);
    BorrowedBooks(s, env, user, amount);
    TransferEffect(s.debtToken, PoolAccount, user, amount);
    PositionStep(s, Borrow(s, env, user, amount).value, user, pos.(debt := pos.debt + amount), gd, gc);
  }

  lemma {:induction false} RepayKeeps(s: State, env: Env, user: Address, amount: int, gd: int, gc: int)
    requires Inv(s, gd, gc) && Repay(s, env, user, amount).Ok?
    ensures Keeps(s, Repay(s, env, user, amount).value, gd, gc)
  {
    var pos := PositionOf(s, user);
    var paid := Min(amount, pos.debt);
    PositionWithinTotals(s, user);
    TransferEffect(s.debtToken, user, PoolAccount, paid);
    PositionStep(s, Repay(s, env, user, amount).value, user, pos.(debt := pos.debt - paid), gd, gc);
  }

  /** Feeds play no part in the accounting. */
  lemma {:induction false} FeedsDoNotMatter(s: State, a: State, b: State, gd: int, gc: int)
    requires a == b.(collFeed := a.collFeed, debtFeed := a.debtFeed)
    ensures Inv(a, gd, gc) == Inv(b, gd, gc)
    ensures Keeps(s, a, gd, gc) == Keeps(s, b, gd, gc)
  {
  }

  lemma {:induction false} WithdrawCollateralKeeps(s: State, env: Env, user: Address, amount: int, gd: int, gc: int)
    requires Inv(s, gd, gc) && WithdrawCollateral(s, env, user, amount).Ok?
    ensures Keeps(s, WithdrawCollateral(s, env, user, amount).value, gd, gc)
  {
    var pos := PositionOf(s, user);
    PositionWithinTotals(s, user);
    WithdrawalChecked(s, env, user, amount);
    TransferEffect(s.collToken, PoolAccount, user, amount);
    PositionStep(s, WithdrawCollateral(s, env, user, amount).value, user,
                 pos.(collateral := pos.collateral - amount), gd, gc);
  }

  lemma {:induction false} TokenTransferKeeps(
      s: State, asset: Asset, from: Address, to: Address, amount: int, gd: int, gc: int)
    requires Inv(s, gd, gc) && TokenTransfer(s, asset, from, to, amount).Ok?
    ensures var gift := if to.PoolAccount? then amount else 0;
            Keeps(s, TokenTransfer(s, asset, from, to, amount).value,
                  gd + (if asset.DebtAsset? then gift else 0), gc + (if asset.CollateralAsset? then gift else 0))
  {
    TransferEffect(if asset.CollateralAsset? then s.collToken else s.debtToken, from, to, amount);
  }

  // ----- Liquidation -----

  /** Socialization absorbs a loss that deposits can cover exactly: the applied amount is the loss, no
      balance goes negative, and the branch that wipes the totals is not taken. */
  lemma {:induction false} SocializeAbsorbs(s: State, loss: int)
    requires DepositBook(s) && 0 < loss <= s.totalDeposits <= I128_MAX
    ensures var (after, applied) := Socialize(s, loss);
            && applied == loss
            && DepositBook(after)
            && after == s.(deposits := after.deposits, totalDeposits := s.totalDeposits - loss)
    ensures s.depositors != [] && Absorbable(Amounts(s.depositors, s.deposits), s.totalDeposits, loss)
  {
    SocializedCuts(s, loss);
    DeductKeepsBook(s.deposits, s.depositors, s.totalDeposits,
                    Cuts(I128, Amounts(s.depositors, s.deposits), s.totalDeposits, loss));
  }

  lemma {:induction false} SocializedCuts(s: State, loss: int)
    requires DepositBook(s) && 0 < loss <= s.totalDeposits
    ensures s.depositors != [] && Absorbable(Amounts(s.depositors, s.deposits), s.totalDeposits, loss)
    ensures var cuts := Cuts(I128, Amounts(s.depositors, s.deposits), s.totalDeposits, loss);
            && |cuts| == |s.depositors| && SeqSum(cuts) == loss
            && forall i | 0 <= i < |cuts| :: cuts[i] <= ValueAt(s.deposits, s.depositors[i])
  {
    var balances := Amounts(s.depositors, s.deposits);
    AmountsTotal(s.depositors, s.deposits);
    assert SeqSum(balances) == s.totalDeposits;
    LossIsAbsorbed(I128, balances, s.totalDeposits, loss);
  }

  lemma {:induction false} DeductKeepsBook(
      deposits: map<Address, int>, depositors: seq<Address>, total: int, cuts: seq<int>)
    requires DepositsBalance(deposits, depositors, total) && |cuts| == |depositors|
    requires forall i | 0 <= i < |cuts| :: cuts[i] <= ValueAt(deposits, depositors[i])
    ensures DepositsBalance(Deduct(deposits, depositors, cuts, |cuts|), depositors, total - SeqSum(cuts))
  {
    DeductEntries(deposits, depositors, cuts, |cuts|);
    DeductTotal(deposits, depositors, cuts, |cuts|);
    assert cuts[..|cuts|] == cuts;
    var after := Deduct(deposits, depositors, cuts, |cuts|);
    forall d <- after
      ensures after[d] >= 0
    {
      var i :| 0 <= i < |depositors| && depositors[i] == d;
      assert after[depositors[i]] == deposits[depositors[i]] - cuts[i];
    }
  }

  /** A plan's amounts against the borrower's position. */
  predicate Fits(plan: Plan, pos: Position) {
    && 0 <= plan.repay && 0 <= plan.badDebt && plan.repay + plan.badDebt <= pos.debt
    && 0 <= plan.seize <= pos.collateral
  }

  /** Moving a plan's funds shifts exactly its amounts into and out of the pool's balances. */
  lemma {:induction false} MoveFundsEffect(s: State, liquidator: Address, plan: Plan)
    requires ValidLedger(s.debtToken) && ValidLedger(s.collToken) && !liquidator.PoolAccount?
    requires plan.repay >= 0 && plan.seize >= 0
    requires MoveFunds(s, liquidator, plan).Ok?
    ensures var after := MoveFunds(s, liquidator, plan).value;
            && after == s.(debtToken := after.debtToken, collToken := after.collToken)
            && ValidLedger(after.debtToken) && ValidLedger(after.collToken)
            && Sum(after.debtToken) == Sum(s.debtToken) && Sum(after.collToken) == Sum(s.collToken)
            && ValueAt(after.debtToken, PoolAccount) == ValueAt(s.debtToken, PoolAccount) + plan.repay
            && ValueAt(after.collToken, PoolAccount) == ValueAt(s.collToken, PoolAccount) - plan.seize
  {
    if plan.repay > 0 {
      TransferEffect(s.debtToken, liquidator, PoolAccount, plan.repay);
    }
    if plan.seize > 0 {
      TransferEffect(s.collToken, PoolAccount, liquidator, plan.seize);
    }
  }

  /** Writing off any loss the deposits cover, including none. */
  lemma {:induction false} WriteOff(s: State, loss: int)
    requires DepositBook(s) && 0 <= loss <= s.totalDeposits <= I128_MAX
    ensures var (after, applied) := Socialize(s, loss);
            && applied == loss
            && DepositBook(after)
            && after == s.(deposits := after.deposits, totalDeposits := s.totalDeposits - loss)
  {
    if loss > 0 {
      SocializeAbsorbs(s, loss);
    }
  }

  /** What a plan leaves of a position. */
  function Remainder(pos: Position, plan: Plan): Position {
    Position(pos.collateral - plan.seize, pos.debt - plan.repay - plan.badDebt)
  }

  /** Settling a plan writes off exactly its bad debt, from deposits and from debts alike, and leaves
      the depositor list, the ledgers and the feeds alone. */
  lemma {:induction false} SettleEffect(s: State, borrower: Address, plan: Plan)
    requires DepositBook(s) && PositionBook(s) && s.totalBorrowed <= s.totalDeposits <= I128_MAX
    requires Fits(plan, PositionOf(s, borrower))
    ensures var (after, socialized) := Settle(s, borrower, plan);
            && socialized == plan.badDebt
            && DepositBook(after)
            && after == s.(deposits := after.deposits,
                           positions := StorePosition(s.positions, borrower, Remainder(PositionOf(s, borrower), plan)),
                           totalDeposits := s.totalDeposits - plan.badDebt,
                           totalBorrowed := s.totalBorrowed - plan.repay - plan.badDebt)
            && after.totalBorrowed >= 0
  {
    var reduced := s.(totalBorrowed := s.totalBorrowed - plan.repay - plan.badDebt);
    PositionWithinTotals(s, borrower);
    SettleShape(s, borrower, plan);
    WriteOff(reduced, plan.badDebt);
  }

  /** Within the totals no subtraction of a settlement saturates. */
  lemma {:induction false} SettleShape(s: State, borrower: Address, plan: Plan)
    requires Fits(plan, PositionOf(s, borrower)) && PositionOf(s, borrower).debt <= s.totalBorrowed <= I128_MAX
    ensures var social := Socialize(s.(totalBorrowed := s.totalBorrowed - plan.repay - plan.badDebt), plan.badDebt);
            Settle(s, borrower, plan)
            == (social.0.(positions := StorePosition(s.positions, borrower, Remainder(PositionOf(s, borrower), plan))),
                social.1)
  {
  }

  /** Even without prices a plan stays within the position. */
  lemma {:induction false} PlanFits(q: Quote, mode: RepayMode)
    requires q.coll >= 0 && q.debt >= 0
    ensures Fits(ComputePlan(I128, q, mode), Position(q.coll, q.debt))
  {
  }

  /** The plan a liquidation carries out and the state it settles it in. */
  lemma {:induction false} LiquidationPlan(s: State, env: Env, liquidator: Address, borrower: Address, amount: i128)
    returns (plan: Plan, priced: State, q: Quote, mode: RepayMode)
    requires PositionBook(s) && Liquidate(s, env, liquidator, borrower, amount).Ok?
    ensures !liquidator.PoolAccount? && liquidator != borrower
    ensures var coll := Resolve(s.collFeed, env.collAnswers, env.now);
            var debt := Resolve(s.debtFeed, env.debtAnswers, env.now);
            && coll.0.Some? && debt.0.Some?
            && q == QuoteFor(s, env, borrower, coll.0.value, debt.0.value)
            && priced == s.(collFeed := coll.1, debtFeed := debt.1)
    ensures ModeOf(amount) == Ok(mode)
    ensures plan == ComputePlan(I128, q, mode) && (plan.repay > 0 || plan.badDebt > 0)
    ensures Fits(plan, PositionOf(s, borrower))
    ensures MoveFunds(priced, liquidator, plan).Ok?
    ensures var settled := Settle(MoveFunds(priced, liquidator, plan).value, borrower, plan);
            Liquidate(s, env, liquidator, borrower, amount).value
            == (settled.0, Outcome(plan.repay, plan.seize, plan.bonus, settled.1))
  {
    var coll := Resolve(s.collFeed, env.collAnswers, env.now);
    var debt := Resolve(s.debtFeed, env.debtAnswers, env.now);
    q := QuoteFor(s, env, borrower, coll.0.value, debt.0.value);
    mode := ModeOf(amount).value;
    plan := ComputePlan(I128, q, mode);
    priced := s.(collFeed := coll.1, debtFeed := debt.1);
    PositionWithinTotals(s, borrower);
    PlanFits(q, mode);
  }

  lemma {:induction false} LiquidateKeeps(
      s: State, env: Env, liquidator: Address, borrower: Address, amount: i128, gd: int, gc: int)
    requires Inv(s, gd, gc) && Liquidate(s, env, liquidator, borrower, amount).Ok?
    ensures Keeps(s, Liquidate(s, env, liquidator, borrower, amount).value.0, gd, gc)
  {
    var plan, priced, q, mode := LiquidationPlan(s, env, liquidator, borrower, amount);
    FeedsDoNotMatter(s, priced, s, gd, gc);
    SettlementKeeps(priced, liquidator, borrower, plan, gd, gc);
  }

  lemma {:induction false} SettlementKeeps(
      s: State, liquidator: Address, borrower: Address, plan: Plan, gd: int, gc: int)
    requires Inv(s, gd, gc) && !liquidator.PoolAccount? && Fits(plan, PositionOf(s, borrower))
    requires MoveFunds(s, liquidator, plan).Ok?
    ensures Keeps(s, Settle(MoveFunds(s, liquidator, plan).value, borrower, plan).0, gd, gc)
  {
    MoveFundsEffect(s, liquidator, plan);
    var moved := MoveFunds(s, liquidator, plan).value;
    SettleEffect(moved, borrower, plan);
    SettledBooks(s, Settle(moved, borrower, plan).0, borrower, plan, gd, gc);
  }

  /** Books from which a plan's amounts were taken on both sides balance again. */
  lemma {:induction false} SettledBooks(s: State, after: State, borrower: Address, plan: Plan, gd: int, gc: int)
    requires Inv(s, gd, gc) && Fits(plan, PositionOf(s, borrower)) && DepositBook(after)
    requires after.positions == StorePosition(s.positions, borrower, Remainder(PositionOf(s, borrower), plan))
    requires after.totalDeposits == s.totalDeposits - plan.badDebt
    requires after.totalBorrowed == s.totalBorrowed - plan.repay - plan.badDebt
    requires ValidLedger(after.debtToken) && Sum(after.debtToken) == Sum(s.debtToken)
    requires ValidLedger(after.collToken) && Sum(after.collToken) == Sum(s.collToken)
    requires ValueAt(after.debtToken, PoolAccount) == ValueAt(s.debtToken, PoolAccount) + plan.repay
    requires ValueAt(after.collToken, PoolAccount) == ValueAt(s.collToken, PoolAccount) - plan.seize
    ensures Keeps(s, after, gd, gc)
  {
    PositionWithinTotals(s, borrower);
    PositionStore(s.positions, s.totalBorrowed, borrower, Remainder(PositionOf(s, borrower), plan));
  }

  // ----- Runs -----

  /** Tokens a call adds to the pool's balance without going through the pool. */
  function GiftOf(s: State, call: Call, asset: Asset): int {
    if call.op.OpTokenTransfer? && call.op.asset == asset && call.op.to.PoolAccount? && Apply(s, call).Ok?
    then call.op.amount
    else 0
  }

  function LedgerOf(s: State, asset: Asset): Ledger {
    if asset.CollateralAsset? then s.collToken else s.debtToken
  }

  /** Tokens the pool holds at the start of a run or is given outside its own calls. */
  function Gifts(s: State, calls: seq<Call>, asset: Asset): int {
    if calls == [] then ValueAt(LedgerOf(s, asset), PoolAccount)
    else
      var front := calls[..|calls| - 1];
      Gifts(s, front, asset) + GiftOf(Run(s, front), calls[|calls| - 1], asset)
  }

  /** Calls that move a depositor's or the market's tokens, or no tokens. */
  predicate Simple(op: Op) {
    op.OpDeposit? || op.OpWithdraw? || op.OpRecordPrice? || op.OpTokenTransfer?
  }

  lemma {:induction false} SimpleStepKeeps(s: State, call: Call, gd: int, gc: int)
    requires Inv(s, gd, gc) && Simple(call.op) && !call.op.OpTokenTransfer? && Apply(s, call).Ok?
    ensures Keeps(s, Apply(s, call).value, gd, gc)
  {
    match call.op
    case OpDeposit(who, amount) => DepositKeeps(s, call.env, who, amount, gd, gc);
    case OpWithdraw(who, amount) => WithdrawKeeps(s, call.env, who, amount, gd, gc);
    case OpRecordPrice(asset) => FeedsDoNotMatter(s, Apply(s, call).value, s, gd, gc);
  }

  lemma {:induction false} PositionStepKeeps(s: State, call: Call, gd: int, gc: int)
    requires Inv(s, gd, gc) && !Simple(call.op) && Apply(s, call).Ok?
    ensures Keeps(s, Apply(s, call).value, gd, gc)
  {
    match call.op
    case OpDepositCollateral(user, amount) => DepositCollateralKeeps(s, call.env, user, amount, gd, gc);
    case OpBorrow(user, amount) => BorrowKeeps(s, call.env, user, amount, gd, gc);
    case OpRepay(user, amount) => RepayKeeps(s, call.env, user, amount, gd, gc);
    case OpWithdrawCollateral(user, amount) => WithdrawCollateralKeeps(s, call.env, user, amount, gd, gc);
    case OpLiquidate(liquidator, borrower, amount) => LiquidateKeeps(s, call.env, liquidator, borrower, amount, gd, gc);
  }

  /** Every call, whether it succeeds or reverts, keeps the books balanced and both token supplies unchanged. */
  lemma {:induction false} StepKeeps(s: State, call: Call, gd: int, gc: int)
    requires Inv(s, gd, gc)
    ensures Keeps(s, Step(s, call), gd + GiftOf(s, call, DebtAsset), gc + GiftOf(s, call, CollateralAsset))
  {
    if Apply(s, call).Ok? {
      if call.op.OpTokenTransfer? {
        TokenTransferKeeps(s, call.op.asset, call.op.from, call.op.to, call.op.amount, gd, gc);
      } else if Simple(call.op) {
        SimpleStepKeeps(s, call, gd, gc);
      } else {
        PositionStepKeeps(s, call, gd, gc);
      }
    }
  }

  /** In every state that any run reaches, the pool's books balance to the last token: cash plus receivables
      equals deposits plus outside gifts, every total is the sum of its parts, and no token was created or lost. */
  lemma {:induction false} BooksAlwaysBalance(debtToken: Ledger, collToken: Ledger, calls: seq<Call>)
    requires ValidLedger(debtToken) && ValidLedger(collToken)
    ensures var start := Fresh(debtToken, collToken);
            Keeps(start, Run(start, calls), Gifts(start, calls, DebtAsset), Gifts(start, calls, CollateralAsset))
  {
    var start := Fresh(debtToken, collToken);
    if calls == [] {
      assert Debts(start.positions) == map[] && Collaterals(start.positions) == map[];
    } else {
      var front := calls[..|calls| - 1];
      BooksAlwaysBalance(debtToken, collToken, front);
      StepKeeps(Run(start, front), calls[|calls| - 1],
                Gifts(start, front, DebtAsset), Gifts(start, front, CollateralAsset));
    }
  }

  /** The free-liquidity figure is exactly the pool's cash less outside gifts. */
  lemma {:induction false} FreeLiquidityIsCash(s: State, gd: int, gc: int)
    requires Inv(s, gd, gc)
    ensures FreeLiquidity(s) == ValueAt(s.debtToken, PoolAccount) - gd
  {
  }

  lemma {:induction false} TransferIsFunded(ledger: Ledger, from: Address, to: Address, amount: int)
    requires from.PoolAccount? ==> amount <= ValueAt(ledger, PoolAccount)
    ensures Transfer(ledger, from, to, amount) != Err(PoolShort)
  {
  }

  lemma {:induction false} WithdrawIsFunded(s: State, env: Env, who: Address, amount: int, gd: int, gc: int)
    requires Inv(s, gd, gc)
    ensures Withdraw(s, env, who, amount) != Err(PoolShort)
  {
    if amount <= FreeLiquidity(s) {
      FreeLiquidityIsCash(s, gd, gc);
      TransferIsFunded(s.debtToken, PoolAccount, who, amount);
    }
  }

  lemma {:induction false} BorrowIsFunded(s: State, env: Env, user: Address, amount: int, gd: int, gc: int)
    requires Inv(s, gd, gc)
    ensures Borrow(s, env, user, amount) != Err(PoolShort)
  {
    if amount <= FreeLiquidity(s) {
      FreeLiquidityIsCash(s, gd, gc);
      TransferIsFunded(s.debtToken, PoolAccount, user, amount);
    }
  }

  lemma {:induction false} ReleaseIsFunded(s: State, env: Env, user: Address, amount: int, gd: int, gc: int)
    requires Inv(s, gd, gc)
    ensures WithdrawCollateral(s, env, user, amount) != Err(PoolShort)
  {
    if amount <= PositionOf(s, user).collateral {
      PositionWithinTotals(s, user);
      TransferIsFunded(s.collToken, PoolAccount, user, amount);
    }
  }

  /** Calls in which the pool pays nothing out. */
  lemma {:induction false} OthersArePaying(s: State, call: Call)
    requires !call.op.OpWithdraw? && !call.op.OpBorrow? && !call.op.OpWithdrawCollateral? && !call.op.OpLiquidate?
    ensures Apply(s, call) != Err(PoolShort)
  {
  }

  /** No call that its own checks permit ever finds the pool short of tokens. */
  lemma {:induction false} PayoutsAreFunded(s: State, call: Call, gd: int, gc: int)
    requires Inv(s, gd, gc)
    ensures Apply(s, call) != Err(PoolShort)
  {
    if call.op.OpWithdraw? {
      WithdrawIsFunded(s, call.env, call.op.who, call.op.amount, gd, gc);
    } else if call.op.OpBorrow? {
      BorrowIsFunded(s, call.env, call.op.user, call.op.amount, gd, gc);
    } else if call.op.OpWithdrawCollateral? {
      ReleaseIsFunded(s, call.env, call.op.user, call.op.amount, gd, gc);
    } else if call.op.OpLiquidate? {
      SeizuresAreFunded(s, call.env, call.op.liquidator, call.op.borrower, call.op.amount, gd, gc);
    } else {
      OthersArePaying(s, call);
    }
  }

  lemma {:induction false} MovingIsFunded(s: State, liquidator: Address, plan: Plan)
    requires !liquidator.PoolAccount? && plan.seize <= ValueAt(s.collToken, PoolAccount)
    ensures MoveFunds(s, liquidator, plan) != Err(PoolShort)
  {
  }

  lemma {:induction false} SeizuresAreFunded(
      s: State, env: Env, liquidator: Address, borrower: Address, amount: i128, gd: int, gc: int)
    requires Inv(s, gd, gc)
    ensures Liquidate(s, env, liquidator, borrower, amount) != Err(PoolShort)
  {
    var coll := Resolve(s.collFeed, env.collAnswers, env.now);
    var debt := Resolve(s.debtFeed, env.debtAnswers, env.now);
    if coll.0.Some? && debt.0.Some? && ModeOf(amount).Ok? && !liquidator.PoolAccount? {
      var q := QuoteFor(s, env, borrower, coll.0.value, debt.0.value);
      PositionWithinTotals(s, borrower);
      PlanFits(q, ModeOf(amount).value);
      MovingIsFunded(s.(collFeed := coll.1, debtFeed := debt.1), liquidator,
                     ComputePlan(I128, q, ModeOf(amount).value));
    }
  }

  /** In every reachable state a liquidation accounts for all it reports: the debt it clears is what was repaid
      plus what was socialized, deposits fall by exactly what was socialized, and the pool's balances
      move by exactly the repayment and the seizure. */
  lemma {:induction false} BadDebtIsAbsorbed(
      s: State, env: Env, liquidator: Address, borrower: Address, amount: i128, gd: int, gc: int)
    requires Inv(s, gd, gc) && Liquidate(s, env, liquidator, borrower, amount).Ok?
    ensures var (after, outcome) := Liquidate(s, env, liquidator, borrower, amount).value;
            var (was, now) := (PositionOf(s, borrower), PositionOf(after, borrower));
            && outcome.socialized == s.totalDeposits - after.totalDeposits >= 0
            && outcome.repay + outcome.socialized == s.totalBorrowed - after.totalBorrowed == was.debt - now.debt
            && outcome.repay == ValueAt(after.debtToken, PoolAccount) - ValueAt(s.debtToken, PoolAccount)
            && outcome.seize == was.collateral - now.collateral
            && outcome.seize == ValueAt(s.collToken, PoolAccount) - ValueAt(after.collToken, PoolAccount)
  {
    var plan, priced, q, mode := LiquidationPlan(s, env, liquidator, borrower, amount);
    MoveFundsEffect(priced, liquidator, plan);
    SettleEffect(MoveFunds(priced, liquidator, plan).value, borrower, plan);
    PositionStore(s.positions, s.totalBorrowed, borrower, Remainder(PositionOf(s, borrower), plan));
  }
}
