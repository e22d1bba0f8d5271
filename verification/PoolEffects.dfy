/** What each call changes for each account, asset by asset. */
module PoolEffects {
  import opened Arith
  import opened Sums
  import opened Pool
  import opened PoolInvariants
  import opened PoolFairness
  import opened PoolHealth

  /** By how much a call changes what an account has deposited, owes, has posted, and holds of either token. */
  datatype Change = Change(deposit: int, debt: int, collateral: int, debtTokens: int, collTokens: int)

  const NONE := Change(0, 0, 0, 0, 0)

  function ChangeOf(s: State, after: State, u: Address): Change {
    Change(ValueAt(after.deposits, u) - ValueAt(s.deposits, u),
           PositionOf(after, u).debt - PositionOf(s, u).debt,
           PositionOf(after, u).collateral - PositionOf(s, u).collateral,
           ValueAt(after.debtToken, u) - ValueAt(s.debtToken, u),
           ValueAt(after.collToken, u) - ValueAt(s.collToken, u))
  }

  /** Only the caller's account changes, and the totals as given. */
  ghost predicate Only(s: State, after: State, caller: Address, change: Change, deposits: int, borrowed: int) {
    && (forall u: Address | !u.PoolAccount? :: ChangeOf(s, after, u) == if u == caller then change else NONE)
    && after.totalDeposits == s.totalDeposits + deposits
    && after.totalBorrowed == s.totalBorrowed + borrowed
  }

  lemma {:induction false} DepositChanges(s: State, env: Env, who: Address, amount: int, gd: int, gc: int)
    requires Inv(s, gd, gc) && Deposit(s, env, who, amount).Ok?
    ensures Only(s, Deposit(s, env, who, amount).value, who, NONE.(deposit := amount, debtTokens := -amount), amount, 0)
  {
    TransferEffect(s.debtToken, who, PoolAccount, amount);
  }

  lemma {:induction false} WithdrawChanges(s: State, env: Env, who: Address, amount: int, gd: int, gc: int)
    requires Inv(s, gd, gc) && Withdraw(s, env, who, amount).Ok?
    ensures Only(s, Withdraw(s, env, who, amount).value, who,
                 NONE.(deposit := -amount, debtTokens := amount), -amount, 0)
  {
    TransferEffect(s.debtToken, PoolAccount, who, amount);
  }

  lemma {:induction false} DepositCollateralChanges(s: State, env: Env, user: Address, amount: int, gd: int, gc: int)
    requires Inv(s, gd, gc) && DepositCollateral(s, env, user, amount).Ok?
    ensures Only(s, DepositCollateral(s, env, user, amount).value, user,
                 NONE.(collateral := amount, collTokens := -amount), 0, 0)
  {
    TransferEffect(s.collToken, user, PoolAccount, amount);
  }

  lemma {:induction false} BorrowChanges(s: State, env: Env, user: Address, amount: int, gd: int, gc: int)
    requires Inv(s, gd, gc) && Borrow(s, env, user, amount).Ok?
    ensures Only(s, Borrow(s, env, user, amount).value, user, NONE.(debt := amount, debtTokens := amount), 0, amount)
  {
    PositionWithinTotals(s, user);
    BorrowedBooks(s, env, user, amount);
    TransferEffect(s.debtToken, PoolAccount, user, amount);
  }

  lemma {:induction false} RepayChanges(s: State, env: Env, user: Address, amount: int, gd: int, gc: int)
    requires Inv(s, gd, gc) && Repay(s, env, user, amount).Ok?
    ensures var paid := Min(amount, PositionOf(s, user).debt);
            Only(s, Repay(s, env, user, amount).value, user, NONE.(debt := -paid, debtTokens := -paid), 0, -paid)
  {
    PositionWithinTotals(s, user);
    TransferEffect(s.debtToken, user, PoolAccount, Min(amount, PositionOf(s, user).debt));
  }

  lemma {:induction false} WithdrawCollateralChanges(s: State, env: Env, user: Address, amount: int, gd: int, gc: int)
    requires Inv(s, gd, gc) && WithdrawCollateral(s, env, user, amount).Ok?
    ensures Only(s, WithdrawCollateral(s, env, user, amount).value, user,
                 NONE.(collateral := -amount, collTokens := amount), 0, 0)
  {
    WithdrawalChecked(s, env, user, amount);
    TransferEffect(s.collToken, PoolAccount, user, amount);
  }

  // ----- Liquidations -----

  lemma {:induction false} OthersKeepPositions(
      s: State, env: Env, liquidator: Address, borrower: Address, amount: i128, u: Address, gd: int, gc: int)
    requires Inv(s, gd, gc) && Liquidate(s, env, liquidator, borrower, amount).Ok? && u != borrower
    ensures PositionOf(Liquidate(s, env, liquidator, borrower, amount).value.0, u) == PositionOf(s, u)
  {
    var plan, priced, q, mode := LiquidationPlan(s, env, liquidator, borrower, amount);
    SettledPositions(priced, liquidator, borrower, plan);
    StoreElsewhere(s.positions, borrower, Remainder(PositionOf(s, borrower), plan), u);
  }

  /** What a liquidation with this outcome changes for an account. */
  predicate Liquidated(s: State, after: State, outcome: Outcome, liquidator: Address, borrower: Address, u: Address) {
    ChangeOf(s, after, u)
    == Change(-Loss(s, after, u),
              if u == borrower then -(outcome.repay + outcome.socialized) else 0,
              if u == borrower then -outcome.seize else 0,
              if u == liquidator then -outcome.repay else 0,
              if u == liquidator then outcome.seize else 0)
  }

  lemma {:induction false} FromWorth(
      s: State, after: State, outcome: Outcome, liquidator: Address, borrower: Address, u: Address)
    requires NetDebtTokens(after, u) == NetDebtTokens(s, u) - Loss(s, after, u)
               - (if u == liquidator then outcome.repay else 0)
               + (if u == borrower then outcome.repay + outcome.socialized else 0)
    requires NetCollTokens(after, u) == NetCollTokens(s, u)
               + (if u == liquidator then outcome.seize else 0)
               - (if u == borrower then outcome.seize else 0)
    requires PositionOf(after, u)
          == if u != borrower then PositionOf(s, u)
             else Position(PositionOf(s, u).collateral - outcome.seize,
                           PositionOf(s, u).debt - outcome.repay - outcome.socialized)
    ensures Liquidated(s, after, outcome, liquidator, borrower, u)
  {
  }

  /** In a liquidation the liquidator pays and receives, the borrower's debt and collateral fall, and depositors bear
      their losses. */
  lemma {:induction false} LiquidationChanges(
      s: State, env: Env, liquidator: Address, borrower: Address, amount: i128, u: Address, gd: int, gc: int)
    requires Inv(s, gd, gc) && Liquidate(s, env, liquidator, borrower, amount).Ok? && !u.PoolAccount?
    ensures var (after, outcome) := Liquidate(s, env, liquidator, borrower, amount).value;
            Liquidated(s, after, outcome, liquidator, borrower, u)
  {
    var (after, outcome) := Liquidate(s, env, liquidator, borrower, amount).value;
    LiquidationByAccount(s, env, liquidator, borrower, amount, u, gd, gc);
    BadDebtIsAbsorbed(s, env, liquidator, borrower, amount, gd, gc);
    if u != borrower {
      OthersKeepPositions(s, env, liquidator, borrower, amount, u, gd, gc);
    }
    FromWorth(s, after, outcome, liquidator, borrower, u);
  }
}
