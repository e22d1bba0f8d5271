/** The contract itself: stored fields updated in place by each call, and put back when a call reverts.
    Every method does exactly what the corresponding step of `Pool` says. */
module LoanManager {
  import opened Arith
  import opened Constants
  import opened Results
  import opened Sums
  import opened Liquidation
  import opened Socialization
  import opened Oracle
  import opened Pool

  // ----- Loop reasoning for the two passes of socialization -----

  lemma {:induction false} TakeAt(limits: seq<int>, budget: int, i: nat)
    requires i < |limits|
    ensures |Take(limits, budget)| == |limits|
    ensures Take(limits, budget)[i] == Max(Min(limits[i], budget - SeqSum(Take(limits, budget)[..i])), 0)
  {
    TakePrefix(limits, budget, i);
    TakePrefix(limits, budget, i + 1);
    assert limits[..i + 1][..i] == limits[..i];
    assert Take(limits, budget)[i] == Take(limits, budget)[..i + 1][i];
    TakeLength(limits[..i], budget);
  }

  /** Once the budget is spent nothing more is taken. */
  lemma {:induction false} NothingLeftToTake(limits: seq<int>, budget: int, i: nat, j: nat)
    requires i <= j <= |limits|
    requires |Take(limits, budget)| == |limits| && SeqSum(Take(limits, budget)[..i]) == budget
    ensures SeqSum(Take(limits, budget)[..j]) == budget
    ensures forall k | i <= k < j :: Take(limits, budget)[k] == 0
    decreases j
  {
    if i < j {
      NothingLeftToTake(limits, budget, i, j - 1);
      TakeAt(limits, budget, j - 1);
      assert Take(limits, budget)[j - 1] == 0;
      SeqSumPrefix(Take(limits, budget), j - 1);
    }
  }

  lemma {:induction false} ZeroCutsChangeNothing<K>(m: map<K, int>, keys: seq<K>, cuts: seq<int>, i: nat, j: nat)
    requires i <= j <= |keys| && |cuts| == |keys| && forall k <- keys :: k in m
    requires forall k | i <= k < j :: cuts[k] == 0
    ensures Deduct(m, keys, cuts, j) == Deduct(m, keys, cuts, i)
    decreases j
  {
    if i < j {
      ZeroCutsChangeNothing(m, keys, cuts, i, j - 1);
      DeductKeys(m, keys, cuts, j - 1);
    }
  }

  /** Deducting two lists of cuts one after the other is deducting their sums. */
  lemma {:induction false} DeductTwice<K>(m: map<K, int>, keys: seq<K>, first: seq<int>, second: seq<int>)
    requires Distinct(keys) && |keys| == |first| == |second| && forall k <- keys :: k in m
    ensures Deduct(Deduct(m, keys, first, |keys|), keys, second, |keys|) == Deduct(m, keys, Plus(first, second), |keys|)
  {
    var n := |keys|;
    var once := Deduct(m, keys, first, n);
    var twice, joint := Deduct(once, keys, second, n), Deduct(m, keys, Plus(first, second), n);
    DeductEntries(m, keys, first, n);
    DeductEntries(once, keys, second, n);
    DeductEntries(m, keys, Plus(first, second), n);
    forall k <- m
      ensures twice[k] == joint[k]
    {
      if k in keys {
        var i :| 0 <= i < n && keys[i] == k;
        assert twice[keys[i]] == joint[keys[i]];
      }
    }
  }

  lemma {:induction false} SecondPassIs(balances: seq<int>, first: seq<int>, loss: int, residual: int)
    requires |first| == |balances| && residual == loss - SeqSum(first)
    ensures SecondPass(balances, first, loss) == Take(Minus(balances, first), residual)
  {
  }

  /** What the listed accounts hold after a round of cuts. */
  lemma {:induction false} RemainingBalances<K>(m: map<K, int>, keys: seq<K>, cuts: seq<int>)
    requires Distinct(keys) && |keys| == |cuts| && forall k <- keys :: k in m
    ensures var after := Deduct(m, keys, cuts, |keys|);
            && after.Keys == m.Keys
            && Amounts(keys, after) == Minus(Amounts(keys, m), cuts)
  {
    DeductEntries(m, keys, cuts, |keys|);
  }

  /** The effect of both passes together. */
  lemma {:induction false} TwoPasses<K>(m: map<K, int>, keys: seq<K>, first: seq<int>, second: seq<int>)
    requires Distinct(keys) && |keys| == |first| == |second| && forall k <- keys :: k in m
    ensures var after := Deduct(Deduct(m, keys, first, |keys|), keys, second, |keys|);
            && after == Deduct(m, keys, Plus(first, second), |keys|)
            && after.Keys == m.Keys
            && SeqSum(Plus(first, second)) == SeqSum(first) + SeqSum(second)
  {
    DeductTwice(m, keys, first, second);
    SeqSumPlus(first, second);
    DeductEntries(m, keys, Plus(first, second), |keys|);
  }

  /** One deduction of a loop: an account pays its cut, if there is one. */
  lemma {:induction false} DeductNext<K>(m: map<K, int>, keys: seq<K>, cuts: seq<int>, i: nat)
    requires i < |keys| && |cuts| == |keys| && Distinct(keys) && forall k <- keys :: k in m
    ensures var rest := Deduct(m, keys, cuts, i);
            && keys[i] in rest && rest[keys[i]] == m[keys[i]]
            && Deduct(m, keys, cuts, i + 1) == rest[keys[i] := m[keys[i]] - cuts[i]]
            && (cuts[i] == 0 ==> Deduct(m, keys, cuts, i + 1) == rest)
  {
    DeductEntries(m, keys, cuts, i);
  }

  // ----- The contract -----

  class LoanManager {
    var deposits: map<Address, int>
    var depositors: seq<Address>
    var positions: map<Address, Position>
    var totalDeposits: int
    var totalBorrowed: int
    var debtToken: Ledger
    var collToken: Ledger
    const collFeed: PriceFeed
    const debtFeed: PriceFeed

    /** The stored state as a value. */
    function View(): State
      reads this, collFeed, debtFeed
    {
      State(deposits, depositors, positions, totalDeposits, totalBorrowed, debtToken, collToken,
            collFeed.State(), debtFeed.State())
    }

    /** The depositor list names every recorded balance once. */
    ghost predicate Valid()
      reads this
    {
      && collFeed != debtFeed
      && Distinct(depositors)
      && (forall d <- depositors :: d in deposits)
      && (forall d <- deposits :: d in depositors)
    }

    /** The call did what the step says: moved to its state, or reverted for its reason and left no trace. */
    ghost predicate Did(was: State, step: Result<State>, r: Result<()>)
      reads this, collFeed, debtFeed
    {
      match step
      case Ok(s) => r.Ok? && View() == s
      case Err(e) => r == Err(e) && View() == was
    }

    constructor (debtToken: Ledger, collToken: Ledger)
      ensures Valid() && fresh(collFeed) && fresh(debtFeed)
      ensures View() == Fresh(debtToken, collToken)
    {
      deposits, depositors, positions := map[], [], map[];
      totalDeposits, totalBorrowed := 0, 0;
      this.debtToken, this.collToken := debtToken, collToken;
      var coll := new PriceFeed();
      var debt := new PriceFeed();
      collFeed, debtFeed := coll, debt;
    }

    /** The host undoing a reverted call. */
    method Restore(s: State)
      requires collFeed != debtFeed
      modifies this, collFeed, debtFeed
      ensures View() == s
    {
      deposits, depositors, positions := s.deposits, s.depositors, s.positions;
      totalDeposits, totalBorrowed := s.totalDeposits, s.totalBorrowed;
      debtToken, collToken := s.debtToken, s.collToken;
      collFeed.Restore(s.collFeed);
      debtFeed.Restore(s.debtFeed);
    }

    method TransferDebt(from: Address, to: Address, amount: int) returns (r: Result<()>)
      modifies this`debtToken
      ensures var t := Transfer(old(debtToken), from, to, amount);
              if t.Ok? then r.Ok? && debtToken == t.value else r == Err(t.error) && debtToken == old(debtToken)
    {
      var t := Transfer(debtToken, from, to, amount);
      if t.Err? {
        return Err(t.error);
      }
      debtToken := t.value;
      return Ok(());
    }

    method TransferColl(from: Address, to: Address, amount: int) returns (r: Result<()>)
      modifies this`collToken
      ensures var t := Transfer(old(collToken), from, to, amount);
              if t.Ok? then r.Ok? && collToken == t.value else r == Err(t.error) && collToken == old(collToken)
    {
      var t := Transfer(collToken, from, to, amount);
      if t.Err? {
        return Err(t.error);
      }
      collToken := t.value;
      return Ok(());
    }

    method RegisterDepositor(who: Address)
      modifies this`depositors
      ensures depositors == Register(old(depositors), who)
      ensures Distinct(old(depositors)) ==> Distinct(depositors)
    {
      if who !in depositors {
        depositors := depositors + [who];
      }
    }

    method ReduceBorrowed(amount: int)
      modifies this`totalBorrowed
      ensures View() == old(View()).(totalBorrowed := Sub(I128, old(totalBorrowed), amount))
    {
      totalBorrowed := Sub(I128, totalBorrowed, amount);
    }

    method Deposit(env: Env, who: Address, amount: i128) returns (r: Result<()>)
      requires Valid()
      modifies this, collFeed, debtFeed
      ensures Valid()
      ensures Did(old(View()), Pool.Deposit(old(View()), env, who, amount), r)
    {
      if who.PoolAccount? { return Err(Unauthorized); }
      if env.paused { return Err(Paused); }
      if amount <= 0 { return Err(InvalidAmount); }
      var saved := View();
      r := AcceptDeposit(who, amount);
      if r.Err? {
        Restore(saved);
      }
    }

    method AcceptDeposit(who: Address, amount: i128) returns (r: Result<()>)
      requires Valid()
      modifies this
      ensures Valid()
      ensures var accepted := Accept(old(View()), who, amount);
              if accepted.Ok? then r.Ok? && View() == accepted.value else r == Err(accepted.error)
    {
      r := TransferDebt(who, PoolAccount, amount);
      if r.Err? { return; }
      r := Credit(who, amount);
    }

    /** Add to a depositor's balance and to the total, unless either overflows. */
    method Credit(who: Address, amount: i128) returns (r: Result<()>)
      requires Valid()
      modifies this`deposits, this`depositors, this`totalDeposits
      ensures Valid()
      ensures var balance := CheckedAdd(ValueAt(old(deposits), who), amount);
              var total := CheckedAdd(old(totalDeposits), amount);
              if balance.Err? || total.Err? then r == Err(Overflow)
              else && r.Ok?
                   && deposits == old(deposits)[who := balance.value]
                   && depositors == Register(old(depositors), who)
                   && totalDeposits == total.value
    {
      var balance := ValueAt(deposits, who) + amount;
      if balance > I128_MAX || totalDeposits + amount > I128_MAX {
        return Err(Overflow);
      }
      SetBalance(who, balance);
      totalDeposits := totalDeposits + amount;
      return Ok(());
    }

    /** Store a depositor's balance and list the depositor if it is new. */
    method SetBalance(who: Address, balance: int)
      requires Valid()
      modifies this`deposits, this`depositors
      ensures Valid()
      ensures deposits == old(deposits)[who := balance] && depositors == Register(old(depositors), who)
    {
      deposits := deposits[who := balance];
      RegisterDepositor(who);
    }

    method Withdraw(env: Env, who: Address, amount: i128) returns (r: Result<()>)
      requires Valid()
      modifies this, collFeed, debtFeed
      ensures Valid()
      ensures Did(old(View()), Pool.Withdraw(old(View()), env, who, amount), r)
    {
      if who.PoolAccount? { return Err(Unauthorized); }
      if env.paused { return Err(Paused); }
      if amount <= 0 { return Err(InvalidAmount); }
      var balance := ValueAt(deposits, who);
      if balance < amount { return Err(InsufficientDepositorBalance); }
      var free := Sub(I128, totalDeposits, totalBorrowed);
      if free < amount { return Err(InsufficientPoolLiquidity); }
      r := TransferDebt(PoolAccount, who, amount);
      if r.Err? { return; }
      deposits := deposits[who := balance - amount];
      totalDeposits := totalDeposits - amount;
    }

    method DepositCollateral(env: Env, user: Address, amount: i128) returns (r: Result<()>)
      requires Valid()
      modifies this, collFeed, debtFeed
      ensures Valid()
      ensures Did(old(View()), Pool.DepositCollateral(old(View()), env, user, amount), r)
    {
      if user.PoolAccount? { return Err(Unauthorized); }
      if env.paused { return Err(Paused); }
      if amount <= 0 { return Err(InvalidAmount); }
      var saved := View();
      r := TransferColl(user, PoolAccount, amount);
      if r.Err? { return; }
      var pos := Lookup(positions, user);
      if pos.collateral + amount > I128_MAX {
        Restore(saved);
        return Err(Overflow);
      }
      positions := positions[user := pos.(collateral := pos.collateral + amount)];
      return Ok(());
    }

    /** Resolve one feed's price and check that it lies in the accepted range. */
    method RequireFeedPrice(feed: PriceFeed, answers: Answers, now: int) returns (r: Result<int>)
      requires feed == collFeed || feed == debtFeed
      modifies feed
      ensures var required := RequirePrice(old(feed.State()), answers, now);
              if required.Ok? then r == Ok(required.value.0) && feed.State() == required.value.1
              else r == Err(required.error)
    {
      var price := feed.ResolvePrice(answers, now);
      if price.None? { return Err(NoPriceSource); }
      if price.value <= 0 || price.value > MAX_PRICE { return Err(InvalidPrice); }
      return Ok(price.value);
    }

    /** Resolve both prices and check a position's health at them. */
    method RequireHealthy(env: Env, pos: Position, failure: Error) returns (r: Result<()>)
      requires Valid()
      modifies collFeed, debtFeed
      ensures var checked := CheckHealth(old(View()), env, pos, failure);
              if checked.Ok? then r.Ok? && (collFeed.State(), debtFeed.State()) == checked.value
              else r == Err(checked.error)
    {
      var priceColl := RequireFeedPrice(collFeed, env.collAnswers, env.now);
      if priceColl.Err? { return Err(priceColl.error); }
      var priceDebt := RequireFeedPrice(debtFeed, env.debtAnswers, env.now);
      if priceDebt.Err? { return Err(priceDebt.error); }
      var collValue := UnitsToValue(I128, pos.collateral, priceColl.value);
      var debtValue := UnitsToValue(I128, pos.debt, priceDebt.value);
      var health := HealthRatio(I128, collValue, debtValue, env.threshold);
      if !(health.0 >= health.1) { return Err(failure); }
      return Ok(());
    }

    method Borrow(env: Env, user: Address, amount: i128) returns (r: Result<()>)
      requires Valid()
      modifies this, collFeed, debtFeed
      ensures Valid()
      ensures Did(old(View()), Pool.Borrow(old(View()), env, user, amount), r)
    {
      if user.PoolAccount? { return Err(Unauthorized); }
      if env.paused { return Err(Paused); }
      if amount <= 0 { return Err(InvalidAmount); }
      var free := Sub(I128, totalDeposits, totalBorrowed);
      if free < amount { return Err(InsufficientPoolLiquidity); }
      var saved := View();
      var pos := Lookup(positions, user);
      r := RequireHealthy(env, pos.(debt := Add(I128, pos.debt, amount)), InsufficientCollateral);
      if r.Err? {
        Restore(saved);
        return;
      }
      r := PayLoan(user, pos, amount);
      if r.Err? {
        Restore(saved);
      }
    }

    /** Pay out a loan and book it; what a refused one leaves is put back by the caller. */
    method PayLoan(user: Address, pos: Position, amount: int) returns (r: Result<()>)
      requires Valid()
      modifies this`debtToken, this`positions, this`totalBorrowed
      ensures var paid := Transfer(old(debtToken), PoolAccount, user, amount);
              if paid.Err? then r == Err(paid.error)
              else if pos.debt + amount > I128_MAX || old(totalBorrowed) + amount > I128_MAX then r == Err(Overflow)
              else
                && r.Ok?
                && View() == old(View()).(debtToken := paid.value,
                                          positions := old(positions)[user := pos.(debt := pos.debt + amount)],
                                          totalBorrowed := old(totalBorrowed) + amount)
    {
      r := TransferDebt(PoolAccount, user, amount);
      if r.Err? { return; }
      if pos.debt + amount > I128_MAX || totalBorrowed + amount > I128_MAX { return Err(Overflow); }
      positions := positions[user := pos.(debt := pos.debt + amount)];
      totalBorrowed := totalBorrowed + amount;
    }

    method Repay(env: Env, user: Address, amount: i128) returns (r: Result<()>)
      requires Valid()
      modifies this, collFeed, debtFeed
      ensures Valid()
      ensures Did(old(View()), Pool.Repay(old(View()), env, user, amount), r)
    {
      if user.PoolAccount? { return Err(Unauthorized); }
      if env.paused { return Err(Paused); }
      if amount <= 0 { return Err(InvalidAmount); }
      var pos := Lookup(positions, user);
      var paid := Min(amount, pos.debt);
      if paid == 0 { return Err(NothingToRepay); }
      r := TransferDebt(user, PoolAccount, paid);
      if r.Err? { return; }
      positions := positions[user := pos.(debt := pos.debt - paid)];
      ReduceBorrowed(paid);
    }

    method WithdrawCollateral(env: Env, user: Address, amount: i128) returns (r: Result<()>)
      requires Valid()
      modifies this, collFeed, debtFeed
      ensures Valid()
      ensures Did(old(View()), Pool.WithdrawCollateral(old(View()), env, user, amount), r)
    {
      if user.PoolAccount? { return Err(Unauthorized); }
      if env.paused { return Err(Paused); }
      if amount <= 0 { return Err(InvalidAmount); }
      var pos := Lookup(positions, user);
      if pos.collateral < amount { return Err(InsufficientCollateral); }
      var saved := View();
      if pos.debt > 0 {
        r := RequireHealthy(env, pos.(collateral := pos.collateral - amount), WouldUndercollateralize);
        if r.Err? {
          Restore(saved);
          return;
        }
      }
      r := TransferColl(PoolAccount, user, amount);
      if r.Err? {
        Restore(saved);
        return;
      }
      positions := positions[user := pos.(collateral := pos.collateral - amount)];
    }

    /** Pass 1: each depositor pays its proportional share, up to its balance and what is left. */
    method DeductShares(balances: seq<int>, shares: seq<int>, loss: int) returns (residual: int, applied: int)
      requires Valid() && balances == Amounts(depositors, deposits) && |shares| == |balances|
      modifies this`deposits
      ensures var cuts := FirstPass(shares, balances, loss);
              && deposits == Deduct(old(deposits), depositors, cuts, |depositors|)
              && applied == SeqSum(cuts) && residual == loss - applied
    {
      ghost var limits := FirstLimits(shares, balances);
      ghost var cuts := FirstPass(shares, balances, loss);
      residual, applied := loss, 0;
      for i := 0 to |depositors|
        invariant deposits == Deduct(old(deposits), depositors, cuts, i)
        invariant applied == SeqSum(cuts[..i]) && residual == loss - applied
      {
        var cut := Min(Min(shares[i], balances[i]), residual);
        TakeAt(limits, loss, i);
        DeductNext(old(deposits), depositors, cuts, i);
        SeqSumPrefix(cuts, i);
        if cut > 0 {
          deposits := deposits[depositors[i] := balances[i] - cut];
          applied := applied + cut;
          residual := residual - cut;
        }
      }
      assert cuts[..|depositors|] == cuts;
    }

    /** Pass 2: the residual, if any, from the first depositors that still have balances. */
    method DeductResidual(ghost balances: seq<int>, start: int) returns (applied: int)
      requires Valid() && balances == Amounts(depositors, deposits)
      modifies this`deposits
      ensures var cuts := Take(balances, start);
              && |cuts| == |depositors|
              && deposits == Deduct(old(deposits), depositors, cuts, |depositors|)
              && applied == SeqSum(cuts)
    {
      ghost var cuts := Take(balances, start);
      TakeLength(balances, start);
      var residual := start;
      applied := 0;
      if residual <= 0 {
        SpentBudget(balances, start);
        ZeroCutsChangeNothing(deposits, depositors, cuts, 0, |depositors|);
        return;
      }
      for i := 0 to |depositors|
        invariant deposits == Deduct(old(deposits), depositors, cuts, i)
        invariant applied == SeqSum(cuts[..i]) && residual == start - applied
      {
        if residual == 0 {
          NothingLeftToTake(balances, start, i, |depositors|);
          ZeroCutsChangeNothing(old(deposits), depositors, cuts, i, |depositors|);
          assert cuts[..|depositors|] == cuts;
          return;
        }
        TakeAt(balances, start, i);
        DeductNext(old(deposits), depositors, cuts, i);
        SeqSumPrefix(cuts, i);
        var balance := ValueAt(deposits, depositors[i]);
        var spare := Min(balance, residual);
        if spare > 0 {
          deposits := deposits[depositors[i] := balance - spare];
          applied := applied + spare;
          residual := residual - spare;
        }
      }
      assert cuts[..|depositors|] == cuts;
    }

    /** Write a loss off across the depositors: proportional shares first, then the rounding residual. */
    method SocializeBadDebt(loss: int) returns (applied: int)
      requires Valid()
      modifies this
      ensures Valid()
      ensures (View(), applied) == Socialize(old(View()), loss)
    {
      if loss <= 0 {
        return 0;
      }
      if totalDeposits <= 0 || depositors == [] {
        totalDeposits := 0;
        return 0;
      }
      var balances := ReadBalances();
      var shares := ProportionalShares(I128, balances, totalDeposits, loss);
      applied := DeductLoss(balances, shares, loss);
      totalDeposits := Sub(I128, totalDeposits, applied);
    }

    /** Both passes over the depositors. */
    method DeductLoss(balances: seq<int>, shares: seq<int>, loss: int) returns (applied: int)
      requires Valid() && balances == Amounts(depositors, deposits) && |shares| == |balances|
      modifies this`deposits
      ensures Valid()
      ensures var first := FirstPass(shares, balances, loss);
              var cuts := Plus(first, SecondPass(balances, first, loss));
              deposits == Deduct(old(deposits), depositors, cuts, |depositors|) && applied == SeqSum(cuts)
    {
      ghost var first := FirstPass(shares, balances, loss);
      ghost var second := SecondPass(balances, first, loss);
      ghost var was := deposits;
      var residual, taken := DeductShares(balances, shares, loss);
      RemainingBalances(was, depositors, first);
      var more := DeductResidual(Minus(balances, first), residual);
      SecondPassIs(balances, first, loss, residual);
      TwoPasses(was, depositors, first, second);
      applied := taken + more;
    }

    method ReadBalances() returns (balances: seq<int>)
      ensures balances == Amounts(depositors, deposits)
    {
      balances := [];
      for i := 0 to |depositors|
        invariant balances == Amounts(depositors[..i], deposits)
      {
        balances := balances + [ValueAt(deposits, depositors[i])];
      }
      assert depositors[..|depositors|] == depositors;
    }

    method Liquidate(env: Env, liquidator: Address, borrower: Address, repayAmount: i128) returns (r: Result<Outcome>)
      requires Valid()
      modifies this, collFeed, debtFeed
      ensures Valid()
      ensures match Pool.Liquidate(old(View()), env, liquidator, borrower, repayAmount)
              case Ok((s, outcome)) => r == Ok(outcome) && View() == s
              case Err(e) => r == Err(e) && View() == old(View())
    {
      if liquidator.PoolAccount? { return Err(Unauthorized); }
      if env.paused { return Err(Paused); }
      if liquidator == borrower { return Err(SelfLiquidation); }
      var pos := Lookup(positions, borrower);
      if pos.debt <= 0 { return Err(NotLiquidatable); }
      var saved := View();
      var priceColl := collFeed.ResolvePrice(env.collAnswers, env.now);
      var priceDebt := debtFeed.ResolvePrice(env.debtAnswers, env.now);
      if priceColl.None? || priceDebt.None? {
        Restore(saved);
        return Err(NoPriceSource);
      }
      var mode := ModeOf(repayAmount);
      if mode.Err? {
        Restore(saved);
        return Err(mode.error);
      }
      var plan := ComputePlan(I128, Quote(pos.collateral, pos.debt, priceColl.value, priceDebt.value,
                                          env.threshold, env.params), mode.value);
      if plan.repay == 0 && plan.badDebt == 0 {
        Restore(saved);
        return Err(NotLiquidatable);
      }
      var moved := Exchange(liquidator, plan);
      if moved.Err? {
        Restore(saved);
        return Err(moved.error);
      }
      var socialized := SettlePlan(borrower, pos, plan);
      return Ok(Outcome(plan.repay, plan.seize, plan.bonus, socialized));
    }

    /** The liquidator pays in and collateral is paid out. */
    method Exchange(liquidator: Address, plan: Plan) returns (r: Result<()>)
      requires Valid()
      modifies this`debtToken, this`collToken
      ensures var moved := MoveFunds(old(View()), liquidator, plan);
              if moved.Ok? then r.Ok? && View() == moved.value else r == Err(moved.error)
    {
      r := Ok(());
      if plan.repay > 0 {
        r := TransferDebt(liquidator, PoolAccount, plan.repay);
        if r.Err? { return; }
      }
      if plan.seize > 0 {
        r := TransferColl(PoolAccount, liquidator, plan.seize);
      }
    }

    /** Update the borrower's position and the totals, and socialize what was written off. */
    method SettlePlan(borrower: Address, pos: Position, plan: Plan) returns (socialized: int)
      requires Valid() && pos == Lookup(positions, borrower)
      modifies this
      ensures Valid()
      ensures (View(), socialized) == Settle(old(View()), borrower, plan)
    {
      var updated := Position(pos.collateral - plan.seize, Sub(I128, Sub(I128, pos.debt, plan.repay), plan.badDebt));
      ReduceBorrowed(plan.repay + plan.badDebt);
      socialized := WriteOffBadDebt(plan.badDebt);
      SavePosition(borrower, updated);
      SettleInSteps(old(View()), borrower, plan);
    }

    method WriteOffBadDebt(badDebt: int) returns (socialized: int)
      requires Valid()
      modifies this
      ensures Valid()
      ensures (View(), socialized) == Socialize(old(View()), badDebt)
    {
      if badDebt > 0 {
        socialized := SocializeBadDebt(badDebt);
      } else {
        socialized := 0;
      }
    }

    method SavePosition(user: Address, pos: Position)
      modifies this`positions
      ensures View() == old(View()).(positions := StorePosition(old(positions), user, pos))
    {
      if pos.collateral == 0 && pos.debt == 0 {
        positions := positions - {user};
      } else {
        positions := positions[user := pos];
      }
    }

    method RecordPrice(env: Env, asset: Asset) returns (r: Result<()>)
      requires Valid()
      modifies this, collFeed, debtFeed
      ensures Valid()
      ensures Did(old(View()), Pool.RecordPrice(old(View()), env, asset), r)
    {
      if env.paused { return Err(Paused); }
      var saved := View();
      var price: Option<int>;
      if asset.CollateralAsset? {
        price := collFeed.ResolvePrice(env.collAnswers, env.now);
      } else {
        price := debtFeed.ResolvePrice(env.debtAnswers, env.now);
      }
      if price.None? {
        Restore(saved);
        return Err(NoPriceSource);
      }
      return Ok(());
    }
  }

  /** Settling reduces the borrowed total, writes off, and stores the position, in that order. */
  lemma {:induction false} SettleInSteps(s: State, borrower: Address, plan: Plan)
    ensures var pos := PositionOf(s, borrower);
            var owed := Sub(I128, Sub(I128, pos.debt, plan.repay), plan.badDebt);
            var updated := Position(pos.collateral - plan.seize, owed);
            var borrowed := Sub(I128, s.totalBorrowed, plan.repay + plan.badDebt);
            var written := Socialize(s.(totalBorrowed := borrowed), plan.badDebt);
            Settle(s, borrower, plan)
            == (written.0.(positions := StorePosition(written.0.positions, borrower, updated)), written.1)
  {
  }

  /** Nothing is taken from an exhausted budget. */
  lemma {:induction false} SpentBudget(limits: seq<int>, budget: int)
    requires budget <= 0
    ensures |Take(limits, budget)| == |limits|
    ensures forall i | 0 <= i < |limits| :: Take(limits, budget)[i] == 0
    ensures SeqSum(Take(limits, budget)) == 0
  {
    if limits != [] {
      SpentBudget(limits[..|limits| - 1], budget);
    }
  }
}
