/** The lending pool as a state machine: the stored accounting, the two token ledgers, the price
    feeds, and every call as a function from a state to a new state or a revert. */
module Pool {
  import opened Arith
  import opened Constants
  import opened Results
  import opened Sums
  import opened Liquidation
  import opened Socialization
  import opened Oracle

  /** `PoolAccount` is the contract's own address. */
  datatype Address = PoolAccount | Account(id: nat)

  datatype Asset = CollateralAsset | DebtAsset

  datatype Position = Position(collateral: int, debt: int)

  const NO_POSITION := Position(0, 0)

  type Ledger = map<Address, int>

  datatype State = State(
    deposits: map<Address, int>,
    depositors: seq<Address>,
    positions: map<Address, Position>,
    totalDeposits: int,
    totalBorrowed: int,
    debtToken: Ledger,
    collToken: Ledger,
    collFeed: TwapState,
    debtFeed: TwapState)

  /** What a call finds outside the pool: the ledger clock, the oracles' answers, and the
      administrator's settings. */
  datatype Env = Env(
    now: int, collAnswers: Answers, debtAnswers: Answers, threshold: u32, params: LiqParams, paused: bool)

  /** What a liquidation reports. */
  datatype Outcome = Outcome(repay: int, seize: int, bonus: int, socialized: int)

  const FULL_REPAY_SENTINEL := I128_MAX

  function Lookup(positions: map<Address, Position>, user: Address): Position {
    if user in positions then positions[user] else NO_POSITION
  }

  function PositionOf(s: State, user: Address): Position {
    Lookup(s.positions, user)
  }

  function CheckedAdd(a: int, b: int): Result<int> {
    if a + b > I128_MAX then Err(Overflow) else Ok(a + b)
  }

  /** A token transfer; the pool running short is told apart from anyone else running short. */
  function Transfer(ledger: Ledger, from: Address, to: Address, amount: int): Result<Ledger> {
    if amount < 0 then Err(InvalidAmount)
    else if ValueAt(ledger, from) < amount then Err(if from.PoolAccount? then PoolShort else PayerShort)
    else
      var debited := ledger[from := ValueAt(ledger, from) - amount];
      var credit :- CheckedAdd(ValueAt(debited, to), amount);
      Ok(debited[to := credit])
  }

  function Register(depositors: seq<Address>, who: Address): seq<Address> {
    if who in depositors then depositors else depositors + [who]
  }

  function FreeLiquidity(s: State): int {
    Sub(I128, s.totalDeposits, s.totalBorrowed)
  }

  function Deposit(s: State, env: Env, who: Address, amount: int): Result<State> {
    if who.PoolAccount? then Err(Unauthorized)
    else if env.paused then Err(Paused)
    else if amount <= 0 then Err(InvalidAmount)
    else Accept(s, who, amount)
  }

  /** Take tokens in and credit them to a depositor. */
  function Accept(s: State, who: Address, amount: int): Result<State> {
    var debtToken :- Transfer(s.debtToken, who, PoolAccount, amount);
    var balance :- CheckedAdd(ValueAt(s.deposits, who), amount);
    var total :- CheckedAdd(s.totalDeposits, amount);
    Ok(s.(debtToken := debtToken,
          deposits := s.deposits[who := balance],
          depositors := Register(s.depositors, who),
          totalDeposits := total))
  }

  function Withdraw(s: State, env: Env, who: Address, amount: int): Result<State> {
    if who.PoolAccount? then Err(Unauthorized)
    else if env.paused then Err(Paused)
    else if amount <= 0 then Err(InvalidAmount)
    else if ValueAt(s.deposits, who) < amount then Err(InsufficientDepositorBalance)
    else if FreeLiquidity(s) < amount then Err(InsufficientPoolLiquidity)
    else
      var debtToken :- Transfer(s.debtToken, PoolAccount, who, amount);
      Ok(s.(debtToken := debtToken,
            deposits := s.deposits[who := ValueAt(s.deposits, who) - amount],
            totalDeposits := s.totalDeposits - amount))
  }

  function DepositCollateral(s: State, env: Env, user: Address, amount: int): Result<State> {
    if user.PoolAccount? then Err(Unauthorized)
    else if env.paused then Err(Paused)
    else if amount <= 0 then Err(InvalidAmount)
    else
      var collToken :- Transfer(s.collToken, user, PoolAccount, amount);
      var pos := PositionOf(s, user);
      var collateral :- CheckedAdd(pos.collateral, amount);
      Ok(s.(collToken := collToken, positions := s.positions[user := pos.(collateral := collateral)]))
  }

  /** A price within the accepted range, and the feed after resolving it. */
  function RequirePrice(feed: TwapState, answers: Answers, now: int): Result<(int, TwapState)> {
    var resolved := Resolve(feed, answers, now);
    if resolved.0.None? then Err(NoPriceSource)
    else if resolved.0.value <= 0 || resolved.0.value > MAX_PRICE then Err(InvalidPrice)
    else Ok((resolved.0.value, resolved.1))
  }

  predicate Healthy(pos: Position, priceColl: int, priceDebt: int, threshold: u32) {
    var health := HealthRatio(I128, UnitsToValue(I128, pos.collateral, priceColl),
                              UnitsToValue(I128, pos.debt, priceDebt), threshold);
    health.0 >= health.1
  }

  /** Resolve both prices and refuse with `failure` unless the position is healthy at them;
      returns the two feeds as resolving left them. */
  function CheckHealth(s: State, env: Env, pos: Position, failure: Error): Result<(TwapState, TwapState)> {
    var coll :- RequirePrice(s.collFeed, env.collAnswers, env.now);
    var debt :- RequirePrice(s.debtFeed, env.debtAnswers, env.now);
    if !Healthy(pos, coll.0, debt.0, env.threshold) then Err(failure) else Ok((coll.1, debt.1))
  }

  function Borrow(s: State, env: Env, user: Address, amount: int): Result<State> {
    if user.PoolAccount? then Err(Unauthorized)
    else if env.paused then Err(Paused)
    else if amount <= 0 then Err(InvalidAmount)
    else if FreeLiquidity(s) < amount then Err(InsufficientPoolLiquidity)
    else
      var pos := PositionOf(s, user);
      var feeds :- CheckHealth(s, env, pos.(debt := Add(I128, pos.debt, amount)), InsufficientCollateral);
      var debtToken :- Transfer(s.debtToken, PoolAccount, user, amount);
      var owed :- CheckedAdd(pos.debt, amount);
      var borrowed :- CheckedAdd(s.totalBorrowed, amount);
      Ok(s.(debtToken := debtToken,
            positions := s.positions[user := pos.(debt := owed)],
            totalBorrowed := borrowed,
            collFeed := feeds.0, debtFeed := feeds.1))
  }

  function Repay(s: State, env: Env, user: Address, amount: int): Result<State> {
    if user.PoolAccount? then Err(Unauthorized)
    else if env.paused then Err(Paused)
    else if amount <= 0 then Err(InvalidAmount)
    else
      var pos := PositionOf(s, user);
      var paid := Min(amount, pos.debt);
      if paid == 0 then Err(NothingToRepay)
      else
        var debtToken :- Transfer(s.debtToken, user, PoolAccount, paid);
        Ok(s.(debtToken := debtToken,
              positions := s.positions[user := pos.(debt := pos.debt - paid)],
              totalBorrowed := Sub(I128, s.totalBorrowed, paid)))
  }

  function WithdrawCollateral(s: State, env: Env, user: Address, amount: int): Result<State> {
    if user.PoolAccount? then Err(Unauthorized)
    else if env.paused then Err(Paused)
    else if amount <= 0 then Err(InvalidAmount)
    else
      var pos := PositionOf(s, user);
      if pos.collateral < amount then Err(InsufficientCollateral)
      else
        var rest := pos.(collateral := pos.collateral - amount);
        if pos.debt > 0 then
          var feeds :- CheckHealth(s, env, rest, WouldUndercollateralize);
          Release(s.(collFeed := feeds.0, debtFeed := feeds.1), user, rest, amount)
        else Release(s, user, rest, amount)
  }

  /** Pay collateral out and store the position that remains. */
  function Release(s: State, user: Address, rest: Position, amount: int): Result<State> {
    var collToken :- Transfer(s.collToken, PoolAccount, user, amount);
    Ok(s.(collToken := collToken, positions := s.positions[user := rest]))
  }

  /** Spread `loss` over the depositors; returns what was written off. */
  function Socialize(s: State, loss: int): (State, int) {
    if loss <= 0 then (s, 0)
    else if s.totalDeposits <= 0 || s.depositors == [] then (s.(totalDeposits := 0), 0)
    else
      var cuts := Cuts(I128, Amounts(s.depositors, s.deposits), s.totalDeposits, loss);
      var applied := SeqSum(cuts);
      (s.(deposits := Deduct(s.deposits, s.depositors, cuts, |s.depositors|),
          totalDeposits := Sub(I128, s.totalDeposits, applied)),
       applied)
  }

  function ModeOf(repayAmount: i128): Result<RepayMode> {
    if repayAmount == FULL_REPAY_SENTINEL then Ok(Full)
    else if repayAmount == 0 then Ok(PartialToTarget)
    else if repayAmount < 0 then Err(InvalidAmount)
    else Ok(Specified(repayAmount))
  }

  /** What a liquidation of `borrower` computes its plan from. */
  function QuoteFor(s: State, env: Env, borrower: Address, priceColl: int, priceDebt: int): Quote {
    var pos := PositionOf(s, borrower);
    Quote(pos.collateral, pos.debt, priceColl, priceDebt, env.threshold, env.params)
  }

  /** Move the funds of a plan between the liquidator and the pool. */
  function MoveFunds(s: State, liquidator: Address, plan: Plan): Result<State> {
    var debtToken :- if plan.repay > 0 then Transfer(s.debtToken, liquidator, PoolAccount, plan.repay)
                     else Ok(s.debtToken);
    var collToken :- if plan.seize > 0 then Transfer(s.collToken, PoolAccount, liquidator, plan.seize)
                     else Ok(s.collToken);
    Ok(s.(debtToken := debtToken, collToken := collToken))
  }

  /** An emptied position is removed, any other is stored. */
  function StorePosition(positions: map<Address, Position>, user: Address, pos: Position): map<Address, Position> {
    if pos == NO_POSITION then positions - {user} else positions[user := pos]
  }

  /** Apply a plan to the borrower's position and the pool's totals. */
  function Settle(s: State, borrower: Address, plan: Plan): (State, int) {
    var pos := PositionOf(s, borrower);
    var rest := Position(pos.collateral - plan.seize,
                         Sub(I128, Sub(I128, pos.debt, plan.repay), plan.badDebt));
    var social := Socialize(s.(totalBorrowed := Sub(I128, s.totalBorrowed, plan.repay + plan.badDebt)), plan.badDebt);
    (social.0.(positions := StorePosition(s.positions, borrower, rest)), social.1)
  }

  function Liquidate(s: State, env: Env, liquidator: Address, borrower: Address, repayAmount: i128)
    : Result<(State, Outcome)>
  {
    if liquidator.PoolAccount? then Err(Unauthorized)
    else if env.paused then Err(Paused)
    else if liquidator == borrower then Err(SelfLiquidation)
    else if PositionOf(s, borrower).debt <= 0 then Err(NotLiquidatable)
    else
      var coll := Resolve(s.collFeed, env.collAnswers, env.now);
      var debt := Resolve(s.debtFeed, env.debtAnswers, env.now);
      if coll.0.None? || debt.0.None? then Err(NoPriceSource)
      else
        var mode :- ModeOf(repayAmount);
        var plan := ComputePlan(I128, QuoteFor(s, env, borrower, coll.0.value, debt.0.value), mode);
        if plan.repay == 0 && plan.badDebt == 0 then Err(NotLiquidatable)
        else
          var moved :- MoveFunds(s.(collFeed := coll.1, debtFeed := debt.1), liquidator, plan);
          var settled := Settle(moved, borrower, plan);
          Ok((settled.0, Outcome(plan.repay, plan.seize, plan.bonus, settled.1)))
  }

  /** A keeper refreshing one feed. */
  function RecordPrice(s: State, env: Env, asset: Asset): Result<State> {
    if env.paused then Err(Paused)
    else
      var resolved := if asset.CollateralAsset? then Resolve(s.collFeed, env.collAnswers, env.now)
                      else Resolve(s.debtFeed, env.debtAnswers, env.now);
      if resolved.0.None? then Err(NoPriceSource)
      else if asset.CollateralAsset? then Ok(s.(collFeed := resolved.1))
      else Ok(s.(debtFeed := resolved.1))
  }

  /** A transfer made directly on a token, outside the pool; only the pool's own account is out of reach. */
  function TokenTransfer(s: State, asset: Asset, from: Address, to: Address, amount: int): Result<State> {
    if from.PoolAccount? then Err(Unauthorized)
    else if asset.CollateralAsset? then
      var ledger :- Transfer(s.collToken, from, to, amount);
      Ok(s.(collToken := ledger))
    else
      var ledger :- Transfer(s.debtToken, from, to, amount);
      Ok(s.(debtToken := ledger))
  }

  // ----- Runs -----

  datatype Op =
    | OpDeposit(who: Address, amount: i128)
    | OpWithdraw(who: Address, amount: i128)
    | OpDepositCollateral(user: Address, amount: i128)
    | OpBorrow(user: Address, amount: i128)
    | OpRepay(user: Address, amount: i128)
    | OpWithdrawCollateral(user: Address, amount: i128)
    | OpLiquidate(liquidator: Address, borrower: Address, amount: i128)
    | OpRecordPrice(asset: Asset)
    | OpTokenTransfer(asset: Asset, from: Address, to: Address, amount: i128)

  /** One transaction: an operation and the environment it runs in. */
  datatype Call = Call(op: Op, env: Env)

  function Apply(s: State, call: Call): Result<State> {
    match call.op
    case OpDeposit(who, amount) => Deposit(s, call.env, who, amount)
    case OpWithdraw(who, amount) => Withdraw(s, call.env, who, amount)
    case OpDepositCollateral(user, amount) => DepositCollateral(s, call.env, user, amount)
    case OpBorrow(user, amount) => Borrow(s, call.env, user, amount)
    case OpRepay(user, amount) => Repay(s, call.env, user, amount)
    case OpWithdrawCollateral(user, amount) => WithdrawCollateral(s, call.env, user, amount)
    case OpLiquidate(liquidator, borrower, amount) =>
      var done :- Liquidate(s, call.env, liquidator, borrower, amount);
      Ok(done.0)
    case OpRecordPrice(asset) => RecordPrice(s, call.env, asset)
    case OpTokenTransfer(asset, from, to, amount) => TokenTransfer(s, asset, from, to, amount)
  }

  /** A reverted call leaves no trace. */
  function Step(s: State, call: Call): State {
    var r := Apply(s, call);
    if r.Ok? then r.value else s
  }

  function Run(s: State, calls: seq<Call>): State {
    if calls == [] then s else Step(Run(s, calls[..|calls| - 1]), calls[|calls| - 1])
  }

  /** A freshly deployed pool, over any two token ledgers. */
  function Fresh(debtToken: Ledger, collToken: Ledger): State {
    State(map[], [], map[], 0, 0, debtToken, collToken, EMPTY, EMPTY)
  }
}
