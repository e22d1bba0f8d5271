/** What the pool guarantees about the health of positions over whole runs. */
module PoolHealth {
  import opened Arith
  import opened Constants
  import opened Results
  import opened Liquidation
  import opened LiquidationBounds
  import opened LiquidationTarget
  import opened LiquidationWidth
  import opened Oracle
  import opened TwapHistory
  import opened TwapMean
  import opened Pool
  import opened PoolInvariants

  // ----- Healthy positions -----

  lemma {:induction false} ValueMono(u1: int, u2: int, price: int)
    requires 0 <= u1 <= u2
    ensures 0 <= UnitsToValue(I128, u1, price) <= UnitsToValue(I128, u2, price)
  {
    if price > 0 {
      MulLe(u1, u2, price);
      assert u1 * price >= 0;
      FloorMono(Mul(I128, u2, price), PRICE_SCALE, Mul(I128, u1, price), PRICE_SCALE);
      Floor(Mul(I128, u1, price), PRICE_SCALE);
    }
  }

  /** More collateral and less debt never hurt, saturation included. */
  lemma {:induction false} HealthyMono(was: Position, now: Position, priceColl: int, priceDebt: int, threshold: u32)
    requires Healthy(was, priceColl, priceDebt, threshold)
    requires 0 <= was.collateral <= now.collateral && 0 <= now.debt <= was.debt
    ensures Healthy(now, priceColl, priceDebt, threshold)
  {
    ValueMono(was.collateral, now.collateral, priceColl);
    ValueMono(now.debt, was.debt, priceDebt);
    MulLe(UnitsToValue(I128, was.collateral, priceColl), UnitsToValue(I128, now.collateral, priceColl), threshold);
  }

  lemma {:induction false} DebtFreeIsHealthy(pos: Position, priceColl: int, priceDebt: int, threshold: u32)
    requires pos.collateral >= 0 && pos.debt == 0
    ensures Healthy(pos, priceColl, priceDebt, threshold)
  {
    ValueMono(0, pos.collateral, priceColl);
    ValueMono(0, 0, priceDebt);
    assert UnitsToValue(I128, 0, priceDebt) == 0;
    assert UnitsToValue(I128, pos.collateral, priceColl) * threshold >= 0;
  }

  /** What borrowing and withdrawing demand is exactly what liquidating requires to be false. */
  lemma {:induction false} GuardsAgree(pos: Position, priceColl: int, priceDebt: int, threshold: u32, params: LiqParams)
    requires pos.collateral >= 0 && pos.debt >= 0
    ensures Healthy(pos, priceColl, priceDebt, threshold)
        <==> !Liquidatable(I128, Quote(pos.collateral, pos.debt, priceColl, priceDebt, threshold, params))
  {
    ValueMono(0, pos.collateral, priceColl);
    ValueMono(0, pos.debt, priceDebt);
    assert UnitsToValue(I128, pos.collateral, priceColl) * threshold >= 0;
  }

  predicate AllHealthy(s: State, priceColl: int, priceDebt: int, threshold: u32) {
    forall u <- s.positions :: Healthy(s.positions[u], priceColl, priceDebt, threshold)
  }

  // ----- Feeds that only ever saw one price -----

  predicate FedBy(feed: TwapState, hist: seq<Observation>, p: int, from: int, to: int) {
    && History(hist)
    && feed == Replay(hist, BUFFER)
    && forall o <- hist :: o.price == p && from <= o.ts <= to
  }

  /** Every price the feed was given between `from` and `to` was `p`. */
  ghost predicate OnlySaw(feed: TwapState, p: int, from: int, to: int) {
    exists hist :: FedBy(feed, hist, p, from, to)
  }

  /** A price whose product with the time passed is representable. */
  predicate Representable(p: int, from: int, to: int) {
    0 <= from <= to <= U64_MAX && p > 0 && p * (to - from) <= I128_MAX
  }

  /** There is an answer, or no observation to fall back on, or one within the clamp of now. */
  predicate InTouch(feed: TwapState, a: Answers, now: int) {
    DirectPrice(a, now).Some? || feed.lastPrice == 0 || now - feed.lastTs <= U32_MAX
  }

  lemma {:induction false} ConstantHistoryIsExact(hist: seq<Observation>, p: int, from: int, now: int)
    requires hist != [] && FedBy(Replay(hist, BUFFER), hist, p, from, now) && Representable(p, from, now)
    requires now - hist[|hist| - 1].ts <= U32_MAX
    ensures Exact(hist, now)
  {
    assert hist[0] in hist && hist[|hist| - 1] in hist;
    MulLe(now - hist[0].ts, now - from, p);
    BoundedHistoryIsExact(hist, p, now);
  }

  lemma {:induction false} HistoryExtends(hist: seq<Observation>, p: int, from: int, to: int, now: int)
    requires History(hist) && (forall o <- hist :: o.price == p && from <= o.ts <= to)
    requires to <= now && Representable(p, from, now)
    ensures var longer := hist + [Observation(now, p)];
            History(longer) && forall o <- longer :: o.price == p && from <= o.ts <= now
  {
    var longer := hist + [Observation(now, p)];
    forall i, j | 0 <= i <= j < |longer|
      ensures longer[i].ts <= longer[j].ts
    {
      assert i < |hist| ==> hist[i] in hist;
    }
  }

  lemma {:induction false} ObservedAgain(feed: TwapState, hist: seq<Observation>, p: int, from: int, to: int, now: int)
    requires FedBy(feed, hist, p, from, to) && to <= now && Representable(p, from, now)
    ensures OnlySaw(Observed(feed, p, now, BUFFER), p, from, now)
  {
    var longer := hist + [Observation(now, p)];
    assert longer[..|longer| - 1] == hist;
    HistoryExtends(hist, p, from, to, now);
    assert FedBy(Observed(feed, p, now, BUFFER), longer, p, from, now);
  }

  lemma {:induction false} AveragesToItsPrice(
      feed: TwapState, hist: seq<Observation>, p: int, from: int, to: int, now: int)
    requires FedBy(feed, hist, p, from, to) && to <= now && Representable(p, from, now)
    requires feed.lastPrice == 0 || now - feed.lastTs <= U32_MAX
    ensures Twap(feed, now) in {None, Some(p)}
  {
    if hist != [] {
      LastObservation(hist, BUFFER);
      assert FedBy(feed, hist, p, from, now);
      ConstantHistoryIsExact(hist, p, from, now);
      ConstantPrice(hist, now, p);
    }
  }

  /** Through direct answers, outages and the average, such a feed only ever resolves to that price. */
  lemma {:induction false} ResolvesToItsPrice(feed: TwapState, a: Answers, p: int, from: int, to: int, now: int)
    requires OnlySaw(feed, p, from, to) && to <= now && Representable(p, from, now)
    requires DirectPrice(a, now) in {None, Some(p)} && InTouch(feed, a, now)
    ensures Resolve(feed, a, now).0 in {None, Some(p)}
    ensures OnlySaw(Resolve(feed, a, now).1, p, from, now)
  {
    var hist :| FedBy(feed, hist, p, from, to);
    if DirectPrice(a, now).Some? {
      ObservedAgain(feed, hist, p, from, to, now);
    } else {
      AveragesToItsPrice(feed, hist, p, from, to, now);
      SawLater(feed, p, from, to, now);
    }
  }

  lemma {:induction false} SawLater(feed: TwapState, p: int, from: int, to: int, later: int)
    requires OnlySaw(feed, p, from, to) && to <= later
    ensures OnlySaw(feed, p, from, later)
  {
    var hist :| FedBy(feed, hist, p, from, to);
    assert FedBy(feed, hist, p, from, later);
  }

  // ----- Calm markets -----

  /** Whatever direct answers there are agree with fixed prices, under a fixed threshold; pauses and
      incentive settings are unrestricted. */
  predicate Quiet(env: Env, priceColl: int, priceDebt: int, threshold: u32) {
    && DirectPrice(env.collAnswers, env.now) in {None, Some(priceColl)}
    && DirectPrice(env.debtAnswers, env.now) in {None, Some(priceDebt)}
    && env.threshold == threshold
  }

  datatype Calm = Calm(priceColl: int, priceDebt: int, threshold: u32, from: int)

  ghost predicate CalmState(s: State, c: Calm, now: int) {
    && AllHealthy(s, c.priceColl, c.priceDebt, c.threshold)
    && OnlySaw(s.collFeed, c.priceColl, c.from, now)
    && OnlySaw(s.debtFeed, c.priceDebt, c.from, now)
  }

  /** Such a call, no earlier than the one before, while the prices times the time passed since `from` are
      representable and no feed has been out of touch for more than 2^32 seconds. */
  predicate CalmCall(s: State, call: Call, c: Calm, was: int) {
    && Quiet(call.env, c.priceColl, c.priceDebt, c.threshold)
    && was <= call.env.now
    && Representable(c.priceColl, c.from, call.env.now)
    && Representable(c.priceDebt, c.from, call.env.now)
    && InTouch(s.collFeed, call.env.collAnswers, call.env.now)
    && InTouch(s.debtFeed, call.env.debtAnswers, call.env.now)
  }

  lemma {:induction false} CalmPrices(s: State, env: Env, op: Op, c: Calm, was: int)
    requires CalmState(s, c, was) && CalmCall(s, Call(op, env), c, was)
    ensures Resolve(s.collFeed, env.collAnswers, env.now).0 in {None, Some(c.priceColl)}
    ensures OnlySaw(Resolve(s.collFeed, env.collAnswers, env.now).1, c.priceColl, c.from, env.now)
    ensures Resolve(s.debtFeed, env.debtAnswers, env.now).0 in {None, Some(c.priceDebt)}
    ensures OnlySaw(Resolve(s.debtFeed, env.debtAnswers, env.now).1, c.priceDebt, c.from, env.now)
    ensures OnlySaw(s.collFeed, c.priceColl, c.from, env.now) && OnlySaw(s.debtFeed, c.priceDebt, c.from, env.now)
  {
    ResolvesToItsPrice(s.collFeed, env.collAnswers, c.priceColl, c.from, was, env.now);
    ResolvesToItsPrice(s.debtFeed, env.debtAnswers, c.priceDebt, c.from, was, env.now);
    SawLater(s.collFeed, c.priceColl, c.from, was, env.now);
    SawLater(s.debtFeed, c.priceDebt, c.from, was, env.now);
  }

  /** In a calm market no position can be liquidated. */
  lemma {:induction false} CalmLiquidationReverts(s: State, call: Call, c: Calm, was: int)
    requires CalmState(s, c, was) && CalmCall(s, call, c, was) && call.op.OpLiquidate?
    ensures Apply(s, call).Err?
  {
    CalmPrices(s, call.env, call.op, c, was);
    if call.op.borrower !in s.positions {
      DebtFreeIsHealthy(NO_POSITION, c.priceColl, c.priceDebt, c.threshold);
    }
    HealthyPositionReverts(s, call.env, call.op.liquidator, call.op.borrower, call.op.amount, c.priceColl, c.priceDebt);
  }

  lemma {:induction false} HealthyHasNoPlan(q: Quote, mode: RepayMode)
    requires Healthy(Position(q.coll, q.debt), q.priceColl, q.priceDebt, q.threshold)
    ensures var plan := ComputePlan(I128, q, mode); plan.repay == plan.badDebt == 0
  {
    assert !Liquidatable(I128, q);
  }

  /** Storing a healthy position keeps a calm state calm. */
  lemma {:induction false} CalmUpdate(
      s: State, env: Env, op: Op, after: State, user: Address, pos: Position, c: Calm, was: int)
    requires CalmState(s, c, was) && CalmCall(s, Call(op, env), c, was)
    requires after.positions == s.positions[user := pos] && Healthy(pos, c.priceColl, c.priceDebt, c.threshold)
    requires after.collFeed in {s.collFeed, Resolve(s.collFeed, env.collAnswers, env.now).1}
    requires after.debtFeed in {s.debtFeed, Resolve(s.debtFeed, env.debtAnswers, env.now).1}
    ensures CalmState(after, c, env.now)
  {
    CalmPrices(s, env, op, c, was);
  }

  /** A position free of debt, or found healthy at the prices a call resolved, is healthy at the fixed prices. */
  lemma {:induction false} CheckedAtFixedPrices(pos: Position, coll: Option<int>, debt: Option<int>, c: Calm)
    requires pos.collateral >= 0 && pos.debt >= 0
    requires coll in {None, Some(c.priceColl)} && debt in {None, Some(c.priceDebt)}
    requires pos.debt > 0 ==> coll.Some? && debt.Some? && Healthy(pos, coll.value, debt.value, c.threshold)
    ensures Healthy(pos, c.priceColl, c.priceDebt, c.threshold)
  {
    if pos.debt == 0 {
      DebtFreeIsHealthy(pos, c.priceColl, c.priceDebt, c.threshold);
    }
  }

  /** Storing such a position keeps a calm state calm. */
  lemma {:induction false} CalmChecked(
      s: State, env: Env, op: Op, after: State, user: Address, pos: Position, c: Calm, was: int)
    requires CalmState(s, c, was) && CalmCall(s, Call(op, env), c, was)
    requires after.positions == s.positions[user := pos] && pos.collateral >= 0 && pos.debt >= 0
    requires pos.debt > 0 ==>
               var coll := Resolve(s.collFeed, env.collAnswers, env.now).0;
               var debt := Resolve(s.debtFeed, env.debtAnswers, env.now).0;
               coll.Some? && debt.Some? && Healthy(pos, coll.value, debt.value, env.threshold)
    requires after.collFeed in {s.collFeed, Resolve(s.collFeed, env.collAnswers, env.now).1}
    requires after.debtFeed in {s.debtFeed, Resolve(s.debtFeed, env.debtAnswers, env.now).1}
    ensures CalmState(after, c, env.now)
  {
    CalmPrices(s, env, op, c, was);
    CheckedAtFixedPrices(pos, Resolve(s.collFeed, env.collAnswers, env.now).0,
                         Resolve(s.debtFeed, env.debtAnswers, env.now).0, c);
    CalmUpdate(s, env, op, after, user, pos, c, was);
  }

  lemma {:induction false} CalmBorrow(s: State, env: Env, user: Address, amount: i128, c: Calm, was: int)
    requires CalmState(s, c, was) && CalmCall(s, Call(OpBorrow(user, amount), env), c, was)
    requires PositionOf(s, user).collateral >= 0 && PositionOf(s, user).debt >= 0 && Borrow(s, env, user, amount).Ok?
    ensures CalmState(Borrow(s, env, user, amount).value, c, env.now)
  {
    var pos := PositionOf(s, user);
    BorrowChecked(s, env, user, amount);
    CalmChecked(s, env, OpBorrow(user, amount), Borrow(s, env, user, amount).value, user,
                pos.(debt := pos.debt + amount), c, was);
  }

  lemma {:induction false} CalmWithdrawal(s: State, env: Env, user: Address, amount: i128, c: Calm, was: int)
    requires CalmState(s, c, was) && CalmCall(s, Call(OpWithdrawCollateral(user, amount), env), c, was)
    requires PositionOf(s, user).debt >= 0 && WithdrawCollateral(s, env, user, amount).Ok?
    ensures CalmState(WithdrawCollateral(s, env, user, amount).value, c, env.now)
  {
    var pos := PositionOf(s, user);
    WithdrawalChecked(s, env, user, amount);
    CalmChecked(s, env, OpWithdrawCollateral(user, amount), WithdrawCollateral(s, env, user, amount).value, user,
                pos.(collateral := pos.collateral - amount), c, was);
  }

  lemma {:induction false} CalmLookup(s: State, user: Address, c: Calm, was: int)
    requires CalmState(s, c, was) && PositionBook(s)
    ensures PositionOf(s, user).collateral >= 0 && PositionOf(s, user).debt >= 0
    ensures Healthy(PositionOf(s, user), c.priceColl, c.priceDebt, c.threshold)
  {
    PositionWithinTotals(s, user);
    if user !in s.positions {
      DebtFreeIsHealthy(NO_POSITION, c.priceColl, c.priceDebt, c.threshold);
    }
  }

  lemma {:induction false} CalmPledge(s: State, env: Env, user: Address, amount: i128, c: Calm, was: int)
    requires CalmState(s, c, was) && CalmCall(s, Call(OpDepositCollateral(user, amount), env), c, was)
    requires PositionBook(s)
    requires DepositCollateral(s, env, user, amount).Ok?
    ensures CalmState(DepositCollateral(s, env, user, amount).value, c, env.now)
  {
    var pos := PositionOf(s, user);
    var more := pos.(collateral := pos.collateral + amount);
    CalmLookup(s, user, c, was);
    HealthyMono(pos, more, c.priceColl, c.priceDebt, c.threshold);
    CalmUpdate(s, env, OpDepositCollateral(user, amount), DepositCollateral(s, env, user, amount).value, user, more,
               c, was);
  }

  lemma {:induction false} CalmRepay(s: State, env: Env, user: Address, amount: i128, c: Calm, was: int)
    requires CalmState(s, c, was) && CalmCall(s, Call(OpRepay(user, amount), env), c, was) && PositionBook(s)
    requires Repay(s, env, user, amount).Ok?
    ensures CalmState(Repay(s, env, user, amount).value, c, env.now)
  {
    var pos := PositionOf(s, user);
    var less := pos.(debt := pos.debt - Min(amount, pos.debt));
    CalmLookup(s, user, c, was);
    HealthyMono(pos, less, c.priceColl, c.priceDebt, c.threshold);
    CalmUpdate(s, env, OpRepay(user, amount), Repay(s, env, user, amount).value, user, less, c, was);
  }

  /** Calls on deposits, tokens and feeds leave positions alone. */
  lemma {:induction false} SimpleEffect(s: State, call: Call)
    requires Simple(call.op) && Apply(s, call).Ok?
    ensures var after := Apply(s, call).value;
            && after.positions == s.positions
            && after.collFeed in {s.collFeed, Resolve(s.collFeed, call.env.collAnswers, call.env.now).1}
            && after.debtFeed in {s.debtFeed, Resolve(s.debtFeed, call.env.debtAnswers, call.env.now).1}
  {
    match call.op {
      case OpDeposit(_, _) =>
      case OpWithdraw(_, _) =>
      case OpRecordPrice(_) =>
      case OpTokenTransfer(_, _, _, _) =>
    }
  }

  lemma {:induction false} CalmSimpleStep(s: State, call: Call, c: Calm, was: int)
    requires CalmState(s, c, was) && CalmCall(s, call, c, was) && Simple(call.op) && Apply(s, call).Ok?
    ensures CalmState(Apply(s, call).value, c, call.env.now)
  {
    SimpleEffect(s, call);
    CalmFeeds(s, call.env, call.op, Apply(s, call).value, c, was);
  }

  lemma {:induction false} CalmFeeds(s: State, env: Env, op: Op, after: State, c: Calm, was: int)
    requires CalmState(s, c, was) && CalmCall(s, Call(op, env), c, was) && after.positions == s.positions
    requires after.collFeed in {s.collFeed, Resolve(s.collFeed, env.collAnswers, env.now).1}
    requires after.debtFeed in {s.debtFeed, Resolve(s.debtFeed, env.debtAnswers, env.now).1}
    ensures CalmState(after, c, env.now)
  {
    CalmPrices(s, env, op, c, was);
  }

  lemma {:induction false} CalmPositionStep(s: State, call: Call, c: Calm, was: int)
    requires CalmState(s, c, was) && CalmCall(s, call, c, was) && PositionBook(s)
    requires !Simple(call.op) && Apply(s, call).Ok?
    ensures CalmState(Apply(s, call).value, c, call.env.now)
  {
    match call.op
    case OpDepositCollateral(user, amount) => CalmPledge(s, call.env, user, amount, c, was);
    case OpBorrow(user, amount) =>
      PositionWithinTotals(s, user);
      CalmBorrow(s, call.env, user, amount, c, was);
    case OpRepay(user, amount) => CalmRepay(s, call.env, user, amount, c, was);
    case OpWithdrawCollateral(user, amount) =>
      PositionWithinTotals(s, user);
      CalmWithdrawal(s, call.env, user, amount, c, was);
    case OpLiquidate(_, _, _) => CalmLiquidationReverts(s, call, c, was);
  }

  lemma {:induction false} CalmStep(s: State, call: Call, c: Calm, was: int)
    requires CalmState(s, c, was) && CalmCall(s, call, c, was) && PositionBook(s)
    ensures CalmState(Step(s, call), c, call.env.now)
  {
    if Apply(s, call).Err? {
      CalmPrices(s, call.env, call.op, c, was);
    } else if Simple(call.op) {
      CalmSimpleStep(s, call, c, was);
    } else {
      CalmPositionStep(s, call, c, was);
    }
  }

  function TimeOf(calls: seq<Call>, from: int): int {
    if calls == [] then from else calls[|calls| - 1].env.now
  }

  predicate CalmRun(start: State, calls: seq<Call>, c: Calm) {
    forall i | 0 <= i < |calls| :: CalmCall(Run(start, calls[..i]), calls[i], c, TimeOf(calls[..i], c.from))
  }

  lemma {:induction false} CalmRunStaysCalm(debtToken: Ledger, collToken: Ledger, calls: seq<Call>, c: Calm)
    requires ValidLedger(debtToken) && ValidLedger(collToken) && CalmRun(Fresh(debtToken, collToken), calls, c)
    ensures CalmState(Run(Fresh(debtToken, collToken), calls), c, TimeOf(calls, c.from))
  {
    var start := Fresh(debtToken, collToken);
    if calls == [] {
      assert FedBy(EMPTY, [], c.priceColl, c.from, c.from);
      assert FedBy(EMPTY, [], c.priceDebt, c.from, c.from);
    } else {
      var front := calls[..|calls| - 1];
      forall i | 0 <= i < |front|
        ensures CalmCall(Run(start, front[..i]), front[i], c, TimeOf(front[..i], c.from))
      {
        assert front[..i] == calls[..i];
      }
      CalmRunStaysCalm(debtToken, collToken, front, c);
      BooksAlwaysBalance(debtToken, collToken, front);
      CalmStep(Run(start, front), calls[|calls| - 1], c, TimeOf(front, c.from));
    }
  }

  /** While the oracles answer only one pair of prices, or nothing, no run of deposits, borrows, repayments,
      withdrawals and liquidation attempts makes any position unhealthy, and every liquidation reverts. */
  lemma {:induction false} CalmMarketsNeverLiquidate(
      debtToken: Ledger, collToken: Ledger, calls: seq<Call>, next: Call, c: Calm)
    requires ValidLedger(debtToken) && ValidLedger(collToken) && CalmRun(Fresh(debtToken, collToken), calls + [next], c)
    requires next.op.OpLiquidate?
    ensures var end := Run(Fresh(debtToken, collToken), calls);
            AllHealthy(end, c.priceColl, c.priceDebt, c.threshold) && Apply(end, next).Err?
  {
    var start, all := Fresh(debtToken, collToken), calls + [next];
    forall i | 0 <= i < |calls|
      ensures CalmCall(Run(start, calls[..i]), calls[i], c, TimeOf(calls[..i], c.from))
    {
      assert calls[..i] == all[..i] && calls[i] == all[i];
    }
    CalmRunStaysCalm(debtToken, collToken, calls, c);
    assert all[..|calls|] == calls && all[|calls|] == next;
    CalmLiquidationReverts(Run(Fresh(debtToken, collToken), calls), next, c, TimeOf(calls, c.from));
  }

  // ----- One partial liquidation is enough -----

  /** What a liquidation leaves of the position is what its plan says. */
  lemma {:induction false} PositionAfterwards(s: State, env: Env, liquidator: Address, borrower: Address, amount: i128,
                                              gd: int, gc: int)
    returns (plan: Plan, q: Quote, mode: RepayMode)
    requires Inv(s, gd, gc) && Liquidate(s, env, liquidator, borrower, amount).Ok?
    ensures var coll := Resolve(s.collFeed, env.collAnswers, env.now).0;
            var debt := Resolve(s.debtFeed, env.debtAnswers, env.now).0;
            coll.Some? && debt.Some? && q == QuoteFor(s, env, borrower, coll.value, debt.value)
    ensures ModeOf(amount) == Ok(mode) && plan == ComputePlan(I128, q, mode)
    ensures PositionOf(Liquidate(s, env, liquidator, borrower, amount).value.0, borrower)
         == Remainder(PositionOf(s, borrower), plan)
  {
    var priced: State;
    plan, priced, q, mode := LiquidationPlan(s, env, liquidator, borrower, amount);
    MoveFundsEffect(priced, liquidator, plan);
    var moved := MoveFunds(priced, liquidator, plan).value;
    SettleEffect(moved, borrower, plan);
    PositionStore(s.positions, s.totalBorrowed, borrower, Remainder(PositionOf(s, borrower), plan));
  }

  /** A liquidation that neither drains the position nor leaves it liquidatable is the last one: no one can liquidate it
      again at the same prices, whatever they ask to repay. */
  lemma {:induction false} SecondLiquidationReverts(
      s: State, env: Env, liquidator: Address, borrower: Address, amount: i128, gd: int, gc: int,
      q: Quote, mode: RepayMode, env2: Env, liquidator2: Address, amount2: i128)
    requires Inv(s, gd, gc) && Liquidate(s, env, liquidator, borrower, amount).Ok? && ModeOf(amount) == Ok(mode)
    requires var coll := Resolve(s.collFeed, env.collAnswers, env.now).0;
             var debt := Resolve(s.debtFeed, env.debtAnswers, env.now).0;
             coll.Some? && debt.Some? && q == QuoteFor(s, env, borrower, coll.value, debt.value)
    requires Operating(q) && !Drained(I128, q, mode) && ComputePlan(I128, q, mode).repay > 0 && LeavesHealthy(q, mode)
    requires var after := Liquidate(s, env, liquidator, borrower, amount).value.0;
             && env2.threshold == env.threshold
             && Resolve(after.collFeed, env2.collAnswers, env2.now).0 in {None, Some(q.priceColl)}
             && Resolve(after.debtFeed, env2.debtAnswers, env2.now).0 in {None, Some(q.priceDebt)}
    ensures var after := Liquidate(s, env, liquidator, borrower, amount).value.0;
            Liquidate(after, env2, liquidator2, borrower, amount2).Err?
  {
    var after := Liquidate(s, env, liquidator, borrower, amount).value.0;
    var plan, q1, mode1 := PositionAfterwards(s, env, liquidator, borrower, amount, gd, gc);
    HealthyAfterwards(q, mode);
    assert PositionOf(after, borrower) == Position(After(q, plan).coll, After(q, plan).debt);
    HealthyPositionReverts(after, env2, liquidator2, borrower, amount2, q.priceColl, q.priceDebt);
  }

  lemma {:induction false} HealthyAfterwards(q: Quote, mode: RepayMode)
    requires Operating(q) && !Drained(I128, q, mode) && ComputePlan(I128, q, mode).repay > 0 && LeavesHealthy(q, mode)
    ensures var rest := After(q, ComputePlan(I128, q, mode));
            Healthy(Position(rest.coll, rest.debt), q.priceColl, q.priceDebt, q.threshold)
  {
    var rest := After(q, ComputePlan(I128, q, mode));
    PlanIsContained(I128, q, mode);
    ContractLiquidatableAgainIff(q, mode);
    GuardsAgree(Position(rest.coll, rest.debt), q.priceColl, q.priceDebt, q.threshold, q.params);
  }

  lemma {:induction false} HealthyPositionReverts(
      s: State, env: Env, liquidator: Address, borrower: Address, amount: i128, priceColl: int, priceDebt: int)
    requires Healthy(PositionOf(s, borrower), priceColl, priceDebt, env.threshold)
    requires Resolve(s.collFeed, env.collAnswers, env.now).0 in {None, Some(priceColl)}
    requires Resolve(s.debtFeed, env.debtAnswers, env.now).0 in {None, Some(priceDebt)}
    ensures Liquidate(s, env, liquidator, borrower, amount).Err?
  {
    if ModeOf(amount).Ok? {
      HealthyHasNoPlan(QuoteFor(s, env, borrower, priceColl, priceDebt), ModeOf(amount).value);
    }
  }

  // ----- Debt without collateral -----

  predicate NoOrphanDebt(s: State) {
    forall u <- s.positions :: s.positions[u].collateral == 0 ==> s.positions[u].debt == 0
  }

  /** Whatever prices the call resolves, the collateral's is positive and the debt token's is at least `floor`. */
  predicate PricedAtLeast(s: State, env: Env, floor: int) {
    var coll := Resolve(s.collFeed, env.collAnswers, env.now).0;
    var debt := Resolve(s.debtFeed, env.debtAnswers, env.now).0;
    (coll.Some? ==> coll.value > 0) && (debt.Some? ==> debt.value >= floor)
  }

  lemma {:induction false} DebtHasValue(debt: int, price: int)
    requires debt > 0 && price >= PRICE_SCALE
    ensures UnitsToValue(I128, debt, price) >= 1
  {
    MulLe(1, debt, price);
    FloorGe(Mul(I128, debt, price), PRICE_SCALE, 1);
  }

  lemma {:induction false} HealthyDebtHasCollateral(pos: Position, priceColl: int, priceDebt: int, threshold: u32)
    requires Healthy(pos, priceColl, priceDebt, threshold) && priceDebt >= PRICE_SCALE
    requires pos.debt > 0
    ensures pos.collateral != 0
  {
    DebtHasValue(pos.debt, priceDebt);
  }

  lemma {:induction false} NoOrphanUpdate(s: State, user: Address, pos: Position, after: State)
    requires NoOrphanDebt(s) && after.positions == s.positions[user := pos] && (pos.collateral == 0 ==> pos.debt == 0)
    ensures NoOrphanDebt(after)
  {
  }

  lemma {:induction false} NoOrphanBorrow(s: State, env: Env, user: Address, amount: i128)
    requires PositionBook(s) && NoOrphanDebt(s) && PricedAtLeast(s, env, PRICE_SCALE)
    requires Borrow(s, env, user, amount).Ok?
    ensures NoOrphanDebt(Borrow(s, env, user, amount).value)
  {
    var pos := PositionOf(s, user);
    PositionWithinTotals(s, user);
    BorrowChecked(s, env, user, amount);
    HealthyDebtHasCollateral(pos.(debt := pos.debt + amount),
                             Resolve(s.collFeed, env.collAnswers, env.now).0.value,
                             Resolve(s.debtFeed, env.debtAnswers, env.now).0.value, env.threshold);
    NoOrphanUpdate(s, user, pos.(debt := pos.debt + amount), Borrow(s, env, user, amount).value);
  }

  lemma {:induction false} NoOrphanWithdrawal(s: State, env: Env, user: Address, amount: i128)
    requires PositionBook(s) && NoOrphanDebt(s) && PricedAtLeast(s, env, PRICE_SCALE)
    requires WithdrawCollateral(s, env, user, amount).Ok?
    ensures NoOrphanDebt(WithdrawCollateral(s, env, user, amount).value)
  {
    var pos := PositionOf(s, user);
    var rest := pos.(collateral := pos.collateral - amount);
    PositionWithinTotals(s, user);
    WithdrawalChecked(s, env, user, amount);
    if pos.debt > 0 {
      HealthyDebtHasCollateral(rest, Resolve(s.collFeed, env.collAnswers, env.now).0.value,
                               Resolve(s.debtFeed, env.debtAnswers, env.now).0.value, env.threshold);
    }
    NoOrphanUpdate(s, user, rest, WithdrawCollateral(s, env, user, amount).value);
  }

  lemma {:induction false} NoOrphanLiquidation(s: State, env: Env, liquidator: Address, borrower: Address, amount: i128)
    requires PositionBook(s) && DepositBook(s) && s.totalBorrowed <= s.totalDeposits <= I128_MAX
    requires NoOrphanDebt(s) && PricedAtLeast(s, env, PRICE_SCALE)
    requires Liquidate(s, env, liquidator, borrower, amount).Ok?
    ensures NoOrphanDebt(Liquidate(s, env, liquidator, borrower, amount).value.0)
  {
    var plan, priced, q, mode := LiquidationPlan(s, env, liquidator, borrower, amount);
    PositionWithinTotals(s, borrower);
    PlanLeavesNoOrphan(q, mode);
    SettledPositions(priced, liquidator, borrower, plan);
    NoOrphanStore(s.positions, borrower, Remainder(PositionOf(s, borrower), plan));
  }

  lemma {:induction false} NoOrphanStore(positions: map<Address, Position>, user: Address, pos: Position)
    requires forall u <- positions :: positions[u].collateral == 0 ==> positions[u].debt == 0
    requires pos.collateral == 0 ==> pos.debt == 0
    ensures var after := StorePosition(positions, user, pos);
            forall u <- after :: after[u].collateral == 0 ==> after[u].debt == 0
  {
  }

  lemma {:induction false} PlanLeavesNoOrphan(q: Quote, mode: RepayMode)
    requires Sound(q) && ComputePlan(I128, q, mode).repay + ComputePlan(I128, q, mode).badDebt != 0
    ensures var rest := After(q, ComputePlan(I128, q, mode)); rest.coll == 0 ==> rest.debt == 0
  {
    PlanIsContained(I128, q, mode);
    NoDebtWithoutCollateral(I128, q, mode);
  }

  lemma {:induction false} NoOrphanSimple(s: State, call: Call)
    requires PositionBook(s) && NoOrphanDebt(s) && Apply(s, call).Ok?
    requires Simple(call.op) || call.op.OpDepositCollateral? || call.op.OpRepay?
    ensures NoOrphanDebt(Apply(s, call).value)
  {
    if call.op.OpDepositCollateral? {
      var pos := PositionOf(s, call.op.user);
      PositionWithinTotals(s, call.op.user);
      NoOrphanUpdate(s, call.op.user, pos.(collateral := pos.collateral + call.op.amount), Apply(s, call).value);
    } else if call.op.OpRepay? {
      var pos := PositionOf(s, call.op.user);
      NoOrphanUpdate(s, call.op.user, pos.(debt := pos.debt - Min(call.op.amount, pos.debt)), Apply(s, call).value);
    } else {
      SimpleEffect(s, call);
    }
  }

  lemma {:induction false} NoOrphanStep(s: State, call: Call)
    requires PositionBook(s) && s.totalBorrowed <= s.totalDeposits <= I128_MAX && DepositBook(s)
    requires NoOrphanDebt(s) && PricedAtLeast(s, call.env, PRICE_SCALE) && Apply(s, call).Ok?
    ensures NoOrphanDebt(Apply(s, call).value)
  {
    match call.op
    case OpLiquidate(liquidator, borrower, amount) => NoOrphanLiquidation(s, call.env, liquidator, borrower, amount);
    case OpBorrow(u, amount) => NoOrphanBorrow(s, call.env, u, amount);
    case OpWithdrawCollateral(u, amount) => NoOrphanWithdrawal(s, call.env, u, amount);
    case _ => NoOrphanSimple(s, call);
  }

  lemma {:induction false} SettledPositions(s: State, liquidator: Address, borrower: Address, plan: Plan)
    requires PositionBook(s) && DepositBook(s) && s.totalBorrowed <= s.totalDeposits <= I128_MAX
    requires Fits(plan, PositionOf(s, borrower)) && MoveFunds(s, liquidator, plan).Ok?
    ensures Settle(MoveFunds(s, liquidator, plan).value, borrower, plan).0.positions
         == StorePosition(s.positions, borrower, Remainder(PositionOf(s, borrower), plan))
  {
    SettleEffect(MoveFunds(s, liquidator, plan).value, borrower, plan);
  }

  predicate PricedRun(s: State, calls: seq<Call>, floor: int) {
    forall i | 0 <= i < |calls| :: PricedAtLeast(Run(s, calls[..i]), calls[i].env, floor)
  }

  /** In any run whose debt token never falls below one value unit, a borrower without collateral has no debt. */
  lemma {:induction false} NoPhantomDebt(debtToken: Ledger, collToken: Ledger, calls: seq<Call>)
    requires ValidLedger(debtToken) && ValidLedger(collToken)
    requires PricedRun(Fresh(debtToken, collToken), calls, PRICE_SCALE)
    ensures NoOrphanDebt(Run(Fresh(debtToken, collToken), calls))
  {
    if calls != [] {
      var start, n := Fresh(debtToken, collToken), |calls| - 1;
      var front := calls[..n];
      forall i | 0 <= i < n
        ensures PricedAtLeast(Run(start, front[..i]), front[i].env, PRICE_SCALE)
      {
        assert front[..i] == calls[..i];
      }
      NoPhantomDebt(debtToken, collToken, front);
      BooksAlwaysBalance(debtToken, collToken, front);
      if Apply(Run(start, front), calls[n]).Ok? {
        NoOrphanStep(Run(start, front), calls[n]);
      }
    }
  }

  /** A user without a position can borrow a unit if and only if that unit is worth less than one value unit. */
  lemma {:induction false} UncollateralizedUnitIff(s: State, env: Env, user: Address)
    requires PositionOf(s, user) == NO_POSITION && !user.PoolAccount? && !env.paused
    requires FreeLiquidity(s) >= 1 && s.totalBorrowed < I128_MAX
    requires Transfer(s.debtToken, PoolAccount, user, 1).Ok?
    requires RequirePrice(s.collFeed, env.collAnswers, env.now).Ok?
    requires RequirePrice(s.debtFeed, env.debtAnswers, env.now).Ok?
    ensures Borrow(s, env, user, 1).Ok?
        <==> RequirePrice(s.debtFeed, env.debtAnswers, env.now).value.0 < PRICE_SCALE
  {
  }

  /** A market in which the debt token is worth `price` and the collateral one value unit. */
  function QuietMarket(price: int): Env {
    Env(1_000, Answers(Some(Answer(PRICE_SCALE, 1_000)), None), Answers(Some(Answer(price, 1_000)), None),
        8_000, LiqParams(500, 1_500, 2_000), false)
  }

  /** One unit is deposited, and someone who never posted collateral borrows it. */
  function OrphanRun(price: int): seq<Call> {
    [Call(OpDeposit(Account(0), 1), QuietMarket(price)), Call(OpBorrow(Account(1), 1), QuietMarket(price))]
  }

  function OneToken(): State {
    Fresh(map[Account(0) := 1], map[])
  }

  function OneTokenPooled(): State {
    OneToken().(deposits := map[Account(0) := 1], depositors := [Account(0)], totalDeposits := 1,
                debtToken := map[Account(0) := 0, PoolAccount := 1])
  }

  lemma {:induction false} OrphanDeposit(price: int)
    ensures Run(OneToken(), OrphanRun(price)[..1]) == OneTokenPooled()
  {
    assert OrphanRun(price)[..1][..0] == [];
    assert Run(OneToken(), OrphanRun(price)[..1]) == Step(OneToken(), OrphanRun(price)[0]);
  }

  /** One unit of a debt token worth less than a value unit can be borrowed against nothing. */
  lemma {:induction false} OrphanBorrow(price: int)
    requires 0 < price < PRICE_SCALE
    ensures var r := Borrow(OneTokenPooled(), QuietMarket(price), Account(1), 1);
            r.Ok? && r.value.positions == map[Account(1) := Position(0, 1)]
  {
    UncollateralizedUnitIff(OneTokenPooled(), QuietMarket(price), Account(1));
  }

  lemma {:induction false} OrphanRunIsPriced(price: int)
    requires 0 < price < PRICE_SCALE
    ensures PricedRun(OneToken(), OrphanRun(price), price)
  {
    forall i | 0 <= i < 2
      ensures PricedAtLeast(Run(OneToken(), OrphanRun(price)[..i]), QuietMarket(price), price)
    {
      assert QuietMarket(price).debtAnswers.primary.value.price == price;
    }
  }

  /** Below one value unit that run ends with a debt and no collateral. */
  lemma {:induction false} OrphanRunEnds(price: int)
    requires 0 < price < PRICE_SCALE
    ensures !NoOrphanDebt(Run(OneToken(), OrphanRun(price)))
  {
    LastStep(OneToken(), OrphanRun(price));
    OrphanDeposit(price);
    OrphanBorrow(price);
    BorrowStep(OneTokenPooled(), QuietMarket(price), Account(1), 1);
    assert Account(1) in Run(OneToken(), OrphanRun(price)).positions;
  }

  lemma {:induction false} LastStep(s: State, calls: seq<Call>)
    requires |calls| == 2
    ensures Run(s, calls) == Step(Run(s, calls[..1]), calls[1])
  {
  }

  lemma {:induction false} BorrowStep(s: State, env: Env, user: Address, amount: i128)
    requires Borrow(s, env, user, amount).Ok?
    ensures Step(s, Call(OpBorrow(user, amount), env)) == Borrow(s, env, user, amount).value
  {
  }

  ghost predicate NoOrphansAtLeast(floor: int, debtToken: Ledger, collToken: Ledger, calls: seq<Call>) {
    ValidLedger(debtToken) && ValidLedger(collToken) && PricedRun(Fresh(debtToken, collToken), calls, floor)
    ==> NoOrphanDebt(Run(Fresh(debtToken, collToken), calls))
  }

  /** The price bound is exact: all runs whose debt prices stay at or above a floor keep debt with collateral if and
      only if the floor is at least one value unit. */
  lemma {:induction false} NoPhantomDebtIff(floor: int)
    ensures (forall debtToken, collToken, calls :: NoOrphansAtLeast(floor, debtToken, collToken, calls))
        <==> floor >= PRICE_SCALE
  {
    if floor >= PRICE_SCALE {
      forall debtToken, collToken, calls
        ensures NoOrphansAtLeast(floor, debtToken, collToken, calls)
      {
        if ValidLedger(debtToken) && ValidLedger(collToken) && PricedRun(Fresh(debtToken, collToken), calls, floor) {
          NoPhantomDebt(debtToken, collToken, calls);
        }
      }
    } else {
      var price := Max(floor, 1);
      OrphanRunIsPriced(price);
      OrphanRunEnds(price);
      assert !NoOrphansAtLeast(floor, map[Account(0) := 1], map[], OrphanRun(price));
    }
  }
}
