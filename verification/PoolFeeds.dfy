/** The price feeds of every reachable state replay histories, so all that holds of histories holds of them. */
module PoolFeeds {
  import opened Arith
  import opened Oracle
  import opened TwapHistory
  import opened TwapMean
  import opened Pool

  /** The feed replays observations made by `now`, all of them among those `given`. */
  predicate Replays(feed: TwapState, hist: seq<Observation>, given: set<Observation>, now: int) {
    && History(hist)
    && feed == Replay(hist, BUFFER)
    && (hist != [] ==> hist[|hist| - 1].ts <= now)
    && (forall o <- hist :: o in given)
  }

  ghost predicate FedFrom(feed: TwapState, given: set<Observation>, now: int) {
    exists hist :: Replays(feed, hist, given, now)
  }

  /** What the oracles are asked for in a call. */
  function AnswersFor(env: Env, asset: Asset): Answers {
    if asset.CollateralAsset? then env.collAnswers else env.debtAnswers
  }

  function FeedOf(s: State, asset: Asset): TwapState {
    if asset.CollateralAsset? then s.collFeed else s.debtFeed
  }

  /** The valid direct answer of a call, if there is one, as the observation it makes. */
  function AnswerTo(env: Env, asset: Asset): set<Observation> {
    var direct := DirectPrice(AnswersFor(env, asset), env.now);
    if direct.Some? then {Observation(env.now, direct.value)} else {}
  }

  /** All valid direct answers of a run. */
  function Given(calls: seq<Call>, asset: Asset): set<Observation> {
    if calls == [] then {}
    else Given(calls[..|calls| - 1], asset) + AnswerTo(calls[|calls| - 1].env, asset)
  }

  function LastTime(calls: seq<Call>): int {
    if calls == [] then 0 else calls[|calls| - 1].env.now
  }

  /** The ledger clock is a 64-bit number and never runs backwards. */
  predicate Clocked(calls: seq<Call>) {
    calls != [] ==>
      var front := calls[..|calls| - 1];
      Clocked(front) && LastTime(front) <= LastTime(calls) <= U64_MAX
  }

  // ----- One call -----

  lemma {:induction false} HistoryNext(hist: seq<Observation>, o: Observation)
    requires History(hist) && o.price > 0 && 0 <= o.ts <= U64_MAX
    requires hist != [] ==> hist[|hist| - 1].ts <= o.ts
    ensures History(hist + [o])
  {
    forall i, j | 0 <= i <= j < |hist| + 1
      ensures (hist + [o])[i].ts <= (hist + [o])[j].ts
    {
      assert i < |hist| ==> hist[i].ts <= hist[|hist| - 1].ts;
    }
  }

  lemma {:induction false} FedLater(
      feed: TwapState, given: set<Observation>, now: int, more: set<Observation>, later: int)
    requires FedFrom(feed, given, now) && now <= later
    ensures FedFrom(feed, given + more, later)
  {
    var hist :| Replays(feed, hist, given, now);
    assert Replays(feed, hist, given + more, later);
  }

  lemma {:induction false} ObservedIsFed(feed: TwapState, given: set<Observation>, was: int, o: Observation)
    requires FedFrom(feed, given, was) && 0 <= was <= o.ts <= U64_MAX && 0 < o.price
    ensures FedFrom(Observed(feed, o.price, o.ts, BUFFER), given + {o}, o.ts)
  {
    var hist :| Replays(feed, hist, given, was);
    HistoryNext(hist, o);
    ReplayNext(hist, o, BUFFER);
    assert Replays(Observed(feed, o.price, o.ts, BUFFER), hist + [o], given + {o}, o.ts);
  }

  lemma {:induction false} ResolvedIsFed(feed: TwapState, env: Env, asset: Asset, given: set<Observation>, was: int)
    requires FedFrom(feed, given, was) && 0 <= was <= env.now <= U64_MAX
    ensures FedFrom(Resolve(feed, AnswersFor(env, asset), env.now).1, given + AnswerTo(env, asset), env.now)
  {
    var direct := DirectPrice(AnswersFor(env, asset), env.now);
    if direct.Some? {
      ObservedIsFed(feed, given, was, Observation(env.now, direct.value));
    } else {
      FedLater(feed, given, was, {}, env.now);
    }
  }

  /** A call leaves each feed as it was or as resolving left it. */
  predicate Moves(s: State, after: State, env: Env, asset: Asset) {
    FeedOf(after, asset) in
      {FeedOf(s, asset), Resolve(FeedOf(s, asset), AnswersFor(env, asset), env.now).1}
  }

  lemma {:induction false} SettleKeepsFeeds(s: State, borrower: Address, plan: Liquidation.Plan)
    ensures Settle(s, borrower, plan).0.collFeed == s.collFeed && Settle(s, borrower, plan).0.debtFeed == s.debtFeed
  {
  }

  lemma {:induction false} LiquidationMoves(
      s: State, env: Env, liquidator: Address, borrower: Address, amount: i128, asset: Asset)
    requires Liquidate(s, env, liquidator, borrower, amount).Ok?
    ensures Moves(s, Liquidate(s, env, liquidator, borrower, amount).value.0, env, asset)
  {
    var coll := Resolve(s.collFeed, env.collAnswers, env.now);
    var debt := Resolve(s.debtFeed, env.debtAnswers, env.now);
    var plan := Liquidation.ComputePlan(
      I128, QuoteFor(s, env, borrower, coll.0.value, debt.0.value), ModeOf(amount).value);
    var moved := MoveFunds(s.(collFeed := coll.1, debtFeed := debt.1), liquidator, plan).value;
    SettleKeepsFeeds(moved, borrower, plan);
  }

  lemma {:induction false} CheckedMoves(s: State, call: Call, asset: Asset)
    requires Apply(s, call).Ok? && (call.op.OpBorrow? || call.op.OpWithdrawCollateral? || call.op.OpRecordPrice?)
    ensures Moves(s, Apply(s, call).value, call.env, asset)
  {
  }

  lemma {:induction false} CallMoves(s: State, call: Call, asset: Asset)
    requires Apply(s, call).Ok?
    ensures Moves(s, Apply(s, call).value, call.env, asset)
  {
    match call.op
    case OpLiquidate(liquidator, borrower, amount) =>
      LiquidationMoves(s, call.env, liquidator, borrower, amount, asset);
    case OpBorrow(_, _) => CheckedMoves(s, call, asset);
    case OpWithdrawCollateral(_, _) => CheckedMoves(s, call, asset);
    case OpRecordPrice(_) => CheckedMoves(s, call, asset);
    case _ =>
  }

  // ----- Runs -----

  lemma {:induction false} TimesAreOrdered(calls: seq<Call>)
    requires Clocked(calls)
    ensures 0 <= LastTime(calls) <= U64_MAX
  {
    if calls != [] {
      TimesAreOrdered(calls[..|calls| - 1]);
    }
  }

  /** After any run, whatever its calls, each feed replays a history that ends by the last call and consists of valid
      direct answers the run was given, each at the time of its call. */
  lemma {:induction false} FeedsReplayHistories(debtToken: Ledger, collToken: Ledger, calls: seq<Call>, asset: Asset)
    requires Clocked(calls)
    ensures FedFrom(FeedOf(Run(Fresh(debtToken, collToken), calls), asset), Given(calls, asset), LastTime(calls))
  {
    var start := Fresh(debtToken, collToken);
    if calls == [] {
      assert Replays(EMPTY, [], {}, 0);
    } else {
      var front, call := calls[..|calls| - 1], calls[|calls| - 1];
      FeedsReplayHistories(debtToken, collToken, front, asset);
      TimesAreOrdered(front);
      StepFeeds(Run(start, front), call, asset, Given(front, asset), LastTime(front));
    }
  }

  lemma {:induction false} StepFeeds(s: State, call: Call, asset: Asset, given: set<Observation>, was: int)
    requires FedFrom(FeedOf(s, asset), given, was) && 0 <= was <= call.env.now <= U64_MAX
    ensures FedFrom(FeedOf(Step(s, call), asset), given + AnswerTo(call.env, asset), call.env.now)
  {
    FedLater(FeedOf(s, asset), given, was, AnswerTo(call.env, asset), call.env.now);
    ResolvedIsFed(FeedOf(s, asset), call.env, asset, given, was);
    if Apply(s, call).Ok? {
      CallMoves(s, call, asset);
    }
  }

  /** The highest of them. */
  function Highest(calls: seq<Call>, asset: Asset): int {
    if calls == [] then 0
    else
      var direct := DirectPrice(AnswersFor(calls[|calls| - 1].env, asset), calls[|calls| - 1].env.now);
      Max(Highest(calls[..|calls| - 1], asset), if direct.Some? then direct.value else 0)
  }

  lemma {:induction false} GivenWithinHighest(calls: seq<Call>, asset: Asset)
    ensures forall o <- Given(calls, asset) :: o.price <= Highest(calls, asset)
  {
    if calls != [] {
      GivenWithinHighest(calls[..|calls| - 1], asset);
    }
  }

  /** No price a feed resolves to, by an answer or by falling back on the average, ever exceeds the highest valid
      answer the oracles have given. */
  lemma {:induction false} PricesNeverExceedAnswers(
      debtToken: Ledger, collToken: Ledger, calls: seq<Call>, next: Call, asset: Asset)
    requires Clocked(calls + [next])
    ensures var feed := FeedOf(Run(Fresh(debtToken, collToken), calls), asset);
            var price := Resolve(feed, AnswersFor(next.env, asset), next.env.now).0;
            price.Some? ==> 0 <= price.value <= Highest(calls + [next], asset)
  {
    assert (calls + [next])[..|calls|] == calls;
    FeedsReplayHistories(debtToken, collToken, calls, asset);
    GivenWithinHighest(calls, asset);
    var feed := FeedOf(Run(Fresh(debtToken, collToken), calls), asset);
    if DirectPrice(AnswersFor(next.env, asset), next.env.now).None? && Twap(feed, next.env.now).Some? {
      AverageWithinCap(feed, Given(calls, asset), LastTime(calls), next.env.now, Highest(calls, asset));
    }
  }

  lemma {:induction false} AverageWithinCap(feed: TwapState, given: set<Observation>, was: int, now: int, cap: int)
    requires FedFrom(feed, given, was) && was <= now && Twap(feed, now).Some?
    requires forall o <- given :: o.price <= cap
    ensures 0 <= Twap(feed, now).value <= cap
  {
    var hist: seq<Observation> :| Replays(feed, hist, given, was);
    assert hist != [] && hist[0] in hist && 0 < hist[0].price <= cap;
    forall t | WindowStart(feed, now) <= t < now
      ensures 0 <= PriceAt(hist, t) <= cap
    {
      assert InForce(hist, t) >= 0 ==> hist[InForce(hist, t)] in hist;
    }
    TwapWithinBounds(hist, now, 0, cap);
    TwapIsMean(hist, now);
  }
}
