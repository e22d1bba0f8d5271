/** What becomes of the average when the accumulator is full or a gap outgrows the clamp. */
module TwapSaturation {
  import opened Arith
  import opened Constants
  import opened Results
  import opened Oracle
  import opened TwapHistory
  import opened TwapMean

  // ----- A full accumulator stays full -----

  /** The snapshots taken since `from` hold the largest amount. */
  predicate FullSnapshots(snaps: seq<PriceObservation>, from: int) {
    forall i | 0 <= i < |snaps| && from <= snaps[i].ts :: snaps[i].cum == I128_MAX
  }

  /** The accumulator is full, and so are the snapshots taken since `from`. */
  predicate FullSince(st: TwapState, from: int) {
    st.cumulative == I128_MAX && st.lastPrice > 0 && FullSnapshots(st.snapshots, from)
  }

  lemma {:induction false} NothingMoreFits(cum: int, price: int, gap: int)
    requires cum == I128_MAX && price > 0 && gap >= 0
    ensures Accumulated(cum, price, gap) == cum
  {
    assert price * Min(gap, U32_MAX) >= 0;
  }

  lemma {:induction false} ObservedAccumulates(st: TwapState, price: int, now: int)
    requires st.lastPrice != 0 && st.lastTs <= now
    ensures var after := Observed(st, price, now, Unlimited);
            && after.lastPrice == price
            && after.cumulative == Accumulated(st.cumulative, st.lastPrice, now - st.lastTs)
            && after.snapshots in {st.snapshots, st.snapshots + [PriceObservation(now, after.cumulative)]}
  {
  }

  lemma {:induction false} ObservedWhenFull(st: TwapState, price: int, now: int, from: int)
    requires FullSince(st, from) && price > 0 && st.lastTs <= now
    ensures FullSince(Observed(st, price, now, Unlimited), from)
  {
    var after := Observed(st, price, now, Unlimited);
    ObservedAccumulates(st, price, now);
    NothingMoreFits(st.cumulative, st.lastPrice, now - st.lastTs);
    FullAppend(st.snapshots, PriceObservation(now, after.cumulative), from);
  }

  lemma {:induction false} FullAppend(snaps: seq<PriceObservation>, o: PriceObservation, from: int)
    requires FullSnapshots(snaps, from) && o.cum == I128_MAX
    ensures FullSnapshots(snaps + [o], from)
  {
  }

  lemma {:induction false} FullFromHere(hist: seq<Observation>)
    requires hist != [] && History(hist) && Replay(hist, Unlimited).cumulative == I128_MAX
    ensures FullSince(Replay(hist, Unlimited), hist[|hist| - 1].ts)
  {
    var snaps, last := Replay(hist, Unlimited).snapshots, hist[|hist| - 1];
    LastObservation(hist, Unlimited);
    SnapshotsAreAnchored(hist);
    forall i | 0 <= i < |snaps| && last.ts <= snaps[i].ts
      ensures snaps[i].cum == I128_MAX
    {
      assert Anchored(hist, snaps[i].cum, snaps[i].ts);
    }
  }

  lemma {:induction false} StaysFull(hist: seq<Observation>, more: seq<Observation>)
    requires hist != [] && History(hist + more) && Replay(hist, Unlimited).cumulative == I128_MAX
    ensures FullSince(Replay(hist + more, Unlimited), hist[|hist| - 1].ts)
    decreases |more|
  {
    if more == [] {
      assert hist + more == hist;
      FullFromHere(hist);
    } else {
      var front, o := hist + more[..|more| - 1], more[|more| - 1];
      assert hist + more == front + [o];
      HistoryPrefix(hist + more);
      StaysFull(hist, more[..|more| - 1]);
      NextIsLater(front, o);
      ReplayNext(front, o, Unlimited);
      ObservedWhenFull(Replay(front, Unlimited), o.price, o.ts, hist[|hist| - 1].ts);
    }
  }

  lemma {:induction false} NextIsLater(hist: seq<Observation>, o: Observation)
    requires hist != [] && History(hist + [o])
    ensures Replay(hist, Unlimited).lastTs <= o.ts && o.price > 0
  {
    LastObservation(hist, Unlimited);
    assert (hist + [o])[|hist| - 1].ts <= (hist + [o])[|hist|].ts;
  }

  /** Once the accumulator is full the average is gone for good: whatever is observed later, from the next snapshot on
      and after one window there is none. */
  lemma {:induction false} FullIsForever(hist: seq<Observation>, more: seq<Observation>, now: int)
    requires hist != [] && Replay(hist, BUFFER).cumulative == I128_MAX && Recorded(hist + more, now)
    requires var full := hist[|hist| - 1].ts;
             && full + TWAP_SNAPSHOT_INTERVAL_SECS <= (hist + more)[|hist + more| - 1].ts
             && full + TWAP_WINDOW_SECS <= now
    ensures Twap(Replay(hist + more, BUFFER), now).None?
  {
    var all := hist + more;
    BufferIsSuffix(hist, BUFFER);
    StaysFull(hist, more);
    NewestIsRecent(all);
    LastObservation(all, Unlimited);
    SameWindow(all, now);
    if Replay(all, Unlimited).snapshots != [] {
      FullStart(Replay(all, Unlimited), hist[|hist| - 1].ts, now);
    }
    AverageExistsIff(all, now);
  }

  lemma {:induction false} FullStart(st: TwapState, from: int, now: int)
    requires st.snapshots != [] && FullSnapshots(st.snapshots, from) && from + TWAP_WINDOW_SECS <= now
    requires from <= st.snapshots[|st.snapshots| - 1].ts
    ensures StartOf(st, now).cum == I128_MAX
  {
  }

  /** The accumulator is full exactly when the clamped area of the history reaches the largest amount. */
  lemma {:induction false} FullIff(hist: seq<Observation>)
    requires hist != [] && History(hist)
    ensures Replay(hist, BUFFER).cumulative == I128_MAX <==> ClampedSince(hist, hist[0].ts) >= I128_MAX
  {
    CumulativeIsArea(hist, BUFFER);
  }

  // ----- Histories the oracle accepts and the average does not survive -----

  /** The largest price, in force for a minute. */
  const SPIKED := [Observation(0, I128_MAX), Observation(60, 1), Observation(120, 1)]

  lemma {:induction false} SpikedReplay()
    ensures Replay(SPIKED, BUFFER)
         == TwapState(120, 1, I128_MAX, 120, [PriceObservation(60, I128_MAX), PriceObservation(120, I128_MAX)])
  {
    var first := TwapState(0, I128_MAX, 0, 0, []);
    var second := TwapState(60, 1, I128_MAX, 60, [PriceObservation(60, I128_MAX)]);
    ThreeObservations(SPIKED);
    assert Observed(EMPTY, I128_MAX, 0, BUFFER) == first;
    assert Observed(first, 1, 60, BUFFER) == second;
  }

  /** Every answer in it is valid when given, there are two snapshots and a window of 440 seconds, and no average. */
  lemma {:induction false} SpikedFeedHasNone()
    ensures Recorded(SPIKED, 500) && forall o <- SPIKED :: ValidAnswer(o.price, o.ts, o.ts)
    ensures var st := Replay(SPIKED, BUFFER);
            && st.cumulative == I128_MAX && |st.snapshots| == 2
            && 500 - WindowStart(st, 500) == 440
            && Twap(st, 500).None?
  {
    SpikedReplay();
  }

  const STEADY := [Observation(0, 1), Observation(60, 1), Observation(120, 1)]

  lemma {:induction false} SteadyReplay()
    ensures Replay(STEADY, BUFFER)
         == TwapState(120, 1, 120, 120, [PriceObservation(60, 60), PriceObservation(120, 120)])
  {
    ThreeObservations(STEADY);
    assert Observed(EMPTY, 1, 0, BUFFER) == TwapState(0, 1, 0, 0, []);
    assert Observed(TwapState(0, 1, 0, 0, []), 1, 60, BUFFER) == TwapState(60, 1, 60, 60, [PriceObservation(60, 60)]);
  }

  lemma {:induction false} IdleTwap(st: TwapState, now: int)
    requires st == TwapState(120, 1, 120, 120, [PriceObservation(60, 60), PriceObservation(120, 120)])
    requires now == 120 + U32_MAX + 1
    ensures Twap(st, now) == Some(0)
  {
    assert IsStart(st.snapshots, now - TWAP_WINDOW_SECS, 1);
    assert CumulativeAt(st, now) == 120 + U32_MAX;
    TwapFrom(st, now, 1);
  }

  /** A price of one averages to nothing when nobody observes it for more than 2^32 seconds. */
  lemma {:induction false} IdleFeedFallsShort()
    ensures History(STEADY) && forall o <- STEADY :: o.price == 1
    ensures Twap(Replay(STEADY, BUFFER), 120 + U32_MAX + 1) == Some(0)
  {
    SteadyReplay();
    IdleTwap(Replay(STEADY, BUFFER), 120 + U32_MAX + 1);
  }
}
