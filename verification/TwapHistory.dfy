/** The accumulator against the full history of observations it was fed. */
module TwapHistory {
  import opened Arith
  import opened Constants
  import opened Oracle

  datatype Observation = Observation(ts: int, price: int)

  /** Observations in ledger order, with positive prices and representable times. */
  predicate History(hist: seq<Observation>) {
    && (forall i | 0 <= i < |hist| ::
          hist[i].price > 0 && 0 <= hist[i].ts <= U64_MAX)
    && (forall i, j | 0 <= i <= j < |hist| :: hist[i].ts <= hist[j].ts)
  }

  /** The accumulator after a whole history. */
  function Replay(hist: seq<Observation>, cap: Capacity): TwapState {
    if hist == [] then EMPTY
    else
      var last := hist[|hist| - 1];
      Observed(Replay(hist[..|hist| - 1], cap), last.price, last.ts, cap)
  }

  lemma {:induction false} ReplayNext(hist: seq<Observation>, o: Observation, cap: Capacity)
    ensures Replay(hist + [o], cap) == Observed(Replay(hist, cap), o.price, o.ts, cap)
  {
    assert (hist + [o])[..|hist|] == hist;
  }

  /** A short history, one observation after the other. */
  lemma {:induction false} ThreeObservations(hist: seq<Observation>)
    requires |hist| == 3
    ensures Replay(hist, BUFFER)
         == Observed(Observed(Observed(EMPTY, hist[0].price, hist[0].ts, BUFFER), hist[1].price, hist[1].ts, BUFFER),
                     hist[2].price, hist[2].ts, BUFFER)
  {
    assert hist == hist[..2] + [hist[2]] && hist[..2] == hist[..1] + [hist[1]] && hist[..1] == [] + [hist[0]];
    ReplayNext(hist[..2], hist[2], BUFFER);
    ReplayNext(hist[..1], hist[1], BUFFER);
    ReplayNext([], hist[0], BUFFER);
  }

  lemma {:induction false} HistoryPrefix(hist: seq<Observation>)
    requires hist != [] && History(hist)
    ensures History(hist[..|hist| - 1])
  {
  }

  lemma {:induction false} LastObservation(hist: seq<Observation>, cap: Capacity)
    requires hist != []
    ensures Replay(hist, cap).lastTs == hist[|hist| - 1].ts
    ensures Replay(hist, cap).lastPrice == hist[|hist| - 1].price
  {
  }

  // ----- The bounded buffer against an unbounded one -----

  /** Snapshots are one interval apart; where the clock saturates, a last one may follow sooner. */
  predicate Spaced(snaps: seq<PriceObservation>) {
    forall i | 0 <= i < |snaps| - 1 ::
      || snaps[i].ts + TWAP_SNAPSHOT_INTERVAL_SECS <= snaps[i + 1].ts
      || (i == |snaps| - 2 && snaps[i].ts < snaps[i + 1].ts == U64_MAX)
  }

  predicate SpacedState(st: TwapState) {
    && Spaced(st.snapshots)
    && (st.snapshots != [] ==> st.lastSnapshotTs == st.snapshots[|st.snapshots| - 1].ts <= st.lastTs)
  }

  lemma {:induction false} SpacedAppend(snaps: seq<PriceObservation>, o: PriceObservation)
    requires Spaced(snaps) && o.ts <= U64_MAX
    requires snaps != [] ==>
               var newest := snaps[|snaps| - 1].ts;
               newest < o.ts && (newest + TWAP_SNAPSHOT_INTERVAL_SECS <= o.ts || o.ts == U64_MAX)
    ensures Spaced(snaps + [o])
  {
  }

  lemma {:induction false} ObservedSpaced(st: TwapState, price: int, now: int)
    requires SpacedState(st) && st.lastTs <= now <= U64_MAX
    ensures SpacedState(Observed(st, price, now, Unlimited))
  {
    if st.lastPrice != 0 && st.lastTs < now && SnapshotDue(st, now) {
      SpacedAppend(st.snapshots, PriceObservation(now, Observed(st, price, now, Unlimited).cumulative));
    }
  }

  lemma {:induction false} SnapshotsAreSpaced(hist: seq<Observation>)
    requires History(hist)
    ensures SpacedState(Replay(hist, Unlimited))
  {
    if |hist| > 0 {
      var n := |hist| - 1;
      SnapshotsAreSpaced(hist[..n]);
      if n > 0 {
        LastObservation(hist[..n], Unlimited);
        assert hist[n - 1].ts <= hist[n].ts;
      }
      ObservedSpaced(Replay(hist[..n], Unlimited), hist[n].price, hist[n].ts);
    }
  }

  /** The newest snapshot is never older than an interval, and without one nothing was accumulated. */
  predicate Recent(st: TwapState) {
    if st.snapshots == [] then st.cumulative == 0
    else st.lastTs < st.snapshots[|st.snapshots| - 1].ts + TWAP_SNAPSHOT_INTERVAL_SECS
  }

  lemma {:induction false} ObservedRecently(st: TwapState, price: int, now: int)
    requires Recent(st) && SpacedState(st) && st.lastTs <= now && (st.lastPrice == 0 ==> st.snapshots == [])
    ensures Recent(Observed(st, price, now, Unlimited))
  {
  }

  lemma {:induction false} NewestIsRecent(hist: seq<Observation>)
    requires History(hist)
    ensures Recent(Replay(hist, Unlimited))
  {
    if hist != [] {
      var n := |hist| - 1;
      NewestIsRecent(hist[..n]);
      SnapshotsAreSpaced(hist[..n]);
      if n > 0 {
        LastObservation(hist[..n], Unlimited);
        assert hist[n - 1].ts <= hist[n].ts;
      }
      ObservedRecently(Replay(hist[..n], Unlimited), hist[n].price, hist[n].ts);
    }
  }

  lemma {:induction false} SpacingAddsUp(snaps: seq<PriceObservation>, i: nat, j: nat)
    requires Spaced(snaps) && i <= j < |snaps|
    ensures snaps[i].ts + TWAP_SNAPSHOT_INTERVAL_SECS * (j - i) <= snaps[j].ts
         || (i < j == |snaps| - 1 && snaps[i].ts + TWAP_SNAPSHOT_INTERVAL_SECS * (j - 1 - i) < snaps[j].ts)
    decreases j
  {
    if i < j {
      SpacingAddsUp(snaps, i, j - 1);
    }
  }

  lemma {:induction false} EvictTwice(s: seq<PriceObservation>, x: PriceObservation, cap: Capacity)
    requires cap.Slots? && cap.n >= 1
    ensures Evict(Evict(s, cap) + [x], cap) == Evict(s + [x], cap)
  {
  }

  /** The buffer is the newest part of the full snapshot list; everything else agrees. */
  lemma {:induction false} BufferIsSuffix(hist: seq<Observation>, cap: Capacity)
    requires cap.Slots? && cap.n >= 1
    ensures var full := Replay(hist, Unlimited);
            Replay(hist, cap) == full.(snapshots := Evict(full.snapshots, cap))
  {
    if |hist| > 0 {
      var last := hist[|hist| - 1];
      BufferIsSuffix(hist[..|hist| - 1], cap);
      ObservedIsSuffix(Replay(hist[..|hist| - 1], Unlimited), last.price, last.ts, cap);
    }
  }

  /** Observing keeps a buffer the newest part of the full list. */
  lemma {:induction false} ObservedIsSuffix(full: TwapState, price: int, now: int, cap: Capacity)
    requires cap.Slots? && cap.n >= 1
    ensures var after := Observed(full, price, now, Unlimited);
            Observed(full.(snapshots := Evict(full.snapshots, cap)), price, now, cap)
            == after.(snapshots := Evict(after.snapshots, cap))
  {
    var cum := Clip(I128, full.cumulative + Clip(I128, full.lastPrice * Min(now - full.lastTs, U32_MAX)));
    EvictTwice(full.snapshots, PriceObservation(now, cum), cap);
  }

  /** A buffer whose slots span more than the window loses nothing: at any later time the average,
      or its absence, is the one computed from every snapshot ever taken. */
  lemma {:induction false} WideBufferLosesNothing(hist: seq<Observation>, cap: Capacity, now: int)
    requires History(hist) && (hist != [] ==> hist[|hist| - 1].ts <= now)
    requires cap.Slots? && cap.n * TWAP_SNAPSHOT_INTERVAL_SECS > TWAP_WINDOW_SECS
    ensures Twap(Replay(hist, cap), now) == Twap(Replay(hist, Unlimited), now)
  {
    BufferIsSuffix(hist, cap);
    SnapshotsAreSpaced(hist);
    if hist != [] {
      LastObservation(hist, Unlimited);
    }
    EvictingIsHarmless(Replay(hist, Unlimited), cap.n, now);
  }

  lemma {:induction false} EvictingIsHarmless(st: TwapState, n: nat, now: int)
    requires n * TWAP_SNAPSHOT_INTERVAL_SECS > TWAP_WINDOW_SECS
    requires SpacedState(st) && (st.snapshots != [] ==> st.lastTs <= now)
    ensures Twap(st.(snapshots := Evict(st.snapshots, Slots(n))), now) == Twap(st, now)
  {
    if |st.snapshots| > n {
      StaleOnlyIsLost(st, n, now);
    } else {
      assert st.(snapshots := Evict(st.snapshots, Slots(n))) == st;
    }
  }

  lemma {:induction false} StaleOnlyIsLost(st: TwapState, n: nat, now: int)
    requires n < |st.snapshots| && n * TWAP_SNAPSHOT_INTERVAL_SECS > TWAP_WINDOW_SECS
    requires Spaced(st.snapshots) && st.snapshots[|st.snapshots| - 1].ts <= now
    ensures Twap(st.(snapshots := Evict(st.snapshots, Slots(n))), now) == Twap(st, now)
  {
    EvictedAreStale(st.snapshots, |st.snapshots| - n, now);
    TwapWithoutStale(st, |st.snapshots| - n, now);
  }

  lemma {:induction false} TwapWithoutStale(st: TwapState, gone: nat, now: int)
    requires gone + 2 <= |st.snapshots|
    requires forall j | 0 <= j < gone :: st.snapshots[j].ts < SubU64(now, TWAP_WINDOW_SECS)
    ensures Twap(st.(snapshots := st.snapshots[gone..]), now) == Twap(st, now)
  {
    StartSurvives(st.snapshots, gone, SubU64(now, TWAP_WINDOW_SECS));
    SameStartSameTwap(st.(snapshots := st.snapshots[gone..]), st, now);
  }

  /** An average depends on the snapshots only through the one its window starts at. */
  lemma {:induction false} SameStartSameTwap(a: TwapState, b: TwapState, now: int)
    requires a == b.(snapshots := a.snapshots) && |a.snapshots| >= 2 && |b.snapshots| >= 2
    requires var cutoff := SubU64(now, TWAP_WINDOW_SECS);
             a.snapshots[StartIndex(a.snapshots, cutoff)] == b.snapshots[StartIndex(b.snapshots, cutoff)]
    ensures Twap(a, now) == Twap(b, now)
  {
  }

  lemma {:induction false} EvictedAreStale(snaps: seq<PriceObservation>, gone: nat, now: int)
    requires 0 < gone < |snaps| && Spaced(snaps) && snaps[|snaps| - 1].ts <= now
    requires (|snaps| - gone) * TWAP_SNAPSHOT_INTERVAL_SECS > TWAP_WINDOW_SECS
    ensures forall j | 0 <= j < gone :: snaps[j].ts < SubU64(now, TWAP_WINDOW_SECS)
  {
    forall j: int | 0 <= j < gone
      ensures snaps[j].ts < SubU64(now, TWAP_WINDOW_SECS)
    {
      SpacingAddsUp(snaps, j, |snaps| - 1);
    }
  }

  lemma {:induction false} StartSurvives(snaps: seq<PriceObservation>, gone: nat, cutoff: int)
    requires gone < |snaps| && forall j | 0 <= j < gone :: snaps[j].ts < cutoff
    ensures snaps[gone..][StartIndex(snaps[gone..], cutoff)] == snaps[StartIndex(snaps, cutoff)]
  {
    var i := StartIndex(snaps[gone..], cutoff);
    forall j | 0 <= j < gone + i
      ensures snaps[j].ts < cutoff
    {
      if j >= gone {
        assert snaps[j] == snaps[gone..][j - gone];
      }
    }
    StartIsUnique(snaps, cutoff, StartIndex(snaps, cutoff), gone + i);
  }

  /** The contract's buffer never changes an average. */
  lemma {:induction false} BufferRefinesHistory(hist: seq<Observation>, now: int)
    requires History(hist) && (hist != [] ==> hist[|hist| - 1].ts <= now)
    ensures Twap(Replay(hist, BUFFER), now) == Twap(Replay(hist, Unlimited), now)
  {
    WideBufferLosesNothing(hist, BUFFER, now);
  }

  /** It holds the newest 34 snapshots, taken at least 60 seconds apart short of the end of the clock, and the newest
      is less than 60 seconds older than the last observation. */
  lemma {:induction false} BufferInNumbers(hist: seq<Observation>)
    requires History(hist)
    ensures var (full, kept) := (Replay(hist, Unlimited).snapshots, Replay(hist, BUFFER).snapshots);
            && kept == full[Max(|full| - 34, 0)..]
            && (forall i | 0 <= i < |full| - 1 ::
                  full[i + 1].ts - full[i].ts >= 60 || (i == |full| - 2 && full[i + 1].ts == 0xffff_ffff_ffff_ffff))
            && (full != [] ==> Replay(hist, Unlimited).lastTs - full[|full| - 1].ts < 60)
  {
    BufferIsSuffix(hist, BUFFER);
    SnapshotsAreSpaced(hist);
    NewestIsRecent(hist);
  }
}
