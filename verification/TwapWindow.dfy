/** How long the window is that an average covers, when the feed is observed often enough. */
module TwapWindow {
  import opened Arith
  import opened Constants
  import opened Oracle
  import opened TwapHistory
  import opened TwapMean

  /** No two observations in a row are more than `gap` seconds apart. */
  predicate Dense(hist: seq<Observation>, gap: int) {
    forall i | 0 <= i < |hist| - 1 :: hist[i + 1].ts - hist[i].ts <= gap
  }

  /** Snapshots of a feed observed from `first` to `last`: they begin within one gap, follow each other within an
      interval and a gap, and the newest is less than an interval old. */
  predicate DenseSnapshots(snaps: seq<PriceObservation>, first: int, last: int, gap: int) {
    if snaps == [] then last == first
    else
      && snaps[0].ts <= first + gap
      && (forall i | 0 <= i < |snaps| - 1 :: snaps[i + 1].ts < snaps[i].ts + TWAP_SNAPSHOT_INTERVAL_SECS + gap)
      && last < snaps[|snaps| - 1].ts + TWAP_SNAPSHOT_INTERVAL_SECS
  }

  /** One more observation, within a gap of the last one. */
  lemma {:induction false} ObservedDensely(st: TwapState, price: int, now: int, first: int, gap: int)
    requires DenseSnapshots(st.snapshots, first, st.lastTs, gap) && st.lastPrice != 0
    requires st.snapshots != [] ==> st.lastSnapshotTs == st.snapshots[|st.snapshots| - 1].ts
    requires st.lastTs <= now <= st.lastTs + gap
    ensures DenseSnapshots(Observed(st, price, now, Unlimited).snapshots, first, now, gap)
  {
  }

  lemma {:induction false} SnapshotsAreDense(hist: seq<Observation>, gap: int)
    requires hist != [] && History(hist) && Dense(hist, gap)
    ensures DenseSnapshots(Replay(hist, Unlimited).snapshots, hist[0].ts, hist[|hist| - 1].ts, gap)
  {
    var n := |hist| - 1;
    if n == 0 {
      assert hist[..0] == [];
    } else {
      var front := hist[..n];
      HistoryPrefix(hist);
      SnapshotsAreDense(front, gap);
      SnapshotsAreSpaced(front);
      LastObservation(front, Unlimited);
      assert hist[n - 1 + 1].ts - hist[n - 1].ts <= gap && hist[n - 1].ts <= hist[n].ts;
      ObservedDensely(Replay(front, Unlimited), hist[n].price, hist[n].ts, hist[0].ts, gap);
    }
  }

  /** A feed observed at least every `gap` seconds for a whole window averages over more than the window less an
      interval and a gap; while it is still observed it averages over no more than the window, or over less than an
      interval and a gap where these are longer. */
  lemma {:induction false} WindowIsLong(hist: seq<Observation>, now: int, gap: int)
    requires Recorded(hist, now) && Dense(hist, gap) && gap >= 0
    requires hist[0].ts + TWAP_WINDOW_SECS <= now && Replay(hist, BUFFER).snapshots != []
    ensures var span := now - WindowStart(Replay(hist, BUFFER), now);
            && 1_800 - 60 - gap < span
            && (now - hist[|hist| - 1].ts <= gap ==> span <= 1_800 || span < 60 + gap)
  {
    SnapshotsAreDense(hist, gap);
    SameWindow(hist, now);
    StartOfDense(Replay(hist, Unlimited).snapshots, hist[0].ts, hist[|hist| - 1].ts, now, gap);
  }

  lemma {:induction false} StartOfDense(snaps: seq<PriceObservation>, first: int, last: int, now: int, gap: int)
    requires snaps != [] && DenseSnapshots(snaps, first, last, gap) && gap >= 0
    requires 0 <= first && first + TWAP_WINDOW_SECS <= now
    ensures var span := now - snaps[StartIndex(snaps, SubU64(now, TWAP_WINDOW_SECS))].ts;
            && TWAP_WINDOW_SECS - TWAP_SNAPSHOT_INTERVAL_SECS - gap < span
            && (now - last <= gap ==> span <= TWAP_WINDOW_SECS || span < TWAP_SNAPSHOT_INTERVAL_SECS + gap)
  {
    var i := StartIndex(snaps, SubU64(now, TWAP_WINDOW_SECS));
    if i > 0 {
      assert snaps[i - 1].ts < now - TWAP_WINDOW_SECS;
      assert snaps[i - 1 + 1].ts < snaps[i - 1].ts + TWAP_SNAPSHOT_INTERVAL_SECS + gap;
    }
  }

  /** Longest gap between observations that cannot leave the feed without an average. */
  const SAFE_GAP := (TWAP_WINDOW_SECS - TWAP_SNAPSHOT_INTERVAL_SECS) / 2

  /** The feed was observed at least every `gap` seconds through a whole window, up to now. */
  predicate WellObserved(hist: seq<Observation>, now: int, gap: int) {
    && Recorded(hist, now) && Dense(hist, gap)
    && hist[0].ts + TWAP_WINDOW_SECS <= now <= hist[|hist| - 1].ts + gap
  }

  /** The accumulator was full when the window started. */
  predicate Full(hist: seq<Observation>, now: int) {
    var st := Replay(hist, BUFFER);
    st.snapshots != [] && StartOf(st, now).cum >= I128_MAX
  }

  predicate Averages(hist: seq<Observation>, now: int) {
    Twap(Replay(hist, BUFFER), now).Some?
  }

  /** Such a feed has an average exactly while its accumulator is not full. */
  lemma {:induction false} DenseFeedAveragesIff(hist: seq<Observation>, now: int, gap: int)
    requires WellObserved(hist, now, gap) && gap <= SAFE_GAP
    ensures Averages(hist, now) <==> !Full(hist, now)
  {
    SnapshotsAreDense(hist, gap);
    SameWindow(hist, now);
    WindowIsLong(hist, now, gap);
    AverageExistsIff(hist, now);
  }

  const SPARSE := [Observation(0, 1), Observation(870, 1), Observation(929, 1)]

  lemma {:induction false} SparseReplay()
    ensures Replay(SPARSE, BUFFER) == TwapState(929, 1, 929, 870, [PriceObservation(870, 870)])
  {
    ReplayNext([], Observation(0, 1), BUFFER);
    ReplayNext([Observation(0, 1)], Observation(870, 1), BUFFER);
    ReplayNext([Observation(0, 1), Observation(870, 1)], Observation(929, 1), BUFFER);
    assert SPARSE == [Observation(0, 1), Observation(870, 1)] + [Observation(929, 1)];
    assert [Observation(0, 1)] + [Observation(870, 1)] == [Observation(0, 1), Observation(870, 1)];
    assert [] + [Observation(0, 1)] == [Observation(0, 1)];
  }

  /** Three observations whose only snapshot leaves no average half an hour after the first. */
  lemma {:induction false} SparseFeedHasNone(gap: int)
    requires gap > SAFE_GAP
    ensures WellObserved(SPARSE, 1_800, gap) && !Full(SPARSE, 1_800) && !Averages(SPARSE, 1_800)
  {
    SparseReplay();
  }

  /** While the accumulator is not full, being observed at least every `gap` seconds for a whole window guarantees an
      average if and only if the gap is at most 870 seconds. */
  lemma {:induction false} SafeGapIff(gap: int)
    ensures (forall hist, now | WellObserved(hist, now, gap) && !Full(hist, now) :: Averages(hist, now))
        <==> gap <= 870
  {
    if gap <= SAFE_GAP {
      forall hist, now | WellObserved(hist, now, gap) && !Full(hist, now)
        ensures Averages(hist, now)
      {
        DenseFeedAveragesIff(hist, now, gap);
      }
    } else {
      SparseFeedHasNone(gap);
    }
  }
}
