/** How far the average can be moved, and how small its buffer can be. */
module TwapRobustness {
  import opened Arith
  import opened Constants
  import opened Results
  import opened Oracle
  import opened TwapHistory
  import opened TwapMean
  import opened TwapSaturation

  // ----- Two histories on the same clock -----

  predicate SameTimes(h1: seq<Observation>, h2: seq<Observation>) {
    |h1| == |h2| && forall i | 0 <= i < |h1| :: h1[i].ts == h2[i].ts
  }

  lemma {:induction false} SameInForce(h1: seq<Observation>, h2: seq<Observation>, t: int)
    requires SameTimes(h1, h2)
    ensures InForce(h1, t) == InForce(h2, t)
  {
  }

  predicate SameSnapshotTimes(s1: seq<PriceObservation>, s2: seq<PriceObservation>) {
    |s1| == |s2| && forall i | 0 <= i < |s1| :: s1[i].ts == s2[i].ts
  }

  predicate SameClock(s1: TwapState, s2: TwapState) {
    && SameSnapshotTimes(s1.snapshots, s2.snapshots)
    && s1.lastTs == s2.lastTs && s1.lastSnapshotTs == s2.lastSnapshotTs
    && (s1.lastPrice == 0 <==> s2.lastPrice == 0)
  }

  lemma {:induction false} ObservedOnClock(s1: TwapState, s2: TwapState, p1: int, p2: int, now: int)
    requires SameClock(s1, s2) && p1 != 0 && p2 != 0
    ensures SameClock(Observed(s1, p1, now, Unlimited), Observed(s2, p2, now, Unlimited))
  {
  }

  /** When snapshots are taken does not depend on the prices. */
  lemma {:induction false} SameSchedule(h1: seq<Observation>, h2: seq<Observation>)
    requires History(h1) && History(h2) && SameTimes(h1, h2)
    ensures SameClock(Replay(h1, Unlimited), Replay(h2, Unlimited))
  {
    if |h1| > 0 {
      var n := |h1| - 1;
      SameSchedule(h1[..n], h2[..n]);
      ObservedOnClock(Replay(h1[..n], Unlimited), Replay(h2[..n], Unlimited), h1[n].price, h2[n].price, h1[n].ts);
    }
  }

  lemma {:induction false} SameStart(s1: seq<PriceObservation>, s2: seq<PriceObservation>, cutoff: int)
    requires SameSnapshotTimes(s1, s2) && s1 != []
    ensures StartIndex(s1, cutoff) == StartIndex(s2, cutoff)
  {
    StartIsUnique(s2, cutoff, StartIndex(s1, cutoff), StartIndex(s2, cutoff));
  }

  lemma {:induction false} SameWindows(h1: seq<Observation>, h2: seq<Observation>, now: int)
    requires Recorded(h1, now) && Recorded(h2, now) && SameTimes(h1, h2)
    ensures |Replay(h1, BUFFER).snapshots| >= 2 <==> |Replay(h2, BUFFER).snapshots| >= 2
    ensures WindowStart(Replay(h1, BUFFER), now) == WindowStart(Replay(h2, BUFFER), now)
  {
    SameSchedule(h1, h2);
    SameWindow(h1, now);
    SameWindow(h2, now);
    var s1, s2 := Replay(h1, Unlimited).snapshots, Replay(h2, Unlimited).snapshots;
    if s1 != [] {
      SameStart(s1, s2, SubU64(now, TWAP_WINDOW_SECS));
    }
  }

  function Distance(x: int, y: int): int {
    if x <= y then y - x else x - y
  }

  /** Total deviation of the prices in force over the seconds a, ..., b - 1. */
  function Deviation(h1: seq<Observation>, h2: seq<Observation>, a: int, b: int): int
    decreases b - a
  {
    if b <= a then 0
    else Deviation(h1, h2, a, b - 1) + Distance(PriceAt(h1, b - 1), PriceAt(h2, b - 1))
  }

  lemma {:induction false} AreaDistance(h1: seq<Observation>, h2: seq<Observation>, a: int, b: int)
    ensures Distance(Area(h1, a, b), Area(h2, a, b)) <= Deviation(h1, h2, a, b)
    decreases b - a
  {
    if a < b {
      AreaDistance(h1, h2, a, b - 1);
    }
  }

  /** An exact window has an average as soon as it is long enough. */
  lemma {:induction false} ExactAverage(hist: seq<Observation>, now: int)
    requires Exact(hist, now)
    ensures var (st, r) := (Replay(hist, BUFFER), Twap(Replay(hist, BUFFER), now));
            var start := WindowStart(st, now);
            && (r.Some? <==> |st.snapshots| >= 2 && now - start >= 300)
            && (r.Some? ==> r.value == Area(hist, start, now) / (now - start))
  {
    AverageExistsIff(hist, now);
    if Twap(Replay(hist, BUFFER), now).Some? {
      TwapIsMean(hist, now);
    } else if |Replay(hist, BUFFER).snapshots| >= 2 {
      WindowIsTracked(hist, now);
      WindowArea(hist, WindowStart(Replay(hist, BUFFER), now), now);
    }
  }

  /** On the same clock two averages over exact windows are available together, and differ by no more than the
      deviation of their price histories spread over the window, rounded up. */
  lemma {:induction false} TwapFollowsDeviation(h1: seq<Observation>, h2: seq<Observation>, now: int)
    requires Exact(h1, now) && Exact(h2, now) && SameTimes(h1, h2)
    ensures var r1, r2 := Twap(Replay(h1, BUFFER), now), Twap(Replay(h2, BUFFER), now);
            && (r1.Some? <==> r2.Some?)
            && (r1.Some? ==>
                  var start := WindowStart(Replay(h1, BUFFER), now);
                  && now - start >= 300
                  && Distance(r1.value, r2.value) <= CeilDiv(Deviation(h1, h2, start, now), now - start))
  {
    ExactAverage(h1, now);
    ExactAverage(h2, now);
    SameWindows(h1, h2, now);
    if Twap(Replay(h1, BUFFER), now).Some? {
      var start := WindowStart(Replay(h1, BUFFER), now);
      AreaDistance(h1, h2, start, now);
      MeanDistance(Area(h1, start, now), Area(h2, start, now), Deviation(h1, h2, start, now), now - start);
    }
  }

  lemma {:induction false} MeanDistance(x: int, y: int, e: int, span: int)
    requires span > 0 && Distance(x, y) <= e
    ensures Distance(x / span, y / span) <= CeilDiv(e, span)
  {
    FloorDifference(x, y, e, span);
    FloorDifference(y, x, e, span);
  }

  /** When observation `j` stops being in force. */
  function Superseded(hist: seq<Observation>, j: nat, now: int): int
    requires j < |hist|
  {
    if j + 1 < |hist| then hist[j + 1].ts else now
  }

  /** Seconds of a, ..., b - 1 that fall between `from` and `to`. */
  function Overlap(a: int, b: int, from: int, to: int): int {
    Max(Min(b, to) - Max(a, from), 0)
  }

  lemma {:induction false} SpikeAt(hist: seq<Observation>, j: nat, price: int, t: int, now: int)
    requires History(hist) && j < |hist| && t < now
    ensures var spiked := hist[j := Observation(hist[j].ts, price)];
            Distance(PriceAt(hist, t), PriceAt(spiked, t))
            == if hist[j].ts <= t < Superseded(hist, j, now) then Distance(hist[j].price, price) else 0
  {
    var spiked := hist[j := Observation(hist[j].ts, price)];
    SameInForce(hist, spiked, t);
    var i := InForce(hist, t);
    if i > j {
      assert hist[j + 1].ts <= hist[i].ts;
    }
  }

  lemma {:induction false} SpikeDeviation(hist: seq<Observation>, j: nat, price: int, a: int, b: int, now: int)
    requires History(hist) && j < |hist| && a <= b <= now
    ensures var spiked := hist[j := Observation(hist[j].ts, price)];
            Deviation(hist, spiked, a, b)
            == Distance(hist[j].price, price) * Overlap(a, b, hist[j].ts, Superseded(hist, j, now))
    decreases b - a
  {
    if a < b {
      SpikeDeviation(hist, j, price, a, b - 1, now);
      SpikeAt(hist, j, price, b - 1, now);
      OverlapStep(a, b, hist[j].ts, Superseded(hist, j, now), Distance(hist[j].price, price));
    }
  }

  lemma {:induction false} OverlapStep(a: int, b: int, from: int, to: int, d: int)
    requires a < b
    ensures d * Overlap(a, b, from, to)
         == d * Overlap(a, b - 1, from, to) + if from <= b - 1 < to then d else 0
  {
    var before := Overlap(a, b - 1, from, to);
    if from <= b - 1 < to {
      assert Overlap(a, b, from, to) == before + 1;
      assert d * (before + 1) == d * before + d;
    } else {
      assert Overlap(a, b, from, to) == before;
    }
  }

  /** Changing one observed price moves the average by at most that change, weighted by the share
      of the window during which the observation was in force. */
  lemma {:induction false} SpikeIsDamped(hist: seq<Observation>, j: nat, price: int, now: int)
    requires j < |hist| && Exact(hist, now) && Exact(hist[j := Observation(hist[j].ts, price)], now)
    requires Twap(Replay(hist, BUFFER), now).Some?
    ensures var spiked := hist[j := Observation(hist[j].ts, price)];
            var start := WindowStart(Replay(hist, BUFFER), now);
            var moved := Distance(hist[j].price, price) * Overlap(start, now, hist[j].ts, Superseded(hist, j, now));
            && Twap(Replay(spiked, BUFFER), now).Some?
            && now - start >= 300
            && Distance(Twap(Replay(hist, BUFFER), now).value, Twap(Replay(spiked, BUFFER), now).value)
               <= CeilDiv(moved, now - start)
  {
    var spiked := hist[j := Observation(hist[j].ts, price)];
    TwapFollowsDeviation(hist, spiked, now);
    var start := WindowStart(Replay(hist, BUFFER), now);
    SpikeDeviation(hist, j, price, start, now, now);
  }

  lemma {:induction false} LongerSpanDampsMore(moved: int, span: int)
    requires moved >= 0 && span >= 300
    ensures CeilDiv(moved, span) <= CeilDiv(moved, 300)
  {
    var k := CeilDiv(moved, 300);
    CeilLe(moved, 300, k);
    CeilLe(0, 300, -1);
    FloorGe(moved + 299, 300, 0);
    MulLe(300, span, k);
    assert k * 300 == 300 * k && k * span == span * k;
    CeilLe(moved, span, k);
  }

  lemma {:induction false} SpikeShare(d: int, a: int, b: int, from: int, to: int)
    requires d >= 0 && from <= to
    ensures 0 <= d * Overlap(a, b, from, to) <= d * (to - from)
  {
    MulLe(0, Overlap(a, b, from, to), d);
    MulLe(Overlap(a, b, from, to), to - from, d);
  }

  /** Since no window is shorter than 300 seconds, a price in force for d seconds moves the average by at most its
      change times d / 300, rounded up. */
  lemma {:induction false} SpikeOverFiveMinutes(hist: seq<Observation>, j: nat, price: int, now: int)
    requires j < |hist| && Exact(hist, now) && Exact(hist[j := Observation(hist[j].ts, price)], now)
    requires Twap(Replay(hist, BUFFER), now).Some?
    ensures var spiked := hist[j := Observation(hist[j].ts, price)];
            var seconds := (if j + 1 < |hist| then hist[j + 1].ts else now) - hist[j].ts;
            && Twap(Replay(spiked, BUFFER), now).Some?
            && Distance(Twap(Replay(hist, BUFFER), now).value, Twap(Replay(spiked, BUFFER), now).value)
               <= CeilDiv(Distance(hist[j].price, price) * seconds, 300)
  {
    var start := WindowStart(Replay(hist, BUFFER), now);
    var (from, to) := (hist[j].ts, Superseded(hist, j, now));
    var change := Distance(hist[j].price, price);
    SpikeIsDamped(hist, j, price, now);
    assert from <= to;
    SpikeShare(change, start, now, from, to);
    LongerSpanDampsMore(change * Overlap(start, now, from, to), now - start);
    CeilMono(change * Overlap(start, now, from, to), change * (to - from));
  }

  lemma {:induction false} CeilMono(x: int, y: int)
    requires x <= y
    ensures CeilDiv(x, 300) <= CeilDiv(y, 300)
  {
    CeilLe(y, 300, CeilDiv(y, 300));
    CeilLe(x, 300, CeilDiv(y, 300));
  }

  // ----- The shortest window -----

  /** 300 seconds are the exact minimum: this history has no average over 299 seconds and one over 300. */
  lemma {:induction false} FiveMinutesAreEnough()
    ensures var st := Replay(STEADY, BUFFER);
            && WindowStart(st, 60 + 299) == WindowStart(st, 60 + 300) == 60
            && Twap(st, 60 + 299) == None && Twap(st, 60 + 300) == Some(1)
  {
    SteadyReplay();
    SteadyTwap(Replay(STEADY, BUFFER), 60 + 299);
    SteadyTwap(Replay(STEADY, BUFFER), 60 + 300);
  }

  lemma {:induction false} SteadyTwap(st: TwapState, now: int)
    requires st == TwapState(120, 1, 120, 120, [PriceObservation(60, 60), PriceObservation(120, 120)])
    requires now == 60 + 299 || now == 60 + 300
    ensures WindowStart(st, now) == 60
    ensures Twap(st, now) == if now == 60 + 299 then None else Some(1)
  {
    assert CumulativeAt(st, now) == now;
    TwapFrom(st, now, 0);
  }

  // ----- The smallest buffer that loses nothing -----

  /** One observation a minute, the second of them at a higher price. */
  function Witness(k: nat): seq<Observation> {
    seq(k, i requires 0 <= i < k => Observation(60 * i, if i == 1 then 61 else 1))
  }

  function WitnessArea(i: int): int {
    if i <= 0 then 0 else if i == 1 then 60 else 3_600 + 60 * i
  }

  function WitnessSnapshots(n: nat): seq<PriceObservation> {
    seq(n, i requires 0 <= i < n => PriceObservation(60 * (i + 1), WitnessArea(i + 1)))
  }

  function WitnessState(k: nat): TwapState
    requires k >= 1
  {
    TwapState(60 * (k - 1), if k == 2 then 61 else 1, WitnessArea(k - 1), 60 * (k - 1), WitnessSnapshots(k - 1))
  }

  lemma {:induction false} WitnessReplay(k: nat)
    requires 1 <= k <= 40
    ensures Replay(Witness(k), Unlimited) == WitnessState(k)
  {
    assert Witness(k)[..k - 1] == Witness(k - 1);
    if k == 1 {
      assert Witness(0) == [];
    } else {
      WitnessReplay(k - 1);
      WitnessObserved(k);
    }
  }

  lemma {:induction false} WitnessObserved(k: nat)
    requires 2 <= k <= 40
    ensures Observed(WitnessState(k - 1), if k == 2 then 61 else 1, 60 * (k - 1), Unlimited) == WitnessState(k)
  {
    assert WitnessSnapshots(k - 1)
        == WitnessSnapshots(k - 2) + [PriceObservation(60 * (k - 1), WitnessArea(k - 1))];
  }

  lemma {:induction false} NarrowBufferLoses(n: nat)
    requires 1 <= n && n * TWAP_SNAPSHOT_INTERVAL_SECS <= TWAP_WINDOW_SECS
    ensures History(Witness(n + 2)) && Witness(n + 2)[n + 1].ts <= 1_860
    ensures Twap(Replay(Witness(n + 2), Unlimited), 1_860) == Some(3)
    ensures Twap(Replay(Witness(n + 2), Slots(n)), 1_860) == if n == 1 then None else Some(1)
  {
    WitnessHistory(n + 2);
    WitnessReplay(n + 2);
    BufferIsSuffix(Witness(n + 2), Slots(n));
    WitnessTwap(Replay(Witness(n + 2), Unlimited), n);
  }

  lemma {:induction false} WitnessHistory(k: nat)
    requires 1 <= k <= 40
    ensures History(Witness(k)) && Witness(k)[k - 1].ts == 60 * (k - 1)
  {
  }

  lemma {:induction false} WitnessTwap(st: TwapState, n: nat)
    requires 1 <= n <= 30
    requires st == WitnessState(n + 2)
    ensures Twap(st, 1_860) == Some(3)
    ensures Twap(st.(snapshots := Evict(st.snapshots, Slots(n))), 1_860) == if n == 1 then None else Some(1)
  {
    assert st.snapshots[0] == PriceObservation(60, 60);
    TwapFrom(st, 1_860, 0);
    if n > 1 {
      assert st.snapshots[1..][0] == PriceObservation(120, 3_720);
      TwapFrom(st.(snapshots := st.snapshots[1..]), 1_860, 0);
    }
  }

  predicate LosesNothing(n: nat, hist: seq<Observation>, now: int) {
    Twap(Replay(hist, Slots(n)), now) == Twap(Replay(hist, Unlimited), now)
  }

  /** A buffer agrees with the unbounded history everywhere if and only if its slots span more than the window;
      34 slots do, and 31 would be the fewest. */
  lemma {:induction false} BufferSizeIff(n: nat)
    requires 1 <= n
    ensures (forall hist: seq<Observation>, now | History(hist) && (hist != [] ==> hist[|hist| - 1].ts <= now) ::
               LosesNothing(n, hist, now))
            <==> n * 60 > 1_800
  {
    if n * TWAP_SNAPSHOT_INTERVAL_SECS > TWAP_WINDOW_SECS {
      forall hist: seq<Observation>, now | History(hist) && (hist != [] ==> hist[|hist| - 1].ts <= now)
        ensures LosesNothing(n, hist, now)
      {
        WideBufferLosesNothing(hist, Slots(n), now);
      }
    } else {
      NarrowBufferLoses(n);
      assert !LosesNothing(n, Witness(n + 2), 1_860);
    }
  }
}
