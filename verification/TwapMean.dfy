/** The time-weighted average against the mean, over every second of its window, of the price in force. */
module TwapMean {
  import opened Arith
  import opened Constants
  import opened Results
  import opened Oracle
  import opened TwapHistory

  // ----- The price in force, second by second -----

  /** Index of the observation in force at second `t`, or -1 before the first. */
  function InForce(hist: seq<Observation>, t: int): (i: int)
    ensures -1 <= i < |hist|
    ensures i >= 0 ==> hist[i].ts <= t
    ensures forall j | i < j < |hist| :: t < hist[j].ts
  {
    if hist == [] then -1
    else if hist[|hist| - 1].ts <= t then |hist| - 1
    else
      var i := InForce(hist[..|hist| - 1], t);
      assert forall j | 0 <= j < |hist| - 1 :: hist[j] == hist[..|hist| - 1][j];
      i
  }

  function PriceAt(hist: seq<Observation>, t: int): int {
    var i := InForce(hist, t);
    if i < 0 then 0 else hist[i].price
  }

  /** Sum of the price in force over the seconds a, a + 1, ..., b - 1. */
  function Area(hist: seq<Observation>, a: int, b: int): int
    decreases b - a
  {
    if b <= a then 0 else Area(hist, a, b - 1) + PriceAt(hist, b - 1)
  }

  lemma {:induction false} AreaSplit(hist: seq<Observation>, a: int, b: int, c: int)
    requires a <= b <= c
    ensures Area(hist, a, c) == Area(hist, a, b) + Area(hist, b, c)
    decreases c - b
  {
    if b < c {
      AreaSplit(hist, a, b, c - 1);
    }
  }

  lemma {:induction false} AreaBounds(hist: seq<Observation>, a: int, b: int, lo: int, hi: int)
    requires a <= b && forall t | a <= t < b :: lo <= PriceAt(hist, t) <= hi
    ensures lo * (b - a) <= Area(hist, a, b) <= hi * (b - a)
    decreases b - a
  {
    if a < b {
      AreaBounds(hist, a, b - 1, lo, hi);
      OneMoreSecond(b - 1 - a, Area(hist, a, b - 1), PriceAt(hist, b - 1), lo, hi);
    }
  }

  lemma {:induction false} OneMoreSecond(n: int, area: int, price: int, lo: int, hi: int)
    requires lo * n <= area <= hi * n && lo <= price <= hi
    ensures lo * (n + 1) <= area + price <= hi * (n + 1)
  {
    assert lo * (n + 1) == lo * n + lo && hi * (n + 1) == hi * n + hi;
  }

  /** A later observation does not change the past. */
  lemma {:induction false} AreaStable(hist: seq<Observation>, a: int, b: int)
    requires hist != [] && b <= hist[|hist| - 1].ts
    ensures Area(hist, a, b) == Area(hist[..|hist| - 1], a, b)
    decreases b - a
  {
    if a < b {
      AreaStable(hist, a, b - 1);
    }
  }

  /** After the last observation its price stays in force. */
  lemma {:induction false} AreaFlat(hist: seq<Observation>, a: int, b: int)
    requires hist != [] && hist[|hist| - 1].ts <= a <= b
    ensures Area(hist, a, b) == hist[|hist| - 1].price * (b - a)
  {
    var p := hist[|hist| - 1].price;
    AreaBounds(hist, a, b, p, p);
  }

  /** Before the last observation the price in force does not depend on it, and afterwards it is its price. */
  lemma {:induction false} AreaGrows(hist: seq<Observation>, a: int)
    requires |hist| > 1 && History(hist) && a <= hist[|hist| - 2].ts
    ensures var front, now := hist[..|hist| - 1], hist[|hist| - 1].ts;
            var last := front[|front| - 1];
            && last.ts <= now && last.price > 0
            && Area(hist, a, now) == Area(front, a, last.ts) + last.price * (now - last.ts)
  {
    var front, now := hist[..|hist| - 1], hist[|hist| - 1].ts;
    assert hist[|hist| - 2].ts <= now;
    AreaStable(hist, a, now);
    AreaExtends(front, a, now);
  }

  lemma {:induction false} AreaExtends(hist: seq<Observation>, a: int, now: int)
    requires hist != [] && a <= hist[|hist| - 1].ts <= now
    ensures var last := hist[|hist| - 1];
            Area(hist, a, now) == Area(hist, a, last.ts) + last.price * (now - last.ts)
  {
    AreaSplit(hist, a, hist[|hist| - 1].ts, now);
    AreaFlat(hist, hist[|hist| - 1].ts, now);
  }

  // ----- What the accumulator holds -----

  /** No gap that ends after second `a` outgrows the 32-bit clamp. */
  predicate GapsFitSince(hist: seq<Observation>, a: int) {
    |hist| >= 2 ==>
      var last, before := hist[|hist| - 1], hist[|hist| - 2];
      GapsFitSince(hist[..|hist| - 1], a) && (a < last.ts ==> last.ts - before.ts <= U32_MAX)
  }

  /** The area of the gaps that end after second `a`, each cut at the clamp. */
  function ClampedSince(hist: seq<Observation>, a: int): int {
    if |hist| < 2 then 0
    else
      var last, before := hist[|hist| - 1], hist[|hist| - 2];
      ClampedSince(hist[..|hist| - 1], a)
      + if a < last.ts then before.price * Min(last.ts - before.ts, U32_MAX) else 0
  }

  /** The same up to `now`, with the last price still in force. */
  predicate GapsFit(hist: seq<Observation>, a: int, now: int)
    requires hist != []
  {
    GapsFitSince(hist, a) && now - hist[|hist| - 1].ts <= U32_MAX
  }

  function ClampedArea(hist: seq<Observation>, a: int, now: int): int
    requires hist != []
  {
    var last := hist[|hist| - 1];
    ClampedSince(hist, a) + last.price * Min(now - last.ts, U32_MAX)
  }

  /** What the accumulator becomes over a gap at a price. */
  function Accumulated(cum: int, price: int, gap: int): int {
    if gap == 0 then cum else Clip(I128, cum + Clip(I128, price * Min(gap, U32_MAX)))
  }

  lemma {:induction false} ReplayCumulative(hist: seq<Observation>, cap: Capacity)
    requires |hist| > 1 && History(hist)
    ensures var front, now := hist[..|hist| - 1], hist[|hist| - 1].ts;
            var last := front[|front| - 1];
            Replay(hist, cap).cumulative == Accumulated(Replay(front, cap).cumulative, last.price, now - last.ts)
  {
    assert hist[|hist| - 2].ts <= hist[|hist| - 1].ts;
    LastObservation(hist[..|hist| - 1], cap);
  }

  /** An accumulator that held `base` at some second has since taken up the clamped area, and stops at the largest
      amount; the clamped area is the whole area exactly when no gap was cut. */
  predicate Tracks(base: int, cum: int, clamped: int, area: int, fits: bool) {
    && 0 <= base <= I128_MAX
    && cum == Min(I128_MAX, base + clamped)
    && 0 <= clamped <= area
    && (clamped == area <==> fits)
    && (area > 0 ==> clamped > 0)
  }

  lemma {:induction false} AccumulateStep(
      base: int, cum: int, clamped: int, area: int, fits: bool, price: int, gap: int)
    requires Tracks(base, cum, clamped, area, fits) && price > 0 && gap >= 0
    ensures Tracks(base, Accumulated(cum, price, gap), clamped + price * Min(gap, U32_MAX),
                   area + price * gap, fits && gap <= U32_MAX)
  {
    if gap > 0 {
      GapLoses(price, gap);
      AddSaturates(base, clamped, price * Min(gap, U32_MAX));
    }
  }

  lemma {:induction false} GapLoses(price: int, gap: int)
    requires price > 0 && gap > 0
    ensures 0 < price * Min(gap, U32_MAX) <= price * gap
    ensures price * Min(gap, U32_MAX) == price * gap <==> gap <= U32_MAX
  {
    var clamped := Min(gap, U32_MAX);
    assert 0 < price * clamped;
    MulLe(clamped, gap, price);
    if clamped < gap {
      MulLe(clamped + 1, gap, price);
      assert price * (clamped + 1) == price * clamped + price;
    }
  }

  lemma {:induction false} AddSaturates(base: int, sum: int, more: int)
    requires base >= 0 && sum >= 0 && more >= 0
    ensures Clip(I128, Min(I128_MAX, base + sum) + Clip(I128, more)) == Min(I128_MAX, base + (sum + more))
  {
  }

  /** The accumulator of a history tracks the area from second `a`, where it held `base`; no gap since then is longer
      than the time since then. */
  predicate Anchored(hist: seq<Observation>, base: int, a: int) {
    && hist != []
    && hist[0].ts <= a <= hist[|hist| - 1].ts
    && Tracks(base, Replay(hist, Unlimited).cumulative, ClampedSince(hist, a),
              Area(hist, a, hist[|hist| - 1].ts), GapsFitSince(hist, a))
    && (hist[|hist| - 1].ts - a <= U32_MAX ==> GapsFitSince(hist, a))
  }

  lemma {:induction false} SinceGrows(hist: seq<Observation>, a: int)
    requires |hist| > 1 && History(hist) && a <= hist[|hist| - 2].ts
    ensures var front, last, before := hist[..|hist| - 1], hist[|hist| - 1], hist[|hist| - 2];
            && ClampedSince(hist, a) == ClampedSince(front, a) + before.price * Min(last.ts - before.ts, U32_MAX)
            && (GapsFitSince(hist, a) <==> GapsFitSince(front, a) && last.ts - before.ts <= U32_MAX)
  {
    assert hist[|hist| - 2].ts <= hist[|hist| - 1].ts;
  }

  /** Another observation leaves an anchor in place. */
  lemma {:induction false} AnchorStays(hist: seq<Observation>, base: int, a: int)
    requires |hist| > 1 && History(hist) && Anchored(hist[..|hist| - 1], base, a)
    ensures Anchored(hist, base, a)
  {
    var front, now := hist[..|hist| - 1], hist[|hist| - 1].ts;
    var last := front[|front| - 1];
    ReplayCumulative(hist, Unlimited);
    AreaGrows(hist, a);
    SinceGrows(hist, a);
    AccumulateStep(base, Replay(front, Unlimited).cumulative, ClampedSince(front, a), Area(front, a, last.ts),
                   GapsFitSince(front, a), last.price, now - last.ts);
  }

  lemma {:induction false} NothingSince(hist: seq<Observation>, a: int)
    requires forall i | 0 <= i < |hist| :: hist[i].ts <= a
    ensures ClampedSince(hist, a) == 0 && GapsFitSince(hist, a)
  {
    if |hist| > 1 {
      NothingSince(hist[..|hist| - 1], a);
    }
  }

  /** The accumulator of this moment is an anchor for what follows. */
  lemma {:induction false} AnchorHere(hist: seq<Observation>)
    requires hist != [] && History(hist) && 0 <= Replay(hist, Unlimited).cumulative <= I128_MAX
    ensures Anchored(hist, Replay(hist, Unlimited).cumulative, hist[|hist| - 1].ts)
  {
    NothingSince(hist, hist[|hist| - 1].ts);
  }

  /** It starts at zero with the first observation. */
  lemma {:induction false} AnchoredAtFirst(hist: seq<Observation>)
    requires hist != [] && History(hist)
    ensures Anchored(hist, 0, hist[0].ts)
  {
    if |hist| > 1 {
      HistoryPrefix(hist);
      AnchoredAtFirst(hist[..|hist| - 1]);
      AnchorStays(hist, 0, hist[0].ts);
    } else {
      assert hist[..0] == [];
      AnchorHere(hist);
    }
  }

  /** Area under the whole history up to second `t`. */
  function TotalArea(hist: seq<Observation>, t: int): int
    requires hist != []
  {
    Area(hist, hist[0].ts, t)
  }

  /** The stored accumulator at any buffer size: the clamped area, up to the largest amount. It never exceeds the
      area under the observed prices and equals it exactly when no gap outgrew the clamp and the area is
      representable. */
  lemma {:induction false} CumulativeIsArea(hist: seq<Observation>, cap: Capacity)
    requires hist != [] && History(hist) && (cap.Slots? ==> cap.n >= 1)
    ensures var (cum, area) := (Replay(hist, cap).cumulative, TotalArea(hist, hist[|hist| - 1].ts));
            && 0 <= cum <= area
            && cum == Min(I128_MAX, ClampedSince(hist, hist[0].ts))
            && (cum == area <==> GapsFitSince(hist, hist[0].ts) && area <= I128_MAX)
  {
    AnchoredAtFirst(hist);
    if cap.Slots? {
      BufferIsSuffix(hist, cap);
    }
  }

  // ----- Snapshots -----

  /** Every snapshot is an anchor. */
  ghost predicate SnapshotsAnchored(hist: seq<Observation>, snaps: seq<PriceObservation>) {
    forall i | 0 <= i < |snaps| :: Anchored(hist, snaps[i].cum, snaps[i].ts)
  }

  lemma {:induction false} SnapshotsAreAnchored(hist: seq<Observation>)
    requires hist != [] && History(hist)
    ensures SnapshotsAnchored(hist, Replay(hist, Unlimited).snapshots)
  {
    SnapshotsGrow(hist);
    CumulativeIsArea(hist, Unlimited);
    AnchorHere(hist);
    if |hist| > 1 {
      HistoryPrefix(hist);
      var snaps := Replay(hist[..|hist| - 1], Unlimited).snapshots;
      SnapshotsAreAnchored(hist[..|hist| - 1]);
      forall i | 0 <= i < |snaps|
        ensures Anchored(hist, snaps[i].cum, snaps[i].ts)
      {
        AnchorStays(hist, snaps[i].cum, snaps[i].ts);
      }
    }
  }

  /** One observation adds at most one snapshot, holding the accumulator of that moment. */
  lemma {:induction false} SnapshotsGrow(hist: seq<Observation>)
    requires hist != []
    ensures var before, after := Replay(hist[..|hist| - 1], Unlimited), Replay(hist, Unlimited);
            || after.snapshots == before.snapshots
            || (|hist| > 1 && after.snapshots
                  == before.snapshots + [PriceObservation(hist[|hist| - 1].ts, after.cumulative)])
    ensures |hist| == 1 ==> Replay(hist, Unlimited).snapshots == []
  {
    if |hist| == 1 {
      assert hist[..0] == [];
    }
  }

  // ----- The window -----

  /** A history that is up to date at `now`. */
  predicate Recorded(hist: seq<Observation>, now: int) {
    hist != [] && History(hist) && hist[|hist| - 1].ts <= now
  }

  /** The snapshot the averaging window starts at: the oldest within the trailing window, or the newest one. */
  function StartOf(st: TwapState, now: int): PriceObservation
    requires st.snapshots != []
  {
    st.snapshots[StartIndex(st.snapshots, SubU64(now, TWAP_WINDOW_SECS))]
  }

  /** Where the averaging window starts; the window is empty without snapshots. */
  function WindowStart(st: TwapState, now: int): int {
    if st.snapshots == [] then now else StartOf(st, now).ts
  }

  /** The bounded buffer also starts its window where the full snapshot list would. */
  lemma {:induction false} SameWindow(hist: seq<Observation>, now: int)
    requires Recorded(hist, now)
    ensures var (full, kept) := (Replay(hist, Unlimited), Replay(hist, BUFFER));
            && kept == full.(snapshots := kept.snapshots)
            && (|kept.snapshots| >= 2 <==> |full.snapshots| >= 2)
            && (kept.snapshots == [] <==> full.snapshots == [])
            && (kept.snapshots != [] ==> StartOf(kept, now) == StartOf(full, now))
  {
    BufferIsSuffix(hist, BUFFER);
    SnapshotsAreSpaced(hist);
    LastObservation(hist, Unlimited);
    StartIsKept(Replay(hist, Unlimited), BUFFER.n, now);
  }

  lemma {:induction false} StartIsKept(st: TwapState, n: nat, now: int)
    requires n * TWAP_SNAPSHOT_INTERVAL_SECS > TWAP_WINDOW_SECS && SpacedState(st) && st.lastTs <= now
    ensures var kept := st.(snapshots := Evict(st.snapshots, Slots(n)));
            && (|kept.snapshots| >= 2 <==> |st.snapshots| >= 2)
            && (kept.snapshots == [] <==> st.snapshots == [])
            && (kept.snapshots != [] ==> StartOf(kept, now) == StartOf(st, now))
  {
    if |st.snapshots| > n {
      EvictedAreStale(st.snapshots, |st.snapshots| - n, now);
      StartWithoutStale(st, |st.snapshots| - n, now);
    } else {
      assert Evict(st.snapshots, Slots(n)) == st.snapshots;
    }
  }

  lemma {:induction false} StartWithoutStale(st: TwapState, gone: nat, now: int)
    requires gone < |st.snapshots|
    requires forall j | 0 <= j < gone :: st.snapshots[j].ts < SubU64(now, TWAP_WINDOW_SECS)
    ensures StartOf(st.(snapshots := st.snapshots[gone..]), now) == StartOf(st, now)
  {
    StartSurvives(st.snapshots, gone, SubU64(now, TWAP_WINDOW_SECS));
  }

  /** What the accumulator took up since the window started. */
  function Taken(hist: seq<Observation>, now: int): int
    requires Replay(hist, BUFFER).snapshots != []
  {
    CumulativeAt(Replay(hist, BUFFER), now) - StartOf(Replay(hist, BUFFER), now).cum
  }

  /** The window lies in the history, and the accumulator tracks its area up to now. */
  lemma {:induction false} WindowIsTracked(hist: seq<Observation>, now: int)
    requires Recorded(hist, now) && Replay(hist, BUFFER).snapshots != []
    ensures var start := StartOf(Replay(hist, BUFFER), now);
            && hist[0].ts <= start.ts <= hist[|hist| - 1].ts
            && Tracks(start.cum, CumulativeAt(Replay(hist, BUFFER), now), ClampedArea(hist, start.ts, now),
                      Area(hist, start.ts, now), now - hist[|hist| - 1].ts <= U32_MAX)
  {
    SameWindow(hist, now);
    StartIsRecent(hist, now);
    SnapshotsAreAnchored(hist);
    LastObservation(hist, BUFFER);
    var start := StartOf(Replay(hist, Unlimited), now);
    assert Anchored(hist, start.cum, start.ts);
    TracksNow(hist, start, now);
  }

  /** Before the last observation the window is no longer than its nominal length, so only the gap since that
      observation can outgrow the clamp. */
  lemma {:induction false} StartIsRecent(hist: seq<Observation>, now: int)
    requires Recorded(hist, now) && Replay(hist, Unlimited).snapshots != []
    ensures hist[|hist| - 1].ts - StartOf(Replay(hist, Unlimited), now).ts <= TWAP_WINDOW_SECS
  {
    LastObservation(hist, Unlimited);
    NewestIsRecent(hist);
  }

  lemma {:induction false} TracksNow(hist: seq<Observation>, o: PriceObservation, now: int)
    requires Recorded(hist, now) && Anchored(hist, o.cum, o.ts)
    ensures Tracks(o.cum, CumulativeAt(Replay(hist, Unlimited), now), ClampedArea(hist, o.ts, now),
                   Area(hist, o.ts, now), GapsFit(hist, o.ts, now))
  {
    var last := hist[|hist| - 1];
    var cum := Replay(hist, Unlimited).cumulative;
    LastObservation(hist, Unlimited);
    AreaExtends(hist, o.ts, now);
    CumulativeNow(Replay(hist, Unlimited), now);
    AccumulateStep(o.cum, cum, ClampedSince(hist, o.ts), Area(hist, o.ts, last.ts), GapsFitSince(hist, o.ts),
                   last.price, now - last.ts);
  }

  lemma {:induction false} CumulativeNow(st: TwapState, now: int)
    requires st.lastTs <= now && 0 <= st.cumulative <= I128_MAX
    ensures CumulativeAt(st, now) == Accumulated(st.cumulative, st.lastPrice, now - st.lastTs)
  {
    assert now == st.lastTs ==> st.lastPrice * Min(SubU64(now, st.lastTs), U32_MAX) == 0;
  }

  /** The window is exact: the last observation is within the clamp of now, and the area of the window still fits above
      what the accumulator held when it started. */
  predicate Exact(hist: seq<Observation>, now: int) {
    && Recorded(hist, now)
    && var st := Replay(hist, BUFFER);
       st.snapshots != [] ==>
         var start := StartOf(st, now);
         now - hist[|hist| - 1].ts <= U32_MAX && start.cum + Area(hist, start.ts, now) <= I128_MAX
  }

  /** What the accumulator took up over the window is the area under the price in force exactly when it is. */
  lemma {:induction false} WindowIsExactIff(hist: seq<Observation>, now: int)
    requires Recorded(hist, now) && Replay(hist, BUFFER).snapshots != []
    ensures Taken(hist, now) == Area(hist, WindowStart(Replay(hist, BUFFER), now), now) <==> Exact(hist, now)
  {
    WindowIsTracked(hist, now);
  }

  // ----- The average -----

  /** The average, given the snapshot its window starts at. */
  lemma {:induction false} TwapFrom(st: TwapState, now: int, i: int)
    requires st.lastPrice > 0 && |st.snapshots| >= 2
    requires IsStart(st.snapshots, SubU64(now, TWAP_WINDOW_SECS), i) && st.snapshots[i].ts <= now
    ensures var span := now - st.snapshots[i].ts;
            var delta := CumulativeAt(st, now) - st.snapshots[i].cum;
            Twap(st, now) == if span < TWAP_MIN_SPAN_SECS || delta <= 0 then None else Some(delta / span)
  {
    var cutoff := SubU64(now, TWAP_WINDOW_SECS);
    StartIsUnique(st.snapshots, cutoff, i, StartIndex(st.snapshots, cutoff));
  }

  /** There is none before the first observation, nor with fewer than two snapshots. */
  lemma {:induction false} NothingToAverage(st: TwapState, now: int)
    requires st.lastPrice <= 0 || |st.snapshots| < 2
    ensures Twap(st, now) == None
  {
  }

  lemma {:induction false} AreaAtLeast(hist: seq<Observation>, a: int, b: int)
    requires a <= b && forall t | a <= t < b :: PriceAt(hist, t) >= 1
    ensures Area(hist, a, b) >= b - a
    decreases b - a
  {
    if a < b {
      AreaAtLeast(hist, a, b - 1);
    }
  }

  lemma {:induction false} WindowArea(hist: seq<Observation>, start: int, now: int)
    requires hist != [] && History(hist) && hist[0].ts <= start <= now
    ensures Area(hist, start, now) >= now - start
  {
    forall t | start <= t < now
      ensures PriceAt(hist, t) >= 1
    {
      assert InForce(hist, t) >= 0;
    }
    AreaAtLeast(hist, start, now);
  }

  /** Under every history the average exists exactly when there are two snapshots, the window is long enough and the
      accumulator was not full when it started; it is then what was taken up, over the length of the window. */
  lemma {:induction false} AverageExistsIff(hist: seq<Observation>, now: int)
    requires Recorded(hist, now)
    ensures var (st, r) := (Replay(hist, BUFFER), Twap(Replay(hist, BUFFER), now));
            && (r.Some? <==> && |st.snapshots| >= 2
                             && now - StartOf(st, now).ts >= 300
                             && StartOf(st, now).cum < I128_MAX)
            && (r.Some? ==>
                  var start := StartOf(st, now);
                  && Taken(hist, now) == Min(I128_MAX - start.cum, ClampedArea(hist, start.ts, now)) > 0
                  && r.value == Taken(hist, now) / (now - start.ts))
  {
    var st := Replay(hist, BUFFER);
    LastObservation(hist, BUFFER);
    if |st.snapshots| >= 2 {
      var start := StartOf(st, now);
      WindowIsTracked(hist, now);
      WindowArea(hist, start.ts, now);
      TwapFrom(st, now, StartIndex(st.snapshots, SubU64(now, TWAP_WINDOW_SECS)));
    }
  }

  /** Two floored quotients of the same divisor, one dividend within the other. */
  lemma {:induction false} SameQuotientIff(taken: int, area: int, span: int)
    requires 0 <= taken <= area && span > 0
    ensures 0 <= taken / span <= area / span
    ensures taken / span == area / span <==> area - taken <= area % span
  {
    var k := area / span;
    assert area == k * span + area % span;
    FloorGe(taken, span, 0);
    FloorGe(taken, span, k);
    FloorGe(taken, span, k + 1);
    assert (k + 1) * span == k * span + span;
  }

  /** Under every history an average never exceeds the mean of the price in force over the seconds of its window. It
      is that mean, floored, exactly when what the clamp and the largest amount cut off is within the remainder of the
      division; so in particular when the window is exact. */
  lemma {:induction false} TwapIsMean(hist: seq<Observation>, now: int)
    requires Recorded(hist, now) && Twap(Replay(hist, BUFFER), now).Some?
    ensures var start := WindowStart(Replay(hist, BUFFER), now);
            var (span, area) := (now - start, Area(hist, start, now));
            var value := Twap(Replay(hist, BUFFER), now).value;
            && hist[0].ts <= start && span >= 300
            && span <= area
            && 0 <= value <= area / span
            && (value == area / span <==> area - Taken(hist, now) <= area % span)
            && (Exact(hist, now) ==> value == area / span)
  {
    var start := WindowStart(Replay(hist, BUFFER), now);
    TakenOverWindow(hist, now);
    SameQuotientIff(Taken(hist, now), Area(hist, start, now), now - start);
  }

  lemma {:induction false} TakenOverWindow(hist: seq<Observation>, now: int)
    requires Recorded(hist, now) && Twap(Replay(hist, BUFFER), now).Some?
    ensures Replay(hist, BUFFER).snapshots != []
    ensures var start := WindowStart(Replay(hist, BUFFER), now);
            && hist[0].ts <= start && now - start >= 300
            && now - start <= Area(hist, start, now)
            && 0 <= Taken(hist, now) <= Area(hist, start, now)
            && (Taken(hist, now) == Area(hist, start, now) <==> Exact(hist, now))
            && Twap(Replay(hist, BUFFER), now).value == Taken(hist, now) / (now - start)
  {
    AverageExistsIff(hist, now);
    WindowIsTracked(hist, now);
    WindowIsExactIff(hist, now);
    WindowArea(hist, WindowStart(Replay(hist, BUFFER), now), now);
  }

  /** An average never exceeds an upper bound on the prices in force during its window, and in an exact window does
      not fall below a lower one. */
  lemma {:induction false} TwapWithinBounds(hist: seq<Observation>, now: int, lo: int, hi: int)
    requires Recorded(hist, now) && Twap(Replay(hist, BUFFER), now).Some?
    requires forall t | WindowStart(Replay(hist, BUFFER), now) <= t < now :: lo <= PriceAt(hist, t) <= hi
    ensures Twap(Replay(hist, BUFFER), now).value <= hi
    ensures Exact(hist, now) ==> lo <= Twap(Replay(hist, BUFFER), now).value
  {
    var start := WindowStart(Replay(hist, BUFFER), now);
    AverageWithinMean(hist, now);
    MeanPriceWithin(hist, start, now, lo, hi);
  }

  lemma {:induction false} AverageWithinMean(hist: seq<Observation>, now: int)
    requires Recorded(hist, now) && Twap(Replay(hist, BUFFER), now).Some?
    ensures var (start, value) := (WindowStart(Replay(hist, BUFFER), now), Twap(Replay(hist, BUFFER), now).value);
            && start < now
            && value <= Area(hist, start, now) / (now - start)
            && (Exact(hist, now) ==> value == Area(hist, start, now) / (now - start))
  {
    TwapIsMean(hist, now);
  }

  lemma {:induction false} MeanPriceWithin(hist: seq<Observation>, start: int, now: int, lo: int, hi: int)
    requires start < now && forall t | start <= t < now :: lo <= PriceAt(hist, t) <= hi
    ensures lo <= Area(hist, start, now) / (now - start) <= hi
  {
    AreaBounds(hist, start, now, lo, hi);
    MeanWithin(Area(hist, start, now), now - start, lo, hi);
  }

  lemma {:induction false} MeanWithin(area: int, span: int, lo: int, hi: int)
    requires span > 0 && lo * span <= area <= hi * span
    ensures lo <= area / span <= hi
  {
    FloorGe(area, span, lo);
    FloorGe(area, span, hi + 1);
    assert (hi + 1) * span == hi * span + span;
  }

  lemma {:induction false} ConstantArea(hist: seq<Observation>, p: int, start: int, now: int)
    requires hist != [] && History(hist) && hist[0].ts <= start <= now && forall o <- hist :: o.price == p
    ensures Area(hist, start, now) == p * (now - start)
  {
    forall t | start <= t < now
      ensures PriceAt(hist, t) == p
    {
      assert InForce(hist, t) >= 0 && hist[InForce(hist, t)] in hist;
    }
    AreaBounds(hist, start, now, p, p);
  }

  /** A constant price is averaged to itself exactly when the window is exact, and to less otherwise. */
  lemma {:induction false} ConstantPrice(hist: seq<Observation>, now: int, p: int)
    requires Recorded(hist, now) && forall o <- hist :: o.price == p
    ensures var r := Twap(Replay(hist, BUFFER), now);
            r.Some? ==> r.value <= p && (r.value == p <==> Exact(hist, now))
  {
    if Twap(Replay(hist, BUFFER), now).Some? {
      ConstantTaken(hist, now, p);
      WholeQuotient(Taken(hist, now), p, now - WindowStart(Replay(hist, BUFFER), now));
    }
  }

  lemma {:induction false} ConstantTaken(hist: seq<Observation>, now: int, p: int)
    requires Recorded(hist, now) && Twap(Replay(hist, BUFFER), now).Some? && forall o <- hist :: o.price == p
    ensures Replay(hist, BUFFER).snapshots != []
    ensures var span := now - WindowStart(Replay(hist, BUFFER), now);
            && span > 0
            && Twap(Replay(hist, BUFFER), now).value == Taken(hist, now) / span
            && Taken(hist, now) <= p * span
            && (Taken(hist, now) == p * span <==> Exact(hist, now))
  {
    TakenOverWindow(hist, now);
    ConstantArea(hist, p, WindowStart(Replay(hist, BUFFER), now), now);
  }

  lemma {:induction false} WholeQuotient(taken: int, p: int, span: int)
    requires span > 0 && taken <= p * span
    ensures taken / span <= p && (taken / span == p <==> taken == p * span)
  {
    FloorGe(taken, span, p);
    FloorGe(taken, span, p + 1);
    assert (p + 1) * span == p * span + span;
  }

  lemma {:induction false} BoundedArea(hist: seq<Observation>, p: int, now: int)
    requires hist != [] && History(hist) && forall o <- hist :: o.price <= p
    requires hist[|hist| - 1].ts <= now
    ensures TotalArea(hist, now) <= p * (now - hist[0].ts)
  {
    assert hist[0] in hist && hist[0].ts <= hist[|hist| - 1].ts;
    forall t | hist[0].ts <= t < now
      ensures 0 <= PriceAt(hist, t) <= p
    {
      assert InForce(hist, t) >= 0 ==> hist[InForce(hist, t)] in hist;
    }
    AreaBounds(hist, hist[0].ts, now, 0, p);
  }

  /** Prices up to `p` keep the window exact as long as `p` times the age of the history is representable and the last
      observation is within the clamp of now. */
  lemma {:induction false} BoundedHistoryIsExact(hist: seq<Observation>, p: int, now: int)
    requires hist != [] && History(hist) && forall o <- hist :: o.price <= p
    requires 0 <= now - hist[|hist| - 1].ts <= U32_MAX && p * (now - hist[0].ts) <= I128_MAX
    ensures Exact(hist, now)
  {
    if Replay(hist, BUFFER).snapshots != [] {
      var start := StartOf(Replay(hist, BUFFER), now);
      BoundedArea(hist, p, now);
      WindowIsTracked(hist, now);
      StartWithinArea(hist, now);
      AreaSplit(hist, hist[0].ts, start.ts, now);
    }
  }

  /** What the accumulator held at the start of the window is no more than the area before it. */
  lemma {:induction false} StartWithinArea(hist: seq<Observation>, now: int)
    requires Recorded(hist, now) && Replay(hist, BUFFER).snapshots != []
    ensures var start := StartOf(Replay(hist, BUFFER), now);
            start.cum <= TotalArea(hist, start.ts)
  {
    SameWindow(hist, now);
    SnapshotsWithinArea(hist);
  }

  lemma {:induction false} SnapshotsWithinArea(hist: seq<Observation>)
    requires hist != [] && History(hist)
    ensures forall o <- Replay(hist, Unlimited).snapshots ::
              o.ts <= hist[|hist| - 1].ts && o.cum <= TotalArea(hist, o.ts)
  {
    SnapshotsGrow(hist);
    CumulativeIsArea(hist, Unlimited);
    if |hist| > 1 {
      HistoryPrefix(hist);
      SnapshotsWithinArea(hist[..|hist| - 1]);
      assert hist[|hist| - 2].ts <= hist[|hist| - 1].ts;
      forall o <- Replay(hist[..|hist| - 1], Unlimited).snapshots
        ensures o.ts <= hist[|hist| - 1].ts && o.cum <= TotalArea(hist, o.ts)
      {
        AreaStable(hist, hist[0].ts, o.ts);
      }
    }
  }

  /** What the failover chain resolves: a direct answer, which is positive, or else the average, which is not
      negative, and is positive exactly when at least one unit a second was taken up. It leaves the feed at the history
      it was fed, extended by the direct answer if there was one. */
  lemma {:induction false} ResolvedPrice(hist: seq<Observation>, a: Answers, now: int)
    requires hist == [] || Recorded(hist, now)
    ensures var (price, feed) := Resolve(Replay(hist, BUFFER), a, now);
            var direct := DirectPrice(a, now);
            && feed == Replay(if direct.Some? then hist + [Observation(now, direct.value)] else hist, BUFFER)
            && (direct.Some? ==> price == direct && price.value > 0)
            && (direct.None? && price.Some? ==>
                  && hist != [] && feed.snapshots != [] && price.value >= 0
                  && (price.value > 0 <==> Taken(hist, now) >= now - WindowStart(feed, now))
                  && (Exact(hist, now) ==> price.value > 0))
  {
    var direct := DirectPrice(a, now);
    if direct.Some? {
      ReplayNext(hist, Observation(now, direct.value), BUFFER);
    } else if hist != [] && Twap(Replay(hist, BUFFER), now).Some? {
      FallbackSign(hist, now);
    }
  }

  lemma {:induction false} FallbackSign(hist: seq<Observation>, now: int)
    requires Recorded(hist, now) && Twap(Replay(hist, BUFFER), now).Some?
    ensures var (st, value) := (Replay(hist, BUFFER), Twap(Replay(hist, BUFFER), now).value);
            && st.snapshots != [] && value >= 0
            && (value > 0 <==> Taken(hist, now) >= now - WindowStart(st, now))
            && (Exact(hist, now) ==> value > 0)
  {
    TakenOverWindow(hist, now);
    QuotientSign(Taken(hist, now), now - WindowStart(Replay(hist, BUFFER), now));
  }

  lemma {:induction false} QuotientSign(taken: int, span: int)
    requires taken >= 0 && span > 0
    ensures taken / span >= 0 && (taken / span > 0 <==> taken >= span)
  {
    FloorGe(taken, span, 0);
    FloorGe(taken, span, 1);
  }
}
