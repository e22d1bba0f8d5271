/** The price feed of one asset: answer validation, the cumulative-price accumulator with its
    bounded snapshot buffer, the time-weighted average, and the failover chain. */
module Oracle {
  import opened Arith
  import opened Constants
  import opened Results

  function AddU64(a: int, b: int): int {
    Min(a + b, U64_MAX)
  }

  function SubU64(a: int, b: int): int {
    Max(a - b, 0)
  }

  datatype Answer = Answer(price: int, ts: int)

  predicate ValidAnswer(price: int, ts: int, now: int) {
    && price > 0
    && ts <= AddU64(now, MAX_FUTURE_SKEW_SECS)
    && SubU64(now, ts) <= MAX_PRICE_STALENESS_SECS
  }

  datatype PriceObservation = PriceObservation(ts: int, cum: int)

  datatype TwapState = TwapState(
    lastTs: int, lastPrice: int, cumulative: int, lastSnapshotTs: int, snapshots: seq<PriceObservation>)

  const EMPTY := TwapState(0, 0, 0, 0, [])

  /** How many snapshots are kept; the contract keeps `BUFFER`. */
  datatype Capacity = Unlimited | Slots(n: nat)

  const BUFFER := Slots(TWAP_MAX_SNAPSHOTS)

  /** Drop the oldest snapshots beyond the capacity. */
  function Evict(snaps: seq<PriceObservation>, cap: Capacity): seq<PriceObservation> {
    if cap.Slots? && |snaps| > cap.n then snaps[|snaps| - cap.n..] else snaps
  }

  predicate SnapshotDue(st: TwapState, now: int) {
    st.snapshots == [] || now >= AddU64(st.lastSnapshotTs, TWAP_SNAPSHOT_INTERVAL_SECS)
  }

  /** The accumulator after observing `price` at time `now`. */
  function Observed(st: TwapState, price: int, now: int, cap: Capacity): TwapState {
    if st.lastPrice == 0 || st.lastTs >= now then
      st.(lastTs := now, lastPrice := price)
    else
      var cum := Clip(I128, st.cumulative + Clip(I128, st.lastPrice * Min(now - st.lastTs, U32_MAX)));
      if SnapshotDue(st, now)
      then TwapState(now, price, cum, now, Evict(st.snapshots + [PriceObservation(now, cum)], cap))
      else TwapState(now, price, cum, st.lastSnapshotTs, st.snapshots)
  }

  /** `i` is the oldest snapshot not before the cutoff, or the newest one if all are before it. */
  predicate IsStart(snaps: seq<PriceObservation>, cutoff: int, i: int) {
    && 0 <= i < |snaps|
    && (forall j | 0 <= j < i :: snaps[j].ts < cutoff)
    && (snaps[i].ts >= cutoff || i == |snaps| - 1)
  }

  function StartIndex(snaps: seq<PriceObservation>, cutoff: int): (i: int)
    requires snaps != []
    ensures IsStart(snaps, cutoff, i)
  {
    if |snaps| == 1 || snaps[0].ts >= cutoff then 0
    else
      var i := StartIndex(snaps[1..], cutoff);
      assert forall j | 1 <= j < i + 1 :: snaps[j] == snaps[1..][j - 1];
      i + 1
  }

  /** The accumulator extended to `now` at the last observed price. */
  function CumulativeAt(st: TwapState, now: int): int {
    Clip(I128, st.cumulative + Clip(I128, st.lastPrice * Min(SubU64(now, st.lastTs), U32_MAX)))
  }

  function Twap(st: TwapState, now: int): Option<int> {
    if st.lastPrice <= 0 || |st.snapshots| < 2 then None
    else
      var start := st.snapshots[StartIndex(st.snapshots, SubU64(now, TWAP_WINDOW_SECS))];
      var span := SubU64(now, start.ts);
      var delta := CumulativeAt(st, now) - start.cum;
      if span < TWAP_MIN_SPAN_SECS || delta <= 0 then None else Some(delta / span)
  }

  /** What the two direct oracles answer for the asset; `None` when unset or failing. */
  datatype Answers = Answers(primary: Option<Answer>, secondary: Option<Answer>)

  function DirectPrice(a: Answers, now: int): Option<int> {
    if a.primary.Some? && ValidAnswer(a.primary.value.price, a.primary.value.ts, now)
    then Some(a.primary.value.price)
    else if a.secondary.Some? && ValidAnswer(a.secondary.value.price, a.secondary.value.ts, now)
    then Some(a.secondary.value.price)
    else None
  }

  /** The failover chain: a direct answer feeds the accumulator, otherwise the average serves. */
  function Resolve(st: TwapState, a: Answers, now: int): (Option<int>, TwapState) {
    var direct := DirectPrice(a, now);
    if direct.Some? then (direct, Observed(st, direct.value, now, BUFFER))
    else (Twap(st, now), st)
  }

  /** The stored accumulator of one asset, updated in place. */
  class PriceFeed {
    var lastTs: int
    var lastPrice: int
    var cumulative: int
    var lastSnapshotTs: int
    var snapshots: seq<PriceObservation>

    function State(): TwapState
      reads this
    {
      TwapState(lastTs, lastPrice, cumulative, lastSnapshotTs, snapshots)
    }

    constructor ()
      ensures State() == EMPTY
    {
      lastTs, lastPrice, cumulative, lastSnapshotTs, snapshots := 0, 0, 0, 0, [];
    }

    /** Put back an earlier state, as the host does when a call reverts. */
    method Restore(st: TwapState)
      modifies this
      ensures State() == st
    {
      lastTs, lastPrice, cumulative := st.lastTs, st.lastPrice, st.cumulative;
      lastSnapshotTs, snapshots := st.lastSnapshotTs, st.snapshots;
    }

    method RecordObservation(price: int, now: int)
      modifies this
      ensures State() == Observed(old(State()), price, now, BUFFER)
    {
      if lastPrice == 0 || lastTs >= now {
        lastTs := now;
        lastPrice := price;
        return;
      }
      cumulative := Clip(I128, cumulative + Clip(I128, lastPrice * Min(now - lastTs, U32_MAX)));
      lastTs := now;
      lastPrice := price;
      if snapshots == [] || now >= AddU64(lastSnapshotTs, TWAP_SNAPSHOT_INTERVAL_SECS) {
        snapshots := snapshots + [PriceObservation(now, cumulative)];
        ghost var grown := snapshots;
        while |snapshots| > TWAP_MAX_SNAPSHOTS
          invariant |snapshots| <= |grown| && snapshots == grown[|grown| - |snapshots|..]
          invariant |snapshots| == |grown| || |snapshots| >= TWAP_MAX_SNAPSHOTS
          invariant lastTs == now && lastPrice == price && lastSnapshotTs == old(lastSnapshotTs)
          invariant cumulative == grown[|grown| - 1].cum
          decreases |snapshots|
        {
          snapshots := snapshots[1..];
        }
        lastSnapshotTs := now;
      }
    }

    method TwapPrice(now: int) returns (r: Option<int>)
      ensures r == Twap(State(), now)
    {
      if lastPrice <= 0 || |snapshots| < 2 {
        return None;
      }
      var elapsed := Min(SubU64(now, lastTs), U32_MAX);
      var cumNow := Clip(I128, cumulative + Clip(I128, lastPrice * elapsed));
      var cutoff := SubU64(now, TWAP_WINDOW_SECS);
      var startIdx := |snapshots| - 1;
      for i := 0 to |snapshots|
        invariant startIdx == |snapshots| - 1
        invariant forall j | 0 <= j < i :: snapshots[j].ts < cutoff
      {
        if snapshots[i].ts >= cutoff {
          startIdx := i;
          break;
        }
      }
      StartIsUnique(snapshots, cutoff, startIdx, StartIndex(snapshots, cutoff));
      var start := snapshots[startIdx];
      var span := SubU64(now, start.ts);
      if span < TWAP_MIN_SPAN_SECS {
        return None;
      }
      var delta := cumNow - start.cum;
      if delta <= 0 {
        return None;
      }
      return Some(delta / span);
    }

    method ResolvePrice(a: Answers, now: int) returns (r: Option<int>)
      modifies this
      ensures (r, State()) == Resolve(old(State()), a, now)
    {
      if a.primary.Some? && ValidAnswer(a.primary.value.price, a.primary.value.ts, now) {
        RecordObservation(a.primary.value.price, now);
        return Some(a.primary.value.price);
      }
      if a.secondary.Some? && ValidAnswer(a.secondary.value.price, a.secondary.value.ts, now) {
        RecordObservation(a.secondary.value.price, now);
        return Some(a.secondary.value.price);
      }
      r := TwapPrice(now);
    }
  }

  lemma {:induction false} StartIsUnique(snaps: seq<PriceObservation>, cutoff: int, i: int, j: int)
    requires IsStart(snaps, cutoff, i) && IsStart(snaps, cutoff, j)
    ensures i == j
  {
  }
}
