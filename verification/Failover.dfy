/** Which source a price comes from. */
module Failover {
  import opened Arith
  import opened Results
  import opened Oracle
  import opened TwapHistory

  /** An answer that may be used at `now`: positive, at most 60 seconds ahead and at most 300 seconds old. */
  predicate Usable(a: Option<Answer>, now: int) {
    a.Some? && a.value.price > 0 && a.value.ts <= now + 60 && now <= a.value.ts + 300
  }

  /** Answers carry 64-bit times. */
  predicate Timed(a: Option<Answer>) {
    a.Some? ==> 0 <= a.value.ts <= U64_MAX
  }

  lemma {:induction false} UsableIsValid(a: Option<Answer>, now: int)
    requires Timed(a)
    ensures Usable(a, now) <==> a.Some? && ValidAnswer(a.value.price, a.value.ts, now)
  {
  }

  /** The price is the primary answer if it is usable, whatever the secondary says; else the secondary answer if that
      is usable; else the average. A direct answer is recorded at the time of the call, an average is not. */
  lemma {:induction false} FailoverOrder(st: TwapState, primary: Option<Answer>, secondary: Option<Answer>, now: int)
    requires Timed(primary) && Timed(secondary)
    ensures var (price, feed) := Resolve(st, Answers(primary, secondary), now);
            && (Usable(primary, now) ==>
                  && price == Some(primary.value.price)
                  && feed == Observed(st, primary.value.price, now, BUFFER))
            && (!Usable(primary, now) && Usable(secondary, now) ==>
                  && price == Some(secondary.value.price)
                  && feed == Observed(st, secondary.value.price, now, BUFFER))
            && (!Usable(primary, now) && !Usable(secondary, now) ==> price == Twap(st, now) && feed == st)
  {
    UsableIsValid(primary, now);
    UsableIsValid(secondary, now);
  }

  /** What is recorded: the answer is the last price, in force from the time of the call. */
  lemma {:induction false} AnswerIsRecorded(
      hist: seq<Observation>, primary: Option<Answer>, secondary: Option<Answer>, now: int)
    requires Timed(primary) && Timed(secondary)
    ensures var feed := Resolve(Replay(hist, BUFFER), Answers(primary, secondary), now).1;
            feed == Replay(if Usable(primary, now) then hist + [Observation(now, primary.value.price)]
                           else if Usable(secondary, now) then hist + [Observation(now, secondary.value.price)]
                           else hist, BUFFER)
  {
    FailoverOrder(Replay(hist, BUFFER), primary, secondary, now);
    if Usable(primary, now) {
      ReplayNext(hist, Observation(now, primary.value.price), BUFFER);
    } else if Usable(secondary, now) {
      ReplayNext(hist, Observation(now, secondary.value.price), BUFFER);
    }
  }

  /** Two usable answers that differ, an answer too old by a second, and one too far ahead by a second. */
  lemma {:induction false} FailoverByExample(st: TwapState)
    ensures Resolve(st, Answers(Some(Answer(100, 1_000)), Some(Answer(90, 1_000))), 1_000).0 == Some(100)
    ensures Resolve(st, Answers(Some(Answer(100, 699)), Some(Answer(90, 700))), 1_000).0 == Some(90)
    ensures Resolve(st, Answers(Some(Answer(100, 1_061)), Some(Answer(90, 1_060))), 1_000).0 == Some(90)
    ensures Resolve(st, Answers(Some(Answer(0, 1_000)), None), 1_000) == (Twap(st, 1_000), st)
  {
  }
}
