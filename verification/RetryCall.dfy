/** The same-provider retry loop of feral-core/agents/llm_failover.py. */
module RetryCall {
  import opened Prelude

  const RETRY_AFTER_MAX_INLINE_SLEEP := 5.0
  const MAX_RETRIES := 3
  const RETRY_DELAYS: seq<real> := [1.0, 2.0, 4.0]

  /** What one attempt meets: a reply, or an exception, with the `Retry-After` hint it carries. */
  datatype Answer = Reply | Failure(retriable: bool, retryAfter: Option<real>)

  /** How the loop ends: the last attempt's reply, its exception, or a failed lookup in an empty list of delays. */
  datatype Outcome = Returned | Raised | NoDelayGiven

  function Allowed(maxRetries: Option<int>): nat {
    if maxRetries.None? then MAX_RETRIES else if maxRetries.value < 1 then 1 else maxRetries.value
  }

  /** The last delay serves for all later attempts. */
  function BaseDelay(delays: seq<real>, attempt: nat): real
    requires delays != []
  {
    if attempt < |delays| then delays[attempt] else delays[|delays| - 1]
  }

  /** Seconds slept after a failed attempt; the hint can only lengthen the base delay. */
  function SleepAfter(delays: seq<real>, attempt: nat, a: Answer): real
    requires delays != [] && a.Failure?
  {
    var base := BaseDelay(delays, attempt);
    if a.retryAfter.Some? && a.retryAfter.value > base then a.retryAfter.value else base
  }

  /** The attempt failed in a way worth waiting for: retriable, and not asking for more than five seconds. */
  predicate MayRetry(a: Answer) {
    a.Failure? && a.retriable && (a.retryAfter.Some? ==> a.retryAfter.value <= 5.0)
  }

  /** The sleep is the larger of the delay and the hint, if there is one. */
  predicate IsLarger(sleep: real, delay: real, hint: Option<real>) {
    sleep >= delay && (hint.Some? ==> sleep >= hint.value) && (sleep == delay || hint == Some(sleep))
  }

  /** Attempts up to `last` all failed in a way worth waiting for, and these are the sleeps after them. */
  ghost predicate Waited(answers: nat -> Answer, delays: seq<real>, last: nat, slept: seq<real>) {
    && |slept| == last
    && (last > 0 ==> delays != [])
    && forall i :: 0 <= i < last ==>
         && MayRetry(answers(i))
         && IsLarger(slept[i], if i < |delays| then delays[i] else delays[|delays| - 1], answers(i).retryAfter)
  }

  /** `_retry_llm_call`: `last` is the attempt that ends the loop. */
  method RetryLlmCall(answers: nat -> Answer, maxRetries: Option<int>, delays: seq<real>)
    returns (outcome: Outcome, last: nat, slept: seq<real>)
    ensures last == 0 || (match maxRetries case None => last < 3 case Some(n) => last < n)
    ensures Waited(answers, delays, last, slept)
    ensures outcome == Returned <==> answers(last).Reply?
    ensures outcome == NoDelayGiven <==>
              && answers(last).Failure? && answers(last).retriable && delays == []
              && (match maxRetries case None => last + 1 < 3 case Some(n) => last + 1 < n)
    ensures outcome == Raised ==>
              || !MayRetry(answers(last))
              || !(match maxRetries case None => last + 1 < 3 case Some(n) => last + 1 < n)
  {
    var n := Allowed(maxRetries);
    outcome, last, slept := Raised, 0, [];
    for attempt := 0 to n
      invariant Waited(answers, delays, attempt, slept)
      invariant attempt < n
    {
      var a := answers(attempt);
      if a.Reply? {
        return Returned, attempt, slept;
      }
      if !a.retriable || attempt == n - 1 {
        return Raised, attempt, slept;
      }
      if delays == [] {
        return NoDelayGiven, attempt, slept;
      }
      if a.retryAfter.Some? && a.retryAfter.value > RETRY_AFTER_MAX_INLINE_SLEEP {
        return Raised, attempt, slept;
      }
      slept := slept + [SleepAfter(delays, attempt, a)];
      assert IsLarger(slept[attempt], BaseDelay(delays, attempt), a.retryAfter);
    }
    assert false;
  }

  function Total(slept: seq<real>): real {
    if slept == [] then 0.0 else Total(slept[..|slept| - 1]) + slept[|slept| - 1]
  }

  /** The total of some sleeps is that of the first ones and that of the others; one alone is its own total. */
  lemma {:induction false} TotalAddsUp(a: seq<real>, b: seq<real>)
    ensures Total(a + b) == Total(a) + Total(b)
    ensures |a| == 1 ==> Total(a) == a[0]
    decreases |b|
  {
    if b == [] {
      assert a + b == a;
    } else {
      var n := |b| - 1;
      assert (a + b)[..|a| + n] == a + b[..n];
      TotalAddsUp(a, b[..n]);
    }
  }

  lemma {:induction false} SleepIsCapped(sleep: real, delay: real, a: Answer, cap: real)
    requires MayRetry(a) && IsLarger(sleep, delay, a.retryAfter) && delay <= cap && cap >= 5.0
    ensures sleep <= cap
  {
  }

  function Times(n: nat, cap: real): real {
    n as real * cap
  }

  lemma {:induction false} OneMoreCap(n: nat, cap: real)
    ensures Times(n + 1, cap) == Times(n, cap) + cap && Times(0, cap) == 0.0
  {
    assert (n + 1) as real == n as real + 1.0;
  }

  lemma {:induction false} SleepIsWithin(answers: nat -> Answer, delays: seq<real>, last: nat, slept: seq<real>,
                                         cap: real)
    requires Waited(answers, delays, last, slept)
    requires cap >= 5.0 && forall i :: 0 <= i < |delays| ==> delays[i] <= cap
    ensures Total(slept) <= Times(last, cap)
    decreases last
  {
    hide IsLarger, MayRetry, Times;
    OneMoreCap(if last > 0 then last - 1 else 0, cap);
    if last > 0 {
      var front := slept[..last - 1];
      assert Waited(answers, delays, last - 1, front);
      SleepIsWithin(answers, delays, last - 1, front, cap);
      var delay := if last - 1 < |delays| then delays[last - 1] else delays[|delays| - 1];
      SleepIsCapped(slept[last - 1], delay, answers(last - 1), cap);
      hide Waited;
      assert Total(slept) == Total(front) + slept[last - 1];
    }
  }

  /** No sleep is longer than the inline cap and the longest configured delay. */
  lemma {:induction false} SleepIsBounded(answers: nat -> Answer, delays: seq<real>, last: nat, slept: seq<real>,
                                          cap: real)
    requires Waited(answers, delays, last, slept)
    requires cap >= 5.0 && forall i :: 0 <= i < |delays| ==> delays[i] <= cap
    ensures Total(slept) <= last as real * cap
  {
    SleepIsWithin(answers, delays, last, slept, cap);
  }

  /** With the default delays and no hints the sleeps are one second, two, and then four each. */
  lemma {:induction false} DefaultDelays(answers: nat -> Answer, last: nat, slept: seq<real>, i: nat)
    requires Waited(answers, RETRY_DELAYS, last, slept) && i < last && answers(i).retryAfter.None?
    ensures slept[i] == if i == 0 then 1.0 else if i == 1 then 2.0 else 4.0
  {
    assert IsLarger(slept[i], if i < |RETRY_DELAYS| then RETRY_DELAYS[i] else RETRY_DELAYS[2], None);
  }

  /** With the defaults a call sleeps at most ten seconds in all. */
  lemma {:induction false} DefaultsSleepTenSeconds(answers: nat -> Answer, last: nat, slept: seq<real>)
    requires last < 3 && Waited(answers, RETRY_DELAYS, last, slept)
    ensures Total(slept) <= 10.0
  {
    SleepIsBounded(answers, RETRY_DELAYS, last, slept, 5.0);
  }
}
