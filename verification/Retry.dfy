/** Retries of a failing task: claims, the capped exponential backoff, and dead letters. */
module Retry {
  import opened TaskPhase
  import opened Text

  /** backoff is the parsed base duration in nanoseconds, if the text parses. */
  datatype Task = Task(phase: Phase, attempts: int, maxAttempts: int, backoff: Option<int>)

  const DAY_NS := 24 * 3600 * 1_000_000_000

  function Multiplier(exp: nat): (m: nat)
    ensures m >= 1
  {
    if exp == 0 then 1 else 2 * Multiplier(exp - 1)
  }

  function Exponent(attempts: int): (e: nat)
    ensures e <= 10
  {
    if attempts - 1 < 0 then 0 else if attempts - 1 > 10 then 10 else attempts - 1
  }

  function RetryDelay(base: int, attempts: int): int {
    if base <= 0 then 0
    else
      var delay := Wrap(base * Multiplier(Exponent(attempts)));
      if delay > DAY_NS then DAY_NS else delay
  }

  // --------------------------------------------------------------------- delays

  const MAX_BASE := MAX_INT / 1024

  lemma Multipliers()
    ensures Multiplier(10) == 1024
  {
    assert Multiplier(5) == 32;
    assert Multiplier(10) == 2 * 2 * 2 * 2 * 2 * Multiplier(5);
  }

  lemma {:induction false} MultiplierMonotone(a: nat, b: nat)
    requires a <= b
    ensures Multiplier(a) <= Multiplier(b)
    decreases b - a
  {
    if a < b {
      MultiplierMonotone(a, b - 1);
    }
  }

  lemma ScaledMonotone(base: int, a: nat, b: nat)
    requires base >= 0 && a <= b
    ensures base * Multiplier(a) <= base * Multiplier(b)
  {
    MultiplierMonotone(a, b);
    assert base * (Multiplier(b) - Multiplier(a)) >= 0;
  }

  /** The uncapped delay before wrap-around. */
  function Scaled(base: int, exp: nat): int {
    base * Multiplier(exp)
  }

  lemma ScaledDoubles(base: int, exp: nat)
    ensures Scaled(base, 0) == base && Scaled(base, exp + 1) == 2 * Scaled(base, exp)
  {
  }

  lemma NoWrap(base: int, exp: nat)
    requires 0 <= base <= MAX_BASE && exp <= 10
    ensures 0 <= Scaled(base, exp) <= MAX_INT && Wrap(Scaled(base, exp)) == Scaled(base, exp)
  {
    Multipliers();
    ScaledMonotone(base, exp, 10);
    ScaledMonotone(base, 0, exp);
    WrapIdentity(Scaled(base, exp));
  }

  lemma WrapIdentity(n: int)
    requires 0 <= n <= MAX_INT
    ensures Wrap(n) == n
  {
  }

  function Capped(n: int): int {
    if n > DAY_NS then DAY_NS else n
  }

  lemma DelayIsCapped(base: int, attempts: int)
    requires 0 <= base <= MAX_BASE && attempts >= 1
    ensures Scaled(base, Exponent(attempts)) >= 0
    ensures RetryDelay(base, attempts) == Capped(Scaled(base, Exponent(attempts)))
  {
    NoWrap(base, Exponent(attempts));
    if base == 0 {
      assert Scaled(base, Exponent(attempts)) == 0;
    }
  }

  /** Delays stay within a day, never shrink, and double until the cap or the tenth doubling. */
  lemma DelaysGrow(base: int, attempts: int)
    requires 0 <= base <= MAX_BASE && attempts >= 1
    ensures 0 <= RetryDelay(base, attempts) <= RetryDelay(base, attempts + 1) <= DAY_NS
    ensures attempts <= 10 ==> RetryDelay(base, attempts + 1) == Capped(2 * RetryDelay(base, attempts))
    ensures attempts > 10 ==> RetryDelay(base, attempts + 1) == RetryDelay(base, attempts)
    ensures attempts == 1 ==> RetryDelay(base, attempts) == Capped(base)
  {
    DelayIsCapped(base, attempts);
    DelayIsCapped(base, attempts + 1);
    ScaledDoubles(base, Exponent(attempts));
  }

  /** Doubling a base above MAX_BASE reaches the sign bit within ten steps. */
  lemma {:induction false} ReachesSignBit(base: int, e: nat) returns (r: nat)
    requires MAX_BASE < base && e <= 10 && base * Multiplier(e) < TWO_64
    ensures r <= 10 && TWO_63 <= base * Multiplier(r) < TWO_64
    decreases 10 - e
  {
    if base * Multiplier(e) >= TWO_63 {
      r := e;
    } else {
      if e == 10 {
        Multipliers();
        assert false;
      }
      assert base * Multiplier(e + 1) == 2 * (base * Multiplier(e));
      r := ReachesSignBit(base, e + 1);
    }
  }

  /** A larger base overflows at some attempt and yields a negative delay. */
  lemma LargeBaseWraps(base: int) returns (attempts: int)
    requires MAX_BASE < base <= MAX_INT
    ensures attempts >= 1 && RetryDelay(base, attempts) < 0
  {
    var e := ReachesSignBit(base, 0);
    attempts := e + 1;
  }

  /** For 64-bit bases, delays lie in [0, 24h] at every attempt exactly up to MAX_BASE. */
  lemma DelayRangeExact(base: int)
    requires MIN_INT <= base <= MAX_INT
    ensures (forall attempts :: attempts >= 1 ==> 0 <= RetryDelay(base, attempts) <= DAY_NS) <==> base <= MAX_BASE
  {
    if base > MAX_BASE {
      var attempts := LargeBaseWraps(base);
    } else if base > 0 {
      forall attempts | attempts >= 1
        ensures 0 <= RetryDelay(base, attempts) <= DAY_NS
      {
        DelaysGrow(base, attempts);
      }
    }
  }

  // ------------------------------------------------------------------ lifecycle

  /** A due pending task can be claimed; terminal phases and waiting ones cannot. */
  predicate Claimable(t: Task) {
    t.phase.Pending?
  }

  function Claim(t: Task): Task
    requires Claimable(t)
  {
    t.(phase := Running, attempts := t.attempts + 1)
  }

  /** What a failed execution does to the task; the second part is the scheduled delay. */
  function HandleExecutionFailure(t: Task, retryable: bool): (Task, Option<int>) {
    if t.maxAttempts > 0 && t.attempts >= t.maxAttempts && retryable then (t.(phase := DeadLetter), None)
    else if t.maxAttempts > 0 && t.attempts < t.maxAttempts && retryable then
      match t.backoff
      case None => (t.(phase := Failed), None)
      case Some(base) => (t.(phase := Pending), Some(RetryDelay(base, t.attempts)))
    else (t.(phase := Failed), None)
  }

  datatype History = History(task: Task, delays: seq<int>)

  /** One claim followed by a failed execution; a task nobody may claim stays as it is. */
  function Round(h: History, retryable: bool): History {
    if !Claimable(h.task) then h
    else
      var (t, delay) := HandleExecutionFailure(Claim(h.task), retryable);
      History(t, if delay.Some? then h.delays + [delay.value] else h.delays)
  }

  function Rounds(h: History, failures: seq<bool>): History
    decreases |failures|
  {
    if failures == [] then h else Round(Rounds(h, failures[..|failures| - 1]), failures[|failures| - 1])
  }

  predicate AllRetryable(failures: seq<bool>) {
    forall i :: 0 <= i < |failures| ==> failures[i]
  }

  ghost function Delays(base: int, n: nat): seq<int> {
    seq(n, i => RetryDelay(base, i + 1))
  }

  /** After any failures of a fresh task: dead letter exactly after M retryable ones, failed
      exactly if one of the first M was not retryable, pending otherwise; each reschedule
      used the delay of its attempt. */
  lemma {:induction false} FailureHistory(max: int, base: int, failures: seq<bool>)
    requires max > 0
    ensures var h := Rounds(History(Task(Pending, 0, max, Some(base)), []), failures);
            var n := |failures|;
            var executed := if n < max then n else max;
            && h.task.attempts <= max
            && (h.task.phase.DeadLetter? <==> n >= max && AllRetryable(failures[..max]))
            && (h.task.phase.Failed? <==> !AllRetryable(failures[..executed]))
            && (h.task.phase.Pending? <==> n < max && AllRetryable(failures))
            && (h.task.phase.Pending? ==> h.task.attempts == n && h.delays == Delays(base, n))
            && (h.task.phase.DeadLetter? ==> h.task.attempts == max && h.delays == Delays(base, max - 1))
            && h.task.maxAttempts == max && h.task.backoff == Some(base)
    decreases |failures|
  {
    var n := |failures|;
    if n > 0 {
      var init := failures[..n - 1];
      FailureHistory(max, base, init);
      PrefixRetryable(failures, max);
    }
  }

  lemma PrefixRetryable(failures: seq<bool>, max: int)
    requires max > 0 && failures != []
    ensures var n := |failures|;
            var init := failures[..n - 1];
            && (AllRetryable(failures) <==> AllRetryable(init) && failures[n - 1])
            && (n <= max ==> failures[..n] == failures && init[..n - 1] == init)
            && (n > max ==> failures[..max] == init[..max])
  {
  }

  /** Every execution failing retryably: M - 1 reschedules, then a dead letter for good. */
  lemma RescheduledThenDeadLetter(max: int, base: int, n: nat)
    requires 0 < max <= n
    ensures var h := Rounds(History(Task(Pending, 0, max, Some(base)), []), seq(n, _ => true));
            h.task.phase == DeadLetter && h.task.attempts == max && |h.delays| == max - 1
                && h.delays == Delays(base, max - 1)
  {
    FailureHistory(max, base, seq(n, _ => true));
  }
}
