/** When the crank tries a round's cleanup again: the backoff and the schedule made from one outcome. */
module Retry {
  import opened Basics
  import opened LowBit

  /** What a cleanup pass counted. */
  datatype Counts = Counts(existing: nat, closed: nat, blockedByRefund: nat)

  datatype RetryOutcome =
    | ParticipantsPending(stats: Counts)
    | LeftTerminalState(status: nat)
    | CloseRoundFailed(message: string)
    | BackgroundError(message: string)

  datatype Reason =
    | WaitingRefunds(blocked: nat)
    | CleanupInProgress(remaining: int)
    | CleanupPending(remaining: int)
    | LeftTerminal(status: nat)
    | CloseFailed(message: string)
    | Background(message: string)

  datatype Update = Update(nextDelay: int, nextAttemptAt: int, nextRetryCount: nat, lastReason: Reason)

  /** `computeCleanupRetryDelay`. */
  function Delay(current: Option<int>, minDelay: int, maxDelay: int, fast: bool): int
  {
    var c := if current.Some? then current.value else minDelay;
    if fast then Min(minDelay, 2) else Min(maxDelay, Max(minDelay, c * 2))
  }

  /** `describeParticipantCleanupRetry`: the reason, and whether to come back fast. */
  function DescribeParticipants(s: Counts): Option<(Reason, bool)>
  {
    var remaining := s.existing - s.closed;
    if remaining <= 0 then None
    else if s.blockedByRefund > 0 then Some((WaitingRefunds(s.blockedByRefund), s.closed > 0))
    else if s.closed > 0 then Some((CleanupInProgress(remaining), true))
    else Some((CleanupPending(remaining), false))
  }

  /** `describeCleanupRetryOutcome`. */
  function Describe(o: RetryOutcome): Option<(Reason, bool)>
  {
    match o
    case ParticipantsPending(stats) => DescribeParticipants(stats)
    case LeftTerminalState(status) => Some((LeftTerminal(status), false))
    case CloseRoundFailed(message) => Some((CloseFailed(message), false))
    case BackgroundError(message) => Some((Background(message), false))
  }

  /** `planCleanupRetryScheduleForOutcome` and `buildCleanupRetryScheduleUpdate`. */
  function Plan(now: int, o: RetryOutcome, minDelay: int, maxDelay: int, current: Option<int>,
                retries: Option<nat>): Option<Update>
  {
    match Describe(o)
    case None => None
    case Some((reason, fast)) =>
      var d := Delay(current, minDelay, maxDelay, fast);
      Some(Update(d, now + d, (if retries.Some? then retries.value else 0) + 1, reason))
  }

  /** What the reason tells: refunds that are waited for, accounts left after a pass that closed some or none, or what
      else went wrong. */
  predicate Explains(o: RetryOutcome, r: Reason)
  {
    match o
    case ParticipantsPending(stats) =>
      if stats.blockedByRefund > 0 then r == WaitingRefunds(stats.blockedByRefund)
      else if stats.closed > 0 then r == CleanupInProgress(stats.existing - stats.closed)
      else r == CleanupPending(stats.existing)
    case LeftTerminalState(status) => r == LeftTerminal(status)
    case CloseRoundFailed(message) => r == CloseFailed(message)
    case BackgroundError(message) => r == Background(message)
  }

  /** A retry is planned unless a pass closed every participant account it found; each attempt is set at now plus the
      delay: the minimum, but at most 2 seconds, after a pass that closed something, and otherwise twice the last delay
      within the limits. The retry is counted and its reason noted. */
  lemma PlanLaw(now: int, o: RetryOutcome, minDelay: int, maxDelay: int, current: Option<int>, retries: Option<nat>)
    requires 0 < minDelay <= maxDelay
    ensures var p := Plan(now, o, minDelay, maxDelay, current, retries);
      && (p.None? <==> o.ParticipantsPending? && o.stats.existing <= o.stats.closed)
      && (p.Some? ==>
            && p.value.nextAttemptAt == now + p.value.nextDelay > now
            && (if o.ParticipantsPending? && o.stats.closed > 0
                then p.value.nextDelay <= minDelay && p.value.nextDelay <= 2 && p.value.nextDelay in {minDelay, 2}
                else
                  var twice := 2 * if current.Some? then current.value else minDelay;
                  && minDelay <= p.value.nextDelay <= maxDelay && p.value.nextDelay in {minDelay, maxDelay, twice}
                  && (p.value.nextDelay == maxDelay || p.value.nextDelay >= twice)
                  && (p.value.nextDelay == minDelay || p.value.nextDelay <= twice))
            && p.value.nextRetryCount == 1 + (if retries.Some? then retries.value else 0)
            && Explains(o, p.value.lastReason))
  {
  }

  // ----- runs of retries -----

  /** The delay after the first `n` of a run of retries that starts at the minimum; `fast[i]` tells the kind of retry `i`. */
  function DelayAfter(fast: seq<bool>, n: nat, minDelay: int, maxDelay: int): int
    requires n <= |fast|
  {
    if n == 0 then minDelay
    else Delay(Some(DelayAfter(fast, n - 1, minDelay, maxDelay)), minDelay, maxDelay, fast[n - 1])
  }

  /** How many slow retries the run ends with. */
  function SlowTail(fast: seq<bool>, n: nat): (k: nat)
    requires n <= |fast|
    ensures k <= n
  {
    if n == 0 || fast[n - 1] then 0 else SlowTail(fast, n - 1) + 1
  }

  /** The delay as a function of the slow tail alone: doubling from the minimum, or from 4 after a fast retry. */
  function ClosedForm(k: nat, afterFast: bool, minDelay: int, maxDelay: int): int
  {
    if !afterFast then Min(maxDelay, minDelay * Pow2(k))
    else if k == 0 then Min(minDelay, 2)
    else Min(maxDelay, Max(minDelay, Min(minDelay, 2) * 2) * Pow2(k - 1))
  }

  /** Every mix of fast and slow retries has this delay. */
  lemma {:induction false} DelayClosedForm(fast: seq<bool>, n: nat, minDelay: int, maxDelay: int)
    requires n <= |fast| && 0 < minDelay <= maxDelay
    ensures var k := SlowTail(fast, n); DelayAfter(fast, n, minDelay, maxDelay) == ClosedForm(k, k < n, minDelay, maxDelay)
  {
    if n > 0 {
      DelayClosedForm(fast, n - 1, minDelay, maxDelay);
      if !fast[n - 1] {
        var k := SlowTail(fast, n - 1);
        if k >= n - 1 {
          Doubled(minDelay, k, minDelay, maxDelay);
        } else if k > 0 {
          Doubled(Max(minDelay, Min(minDelay, 2) * 2), k - 1, minDelay, maxDelay);
        }
      }
    }
  }

  lemma Doubled(base: int, k: nat, minDelay: int, maxDelay: int)
    requires 0 < minDelay <= base && minDelay <= maxDelay
    ensures Min(maxDelay, Max(minDelay, Min(maxDelay, base * Pow2(k)) * 2)) == Min(maxDelay, base * Pow2(k + 1))
  {
    Positive(base, k);
    assert base * Pow2(k + 1) == base * Pow2(k) * 2;
  }

  lemma {:induction false} Positive(base: int, k: nat)
    requires base > 0
    ensures base * Pow2(k) >= base
  {
    if k > 0 {
      Positive(base, k - 1);
      assert base * Pow2(k) == base * Pow2(k - 1) * 2;
    }
  }

  /** `k` slow retries in a row from the minimum wait `min(max, min * 2^k)`. */
  lemma SlowRun(k: nat, minDelay: int, maxDelay: int)
    requires 0 < minDelay <= maxDelay
    ensures DelayAfter(seq(k, _ => false), k, minDelay, maxDelay) == Min(maxDelay, minDelay * Pow2(k))
  {
    var slow := seq(k, _ => false);
    AllSlow(slow, k);
    DelayClosedForm(slow, k, minDelay, maxDelay);
  }

  lemma {:induction false} AllSlow(fast: seq<bool>, n: nat)
    requires n <= |fast| && forall i :: 0 <= i < n ==> !fast[i]
    ensures SlowTail(fast, n) == n
  {
    if n > 0 { AllSlow(fast, n - 1); }
  }
}
