/**
 * The retry wrapper of core/decorators.py.  `backoff(errors, start, factor,
 * border)` wraps a call so that an exception listed in `errors` is logged,
 * the delay doubles while it is below `border`, the process sleeps for the
 * (new) delay and the call is tried again, with no limit on the number of
 * tries; any other exception escapes at once, and a result is returned as it
 * is.  The delay restarts from `start` on every call of the wrapper.
 *
 * The wrapped call is represented by the sequence of its successive outcomes,
 * and delays are integers (tenths of a second: the source's defaults 0.1 and
 * 10 seconds are 1 and 100).
 */
module Decorators {

  /** What one invocation of the wrapped function did. */
  datatype Attempt<T> = Returned(value: T) | Raised(error: string)

  /**
   * What the wrapper did with a supplied sequence of attempts: returned a
   * value, let an uncaught exception escape, or was still retrying when the
   * supplied attempts ran out.
   */
  datatype Outcome<T> = Return(value: T) | Propagate(error: string) | StillRetrying

  /** The source's defaults, in tenths of a second; its unused `factor` is 2. */
  const DefaultStartSleepTime: int := 1
  const DefaultFactor: int := 2
  const DefaultBorderSleepTime: int := 100

  /** One update of the delay after a caught failure: the literal 2, not `factor`. */
  function NextDelay(delay: int, border: int): (d: int)
    ensures delay >= 0 ==> d >= delay
    ensures delay >= border ==> d == delay
    ensures delay < border ==> d == 2 * delay
  {
    if delay < border then delay * 2 else delay
  }

  /** The delay after `n` caught failures in one call of the wrapper. */
  function DelayAfter(start: int, border: int, n: nat): int
  {
    if n == 0 then start else NextDelay(DelayAfter(start, border, n - 1), border)
  }

  /** The sleeps taken during the first `n` caught failures, in order. */
  function Sleeps(start: int, border: int, n: nat): (s: seq<int>)
    ensures |s| == n
  {
    if n == 0 then [] else Sleeps(start, border, n - 1) + [DelayAfter(start, border, n)]
  }

  /** An attempt that the wrapper catches and retries. */
  predicate Caught<T>(errors: set<string>, a: Attempt<T>)
  {
    a.Raised? && a.error in errors
  }

  /** The index of the first attempt the wrapper does not retry (|attempts| if none). */
  function FirstUncaught<T>(errors: set<string>, attempts: seq<Attempt<T>>): (i: nat)
    ensures i <= |attempts|
    ensures forall j :: 0 <= j < i ==> Caught(errors, attempts[j])
    ensures i < |attempts| ==> !Caught(errors, attempts[i])
  {
    if attempts == [] || !Caught(errors, attempts[0]) then 0
    else 1 + FirstUncaught(errors, attempts[1..])
  }

  /**
   * The wrapper's retry loop run over the successive outcomes of the wrapped
   * call.  It stops at the first attempt it does not catch, having slept once
   * per caught failure before it, with the delays of `Sleeps`.
   */
  method Backoff<T>(errors: set<string>, startSleepTime: int, factor: int, borderSleepTime: int,
                    attempts: seq<Attempt<T>>)
    returns (outcome: Outcome<T>, sleeps: seq<int>)
    ensures var i := FirstUncaught(errors, attempts);
      && sleeps == Sleeps(startSleepTime, borderSleepTime, i)
      && (i == |attempts| ==> outcome == StillRetrying)
      && (i < |attempts| && attempts[i].Returned? ==> outcome == Return(attempts[i].value))
      && (i < |attempts| && attempts[i].Raised? ==> outcome == Propagate(attempts[i].error))
  {
    var delay := startSleepTime;
    var k := 0;
    sleeps := [];
    while k < |attempts|
      invariant 0 <= k <= |attempts|
      invariant forall j :: 0 <= j < k ==> Caught(errors, attempts[j])
      invariant delay == DelayAfter(startSleepTime, borderSleepTime, k)
      invariant sleeps == Sleeps(startSleepTime, borderSleepTime, k)
    {
      match attempts[k]
      case Returned(v) =>
        FirstUncaughtAt(errors, attempts, k);
        return Return(v), sleeps;
      case Raised(e) =>
        if e !in errors {
          FirstUncaughtAt(errors, attempts, k);
          return Propagate(e), sleeps;
        }
        if delay < borderSleepTime {
          delay := delay * 2;
        }
        sleeps := sleeps + [delay];
        k := k + 1;
    }
    FirstUncaughtAt(errors, attempts, k);
    outcome := StillRetrying;
  }

  /** `FirstUncaught` is the first index that is not caught. */
  lemma {:induction false} FirstUncaughtAt<T>(errors: set<string>, attempts: seq<Attempt<T>>, k: nat)
    requires k <= |attempts|
    requires forall j :: 0 <= j < k ==> Caught(errors, attempts[j])
    requires k < |attempts| ==> !Caught(errors, attempts[k])
    ensures FirstUncaught(errors, attempts) == k
  {
    if k > 0 {
      FirstUncaughtAt(errors, attempts[1..], k - 1);
    }
  }

  /** A call that succeeds at once returns its result unchanged, without sleeping. */
  lemma ImmediateSuccess<T>(errors: set<string>, start: int, border: int, v: T, rest: seq<Attempt<T>>)
    ensures FirstUncaught(errors, [Returned(v)] + rest) == 0
    ensures Sleeps(start, border, FirstUncaught(errors, [Returned(v)] + rest)) == []
  {
  }

  /** An exception outside `errors` escapes at its first occurrence, without sleeping. */
  lemma UncaughtEscapes<T>(errors: set<string>, start: int, border: int, e: string, rest: seq<Attempt<T>>)
    requires e !in errors
    ensures FirstUncaught(errors, [Raised(e)] + rest) == 0
    ensures Sleeps(start, border, FirstUncaught(errors, [Raised(e)] + rest)) == []
  {
  }

  /** From a non-negative start the delay never decreases. */
  lemma {:induction false} DelayMonotone(start: int, border: int, m: nat, n: nat)
    requires 0 <= start && m <= n
    ensures start <= DelayAfter(start, border, m) <= DelayAfter(start, border, n)
    decreases n
  {
    if m < n {
      DelayMonotone(start, border, m, n - 1);
    } else if n > 0 {
      DelayMonotone(start, border, 0, n - 1);
    }
  }

  /** The sleeps of one call form a non-decreasing sequence. */
  lemma SleepsNonDecreasing(start: int, border: int, n: nat, i: nat, j: nat)
    requires 0 <= start && i <= j < n
    ensures start <= Sleeps(start, border, n)[i] <= Sleeps(start, border, n)[j]
  {
    SleepsAt(start, border, n, i);
    SleepsAt(start, border, n, j);
    DelayMonotone(start, border, i + 1, j + 1);
  }

  /** The i-th sleep is the delay after i + 1 failures. */
  lemma {:induction false} SleepsAt(start: int, border: int, n: nat, i: nat)
    requires i < n
    ensures Sleeps(start, border, n)[i] == DelayAfter(start, border, i + 1)
  {
    if i < n - 1 {
      SleepsAt(start, border, n - 1, i);
    }
  }

  /**
   * Starting below the border, the delay stays below twice the border;
   * starting at or above it, the delay never changes.
   */
  lemma {:induction false} DelayBounds(start: int, border: int, n: nat)
    requires 0 <= start
    ensures start < border ==> DelayAfter(start, border, n) < 2 * border
    ensures start >= border ==> DelayAfter(start, border, n) == start
  {
    if n > 0 {
      DelayBounds(start, border, n - 1);
    }
  }

  /** The sleep follows the doubling: the first sleep lasts twice the start delay when it is below the border. */
  lemma FirstSleepDoubled(start: int, border: int, n: nat)
    requires 0 < n && start < border
    ensures Sleeps(start, border, n)[0] == 2 * start
  {
    SleepsAt(start, border, n, 0);
  }

  /** With the defaults the sleeps are 0.2 s, 0.4 s, ..., 12.8 s, then 12.8 s for ever. */
  lemma {:induction false} DefaultSchedule(n: nat)
    requires n >= 7
    ensures DelayAfter(DefaultStartSleepTime, DefaultBorderSleepTime, n) == 128
  {
    if n > 7 {
      DefaultSchedule(n - 1);
    }
  }
}
