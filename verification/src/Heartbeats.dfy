/** Heartbeats of an execution: no 35-second window passes without one. */
module Heartbeats {

  const WINDOW := 35_000_000_000

  predicate Spaced(times: seq<int>) {
    forall i :: 0 <= i < |times| - 1 ==> 0 < times[i + 1] - times[i] <= WINDOW
  }

  /** What is demanded of the times of the heartbeats, in nanoseconds. */
  predicate Accepted(times: seq<int>, started: int, finished: int) {
    && |times| >= 2
    && started <= times[0] <= started + WINDOW
    && finished - WINDOW <= times[|times| - 1] <= finished
    && Spaced(times)
  }

  /** The end of `_check_execution_records`. */
  method CheckHeartbeats(times: seq<int>, started: int, finished: int) returns (ok: bool)
    ensures ok <==> Accepted(times, started, finished)
  {
    if |times| < 2 {
      return false;
    }
    if !(started <= times[0] <= started + WINDOW && finished - WINDOW <= times[|times| - 1] <= finished) {
      return false;
    }
    for i := 0 to |times| - 1
      invariant forall j :: 0 <= j < i ==> 0 < times[j + 1] - times[j] <= WINDOW
    {
      if !(0 < times[i + 1] - times[i] <= WINDOW) {
        return false;
      }
    }
    ok := true;
  }

  /** Every closed window of 35 seconds inside the execution holds a heartbeat. */
  lemma {:induction false} EveryWindowIsHit(times: seq<int>, started: int, finished: int, t: int) returns (i: nat)
    requires Accepted(times, started, finished) && started <= t && t + 35_000_000_000 <= finished
    ensures i < |times| && t <= times[i] <= t + 35_000_000_000
  {
    i := 0;
    while times[i] < t
      invariant i < |times| && times[i] <= t + WINDOW
      decreases |times| - i
    {
      i := i + 1;
    }
  }

  lemma {:induction false} SpanAtMost(times: seq<int>, k: nat)
    requires Spaced(times) && k < |times|
    ensures times[k] - times[0] <= WINDOW * k
    ensures times[k] - times[0] >= k
  {
    if k > 0 {
      SpanAtMost(times, k - 1);
      assert 0 < times[k - 1 + 1] - times[k - 1] <= WINDOW;
    }
  }

  /** With n heartbeats, at least two, the execution took at most 35 (n + 1) seconds, and at least n - 1 nanoseconds. */
  lemma DurationBounded(times: seq<int>, started: int, finished: int)
    requires Accepted(times, started, finished)
    ensures 1 <= |times| - 1 <= finished - started <= 35_000_000_000 * (|times| + 1)
  {
    SpanAtMost(times, |times| - 1);
  }

  /** The bound is met: heartbeats exactly one window apart, and one window from either end. */
  lemma {:induction false} DurationBoundIsTight(n: nat, started: int) returns (times: seq<int>)
    requires n >= 2
    ensures |times| == n && Accepted(times, started, started + WINDOW * (n + 1))
  {
    times := seq(n, i => started + WINDOW * (i + 1));
    forall i | 0 <= i < n - 1 ensures 0 < times[i + 1] - times[i] <= WINDOW {
      assert WINDOW * (i + 2) == WINDOW * (i + 1) + WINDOW;
    }
    assert WINDOW * (n + 1) == WINDOW * n + WINDOW;
  }

  /** So is the lower bound: heartbeats one nanosecond apart, from the start to the end. */
  lemma {:induction false} ShortestIsTight(n: nat, started: int) returns (times: seq<int>)
    requires n >= 2
    ensures |times| == n && Accepted(times, started, started + n - 1)
  {
    times := seq(n, i => started + i);
  }
}
