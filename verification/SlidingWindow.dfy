/**
The sidecar's sliding-window rate limiter.

`acquire` keeps the admission times of the last second only.  It is specified against the complete list
of admissions ever made, and the bound is proved for every one-second window of every run.
Times are nanoseconds of a clock that never goes back.
*/
module SlidingWindow {
  const WINDOW: int := 1_000_000_000

  /** The admissions less than one window old at `now`, oldest first. */
  function Recent(times: seq<int>, now: int): seq<int> {
    if times == [] then []
    else
      var last := times[|times| - 1];
      Recent(times[..|times| - 1], now) + if now - last < WINDOW then [last] else []
  }

  /** Dropping what has aged out can be repeated: looking back from `later` nothing dropped at `now` is missed. */
  lemma {:induction false} RecentAgain(times: seq<int>, now: int, later: int)
    requires now <= later
    ensures Recent(Recent(times, now), later) == Recent(times, later)
  {
    if times != [] {
      var n, last := |times| - 1, times[|times| - 1];
      var kept := Recent(times[..n], now);
      RecentAgain(times[..n], now, later);
      if now - last < WINDOW {
        assert (kept + [last])[..|kept|] == kept;
        assert Recent(kept + [last], later) == Recent(kept, later) + if later - last < WINDOW then [last] else [];
      } else {
        assert kept + [] == kept;
      }
    }
  }

  /** The vector's retain call. */
  method Retain(requests: seq<int>, now: int) returns (kept: seq<int>)
    ensures kept == Recent(requests, now)
  {
    kept := [];
    for i := 0 to |requests|
      invariant kept == Recent(requests[..i], now)
    {
      assert requests[..i + 1][..i] == requests[..i];
      if now - requests[i] < WINDOW {
        kept := kept + [requests[i]];
      }
    }
    assert requests[..|requests|] == requests;
  }

  ghost predicate Keeps(max: nat, calls: seq<int>, admissions: seq<int>, requests: seq<int>, clock: int) {
    && admissions == Admissions(max, calls)
    && requests == Recent(admissions, clock)
    && forall i :: 0 <= i < |calls| ==> calls[i] <= clock
  }

  /** What is still retained at `now` decides as the window of all admissions does. */
  lemma RetainedIsWindow(max: nat, calls: seq<int>, admissions: seq<int>, requests: seq<int>, clock: int, now: int)
    requires Keeps(max, calls, admissions, requests, clock) && clock <= now
    ensures Recent(requests, now) == Recent(admissions, now)
    ensures |Recent(admissions, now)| == InWindow(admissions, now - WINDOW + 1)
  {
    assert Recent(requests, now) == Recent(admissions, now) by { RecentAgain(admissions, clock, now); }
    AdmissionsPast(max, calls, now);
    RecentIsWindow(admissions, now);
  }

  /** One acquire, admitted or not. */
  lemma AcquireKeeps(max: nat, calls: seq<int>, admissions: seq<int>, clock: int, now: int)
    requires admissions == Admissions(max, calls) && clock <= now && forall i :: 0 <= i < |calls| ==> calls[i] <= clock
    ensures var kept := Recent(admissions, now);
      if |kept| < max then Keeps(max, calls + [now], admissions + [now], kept + [now], now)
      else Keeps(max, calls + [now], admissions, kept, now)
  {
    AcquireStep(max, calls, now);
    RecentMore(admissions, now);
  }

  class RateLimiter {
    const maxRequests: nat
    var requests: seq<int>
    ghost var calls: seq<int> // the times of all acquires so far
    ghost var admissions: seq<int> // those that were admitted
    ghost var clock: int // time of the latest acquire

    /** The admissions are those of the run so far, and the retained list is exactly their last second. */
    ghost predicate Valid()
      reads this
    {
      Keeps(maxRequests, calls, admissions, requests, clock)
    }

    constructor (max: nat, now: int)
      ensures Valid() && maxRequests == max && calls == [] && clock == now
    {
      maxRequests, requests, calls, admissions, clock := max, [], [], [], now;
    }

    method Acquire(now: int) returns (ok: bool)
      requires Valid() && clock <= now
      modifies this
      ensures Valid() && clock == now && calls == old(calls) + [now]
      ensures ok <==> InWindow(old(admissions), now - WINDOW + 1) < maxRequests
      ensures admissions == if ok then old(admissions) + [now] else old(admissions)
    {
      RetainedIsWindow(maxRequests, calls, admissions, requests, clock, now);
      AcquireKeeps(maxRequests, calls, admissions, clock, now);
      calls := calls + [now];
      requests := Retain(requests, now);
      clock := now;
      if |requests| >= maxRequests {
        return false;
      }
      requests := requests + [now];
      admissions := admissions + [now];
      return true;
    }
  }

  // ---------- Every window of every run ----------

  /** The admissions after a sequence of acquires at the given times. */
  function Admissions(max: nat, calls: seq<int>): seq<int> {
    if calls == [] then []
    else
      var now, before := calls[|calls| - 1], Admissions(max, calls[..|calls| - 1]);
      if |Recent(before, now)| < max then before + [now] else before
  }

  lemma AcquireStep(max: nat, calls: seq<int>, now: int)
    ensures Admissions(max, calls + [now]) ==
      if |Recent(Admissions(max, calls), now)| < max then Admissions(max, calls) + [now] else Admissions(max, calls)
  {
    assert (calls + [now])[..|calls|] == calls;
  }

  lemma RecentMore(times: seq<int>, now: int)
    ensures Recent(times + [now], now) == Recent(times, now) + [now]
  {
    assert (times + [now])[..|times|] == times;
  }

  /** Admissions within the half-open window that starts at `s`. */
  function InWindow(times: seq<int>, s: int): nat {
    if times == [] then 0
    else InWindow(times[..|times| - 1], s) + if s <= times[|times| - 1] < s + WINDOW then 1 else 0
  }

  lemma {:induction false} AdmissionsPast(max: nat, calls: seq<int>, clock: int)
    requires forall i :: 0 <= i < |calls| ==> calls[i] <= clock
    ensures forall i :: 0 <= i < |Admissions(max, calls)| ==> Admissions(max, calls)[i] <= clock
  {
    if calls != [] { AdmissionsPast(max, calls[..|calls| - 1], clock); }
  }

  /** A window reaching no further than `now` sees at most what is recent at `now`. */
  lemma WindowIsRecent(times: seq<int>, s: int, now: int)
    requires now < s + WINDOW
    ensures InWindow(times, s) <= |Recent(times, now)|
  {
    if times != [] { WindowIsRecent(times[..|times| - 1], s, now); }
  }

  /** In every run, every half-open one-second window contains at most max admissions. */
  lemma {:induction false} WindowBound(max: nat, calls: seq<int>, s: int)
    ensures InWindow(Admissions(max, calls), s) <= max
  {
    if calls != [] {
      var now, earlier := calls[|calls| - 1], calls[..|calls| - 1];
      var before := Admissions(max, earlier);
      WindowBound(max, earlier, s);
      if |Recent(before, now)| < max {
        assert (before + [now])[..|before|] == before;
        if s <= now < s + WINDOW {
          WindowIsRecent(before, s, now);
        }
      }
    }
  }

  /** In particular for the history of any limiter, however it was used. */
  lemma LimiterKeepsBound(limiter: RateLimiter, s: int)
    requires limiter.Valid()
    ensures InWindow(limiter.admissions, s) <= limiter.maxRequests
  {
    WindowBound(limiter.maxRequests, limiter.calls, s);
  }

  /**
  The limiter never refuses without need: a call is turned away only when the admissions of the second before
  it already number max, so admitting it would overfill the window that ends with it.
  */
  lemma RefusedOnlyWhenFull(max: nat, calls: seq<int>, now: int)
    requires forall i :: 0 <= i < |calls| ==> calls[i] <= now
    ensures Admissions(max, calls + [now]) == Admissions(max, calls) <==> InWindow(Admissions(max, calls), now - WINDOW + 1) >= max
    ensures Admissions(max, calls + [now]) == Admissions(max, calls) || Admissions(max, calls + [now]) == Admissions(max, calls) + [now]
  {
    var before := Admissions(max, calls);
    assert (calls + [now])[..|calls|] == calls;
    AdmissionsPast(max, calls, now);
    RecentIsWindow(before, now);
  }

  lemma RecentIsWindow(times: seq<int>, now: int)
    requires forall i :: 0 <= i < |times| ==> times[i] <= now
    ensures |Recent(times, now)| == InWindow(times, now - WINDOW + 1)
  {
    if times != [] { RecentIsWindow(times[..|times| - 1], now); }
  }
}
