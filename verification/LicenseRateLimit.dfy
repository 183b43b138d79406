/**
The license server's request limiter: a fixed window per license key, opened by the first request after the previous
window has run out.  A fixed window does not bound every hour by its limit; what it does bound
is proved here, with the bound shown to be reached.
*/
module LicenseRateLimit {
  import opened Options

  const HOUR: int := 3_600_000_000_000 // nanoseconds

  datatype Entry = Entry(count: nat, resetAt: int)

  function Limit(tier: string): (n: nat)
    ensures n >= 1
  {
    if tier == "ent" then 10000 else if tier == "pro" then 1000 else 100
  }

  /** One key's window and the times of its admissions so far. */
  datatype Window = Window(entry: Option<Entry>, admitted: seq<int>)

  predicate Opens(w: Window, now: int) {
    w.entry.None? || now > w.entry.value.resetAt
  }

  function Request(limit: nat, w: Window, now: int): Window {
    if Opens(w, now) then Window(Some(Entry(1, now + HOUR)), w.admitted + [now])
    else if w.entry.value.count >= limit then w
    else Window(Some(w.entry.value.(count := w.entry.value.count + 1)), w.admitted + [now])
  }

  /** A request for one key: the limit of the tier it came with, and its time. */
  datatype Call = Call(limit: nat, at: int)

  /** A key's window after these requests. */
  function Served(calls: seq<Call>): Window {
    if calls == [] then NEW
    else Request(calls[|calls| - 1].limit, Served(calls[..|calls| - 1]), calls[|calls| - 1].at)
  }

  lemma ServedMore(calls: seq<Call>, call: Call)
    ensures Served(calls + [call]) == Request(call.limit, Served(calls), call.at)
  {
    assert (calls + [call])[..|calls|] == calls;
  }

  /** The key's entry is the one its requests lead to. */
  ghost predicate Follows(requests: map<string, Entry>, key: string, calls: seq<Call>) {
    (if key in requests then Some(requests[key]) else None) == Served(calls).entry
  }

  class Limiter {
    var requests: map<string, Entry>
    ghost var calls: map<string, seq<Call>> // all requests so far, by key

    ghost function CallsOf(key: string): seq<Call>
      reads this
    {
      if key in calls then calls[key] else []
    }

    ghost predicate Valid()
      reads this
    {
      forall key :: Follows(requests, key, CallsOf(key))
    }

    constructor ()
      ensures Valid() && forall key :: CallsOf(key) == []
    {
      requests, calls := map[], map[];
    }

    method CheckRateLimit(licenseKey: string, tier: string, now: int) returns (ok: bool)
      requires Valid()
      modifies this
      ensures Valid()
      ensures CallsOf(licenseKey) == old(CallsOf(licenseKey)) + [Call(Limit(tier), now)]
      ensures ok <==> Served(CallsOf(licenseKey)).admitted == Served(old(CallsOf(licenseKey))).admitted + [now]
      ensures forall key :: key != licenseKey ==> CallsOf(key) == old(CallsOf(key))
    {
      var limit := if tier == "ent" then 10000 else if tier == "pro" then 1000 else 100;
      ghost var before := CallsOf(licenseKey);
      assert Follows(requests, licenseKey, before);
      ServedMore(before, Call(limit, now));
      calls := calls[licenseKey := before + [Call(limit, now)]];
      if licenseKey !in requests || now > requests[licenseKey].resetAt {
        requests := requests[licenseKey := Entry(1, now + HOUR)];
        ok := true;
      } else {
        var entry := requests[licenseKey];
        ok := entry.count < limit;
        if ok {
          requests := requests[licenseKey := entry.(count := entry.count + 1)];
        }
      }
      assert ok || |Served(before).admitted| < |Served(before).admitted + [now]|;
      forall key ensures Follows(requests, key, CallsOf(key)) {
        assert key != licenseKey ==> Follows(old(requests), key, old(CallsOf(key)));
      }
    }
  }

  // ---------- Runs ----------

  const NEW := Window(None, [])

  function Run(limit: nat, w: Window, calls: seq<int>): Window {
    if calls == [] then w else Request(limit, Run(limit, w, calls[..|calls| - 1]), calls[|calls| - 1])
  }

  /** Admissions at or after t. */
  function Since(times: seq<int>, t: int): nat {
    if times == [] then 0 else Since(times[..|times| - 1], t) + if times[|times| - 1] >= t then 1 else 0
  }

  /** Admissions in the closed interval [s, s + HOUR]. */
  function InHour(times: seq<int>, s: int): nat {
    if times == [] then 0 else InHour(times[..|times| - 1], s) + if s <= times[|times| - 1] <= s + HOUR then 1 else 0
  }

  lemma SinceLater(times: seq<int>, t: int, u: int)
    requires t <= u
    ensures Since(times, u) <= Since(times, t)
  {
    if times != [] { SinceLater(times[..|times| - 1], t, u); }
  }

  lemma SinceNone(times: seq<int>, t: int)
    requires forall i :: 0 <= i < |times| ==> times[i] < t
    ensures Since(times, t) == 0
  {
    if times != [] { SinceNone(times[..|times| - 1], t); }
  }

  lemma HourIsSince(times: seq<int>, s: int)
    ensures InHour(times, s) <= Since(times, s)
  {
    if times != [] { HourIsSince(times[..|times| - 1], s); }
  }

  /** Looking back one window length from the open window's start, the previous window contributes one less than the limit. */
  ghost predicate Bounded(limit: nat, w: Window) {
    match w.entry
    case None => w.admitted == []
    case Some(e) =>
      var start := e.resetAt - HOUR;
      && 1 <= e.count <= limit
      && Since(w.admitted, start + 1) < e.count
      && forall t :: t >= start - HOUR ==> Since(w.admitted, t) < e.count + limit
  }

  lemma RequestBounded(limit: nat, own: nat, w: Window, now: int)
    requires limit >= 1 && own <= limit && Bounded(limit, w)
    requires w.entry.Some? ==> now >= w.entry.value.resetAt - HOUR
    requires forall i :: 0 <= i < |w.admitted| ==> w.admitted[i] <= now
    ensures Bounded(limit, Request(own, w, now))
  {
    var w' := Request(own, w, now);
    if w' != w {
      var start := w'.entry.value.resetAt - HOUR;
      forall t ensures Since(w'.admitted, t) == Since(w.admitted, t) + if now >= t then 1 else 0 { SinceMore(w.admitted, now, t); }
      forall t | t >= start - HOUR ensures Since(w'.admitted, t) < w'.entry.value.count + limit {
        if Opens(w, now) && w.entry.Some? { SinceLater(w.admitted, w.entry.value.resetAt - HOUR + 1, t); }
      }
      if Opens(w, now) { SinceNone(w.admitted, now + 1); }
    }
  }

  ghost predicate Sorted(calls: seq<int>) {
    forall i, j :: 0 <= i <= j < |calls| ==> calls[i] <= calls[j]
  }

  /** Requests in the order of a clock that never goes back, none with a limit above `limit`. */
  ghost predicate Within(limit: nat, calls: seq<Call>) {
    && (forall i, j :: 0 <= i <= j < |calls| ==> calls[i].at <= calls[j].at)
    && (forall i :: 0 <= i < |calls| ==> calls[i].limit <= limit)
  }

  lemma {:induction false} ServedPast(calls: seq<Call>, now: int)
    requires forall i :: 0 <= i < |calls| ==> calls[i].at <= now
    ensures var w := Served(calls);
      && (w.entry.Some? ==> w.entry.value.resetAt - HOUR <= now)
      && forall i :: 0 <= i < |w.admitted| ==> w.admitted[i] <= now
  {
    if calls != [] { ServedPast(calls[..|calls| - 1], now); }
  }

  lemma {:induction false} ServedBounded(limit: nat, calls: seq<Call>)
    requires limit >= 1 && Within(limit, calls)
    ensures Bounded(limit, Served(calls))
  {
    if calls != [] {
      var n := |calls| - 1;
      ServedBounded(limit, calls[..n]);
      ServedPast(calls[..n], calls[n].at);
      RequestBounded(limit, calls[n].limit, Served(calls[..n]), calls[n].at);
    }
  }

  lemma LatestHour(limit: nat, w: Window, s: int, now: int)
    requires Bounded(limit, w) && w.entry.Some? && w.entry.value.resetAt - HOUR <= now <= s + HOUR
    ensures InHour(w.admitted, s) <= 2 * limit - 1
  {
    HourIsSince(w.admitted, s);
    assert s >= w.entry.value.resetAt - HOUR - HOUR;
  }

  /** Whatever tiers a key's requests came with: no interval of one hour holds more than twice the largest limit less one. */
  lemma {:induction false} MixedHourBound(limit: nat, calls: seq<Call>, s: int)
    requires limit >= 1 && Within(limit, calls)
    ensures InHour(Served(calls).admitted, s) <= 2 * limit - 1
  {
    if calls != [] {
      var n, now := |calls| - 1, calls[|calls| - 1].at;
      if s <= now <= s + HOUR {
        ServedBounded(limit, calls);
        ServedPast(calls, now);
        LatestHour(limit, Served(calls), s, now);
      } else {
        MixedHourBound(limit, calls[..n], s);
        OutsideHour(calls[n].limit, Served(calls[..n]), now, s);
      }
    }
  }

  /** The bound for the record of any limiter object, however it was used. */
  lemma LimiterKeepsHourBound(limiter: Limiter, key: string, limit: nat, s: int)
    requires limiter.Valid() && limit >= 1 && Within(limit, limiter.CallsOf(key))
    ensures InHour(Served(limiter.CallsOf(key)).admitted, s) <= 2 * limit - 1
  {
    MixedHourBound(limit, limiter.CallsOf(key), s);
  }

  // ---------- Nothing is refused without need ----------

  /** The open window's count is covered by admissions since it opened. */
  ghost predicate Covered(w: Window) {
    w.entry.Some? ==> w.entry.value.count <= Since(w.admitted, w.entry.value.resetAt - HOUR)
  }

  lemma SinceMore(times: seq<int>, now: int, t: int)
    ensures Since(times + [now], t) == Since(times, t) + if now >= t then 1 else 0
  {
    assert (times + [now])[..|times|] == times;
  }

  lemma RequestCovered(limit: nat, w: Window, now: int)
    requires Covered(w) && (w.entry.Some? ==> now >= w.entry.value.resetAt - HOUR)
    ensures Covered(Request(limit, w, now))
  {
    SinceMore(w.admitted, now, now);
    if w.entry.Some? {
      SinceMore(w.admitted, now, w.entry.value.resetAt - HOUR);
    }
  }

  lemma {:induction false} ServedCovered(limit: nat, calls: seq<Call>)
    requires Within(limit, calls)
    ensures Covered(Served(calls))
  {
    if calls != [] {
      var n := |calls| - 1;
      ServedCovered(limit, calls[..n]);
      ServedPast(calls[..n], calls[n].at);
      RequestCovered(calls[n].limit, Served(calls[..n]), calls[n].at);
    }
  }

  lemma SinceIsHour(times: seq<int>, now: int, t: int)
    requires now - HOUR <= t && forall i :: 0 <= i < |times| ==> times[i] <= now
    ensures Since(times, t) <= InHour(times, now - HOUR)
  {
    if times != [] { SinceIsHour(times[..|times| - 1], now, t); }
  }

  /**
  A request is either admitted or refused, and it is refused only when the hour up to it already holds as many
  admissions of the key as its own limit allows.
  */
  lemma RefusedOnlyWhenFull(limit: nat, calls: seq<Call>, call: Call)
    requires Within(limit, calls) && forall i :: 0 <= i < |calls| ==> calls[i].at <= call.at
    ensures var before, after := Served(calls).admitted, Served(calls + [call]).admitted;
      && (after == before || after == before + [call.at])
      && (after == before ==> InHour(before, call.at - HOUR) >= call.limit)
  {
    ServedMore(calls, call);
    ServedCovered(limit, calls);
    ServedPast(calls, call.at);
    CoveredRefusal(Served(calls), call);
  }

  lemma CoveredRefusal(w: Window, call: Call)
    requires Covered(w) && forall i :: 0 <= i < |w.admitted| ==> w.admitted[i] <= call.at
    ensures var after := Request(call.limit, w, call.at).admitted;
      && (after == w.admitted || after == w.admitted + [call.at])
      && (after == w.admitted ==> InHour(w.admitted, call.at - HOUR) >= call.limit)
  {
    if !Opens(w, call.at) && w.entry.value.count >= call.limit {
      SinceIsHour(w.admitted, call.at, w.entry.value.resetAt - HOUR);
    } else {
      assert |w.admitted + [call.at]| > |w.admitted|;
    }
  }

  function Uniform(limit: nat, times: seq<int>): seq<Call> {
    seq(|times|, i requires 0 <= i < |times| => Call(limit, times[i]))
  }

  lemma {:induction false} RunIsServed(limit: nat, times: seq<int>)
    ensures Run(limit, NEW, times) == Served(Uniform(limit, times))
  {
    if times != [] {
      RunIsServed(limit, times[..|times| - 1]);
      assert Uniform(limit, times)[..|times| - 1] == Uniform(limit, times[..|times| - 1]);
    }
  }

  /** In every run with one tier, no interval of one hour holds more than 2 * limit - 1 admissions of a key. */
  lemma HourBound(limit: nat, calls: seq<int>, s: int)
    requires limit >= 1 && Sorted(calls)
    ensures InHour(Run(limit, NEW, calls).admitted, s) <= 2 * limit - 1
  {
    RunIsServed(limit, calls);
    MixedHourBound(limit, Uniform(limit, calls), s);
  }

  lemma OutsideHour(limit: nat, w: Window, now: int, s: int)
    requires !(s <= now <= s + HOUR)
    ensures InHour(Request(limit, w, now).admitted, s) == InHour(w.admitted, s)
  {
    assert (w.admitted + [now])[..|w.admitted|] == w.admitted;
  }

  /** n requests at the same moment. */
  function Burst(now: int, n: nat): seq<int> { seq(n, _ => now) }

  lemma {:induction false} BurstAdmits(limit: nat, w: Window, now: int, n: nat)
    requires w.entry.Some? && now <= w.entry.value.resetAt && w.entry.value.count + n <= limit
    ensures Run(limit, w, Burst(now, n)) ==
      Window(Some(w.entry.value.(count := w.entry.value.count + n)), w.admitted + Burst(now, n))
  {
    if n > 0 {
      BurstAdmits(limit, w, now, n - 1);
      assert Burst(now, n)[..n - 1] == Burst(now, n - 1);
      assert Burst(now, n) == Burst(now, n - 1) + [now];
    } else {
      assert w.admitted + Burst(now, 0) == w.admitted;
    }
  }

  lemma {:induction false} RunAppend(limit: nat, w: Window, a: seq<int>, b: seq<int>)
    ensures Run(limit, w, a + b) == Run(limit, Run(limit, w, a), b)
    decreases |b|
  {
    if b == [] {
      assert a + b == a;
    } else {
      RunAppend(limit, w, a, b[..|b| - 1]);
      assert (a + b)[..|a + b| - 1] == a + b[..|b| - 1];
    }
  }

  lemma {:induction false} InHourAppend(a: seq<int>, b: seq<int>, s: int)
    ensures InHour(a + b, s) == InHour(a, s) + InHour(b, s)
    decreases |b|
  {
    if b == [] {
      assert a + b == a;
    } else {
      InHourAppend(a, b[..|b| - 1], s);
      assert (a + b)[..|a + b| - 1] == a + b[..|b| - 1];
    }
  }

  lemma {:induction false} InHourBurst(now: int, n: nat, s: int)
    requires s <= now <= s + HOUR
    ensures InHour(Burst(now, n), s) == n
  {
    if n > 0 {
      InHourBurst(now, n - 1, s);
      assert Burst(now, n)[..n - 1] == Burst(now, n - 1);
    }
  }

  /** One request, then the rest of the limit just as the window ends. */
  lemma FirstWindow(limit: nat)
    requires limit >= 2
    ensures Run(limit, NEW, [0] + Burst(HOUR, limit - 1)) == Window(Some(Entry(limit, HOUR)), [0] + Burst(HOUR, limit - 1))
  {
    var first := Window(Some(Entry(1, HOUR)), [0]);
    assert [0][..0] == [];
    assert Run(limit, NEW, []) == NEW;
    assert Run(limit, NEW, [0]) == first;
    RunAppend(limit, NEW, [0], Burst(HOUR, limit - 1));
    BurstAdmits(limit, first, HOUR, limit - 1);
  }

  /** A full window right after. */
  lemma SecondWindow(limit: nat, w: Window)
    requires limit >= 2 && w.entry == Some(Entry(limit, HOUR))
    ensures Run(limit, w, [HOUR + 1] + Burst(HOUR + 1, limit - 1)).admitted == w.admitted + [HOUR + 1] + Burst(HOUR + 1, limit - 1)
  {
    var w1 := Window(Some(Entry(1, HOUR + 1 + HOUR)), w.admitted + [HOUR + 1]);
    assert [HOUR + 1][..0] == [];
    assert Run(limit, w, []) == w;
    assert Run(limit, w, [HOUR + 1]) == w1;
    RunAppend(limit, w, [HOUR + 1], Burst(HOUR + 1, limit - 1));
    BurstAdmits(limit, w1, HOUR + 1, limit - 1);
  }

  lemma CountBoth(limit: nat)
    requires limit >= 2
    ensures InHour([0] + Burst(HOUR, limit - 1) + [HOUR + 1] + Burst(HOUR + 1, limit - 1), HOUR) == 2 * limit - 1
  {
    InHourAppend([0] + Burst(HOUR, limit - 1) + [HOUR + 1], Burst(HOUR + 1, limit - 1), HOUR);
    InHourAppend([0] + Burst(HOUR, limit - 1), [HOUR + 1], HOUR);
    InHourAppend([0], Burst(HOUR, limit - 1), HOUR);
    InHourBurst(HOUR, limit - 1, HOUR);
    InHourBurst(HOUR + 1, limit - 1, HOUR);
    assert [0][..0] == [] && [HOUR + 1][..0] == [];
    assert InHour([], HOUR) == 0;
    assert InHour([0], HOUR) == 0 && InHour([HOUR + 1], HOUR) == 1;
  }

  /** The bound is reached: a limit of requests does not bound an hour, twice the limit less one does. */
  lemma HourBoundIsReached(limit: nat) returns (calls: seq<int>)
    requires limit >= 2
    ensures Sorted(calls) && InHour(Run(limit, NEW, calls).admitted, HOUR) == 2 * limit - 1
  {
    var early, late := [0] + Burst(HOUR, limit - 1), [HOUR + 1] + Burst(HOUR + 1, limit - 1);
    calls := early + late;
    FirstWindow(limit);
    SecondWindow(limit, Run(limit, NEW, early));
    RunAppend(limit, NEW, early, late);
    CountBoth(limit);
    EarlyThenLate(limit);
  }

  lemma EarlyThenLate(limit: nat)
    requires limit >= 2
    ensures Sorted(([0] + Burst(HOUR, limit - 1)) + ([HOUR + 1] + Burst(HOUR + 1, limit - 1)))
  {
    var calls := ([0] + Burst(HOUR, limit - 1)) + ([HOUR + 1] + Burst(HOUR + 1, limit - 1));
    forall i | 0 <= i < |calls| ensures calls[i] == if i == 0 then 0 else if i < limit then HOUR else HOUR + 1 {}
  }

  /** What the limit is named for: never more admissions in an hour than the limit. */
  ghost predicate NeverOverLimit(limit: nat) {
    forall calls, s :: Sorted(calls) ==> InHour(Run(limit, NEW, calls).admitted, s) <= limit
  }

  /** The fixed window keeps that promise for a limit of one only. */
  lemma NeverOverLimitIffOne(limit: nat)
    requires limit >= 1
    ensures NeverOverLimit(limit) <==> limit == 1
  {
    if limit == 1 {
      forall calls, s | Sorted(calls) ensures InHour(Run(limit, NEW, calls).admitted, s) <= limit {
        HourBound(limit, calls, s);
      }
    } else {
      var calls := HourBoundIsReached(limit);
      assert InHour(Run(limit, NEW, calls).admitted, HOUR) > limit;
    }
  }
}
