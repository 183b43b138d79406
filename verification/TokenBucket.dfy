/**
The token-bucket limiter of the AI runtime: one global bucket and one lazily created bucket per user.

A bucket is specified by its history alone, with no mention of tokens: a call is admitted exactly
when admitting it keeps every window that ends with it within capacity + rate * length.  The class
that counts tokens is proved to decide precisely that.  Amounts, rates and times are reals.
*/
module TokenBucketLimiter {
  datatype Config = Config(max: real, rate: real)

  // A history begins with the creation of the bucket, entered as a call that was not admitted.
  datatype Call = Call(at: real, admitted: bool)

  /** Admissions among calls[i..j]. */
  function Count(calls: seq<Call>, i: nat, j: nat): nat
    requires i <= j <= |calls|
  {
    if i == j then 0 else Count(calls, i, j - 1) + if calls[j - 1].admitted then 1 else 0
  }

  /** What the rate pays up to time t; over an interval it pays rate * length (`EarnedOver`). */
  function Earned(c: Config, t: real): real { c.rate * t }

  lemma EarnedOver(c: Config, from: real, until: real)
    ensures Earned(c, until) - Earned(c, from) == c.rate * (until - from)
    ensures c.rate >= 0.0 && from <= until ==> Earned(c, from) <= Earned(c, until)
  {
    if c.rate >= 0.0 && from <= until {
      assert c.rate * (until - from) >= 0.0;
    }
  }

  /** What the window from call i up to `now` could still admit. */
  ghost function Room(c: Config, calls: seq<Call>, i: nat, now: real): real
    requires i < |calls|
  {
    c.max + Earned(c, now) - Earned(c, calls[i].at) - Count(calls, i, |calls|) as real
  }

  /** One more admission at `now` keeps every window ending now within its bound. */
  ghost predicate Fits(c: Config, calls: seq<Call>, now: real) {
    forall n: nat :: Look(c, calls, now, n) ==> c.max >= 1.0 && forall i :: 0 <= i < |calls| ==> Room(c, calls, i, now) >= 1.0
  }

  /**
  Always true.  A definition under this quantifier is not expanded by the verifier where it is only passed along, but
  where `Look` is mentioned for the same history.
  */
  ghost predicate Look(c: Config, calls: seq<Call>, t: real, n: nat) { true }

  // ---------- The token count is the tightest window ----------

  /** `x` is the least room over all windows that start at a recorded call. */
  ghost predicate IsLeastRoom(c: Config, calls: seq<Call>, now: real, x: real) {
    && (forall i :: 0 <= i < |calls| ==> x <= Room(c, calls, i, now))
    && exists i :: 0 <= i < |calls| && x == Room(c, calls, i, now)
  }

  lemma CountPrefix(calls: seq<Call>, more: seq<Call>, i: nat, j: nat)
    requires i <= j <= |calls| && calls <= more
    ensures Count(more, i, j) == Count(calls, i, j)
  {
    if i < j { CountPrefix(calls, more, i, j - 1); }
  }

  lemma RoomAppended(c: Config, calls: seq<Call>, call: Call, i: nat)
    requires i < |calls|
    ensures Room(c, calls + [call], i, call.at) == Room(c, calls, i, call.at) - if call.admitted then 1.0 else 0.0
  {
    CountPrefix(calls, calls + [call], i, |calls|);
  }

  class TokenBucket {
    var tokens: real
    var lastRefill: real
    const cfg: Config // capacity and refill rate
    ghost var calls: seq<Call>

    ghost predicate Valid()
      reads this
    {
      Keeps(cfg, calls, lastRefill, tokens)
    }

    constructor (max: real, rate: real, now: real)
      ensures Valid() && cfg == Config(max, rate) && calls == [Call(now, false)] && lastRefill == now
    {
      tokens, cfg, lastRefill, calls := max, Config(max, rate), now, [Call(now, false)];
      new;
      NewBucketKeeps(cfg, now);
    }

    method Allow(now: real) returns (ok: bool)
      requires Valid() && now >= lastRefill
      modifies this
      ensures Valid() && lastRefill == now
      ensures ok <==> Fits(cfg, old(calls), now)
      ensures calls == old(calls) + [Call(now, ok)]
    {
      CallKeeps(cfg, calls, lastRefill, tokens, now);
      var elapsed := now - lastRefill;
      ghost var level := Refill(cfg, tokens, elapsed);
      lastRefill := now;
      tokens := tokens + elapsed * cfg.rate;
      if tokens > cfg.max {
        tokens := cfg.max;
      }
      assert tokens == level;
      ok := tokens >= 1.0;
      if ok {
        tokens := tokens - 1.0;
      }
      calls := calls + [Call(now, ok)];
    }
  }

  function Refill(c: Config, tokens: real, elapsed: real): real {
    var t := tokens + elapsed * c.rate;
    if t > c.max then c.max else t
  }

  /** The token count is the tightest window's room. */
  ghost predicate Counts(c: Config, calls: seq<Call>, last: real, tokens: real) {
    calls != [] && last == calls[|calls| - 1].at && IsLeastRoom(c, calls, last, tokens)
  }

  /** Refilling and spending decides exactly as the windows do. */
  lemma OneCall(c: Config, calls: seq<Call>, last: real, tokens: real, now: real)
    requires now >= last && Counts(c, calls, last, tokens)
    ensures var level := Refill(c, tokens, now - last);
      && (level >= 1.0 <==> Fits(c, calls, now))
      && Counts(c, calls + [Call(now, level >= 1.0)], now, if level >= 1.0 then level - 1.0 else level)
  {
    Refilled(c, calls, last, tokens, now);
    Decided(c, calls, now, Refill(c, tokens, now - last), Refill(c, tokens, now - last) >= 1.0);
  }

  /** After the refill the token count is the least of the capacity and of every window's room. */
  ghost predicate Level(c: Config, calls: seq<Call>, now: real, x: real) {
    && x <= c.max
    && (forall i :: 0 <= i < |calls| ==> x <= Room(c, calls, i, now))
    && (x == c.max || exists i :: 0 <= i < |calls| && x == Room(c, calls, i, now))
  }

  lemma Refilled(c: Config, calls: seq<Call>, last: real, tokens: real, now: real)
    requires now >= last && Counts(c, calls, last, tokens)
    ensures Level(c, calls, now, Refill(c, tokens, now - last))
  {
    var t := tokens + (now - last) * c.rate;
    EarnedOver(c, last, now);
    assert t == tokens + Earned(c, now) - Earned(c, last);
    Shifted(c, calls, last, now, tokens, t);
    var i :| 0 <= i < |calls| && tokens == Room(c, calls, i, last);
    assert t == Room(c, calls, i, now);
  }

  lemma Shifted(c: Config, calls: seq<Call>, last: real, now: real, x: real, y: real)
    requires y == x + Earned(c, now) - Earned(c, last)
    ensures forall i :: 0 <= i < |calls| ==> Room(c, calls, i, now) - y == Room(c, calls, i, last) - x
  {
  }

  lemma Decided(c: Config, calls: seq<Call>, now: real, level: real, ok: bool)
    requires Level(c, calls, now, level) && ok == (level >= 1.0)
    ensures ok <==> Fits(c, calls, now)
    ensures IsLeastRoom(c, calls + [Call(now, ok)], now, if ok then level - 1.0 else level)
  {
    assert Look(c, calls, now, 0);
    var calls', x := calls + [Call(now, ok)], if ok then level - 1.0 else level;
    forall i | 0 <= i < |calls| ensures Room(c, calls', i, now) == Room(c, calls, i, now) - level + x {
      RoomAppended(c, calls, Call(now, ok), i);
    }
    var n := |calls|;
    assert Count(calls', n, n) == 0 && Count(calls', n, n + 1) == if ok then 1 else 0;
    assert Room(c, calls', n, now) == c.max - level + x;
    if level != c.max {
      var i :| 0 <= i < |calls| && level == Room(c, calls, i, now);
      assert x == Room(c, calls', i, now);
    }
  }

  // ---------- Bounds over every interval ----------

  ghost predicate NonDecreasing(calls: seq<Call>) {
    forall i, j :: 0 <= i <= j < |calls| ==> calls[i].at <= calls[j].at
  }

  /** A history as a bucket produces it: its creation, then a non-decreasing clock, each call admitted exactly when it fits. */
  ghost predicate Decisive(c: Config, calls: seq<Call>) {
    if |calls| <= 1 then |calls| == 1 && !calls[0].admitted
    else
      var n := |calls| - 1;
      && Decisive(c, calls[..n])
      && calls[n - 1].at <= calls[n].at
      && (calls[n].admitted <==> Fits(c, calls[..n], calls[n].at))
  }

  lemma DecisiveSorted(c: Config, calls: seq<Call>)
    requires Decisive(c, calls)
    ensures NonDecreasing(calls)
  {
    if |calls| > 1 { DecisiveSorted(c, calls[..|calls| - 1]); }
  }

  /** Admissions at a time within [from, until]. */
  function Within(calls: seq<Call>, from: real, until: real): nat {
    if calls == [] then 0
    else
      var last := calls[|calls| - 1];
      Within(calls[..|calls| - 1], from, until) + if last.admitted && from <= last.at <= until then 1 else 0
  }

  /** On a sorted history the admissions since `from` are those of a suffix, which starts at or after `from`. */
  lemma WithinIsSuffix(calls: seq<Call>, from: real, until: real) returns (i: nat)
    requires NonDecreasing(calls) && forall k :: 0 <= k < |calls| ==> calls[k].at <= until
    ensures i <= |calls| && Within(calls, from, until) == Count(calls, i, |calls|)
    ensures i < |calls| ==> from <= calls[i].at
    ensures i == |calls| ==> forall k :: 0 <= k < |calls| ==> calls[k].at < from
  {
    if calls == [] {
      i := 0;
    } else {
      var n := |calls| - 1;
      i := WithinIsSuffix(calls[..n], from, until);
      if i == n && calls[n].at < from {
        i := n + 1;
      } else {
        CountPrefix(calls[..n], calls, i, n);
      }
    }
  }

  /**
  Over every run with a non-decreasing clock and every interval [from, until], a bucket admits at most
  capacity + rate * (until - from) calls.
  */
  lemma {:induction false} IntervalBound(c: Config, calls: seq<Call>, from: real, until: real)
    requires Decisive(c, calls) && c.max >= 0.0 && c.rate >= 0.0 && from <= until
    ensures Within(calls, from, until) as real <= c.max + c.rate * (until - from)
    decreases |calls|
  {
    EarnedOver(c, from, until);
    var n := |calls| - 1;
    var before, last := calls[..n], calls[n];
    if n == 0 {
      assert Within(before, from, until) == 0;
    } else {
      if last.admitted && from <= last.at <= until {
        DecisiveSorted(c, before);
        AdmittedBound(c, before, last.at, from, until);
      } else {
        IntervalBound(c, before, from, until);
      }
    }
  }

  /** The bound holds for every history and every interval of a bucket of this kind. */
  ghost predicate AlwaysBounded(c: Config) {
    forall calls, from, until :: Decisive(c, calls) && from <= until ==> IsBounded(c, calls, from, until)
  }

  ghost predicate IsBounded(c: Config, calls: seq<Call>, from: real, until: real) {
    Within(calls, from, until) as real <= c.max + c.rate * (until - from)
  }

  /** It does exactly when neither capacity nor rate is negative: otherwise it is below zero for some interval. */
  lemma BoundedIffNonNegative(c: Config)
    ensures AlwaysBounded(c) <==> c.max >= 0.0 && c.rate >= 0.0
  {
    if c.max >= 0.0 && c.rate >= 0.0 {
      forall calls, from, until | Decisive(c, calls) && from <= until ensures IsBounded(c, calls, from, until) {
        IntervalBound(c, calls, from, until);
      }
    } else {
      var calls := [Call(0.0, false)];
      assert calls[..0] == [] && Within(calls, 0.0, 0.0) == 0;
      assert Decisive(c, calls);
      if c.max < 0.0 {
        assert c.rate * (0.0 - 0.0) == 0.0;
        assert !IsBounded(c, calls, 0.0, 0.0);
      } else {
        var until := (c.max + 1.0) / -c.rate;
        assert c.rate * (until - 0.0) == -(c.max + 1.0);
        assert !IsBounded(c, calls, 0.0, until);
      }
    }
  }

  lemma AdmittedBound(c: Config, before: seq<Call>, at: real, from: real, until: real)
    requires NonDecreasing(before) && forall k :: 0 <= k < |before| ==> before[k].at <= at
    requires Fits(c, before, at) && c.rate >= 0.0 && from <= at <= until
    ensures Within(before, from, until) as real + 1.0 <= c.max + Earned(c, until) - Earned(c, from)
  {
    assert Look(c, before, at, 0);
    WithinCapped(before, from, at, until);
    var i := WithinIsSuffix(before, from, at);
    EarnedOver(c, at, until);
    if i < |before| {
      EarnedOver(c, from, before[i].at);
      assert Room(c, before, i, at) >= 1.0;
    } else {
      EarnedOver(c, from, at);
    }
  }

  lemma WithinCapped(calls: seq<Call>, from: real, cap: real, until: real)
    requires cap <= until && forall k :: 0 <= k < |calls| ==> calls[k].at <= cap
    ensures Within(calls, from, until) == Within(calls, from, cap)
  {
    if calls != [] { WithinCapped(calls[..|calls| - 1], from, cap, until); }
  }

  lemma DecisiveAppend(c: Config, calls: seq<Call>, call: Call)
    requires Decisive(c, calls) && calls[|calls| - 1].at <= call.at
    requires call.admitted <==> Fits(c, calls, call.at)
    ensures Decisive(c, calls + [call])
  {
    assert (calls + [call])[..|calls|] == calls;
  }

  // ---------- What a bucket object keeps ----------

  /** The token count and the whole history are those of the specification. */
  ghost predicate Keeps(c: Config, calls: seq<Call>, last: real, tokens: real) {
    forall n: nat :: Look(c, calls, tokens, n) ==> Decisive(c, calls) && Counts(c, calls, last, tokens)
  }

  lemma NewBucketKeeps(c: Config, now: real)
    ensures Keeps(c, [Call(now, false)], now, c.max)
  {
    var calls := [Call(now, false)];
    assert Count(calls, 0, 1) == Count(calls, 0, 0) == 0;
    assert Room(c, calls, 0, now) == c.max;
  }

  lemma CallKeeps(c: Config, calls: seq<Call>, last: real, tokens: real, now: real)
    requires Keeps(c, calls, last, tokens) && now >= last
    ensures var level := Refill(c, tokens, now - last);
      && (level >= 1.0 <==> Fits(c, calls, now))
      && Keeps(c, calls + [Call(now, level >= 1.0)], now, if level >= 1.0 then level - 1.0 else level)
  {
    assert Look(c, calls, tokens, 0);
    OneCall(c, calls, last, tokens, now);
    DecisiveAppend(c, calls, Call(now, Fits(c, calls, now)));
  }

  lemma KeepsDecisive(c: Config, calls: seq<Call>, last: real, tokens: real)
    requires Keeps(c, calls, last, tokens)
    ensures Decisive(c, calls)
  {
    assert Look(c, calls, tokens, 0);
  }

  /** The bound holds for any bucket object, however it was used. */
  lemma BucketKeepsBound(b: TokenBucket, from: real, until: real)
    requires b.Valid() && from <= until && b.cfg.max >= 0.0 && b.cfg.rate >= 0.0
    ensures IsBounded(b.cfg, b.calls, from, until)
  {
    KeepsDecisive(b.cfg, b.calls, b.lastRefill, b.tokens);
    IntervalBound(b.cfg, b.calls, from, until);
  }

  // ---------- Two levels, with calls interleaved between the two locks ----------

  /** A call that was granted a global token and has not reached its user's bucket yet. */
  datatype Flight = Flight(user: string, enteredAt: real)

  /** A call its user's bucket has decided. */
  datatype Served = Served(user: string, enteredAt: real, at: real, admitted: bool)

  datatype Limiter = Limiter(
    global: seq<Call>, // history of the global bucket
    flights: seq<Flight>,
    born: map<string, real>, // when each user's bucket was created
    log: seq<Served>,
    clock: real)

  function NewLimiter(now: real): Limiter { Limiter([Call(now, false)], [], map[], [], now) }

  datatype Step = Enter(user: string, now: real) | Create(user: string, now: real) | Finish(flight: nat, now: real)

  /** The calls one user's bucket has decided. */
  function UserCalls(log: seq<Served>, user: string): seq<Call> {
    if log == [] then []
    else
      var last := log[|log| - 1];
      UserCalls(log[..|log| - 1], user) + if last.user == user then [Call(last.at, last.admitted)] else []
  }

  /** The history of one user's bucket. */
  function History(l: Limiter, user: string): seq<Call>
    requires user in l.born
  {
    [Call(l.born[user], false)] + UserCalls(l.log, user)
  }

  ghost predicate Enabled(l: Limiter, s: Step) {
    l.clock <= s.now && (s.Finish? ==> s.flight < |l.flights| && l.flights[s.flight].user in l.born)
  }

  ghost function Next(g: Config, u: Config, l: Limiter, s: Step): Limiter
    requires Enabled(l, s)
  {
    match s
    case Enter(user, now) =>
      var ok := Fits(g, l.global, now);
      l.(global := l.global + [Call(now, ok)], clock := now,
         flights := if ok then l.flights + [Flight(user, now)] else l.flights)
    case Create(user, now) =>
      l.(born := if user in l.born then l.born else l.born[user := now], clock := now)
    case Finish(i, now) =>
      var f := l.flights[i];
      l.(flights := l.flights[..i] + l.flights[i + 1..], clock := now,
         log := l.log + [Served(f.user, f.enteredAt, now, Fits(u, History(l, f.user), now))])
  }

  function Inside(t: real, from: real, until: real): nat { if from <= t <= until then 1 else 0 }

  /** Decided calls, undecided calls and admissions, by the time the call entered the limiter. */
  function ServedIn(log: seq<Served>, from: real, until: real): nat {
    if log == [] then 0 else ServedIn(log[..|log| - 1], from, until) + Inside(log[|log| - 1].enteredAt, from, until)
  }

  function FlightsIn(fs: seq<Flight>, from: real, until: real): nat {
    if fs == [] then 0 else FlightsIn(fs[..|fs| - 1], from, until) + Inside(fs[|fs| - 1].enteredAt, from, until)
  }

  function AdmittedIn(log: seq<Served>, from: real, until: real): nat {
    if log == [] then 0
    else
      var last := log[|log| - 1];
      AdmittedIn(log[..|log| - 1], from, until) + if last.admitted then Inside(last.enteredAt, from, until) else 0
  }

  ghost predicate TogetherBounded(g: Config, log: seq<Served>, from: real, until: real) {
    AdmittedIn(log, from, until) as real <= g.max + g.rate * (until - from)
  }

  /** Every global token spent is a decided call or one still under way, in every interval. */
  ghost predicate Conserved(l: Limiter) {
    forall from, until :: Within(l.global, from, until) == ServedIn(l.log, from, until) + FlightsIn(l.flights, from, until)
  }

  ghost predicate UserSound(u: Config, l: Limiter, user: string) {
    if user in l.born then l.born[user] <= l.clock && Decisive(u, History(l, user)) else UserCalls(l.log, user) == []
  }

  ghost predicate Sound(g: Config, u: Config, l: Limiter) {
    && Decisive(g, l.global)
    && (forall k :: 0 <= k < |l.global| ==> l.global[k].at <= l.clock)
    && (forall k :: 0 <= k < |l.log| ==> l.log[k].at <= l.clock)
    && (forall user :: UserSound(u, l, user))
    && Conserved(l)
    && Count(l.global, 0, |l.global|) == |l.log| + |l.flights|
  }

  lemma UserCallsPast(log: seq<Served>, user: string, clock: real)
    requires forall k :: 0 <= k < |log| ==> log[k].at <= clock
    ensures forall k :: 0 <= k < |UserCalls(log, user)| ==> UserCalls(log, user)[k].at <= clock
  {
    if log != [] { UserCallsPast(log[..|log| - 1], user, clock); }
  }

  lemma UserCallsAppend(log: seq<Served>, e: Served)
    ensures forall u :: UserCalls(log + [e], u) == if u == e.user then UserCalls(log, u) + [Call(e.at, e.admitted)] else UserCalls(log, u)
  {
    assert (log + [e])[..|log|] == log;
  }

  lemma FlightRemoved(fs: seq<Flight>, i: nat, from: real, until: real)
    requires i < |fs|
    ensures FlightsIn(fs, from, until) == FlightsIn(fs[..i] + fs[i + 1..], from, until) + Inside(fs[i].enteredAt, from, until)
  {
    var n := |fs| - 1;
    var rest := fs[..i] + fs[i + 1..];
    if i == n {
      assert rest == fs[..n];
    } else {
      FlightRemoved(fs[..n], i, from, until);
      assert rest[..|rest| - 1] == fs[..n][..i] + fs[..n][i + 1..];
    }
  }

  lemma EnterSound(g: Config, u: Config, l: Limiter, user: string, now: real)
    requires Sound(g, u, l) && l.clock <= now
    ensures Sound(g, u, Next(g, u, l, Enter(user, now)))
  {
    var l' := Next(g, u, l, Enter(user, now));
    var call := Call(now, Fits(g, l.global, now));
    DecisiveAppend(g, l.global, call);
    CountPrefix(l.global, l'.global, 0, |l.global|);
    forall v ensures UserSound(u, l', v) { assert UserSound(u, l, v); }
    forall from, until
      ensures Within(l'.global, from, until) == ServedIn(l'.log, from, until) + FlightsIn(l'.flights, from, until)
    {
      assert l'.global[..|l.global|] == l.global;
      assert Within(l.global, from, until) == ServedIn(l.log, from, until) + FlightsIn(l.flights, from, until);
      if call.admitted { assert l'.flights[..|l.flights|] == l.flights; }
    }
  }

  lemma CreateSound(g: Config, u: Config, l: Limiter, user: string, now: real)
    requires Sound(g, u, l) && l.clock <= now
    ensures Sound(g, u, Next(g, u, l, Create(user, now)))
  {
    var l' := Next(g, u, l, Create(user, now));
    forall v ensures UserSound(u, l', v) {
      assert UserSound(u, l, v);
      if v == user && v !in l.born { assert History(l', v) == [Call(now, false)]; }
    }
    assert l'.global == l.global && l'.log == l.log && l'.flights == l.flights;
  }

  lemma FinishSound(g: Config, u: Config, l: Limiter, i: nat, now: real)
    requires Sound(g, u, l) && Enabled(l, Finish(i, now))
    ensures Sound(g, u, Next(g, u, l, Finish(i, now)))
  {
    var l' := Next(g, u, l, Finish(i, now));
    forall user ensures UserSound(u, l', user) { FinishUserSound(g, u, l, i, now, user); }
    assert l'.log[..|l.log|] == l.log;
    forall from, until
      ensures Within(l'.global, from, until) == ServedIn(l'.log, from, until) + FlightsIn(l'.flights, from, until)
    {
      FlightRemoved(l.flights, i, from, until);
      assert Within(l.global, from, until) == ServedIn(l.log, from, until) + FlightsIn(l.flights, from, until);
    }
  }

  lemma FinishUserSound(g: Config, u: Config, l: Limiter, i: nat, now: real, user: string)
    requires Sound(g, u, l) && Enabled(l, Finish(i, now))
    ensures UserSound(u, Next(g, u, l, Finish(i, now)), user)
  {
    var l' := Next(g, u, l, Finish(i, now));
    var entry := l'.log[|l.log|];
    assert UserSound(u, l, user);
    UserCallsAppend(l.log, entry);
    if user == entry.user {
      UserCallsPast(l.log, user, l.clock);
      assert History(l', user) == History(l, user) + [Call(now, entry.admitted)];
      DecisiveAppend(u, History(l, user), Call(now, entry.admitted));
    }
  }

  /** The state a fresh limiter reaches by these steps. */
  ghost function Run(g: Config, u: Config, start: real, steps: seq<Step>): Limiter
    requires Feasible(g, u, start, steps)
    decreases |steps|, 1
  {
    if steps == [] then NewLimiter(start)
    else Next(g, u, Run(g, u, start, steps[..|steps| - 1]), steps[|steps| - 1])
  }

  /** Every step is enabled when it is taken. */
  ghost predicate Feasible(g: Config, u: Config, start: real, steps: seq<Step>)
    decreases |steps|, 0
  {
    steps == [] ||
    (Feasible(g, u, start, steps[..|steps| - 1]) && Enabled(Run(g, u, start, steps[..|steps| - 1]), steps[|steps| - 1]))
  }

  lemma StepSound(g: Config, u: Config, l: Limiter, s: Step)
    requires Sound(g, u, l) && Enabled(l, s)
    ensures Sound(g, u, Next(g, u, l, s))
  {
    match s
    case Enter(user, now) => EnterSound(g, u, l, user, now);
    case Create(user, now) => CreateSound(g, u, l, user, now);
    case Finish(i, now) => FinishSound(g, u, l, i, now);
  }

  lemma {:induction false} RunSound(g: Config, u: Config, start: real, steps: seq<Step>)
    requires Feasible(g, u, start, steps)
    ensures Sound(g, u, Run(g, u, start, steps))
    decreases |steps|
  {
    if steps == [] {
      NewLimiterSound(g, u, start);
    } else {
      RunSound(g, u, start, steps[..|steps| - 1]);
      StepSound(g, u, Run(g, u, start, steps[..|steps| - 1]), steps[|steps| - 1]);
    }
  }

  lemma AdmittedAreServed(log: seq<Served>, from: real, until: real)
    ensures AdmittedIn(log, from, until) <= ServedIn(log, from, until)
  {
    if log != [] { AdmittedAreServed(log[..|log| - 1], from, until); }
  }

  lemma WithinAfterCreation(at: real, calls: seq<Call>, from: real, until: real)
    ensures Within([Call(at, false)] + calls, from, until) == Within(calls, from, until)
  {
    var h := [Call(at, false)] + calls;
    if calls == [] {
      assert h[..0] == [];
    } else {
      assert h[..|h| - 1] == [Call(at, false)] + calls[..|calls| - 1];
      WithinAfterCreation(at, calls[..|calls| - 1], from, until);
    }
  }

  lemma NewLimiterSound(g: Config, u: Config, now: real)
    ensures Sound(g, u, NewLimiter(now))
  {
    var l := NewLimiter(now);
    assert l.global[..0] == [] && Count(l.global, 0, 0) == 0;
    forall from, until ensures Within(l.global, from, until) == 0 {
      WithinAfterCreation(now, [], from, until);
      assert l.global == [Call(now, false)] + [];
    }
    forall user ensures UserSound(u, l, user) {}
  }

  /**
  In every run of interleaved calls from a fresh limiter and every interval: each user's admissions obey the
  user bound, all admissions together (by the time they entered) obey the global bound, and the global
  tokens spent are the admissions, the user-level denials and the calls still under way.
  */
  lemma TwoLevelBounds(g: Config, u: Config, start: real, steps: seq<Step>, user: string, from: real, until: real)
    requires g.max >= 0.0 && g.rate >= 0.0 && u.max >= 0.0 && u.rate >= 0.0 && from <= until
    requires Feasible(g, u, start, steps)
    ensures var l := Run(g, u, start, steps);
      && IsBounded(u, UserCalls(l.log, user), from, until)
      && TogetherBounded(g, l.log, from, until)
      && Count(l.global, 0, |l.global|) == |l.log| + |l.flights|
  {
    var l := Run(g, u, start, steps);
    RunSound(g, u, start, steps);
    UserBound(u, l, user, from, until);
    IntervalBound(g, l.global, from, until);
    AdmittedAreServed(l.log, from, until);
    assert Within(l.global, from, until) == ServedIn(l.log, from, until) + FlightsIn(l.flights, from, until);
  }

  lemma UserBound(u: Config, l: Limiter, user: string, from: real, until: real)
    requires UserSound(u, l, user) && u.max >= 0.0 && u.rate >= 0.0 && from <= until
    ensures IsBounded(u, UserCalls(l.log, user), from, until)
  {
    if user in l.born {
      IntervalBound(u, History(l, user), from, until);
      WithinAfterCreation(l.born[user], UserCalls(l.log, user), from, until);
    } else {
      EarnedOver(u, from, until);
    }
  }

  // ---------- The limiter object ----------

  lemma RunMore(g: Config, u: Config, start: real, steps: seq<Step>, s: Step)
    requires Feasible(g, u, start, steps) && Enabled(Run(g, u, start, steps), s)
    ensures Feasible(g, u, start, steps + [s])
    ensures Run(g, u, start, steps + [s]) == Next(g, u, Run(g, u, start, steps), s)
  {
    assert (steps + [s])[..|steps|] == steps;
  }

  /** Only the history of the user being served grows. */
  lemma HistoryAfter(g: Config, u: Config, l: Limiter, i: nat, now: real, v: string)
    requires Enabled(l, Finish(i, now)) && v in l.born
    ensures History(Next(g, u, l, Finish(i, now)), v) ==
      if v == l.flights[i].user then History(l, v) + [Call(now, Fits(u, History(l, v), now))] else History(l, v)
  {
    UserCallsAppend(l.log, Next(g, u, l, Finish(i, now)).log[|l.log|]);
  }

  /** A user without a bucket has not been served. */
  lemma UnbornUnserved(g: Config, u: Config, start: real, steps: seq<Step>, user: string)
    requires Feasible(g, u, start, steps) && user !in Run(g, u, start, steps).born
    ensures UserCalls(Run(g, u, start, steps).log, user) == []
  {
    RunSound(g, u, start, steps);
    assert UserSound(u, Run(g, u, start, steps), user);
  }

  class RateLimiter {
    var userBuckets: map<string, TokenBucket>
    const globalBucket: TokenBucket
    const users: Config // capacity and refill rate of the users' buckets
    ghost var model: Limiter
    ghost const start: real // when the limiter was created
    ghost var steps: seq<Step> // what happened since

    /** The model is what the steps so far lead to; the bucket objects carry its histories, each bucket its own. */
    ghost predicate Valid()
      reads this, globalBucket, userBuckets.Values
    {
      && globalBucket.Valid() && globalBucket.calls == model.global && globalBucket.lastRefill <= model.clock
      && userBuckets.Keys == model.born.Keys
      && (forall u :: u in userBuckets ==>
            && userBuckets[u] != globalBucket
            && userBuckets[u].Valid()
            && userBuckets[u].cfg == users
            && userBuckets[u].lastRefill <= model.clock
            && userBuckets[u].calls == History(model, u))
      && (forall u, v :: u in userBuckets && v in userBuckets && u != v ==> userBuckets[u] != userBuckets[v])
      && Feasible(globalBucket.cfg, users, start, steps) && model == Run(globalBucket.cfg, users, start, steps)
    }

    constructor (userCapacity: real, globalCapacity: real, userRate: real, globalRate: real, now: real)
      ensures Valid() && model == NewLimiter(now) && fresh(globalBucket) && userBuckets == map[]
      ensures globalBucket.cfg == Config(globalCapacity, globalRate) && users == Config(userCapacity, userRate)
    {
      userBuckets := map[];
      globalBucket := new TokenBucket(globalCapacity, globalRate, now);
      users := Config(userCapacity, userRate);
      model, start, steps := NewLimiter(now), now, [];
    }

    /** The global decision, under the global bucket's lock; clock readings never go back. */
    method TakeGlobal(user: string, now: real) returns (ok: bool)
      requires Valid() && model.clock <= now
      modifies this`model, this`steps, globalBucket
      ensures Valid() && ok == Fits(globalBucket.cfg, old(model).global, now)
      ensures model == Next(globalBucket.cfg, users, old(model), Enter(user, now))
    {
      RunMore(globalBucket.cfg, users, start, steps, Enter(user, now));
      ok := globalBucket.Allow(now);
      model, steps := Next(globalBucket.cfg, users, model, Enter(user, now)), steps + [Enter(user, now)];
    }

    /** The bucket of a user, created full when it is missing. */
    method BucketOf(user: string, now: real) returns (bucket: TokenBucket)
      requires Valid() && model.clock <= now
      modifies this`userBuckets, this`model, this`steps
      ensures Valid() && model == Next(globalBucket.cfg, users, old(model), Create(user, now))
      ensures userBuckets == old(userBuckets)[user := bucket]
      ensures if user in old(userBuckets) then bucket == old(userBuckets)[user] else fresh(bucket)
    {
      RunMore(globalBucket.cfg, users, start, steps, Create(user, now));
      if user in userBuckets {
        bucket := userBuckets[user];
        model, steps := Next(globalBucket.cfg, users, model, Create(user, now)), steps + [Create(user, now)];
      } else {
        bucket := NewBucket(user, now);
      }
    }

    method NewBucket(user: string, now: real) returns (bucket: TokenBucket)
      requires Valid() && model.clock <= now && user !in userBuckets
      modifies this`userBuckets, this`model, this`steps
      ensures Valid() && model == Next(globalBucket.cfg, users, old(model), Create(user, now))
      ensures userBuckets == old(userBuckets)[user := bucket] && fresh(bucket)
    {
      RunMore(globalBucket.cfg, users, start, steps, Create(user, now));
      UnbornUnserved(globalBucket.cfg, users, start, steps, user);
      bucket := new TokenBucket(users.max, users.rate, now);
      model, steps := Next(globalBucket.cfg, users, model, Create(user, now)), steps + [Create(user, now)];
      userBuckets := userBuckets[user := bucket];
      assert History(model, user) == [Call(now, false)];
    }

    /** The decision of the user's bucket for flight `i`. */
    method Spend(user: string, ghost i: nat, bucket: TokenBucket, now: real) returns (ok: bool)
      requires Valid() && model.clock <= now && user in userBuckets && userBuckets[user] == bucket
      requires i < |model.flights| && model.flights[i].user == user
      modifies this`model, this`steps, bucket
      ensures Valid() && ok == Fits(users, History(old(model), user), now)
      ensures model == Next(globalBucket.cfg, users, old(model), Finish(i, now))
    {
      RunMore(globalBucket.cfg, users, start, steps, Finish(i, now));
      ok := bucket.Allow(now);
      ghost var l := model;
      model, steps := Next(globalBucket.cfg, users, l, Finish(i, now)), steps + [Finish(i, now)];
      forall v | v in userBuckets ensures userBuckets[v].calls == History(model, v) {
        HistoryAfter(globalBucket.cfg, users, l, i, now, v);
        if v != user { assert userBuckets[v] != bucket; }
      }
    }

    /** A whole call: the global token first, then the user's. */
    method Allow(user: string, entered: real, created: real, now: real) returns (ok: bool)
      requires Valid() && model.clock <= entered <= created <= now
      modifies this`userBuckets, this`model, this`steps, globalBucket, userBuckets.Values
      ensures Valid() && fresh(userBuckets.Values - old(userBuckets).Values)
      ensures var l := Next(globalBucket.cfg, users, old(model), Enter(user, entered));
        if Fits(globalBucket.cfg, old(model).global, entered) then
          var l' := Next(globalBucket.cfg, users, l, Create(user, created));
          model == Next(globalBucket.cfg, users, l', Finish(|old(model).flights|, now)) && ok == Fits(users, History(l', user), now)
        else model == l && !ok
    {
      ok := TakeGlobal(user, entered);
      if ok {
        assert |model.flights| == |old(model).flights| + 1 && model.flights[|old(model).flights|].user == user;
        ok := ServeUser(user, |model.flights| - 1, created, now);
      }
    }

    /** The part under the lock of the user table. */
    method ServeUser(user: string, ghost i: nat, created: real, now: real) returns (ok: bool)
      requires Valid() && model.clock <= created <= now
      requires i < |model.flights| && model.flights[i].user == user
      modifies this`userBuckets, this`model, this`steps, userBuckets.Values
      ensures Valid() && fresh(userBuckets.Values - old(userBuckets).Values)
      ensures var l := Next(globalBucket.cfg, users, old(model), Create(user, created));
        model == Next(globalBucket.cfg, users, l, Finish(i, now)) && ok == Fits(users, History(l, user), now)
    {
      var bucket := BucketOf(user, created);
      ok := Spend(user, i, bucket, now);
    }
  }

  /** The bounds hold for any limiter object, however it was used. */
  lemma LimiterKeepsBounds(rl: RateLimiter, user: string, from: real, until: real)
    requires rl.Valid() && from <= until
    requires rl.globalBucket.cfg.max >= 0.0 && rl.globalBucket.cfg.rate >= 0.0 && rl.users.max >= 0.0 && rl.users.rate >= 0.0
    ensures IsBounded(rl.users, UserCalls(rl.model.log, user), from, until)
    ensures TogetherBounded(rl.globalBucket.cfg, rl.model.log, from, until)
  {
    TwoLevelBounds(rl.globalBucket.cfg, rl.users, rl.start, rl.steps, user, from, until);
  }
}
