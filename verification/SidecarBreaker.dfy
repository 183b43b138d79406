/**
The sidecar's circuit breaker.

A call goes through the gate, the half-open check, the guarded operation, and the success or failure
record; each of these is one lock-protected step.  Interleaved calls are arbitrary sequences of
such steps; a sequential call is the composition of its own four.
*/
module SidecarBreaker {
  import opened Options

  datatype Mode = Closed | Open | HalfOpen

  datatype Breaker = Breaker(mode: Mode, failures: nat, lastFailure: Option<int>)

  datatype Config = Config(threshold: nat, timeout: int)

  // ---------- Steps ----------

  datatype Step = Gate(now: int) | Check(now: int) | Success | Failure(now: int)

  /** The gate refuses while open and within the recovery timeout of the recorded failure. */
  predicate Refuses(c: Config, b: Breaker, now: int) {
    b.mode == Open && b.lastFailure.Some? && now - b.lastFailure.value < c.timeout
  }

  function After(c: Config, b: Breaker, s: Step): Breaker {
    match s
    case Gate(_) => b
    case Check(now) =>
      if b.mode == Open && b.lastFailure.Some? && now - b.lastFailure.value >= c.timeout then b.(mode := HalfOpen) else b
    case Success => if b.mode == Open then b else b.(mode := Closed, failures := 0)
    case Failure(now) =>
      var n := b.failures + 1;
      if n >= c.threshold then Breaker(Open, n, Some(now)) else b.(failures := n)
  }

  class CircuitBreaker {
    var mode: Mode
    var failureCount: nat
    var lastFailureTime: Option<int>
    const failureThreshold: nat
    const recoveryTimeout: int

    ghost function Model(): Breaker
      reads this
    {
      Breaker(mode, failureCount, lastFailureTime)
    }

    ghost function Cfg(): Config { Config(failureThreshold, recoveryTimeout) }

    constructor (threshold: nat, timeout: int)
      ensures Model() == Breaker(Closed, 0, None) && Cfg() == Config(threshold, timeout)
    {
      mode, failureCount, lastFailureTime := Closed, 0, None;
      failureThreshold, recoveryTimeout := threshold, timeout;
    }

    method CheckTransitionToHalfOpen(now: int)
      modifies this`mode
      ensures Model() == After(Cfg(), old(Model()), Check(now))
    {
      if mode == Open {
        if lastFailureTime.Some? {
          if now - lastFailureTime.value >= recoveryTimeout {
            mode := HalfOpen;
          }
        }
      }
    }

    method OnSuccess()
      modifies this`mode, this`failureCount
      ensures Model() == After(Cfg(), old(Model()), Success)
    {
      match mode
      case Open =>
      case HalfOpen =>
        mode := Closed;
        failureCount := 0;
      case Closed =>
        failureCount := 0;
    }

    method OnFailure(now: int)
      modifies this
      ensures Model() == After(Cfg(), old(Model()), Failure(now))
    {
      failureCount := failureCount + 1;
      if failureCount >= failureThreshold {
        mode := Open;
        lastFailureTime := Some(now);
      }
    }

    /** One call with nothing interleaved; `c` holds its clock readings and how its operation ends if it is run. */
    method Invoke(c: Call) returns (ran: bool)
      modifies this
      ensures ran == Runs(Cfg(), old(Model()), c)
      ensures Model() == AfterCall(Cfg(), old(Model()), c)
    {
      if mode == Open {
        if lastFailureTime.Some? {
          if c.gateAt - lastFailureTime.value < recoveryTimeout {
            return false;
          }
        }
      }
      CheckTransitionToHalfOpen(c.checkAt);
      if c.ok {
        OnSuccess();
      } else {
        OnFailure(c.endAt);
      }
      return true;
    }
  }

  // ---------- Interleaved calls ----------

  /** A threshold of 0 trips like a threshold of 1. */
  function Effective(c: Config): nat { if c.threshold == 0 then 1 else c.threshold }

  /** Closed exactly below the threshold; otherwise a failure time is on record. */
  ghost predicate Consistent(c: Config, b: Breaker) {
    && (b.mode == Closed <==> b.failures < Effective(c))
    && (b.mode != Closed ==> b.lastFailure.Some?)
  }

  function Run(c: Config, b: Breaker, steps: seq<Step>): Breaker {
    if steps == [] then b else After(c, Run(c, b, steps[..|steps| - 1]), steps[|steps| - 1])
  }

  /** Whatever steps of whatever calls are interleaved: open or half-open means the failure count has reached the threshold. */
  lemma {:induction false} InterleavedConsistent(c: Config, steps: seq<Step>)
    ensures Consistent(c, Run(c, Breaker(Closed, 0, None), steps))
  {
    if steps != [] {
      InterleavedConsistent(c, steps[..|steps| - 1]);
    }
  }

  predicate Earlier(s: Step, t: int) {
    match s
    case Gate(now) => now < t
    case Check(now) => now < t
    case Failure(now) => now < t
    case Success => true
  }

  /** Clock readings never go back. */
  ghost predicate Clocked(steps: seq<Step>, start: int) {
    steps != [] ==>
      var s := steps[0];
      if s.Success? then Clocked(steps[1..], start) else start <= s.now && Clocked(steps[1..], s.now)
  }

  lemma {:induction false} RunFront(c: Config, b: Breaker, steps: seq<Step>)
    requires steps != []
    ensures Run(c, b, steps) == Run(c, After(c, b, steps[0]), steps[1..])
  {
    if |steps| > 1 {
      var n := |steps| - 1;
      RunFront(c, b, steps[..n]);
      assert steps[..n][1..] == steps[1..][..n - 1];
    } else {
      assert steps[..0] == [] && steps[1..] == [];
    }
  }

  /**
  Once open with a failure recorded at `t`, the breaker stays open and every gate refuses until the recovery
  timeout has passed, whatever calls that were already past the gate go on to do.
  */
  lemma {:induction false} OpenHoldsForTimeout(c: Config, b: Breaker, t: int, start: int, steps: seq<Step>)
    requires b.mode == Open && b.lastFailure == Some(t) && t <= start && Clocked(steps, start)
    requires c.threshold <= b.failures
    requires forall i :: 0 <= i < |steps| ==> Earlier(steps[i], t + c.timeout)
    ensures Run(c, b, steps).mode == Open
    ensures forall i :: 0 <= i < |steps| && steps[i].Gate? ==> Refuses(c, Run(c, b, steps[..i]), steps[i].now)
    decreases |steps|
  {
    if steps != [] {
      var s, rest := steps[0], steps[1..];
      var b' := After(c, b, s);
      var t', start' := if s.Failure? then s.now else t, if s.Success? then start else s.now;
      forall i | 0 <= i < |rest| ensures Earlier(rest[i], t' + c.timeout) {
        assert Earlier(steps[i + 1], t + c.timeout);
      }
      assert Earlier(s, t + c.timeout);
      OpenHoldsForTimeout(c, b', t', start', rest);
      RunFront(c, b, steps);
      forall i | 0 <= i < |steps| && steps[i].Gate? ensures Refuses(c, Run(c, b, steps[..i]), steps[i].now) {
        if i > 0 {
          RunFront(c, b, steps[..i]);
          assert steps[..i][1..] == rest[..i - 1];
          assert rest[i - 1] == steps[i];
        }
      }
    }
  }

  // ---------- Sequential calls ----------

  datatype Call = Call(gateAt: int, checkAt: int, ok: bool, endAt: int)

  predicate Runs(cfg: Config, b: Breaker, c: Call) { !Refuses(cfg, b, c.gateAt) }

  function AfterCall(cfg: Config, b: Breaker, c: Call): Breaker {
    if Runs(cfg, b, c) then
      After(cfg, After(cfg, b, Check(c.checkAt)), if c.ok then Success else Failure(c.endAt))
    else b
  }

  function RunCalls(cfg: Config, calls: seq<Call>): Breaker {
    if calls == [] then Breaker(Closed, 0, None)
    else AfterCall(cfg, RunCalls(cfg, calls[..|calls| - 1]), calls[|calls| - 1])
  }

  /**
  The reference: a list of the operations run so far with their outcomes.  A call runs unless the list ends
  in a failed streak that has reached the threshold and whose last failure is not yet `timeout` old.
  */
  datatype Body = Body(ok: bool, at: int)

  function Streak(bodies: seq<Body>): nat {
    if bodies == [] || bodies[|bodies| - 1].ok then 0 else 1 + Streak(bodies[..|bodies| - 1])
  }

  predicate ShouldRun(cfg: Config, bodies: seq<Body>, now: int) {
    Streak(bodies) < Effective(cfg) || now - bodies[|bodies| - 1].at >= cfg.timeout
  }

  function Bodies(cfg: Config, calls: seq<Call>): seq<Body> {
    if calls == [] then []
    else
      var c, before := calls[|calls| - 1], Bodies(cfg, calls[..|calls| - 1]);
      if ShouldRun(cfg, before, c.gateAt) then before + [Body(c.ok, c.endAt)] else before
  }

  /** The breaker between calls, as the list of operations run so far determines it. */
  ghost predicate Tracks(cfg: Config, b: Breaker, bodies: seq<Body>) {
    && b.failures == Streak(bodies)
    && b.mode == (if Streak(bodies) < Effective(cfg) then Closed else Open)
    && (b.mode == Open ==> b.lastFailure == Some(bodies[|bodies| - 1].at))
  }

  lemma TracksDecides(cfg: Config, b: Breaker, bodies: seq<Body>, now: int)
    requires Tracks(cfg, b, bodies)
    ensures Refuses(cfg, b, now) <==> !ShouldRun(cfg, bodies, now)
  {
  }

  lemma TracksRun(cfg: Config, b: Breaker, bodies: seq<Body>, c: Call)
    requires Tracks(cfg, b, bodies) && !Refuses(cfg, b, c.gateAt) && c.gateAt <= c.checkAt
    ensures Tracks(cfg, AfterCall(cfg, b, c), bodies + [Body(c.ok, c.endAt)])
  {
    assert (bodies + [Body(c.ok, c.endAt)])[..|bodies|] == bodies;
  }

  lemma {:induction false} CallsTracked(cfg: Config, calls: seq<Call>)
    requires forall i :: 0 <= i < |calls| ==> calls[i].gateAt <= calls[i].checkAt
    ensures Tracks(cfg, RunCalls(cfg, calls), Bodies(cfg, calls))
  {
    if calls != [] {
      var n := |calls| - 1;
      var b, bodies := RunCalls(cfg, calls[..n]), Bodies(cfg, calls[..n]);
      CallsTracked(cfg, calls[..n]);
      TracksDecides(cfg, b, bodies, calls[n].gateAt);
      if !Refuses(cfg, b, calls[n].gateAt) {
        TracksRun(cfg, b, bodies, calls[n]);
      }
    }
  }

  /**
  For every sequence of calls: the failure count is the length of the current streak of failed operations, the
  breaker between calls is closed below the threshold and open from it on (never half-open), and the
  next call is run exactly when the reference says so.
  */
  lemma SequentialBehaviour(cfg: Config, calls: seq<Call>, next: Call)
    requires forall i :: 0 <= i < |calls| ==> calls[i].gateAt <= calls[i].checkAt
    ensures var b, bodies := RunCalls(cfg, calls), Bodies(cfg, calls);
      && b.failures == Streak(bodies)
      && b.mode == (if Streak(bodies) < Effective(cfg) then Closed else Open)
      && (Runs(cfg, b, next) <==> ShouldRun(cfg, bodies, next.gateAt))
  {
    CallsTracked(cfg, calls);
    TracksDecides(cfg, RunCalls(cfg, calls), Bodies(cfg, calls), next.gateAt);
  }
}
