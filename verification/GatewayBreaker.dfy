/**
The tool gateway's circuit breaker.  It has a half-open state and a success threshold, but no transition into the
half-open state: the run theorem below shows what that amounts to.
*/
module GatewayBreaker {
  datatype Mode = Closed | Open | HalfOpen

  const DEFAULT_FAILURE_THRESHOLD := 5
  const DEFAULT_SUCCESS_THRESHOLD := 2
  const DEFAULT_TIMEOUT := 30_000_000_000 // nanoseconds

  datatype Config = Config(failureThreshold: nat, successThreshold: nat, timeout: int)

  function Or(x: int, default: nat): (r: nat)
    requires default > 0
    ensures r > 0
  {
    if x <= 0 then default else x
  }

  datatype Breaker = Breaker(mode: Mode, failures: nat, successes: nat, lastFailure: int)

  /** What calls report: concurrent calls interleave their reports in any order. */
  datatype Report = Success | Failure(now: int)

  function After(c: Config, b: Breaker, r: Report): Breaker {
    match r
    case Success =>
      if b.mode == Closed then b.(failures := 0)
      else if b.mode == HalfOpen then
        if b.successes + 1 >= c.successThreshold then b.(mode := Closed, failures := 0, successes := 0)
        else b.(successes := b.successes + 1)
      else b
    case Failure(now) =>
      var b' := b.(lastFailure := now);
      if b.mode == Closed then
        if b.failures + 1 >= c.failureThreshold then b'.(mode := Open, failures := b.failures + 1, successes := 0)
        else b'.(failures := b.failures + 1)
      else if b.mode == HalfOpen then b'.(mode := Open, successes := 0)
      else b'
  }

  predicate Admits(c: Config, b: Breaker, now: int) {
    b.mode != Open || now - b.lastFailure > c.timeout
  }

  class CircuitBreaker {
    var mode: Mode
    var failures: nat
    var successes: nat
    var lastFailure: int
    const failureThreshold: nat
    const successThreshold: nat
    const timeout: int

    ghost function Model(): Breaker
      reads this
    {
      Breaker(mode, failures, successes, lastFailure)
    }

    ghost function Cfg(): Config { Config(failureThreshold, successThreshold, timeout) }

    constructor (failureThreshold: int, successThreshold: int, timeout: int)
      ensures Model() == Breaker(Closed, 0, 0, 0)
      ensures Cfg() == Config(Or(failureThreshold, DEFAULT_FAILURE_THRESHOLD), Or(successThreshold, DEFAULT_SUCCESS_THRESHOLD), Or(timeout, DEFAULT_TIMEOUT))
    {
      mode, failures, successes, lastFailure := Closed, 0, 0, 0;
      this.failureThreshold := Or(failureThreshold, DEFAULT_FAILURE_THRESHOLD);
      this.successThreshold := Or(successThreshold, DEFAULT_SUCCESS_THRESHOLD);
      this.timeout := Or(timeout, DEFAULT_TIMEOUT);
    }

    method Allow(now: int) returns (ok: bool)
      ensures ok == Admits(Cfg(), Model(), now)
    {
      match mode
      case Closed => ok := true;
      case Open => ok := now - lastFailure > timeout;
      case HalfOpen => ok := true;
    }

    method RecordSuccess()
      modifies this
      ensures Model() == After(Cfg(), old(Model()), Success)
    {
      match mode
      case Closed =>
        failures := 0;
      case HalfOpen =>
        successes := successes + 1;
        if successes >= successThreshold {
          mode := Closed;
          failures := 0;
          successes := 0;
        }
      case Open =>
    }

    method RecordFailure(now: int)
      modifies this
      ensures Model() == After(Cfg(), old(Model()), Failure(now))
    {
      lastFailure := now;
      match mode
      case Closed =>
        failures := failures + 1;
        if failures >= failureThreshold {
          mode := Open;
          successes := 0;
        }
      case HalfOpen =>
        mode := Open;
        successes := 0;
      case Open =>
    }

    /** One call; `fails` is how the guarded function ends if it is run. */
    method Execute(now: int, fails: bool, end: int) returns (ran: bool)
      modifies this
      ensures ran == Admits(Cfg(), old(Model()), now)
      ensures Model() == if ran then After(Cfg(), old(Model()), if fails then Failure(end) else Success) else old(Model())
    {
      ran := Allow(now);
      if ran {
        if fails {
          RecordFailure(end);
        } else {
          RecordSuccess();
        }
      }
    }
  }

  function Run(c: Config, reports: seq<Report>): Breaker {
    if reports == [] then Breaker(Closed, 0, 0, 0) else After(c, Run(c, reports[..|reports| - 1]), reports[|reports| - 1])
  }

  /** Failures since the last success. */
  function Streak(reports: seq<Report>): nat {
    if reports == [] || reports[|reports| - 1].Success? then 0 else 1 + Streak(reports[..|reports| - 1])
  }

  /** Somewhere in the run a streak reached the threshold. */
  predicate EverTripped(c: Config, reports: seq<Report>) {
    reports != [] && (EverTripped(c, reports[..|reports| - 1]) || Streak(reports) >= c.failureThreshold)
  }

  function LastFailure(reports: seq<Report>): int {
    if reports == [] then 0
    else if reports[|reports| - 1].Failure? then reports[|reports| - 1].now
    else LastFailure(reports[..|reports| - 1])
  }

  /**
  In every run from a new breaker: it is open exactly when at some point the threshold of consecutive failures
  was reached, and from then on for ever, whatever succeeds later; half-open is never entered; while
  closed the count is the current streak, below the threshold; and a call is let through exactly when
  the breaker never tripped or more than the timeout has passed since the latest failure.
  */
  lemma {:induction false} RunBehaviour(c: Config, reports: seq<Report>, now: int)
    requires c.failureThreshold > 0
    ensures var b := Run(c, reports);
      && b.mode == (if EverTripped(c, reports) then Open else Closed)
      && b.lastFailure == LastFailure(reports)
      && (b.mode == Closed ==> b.failures == Streak(reports) < c.failureThreshold)
      && (Admits(c, b, now) <==> !EverTripped(c, reports) || now - LastFailure(reports) > c.timeout)
  {
    if reports != [] {
      RunBehaviour(c, reports[..|reports| - 1], now);
    }
  }

  /** Tripped once, no later sequence of reports closes it again. */
  lemma {:induction false} OpenIsAbsorbing(c: Config, reports: seq<Report>, more: seq<Report>)
    requires c.failureThreshold > 0 && Run(c, reports).mode == Open
    ensures Run(c, reports + more).mode == Open
    decreases |more|
  {
    if more == [] {
      assert reports + more == reports;
    } else {
      OpenIsAbsorbing(c, reports, more[..|more| - 1]);
      assert (reports + more)[..|reports + more| - 1] == reports + more[..|more| - 1];
    }
  }
}
