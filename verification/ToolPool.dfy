/**
The tool executor's worker pool: callers put tasks on a bounded channel, a fixed set of workers runs them and
sends each response on a channel of capacity one made for that response alone.

The pool is a state machine whose steps are the channel operations of callers, workers and Close, in
any order the channels allow.  Callers may give up at any time.  A task is named by its position in the
order of acceptance; how long it runs and what it answers are arbitrary.
*/
module ToolPool {
  const DEFAULT_MAX_WORKERS := 10

  type Response = int

  datatype Caller = Waiting | Got(response: Response) | GaveUp

  datatype Pool = Pool(
    capacity: nat, // of the channel that feeds the workers
    workers: nat,
    accepted: nat, // tasks sent on the channel so far
    queue: seq<nat>,
    starts: seq<nat>, // tasks in the order workers took them
    running: map<nat, nat>, // worker -> task
    produced: map<nat, Response>, // task -> the response its run sent
    channels: map<nat, seq<Response>>, // contents of each task's response channel
    callers: map<nat, Caller>,
    closed: bool,
    exited: set<nat>)

  /** The workers are started one by one, half as many as the maximum (a maximum of 1 starts none). */
  method NewToolPool(maxWorkers: int) returns (p: Pool)
    ensures var m := if maxWorkers <= 0 then DEFAULT_MAX_WORKERS else maxWorkers;
      p == Fresh(m)
  {
    var m := if maxWorkers <= 0 then DEFAULT_MAX_WORKERS else maxWorkers;
    p := Pool(m * 2, 0, 0, [], [], map[], map[], map[], map[], false, {});
    for i := 0 to m / 2
      invariant p == Fresh(m).(workers := i)
    {
      p := p.(workers := p.workers + 1);
    }
  }

  function Fresh(max: nat): Pool {
    Pool(max * 2, max / 2, 0, [], [], map[], map[], map[], map[], false, {})
  }

  // ---------- Steps ----------

  datatype Step =
    | Submit // a caller's task is accepted
    | Take(w: nat) // an idle worker receives the oldest queued task
    | Respond(w: nat, r: Response) // a worker's run ends and its response is sent
    | Receive(task: nat) // a waiting caller picks up its response
    | Cancel(task: nat) // a waiting caller gives up
    | Close // the feeding channel is closed
    | Exit(w: nat) // a worker finds the channel closed and drained

  predicate Enabled(p: Pool, s: Step) {
    match s
    case Submit => !p.closed && |p.queue| < p.capacity
    case Take(w) => w < p.workers && w !in p.running && w !in p.exited && p.queue != []
    case Respond(w, _) => w in p.running && p.running[w] in p.channels && |p.channels[p.running[w]]| < 1
    case Receive(t) => t in p.callers && p.callers[t] == Waiting && t in p.channels && p.channels[t] != []
    case Cancel(t) => t in p.callers && p.callers[t] == Waiting
    case Close => !p.closed
    case Exit(w) => w < p.workers && w !in p.running && w !in p.exited && p.closed && p.queue == []
  }

  function Next(p: Pool, s: Step): Pool
    requires Enabled(p, s)
  {
    match s
    case Submit =>
      p.(accepted := p.accepted + 1, queue := p.queue + [p.accepted],
         channels := p.channels[p.accepted := []], callers := p.callers[p.accepted := Waiting])
    case Take(w) =>
      p.(queue := p.queue[1..], starts := p.starts + [p.queue[0]], running := p.running[w := p.queue[0]])
    case Respond(w, r) =>
      var t := p.running[w];
      p.(running := p.running - {w}, produced := p.produced[t := r], channels := p.channels[t := p.channels[t] + [r]])
    case Receive(t) =>
      p.(callers := p.callers[t := Got(p.channels[t][0])], channels := p.channels[t := p.channels[t][1..]])
    case Cancel(t) => p.(callers := p.callers[t := GaveUp])
    case Close => p.(closed := true)
    case Exit(w) => p.(exited := p.exited + {w})
  }

  /** Close returns when the channel is closed and every worker has exited. */
  predicate CloseReturned(p: Pool) {
    p.closed && forall w :: 0 <= w < p.workers ==> w in p.exited
  }

  // ---------- Invariant ----------

  function Range(lo: nat, hi: nat): seq<nat>
    requires lo <= hi
  {
    seq(hi - lo, i requires 0 <= i < hi - lo => lo + i)
  }

  /** Tasks leave the queue in the order they came in, and each leaves it once. */
  ghost predicate Fifo(p: Pool) {
    |p.starts| <= p.accepted && p.starts == Range(0, |p.starts|) && p.queue == Range(|p.starts|, p.accepted)
  }

  /** A started task is either running, on exactly one worker, or has responded. */
  ghost predicate TaskAt(p: Pool, t: nat) {
    t < |p.starts| ==> (t in p.produced || exists w :: w in p.running && p.running[w] == t)
  }

  ghost predicate WorkerAt(p: Pool, w: nat) {
    w in p.running ==> w < p.workers && w !in p.exited && p.running[w] < |p.starts| && p.running[w] !in p.produced
  }

  ghost predicate Apart(p: Pool, v: nat, w: nat) {
    v in p.running && w in p.running && p.running[v] == p.running[w] ==> v == w
  }

  /** A task's channel carries at most its own response, until its caller picks it up. */
  ghost predicate ChannelAt(p: Pool, t: nat) {
    && (t < p.accepted <==> t in p.channels) && (t < p.accepted <==> t in p.callers)
    && (t in p.produced ==> t < |p.starts|)
    && (t < p.accepted ==>
          if t !in p.produced then p.channels[t] == [] && !p.callers[t].Got?
          else if p.callers[t].Got? then p.channels[t] == [] && p.callers[t] == Got(p.produced[t])
          else p.channels[t] == [p.produced[t]])
  }

  ghost predicate Inv(p: Pool) {
    && Fifo(p)
    && |p.starts| == |p.running| + |p.produced|
    && (forall t :: TaskAt(p, t))
    && (forall w :: WorkerAt(p, w))
    && (forall v, w :: Apart(p, v, w))
    && (forall t :: ChannelAt(p, t))
    && |p.queue| <= p.capacity
    && (p.exited != {} ==> p.closed && p.queue == [])
    && (forall w :: w in p.exited ==> w < p.workers)
  }

  lemma FreshInv(max: nat)
    ensures Inv(Fresh(max))
  {
    var p := Fresh(max);
    assert p.queue == Range(0, 0);
    forall t: nat ensures TaskAt(p, t) {}
    forall w: nat ensures WorkerAt(p, w) {}
    forall v: nat, w: nat ensures Apart(p, v, w) {}
    forall t: nat ensures ChannelAt(p, t) {}
  }

  lemma SubmitInv(p: Pool)
    requires Inv(p) && Enabled(p, Submit)
    ensures Inv(Next(p, Submit))
  {
    var p' := Next(p, Submit);
    assert p'.queue == Range(|p.starts|, p'.accepted);
    forall t: nat ensures TaskAt(p', t) { assert TaskAt(p, t); }
    forall w: nat ensures WorkerAt(p', w) { assert WorkerAt(p, w); }
    forall v: nat, w: nat ensures Apart(p', v, w) { assert Apart(p, v, w); }
    forall t: nat ensures ChannelAt(p', t) { assert ChannelAt(p, t); }
  }

  lemma TakeFifo(p: Pool, w: nat)
    requires Fifo(p) && Enabled(p, Take(w))
    ensures Fifo(Next(p, Take(w))) && p.queue[0] == |p.starts|
  {
    var p' := Next(p, Take(w));
    assert p'.starts == Range(0, |p'.starts|);
    assert p'.queue == Range(|p'.starts|, p'.accepted);
  }

  lemma TakeCount(p: Pool, w: nat)
    requires Enabled(p, Take(w))
    ensures |Next(p, Take(w)).running| == |p.running| + 1
  {
    var p' := Next(p, Take(w));
    assert p'.running.Keys == p.running.Keys + {w};
    assert |p'.running.Keys| == |p.running.Keys| + 1;
  }

  lemma TakeTask(p: Pool, w: nat, t: nat)
    requires Inv(p) && Enabled(p, Take(w)) && p.queue[0] == |p.starts|
    ensures TaskAt(Next(p, Take(w)), t)
  {
    var p' := Next(p, Take(w));
    assert TaskAt(p, t);
    if t == |p.starts| {
      assert p'.running[w] == t;
    } else if t < |p.starts| && t !in p.produced {
      var v :| v in p.running && p.running[v] == t;
      assert p'.running[v] == t;
    }
  }

  lemma TakeInv(p: Pool, w: nat)
    requires Inv(p) && Enabled(p, Take(w))
    ensures Inv(Next(p, Take(w)))
  {
    var p' := Next(p, Take(w));
    TakeFifo(p, w);
    TakeCount(p, w);
    forall t: nat ensures TaskAt(p', t) { TakeTask(p, w, t); }
    assert ChannelAt(p, |p.starts|);
    forall v: nat ensures WorkerAt(p', v) { assert WorkerAt(p, v); }
    forall u: nat, v: nat ensures Apart(p', u, v) { assert Apart(p, u, v) && WorkerAt(p, u) && WorkerAt(p, v); }
    forall t: nat ensures ChannelAt(p', t) { assert ChannelAt(p, t); }
  }

  lemma RespondCounts(p: Pool, w: nat, r: Response)
    requires Inv(p) && Enabled(p, Respond(w, r))
    ensures var p' := Next(p, Respond(w, r)); |p'.running| == |p.running| - 1 && |p'.produced| == |p.produced| + 1
  {
    var p' := Next(p, Respond(w, r));
    assert WorkerAt(p, w);
    assert p'.running.Keys == p.running.Keys - {w};
    assert |p'.running.Keys| == |p.running.Keys| - 1;
    assert p'.produced.Keys == p.produced.Keys + {p.running[w]};
    assert |p'.produced.Keys| == |p.produced.Keys| + 1;
  }

  lemma RespondTask(p: Pool, w: nat, r: Response, t: nat)
    requires Inv(p) && Enabled(p, Respond(w, r))
    ensures TaskAt(Next(p, Respond(w, r)), t)
  {
    var p' := Next(p, Respond(w, r));
    assert TaskAt(p, t);
    if t < |p.starts| && t !in p'.produced {
      var v :| v in p.running && p.running[v] == t;
      assert p'.running[v] == t;
    }
  }

  lemma RespondInv(p: Pool, w: nat, r: Response)
    requires Inv(p) && Enabled(p, Respond(w, r))
    ensures Inv(Next(p, Respond(w, r)))
  {
    var p' := Next(p, Respond(w, r));
    RespondCounts(p, w, r);
    forall t: nat ensures TaskAt(p', t) { RespondTask(p, w, r, t); }
    assert WorkerAt(p, w) && ChannelAt(p, p.running[w]);
    forall v: nat ensures WorkerAt(p', v) { assert WorkerAt(p, v) && Apart(p, v, w); }
    forall u: nat, v: nat ensures Apart(p', u, v) { assert Apart(p, u, v); }
    forall t: nat ensures ChannelAt(p', t) { assert ChannelAt(p, t); }
  }

  lemma CallerInv(p: Pool, s: Step)
    requires Inv(p) && Enabled(p, s) && (s.Receive? || s.Cancel?)
    ensures Inv(Next(p, s))
  {
    var p' := Next(p, s);
    forall t: nat ensures TaskAt(p', t) { assert TaskAt(p, t); }
    forall w: nat ensures WorkerAt(p', w) { assert WorkerAt(p, w); }
    forall v: nat, w: nat ensures Apart(p', v, w) { assert Apart(p, v, w); }
    forall t: nat ensures ChannelAt(p', t) { assert ChannelAt(p, t); }
  }

  lemma ShutdownInv(p: Pool, s: Step)
    requires Inv(p) && Enabled(p, s) && (s.Close? || s.Exit?)
    ensures Inv(Next(p, s))
  {
    var p' := Next(p, s);
    forall t: nat ensures TaskAt(p', t) { assert TaskAt(p, t); }
    forall w: nat ensures WorkerAt(p', w) { assert WorkerAt(p, w); }
    forall v: nat, w: nat ensures Apart(p', v, w) { assert Apart(p, v, w); }
    forall t: nat ensures ChannelAt(p', t) { assert ChannelAt(p, t); }
  }

  lemma StepInv(p: Pool, s: Step)
    requires Inv(p) && Enabled(p, s)
    ensures Inv(Next(p, s))
  {
    match s
    case Submit => SubmitInv(p);
    case Take(w) => TakeInv(p, w);
    case Respond(w, r) => RespondInv(p, w, r);
    case Receive(_) => CallerInv(p, s);
    case Cancel(_) => CallerInv(p, s);
    case Close => ShutdownInv(p, s);
    case Exit(_) => ShutdownInv(p, s);
  }

  /** p' is reached from p by the given schedule. */
  ghost predicate Reaches(p: Pool, steps: seq<Step>, p': Pool)
    decreases |steps|
  {
    if steps == [] then p' == p else Enabled(p, steps[0]) && Reaches(Next(p, steps[0]), steps[1..], p')
  }

  lemma {:induction false} ScheduleInv(p: Pool, steps: seq<Step>, p': Pool)
    requires Inv(p) && Reaches(p, steps, p')
    ensures Inv(p') && p'.workers == p.workers && p'.capacity == p.capacity
    decreases |steps|
  {
    if steps != [] {
      StepInv(p, steps[0]);
      ScheduleInv(Next(p, steps[0]), steps[1..], p');
    }
  }

  // ---------- What every schedule guarantees ----------

  lemma BelowSize(s: set<nat>, n: nat)
    requires forall x :: x in s ==> x < n
    ensures |s| <= n
  {
    if n > 0 {
      BelowSize(s - {n - 1}, n - 1);
      if n - 1 in s { assert |s - {n - 1}| == |s| - 1; } else { assert s - {n - 1} == s; }
    } else {
      assert s == {};
    }
  }

  lemma RunningBound(p: Pool)
    requires Inv(p)
    ensures |p.running| <= p.workers
  {
    forall w | w in p.running.Keys ensures w < p.workers { assert WorkerAt(p, w); }
    BelowSize(p.running.Keys, p.workers);
    assert |p.running.Keys| == |p.running|;
  }

  /**
  In every schedule, with any cancellations: accepted tasks are queued, running or answered; tasks are run in the
  order of acceptance and each at most once; no more run at once than there are workers; and a caller
  that got a response got the one its own task's run produced.
  */
  lemma EverySchedule(max: nat, steps: seq<Step>, p: Pool)
    requires Reaches(Fresh(max), steps, p)
    ensures p.accepted == |p.queue| + |p.running| + |p.produced|
    ensures p.starts + p.queue == Range(0, p.accepted)
    ensures |p.running| <= max / 2 && |p.queue| <= 2 * max
    ensures forall t :: t in p.callers && p.callers[t].Got? ==> t in p.produced && p.callers[t].response == p.produced[t]
  {
    FreshInv(max);
    ScheduleInv(Fresh(max), steps, p);
    InvariantMeans(p);
  }

  lemma InvariantMeans(p: Pool)
    requires Inv(p)
    ensures p.accepted == |p.queue| + |p.running| + |p.produced|
    ensures p.starts + p.queue == Range(0, p.accepted)
    ensures |p.running| <= p.workers
    ensures forall t :: t in p.callers && p.callers[t].Got? ==> t in p.produced && p.callers[t].response == p.produced[t]
  {
    RunningBound(p);
    forall t | t in p.callers && p.callers[t].Got? ensures t in p.produced && p.callers[t].response == p.produced[t] {
      assert ChannelAt(p, t);
    }
  }

  // ---------- What callers get, told from the schedule ----------

  /** A step that answers task t with r, made while its worker had t. */
  ghost predicate Answers(p: Pool, s: Step, t: nat, r: Response) {
    s.Respond? && s.w in p.running && p.running[s.w] == t && s.r == r
  }

  /** Some step of the schedule does. */
  ghost predicate Answered(p: Pool, steps: seq<Step>, t: nat, r: Response)
    decreases |steps|
  {
    steps != [] && (Answers(p, steps[0], t, r) || (Enabled(p, steps[0]) && Answered(Next(p, steps[0]), steps[1..], t, r)))
  }

  ghost predicate Produced(p: Pool, t: nat, r: Response) { t in p.produced && p.produced[t] == r }

  /** A response, once sent, stays; a step sends one exactly as above. */
  lemma ProducedStep(p: Pool, s: Step, t: nat, r: Response)
    requires Inv(p) && Enabled(p, s)
    ensures Produced(Next(p, s), t, r) <==> Produced(p, t, r) || Answers(p, s, t, r)
    ensures t in p.produced ==> t in Next(p, s).produced && Next(p, s).produced[t] == p.produced[t]
  {
    if s.Respond? {
      assert WorkerAt(p, s.w);
    }
  }

  lemma {:induction false} ProducedIffAnswered(p: Pool, steps: seq<Step>, p': Pool, t: nat, r: Response)
    requires Inv(p) && Reaches(p, steps, p')
    ensures Produced(p', t, r) <==> Produced(p, t, r) || Answered(p, steps, t, r)
    decreases |steps|
  {
    if steps != [] {
      StepInv(p, steps[0]);
      ProducedStep(p, steps[0], t, r);
      ProducedIffAnswered(Next(p, steps[0]), steps[1..], p', t, r);
    }
  }

  lemma {:induction false} CallerAfter(p: Pool, steps: seq<Step>, p': Pool, t: nat)
    requires Inv(p) && Reaches(p, steps, p')
    ensures HasResponse(p', t) <==> HasResponse(p, t) || Receive(t) in steps
    ensures HasGivenUp(p', t) <==> HasGivenUp(p, t) || Cancel(t) in steps
    decreases |steps|
  {
    if steps != [] {
      StepInv(p, steps[0]);
      CallerStep(p, steps[0], t);
      CallerAfter(Next(p, steps[0]), steps[1..], p', t);
      InFront(steps, Receive(t));
      InFront(steps, Cancel(t));
    }
  }

  ghost predicate HasResponse(p: Pool, t: nat) { t in p.callers && p.callers[t].Got? }

  ghost predicate HasGivenUp(p: Pool, t: nat) { t in p.callers && p.callers[t].GaveUp? }

  lemma CallerStep(p: Pool, s: Step, t: nat)
    requires Inv(p) && Enabled(p, s)
    ensures HasResponse(Next(p, s), t) <==> HasResponse(p, t) || s == Receive(t)
    ensures HasGivenUp(Next(p, s), t) <==> HasGivenUp(p, t) || s == Cancel(t)
  {
    assert ChannelAt(p, p.accepted);
  }

  lemma InFront(steps: seq<Step>, s: Step)
    requires steps != []
    ensures s in steps <==> s == steps[0] || s in steps[1..]
  {
    assert steps == [steps[0]] + steps[1..];
  }

  /**
  In every schedule a caller has a response exactly when it received one and has given up exactly when it cancelled, and
  the response it has is r exactly when it received and the run of its own task sent r.
  */
  lemma CallersGetTheirRuns(max: nat, steps: seq<Step>, p: Pool, t: nat, r: Response)
    requires Reaches(Fresh(max), steps, p)
    ensures HasGivenUp(p, t) <==> Cancel(t) in steps
    ensures HasResponse(p, t) <==> Receive(t) in steps
    ensures t in p.callers && p.callers[t] == Got(r) <==> Receive(t) in steps && Answered(Fresh(max), steps, t, r)
  {
    FreshInv(max);
    ScheduleInv(Fresh(max), steps, p);
    CallerAfter(Fresh(max), steps, p, t);
    ProducedIffAnswered(Fresh(max), steps, p, t, r);
    assert ChannelAt(p, t);
  }

  /** A caller that waits for a task that has run can pick its response up. */
  lemma ResponseIsThere(max: nat, steps: seq<Step>, p: Pool, t: nat)
    requires Reaches(Fresh(max), steps, p) && t in p.callers && p.callers[t] == Waiting
    ensures Enabled(p, Receive(t)) <==> t in p.produced
  {
    FreshInv(max);
    ScheduleInv(Fresh(max), steps, p);
    assert ChannelAt(p, t);
  }

  /** A worker never blocks on its response: the channel it sends on is empty whenever it has a task. */
  lemma ResponseNeverBlocks(max: nat, steps: seq<Step>, p: Pool, w: nat, r: Response)
    requires Reaches(Fresh(max), steps, p) && w in p.running
    ensures Enabled(p, Respond(w, r))
  {
    FreshInv(max);
    ScheduleInv(Fresh(max), steps, p);
    assert WorkerAt(p, w) && ChannelAt(p, p.running[w]);
  }

  ghost predicate AllAnswered(p: Pool) {
    forall t :: 0 <= t < p.accepted ==> t in p.produced
  }

  lemma ClosedIsDrained(p: Pool)
    requires Inv(p) && CloseReturned(p) && p.workers > 0
    ensures AllAnswered(p)
  {
    assert 0 in p.exited;
    assert p.queue == [];
    assert |p.starts| == p.accepted;
    forall w: nat ensures w !in p.running {
      assert WorkerAt(p, w);
    }
    forall t | 0 <= t < p.accepted ensures t in p.produced {
      assert TaskAt(p, t);
    }
  }

  /** In every schedule, when Close has returned every accepted task has been answered. */
  ghost predicate CloseIsClean(max: nat) {
    forall steps, p :: Reaches(Fresh(max), steps, p) && CloseReturned(p) ==> AllAnswered(p)
  }

  /** That holds exactly when at least one worker was started: a maximum of 1 starts none, and loses what was submitted. */
  lemma CloseIsCleanIffWorkers(max: nat)
    requires max > 0
    ensures CloseIsClean(max) <==> max >= 2
  {
    if max >= 2 {
      CleanWithWorkers(max);
    } else {
      var steps, p := LostTask();
      assert Reaches(Fresh(max), steps, p) && CloseReturned(p) && !AllAnswered(p);
      assert !CloseIsClean(max);
    }
  }

  lemma CleanWithWorkers(max: nat)
    requires max >= 2
    ensures CloseIsClean(max)
  {
    FreshInv(max);
    forall steps, p | Reaches(Fresh(max), steps, p) && CloseReturned(p) ensures AllAnswered(p) {
      ScheduleInv(Fresh(max), steps, p);
      ClosedIsDrained(p);
    }
  }

  lemma LostTask() returns (steps: seq<Step>, p: Pool)
    ensures Reaches(Fresh(1), steps, p) && CloseReturned(p) && !AllAnswered(p)
  {
    var p1 := Next(Fresh(1), Submit);
    p := Next(p1, Close);
    steps := [Submit, Close];
    assert steps[1..] == [Close] && [Close][1..] == [];
    assert Reaches(p, [], p);
    assert Reaches(p1, [Close], p);
    assert 0 < p.accepted && 0 !in p.produced;
  }

  /** Work left for the workers once no task can be accepted any more. */
  ghost function Remaining(p: Pool): int {
    2 * |p.queue| + |p.running| + p.workers - |p.exited|
  }

  /** After Close the workers cannot get stuck, and each of their steps leaves less to do: Close returns once the runs end. */
  lemma CloseMakesProgress(p: Pool, r: Response) returns (s: Step)
    requires Inv(p) && p.closed && !CloseReturned(p)
    ensures (s.Take? || s.Respond? || s.Exit?) && Enabled(p, s)
    ensures 0 <= Remaining(Next(p, s)) < Remaining(p)
  {
    var w :| 0 <= w < p.workers && w !in p.exited;
    if w in p.running {
      assert WorkerAt(p, w) && ChannelAt(p, p.running[w]);
      s := Respond(w, r);
    } else if p.queue != [] {
      s := Take(w);
    } else {
      s := Exit(w);
    }
    WorkerStepShrinks(p, s);
  }

  lemma NothingOwed(p: Pool, s: Step)
    requires Inv(p) && Enabled(p, s)
    ensures |Next(p, s).exited| <= p.workers
  {
    StepInv(p, s);
    BelowSize(Next(p, s).exited, p.workers);
  }

  lemma WorkerStepShrinks(p: Pool, s: Step)
    requires Inv(p) && Enabled(p, s) && (s.Take? || s.Respond? || s.Exit?)
    ensures 0 <= Remaining(Next(p, s)) < Remaining(p)
  {
    NothingOwed(p, s);
    match s
    case Take(w) => TakeCount(p, w);
    case Respond(w, r) => RespondCounts(p, w, r);
    case Exit(w) => assert |p.exited + {w}| == |p.exited| + 1;
  }
}
