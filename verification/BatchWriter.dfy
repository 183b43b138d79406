/**
The message store's batch writer: callers append to a pending slice, flushers swap it out and insert it message by
message.  A flush that hits a failing insert gives up the rest of its batch.

Adding, swapping and each single insert are separate steps, so adders and any number of flushers (the
background loop and direct Flush calls) interleave freely.
*/
module BatchWriter {
  type Message = int

  const DEFAULT_MAX_BATCH := 100

  // ---------- The object ----------

  class Writer {
    var pending: seq<Message>
    var maxBatch: nat
    var signal: bool // the wake-up channel holds its one token
    var stored: seq<Message> // the store's messages

    constructor (requested: int)
      ensures pending == [] && stored == [] && !signal
      ensures maxBatch == if requested <= 0 then DEFAULT_MAX_BATCH else requested
    {
      pending, stored, signal := [], [], false;
      maxBatch := if requested <= 0 then DEFAULT_MAX_BATCH else requested;
    }

    method Add(msg: Message)
      modifies this`pending, this`signal
      ensures pending == old(pending) + [msg]
      ensures signal == (old(signal) || |pending| >= maxBatch)
    {
      pending := pending + [msg];
      var shouldFlush := |pending| >= maxBatch;
      if shouldFlush && !signal {
        signal := true;
      }
    }

    /** A flush with nothing interleaved; the insert at position `failAt` of the batch fails, if there is one. */
    method Flush(failAt: nat) returns (ok: bool)
      modifies this`pending, this`stored
      ensures pending == []
      ensures ok == (failAt >= |old(pending)|)
      ensures stored == old(stored) + old(pending)[..if ok then |old(pending)| else failAt]
    {
      var batch := pending;
      pending := [];
      if |batch| == 0 {
        return true;
      }
      for i := 0 to |batch|
        invariant i <= failAt && pending == [] && stored == old(stored) + batch[..i]
      {
        if i == failAt {
          return false;
        }
        stored := stored + [batch[i]];
      }
      return true;
    }
  }

  // ---------- Interleaved steps ----------

  datatype Fate = Fate(msg: Message, stored: bool)

  datatype State = State(
    added: seq<Message>,
    pending: seq<Message>,
    flights: seq<seq<Message>>, // what each flusher still has to insert
    done: seq<Fate>, // messages dealt with, in that order
    signal: bool,
    notifying: nat, // adders between appending and sending the wake-up
    awake: nat) // flushers woken and about to swap

  datatype Step =
    | Add(msg: Message)
    | Notify
    | Wake
    | Swap(f: nat, woken: bool)
    | Insert(f: nat, ok: bool)

  predicate Enabled(s: State, a: Step) {
    match a
    case Add(_) => true
    case Notify => s.notifying > 0
    case Wake => s.signal
    case Swap(f, woken) => f < |s.flights| && s.flights[f] == [] && (woken ==> s.awake > 0)
    case Insert(f, _) => f < |s.flights| && s.flights[f] != []
  }

  function Marked(msgs: seq<Message>, stored: bool): seq<Fate> {
    seq(|msgs|, i requires 0 <= i < |msgs| => Fate(msgs[i], stored))
  }

  function Next(s: State, a: Step, maxBatch: nat): State
    requires Enabled(s, a)
  {
    match a
    case Add(m) =>
      s.(added := s.added + [m], pending := s.pending + [m],
         notifying := s.notifying + if |s.pending| + 1 >= maxBatch then 1 else 0)
    case Notify => s.(notifying := s.notifying - 1, signal := true)
    case Wake => s.(signal := false, awake := s.awake + 1)
    case Swap(f, woken) =>
      s.(flights := s.flights[f := s.pending], pending := [], awake := if woken then s.awake - 1 else s.awake)
    case Insert(f, ok) =>
      var batch := s.flights[f];
      if ok then s.(flights := s.flights[f := batch[1..]], done := s.done + [Fate(batch[0], true)])
      else s.(flights := s.flights[f := []], done := s.done + Marked(batch, false))
  }

  ghost predicate IsRun(s: State, acts: seq<Step>, maxBatch: nat, s': State)
    decreases |acts|
  {
    if acts == [] then s' == s
    else Enabled(s, acts[0]) && IsRun(Next(s, acts[0], maxBatch), acts[1..], maxBatch, s')
  }

  function Start(flushers: nat): State {
    State([], [], seq(flushers, _ => []), [], false, 0, 0)
  }

  // ---------- Nothing is lost or doubled, by any number of flushers ----------

  function Msgs(done: seq<Fate>): seq<Message> {
    seq(|done|, i requires 0 <= i < |done| => done[i].msg)
  }

  function Flatten(flights: seq<seq<Message>>): seq<Message> {
    if flights == [] then [] else flights[0] + Flatten(flights[1..])
  }

  /** Messages added = dealt with + in flight + pending, counting repetitions. */
  ghost predicate Conserved(s: State) {
    forall x :: Times(s.added, x) == Times(Msgs(s.done), x) + Times(Flatten(s.flights), x) + Times(s.pending, x)
  }

  /** How often x occurs. */
  function Times(s: seq<Message>, x: Message): nat { multiset(s)[x] }

  lemma TimesConcat(a: seq<Message>, b: seq<Message>, x: Message)
    ensures Times(a + b, x) == Times(a, x) + Times(b, x)
  {
  }

  lemma {:induction false} FlattenUpdate(flights: seq<seq<Message>>, f: nat, batch: seq<Message>, x: Message)
    requires f < |flights|
    ensures Times(Flatten(flights[f := batch]), x) + Times(flights[f], x) == Times(Flatten(flights), x) + Times(batch, x)
  {
    var updated := flights[f := batch];
    TimesConcat(flights[0], Flatten(flights[1..]), x);
    TimesConcat(updated[0], Flatten(updated[1..]), x);
    if f == 0 {
      assert updated[1..] == flights[1..];
    } else {
      FlattenUpdate(flights[1..], f - 1, batch, x);
      assert updated[1..] == flights[1..][f - 1 := batch];
    }
  }

  lemma MarkedMsgs(msgs: seq<Message>, stored: bool)
    ensures Msgs(Marked(msgs, stored)) == msgs
  {
  }

  lemma MsgsConcat(a: seq<Fate>, b: seq<Fate>)
    ensures Msgs(a + b) == Msgs(a) + Msgs(b)
  {
  }

  lemma StepConserves(s: State, a: Step, maxBatch: nat, x: Message)
    requires Conserved(s) && Enabled(s, a)
    ensures var s' := Next(s, a, maxBatch);
      Times(s'.added, x) == Times(Msgs(s'.done), x) + Times(Flatten(s'.flights), x) + Times(s'.pending, x)
  {
    assert Times(s.added, x) == Times(Msgs(s.done), x) + Times(Flatten(s.flights), x) + Times(s.pending, x);
    match a
    case Add(m) =>
      TimesConcat(s.added, [m], x);
      TimesConcat(s.pending, [m], x);
    case Notify =>
    case Wake =>
    case Swap(f, _) =>
      FlattenUpdate(s.flights, f, s.pending, x);
    case Insert(f, ok) =>
      var batch := s.flights[f];
      if ok {
        FlattenUpdate(s.flights, f, batch[1..], x);
        MsgsConcat(s.done, [Fate(batch[0], true)]);
        assert Msgs([Fate(batch[0], true)]) == [batch[0]];
        TimesConcat(Msgs(s.done), [batch[0]], x);
        TimesConcat([batch[0]], batch[1..], x);
        assert batch == [batch[0]] + batch[1..];
      } else {
        FlattenUpdate(s.flights, f, [], x);
        MsgsConcat(s.done, Marked(batch, false));
        MarkedMsgs(batch, false);
        TimesConcat(Msgs(s.done), batch, x);
      }
  }

  lemma StepConserved(s: State, a: Step, maxBatch: nat)
    requires Conserved(s) && Enabled(s, a)
    ensures Conserved(Next(s, a, maxBatch))
  {
    forall x {
      StepConserves(s, a, maxBatch, x);
    }
  }

  lemma {:induction false} RunConserved(s: State, acts: seq<Step>, maxBatch: nat, s': State)
    requires Conserved(s) && IsRun(s, acts, maxBatch, s')
    ensures Conserved(s')
    decreases |acts|
  {
    if acts != [] {
      StepConserved(s, acts[0], maxBatch);
      RunConserved(Next(s, acts[0], maxBatch), acts[1..], maxBatch, s');
    }
  }

  lemma {:induction false} NothingInFlight(flushers: nat)
    ensures Flatten(Start(flushers).flights) == []
  {
    if flushers > 0 {
      NothingInFlight(flushers - 1);
      assert Start(flushers).flights[1..] == Start(flushers - 1).flights;
    }
  }

  /** From the start, with any number of flushers and any failures. */
  lemma EveryRunConserved(flushers: nat, acts: seq<Step>, maxBatch: nat, s: State)
    requires IsRun(Start(flushers), acts, maxBatch, s)
    ensures Conserved(s)
  {
    NothingInFlight(flushers);
    assert Msgs([]) == [];
    RunConserved(Start(flushers), acts, maxBatch, s);
  }

  // ---------- Order, with a single flusher ----------

  /** Dealt with, then in flight, then pending: the added messages in the order they came. */
  ghost predicate InOrder(s: State) {
    |s.flights| == 1 && Msgs(s.done) + s.flights[0] + s.pending == s.added
  }

  lemma StepInOrder(s: State, a: Step, maxBatch: nat)
    requires InOrder(s) && Enabled(s, a)
    ensures InOrder(Next(s, a, maxBatch))
  {
    match a
    case Add(_) =>
    case Notify =>
    case Wake =>
    case Swap(f, _) =>
      assert s.flights[0] == [];
    case Insert(f, ok) =>
      var batch := s.flights[0];
      if ok {
        MsgsConcat(s.done, [Fate(batch[0], true)]);
        assert Msgs([Fate(batch[0], true)]) == [batch[0]];
        assert batch == [batch[0]] + batch[1..];
      } else {
        MsgsConcat(s.done, Marked(batch, false));
        MarkedMsgs(batch, false);
      }
  }

  /** One flusher, any failures: every message is dealt with in the order it was added. */
  lemma {:induction false} SingleFlusherInOrder(s: State, acts: seq<Step>, maxBatch: nat, s': State)
    requires InOrder(s) && IsRun(s, acts, maxBatch, s')
    ensures InOrder(s')
    decreases |acts|
  {
    if acts != [] {
      StepInOrder(s, acts[0], maxBatch);
      SingleFlusherInOrder(Next(s, acts[0], maxBatch), acts[1..], maxBatch, s');
    }
  }

  /** The store's contents. */
  function Stored(done: seq<Fate>): seq<Message> {
    if done == [] then []
    else Stored(done[..|done| - 1]) + if done[|done| - 1].stored then [done[|done| - 1].msg] else []
  }

  ghost predicate NoneFailed(done: seq<Fate>) {
    forall i :: 0 <= i < |done| ==> done[i].stored
  }

  lemma {:induction false} StoredAll(done: seq<Fate>)
    ensures NoneFailed(done) ==> Stored(done) == Msgs(done)
    ensures |Stored(done)| <= |done|
    ensures |Stored(done)| == |done| ==> NoneFailed(done)
  {
    if done != [] {
      var n := |done| - 1;
      StoredAll(done[..n]);
      assert Msgs(done) == Msgs(done[..n]) + [done[n].msg];
      if |Stored(done)| == |done| {
        assert NoneFailed(done[..n]) && done[n].stored;
      }
    }
  }

  /** With one flusher: stored, then in flight, then pending make up the added messages exactly when no insert failed. */
  lemma StoredIsPrefixIffNoneFailed(acts: seq<Step>, maxBatch: nat, s: State)
    requires IsRun(Start(1), acts, maxBatch, s)
    ensures |s.flights| == 1
    ensures Stored(s.done) + s.flights[0] + s.pending == s.added <==> NoneFailed(s.done)
  {
    SingleFlusherInOrder(Start(1), acts, maxBatch, s);
    StoredAll(s.done);
    assert |s.added| == |s.done| + |s.flights[0]| + |s.pending|;
    assert |Stored(s.done) + s.flights[0] + s.pending| == |Stored(s.done)| + |s.flights[0]| + |s.pending|;
  }

  /** Some insert of the run fails. */
  ghost predicate AnyFails(acts: seq<Step>) {
    exists i :: 0 <= i < |acts| && acts[i].Insert? && !acts[i].ok
  }

  lemma {:induction false} FailsFrom(s: State, acts: seq<Step>, maxBatch: nat, s': State)
    requires IsRun(s, acts, maxBatch, s')
    ensures NoneFailed(s'.done) <==> NoneFailed(s.done) && !AnyFails(acts)
    decreases |acts|
  {
    if acts != [] {
      var a, s1 := acts[0], Next(s, acts[0], maxBatch);
      FailsFrom(s1, acts[1..], maxBatch, s');
      AnyFailsSplit(acts);
      if a.Insert? && !a.ok {
        assert !s1.done[|s.done|].stored;
      } else if NoneFailed(s1.done) {
        assert forall i :: 0 <= i < |s.done| ==> s.done[i] == s1.done[i];
      }
    }
  }

  lemma AnyFailsSplit(acts: seq<Step>)
    requires acts != []
    ensures AnyFails(acts) <==> (acts[0].Insert? && !acts[0].ok) || AnyFails(acts[1..])
  {
    if AnyFails(acts[1..]) {
      var i :| 0 <= i < |acts[1..]| && acts[1..][i].Insert? && !acts[1..][i].ok;
      assert acts[i + 1] == acts[1..][i];
    }
    if AnyFails(acts) && !(acts[0].Insert? && !acts[0].ok) {
      var i :| 0 <= i < |acts| && acts[i].Insert? && !acts[i].ok;
      assert acts[1..][i - 1] == acts[i];
    }
  }

  /** Told from the steps: with one flusher the store is complete up to what is in flight and pending iff no insert failed. */
  lemma CompleteIffNoInsertFails(acts: seq<Step>, maxBatch: nat, s: State)
    requires IsRun(Start(1), acts, maxBatch, s)
    ensures |s.flights| == 1 && (Stored(s.done) + s.flights[0] + s.pending == s.added <==> !AnyFails(acts))
  {
    StoredIsPrefixIffNoneFailed(acts, maxBatch, s);
    FailsFrom(Start(1), acts, maxBatch, s);
  }

  lemma {:induction false} IdleUntilSwap(s: State, f: nat, acts: seq<Step>, maxBatch: nat, s': State)
    requires f < |s.flights| && s.flights[f] == [] && IsRun(s, acts, maxBatch, s')
    requires forall i :: 0 <= i < |acts| ==> !(acts[i].Swap? && acts[i].f == f)
    ensures forall i :: 0 <= i < |acts| ==> !(acts[i].Insert? && acts[i].f == f)
    decreases |acts|
  {
    if acts != [] {
      assert !(acts[0].Swap? && acts[0].f == f);
      IdleUntilSwap(Next(s, acts[0], maxBatch), f, acts[1..], maxBatch, s');
      forall i | 0 <= i < |acts| ensures !(acts[i].Insert? && acts[i].f == f) {
        if i > 0 { assert acts[i] == acts[1..][i - 1]; }
      }
    }
  }

  /**
  A failing insert is the end of its batch: nothing of what was left of it is stored, and whatever the others do, its
  flusher inserts nothing more before it swaps in a new batch.
  */
  lemma FailureEndsTheBatch(s: State, f: nat, maxBatch: nat, acts: seq<Step>, s': State)
    requires Enabled(s, Insert(f, false)) && IsRun(Next(s, Insert(f, false), maxBatch), acts, maxBatch, s')
    requires forall i :: 0 <= i < |acts| ==> !(acts[i].Swap? && acts[i].f == f)
    ensures forall i :: 0 <= i < |acts| ==> !(acts[i].Insert? && acts[i].f == f)
    ensures var done := Next(s, Insert(f, false), maxBatch).done;
      && |done| == |s.done| + |s.flights[f]| && done[..|s.done|] == s.done
      && forall i :: 0 <= i < |s.flights[f]| ==> done[|s.done| + i] == Fate(s.flights[f][i], false)
  {
    IdleUntilSwap(Next(s, Insert(f, false), maxBatch), f, acts, maxBatch, s');
  }

  /** Every run without a failed insert stores the messages in the order they were added. */
  ghost predicate OrderKept(flushers: nat, maxBatch: nat) {
    forall acts, s :: IsRun(Start(flushers), acts, maxBatch, s) && NoneFailed(s.done) ==> Stored(s.done) <= s.added
  }

  /** That holds exactly as long as at most one flusher is at work. */
  lemma OrderKeptIffOneFlusher(flushers: nat, maxBatch: nat)
    ensures OrderKept(flushers, maxBatch) <==> flushers <= 1
  {
    if flushers <= 1 {
      forall acts, s | IsRun(Start(flushers), acts, maxBatch, s) && NoneFailed(s.done) ensures Stored(s.done) <= s.added {
        if flushers == 0 {
          NoFlusherStoresNothing(Start(0), acts, maxBatch, s);
        } else {
          StoredIsPrefixIffNoneFailed(acts, maxBatch, s);
        }
      }
    } else {
      var acts, s := TwoFlushersCanReorder(flushers, maxBatch, 0, 1);
      assert Stored(s.done)[0] != s.added[0];
    }
  }

  lemma {:induction false} NoFlusherStoresNothing(s: State, acts: seq<Step>, maxBatch: nat, s': State)
    requires s.flights == [] && s.done == [] && IsRun(s, acts, maxBatch, s')
    ensures s'.done == []
    decreases |acts|
  {
    if acts != [] { NoFlusherStoresNothing(Next(s, acts[0], maxBatch), acts[1..], maxBatch, s'); }
  }

  /** Among two flushers or more, a second can overtake the first. */
  lemma TwoFlushersCanReorder(flushers: nat, maxBatch: nat, m: Message, n: Message) returns (acts: seq<Step>, s: State)
    requires flushers >= 2
    ensures IsRun(Start(flushers), acts, maxBatch, s) && NoneFailed(s.done)
    ensures s.added == [m, n] && Stored(s.done) == [n, m]
  {
    var s1 := Next(Start(flushers), Add(m), maxBatch);
    var s2 := Next(s1, Swap(0, false), maxBatch);
    acts, s := SecondFlusherFirst(s2, maxBatch, m, n);
    acts := RunMore(s1, Swap(0, false), acts, maxBatch, s);
    acts := RunMore(Start(flushers), Add(m), acts, maxBatch, s);
  }

  lemma SecondFlusherFirst(s2: State, maxBatch: nat, m: Message, n: Message) returns (acts: seq<Step>, s: State)
    requires |s2.flights| >= 2 && s2.flights[0] == [m] && s2.flights[1] == []
    requires s2.added == [m] && s2.pending == [] && s2.done == []
    ensures IsRun(s2, acts, maxBatch, s) && NoneFailed(s.done)
    ensures s.added == [m, n] && Stored(s.done) == [n, m]
  {
    var s3 := Next(s2, Add(n), maxBatch);
    var s4 := Next(s3, Swap(1, false), maxBatch);
    var s5 := Next(s4, Insert(1, true), maxBatch);
    s := Next(s5, Insert(0, true), maxBatch);
    acts := RunMore(s5, Insert(0, true), [], maxBatch, s);
    acts := RunMore(s4, Insert(1, true), acts, maxBatch, s);
    acts := RunMore(s3, Swap(1, false), acts, maxBatch, s);
    acts := RunMore(s2, Add(n), acts, maxBatch, s);
    assert s.done == [Fate(n, true), Fate(m, true)];
    StoredAll(s.done);
    assert Msgs(s.done) == [n, m];
  }

  lemma RunMore(s: State, a: Step, acts: seq<Step>, maxBatch: nat, s': State) returns (more: seq<Step>)
    requires Enabled(s, a) && IsRun(Next(s, a, maxBatch), acts, maxBatch, s')
    ensures IsRun(s, more, maxBatch, s')
  {
    more := [a] + acts;
    assert more[1..] == acts;
  }

  // ---------- No wake-up is lost ----------

  /** A full pending slice always has a wake-up on the way. */
  ghost predicate WillFlush(s: State, maxBatch: nat) {
    |s.pending| >= maxBatch ==> s.signal || s.notifying > 0 || s.awake > 0
  }

  lemma {:induction false} NoLostWakeup(s: State, acts: seq<Step>, maxBatch: nat, s': State)
    requires maxBatch > 0 && WillFlush(s, maxBatch) && IsRun(s, acts, maxBatch, s')
    ensures WillFlush(s', maxBatch)
    decreases |acts|
  {
    if acts != [] {
      NoLostWakeup(Next(s, acts[0], maxBatch), acts[1..], maxBatch, s');
    }
  }
}
