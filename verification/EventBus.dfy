/**
The stream bus: a fixed-size ring of sequence-numbered events, polled with a cursor.

The ring is proved to refine an unbounded append-only log: publishing appends, and a poll
is a function (`Poll`) of the log, the ring size and the cursor alone.  What consumers may
rely on is then proved about that function for every interleaving of publishes and polls.
*/
module EventBus {
  const DEFAULT_MAX_EVENTS := 1024
  const MAX_BATCH_SIZE := 128

  // The bus never looks inside the content; a string stands for it.
  datatype MatrixEvent = MatrixEvent(seqNo: nat, id: string, roomId: string, sender: string, kind: string, content: string)

  function Min(a: nat, b: nat): nat { if a <= b then a else b }

  // ---------- The log, and what a poll answers from it ----------

  /** Every event ever published, in order; position k carries sequence number k + 1. */
  ghost predicate IsLog(log: seq<MatrixEvent>) {
    forall k :: 0 <= k < |log| ==> log[k].seqNo == k + 1
  }

  /** Sequence number of the oldest event a ring of `size` slots still holds (1 for an empty log). */
  function Oldest(published: nat, size: nat): nat {
    published - Min(published, size) + 1
  }

  datatype Answer = Answer(events: seq<MatrixEvent>, next: nat, reset: bool)

  /** The answer to a poll, read off the log. */
  function Poll(log: seq<MatrixEvent>, size: nat, cursor: nat): Answer {
    if cursor + 1 < Oldest(|log|, size) then
      Answer([], Oldest(|log|, size), true)
    else if cursor >= |log| then
      Answer([], cursor, false)
    else
      var next := cursor + Min(MAX_BATCH_SIZE, |log| - cursor);
      Answer(log[cursor..next], next, false)
  }

  // ---------- Ring positions ----------

  /** Slot of the i-th retained event, with the wrap-around written out. */
  function Slot(start: nat, i: nat, size: nat): (slot: nat)
    requires start < size && i <= size
    ensures slot < size
  {
    if start + i < size then start + i else start + i - size
  }

  lemma ModIs(x: nat, q: nat, size: nat, m: nat)
    requires x == q * size + m && m < size
    ensures x % size == m
  {
    var d := q - x / size;
    assert d * size == x % size - m by {
      assert (x / size) * size + x % size == x;
      assert d * size == q * size - (x / size) * size;
    }
    Multiple(d, size);
  }

  lemma Multiple(d: int, size: nat)
    ensures d >= 1 ==> d * size >= size
    ensures d <= -1 ==> d * size + size <= 0
  {
    if d >= 1 {
      assert (d - 1) * size >= 0;
    } else if d <= -1 {
      assert (-1 - d) * size >= 0;
    }
  }

  /** The code's modular index is that slot. */
  lemma SlotIsModular(start: nat, i: nat, size: nat)
    requires start < size && i <= size
    ensures (start + i) % size == Slot(start, i, size)
  {
    ModIs(start + i, if start + i < size then 0 else 1, size, Slot(start, i, size));
  }

  /** The `count` slots from `start` on hold the last `count` events of the log, in order. */
  ghost predicate RingHolds(ring: seq<MatrixEvent>, start: nat, count: nat, log: seq<MatrixEvent>)
    requires start < |ring| && count <= |ring| && count <= |log|
  {
    forall i :: 0 <= i < count ==> ring[Slot(start, i, |ring|)] == log[|log| - count + i]
  }

  /** Writing one past the retained events appends, and drops the oldest event when the ring is full. */
  lemma RingPush(ring: seq<MatrixEvent>, start: nat, count: nat, log: seq<MatrixEvent>, e: MatrixEvent)
    requires start < |ring| && count <= |ring| && count <= |log|
    requires RingHolds(ring, start, count, log)
    ensures var ring' := ring[Slot(start, count, |ring|) := e];
      if count < |ring| then RingHolds(ring', start, count + 1, log + [e])
      else RingHolds(ring', Slot(start, 1, |ring|), count, log + [e])
  {
    if count == |ring| {
      var start' := Slot(start, 1, |ring|);
      forall i | 0 <= i < count
        ensures ring[Slot(start, count, |ring|) := e][Slot(start', i, |ring|)] == (log + [e])[|log| + 1 - count + i]
      {
        assert Slot(start', i, |ring|) == Slot(start, i + 1, |ring|);
      }
    }
  }

  lemma LogGrows(log: seq<MatrixEvent>, e: MatrixEvent)
    requires IsLog(log) && e.seqNo == |log| + 1
    ensures IsLog(log + [e])
  {
  }

  class MatrixEventBus {
    var buffer: array<MatrixEvent>
    var size: nat
    var start: nat
    var count: nat
    var nextSeq: nat
    var batch: array<MatrixEvent>
    ghost var log: seq<MatrixEvent>

    /** The ring holds exactly the last min(published, size) events, in ring order. */
    ghost predicate Valid()
      reads this, buffer
    {
      && size > 0 && buffer.Length == size && start < size
      && batch.Length == MAX_BATCH_SIZE && batch != buffer
      && IsLog(log)
      && nextSeq == |log| + 1
      && count == Min(|log|, size)
      && RingHolds(buffer[..], start, count, log)
    }

    constructor (requested: int)
      ensures Valid() && fresh(buffer) && fresh(batch)
      ensures log == []
      ensures size == if requested <= 0 then DEFAULT_MAX_EVENTS else requested
    {
      var n := if requested <= 0 then DEFAULT_MAX_EVENTS else requested;
      buffer := new MatrixEvent[n](_ => MatrixEvent(0, "", "", "", "", ""));
      batch := new MatrixEvent[MAX_BATCH_SIZE](_ => MatrixEvent(0, "", "", "", "", ""));
      size, start, count, nextSeq, log := n, 0, 0, 1, [];
    }

    method Publish(e: MatrixEvent) returns (seqNo: nat)
      requires Valid()
      modifies this, buffer
      ensures Valid() && size == old(size) && buffer == old(buffer) && batch == old(batch)
      ensures seqNo == |old(log)| + 1
      ensures log == old(log) + [e.(seqNo := seqNo)]
    {
      seqNo := nextSeq;
      var stamped := e.(seqNo := seqNo);
      nextSeq := nextSeq + 1;
      var idx := (start + count) % size;
      SlotIsModular(start, count, size);
      SlotIsModular(start, 1, size);
      RingPush(buffer[..], start, count, log, stamped);
      LogGrows(log, stamped);
      buffer[idx] := stamped;
      assert buffer[..] == old(buffer[..])[idx := stamped];
      log := log + [stamped];
      if count < size {
        count := count + 1;
      } else {
        start := (start + 1) % size;
      }
    }

    /** The i-th retained event, read at its ring index. */
    function Retained(i: nat): (e: MatrixEvent)
      requires Valid() && i < count
      reads this, buffer
      ensures e == log[|log| - count + i]
    {
      SlotIsModular(start, i, size);
      assert buffer[..][Slot(start, i, size)] == log[|log| - count + i];
      buffer[(start + i) % size]
    }

    /** A poll under the lock.  The answer is copied out of the shared batch buffer. */
    method GetEventsAfter(cursor: nat) returns (events: seq<MatrixEvent>, next: nat, reset: bool)
      requires Valid()
      modifies batch
      ensures Valid()
      ensures Answer(events, next, reset) == Poll(log, size, cursor)
    {
      if count == 0 {
        return [], cursor, false;
      }
      var oldest := Retained(0).seqNo;
      var newest := Retained(count - 1).seqNo;
      if cursor < oldest - 1 {
        return [], oldest, true;
      }
      if cursor >= newest {
        return [], cursor, false;
      }
      var batchCount := 0;
      var lastSeq := 0;
      var i := 0;
      ghost var skipped := cursor - (|log| - count);
      while i < count && batchCount < MAX_BATCH_SIZE
        invariant Valid()
        invariant 0 <= i <= count
        invariant batchCount == (if i <= skipped then 0 else i - skipped) <= MAX_BATCH_SIZE
        invariant forall j :: 0 <= j < batchCount ==> batch[j] == log[cursor + j]
        invariant batchCount > 0 ==> lastSeq == cursor + batchCount
      {
        var ev := Retained(i);
        if ev.seqNo > cursor {
          batch[batchCount] := ev;
          batchCount := batchCount + 1;
          lastSeq := ev.seqNo;
        }
        i := i + 1;
      }
      if batchCount == 0 {
        return [], cursor, false;
      }
      return batch[..batchCount], lastSeq, false;
    }
  }

  // ---------- Consumers over whole runs ----------

  /** One consumer beside the log: its cursor, what it was handed, and the sequence numbers a reset jumped over. */
  datatype Stream = Stream(log: seq<MatrixEvent>, cursor: nat, received: seq<MatrixEvent>, missed: set<nat>)

  // Polls by other consumers change none of this, so they are not steps.
  datatype Action = Published(e: MatrixEvent) | Polled

  function Step(s: Stream, a: Action, size: nat): Stream {
    match a
    case Published(e) => s.(log := s.log + [e.(seqNo := |s.log| + 1)])
    case Polled =>
      var r := Poll(s.log, size, s.cursor);
      Stream(s.log, r.next, s.received + r.events,
             if r.reset then s.missed + Range(s.cursor, r.next) else s.missed)
  }

  function Run(s: Stream, acts: seq<Action>, size: nat): Stream
    decreases |acts|
  {
    if acts == [] then s else Run(Step(s, acts[0], size), acts[1..], size)
  }

  predicate Above(n: nat, bound: nat) { bound < n }

  function Range(bound: nat, last: nat): set<nat> {
    set n: nat | n <= last && Above(n, bound)
  }

  /** The events numbered from+1..last, in order, leaving out the missed ones. */
  ghost function Delivered(log: seq<MatrixEvent>, from: nat, last: nat, missed: set<nat>): seq<MatrixEvent>
    requires from < last ==> last <= |log|
    decreases last
  {
    if last <= from then []
    else Delivered(log, from, last - 1, missed) + if last in missed then [] else [log[last - 1]]
  }

  /** A start at `from`, the consumer's position and everything it has seen agree. */
  ghost predicate Accounted(s: Stream, from: nat) {
    && IsLog(s.log)
    && from <= s.cursor
    && (from < s.cursor ==> s.cursor <= |s.log|)
    && s.missed <= Range(from, s.cursor)
    && s.received == Delivered(s.log, from, s.cursor, s.missed)
  }

  lemma DeliveredFrame(log: seq<MatrixEvent>, log': seq<MatrixEvent>, from: nat, last: nat, missed: set<nat>, missed': set<nat>)
    requires from < last ==> last <= |log|
    requires log <= log'
    requires forall n: nat :: n <= last ==> (n in missed <==> n in missed')
    ensures Delivered(log, from, last, missed) == Delivered(log', from, last, missed')
    decreases last
  {
    if from < last { DeliveredFrame(log, log', from, last - 1, missed, missed'); }
  }

  /** Walking on over events none of which is missed hands over exactly that slice of the log. */
  lemma {:induction false} DeliveredSlice(log: seq<MatrixEvent>, from: nat, mid: nat, last: nat, missed: set<nat>)
    requires from <= mid <= last <= |log|
    requires missed <= Range(from, mid)
    ensures Delivered(log, from, last, missed) == Delivered(log, from, mid, missed) + log[mid..last]
    decreases last
  {
    if mid < last {
      DeliveredSlice(log, from, mid, last - 1, missed);
      assert log[mid..last] == log[mid..last - 1] + [log[last - 1]];
    }
  }

  lemma {:induction false} DeliveredGap(log: seq<MatrixEvent>, from: nat, mid: nat, last: nat, missed: set<nat>)
    requires from <= mid <= last <= |log|
    requires Range(mid, last) <= missed
    ensures Delivered(log, from, last, missed) == Delivered(log, from, mid, missed)
    decreases last
  {
    if mid < last {
      assert last in Range(mid, last);
      assert Range(mid, last - 1) <= Range(mid, last);
      DeliveredGap(log, from, mid, last - 1, missed);
    }
  }

  lemma StepAccounted(s: Stream, a: Action, from: nat, size: nat)
    requires size > 0 && Accounted(s, from)
    ensures Accounted(Step(s, a, size), from)
  {
    var s' := Step(s, a, size);
    match a
    case Published(e) =>
      DeliveredFrame(s.log, s'.log, from, s.cursor, s.missed, s.missed);
    case Polled =>
      if Poll(s.log, size, s.cursor).reset {
        DeliveredGap(s.log, from, s.cursor, s'.cursor, s'.missed);
        DeliveredFrame(s.log, s.log, from, s.cursor, s.missed, s'.missed);
      } else if s.cursor < |s.log| {
        DeliveredSlice(s.log, from, s.cursor, s'.cursor, s.missed);
      }
  }

  /**
  For every interleaving of publishes and polls, whatever resets happen: the consumer has been
  handed the events after its start cursor up to its present one, each exactly once and in log
  order, except exactly the ones its resets jumped over.
  */
  lemma {:induction false} RunAccounted(s: Stream, acts: seq<Action>, from: nat, size: nat)
    requires size > 0 && Accounted(s, from)
    ensures Accounted(Run(s, acts, size), from)
    decreases |acts|
  {
    if acts != [] {
      StepAccounted(s, acts[0], from, size);
      RunAccounted(Step(s, acts[0], size), acts[1..], from, size);
    }
  }

  /** A consumer that never sees a reset has received precisely the log from its start cursor on. */
  lemma NoResetNoGap(log: seq<MatrixEvent>, from: nat, acts: seq<Action>, size: nat)
    requires size > 0 && IsLog(log)
    requires Run(Stream(log, from, [], {}), acts, size).missed == {}
    ensures var s := Run(Stream(log, from, [], {}), acts, size);
      if s.cursor == from then s.received == []
      else from < s.cursor <= |s.log| && s.received == s.log[from..s.cursor]
  {
    var s := Run(Stream(log, from, [], {}), acts, size);
    RunAccounted(Stream(log, from, [], {}), acts, from, size);
    if s.cursor != from {
      DeliveredSlice(s.log, from, from, s.cursor, {});
    }
  }

  /**
  A poll resets exactly when the next event the consumer wants has been overwritten.  The cursor it
  is sent to is the oldest event still in the ring, and resuming there hands over everything
  after that event but never the event itself, although it is still retained.
  */
  lemma ResetExactly(log: seq<MatrixEvent>, size: nat, cursor: nat)
    requires size > 0 && IsLog(log)
    ensures Poll(log, size, cursor).reset <==> cursor + size < |log|
    ensures Poll(log, size, cursor).reset ==>
      var next := Poll(log, size, cursor).next;
      && log[next - 1..] == log[|log| - size..]
      && !Poll(log, size, next).reset
      && log[next - 1] !in Poll(log, size, next).events
      && Poll(log, size, next).events <= log[next..]
      && (Poll(log, size, next).events == [] <==> size == 1)
  {
  }

  /**
  Sufficient pacing: a consumer that polls at least once every k publishes, k no larger than the batch
  size or the ring, and starts with k slots to spare, is never reset.
  */
  ghost predicate Paced(acts: seq<Action>, k: nat, sincePoll: nat) {
    acts != [] ==>
      match acts[0]
      case Published(_) => sincePoll < k && Paced(acts[1..], k, sincePoll + 1)
      case Polled => Paced(acts[1..], k, 0)
  }

  lemma {:induction false} PacedNeverReset(s: Stream, acts: seq<Action>, k: nat, sincePoll: nat, size: nat)
    requires k <= MAX_BATCH_SIZE && k <= size
    requires sincePoll <= k && Paced(acts, k, sincePoll)
    requires |s.log| <= s.cursor + size - k + sincePoll
    ensures Run(s, acts, size).missed == s.missed
    decreases |acts|
  {
    if acts != [] {
      PacedNeverReset(Step(s, acts[0], size), acts[1..], k, if acts[0].Polled? then 0 else sincePoll + 1, size);
    }
  }

  function Polls(n: nat): seq<Action> { seq(n, _ => Polled) }

  /** With publishing stopped, n polls advance by exactly 128 events each until the log is exhausted. */
  lemma {:induction false} DrainExactly(s: Stream, n: nat, size: nat)
    requires Oldest(|s.log|, size) <= s.cursor + 1 <= |s.log| + 1
    ensures var s' := Run(s, Polls(n), size);
      && s'.cursor == Min(|s.log|, s.cursor + MAX_BATCH_SIZE * n)
      && s'.received == s.received + s.log[s.cursor..s'.cursor]
      && s'.log == s.log && s'.missed == s.missed
      && (s'.cursor == |s.log| <==> n >= (|s.log| - s.cursor + MAX_BATCH_SIZE - 1) / MAX_BATCH_SIZE)
    decreases n
  {
    if n > 0 {
      assert Polls(n)[1..] == Polls(n - 1);
      var s1 := Step(s, Polled, size);
      DrainExactly(s1, n - 1, size);
      var s' := Run(s, Polls(n), size);
      assert s.log[s.cursor..s'.cursor] == s.log[s.cursor..s1.cursor] + s.log[s1.cursor..s'.cursor];
    } else {
      assert Run(s, Polls(0), size) == s;
    }
  }
}
