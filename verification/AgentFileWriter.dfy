/**
The agent's event log: lines cut to the pipe write size, and a soft cap after which nothing more is written.
*/
module AgentFileWriter {
  import opened Options
  import opened Json
  import opened EventLine

  const SOFT_CAP_BYTES := 10 * 1024 * 1024

  const HEADER := "# Agent execution events\n"

  datatype Request = Request(kind: string, name: string, detail: Option<Dict>, duration: Option<int>, ts: int, sizeKnown: bool)

  /** The log as far as the cap is concerned: its size, and how many size checks have failed. */
  datatype Log = Log(size: nat, capped: bool, events: seq<Event>, blind: nat)

  /** The event a request asks for, and the one written for it. */
  function Asked(n: nat, r: Request): Event {
    Event(n, r.kind, r.name, r.ts, if r.detail.Some? then r.detail.value else Empty, r.duration)
  }

  function EventFor(n: nat, r: Request): Event {
    Appended(Asked(n, r))
  }

  /** One append_event: nothing once capped; the cap is noticed when the size is known; an unknown size writes. */
  function After(l: Log, r: Request): Log {
    if l.capped then l
    else if r.sizeKnown && l.size >= SOFT_CAP_BYTES then l.(capped := true)
    else
      var e := EventFor(|l.events| + 1, r);
      Log(l.size + Size(e, false), false, l.events + [e], l.blind + if r.sizeKnown then 0 else 1)
  }

  lemma {:induction false} Utf8Concat(a: string, b: string)
    ensures Utf8Len(a + b) == Utf8Len(a) + Utf8Len(b)
  {
    if a == "" {
      assert a + b == b;
    } else {
      assert a + b == [a[0]] + (a[1..] + b);
      Front(a[0], a[1..] + b);
      Utf8Concat(a[1..], b);
    }
  }

  class Writer {
    var file: string
    var seqNo: nat
    var capped: bool
    ghost var log: Log
    ghost const initial: nat // size of the file once the header was written
    ghost var requests: seq<Request> // what the writer was asked to append

    /** The fields are those of the log. */
    ghost predicate Matches()
      reads this
    {
      log.size == Utf8Len(file) && log.capped == capped && seqNo == |log.events|
    }

    /** And the log is the one the requests so far lead to. */
    ghost predicate Valid()
      reads this
    {
      Matches() && log == Run(NewLog(initial), requests)
    }

    constructor (existing: string)
      ensures Valid() && file == existing + HEADER && initial == Utf8Len(file) && requests == []
    {
      file, seqNo, capped := existing + HEADER, 0, false;
      initial, requests := Utf8Len(existing + HEADER), [];
      log := NewLog(Utf8Len(existing + HEADER));
    }

    /** Whether writing may proceed. */
    method CheckCap(sizeKnown: bool) returns (ok: bool)
      requires Matches()
      modifies this`capped, this`log
      ensures Matches() && log == old(log).(capped := capped)
      ensures capped == (old(capped) || (sizeKnown && Utf8Len(file) >= SOFT_CAP_BYTES))
      ensures ok == !capped
    {
      if capped {
        return false;
      }
      if !sizeKnown {
        return true;
      }
      if Utf8Len(file) >= SOFT_CAP_BYTES {
        capped := true;
        log := log.(capped := true);
        return false;
      }
      return true;
    }

    /** The line to write for `original`, cut in up to four stages. */
    method EnforcePipeBuf(original: Event) returns (event: Event, line: string)
      ensures event == Appended(original) && line == Line(event, false)
    {
      event, line := original, Line(original, false);
      if Utf8Len(line) <= PIPE_BUF {
        return;
      }
      var originalSize := Utf8Len(line);
      event := event.(detail := Marker(originalSize));
      line := Line(event, false);
      if Utf8Len(line) <= PIPE_BUF {
        return;
      }
      event := event.(name := Take(event.name, 64));
      line := Line(event, false);
      if Utf8Len(line) <= PIPE_BUF {
        return;
      }
      event := event.(detail := Empty);
      line := Line(event, false);
      if Utf8Len(line) > PIPE_BUF {
        assert Take(Take(original.name, 64), 32) == Take(original.name, 32);
        event := event.(name := Take(event.name, 32));
        line := Line(event, false);
      }
    }

    method AppendEvent(r: Request) returns (event: Option<Event>)
      requires Valid()
      modifies this
      ensures Valid() && requests == old(requests) + [r] && log == After(old(log), r)
      ensures event.Some? <==> |log.events| == |old(log).events| + 1
      ensures event.Some? ==> event.value == log.events[|log.events| - 1] && file == old(file) + Line(event.value, false)
      ensures event.None? ==> file == old(file) && seqNo == old(seqNo)
    {
      event := Append(r);
      RunMore(NewLog(initial), requests, r);
      requests := requests + [r];
    }

    /** The same without the record of requests. */
    method Append(r: Request) returns (event: Option<Event>)
      requires Matches()
      modifies this`file, this`seqNo, this`capped, this`log
      ensures Matches() && log == After(old(log), r)
      ensures event.Some? <==> |log.events| == |old(log).events| + 1
      ensures event.Some? ==> event.value == log.events[|log.events| - 1] && file == old(file) + Line(event.value, false)
      ensures event.None? ==> file == old(file) && seqNo == old(seqNo)
    {
      if capped {
        return None;
      }
      var ok := CheckCap(r.sizeKnown);
      if !ok {
        return None;
      }
      seqNo := seqNo + 1;
      var e, line := EnforcePipeBuf(Event(seqNo, r.kind, r.name, r.ts, if r.detail.Some? then r.detail.value else Empty, r.duration));
      Utf8Concat(file, line);
      file := file + line;
      log := After(log, r);
      return Some(e);
    }
  }

  // ---------- Runs ----------

  function Run(l: Log, rs: seq<Request>): Log {
    if rs == [] then l else After(Run(l, rs[..|rs| - 1]), rs[|rs| - 1])
  }

  function NewLog(initial: nat): Log { Log(initial, false, [], 0) }

  lemma RunMore(l: Log, rs: seq<Request>, r: Request)
    ensures Run(l, rs + [r]) == After(Run(l, rs), r)
  {
    assert (rs + [r])[..|rs|] == rs;
  }

  function Max(a: nat, b: nat): nat { if a >= b then a else b }

  ghost predicate AllFit(events: seq<Event>) {
    forall i :: 0 <= i < |events| ==> Fits(events[i], false)
  }

  /**
  Over every run whose lines fit: the log stays within its initial size or one line beyond the cap, whichever is
  larger, plus one line for each size check that failed.
  */
  lemma {:induction false} LogIsBounded(initial: nat, rs: seq<Request>)
    requires AllFit(Run(NewLog(initial), rs).events)
    ensures var l := Run(NewLog(initial), rs);
      l.size <= Max(initial, SOFT_CAP_BYTES - 1 + PIPE_BUF) + PIPE_BUF * l.blind
  {
    if rs != [] {
      var before := Run(NewLog(initial), rs[..|rs| - 1]);
      var l := After(before, rs[|rs| - 1]);
      assert before.events <= l.events;
      assert forall i :: 0 <= i < |before.events| ==> before.events[i] == l.events[i];
      LogIsBounded(initial, rs[..|rs| - 1]);
      if |l.events| > |before.events| {
        assert Fits(l.events[|before.events|], false);
      }
    }
  }

  /** Sequence numbers are 1, 2, 3, ... */
  ghost predicate Numbered(events: seq<Event>) {
    forall i :: 0 <= i < |events| ==> events[i].seqNo == i + 1
  }

  lemma StepNumbered(l: Log, r: Request)
    requires Numbered(l.events)
    ensures Numbered(After(l, r).events)
  {
    NumberKept(|l.events| + 1, r);
    var events := l.events + [EventFor(|l.events| + 1, r)];
    assert Numbered(events);
  }

  lemma {:induction false} SequenceHasNoGaps(initial: nat, rs: seq<Request>)
    ensures Numbered(Run(NewLog(initial), rs).events)
  {
    if rs != [] {
      SequenceHasNoGaps(initial, rs[..|rs| - 1]);
      StepNumbered(Run(NewLog(initial), rs[..|rs| - 1]), rs[|rs| - 1]);
    }
  }

  lemma NumberKept(n: nat, r: Request)
    ensures EventFor(n, r).seqNo == n
  {
  }

  /** In particular for any writer object, however it was used. */
  lemma WriterKeepsBound(w: Writer)
    requires w.Valid() && AllFit(w.log.events)
    ensures Utf8Len(w.file) <= Max(w.initial, SOFT_CAP_BYTES - 1 + PIPE_BUF) + PIPE_BUF * w.log.blind
    ensures Numbered(w.log.events) && w.seqNo == |w.log.events|
  {
    LogIsBounded(w.initial, w.requests);
    SequenceHasNoGaps(w.initial, w.requests);
  }

  // ---------- Which requests are written ----------

  /** Size of the log when `events` have been written to it. */
  function Written(initial: nat, events: seq<Event>): nat {
    if events == [] then initial else Written(initial, events[..|events| - 1]) + Size(events[|events| - 1], false)
  }

  /** This request finds the log at the cap. */
  predicate Stops(initial: nat, events: seq<Event>, r: Request) {
    r.sizeKnown && Written(initial, events) >= SOFT_CAP_BYTES
  }

  /** The events are those of the first requests, one each, and none of these requests found the log at the cap. */
  ghost predicate Wrote(initial: nat, rs: seq<Request>, events: seq<Event>) {
    && |events| <= |rs|
    && (forall i :: 0 <= i < |events| ==> events[i] == Appended(Asked(i + 1, rs[i])))
    && (forall i :: 0 <= i < |events| ==> !Stops(initial, events[..i], rs[i]))
  }

  lemma WroteMore(initial: nat, rs: seq<Request>, events: seq<Event>, r: Request, e: Event)
    requires Wrote(initial, rs, events) && |events| == |rs| && e == Appended(Asked(|events| + 1, r)) && !Stops(initial, events, r)
    ensures Wrote(initial, rs + [r], events + [e]) && Written(initial, events + [e]) == Written(initial, events) + Size(e, false)
  {
    var events' := events + [e];
    assert events'[..|events|] == events;
    forall i | 0 <= i < |events'| ensures !Stops(initial, events'[..i], (rs + [r])[i]) {
      assert events'[..i] == events[..i];
    }
  }

  /** The log after these requests: complete so far, or capped by the first request it did not write. */
  ghost predicate Accounted(initial: nat, rs: seq<Request>, l: Log) {
    && Wrote(initial, rs, l.events) && l.size == Written(initial, l.events)
    && (l.capped <==> |l.events| < |rs|)
    && (|l.events| < |rs| ==> Stops(initial, l.events, rs[|l.events|]))
  }

  lemma StillWrote(initial: nat, rs: seq<Request>, events: seq<Event>, r: Request)
    requires Wrote(initial, rs, events)
    ensures Wrote(initial, rs + [r], events)
  {
    forall i | 0 <= i < |events| ensures !Stops(initial, events[..i], (rs + [r])[i]) {
      assert !Stops(initial, events[..i], rs[i]);
    }
  }

  lemma StepAccounted(initial: nat, rs: seq<Request>, l: Log, r: Request, rs': seq<Request>, l': Log)
    requires Accounted(initial, rs, l) && rs' == rs + [r] && l' == After(l, r)
    ensures Accounted(initial, rs', l')
  {
    if l.capped || Stops(initial, l.events, r) {
      StillWrote(initial, rs, l.events, r);
    } else {
      WroteMore(initial, rs, l.events, r, EventFor(|l.events| + 1, r));
    }
  }

  /**
  Every run writes its first n requests, one line each, under the numbers 1 to n; the next request, if there is one, is
  the first to find the log at the cap with its size known, and the writer is capped exactly then.
  */
  lemma {:induction false} WritesUntilCap(initial: nat, rs: seq<Request>)
    ensures Accounted(initial, rs, Run(NewLog(initial), rs))
  {
    if rs != [] {
      var before, r := rs[..|rs| - 1], rs[|rs| - 1];
      WritesUntilCap(initial, before);
      assert rs == before + [r];
      StepAccounted(initial, before, Run(NewLog(initial), before), r, rs, Run(NewLog(initial), rs));
    }
  }

  /** So a log that is below the cap has lost nothing. */
  lemma BelowCapLosesNothing(initial: nat, rs: seq<Request>)
    requires Run(NewLog(initial), rs).size < SOFT_CAP_BYTES
    ensures var events := Run(NewLog(initial), rs).events;
      && |events| == |rs|
      && forall i :: 0 <= i < |rs| && Fits(Asked(i + 1, rs[i]), false) ==> events[i] == Asked(i + 1, rs[i])
  {
    WritesUntilCap(initial, rs);
  }

  /** Once capped, neither the log nor the numbering changes again. */
  lemma {:induction false} CappedForGood(l: Log, rs: seq<Request>)
    requires l.capped
    ensures Run(l, rs) == l
  {
    if rs != [] { CappedForGood(l, rs[..|rs| - 1]); }
  }

  /** Requests whose type and numbers leave room give lines that fit, whatever their names and details. */
  lemma {:induction false} BoundedRequestsFit(initial: nat, rs: seq<Request>)
    requires forall i :: 0 <= i < |rs| ==>
      DigitCount(|rs|) + StrBytes(rs[i].kind, false) + NumBytes(rs[i].ts) + Bytes(DurationJson(rs[i].duration), false) <= 3830
    ensures AllFit(Run(NewLog(initial), rs).events) && |Run(NewLog(initial), rs).events| <= |rs|
  {
    if rs != [] {
      var n := |rs| - 1;
      MoreDigits(n, n + 1);
      BoundedRequestsFit(initial, rs[..n]);
      var before := Run(NewLog(initial), rs[..n]);
      MoreDigits(|before.events| + 1, n + 1);
      AppendedFits(Event(|before.events| + 1, rs[n].kind, rs[n].name, rs[n].ts, if rs[n].detail.Some? then rs[n].detail.value else Empty, rs[n].duration));
    }
  }

  lemma {:induction false} MoreDigits(m: nat, n: nat)
    requires m <= n
    ensures DigitCount(m) <= DigitCount(n)
  {
    if m >= 10 { MoreDigits(m / 10, n / 10); }
  }
}
