/**
The step event file: the emitter appends one line per event, the step runner reads the file back for its summary and
its list of blockers.  Reading is proved to recover exactly the events that were written.
*/
module EventFile {
  import opened Options
  import opened Json
  import opened EventLine

  const HEADER := "# Agent Studio execution events\n"

  // ---------- Writing ----------

  function FileText(events: seq<Event>): string {
    if events == [] then "" else FileText(events[..|events| - 1]) + Line(events[|events| - 1], true)
  }

  lemma FileTextAppend(start: string, events: seq<Event>, e: Event)
    ensures start + FileText(events + [e]) == start + FileText(events) + Line(e, true)
  {
    assert (events + [e])[..|events|] == events;
  }

  /** The line to write for `original`, cut in up to three stages. */
  method FitToPipe(original: Event) returns (event: Event, line: string)
    ensures event == Emitted(original) && line == Line(event, true) && event.seqNo == original.seqNo
    ensures Utf8Len(Line(original, true)) <= PIPE_BUF ==> event == original
  {
    event, line := original, Line(original, true);
    if Utf8Len(line) > PIPE_BUF {
      var originalSize := Utf8Len(line);
      event := event.(detail := Marker(originalSize));
      line := Line(event, true);
      if Utf8Len(line) > PIPE_BUF {
        event := event.(name := Take(event.name, 64));
        line := Line(event, true);
        if Utf8Len(line) > PIPE_BUF {
          event := event.(detail := Empty);
          line := Line(event, true);
        }
      }
    }
  }

  /** What was written is what the emitter makes of what was asked for. */
  ghost predicate AllEmitted(events: seq<Event>, asked: seq<Event>) {
    |events| == |asked| && forall i :: 0 <= i < |events| ==> events[i] == Emitted(asked[i])
  }

  ghost predicate Numbered(events: seq<Event>) {
    forall i :: 0 <= i < |events| ==> events[i].seqNo == i + 1
  }

  lemma OneMoreEmitted(events: seq<Event>, asked: seq<Event>, e: Event)
    requires AllEmitted(events, asked) && Numbered(events) && e.seqNo == |events| + 1
    ensures AllEmitted(events + [Emitted(e)], asked + [e]) && Numbered(events + [Emitted(e)])
  {
    RestIsKept(e);
  }

  class EventEmitter {
    var file: string
    var seqNo: nat
    ghost var start: string // what the file held when the emitter opened it
    ghost var asked: seq<Event> // the events asked for
    ghost var events: seq<Event> // the events written, as written

    ghost predicate Valid()
      reads this
    {
      && file == start + HEADER + FileText(events)
      && seqNo == |events| == |asked|
      && AllEmitted(events, asked)
      && Numbered(events)
    }

    constructor (existing: string)
      ensures Valid() && asked == [] && events == [] && start == existing
    {
      file, seqNo, start, asked, events := existing + HEADER, 0, existing, [], [];
      new;
      assert file + "" == file;
    }

    method Emit(kind: string, name: string, detail: Option<Dict>, duration: Option<int>, ts: int) returns (event: Event)
      requires Valid()
      modifies this
      ensures Valid() && start == old(start)
      ensures asked == old(asked) + [Event(|old(events)| + 1, kind, name, ts, if detail.Some? then detail.value else Empty, duration)]
      ensures events == old(events) + [event] && event == Emitted(asked[|old(asked)|])
      ensures Fits(asked[|old(asked)|], true) ==> event == asked[|old(asked)|]
      ensures ValidEvents(old(events)) && (detail.Some? ==> ValidDict(detail.value)) ==> ValidEvents(events)
    {
      seqNo := seqNo + 1;
      var original := Event(seqNo, kind, name, ts, if detail.Some? then detail.value else Empty, duration);
      var line;
      event, line := FitToPipe(original);
      StillValid(events, original);
      OneMoreEmitted(events, asked, original);
      FileTextAppend(start + HEADER, events, event);
      file := file + line;
      asked, events := asked + [original], events + [event];
    }

    /** The summary counts the events before it. */
    method Close(elapsed: int, ts: int) returns (summary: Event)
      requires Valid()
      modifies this
      ensures Valid() && start == old(start) && events == old(events) + [summary] && |asked| == |old(asked)| + 1
      ensures ValidEvents(old(events)) ==> ValidEvents(events)
      ensures summary == Emitted(Event(|old(events)| + 1, "_summary", "_summary", ts,
                Entry("total_events", Num(|old(events)|), Entry("total_ms", Num(elapsed), Empty)), None))
    {
      var times := Entry("total_ms", Num(elapsed), Empty);
      assert ValidDict(Entry("total_events", Num(seqNo), times)) by {
        assert "total_ms" != "total_events";
        assert !Has(Empty, "total_events") && !Has(Empty, "total_ms") && ValidDict(Empty);
        assert !Has(times, "total_events");
        assert ValidDict(times);
      }
      summary := Emit("_summary", "_summary", Some(Entry("total_events", Num(seqNo), times)), None, ts);
    }
  }

  // ---------- Reading ----------

  /** Length of the first line, its line break included. */
  function LineEnd(s: string, i: nat): (j: nat)
    requires i <= |s|
    ensures i <= j <= |s| && (i < |s| ==> i < j)
    decreases |s| - i
  {
    if i == |s| then i else if s[i] == '\n' then i + 1 else LineEnd(s, i + 1)
  }

  /** The lines from position i on, each with its line break. */
  function Lines(s: string, i: nat): seq<string>
    requires i <= |s|
    decreases |s| - i
  {
    if i == |s| then [] else [s[i..LineEnd(s, i)]] + Lines(s, LineEnd(s, i))
  }

  /** White space as str.strip understands it. */
  predicate IsSpace(c: char) {
    var n := c as int;
    || 9 <= n <= 13 || 28 <= n <= 32 || n == 0x85 || n == 0xA0 || n == 0x1680 || 0x2000 <= n <= 0x200A
    || n == 0x2028 || n == 0x2029 || n == 0x202F || n == 0x205F || n == 0x3000
  }

  function StripLeft(s: string): string {
    if s != "" && IsSpace(s[0]) then StripLeft(s[1..]) else s
  }

  function StripRight(s: string): string {
    if s != "" && IsSpace(s[|s| - 1]) then StripRight(s[..|s| - 1]) else s
  }

  function Strip(s: string): string { StripRight(StripLeft(s)) }

  /** A line is passed over, holds an event, or makes the reader raise (JSON that is no object has no fields to ask for). */
  datatype LineResult = Skipped | Raises | Holds(event: Dict)

  function ReadLine(line: string): LineResult {
    var t := Strip(line);
    if t == "" || t[0] == '#' then Skipped
    else
      match Loads(t)
      case Fail => Skipped
      case Got(Obj(d), _) => Holds(d)
      case Got(_, _) => Raises
  }

  /** The events of the lines, or none if some line makes the reader raise. */
  function Events(lines: seq<string>): Option<seq<Dict>> {
    if lines == [] then Some([])
    else
      match (Events(lines[..|lines| - 1]), ReadLine(lines[|lines| - 1]))
      case (None, _) => None
      case (Some(ds), Skipped) => Some(ds)
      case (Some(ds), Raises) => None
      case (Some(ds), Holds(d)) => Some(ds + [d])
  }

  // ---------- A written line is read back ----------

  lemma StripLine(x: string)
    requires x != "" && !IsSpace(x[0]) && !IsSpace(x[|x| - 1])
    ensures Strip(x + "\n") == x
  {
    var s := x + "\n";
    assert s[0] == x[0];
    assert StripLeft(s) == s;
    assert s[|s| - 1] == '\n' && s[..|s| - 1] == x;
    assert StripRight(s) == StripRight(x);
  }

  lemma ObjectEnds(d: Dict, ascii: bool)
    ensures var x := Dumps(Obj(d), ascii); x != "" && x[0] == '{' && x[|x| - 1] == '}'
  {
    DictApart(d, ascii, "", "}");
    assert "" + "}" == ['}'] + "";
    var x := DictTo(d, ascii, "") + "}";
    assert DictTo(d, ascii, ['}'] + "") == x;
    Front('{', x);
    assert (['{'] + x)[|x|] == '}';
  }

  lemma EventIsValid(e: Event)
    requires ValidDict(e.detail)
    ensures ValidDict(EventDict(e))
  {
    var d6 := Entry("duration_ms", DurationJson(e.duration), Empty);
    var d5 := Entry("detail", Obj(e.detail), d6);
    var d4 := Entry("ts_ms", Num(e.ts), d5);
    var d3 := Entry("name", Str(e.name), d4);
    var d2 := Entry("type", Str(e.kind), d3);
    assert Valid(DurationJson(e.duration)) && Valid(Obj(e.detail)) && Valid(Num(e.ts)) && Valid(Str(e.name)) && Valid(Str(e.kind));
    assert !Has(d6, "detail") && ValidDict(d6) && ValidDict(d5);
    assert !Has(d6, "ts_ms") && !Has(d5, "ts_ms") && ValidDict(d4);
    assert !Has(d6, "name") && !Has(d5, "name") && !Has(d4, "name") && ValidDict(d3);
    assert !Has(d6, "type") && !Has(d5, "type") && !Has(d4, "type") && !Has(d3, "type") && ValidDict(d2);
    assert |"seq"| == 3 && |"detail"| == 6 && |"ts_ms"| == 5;
    assert "seq"[0] == 's' && "ts_ms"[0] == 't' && "name"[0] == 'n' && "type"[0] == 't';
    assert "seq" != "detail" && "seq" != "ts_ms" && "seq" != "name" && "seq" != "type";
    assert !Has(d6, "seq") && !Has(d5, "seq") && !Has(d4, "seq") && !Has(d3, "seq") && !Has(d2, "seq");
  }

  /** The line of an event is one line, and reading it gives the event's fields. */
  lemma LineReadsBack(e: Event)
    requires ValidDict(e.detail)
    ensures var line := Line(e, true);
      && line != "" && line[|line| - 1] == '\n' && Clean(line[..|line| - 1])
      && ReadLine(line) == Holds(EventDict(e))
  {
    var v := Obj(EventDict(e));
    var x := Dumps(v, true);
    PrintApart(v, true, "", "\n");
    assert "" + "\n" == "\n";
    assert Line(e, true) == x + "\n";
    assert Line(e, true)[..|x|] == x;
    PrintClean(v, "");
    ObjectEnds(EventDict(e), true);
    StripLine(x);
    EventIsValid(e);
    LoadsDumps(v, true);
  }

  // ---------- The whole file is read back ----------

  lemma LineEndSame(a: string, rest: string, i: nat)
    requires i < |a| && a[|a| - 1] == '\n'
    ensures LineEnd(a + rest, i) == LineEnd(a, i)
    decreases |a| - i
  {
    if a[i] != '\n' { LineEndSame(a, rest, i + 1); }
  }

  predicate OneLine(line: string) {
    line != "" && line[|line| - 1] == '\n' && forall j :: 0 <= j < |line| - 1 ==> line[j] != '\n'
  }

  lemma LastLine(s: string, i: nat)
    requires i < |s| && OneLine(s[i..])
    ensures Lines(s, i) == [s[i..]]
  {
    assert forall j :: i <= j < |s| ==> s[j] == s[i..][j - i];
    LineEndIs(s, i);
    assert Lines(s, |s|) == [];
    assert s[i..|s|] == s[i..];
    assert Lines(s, i) == [s[i..|s|]] + [];
  }

  lemma LineEndIs(s: string, i: nat)
    requires i < |s| && s[|s| - 1] == '\n' && forall j :: i <= j < |s| - 1 ==> s[j] != '\n'
    ensures LineEnd(s, i) == |s|
    decreases |s| - i
  {
    if i < |s| - 1 { LineEndIs(s, i + 1); }
  }

  lemma {:induction false} LinesAppend(a: string, line: string, i: nat)
    requires i <= |a| && (a == "" || a[|a| - 1] == '\n') && OneLine(line)
    ensures Lines(a + line, i) == Lines(a, i) + [line]
    decreases |a| - i
  {
    if i == |a| {
      assert (a + line)[i..] == line;
      LastLine(a + line, i);
    } else {
      var j := LineEnd(a, i);
      LineEndSame(a, line, i);
      LinesAppend(a, line, j);
      assert (a + line)[i..j] == a[i..j];
      assert [a[i..j]] + (Lines(a, j) + [line]) == ([a[i..j]] + Lines(a, j)) + [line];
    }
  }

  function Dicts(events: seq<Event>): seq<Dict> {
    if events == [] then [] else Dicts(events[..|events| - 1]) + [EventDict(events[|events| - 1])]
  }

  ghost predicate ValidEvents(events: seq<Event>) {
    forall i :: 0 <= i < |events| ==> ValidDict(events[i].detail)
  }

  lemma HeaderIsSkipped()
    ensures OneLine(HEADER) && ReadLine(HEADER) == Skipped
  {
    var x := "# Agent Studio execution events";
    assert HEADER == x + "\n";
    StripLine(x);
  }

  /** The lines of the file: the header and one line for each event, in order. */
  function EventLines(header: string, events: seq<Event>): seq<string> {
    if events == [] then [header] else EventLines(header, events[..|events| - 1]) + [Line(events[|events| - 1], true)]
  }

  lemma EventIsOneLine(e: Event)
    requires ValidDict(e.detail)
    ensures OneLine(Line(e, true))
  {
    var line := Line(e, true);
    LineReadsBack(e);
    assert forall j :: 0 <= j < |line| - 1 ==> line[j] == line[..|line| - 1][j];
  }

  lemma OneMoreLine(text: string, line: string)
    requires text != "" && text[|text| - 1] == '\n' && OneLine(line)
    ensures var s := text + line; s != "" && s[|s| - 1] == '\n' && Lines(s, 0) == Lines(text, 0) + [line]
  {
    LinesAppend(text, line, 0);
  }

  lemma {:induction false} FileLines(header: string, events: seq<Event>)
    requires OneLine(header) && ValidEvents(events)
    ensures var s := header + FileText(events);
      s != "" && s[|s| - 1] == '\n' && Lines(s, 0) == EventLines(header, events)
  {
    if events == [] {
      assert header + FileText(events) == header && header[0..] == header;
      LastLine(header, 0);
    } else {
      var n := |events| - 1;
      var before, e := events[..n], events[n];
      FileLines(header, before);
      EventIsOneLine(e);
      OneMoreLine(header + FileText(before), Line(e, true));
      FileTextAppend(header, before, e);
      assert before + [e] == events;
    }
  }

  lemma {:induction false} LinesReadBack(header: string, events: seq<Event>)
    requires ValidEvents(events) && ReadLine(header) == Skipped
    ensures Events(EventLines(header, events)) == Some(Dicts(events))
  {
    if events == [] {
      assert [header][..0] == [];
    } else {
      var n := |events| - 1;
      LinesReadBack(header, events[..n]);
      LineReadsBack(events[n]);
      var before := EventLines(header, events[..n]);
      assert EventLines(header, events)[..|before|] == before;
    }
  }

  /** Reading a file written from scratch gives exactly the events written, in order. */
  lemma FileReadsBack(events: seq<Event>)
    requires ValidEvents(events)
    ensures Events(Lines(HEADER + FileText(events), 0)) == Some(Dicts(events))
  {
    HeaderIsSkipped();
    FileLines(HEADER, events);
    LinesReadBack(HEADER, events);
  }

  lemma StillValid(events: seq<Event>, e: Event)
    ensures ValidEvents(events) && ValidDict(e.detail) ==> ValidEvents(events + [Emitted(e)])
  {
    if ValidDict(e.detail) { EmittedIsValid(e); }
  }

  lemma EmittedIsValid(e: Event)
    requires ValidDict(e.detail)
    ensures ValidDict(Emitted(e).detail)
  {
    var d := Entry("_original_size", Num(Size(e, true)), Empty);
    assert ValidDict(Empty) && Valid(Num(Size(e, true))) && Valid(Bool(true));
    assert !Has(d, "_truncated") && ValidDict(d);
  }
}
