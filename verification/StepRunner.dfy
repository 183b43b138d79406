/**
The reader's side of the step event file: the summary of event counts and the list of blockers that go into a step's
result.
*/
module StepRunner {
  import opened Options
  import opened Json
  import opened EventLine
  import opened EventFile

  /** The part the two readers share: blank lines, comments and lines that do not parse are passed over. */
  method ReadEvent(raw: string) returns (r: LineResult)
    ensures r == ReadLine(raw)
  {
    var line := Strip(raw);
    if line == "" || line[0] == '#' {
      return Skipped;
    }
    var parsed := Loads(line);
    if parsed.Fail? {
      return Skipped;
    }
    if !parsed.value.Obj? {
      return Raises;
    }
    return Holds(parsed.value.members);
  }

  // ---------- Summary ----------

  /** Counts are kept per key; see `Key`. */
  datatype Tally = Tally(total: nat, types: map<Value, nat>)

  /** Python takes true and 1, and false and 0, for the same dictionary key. */
  function Key(v: Value): Value { if v.Bool? then Num(if v.b then 1 else 0) else v }

  /** An array or an object cannot be a dictionary key. */
  predicate Hashable(v: Value) { !v.Arr? && !v.Obj? }

  function TypeOf(d: Dict): Value { if Has(d, "type") then Get(d, "type") else Str("unknown") }

  function Times(types: map<Value, nat>, k: Value): nat { if k in types then types[k] else 0 }

  function Bump(t: Tally, k: Value): Tally {
    Tally(t.total + 1, t.types[k := Times(t.types, k) + 1])
  }

  /** The tally of the lines, or none if some line makes the reader raise. */
  function Tallied(lines: seq<string>): Option<Tally> {
    if lines == [] then Some(Tally(0, map[]))
    else
      match (Tallied(lines[..|lines| - 1]), ReadLine(lines[|lines| - 1]))
      case (None, _) => None
      case (Some(t), Skipped) => Some(t)
      case (Some(t), Raises) => None
      case (Some(t), Holds(d)) => if Hashable(TypeOf(d)) then Some(Bump(t, Key(TypeOf(d)))) else None
  }

  datatype Summary = Nothing | Error | Counts(tally: Tally)

  /** No file, or a file without events, gives no summary. */
  method SummarizeEvents(content: Option<string>) returns (r: Summary)
    ensures content.None? ==> r == Nothing
    ensures content.Some? ==>
      match Tallied(Lines(content.value, 0))
      case None => r == Error
      case Some(t) => r == if t.total == 0 then Nothing else Counts(t)
  {
    if content.None? {
      return Nothing;
    }
    var counted := CountLines(Lines(content.value, 0));
    match counted
    case None => return Error;
    case Some(t) => return if t.total == 0 then Nothing else Counts(t);
  }

  /** The loop over the lines. */
  method CountLines(lines: seq<string>) returns (r: Option<Tally>)
    ensures r == Tallied(lines)
  {
    var counts: map<Value, nat> := map[];
    var total := 0;
    for i := 0 to |lines|
      invariant Tallied(lines[..i]) == Some(Tally(total, counts))
    {
      ghost var before := Tally(total, counts);
      assert lines[..i + 1] == lines[..i] + [lines[i]];
      TallyOneMore(lines[..i], lines[i], before);
      var found := ReadEvent(lines[i]);
      if found.Skipped? {
        continue;
      }
      if found.Raises? || !Hashable(TypeOf(found.event)) {
        RaisesForGood(lines, i + 1);
        return None;
      }
      var etype := Key(TypeOf(found.event));
      counts := counts[etype := Times(counts, etype) + 1];
      total := total + 1;
      assert Tally(total, counts) == Bump(before, etype);
    }
    assert lines[..|lines|] == lines;
    return Some(Tally(total, counts));
  }

  lemma {:induction false} RaisesForGood(lines: seq<string>, i: nat)
    requires i <= |lines| && Tallied(lines[..i]).None?
    ensures Tallied(lines).None?
    decreases |lines| - i
  {
    if i < |lines| {
      assert lines[..i + 1][..i] == lines[..i];
      RaisesForGood(lines, i + 1);
    } else {
      assert lines[..i] == lines;
    }
  }

  // ---------- Blockers ----------

  function Append(d: Dict, key: string, v: Value): Dict {
    match d
    case Empty => Entry(key, v, Empty)
    case Entry(k, w, rest) => Entry(k, w, Append(rest, key, v))
  }

  /** A blocker's detail, with the event's name as its message unless it has one. */
  function WithMessage(detail: Dict, name: Value): Dict {
    if Has(detail, "message") then detail else Append(detail, "message", name)
  }

  predicate IsBlocker(d: Dict) { Has(d, "type") && Get(d, "type") == Str("blocker") }

  function DetailOf(d: Dict): Value { if Has(d, "detail") then Get(d, "detail") else Obj(Empty) }

  function NameOf(d: Dict): Value { if Has(d, "name") then Get(d, "name") else Str("") }

  /** Python's substring test. */
  predicate Contains(s: string, sub: string) {
    |sub| <= |s| && (s[..|sub|] == sub || (s != "" && Contains(s[1..], sub)))
  }

  predicate Lists(l: List, v: Value) { l.Cons? && (l.head == v || Lists(l.tail, v)) }

  /**
  What the reader reports for a blocker.  An object gets a message if it has none; a string or a list that happens to
  contain "message" passes the same test and is reported as it is; anything else makes the reader raise.
  */
  function Blocker(d: Dict): Option<Value> {
    match DetailOf(d)
    case Obj(detail) => Some(Obj(WithMessage(detail, NameOf(d))))
    case Str(s) => if Contains(s, "message") then Some(Str(s)) else None
    case Arr(l) => if Lists(l, Str("message")) then Some(Arr(l)) else None
    case _ => None
  }

  function BlockersIn(lines: seq<string>): Option<seq<Value>> {
    if lines == [] then Some([])
    else
      match (BlockersIn(lines[..|lines| - 1]), ReadLine(lines[|lines| - 1]))
      case (None, _) => None
      case (Some(bs), Skipped) => Some(bs)
      case (Some(bs), Raises) => None
      case (Some(bs), Holds(d)) =>
        if !IsBlocker(d) then Some(bs)
        else
          match Blocker(d)
          case Some(b) => Some(bs + [b])
          case None => None
  }

  /** The blockers of the file; none when the reader raises. */
  method ExtractBlockers(content: Option<string>) returns (r: Option<seq<Value>>)
    ensures r == if content.None? then Some([]) else BlockersIn(Lines(content.value, 0))
  {
    var blockers: seq<Value> := [];
    if content.None? {
      return Some(blockers);
    }
    var lines := Lines(content.value, 0);
    for i := 0 to |lines|
      invariant BlockersIn(lines[..i]) == Some(blockers)
    {
      assert lines[..i + 1][..i] == lines[..i];
      var found := ReadEvent(lines[i]);
      if found.Skipped? {
        continue;
      }
      if found.Raises? || (IsBlocker(found.event) && Blocker(found.event).None?) {
        NoBlockersForGood(lines, i + 1);
        return None;
      }
      if IsBlocker(found.event) {
        blockers := blockers + [Blocker(found.event).value];
      }
    }
    assert lines[..|lines|] == lines;
    return Some(blockers);
  }

  lemma {:induction false} NoBlockersForGood(lines: seq<string>, i: nat)
    requires i <= |lines| && BlockersIn(lines[..i]).None?
    ensures BlockersIn(lines).None?
    decreases |lines| - i
  {
    if i < |lines| {
      assert lines[..i + 1][..i] == lines[..i];
      NoBlockersForGood(lines, i + 1);
    } else {
      assert lines[..i] == lines;
    }
  }

  // ---------- What the reader reports of the emitted events ----------

  lemma EventFields(e: Event)
    ensures var d := EventDict(e);
      TypeOf(d) == Str(e.kind) && (IsBlocker(d) <==> e.kind == "blocker") && DetailOf(d) == Obj(e.detail) && NameOf(d) == Str(e.name)
  {
    var d := EventDict(e);
    assert "seq" != "type" && "seq" != "name" && "type" != "name";
    assert "seq" != "detail" && "type" != "detail" && "name" != "detail" && "ts_ms" != "detail";
    assert Has(d.rest, "type") && Get(d.rest, "type") == Str(e.kind);
    assert Has(d.rest.rest, "name") && Get(d.rest.rest, "name") == Str(e.name);
    assert Has(d.rest, "name") && Get(d.rest, "name") == Str(e.name);
    assert Has(d.rest.rest.rest.rest, "detail") && Get(d.rest.rest.rest.rest, "detail") == Obj(e.detail);
    assert Has(d.rest.rest.rest, "detail") && Get(d.rest.rest.rest, "detail") == Obj(e.detail);
    assert Has(d.rest.rest, "detail") && Get(d.rest.rest, "detail") == Obj(e.detail);
    assert Has(d.rest, "detail") && Get(d.rest, "detail") == Obj(e.detail);
  }

  function KindCount(events: seq<Event>, kind: string): nat {
    if events == [] then 0 else KindCount(events[..|events| - 1], kind) + if events[|events| - 1].kind == kind then 1 else 0
  }

  function BlockersOf(events: seq<Event>): seq<Value> {
    if events == [] then []
    else
      var e := events[|events| - 1];
      BlockersOf(events[..|events| - 1]) + if e.kind == "blocker" then [Obj(WithMessage(e.detail, Str(e.name)))] else []
  }

  /** Sum of all counts. */
  ghost function Sum(types: map<Value, nat>): nat {
    if types == map[] then 0
    else
      var k :| k in types;
      types[k] + Sum(types - {k})
  }

  lemma {:induction false} SumRemove(types: map<Value, nat>, k: Value)
    requires k in types
    ensures Sum(types) == types[k] + Sum(types - {k})
    decreases |types|
  {
    var j :| j in types && Sum(types) == types[j] + Sum(types - {j});
    if j != k {
      SumRemove(types - {j}, k);
      SumRemove(types - {k}, j);
      assert types - {j} - {k} == types - {k} - {j};
    }
  }

  lemma SumBump(types: map<Value, nat>, k: Value)
    ensures Sum(types[k := Times(types, k) + 1]) == Sum(types) + 1
  {
    var types' := types[k := Times(types, k) + 1];
    SumRemove(types', k);
    if k in types {
      SumRemove(types, k);
      assert types' - {k} == types - {k};
    } else {
      assert types' - {k} == types;
    }
  }

  /** The tally the emitted events deserve. */
  function TallyOf(events: seq<Event>): Tally {
    if events == [] then Tally(0, map[]) else Bump(TallyOf(events[..|events| - 1]), Str(events[|events| - 1].kind))
  }

  lemma {:induction false} TallyIsRight(events: seq<Event>, kind: string)
    ensures TallyOf(events).total == |events| == Sum(TallyOf(events).types)
    ensures Times(TallyOf(events).types, Str(kind)) == KindCount(events, kind)
  {
    if events != [] {
      var before := TallyOf(events[..|events| - 1]);
      TallyIsRight(events[..|events| - 1], kind);
      SumBump(before.types, Str(events[|events| - 1].kind));
    }
  }

  lemma TallyOneMore(lines: seq<string>, line: string, t: Tally)
    requires Tallied(lines) == Some(t)
    ensures Tallied(lines + [line]) ==
      match ReadLine(line)
      case Skipped => Some(t)
      case Raises => None
      case Holds(d) => if Hashable(TypeOf(d)) then Some(Bump(t, Key(TypeOf(d)))) else None
  {
    assert (lines + [line])[..|lines|] == lines;
  }

  lemma {:induction false} LinesTally(header: string, events: seq<Event>)
    requires ValidEvents(events) && ReadLine(header) == Skipped
    ensures Tallied(EventLines(header, events)) == Some(TallyOf(events))
  {
    if events == [] {
      assert [header][..0] == [];
    } else {
      var before, e := events[..|events| - 1], events[|events| - 1];
      LinesTally(header, before);
      LineReadsBack(e);
      EventFields(e);
      TallyOneMore(EventLines(header, before), Line(e, true), TallyOf(before));
    }
  }

  lemma BlockersOneMore(lines: seq<string>, line: string, bs: seq<Value>, d: Dict)
    requires BlockersIn(lines) == Some(bs) && ReadLine(line) == Holds(d) && DetailOf(d).Obj?
    ensures BlockersIn(lines + [line]) == Some(bs + if IsBlocker(d) then [Obj(WithMessage(DetailOf(d).members, NameOf(d)))] else [])
  {
    assert (lines + [line])[..|lines|] == lines;
    assert bs + [] == bs;
  }

  lemma EventBlocker(lines: seq<string>, e: Event, bs: seq<Value>)
    requires BlockersIn(lines) == Some(bs) && ValidDict(e.detail)
    ensures BlockersIn(lines + [Line(e, true)]) == Some(bs + if e.kind == "blocker" then [Obj(WithMessage(e.detail, Str(e.name)))] else [])
  {
    LineReadsBack(e);
    EventFields(e);
    BlockersOneMore(lines, Line(e, true), bs, EventDict(e));
  }

  lemma {:induction false} LinesBlockers(header: string, events: seq<Event>)
    requires ValidEvents(events) && ReadLine(header) == Skipped
    ensures BlockersIn(EventLines(header, events)) == Some(BlockersOf(events))
  {
    if events == [] {
      assert [header][..0] == [];
    } else {
      var before := events[..|events| - 1];
      LinesBlockers(header, before);
      EventBlocker(EventLines(header, before), events[|events| - 1], BlockersOf(before));
    }
  }

  /**
  For every sequence of events emitted to a fresh file: the summary's total is the number of events and the sum of the
  counts per type, each type's count is the number of its events, and the blockers are reported in
  the order they were emitted, each with a message.
  */
  lemma ReaderReportsEmittedEvents(events: seq<Event>, kind: string)
    requires ValidEvents(events)
    ensures var lines := Lines(HEADER + FileText(events), 0);
      && Tallied(lines) == Some(TallyOf(events))
      && TallyOf(events).total == |events| == Sum(TallyOf(events).types)
      && Times(TallyOf(events).types, Str(kind)) == KindCount(events, kind)
      && BlockersIn(lines) == Some(BlockersOf(events))
  {
    HeaderIsSkipped();
    FileLines(HEADER, events);
    LinesTally(HEADER, events);
    LinesBlockers(HEADER, events);
    TallyIsRight(events, kind);
  }

  /** In particular the file of an emitter that started from an empty file. */
  lemma EmitterIsReadBack(em: EventEmitter)
    requires em.Valid() && em.start == "" && ValidEvents(em.events)
    ensures var lines := Lines(em.file, 0);
      && Events(lines) == Some(Dicts(em.events))
      && Tallied(lines) == Some(TallyOf(em.events))
      && BlockersIn(lines) == Some(BlockersOf(em.events))
  {
    assert "" + HEADER == HEADER;
    FileReadsBack(em.events);
    ReaderReportsEmittedEvents(em.events, "");
  }

  /** The fields that truncation leaves alone: the k-th line of the file tells number, type, time and duration as asked. */
  ghost predicate SameRest(e: Event, asked: Event) {
    e.seqNo == asked.seqNo && e.kind == asked.kind && e.ts == asked.ts && e.duration == asked.duration
  }

  lemma {:induction false} KindsAsAsked(events: seq<Event>, asked: seq<Event>, kind: string)
    requires AllEmitted(events, asked)
    ensures KindCount(events, kind) == KindCount(asked, kind)
  {
    if events != [] {
      var n := |events| - 1;
      assert forall i :: 0 <= i < n ==> events[..n][i] == Emitted(asked[..n][i]);
      KindsAsAsked(events[..n], asked[..n], kind);
      RestIsKept(asked[n]);
    }
  }

  /**
  Against what was asked to be emitted: the reader finds one event for each, in order, with the number, type, time and
  duration asked for, and the very event asked for wherever its line fits; totals and counts are those of what was asked.
  */
  lemma AskedIsReadBack(em: EventEmitter, kind: string)
    requires em.Valid() && em.start == "" && ValidEvents(em.events)
    ensures Events(Lines(em.file, 0)) == Some(Dicts(em.events)) && |em.events| == |em.asked|
    ensures forall i :: 0 <= i < |em.asked| ==> SameRest(em.events[i], em.asked[i])
    ensures forall i :: 0 <= i < |em.asked| && Fits(em.asked[i], true) ==> em.events[i] == em.asked[i]
    ensures Tallied(Lines(em.file, 0)).Some?
    ensures var t := Tallied(Lines(em.file, 0)).value;
      t.total == |em.asked| == Sum(t.types) && Times(t.types, Str(kind)) == KindCount(em.asked, kind)
  {
    EmitterIsReadBack(em);
    TallyIsRight(em.events, kind);
    KindsAsAsked(em.events, em.asked, kind);
    forall i | 0 <= i < |em.asked| ensures SameRest(em.events[i], em.asked[i]) { RestIsKept(em.asked[i]); }
  }

  /** When every line fits, the reader gets back precisely what was asked for, blockers included. */
  lemma FittingIsReadBack(em: EventEmitter)
    requires em.Valid() && em.start == "" && ValidEvents(em.events)
    requires forall i :: 0 <= i < |em.asked| ==> Fits(em.asked[i], true)
    ensures Events(Lines(em.file, 0)) == Some(Dicts(em.asked)) && BlockersIn(Lines(em.file, 0)) == Some(BlockersOf(em.asked))
  {
    EmitterIsReadBack(em);
    assert em.events == em.asked;
  }

  /**
  What a blocker's detail becomes: a message of its own stays, otherwise the event's name is its message; every other
  field is as it was.
  */
  lemma {:induction false} MessageIs(detail: Dict, name: Value, key: string)
    ensures var d := WithMessage(detail, name);
      && Has(d, "message") && Get(d, "message") == (if Has(detail, "message") then Get(detail, "message") else name)
      && (key != "message" ==> (Has(d, key) <==> Has(detail, key)) && (Has(detail, key) ==> Get(d, key) == Get(detail, key)))
  {
    if !Has(detail, "message") {
      AppendKeeps(detail, "message", name, "message");
      AppendKeeps(detail, "message", name, key);
    }
  }

  lemma {:induction false} AppendKeeps(d: Dict, key: string, v: Value, k: string)
    requires !Has(d, key)
    ensures Has(Append(d, key, v), k) <==> Has(d, k) || k == key
    ensures Has(d, k) ==> Get(Append(d, key, v), k) == Get(d, k)
    ensures k == key ==> Get(Append(d, key, v), k) == v
  {
    if d.Entry? { AppendKeeps(d.rest, key, v, k); }
  }

  /** Every reported blocker has a message. */
  lemma {:induction false} BlockersHaveMessages(events: seq<Event>)
    ensures forall i :: 0 <= i < |BlockersOf(events)| ==> BlockersOf(events)[i].Obj? && Has(BlockersOf(events)[i].members, "message")
  {
    if events != [] {
      var e := events[|events| - 1];
      BlockersHaveMessages(events[..|events| - 1]);
      AppendHas(e.detail, "message", Str(e.name));
    }
  }

  lemma AppendHas(d: Dict, key: string, v: Value)
    ensures Has(Append(d, key, v), key)
  {
  }
}
