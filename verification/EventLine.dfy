/**
One event as one JSON line, and the truncation that keeps a line within the atomic pipe write size.  Both writers of the
container share it: the step emitter prints ASCII only and truncates in three stages, the agent writer
prints UTF-8 and has a fourth.
*/
module EventLine {
  import opened Options
  import opened Json

  const PIPE_BUF := 4096

  datatype Event = Event(seqNo: nat, kind: string, name: string, ts: int, detail: Dict, duration: Option<int>)

  function DurationJson(d: Option<int>): Value { if d.None? then Null else Num(d.value) }

  /** The event's fields in the order they are declared. */
  function EventDict(e: Event): Dict {
    Entry("seq", Num(e.seqNo),
    Entry("type", Str(e.kind),
    Entry("name", Str(e.name),
    Entry("ts_ms", Num(e.ts),
    Entry("detail", Obj(e.detail),
    Entry("duration_ms", DurationJson(e.duration), Empty))))))
  }

  function Line(e: Event, ascii: bool): string { PrintTo(Obj(EventDict(e)), ascii, "\n") }

  function Size(e: Event, ascii: bool): nat { Utf8Len(Line(e, ascii)) }

  predicate Fits(e: Event, ascii: bool) { Size(e, ascii) <= PIPE_BUF }

  // ---------- Truncation ----------

  function Marker(size: nat): Dict {
    Entry("_truncated", Bool(true), Entry("_original_size", Num(size), Empty))
  }

  function Take(s: string, n: nat): string { if |s| <= n then s else s[..n] }

  /** First stage: the detail gives way to a marker with the size of the original line. */
  function Marked(e: Event, ascii: bool): Event { e.(detail := Marker(Size(e, ascii))) }

  /** Second stage: the name is cut to 64 characters as well. */
  function Shortened(e: Event, ascii: bool): Event { Marked(e, ascii).(name := Take(e.name, 64)) }

  /** Third stage: the marker goes too. */
  function Bare(e: Event): Event { e.(name := Take(e.name, 64), detail := Empty) }

  /** What the step emitter writes. */
  function Emitted(e: Event): Event {
    if Fits(e, true) then e
    else if Fits(Marked(e, true), true) then Marked(e, true)
    else if Fits(Shortened(e, true), true) then Shortened(e, true)
    else Bare(e)
  }

  /** What the agent writer writes: a last stage cuts the name to 32 characters. */
  function Appended(e: Event): Event {
    if Fits(e, false) then e
    else if Fits(Marked(e, false), false) then Marked(e, false)
    else if Fits(Shortened(e, false), false) then Shortened(e, false)
    else if Fits(Bare(e), false) then Bare(e)
    else Bare(e).(name := Take(e.name, 32))
  }

  // ---------- Size of a line ----------

  /** A character that is printed as itself, in one byte. */
  predicate Plain(c: char) { ' ' <= c <= '~' && c != '"' && c != '\\' }

  lemma {:induction false} PlainBytes(s: string, ascii: bool)
    requires forall i :: 0 <= i < |s| ==> Plain(s[i])
    ensures StrBytes(s, ascii) == |s| + 2
  {
    if s != "" { PlainBytes(s[1..], ascii); }
  }

  /** Bytes of the fields that truncation never touches. */
  function FixedBytes(e: Event, ascii: bool): nat {
    NumBytes(e.seqNo) + StrBytes(e.kind, ascii) + NumBytes(e.ts) + Bytes(DurationJson(e.duration), ascii)
  }

  lemma TailBytes(e: Event, ascii: bool)
    ensures DictBytes(Entry("detail", Obj(e.detail), Entry("duration_ms", DurationJson(e.duration), Empty)), ascii)
         == 29 + DictBytes(e.detail, ascii) + Bytes(DurationJson(e.duration), ascii)
  {
    PlainBytes("detail", ascii);
    PlainBytes("duration_ms", ascii);
  }

  lemma HeadBytes(n: int, kind: string, name: string, ts: int, rest: Dict, ascii: bool)
    requires rest.Entry?
    ensures DictBytes(Entry("seq", Num(n), Entry("type", Str(kind), Entry("name", Str(name), Entry("ts_ms", Num(ts), rest)))), ascii)
         == 40 + NumBytes(n) + StrBytes(kind, ascii) + StrBytes(name, ascii) + NumBytes(ts) + DictBytes(rest, ascii)
  {
    PlainBytes("seq", ascii);
    PlainBytes("type", ascii);
    PlainBytes("name", ascii);
    PlainBytes("ts_ms", ascii);
    var d4 := Entry("ts_ms", Num(ts), rest);
    var d3 := Entry("name", Str(name), d4);
    var d2 := Entry("type", Str(kind), d3);
    assert DictBytes(d4, ascii) == 7 + 2 + NumBytes(ts) + 2 + DictBytes(rest, ascii);
    assert DictBytes(d3, ascii) == 6 + 2 + StrBytes(name, ascii) + 2 + DictBytes(d4, ascii);
    assert DictBytes(d2, ascii) == 6 + 2 + StrBytes(kind, ascii) + 2 + DictBytes(d3, ascii);
  }

  /** Punctuation and field names take 72 bytes. */
  lemma SizeIs(e: Event, ascii: bool)
    ensures Size(e, ascii) == 72 + FixedBytes(e, ascii) + StrBytes(e.name, ascii) + DictBytes(e.detail, ascii)
  {
    PrintSize(Obj(EventDict(e)), ascii, "\n");
    TailBytes(e, ascii);
    HeadBytes(e.seqNo, e.kind, e.name, e.ts, EventDict(e).rest.rest.rest.rest, ascii);
    assert Utf8Len("\n") == 1;
  }

  /** Two events that differ only in name and detail compare as those do. */
  lemma SizeMonotone(e: Event, name: string, detail: Dict, ascii: bool)
    requires StrBytes(name, ascii) <= StrBytes(e.name, ascii) && DictBytes(detail, ascii) <= DictBytes(e.detail, ascii)
    ensures Size(e.(name := name, detail := detail), ascii) <= Size(e, ascii)
  {
    SizeIs(e, ascii);
    SizeIs(e.(name := name, detail := detail), ascii);
  }

  lemma TakeBytes(s: string, n: nat, ascii: bool)
    ensures StrBytes(Take(s, n), ascii) <= StrBytes(s, ascii)
    ensures StrBytes(Take(s, n), ascii) <= 2 + (if ascii then 12 else 6) * n
  {
    if |s| > n {
      PrefixBytes(s, n, ascii);
    } else {
      assert s[..|s|] == s;
      PrefixBytes(s, |s|, ascii);
      assert (if ascii then 12 else 6) * |s| <= (if ascii then 12 else 6) * n;
    }
  }

  lemma BareIsSmallest(e: Event, ascii: bool)
    ensures Size(Bare(e), ascii) <= Size(e, ascii)
    ensures Size(Bare(e), ascii) <= Size(Marked(e, ascii), ascii)
    ensures Size(Bare(e), ascii) <= Size(Shortened(e, ascii), ascii) <= Size(Marked(e, ascii), ascii)
  {
    TakeBytes(e.name, 64, ascii);
    SizeMonotone(e, Take(e.name, 64), Empty, ascii);
    SizeMonotone(Marked(e, ascii), Take(e.name, 64), Empty, ascii);
    SizeMonotone(Marked(e, ascii), Take(e.name, 64), Marker(Size(e, ascii)), ascii);
    SizeMonotone(Shortened(e, ascii), Take(e.name, 64), Empty, ascii);
  }

  /** The emitter's line fits exactly when it would without detail and with the name cut to 64 characters. */
  lemma EmittedFitsIff(e: Event)
    ensures Fits(Emitted(e), true) <==> Fits(Bare(e), true)
  {
    BareIsSmallest(e, true);
  }

  /** For every name and detail: as long as type and numbers leave room, the line fits. */
  lemma EmittedFits(e: Event)
    requires FixedBytes(e, true) <= 3254
    ensures Fits(Emitted(e), true)
  {
    EmittedFitsIff(e);
    SizeIs(Bare(e), true);
    TakeBytes(e.name, 64, true);
  }

  /** The agent writer's line fits exactly when it would without detail and with the name cut to 32 characters. */
  lemma AppendedFitsIff(e: Event)
    ensures Fits(Appended(e), false) <==> Fits(Bare(e).(name := Take(e.name, 32)), false)
  {
    BareIsSmallest(e, false);
    TakeBytes(Take(e.name, 64), 32, false);
    assert Take(Take(e.name, 64), 32) == Take(e.name, 32);
    SizeMonotone(Bare(e), Take(e.name, 32), Empty, false);
  }

  lemma AppendedFits(e: Event)
    requires FixedBytes(e, false) <= 3830
    ensures Fits(Appended(e), false)
  {
    AppendedFitsIff(e);
    SizeIs(Bare(e).(name := Take(e.name, 32)), false);
    TakeBytes(e.name, 32, false);
  }

  /**
  When the detail survives.  Besides an original line that fits there are two accidents: a detail that already was
  the marker that replaces it, and an empty detail that is dropped.
  */
  lemma DetailKeptIff(e: Event)
    ensures Emitted(e).detail == e.detail <==>
      || Fits(e, true)
      || (e.detail == Marker(Size(e, true)) && Fits(Shortened(e, true), true))
      || (e.detail == Empty && !Fits(Shortened(e, true), true))
  {
    BareIsSmallest(e, true);
    if e.detail == Marker(Size(e, true)) {
      assert Marked(e, true) == e;
    }
  }

  /** The same two accidents in the agent writer. */
  lemma AppendedDetailKeptIff(e: Event)
    ensures Appended(e).detail == e.detail <==>
      || Fits(e, false)
      || (e.detail == Marker(Size(e, false)) && Fits(Shortened(e, false), false))
      || (e.detail == Empty && !Fits(Shortened(e, false), false))
  {
    BareIsSmallest(e, false);
    if e.detail == Marker(Size(e, false)) {
      assert Marked(e, false) == e;
    }
  }

  /** Truncation touches name and detail only. */
  lemma RestIsKept(e: Event)
    ensures Emitted(e) == e.(name := Emitted(e).name, detail := Emitted(e).detail)
    ensures Appended(e) == e.(name := Appended(e).name, detail := Appended(e).detail)
  {
  }

  /**
  An event is written as it was asked for exactly when its line fits, or there is nothing left to cut: no detail, and a
  name as short as the last stage leaves it.
  */
  lemma UnchangedIff(e: Event)
    ensures Emitted(e) == e <==> Fits(e, true) || (|e.name| <= 64 && e.detail == Empty)
    ensures Appended(e) == e <==> Fits(e, false) || (|e.name| <= 32 && e.detail == Empty)
  {
    BareIsSmallest(e, true);
    BareIsSmallest(e, false);
  }

  /** The emitter keeps the name exactly when the line fits, as asked for or with the marker, or the name is short; else its first 64. */
  lemma NameKeptIff(e: Event)
    ensures Emitted(e).name == e.name <==> Fits(e, true) || Fits(Marked(e, true), true) || |e.name| <= 64
    ensures Emitted(e).name != e.name ==> Emitted(e).name == e.name[..64]
  {
  }

  /** The agent writer cuts the name to 64 characters or, when the line without detail still does not fit, to 32. */
  lemma AppendedNameKeptIff(e: Event)
    ensures Appended(e).name == e.name <==>
      || Fits(e, false) || Fits(Marked(e, false), false)
      || (|e.name| <= 64 && Fits(Bare(e), false)) || |e.name| <= 32
    ensures Appended(e).name != e.name ==> Appended(e).name == e.name[..if Fits(Bare(e), false) then 64 else 32]
  {
    BareIsSmallest(e, false);
  }

  lemma MarkerBytes(n: nat, ascii: bool)
    ensures DictBytes(Marker(n), ascii) == 38 + DigitCount(n)
  {
    PlainBytes("_truncated", ascii);
    PlainBytes("_original_size", ascii);
    assert DictBytes(Entry("_original_size", Num(n), Empty), ascii) == 18 + DigitCount(n);
  }

  lemma FourDigits(n: nat)
    requires 1000 <= n < 10000
    ensures DigitCount(n) == 4
  {
    assert DigitCount(n / 1000) == 1;
    assert DigitCount(n / 100) == 2;
  }

  lemma StepSize(name: string, ascii: bool)
    requires |name| == 5000 && forall i :: 0 <= i < |name| ==> Plain(name[i])
    ensures var e := Event(1, "step", name, 0, Marker(5128), None); FixedBytes(e, ascii) == 12 && Size(e, ascii) == 5128
  {
    var e := Event(1, "step", name, 0, Marker(5128), None);
    PlainBytes(name, ascii);
    PlainBytes("step", ascii);
    MarkerBytes(5128, ascii);
    FourDigits(5128);
    SizeIs(e, ascii);
  }

  /** An event whose line is too long and whose detail both writers write all the same. */
  lemma DetailKeptByAccident(name: string) returns (e: Event)
    requires |name| == 5000 && forall i :: 0 <= i < |name| ==> Plain(name[i])
    ensures e.name == name && !Fits(e, true) && Emitted(e).detail == e.detail
    ensures !Fits(e, false) && Appended(e).detail == e.detail
  {
    e := Event(1, "step", name, 0, Marker(5128), None);
    ShortenedStepFits(name, true);
    ShortenedStepFits(name, false);
    DetailKeptIff(e);
    AppendedDetailKeptIff(e);
  }

  lemma ShortenedStepFits(name: string, ascii: bool)
    requires |name| == 5000 && forall i :: 0 <= i < |name| ==> Plain(name[i])
    ensures var e := Event(1, "step", name, 0, Marker(5128), None); Size(e, ascii) == 5128 && Fits(Shortened(e, ascii), ascii)
  {
    var e := Event(1, "step", name, 0, Marker(5128), None);
    StepSize(name, ascii);
    MarkerBytes(5128, ascii);
    FourDigits(5128);
    TakeBytes(name, 64, ascii);
    SizeIs(Shortened(e, ascii), ascii);
  }

  /** A long event type is cut by no stage: such a line is over the limit in both files. */
  lemma LongTypeOverflows(kind: string) returns (e: Event)
    requires |kind| == 5000 && forall i :: 0 <= i < |kind| ==> Plain(kind[i])
    ensures e.kind == kind && !Fits(Emitted(e), true) && !Fits(Appended(e), false)
  {
    e := Event(1, kind, "", 0, Empty, None);
    PlainBytes(kind, true);
    PlainBytes(kind, false);
    EmittedFitsIff(e);
    AppendedFitsIff(e);
    SizeIs(Bare(e), true);
    SizeIs(Bare(e).(name := Take(e.name, 32)), false);
  }
}
