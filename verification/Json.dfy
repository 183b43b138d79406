/**
JSON as the event files use it: Python's `json.dumps` with its default separators, with or without `ensure_ascii`,
and `json.loads` (grammar of RFC 8259).  Numbers are integers.

The printer puts a value's text in front of a given continuation, so that printing and parsing meet one
character at a time.
*/
module Json {
  datatype Value = Null | Bool(b: bool) | Num(n: int) | Str(s: string) | Arr(items: List) | Obj(members: Dict)

  datatype List = Nil | Cons(head: Value, tail: List)

  /** A dictionary in insertion order. */
  datatype Dict = Empty | Entry(key: string, value: Value, rest: Dict)

  predicate Has(d: Dict, key: string) {
    d.Entry? && (d.key == key || Has(d.rest, key))
  }

  function Get(d: Dict, key: string): Value
    requires Has(d, key)
  {
    if d.key == key then d.value else Get(d.rest, key)
  }

  function Remove(d: Dict, key: string): Dict {
    match d
    case Empty => Empty
    case Entry(k, v, rest) => if k == key then Remove(rest, key) else Entry(k, v, Remove(rest, key))
  }

  /** Python dictionaries have each key once. */
  predicate Valid(v: Value) {
    match v
    case Arr(items) => ValidList(items)
    case Obj(d) => ValidDict(d)
    case _ => true
  }

  predicate ValidList(l: List) {
    match l
    case Nil => true
    case Cons(h, t) => Valid(h) && ValidList(t)
  }

  predicate ValidDict(d: Dict) {
    match d
    case Empty => true
    case Entry(k, v, rest) => !Has(rest, k) && Valid(v) && ValidDict(rest)
  }

  // ---------- Printing ----------

  function HexDigit(n: nat): char
    requires n < 16
  {
    if n < 10 then '0' + n as char else 'a' + (n - 10) as char
  }

  /** Backslash, u, and four hexadecimal digits, in front of k. */
  function HexTo(n: nat, k: string): string
    requires n < 0x10000
  {
    ['\\', 'u', HexDigit(n / 4096), HexDigit(n / 256 % 16), HexDigit(n / 16 % 16), HexDigit(n % 16)] + k
  }

  /** One character of a string literal. */
  function CharTo(c: char, ascii: bool, k: string): string {
    if c == '"' then ['\\', '"'] + k
    else if c == '\\' then ['\\', '\\'] + k
    else if c == '\n' then ['\\', 'n'] + k
    else if c == '\r' then ['\\', 'r'] + k
    else if c == '\t' then ['\\', 't'] + k
    else if c == 8 as char then ['\\', 'b'] + k
    else if c == 12 as char then ['\\', 'f'] + k
    else if c < ' ' then HexTo(c as int, k)
    else if !ascii || c <= '~' then [c] + k
    else if c as int < 0x10000 then HexTo(c as int, k)
    else
      var n := c as int - 0x10000;
      HexTo(0xD800 + n / 0x400, HexTo(0xDC00 + n % 0x400, k))
  }

  function CharsTo(s: string, ascii: bool, k: string): string {
    if s == "" then k else CharTo(s[0], ascii, CharsTo(s[1..], ascii, k))
  }

  function StrTo(s: string, ascii: bool, k: string): string {
    ['"'] + CharsTo(s, ascii, ['"'] + k)
  }

  function DigitsTo(n: nat, k: string): string {
    if n < 10 then ['0' + n as char] + k else DigitsTo(n / 10, ['0' + (n % 10) as char] + k)
  }

  function NumTo(n: int, k: string): string {
    if n < 0 then ['-'] + DigitsTo(-n, k) else DigitsTo(n, k)
  }

  function PrintTo(v: Value, ascii: bool, k: string): string {
    match v
    case Null => "null" + k
    case Bool(b) => (if b then "true" else "false") + k
    case Num(n) => NumTo(n, k)
    case Str(s) => StrTo(s, ascii, k)
    case Arr(items) => ['['] + ListTo(items, ascii, [']'] + k)
    case Obj(d) => ['{'] + DictTo(d, ascii, ['}'] + k)
  }

  function ListTo(l: List, ascii: bool, k: string): string {
    match l
    case Nil => k
    case Cons(h, t) => PrintTo(h, ascii, if t.Nil? then k else [',', ' '] + ListTo(t, ascii, k))
  }

  function DictTo(d: Dict, ascii: bool, k: string): string {
    match d
    case Empty => k
    case Entry(key, v, rest) =>
      StrTo(key, ascii, [':', ' '] + PrintTo(v, ascii, if rest.Empty? then k else [',', ' '] + DictTo(rest, ascii, k)))
  }

  function Dumps(v: Value, ascii: bool): string { PrintTo(v, ascii, "") }

  // ---------- Parsing ----------

  datatype Parsed<T> = Fail | Got(value: T, rest: string)

  function SkipSpace(s: string): (r: string)
    ensures |r| <= |s|
  {
    if s != "" && (s[0] == ' ' || s[0] == '\t' || s[0] == '\n' || s[0] == '\r') then SkipSpace(s[1..]) else s
  }

  /** Value of a hexadecimal digit, or 16. */
  function HexValue(c: char): nat {
    if '0' <= c <= '9' then c as int - '0' as int
    else if 'a' <= c <= 'f' then c as int - 'a' as int + 10
    else if 'A' <= c <= 'F' then c as int - 'A' as int + 10
    else 16
  }

  /** The four hexadecimal digits after a backslash and a u. */
  function ParseHex(s: string): (r: Parsed<nat>)
    ensures r.Got? ==> |r.rest| < |s| && r.value < 0x10000
  {
    if |s| < 4 then Fail
    else
      var a, b, c, d := HexValue(s[0]), HexValue(s[1]), HexValue(s[2]), HexValue(s[3]);
      if a == 16 || b == 16 || c == 16 || d == 16 then Fail
      else Got(4096 * a + 256 * b + 16 * c + d, s[4..])
  }

  /** What follows a backslash.  A surrogate without its partner is not a character and fails here. */
  function ParseEscape(s: string): (r: Parsed<char>)
    ensures r.Got? ==> |r.rest| < |s|
  {
    if s == "" then Fail
    else
      match s[0]
      case '"' => Got('"', s[1..])
      case '\\' => Got('\\', s[1..])
      case '/' => Got('/', s[1..])
      case 'b' => Got(8 as char, s[1..])
      case 'f' => Got(12 as char, s[1..])
      case 'n' => Got('\n', s[1..])
      case 'r' => Got('\r', s[1..])
      case 't' => Got('\t', s[1..])
      case 'u' =>
        var h := ParseHex(s[1..]);
        if h.Fail? then Fail
        else if h.value < 0xD800 || 0xE000 <= h.value then Got(h.value as char, h.rest)
        else if h.value < 0xDC00 && |h.rest| >= 2 && h.rest[0] == '\\' && h.rest[1] == 'u' then
          var l := ParseHex(h.rest[2..]);
          if l.Got? && 0xDC00 <= l.value < 0xE000 then
            Got((0x10000 + (h.value - 0xD800) * 0x400 + (l.value - 0xDC00)) as char, l.rest)
          else Fail
        else Fail
      case _ => Fail
  }

  /** The characters of a string literal up to and including its closing quote. */
  function ParseChars(s: string): (r: Parsed<string>)
    ensures r.Got? ==> |r.rest| < |s|
    decreases |s|
  {
    if s == "" then Fail
    else if s[0] == '"' then Got("", s[1..])
    else if s[0] == '\\' then
      var e := ParseEscape(s[1..]);
      if e.Fail? then Fail else Prepend(e.value, ParseChars(e.rest))
    else if s[0] < ' ' then Fail
    else Prepend(s[0], ParseChars(s[1..]))
  }

  function Prepend(c: char, r: Parsed<string>): Parsed<string> {
    if r.Fail? then Fail else Got([c] + r.value, r.rest)
  }

  predicate IsDigit(c: char) { '0' <= c <= '9' }

  /** The digits at the front of s, continuing the number read so far. */
  function ParseDigits(s: string, acc: nat): (r: (nat, string))
    ensures |r.1| <= |s|
  {
    if s != "" && IsDigit(s[0]) then ParseDigits(s[1..], 10 * acc + (s[0] as int - '0' as int)) else (acc, s)
  }

  /** A number has no superfluous leading zero. */
  function ParseNat(s: string): (r: Parsed<nat>)
    ensures r.Got? ==> |r.rest| < |s|
  {
    if s == "" || !IsDigit(s[0]) then Fail
    else if s[0] == '0' then Got(0, s[1..])
    else var (n, rest) := ParseDigits(s[1..], s[0] as int - '0' as int); Got(n, rest)
  }

  predicate StartsWith(s: string, word: string) {
    |word| <= |s| && s[..|word|] == word
  }

  function ParseValue(s: string): (r: Parsed<Value>)
    ensures r.Got? ==> |r.rest| < |s|
    decreases |s|, 2
  {
    if s == "" then Fail
    else if s[0] == '"' then
      var r := ParseChars(s[1..]);
      if r.Fail? then Fail else Got(Str(r.value), r.rest)
    else if s[0] == '[' then
      var t := SkipSpace(s[1..]);
      if t != "" && t[0] == ']' then Got(Arr(Nil), t[1..])
      else
        var r := ParseItems(t);
        if r.Fail? then Fail else Got(Arr(r.value), r.rest)
    else if s[0] == '{' then
      var t := SkipSpace(s[1..]);
      if t != "" && t[0] == '}' then Got(Obj(Empty), t[1..])
      else
        var r := ParseEntries(t);
        if r.Fail? then Fail else Got(Obj(r.value), r.rest)
    else if StartsWith(s, "null") then Got(Null, s[4..])
    else if StartsWith(s, "true") then Got(Bool(true), s[4..])
    else if StartsWith(s, "false") then Got(Bool(false), s[5..])
    else if s[0] == '-' then
      var r := ParseNat(s[1..]);
      if r.Fail? then Fail else Got(Num(0 - r.value as int), r.rest)
    else
      var r := ParseNat(s);
      if r.Fail? then Fail else Got(Num(r.value), r.rest)
  }

  function ParseItems(s: string): (r: Parsed<List>)
    ensures r.Got? ==> |r.rest| < |s|
    decreases |s|, 3
  {
    var h := ParseValue(s);
    if h.Fail? then Fail
    else
      var t := SkipSpace(h.rest);
      if t == "" then Fail
      else if t[0] == ']' then Got(Cons(h.value, Nil), t[1..])
      else if t[0] == ',' then
        var r := ParseItems(SkipSpace(t[1..]));
        if r.Fail? then Fail else Got(Cons(h.value, r.value), r.rest)
      else Fail
  }

  function ParseEntries(s: string): (r: Parsed<Dict>)
    ensures r.Got? ==> |r.rest| < |s|
    decreases |s|, 3
  {
    if s == "" || s[0] != '"' then Fail
    else
      var key := ParseChars(s[1..]);
      if key.Fail? then Fail
      else
        var t := SkipSpace(key.rest);
        if t == "" || t[0] != ':' then Fail
        else
          var v := ParseValue(SkipSpace(t[1..]));
          if v.Fail? then Fail
          else EntriesAfter(key.value, v.value, SkipSpace(v.rest))
  }

  /** A repeated key keeps its first place and its last value. */
  function Put(key: string, v: Value, rest: Dict): Dict {
    if Has(rest, key) then Entry(key, Get(rest, key), Remove(rest, key)) else Entry(key, v, rest)
  }

  function EntriesAfter(key: string, v: Value, t: string): (r: Parsed<Dict>)
    ensures r.Got? ==> |r.rest| < |t|
    decreases |t|, 4
  {
    if t == "" then Fail
    else if t[0] == '}' then Got(Entry(key, v, Empty), t[1..])
    else if t[0] == ',' then
      var r := ParseEntries(SkipSpace(t[1..]));
      if r.Fail? then Fail else Got(Put(key, v, r.value), r.rest)
    else Fail
  }

  /** json.loads: one value, with white space around it. */
  function Loads(s: string): Parsed<Value> {
    var r := ParseValue(SkipSpace(s));
    if r.Got? && SkipSpace(r.rest) == "" then Got(r.value, "") else Fail
  }

  // ---------- Round trip ----------

  lemma Front(c: char, k: string)
    ensures [c] + k != "" && ([c] + k)[0] == c && ([c] + k)[1..] == k
  {
  }

  lemma Front2(b: char, c: char, k: string)
    ensures [b, c] + k != "" && ([b, c] + k)[0] == b && ([b, c] + k)[1..] == [c] + k
  {
  }

  lemma HexDigitValue(n: nat)
    requires n < 16
    ensures HexValue(HexDigit(n)) == n
  {
  }

  lemma HexParts(n: nat)
    requires n < 0x10000
    ensures 4096 * (n / 4096) + 256 * (n / 256 % 16) + 16 * (n / 16 % 16) + n % 16 == n
    ensures n / 4096 < 16
  {
    var p, q := n / 16, n / 256;
    assert n == 16 * p + n % 16;
    assert p == 16 * q + p % 16;
    assert q == 16 * (n / 4096) + q % 16;
  }

  lemma QuadParses(a: nat, b: nat, c: nat, d: nat, k: string)
    requires a < 16 && b < 16 && c < 16 && d < 16
    ensures ParseHex([HexDigit(a), HexDigit(b), HexDigit(c), HexDigit(d)] + k) == Got(4096 * a + 256 * b + 16 * c + d, k)
  {
    var s := [HexDigit(a), HexDigit(b), HexDigit(c), HexDigit(d)] + k;
    HexDigitValue(a);
    HexDigitValue(b);
    HexDigitValue(c);
    HexDigitValue(d);
    assert s[4..] == k;
  }

  lemma HexParses(n: nat, k: string)
    requires n < 0x10000
    ensures var s := HexTo(n, k);
      |s| >= 2 && s[0] == '\\' && s[1] == 'u' && ParseHex(s[2..]) == Got(n, k)
  {
    var a, b, c, d := n / 4096, n / 256 % 16, n / 16 % 16, n % 16;
    HexParts(n);
    QuadParses(a, b, c, d, k);
    assert HexTo(n, k)[2..] == [HexDigit(a), HexDigit(b), HexDigit(c), HexDigit(d)] + k;
  }

  /** A code unit escape that is no surrogate. */
  lemma UnitParses(c: char, k: string)
    requires c as int < 0x10000
    ensures ParseChars(HexTo(c as int, k)) == Prepend(c, ParseChars(k))
  {
    var s := HexTo(c as int, k);
    HexParses(c as int, k);
    assert s[1..][1..] == s[2..];
  }

  /** A surrogate pair, after its first backslash. */
  lemma PairEscapes(hi: nat, lo: nat, k: string)
    requires 0xD800 <= hi < 0xDC00 <= lo < 0xE000
    ensures ParseEscape(HexTo(hi, HexTo(lo, k))[1..]) == Got((0x10000 + (hi - 0xD800) * 0x400 + (lo - 0xDC00)) as char, k)
  {
    var t := HexTo(lo, k);
    var s := HexTo(hi, t);
    HexParses(hi, t);
    HexParses(lo, k);
    assert s[1..][1..] == s[2..];
  }

  lemma PairParses(c: char, k: string)
    requires c as int >= 0x10000
    ensures var n := c as int - 0x10000;
      ParseChars(HexTo(0xD800 + n / 0x400, HexTo(0xDC00 + n % 0x400, k))) == Prepend(c, ParseChars(k))
  {
    var n := c as int - 0x10000;
    PairEscapes(0xD800 + n / 0x400, 0xDC00 + n % 0x400, k);
    assert (n / 0x400) * 0x400 + n % 0x400 == n;
  }

  lemma CharParses(c: char, ascii: bool, k: string)
    ensures ParseChars(CharTo(c, ascii, k)) == Prepend(c, ParseChars(k))
  {
    if c == '"' {
      Front2('\\', '"', k);
      Front('"', k);
    } else if c == '\\' {
      Front2('\\', '\\', k);
      Front('\\', k);
    } else if c == '\n' {
      Front2('\\', 'n', k);
      Front('n', k);
    } else if c == '\r' {
      Front2('\\', 'r', k);
      Front('r', k);
    } else if c == '\t' {
      Front2('\\', 't', k);
      Front('t', k);
    } else if c == 8 as char {
      Front2('\\', 'b', k);
      Front('b', k);
    } else if c == 12 as char {
      Front2('\\', 'f', k);
      Front('f', k);
    } else if c < ' ' {
      UnitParses(c, k);
    } else if !ascii || c <= '~' {
      Front(c, k);
    } else if c as int < 0x10000 {
      UnitParses(c, k);
    } else {
      PairParses(c, k);
    }
  }

  /** A printed string literal, less its opening quote, is read back and leaves what follows it. */
  lemma {:induction false} CharsParse(s: string, ascii: bool, k: string)
    ensures ParseChars(CharsTo(s, ascii, ['"'] + k)) == Got(s, k)
  {
    if s == "" {
      Front('"', k);
    } else {
      CharParses(s[0], ascii, CharsTo(s[1..], ascii, ['"'] + k));
      CharsParse(s[1..], ascii, k);
      assert [s[0]] + s[1..] == s;
    }
  }

  lemma {:induction false} DigitsParse(n: nat, k: string)
    ensures ParseDigits(DigitsTo(n, k), 0) == ParseDigits(k, n)
  {
    var c := '0' + (n % 10) as char;
    Front(c, k);
    if n >= 10 {
      DigitsParse(n / 10, [c] + k);
      assert 10 * (n / 10) + n % 10 == n;
    }
  }

  /** The first digit is a zero only for zero itself. */
  lemma {:induction false} DigitsStart(n: nat, k: string)
    ensures DigitsTo(n, k) != "" && IsDigit(DigitsTo(n, k)[0]) && (DigitsTo(n, k)[0] == '0' <==> n == 0)
  {
    var c := '0' + (n % 10) as char;
    Front(c, k);
    if n >= 10 { DigitsStart(n / 10, [c] + k); }
  }

  predicate NoDigit(k: string) { k == "" || !IsDigit(k[0]) }

  lemma NatParses(n: nat, k: string)
    requires NoDigit(k)
    ensures ParseNat(DigitsTo(n, k)) == Got(n, k)
  {
    DigitsStart(n, k);
    DigitsParse(n, k);
    if n == 0 { Front('0', k); }
  }

  /** Printed values do not start with white space or a closing bracket. */
  predicate StartsValue(s: string) {
    s != "" && (s[0] in {'"', '[', '{', '-', 'n', 't', 'f'} || IsDigit(s[0]))
  }

  lemma PrintStarts(v: Value, ascii: bool, k: string)
    ensures StartsValue(PrintTo(v, ascii, k))
  {
    match v
    case Num(n) => DigitsStart(if n < 0 then -n else n, k);
    case _ =>
  }

  lemma NoSpace(s: string)
    requires StartsValue(s)
    ensures SkipSpace(s) == s
  {
  }

  lemma WordParses(word: string, k: string)
    ensures StartsWith(word + k, word) && (word + k)[|word|..] == k
  {
  }

  /** Reading back a printed value gives the value and leaves exactly what was printed after it. */
  lemma {:induction false} ValueParses(v: Value, ascii: bool, k: string)
    requires Valid(v) && NoDigit(k)
    ensures ParseValue(PrintTo(v, ascii, k)) == Got(v, k)
    decreases v, 2
  {
    match v
    case Null => WordParses("null", k);
    case Bool(b) =>
      WordParses(if b then "true" else "false", k);
      if !b { assert ("false" + k)[0] == 'f'; }
    case Num(n) => NumParses(n, k);
    case Str(s) =>
      Front('"', CharsTo(s, ascii, ['"'] + k));
      CharsParse(s, ascii, k);
    case Arr(items) =>
      if items.Cons? {
        ItemsParse(items, ascii, k);
      }
      ArrParses(items, ascii, k);
    case Obj(d) =>
      if d.Entry? {
        EntriesParse(d, ascii, k);
      }
      ObjParses(d, ascii, k);
  }

  lemma ArrParses(items: List, ascii: bool, k: string)
    requires items.Cons? ==> ParseItems(ListTo(items, ascii, [']'] + k)) == Got(items, k)
    ensures ParseValue(PrintTo(Arr(items), ascii, k)) == Got(Arr(items), k)
  {
    var body := ListTo(items, ascii, [']'] + k);
    Front('[', body);
    Front(']', k);
    if items.Cons? {
      ListStarts(items, ascii, [']'] + k);
      NoSpace(body);
    }
  }

  lemma ObjParses(d: Dict, ascii: bool, k: string)
    requires d.Entry? ==> var body := DictTo(d, ascii, ['}'] + k); StartsValue(body) && ParseEntries(body) == Got(d, k)
    ensures ParseValue(PrintTo(Obj(d), ascii, k)) == Got(Obj(d), k)
  {
    var body := DictTo(d, ascii, ['}'] + k);
    Front('{', body);
    Front('}', k);
    if d.Entry? {
      NoSpace(body);
    }
  }

  lemma NumParses(n: int, k: string)
    requires NoDigit(k)
    ensures ParseValue(NumTo(n, k)) == Got(Num(n), k)
  {
    var m := if n < 0 then -n else n;
    DigitsStart(m, k);
    NatParses(m, k);
    Front('-', DigitsTo(m, k));
  }

  lemma ListStarts(l: List, ascii: bool, k: string)
    requires l.Cons?
    ensures StartsValue(ListTo(l, ascii, k))
  {
    PrintStarts(l.head, ascii, if l.tail.Nil? then k else [',', ' '] + ListTo(l.tail, ascii, k));
  }

  lemma {:induction false} ItemsParse(l: List, ascii: bool, k: string)
    requires l.Cons? && ValidList(l)
    ensures ParseItems(ListTo(l, ascii, [']'] + k)) == Got(l, k)
    decreases l, 1
  {
    if l.tail.Nil? {
      Front(']', k);
      ValueParses(l.head, ascii, [']'] + k);
    } else {
      var more := ListTo(l.tail, ascii, [']'] + k);
      ListStarts(l.tail, ascii, [']'] + k);
      ItemsParse(l.tail, ascii, k);
      Front2(',', ' ', more);
      ValueParses(l.head, ascii, [',', ' '] + more);
      NextItem(PrintTo(l.head, ascii, [',', ' '] + more), l.head, more, l.tail, k);
    }
  }

  lemma NextItem(s: string, v: Value, more: string, rest: List, k: string)
    requires ParseValue(s) == Got(v, [',', ' '] + more) && StartsValue(more) && ParseItems(more) == Got(rest, k)
    ensures ParseItems(s) == Got(Cons(v, rest), k)
  {
    Front2(',', ' ', more);
    Front(' ', more);
    NoSpace(more);
  }

  /** Reading the key and colon of an entry. */
  lemma KeyParses(key: string, ascii: bool, v: string)
    requires StartsValue(v)
    ensures var s := StrTo(key, ascii, [':', ' '] + v);
      StartsValue(s) && s[0] == '"' && ParseChars(s[1..]) == Got(key, [':', ' '] + v)
    ensures SkipSpace([':', ' '] + v) == [':', ' '] + v && SkipSpace(([':', ' '] + v)[1..]) == v
  {
    var t := [':', ' '] + v;
    CharsParse(key, ascii, t);
    Front('"', CharsTo(key, ascii, ['"'] + t));
    Front2(':', ' ', v);
    Front(' ', v);
    NoSpace(v);
  }

  /** Reading one entry up to what follows its value. */
  lemma EntryParses(key: string, v: Value, ascii: bool, after: string)
    requires ParseValue(PrintTo(v, ascii, after)) == Got(v, after) && SkipSpace(after) == after
    ensures var s := StrTo(key, ascii, [':', ' '] + PrintTo(v, ascii, after));
      StartsValue(s) && ParseEntries(s) == EntriesAfter(key, v, after)
  {
    PrintStarts(v, ascii, after);
    KeyParses(key, ascii, PrintTo(v, ascii, after));
  }

  lemma {:induction false} EntriesParse(d: Dict, ascii: bool, k: string)
    requires d.Entry? && ValidDict(d)
    ensures ParseEntries(DictTo(d, ascii, ['}'] + k)) == Got(d, k)
    ensures StartsValue(DictTo(d, ascii, ['}'] + k))
    decreases d, 1
  {
    if d.rest.Empty? {
      Front('}', k);
      ValueParses(d.value, ascii, ['}'] + k);
      EntryParses(d.key, d.value, ascii, ['}'] + k);
    } else {
      var more := DictTo(d.rest, ascii, ['}'] + k);
      EntriesParse(d.rest, ascii, k);
      NextEntry(d.key, d.value, d.rest, more, k);
      ValueParses(d.value, ascii, [',', ' '] + more);
      EntryParses(d.key, d.value, ascii, [',', ' '] + more);
    }
  }

  lemma NextEntry(key: string, v: Value, rest: Dict, more: string, k: string)
    requires StartsValue(more) && ParseEntries(more) == Got(rest, k) && !Has(rest, key)
    ensures NoDigit([',', ' '] + more) && SkipSpace([',', ' '] + more) == [',', ' '] + more
    ensures EntriesAfter(key, v, [',', ' '] + more) == Got(Entry(key, v, rest), k)
  {
    Front2(',', ' ', more);
    Front(' ', more);
    NoSpace(more);
  }

  /** json.loads undoes json.dumps, in both modes. */
  lemma LoadsDumps(v: Value, ascii: bool)
    requires Valid(v)
    ensures Loads(Dumps(v, ascii)) == Got(v, "")
  {
    ValueParses(v, ascii, "");
    PrintStarts(v, ascii, "");
    NoSpace(Dumps(v, ascii));
  }

  /** Text after a complete value is an error, wherever the value could not have gone on. */
  lemma TrailingTextFails(v: Value, ascii: bool, k: string)
    requires Valid(v) && NoDigit(k) && SkipSpace(k) != ""
    ensures Loads(PrintTo(v, ascii, k)) == Fail
  {
    ValueParses(v, ascii, k);
    PrintStarts(v, ascii, k);
    NoSpace(PrintTo(v, ascii, k));
  }

  // ---------- Printed size in UTF-8 ----------

  function Utf8(c: char): nat {
    var n := c as int;
    if n < 0x80 then 1 else if n < 0x800 then 2 else if n < 0x10000 then 3 else 4
  }

  function Utf8Len(s: string): nat {
    if s == "" then 0 else Utf8(s[0]) + Utf8Len(s[1..])
  }

  function CharBytes(c: char, ascii: bool): nat {
    if c in {'"', '\\', '\n', '\r', '\t', 8 as char, 12 as char} then 2
    else if c < ' ' then 6
    else if !ascii || c <= '~' then Utf8(c)
    else if c as int < 0x10000 then 6
    else 12
  }

  function CharsBytes(s: string, ascii: bool): nat {
    if s == "" then 0 else CharBytes(s[0], ascii) + CharsBytes(s[1..], ascii)
  }

  function StrBytes(s: string, ascii: bool): nat { 2 + CharsBytes(s, ascii) }

  function DigitCount(n: nat): nat { if n < 10 then 1 else 1 + DigitCount(n / 10) }

  function NumBytes(n: int): nat { if n < 0 then 1 + DigitCount(-n) else DigitCount(n) }

  function Bytes(v: Value, ascii: bool): nat {
    match v
    case Null => 4
    case Bool(b) => if b then 4 else 5
    case Num(n) => NumBytes(n)
    case Str(s) => StrBytes(s, ascii)
    case Arr(items) => 2 + ListBytes(items, ascii)
    case Obj(d) => 2 + DictBytes(d, ascii)
  }

  function ListBytes(l: List, ascii: bool): nat {
    match l
    case Nil => 0
    case Cons(h, t) => Bytes(h, ascii) + if t.Nil? then 0 else 2 + ListBytes(t, ascii)
  }

  function DictBytes(d: Dict, ascii: bool): nat {
    match d
    case Empty => 0
    case Entry(key, v, rest) =>
      StrBytes(key, ascii) + 2 + Bytes(v, ascii) + if rest.Empty? then 0 else 2 + DictBytes(rest, ascii)
  }

  lemma {:induction false} AsciiPrefix(p: string, k: string)
    requires forall i :: 0 <= i < |p| ==> p[i] as int < 0x80
    ensures Utf8Len(p + k) == |p| + Utf8Len(k)
  {
    if p == "" {
      assert p + k == k;
    } else {
      assert p + k == [p[0]] + (p[1..] + k);
      Front(p[0], p[1..] + k);
      AsciiPrefix(p[1..], k);
    }
  }

  lemma HexSize(n: nat, k: string)
    requires n < 0x10000
    ensures Utf8Len(HexTo(n, k)) == 6 + Utf8Len(k)
  {
    AsciiPrefix(['\\', 'u', HexDigit(n / 4096), HexDigit(n / 256 % 16), HexDigit(n / 16 % 16), HexDigit(n % 16)], k);
  }

  lemma CharSize(c: char, ascii: bool, k: string)
    ensures Utf8Len(CharTo(c, ascii, k)) == CharBytes(c, ascii) + Utf8Len(k)
  {
    if c == '"' { AsciiPrefix(['\\', '"'], k); }
    else if c == '\\' { AsciiPrefix(['\\', '\\'], k); }
    else if c == '\n' { AsciiPrefix(['\\', 'n'], k); }
    else if c == '\r' { AsciiPrefix(['\\', 'r'], k); }
    else if c == '\t' { AsciiPrefix(['\\', 't'], k); }
    else if c == 8 as char { AsciiPrefix(['\\', 'b'], k); }
    else if c == 12 as char { AsciiPrefix(['\\', 'f'], k); }
    else if c < ' ' { HexSize(c as int, k); }
    else if !ascii || c <= '~' { Front(c, k); }
    else if c as int < 0x10000 { HexSize(c as int, k); }
    else {
      var n := c as int - 0x10000;
      HexSize(0xDC00 + n % 0x400, k);
      HexSize(0xD800 + n / 0x400, HexTo(0xDC00 + n % 0x400, k));
    }
  }

  lemma {:induction false} CharsSize(s: string, ascii: bool, k: string)
    ensures Utf8Len(CharsTo(s, ascii, k)) == CharsBytes(s, ascii) + Utf8Len(k)
  {
    if s != "" {
      CharSize(s[0], ascii, CharsTo(s[1..], ascii, k));
      CharsSize(s[1..], ascii, k);
    }
  }

  lemma StrSize(s: string, ascii: bool, k: string)
    ensures Utf8Len(StrTo(s, ascii, k)) == StrBytes(s, ascii) + Utf8Len(k)
  {
    AsciiPrefix(['"'], CharsTo(s, ascii, ['"'] + k));
    CharsSize(s, ascii, ['"'] + k);
    AsciiPrefix(['"'], k);
  }

  lemma {:induction false} DigitsSize(n: nat, k: string)
    ensures Utf8Len(DigitsTo(n, k)) == DigitCount(n) + Utf8Len(k)
  {
    var c := '0' + (n % 10) as char;
    AsciiPrefix([c], k);
    if n >= 10 { DigitsSize(n / 10, [c] + k); }
  }

  /** The size of a printed value does not depend on what follows it. */
  lemma {:induction false} PrintSize(v: Value, ascii: bool, k: string)
    ensures Utf8Len(PrintTo(v, ascii, k)) == Bytes(v, ascii) + Utf8Len(k)
    decreases v, 2
  {
    match v
    case Null => AsciiPrefix("null", k);
    case Bool(b) => AsciiPrefix(if b then "true" else "false", k);
    case Num(n) =>
      DigitsSize(if n < 0 then -n else n, k);
      if n < 0 { AsciiPrefix(['-'], DigitsTo(-n, k)); }
    case Str(s) => StrSize(s, ascii, k);
    case Arr(items) =>
      AsciiPrefix(['['], ListTo(items, ascii, [']'] + k));
      ListSize(items, ascii, [']'] + k);
      AsciiPrefix([']'], k);
    case Obj(d) =>
      AsciiPrefix(['{'], DictTo(d, ascii, ['}'] + k));
      DictSize(d, ascii, ['}'] + k);
      AsciiPrefix(['}'], k);
  }

  lemma {:induction false} ListSize(l: List, ascii: bool, k: string)
    ensures Utf8Len(ListTo(l, ascii, k)) == ListBytes(l, ascii) + Utf8Len(k)
    decreases l, 1
  {
    if l.Cons? {
      if l.tail.Nil? {
        PrintSize(l.head, ascii, k);
      } else {
        var more := ListTo(l.tail, ascii, k);
        PrintSize(l.head, ascii, [',', ' '] + more);
        AsciiPrefix([',', ' '], more);
        ListSize(l.tail, ascii, k);
      }
    }
  }

  lemma {:induction false} DictSize(d: Dict, ascii: bool, k: string)
    ensures Utf8Len(DictTo(d, ascii, k)) == DictBytes(d, ascii) + Utf8Len(k)
    decreases d, 1
  {
    if d.Entry? {
      var after := if d.rest.Empty? then k else [',', ' '] + DictTo(d.rest, ascii, k);
      StrSize(d.key, ascii, [':', ' '] + PrintTo(d.value, ascii, after));
      AsciiPrefix([':', ' '], PrintTo(d.value, ascii, after));
      PrintSize(d.value, ascii, after);
      if d.rest.Entry? {
        AsciiPrefix([',', ' '], DictTo(d.rest, ascii, k));
        DictSize(d.rest, ascii, k);
      }
    }
  }

  /** Cutting a string short never makes it larger. */
  lemma {:induction false} PrefixBytes(s: string, n: nat, ascii: bool)
    requires n <= |s|
    ensures CharsBytes(s[..n], ascii) <= CharsBytes(s, ascii)
    ensures CharsBytes(s[..n], ascii) <= (if ascii then 12 else 6) * n
  {
    if n > 0 {
      assert s[..n][1..] == s[1..][..n - 1];
      PrefixBytes(s[1..], n - 1, ascii);
    }
  }

  // ---------- Printed text by itself ----------

  lemma Assoc(a: string, j: string, k: string)
    ensures a + (j + k) == (a + j) + k
  {
  }

  lemma HexApart(n: nat, j: string, k: string)
    requires n < 0x10000
    ensures HexTo(n, j + k) == HexTo(n, j) + k
  {
  }

  lemma CharApart(c: char, ascii: bool, j: string, k: string)
    ensures CharTo(c, ascii, j + k) == CharTo(c, ascii, j) + k
  {
    if c == '"' {
      Assoc(['\\', '"'], j, k);
    } else if c == '\\' {
      Assoc(['\\', '\\'], j, k);
    } else if c == '\n' {
      Assoc(['\\', 'n'], j, k);
    } else if c == '\r' {
      Assoc(['\\', 'r'], j, k);
    } else if c == '\t' {
      Assoc(['\\', 't'], j, k);
    } else if c == 8 as char {
      Assoc(['\\', 'b'], j, k);
    } else if c == 12 as char {
      Assoc(['\\', 'f'], j, k);
    } else if c < ' ' {
      HexApart(c as int, j, k);
    } else if !ascii || c <= '~' {
      Assoc([c], j, k);
    } else if c as int < 0x10000 {
      HexApart(c as int, j, k);
    } else {
      var n := c as int - 0x10000;
      HexPairApart(0xD800 + n / 0x400, 0xDC00 + n % 0x400, j, k);
    }
  }

  lemma HexPairApart(hi: nat, lo: nat, j: string, k: string)
    requires hi < 0x10000 && lo < 0x10000
    ensures HexTo(hi, HexTo(lo, j + k)) == HexTo(hi, HexTo(lo, j)) + k
  {
    HexApart(lo, j, k);
    HexApart(hi, HexTo(lo, j), k);
  }

  lemma {:induction false} CharsApart(s: string, ascii: bool, j: string, k: string)
    ensures CharsTo(s, ascii, j + k) == CharsTo(s, ascii, j) + k
  {
    if s != "" {
      CharsApart(s[1..], ascii, j, k);
      CharApart(s[0], ascii, CharsTo(s[1..], ascii, j), k);
    }
  }

  lemma StrApart(s: string, ascii: bool, j: string, k: string)
    ensures StrTo(s, ascii, j + k) == StrTo(s, ascii, j) + k
  {
    Assoc(['"'], j, k);
    CharsApart(s, ascii, ['"'] + j, k);
    Assoc(['"'], CharsTo(s, ascii, ['"'] + j), k);
  }

  lemma {:induction false} DigitsApart(n: nat, j: string, k: string)
    ensures DigitsTo(n, j + k) == DigitsTo(n, j) + k
  {
    var c := '0' + (n % 10) as char;
    Assoc([c], j, k);
    if n >= 10 { DigitsApart(n / 10, [c] + j, k); }
  }

  /** What is printed after a value does not change how the value is printed. */
  lemma {:induction false} PrintApart(v: Value, ascii: bool, j: string, k: string)
    ensures PrintTo(v, ascii, j + k) == PrintTo(v, ascii, j) + k
    decreases v, 2
  {
    match v
    case Null => Assoc("null", j, k);
    case Bool(b) => Assoc(if b then "true" else "false", j, k);
    case Num(n) => NumApart(n, ascii, j, k);
    case Str(s) => StrApart(s, ascii, j, k);
    case Arr(items) => ArrApart(items, ascii, j, k);
    case Obj(d) => ObjApart(d, ascii, j, k);
  }

  lemma NumApart(n: int, ascii: bool, j: string, k: string)
    ensures PrintTo(Num(n), ascii, j + k) == PrintTo(Num(n), ascii, j) + k
  {
    DigitsApart(if n < 0 then -n else n, j, k);
    if n < 0 { Assoc(['-'], DigitsTo(-n, j), k); }
  }

  lemma ArrApart(items: List, ascii: bool, j: string, k: string)
    ensures PrintTo(Arr(items), ascii, j + k) == PrintTo(Arr(items), ascii, j) + k
    decreases items, 2
  {
    Assoc([']'], j, k);
    ListApart(items, ascii, [']'] + j, k);
    Assoc(['['], ListTo(items, ascii, [']'] + j), k);
  }

  lemma ObjApart(d: Dict, ascii: bool, j: string, k: string)
    ensures PrintTo(Obj(d), ascii, j + k) == PrintTo(Obj(d), ascii, j) + k
    decreases d, 2
  {
    Assoc(['}'], j, k);
    DictApart(d, ascii, ['}'] + j, k);
    Assoc(['{'], DictTo(d, ascii, ['}'] + j), k);
  }

  lemma {:induction false} ListApart(l: List, ascii: bool, j: string, k: string)
    ensures ListTo(l, ascii, j + k) == ListTo(l, ascii, j) + k
    decreases l, 1
  {
    if l.Cons? {
      if l.tail.Nil? {
        PrintApart(l.head, ascii, j, k);
      } else {
        ListApart(l.tail, ascii, j, k);
        var more := [',', ' '] + ListTo(l.tail, ascii, j);
        Assoc([',', ' '], ListTo(l.tail, ascii, j), k);
        PrintApart(l.head, ascii, more, k);
      }
    }
  }

  lemma {:induction false} DictApart(d: Dict, ascii: bool, j: string, k: string)
    ensures DictTo(d, ascii, j + k) == DictTo(d, ascii, j) + k
    decreases d, 1
  {
    if d.Entry? {
      var after := if d.rest.Empty? then j else [',', ' '] + DictTo(d.rest, ascii, j);
      if d.rest.Entry? {
        DictApart(d.rest, ascii, j, k);
        Assoc([',', ' '], DictTo(d.rest, ascii, j), k);
      }
      PrintApart(d.value, ascii, after, k);
      var v := PrintTo(d.value, ascii, after);
      Assoc([':', ' '], v, k);
      StrApart(d.key, ascii, [':', ' '] + v, k);
    }
  }

  /** Printable ASCII only: no line break, no control character. */
  predicate Clean(s: string) { forall i :: 0 <= i < |s| ==> ' ' <= s[i] <= '~' }

  lemma CharClean(c: char, k: string)
    requires Clean(k)
    ensures Clean(CharTo(c, true, k))
  {
  }

  lemma {:induction false} CharsClean(s: string, k: string)
    requires Clean(k)
    ensures Clean(CharsTo(s, true, k))
  {
    if s != "" {
      CharsClean(s[1..], k);
      CharClean(s[0], CharsTo(s[1..], true, k));
    }
  }

  lemma StrClean(s: string, k: string)
    requires Clean(k)
    ensures Clean(StrTo(s, true, k))
  {
    CharsClean(s, ['"'] + k);
  }

  lemma {:induction false} DigitsClean(n: nat, k: string)
    requires Clean(k)
    ensures Clean(DigitsTo(n, k))
  {
    if n >= 10 { DigitsClean(n / 10, ['0' + (n % 10) as char] + k); }
  }

  /** With ensure_ascii, printing yields printable ASCII whatever characters the value holds. */
  lemma {:induction false} PrintClean(v: Value, k: string)
    requires Clean(k)
    ensures Clean(PrintTo(v, true, k))
    decreases v, 2
  {
    match v
    case Null =>
    case Bool(b) =>
    case Num(n) => DigitsClean(if n < 0 then -n else n, k);
    case Str(s) => StrClean(s, k);
    case Arr(items) => ListClean(items, [']'] + k);
    case Obj(d) => DictClean(d, ['}'] + k);
  }

  lemma {:induction false} ListClean(l: List, k: string)
    requires Clean(k)
    ensures Clean(ListTo(l, true, k))
    decreases l, 1
  {
    if l.Cons? {
      if l.tail.Cons? { ListClean(l.tail, k); }
      PrintClean(l.head, if l.tail.Nil? then k else [',', ' '] + ListTo(l.tail, true, k));
    }
  }

  lemma {:induction false} DictClean(d: Dict, k: string)
    requires Clean(k)
    ensures Clean(DictTo(d, true, k))
    decreases d, 1
  {
    if d.Entry? {
      if d.rest.Entry? { DictClean(d.rest, k); }
      var after := if d.rest.Empty? then k else [',', ' '] + DictTo(d.rest, true, k);
      PrintClean(d.value, after);
      StrClean(d.key, [':', ' '] + PrintTo(d.value, true, after));
    }
  }
}
