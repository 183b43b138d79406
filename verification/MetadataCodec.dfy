/**
The message store's metadata codec: a map printed as key=value pairs joined by '|', in whatever order the map is
walked, and parsed back by two hand-written splitters.  The round trip is proved for every walk
order, together with exactly which maps survive it.
*/
module MetadataCodec {
  import opened Options

  // ---------- Printing ----------

  function Pair(k: string, v: string): string { k + "=" + v }

  /** The printed form for one order of the keys. */
  function Join(order: seq<string>, m: map<string, string>): string
    requires forall k :: k in order ==> k in m
  {
    if order == [] then ""
    else
      var last := order[|order| - 1];
      if |order| == 1 then Pair(last, m[last])
      else Join(order[..|order| - 1], m) + "|" + Pair(last, m[last])
  }

  /** `order` lists each key once. */
  ghost predicate Enumerates(order: seq<string>, keys: set<string>) {
    && (forall k :: k in order <==> k in keys)
    && (forall i, j :: 0 <= i < j < |order| ==> order[i] != order[j])
  }

  /** A nil map prints like an empty one. */
  method SerializeMetadata(m: Option<map<string, string>>) returns (result: string, ghost order: seq<string>)
    ensures Enumerates(order, Entries(m).Keys)
    ensures result == Join(order, Entries(m))
  {
    result, order := "", [];
    if m == None {
      return;
    }
    var todo := m.value.Keys;
    while todo != {}
      invariant todo <= m.value.Keys
      invariant Enumerates(order, m.value.Keys - todo)
      invariant result == Join(order, m.value)
      invariant result == "" <==> order == []
    {
      var k :| k in todo;
      if result != "" {
        result := result + "|";
      }
      result := result + (k + "=" + m.value[k]);
      assert (order + [k])[..|order|] == order;
      order := order + [k];
      todo := todo - {k};
    }
  }

  function Entries(m: Option<map<string, string>>): map<string, string> {
    if m.None? then map[] else m.value
  }

  // ---------- Parsing ----------

  /** Index of the first `c` from `i` on, or the length. */
  function Find(s: string, c: char, i: nat): (j: nat)
    requires i <= |s|
    ensures i <= j <= |s| && (j < |s| ==> s[j] == c)
    decreases |s| - i
  {
    if i == |s| || s[i] == c then i else Find(s, c, i + 1)
  }

  /** The segments between bars from `start` on; an empty last segment is dropped. */
  function Pairs(s: string, start: nat): seq<string>
    requires start <= |s|
    decreases |s| - start
  {
    if start == |s| then []
    else
      var i := Find(s, '|', start);
      if i == |s| then [s[start..]] else [s[start..i]] + Pairs(s, i + 1)
  }

  function KeyValue(s: string): (string, string) {
    var i := Find(s, '=', 0);
    if i == |s| then (s, "") else (s[..i], s[i + 1..])
  }

  /** Later pairs override earlier ones; a pair with an empty key is ignored. */
  function FromPairs(pairs: seq<string>): map<string, string> {
    if pairs == [] then map[]
    else
      var before, (k, v) := FromPairs(pairs[..|pairs| - 1]), KeyValue(pairs[|pairs| - 1]);
      if k == "" then before else before[k := v]
  }

  function Deserialize(s: string): Option<map<string, string>> {
    if s == "" then None else Some(FromPairs(Pairs(s, 0)))
  }

  /** No `c` in s[i..j]. */
  predicate Free(s: string, c: char, i: nat, j: nat)
    requires i <= j <= |s|
  {
    forall k :: i <= k < j ==> s[k] != c
  }

  lemma FindIs(s: string, c: char, i: nat, j: nat)
    requires i <= j <= |s| && Free(s, c, i, j) && (j < |s| ==> s[j] == c)
    ensures Find(s, c, i) == j
    decreases j - i
  {
    if i < j { FindIs(s, c, i + 1, j); }
  }

  lemma FindFree(s: string, c: char, i: nat)
    requires i <= |s|
    ensures Free(s, c, i, Find(s, c, i))
    decreases |s| - i
  {
    if i < |s| && s[i] != c { FindFree(s, c, i + 1); }
  }

  method SplitPairs(s: string) returns (pairs: seq<string>)
    ensures pairs == Pairs(s, 0)
  {
    pairs := [];
    var start := 0;
    var i := 0;
    while i < |s|
      invariant start <= i <= |s|
      invariant Free(s, '|', start, i)
      invariant Pairs(s, 0) == pairs + Pairs(s, start)
    {
      if s[i] == '|' {
        FindIs(s, '|', start, i);
        pairs := pairs + [s[start..i]];
        start := i + 1;
      }
      i := i + 1;
    }
    if start < |s| {
      FindIs(s, '|', start, |s|);
      pairs := pairs + [s[start..]];
    }
  }

  method SplitKV(s: string) returns (k: string, v: string)
    ensures (k, v) == KeyValue(s)
  {
    var i := 0;
    while i < |s|
      invariant i <= |s| && Free(s, '=', 0, i)
    {
      if s[i] == '=' {
        FindIs(s, '=', 0, i);
        return s[..i], s[i + 1..];
      }
      i := i + 1;
    }
    FindIs(s, '=', 0, |s|);
    return s, "";
  }

  method DeserializeMetadata(str: string) returns (r: Option<map<string, string>>)
    ensures r == Deserialize(str)
  {
    if str == "" {
      return None;
    }
    var m := map[];
    var pairs := SplitPairs(str);
    for i := 0 to |pairs|
      invariant m == FromPairs(pairs[..i])
    {
      assert pairs[..i + 1][..i] == pairs[..i];
      var k, v := SplitKV(pairs[i]);
      if k != "" {
        m := m[k := v];
      }
    }
    assert pairs[..|pairs|] == pairs;
    return Some(m);
  }

  // ---------- What any string parses to ----------

  /** The pieces, each closed by a bar. */
  function Barred(pieces: seq<string>): string {
    if pieces == [] then "" else pieces[0] + "|" + Barred(pieces[1..])
  }

  /** Splitting cuts at every bar and nowhere else: closing each piece with a bar gives the string back, a missing last bar supplied. */
  lemma {:induction false} PiecesRejoin(s: string, start: nat)
    requires start <= |s|
    ensures Barred(Pairs(s, start)) == Closed(s[start..])
    decreases |s| - start
  {
    if start < |s| {
      var i := Find(s, '|', start);
      if i < |s| {
        PiecesRejoin(s, i + 1);
        assert s[start..] == s[start..i] + "|" + s[i + 1..];
        OnePieceMore(s[start..i], Pairs(s, i + 1), s[i + 1..], s[start..]);
      } else {
        FindFree(s, '|', start);
        LastPiece(s[start..]);
      }
    }
  }

  lemma OnePieceMore(piece: string, rest: seq<string>, tail: string, whole: string)
    requires Barred(rest) == Closed(tail) && whole == piece + "|" + tail
    ensures Barred([piece] + rest) == Closed(whole)
  {
    assert ([piece] + rest)[1..] == rest;
    ClosedBehind(piece + "|", tail);
  }

  lemma LastPiece(piece: string)
    requires piece != "" && piece[|piece| - 1] != '|'
    ensures Barred([piece]) == Closed(piece)
  {
    assert [piece][1..] == [];
  }

  /** The string with its last bar supplied if it is missing. */
  function Closed(s: string): string { if s == "" || s[|s| - 1] == '|' then s else s + "|" }

  lemma ClosedBehind(a: string, b: string)
    requires a != "" && a[|a| - 1] == '|'
    ensures Closed(a + b) == a + Closed(b)
  {
    if b == "" {
      assert a + b == a;
    } else {
      assert (a + b) + "|" == a + (b + "|");
    }
  }

  /** This piece gives `k` the value `v`: what stands before and after its first equals sign, or all of it and nothing. */
  predicate Names(piece: string, k: string, v: string) {
    Without(k, '=') && (piece == Pair(k, v) || (piece == k && v == ""))
  }

  /** This piece gives `k` some value. */
  predicate Mentions(piece: string, k: string) {
    Without(k, '=') && (piece == k || k + "=" <= piece)
  }

  lemma KeyValueIff(piece: string, k: string, v: string)
    ensures KeyValue(piece) == (k, v) <==> Names(piece, k, v)
  {
    var i := Find(piece, '=', 0);
    FindFree(piece, '=', 0);
    if i < |piece| {
      assert piece == Pair(piece[..i], piece[i + 1..]);
    }
    if Names(piece, k, v) {
      FindIs(piece, '=', 0, |k|);
      if piece == Pair(k, v) {
        KeyValueOfPair(k, v);
      }
    }
  }

  lemma KeyIff(piece: string, k: string)
    ensures KeyValue(piece).0 == k <==> Mentions(piece, k)
  {
    KeyValueIff(piece, KeyValue(piece).0, KeyValue(piece).1);
    if Mentions(piece, k) && piece != k {
      assert piece == Pair(k, piece[|k| + 1..]);
      KeyValueOfPair(k, piece[|k| + 1..]);
    } else if Mentions(piece, k) {
      KeyValueIff(piece, k, "");
    }
  }

  /** Piece n gives `k` the value `v` and no later piece gives it any. */
  ghost predicate Decides(pieces: seq<string>, n: int, k: string, v: string) {
    && 0 <= n < |pieces| && Names(pieces[n], k, v)
    && forall m :: n < m < |pieces| ==> !Mentions(pieces[m], k)
  }

  ghost predicate Decided(pieces: seq<string>, k: string, v: string) {
    exists n :: Decides(pieces, n, k, v)
  }

  /** For every list of pieces: the last piece that mentions a key that is not empty decides its value. */
  lemma {:induction false} LastPieceWins(pieces: seq<string>, k: string, v: string)
    ensures k in FromPairs(pieces) && FromPairs(pieces)[k] == v <==> k != "" && Decided(pieces, k, v)
  {
    if pieces != [] {
      var n := |pieces| - 1;
      var before := pieces[..n];
      LastPieceWins(before, k, v);
      KeyValueIff(pieces[n], k, v);
      KeyIff(pieces[n], k);
      if Mentions(pieces[n], k) {
        assert Decides(pieces, n, k, v) <==> Names(pieces[n], k, v);
      } else {
        forall m | Decides(before, m, k, v) ensures Decides(pieces, m, k, v) {}
        forall m | Decides(pieces, m, k, v) ensures Decides(before, m, k, v) {
          KeyIff(pieces[m], k);
          KeyValueIff(pieces[m], k, v);
        }
      }
    }
  }

  /** What any string at all parses to: nothing when empty, else what its pieces decide. */
  lemma ParsesTo(s: string, k: string, v: string)
    ensures Deserialize(s) == None <==> s == ""
    ensures var m := Entries(Deserialize(s));
      k in m && m[k] == v <==> k != "" && Decided(Pairs(s, 0), k, v)
  {
    var pieces := Pairs(s, 0);
    assert Entries(Deserialize(s)) == FromPairs(pieces);
    LastPieceWins(pieces, k, v);
  }

  // ---------- Round trip ----------

  predicate Without(s: string, c: char) { Free(s, c, 0, |s|) }

  /** Keys are non-empty and free of both separators, values are free of the bar. */
  ghost predicate Printable(m: map<string, string>) {
    forall k :: k in m ==> k != "" && Without(k, '=') && Without(k, '|') && Without(m[k], '|')
  }

  lemma PairsLast(a: string, b: string, s: string, start: nat)
    requires s == a + "|" + b
    requires start < |a| && Free(a, '|', start, |a|) && b != "" && Without(b, '|')
    ensures Pairs(s, start) == [a[start..], b]
  {
    FindIs(s, '|', start, |a|);
    FindIs(s, '|', |a| + 1, |s|);
    assert Pairs(s, |a| + 1) == [s[|a| + 1..]];
    assert s[start..|a|] == a[start..] && s[|a| + 1..] == b;
  }

  lemma PairsFirst(s: string, start: nat, i: nat)
    requires start <= i < |s| && Free(s, '|', start, i) && s[i] == '|'
    ensures Pairs(s, start) == [s[start..i]] + Pairs(s, i + 1)
  {
    FindIs(s, '|', start, i);
  }

  lemma Regroup(x: string, middle: seq<string>, y: string)
    ensures [x] + (middle + [y]) == ([x] + middle) + [y]
  {
  }

  lemma PairsGrow(a: string, s: string, b: string, start: nat, i: nat)
    requires start <= i < |a| && Free(a, '|', start, i) && a[i] == '|'
    requires i < |s| && s[..i + 1] == a[..i + 1]
    requires Pairs(s, i + 1) == Pairs(a, i + 1) + [b]
    ensures Pairs(s, start) == Pairs(a, start) + [b]
  {
    assert forall k :: 0 <= k <= i ==> s[k] == s[..i + 1][k] == a[..i + 1][k] == a[k];
    PairsFirst(a, start, i);
    PairsFirst(s, start, i);
    assert s[start..i] == a[start..i];
    Regroup(a[start..i], Pairs(a, i + 1), b);
  }

  lemma {:induction false} PairsAppend(a: string, b: string, s: string, start: nat)
    requires s == a + "|" + b
    requires start < |a| && a[|a| - 1] != '|' && b != "" && Without(b, '|')
    ensures Pairs(s, start) == Pairs(a, start) + [b]
    decreases |a| - start
  {
    var i := Find(a, '|', start);
    FindFree(a, '|', start);
    if i == |a| {
      PairsLast(a, b, s, start);
    } else {
      PairsAppend(a, b, s, i + 1);
      PairsGrow(a, s, b, start, i);
    }
  }

  lemma PairIsWhole(k: string, v: string)
    requires Without(k, '|') && Without(v, '|')
    ensures Without(Pair(k, v), '|') && Pairs(Pair(k, v), 0) == [Pair(k, v)]
  {
    FindIs(Pair(k, v), '|', 0, |Pair(k, v)|);
  }

  /** Splitting the printed form gives back the pairs, in the order they were printed. */
  lemma {:induction false} JoinSplits(order: seq<string>, m: map<string, string>)
    requires Printable(m) && order != [] && forall k :: k in order ==> k in m
    ensures Join(order, m) != "" && Join(order, m)[|Join(order, m)| - 1] != '|'
    ensures |Pairs(Join(order, m), 0)| == |order|
    ensures forall i :: 0 <= i < |order| ==> Pairs(Join(order, m), 0)[i] == Pair(order[i], m[order[i]])
  {
    var last := order[|order| - 1];
    var p := Pair(last, m[last]);
    assert last in order;
    PairIsWhole(last, m[last]);
    if |order| > 1 {
      var before := order[..|order| - 1];
      JoinSplits(before, m);
      PairsAppend(Join(before, m), p, Join(order, m), 0);
    }
  }

  lemma KeyValueOfPair(k: string, v: string)
    requires Without(k, '=')
    ensures KeyValue(Pair(k, v)) == (k, v)
  {
    FindIs(Pair(k, v), '=', 0, |k|);
    assert Pair(k, v)[..|k|] == k && Pair(k, v)[|k| + 1..] == v;
  }

  lemma {:induction false} FromPairsOf(pairs: seq<string>, order: seq<string>, m: map<string, string>)
    requires Printable(m) && |pairs| == |order| && forall k :: k in order ==> k in m
    requires forall i :: 0 <= i < |order| ==> pairs[i] == Pair(order[i], m[order[i]])
    ensures FromPairs(pairs) == map k | k in m && k in order :: m[k]
  {
    if pairs != [] {
      var n := |pairs| - 1;
      assert order[n] in order && order == order[..n] + [order[n]];
      FromPairsOf(pairs[..n], order[..n], m);
      KeyValueOfPair(order[n], m[order[n]]);
    }
  }

  /** Whatever is parsed has non-empty keys without separators, and values without the bar. */
  lemma PairsAreFree(s: string, start: nat)
    requires start <= |s|
    ensures forall i :: 0 <= i < |Pairs(s, start)| ==> Without(Pairs(s, start)[i], '|')
    decreases |s| - start
  {
    FindFree(s, '|', start);
    if start < |s| && Find(s, '|', start) < |s| { PairsAreFree(s, Find(s, '|', start) + 1); }
  }

  lemma {:induction false} PairsPrintable(pairs: seq<string>)
    requires forall i :: 0 <= i < |pairs| ==> Without(pairs[i], '|')
    ensures Printable(FromPairs(pairs))
  {
    if pairs != [] {
      PairsPrintable(pairs[..|pairs| - 1]);
      FindFree(pairs[|pairs| - 1], '=', 0);
    }
  }

  /** Whatever string is parsed, printed or not, the result is printable. */
  lemma ParsedIsPrintable(s: string)
    ensures Printable(Entries(Deserialize(s)))
  {
    PairsAreFree(s, 0);
    PairsPrintable(Pairs(s, 0));
  }

  /**
  For every map and every order it may be walked in: parsing the printed form gives the map back (a nil or empty
  result standing for the empty map) exactly when the map is printable.
  */
  lemma RoundTripIffPrintable(m: map<string, string>, order: seq<string>)
    requires Enumerates(order, m.Keys)
    ensures Entries(Deserialize(Join(order, m))) == m <==> Printable(m)
  {
    if Printable(m) {
      if order == [] {
        assert m.Keys == {};
      } else {
        JoinSplits(order, m);
        FromPairsOf(Pairs(Join(order, m), 0), order, m);
      }
    }
    ParsedIsPrintable(Join(order, m));
  }
}
