/**
The LRU cache with per-entry expiry.

The specification has no list at all: it stamps every entry with the tick at which it was last
touched and evicts the entry with the smallest stamp.  The class keeps a map and a recency list,
as the source does, and every method is proved to act on the stamps as the specification says.
Whole traces are then reasoned about on the specification.
*/
module LruCache {
  import opened Options

  /** Result of the caller's compute function. */
  datatype Outcome = Ok(value: int) | Err(message: string)

  // Cached values are never inspected; an int stands for them.  Times and durations are ticks of one clock.
  datatype Entry = Entry(value: int, expiresAt: int)

  const DEFAULT_MAX_SIZE := 1000
  const DEFAULT_TTL := 300_000_000_000 // five minutes in nanoseconds

  // ---------- Specification: stamps instead of a list ----------

  datatype Slot = Slot(value: int, expiresAt: int, touched: nat)

  datatype Recency = Recency(slots: map<string, Slot>, tick: nat, maxSize: nat, inserted: nat, evictions: nat)

  predicate Expired(s: Slot, now: int) { now > s.expiresAt }

  ghost predicate IsOldest(slots: map<string, Slot>, k: string) {
    k in slots && forall j :: NotOlder(slots, k, j)
  }

  ghost predicate NotOlder(slots: map<string, Slot>, k: string, j: string)
    requires k in slots
  {
    j in slots ==> slots[k].touched <= slots[j].touched
  }

  /** Stamps are distinct and in the past, the capacity holds, and every insertion is resident or was evicted. */
  ghost predicate WellFormed(r: Recency) {
    && r.maxSize > 0
    && |r.slots| <= r.maxSize
    && r.inserted == |r.slots| + r.evictions
    && AllBefore(r.slots, r.tick)
    && (forall j, k :: Apart(r.slots, j, k))
  }

  ghost predicate Before(slots: map<string, Slot>, k: string, tick: nat) {
    k in slots ==> slots[k].touched < tick
  }

  ghost predicate AllBefore(slots: map<string, Slot>, tick: nat) {
    forall k :: Before(slots, k, tick)
  }

  ghost predicate Apart(slots: map<string, Slot>, j: string, k: string) {
    j in slots && k in slots && slots[j].touched == slots[k].touched ==> j == k
  }

  lemma OldestExists(slots: map<string, Slot>)
    requires slots != map[]
    ensures exists k :: IsOldest(slots, k)
  {
    var k :| k in slots;
    var rest := slots - {k};
    if rest == map[] {
      forall j ensures NotOlder(slots, k, j) {
        assert j !in rest;
      }
      assert IsOldest(slots, k);
    } else {
      OldestExists(rest);
      var o :| IsOldest(rest, o);
      var m := if slots[k].touched <= slots[o].touched then k else o;
      forall j ensures NotOlder(slots, m, j) {
        assert NotOlder(rest, o, j);
      }
      assert IsOldest(slots, m);
    }
  }

  ghost function Oldest(slots: map<string, Slot>): (k: string)
    requires slots != map[]
    ensures IsOldest(slots, k)
  {
    OldestExists(slots);
    var k :| IsOldest(slots, k);
    k
  }

  ghost function Touch(r: Recency, k: string): Recency
    requires k in r.slots
  {
    r.(slots := r.slots[k := r.slots[k].(touched := r.tick)], tick := r.tick + 1)
  }

  ghost function Drop(r: Recency, ks: set<string>): Recency
    requires ks <= r.slots.Keys
  {
    r.(slots := r.slots - ks, evictions := r.evictions + |ks|)
  }

  ghost function AfterGet(r: Recency, k: string, now: int): Recency {
    if k !in r.slots then r
    else if Expired(r.slots[k], now) then Drop(r, {k})
    else Touch(r, k)
  }

  ghost function GetAnswer(r: Recency, k: string, now: int): Option<int> {
    if k in r.slots && !Expired(r.slots[k], now) then Some(r.slots[k].value) else None
  }

  ghost function Insert(r: Recency, k: string, s: Slot): Recency {
    r.(slots := r.slots[k := s], tick := r.tick + 1, inserted := r.inserted + 1)
  }

  ghost function AfterSet(r: Recency, k: string, v: int, expiresAt: int): Recency {
    var s := Slot(v, expiresAt, r.tick);
    if k in r.slots then r.(slots := r.slots[k := s], tick := r.tick + 1)
    else if |r.slots| >= r.maxSize && r.slots != map[] then Insert(Drop(r, {Oldest(r.slots)}), k, s)
    else Insert(r, k, s)
  }

  ghost function AfterDelete(r: Recency, k: string): Recency {
    if k in r.slots then Drop(r, {k}) else r
  }

  ghost function ExpiredKeys(r: Recency, now: int): set<string> {
    set k | k in r.slots && Expired(r.slots[k], now)
  }

  lemma KeysRemoved(m: map<string, Slot>, ks: set<string>)
    requires ks <= m.Keys
    ensures |m - ks| == |m| - |ks|
  {
    assert (m - ks).Keys == m.Keys - ks;
    assert |(m - ks).Keys| == |m.Keys| - |ks|;
  }

  lemma DropTwice(r: Recency, ks: set<string>, k: string)
    requires ks <= r.slots.Keys && k in r.slots && k !in ks
    ensures Drop(Drop(r, ks), {k}) == Drop(r, ks + {k})
  {
    assert r.slots - ks - {k} == r.slots - (ks + {k});
    assert |ks + {k}| == |ks| + |{k}|;
  }

  lemma DropWellFormed(r: Recency, ks: set<string>)
    requires WellFormed(r) && ks <= r.slots.Keys
    ensures WellFormed(Drop(r, ks))
  {
    KeysRemoved(r.slots, ks);
    forall k ensures Before(Drop(r, ks).slots, k, r.tick) {
      assert Before(r.slots, k, r.tick);
    }
    forall j, k ensures Apart(Drop(r, ks).slots, j, k) {
      assert Apart(r.slots, j, k);
    }
  }

  /** Giving a key a slot with the current tick keeps stamps distinct; the entry count grows only for a new key. */
  lemma Restamped(r: Recency, k: string, s: Slot)
    requires WellFormed(r) && s.touched == r.tick
    ensures var slots' := r.slots[k := s];
      && |slots'| == |r.slots| + (if k in r.slots then 0 else 1)
      && AllBefore(slots', r.tick + 1)
      && (forall i, j :: Apart(slots', i, j))
  {
    var slots' := r.slots[k := s];
    assert slots'.Keys == r.slots.Keys + {k};
    assert |slots'.Keys| == |r.slots.Keys| + (if k in r.slots then 0 else 1);
    var tick' := r.tick + 1;
    forall j ensures Before(slots', j, tick') {
      assert Before(r.slots, j, r.tick);
    }
    forall i, j ensures Apart(slots', i, j) {
      assert Apart(r.slots, i, j) && Before(r.slots, i, r.tick) && Before(r.slots, j, r.tick);
    }
  }

  lemma SetWellFormed(r: Recency, k: string, v: int, expiresAt: int)
    requires WellFormed(r)
    ensures WellFormed(AfterSet(r, k, v, expiresAt))
  {
    var s := Slot(v, expiresAt, r.tick);
    if k !in r.slots && |r.slots| >= r.maxSize {
      var d := Drop(r, {Oldest(r.slots)});
      DropWellFormed(r, {Oldest(r.slots)});
      KeysRemoved(r.slots, {Oldest(r.slots)});
      Restamped(d, k, s);
    } else {
      Restamped(r, k, s);
    }
  }

  // ---------- The recency list ----------

  function Without(s: seq<string>, k: string): seq<string> {
    if s == [] then [] else (if s[0] == k then [] else [s[0]]) + Without(s[1..], k)
  }

  function Elements(s: seq<string>): set<string> {
    if s == [] then {} else {s[0]} + Elements(s[1..])
  }

  /** Front of the list was touched last; stamps strictly fall towards the back. */
  ghost predicate Ordered(s: seq<string>, slots: map<string, Slot>) {
    s != [] ==>
      && s[0] in slots
      && (forall x :: x in Elements(s[1..]) ==> Before(slots, x, slots[s[0]].touched))
      && Ordered(s[1..], slots)
  }

  lemma WithoutElements(s: seq<string>, k: string)
    ensures Elements(Without(s, k)) == Elements(s) - {k}
  {
    if s != [] {
      WithoutElements(s[1..], k);
      var t := Without(s[1..], k);
      assert ([s[0]] + t)[1..] == t;
      assert [] + t == t;
    }
  }

  lemma WithoutOrdered(s: seq<string>, k: string, slots: map<string, Slot>)
    requires Ordered(s, slots)
    ensures Ordered(Without(s, k), slots)
  {
    if s != [] {
      WithoutOrdered(s[1..], k, slots);
      WithoutElements(s[1..], k);
      var t := Without(s[1..], k);
      assert ([s[0]] + t)[1..] == t;
      assert [] + t == t;
    }
  }

  lemma OrderedFrame(s: seq<string>, slots: map<string, Slot>, slots': map<string, Slot>)
    requires Ordered(s, slots)
    requires forall x :: x in Elements(s) ==> x in slots && x in slots' && slots'[x].touched == slots[x].touched
    ensures Ordered(s, slots')
  {
    if s != [] { OrderedFrame(s[1..], slots, slots'); }
  }

  /** The back of the list carries the smallest stamp. */
  lemma BackIsSmallest(s: seq<string>, slots: map<string, Slot>)
    requires s != [] && Ordered(s, slots)
    ensures s[|s| - 1] in Elements(s) && Elements(s) <= slots.Keys
    ensures forall x :: x in Elements(s) && x != s[|s| - 1] ==> slots[s[|s| - 1]].touched < slots[x].touched
  {
    if |s| > 1 { BackIsSmallest(s[1..], slots); }
  }

  /** The list holds the resident keys, in stamp order (so without repetition). */
  ghost predicate Linked(eviction: seq<string>, slots: map<string, Slot>) {
    Elements(eviction) == slots.Keys && Ordered(eviction, slots)
  }

  lemma BackIsOldest(eviction: seq<string>, slots: map<string, Slot>)
    requires Linked(eviction, slots) && eviction != []
    ensures slots != map[] && Oldest(slots) == eviction[|eviction| - 1]
  {
    BackIsSmallest(eviction, slots);
    assert eviction[|eviction| - 1] in slots;
    assert NotOlder(slots, Oldest(slots), eviction[|eviction| - 1]);
  }

  lemma UnlinkKey(eviction: seq<string>, slots: map<string, Slot>, k: string)
    requires Linked(eviction, slots)
    ensures Linked(Without(eviction, k), slots - {k})
  {
    WithoutElements(eviction, k);
    WithoutOrdered(eviction, k, slots);
    OrderedFrame(Without(eviction, k), slots, slots - {k});
  }

  lemma LinkInFront(eviction: seq<string>, slots: map<string, Slot>, k: string, s: Slot)
    requires Linked(eviction, slots) && k !in slots
    requires AllBefore(slots, s.touched)
    ensures Linked([k] + eviction, slots[k := s])
  {
    OrderedFrame(eviction, slots, slots[k := s]);
    assert ([k] + eviction)[1..] == eviction;
    forall x | x in Elements(eviction) ensures Before(slots[k := s], x, s.touched) {
      assert Before(slots, x, s.touched);
    }
  }

  lemma LinkAgain(eviction: seq<string>, slots: map<string, Slot>, k: string, s: Slot)
    requires Linked(eviction, slots) && AllBefore(slots, s.touched)
    ensures Linked([k] + Without(eviction, k), slots[k := s])
  {
    UnlinkKey(eviction, slots, k);
    forall j ensures Before(slots - {k}, j, s.touched) {
      assert Before(slots, j, s.touched);
    }
    LinkInFront(Without(eviction, k), slots - {k}, k, s);
    assert (slots - {k})[k := s] == slots[k := s];
  }

  // ---------- Map and list together represent the stamped entries ----------

  ghost predicate Agrees(items: map<string, Entry>, slots: map<string, Slot>) {
    && items.Keys == slots.Keys
    && forall k :: SameEntry(items, slots, k)
  }

  ghost predicate SameEntry(items: map<string, Entry>, slots: map<string, Slot>, k: string) {
    k in items && k in slots ==> items[k] == Entry(slots[k].value, slots[k].expiresAt)
  }

  /**
  The map and the list represent the stamped entries.  The quantifier keeps the verifier from expanding
  this where it is only passed along: mentioning `Expand` expands it.
  */
  ghost predicate Represents(items: map<string, Entry>, eviction: seq<string>, r: Recency) {
    && items.Keys == r.slots.Keys
    && forall n: nat :: Expand(n) ==> Agrees(items, r.slots) && Linked(eviction, r.slots) && WellFormed(r)
  }

  ghost predicate Expand(n: nat) { true }

  /** What the two structures have in common with the stamped entries. */
  lemma RepresentedKeys(items: map<string, Entry>, eviction: seq<string>, r: Recency)
    requires Represents(items, eviction, r)
    ensures items.Keys == r.slots.Keys && |items| == |r.slots| <= r.maxSize && r.maxSize > 0
    ensures forall k :: SameEntry(items, r.slots, k)
    ensures eviction == [] <==> r.slots == map[]
    ensures r.slots != map[] ==> Oldest(r.slots) == eviction[|eviction| - 1]
  {
    assert Expand(0);
    SameSize(items, r.slots);
    if eviction != [] {
      BackIsOldest(eviction, r.slots);
    } else {
      assert r.slots.Keys == {};
    }
  }

  lemma RemoveRepresents(items: map<string, Entry>, eviction: seq<string>, r: Recency, k: string)
    requires Represents(items, eviction, r) && k in items
    ensures Represents(items - {k}, Without(eviction, k), Drop(r, {k}))
  {
    assert Expand(0);
    UnlinkKey(eviction, r.slots, k);
    DropWellFormed(r, {k});
    forall j ensures SameEntry(items - {k}, r.slots - {k}, j) {
      assert SameEntry(items, r.slots, j);
    }
  }

  /** Moving a resident key to the front with a fresh stamp, its entry possibly replaced. */
  lemma FrontRepresents(items: map<string, Entry>, eviction: seq<string>, r: Recency, k: string, s: Slot)
    requires Represents(items, eviction, r) && k in items && s.touched == r.tick
    ensures Represents(items[k := Entry(s.value, s.expiresAt)], [k] + Without(eviction, k),
                       r.(slots := r.slots[k := s], tick := r.tick + 1))
  {
    assert Expand(0);
    LinkAgain(eviction, r.slots, k, s);
    Restamped(r, k, s);
    StillAgrees(items, r.slots, k, s);
  }

  lemma InsertRepresents(items: map<string, Entry>, eviction: seq<string>, r: Recency, k: string, s: Slot)
    requires Represents(items, eviction, r) && k !in items && s.touched == r.tick && |items| < r.maxSize
    ensures Represents(items[k := Entry(s.value, s.expiresAt)], [k] + eviction, Insert(r, k, s))
  {
    assert Expand(0);
    LinkInFront(eviction, r.slots, k, s);
    SameSize(items, r.slots);
    Restamped(r, k, s);
    StillAgrees(items, r.slots, k, s);
  }

  lemma StillAgrees(items: map<string, Entry>, slots: map<string, Slot>, k: string, s: Slot)
    requires Agrees(items, slots)
    ensures Agrees(items[k := Entry(s.value, s.expiresAt)], slots[k := s])
  {
    var items', slots' := items[k := Entry(s.value, s.expiresAt)], slots[k := s];
    forall j ensures SameEntry(items', slots', j) {
      assert SameEntry(items, slots, j);
    }
  }

  lemma SameSize(items: map<string, Entry>, slots: map<string, Slot>)
    requires items.Keys == slots.Keys
    ensures |items| == |slots|
  {
    assert |items.Keys| == |slots.Keys|;
  }

  lemma EmptyRepresents(items: map<string, Entry>, eviction: seq<string>, r: Recency)
    requires Represents(items, eviction, r)
    ensures Represents(map[], [], Drop(r, r.slots.Keys))
  {
    assert Expand(0);
    DropWellFormed(r, r.slots.Keys);
  }

  /** `log` extends `start` by exactly one onEvict call for each key in `ks`, with that key's value. */
  ghost predicate Reports(log: seq<(string, int)>, start: seq<(string, int)>, items: map<string, Entry>, ks: set<string>)
    decreases |ks|
  {
    if ks == {} then log == start
    else
      log != [] &&
      var (k, v) := log[|log| - 1];
      k in ks && k in items && v == items[k].value && Reports(log[..|log| - 1], start, items, ks - {k})
  }

  /** A purge under way: where it started from and the keys removed so far. */
  datatype Purge = Started(before: Recency, all: map<string, Entry>, start: seq<(string, int)>, gone: set<string>)

  /** From the start of the purge, exactly the entries `gone` have been removed and reported. */
  ghost predicate Purged(p: Purge, r: Recency, items: map<string, Entry>, log: seq<(string, int)>) {
    forall n: nat :: Expand(n) ==>
      && p.all.Keys == p.before.slots.Keys && p.gone <= p.all.Keys
      && r == Drop(p.before, p.gone) && items == p.all - p.gone
      && Reports(log, p.start, p.all, p.gone)
  }

  lemma PurgeStart(p: Purge)
    requires p.all.Keys == p.before.slots.Keys && p.gone == {}
    ensures Purged(p, p.before, p.all, p.start)
  {
    assert p.before.slots - {} == p.before.slots && p.all - {} == p.all;
  }

  lemma PurgedEntry(p: Purge, r: Recency, items: map<string, Entry>, log: seq<(string, int)>, k: string)
    requires Purged(p, r, items, log) && k in items
    ensures k !in p.gone && k in r.slots && k in p.before.slots && r.slots[k] == p.before.slots[k]
  {
    assert Expand(0);
  }

  lemma PurgedKeys(p: Purge, r: Recency, items: map<string, Entry>, log: seq<(string, int)>, todo: set<string>)
    requires Purged(p, r, items, log) && todo <= p.all.Keys && todo !! p.gone
    ensures todo <= items.Keys
  {
    assert Expand(0);
  }

  lemma PurgeStep(p: Purge, r: Recency, items: map<string, Entry>, log: seq<(string, int)>, k: string)
    requires Purged(p, r, items, log) && k in items && k in r.slots
    ensures Purged(p.(gone := p.gone + {k}), Drop(r, {k}), items - {k}, log + [(k, items[k].value)])
  {
    assert Expand(0);
    DropTwice(p.before, p.gone, k);
    ReportOne(log, p.start, p.all, p.gone, k);
  }

  lemma PurgeEnd(p: Purge, r: Recency, items: map<string, Entry>, log: seq<(string, int)>)
    requires Purged(p, r, items, log) && p.gone <= p.before.slots.Keys
    ensures r == Drop(p.before, p.gone) && Reports(log, p.start, p.all, p.gone)
  {
    assert Expand(0);
  }

  lemma ReportOne(log: seq<(string, int)>, start: seq<(string, int)>, items: map<string, Entry>, ks: set<string>, k: string)
    requires Reports(log, start, items, ks) && k in items && k !in ks
    ensures Reports(log + [(k, items[k].value)], start, items, ks + {k})
  {
    assert (log + [(k, items[k].value)])[..|log|] == log;
    assert ks + {k} - {k} == ks;
  }

  lemma ReportsLength(log: seq<(string, int)>, start: seq<(string, int)>, items: map<string, Entry>, ks: set<string>)
    requires Reports(log, start, items, ks)
    ensures |log| == |start| + |ks|
    decreases |ks|
  {
    if ks != {} {
      ReportsLength(log[..|log| - 1], start, items, ks - {log[|log| - 1].0});
    }
  }

  /** One onEvict call for every entry, in an arbitrary order. */
  method ReportAll(start: seq<(string, int)>, items: map<string, Entry>) returns (log: seq<(string, int)>)
    ensures Reports(log, start, items, items.Keys) && |log| == |start| + |items|
  {
    var todo := items.Keys;
    ghost var done: set<string> := {};
    log := start;
    while todo != {}
      invariant todo + done == items.Keys && todo !! done
      invariant Reports(log, start, items, done)
    {
      var k :| k in todo;
      ReportOne(log, start, items, done, k);
      log := log + [(k, items[k].value)];
      todo, done := todo - {k}, done + {k};
    }
    assert done == items.Keys;
    ReportsLength(log, start, items, done);
  }

  class LRU {
    var items: map<string, Entry>
    var eviction: seq<string>
    var maxSize: nat
    var defaultTTL: int
    ghost var model: Recency
    var evictLog: seq<(string, int)> // the onEvict calls made so far, with their arguments

    ghost predicate Valid()
      reads this
    {
      Represents(items, eviction, model) && model.maxSize == maxSize && model.evictions == |evictLog|
    }

    constructor (size: int, ttl: int)
      ensures Valid()
      ensures model == Recency(map[], 0, if size <= 0 then DEFAULT_MAX_SIZE else size, 0, 0)
      ensures defaultTTL == if ttl <= 0 then DEFAULT_TTL else ttl
    {
      items, eviction, evictLog := map[], [], [];
      maxSize := if size <= 0 then DEFAULT_MAX_SIZE else size;
      defaultTTL := if ttl <= 0 then DEFAULT_TTL else ttl;
      model := Recency(map[], 0, if size <= 0 then DEFAULT_MAX_SIZE else size, 0, 0);
    }

    /** Removal of one entry from both structures, with its onEvict call. */
    method RemoveEntry(key: string)
      requires Valid() && key in items
      modifies this`items, this`eviction, this`model, this`evictLog
      ensures Valid() && model == Drop(old(model), {key})
      ensures items == old(items) - {key}
      ensures evictLog == old(evictLog) + [(key, old(items)[key].value)]
    {
      evictLog := evictLog + [(key, items[key].value)];
      RepresentedKeys(items, eviction, model);
      RemoveRepresents(items, eviction, model, key);
      items := items - {key};
      eviction := Without(eviction, key);
      model := Drop(model, {key});
    }

    method Get(key: string, now: int) returns (r: Option<int>)
      requires Valid()
      modifies this`items, this`eviction, this`model, this`evictLog
      ensures Valid() && model == AfterGet(old(model), key, now)
      ensures r == GetAnswer(old(model), key, now)
      ensures evictLog == old(evictLog) + if key in old(items) && r.None? then [(key, old(items)[key].value)] else []
    {
      RepresentedKeys(items, eviction, model);
      if key !in items {
        return None;
      }
      assert SameEntry(items, model.slots, key);
      if now > items[key].expiresAt {
        RemoveEntry(key);
        return None;
      }
      MoveToFront(key, items[key]);
      return Some(items[key].value);
    }

    /** Moves a resident key to the front of the list, with entry `e` from now on. */
    method MoveToFront(key: string, e: Entry)
      requires Valid() && key in items
      modifies this`items, this`eviction, this`model
      ensures Valid() && items == old(items)[key := e]
      ensures model == old(model).(slots := old(model).slots[key := Slot(e.value, e.expiresAt, old(model).tick)], tick := old(model).tick + 1)
    {
      ghost var s := Slot(e.value, e.expiresAt, model.tick);
      FrontRepresents(items, eviction, model, key, s);
      items := items[key := e];
      eviction := [key] + Without(eviction, key);
      model := model.(slots := model.slots[key := s], tick := model.tick + 1);
    }

    method SetWithTTL(key: string, value: int, ttl: int, now: int)
      requires Valid()
      modifies this`items, this`eviction, this`model, this`evictLog
      ensures Valid() && model == AfterSet(old(model), key, value, now + ttl)
      ensures key in items && items[key] == Entry(value, now + ttl)
      ensures var before := old(model).slots;
        evictLog == old(evictLog) + if key !in before && |before| >= maxSize && before != map[]
                                    then [(Oldest(before), before[Oldest(before)].value)] else []
    {
      RepresentedKeys(items, eviction, model);
      if key in items {
        MoveToFront(key, Entry(value, now + ttl));
        return;
      }
      ghost var r := model;
      if |items| >= maxSize {
        EvictOldest();
        PushFront(key, Entry(value, now + ttl));
        assert model == AfterSet(r, key, value, now + ttl);
        return;
      }
      PushFront(key, Entry(value, now + ttl));
    }

    /** Links a new entry in front. */
    method PushFront(key: string, e: Entry)
      requires Valid() && key !in items && |items| < maxSize
      modifies this`items, this`eviction, this`model
      ensures Valid() && items == old(items)[key := e]
      ensures model == Insert(old(model), key, Slot(e.value, e.expiresAt, old(model).tick))
    {
      ghost var s := Slot(e.value, e.expiresAt, model.tick);
      InsertRepresents(items, eviction, model, key, s);
      eviction := [key] + eviction;
      items := items[key := e];
      model := Insert(model, key, s);
    }

    method EvictOldest()
      requires Valid()
      modifies this`items, this`eviction, this`model, this`evictLog
      ensures Valid()
      ensures old(model).slots == map[] ==> model == old(model) && items == old(items)
      ensures old(model).slots != map[] ==>
        && model == Drop(old(model), {Oldest(old(model).slots)})
        && items.Keys < old(items).Keys && |items| == |old(items)| - 1
        && evictLog == old(evictLog) + [(Oldest(old(model).slots), old(model).slots[Oldest(old(model).slots)].value)]
    {
      RepresentedKeys(items, eviction, model);
      if eviction == [] {
        return;
      }
      KeysRemoved(model.slots, {Oldest(model.slots)});
      assert SameEntry(items, model.slots, eviction[|eviction| - 1]);
      RemoveEntry(eviction[|eviction| - 1]);
      RepresentedKeys(items, eviction, model);
    }

    method Delete(key: string)
      requires Valid()
      modifies this`items, this`eviction, this`model, this`evictLog
      ensures Valid() && model == AfterDelete(old(model), key)
      ensures items == old(items) - {key}
      ensures evictLog == old(evictLog) + if key in old(items) then [(key, old(items)[key].value)] else []
    {
      RepresentedKeys(items, eviction, model);
      if key in items {
        RemoveEntry(key);
      }
    }

    /** The map is walked in an arbitrary order; onEvict is called once for each entry. */
    method Clear()
      requires Valid()
      modifies this`items, this`eviction, this`model, this`evictLog
      ensures Valid() && model == Drop(old(model), old(model).slots.Keys)
      ensures Reports(evictLog, old(evictLog), old(items), old(items).Keys)
    {
      RepresentedKeys(items, eviction, model);
      EmptyRepresents(items, eviction, model);
      evictLog := ReportAll(evictLog, items);
      items, eviction := map[], [];
      model := Drop(model, model.slots.Keys);
    }

    method PurgeOne(k: string, now: int, ghost p: Purge) returns (removed: bool)
      requires Valid() && k in items && Purged(p, model, items, evictLog)
      modifies this`items, this`eviction, this`model, this`evictLog
      ensures Valid() && removed == (k in ExpiredKeys(p.before, now))
      ensures Purged(if removed then p.(gone := p.gone + {k}) else p, model, items, evictLog)
      ensures model.evictions == old(model).evictions + (if removed then 1 else 0)
    {
      RepresentedKeys(items, eviction, model);
      assert SameEntry(items, model.slots, k);
      PurgedEntry(p, model, items, evictLog, k);
      removed := now > items[k].expiresAt;
      if removed {
        PurgeStep(p, model, items, evictLog, k);
        RemoveEntry(k);
      }
    }

    /** The map is walked in an arbitrary order while expired entries are removed from it. */
    method PurgeExpired(now: int) returns (count: nat)
      requires Valid()
      modifies this`items, this`eviction, this`model, this`evictLog
      ensures Valid() && model == Drop(old(model), ExpiredKeys(old(model), now))
      ensures count == |ExpiredKeys(old(model), now)|
      ensures Reports(evictLog, old(evictLog), old(items), ExpiredKeys(old(model), now))
    {
      ghost var p := Started(model, items, evictLog, {});
      ghost var expired := ExpiredKeys(model, now);
      var todo := items.Keys;
      RepresentedKeys(items, eviction, model);
      PurgeStart(p);
      count := 0;
      while todo != {}
        invariant Valid() && Purged(p, model, items, evictLog)
        invariant p == Started(old(model), old(items), old(evictLog), expired - todo)
        invariant todo <= items.Keys
        invariant model.evictions == old(model).evictions + count
      {
        var k :| k in todo;
        assert expired - (todo - {k}) == if k in expired then expired - todo + {k} else expired - todo;
        PurgedEntry(p, model, items, evictLog, k);
        var removed := PurgeOne(k, now, p);
        if removed {
          count := count + 1;
        }
        todo := todo - {k};
        p := p.(gone := expired - todo);
        PurgedKeys(p, model, items, evictLog, todo);
      }
      assert expired - todo == expired;
      PurgeEnd(p, model, items, evictLog);
    }

    /**
    Get, then compute and store on a miss: two separate lock sections, so the clock may have moved on
    between them.
    */
    method GetOrComputeWithTTL(key: string, compute: string -> Outcome, ttl: int, now: int, later: int) returns (r: Outcome)
      requires Valid() && now <= later
      modifies this`items, this`eviction, this`model, this`evictLog
      ensures Valid() && model == AfterAccess(old(model), key, compute, ttl, now, later)
      ensures r == if GetAnswer(old(model), key, now).Some? then Ok(GetAnswer(old(model), key, now).value) else compute(key)
      ensures Coherent(old(model), compute) ==> r == compute(key)
    {
      var hit := Get(key, now);
      if hit.Some? {
        return Ok(hit.value);
      }
      r := compute(key);
      if r.Ok? {
        SetWithTTL(key, r.value, ttl, later);
      }
    }
  }

  // ---------- The cached function ----------

  /** Every resident value is what computing its key gives. */
  ghost predicate Coherent(r: Recency, compute: string -> Outcome) {
    forall k :: k in r.slots ==> compute(k) == Ok(r.slots[k].value)
  }

  /** One uninterrupted GetOrCompute. */
  ghost function AfterAccess(r: Recency, k: string, compute: string -> Outcome, ttl: int, now: int, later: int): Recency {
    var r1 := AfterGet(r, k, now);
    if GetAnswer(r, k, now).Some? || compute(k).Err? then r1 else AfterSet(r1, k, compute(k).value, later + ttl)
  }

  // ---------- Every trace of operations ----------

  /** The lock sections of the cache; a GetOrCompute is a Get followed, some steps later, by a Put. */
  datatype Op = Get(key: string, now: int) | Put(key: string, value: int, expiresAt: int) | Delete(key: string) | Clear | Purge(now: int)

  ghost function AfterOp(r: Recency, op: Op): Recency {
    match op
    case Get(k, now) => AfterGet(r, k, now)
    case Put(k, v, e) => AfterSet(r, k, v, e)
    case Delete(k) => AfterDelete(r, k)
    case Clear => Drop(r, r.slots.Keys)
    case Purge(now) => Drop(r, ExpiredKeys(r, now))
  }

  ghost function Run(r: Recency, ops: seq<Op>): Recency {
    if ops == [] then r else AfterOp(Run(r, ops[..|ops| - 1]), ops[|ops| - 1])
  }

  lemma OpWellFormed(r: Recency, op: Op)
    requires WellFormed(r)
    ensures WellFormed(AfterOp(r, op))
  {
    match op
    case Get(k, now) =>
      if k in r.slots {
        if Expired(r.slots[k], now) { DropWellFormed(r, {k}); } else { Restamped(r, k, r.slots[k].(touched := r.tick)); }
      }
    case Put(k, v, e) => SetWellFormed(r, k, v, e);
    case Delete(k) => if k in r.slots { DropWellFormed(r, {k}); }
    case Clear => DropWellFormed(r, r.slots.Keys);
    case Purge(now) => DropWellFormed(r, ExpiredKeys(r, now));
  }

  /** After any trace: capacity respected, insertions = residents + evictions, recency a strict total order. */
  lemma {:induction false} RunWellFormed(r: Recency, ops: seq<Op>)
    requires WellFormed(r)
    ensures WellFormed(Run(r, ops))
    ensures Run(r, ops).maxSize == r.maxSize
  {
    if ops != [] {
      RunWellFormed(r, ops[..|ops| - 1]);
      OpWellFormed(Run(r, ops[..|ops| - 1]), ops[|ops| - 1]);
    }
  }

  /** Only results of the compute function are ever stored. */
  ghost predicate Computes(ops: seq<Op>, compute: string -> Outcome) {
    forall i :: 0 <= i < |ops| && ops[i].Put? ==> compute(ops[i].key) == Ok(ops[i].value)
  }

  lemma {:induction false} RunCoherent(r: Recency, ops: seq<Op>, compute: string -> Outcome)
    requires Coherent(r, compute) && Computes(ops, compute)
    ensures Coherent(Run(r, ops), compute)
  {
    if ops != [] {
      RunCoherent(r, ops[..|ops| - 1], compute);
    }
  }

  /**
  Whatever other callers, evictions, expiries, deletions and clears come before: a hit answers what computing
  the key would, and a key whose computation fails is never hit.
  */
  lemma HitsAnswerTheFunction(r: Recency, ops: seq<Op>, compute: string -> Outcome, k: string, now: int)
    requires r.slots == map[] && Computes(ops, compute)
    ensures var a := GetAnswer(Run(r, ops), k, now); a.Some? ==> compute(k) == Ok(a.value)
  {
    RunCoherent(r, ops, compute);
  }

  // ---------- What a Get answers ----------

  /**
  The value and expiry last put under `k`, read off the trace alone: gone once the key was deleted, cleared away, or
  found expired by a lookup or a purge.
  */
  function Written(ops: seq<Op>, k: string): Option<(int, int)> {
    if ops == [] then None
    else
      var before := Written(ops[..|ops| - 1], k);
      match ops[|ops| - 1]
      case Put(j, v, e) => if j == k then Some((v, e)) else before
      case Get(j, now) => if j == k && before.Some? && before.value.1 < now then None else before
      case Delete(j) => if j == k then None else before
      case Clear => None
      case Purge(now) => if before.Some? && before.value.1 < now then None else before
  }

  /** This operation makes room by evicting `k`. */
  ghost predicate Evicts(r: Recency, op: Op, k: string) {
    op.Put? && op.key !in r.slots && |r.slots| >= r.maxSize && r.slots != map[] && Oldest(r.slots) == k
  }

  /** `k` was evicted for room after its last Put. */
  ghost predicate EvictedSince(r: Recency, ops: seq<Op>, k: string) {
    ops != [] &&
    var n := |ops| - 1;
    (Evicts(Run(r, ops[..n]), ops[n], k) || EvictedSince(r, ops[..n], k)) && !(ops[n].Put? && ops[n].key == k)
  }

  /** What is resident, with its value and expiry, is what was written last and not evicted for room since. */
  lemma {:induction false} ResidentIffWritten(r: Recency, ops: seq<Op>, k: string)
    requires r.slots == map[]
    ensures var slots := Run(r, ops).slots;
      && (k in slots <==> Written(ops, k).Some? && !EvictedSince(r, ops, k))
      && (k in slots ==> Written(ops, k) == Some((slots[k].value, slots[k].expiresAt)))
  {
    if ops != [] {
      ResidentIffWritten(r, ops[..|ops| - 1], k);
    }
  }

  /**
  After every trace a Get of `k` answers the value last put under it, exactly when that is still current: not expired
  by now, not deleted, cleared, purged or dropped as expired, and not evicted for room.  It never answers anything else.
  */
  lemma GetAnswersLastPut(r: Recency, ops: seq<Op>, k: string, now: int)
    requires r.slots == map[]
    ensures GetAnswer(Run(r, ops), k, now) ==
      match Written(ops, k)
      case None => None
      case Some((v, e)) => if now <= e && !EvictedSince(r, ops, k) then Some(v) else None
  {
    ResidentIffWritten(r, ops, k);
  }

  /**
  A reading of the trace that vouches for `k`: its last Put, and the other keys put or asked for since `k` was last put
  or found.  A Put that makes these as many as the capacity ends it.
  */
  function Vouched(ops: seq<Op>, k: string, maxSize: nat): Option<(int, int, set<string>)> {
    if ops == [] then None
    else
      var before := Vouched(ops[..|ops| - 1], k, maxSize);
      match ops[|ops| - 1]
      case Put(j, v, e) =>
        if j == k then Some((v, e, {}))
        else if before.Some? && |before.value.2 + {j}| < maxSize then Some((before.value.0, before.value.1, before.value.2 + {j}))
        else None
      case Get(j, now) =>
        if before.None? then None
        else if j != k then Some((before.value.0, before.value.1, before.value.2 + {j}))
        else if now > before.value.1 then None
        else Some((before.value.0, before.value.1, {}))
      case Delete(j) => if j == k then None else before
      case Clear => None
      case Purge(now) => if before.Some? && before.value.1 < now then None else before
  }

  /** Only `rivals` were touched after `k`. */
  ghost predicate OnlyAfter(slots: map<string, Slot>, k: string, rivals: set<string>) {
    k in slots && forall j :: j in slots && slots[j].touched > slots[k].touched ==> j in rivals
  }

  /** A key outlives a Put of another as long as fewer rivals than places have come up since it was touched. */
  lemma FewRivalsSpare(r: Recency, k: string, rivals: set<string>, j: string, v: int, e: int)
    requires WellFormed(r) && OnlyAfter(r.slots, k, rivals) && j != k && |rivals + {j}| < r.maxSize
    ensures var slots' := AfterSet(r, j, v, e).slots;
      OnlyAfter(slots', k, rivals + {j}) && slots'[k] == r.slots[k]
  {
    if j !in r.slots && |r.slots| >= r.maxSize && Oldest(r.slots) == k {
      FullOfRivals(r, k, rivals, j);
      assert false;
    }
  }

  lemma FullOfRivals(r: Recency, k: string, rivals: set<string>, j: string)
    requires WellFormed(r) && OnlyAfter(r.slots, k, rivals) && IsOldest(r.slots, k)
    requires j !in r.slots && |r.slots| >= r.maxSize
    ensures |rivals + {j}| >= r.maxSize
  {
    forall i | i in r.slots && i != k ensures i in rivals {
      assert NotOlder(r.slots, k, i) && Apart(r.slots, i, k);
    }
    var others := r.slots.Keys - {k};
    assert |others + {j}| == |others| + 1 == |r.slots.Keys|;
    AtMost(others + {j}, rivals + {j});
  }

  lemma AtMost(a: set<string>, b: set<string>)
    requires a <= b
    ensures |a| <= |b|
  {
    assert b == a + (b - a);
  }

  /**
  A least recently used cache keeps what is in use: while fewer other keys than it has places have come up since `k` was
  last touched, `k` is resident with the value last put, told from the trace alone.
  */
  lemma {:induction false} VouchedIsResident(maxSize: nat, ops: seq<Op>, k: string)
    requires maxSize > 0 && Vouched(ops, k, maxSize).Some?
    ensures var slots, (v, e, rivals) := Run(Recency(map[], 0, maxSize, 0, 0), ops).slots, Vouched(ops, k, maxSize).value;
      OnlyAfter(slots, k, rivals) && slots[k].value == v && slots[k].expiresAt == e
  {
    var earlier, op := ops[..|ops| - 1], ops[|ops| - 1];
    var r0 := Recency(map[], 0, maxSize, 0, 0);
    var r := Run(r0, earlier);
    RunWellFormed(r0, earlier);
    if Vouched(earlier, k, maxSize).Some? {
      VouchedIsResident(maxSize, earlier, k);
      if op.Put? && op.key != k {
        FewRivalsSpare(r, k, Vouched(earlier, k, maxSize).value.2, op.key, op.value, op.expiresAt);
      }
    }
    if (op.Put? || op.Get?) && op.key == k {
      StampedLast(r, op);
    }
  }

  /** A key just put, or just found, has the newest stamp. */
  lemma StampedLast(r: Recency, op: Op)
    requires WellFormed(r)
    requires op.Put? || (op.Get? && op.key in r.slots && !Expired(r.slots[op.key], op.now))
    ensures OnlyAfter(AfterOp(r, op).slots, op.key, {})
  {
    var slots' := AfterOp(r, op).slots;
    forall j | j in slots' && j != op.key ensures slots'[j].touched < slots'[op.key].touched {
      assert Before(r.slots, j, r.tick);
    }
  }

  /** So asking again right after storing, or in time to find it, answers what was stored. */
  lemma VouchedAnswers(maxSize: nat, ops: seq<Op>, k: string, now: int)
    requires maxSize > 0 && Vouched(ops, k, maxSize).Some?
    ensures var (v, e, _) := Vouched(ops, k, maxSize).value;
      GetAnswer(Run(Recency(map[], 0, maxSize, 0, 0), ops), k, now) == if now <= e then Some(v) else None
  {
    VouchedIsResident(maxSize, ops, k);
  }

  // ---------- What is resident: the most recently used keys ----------

  /** A call of GetOrCompute: its key and lifetime, and the clock when it looks the key up and when it stores a result. */
  datatype Access = Access(key: string, ttl: int, now: int, later: int)

  ghost function RunAccesses(maxSize: nat, trace: seq<Access>, compute: string -> Outcome): Recency {
    if trace == [] then Recency(map[], 0, maxSize, 0, 0)
    else
      var a := trace[|trace| - 1];
      AfterAccess(RunAccesses(maxSize, trace[..|trace| - 1], compute), a.key, compute, a.ttl, a.now, a.later)
  }

  /** The distinct keys of a trace, most recently used first, read off the trace alone. */
  ghost function Recent(trace: seq<Access>, compute: string -> Outcome): seq<string> {
    if trace == [] then []
    else
      var k, before := trace[|trace| - 1].key, Recent(trace[..|trace| - 1], compute);
      if compute(k).Ok? then [k] + Without(before, k) else before
  }

  ghost predicate NoDup(s: seq<string>) {
    s != [] ==> s[0] !in Elements(s[1..]) && NoDup(s[1..])
  }

  lemma WithoutNoDup(s: seq<string>, k: string)
    requires NoDup(s)
    ensures NoDup(Without(s, k))
  {
    if s != [] {
      WithoutNoDup(s[1..], k);
      WithoutElements(s[1..], k);
      var t := Without(s[1..], k);
      assert ([s[0]] + t)[1..] == t;
      assert [] + t == t;
    }
  }

  lemma RecentNoDup(trace: seq<Access>, compute: string -> Outcome)
    ensures NoDup(Recent(trace, compute))
  {
    if trace != [] {
      var k, before := trace[|trace| - 1].key, Recent(trace[..|trace| - 1], compute);
      RecentNoDup(trace[..|trace| - 1], compute);
      WithoutNoDup(before, k);
      WithoutElements(before, k);
      assert ([k] + Without(before, k))[1..] == Without(before, k);
    }
  }

  /** Deleting a key leaves the first n entries alone when it is not among them. */
  lemma WithoutAbsent(s: seq<string>, k: string, n: nat)
    requires n <= |s| && k !in Elements(s[..n])
    ensures |Without(s, k)| >= n && Without(s, k)[..n] == s[..n]
  {
    if n > 0 {
      assert s[..n][1..] == s[1..][..n - 1];
      WithoutAbsent(s[1..], k, n - 1);
    }
  }

  /** ... and closes the gap when it is. */
  lemma WithoutPresent(s: seq<string>, k: string, n: nat)
    requires n <= |s| && NoDup(s) && k in Elements(s[..n])
    ensures |Without(s, k)| == |s| - 1 && Without(s, k)[..n - 1] == Without(s[..n], k)
  {
    assert s[..n][1..] == s[1..][..n - 1];
    if s[0] == k {
      PrefixElements(s[1..], n - 1);
      WithoutNone(s[1..], k);
      WithoutNone(s[1..][..n - 1], k);
    } else {
      WithoutPresent(s[1..], k, n - 1);
    }
  }

  lemma WithoutNone(s: seq<string>, k: string)
    requires k !in Elements(s)
    ensures Without(s, k) == s
  {
    if s != [] { WithoutNone(s[1..], k); }
  }

  lemma PrefixElements(s: seq<string>, n: nat)
    requires n <= |s|
    ensures Elements(s[..n]) <= Elements(s)
  {
    if n > 0 {
      assert s[..n][1..] == s[1..][..n - 1];
      PrefixElements(s[1..], n - 1);
    }
  }

  lemma WithoutLast(s: seq<string>)
    requires s != [] && NoDup(s)
    ensures Without(s, s[|s| - 1]) == s[..|s| - 1]
  {
    if |s| > 1 {
      WithoutLast(s[1..]);
      LastIn(s[1..]);
    } else {
      assert s[1..] == [];
    }
  }

  lemma LastIn(s: seq<string>)
    requires s != []
    ensures s[|s| - 1] in Elements(s)
  {
    if |s| > 1 { LastIn(s[1..]); }
  }

  lemma OrderedNoDup(s: seq<string>, slots: map<string, Slot>)
    requires Ordered(s, slots)
    ensures NoDup(s)
  {
    if s != [] {
      OrderedNoDup(s[1..], slots);
    }
  }

  lemma SizeOfList(s: seq<string>)
    requires NoDup(s)
    ensures |Elements(s)| == |s|
  {
    if s != [] { SizeOfList(s[1..]); }
  }

  function Min(a: nat, b: nat): nat { if a <= b then a else b }

  /** What a use of `k` makes of the ranking and of its first n places. */
  lemma UseInFront(recent: seq<string>, k: string, n: nat)
    requires NoDup(recent) && n <= |recent|
    ensures var recent' := [k] + Without(recent, k);
      && NoDup(recent')
      && (if k in Elements(recent[..n]) then |recent'| == |recent| && recent'[..n] == [k] + Without(recent[..n], k)
          else |recent'| >= n + 1 && recent'[..n + 1] == [k] + recent[..n])
      && (k !in Elements(recent) ==> |recent'| == |recent| + 1)
  {
    WithoutNoDup(recent, k);
    WithoutElements(recent, k);
    assert ([k] + Without(recent, k))[1..] == Without(recent, k);
    if k in Elements(recent[..n]) {
      WithoutPresent(recent, k, n);
    } else {
      WithoutAbsent(recent, k, n);
    }
    if k !in Elements(recent) {
      WithoutNone(recent, k);
    }
    if k in Elements(recent) {
      assert recent[..|recent|] == recent;
      WithoutPresent(recent, k, |recent|);
    }
  }

  /** The first maxSize keys of a ranking. */
  ghost function Top(recent: seq<string>, maxSize: nat): seq<string> {
    recent[..Min(maxSize, |recent|)]
  }

  lemma TopSize(r: Recency, recent: seq<string>)
    requires Linked(Top(recent, r.maxSize), r.slots)
    ensures |r.slots| == Min(r.maxSize, |recent|)
  {
    OrderedNoDup(Top(recent, r.maxSize), r.slots);
    SizeOfList(Top(recent, r.maxSize));
    assert |r.slots.Keys| == |r.slots|;
  }

  /** A hit, live or stored afresh, moves the key to the front of the ranking. */
  lemma HitLinked(r: Recency, recent: seq<string>, k: string, s: Slot)
    requires WellFormed(r) && NoDup(recent) && Linked(Top(recent, r.maxSize), r.slots) && k in r.slots
    requires s.touched == r.tick
    ensures Linked(Top([k] + Without(recent, k), r.maxSize), r.slots[k := s])
  {
    UseInFront(recent, k, Min(r.maxSize, |recent|));
    LinkAgain(Top(recent, r.maxSize), r.slots, k, s);
  }

  /** A miss that is stored pushes the ranking down by one ... */
  lemma MissLinkedWithRoom(r: Recency, recent: seq<string>, k: string, s: Slot)
    requires WellFormed(r) && NoDup(recent) && Linked(Top(recent, r.maxSize), r.slots)
    requires k !in r.slots && s.touched == r.tick && |r.slots| < r.maxSize
    ensures Linked(Top([k] + Without(recent, k), r.maxSize), r.slots[k := s])
  {
    TopSize(r, recent);
    assert Top(recent, r.maxSize) == recent;
    UseInFront(recent, k, |recent|);
    LinkInFront(recent, r.slots, k, s);
    assert Top([k] + Without(recent, k), r.maxSize) == [k] + recent;
  }

  /** ... past the end of a full cache. */
  lemma MissLinkedWhenFull(r: Recency, recent: seq<string>, k: string, s: Slot)
    requires WellFormed(r) && NoDup(recent) && Linked(Top(recent, r.maxSize), r.slots)
    requires k !in r.slots && s.touched == r.tick && |r.slots| >= r.maxSize
    ensures r.slots != map[]
    ensures Linked(Top([k] + Without(recent, k), r.maxSize), (r.slots - {Oldest(r.slots)})[k := s])
  {
    TopSize(r, recent);
    var top := Top(recent, r.maxSize);
    TopPushed(recent, k, r.maxSize);
    BackIsOldest(top, r.slots);
    EvictLinked(top, r.slots, r.tick);
    LinkInFront(top[..|top| - 1], r.slots - {Oldest(r.slots)}, k, s);
  }

  lemma TopPushed(recent: seq<string>, k: string, m: nat)
    requires NoDup(recent) && 0 < m <= |recent| && k !in Elements(Top(recent, m))
    ensures Top([k] + Without(recent, k), m) == [k] + Top(recent, m)[..m - 1]
  {
    WithoutAbsent(recent, k, m);
  }

  lemma EvictLinked(top: seq<string>, slots: map<string, Slot>, tick: nat)
    requires top != [] && slots != map[] && Linked(top, slots) && Oldest(slots) == top[|top| - 1] && AllBefore(slots, tick)
    ensures Linked(top[..|top| - 1], slots - {Oldest(slots)}) && AllBefore(slots - {Oldest(slots)}, tick)
  {
    OrderedNoDup(top, slots);
    WithoutLast(top);
    UnlinkKey(top, slots, Oldest(slots));
    forall k ensures Before(slots - {Oldest(slots)}, k, tick) {
      assert Before(slots, k, tick);
    }
  }

  /** The three ways an access changes the cache: a miss stores, a live hit restamps, an expired hit stores afresh. */
  lemma AccessCases(r: Recency, a: Access, compute: string -> Outcome)
    requires WellFormed(r) && Coherent(r, compute)
    ensures var r' := AfterAccess(r, a.key, compute, a.ttl, a.now, a.later);
      if a.key !in r.slots then r' == if compute(a.key).Ok? then AfterSet(r, a.key, compute(a.key).value, a.later + a.ttl) else r
      else
        && compute(a.key).Ok?
        && r'.slots == r.slots[a.key := r'.slots[a.key]] && r'.slots[a.key].touched == r.tick
  {
    if a.key in r.slots && Expired(r.slots[a.key], a.now) {
      KeysRemoved(r.slots, {a.key});
    }
  }

  lemma AccessLinked(r: Recency, recent: seq<string>, a: Access, compute: string -> Outcome)
    requires WellFormed(r) && Coherent(r, compute) && NoDup(recent) && Linked(Top(recent, r.maxSize), r.slots)
    ensures Linked(Top(if compute(a.key).Ok? then [a.key] + Without(recent, a.key) else recent, r.maxSize),
                   AfterAccess(r, a.key, compute, a.ttl, a.now, a.later).slots)
  {
    AccessCases(r, a, compute);
    if a.key in r.slots {
      HitLinked(r, recent, a.key, AfterAccess(r, a.key, compute, a.ttl, a.now, a.later).slots[a.key]);
    } else if compute(a.key).Ok? {
      var s := Slot(compute(a.key).value, a.later + a.ttl, r.tick);
      if |r.slots| >= r.maxSize {
        MissLinkedWhenFull(r, recent, a.key, s);
      } else {
        MissLinkedWithRoom(r, recent, a.key, s);
      }
    }
  }

  lemma SetKeeps(r: Recency, k: string, compute: string -> Outcome, expiresAt: int)
    requires WellFormed(r) && Coherent(r, compute) && compute(k).Ok?
    ensures var r' := AfterSet(r, k, compute(k).value, expiresAt);
      WellFormed(r') && Coherent(r', compute) && r'.maxSize == r.maxSize
  {
    SetWellFormed(r, k, compute(k).value, expiresAt);
  }

  lemma GetKeeps(r: Recency, k: string, now: int, compute: string -> Outcome)
    requires WellFormed(r) && Coherent(r, compute)
    ensures var r' := AfterGet(r, k, now);
      WellFormed(r') && Coherent(r', compute) && r'.maxSize == r.maxSize
  {
    OpWellFormed(r, Get(k, now));
  }

  lemma AccessKeeps(r: Recency, a: Access, compute: string -> Outcome)
    requires WellFormed(r) && Coherent(r, compute)
    ensures var r' := AfterAccess(r, a.key, compute, a.ttl, a.now, a.later);
      WellFormed(r') && Coherent(r', compute) && r'.maxSize == r.maxSize
  {
    GetKeeps(r, a.key, a.now, compute);
    var got := AfterGet(r, a.key, a.now);
    var r' := AfterAccess(r, a.key, compute, a.ttl, a.now, a.later);
    if GetAnswer(r, a.key, a.now).Some? || compute(a.key).Err? {
      assert r' == got;
    } else {
      SetKeeps(got, a.key, compute, a.later + a.ttl);
      assert r' == AfterSet(got, a.key, compute(a.key).value, a.later + a.ttl);
    }
  }

  lemma {:induction false} RunKeeps(maxSize: nat, trace: seq<Access>, compute: string -> Outcome)
    requires maxSize > 0
    ensures var r := RunAccesses(maxSize, trace, compute);
      WellFormed(r) && Coherent(r, compute) && r.maxSize == maxSize
  {
    if trace != [] {
      RunKeeps(maxSize, trace[..|trace| - 1], compute);
      AccessKeeps(RunAccesses(maxSize, trace[..|trace| - 1], compute), trace[|trace| - 1], compute);
    }
  }

  /**
  After every trace of GetOrCompute calls, however long, with whatever lifetimes and clock readings: the resident keys
  are exactly the maxSize most recently used distinct keys of the trace, and recency orders them as in
  the trace.  Expiry makes no difference: an access that meets an expired entry stores the key afresh in front.
  */
  lemma {:induction false} ResidentsAreMostRecent(maxSize: nat, trace: seq<Access>, compute: string -> Outcome)
    requires maxSize > 0
    ensures var slots := RunAccesses(maxSize, trace, compute).slots;
      && slots.Keys == Elements(Top(Recent(trace, compute), maxSize))
      && Ordered(Top(Recent(trace, compute), maxSize), slots)
  {
    if trace != [] {
      var a, earlier := trace[|trace| - 1], trace[..|trace| - 1];
      var r := RunAccesses(maxSize, earlier, compute);
      ResidentsAreMostRecent(maxSize, earlier, compute);
      RunKeeps(maxSize, earlier, compute);
      RecentNoDup(earlier, compute);
      AccessLinked(r, Recent(earlier, compute), a, compute);
    }
  }

  /** So a larger cache fed the same accesses always holds everything a smaller one does. */
  lemma LargerCacheIncludesSmaller(small: nat, large: nat, trace: seq<Access>, compute: string -> Outcome)
    requires 0 < small <= large
    ensures RunAccesses(small, trace, compute).slots.Keys <= RunAccesses(large, trace, compute).slots.Keys
  {
    ResidentsAreMostRecent(small, trace, compute);
    ResidentsAreMostRecent(large, trace, compute);
    var recent := Recent(trace, compute);
    assert Top(recent, large)[..Min(small, |recent|)] == Top(recent, small);
    PrefixElements(Top(recent, large), Min(small, |recent|));
  }
}
