/** NERCache: what the span model found in a line, kept for a time to live and at most `max`
    lines, the least recently used making room.

    The list of entries is the sequence of their keys, most recently used first; the map holds
    the entries.  A digest stands for the input it is taken of (digests are taken not to
    collide).  Each operation holds the mutex, so a run is a sequence of operations; the clock is
    read outside the mutex, so times along a run need not increase. */
module NerCache {

  type Key = string

  /** One detection, in character offsets of the cached line. */
  datatype CachedSpan = CachedSpan(start: int, end: int, score: real, tag: string)

  datatype Entry = Entry(expires: int, spans: seq<CachedSpan>)

  datatype State = State(order: seq<Key>, items: map<Key, Entry>, hits: nat, misses: nat, evictions: nat)

  const EMPTY := State([], map[], 0, 0, 0)

  datatype Lookup = Miss | Hit(spans: seq<CachedSpan>)

  // ---- Specification ----

  /** The list without key. */
  function Without(order: seq<Key>, key: Key): (r: seq<Key>)
    ensures forall k :: k in r <==> k in order && k != key
    ensures |r| <= |order|
  {
    if order == [] then []
    else
      assert forall k :: k in order <==> k in order[..|order| - 1] || k == order[|order| - 1];
      var rest := Without(order[..|order| - 1], key);
      if order[|order| - 1] == key then rest else rest + [order[|order| - 1]]
  }

  predicate Expired(st: State, now: int, key: Key) {
    key in st.items && now >= st.items[key].expires
  }

  predicate Hits(st: State, now: int, key: Key) {
    key in st.items && now < st.items[key].expires
  }

  /** The state after get. */
  function AfterGet(st: State, now: int, key: Key): State {
    if Hits(st, now, key) then
      st.(order := [key] + Without(st.order, key), hits := st.hits + 1)
    else if Expired(st, now, key) then
      st.(order := Without(st.order, key), items := st.items - {key}, misses := st.misses + 1)
    else
      st.(misses := st.misses + 1)
  }

  function Answer(st: State, now: int, key: Key): Lookup {
    if Hits(st, now, key) then Hit(st.items[key].spans) else Miss
  }

  /** The least recently used entry is dropped. */
  function EvictLast(st: State): State
    requires st.order != []
  {
    var oldest := st.order[|st.order| - 1];
    st.(order := st.order[..|st.order| - 1], items := st.items - {oldest}, evictions := st.evictions + 1)
  }

  /** Where put makes room for a new entry. */
  function Room(st: State, max: nat): State {
    if |st.items| >= max && st.order != [] then EvictLast(st) else st
  }

  /** The state after put. */
  function AfterPut(st: State, max: nat, key: Key, entry: Entry): State {
    if key in st.items then
      st.(order := [key] + Without(st.order, key), items := st.items[key := entry])
    else
      var room := Room(st, max);
      room.(order := [key] + room.order, items := room.items[key := entry])
  }

  // ---- Invariant ----

  ghost predicate Distinct(s: seq<Key>) {
    forall i, j :: 0 <= i < j < |s| ==> s[i] != s[j]
  }

  ghost function Elements(s: seq<Key>): (r: set<Key>)
    ensures forall k :: k in r <==> k in s
  {
    set k | k in s
  }

  /** List and map hold the same keys, each once, and no more than max. */
  ghost predicate Consistent(st: State, max: nat) {
    Distinct(st.order) && Elements(st.order) == st.items.Keys && |st.order| <= max
  }

  lemma {:induction false} DistinctSize(s: seq<Key>)
    requires Distinct(s)
    ensures |Elements(s)| == |s|
  {
    if s != [] {
      var r := s[..|s| - 1];
      DistinctSize(r);
      assert s[|s| - 1] !in r;
      assert Elements(s) == Elements(r) + {s[|s| - 1]};
    }
  }

  lemma SameSize(st: State, max: nat)
    requires Consistent(st, max)
    ensures |st.items| == |st.order|
  {
    DistinctSize(st.order);
    assert |st.items| == |st.items.Keys|;
  }

  lemma {:induction false} WithoutDistinct(order: seq<Key>, key: Key)
    requires Distinct(order)
    ensures Distinct(Without(order, key))
    ensures key in order ==> |Without(order, key)| == |order| - 1
    ensures key !in order ==> Without(order, key) == order
  {
    if order != [] {
      var r, last := order[..|order| - 1], order[|order| - 1];
      WithoutDistinct(r, key);
      assert last !in r;
      assert order == r + [last];
    }
  }

  lemma GetKeepsConsistent(st: State, max: nat, now: int, key: Key)
    requires Consistent(st, max)
    ensures Consistent(AfterGet(st, now, key), max)
  {
    WithoutDistinct(st.order, key);
    var after := AfterGet(st, now, key);
    assert forall k :: k in after.order <==> k in after.items;
    assert Elements(after.order) == after.items.Keys;
  }

  /** A key put in front of keys that lack it. */
  lemma InFront(order: seq<Key>, items: map<Key, Entry>, key: Key, entry: Entry, max: nat)
    requires Distinct(order) && key !in order && |order| < max
    requires forall k :: k in order || k == key <==> k in items || k == key
    ensures Distinct([key] + order) && |[key] + order| <= max
    ensures Elements([key] + order) == items[key := entry].Keys
  {
  }

  lemma PutKeepsConsistent(st: State, max: nat, key: Key, entry: Entry)
    requires Consistent(st, max) && max > 0
    ensures Consistent(AfterPut(st, max, key, entry), max)
  {
    SameSize(st, max);
    assert forall k :: k in st.order <==> k in st.items;
    if key in st.items {
      WithoutDistinct(st.order, key);
      ReplacedInFront(st, max, key, entry);
    } else {
      if |st.items| >= max {
        EvictKeepsConsistent(st, max);
      }
      hide Without, Distinct, Elements;
      var room := Room(st, max);
      InFront(room.order, room.items, key, entry, max);
    }
  }

  lemma ReplacedInFront(st: State, max: nat, key: Key, entry: Entry)
    requires key in st.items && |st.order| <= max && forall k :: k in st.order <==> k in st.items
    requires var rest := Without(st.order, key); Distinct(rest) && |rest| == |st.order| - 1
    ensures Consistent(AfterPut(st, max, key, entry), max)
  {
    var rest := Without(st.order, key);
    assert key !in rest && forall k :: k in rest <==> k in st.order && k != key;
    hide Without, Distinct, Elements;
    InFront(rest, st.items, key, entry, max);
  }

  lemma EvictKeepsConsistent(st: State, max: nat)
    requires Consistent(st, max) && st.order != []
    ensures Distinct(EvictLast(st).order) && |EvictLast(st).order| == |st.order| - 1
    ensures |EvictLast(st).items| == |st.items| - 1
    ensures forall k :: k in EvictLast(st).order <==> k in EvictLast(st).items
  {
    var r, last := st.order[..|st.order| - 1], st.order[|st.order| - 1];
    assert last !in r;
    assert st.order == r + [last];
    assert forall k :: k in st.order <==> k in st.items;
    assert last in st.order;
    assert EvictLast(st).items.Keys == st.items.Keys - {last};
  }

  // ---- The cache ----

  class NERCache {
    const ttl: int
    const max: nat
    var order: seq<Key>
    var items: map<Key, Entry>
    var hits: nat
    var misses: nat
    var evictions: nat

    ghost function St(): State
      reads this
    {
      State(order, items, hits, misses, evictions)
    }

    ghost predicate Valid()
      reads this
    {
      max > 0 && ttl > 0 && Consistent(St(), max)
    }

    /** NewNERCache, for positive sizes and times to live; otherwise there is no cache. */
    constructor (maxEntries: nat, ttl: int)
      requires maxEntries > 0 && ttl > 0
      ensures Valid() && St() == EMPTY && this.max == maxEntries && this.ttl == ttl
    {
      this.ttl, max := ttl, maxEntries;
      order, items := [], map[];
      hits, misses, evictions := 0, 0, 0;
    }

    method Get(now: int, key: Key) returns (r: Lookup)
      requires Valid()
      modifies this
      ensures Valid()
      ensures St() == AfterGet(old(St()), now, key) && r == Answer(old(St()), now, key)
    {
      GetKeepsConsistent(St(), max, now, key);
      if key !in items {
        misses := misses + 1;
        return Miss;
      }
      var e := items[key];
      if now >= e.expires {
        order := Without(order, key);
        items := items - {key};
        misses := misses + 1;
        return Miss;
      }
      order := [key] + Without(order, key);
      hits := hits + 1;
      return Hit(e.spans);
    }

    method Put(now: int, key: Key, spans: seq<CachedSpan>)
      requires Valid()
      modifies this
      ensures Valid()
      ensures St() == AfterPut(old(St()), max, key, Entry(now + ttl, spans))
    {
      PutKeepsConsistent(St(), max, key, Entry(now + ttl, spans));
      var expires := now + ttl;
      if key in items {
        items := items[key := Entry(expires, spans)];
        order := [key] + Without(order, key);
        return;
      }
      MakeRoom();
      items := items[key := Entry(expires, spans)];
      order := [key] + order;
    }

    /** The eviction loop of put. */
    method MakeRoom()
      requires Valid()
      modifies this
      ensures St() == Room(old(St()), max)
    {
      SameSize(St(), max);
      ghost var before := St();
      if before.order != [] {
        EvictKeepsConsistent(before, max);
      }
      hide Consistent, Distinct;
      while |items| >= max
        invariant if St() == before then true else |before.items| >= max && before.order != [] && St() == EvictLast(before)
        decreases |items|
      {
        var oldest := order[|order| - 1];
        order := order[..|order| - 1];
        items := items - {oldest};
        evictions := evictions + 1;
      }
    }

    /** Entries and counters. */
    method Stats() returns (entries: nat, h: nat, m: nat, e: nat)
      requires Valid()
      ensures entries == |order| <= max && h == hits && m == misses && e == evictions
    {
      SameSize(St(), max);
      return |items|, hits, misses, evictions;
    }
  }

  // ---- Runs ----

  datatype Op = Get(now: int, key: Key) | Put(now: int, key: Key, spans: seq<CachedSpan>)

  function Apply(st: State, ttl: int, max: nat, op: Op): State {
    match op
    case Get(now, key) => AfterGet(st, now, key)
    case Put(now, key, spans) => AfterPut(st, max, key, Entry(now + ttl, spans))
  }

  /** The state after the operations of a run, the first first. */
  function Run(ttl: int, max: nat, ops: seq<Op>): State {
    if ops == [] then EMPTY else Apply(Run(ttl, max, Front(ops)), ttl, max, Last(ops))
  }

  function Front(ops: seq<Op>): (r: seq<Op>)
    requires ops != []
    ensures |r| < |ops|
  {
    ops[..|ops| - 1]
  }

  function Last(ops: seq<Op>): Op
    requires ops != []
  {
    ops[|ops| - 1]
  }

  lemma {:induction false} RunConsistent(ttl: int, max: nat, ops: seq<Op>)
    requires max > 0
    ensures Consistent(Run(ttl, max, ops), max)
  {
    hide Consistent, AfterGet, AfterPut;
    if ops == [] {
      EmptyConsistent(max);
    } else {
      RunConsistent(ttl, max, Front(ops));
      var st := Run(ttl, max, Front(ops));
      match Last(ops)
      case Get(now, key) => GetKeepsConsistent(st, max, now, key);
      case Put(now, key, spans) => PutKeepsConsistent(st, max, key, Entry(now + ttl, spans));
    }
  }

  lemma EmptyConsistent(max: nat)
    ensures Consistent(EMPTY, max)
  {
    assert Elements([]) == {};
  }

  // ---- Freshness ----

  datatype Stored = Never | At(now: int, spans: seq<CachedSpan>)

  /** The latest put of key. */
  function LatestPut(ops: seq<Op>, key: Key): Stored {
    if ops == [] then Never
    else if Last(ops).Put? && Last(ops).key == key then At(Last(ops).now, Last(ops).spans)
    else LatestPut(Front(ops), key)
  }

  lemma {:induction false} EntriesAreLatest(ttl: int, max: nat, ops: seq<Op>, key: Key)
    requires key in Run(ttl, max, ops).items
    ensures var p := LatestPut(ops, key); p.At? && Run(ttl, max, ops).items[key] == Entry(p.now + ttl, p.spans)
  {
    if !(Last(ops).Put? && Last(ops).key == key) {
      EntriesAreLatest(ttl, max, Front(ops), key);
    }
  }

  /** A hit returns the spans of the latest put of its key, strictly before that put's time plus
      the time to live, whatever was read in between. */
  lemma HitIsFresh(ttl: int, max: nat, ops: seq<Op>, now: int, key: Key)
    ensures var r, p := Answer(Run(ttl, max, ops), now, key), LatestPut(ops, key);
            r.Hit? ==> p.At? && r.spans == p.spans && now < p.now + ttl
  {
    if key in Run(ttl, max, ops).items {
      EntriesAreLatest(ttl, max, ops, key);
    }
  }

  // ---- Conservation ----

  datatype Tally = Tally(gets: nat, inserts: nat, expiries: nat)

  /** Reads, new entries and removals by expiry along a run. */
  function Count(ttl: int, max: nat, ops: seq<Op>): Tally {
    if ops == [] then Tally(0, 0, 0)
    else
      var t, st := Count(ttl, max, Front(ops)), Run(ttl, max, Front(ops));
      match Last(ops)
      case Get(now, key) => Tally(t.gets + 1, t.inserts, t.expiries + (if Expired(st, now, key) then 1 else 0))
      case Put(now, key, spans) => Tally(t.gets, t.inserts + (if key in st.items then 0 else 1), t.expiries)
  }

  lemma GetSizes(st: State, now: int, key: Key)
    ensures var s := AfterGet(st, now, key);
            && s.hits + s.misses == st.hits + st.misses + 1 && s.evictions == st.evictions
            && |s.items| + (if Expired(st, now, key) then 1 else 0) == |st.items|
  {
    hide Without;
    if Expired(st, now, key) {
      assert AfterGet(st, now, key).items.Keys == st.items.Keys - {key};
    }
  }

  lemma RoomSizes(st: State, max: nat)
    requires Consistent(st, max)
    ensures var r := Room(st, max);
            && r.hits == st.hits && r.misses == st.misses && |r.items| + r.evictions == |st.items| + st.evictions
            && forall k :: k in r.items ==> k in st.items
  {
    if st.order != [] {
      EvictKeepsConsistent(st, max);
    }
  }

  lemma PutSizes(st: State, max: nat, key: Key, entry: Entry)
    requires Consistent(st, max)
    ensures var s := AfterPut(st, max, key, entry);
            && s.hits == st.hits && s.misses == st.misses
            && |s.items| + s.evictions == |st.items| + st.evictions + (if key in st.items then 0 else 1)
  {
    RoomSizes(st, max);
    hide Consistent, Without, Room;
    var s := AfterPut(st, max, key, entry);
    if key in st.items {
      assert s.items.Keys == st.items.Keys;
    } else {
      assert s.items.Keys == Room(st, max).items.Keys + {key};
    }
  }

  lemma ApplySizes(st: State, ttl: int, max: nat, op: Op)
    requires Consistent(st, max)
    ensures var s := Apply(st, ttl, max, op);
            && s.hits + s.misses == st.hits + st.misses + (if op.Get? then 1 else 0)
            && |s.items| + s.evictions + (if op.Get? && Expired(st, op.now, op.key) then 1 else 0)
               == |st.items| + st.evictions + (if op.Put? && op.key !in st.items then 1 else 0)
  {
    hide AfterGet, AfterPut, Consistent;
    match op
    case Get(now, key) => GetSizes(st, now, key);
    case Put(now, key, spans) => PutSizes(st, max, key, Entry(now + ttl, spans));
  }

  /** Hits plus misses are the reads; entries, evictions and expiry removals are the insertions. */
  lemma {:induction false} Conserved(ttl: int, max: nat, ops: seq<Op>)
    requires max > 0
    ensures var st, t := Run(ttl, max, ops), Count(ttl, max, ops);
            && st.hits + st.misses == t.gets
            && t.inserts == |st.items| + st.evictions + t.expiries
  {
    hide Apply;
    if ops != [] {
      Conserved(ttl, max, Front(ops));
      RunConsistent(ttl, max, Front(ops));
      ApplySizes(Run(ttl, max, Front(ops)), ttl, max, Last(ops));
    }
  }

  /** The reads of a run that find their key stored and not yet expired. */
  function ReadsServed(ttl: int, max: nat, ops: seq<Op>): nat {
    if ops == [] then 0
    else
      var st, op := Run(ttl, max, Front(ops)), Last(ops);
      ReadsServed(ttl, max, Front(ops)) + (if op.Get? && op.key in st.items && op.now < st.items[op.key].expires then 1 else 0)
  }

  /** The stores of a run that bring a new key into a full cache. */
  function StoresCrowding(ttl: int, max: nat, ops: seq<Op>): nat {
    if ops == [] then 0
    else
      var st, op := Run(ttl, max, Front(ops)), Last(ops);
      StoresCrowding(ttl, max, Front(ops)) + (if op.Put? && op.key !in st.items && |st.items| >= max then 1 else 0)
  }

  /** Each counter counts what it is named for: hits the reads that are served, misses the others, and
      evictions the new keys that met a full cache. */
  lemma {:induction false} CountersCount(ttl: int, max: nat, ops: seq<Op>)
    requires max > 0
    ensures var st, t := Run(ttl, max, ops), Count(ttl, max, ops);
            && st.hits == ReadsServed(ttl, max, ops) && st.misses == t.gets - ReadsServed(ttl, max, ops)
            && st.evictions == StoresCrowding(ttl, max, ops)
  {
    hide Without;
    if ops != [] {
      CountersCount(ttl, max, Front(ops));
      RunConsistent(ttl, max, Front(ops));
      SameSize(Run(ttl, max, Front(ops)), max);
    }
  }

  // ---- Least recently used ----

  /** An operation uses its key if it stores it or hits it. */
  predicate Uses(st: State, op: Op, key: Key) {
    op.key == key && (op.Put? || Hits(st, op.now, key))
  }

  /** The keys used since key was last used (all keys used if it never was). */
  function UsedSince(ttl: int, max: nat, ops: seq<Op>, key: Key): (r: set<Key>)
    ensures key !in r
  {
    if ops == [] then {}
    else
      var st, op := Run(ttl, max, Front(ops)), Last(ops);
      if Uses(st, op, key) then {}
      else if Uses(st, op, op.key) then UsedSince(ttl, max, Front(ops), key) + {op.key}
      else UsedSince(ttl, max, Front(ops), key)
  }

  /** Keys ahead in the list were all used since. */
  ghost predicate Recent(ttl: int, max: nat, ops: seq<Op>, order: seq<Key>) {
    forall i, j :: 0 <= i < j < |order| ==> order[i] in UsedSince(ttl, max, ops, order[j])
  }

  lemma {:induction false} WithoutRecent(ttl: int, max: nat, ops: seq<Op>, order: seq<Key>, key: Key)
    requires Recent(ttl, max, ops, order)
    ensures Recent(ttl, max, ops, Without(order, key))
  {
    if order != [] {
      var r, last := order[..|order| - 1], order[|order| - 1];
      WithoutRecent(ttl, max, ops, r, key);
      var w := Without(r, key);
      forall i | 0 <= i < |w|
        ensures last != key ==> w[i] in UsedSince(ttl, max, ops, last)
      {
        assert w[i] in r;
        var k :| 0 <= k < |r| && r[k] == w[i];
        assert order[k] == w[i];
      }
    }
  }

  /** After an operation that uses no key the list is as recent as before. */
  lemma StillRecent(ttl: int, max: nat, ops: seq<Op>, order: seq<Key>)
    requires ops != [] && Recent(ttl, max, Front(ops), order)
    requires !Uses(Run(ttl, max, Front(ops)), Last(ops), Last(ops).key)
    ensures Recent(ttl, max, ops, order)
  {
    forall i, j | 0 <= i < j < |order|
      ensures order[i] in UsedSince(ttl, max, ops, order[j])
    {
      assert order[i] in UsedSince(ttl, max, Front(ops), order[j]);
    }
  }

  /** An operation that uses key adds it to what was used since another key. */
  lemma UsedMore(ttl: int, max: nat, ops: seq<Op>, k: Key)
    requires ops != [] && Uses(Run(ttl, max, Front(ops)), Last(ops), Last(ops).key) && k != Last(ops).key
    ensures UsedSince(ttl, max, ops, k) == UsedSince(ttl, max, Front(ops), k) + {Last(ops).key}
  {
    hide Run;
  }

  /** After an operation that uses key, key leads. */
  lemma UsedLeads(ttl: int, max: nat, ops: seq<Op>, order: seq<Key>)
    requires ops != [] && Recent(ttl, max, Front(ops), order) && Last(ops).key !in order
    requires Uses(Run(ttl, max, Front(ops)), Last(ops), Last(ops).key)
    ensures Recent(ttl, max, ops, [Last(ops).key] + order)
  {
    var key := Last(ops).key;
    var all := [key] + order;
    hide UsedSince, Uses, Run;
    forall i, j | 0 <= i < j < |all|
      ensures all[i] in UsedSince(ttl, max, ops, all[j])
    {
      assert all[j] == order[j - 1] && all[j] in order;
      UsedMore(ttl, max, ops, all[j]);
      if i > 0 {
        assert order[i - 1] in UsedSince(ttl, max, Front(ops), order[j - 1]);
      }
    }
  }

  lemma {:induction false} RunRecent(ttl: int, max: nat, ops: seq<Op>)
    requires max > 0
    ensures Recent(ttl, max, ops, Run(ttl, max, ops).order)
  {
    if ops != [] {
      hide Recent, UsedSince;
      var before := Front(ops);
      var st, op := Run(ttl, max, before), Last(ops);
      RunRecent(ttl, max, before);
      RunConsistent(ttl, max, before);
      WithoutRecent(ttl, max, before, st.order, op.key);
      if op.Get? && !Hits(st, op.now, op.key) {
        StillRecent(ttl, max, ops, if Expired(st, op.now, op.key) then Without(st.order, op.key) else st.order);
      } else if op.key in st.items {
        UsedLeads(ttl, max, ops, Without(st.order, op.key));
      } else {
        assert op.key !in st.order by { assert Elements(st.order) == st.items.Keys; }
        RoomRecent(ttl, max, before, st);
        UsedLeads(ttl, max, ops, Room(st, max).order);
      }
    }
  }

  lemma RoomRecent(ttl: int, max: nat, ops: seq<Op>, st: State)
    requires Recent(ttl, max, ops, st.order)
    ensures Recent(ttl, max, ops, Room(st, max).order)
  {
  }

  /** Least recently used: a put that evicts drops an entry since whose own last use at least max
      distinct other keys were used, the put's included. */
  lemma EvictsLeastRecent(ttl: int, max: nat, ops: seq<Op>, victim: Key)
    requires max > 0 && ops != [] && Last(ops).Put?
    requires victim in Run(ttl, max, Front(ops)).items && victim !in Run(ttl, max, ops).items
    ensures victim !in UsedSince(ttl, max, ops, victim) && |UsedSince(ttl, max, ops, victim)| >= max
  {
    var before := Front(ops);
    var st, key := Run(ttl, max, before), Last(ops).key;
    RunConsistent(ttl, max, before);
    RunRecent(ttl, max, before);
    VictimIsLast(st, max, key, Entry(Last(ops).now + ttl, Last(ops).spans), victim);
    assert Distinct(st.order[..|st.order| - 1]) && Recent(ttl, max, before, st.order);
    hide Recent, UsedSince, Run, Consistent, Distinct, AfterPut;
    var r := st.order[..|st.order| - 1];
    DistinctSize(r);
    OthersUsed(ttl, max, ops, r, victim);
    assert |Elements(r) + {key}| == |r| + 1;
    Subset(Elements(r) + {key}, UsedSince(ttl, max, ops, victim));
  }

  /** The entry a put evicts is the last of a full list. */
  lemma VictimIsLast(st: State, max: nat, key: Key, entry: Entry, victim: Key)
    requires Consistent(st, max) && max > 0
    requires victim in st.items && victim !in AfterPut(st, max, key, entry).items
    ensures |st.order| == max && st.order == st.order[..max - 1] + [victim]
    ensures Distinct(st.order[..max - 1]) && key !in st.order && key != victim
  {
    SameSize(st, max);
    assert key !in Elements(st.order);
    hide Consistent, Without, Elements;
    assert st.order[..max - 1] == st.order[..|st.order| - 1];
  }

  lemma OthersUsed(ttl: int, max: nat, ops: seq<Op>, r: seq<Key>, victim: Key)
    requires ops != [] && Last(ops).Put? && Last(ops).key != victim
    requires Recent(ttl, max, Front(ops), r + [victim])
    ensures Elements(r) + {Last(ops).key} <= UsedSince(ttl, max, ops, victim)
  {
    forall k | k in r
      ensures k in UsedSince(ttl, max, ops, victim)
    {
      var i :| 0 <= i < |r| && r[i] == k;
      assert (r + [victim])[i] in UsedSince(ttl, max, Front(ops), (r + [victim])[|r|]);
    }
  }

  lemma Subset(a: set<Key>, b: set<Key>)
    requires a <= b
    ensures |a| <= |b|
  {
    if a != {} {
      var x :| x in a;
      Subset(a - {x}, b - {x});
    }
  }

  /** key was stored, and since its last use it was not found expired. */
  predicate Kept(ttl: int, max: nat, ops: seq<Op>, key: Key) {
    if ops == [] then false
    else
      var st, op := Run(ttl, max, Front(ops)), Last(ops);
      if Uses(st, op, key) then true
      else Kept(ttl, max, Front(ops), key) && !(op.Get? && op.key == key && Expired(st, op.now, key))
  }

  /** An operation loses an entry only by finding it expired or by evicting it. */
  lemma LosesOnlyTwoWays(ttl: int, max: nat, ops: seq<Op>, key: Key)
    requires max > 0 && ops != []
    requires key in Run(ttl, max, Front(ops)).items && key !in Run(ttl, max, ops).items
    ensures (Last(ops).Get? && Last(ops).key == key && Expired(Run(ttl, max, Front(ops)), Last(ops).now, key))
            || (Last(ops).Put? && Last(ops).key != key)
  {
  }

  /** What was stored, was not found expired, and has had fewer than max distinct other keys used
      since its last use is in the cache. */
  lemma {:induction false} Retained(ttl: int, max: nat, ops: seq<Op>, key: Key)
    requires max > 0 && Kept(ttl, max, ops, key) && |UsedSince(ttl, max, ops, key)| < max
    ensures key in Run(ttl, max, ops).items
  {
    var st, op := Run(ttl, max, Front(ops)), Last(ops);
    if !Uses(st, op, key) {
      Subset(UsedSince(ttl, max, Front(ops), key), UsedSince(ttl, max, ops, key));
      Retained(ttl, max, Front(ops), key);
      if key !in Run(ttl, max, ops).items {
        LosesOnlyTwoWays(ttl, max, ops, key);
        EvictsLeastRecent(ttl, max, ops, key);
      }
    }
  }

  /** So a read of such a key within the time to live of its latest put is a hit. */
  lemma ReadHits(ttl: int, max: nat, ops: seq<Op>, now: int, key: Key)
    requires max > 0 && Kept(ttl, max, ops, key) && |UsedSince(ttl, max, ops, key)| < max
    requires LatestPut(ops, key).At? && now < LatestPut(ops, key).now + ttl
    ensures Answer(Run(ttl, max, ops), now, key) == Hit(LatestPut(ops, key).spans)
  {
    Retained(ttl, max, ops, key);
    EntriesAreLatest(ttl, max, ops, key);
  }
}
