/** spansFor: the model's spans for every text, from the cache where it holds them. */
module SpanCache {
  import opened NerClient
  import opened NerCache

  // ---- Keys ----

  const NUL: char := 0 as char

  const BAR: char := '|'

  /** What is digested for a line: scope and line are separated by a byte no scope holds. */
  function KeyInput(scope: string, line: string): Key {
    scope + [NUL] + line
  }

  /** The first c splits a string in one way only. */
  lemma SplitAt(c: char, a: string, x: string, b: string, y: string)
    requires c !in a && c !in b && a + [c] + x == b + [c] + y
    ensures a == b && x == y
  {
    var k := a + [c] + x;
    assert k[|a|] == c && k[|b|] == c;
    assert forall i :: 0 <= i < |a| ==> k[i] == a[i] && a[i] in a;
    assert forall i :: 0 <= i < |b| ==> k[i] == b[i] && b[i] in b;
    assert k[..|a|] == a && k[..|b|] == b;
    assert k[|a| + 1..] == x && k[|b| + 1..] == y;
  }

  /** Scope and line are told apart by the first NUL: no two questions share an input. */
  lemma KeyInputInjective(s: string, a: string, t: string, b: string)
    requires NUL !in s && NUL !in t && KeyInput(s, a) == KeyInput(t, b)
    ensures s == t && a == b
  {
    SplitAt(NUL, s, a, t, b);
  }

  /** The labels asked for, joined by bars, and the threshold as text. */
  function Join(labels: seq<string>): string {
    if labels == [] then []
    else if |labels| == 1 then labels[0]
    else labels[0] + [BAR] + Join(labels[1..])
  }

  function Scope(labels: seq<string>, threshold: string): string {
    Join(labels) + [BAR] + threshold
  }

  ghost predicate NoBars(labels: seq<string>) {
    forall l :: l in labels ==> BAR !in l
  }

  /** What follows the first label and its bar. */
  function ScopeRest(labels: seq<string>, threshold: string): (r: string)
    requires labels != []
    ensures Scope(labels, threshold) == labels[0] + [BAR] + r
  {
    if |labels| == 1 then threshold
    else
      assert Scope(labels, threshold) == labels[0] + [BAR] + Scope(labels[1..], threshold);
      Scope(labels[1..], threshold)
  }

  /** A scope tells its labels and threshold. */
  lemma {:induction false} ScopeInjective(a: seq<string>, x: string, b: seq<string>, y: string)
    requires a != [] && b != [] && BAR !in x && BAR !in y && NoBars(a) && NoBars(b)
    requires Scope(a, x) == Scope(b, y)
    ensures a == b && x == y
  {
    hide Scope;
    assert a[0] in a && b[0] in b;
    SplitAt(BAR, a[0], ScopeRest(a, x), b[0], ScopeRest(b, y));
    assert a == [a[0]] + a[1..] && b == [b[0]] + b[1..];
    ScopeHasBar(a[1..], x);
    ScopeHasBar(b[1..], y);
    if |a| > 1 && |b| > 1 {
      assert forall l :: l in a[1..] ==> l in a;
      assert forall l :: l in b[1..] ==> l in b;
      ScopeInjective(a[1..], x, b[1..], y);
    }
  }

  lemma ScopeHasBar(labels: seq<string>, threshold: string)
    ensures BAR in Scope(labels, threshold)
  {
    assert Scope(labels, threshold)[|Join(labels)|] == BAR;
  }

  // ---- Cached spans ----

  /** The spans of labels that were asked for. */
  function Restricted(spans: seq<Span>, labels: seq<string>): (r: seq<Span>)
    ensures forall s :: s in r <==> s in spans && s.tag in labels
  {
    if spans == [] then []
    else
      assert forall s :: s in spans <==> s in spans[..|spans| - 1] || s == spans[|spans| - 1];
      var rest, s := Restricted(spans[..|spans| - 1], labels), spans[|spans| - 1];
      if s.tag in labels then rest + [s] else rest
  }

  function Stored(spans: seq<Span>): (r: seq<CachedSpan>)
    ensures |r| == |spans|
    ensures forall i :: 0 <= i < |spans| ==> r[i] == CachedSpan(spans[i].start, spans[i].end, spans[i].score, spans[i].tag)
  {
    seq(|spans|, i requires 0 <= i < |spans| => CachedSpan(spans[i].start, spans[i].end, spans[i].score, spans[i].tag))
  }

  method ToCached(spans: seq<Span>, labels: seq<string>) returns (out: seq<CachedSpan>)
    ensures out == Stored(Restricted(spans, labels))
  {
    out := [];
    for i := 0 to |spans|
      invariant out == Stored(Restricted(spans[..i], labels))
    {
      assert spans[..i + 1][..i] == spans[..i];
      var s := spans[i];
      for j := 0 to |labels|
        invariant out == Stored(Restricted(spans[..i], labels))
        invariant forall k :: 0 <= k < j ==> labels[k] != s.tag
      {
        if s.tag == labels[j] {
          out := out + [CachedSpan(s.start, s.end, s.score, labels[j])];
          break;
        }
      }
      assert out == Stored(Restricted(spans[..i + 1], labels));
    }
    assert spans[..|spans|] == spans;
  }

  method FromCached(spans: seq<CachedSpan>) returns (out: seq<Span>)
    ensures |out| == |spans|
    ensures forall i :: 0 <= i < |spans| ==> out[i] == Span(spans[i].tag, spans[i].start, spans[i].end, spans[i].score)
  {
    out := [];
    for i := 0 to |spans|
      invariant |out| == i
      invariant forall k :: 0 <= k < i ==> out[k] == Span(spans[k].tag, spans[k].start, spans[k].end, spans[k].score)
    {
      out := out + [Span(spans[i].tag, spans[i].start, spans[i].end, spans[i].score)];
    }
  }

  // ---- Faithful caches ----

  /** What an entry under key must hold: the model's spans of the line, of the labels asked for. */
  ghost predicate FaithfulEntry(scope: string, labels: seq<string>, model: Model, key: Key, spans: seq<CachedSpan>) {
    forall t :: key == KeyInput(scope, t) ==> t in model && spans == Stored(Restricted(model[t], labels))
  }

  ghost predicate Faithful(scope: string, labels: seq<string>, model: Model, st: State) {
    forall k :: k in st.items ==> FaithfulEntry(scope, labels, model, k, st.items[k].spans)
  }

  /** Whatever is put is faithful. */
  ghost predicate FaithfulOps(scope: string, labels: seq<string>, model: Model, ops: seq<Op>) {
    forall i :: 0 <= i < |ops| && ops[i].Put? ==> FaithfulEntry(scope, labels, model, ops[i].key, ops[i].spans)
  }

  lemma ApplyKeepsFaithful(scope: string, labels: seq<string>, model: Model, st: State, ttl: int, max: nat, op: Op)
    requires Faithful(scope, labels, model, st)
    requires op.Put? ==> FaithfulEntry(scope, labels, model, op.key, op.spans)
    ensures Faithful(scope, labels, model, Apply(st, ttl, max, op))
  {
    hide FaithfulEntry, Without;
  }

  /** Reads of a faithful cache miss, or give the model's spans of the labels asked for. */
  lemma FaithfulAnswer(scope: string, labels: seq<string>, model: Model, st: State, now: int, line: string)
    requires Faithful(scope, labels, model, st)
    ensures var r := Answer(st, now, KeyInput(scope, line));
            r.Hit? ==> line in model && r.spans == Stored(Restricted(model[line], labels))
  {
    var key := KeyInput(scope, line);
    assert key in st.items ==> FaithfulEntry(scope, labels, model, key, st.items[key].spans);
  }

  lemma LineIsFaithful(scope: string, labels: seq<string>, model: Model, line: string)
    requires NUL !in scope && line in model
    ensures FaithfulEntry(scope, labels, model, KeyInput(scope, line), Stored(Restricted(model[line], labels)))
  {
    forall t | KeyInput(scope, line) == KeyInput(scope, t)
      ensures t == line
    {
      KeyInputInjective(scope, line, scope, t);
    }
  }

  /** The state after the first n operations. */
  function ApplyAll(st: State, ttl: int, max: nat, ops: seq<Op>, n: nat): State
    requires n <= |ops|
  {
    if n == 0 then st else Apply(ApplyAll(st, ttl, max, ops, n - 1), ttl, max, ops[n - 1])
  }

  function Seen(st: State, ttl: int, max: nat, ops: seq<Op>): State {
    ApplyAll(st, ttl, max, ops, |ops|)
  }

  method ApplyOp(cache: NERCache, op: Op)
    requires cache.Valid()
    modifies cache
    ensures cache.Valid() && cache.St() == Apply(old(cache.St()), cache.ttl, cache.max, op)
  {
    hide AfterGet, AfterPut, Answer;
    match op
    case Get(now, key) => var _ := cache.Get(now, key);
    case Put(now, key, spans) => cache.Put(now, key, spans);
  }

  /** What other callers do to the cache between two steps of this one. */
  method Interfere(cache: NERCache, ops: seq<Op>, ghost scope: string, ghost labels: seq<string>, ghost model: Model)
    requires cache.Valid() && Faithful(scope, labels, model, cache.St()) && FaithfulOps(scope, labels, model, ops)
    modifies cache
    ensures cache.Valid() && Faithful(scope, labels, model, cache.St())
    ensures cache.St() == Seen(old(cache.St()), cache.ttl, cache.max, ops)
  {
    for i := 0 to |ops|
      invariant cache.Valid() && Faithful(scope, labels, model, cache.St())
      invariant cache.St() == ApplyAll(old(cache.St()), cache.ttl, cache.max, ops, i)
    {
      hide Faithful, Apply, FaithfulEntry;
      assert ops[i].Put? ==> FaithfulEntry(scope, labels, model, ops[i].key, ops[i].spans);
      ApplyKeepsFaithful(scope, labels, model, cache.St(), cache.ttl, cache.max, ops[i]);
      ApplyOp(cache, ops[i]);
    }
  }

  // ---- What a call does to the cache ----

  /** The texts of a call and what it is asked with. */
  datatype Job = Job(scope: string, labels: seq<string>, texts: seq<string>)

  /** The state after the first n lookups, others at work before each. */
  function Looked(st: State, ttl: int, max: nat, job: Job, clock: nat -> int, others: nat -> seq<Op>, n: nat): State
    requires n <= |job.texts|
    decreases n, 0
  {
    if n == 0 then st
    else AfterGet(AtLookup(st, ttl, max, job, clock, others, n - 1), clock(n - 1), KeyInput(job.scope, job.texts[n - 1]))
  }

  /** The state in which text k is looked up. */
  function AtLookup(st: State, ttl: int, max: nat, job: Job, clock: nat -> int, others: nat -> seq<Op>, k: nat): State
    requires k <= |job.texts|
    decreases k, 1
  {
    Seen(Looked(st, ttl, max, job, clock, others, k), ttl, max, others(k))
  }

  predicate HitAt(st: State, ttl: int, max: nat, job: Job, clock: nat -> int, others: nat -> seq<Op>, k: nat)
    requires k < |job.texts|
  {
    Hits(AtLookup(st, ttl, max, job, clock, others, k), clock(k), KeyInput(job.scope, job.texts[k]))
  }

  /** The state after text i's answer is stored. */
  function StoredAfter(before: State, ttl: int, max: nat, job: Job, model: Model, clock: nat -> int, others: nat -> seq<Op>, i: nat): State
    requires i < |job.texts| && job.texts[i] in model
  {
    var k, t := |job.texts| + i, job.texts[i];
    AfterPut(Seen(before, ttl, max, others(k)), max, KeyInput(job.scope, t), Entry(clock(k) + ttl, Stored(Restricted(model[t], job.labels))))
  }

  /** The state after the answers to the first n texts that missed are stored, others at work before
      each. */
  function Handed(st: State, ttl: int, max: nat, job: Job, model: Model, clock: nat -> int, others: nat -> seq<Op>, hits: seq<bool>, n: nat): State
    requires n <= |job.texts| == |hits|
  {
    if n == 0 then st
    else
      var before := Handed(st, ttl, max, job, model, clock, others, hits, n - 1);
      if hits[n - 1] || job.texts[n - 1] !in model then before
      else StoredAfter(before, ttl, max, job, model, clock, others, n - 1)
  }

  /** Once a missed text's answer is in, the cache holds it: the spans of the labels asked for, for a time to
      live. */
  lemma AnswerStored(st: State, ttl: int, max: nat, job: Job, model: Model, clock: nat -> int, others: nat -> seq<Op>, hits: seq<bool>, i: nat)
    requires i < |job.texts| == |hits| && !hits[i] && job.texts[i] in model
    ensures var after, key := Handed(st, ttl, max, job, model, clock, others, hits, i + 1), KeyInput(job.scope, job.texts[i]);
            && key in after.items && after.items[key].expires == clock(|job.texts| + i) + ttl
            && after.items[key].spans == Stored(Restricted(model[job.texts[i]], job.labels))
  {
    hide Restricted, Stored, Seen, Room, Without, Handed, KeyInput;
    HandedNext(st, ttl, max, job, model, clock, others, hits, i);
  }

  // ---- spansFor ----

  /** A hit brings the model's spans of the labels asked for, a miss all of the model's spans. */
  ghost predicate Served(labels: seq<string>, model: Model, hit: bool, text: string, spans: seq<Span>) {
    text in model && spans == if hit then Restricted(model[text], labels) else model[text]
  }

  /** Position k is served from the cache, or waits for the answer to ask[pending]. */
  ghost predicate Placed(labels: seq<string>, model: Model, text: string, spans: seq<Span>, ask: seq<string>, pending: int) {
    if pending < 0 then Served(labels, model, true, text, spans) else pending < |ask| && ask[pending] == text
  }

  ghost predicate AllPlaced(job: Job, model: Model, n: nat, out: seq<seq<Span>>, ask: seq<string>, pending: seq<int>)
    requires n <= |job.texts|
  {
    && |out| == |pending| == n
    && (forall k :: 0 <= k < n ==> Placed(job.labels, model, job.texts[k], out[k], ask, pending[k]))
    && forall j :: 0 <= j < |ask| ==> j in pending
  }

  /** Every text asked for is asked once. */
  ghost predicate Indexed(ask: seq<string>, askOf: map<string, nat>) {
    && (forall j :: 0 <= j < |ask| ==> ask[j] in askOf && askOf[ask[j]] == j)
    && (forall t :: t in askOf ==> askOf[t] < |ask| && ask[askOf[t]] == t)
  }

  ghost predicate Unique(ask: seq<string>) {
    forall i, j :: 0 <= i < j < |ask| ==> ask[i] != ask[j]
  }

  /** The cache, if there is one, is faithful. */
  ghost predicate Shared(cache: NERCache?, scope: string, labels: seq<string>, model: Model)
    reads cache
  {
    cache != null ==> cache.Valid() && Faithful(scope, labels, model, cache.St())
  }

  /** So is what other callers do before each step. */
  ghost predicate OthersFaithful(scope: string, labels: seq<string>, model: Model, others: nat -> seq<Op>) {
    forall i :: FaithfulOps(scope, labels, model, others(i))
  }

  /** One look into the cache, after other callers had their turn. */
  method LookUp(cache: NERCache, scope: string, labels: seq<string>, ghost model: Model, now: int, line: string, before: seq<Op>)
    returns (hit: bool, spans: seq<Span>)
    requires Shared(cache, scope, labels, model) && FaithfulOps(scope, labels, model, before)
    modifies cache
    ensures Shared(cache, scope, labels, model)
    ensures var st := Seen(old(cache.St()), cache.ttl, cache.max, before);
            hit == Hits(st, now, KeyInput(scope, line)) && cache.St() == AfterGet(st, now, KeyInput(scope, line))
    ensures hit ==> Served(labels, model, true, line, spans)
  {
    hide Faithful, AfterGet, FaithfulEntry, KeyInput, Seen;
    Interfere(cache, before, scope, labels, model);
    ApplyKeepsFaithful(scope, labels, model, cache.St(), cache.ttl, cache.max, Get(now, KeyInput(scope, line)));
    FaithfulAnswer(scope, labels, model, cache.St(), now, line);
    var r := cache.Get(now, KeyInput(scope, line));
    match r
    case Miss => return false, [];
    case Hit(cached) =>
      spans := FromCached(cached);
      hit := true;
      assert spans == Restricted(model[line], labels);
  }

  /** Storing what the model found. */
  method Store(cache: NERCache, scope: string, labels: seq<string>, ghost model: Model, now: int, line: string, spans: seq<Span>, before: seq<Op>)
    requires Shared(cache, scope, labels, model) && FaithfulOps(scope, labels, model, before)
    requires NUL !in scope && line in model && spans == model[line]
    modifies cache
    ensures Shared(cache, scope, labels, model)
    ensures cache.St() == AfterPut(Seen(old(cache.St()), cache.ttl, cache.max, before), cache.max,
                                   KeyInput(scope, line), Entry(now + cache.ttl, Stored(Restricted(spans, labels))))
  {
    hide Faithful, AfterPut, FaithfulEntry, KeyInput, Seen;
    Interfere(cache, before, scope, labels, model);
    LineIsFaithful(scope, labels, model, line);
    var cached := ToCached(spans, labels);
    ApplyKeepsFaithful(scope, labels, model, cache.St(), cache.ttl, cache.max, Put(now, KeyInput(scope, line), cached));
    cache.Put(now, KeyInput(scope, line), cached);
  }

  /** Lookup i, if there is a cache. */
  method LookUpNext(cache: NERCache?, job: Job, ghost model: Model, clock: nat -> int, others: nat -> seq<Op>, i: nat, ghost st: State)
    returns (hit: bool, spans: seq<Span>)
    requires Shared(cache, job.scope, job.labels, model) && OthersFaithful(job.scope, job.labels, model, others) && i < |job.texts|
    requires cache != null ==> cache.St() == Looked(st, cache.ttl, cache.max, job, clock, others, i)
    modifies cache
    ensures Shared(cache, job.scope, job.labels, model)
    ensures cache == null ==> !hit
    ensures cache != null ==> cache.St() == Looked(st, cache.ttl, cache.max, job, clock, others, i + 1)
    ensures cache != null ==> hit == HitAt(st, cache.ttl, cache.max, job, clock, others, i)
    ensures hit ==> Served(job.labels, model, true, job.texts[i], spans)
  {
    hide Shared, Served, Seen, AfterGet, OthersFaithful, Hits, KeyInput;
    hit, spans := false, [];
    if cache != null {
      FaithfulAt(job, model, others, i);
      hit, spans := LookUp(cache, job.scope, job.labels, model, clock(i), job.texts[i], others(i));
    }
  }

  /** Exactly the hits wait for nothing. */
  ghost predicate TellsHits(cached: bool, st: State, ttl: int, max: nat, job: Job, clock: nat -> int, others: nat -> seq<Op>, pending: seq<int>)
    requires |pending| <= |job.texts|
  {
    forall k :: 0 <= k < |pending| ==> (pending[k] < 0 <==> cached && HitAt(st, ttl, max, job, clock, others, k))
  }

  lemma TellsMore(cached: bool, st: State, ttl: int, max: nat, job: Job, clock: nat -> int, others: nat -> seq<Op>, pending: seq<int>, p: int)
    requires |pending| < |job.texts| && TellsHits(cached, st, ttl, max, job, clock, others, pending)
    requires p < 0 <==> cached && HitAt(st, ttl, max, job, clock, others, |pending|)
    ensures TellsHits(cached, st, ttl, max, job, clock, others, pending + [p])
  {
    hide HitAt;
  }

  /** The first loop of spansFor: hits are served, every distinct text that missed is asked for. */
  method Consult(cache: NERCache?, job: Job, ghost model: Model, clock: nat -> int, others: nat -> seq<Op>, ghost st: State)
    returns (out: seq<seq<Span>>, ask: seq<string>, pending: seq<int>)
    requires Shared(cache, job.scope, job.labels, model) && OthersFaithful(job.scope, job.labels, model, others)
    requires cache != null ==> st == cache.St()
    modifies cache
    ensures Shared(cache, job.scope, job.labels, model)
    ensures AllPlaced(job, model, |job.texts|, out, ask, pending) && Unique(ask) && |pending| == |job.texts|
    ensures cache == null ==> TellsHits(false, st, 0, 0, job, clock, others, pending)
    ensures cache != null ==>
              && cache.St() == Looked(st, cache.ttl, cache.max, job, clock, others, |job.texts|)
              && TellsHits(true, st, cache.ttl, cache.max, job, clock, others, pending)
  {
    out, ask, pending := [], [], [];
    var askOf: map<string, nat> := map[];
    ghost var ttl, max := if cache != null then cache.ttl else 0, if cache != null then cache.max else 0;
    NothingLookedUp(cache != null, st, ttl, max, job, model, clock, others);
    for i := 0 to |job.texts|
      invariant Shared(cache, job.scope, job.labels, model)
      invariant |pending| == i && AllPlaced(job, model, i, out, ask, pending) && Indexed(ask, askOf)
      invariant TellsHits(cache != null, st, ttl, max, job, clock, others, pending)
      invariant cache != null ==> cache.St() == Looked(st, ttl, max, job, clock, others, i)
    {
      hide Shared, AllPlaced, Indexed, Looked, HitAt, TellsHits, Served, OthersFaithful;
      var t := job.texts[i];
      var hit, spans := LookUpNext(cache, job, model, clock, others, i, st);
      if hit {
        PlaceHit(job, model, i, out, ask, pending, spans);
        TellsMore(cache != null, st, ttl, max, job, clock, others, pending, -1);
        out, pending := out + [spans], pending + [-1];
        continue;
      }
      PlaceMiss(job, model, i, out, ask, askOf, pending, spans);
      if t !in askOf {
        askOf := askOf[t := |ask|];
        ask := ask + [t];
      }
      TellsMore(cache != null, st, ttl, max, job, clock, others, pending, askOf[t]);
      out, pending := out + [spans], pending + [askOf[t]];
    }
    hide Shared, AllPlaced, Looked, HitAt, TellsHits;
  }

  lemma NothingLookedUp(cached: bool, st: State, ttl: int, max: nat, job: Job, model: Model, clock: nat -> int, others: nat -> seq<Op>)
    ensures AllPlaced(job, model, 0, [], [], []) && Indexed([], map[]) && TellsHits(cached, st, ttl, max, job, clock, others, [])
    ensures Looked(st, ttl, max, job, clock, others, 0) == st
  {
  }

  lemma PlaceHit(job: Job, model: Model, i: nat, out: seq<seq<Span>>, ask: seq<string>, pending: seq<int>, spans: seq<Span>)
    requires i < |job.texts| && AllPlaced(job, model, i, out, ask, pending) && Served(job.labels, model, true, job.texts[i], spans)
    ensures |pending| == i && AllPlaced(job, model, i + 1, out + [spans], ask, pending + [-1])
  {
    hide Served;
  }

  lemma PlaceMiss(job: Job, model: Model, i: nat, out: seq<seq<Span>>, ask: seq<string>, askOf: map<string, nat>, pending: seq<int>, spans: seq<Span>)
    requires i < |job.texts| && AllPlaced(job, model, i, out, ask, pending) && Indexed(ask, askOf)
    ensures |pending| == i
    ensures var t := job.texts[i];
            if t in askOf then AllPlaced(job, model, i + 1, out + [spans], ask, pending + [askOf[t]])
            else AllPlaced(job, model, i + 1, out + [spans], ask + [t], pending + [|ask|]) && Indexed(ask + [t], askOf[t := |ask|])
  {
    hide Served;
    var t := job.texts[i];
    if t !in askOf {
      var p := pending + [|ask|];
      assert p[i] == |ask| && forall j :: j in pending ==> j in p;
    } else {
      assert forall j :: j in pending ==> j in pending + [askOf[t]];
    }
  }

  lemma HandedNext(st: State, ttl: int, max: nat, job: Job, model: Model, clock: nat -> int, others: nat -> seq<Op>, hits: seq<bool>, i: nat)
    requires i < |job.texts| == |hits|
    ensures var before, after := Handed(st, ttl, max, job, model, clock, others, hits, i), Handed(st, ttl, max, job, model, clock, others, hits, i + 1);
            && (hits[i] ==> after == before)
            && (!hits[i] && job.texts[i] in model ==> after == StoredAfter(before, ttl, max, job, model, clock, others, i))
  {
    hide StoredAfter;
  }

  method StoreAnswer(cache: NERCache, job: Job, ghost model: Model, clock: nat -> int, others: nat -> seq<Op>, i: nat, spans: seq<Span>)
    requires Shared(cache, job.scope, job.labels, model) && OthersFaithful(job.scope, job.labels, model, others) && NUL !in job.scope
    requires i < |job.texts| && job.texts[i] in model && spans == model[job.texts[i]]
    modifies cache
    ensures Shared(cache, job.scope, job.labels, model)
    ensures cache.St() == StoredAfter(old(cache.St()), cache.ttl, cache.max, job, model, clock, others, i)
  {
    hide Shared, OthersFaithful, Seen, AfterPut, Restricted, Stored;
    var k := |job.texts| + i;
    FaithfulAt(job, model, others, k);
    Store(cache, job.scope, job.labels, model, clock(k), job.texts[i], spans, others(k));
  }

  lemma PlacedAt(job: Job, model: Model, i: nat, served: seq<seq<Span>>, ask: seq<string>, pending: seq<int>)
    requires i < |job.texts| && AllPlaced(job, model, |job.texts|, served, ask, pending)
    ensures |served| == |pending| == |job.texts|
    ensures pending[i] < 0 ==> Served(job.labels, model, true, job.texts[i], served[i])
    ensures pending[i] >= 0 ==> pending[i] < |ask| && ask[pending[i]] == job.texts[i]
  {
    hide Served;
    assert Placed(job.labels, model, job.texts[i], served[i], ask, pending[i]);
  }

  lemma FaithfulAt(job: Job, model: Model, others: nat -> seq<Op>, i: nat)
    requires OthersFaithful(job.scope, job.labels, model, others)
    ensures FaithfulOps(job.scope, job.labels, model, others(i))
  {
  }

  /** The first n positions hold what they should, the others what the lookups left. */
  ghost predicate HandedOut(job: Job, model: Model, hits: seq<bool>, served: seq<seq<Span>>, out: seq<seq<Span>>, n: nat)
    requires n <= |job.texts| == |hits|
  {
    && |out| == |served| == |job.texts|
    && (forall k :: 0 <= k < n ==> Served(job.labels, model, hits[k], job.texts[k], out[k]))
    && forall k :: n <= k < |out| ==> out[k] == served[k]
  }

  lemma HandedOutMore(job: Job, model: Model, hits: seq<bool>, served: seq<seq<Span>>, out: seq<seq<Span>>, n: nat, spans: seq<Span>)
    requires n < |job.texts| == |hits| && HandedOut(job, model, hits, served, out, n)
    requires Served(job.labels, model, hits[n], job.texts[n], spans)
    ensures hits[n] && spans == served[n] ==> HandedOut(job, model, hits, served, out, n + 1)
    ensures HandedOut(job, model, hits, served, out[n := spans], n + 1)
  {
    hide Served;
  }

  method HandNext(cache: NERCache?, job: Job, ghost model: Model, clock: nat -> int, others: nat -> seq<Op>, i: nat, spans: seq<Span>, ghost st: State, ghost hits: seq<bool>)
    requires Shared(cache, job.scope, job.labels, model) && OthersFaithful(job.scope, job.labels, model, others) && NUL !in job.scope
    requires i < |job.texts| == |hits| && !hits[i] && job.texts[i] in model && spans == model[job.texts[i]]
    requires cache != null ==> cache.St() == Handed(st, cache.ttl, cache.max, job, model, clock, others, hits, i)
    modifies cache
    ensures Shared(cache, job.scope, job.labels, model)
    ensures cache != null ==> cache.St() == Handed(st, cache.ttl, cache.max, job, model, clock, others, hits, i + 1)
  {
    hide Shared, OthersFaithful, Handed, StoredAfter;
    if cache != null {
      HandedNext(st, cache.ttl, cache.max, job, model, clock, others, hits, i);
      StoreAnswer(cache, job, model, clock, others, i, spans);
    }
  }

  /** The last loop: answers are handed out and stored. */
  method HandOut(cache: NERCache?, job: Job, ghost model: Model, clock: nat -> int, others: nat -> seq<Op>, served: seq<seq<Span>>, ask: seq<string>, pending: seq<int>,
      results: seq<seq<Span>>, ghost hits: seq<bool>, ghost st: State)
    returns (out: seq<seq<Span>>)
    requires Shared(cache, job.scope, job.labels, model) && OthersFaithful(job.scope, job.labels, model, others)
    requires NUL !in job.scope && AllPlaced(job, model, |job.texts|, served, ask, pending) && |results| == |ask|
    requires forall j :: 0 <= j < |ask| ==> ask[j] in model && results[j] == model[ask[j]]
    requires |hits| == |job.texts| && forall k :: 0 <= k < |hits| ==> (hits[k] <==> pending[k] < 0)
    requires cache != null ==> st == cache.St()
    modifies cache
    ensures Shared(cache, job.scope, job.labels, model) && HandedOut(job, model, hits, served, out, |job.texts|)
    ensures cache != null ==> cache.St() == Handed(st, cache.ttl, cache.max, job, model, clock, others, hits, |job.texts|)
  {
    out := served;
    PlacedLength(job, model, served, ask, pending);
    for i := 0 to |job.texts|
      invariant Shared(cache, job.scope, job.labels, model) && HandedOut(job, model, hits, served, out, i)
      invariant cache != null ==> cache.St() == Handed(st, cache.ttl, cache.max, job, model, clock, others, hits, i)
    {
      hide Shared, AllPlaced, OthersFaithful, Handed, HandedOut, StoredAfter;
      PlacedAt(job, model, i, served, ask, pending);
      if pending[i] < 0 {
        HandedOutMore(job, model, hits, served, out, i, served[i]);
        if cache != null {
          HandedNext(st, cache.ttl, cache.max, job, model, clock, others, hits, i);
        }
        continue;
      }
      var spans := results[pending[i]];
      HandedOutMore(job, model, hits, served, out, i, spans);
      OutLength(job, model, hits, served, out, i);
      out := out[i := spans];
      HandNext(cache, job, model, clock, others, i, spans, st, hits);
    }
  }

  lemma OutLength(job: Job, model: Model, hits: seq<bool>, served: seq<seq<Span>>, out: seq<seq<Span>>, n: nat)
    requires n <= |job.texts| == |hits| && HandedOut(job, model, hits, served, out, n)
    ensures |out| == |job.texts|
  {
  }

  /** The service fails on some batch of what it is asked. */
  ghost predicate ServiceFails(service: Service, batchSize: nat, asked: seq<string>, error: Error) {
    exists k: nat :: IsBatch(|asked|, batchSize, k) && DetectBatch(service, Batch(asked, batchSize, k)) == Failed(error)
  }

  /** asked holds each text that missed, once. */
  ghost predicate AsksMissing(texts: seq<string>, hits: seq<bool>, asked: seq<string>)
    requires |hits| == |texts|
  {
    Unique(asked) && forall t :: t in asked <==> exists k :: 0 <= k < |texts| && texts[k] == t && !hits[k]
  }

  lemma PlacedAsks(job: Job, model: Model, out: seq<seq<Span>>, ask: seq<string>, pending: seq<int>, hits: seq<bool>)
    requires AllPlaced(job, model, |job.texts|, out, ask, pending) && Unique(ask)
    requires |hits| == |job.texts| && forall k :: 0 <= k < |hits| ==> (hits[k] <==> pending[k] < 0)
    ensures AsksMissing(job.texts, hits, ask)
    ensures ask == [] ==> forall k :: 0 <= k < |hits| ==> hits[k] && Served(job.labels, model, true, job.texts[k], out[k])
  {
    hide Served;
    forall k | 0 <= k < |hits|
      ensures !hits[k] ==> job.texts[k] in ask
    {
      assert Placed(job.labels, model, job.texts[k], out[k], ask, pending[k]);
    }
    forall t | t in ask
      ensures exists k :: 0 <= k < |job.texts| && job.texts[k] == t && !hits[k]
    {
      var j :| 0 <= j < |ask| && ask[j] == t;
      assert j in pending;
      var k :| 0 <= k < |pending| && pending[k] == j;
      assert Placed(job.labels, model, job.texts[k], out[k], ask, pending[k]);
    }
  }

  lemma {:induction false} NothingHanded(st: State, ttl: int, max: nat, job: Job, model: Model, clock: nat -> int, others: nat -> seq<Op>, hits: seq<bool>, n: nat)
    requires n <= |job.texts| == |hits| && forall k :: 0 <= k < n ==> hits[k]
    ensures Handed(st, ttl, max, job, model, clock, others, hits, n) == st
  {
    if n > 0 {
      NothingHanded(st, ttl, max, job, model, clock, others, hits, n - 1);
    }
  }

  lemma NothingAsked(service: Service, texts: seq<string>, batchSize: nat)
    requires |texts| == 0
    ensures Answers(service, texts, batchSize)
  {
  }

  /** spansFor, with other callers at work on the cache before each of its steps.  The texts are
      looked up in order; a hit brings the model's spans of the labels asked for, each distinct
      text that missed is asked once and brings all of the model's spans, which are then stored;
      when the service fails nothing is. */
  method SpansFor(cache: NERCache?, service: Service, ghost model: Model, labels: seq<string>, threshold: string, batchSize: nat,
      texts: seq<string>, clock: nat -> int, others: nat -> seq<Op>)
    returns (r: Result<seq<seq<Span>>>, ghost asked: seq<string>, ghost hits: seq<bool>)
    requires batchSize > 0 && Honest(service, model) && NUL !in Scope(labels, threshold)
    requires OthersFaithful(Scope(labels, threshold), labels, model, others) && Shared(cache, Scope(labels, threshold), labels, model)
    modifies cache
    ensures Shared(cache, Scope(labels, threshold), labels, model)
    ensures |hits| == |texts| && AsksMissing(texts, hits, asked)
    ensures r.Ok? ==> |r.value| == |texts| && forall k :: 0 <= k < |texts| ==> Served(labels, model, hits[k], texts[k], r.value[k])
    ensures r.Ok? <==> Answers(service, asked, batchSize)
    ensures r.Failed? ==> ServiceFails(service, batchSize, asked, r.error)
    ensures cache == null ==> forall k :: 0 <= k < |texts| ==> !hits[k]
    ensures cache != null ==>
              var job := Job(Scope(labels, threshold), labels, texts);
              var st := Looked(old(cache.St()), cache.ttl, cache.max, job, clock, others, |texts|);
              && (forall k :: 0 <= k < |texts| ==> (hits[k] <==> HitAt(old(cache.St()), cache.ttl, cache.max, job, clock, others, k)))
              && cache.St() == if r.Ok? then Handed(st, cache.ttl, cache.max, job, model, clock, others, hits, |texts|) else st
  {
    hide Shared, Served, Scope, Honest, AllPlaced, AsksMissing, Seen, Answers;
    var job := Job(Scope(labels, threshold), labels, texts);
    ghost var st := if cache == null then EMPTY else cache.St();
    var served, ask, pending := Consult(cache, job, model, clock, others, st);
    asked := ask;
    PlacedLength(job, model, served, ask, pending);
    hits := seq(|texts|, k requires 0 <= k < |texts| => pending[k] < 0);
    PlacedAsks(job, model, served, ask, pending, hits);
    if |ask| == 0 {
      NothingAsked(service, ask, batchSize);
      if cache != null {
        NothingHanded(cache.St(), cache.ttl, cache.max, job, model, clock, others, hits, |texts|);
      }
      return Ok(served), asked, hits;
    }
    var results := Detect(service, ask, batchSize);
    if results.Failed? {
      return Failed(results.error), asked, hits;
    }
    forall j | 0 <= j < |ask|
      ensures ask[j] in model && results.value[j] == model[ask[j]]
    {
      CompleteIsModel(service, model, ask, batchSize, results.value, j);
    }
    ghost var looked := if cache == null then EMPTY else cache.St();
    var out := HandOut(cache, job, model, clock, others, served, ask, pending, results.value, hits, looked);
    return Ok(out), asked, hits;
  }

  lemma PlacedLength(job: Job, model: Model, out: seq<seq<Span>>, ask: seq<string>, pending: seq<int>)
    requires AllPlaced(job, model, |job.texts|, out, ask, pending)
    ensures |out| == |pending| == |job.texts|
  {
  }
}
