/** Choosing a pseudonym: a name of the entity type's pool, Prefix-N once the pool is used up, or a
    token <PREFIX_N>. */
module Pseudonyms {
  import opened Unicode
  import opened Tokens
  import opened Numbered

  // ---- Pools ----

  /** strings.ToUpper of the first letter of the lower-cased name. */
  function TitleCase(u: Tables, s: string): string {
    var lowered := Fold(u, s);
    if s == [] then s else Upper(u, lowered[..1]) + lowered[1..]
  }

  const SYNTHETIC_PREFIX: map<string, string> :=
    map["PERSON" := "Person", "ORGANIZATION" := "Organization", "LOCATION" := "Location"]

  function SyntheticFrame(u: Tables, typ: string): (f: Frame)
    ensures f.Good()
  {
    Frame((if typ in SYNTHETIC_PREFIX then SYNTHETIC_PREFIX[typ] else TitleCase(u, typ)) + "-", "")
  }

  ghost predicate IsSynthetic(u: Tables, typ: string, used: set<string>, reserved: string, p: string) {
    exists n: nat :: FirstFree(u, used, reserved, SyntheticFrame(u, typ), 1, n) && p == SyntheticFrame(u, typ).Render(n)
  }

  /** p is the first free name of the list. */
  ghost predicate IsFirstOf(u: Tables, names: seq<string>, used: set<string>, reserved: string, p: string) {
    exists k :: 0 <= k < |names| && names[k] == p && Free(u, used, reserved, names[k]) && NoneFree(u, names, k, used, reserved)
  }

  /** None of the first n names is free. */
  ghost predicate NoneFree(u: Tables, names: seq<string>, n: nat, used: set<string>, reserved: string)
    requires n <= |names|
  {
    forall k :: 0 <= k < n ==> !Free(u, used, reserved, names[k])
  }

  /** The first free name, or a synthetic one when every name is used or reserved. */
  ghost predicate FromPool(u: Tables, names: seq<string>, typ: string, used: set<string>, reserved: string, p: string) {
    || IsFirstOf(u, names, used, reserved, p)
    || (NoneFree(u, names, |names|, used, reserved) && IsSynthetic(u, typ, used, reserved, p))
  }

  type Pools = map<string, seq<string>>

  function PoolOf(pools: Pools, typ: string): seq<string> {
    if typ in pools then pools[typ] else []
  }

  method SyntheticFallback(u: Tables, typ: string, used: set<string>, reserved: string) returns (p: string)
    requires Lawful(u)
    ensures IsSynthetic(u, typ, used, reserved, p)
    ensures exists n: nat :: n <= |used| + |reserved| + 1 && p == SyntheticFrame(u, typ).Render(n)
  {
    hide SyntheticFrame, FirstFree;
    var n := Search(u, used, reserved, SyntheticFrame(u, typ), 1);
    p := SyntheticFrame(u, typ).Render(n);
  }

  method AssignFromPool(u: Tables, pools: Pools, typ: string, used: set<string>, reserved: string) returns (p: string)
    requires Lawful(u)
    ensures FromPool(u, PoolOf(pools, typ), typ, used, reserved, p)
  {
    hide Free, IsSynthetic;
    var pool := PoolOf(pools, typ);
    for i := 0 to |pool|
      invariant NoneFree(u, pool, i, used, reserved)
    {
      if Free(u, used, reserved, pool[i]) {
        return pool[i];
      }
    }
    p := SyntheticFallback(u, typ, used, reserved);
  }

  /** The pool in the order of probing from a slot. */
  function ProbeOrder(pool: seq<string>, start: nat): (r: seq<string>)
    requires start < |pool|
    ensures |r| == |pool|
  {
    pool[start..] + pool[..start]
  }

  lemma ProbeOrderAt(pool: seq<string>, start: nat, i: nat)
    requires start < |pool| && i < |pool|
    ensures ProbeOrder(pool, start)[i] == pool[ProbedSlot(|pool|, start, i)]
  {
    Wrapped(|pool|, start, i);
  }

  /** The slot probe i looks at. */
  function ProbedSlot(size: nat, start: nat, i: nat): (k: nat)
    requires size > 0
    ensures k < size
  {
    (start + i) % size
  }

  /** Every slot is probed, and no slot twice. */
  lemma ProbesEachSlotOnce(size: nat, start: nat, k: nat)
    requires start < size && k < size
    ensures exists i: nat :: i < size && ProbedSlot(size, start, i) == k
    ensures forall i: nat, j: nat :: i < size && j < size && ProbedSlot(size, start, i) == k == ProbedSlot(size, start, j) ==> i == j
  {
    forall i: nat | i < size
      ensures ProbedSlot(size, start, i) == if start + i < size then start + i else start + i - size
    {
      Wrapped(size, start, i);
    }
    hide ProbedSlot;
    var i: nat := if k >= start then k - start else k - start + size;
    assert ProbedSlot(size, start, i) == k;
  }

  lemma Wrapped(size: nat, start: nat, i: nat)
    requires start < size && i < size
    ensures (start + i) % size == if start + i < size then start + i else start + i - size
  {
    if start + i >= size {
      var d := start + i - size;
      assert (d + size) % size == d % size;
    }
  }

  /** hmacIndex: a keyed digest of the value, reduced to a slot. */
  function HmacIndex(hmac: string -> nat, value: string, size: nat): (k: nat)
    requires size > 0
    ensures k < size
  {
    hmac(value) % size
  }

  function StartSlot(u: Tables, hmac: string -> nat, name: string, size: nat): (k: nat)
    requires size > 0
    ensures k < size
  {
    HmacIndex(hmac, Fold(u, Trim(u, name)), size)
  }

  /** The order in which the pool is probed for a real name. */
  function KeyedOrder(u: Tables, hmac: string -> nat, pool: seq<string>, name: string): seq<string> {
    if pool == [] then [] else ProbeOrder(pool, StartSlot(u, hmac, name, |pool|))
  }

  method AssignDeterministic(u: Tables, hmac: string -> nat, pools: Pools, typ: string, name: string, used: set<string>, reserved: string) returns (p: string)
    requires Lawful(u)
    ensures FromPool(u, KeyedOrder(u, hmac, PoolOf(pools, typ), name), typ, used, reserved, p)
  {
    hide Free, IsSynthetic, StartSlot;
    var pool := PoolOf(pools, typ);
    if |pool| == 0 {
      p := SyntheticFallback(u, typ, used, reserved);
      return;
    }
    var start := StartSlot(u, hmac, name, |pool|);
    ghost var order := ProbeOrder(pool, start);
    for i := 0 to |pool|
      invariant NoneFree(u, order, i, used, reserved)
    {
      ProbeOrderAt(pool, start, i);
      hide ProbeOrder;
      var candidate := pool[(start + i) % |pool|];
      if Free(u, used, reserved, candidate) {
        assert order[i] == candidate;
        return candidate;
      }
    }
    p := SyntheticFallback(u, typ, used, reserved);
  }

  // ---- Tokens ----

  function UnderscoreOr(c: char): char {
    if IsAsciiUpper(c) || IsAsciiDigit(c) then c else '_'
  }

  function MapUnderscore(s: string): (r: string)
    ensures |r| == |s| && forall i :: 0 <= i < |s| ==> r[i] == UnderscoreOr(s[i])
  {
    seq(|s|, i requires 0 <= i < |s| => UnderscoreOr(s[i]))
  }

  /** strings.Trim(s, "_"). */
  function TrimUnderscores(s: string): (r: string)
    ensures r != [] ==> r[0] != '_' && r[|r| - 1] != '_'
    ensures forall c :: c in r ==> c in s
  {
    if s != [] && s[0] == '_' then TrimUnderscores(s[1..])
    else if s != [] && s[|s| - 1] == '_' then TrimUnderscores(s[..|s| - 1])
    else s
  }

  function TokenPrefix(u: Tables, typ: string): string {
    var up := TrimUnderscores(MapUnderscore(Upper(u, Trim(u, typ))));
    if up == [] then "PII" else up
  }

  /** Whatever the type is called, its prefix is one a token can have. */
  lemma TokenPrefixIsPrefix(u: Tables, typ: string)
    ensures var r := TokenPrefix(u, typ); IsTokenPrefix(r) && r[0] != '_' && r[|r| - 1] != '_'
  {
    var up := MapUnderscore(Upper(u, Trim(u, typ)));
    hide Upper, Trim, MapUnderscore;
    if TrimUnderscores(up) != [] {
      TrimmedIsPrefix(up);
    }
  }

  lemma TrimmedIsPrefix(up: string)
    requires (forall i :: 0 <= i < |up| ==> UnderscoreOr(up[i]) == up[i]) && TrimUnderscores(up) != []
    ensures IsTokenPrefix(TrimUnderscores(up))
  {
    var r := TrimUnderscores(up);
    forall i | 0 <= i < |r|
      ensures IsTokenChar(r[i])
    {
      assert r[i] in r;
    }
  }

  function TokenFrame(prefix: string): (f: Frame)
    ensures f.Good()
  {
    Frame("<" + prefix + "_", ">")
  }

  lemma TokenFrameRenders(prefix: string, n: nat)
    ensures TokenFrame(prefix).Render(n) == Token(prefix, n)
  {
  }

  /** The index of a token of this prefix, as far as Atoi reads it; 0 for any other string. */
  function TokenIndex(prefix: string, v: string): (n: nat)
    ensures n <= MAX_INT
  {
    if IsToken(v) && ParseToken(v).prefix == prefix then
      ParsedToken(v);
      var n := Value(ParseToken(v).digits);
      if n <= MAX_INT then n else 0
    else 0
  }

  ghost predicate IsMaxIndex(prefix: string, values: set<string>, m: nat) {
    && (forall v :: v in values ==> TokenIndex(prefix, v) <= m)
    && (m == 0 || exists v :: v in values && TokenIndex(prefix, v) == m)
  }

  /** p is the first token of the type, above every index in use, that the reserved text lacks. */
  ghost predicate IsNextToken(u: Tables, prefix: string, values: set<string>, reserved: string, n: nat) {
    exists m: nat :: IsMaxIndex(prefix, values, m) && FirstFree(u, {}, reserved, TokenFrame(prefix), m + 1, n)
  }

  method NextToken(u: Tables, typ: string, values: set<string>, reserved: string) returns (p: string, ghost n: nat, ghost max: nat)
    requires Lawful(u)
    ensures exists k: nat :: IsNextToken(u, TokenPrefix(u, typ), values, reserved, k) && p == Token(TokenPrefix(u, typ), k)
    ensures p == Token(TokenPrefix(u, typ), n) && IsNextToken(u, TokenPrefix(u, typ), values, reserved, n)
    ensures IsMaxIndex(TokenPrefix(u, typ), values, max) && max < n <= max + 1 + |reserved|
  {
    var prefix := TokenPrefix(u, typ);
    var maxN := 0;
    var todo := values;
    while todo != {}
      invariant todo <= values && IsMaxIndex(prefix, values - todo, maxN)
      decreases |todo|
    {
      hide TokenIndex;
      var v :| v in todo;
      if TokenIndex(prefix, v) > maxN {
        maxN := TokenIndex(prefix, v);
      }
      todo := todo - {v};
    }
    assert values - todo == values;
    hide IsMaxIndex, FirstFree, TokenFrame;
    var k := Search(u, {}, reserved, TokenFrame(prefix), maxN + 1);
    TokenFrameRenders(prefix, k);
    n, max := k, maxN;
    FirstFreeFrom(u, {}, reserved, TokenFrame(prefix), maxN + 1, k);
    return Token(prefix, k), n, max;
  }

  lemma FirstFreeFrom(u: Tables, used: set<string>, reserved: string, f: Frame, lo: nat, n: nat)
    requires FirstFree(u, used, reserved, f, lo, n)
    ensures lo <= n && Free(u, used, reserved, f.Render(n))
  {
  }

  /** A next token is none of the session's pseudonyms and is not written in the reserved text, as
      long as its index is one Atoi reads. */
  lemma NextTokenIsFree(u: Tables, prefix: string, values: set<string>, reserved: string, n: nat)
    requires IsTokenPrefix(prefix) && IsNextToken(u, prefix, values, reserved, n) && n <= MAX_INT
    ensures Free(u, values, reserved, Token(prefix, n))
  {
    TokenFrameRenders(prefix, n);
    TokenParses(prefix, n);
    ValueOfDec(n);
    assert TokenIndex(prefix, Token(prefix, n)) == n;
  }

  // ---- Strategies ----

  const POOL := "pool"

  const TOKEN := "token"

  const NOMINAL_TYPES: set<string> := {"PERSON", "ORGANIZATION", "LOCATION"}

  /** keyed: pool assignment starts at a keyed digest of the real name. */
  datatype Strategizer = Strategizer(pools: Pools, byEntity: map<string, string>, def: string, keyed: bool)

  function StrategyFor(s: Strategizer, typ: string): string {
    if typ in s.byEntity then s.byEntity[typ] else if typ in NOMINAL_TYPES then POOL else s.def
  }

  /** p is the pseudonym for a new entity. */
  ghost predicate Picks(u: Tables, hmac: string -> nat, s: Strategizer, typ: string, name: string, values: set<string>, reserved: string, p: string) {
    if StrategyFor(s, typ) == TOKEN then
      exists n: nat :: IsNextToken(u, TokenPrefix(u, typ), values, reserved, n) && p == Token(TokenPrefix(u, typ), n)
    else if s.keyed then FromPool(u, KeyedOrder(u, hmac, PoolOf(s.pools, typ), name), typ, values, reserved, p)
    else FromPool(u, PoolOf(s.pools, typ), typ, values, reserved, p)
  }

  method Assign(u: Tables, hmac: string -> nat, s: Strategizer, typ: string, name: string, scratch: map<string, string>, reserved: string) returns (p: string)
    requires Lawful(u)
    ensures Picks(u, hmac, s, typ, name, scratch.Values, reserved, p)
  {
    hide IsNextToken, FromPool, TokenPrefix;
    if StrategyFor(s, typ) == TOKEN {
      ghost var n, max;
      p, n, max := NextToken(u, typ, scratch.Values, reserved);
      return;
    }
    var used := scratch.Values;
    if s.keyed {
      p := AssignDeterministic(u, hmac, s.pools, typ, name, used, reserved);
    } else {
      p := AssignFromPool(u, s.pools, typ, used, reserved);
    }
  }

  /** If p is a token, its index is one Atoi reads. */
  predicate IndexFits(p: string) {
    IsToken(p) ==> (ParsedToken(p); Value(ParseToken(p).digits) <= MAX_INT)
  }

  /** A pseudonym is none of the session's and is not written in the reserved text. */
  lemma PickIsFree(u: Tables, hmac: string -> nat, s: Strategizer, typ: string, name: string, values: set<string>, reserved: string, p: string)
    requires Picks(u, hmac, s, typ, name, values, reserved, p) && IndexFits(p)
    ensures Free(u, values, reserved, p)
  {
    hide IsNextToken, Free, TokenPrefix, Token, KeyedOrder;
    if StrategyFor(s, typ) == TOKEN {
      var prefix := TokenPrefix(u, typ);
      var n: nat :| IsNextToken(u, prefix, values, reserved, n) && p == Token(prefix, n);
      TokenPrefixIsPrefix(u, typ);
      TokenParses(prefix, n);
      ValueOfDec(n);
      NextTokenIsFree(u, prefix, values, reserved, n);
    }
  }

  /** With a secret, a real name gets the same pool name in every session where its slot's name is
      free, however it is cased and spaced. */
  lemma StableAcrossSessions(u: Tables, hmac: string -> nat, s: Strategizer, typ: string, name: string, again: string,
      values: set<string>, reserved: string, p: string, values2: set<string>, reserved2: string, q: string)
    requires s.keyed && StrategyFor(s, typ) != TOKEN && PoolOf(s.pools, typ) != []
    requires Fold(u, Trim(u, name)) == Fold(u, Trim(u, again))
    requires Picks(u, hmac, s, typ, name, values, reserved, p) && Picks(u, hmac, s, typ, again, values2, reserved2, q)
    requires var slot := StartSlot(u, hmac, name, |PoolOf(s.pools, typ)|);
             Free(u, values, reserved, PoolOf(s.pools, typ)[slot]) && Free(u, values2, reserved2, PoolOf(s.pools, typ)[slot])
    ensures p == q == PoolOf(s.pools, typ)[StartSlot(u, hmac, name, |PoolOf(s.pools, typ)|)]
  {
    var pool := PoolOf(s.pools, typ);
    var order := KeyedOrder(u, hmac, pool, name);
    assert order == KeyedOrder(u, hmac, pool, again);
    assert order[0] == pool[StartSlot(u, hmac, name, |pool|)];
    hide Free, KeyedOrder, IsSynthetic;
    FirstIsTaken(u, order, typ, values, reserved, p);
    FirstIsTaken(u, order, typ, values2, reserved2, q);
  }

  lemma FirstIsTaken(u: Tables, names: seq<string>, typ: string, used: set<string>, reserved: string, p: string)
    requires FromPool(u, names, typ, used, reserved, p) && names != [] && Free(u, used, reserved, names[0])
    ensures p == names[0]
  {
    hide Free, IsSynthetic;
    var k :| 0 <= k < |names| && names[k] == p && Free(u, used, reserved, names[k]) && NoneFree(u, names, k, used, reserved);
  }
}
