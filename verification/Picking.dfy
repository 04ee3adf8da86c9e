/** Which pseudonym a new name gets, by the characters of its type, the pools, the pseudonyms in use and the
    reserved text. */
module Picking {
  import opened Unicode
  import opened Tokens
  import opened Numbered
  import opened Pseudonyms

  // ---- Free candidates ----

  predicate HoldsAt(text: string, s: string, i: nat) {
    i + |s| <= |text| && forall j :: 0 <= j < |s| ==> text[i + j] == s[j]
  }

  /** v is not in use, and the reserved text does not hold it in lower case. */
  ghost predicate IsFree(u: Tables, used: set<string>, reserved: string, v: string) {
    v !in used && (reserved == [] || forall i: nat :: !HoldsAt(reserved, Fold(u, v), i))
  }

  lemma FreeIs(u: Tables, used: set<string>, reserved: string, v: string)
    ensures Free(u, used, reserved, v) <==> IsFree(u, used, reserved, v)
  {
    var f := Fold(u, v);
    forall i: nat
      ensures OccursAt(reserved, f, i) <==> HoldsAt(reserved, f, i)
    {
      OccursIs(reserved, f, i);
    }
    hide Fold, HoldsAt, OccursAt;
    assert forall i: nat :: HoldsAt(reserved, f, i) ==> i <= |reserved| by {
      HoldsInside(reserved, f);
    }
  }

  lemma HoldsInside(text: string, s: string)
    ensures forall i: nat :: HoldsAt(text, s, i) ==> i <= |text|
  {
  }

  lemma OccursIs(hay: string, s: string, i: nat)
    ensures OccursAt(hay, s, i) <==> HoldsAt(hay, s, i)
  {
    if i + |s| <= |hay| {
      var t := hay[i..i + |s|];
      assert forall j :: 0 <= j < |s| ==> t[j] == hay[i + j];
      assert t == s <==> forall j :: 0 <= j < |s| ==> t[j] == s[j];
    }
  }

  // ---- Strategies ----

  /** The override decides, then the nominal types, then the default. */
  predicate UsesTokens(s: Strategizer, typ: string) {
    if typ in s.byEntity then s.byEntity[typ] == "token"
    else if typ == "PERSON" || typ == "ORGANIZATION" || typ == "LOCATION" then false
    else s.def == "token"
  }

  lemma StrategyIs(s: Strategizer, typ: string)
    ensures StrategyFor(s, typ) == "token" <==> UsesTokens(s, typ)
  {
  }

  // ---- Tokens ----

  predicate IsPlainMark(c: char) {
    'A' <= c <= 'Z' || '0' <= c <= '9'
  }

  /** typ[a..b] is what lies between the whitespace at both ends. */
  ghost predicate TrimsTo(u: Tables, typ: string, a: nat, b: nat) {
    && a <= b <= |typ| && (forall i :: 0 <= i < a || b <= i < |typ| ==> u.IsSpace(typ[i]))
    && (a < b ==> !u.IsSpace(typ[a]) && !u.IsSpace(typ[b - 1]))
  }

  /** r is the prefix of the type's tokens: the trimmed type in upper case, underscores for all that is no
      capital or digit, and none of them at the ends; PII if nothing is left. */
  ghost predicate PrefixOf(u: Tables, typ: string, r: string, a: nat, b: nat, c: nat, d: nat) {
    && TrimsTo(u, typ, a, b) && a <= c <= d <= b
    && (forall i :: a <= i < c || d <= i < b ==> !IsPlainMark(u.Upper(typ[i])))
    && (c < d ==> IsPlainMark(u.Upper(typ[c])) && IsPlainMark(u.Upper(typ[d - 1])))
    && if c == d then r == "PII"
       else |r| == d - c && forall i :: 0 <= i < |r| ==> r[i] == if IsPlainMark(u.Upper(typ[c + i])) then u.Upper(typ[c + i]) else '_'
  }

  lemma TrimSpan(u: Tables, s: string) returns (a: nat, b: nat)
    ensures TrimsTo(u, s, a, b) && Trim(u, s) == s[a..b]
  {
    hide *;
    var l, t := TrimParts(u, s);
    a := |s| - |l|;
    b := a + |t|;
    SpanOf(u, s, a, l, t);
  }

  lemma TrimParts(u: Tables, s: string) returns (l: string, t: string)
    ensures t == Trim(u, s) && |l| <= |s| && l == s[|s| - |l|..] && |t| <= |l| && t == l[..|t|]
    ensures (forall i :: 0 <= i < |s| - |l| ==> u.IsSpace(s[i])) && (forall i :: |t| <= i < |l| ==> u.IsSpace(l[i]))
    ensures (l == [] || !u.IsSpace(l[0])) && (t == [] || !u.IsSpace(t[|t| - 1]))
  {
    l := TrimLeft(u, s);
    t := TrimRight(u, l);
  }

  /** What is left between a beginning and an end of whitespace. */
  lemma SpanOf(u: Tables, s: string, a: nat, l: string, t: string)
    requires a <= |s| && l == s[a..] && |t| <= |l| && t == l[..|t|]
    requires (forall i :: 0 <= i < a ==> u.IsSpace(s[i])) && (forall i :: |t| <= i < |l| ==> u.IsSpace(l[i]))
    requires (l == [] || !u.IsSpace(l[0])) && (t == [] || !u.IsSpace(t[|t| - 1]))
    ensures TrimsTo(u, s, a, a + |t|) && t == s[a..a + |t|]
  {
    var b := a + |t|;
    forall i | b <= i < |s|
      ensures u.IsSpace(s[i])
    {
      assert s[i] == l[i - a];
    }
    if a < b {
      assert s[a] == l[0] && s[b - 1] == t[|t| - 1];
    }
  }

  lemma {:induction false} UnderscoresOff(s: string) returns (c: nat, d: nat)
    ensures Inner(s, c, d) && TrimUnderscores(s) == s[c..d]
    decreases |s|
  {
    if s != [] && s[0] == '_' {
      var x, y := UnderscoresOff(s[1..]);
      c, d := x + 1, y + 1;
      hide TrimUnderscores;
      FirstOff(s, x, y);
    } else if s != [] && s[|s| - 1] == '_' {
      c, d := UnderscoresOff(s[..|s| - 1]);
      hide TrimUnderscores;
      LastOff(s, c, d);
    } else {
      c, d := 0, |s|;
      assert s[0..|s|] == s;
    }
  }

  /** s[c..d] is what is left of s without the underscores at its ends. */
  ghost predicate Inner(s: string, c: nat, d: nat) {
    && c <= d <= |s| && (forall i :: 0 <= i < c || d <= i < |s| ==> s[i] == '_')
    && (c < d ==> s[c] != '_' && s[d - 1] != '_')
  }

  lemma FirstOff(s: string, x: nat, y: nat)
    requires s != [] && s[0] == '_' && Inner(s[1..], x, y)
    ensures Inner(s, x + 1, y + 1) && s[1..][x..y] == s[x + 1..y + 1]
  {
    var t := s[1..];
    forall i | 0 <= i < x + 1 || y + 1 <= i < |s|
      ensures s[i] == '_'
    {
      assert i > 0 ==> s[i] == t[i - 1];
    }
  }

  lemma LastOff(s: string, c: nat, d: nat)
    requires s != [] && s[|s| - 1] == '_' && Inner(s[..|s| - 1], c, d)
    ensures Inner(s, c, d) && s[..|s| - 1][c..d] == s[c..d]
  {
    var t := s[..|s| - 1];
    forall i | 0 <= i < c || d <= i < |s|
      ensures s[i] == '_'
    {
      assert i < |s| - 1 ==> s[i] == t[i];
    }
  }

  /** The type in upper case, with underscores. */
  ghost predicate IsMarked(u: Tables, typ: string, a: nat, b: nat, up: string) {
    a <= b <= |typ| && |up| == b - a && forall i :: 0 <= i < |up| ==> up[i] == if IsPlainMark(u.Upper(typ[a + i])) then u.Upper(typ[a + i]) else '_'
  }

  lemma MarkedType(u: Tables, typ: string, a: nat, b: nat) returns (up: string)
    requires a <= b <= |typ| && Trim(u, typ) == typ[a..b]
    ensures IsMarked(u, typ, a, b, up)
    ensures TokenPrefix(u, typ) == if TrimUnderscores(up) == [] then "PII" else TrimUnderscores(up)
  {
    var t := Trim(u, typ);
    hide Trim, TrimUnderscores;
    up := MapUnderscore(Upper(u, t));
    assert forall i :: 0 <= i < |t| ==> t[i] == typ[a + i];
  }

  lemma PrefixFrom(u: Tables, typ: string, a: nat, b: nat, up: string, x: nat, y: nat, r: string)
    requires TrimsTo(u, typ, a, b) && IsMarked(u, typ, a, b, up) && Inner(up, x, y)
    requires r == if x == y then "PII" else up[x..y]
    ensures PrefixOf(u, typ, r, a, b, a + x, a + y)
  {
    forall i | a <= i < a + x || a + y <= i < b
      ensures !IsPlainMark(u.Upper(typ[i]))
    {
      assert up[i - a] == '_';
    }
  }

  /** The prefix is that of the type. */
  lemma PrefixIs(u: Tables, typ: string) returns (a: nat, b: nat, c: nat, d: nat)
    ensures PrefixOf(u, typ, TokenPrefix(u, typ), a, b, c, d)
  {
    hide *;
    a, b := TrimSpan(u, typ);
    TrimsInside(u, typ, a, b);
    var up := MarkedType(u, typ, a, b);
    var x, y := UnderscoresOff(up);
    InnerInside(up, x, y);
    SliceEmpty(up, x, y);
    PrefixFrom(u, typ, a, b, up, x, y, TokenPrefix(u, typ));
    c, d := a + x, a + y;
  }

  lemma InnerInside(s: string, c: nat, d: nat)
    requires Inner(s, c, d)
    ensures c <= d <= |s|
  {
  }

  lemma TrimsInside(u: Tables, typ: string, a: nat, b: nat)
    requires TrimsTo(u, typ, a, b)
    ensures a <= b <= |typ|
  {
  }

  lemma SliceEmpty(s: string, x: nat, y: nat)
    requires x <= y <= |s|
    ensures s[x..y] == [] <==> x == y
  {
  }

  /** A type of capitals, digits and underscores that neither starts nor ends in one is its own prefix. */
  lemma PlainPrefix(u: Tables, typ: string)
    requires Lawful(u) && typ != [] && typ[0] != '_' && typ[|typ| - 1] != '_'
    requires forall i :: 0 <= i < |typ| ==> (IsPlainMark(typ[i]) || typ[i] == '_') && u.Upper(typ[i]) == typ[i]
    ensures TokenPrefix(u, typ) == typ
  {
    var a, b, c, d := PrefixIs(u, typ);
    hide TokenPrefix;
    forall i | 0 <= i < |typ|
      ensures !u.IsSpace(typ[i])
    {
      assert LawfulAt(u, typ[i]);
    }
    var first, last := typ[0], typ[|typ| - 1];
  }

  // ---- Picks ----

  /** <r_d>. */
  function TokenText(r: string, d: string): string { "<" + r + "_" + d + ">" }

  /** m is the greatest index of a token with this prefix in use, as far as 64 bits read it; 0 if there is
      none. */
  ghost predicate GreatestIndex(r: string, values: set<string>, m: nat) {
    && (forall d: string {:trigger TokenText(r, d)} :: d != [] && AllDigits(d) && TokenText(r, d) in values && Value(d) <= MAX_INT ==> Value(d) <= m)
    && (m == 0 || exists d: string {:trigger TokenText(r, d)} :: d != [] && AllDigits(d) && TokenText(r, d) in values && Value(d) <= MAX_INT && Value(d) == m)
  }

  /** p is the token behind that index, past the ones the reserved text holds. */
  ghost predicate TokenPicked(u: Tables, values: set<string>, reserved: string, p: string, r: string, m: nat, n: nat) {
    && GreatestIndex(r, values, m) && m < n && p == TokenText(r, Dec(n)) && IsFree(u, {}, reserved, p)
    && forall k: nat :: m < k < n ==> !IsFree(u, {}, reserved, TokenText(r, Dec(k)))
  }

  /** The i-th name of the pool, counted from start and around. */
  function Around(pool: seq<string>, start: nat, i: nat): string
    requires pool != []
  {
    pool[(start + i) % |pool|]
  }

  /** p is the first free name of the pool, counted so. */
  ghost predicate NamePicked(u: Tables, pool: seq<string>, start: nat, values: set<string>, reserved: string, p: string, j: nat) {
    && j < |pool| && p == Around(pool, start, j) && IsFree(u, values, reserved, p)
    && forall i: nat :: i < j ==> !IsFree(u, values, reserved, Around(pool, start, i))
  }

  ghost predicate NoneLeft(u: Tables, pool: seq<string>, values: set<string>, reserved: string) {
    forall v :: v in pool ==> !IsFree(u, values, reserved, v)
  }

  /** What stands before the number of a synthetic name: Person, Organization, Location, or the type with
      one capital. */
  ghost predicate HeadOf(u: Tables, typ: string, h: string) {
    if typ == "PERSON" then h == "Person"
    else if typ == "ORGANIZATION" then h == "Organization"
    else if typ == "LOCATION" then h == "Location"
    else |h| == |typ| && forall i :: 0 <= i < |h| ==> h[i] == if i == 0 then u.Upper(u.Lower(typ[i])) else u.Lower(typ[i])
  }

  function NumberedName(h: string, n: nat): string { h + "-" + Dec(n) }

  ghost predicate NumberPicked(u: Tables, typ: string, values: set<string>, reserved: string, p: string, h: string, n: nat) {
    && HeadOf(u, typ, h) && n >= 1 && p == NumberedName(h, n) && IsFree(u, values, reserved, p)
    && forall k: nat :: 1 <= k < n ==> !IsFree(u, values, reserved, NumberedName(h, k))
  }

  /** Where the pool is entered: with a secret, at the keyed digest of the trimmed, lower-cased name. */
  function Entry(u: Tables, hmac: string -> nat, keyed: bool, name: string, size: nat): (k: nat)
    requires size > 0
    ensures k < size
  {
    if keyed then hmac(Fold(u, Trim(u, name))) % size else 0
  }

  ghost predicate FromPoolPicked(u: Tables, hmac: string -> nat, keyed: bool, name: string, pool: seq<string>, values: set<string>, reserved: string, p: string) {
    pool != [] && exists j: nat :: NamePicked(u, pool, Entry(u, hmac, keyed, name, |pool|), values, reserved, p, j)
  }

  /** p is what a new name of the type gets: a token, a pool name, or a numbered one when no name of the
      pool is left. */
  ghost predicate Picked(u: Tables, hmac: string -> nat, s: Strategizer, typ: string, name: string, values: set<string>, reserved: string, p: string) {
    var pool := if typ in s.pools then s.pools[typ] else [];
    if UsesTokens(s, typ) then
      exists r, a: nat, b: nat, c: nat, d: nat, m: nat, n: nat :: PrefixOf(u, typ, r, a, b, c, d) && TokenPicked(u, values, reserved, p, r, m, n)
    else
      || FromPoolPicked(u, hmac, s.keyed, name, pool, values, reserved, p)
      || (NoneLeft(u, pool, values, reserved) && exists h, n: nat :: NumberPicked(u, typ, values, reserved, p, h, n))
  }

  // ---- What Assign picks ----

  lemma IndexOfText(r: string, d: string)
    requires IsTokenPrefix(r) && d != [] && AllDigits(d) && Value(d) <= MAX_INT
    ensures TokenIndex(r, TokenText(r, d)) == Value(d)
  {
    TokenLayout(r, d);
    LaidOutParses(TokenText(r, d), |r| + 2);
  }

  lemma TextOfIndex(r: string, v: string) returns (d: string)
    requires TokenIndex(r, v) > 0
    ensures d != [] && AllDigits(d) && v == TokenText(r, d) && Value(d) <= MAX_INT && Value(d) == TokenIndex(r, v)
  {
    ParsedToken(v);
    d := ParseToken(v).digits;
  }

  lemma MaxIsGreatest(r: string, values: set<string>, m: nat)
    requires IsTokenPrefix(r) && IsMaxIndex(r, values, m)
    ensures GreatestIndex(r, values, m)
  {
    hide TokenIndex, IsTokenPrefix, TokenText;
    forall d: string | d != [] && AllDigits(d) && TokenText(r, d) in values && Value(d) <= MAX_INT
      ensures Value(d) <= m
    {
      IndexOfText(r, d);
    }
    if m > 0 {
      var v :| v in values && TokenIndex(r, v) == m;
      var d := TextOfIndex(r, v);
    }
  }

  lemma FrameText(r: string, n: nat)
    ensures TokenFrame(r).Render(n) == TokenText(r, Dec(n))
  {
    assert "<" + r + "_" + Dec(n) + ">" == ("<" + r + "_") + Dec(n) + ">";
  }

  lemma NextIsPicked(u: Tables, values: set<string>, reserved: string, r: string, n: nat) returns (m: nat)
    requires IsTokenPrefix(r) && IsNextToken(u, r, values, reserved, n)
    ensures TokenPicked(u, values, reserved, Token(r, n), r, m, n)
  {
    hide IsMaxIndex, TokenFrame, GreatestIndex, IsTokenPrefix, Free, IsFree, TokenText, Token;
    m :| IsMaxIndex(r, values, m) && FirstFree(u, {}, reserved, TokenFrame(r), m + 1, n);
    MaxIsGreatest(r, values, m);
    TokenFrameRenders(r, n);
    FrameText(r, n);
    FreeIs(u, {}, reserved, TokenText(r, Dec(n)));
    forall k: nat | m < k < n
      ensures !IsFree(u, {}, reserved, TokenText(r, Dec(k)))
    {
      FrameText(r, k);
      FreeIs(u, {}, reserved, TokenText(r, Dec(k)));
    }
  }

  lemma HeadIs(u: Tables, typ: string) returns (h: string)
    ensures HeadOf(u, typ, h) && SyntheticFrame(u, typ).head == h + "-" && SyntheticFrame(u, typ).tail == ""
  {
    if typ in SYNTHETIC_PREFIX {
      h := SYNTHETIC_PREFIX[typ];
    } else {
      h := TitleCase(u, typ);
    }
  }

  lemma NumberText(u: Tables, typ: string, h: string, n: nat)
    requires SyntheticFrame(u, typ).head == h + "-" && SyntheticFrame(u, typ).tail == ""
    ensures SyntheticFrame(u, typ).Render(n) == NumberedName(h, n)
  {
    hide SyntheticFrame;
    assert (h + "-") + Dec(n) + "" == h + "-" + Dec(n);
  }

  lemma SyntheticIsPicked(u: Tables, typ: string, values: set<string>, reserved: string, p: string) returns (h: string, n: nat)
    requires IsSynthetic(u, typ, values, reserved, p)
    ensures NumberPicked(u, typ, values, reserved, p, h, n)
  {
    hide SyntheticFrame, HeadOf, Free, IsFree, NumberedName;
    h := HeadIs(u, typ);
    n :| FirstFree(u, values, reserved, SyntheticFrame(u, typ), 1, n) && p == SyntheticFrame(u, typ).Render(n);
    NumberText(u, typ, h, n);
    FreeIs(u, values, reserved, p);
    forall k: nat | 1 <= k < n
      ensures !IsFree(u, values, reserved, NumberedName(h, k))
    {
      NumberText(u, typ, h, k);
      FreeIs(u, values, reserved, NumberedName(h, k));
    }
  }

  /** order lists the pool from start on and around. */
  ghost predicate Lists(pool: seq<string>, start: nat, order: seq<string>) {
    |order| == |pool| && forall i: nat :: i < |order| ==> order[i] == Around(pool, start, i)
  }

  lemma OrderLists(u: Tables, hmac: string -> nat, pool: seq<string>, keyed: bool, name: string)
    requires pool != []
    ensures Lists(pool, Entry(u, hmac, keyed, name, |pool|), if keyed then KeyedOrder(u, hmac, pool, name) else pool)
  {
    hide Trim, Fold;
    var start := Entry(u, hmac, keyed, name, |pool|);
    forall i: nat | i < |pool|
      ensures (if keyed then KeyedOrder(u, hmac, pool, name) else pool)[i] == Around(pool, start, i)
    {
      if keyed {
        ProbeOrderAt(pool, start, i);
      }
    }
  }

  lemma AllListed(pool: seq<string>, start: nat, order: seq<string>, v: string)
    requires pool != [] && start < |pool| && Lists(pool, start, order) && v in pool
    ensures v in order
  {
    var k :| 0 <= k < |pool| && pool[k] == v;
    ProbesEachSlotOnce(|pool|, start, k);
    var i: nat :| i < |pool| && ProbedSlot(|pool|, start, i) == k;
    assert order[i] == Around(pool, start, i);
  }

  lemma FirstIsPicked(u: Tables, pool: seq<string>, start: nat, order: seq<string>, values: set<string>, reserved: string, p: string) returns (j: nat)
    requires pool != [] && Lists(pool, start, order) && IsFirstOf(u, order, values, reserved, p)
    ensures NamePicked(u, pool, start, values, reserved, p, j)
  {
    hide Free, IsFree, Around;
    j :| 0 <= j < |order| && order[j] == p && Free(u, values, reserved, order[j]) && NoneFree(u, order, j, values, reserved);
    FreeIs(u, values, reserved, p);
    forall i: nat | i < j
      ensures !IsFree(u, values, reserved, Around(pool, start, i))
    {
      FreeIs(u, values, reserved, order[i]);
    }
  }

  lemma NoneIsLeft(u: Tables, pool: seq<string>, start: nat, order: seq<string>, values: set<string>, reserved: string)
    requires pool != [] ==> start < |pool| && Lists(pool, start, order)
    requires NoneFree(u, order, |order|, values, reserved)
    ensures NoneLeft(u, pool, values, reserved)
  {
    hide Free, IsFree, Lists;
    forall v | v in pool
      ensures !IsFree(u, values, reserved, v)
    {
      AllListed(pool, start, order, v);
      var i :| 0 <= i < |order| && order[i] == v;
      FreeIs(u, values, reserved, order[i]);
    }
  }

  lemma PoolPicked(u: Tables, hmac: string -> nat, s: Strategizer, typ: string, name: string, values: set<string>, reserved: string, p: string)
    requires !UsesTokens(s, typ) && Picks(u, hmac, s, typ, name, values, reserved, p)
    ensures Picked(u, hmac, s, typ, name, values, reserved, p)
  {
    StrategyIs(s, typ);
    var pool := PoolOf(s.pools, typ);
    var order := if s.keyed then KeyedOrder(u, hmac, pool, name) else pool;
    hide StrategyFor, UsesTokens, KeyedOrder, Free, IsFree, IsNextToken, TokenPrefix, Entry, Lists, NoneFree, IsSynthetic, NumberPicked, NamePicked, NoneLeft;
    assert FromPool(u, order, typ, values, reserved, p);
    var start := 0;
    if pool != [] {
      OrderLists(u, hmac, pool, s.keyed, name);
      start := Entry(u, hmac, s.keyed, name, |pool|);
    }
    if IsFirstOf(u, order, values, reserved, p) {
      NotEmptyOrder(u, hmac, pool, name, order, s.keyed, values, reserved, p);
      var j := FirstIsPicked(u, pool, start, order, values, reserved, p);
      ByName(u, hmac, s, typ, name, values, reserved, p, pool, j);
    } else {
      NoneIsLeft(u, pool, start, order, values, reserved);
      var h, n := SyntheticIsPicked(u, typ, values, reserved, p);
    }
  }

  lemma ByName(u: Tables, hmac: string -> nat, s: Strategizer, typ: string, name: string, values: set<string>, reserved: string, p: string, pool: seq<string>, j: nat)
    requires !UsesTokens(s, typ) && pool == PoolOf(s.pools, typ) && pool != []
    requires NamePicked(u, pool, Entry(u, hmac, s.keyed, name, |pool|), values, reserved, p, j)
    ensures Picked(u, hmac, s, typ, name, values, reserved, p)
  {
    hide UsesTokens, NamePicked;
    assert FromPoolPicked(u, hmac, s.keyed, name, pool, values, reserved, p);
  }

  lemma NotEmptyOrder(u: Tables, hmac: string -> nat, pool: seq<string>, name: string, order: seq<string>, keyed: bool, values: set<string>, reserved: string, p: string)
    requires order == (if keyed then KeyedOrder(u, hmac, pool, name) else pool) && IsFirstOf(u, order, values, reserved, p)
    ensures pool != []
  {
    hide Free, NoneFree;
  }

  /** What is picked is what the type, the pools, the pseudonyms in use and the reserved text say. */
  lemma PicksArePicked(u: Tables, hmac: string -> nat, s: Strategizer, typ: string, name: string, values: set<string>, reserved: string, p: string)
    requires Picks(u, hmac, s, typ, name, values, reserved, p)
    ensures Picked(u, hmac, s, typ, name, values, reserved, p)
  {
    StrategyIs(s, typ);
    if UsesTokens(s, typ) {
      hide StrategyFor, TokenPrefix, IsNextToken, Token, PrefixOf, TokenPicked;
      var r := TokenPrefix(u, typ);
      var n: nat :| IsNextToken(u, r, values, reserved, n) && p == Token(r, n);
      TokenPrefixIsPrefix(u, typ);
      var a, b, c, d := PrefixIs(u, typ);
      var m := NextIsPicked(u, values, reserved, r, n);
    } else {
      PoolPicked(u, hmac, s, typ, name, values, reserved, p);
    }
  }

  /** A type of capitals, digits and underscores gets tokens of its own name. */
  lemma PlainTypeToken(u: Tables, hmac: string -> nat, s: Strategizer, typ: string, name: string, values: set<string>, reserved: string, p: string)
    requires Lawful(u) && UsesTokens(s, typ) && typ != [] && typ[0] != '_' && typ[|typ| - 1] != '_'
    requires forall i :: 0 <= i < |typ| ==> (IsPlainMark(typ[i]) || typ[i] == '_') && u.Upper(typ[i]) == typ[i]
    requires Picks(u, hmac, s, typ, name, values, reserved, p)
    ensures exists m: nat, n: nat :: TokenPicked(u, values, reserved, p, typ, m, n)
  {
    StrategyIs(s, typ);
    PlainPrefix(u, typ);
    hide StrategyFor, TokenPrefix, IsNextToken, TokenPicked, UsesTokens;
    var n: nat :| IsNextToken(u, TokenPrefix(u, typ), values, reserved, n) && p == Token(TokenPrefix(u, typ), n);
    TokenPrefixIsPrefix(u, typ);
    var m := NextIsPicked(u, values, reserved, typ, n);
  }
}
