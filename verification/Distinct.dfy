/** Pseudonyms never collide when the words of the pool names are all different. */
module Distinct {
  import opened Unicode
  import opened Tokens
  import opened Mappings
  import opened Numbered
  import opened Pseudonyms
  import opened Components
  import opened Assignments
  import opened Covering

  // ---- Premise on the pools ----

  ghost predicate PoolName(pools: Pools, p: string) {
    exists typ :: typ in pools && p in pools[typ]
  }

  predicate WordAt(u: Tables, p: string, i: nat, w: string) {
    i < |Fields(u, p)| && Fields(u, p)[i] == w
  }

  /** The form of a synthetic name, or of a token. */
  predicate NumberForm(s: string) {
    IsToken(s) || EndsNumbered(s)
  }

  /** s ends in a hyphen and digits. */
  predicate EndsNumbered(s: string) {
    var d := TrailingDigits(s, |s|);
    0 < d < |s| && s[|s| - d - 1] == '-'
  }

  /** A name of one word is that word; no word stands twice in the pools, and none looks numbered. */
  ghost predicate CleanPools(u: Tables, pools: Pools) {
    && (forall p :: PoolName(pools, p) ==> |Fields(u, p)| != 1 || Fields(u, p)[0] == p)
    && (forall p, q, i: nat, j: nat, w {:trigger WordAt(u, p, i, w), WordAt(u, q, j, w), PoolName(pools, p), PoolName(pools, q)} ::
          PoolName(pools, p) && PoolName(pools, q) && WordAt(u, p, i, w) && WordAt(u, q, j, w) ==> p == q && i == j)
    && (forall p, i: nat, w {:trigger WordAt(u, p, i, w), PoolName(pools, p)} :: PoolName(pools, p) && WordAt(u, p, i, w) ==> !NumberForm(w))
  }

  // ---- Forms of a pick ----

  lemma RenderEnds(f: Frame, n: nat)
    requires f.Good() && f.tail == ""
    ensures var s, a := f.Render(n), |f.head|;
            s[a - 1] == f.head[a - 1] && |s| == a + |Dec(n)| && TrailingDigits(s, |s|) == |Dec(n)|
  {
    var s, a, d := f.Render(n), |f.head|, Dec(n);
    hide TrailingDigits, IsMark, Dec;
    assert s == f.head + d;
    forall k | a <= k < |s|
      ensures IsAsciiDigit(s[k])
    {
      assert s[k] == d[k - a];
    }
    TrailingDigitsFrom(s, a, |s|);
  }

  lemma SyntheticIsNumbered(u: Tables, typ: string, n: nat)
    ensures NumberForm(SyntheticFrame(u, typ).Render(n))
  {
    RenderEnds(SyntheticFrame(u, typ), n);
    hide IsToken, TrailingDigits, Dec;
  }

  lemma TokenIsNumbered(prefix: string, n: nat)
    requires IsTokenPrefix(prefix)
    ensures NumberForm(Token(prefix, n))
  {
    TokenParses(prefix, n);
  }

  lemma FromPoolForms(u: Tables, pools: Pools, names: seq<string>, typ: string, used: set<string>, reserved: string, p: string)
    requires FromPool(u, names, typ, used, reserved, p) && forall q :: q in names ==> PoolName(pools, q)
    ensures PoolName(pools, p) || exists n: nat :: p == SyntheticFrame(u, typ).Render(n)
  {
    hide Free, FirstFree, NoneFree, SyntheticFrame, PoolName;
    if IsFirstOf(u, names, used, reserved, p) {
      assert p in names;
    }
  }

  lemma KeyedOrderNames(u: Tables, hmac: string -> nat, pools: Pools, typ: string, name: string)
    ensures forall q :: q in KeyedOrder(u, hmac, PoolOf(pools, typ), name) ==> PoolName(pools, q)
    ensures forall q :: q in PoolOf(pools, typ) ==> PoolName(pools, q)
  {
    var pool := PoolOf(pools, typ);
    forall q | q in pool
      ensures PoolName(pools, q)
    {
      assert typ in pools;
    }
    hide PoolName, StartSlot;
    forall q | q in KeyedOrder(u, hmac, pool, name)
      ensures q in pool
    {
    }
  }

  /** A pick is a pool name, or numbered: Prefix-N or <PREFIX_N> of its type. */
  ghost predicate IsNumbered(u: Tables, typ: string, p: string) {
    exists n: nat :: p == SyntheticFrame(u, typ).Render(n) || p == Token(TokenPrefix(u, typ), n)
  }

  lemma PickForms(u: Tables, hmac: string -> nat, s: Strategizer, typ: string, name: string, values: set<string>, reserved: string, p: string)
    requires Picks(u, hmac, s, typ, name, values, reserved, p)
    ensures PoolName(s.pools, p) || IsNumbered(u, typ, p)
  {
    hide IsNextToken, FromPool, PoolName, KeyedOrder, SyntheticFrame, Token, TokenPrefix, PoolOf;
    if StrategyFor(s, typ) != TOKEN {
      KeyedOrderNames(u, hmac, s.pools, typ, name);
      var names := if s.keyed then KeyedOrder(u, hmac, PoolOf(s.pools, typ), name) else PoolOf(s.pools, typ);
      FromPoolForms(u, s.pools, names, typ, values, reserved, p);
    }
  }

  lemma NumberedForm(u: Tables, typ: string, p: string)
    requires IsNumbered(u, typ, p)
    ensures NumberForm(p)
  {
    hide SyntheticFrame, Token, TokenPrefix, NumberForm;
    var n: nat :| p == SyntheticFrame(u, typ).Render(n) || p == Token(TokenPrefix(u, typ), n);
    TokenPrefixIsPrefix(u, typ);
    TokenIsNumbered(TokenPrefix(u, typ), n);
    SyntheticIsNumbered(u, typ, n);
  }

  // ---- A person's numbered name has no components ----

  lemma PlainChar(u: Tables, c: char)
    requires Lawful(u) && (IsTokenChar(c) || IsAsciiLower(c) || c == '<' || c == '>' || c == '-')
    ensures !u.IsSpace(c)
  {
    assert LawfulAt(u, c);
  }

  lemma PersonNumbered(u: Tables, p: string)
    requires Lawful(u) && IsNumbered(u, "PERSON", p)
    ensures IsWord(u, p)
  {
    TokenPrefixIsPrefix(u, "PERSON");
    hide TokenPrefix;
    var prefix := TokenPrefix(u, "PERSON");
    forall i | 0 <= i < |p|
      ensures !u.IsSpace(p[i])
    {
      assert IsTokenChar(p[i]) || IsAsciiLower(p[i]) || p[i] == '<' || p[i] == '>' || p[i] == '-';
      PlainChar(u, p[i]);
    }
  }

  // ---- The invariant ----

  ghost predicate DistinctValues(m: Mapping) {
    forall k, l :: k in m && l in m && m[k] == m[l] ==> k == l
  }

  ghost predicate InUse(m: Mapping, v: string) {
    exists k :: k in m && m[k] == v
  }

  /** What more adds to m has values that are in use neither in m nor twice in more. */
  ghost predicate AddsFresh(m: Mapping, more: Mapping) {
    && (forall k :: k in more && k !in m ==> !InUse(m, more[k]))
    && (forall k, l :: k in more && l in more && k !in m && l !in m && more[k] == more[l] ==> k == l)
  }

  /** What more adds to m has keys that agree, case aside, neither with one of m nor with one another. */
  ghost predicate AddsFreshKeys(u: Tables, m: Mapping, more: Mapping) {
    && (forall k :: k in more && k !in m ==> !HasFoldKey(u, m, k))
    && (forall k, l :: k in more && l in more && k !in m && l !in m && SameFold(u, k, l) ==> k == l)
  }

  /** v is the first or last word of the name p. */
  predicate PartOf(u: Tables, p: string, v: string) {
    var f := Fields(u, p);
    |f| >= 2 && (v == f[0] || v == f[|f| - 1])
  }

  /** A pseudonym is a pool name, numbered, or part of a pool name in use. */
  ghost predicate HasOrigin(u: Tables, pools: Pools, m: Mapping, v: string) {
    PoolName(pools, v) || NumberForm(v) || exists p :: InUse(m, p) && PoolName(pools, p) && PartOf(u, p, v)
  }

  ghost predicate SoundValues(u: Tables, pools: Pools, m: Mapping) {
    DistinctValues(m) && forall k :: k in m ==> HasOrigin(u, pools, m, m[k])
  }

  /** A word of a pool name that is in use is that name, or the name is in use. */
  lemma WordInUse(u: Tables, pools: Pools, m: Mapping, p: string, i: nat, v: string)
    requires CleanPools(u, pools) && PoolName(pools, p) && WordAt(u, p, i, v) && HasOrigin(u, pools, m, v)
    ensures v == p || InUse(m, p)
  {
    hide CleanPools, NumberForm, PoolName, InUse, WordAt, PartOf, Fields;
    WordsOfNames(u, pools, p, i, v);
    if q :| InUse(m, q) && PoolName(pools, q) && PartOf(u, q, v) {
      PartIsWord(u, q, v);
      SameName(u, pools, p, i, q, if WordAt(u, q, 0, v) then 0 else |Fields(u, q)| - 1, v);
    }
  }

  lemma WordsOfNames(u: Tables, pools: Pools, p: string, i: nat, v: string)
    requires CleanPools(u, pools) && PoolName(pools, p) && WordAt(u, p, i, v)
    ensures !NumberForm(v) && (PoolName(pools, v) ==> v == p)
  {
    FieldsAreWords(u, p);
    assert IsWord(u, v);
    WordFields(u, v);
    hide Fields, NumberForm, PoolName, IsWord;
    assert WordAt(u, v, 0, v);
  }

  lemma PartIsWord(u: Tables, q: string, v: string)
    requires PartOf(u, q, v)
    ensures |Fields(u, q)| >= 2 && (WordAt(u, q, 0, v) || WordAt(u, q, |Fields(u, q)| - 1, v))
  {
    hide Fields;
  }

  lemma SameName(u: Tables, pools: Pools, p: string, i: nat, q: string, j: nat, w: string)
    requires CleanPools(u, pools) && PoolName(pools, p) && PoolName(pools, q) && WordAt(u, p, i, w) && WordAt(u, q, j, w)
    ensures p == q
  {
    hide WordAt, PoolName, NumberForm, Fields;
  }

  /** The parts of a name are words of it, two different ones, and not the name. */
  lemma Parts(u: Tables, pools: Pools, p: string, v: string)
    requires CleanPools(u, pools) && PoolName(pools, p) && PartOf(u, p, v)
    ensures v != p && (WordAt(u, p, 0, v) || WordAt(u, p, |Fields(u, p)| - 1, v))
    ensures Fields(u, p)[0] != Fields(u, p)[|Fields(u, p)| - 1]
  {
    FieldsAreWords(u, p);
    hide Fields, NumberForm, PoolName;
    var f := Fields(u, p);
    assert IsWord(u, f[0]) && IsWord(u, f[|f| - 1]);
    hide IsWord;
    WordFields(u, v);
    assert WordAt(u, p, 0, f[0]) && WordAt(u, p, |f| - 1, f[|f| - 1]);
  }

  /** Where a person's new name has components, it comes from the pool. */
  lemma ComponentFromPool(u: Tables, pools: Pools, name: string, p: string, k: string, v: string)
    requires Lawful(u) && (PoolName(pools, p) || IsNumbered(u, "PERSON", p)) && IsComponent(u, name, p, k, v)
    ensures PoolName(pools, p) && PartOf(u, p, v)
  {
    hide Fields, PoolName, IsNumbered, IsPair;
    if !PoolName(pools, p) {
      PersonNumbered(u, p);
      WordFields(u, p);
    }
  }

  lemma NewNameSound(u: Tables, pools: Pools, m: Mapping, k: string, p: string)
    requires SoundValues(u, pools, m) && k !in m && !InUse(m, p) && (PoolName(pools, p) || NumberForm(p))
    ensures SoundValues(u, pools, m[k := p])
  {
    hide PoolName, NumberForm, PartOf;
    var n := m[k := p];
    forall l | l in n
      ensures HasOrigin(u, pools, n, n[l])
    {
      OriginStays(u, pools, m, n, n[l]);
    }
  }

  lemma OriginStays(u: Tables, pools: Pools, m: Mapping, n: Mapping, v: string)
    requires Extends(m, n)
    ensures HasOrigin(u, pools, m, v) ==> HasOrigin(u, pools, n, v)
  {
    hide PoolName, NumberForm, PartOf;
    assert forall p :: InUse(m, p) ==> InUse(n, p);
  }

  /** A new name p has been filed under e's text. */
  ghost predicate NewName(u: Tables, h: Handler, e: Entity, p: string, before: Mapping, m: Mapping) {
    && Lawful(u) && CleanPools(u, h.strat.pools) && e.text !in before && m == before[e.text := p]
    && SoundValues(u, h.strat.pools, before) && SoundValues(u, h.strat.pools, m) && !InUse(before, p)
    && (PoolName(h.strat.pools, p) || IsNumbered(u, e.typ, p))
  }

  /** Its components' values are new, and differ. */
  lemma NewComponent(u: Tables, h: Handler, e: Entity, p: string, before: Mapping, m: Mapping, k: string, v: string)
    requires NewName(u, h, e, p, before, m) && e.typ == "PERSON" && IsComponent(u, e.text, p, k, v)
    ensures !InUse(m, v) && forall l :: IsComponent(u, e.text, p, l, v) ==> k == l
  {
    hide PoolName, NumberForm, CleanPools, IsNumbered, IsComponent, HasOrigin, InUse;
    ComponentIsNew(u, h.strat.pools, e.text, p, before, m, k, v);
    forall l | IsComponent(u, e.text, p, l, v)
      ensures k == l
    {
      SamePartSameName(u, h.strat.pools, e.text, p, k, l, v);
    }
  }

  /** Components of a new name leave the values sound. */
  lemma ComponentsSound(u: Tables, h: Handler, e: Entity, p: string, before: Mapping, m: Mapping, after: Mapping)
    requires NewName(u, h, e, p, before, m) && AddsComponents(u, h, e, p, m, after)
    ensures SoundValues(u, h.strat.pools, after)
  {
    hide PoolName, IsNumbered, IsComponent, CleanPools, Addable, HasOrigin;
    if h.decompose && e.typ == "PERSON" {
      forall k | k in after && k !in m
        ensures !InUse(m, after[k]) && forall l :: IsComponent(u, e.text, p, l, after[k]) ==> k == l
      {
        NewComponent(u, h, e, p, before, m, k, after[k]);
      }
      assert m[e.text] == p && e.text in after && after[e.text] == p && InUse(after, p);
      assert DistinctValues(after) by { StillDistinct(u, h, e, p, m, after); }
      forall k | k in after
        ensures HasOrigin(u, h.strat.pools, after, after[k])
      {
        if k in m {
          OriginStays(u, h.strat.pools, m, after, after[k]);
        } else {
          ComponentHasOrigin(u, h.strat.pools, e.text, p, after, k, after[k]);
        }
      }
    }
  }

  lemma StillDistinct(u: Tables, h: Handler, e: Entity, p: string, m: Mapping, after: Mapping)
    requires DistinctValues(m) && AddsComponents(u, h, e, p, m, after) && h.decompose && e.typ == "PERSON"
    requires forall k :: k in after && k !in m ==> !InUse(m, after[k]) && forall l :: IsComponent(u, e.text, p, l, after[k]) ==> k == l
    ensures DistinctValues(after)
  {
    hide IsComponent, Addable;
  }

  lemma ComponentHasOrigin(u: Tables, pools: Pools, name: string, p: string, after: Mapping, k: string, v: string)
    requires Lawful(u) && (PoolName(pools, p) || IsNumbered(u, "PERSON", p)) && IsComponent(u, name, p, k, v) && InUse(after, p)
    ensures HasOrigin(u, pools, after, v)
  {
    hide PoolName, IsNumbered, PartOf, IsComponent, NumberForm;
    ComponentFromPool(u, pools, name, p, k, v);
  }

  lemma ComponentIsNew(u: Tables, pools: Pools, name: string, p: string, before: Mapping, m: Mapping, k: string, v: string)
    requires Lawful(u) && CleanPools(u, pools) && (PoolName(pools, p) || IsNumbered(u, "PERSON", p)) && IsComponent(u, name, p, k, v)
    requires SoundValues(u, pools, before) && !InUse(before, p)
    requires forall l :: l in m ==> m[l] == p || (l in before && before[l] == m[l])
    ensures !InUse(m, v)
  {
    ComponentFromPool(u, pools, name, p, k, v);
    Parts(u, pools, p, v);
    hide PoolName, IsNumbered, PartOf, IsComponent, CleanPools, HasOrigin, WordAt;
    forall l | l in m
      ensures m[l] != v
    {
      if l in before && before[l] == v {
        WordInUse(u, pools, before, p, if WordAt(u, p, 0, v) then 0 else |Fields(u, p)| - 1, v);
      }
    }
  }

  lemma SamePartSameName(u: Tables, pools: Pools, name: string, p: string, k: string, l: string, v: string)
    requires Lawful(u) && CleanPools(u, pools) && (PoolName(pools, p) || IsNumbered(u, "PERSON", p))
    requires IsComponent(u, name, p, k, v) && IsComponent(u, name, p, l, v)
    ensures k == l
  {
    hide Fields, PoolName, IsNumbered, CleanPools, IsComponentOf, WordAt;
    ComponentFromPool(u, pools, name, p, k, v);
    Parts(u, pools, p, v);
    SamePart(u, Fields(u, name), Fields(u, p), k, l, v);
  }

  lemma SamePart(u: Tables, r: seq<string>, p: seq<string>, k: string, l: string, v: string)
    requires IsComponentOf(u, r, p, k, v) && IsComponentOf(u, r, p, l, v) && p[0] != p[|p| - 1]
    ensures k == l
  {
  }

  // ---- Any pools ----

  /** The stand-ins of the components that may be added are in use neither in m nor twice. */
  ghost predicate FreshComponents(u: Tables, h: Handler, e: Entity, p: string, m: Mapping) {
    && (forall k, v :: IsComponent(u, e.text, p, k, v) && Addable(u, h, m, k) ==> !InUse(m, v))
    && (forall k, l, v :: IsComponent(u, e.text, p, k, v) && IsComponent(u, e.text, p, l, v) && Addable(u, h, m, k) && Addable(u, h, m, l) ==> k == l)
  }

  lemma OwnKeyTaken(u: Tables, h: Handler, m: Mapping, k: string)
    ensures k in m ==> !Addable(u, h, m, k)
  {
    hide Fold;
    assert k in m ==> SameFold(u, k, k);
  }

  /** Whatever the pools, a person's components keep pseudonyms distinct if and only if their
      stand-ins are fresh: nothing else of the step compares them with those in use. */
  lemma ComponentsDistinctIff(u: Tables, h: Handler, e: Entity, p: string, m: Mapping, after: Mapping)
    requires h.decompose && e.typ == "PERSON" && DistinctValues(m) && AddsComponents(u, h, e, p, m, after)
    ensures DistinctValues(after) <==> FreshComponents(u, h, e, p, m)
  {
    hide IsComponent, Addable;
    if FreshComponents(u, h, e, p, m) {
      forall k, l | k in after && l in after && after[k] == after[l]
        ensures k == l
      {
        assert k in m ==> InUse(m, after[k]);
        assert l in m ==> InUse(m, after[l]);
      }
    } else if k, v :| IsComponent(u, e.text, p, k, v) && Addable(u, h, m, k) && InUse(m, v) {
      var l :| l in m && m[l] == v;
      OwnKeyTaken(u, h, m, k);
      assert l in after && k in after && after[l] == after[k] && k != l;
    }
  }

  /** One new entity with pick p, whatever the pools. */
  lemma StepDistinctIff(u: Tables, hmac: string -> nat, h: Handler, e: Entity, reserved: string, before: Mapping, p: string, after: Mapping)
    requires DistinctValues(before) && !HasFoldKey(u, before, e.text) && IndexFits(p)
    requires Picks(u, hmac, h.strat, e.typ, e.text, before.Values, reserved, p) && AddsComponents(u, h, e, p, before[e.text := p], after)
    ensures DistinctValues(after) <==> (h.decompose && e.typ == "PERSON" ==> FreshComponents(u, h, e, p, before[e.text := p]))
  {
    hide Picks, IsComponent, Addable, IndexFits, FreshComponents;
    PickIsFree(u, hmac, h.strat, e.typ, e.text, before.Values, reserved, p);
    var m := before[e.text := p];
    assert e.text in before ==> SameFold(u, e.text, e.text);
    assert DistinctValues(m);
    if h.decompose && e.typ == "PERSON" {
      ComponentsDistinctIff(u, h, e, p, m, after);
    }
  }

  // ---- The step, the request ----

  ghost predicate AllFit(m: Mapping) {
    forall k :: k in m ==> IndexFits(m[k])
  }

  lemma StepKeepsSound(u: Tables, hmac: string -> nat, h: Handler, e: Entity, reserved: string, before: Mapping, after: Mapping)
    requires Lawful(u) && CleanPools(u, h.strat.pools) && SoundValues(u, h.strat.pools, before)
    requires AssignStep(u, hmac, h, e, reserved, before, after) && AllFit(after)
    ensures SoundValues(u, h.strat.pools, after)
  {
    hide Picks, CleanPools, HasOrigin, IsComponent, Addable, IndexFits, IsNumbered, PoolName, NumberForm;
    if !HasFoldKey(u, before, e.text) {
      var p :| Picks(u, hmac, h.strat, e.typ, e.text, before.Values, reserved, p) && AddsComponents(u, h, e, p, before[e.text := p], after);
      var m := before[e.text := p];
      assert m[e.text] == p && after[e.text] == p;
      assert e.text in before ==> SameFold(u, e.text, e.text);
      PickIsFree(u, hmac, h.strat, e.typ, e.text, before.Values, reserved, p);
      PickForms(u, hmac, h.strat, e.typ, e.text, before.Values, reserved, p);
      if !PoolName(h.strat.pools, p) {
        NumberedForm(u, e.typ, p);
      }
      NewNameSound(u, h.strat.pools, before, e.text, p);
      assert NewName(u, h, e, p, before, m);
      ComponentsSound(u, h, e, p, before, m, after);
    }
  }

  lemma {:induction false} AssignedKeepsSound(u: Tables, hmac: string -> nat, h: Handler, byText: ByText, texts: seq<string>, n: nat, reserved: string, before: Mapping, after: Mapping)
    requires Lawful(u) && CleanPools(u, h.strat.pools) && SoundValues(u, h.strat.pools, before)
    requires n <= |texts| && Known(byText, texts) && Assigned(u, hmac, h, byText, texts, n, reserved, before, after) && AllFit(after)
    ensures SoundValues(u, h.strat.pools, after)
    decreases n
  {
    hide AssignStep, SoundValues, CleanPools, IndexFits;
    if n > 0 {
      var mid :| Assigned(u, hmac, h, byText, texts, n - 1, reserved, before, mid) && StepTo(u, hmac, h, byText, texts, n, reserved, mid, after);
      StepCovers(u, hmac, h, byText[texts[n - 1]], reserved, mid, after);
      AssignedKeepsSound(u, hmac, h, byText, texts, n - 1, reserved, before, mid);
      StepKeepsSound(u, hmac, h, byText[texts[n - 1]], reserved, mid, after);
    }
  }

  /** An assignment keeps all pseudonyms, components included, pairwise distinct. */
  lemma AssignmentKeepsSound(u: Tables, hmac: string -> nat, h: Handler, ds: seq<Entity>, reserved: string, before: Mapping, after: Mapping)
    requires Lawful(u) && CleanPools(u, h.strat.pools) && SoundValues(u, h.strat.pools, before)
    requires Assigns(u, hmac, h, ds, reserved, before, after) && AllFit(after)
    ensures SoundValues(u, h.strat.pools, after)
  {
    hide Assigned, Deduped, SoundValues, CleanPools, AllFit;
    var byText, texts :| IsAssignment(u, hmac, h, ds, reserved, before, after, byText, texts);
    AssignedKeepsSound(u, hmac, h, byText, texts, |texts|, reserved, before, after);
  }
}
