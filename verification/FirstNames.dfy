/** The first word of a pool name stands for the first word of the name the pool name stands for. */
module FirstNames {
  import opened Unicode
  import opened Mappings
  import opened Pseudonyms
  import opened Components
  import opened Assignments
  import opened Covering
  import opened Distinct
  import opened Sessions

  /** l is the first of several words of k. */
  predicate FirstWordOf(u: Tables, k: string, l: string) {
    k != [] && !u.IsSpace(k[0]) && |Fields(u, k)| >= 2 && l == Fields(u, k)[0]
  }

  /** p is a pool name of several words, and v the first of them. */
  ghost predicate FirstOfName(u: Tables, pools: Pools, p: string, v: string) {
    PoolName(pools, p) && |Fields(u, p)| >= 2 && v == Fields(u, p)[0]
  }

  /** Where a pool name and its first word are in use, the word stands for the first word of the name
      the pool name stands for. */
  ghost predicate FirstsFiled(u: Tables, pools: Pools, m: Mapping) {
    forall k, l :: k in m && l in m && FirstOfName(u, pools, m[k], m[l]) ==> FirstWordOf(u, k, l)
  }

  /** Such a word is a proper beginning. */
  lemma FirstWordBegins(u: Tables, k: string, l: string)
    requires FirstWordOf(u, k, l)
    ensures l < k
  {
    FieldsStep(u, k);
    var n := WordLen(u, k);
    assert TrimLeft(u, k) == k && n > 0;
    FieldsStep(u, k[n..]);
    hide Fields, TrimLeft, WordLen;
    assert Fields(u, k)[0] == k[..n];
  }

  // ---- One entity ----

  /** A new name p, filed under a text that starts with no space, and what was there before. */
  ghost predicate NewHere(u: Tables, pools: Pools, typ: string, text: string, p: string, before: Mapping) {
    && Lawful(u) && CleanPools(u, pools) && SoundValues(u, pools, before) && FirstsFiled(u, pools, before)
    && text !in before && text != [] && !u.IsSpace(text[0]) && !InUse(before, p) && (PoolName(pools, p) || IsNumbered(u, typ, p))
  }

  /** No word of the new name is in use, unless the name is new for good. */
  lemma OldIsNoPart(u: Tables, pools: Pools, typ: string, text: string, p: string, before: Mapping, l: string)
    requires NewHere(u, pools, typ, text, p, before) && l in before
    ensures !FirstOfName(u, pools, p, before[l])
  {
    hide CleanPools, HasOrigin, IsNumbered, FirstsFiled, Fields, PoolName;
    if FirstOfName(u, pools, p, before[l]) {
      assert WordAt(u, p, 0, before[l]) && InUse(before, before[l]);
      WordInUse(u, pools, before, p, 0, before[l]);
    }
  }

  lemma NameIsNoPart(u: Tables, pools: Pools, typ: string, p: string, q: string)
    requires Lawful(u) && CleanPools(u, pools) && (PoolName(pools, p) || IsNumbered(u, typ, p))
    ensures FirstOfName(u, pools, q, p) ==> p == q
  {
    hide CleanPools, IsNumbered, Fields, PoolName, NumberForm;
    if FirstOfName(u, pools, q, p) {
      assert WordAt(u, q, 0, p);
      WordsOfNames(u, pools, q, 0, p);
      if !PoolName(pools, p) {
        NumberedForm(u, typ, p);
      }
    }
  }

  lemma PartsOnlyOf(u: Tables, pools: Pools, p: string, q: string, v: string)
    requires CleanPools(u, pools) && PoolName(pools, p) && PartOf(u, p, v)
    ensures FirstOfName(u, pools, q, v) ==> q == p && v == Fields(u, p)[0]
    ensures !FirstOfName(u, pools, v, q) && v != p
    ensures Fields(u, p)[0] != Fields(u, p)[|Fields(u, p)| - 1]
  {
    Parts(u, pools, p, v);
    PartIsOneWord(u, p, v);
    hide CleanPools, Fields, PoolName;
    if FirstOfName(u, pools, q, v) {
      assert WordAt(u, q, 0, v);
      SameName(u, pools, p, if WordAt(u, p, 0, v) then 0 else |Fields(u, p)| - 1, q, 0, v);
    }
  }

  lemma PartIsOneWord(u: Tables, p: string, v: string)
    requires PartOf(u, p, v)
    ensures Fields(u, v) == [v]
  {
    FieldsAreWords(u, p);
    hide Fields;
    WordFields(u, v);
  }

  /** A component whose value is the first word of its pool name is the first word of the text. */
  lemma ComponentIsFirst(u: Tables, pools: Pools, text: string, p: string, l: string, v: string)
    requires Lawful(u) && CleanPools(u, pools) && text != [] && !u.IsSpace(text[0]) && PoolName(pools, p) && PartOf(u, p, v) && IsComponent(u, text, p, l, v)
    ensures |Fields(u, p)| >= 2 && (v == Fields(u, p)[0] ==> FirstWordOf(u, text, l))
  {
    hide *;
    PartsOnlyOf(u, pools, p, p, v);
    FieldsOfComponent(u, text, p, l, v);
    FirstPart(u, Fields(u, text), Fields(u, p), l, v);
    if v == Fields(u, p)[0] {
      IsFirstWord(u, text, l);
    }
  }

  lemma FieldsOfComponent(u: Tables, text: string, p: string, l: string, v: string)
    requires IsComponent(u, text, p, l, v)
    ensures IsComponentOf(u, Fields(u, text), Fields(u, p), l, v) && |Fields(u, text)| >= 2 && |Fields(u, p)| >= 2
  {
  }

  lemma FirstPart(u: Tables, r: seq<string>, p: seq<string>, l: string, v: string)
    requires IsComponentOf(u, r, p, l, v) && |p| >= 2 && |r| >= 2 && p[0] != p[|p| - 1]
    ensures v == p[0] ==> l == r[0]
  {
  }

  lemma IsFirstWord(u: Tables, text: string, l: string)
    requires text != [] && !u.IsSpace(text[0]) && |Fields(u, text)| >= 2 && l == Fields(u, text)[0]
    ensures FirstWordOf(u, text, l)
  {
  }

  lemma NameFiled(u: Tables, pools: Pools, typ: string, text: string, p: string, before: Mapping)
    requires NewHere(u, pools, typ, text, p, before)
    ensures FirstsFiled(u, pools, before[text := p])
  {
    var m := before[text := p];
    hide CleanPools, HasOrigin, IsNumbered, Fields, PoolName, FirstOfName, FirstWordOf;
    forall k, l | k in m && l in m && FirstOfName(u, pools, m[k], m[l])
      ensures FirstWordOf(u, k, l)
    {
      NameIsNoPart(u, pools, typ, p, m[k]);
      if k == text && l in before && l != text {
        OldIsNoPart(u, pools, typ, text, p, before, l);
      }
      if k == text && l == text {
        NotItsOwnFirst(u, pools, p);
      }
    }
  }

  lemma NotItsOwnFirst(u: Tables, pools: Pools, p: string)
    ensures !FirstOfName(u, pools, p, p)
  {
    if FirstOfName(u, pools, p, p) {
      FieldsAreWords(u, p);
      WordFields(u, p);
    }
  }

  /** Components of a new name keep the first words filed. */
  lemma ComponentsFiled(u: Tables, h: Handler, e: Entity, p: string, before: Mapping, m: Mapping, after: Mapping)
    requires NewHere(u, h.strat.pools, e.typ, e.text, p, before) && m == before[e.text := p] && AddsComponents(u, h, e, p, m, after)
    ensures FirstsFiled(u, h.strat.pools, after)
  {
    NameFiled(u, h.strat.pools, e.typ, e.text, p, before);
    hide CleanPools, HasOrigin, IsNumbered, Fields, PoolName, FirstOfName, FirstWordOf, IsComponent, Addable, PartOf;
    if h.decompose && e.typ == "PERSON" {
      assert m[e.text] == p;
      forall k, l | k in after && l in after && FirstOfName(u, h.strat.pools, after[k], after[l])
        ensures FirstWordOf(u, k, l)
      {
        if k !in m {
          ComponentFromPool(u, h.strat.pools, e.text, p, k, after[k]);
          PartsOnlyOf(u, h.strat.pools, p, after[l], after[k]);
        } else if l !in m {
          ComponentFromPool(u, h.strat.pools, e.text, p, l, after[l]);
          PartsOnlyOf(u, h.strat.pools, p, after[k], after[l]);
          ComponentIsFirst(u, h.strat.pools, e.text, p, l, after[l]);
          assert k != e.text ==> k in before && InUse(before, before[k]);
        }
      }
    }
  }

  lemma StepKeepsFiled(u: Tables, hmac: string -> nat, h: Handler, e: Entity, reserved: string, before: Mapping, after: Mapping)
    requires Lawful(u) && CleanPools(u, h.strat.pools) && SoundValues(u, h.strat.pools, before) && FirstsFiled(u, h.strat.pools, before)
    requires AssignStep(u, hmac, h, e, reserved, before, after) && AllFit(after) && e.text != [] && !u.IsSpace(e.text[0])
    ensures FirstsFiled(u, h.strat.pools, after)
  {
    hide Picks, CleanPools, SoundValues, FirstsFiled, IsComponent, Addable, IndexFits, IsNumbered, PoolName;
    if !HasFoldKey(u, before, e.text) {
      var p :| Picks(u, hmac, h.strat, e.typ, e.text, before.Values, reserved, p) && AddsComponents(u, h, e, p, before[e.text := p], after);
      var m := before[e.text := p];
      assert m[e.text] == p && e.text in after && after[e.text] == p;
      assert e.text in before ==> SameFold(u, e.text, e.text);
      PickIsFree(u, hmac, h.strat, e.typ, e.text, before.Values, reserved, p);
      PickForms(u, hmac, h.strat, e.typ, e.text, before.Values, reserved, p);
      ComponentsFiled(u, h, e, p, before, m, after);
    }
  }

  // ---- The request, and requests in a row ----

  /** Texts are trimmed and not blank. */
  ghost predicate Trimmed(u: Tables, byText: ByText) {
    forall t :: t in byText ==> byText[t].text != [] && !u.IsSpace(byText[t].text[0])
  }

  lemma DedupedTrimmed(u: Tables, ds: seq<Entity>, byText: ByText)
    requires Deduped(u, ds, |ds|, byText)
    ensures Trimmed(u, byText)
  {
    hide Trim;
    forall t | t in byText
      ensures byText[t].text != [] && !u.IsSpace(byText[t].text[0])
    {
      var i: nat :| DecidedBy(u, ds, |ds|, i, t, byText[t]);
      TrimStarts(u, ds[i].text);
    }
  }

  lemma TrimStarts(u: Tables, s: string)
    ensures Trim(u, s) == [] || !u.IsSpace(Trim(u, s)[0])
  {
  }

  lemma {:induction false} AssignedKeepsFiled(u: Tables, hmac: string -> nat, h: Handler, byText: ByText, texts: seq<string>, n: nat, reserved: string, before: Mapping, after: Mapping)
    requires Lawful(u) && CleanPools(u, h.strat.pools) && SoundValues(u, h.strat.pools, before) && FirstsFiled(u, h.strat.pools, before)
    requires n <= |texts| && Known(byText, texts) && Trimmed(u, byText) && Assigned(u, hmac, h, byText, texts, n, reserved, before, after) && AllFit(after)
    ensures SoundValues(u, h.strat.pools, after) && FirstsFiled(u, h.strat.pools, after)
    decreases n
  {
    hide AssignStep, SoundValues, CleanPools, IndexFits, FirstsFiled;
    if n > 0 {
      var mid :| Assigned(u, hmac, h, byText, texts, n - 1, reserved, before, mid) && StepTo(u, hmac, h, byText, texts, n, reserved, mid, after);
      StepCovers(u, hmac, h, byText[texts[n - 1]], reserved, mid, after);
      AssignedKeepsFiled(u, hmac, h, byText, texts, n - 1, reserved, before, mid);
      StepKeepsSound(u, hmac, h, byText[texts[n - 1]], reserved, mid, after);
      StepKeepsFiled(u, hmac, h, byText[texts[n - 1]], reserved, mid, after);
    }
  }

  lemma AssignmentKeepsFiled(u: Tables, hmac: string -> nat, h: Handler, ds: seq<Entity>, reserved: string, before: Mapping, after: Mapping)
    requires Lawful(u) && CleanPools(u, h.strat.pools) && SoundValues(u, h.strat.pools, before) && FirstsFiled(u, h.strat.pools, before)
    requires Assigns(u, hmac, h, ds, reserved, before, after) && AllFit(after)
    ensures FirstsFiled(u, h.strat.pools, after)
  {
    hide Assigned, Deduped, SoundValues, CleanPools, AllFit, FirstsFiled, Trimmed;
    var byText, texts :| IsAssignment(u, hmac, h, ds, reserved, before, after, byText, texts);
    DedupedTrimmed(u, ds, byText);
    AssignedKeepsFiled(u, hmac, h, byText, texts, |texts|, reserved, before, after);
  }

  /** After any requests in a row the first word of every pool name stands for the first word of the
      name the pool name stands for. */
  lemma {:induction false} InARowFiled(u: Tables, hmac: string -> nat, h: Handler, reqs: seq<Request>, n: nat, m: Mapping)
    requires Lawful(u) && CleanPools(u, h.strat.pools) && n <= |reqs| && InARow(u, hmac, h, reqs, n, m) && AllFit(m)
    ensures FirstsFiled(u, h.strat.pools, m)
  {
    hide Assigns, CleanPools, HasOrigin, IndexFits, FirstOfName, FirstWordOf;
    if n > 0 {
      hide SoundValues, FoldDistinct, FirstsFiled;
      var before :| InARow(u, hmac, h, reqs, n - 1, before) && Follows(u, hmac, h, reqs, n, before, m);
      AssignmentCovers(u, hmac, h, reqs[n - 1].ds, reqs[n - 1].reserved, before, m);
      InARowSound(u, hmac, h, reqs, n - 1, before);
      InARowFiled(u, hmac, h, reqs, n - 1, before);
      AssignmentKeepsFiled(u, hmac, h, reqs[n - 1].ds, reqs[n - 1].reserved, before, m);
    }
  }
}
