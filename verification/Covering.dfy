/** What every assignment keeps: mappings only grow, every detection is covered, a replay changes
    nothing, and no two keys differ in case only. */
module Covering {
  import opened Unicode
  import opened Mappings
  import opened Pseudonyms
  import opened Components
  import opened Assignments

  /** Every detection that is not blank has a key equal to it, case aside. */
  ghost predicate Covered(u: Tables, ds: seq<Entity>, m: Mapping) {
    forall i :: 0 <= i < |ds| && Trim(u, ds[i].text) != [] ==> HasFoldKey(u, m, Trim(u, ds[i].text))
  }

  lemma StepCovers(u: Tables, hmac: string -> nat, h: Handler, e: Entity, reserved: string, before: Mapping, after: Mapping)
    requires AssignStep(u, hmac, h, e, reserved, before, after)
    ensures Extends(before, after) && HasFoldKey(u, after, e.text)
  {
    hide Picks, IsComponent, Addable;
    if !HasFoldKey(u, before, e.text) {
      var p :| Picks(u, hmac, h.strat, e.typ, e.text, before.Values, reserved, p) && AddsComponents(u, h, e, p, before[e.text := p], after);
      ComponentsExtend(u, h, e, p, before[e.text := p], after);
      assert e.text in before[e.text := p] && e.text in after && SameFold(u, e.text, e.text);
      NewKeyExtends(before, e.text, p);
    }
  }

  lemma NewKeyExtends(m: Mapping, k: string, v: string)
    requires k !in m
    ensures Extends(m, m[k := v])
  {
  }

  lemma StillHasKey(u: Tables, m: Mapping, n: Mapping, key: string)
    requires m.Keys <= n.Keys && HasFoldKey(u, m, key)
    ensures HasFoldKey(u, n, key)
  {
    hide SameFold;
  }

  ghost predicate TextsCovered(u: Tables, texts: seq<string>, n: nat, m: Mapping)
    requires n <= |texts|
  {
    forall j :: 0 <= j < n ==> HasFoldKey(u, m, texts[j])
  }

  lemma {:induction false} AssignedCovers(u: Tables, hmac: string -> nat, h: Handler, ds: seq<Entity>, byText: ByText, texts: seq<string>, n: nat, reserved: string, before: Mapping, after: Mapping)
    requires n <= |texts| && Known(byText, texts) && Named(byText) && Assigned(u, hmac, h, byText, texts, n, reserved, before, after)
    ensures Extends(before, after) && TextsCovered(u, texts, n, after)
    decreases n
  {
    hide AssignStep, HasFoldKey;
    if n > 0 {
      var mid :| Assigned(u, hmac, h, byText, texts, n - 1, reserved, before, mid) && StepTo(u, hmac, h, byText, texts, n, reserved, mid, after);
      AssignedCovers(u, hmac, h, ds, byText, texts, n - 1, reserved, before, mid);
      StepCovers(u, hmac, h, byText[texts[n - 1]], reserved, mid, after);
      forall j | 0 <= j < n - 1
        ensures HasFoldKey(u, after, texts[j])
      {
        StillHasKey(u, mid, after, texts[j]);
      }
    }
  }

  /** Entities are filed under their texts. */
  ghost predicate Named(byText: ByText) {
    forall t :: t in byText ==> byText[t].text == t
  }

  lemma DedupedNamed(u: Tables, ds: seq<Entity>, byText: ByText)
    requires Deduped(u, ds, |ds|, byText)
    ensures Named(byText)
  {
    hide Decides, Trim;
    forall t | t in byText
      ensures byText[t].text == t
    {
      assert HasDecider(u, ds, |ds|, t, byText[t]);
    }
  }

  /** Mappings only grow, and afterwards every detection is covered. */
  lemma AssignmentCovers(u: Tables, hmac: string -> nat, h: Handler, ds: seq<Entity>, reserved: string, before: Mapping, after: Mapping)
    requires Assigns(u, hmac, h, ds, reserved, before, after)
    ensures Extends(before, after) && Covered(u, ds, after)
  {
    hide Assigned, HasFoldKey, Trim, Decides;
    var byText, texts :| IsAssignment(u, hmac, h, ds, reserved, before, after, byText, texts);
    DedupedNamed(u, ds, byText);
    AssignedCovers(u, hmac, h, ds, byText, texts, |texts|, reserved, before, after);
    forall i | 0 <= i < |ds| && Trim(u, ds[i].text) != []
      ensures HasFoldKey(u, after, Trim(u, ds[i].text))
    {
      assert Trim(u, ds[i].text) in texts;
    }
  }

  // ---- Replay ----

  lemma {:induction false} AssignedNothing(u: Tables, hmac: string -> nat, h: Handler, byText: ByText, texts: seq<string>, n: nat, reserved: string, before: Mapping, after: Mapping)
    requires n <= |texts| && Known(byText, texts) && Named(byText) && Assigned(u, hmac, h, byText, texts, n, reserved, before, after)
    requires TextsCovered(u, texts, |texts|, before)
    ensures after == before
    decreases n
  {
    hide HasFoldKey;
    if n > 0 {
      var mid :| Assigned(u, hmac, h, byText, texts, n - 1, reserved, before, mid) && StepTo(u, hmac, h, byText, texts, n, reserved, mid, after);
      AssignedNothing(u, hmac, h, byText, texts, n - 1, reserved, before, mid);
    }
  }

  /** Detections a mapping covers get nothing new, components included. */
  lemma CoveredGetNothing(u: Tables, hmac: string -> nat, h: Handler, ds: seq<Entity>, reserved: string, before: Mapping, after: Mapping)
    requires Assigns(u, hmac, h, ds, reserved, before, after) && Covered(u, ds, before)
    ensures after == before
  {
    hide Assigned, HasFoldKey, Trim;
    var byText, texts :| IsAssignment(u, hmac, h, ds, reserved, before, after, byText, texts);
    DedupedNamed(u, ds, byText);
    forall j | 0 <= j < |texts|
      ensures HasFoldKey(u, before, texts[j])
    {
      assert texts[j] in texts && HasDecider(u, ds, |ds|, texts[j], byText[texts[j]]);
    }
    AssignedNothing(u, hmac, h, byText, texts, |texts|, reserved, before, after);
  }

  lemma CoveredStays(u: Tables, ds: seq<Entity>, m: Mapping, n: Mapping)
    requires Covered(u, ds, m) && m.Keys <= n.Keys
    ensures Covered(u, ds, n)
  {
    hide HasFoldKey, Trim;
    forall i | 0 <= i < |ds| && Trim(u, ds[i].text) != []
      ensures HasFoldKey(u, n, Trim(u, ds[i].text))
    {
      StillHasKey(u, m, n, Trim(u, ds[i].text));
    }
  }

  // ---- Keys ----

  lemma StepKeepsFoldDistinct(u: Tables, hmac: string -> nat, h: Handler, e: Entity, reserved: string, before: Mapping, after: Mapping)
    requires FoldDistinct(u, before) && AssignStep(u, hmac, h, e, reserved, before, after)
    ensures FoldDistinct(u, after)
  {
    hide Picks;
    if !HasFoldKey(u, before, e.text) {
      var p :| Picks(u, hmac, h.strat, e.typ, e.text, before.Values, reserved, p) && AddsComponents(u, h, e, p, before[e.text := p], after);
      var m := before[e.text := p];
      hide Fold, IsComponent;
      SameFoldSymmetric(u);
      assert FoldDistinct(u, m);
      forall k, l | k in after && l in after && SameFold(u, k, l)
        ensures k == l
      {
        NoNewTwin(u, h, e, p, m, after, k, l);
      }
    }
  }

  lemma SameFoldSymmetric(u: Tables)
    ensures forall a, b :: SameFold(u, a, b) <==> SameFold(u, b, a)
  {
  }

  lemma NoNewTwin(u: Tables, h: Handler, e: Entity, p: string, m: Mapping, after: Mapping, k: string, l: string)
    requires FoldDistinct(u, m) && AddsComponents(u, h, e, p, m, after) && k in after && l in after && SameFold(u, k, l)
    ensures k == l
  {
    hide Fold, IsComponent;
    SameFoldSymmetric(u);
    if k !in m && l !in m {
      ComponentsFoldDistinct(u, e.text, p, k, after[k], l, after[l]);
    }
  }

  lemma {:induction false} AssignedKeepsFoldDistinct(u: Tables, hmac: string -> nat, h: Handler, byText: ByText, texts: seq<string>, n: nat, reserved: string, before: Mapping, after: Mapping)
    requires n <= |texts| && Known(byText, texts) && FoldDistinct(u, before) && Assigned(u, hmac, h, byText, texts, n, reserved, before, after)
    ensures FoldDistinct(u, after)
    decreases n
  {
    hide AssignStep, FoldDistinct;
    if n > 0 {
      var mid :| Assigned(u, hmac, h, byText, texts, n - 1, reserved, before, mid) && StepTo(u, hmac, h, byText, texts, n, reserved, mid, after);
      AssignedKeepsFoldDistinct(u, hmac, h, byText, texts, n - 1, reserved, before, mid);
      StepKeepsFoldDistinct(u, hmac, h, byText[texts[n - 1]], reserved, mid, after);
    }
  }

  /** An assignment adds no key that differs from another in case only. */
  lemma AssignmentKeepsFoldDistinct(u: Tables, hmac: string -> nat, h: Handler, ds: seq<Entity>, reserved: string, before: Mapping, after: Mapping)
    requires Assigns(u, hmac, h, ds, reserved, before, after) && FoldDistinct(u, before)
    ensures FoldDistinct(u, after)
  {
    hide Assigned, Deduped, FoldDistinct;
    var byText, texts :| IsAssignment(u, hmac, h, ds, reserved, before, after, byText, texts);
    AssignedKeepsFoldDistinct(u, hmac, h, byText, texts, |texts|, reserved, before, after);
  }
}
