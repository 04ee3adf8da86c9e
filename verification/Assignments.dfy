/** assignNew: pseudonyms for the detections a session does not map yet. */
module Assignments {
  import opened Unicode
  import opened Ordering
  import opened Mappings
  import opened Pseudonyms
  import opened Components

  /** A detection as the handler sees it, and what is left of it once texts are unique. */
  datatype Entity = Entity(typ: string, text: string, score: real)

  /** allowList: lower-cased names that are never mapped. */
  datatype Handler = Handler(strat: Strategizer, decompose: bool, allowList: set<string>)

  // ---- One entity per text ----

  /** Detection i decides for its text: the first of the highest score. */
  ghost predicate Decides(u: Tables, ds: seq<Entity>, n: nat, i: nat)
    requires n <= |ds|
  {
    && i < n && Trim(u, ds[i].text) != []
    && (forall j :: 0 <= j < n && Trim(u, ds[j].text) == Trim(u, ds[i].text) ==> ds[j].score <= ds[i].score)
    && (forall j :: 0 <= j < i && Trim(u, ds[j].text) == Trim(u, ds[i].text) ==> ds[j].score < ds[i].score)
  }

  type ByText = map<string, Entity>

  ghost predicate DecidedBy(u: Tables, ds: seq<Entity>, n: nat, i: nat, t: string, e: Entity)
    requires n <= |ds|
  {
    Decides(u, ds, n, i) && Trim(u, ds[i].text) == t && e == Entity(ds[i].typ, t, ds[i].score)
  }

  ghost predicate HasDecider(u: Tables, ds: seq<Entity>, n: nat, t: string, e: Entity)
    requires n <= |ds|
  {
    exists i: nat :: DecidedBy(u, ds, n, i, t, e)
  }

  /** Every text that is not blank, trimmed, with the type and score of the detection that decides. */
  ghost predicate Deduped(u: Tables, ds: seq<Entity>, n: nat, byText: ByText)
    requires n <= |ds|
  {
    && (forall i :: 0 <= i < n && Trim(u, ds[i].text) != [] ==> Trim(u, ds[i].text) in byText)
    && (forall t :: t in byText ==> HasDecider(u, ds, n, t, byText[t]))
  }

  lemma DedupedMore(u: Tables, ds: seq<Entity>, n: nat, byText: ByText, after: ByText)
    requires n < |ds| && Deduped(u, ds, n, byText)
    requires var t, d := Trim(u, ds[n].text), ds[n];
             after == if t == [] || (t in byText && byText[t].score >= d.score) then byText else byText[t := Entity(d.typ, t, d.score)]
    ensures Deduped(u, ds, n + 1, after)
  {
    hide Trim;
    var t := Trim(u, ds[n].text);
    forall k | k in after
      ensures HasDecider(u, ds, n + 1, k, after[k])
    {
      if k in byText {
        var i: nat :| DecidedBy(u, ds, n, i, k, byText[k]);
        if k != t || byText[k].score >= ds[n].score {
          assert DecidedBy(u, ds, n + 1, i, k, after[k]);
        } else {
          assert DecidedBy(u, ds, n + 1, n, k, after[k]);
        }
      } else {
        assert DecidedBy(u, ds, n + 1, n, k, after[k]);
      }
    }
  }

  method Dedupe(u: Tables, ds: seq<Entity>) returns (byText: ByText)
    ensures Deduped(u, ds, |ds|, byText)
  {
    byText := map[];
    for n := 0 to |ds|
      invariant Deduped(u, ds, n, byText)
    {
      hide Deduped, Trim;
      var d := ds[n];
      var trimmed := Trim(u, d.text);
      DedupedMore(u, ds, n, byText,
        if trimmed == [] || (trimmed in byText && byText[trimmed].score >= d.score) then byText else byText[trimmed := Entity(d.typ, trimmed, d.score)]);
      if trimmed == "" {
        continue;
      }
      if trimmed in byText && byText[trimmed].score >= d.score {
        continue;
      }
      byText := byText[trimmed := Entity(d.typ, trimmed, d.score)];
    }
  }

  // ---- One entity ----

  method HasCaseInsensitiveKey(u: Tables, m: Mapping, key: string) returns (has: bool)
    ensures has <==> HasFoldKey(u, m, key)
  {
    var todo := m.Keys;
    while todo != {}
      invariant todo <= m.Keys && forall k :: k in m && k !in todo ==> !SameFold(u, k, key)
      decreases |todo|
    {
      hide Fold;
      var k :| k in todo;
      if SameFold(u, k, key) {
        return true;
      }
      todo := todo - {k};
    }
    return false;
  }

  /** k may be mapped next to what m maps. */
  ghost predicate Addable(u: Tables, h: Handler, m: Mapping, k: string) {
    Fold(u, k) !in h.allowList && !HasFoldKey(u, m, k)
  }

  /** after is m with every component that may be added. */
  ghost predicate AddsComponents(u: Tables, h: Handler, e: Entity, p: string, m: Mapping, after: Mapping) {
    if h.decompose && e.typ == "PERSON" then
      && (forall k :: k in m ==> k in after && after[k] == m[k])
      && (forall k, v :: IsComponent(u, e.text, p, k, v) && Addable(u, h, m, k) ==> k in after && after[k] == v)
      && (forall k :: k in after && k !in m ==> IsComponent(u, e.text, p, k, after[k]) && Addable(u, h, m, k))
    else after == m
  }

  /** What one entity does to the mapping: nothing if it is mapped, case aside; otherwise it gets a
      pseudonym, and its components theirs. */
  ghost predicate AssignStep(u: Tables, hmac: string -> nat, h: Handler, e: Entity, reserved: string, before: Mapping, after: Mapping) {
    if HasFoldKey(u, before, e.text) then after == before
    else exists p :: Picks(u, hmac, h.strat, e.typ, e.text, before.Values, reserved, p) && AddsComponents(u, h, e, p, before[e.text := p], after)
  }

  /** What after maps and before does not. */
  function NewIn(before: Mapping, after: Mapping): Mapping {
    map k | k in after && k !in before :: after[k]
  }

  /** added is newMap and what is new in after. */
  ghost predicate Collects(newMap: Mapping, before: Mapping, after: Mapping, added: Mapping) {
    added == newMap + NewIn(before, after)
  }

  lemma NothingNew(newMap: Mapping, m: Mapping)
    ensures Collects(newMap, m, m, newMap)
  {
    assert NewIn(m, m) == map[];
  }

  lemma NewInMore(newMap: Mapping, before: Mapping, after: Mapping, added: Mapping, k: string, v: string)
    requires Collects(newMap, before, after, added)
    ensures k !in before ==> Collects(newMap, before, after[k := v], added[k := v])
  {
  }

  /** What is new in two steps. */
  lemma NewInJoins(newMap: Mapping, before: Mapping, mid: Mapping, after: Mapping, n: Mapping, added: Mapping)
    requires Extends(before, mid) && Extends(mid, after)
    requires Collects(newMap, before, mid, n) && Collects(n, mid, after, added)
    ensures Collects(newMap, before, after, added) && Extends(before, after)
  {
  }

  /** The components handled so far. */
  ghost predicate Registered(u: Tables, h: Handler, comps: Mapping, todo: set<string>, m: Mapping, after: Mapping) {
    && (forall k :: k in m ==> k in after && after[k] == m[k])
    && (forall k :: k in comps && k !in todo && Addable(u, h, m, k) ==> k in after && after[k] == comps[k])
    && (forall k :: k in after && k !in m ==> k in comps && k !in todo && after[k] == comps[k] && Addable(u, h, m, k))
  }

  lemma RegisteredMore(u: Tables, h: Handler, comps: Mapping, todo: set<string>, m: Mapping, after: Mapping, k: string)
    requires Registered(u, h, comps, todo, m, after) && k in todo && k in comps && (k in m ==> !Addable(u, h, m, k))
    ensures Registered(u, h, comps, todo - {k}, m, if Addable(u, h, m, k) then after[k := comps[k]] else after)
  {
    hide Addable;
  }

  /** One component, unless it is allow-listed or mapped, case aside. */
  method AddComponent(u: Tables, h: Handler, k: string, v: string, m: Mapping, newMap: Mapping) returns (after: Mapping, added: Mapping)
    ensures Addable(u, h, m, k) ==> after == m[k := v] && added == newMap[k := v]
    ensures !Addable(u, h, m, k) ==> after == m && added == newMap
  {
    hide Fold;
    assert SameFold(u, k, k);
    if Fold(u, k) in h.allowList {
      return m, newMap;
    }
    var has := HasCaseInsensitiveKey(u, m, k);
    if k in m || has {
      return m, newMap;
    }
    return m[k := v], newMap[k := v];
  }

  lemma AllRegistered(u: Tables, h: Handler, e: Entity, p: string, comps: Mapping, m: Mapping, after: Mapping)
    requires h.decompose && e.typ == "PERSON" && IsComponentMap(u, e.text, p, comps) && Registered(u, h, comps, {}, m, after)
    ensures AddsComponents(u, h, e, p, m, after)
  {
    hide IsComponent, Addable;
  }

  /** The components, in no particular order. */
  method RegisterComponents(u: Tables, h: Handler, e: Entity, p: string, m: Mapping, newMap: Mapping) returns (after: Mapping, added: Mapping)
    requires h.decompose && e.typ == "PERSON"
    ensures AddsComponents(u, h, e, p, m, after) && Collects(newMap, m, after, added)
  {
    var comps := ComponentMappings(u, e.text, p);
    after, added := m, newMap;
    NothingNew(newMap, m);
    var todo := comps.Keys;
    while todo != {}
      invariant todo <= comps.Keys && Registered(u, h, comps, todo, m, after) && Collects(newMap, m, after, added)
      decreases |todo|
    {
      hide IsComponentMap, Registered, Collects, Addable, HasFoldKey;
      var cReal :| cReal in todo;
      OnlyOwnFold(u, h, e, p, comps, todo, m, after, cReal);
      RegisteredMore(u, h, comps, todo, m, after, cReal);
      NewInMore(newMap, m, after, added, cReal, comps[cReal]);
      todo := todo - {cReal};
      after, added := AddComponent(u, h, cReal, comps[cReal], after, added);
    }
    hide Registered, AddsComponents, Collects;
    AllRegistered(u, h, e, p, comps, m, after);
  }

  /** Components added before do not stand in the way of another. */
  lemma OnlyOwnFold(u: Tables, h: Handler, e: Entity, p: string, comps: Mapping, todo: set<string>, m: Mapping, after: Mapping, k: string)
    requires IsComponentMap(u, e.text, p, comps) && Registered(u, h, comps, todo, m, after) && k in todo && k in comps
    ensures Addable(u, h, after, k) <==> Addable(u, h, m, k)
    ensures Addable(u, h, m, k) ==> k !in m && k !in after
  {
    hide IsComponent, Fold;
    forall j | j in after && SameFold(u, j, k)
      ensures j in m
    {
      if j !in m {
        ComponentsFoldDistinct(u, e.text, p, j, comps[j], k, comps[k]);
      }
    }
    assert SameFold(u, k, k);
  }

  // ---- All entities ----

  ghost predicate Known(byText: ByText, texts: seq<string>) {
    forall i :: 0 <= i < |texts| ==> texts[i] in byText
  }

  ghost predicate StepTo(u: Tables, hmac: string -> nat, h: Handler, byText: ByText, texts: seq<string>, n: nat, reserved: string, before: Mapping, after: Mapping) {
    0 < n <= |texts| && texts[n - 1] in byText && AssignStep(u, hmac, h, byText[texts[n - 1]], reserved, before, after)
  }

  /** The mapping after the entities of the first n texts, in order. */
  ghost predicate Assigned(u: Tables, hmac: string -> nat, h: Handler, byText: ByText, texts: seq<string>, n: nat, reserved: string, before: Mapping, after: Mapping)
    requires n <= |texts| && Known(byText, texts)
    decreases n
  {
    if n == 0 then after == before
    else exists mid :: Assigned(u, hmac, h, byText, texts, n - 1, reserved, before, mid) && StepTo(u, hmac, h, byText, texts, n, reserved, mid, after)
  }

  /** One request's assignment: before is what the session maps, after what it would map then. */
  ghost predicate Assigns(u: Tables, hmac: string -> nat, h: Handler, ds: seq<Entity>, reserved: string, before: Mapping, after: Mapping) {
    exists byText, texts :: IsAssignment(u, hmac, h, ds, reserved, before, after, byText, texts)
  }

  ghost predicate IsAssignment(u: Tables, hmac: string -> nat, h: Handler, ds: seq<Entity>, reserved: string, before: Mapping, after: Mapping, byText: ByText, texts: seq<string>) {
    && Deduped(u, ds, |ds|, byText) && SortedElements(texts, byText.Keys) && Known(byText, texts)
    && Assigned(u, hmac, h, byText, texts, |texts|, reserved, before, after)
  }

  method AssignOne(u: Tables, hmac: string -> nat, h: Handler, e: Entity, reserved: string, scratch: Mapping, newMap: Mapping) returns (after: Mapping, added: Mapping)
    requires Lawful(u)
    ensures AssignStep(u, hmac, h, e, reserved, scratch, after) && Extends(scratch, after)
    ensures Collects(newMap, scratch, after, added)
  {
    hide Picks, Fold, AddsComponents, Collects;
    NothingNew(newMap, scratch);
    if e.text in scratch {
      assert SameFold(u, e.text, e.text);
      return scratch, newMap;
    }
    var has := HasCaseInsensitiveKey(u, scratch, e.text);
    if has {
      return scratch, newMap;
    }
    var p := Assign(u, hmac, h.strat, e.typ, e.text, scratch, reserved);
    var m, n := scratch[e.text := p], newMap[e.text := p];
    NewInMore(newMap, scratch, scratch, newMap, e.text, p);
    after, added := m, n;
    if h.decompose && e.typ == "PERSON" {
      after, added := RegisterComponents(u, h, e, p, m, n);
    } else {
      NothingNew(n, m);
      ComponentsOff(u, h, e, p, m);
    }
    ComponentsExtend(u, h, e, p, m, after);
    NewInJoins(newMap, scratch, m, after, n, added);
  }

  lemma ComponentsOff(u: Tables, h: Handler, e: Entity, p: string, m: Mapping)
    requires !(h.decompose && e.typ == "PERSON")
    ensures AddsComponents(u, h, e, p, m, m)
  {
  }

  lemma ComponentsExtend(u: Tables, h: Handler, e: Entity, p: string, m: Mapping, after: Mapping)
    requires AddsComponents(u, h, e, p, m, after)
    ensures Extends(m, after)
  {
  }

  /** assignNew: the new mappings are what the assignment adds. */
  method AssignNew(u: Tables, hmac: string -> nat, h: Handler, ds: seq<Entity>, existing: Mapping, reserved: string) returns (newMap: Mapping, ghost scratch: Mapping)
    requires Lawful(u)
    ensures exists after :: Assigns(u, hmac, h, ds, reserved, existing, after) && newMap == NewIn(existing, after)
    ensures Assigns(u, hmac, h, ds, reserved, existing, scratch)
    ensures newMap == NewIn(existing, scratch) && Extends(existing, scratch)
  {
    hide Deduped, SortedElements, Assigned, Collects;
    var byText := Dedupe(u, ds);
    var texts := Sort(byText.Keys);
    AllKnown(byText, texts);
    var all;
    newMap, all := AssignAll(u, hmac, h, byText, texts, existing, reserved);
    scratch := all;
    assert IsAssignment(u, hmac, h, ds, reserved, existing, scratch, byText, texts);
    OnlyNew(existing, scratch, newMap);
  }

  lemma OnlyNew(before: Mapping, after: Mapping, added: Mapping)
    requires Collects(map[], before, after, added)
    ensures added == NewIn(before, after)
  {
  }

  method AssignAll(u: Tables, hmac: string -> nat, h: Handler, byText: ByText, texts: seq<string>, existing: Mapping, reserved: string) returns (newMap: Mapping, scratch: Mapping)
    requires Lawful(u) && Known(byText, texts)
    ensures Assigned(u, hmac, h, byText, texts, |texts|, reserved, existing, scratch)
    ensures Collects(map[], existing, scratch, newMap) && Extends(existing, scratch)
  {
    newMap, scratch := map[], existing;
    NothingNew(map[], existing);
    hide StepTo;
    for i := 0 to |texts|
      invariant Assigned(u, hmac, h, byText, texts, i, reserved, existing, scratch)
      invariant Collects(map[], existing, scratch, newMap) && Extends(existing, scratch)
    {
      hide AssignStep, Collects, Assigned, Extends;
      ghost var was, had := scratch, newMap;
      scratch, newMap := AssignOne(u, hmac, h, byText[texts[i]], reserved, scratch, newMap);
      NewInJoins(map[], existing, was, scratch, had, newMap);
      AssignedMore(u, hmac, h, byText, texts, i + 1, reserved, existing, was, scratch);
    }
  }

  lemma AssignedMore(u: Tables, hmac: string -> nat, h: Handler, byText: ByText, texts: seq<string>, n: nat, reserved: string, before: Mapping, mid: Mapping, after: Mapping)
    requires 0 < n <= |texts| && Known(byText, texts) && Assigned(u, hmac, h, byText, texts, n - 1, reserved, before, mid)
    requires AssignStep(u, hmac, h, byText[texts[n - 1]], reserved, mid, after)
    ensures Assigned(u, hmac, h, byText, texts, n, reserved, before, after)
  {
    hide AssignStep;
    assert StepTo(u, hmac, h, byText, texts, n, reserved, mid, after);
  }

  lemma AllKnown(byText: ByText, texts: seq<string>)
    requires SortedElements(texts, byText.Keys)
    ensures Known(byText, texts)
  {
    forall i | 0 <= i < |texts|
      ensures texts[i] in byText
    {
      assert texts[i] in texts;
    }
  }
}
