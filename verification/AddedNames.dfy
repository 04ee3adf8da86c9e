/** What assignNew adds to a session: names that were detected, and first and last names of persons. */
module AddedNames {
  import opened Unicode
  import opened Ordering
  import opened Mappings
  import opened Pseudonyms
  import opened Components
  import opened Assignments
  import opened Covering
  import opened NameParts
  import opened Picking

  /** Detection i says what k is: k is its text, trimmed, and none of that text has a higher score, nor the
      same score before it. */
  ghost predicate SaidBy(u: Tables, ds: seq<Entity>, k: string, i: nat) {
    && i < |ds| && k == Trim(u, ds[i].text) && k != []
    && forall j :: 0 <= j < |ds| && Trim(u, ds[j].text) == k ==> ds[j].score < ds[i].score || (ds[j].score == ds[i].score && i <= j)
  }

  /** v is the pseudonym picked for the detected text k, with those of m in use. */
  ghost predicate NamedAs(u: Tables, hmac: string -> nat, h: Handler, ds: seq<Entity>, reserved: string, k: string, v: string, i: nat, m: Mapping) {
    SaidBy(u, ds, k, i) && Picked(u, hmac, h.strat, ds[i].typ, k, m.Values, reserved, v)
  }

  /** The texts of more bytes than k all have keys in m, case aside. */
  ghost predicate LongerMapped(u: Tables, ds: seq<Entity>, k: string, m: Mapping) {
    forall j :: 0 <= j < |ds| && Trim(u, ds[j].text) != [] && ByteLen(Trim(u, ds[j].text)) > ByteLen(k) ==> !NoneReads(u, m, Trim(u, ds[j].text))
  }

  /** k is new, as a detected text: v was picked for it when the longer texts had been looked at. */
  ghost predicate IsNewName(u: Tables, hmac: string -> nat, h: Handler, ds: seq<Entity>, reserved: string, before: Mapping, k: string, v: string) {
    exists i: nat, m :: Extends(before, m) && LongerMapped(u, ds, k, m) && NamedAs(u, hmac, h, ds, reserved, k, v, i, m)
  }

  /** k is a first or last name of the detected person name, and v that of its pseudonym; it is not
      allow-listed. */
  ghost predicate PartOfName(u: Tables, h: Handler, ds: seq<Entity>, after: Mapping, k: string, v: string, i: nat, name: string) {
    && h.decompose && SaidBy(u, ds, name, i) && ds[i].typ == "PERSON" && name in after
    && IsPart(u, name, after[name], k, v) && Fold(u, k) !in h.allowList
  }

  ghost predicate IsNewPart(u: Tables, h: Handler, ds: seq<Entity>, after: Mapping, k: string, v: string) {
    exists i: nat, name :: PartOfName(u, h, ds, after, k, v, i, name)
  }

  /** No key of m is k, case aside. */
  ghost predicate NoneReads(u: Tables, m: Mapping, k: string) {
    forall l :: l in m ==> ReadApart(u, l, k)
  }

  lemma NoneReadsIs(u: Tables, m: Mapping, k: string)
    ensures HasFoldKey(u, m, k) <==> !NoneReads(u, m, k)
  {
    hide SameFold, ReadApart;
    forall l
      ensures SameFold(u, l, k) <==> !ReadApart(u, l, k)
    {
      ApartIs(u, l, k);
    }
  }

  // ---- One step ----

  lemma StepAdds(u: Tables, hmac: string -> nat, h: Handler, e: Entity, reserved: string, mid: Mapping, after: Mapping, k: string)
    requires AssignStep(u, hmac, h, e, reserved, mid, after) && k in after && k !in mid
    ensures NoneReads(u, mid, k) && e.text in after
    ensures || (k == e.text && Picked(u, hmac, h.strat, e.typ, k, mid.Values, reserved, after[k]))
            || (h.decompose && e.typ == "PERSON" && IsPart(u, e.text, after[e.text], k, after[k]) && Fold(u, k) !in h.allowList)
  {
    hide Picks, Picked, IsComponent, IsPart, HasFoldKey, NoneReads;
    NoneReadsIs(u, mid, k);
    var p :| Picks(u, hmac, h.strat, e.typ, e.text, mid.Values, reserved, p) && AddsComponents(u, h, e, p, mid[e.text := p], after);
    var m := mid[e.text := p];
    ComponentsExtend(u, h, e, p, m, after);
    assert e.text in m && m[e.text] == p && after[e.text] == p;
    if k == e.text {
      PicksArePicked(u, hmac, h.strat, e.typ, e.text, mid.Values, reserved, p);
    } else {
      assert k !in m;
      ComponentIsPart(u, e.text, p, k, after[k]);
      TwinStays(u, mid, e.text, p, k);
    }
  }

  lemma TwinStays(u: Tables, mid: Mapping, t: string, p: string, k: string)
    ensures HasFoldKey(u, mid, k) ==> HasFoldKey(u, mid[t := p], k)
  {
    hide SameFold;
  }

  /** The parts of a name that gets its pseudonym have keys, case aside, unless they are allow-listed. */
  lemma StepCoversParts(u: Tables, hmac: string -> nat, h: Handler, e: Entity, reserved: string, mid: Mapping, after: Mapping, k: string, v: string)
    requires AssignStep(u, hmac, h, e, reserved, mid, after) && h.decompose && e.typ == "PERSON" && e.text !in mid && e.text in after
    requires IsPart(u, e.text, after[e.text], k, v) && Fold(u, k) !in h.allowList
    ensures HasFoldKey(u, after, k)
  {
    hide Picks, IsComponent, IsPart, HasFoldKey;
    var p :| Picks(u, hmac, h.strat, e.typ, e.text, mid.Values, reserved, p) && AddsComponents(u, h, e, p, mid[e.text := p], after);
    var m := mid[e.text := p];
    ComponentsExtend(u, h, e, p, m, after);
    assert e.text in m && m[e.text] == p && after[e.text] == p;
    ComponentIsPart(u, e.text, p, k, v);
    if HasFoldKey(u, m, k) {
      StillHasKey(u, m, after, k);
    } else {
      OwnKey(u, after, k);
    }
  }

  lemma OwnKey(u: Tables, m: Mapping, k: string)
    ensures k in m ==> HasFoldKey(u, m, k)
  {
    assert SameFold(u, k, k);
  }

  // ---- A request ----

  /** When text n's turn has come, the texts of more bytes have had theirs. */
  lemma LongerDone(u: Tables, ds: seq<Entity>, byText: ByText, texts: seq<string>, n: nat, mid: Mapping)
    requires Deduped(u, ds, |ds|, byText) && SortedElements(texts, byText.Keys) && 0 < n <= |texts| && TextsCovered(u, texts, n - 1, mid)
    ensures LongerMapped(u, ds, texts[n - 1], mid)
  {
    hide HasFoldKey, NoneReads, Trim, ByteLen, LexLess, HasDecider;
    var k := texts[n - 1];
    forall j | 0 <= j < |ds| && Trim(u, ds[j].text) != [] && ByteLen(Trim(u, ds[j].text)) > ByteLen(k)
      ensures !NoneReads(u, mid, Trim(u, ds[j].text))
    {
      var t := Trim(u, ds[j].text);
      assert t in byText && t in texts;
      var x :| 0 <= x < |texts| && texts[x] == t;
      assert x >= n ==> Precedes(texts[n - 1], texts[x]);
      NoneReadsIs(u, mid, t);
    }
  }

  lemma DeciderSays(u: Tables, ds: seq<Entity>, byText: ByText, t: string) returns (i: nat)
    requires Deduped(u, ds, |ds|, byText) && t in byText
    ensures i < |ds| && SaidBy(u, ds, t, i) && byText[t] == Entity(ds[i].typ, t, ds[i].score)
  {
    hide Trim;
    i :| DecidedBy(u, ds, |ds|, i, t, byText[t]);
    forall j | 0 <= j < |ds| && Trim(u, ds[j].text) == t
      ensures ds[j].score < ds[i].score || (ds[j].score == ds[i].score && i <= j)
    {
    }
  }

  lemma PartStays(u: Tables, h: Handler, ds: seq<Entity>, mid: Mapping, after: Mapping, k: string, v: string)
    requires IsNewPart(u, h, ds, mid, k, v) && Extends(mid, after)
    ensures IsNewPart(u, h, ds, after, k, v)
  {
    hide SaidBy, IsPart;
    var i: nat, name :| PartOfName(u, h, ds, mid, k, v, i, name);
    assert PartOfName(u, h, ds, after, k, v, i, name);
  }

  lemma {:induction false} AssignedAdds(u: Tables, hmac: string -> nat, h: Handler, ds: seq<Entity>, byText: ByText, texts: seq<string>, n: nat, reserved: string,
      before: Mapping, after: Mapping, k: string)
    requires n <= |texts| && Known(byText, texts) && Deduped(u, ds, |ds|, byText) && Assigned(u, hmac, h, byText, texts, n, reserved, before, after)
    requires SortedElements(texts, byText.Keys) && k in after && k !in before
    ensures NoneReads(u, before, k)
    ensures IsNewName(u, hmac, h, ds, reserved, before, k, after[k]) || IsNewPart(u, h, ds, after, k, after[k])
    decreases n
  {
    hide AssignStep, Deduped, NoneReads, IsNewName, IsNewPart, Known, SortedElements, LongerMapped, TextsCovered;
    if n > 0 {
      var mid := MidOf(u, hmac, h, ds, byText, texts, n, reserved, before, after);
      if k in mid {
        AssignedAdds(u, hmac, h, ds, byText, texts, n - 1, reserved, before, mid, k);
        if IsNewPart(u, h, ds, mid, k, mid[k]) {
          PartStays(u, h, ds, mid, after, k, mid[k]);
        }
      } else {
        LongerDone(u, ds, byText, texts, n, mid);
        LastAdds(u, hmac, h, ds, byText, texts[n - 1], reserved, before, mid, after, k);
      }
    }
  }

  lemma MidOf(u: Tables, hmac: string -> nat, h: Handler, ds: seq<Entity>, byText: ByText, texts: seq<string>, n: nat, reserved: string,
      before: Mapping, after: Mapping) returns (mid: Mapping)
    requires 0 < n <= |texts| && Known(byText, texts) && Deduped(u, ds, |ds|, byText) && Assigned(u, hmac, h, byText, texts, n, reserved, before, after)
    ensures Assigned(u, hmac, h, byText, texts, n - 1, reserved, before, mid) && texts[n - 1] in byText
    ensures AssignStep(u, hmac, h, byText[texts[n - 1]], reserved, mid, after) && Extends(before, mid) && Extends(mid, after)
    ensures TextsCovered(u, texts, n - 1, mid)
  {
    hide AssignStep, Deduped;
    mid :| Assigned(u, hmac, h, byText, texts, n - 1, reserved, before, mid) && StepTo(u, hmac, h, byText, texts, n, reserved, mid, after);
    DedupedNamed(u, ds, byText);
    AssignedCovers(u, hmac, h, ds, byText, texts, n - 1, reserved, before, mid);
    StepCovers(u, hmac, h, byText[texts[n - 1]], reserved, mid, after);
  }

  lemma LastAdds(u: Tables, hmac: string -> nat, h: Handler, ds: seq<Entity>, byText: ByText, t: string, reserved: string,
      before: Mapping, mid: Mapping, after: Mapping, k: string)
    requires Deduped(u, ds, |ds|, byText) && t in byText && AssignStep(u, hmac, h, byText[t], reserved, mid, after)
    requires Extends(before, mid) && k in after && k !in mid && LongerMapped(u, ds, t, mid)
    ensures NoneReads(u, before, k)
    ensures IsNewName(u, hmac, h, ds, reserved, before, k, after[k]) || IsNewPart(u, h, ds, after, k, after[k])
  {
    hide Picked, IsPart, SaidBy, AssignStep, ReadApart, LongerMapped;
    var i := DeciderSays(u, ds, byText, t);
    hide Deduped;
    StepAdds(u, hmac, h, byText[t], reserved, mid, after, k);
    if k == t && Picked(u, hmac, h.strat, ds[i].typ, k, mid.Values, reserved, after[k]) {
      assert NamedAs(u, hmac, h, ds, reserved, k, after[k], i, mid);
    } else {
      assert PartOfName(u, h, ds, after, k, after[k], i, t);
    }
  }

  /** Every key an assignment adds is new, case aside; it is a detected text with the pseudonym picked for
      its type, or a first or last name of a detected person, not allow-listed, that stands for the first
      or last name of the person's pseudonym. */
  lemma AddedKeys(u: Tables, hmac: string -> nat, h: Handler, ds: seq<Entity>, reserved: string, before: Mapping, after: Mapping, k: string)
    requires Assigns(u, hmac, h, ds, reserved, before, after) && k in after && k !in before
    ensures NoneReads(u, before, k)
    ensures IsNewName(u, hmac, h, ds, reserved, before, k, after[k]) || IsNewPart(u, h, ds, after, k, after[k])
  {
    hide Assigned, Deduped, NoneReads, IsNewName, IsNewPart, SortedElements;
    var byText, texts :| IsAssignment(u, hmac, h, ds, reserved, before, after, byText, texts);
    AssignedAdds(u, hmac, h, ds, byText, texts, |texts|, reserved, before, after, k);
  }

  // ---- No part is forgotten ----

  lemma PartIsOneWord(u: Tables, name: string, pseudo: string, k: string, v: string)
    requires IsPart(u, name, pseudo, k, v)
    ensures !ManyWords(u, k)
  {
    hide ReadApart, SafeWord, ManyWords;
    if IsFirst(u, name, k) {
      OneWord(u, k);
    } else {
      OneWord(u, k);
    }
  }

  lemma OneWord(u: Tables, k: string)
    requires forall i :: 0 <= i < |k| ==> !u.IsSpace(k[i])
    ensures !ManyWords(u, k)
  {
  }

  lemma {:induction false} AssignedCoversParts(u: Tables, hmac: string -> nat, h: Handler, ds: seq<Entity>, byText: ByText, texts: seq<string>, n: nat, reserved: string,
      before: Mapping, after: Mapping, t: string, k: string, v: string)
    requires n <= |texts| && Known(byText, texts) && Deduped(u, ds, |ds|, byText) && Assigned(u, hmac, h, byText, texts, n, reserved, before, after)
    requires h.decompose && t in byText && byText[t].typ == "PERSON" && t in after && t !in before
    requires ManyWords(u, t) && IsPart(u, t, after[t], k, v) && Fold(u, k) !in h.allowList
    ensures HasFoldKey(u, after, k)
    decreases n
  {
    hide AssignStep, Deduped, HasFoldKey, IsPart, Known, ManyWords;
    if n > 0 {
      var mid := MidOf(u, hmac, h, ds, byText, texts, n, reserved, before, after);
      if t in mid {
        AssignedCoversParts(u, hmac, h, ds, byText, texts, n - 1, reserved, before, mid, t, k, v);
        StillHasKey(u, mid, after, k);
      } else {
        var e := byText[texts[n - 1]];
        DedupedNamed(u, ds, byText);
        StepAdds(u, hmac, h, e, reserved, mid, after, t);
        if t != e.text {
          PartIsOneWord(u, e.text, after[e.text], t, after[t]);
        } else {
          StepCoversParts(u, hmac, h, e, reserved, mid, after, k, v);
        }
      }
    }
  }

  /** Of a person of several words who gets a pseudonym, every first or last name is mapped afterwards, case
      aside, unless it is allow-listed. */
  lemma PartsMapped(u: Tables, hmac: string -> nat, h: Handler, ds: seq<Entity>, reserved: string, before: Mapping, after: Mapping, i: nat, t: string, k: string, v: string)
    requires Assigns(u, hmac, h, ds, reserved, before, after) && h.decompose && SaidBy(u, ds, t, i) && ds[i].typ == "PERSON"
    requires t in after && t !in before && ManyWords(u, t) && IsPart(u, t, after[t], k, v) && Fold(u, k) !in h.allowList
    ensures !NoneReads(u, after, k)
  {
    hide Assigned, Deduped, NoneReads, HasFoldKey, IsPart, ManyWords, SaidBy;
    var byText, texts :| IsAssignment(u, hmac, h, ds, reserved, before, after, byText, texts);
    OneDecides(u, ds, byText, t, i);
    NoneReadsIs(u, after, k);
    AssignedCoversParts(u, hmac, h, ds, byText, texts, |texts|, reserved, before, after, t, k, v);
  }

  lemma OneDecides(u: Tables, ds: seq<Entity>, byText: ByText, t: string, i: nat)
    requires Deduped(u, ds, |ds|, byText) && SaidBy(u, ds, t, i)
    ensures t in byText && byText[t].typ == ds[i].typ
  {
    hide Trim, HasDecider;
    var j := DeciderSays(u, ds, byText, t);
  }

  /** Every detection that is not blank has a key that reads like it. */
  lemma DetectionsMapped(u: Tables, hmac: string -> nat, h: Handler, ds: seq<Entity>, reserved: string, before: Mapping, after: Mapping, i: nat)
    requires Assigns(u, hmac, h, ds, reserved, before, after) && i < |ds| && Trim(u, ds[i].text) != []
    ensures !NoneReads(u, after, Trim(u, ds[i].text))
  {
    hide Assigns, NoneReads, HasFoldKey, Trim;
    AssignmentCovers(u, hmac, h, ds, reserved, before, after);
    NoneReadsIs(u, after, Trim(u, ds[i].text));
  }
}
