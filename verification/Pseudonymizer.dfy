/** The handler: a text is pseudonymized with its session's mapping and reversed with its inverse. */
module Pseudonymizer {
  import opened Unicode
  import opened Ordering
  import opened Mappings
  import opened Scanner
  import Rewriting
  import opened Replacer
  import opened Streaming
  import opened Reversal
  import opened RoundTrip
  import opened RoundTripPairs
  import Numbered
  import opened Assignments
  import opened Covering
  import opened Distinct
  import opened Sessions

  /** What detection and the filters leave, or the detector's failure. */
  datatype Detected = Unavailable | Kept(ds: seq<Entity>)

  datatype Outcome = Failed | Rewritten(text: string, created: nat, size: nat)

  /** The mapping after the first n merges. */
  function MergeAll(m: Mapping, others: seq<Mapping>, n: nat): (r: Mapping)
    requires n <= |others|
    ensures Extends(m, r)
  {
    if n == 0 then m else Merge(MergeAll(m, others, n - 1), others[n - 1])
  }

  /** What other requests of the session merge in the meantime. */
  method OthersMerge(store: RedisStore, id: string, others: seq<Mapping>)
    modifies store
    ensures store.MappingOf(id) == MergeAll(old(store.MappingOf(id)), others, |others|)
    ensures OtherSessionsKept(old(store.sessions), store.sessions, id)
  {
    for i := 0 to |others|
      invariant store.MappingOf(id) == MergeAll(old(store.MappingOf(id)), others, i)
      invariant OtherSessionsKept(old(store.sessions), store.sessions, id)
    {
      hide Merge;
      var _ := store.AddMappings(id, others[i]);
    }
  }

  ghost predicate OtherSessionsKept(before: map<string, Mapping>, after: map<string, Mapping>, id: string) {
    before - {id} == after - {id}
  }

  lemma KeptThrough(before: map<string, Mapping>, mid: map<string, Mapping>, after: map<string, Mapping>, id: string, m: Mapping)
    requires OtherSessionsKept(before, mid, id) && (after == mid || after == mid[id := m])
    ensures OtherSessionsKept(before, after, id)
  {
    assert mid[id := m] - {id} == mid - {id};
  }

  /** The mapping a request rewrites with covers its detections and agrees with the session. */
  ghost predicate FitFor(u: Tables, ds: seq<Entity>, merged: Mapping, session: Mapping) {
    Covered(u, ds, merged) && Extends(merged, session)
  }

  /** after is what the request would map on its own; what that adds is merged behind what others
      merged, and the request rewrites with the merge, or with what it read if it adds nothing. */
  ghost predicate MergedAs(u: Tables, hmac: string -> nat, h: Assignments.Handler, ds: seq<Entity>, reserved: string, others: seq<Mapping>,
      read: Mapping, after: Mapping, merged: Mapping, created: nat, session: Mapping) {
    && Assigns(u, hmac, h, ds, reserved, read, after) && created == |NewIn(read, after)|
    && session == Merge(MergeAll(read, others, |others|), NewIn(read, after))
    && merged == if created == 0 then read else session
  }

  /** Read, assign, merge: others may merge in between. */
  method MergeNew(u: Tables, hmac: string -> nat, h: Assignments.Handler, store: RedisStore, id: string, ds: seq<Entity>, reserved: string, others: seq<Mapping>)
    returns (merged: Mapping, created: nat)
    requires Lawful(u)
    modifies store
    ensures OtherSessionsKept(old(store.sessions), store.sessions, id)
    ensures exists after :: MergedAs(u, hmac, h, ds, reserved, others, old(store.MappingOf(id)), after, merged, created, store.MappingOf(id))
  {
    hide Assigns, OtherSessionsKept, NewIn, Merge;
    var existing := store.GetMapping(id);
    var newMap;
    ghost var scratch;
    newMap, scratch := AssignNew(u, hmac, h, ds, existing, reserved);
    OthersMerge(store, id, others);
    ghost var behind := store.MappingOf(id);
    merged, created := existing, |newMap|;
    if |newMap| != 0 {
      ghost var mid := store.sessions;
      merged := store.AddMappings(id, newMap);
      KeptThrough(old(store.sessions), mid, store.sessions, id, merged);
    } else {
      MergeNothing(behind, newMap);
    }
    assert MergedAs(u, hmac, h, ds, reserved, others, existing, scratch, merged, created, store.MappingOf(id));
  }

  lemma MergeNothing(m: Mapping, more: Mapping)
    requires |more| == 0
    ensures Merge(m, more) == m
  {
    assert more.Keys == {};
  }

  /** So the request rewrites with a mapping that covers its detections and agrees with the session;
      detections that were covered add nothing. */
  lemma MergedFits(u: Tables, hmac: string -> nat, h: Assignments.Handler, ds: seq<Entity>, reserved: string, others: seq<Mapping>,
      read: Mapping, after: Mapping, merged: Mapping, created: nat, session: Mapping)
    requires MergedAs(u, hmac, h, ds, reserved, others, read, after, merged, created, session)
    ensures FitFor(u, ds, merged, session) && Extends(read, session)
    ensures Covered(u, ds, read) ==> created == 0 && merged == read
  {
    hide Assigns, Covered, NewIn;
    NothingForCovered(u, hmac, h, ds, reserved, read, after);
    var behind := MergeAll(read, others, |others|);
    MergeCovers(u, hmac, h, ds, reserved, read, after, behind);
    ExtendsAll(read, behind, session);
  }

  lemma ExtendsAll(a: Mapping, b: Mapping, c: Mapping)
    requires Extends(a, b) && Extends(b, c)
    ensures Extends(a, c)
  {
  }

  lemma NothingForCovered(u: Tables, hmac: string -> nat, h: Assignments.Handler, ds: seq<Entity>, reserved: string, existing: Mapping, scratch: Mapping)
    requires Assigns(u, hmac, h, ds, reserved, existing, scratch)
    ensures Covered(u, ds, existing) ==> NewIn(existing, scratch) == map[]
    ensures |NewIn(existing, scratch)| == 0 ==> NewIn(existing, scratch) == map[]
  {
    hide Assigns, Covered;
    if Covered(u, ds, existing) {
      CoveredGetNothing(u, hmac, h, ds, reserved, existing, scratch);
    }
    var n := NewIn(existing, scratch);
    if |n| == 0 {
      assert n.Keys == {};
    }
  }

  /** Pseudonymize, with other requests merging between its read and its merge.  The text is
      rewritten with a mapping that covers every detection kept and agrees with the session from
      then on; a failed detection passes nothing on; known detections add nothing. */
  method Pseudonymize(u: Tables, hmac: string -> nat, h: Assignments.Handler, store: RedisStore, id: string, text: string, detected: Detected, others: seq<Mapping>)
    returns (r: Outcome, ghost merged: Mapping, ghost rules: Rules)
    requires Lawful(u)
    modifies store
    ensures OtherSessionsKept(old(store.sessions), store.sessions, id)
    ensures Extends(old(store.MappingOf(id)), store.MappingOf(id))
    ensures Trim(u, text) == [] ==> r == Rewritten(text, 0, 0)
    ensures Trim(u, text) != [] && detected.Unavailable? ==> r == Failed
    ensures Trim(u, text) == [] || detected.Unavailable? || detected == Kept([]) ==> store.sessions == old(store.sessions)
    ensures Trim(u, text) != [] && detected.Kept? ==>
              && r.Rewritten? && RulesOf(u, merged, rules) && r.text == Rewrite(u, rules, text, 0) && r.size == |merged|
              && FitFor(u, detected.ds, merged, store.MappingOf(id)) && Rewriting.Rewritten(u, merged, text, 0, r.text)
    ensures Trim(u, text) != [] && detected.Kept? && Covered(u, detected.ds, old(store.MappingOf(id))) ==>
              r.created == 0 && merged == old(store.MappingOf(id))
    ensures Trim(u, text) != [] && detected.Kept? && detected.ds != [] ==>
              exists after :: MergedAs(u, hmac, h, detected.ds, Fold(u, text), others, old(store.MappingOf(id)), after, merged, r.created, store.MappingOf(id))
  {
    hide OtherSessionsKept, Rewrite, RulesOf, Merge, MergedAs, Rewriting.Rewritten;
    KeptAsIs(store.sessions, id);
    merged, rules := map[], Rules([], map[]);
    var blank := Trim(u, text) == "";
    if blank {
      return Rewritten(text, 0, 0), merged, rules;
    }
    NotEmpty(u, text);
    hide Trim, Covered;
    if detected.Unavailable? {
      return Failed, merged, rules;
    }
    var m, created: nat;
    if |detected.ds| == 0 {
      m := store.GetMapping(id);
      created := 0;
      assert Covered(u, detected.ds, m) by { NothingToCover(u, detected.ds, m); }
    } else {
      ghost var read := store.MappingOf(id);
      m, created := MergeNew(u, hmac, h, store, id, detected.ds, Fold(u, text), others);
      ghost var after :| MergedAs(u, hmac, h, detected.ds, Fold(u, text), others, read, after, m, created, store.MappingOf(id));
      MergedFits(u, hmac, h, detected.ds, Fold(u, text), others, read, after, m, created, store.MappingOf(id));
    }
    var out;
    out, rules := Replace(u, text, m);
    return Rewritten(out, created, |m|), m, rules;
  }

  lemma KeptAsIs(sessions: map<string, Mapping>, id: string)
    ensures OtherSessionsKept(sessions, sessions, id)
  {
  }

  lemma NothingToCover(u: Tables, ds: seq<Entity>, m: Mapping)
    requires |ds| == 0
    ensures Covered(u, ds, m)
  {
  }

  lemma NotEmpty(u: Tables, text: string)
    ensures text == [] ==> Trim(u, text) == []
  {
  }

  /** Reverse: `reverse` inverts the session's mapping, and the text is rewritten with it. */
  method Reverse(u: Tables, store: RedisStore, id: string, text: string) returns (out: string, ghost reverse: Mapping, ghost rules: Rules)
    ensures IsReverse(store.MappingOf(id), reverse)
    ensures text == [] ==> out == text
    ensures text != [] ==> RulesOf(u, reverse, rules) && out == Rewrite(u, rules, text, 0)
    ensures Rewriting.Rewritten(u, reverse, text, 0, out)
    ensures store.MappingOf(id) == map[] ==> out == text
  {
    hide Rewriting.KeyAt, Rewriting.NoneAt, Rewriting.Becomes;
    var rev := store.GetReverseMapping(id);
    reverse := rev;
    if text == "" {
      return text, reverse, Rules([], map[]);
    }
    if |rev| == 0 {
      rules := Rules([], map[]);
      NoRules(u, rev);
      NoPatterns(u, rules, text, 0);
      ScanRewrites(u, rev, rules, text, 0);
      return text, reverse, rules;
    }
    out, rules := Replace(u, text, rev);
  }

  lemma NoRules(u: Tables, m: Mapping)
    requires |m| == 0
    ensures m == map[] && RulesOf(u, m, Rules([], map[]))
  {
    assert m.Keys == {};
    assert m == map[];
    assert SortedElements([], NonEmptyKeys(m)) && FoldAll(u, []) == [];
  }

  // ---- The round trip of a session's mapping ----

  /** Names and pseudonyms are not empty, and upper-casing them changes nothing but case. */
  ghost predicate Ordinary(u: Tables, m: Mapping) {
    forall k :: k in m ==> k != [] && m[k] != [] && CaseStable(u, k) && CaseStable(u, m[k]) && WidthStable(u, m[k])
  }

  lemma PatternOf(u: Tables, m: Mapping, rules: Rules, p: string) returns (k: string)
    requires RulesOf(u, m, rules) && FoldDistinct(u, m) && p in rules.pats
    ensures k in m && Fold(u, k) == p && p in rules.table && rules.table[p] == m[k]
  {
    var keys :| SortedElements(keys, NonEmptyKeys(m)) && rules.pats == FoldAll(u, keys);
    var i :| 0 <= i < |keys| && FoldAll(u, keys)[i] == p;
    k := keys[i];
    assert k in keys && Fold(u, k) == p;
    var l :| l in m && Fold(u, l) == p && rules.table[p] == m[l];
    assert SameFold(u, k, l);
  }

  lemma PatternValue(u: Tables, m: Mapping, rules: Rules, k: string)
    requires RulesOf(u, m, rules) && FoldDistinct(u, m) && k in m && k != []
    ensures Fold(u, k) in rules.pats && Fold(u, k) in rules.table && rules.table[Fold(u, k)] == m[k]
  {
    KeyIsPattern(u, m, rules, k);
    var l :| l in m && Fold(u, l) == Fold(u, k) && rules.table[Fold(u, k)] == m[l];
    assert SameFold(u, k, l);
  }

  /** Rules compiled from a mapping and from its reverse undo each other if neither names nor
      pseudonyms differ in case only. */
  lemma MappingReverses(u: Tables, m: Mapping, rev: Mapping, fwd: Rules, back: Rules)
    requires RulesOf(u, m, fwd) && RulesOf(u, rev, back) && IsReverse(m, rev) && Ordinary(u, m)
    requires FoldDistinct(u, m) && FoldDistinct(u, rev) && DistinctValues(m)
    ensures Reverses(u, fwd, back)
  {
    RulesWellFormed(u, m, fwd);
    RulesWellFormed(u, rev, back);
    hide RulesOf, WellFormed, CaseStable, WidthStable, FoldDistinct;
    forall p | p in fwd.pats
      ensures ReversesKey(u, fwd, back, p)
    {
      var k := PatternOf(u, m, fwd, p);
      PatternValue(u, rev, back, m[k]);
    }
  }

  /** And every pseudonym goes back to a name. */
  lemma MappingReturns(u: Tables, m: Mapping, rev: Mapping, fwd: Rules, back: Rules)
    requires RulesOf(u, m, fwd) && RulesOf(u, rev, back) && IsReverse(m, rev) && Ordinary(u, m) && FoldDistinct(u, rev)
    ensures Returns(u, fwd, back)
  {
    hide RulesOf, CaseStable, WidthStable, FoldDistinct;
    forall g | g in back.pats
      ensures g in back.table && CaseStable(u, back.table[g]) && Fold(u, back.table[g]) in fwd.pats
    {
      var v := PatternOf(u, rev, back, g);
      KeyIsPattern(u, m, fwd, rev[v]);
    }
  }

  /** A session's mapping and its reverse, compiled; names start with a letter, digit or underscore,
      pseudonyms with no space or apostrophe. */
  ghost predicate Session(u: Tables, m: Mapping, rev: Mapping, fwd: Rules, back: Rules) {
    && Lawful(u) && RulesOf(u, m, fwd) && RulesOf(u, rev, back) && IsReverse(m, rev) && Ordinary(u, m)
    && FoldDistinct(u, m) && FoldDistinct(u, rev) && DistinctValues(m)
    && WordStarts(u, fwd.pats) && StartsClean(back.pats)
  }

  lemma SessionReverses(u: Tables, m: Mapping, rev: Mapping, fwd: Rules, back: Rules)
    requires Session(u, m, rev, fwd, back)
    ensures Reversible(u, fwd, back) && Returns(u, fwd, back)
    ensures (forall k :: k in m ==> WidthStable(u, k)) ==> LongestFirst(fwd.pats)
  {
    hide RulesOf, CaseStable, FoldDistinct, WordStarts, StartsClean, Reverses, LongestFirst, Returns, WidthStable;
    MappingReverses(u, m, rev, fwd, back);
    MappingReturns(u, m, rev, fwd, back);
    SortedLongestFirst(u, rev, back);
    if forall k :: k in m ==> WidthStable(u, k) {
      SortedLongestFirst(u, m, fwd);
    }
  }

  /** Pseudonymizing and reversing with one session's mapping gives the text back, case aside, if no
      name comes out as the beginning of a longer pseudonym and the way back takes no pseudonym that
      starts in what was copied; and only if, where full names begin with their first names and no
      pseudonym stands where its own name does. */
  lemma SessionRoundTrip(u: Tables, m: Mapping, rev: Mapping, fwd: Rules, back: Rules, text: string)
    requires Session(u, m, rev, fwd, back)
    ensures NoneJoined(u, fwd, back, text, 0) && Unstrayed(u, fwd, back, text) ==>
              Fold(u, Rewrite(u, back, Rewrite(u, fwd, text, 0), 0)) == Fold(u, text)
    ensures (forall k :: k in m ==> WidthStable(u, k)) && FirstsBegin(u, back) && Tellable(u, back, text) && Told(u, fwd, back, text) ==>
              (Fold(u, Rewrite(u, back, Rewrite(u, fwd, text, 0), 0)) == Fold(u, text) <==>
                NoneJoined(u, fwd, back, text, 0) && Unstrayed(u, fwd, back, text))
  {
    hide *;
    SessionReverses(u, m, rev, fwd, back);
    RoundTripFolded(u, fwd, back, text);
  }

  /** Where the session holds full names next to their first and last names, it does if and only if
      the scan nowhere replaces a name whose pseudonym makes up a full one with what comes behind a
      space, and the way back takes no pseudonym that starts in what was copied; where full names are
      just their first and last names, only a last name in the text itself can make one up. */
  lemma SessionPairsRoundTrip(u: Tables, m: Mapping, rev: Mapping, fwd: Rules, back: Rules, text: string)
    requires Session(u, m, rev, fwd, back) && Decomposed(u, back.pats)
    ensures NoPairs(u, fwd, back, text, 0) && Unstrayed(u, fwd, back, text) ==>
              Fold(u, Rewrite(u, back, Rewrite(u, fwd, text, 0), 0)) == Fold(u, text)
    ensures (forall k :: k in m ==> WidthStable(u, k)) && FirstsBegin(u, back) && Tellable(u, back, text) && FirstsTell(u, back, text) ==>
              (Fold(u, Rewrite(u, back, Rewrite(u, fwd, text, 0), 0)) == Fold(u, text) <==>
                NoPairs(u, fwd, back, text, 0) && Unstrayed(u, fwd, back, text))
    ensures (forall k :: k in m ==> WidthStable(u, k)) && Spelled(u, back) && FirstsBegin(u, back) && Tellable(u, back, text) && FirstsTell(u, back, text) ==>
              (Fold(u, Rewrite(u, back, Rewrite(u, fwd, text, 0), 0)) == Fold(u, text) <==>
                NoLiteralPairs(u, fwd, back, text, 0) && Unstrayed(u, fwd, back, text))
    ensures (forall k :: k in m ==> WidthStable(u, k)) && Spelled(u, back) && PartsKnown(back.pats) && NotInText(u, back.pats, text) ==>
              Fold(u, Rewrite(u, back, Rewrite(u, fwd, text, 0), 0)) == Fold(u, text)
  {
    hide *;
    SessionReverses(u, m, rev, fwd, back);
    IsPaired(u, fwd, back);
    DecomposedRoundTrip(u, fwd, back, text);
    if (forall k :: k in m ==> WidthStable(u, k)) && Spelled(u, back) {
      SpelledRoundTrip(u, fwd, back, text);
      if PartsKnown(back.pats) && NotInText(u, back.pats, text) {
        FreshRoundTrip(u, fwd, back, text);
      }
    }
  }

  lemma IsPaired(u: Tables, fwd: Rules, back: Rules)
    requires Reversible(u, fwd, back) && Decomposed(u, back.pats)
    ensures Paired(u, fwd, back)
  {
  }

  /** What the reserved check gives the round trip: a new pseudonym that is not in the lower-cased
      text stands nowhere in the text, in whatever casing; its parts may. */
  lemma FreeNotInText(u: Tables, text: string, used: set<string>, v: string, i: nat)
    requires text != [] && Numbered.Free(u, used, Fold(u, text), v)
    ensures !MatchesAt(u, text, i, Fold(u, v))
  {
    var g := Fold(u, v);
    if i + |g| <= |text| {
      assert Fold(u, text)[i..i + |g|] == Fold(u, text[i..i + |g|]);
      assert Numbered.OccursAt(Fold(u, text), g, i) <==> MatchesAt(u, text, i, g);
    }
  }
}
