/** Streaming safety in terms a client can check on the continuation: boundaries, casings, and how much
    is held back. */
module StreamGuards {
  import opened Unicode
  import opened Scanner
  import opened Streaming
  import opened StreamRuns
  import opened StreamExact

  // ---- Boundaries ----

  /** A key begins another as its first name, or inside a word. */
  ghost predicate Stepwise(u: Tables, rules: Rules) {
    forall p, k :: p in rules.pats && k in rules.pats && k < p ==> IsWordRune(u, p[|k|]) || FirstOf(rules, p, k)
  }

  /** Behind what t takes at i, and behind what t + d takes there, no word goes on, and both are cased
      alike. */
  predicate GuardAt(u: Tables, pats: seq<string>, t: string, d: string, i: nat)
    requires i < |t|
  {
    var n, n' := KeyLen(u, pats, t, i), KeyLen(u, pats, t + d, i);
    && RightClear(u, t + d, i + n) && RightClear(u, t + d, End(u, t + d, i, n'))
    && (n != n' ==> CasingOf(u, t[i..i + n]) == CasingOf(u, (t + d)[i..i + n']))
  }

  ghost predicate GuardsHold(u: Tables, pats: seq<string>, t: string, d: string) {
    forall i: nat {:trigger GuardAt(u, pats, t, d, i)} :: i < |t| && Accepted(u, pats, t, i) ==> GuardAt(u, pats, t, d, i)
  }

  lemma GuardKeepsAccepted(u: Tables, pats: seq<string>, t: string, d: string, i: nat)
    requires i < |t| && Accepted(u, pats, t, i) && GuardAt(u, pats, t, d, i)
    ensures Accepted(u, pats, t + d, i)
  {
    hide KeyLen, RightClear, CasingOf, TailLen;
    if KeyLen(u, pats, t, i) != KeyLen(u, pats, t + d, i) {
      KeyCrosses(u, pats, t, d, i);
    }
    assert i > 0 ==> (t + d)[i - 1] == t[i - 1];
  }

  lemma SameCasingAlike(u: Tables, rules: Rules, a: string, b: string, p: string, k: string)
    requires FirstOf(rules, p, k) && CasingOf(u, a) == CasingOf(u, b)
    ensures MatchCase(u, a, rules.table[k]) == Recase(u, CasingOf(u, b), rules.table[k])
  {
    hide CasingOf, Recase;
  }

  lemma GuardParts(u: Tables, pats: seq<string>, t: string, d: string, i: nat, a: string, b: string, k: string, p: string)
    requires i < |t| && GuardAt(u, pats, t, d, i) && |k| == KeyLen(u, pats, t, i) && |p| == KeyLen(u, pats, t + d, i) && |k| != |p|
    requires i + |k| <= |t| && a == t[i..i + |k|] && b == (t + d)[i..i + |p|]
    ensures CasingOf(u, a) == CasingOf(u, b) && RightClear(u, t + d, i + |k|)
  {
    hide KeyLen, RightClear, CasingOf;
  }

  lemma NoWordBehind(u: Tables, s: string, i: nat, k: string, p: string)
    requires Lawful(u) && |k| < |p| && MatchesAt(u, s, i, p) && RightClear(u, s, i + |k|)
    ensures !IsWordRune(u, p[|k|])
  {
    assert Fold(u, s[i..i + |p|])[|k|] == u.Lower(s[i + |k|]);
    FoldKeepsWordClasses(u, s[i + |k|]);
  }

  lemma StepwiseAt(u: Tables, rules: Rules, p: string, k: string)
    requires Stepwise(u, rules) && p in rules.pats && k in rules.pats && k < p && !IsWordRune(u, p[|k|])
    ensures FirstOf(rules, p, k)
  {
  }

  lemma LongerStays(u: Tables, rules: Rules, t: string, d: string, i: nat, a: string, k: string, b: string, p: string)
    requires i < |t| && Accepted(u, rules.pats, t + d, i) && i + |k| <= |t| && i + |p| <= |t + d|
    requires a == t[i..i + |k|] && |k| == KeyLen(u, rules.pats, t, i) && b == (t + d)[i..i + |p|] && |p| == KeyLen(u, rules.pats, t + d, i)
    requires k == Fold(u, a) && p == Fold(u, b) && FirstOf(rules, p, k) && MatchCase(u, a, rules.table[k]) == Recase(u, CasingOf(u, b), rules.table[k])
    ensures StaysAt(u, rules, t, d, i)
  {
    hide KeyLen, MatchCase, Recase, CasingOf, Fold, Clear;
  }

  lemma GuardLonger(u: Tables, rules: Rules, t: string, d: string, i: nat)
    requires Lawful(u) && Parts(u, rules) && Stepwise(u, rules) && i < |t| && Accepted(u, rules.pats, t, i) && GuardAt(u, rules.pats, t, d, i)
    requires Accepted(u, rules.pats, t + d, i) && KeyLen(u, rules.pats, t, i) != KeyLen(u, rules.pats, t + d, i)
    ensures StaysAt(u, rules, t, d, i)
  {
    hide *;
    var a, k, b, p := LongerKeys(u, rules, t, d, i);
    GuardParts(u, rules.pats, t, d, i, a, b, k, p);
    NoWordBehind(u, t + d, i, k, p);
    StepwiseAt(u, rules, p, k);
    SameCasingAlike(u, rules, a, b, p, k);
    LongerStays(u, rules, t, d, i, a, k, b, p);
  }

  lemma GuardStays(u: Tables, rules: Rules, t: string, d: string, i: nat)
    requires Lawful(u) && Parts(u, rules) && Stepwise(u, rules) && i < |t| && Accepted(u, rules.pats, t, i) && GuardAt(u, rules.pats, t, d, i)
    ensures StaysAt(u, rules, t, d, i)
  {
    hide KeyLen, Clear, Parts, Stepwise, FirstOf, MatchCase, Recase, CasingOf, Fold, RightClear, MatchesAt, TailLen, Lawful, GuardAt;
    GuardKeepsAccepted(u, rules.pats, t, d, i);
    if KeyLen(u, rules.pats, t, i) != KeyLen(u, rules.pats, t + d, i) {
      GuardLonger(u, rules, t, d, i);
    }
  }

  // ---- Beginnings of keys are held back ----

  lemma HeldWhole(u: Tables, rules: Rules, t: string, d: string, h: nat, i: nat, acc: string)
    requires i < |t| && Anchored(u, t, i, acc) && Accepted(u, rules.pats, t + d, i) && Rewrite(u, rules, t, i) == t[i..]
    requires KeyLen(u, rules.pats, t, i) != KeyLen(u, rules.pats, t + d, i)
    requires IsHoldback(u, rules.pats, acc + Rewrite(u, rules, t, i), h)
    ensures Shown(t[i..], h) == []
  {
    assert LeftClear(u, t, i) by {
      assert i > 0 ==> (t + d)[i - 1] == t[i - 1];
    }
    hide KeyLen, Rewrite, IsHoldback, LeftClear, Anchored, MatchesAt, RightClear, TailLen;
    var b, p := KeyPastEnd(u, rules.pats, t, d, i);
    HeldBack(u, rules.pats, t, d, i, acc, p, h);
  }

  lemma CompletedHeld(u: Tables, rules: Rules, t: string, d: string, h: nat, i: nat, acc: string)
    requires Lawful(u) && Parts(u, rules) && i < |t| && !Agrees(u, rules.pats, t, d, i) && !Accepted(u, rules.pats, t, i)
    requires Unglued(u, rules, t, d) && AnchoredOrGlued(u, rules, t, i, acc)
    requires IsHoldback(u, rules.pats, acc + Rewrite(u, rules, t, i), h)
    ensures KeptAt(u, rules, t, d, h, i)
  {
    assert TakenAt(u, rules, t, i) == t[i..];
    hide KeyLen, Rewrite, IsHoldback, Anchored, Agrees, Parts, Clear, PlaceAt, TakenAt, StaysAt, GluedEnd, Lawful, Shown;
    if Accepted(u, rules.pats, t + d, i) {
      NewlyTaken(u, rules, t, d, i);
      KeyCrosses(u, rules.pats, t, d, i);
      assert !GluedEnd(u, rules, t, i);
      PartingCopied(u, rules, t, d, i);
      HeldWhole(u, rules, t, d, h, i, acc);
    } else {
      SourceTakesPlace(u, rules, t, d, i);
      ShownBegins(t[i..], h);
    }
  }

  lemma {:induction false} GuardsKeep(u: Tables, rules: Rules, t: string, d: string, h: nat, i: nat, acc: string)
    requires Lawful(u) && Parts(u, rules) && Stepwise(u, rules) && GuardsHold(u, rules.pats, t, d) && Unglued(u, rules, t, d)
    requires i <= |t| && AnchoredOrGlued(u, rules, t, i, acc) && IsHoldback(u, rules.pats, acc + Rewrite(u, rules, t, i), h)
    ensures Kept(u, rules, t, d, h, i)
    decreases |t| - i
  {
    hide LaterWords, StartsClean, Stepwise, KeyLen, Clear, StaysAt, GuardAt, Rewrite, PlaceAt, Shown, TakenAt, AnchoredOrGlued, IsHoldback, Emit, Unglued, End;
    if i < |t| {
      if Agrees(u, rules.pats, t, d, i) {
        SafeStep(u, rules, t, d, i, acc);
        AnchoredStep(u, rules, t, i, acc);
        var n := KeyLen(u, rules.pats, t, i);
        GuardsKeep(u, rules, t, d, h, End(u, t, i, n), acc + Emit(u, rules.table, t, i, n));
      } else if Accepted(u, rules.pats, t, i) {
        GuardStays(u, rules, t, d, i);
      } else {
        CompletedHeld(u, rules, t, d, h, i, acc);
      }
    }
  }

  lemma AtStart(u: Tables, rules: Rules, t: string, r: string)
    ensures AnchoredOrGlued(u, rules, t, 0, []) && [] + r == r
  {
  }

  /** With decomposed names and numbered ones nothing shown is taken back, as long as what the
      continuation makes of each match ends a word and keeps its casing, and completes no key directly
      behind a token whose name ends in a word. */
  lemma DecomposedStreaming(u: Tables, rules: Rules, t: string, d: string, h: nat)
    requires Lawful(u) && Parts(u, rules) && Stepwise(u, rules) && GuardsHold(u, rules.pats, t, d) && Unglued(u, rules, t, d)
    requires IsHoldback(u, rules.pats, Rewrite(u, rules, t, 0), h)
    ensures Shown(Rewrite(u, rules, t, 0), h) <= Rewrite(u, rules, t + d, 0)
  {
    hide *;
    AtStart(u, rules, t, Rewrite(u, rules, t, 0));
    GuardsKeep(u, rules, t, d, h, 0, []);
    StreamingExact(u, rules, t, d, h);
  }

  // ---- Stays, or held back whole ----

  /** Case aside, a value and its key begin with different characters, and so do the values of keys that
      begin one another inside a word. */
  ghost predicate OwnBeginnings(u: Tables, rules: Rules) {
    && (forall p :: p in rules.pats && p in rules.table ==> Unlike(u, rules.table[p], p))
    && (forall p, k :: p in rules.pats && k in rules.pats && k < p && !FirstOf(rules, p, k) && p in rules.table && k in rules.table ==>
          Unlike(u, rules.table[k], Fold(u, rules.table[p])))
  }

  predicate Unlike(u: Tables, value: string, lowered: string) {
    value != [] && lowered != [] && u.Lower(value[0]) != lowered[0]
  }

  predicate CasingAt(u: Tables, pats: seq<string>, t: string, d: string, i: nat)
    requires i < |t|
  {
    var n, n' := KeyLen(u, pats, t, i), KeyLen(u, pats, t + d, i);
    n != n' ==> CasingOf(u, t[i..i + n]) == CasingOf(u, (t + d)[i..i + n'])
  }

  /** A longer key that takes the place of an accepted one is cased alike. */
  ghost predicate CasingsHold(u: Tables, pats: seq<string>, t: string, d: string) {
    forall i: nat {:trigger CasingAt(u, pats, t, d, i)} ::
      i < |t| && Accepted(u, pats, t, i) && Accepted(u, pats, t + d, i) ==> CasingAt(u, pats, t, d, i)
  }

  /** t and t + d accept the same key at i, or a first name and its full name, or nothing. */
  predicate SameAt(u: Tables, rules: Rules, t: string, d: string, i: nat)
    requires i < |t|
  {
    var n, n' := KeyLen(u, rules.pats, t, i), KeyLen(u, rules.pats, t + d, i);
    if Accepted(u, rules.pats, t, i) then
      Accepted(u, rules.pats, t + d, i) && (n == n' || FirstOf(rules, Fold(u, (t + d)[i..i + n']), Fold(u, t[i..i + n])))
    else !Accepted(u, rules.pats, t + d, i)
  }

  /** Where the scans part, what t has stays, or none of it is shown. */
  predicate StaysOrHeld(u: Tables, rules: Rules, t: string, d: string, h: nat, i: nat)
    decreases |t| - i
  {
    i >= |t| || if Agrees(u, rules.pats, t, d, i) then StaysOrHeld(u, rules, t, d, h, Next(u, rules.pats, t, i))
                else SameAt(u, rules, t, d, i) || h >= |TakenAt(u, rules, t, i)|
  }

  lemma HeldIsShown(r: string, h: nat, place: string)
    ensures h >= |r| ==> Shown(r, h) <= place
    ensures h < |r| ==> Shown(r, h) != [] && Shown(r, h)[0] == r[0]
  {
  }

  /** A text that begins otherwise, case aside, is no beginning. */
  lemma UnlikeBegins(u: Tables, r: string, h: nat, place: string)
    requires r != [] && place != [] && u.Lower(r[0]) != u.Lower(place[0])
    ensures Shown(r, h) <= place <==> h >= |r|
  {
    HeldIsShown(r, h, place);
    hide Shown;
  }

  lemma FirstOfCased(u: Tables, source: string, value: string, tail: string)
    requires Lawful(u) && CaseStable(u, value) && value != []
    ensures MatchCase(u, source, value) != [] && u.Lower((MatchCase(u, source, value) + tail)[0]) == u.Lower(value[0])
  {
    MatchCaseFolds(u, source, value);
    var w := MatchCase(u, source, value);
    assert u.Lower(w[0]) == Fold(u, w)[0] == Fold(u, value)[0];
    hide MatchCase;
  }

  lemma UnlikeAt(u: Tables, rules: Rules, p: string)
    requires OwnBeginnings(u, rules) && Exacting(u, rules) && p in rules.pats && p in rules.table
    ensures Unlike(u, rules.table[p], p) && CaseStable(u, rules.table[p])
  {
    hide CaseStable, Fold;
    assert NotBegun(u, p, rules.table[p]);
  }

  /** An accepted match that t + d un-accepts. */
  lemma UnacceptedIff(u: Tables, rules: Rules, t: string, d: string, h: nat, i: nat)
    requires Lawful(u) && WellFormed(rules) && Exacting(u, rules) && OwnBeginnings(u, rules) && i < |t|
    requires Accepted(u, rules.pats, t, i) && !Accepted(u, rules.pats, t + d, i)
    ensures Shown(TakenAt(u, rules, t, i), h) <= PlaceAt(u, rules, t, d, i) <==> h >= |TakenAt(u, rules, t, i)|
  {
    hide KeyLen, MatchCase, Exacting, OwnBeginnings, WellFormed, Lawful, Shown, FoldTo, TailLen, CaseStable, LeftClear, RightClear;
    var a, k := AcceptedSource(u, rules, t, i);
    UnlikeAt(u, rules, k);
    FirstOfCased(u, a, rules.table[k], t[i + |k|..]);
    assert t[i] == a[0] && k[0] == u.Lower(a[0]);
    UnlikeBegins(u, TakenAt(u, rules, t, i), h, t[i..]);
  }

  /** An accepted match that a longer key's value takes the place of. */
  lemma LongerIff(u: Tables, rules: Rules, t: string, d: string, h: nat, i: nat, a: string, k: string, b: string, p: string)
    requires Lawful(u) && Exacting(u, rules) && OwnBeginnings(u, rules)
    requires p in rules.pats && k in rules.pats && k < p && p in rules.table && k in rules.table && !FirstOf(rules, p, k)
    ensures Shown(MatchCase(u, a, rules.table[k]) + t, h) <= MatchCase(u, b, rules.table[p]) <==> h >= |MatchCase(u, a, rules.table[k]) + t|
  {
    UnlikeAt(u, rules, k);
    UnlikeAt(u, rules, p);
    assert Unlike(u, rules.table[k], Fold(u, rules.table[p]));
    hide MatchCase, Exacting, OwnBeginnings, Lawful, Shown, FoldTo, CaseStable, FirstOf;
    FirstOfCased(u, a, rules.table[k], t);
    FirstOfCased(u, b, rules.table[p], []);
    assert MatchCase(u, b, rules.table[p]) + [] == MatchCase(u, b, rules.table[p]);
    UnlikeBegins(u, MatchCase(u, a, rules.table[k]) + t, h, MatchCase(u, b, rules.table[p]));
  }

  /** The beginning of a key that t + d completes. */
  lemma CompletedIff(u: Tables, rules: Rules, t: string, d: string, h: nat, i: nat)
    requires Lawful(u) && WellFormed(rules) && Exacting(u, rules) && OwnBeginnings(u, rules) && i < |t|
    requires Accepted(u, rules.pats, t + d, i)
    ensures Shown(t[i..], h) <= PlaceAt(u, rules, t, d, i) <==> h >= |t| - i
  {
    var b, p := AcceptedSource(u, rules, t + d, i);
    UnlikeAt(u, rules, p);
    assert (t + d)[i] == t[i] == t[i..][0] && b[0] == t[i] && p[0] == u.Lower(b[0]);
    hide KeyLen, MatchCase, Exacting, OwnBeginnings, WellFormed, Lawful, Shown, FoldTo, CaseStable, LeftClear, RightClear;
    FirstOfCased(u, b, rules.table[p], []);
    assert MatchCase(u, b, rules.table[p]) + [] == MatchCase(u, b, rules.table[p]);
    UnlikeBegins(u, t[i..], h, MatchCase(u, b, rules.table[p]));
  }

  lemma SameKeyParts(u: Tables, rules: Rules, t: string, d: string, i: nat, a: string, k: string, b: string, p: string)
    requires i < |t| && Accepted(u, rules.pats, t, i) && Accepted(u, rules.pats, t + d, i) && |k| != |p|
    requires |k| == KeyLen(u, rules.pats, t, i) && |p| == KeyLen(u, rules.pats, t + d, i) && i + |k| <= |t|
    requires a == t[i..i + |k|] && k == Fold(u, a) && b == (t + d)[i..i + |p|] && p == Fold(u, b) && k in rules.table
    ensures SameAt(u, rules, t, d, i) <==> FirstOf(rules, p, k)
    ensures StaysAt(u, rules, t, d, i) ==> FirstOf(rules, p, k)
    ensures TakenAt(u, rules, t, i) == MatchCase(u, a, rules.table[k]) + t[i + |k|..]
    ensures CasingsHold(u, rules.pats, t, d) ==> CasingOf(u, a) == CasingOf(u, b)
  {
    hide KeyLen, MatchCase, Fold, LeftClear, RightClear, CasingOf, TailLen;
    assert CasingsHold(u, rules.pats, t, d) ==> CasingAt(u, rules.pats, t, d, i);
  }

  lemma AcceptedLongerIff(u: Tables, rules: Rules, t: string, d: string, h: nat, i: nat)
    requires Lawful(u) && Parts(u, rules) && Exacting(u, rules) && OwnBeginnings(u, rules) && CasingsHold(u, rules.pats, t, d)
    requires i < |t| && Accepted(u, rules.pats, t, i) && Accepted(u, rules.pats, t + d, i)
    requires KeyLen(u, rules.pats, t, i) != KeyLen(u, rules.pats, t + d, i)
    ensures KeptAt(u, rules, t, d, h, i) <==> SameAt(u, rules, t, d, i) || h >= |TakenAt(u, rules, t, i)|
  {
    hide Parts, Exacting, OwnBeginnings, CasingsHold, KeyLen, Clear, StaysAt, SameAt, TakenAt, PlaceAt, Shown, FirstOf, MatchCase, CasingOf, Recase, Lawful, MatchesAt, Fold;
    var a, k, b, p := LongerKeys(u, rules, t, d, i);
    SameKeyParts(u, rules, t, d, i, a, k, b, p);
    if FirstOf(rules, p, k) {
      SameCasingAlike(u, rules, a, b, p, k);
      LongerStays(u, rules, t, d, i, a, k, b, p);
    } else {
      LongerIff(u, rules, t[i + |k|..], d, h, i, a, k, b, p);
    }
  }

  /** Where the scans part. */
  lemma PartingIff(u: Tables, rules: Rules, t: string, d: string, h: nat, i: nat)
    requires Lawful(u) && Parts(u, rules) && Exacting(u, rules) && OwnBeginnings(u, rules) && CasingsHold(u, rules.pats, t, d)
    requires i < |t| && !Agrees(u, rules.pats, t, d, i)
    ensures KeptAt(u, rules, t, d, h, i) <==> SameAt(u, rules, t, d, i) || h >= |TakenAt(u, rules, t, i)|
  {
    assert WellFormed(rules);
    hide Parts, Exacting, OwnBeginnings, CasingsHold, KeyLen, Clear, Shown, FirstOf, MatchCase, CasingOf, Recase, Lawful, WellFormed, Fold, PlaceAt, Agrees;
    if Accepted(u, rules.pats, t, i) {
      if !Accepted(u, rules.pats, t + d, i) {
        UnacceptedIff(u, rules, t, d, h, i);
      } else if KeyLen(u, rules.pats, t, i) != KeyLen(u, rules.pats, t + d, i) {
        AcceptedLongerIff(u, rules, t, d, h, i);
      }
    } else if Accepted(u, rules.pats, t + d, i) {
      CompletedIff(u, rules, t, d, h, i);
    } else {
      SourceTakesPlace(u, rules, t, d, i);
      ShownBegins(t[i..], h);
    }
  }

  lemma {:induction false} StaysOrHeldIff(u: Tables, rules: Rules, t: string, d: string, h: nat, i: nat)
    requires Lawful(u) && Parts(u, rules) && Exacting(u, rules) && OwnBeginnings(u, rules) && CasingsHold(u, rules.pats, t, d)
    ensures Kept(u, rules, t, d, h, i) <==> StaysOrHeld(u, rules, t, d, h, i)
    decreases |t| - i
  {
    hide Parts, Exacting, OwnBeginnings, CasingsHold, KeyLen, Agrees, KeptAt, SameAt, TakenAt, Lawful;
    if i < |t| {
      if Agrees(u, rules.pats, t, d, i) {
        StaysOrHeldIff(u, rules, t, d, h, Next(u, rules.pats, t, i));
      } else {
        PartingIff(u, rules, t, d, h, i);
      }
    }
  }

  /** Where values begin unlike their keys, nothing shown is taken back if and only if, where the scans
      of the sample and of the longer text part, both accept the same key, or a first name and its full
      name, or nothing, or what the sample has there is held back whole. */
  lemma HeldExactly(u: Tables, rules: Rules, t: string, d: string, h: nat)
    requires Lawful(u) && Parts(u, rules) && Exacting(u, rules) && OwnBeginnings(u, rules) && CasingsHold(u, rules.pats, t, d)
    requires IsHoldback(u, rules.pats, Rewrite(u, rules, t, 0), h)
    ensures Shown(Rewrite(u, rules, t, 0), h) <= Rewrite(u, rules, t + d, 0) <==> StaysOrHeld(u, rules, t, d, h, 0)
  {
    hide *;
    StaysOrHeldIff(u, rules, t, d, h, 0);
    StreamingExact(u, rules, t, d, h);
  }

  // ---- Whole streams ----

  /** visible is what the sample t of t + d shows, and t's part is kept. */
  ghost predicate ShownKept(u: Tables, rules: Rules, whole: string, visible: string, t: string, d: string, h: nat) {
    && whole == t + d && IsHoldback(u, rules.pats, Rewrite(u, rules, t, 0), h)
    && visible == Shown(Rewrite(u, rules, t, 0), h) && Kept(u, rules, t, d, h, 0)
  }

  ghost predicate KeptBySample(u: Tables, rules: Rules, whole: string, visible: string) {
    exists t, d, h: nat :: ShownKept(u, rules, whole, visible, t, d, h)
  }

  /** After any samples whose parts are kept, in any order and repeated at will, and the complete text,
      the client has received exactly the rewriting of the complete text. */
  lemma KeptStreamDelivers(u: Tables, rules: Rules, whole: string, visibles: seq<string>)
    requires Lawful(u) && Parts(u, rules) && forall v :: v in visibles ==> KeptBySample(u, rules, whole, v)
    ensures Send(Received([], visibles), Rewrite(u, rules, whole, 0)) == Rewrite(u, rules, whole, 0)
  {
    hide Parts, Rewrite, Lawful, Kept, IsHoldback, Shown;
    forall v | v in visibles
      ensures v <= Rewrite(u, rules, whole, 0)
    {
      var t, d, h: nat :| ShownKept(u, rules, whole, v, t, d, h);
      StreamingExact(u, rules, t, d, h);
    }
    ReceivedIsPrefix(Rewrite(u, rules, whole, 0), [], visibles);
  }

  /** And only such samples will do: one sample and the complete text deliver it if and only if the
      sample's part is kept. */
  lemma SampleDeliversIff(u: Tables, rules: Rules, t: string, d: string, h: nat)
    requires Lawful(u) && Parts(u, rules) && Exacting(u, rules) && IsHoldback(u, rules.pats, Rewrite(u, rules, t, 0), h)
    ensures Send(Received([], [Shown(Rewrite(u, rules, t, 0), h)]), Rewrite(u, rules, t + d, 0)) == Rewrite(u, rules, t + d, 0) <==>
              Kept(u, rules, t, d, h, 0)
  {
    hide *;
    StreamingExact(u, rules, t, d, h);
    SentAlone(Shown(Rewrite(u, rules, t, 0), h), Rewrite(u, rules, t + d, 0));
  }

  lemma SentAlone(v: string, whole: string)
    ensures Send(Received([], [v]), whole) == whole <==> v <= whole
  {
    assert [v][1..] == [] && Received([], [v]) == Received(Send([], v), []) == v;
    if v <= whole {
      assert v + whole[|v|..] == whole;
    } else if |whole| > |v| {
      assert (v + whole[|v|..])[..|v|] == v;
    }
  }
}
