/** When a round trip is exact, and concrete texts where keys survive or come back as another. */
module RoundTripLimits {
  import opened Unicode
  import opened Tokens
  import opened Scanner
  import opened Replacer
  import opened Streaming
  import opened Reversal
  import opened RoundTrip
  import opened RoundTripPairs
  import opened PlainText
  import Numbered

  // ---- Exact spelling ----

  /** A value in mixed case: upper-cased it reads as upper case, lower-cased as lower case. */
  ghost predicate MixedCase(u: Tables, v: string) {
    && !IsToken(v) && CasingOf(u, v) == AsIs
    && CasingOf(u, Upper(u, v)) == AllUpper && CasingOf(u, Fold(u, v)) == AllLower
  }

  /** A source replaced by a mixed-case value comes back as the stored name in the source's casing:
      exactly if it was written in stored spelling, or in upper case throughout, or in lower. */
  lemma ExactSpelling(u: Tables, fwd: Rules, back: Rules, source: string)
    requires Lawful(u) && Fold(u, source) in fwd.table
    requires var v := fwd.table[Fold(u, source)]; MixedCase(u, v) && CaseStable(u, v) && Fold(u, v) in back.table && !IsToken(back.table[Fold(u, v)])
    ensures var k := back.table[Fold(u, fwd.table[Fold(u, source)])];
            Returned(u, fwd, back, source) == source <==>
              source == (match CasingOf(u, source) case AsIs => k case AllUpper => Upper(u, k) case AllLower => Fold(u, k))
  {
    hide FlagsOf, Fold, Upper, IsToken, CaseStable;
    FoldUpper(u, fwd.table[Fold(u, source)]);
  }

  /** A source replaced by a token comes back as the stored name: exactly if written in stored
      spelling. */
  lemma TokenSpelling(u: Tables, fwd: Rules, back: Rules, source: string)
    requires Fold(u, source) in fwd.table && IsToken(fwd.table[Fold(u, source)]) && Fold(u, fwd.table[Fold(u, source)]) in back.table
    ensures Returned(u, fwd, back, source) == source <==> source == back.table[Fold(u, fwd.table[Fold(u, source)])]
  {
  }

  /** A source in stored spelling, or in upper case throughout, or in lower. */
  ghost predicate WellSpelled(u: Tables, fwd: Rules, back: Rules, source: string) {
    && Fold(u, source) in fwd.table && Fold(u, fwd.table[Fold(u, source)]) in back.table
    && var k := back.table[Fold(u, fwd.table[Fold(u, source)])];
       source == (match CasingOf(u, source) case AsIs => k case AllUpper => Upper(u, k) case AllLower => Fold(u, k))
  }

  /** Every source replaced in text[i..] is. */
  ghost predicate AllWellSpelled(u: Tables, fwd: Rules, back: Rules, text: string, i: nat)
    decreases |text| - i
  {
    i >= |text| || (
      && (Accepted(u, fwd.pats, text, i) ==> WellSpelled(u, fwd, back, text[i..i + KeyLen(u, fwd.pats, text, i)]))
      && AllWellSpelled(u, fwd, back, text, Next(u, fwd.pats, text, i)))
  }

  /** Values are in mixed case, and no name is a token. */
  ghost predicate MixedValues(u: Tables, fwd: Rules, back: Rules) {
    && (forall p :: p in fwd.pats && p in fwd.table ==> MixedCase(u, fwd.table[p]))
    && (forall g :: g in back.pats && g in back.table ==> !IsToken(back.table[g]))
  }

  lemma ExactAtSpelling(u: Tables, fwd: Rules, back: Rules, text: string, i: nat)
    requires Lawful(u) && Reverses(u, fwd, back) && MixedValues(u, fwd, back) && i < |text| && Accepted(u, fwd.pats, text, i)
    ensures ExactAt(u, fwd, back, text, i) <==> WellSpelled(u, fwd, back, text[i..i + KeyLen(u, fwd.pats, text, i)])
  {
    hide *;
    AcceptedTakes(u, fwd.pats, text, i);
    KeyTaken(u, fwd.pats, text, i);
    var source := text[i..i + KeyLen(u, fwd.pats, text, i)];
    SpellingPremises(u, fwd, back, source);
    ExactSpelling(u, fwd, back, source);
    ExactIs(u, fwd, back, text, i, KeyLen(u, fwd.pats, text, i));
    WellSpelledIs(u, fwd, back, source);
  }

  lemma SpellingPremises(u: Tables, fwd: Rules, back: Rules, source: string)
    requires Reverses(u, fwd, back) && MixedValues(u, fwd, back) && Fold(u, source) in fwd.pats
    ensures Fold(u, source) in fwd.table
    ensures var v := fwd.table[Fold(u, source)];
            MixedCase(u, v) && CaseStable(u, v) && Fold(u, v) in back.table && !IsToken(back.table[Fold(u, v)])
  {
    hide MixedCase, CaseStable, IsToken, Fold;
    assert ReversesKey(u, fwd, back, Fold(u, source));
  }

  lemma WellSpelledIs(u: Tables, fwd: Rules, back: Rules, source: string)
    requires Fold(u, source) in fwd.table && Fold(u, fwd.table[Fold(u, source)]) in back.table
    ensures var k := back.table[Fold(u, fwd.table[Fold(u, source)])];
            WellSpelled(u, fwd, back, source) <==>
              source == (match CasingOf(u, source) case AsIs => k case AllUpper => Upper(u, k) case AllLower => Fold(u, k))
  {
    hide CasingOf, Fold, Upper;
  }

  lemma {:induction false} AllExactSpelling(u: Tables, fwd: Rules, back: Rules, text: string, i: nat)
    requires Lawful(u) && Reverses(u, fwd, back) && MixedValues(u, fwd, back)
    ensures AllExact(u, fwd, back, text, i) <==> AllWellSpelled(u, fwd, back, text, i)
    decreases |text| - i
  {
    hide Reverses, MixedValues, WellSpelled, Clear, KeyLen;
    if i < |text| {
      if Accepted(u, fwd.pats, text, i) {
        ExactAtSpelling(u, fwd, back, text, i);
      }
      AllExactSpelling(u, fwd, back, text, Next(u, fwd.pats, text, i));
    }
  }

  /** With mixed-case values, a round trip that meets no joined source and no stray value is exact if
      and only if every source it replaced was written as stored, or all in upper case, or all in
      lower. */
  lemma ExactIff(u: Tables, fwd: Rules, back: Rules, text: string)
    requires Reversible(u, fwd, back) && NoneJoined(u, fwd, back, text, 0) && Unstrayed(u, fwd, back, text) && MixedValues(u, fwd, back)
    ensures Rewrite(u, back, Rewrite(u, fwd, text, 0), 0) == text <==> AllWellSpelled(u, fwd, back, text, 0)
  {
    hide *;
    LawfulRules(u, fwd, back);
    RoundTripExact(u, fwd, back, text);
    AllExactSpelling(u, fwd, back, text, 0);
  }

  // ---- Keys that survive ----

  /** No longer key matches at q. */
  ghost predicate NoLongerKey(u: Tables, pats: seq<string>, text: string, q: nat, p: string) {
    forall r :: r in pats && MatchesAt(u, text, q, r) ==> |r| <= |p|
  }

  predicate IsMatchOf(ms: seq<Match>, q: nat, n: nat) {
    exists m :: m in ms && m.start == q && m.keyEnd == q + n
  }

  /** q lies inside a match that starts before it. */
  predicate LiesInside(ms: seq<Match>, q: nat) {
    exists m :: m in ms && m.start < q < m.end
  }

  /** Where a key stands as whole words, it is matched if and only if no longer key matches at the
      same place and no match from before reaches over it; matched, it is replaced by its value in
      the casing of the source, with its tail kept. */
  lemma WholeWordFate(u: Tables, rules: Rules, text: string, q: nat, p: string)
    requires WellFormed(rules) && LongestFirst(rules.pats) && p in rules.pats && q < |text| && MatchesAt(u, text, q, p)
    requires LeftClear(u, text, q) && RightClear(u, text, End(u, text, q, |p|))
    ensures var ms := Matches(u, rules.pats, text, 0);
            IsMatchOf(ms, q, |p|) <==> NoLongerKey(u, rules.pats, text, q, p) && !LiesInside(ms, q)
    ensures var e, end := q + |p|, End(u, text, q, |p|);
            NoLongerKey(u, rules.pats, text, q, p) ==> Out(u, rules, text, q) == MatchCase(u, text[q..e], rules.table[p]) + text[e..end]
  {
    TakenIfLongest(u, rules.pats, text, q, p);
    MatchedIff(u, rules.pats, text, q, p);
    hide *;
    if KeyLen(u, rules.pats, text, q) == |p| {
      OutOfKey(u, rules, text, q, p);
    }
  }

  lemma OutOfKey(u: Tables, rules: Rules, text: string, q: nat, p: string)
    requires q < |text| && p != [] && p in rules.table && MatchesAt(u, text, q, p) && KeyLen(u, rules.pats, text, q) == |p|
    requires LeftClear(u, text, q) && RightClear(u, text, End(u, text, q, |p|))
    ensures var e, end := q + |p|, End(u, text, q, |p|);
            Out(u, rules, text, q) == MatchCase(u, text[q..e], rules.table[p]) + text[e..end]
  {
    MatchesIs(u, text, q, p);
    hide MatchCase, LeftClear, RightClear, MatchesAt, KeyLen, End, Emit;
    EmitCases(u, rules.table, text, q, |p|);
  }

  lemma MatchesIs(u: Tables, text: string, q: nat, p: string)
    requires MatchesAt(u, text, q, p)
    ensures q + |p| <= |text| && Fold(u, text[q..q + |p|]) == p
  {
  }

  lemma TakenIfLongest(u: Tables, pats: seq<string>, text: string, q: nat, p: string)
    requires LongestFirst(pats) && p in pats && p != [] && MatchesAt(u, text, q, p)
    ensures KeyLen(u, pats, text, q) >= |p|
    ensures KeyLen(u, pats, text, q) == |p| <==> NoLongerKey(u, pats, text, q, p)
  {
    LongestTaken(u, pats, text, q, p);
    KeyTaken(u, pats, text, q);
    hide MatchesAt, LongestFirst, KeyLen;
    var n := KeyLen(u, pats, text, q);
    if n == |p| {
      forall r | r in pats && MatchesAt(u, text, q, r)
        ensures |r| <= |p|
      {
        if r != [] {
          LongestTaken(u, pats, text, q, r);
        }
      }
    }
  }

  ghost predicate InOrder(ms: seq<Match>) {
    && (forall k :: 0 <= k < |ms| ==> ms[k].start < ms[k].end)
    && (forall j, k :: 0 <= j < k < |ms| ==> ms[j].end <= ms[k].start)
  }

  lemma OneCovers(ms: seq<Match>, q: nat, k: nat, m: Match)
    requires InOrder(ms) && k < |ms| && ms[k].start <= q < ms[k].end && m in ms && m.start <= q < m.end
    ensures m == ms[k]
  {
    var l :| 0 <= l < |ms| && ms[l] == m;
  }

  lemma StepsInOrder(u: Tables, pats: seq<string>, text: string, ms: seq<Match>)
    requires OrderedSteps(u, pats, text, 0, ms)
    ensures InOrder(ms) && forall k :: 0 <= k < |ms| ==> ms[k].keyEnd == ms[k].start + KeyLen(u, pats, text, ms[k].start)
  {
    hide KeyLen, TailLen;
    forall k | 0 <= k < |ms|
      ensures ms[k].start < ms[k].end && ms[k].keyEnd == ms[k].start + KeyLen(u, pats, text, ms[k].start)
    {
      assert IsStep(u, pats, text, ms[k]);
    }
  }

  lemma MatchedIff(u: Tables, pats: seq<string>, text: string, q: nat, p: string)
    requires p in pats && p != [] && MatchesAt(u, text, q, p)
    ensures var ms := Matches(u, pats, text, 0);
            IsMatchOf(ms, q, |p|) <==> KeyLen(u, pats, text, q) == |p| && !LiesInside(ms, q)
  {
    MatchesCover(u, pats, text, 0, q, p);
    MatchesOrdered(u, pats, text, 0);
    var ms := Matches(u, pats, text, 0);
    StepsInOrder(u, pats, text, ms);
    hide MatchesAt, KeyLen, Matches, OrderedSteps, InOrder, IsMatchOf, LiesInside;
    var k :| 0 <= k < |ms| && ms[k].start <= q < ms[k].end;
    CoverDecides(ms, q, k, |p|, KeyLen(u, pats, text, q));
  }

  lemma CoverDecides(ms: seq<Match>, q: nat, k: nat, n: nat, taken: nat)
    requires InOrder(ms) && k < |ms| && ms[k].start <= q < ms[k].end && n > 0
    requires ms[k].start == q ==> ms[k].keyEnd == q + taken
    ensures IsMatchOf(ms, q, n) <==> taken == n && !LiesInside(ms, q)
  {
    forall m | m in ms && m.start <= q < m.end
      ensures m == ms[k]
    {
      OneCovers(ms, q, k, m);
    }
    assert ms[k] in ms;
    assert forall m :: m in ms ==> m.start < m.end;
  }

  /** A match's output stands in the rewriting, between what comes before the match and the
      rewriting of what comes behind it. */
  lemma {:induction false} MatchInRewriting(u: Tables, rules: Rules, text: string, i: nat, m: Match) returns (before: string)
    requires m in Matches(u, rules.pats, text, i)
    ensures m.start < m.end <= |text|
    ensures Rewrite(u, rules, text, i) == before + Out(u, rules, text, m.start) + Rewrite(u, rules, text, m.end)
    decreases |text| - i
  {
    hide KeyLen, Emit;
    var n, next := KeyLen(u, rules.pats, text, i), Next(u, rules.pats, text, i);
    if n > 0 && m == Match(i, i + n, next) {
      before := [];
      assert [] + Out(u, rules, text, i) == Out(u, rules, text, i);
    } else {
      assert m in Matches(u, rules.pats, text, next);
      before := MatchInRewriting(u, rules, text, next, m);
      hide Rewrite, Out;
      Assoc(Out(u, rules, text, i), before, Out(u, rules, text, m.start), Rewrite(u, rules, text, m.end));
      before := Out(u, rules, text, i) + before;
    }
  }

  lemma Assoc(a: string, b: string, c: string, d: string)
    ensures a + (b + c + d) == a + b + c + d
  {
  }

  const SURNAME_TOO := Rules(["ab cd", "ab"], map["ab cd" := "xy zw", "ab" := "xy"])

  /** A longer key that fails its boundary check hides a shorter one: "ab" stands as a whole word
      in "ab cde", and nothing is replaced. */
  lemma RejectedKeyHidesShorter()
    ensures LeftClear(ASCII, "ab cde", 0) && RightClear(ASCII, "ab cde", 2) && MatchesAt(ASCII, "ab cde", 0, "ab")
    ensures Rewrite(ASCII, SURNAME_TOO, "ab cde", 0) == "ab cde"
  {
    var t := "ab cde";
    LongerTaken(t);
    LastLetter(t);
    hide KeyLen, MatchesAt, RightClear;
    RewriteIs(ASCII, SURNAME_TOO, t, 0, 5);
    assert t[0..5] + t[5..] == t;
  }

  lemma LongerTaken(t: string)
    requires t == "ab cde"
    ensures KeyLen(ASCII, SURNAME_TOO.pats, t, 0) == 5 && !Clear(ASCII, t, 0, 5) && End(ASCII, t, 0, 5) == 5
    ensures RightClear(ASCII, t, 2) && MatchesAt(ASCII, t, 0, "ab")
  {
    assert t[0..5] == "ab cd" && t[0..2] == "ab" && t[5] == 'e' && t[2] == ' ';
    PlainMatches(t, 0, "ab cd");
    PlainMatches(t, 0, "ab");
    PlainChar('e');
    PlainChar(' ');
    hide Fold, MatchesAt;
  }

  lemma LastLetter(t: string)
    requires t == "ab cde"
    ensures Rewrite(ASCII, SURNAME_TOO, t, 5) == t[5..]
  {
    assert SURNAME_TOO.pats == ["ab cd", "ab"];
    NoKey(SURNAME_TOO.pats, t, 5);
    hide KeyLen, Rewrite;
    CopyStep(ASCII, SURNAME_TOO, t, 5);
    RewriteEnd(ASCII, SURNAME_TOO, t);
  }

  // ---- Names that come back as another ----

  /** A full name, its first and its last name, as decomposition registers them. */
  const THREE_NAMES := Rules(["a b c", "a", "c"], map["a b c" := "x y", "a" := "x", "c" := "y"])

  const THREE_BACK := Rules(["x y", "x", "y"], map["x y" := "a b c", "x" := "a", "y" := "c"])

  /** First and last name side by side come back as the full name. */
  lemma PartsComeBackAsWhole()
    ensures Reverses(ASCII, THREE_NAMES, THREE_BACK)
    ensures ReplacedPairAt(ASCII, THREE_NAMES, THREE_BACK, "a c", 0)
    ensures Rewrite(ASCII, THREE_NAMES, "a c", 0) == "x y" && Rewrite(ASCII, THREE_BACK, "x y", 0) == "a b c"
  {
    PartsPaired();
    ThreeReverse();
    PartsReplaced();
    WholeReplaced();
  }

  lemma ThreeReverse()
    ensures Reverses(ASCII, THREE_NAMES, THREE_BACK)
  {
    OneReverses(THREE_NAMES, THREE_BACK, "a b c", "x y");
    OneReverses(THREE_NAMES, THREE_BACK, "a", "x");
    OneReverses(THREE_NAMES, THREE_BACK, "c", "y");
    ThreeWellFormed();
    hide ReversesKey, WellFormed;
    var p0, p1, p2 := "a b c", "a", "c";
    assert THREE_NAMES.pats == [p0, p1, p2];
    forall p | p in THREE_NAMES.pats
      ensures ReversesKey(ASCII, THREE_NAMES, THREE_BACK, p)
    {
      assert p == p0 || p == p1 || p == p2;
    }
  }

  lemma ThreeWellFormed()
    ensures WellFormed(THREE_NAMES) && WellFormed(THREE_BACK)
  {
  }

  lemma OneReverses(fwd: Rules, back: Rules, p: string, v: string)
    requires Plain(p) && Plain(v) && p in fwd.table && fwd.table[p] == v
    requires v in back.pats && v in back.table && back.table[v] == p
    ensures ReversesKey(ASCII, fwd, back, p)
  {
    PlainFold(p);
    PlainFold(v);
    PlainStable(p);
    PlainStable(v);
    hide Fold, CaseStable;
  }

  lemma WholeReplaced()
    ensures Rewrite(ASCII, THREE_BACK, "x y", 0) == "a b c"
  {
    PlainMatches("x y", 0, "x y");
    assert "x y"[0..3] == "x y";
    PlainReplaced(THREE_BACK, "x y", 0, 3);
  }

  lemma KeyAtFirst()
    ensures KeyLen(ASCII, THREE_NAMES.pats, "a c", 0) == 1
  {
    PlainMatches("a c", 0, "a");
    assert "a c"[0..1] == "a";
  }

  lemma PartsReplaced()
    ensures Rewrite(ASCII, THREE_NAMES, "a c", 0) == "x y"
  {
    KeyAtFirst();
    SecondPart();
    assert "a c"[0..1] == "a";
    hide Rewrite, KeyLen;
    PlainReplaced(THREE_NAMES, "a c", 0, 1);
  }

  lemma ValuesOfParts()
    ensures ValueAt(ASCII, THREE_NAMES, "a c", 0) == "x" && ValueAt(ASCII, THREE_NAMES, "a c", 2) == "y"
  {
    KeyAtFirst();
    KeyAtLast();
    PlainFold("a");
    PlainFold("c");
    PlainFold("x");
    PlainFold("y");
    assert "a c"[0..1] == "a" && "a c"[2..3] == "c";
    hide KeyLen, Fold;
  }

  lemma PartsPaired()
    ensures ReplacedPairAt(ASCII, THREE_NAMES, THREE_BACK, "a c", 0)
  {
    KeyAtFirst();
    KeyAtLast();
    PlainChar(' ');
    ValuesOfParts();
    assert "a c"[1] == ' ' && "x" + " " + "y" == "x y";
    hide KeyLen, Fold, ValueAt;
  }

  lemma NoKeyAtSpace()
    ensures KeyLen(ASCII, THREE_NAMES.pats, "a c", 1) == 0
  {
    var pats := THREE_NAMES.pats;
    assert pats == ["a b c", "a", "c"];
    assert "a c"[1..2] == " ";
    hide KeyLen;
    NoKey(pats, "a c", 1);
  }

  lemma KeyAtLast()
    ensures KeyLen(ASCII, THREE_NAMES.pats, "a c", 2) == 1
  {
    var pats := THREE_NAMES.pats;
    PlainMatches("a c", 2, "a");
    PlainMatches("a c", 2, "c");
    assert "a c"[2..3] == "c";
    assert pats[1..] == ["a", "c"] && pats[1..][1..] == ["c"];
    assert KeyLen(ASCII, pats[1..][1..], "a c", 2) == 1;
    assert KeyLen(ASCII, pats[1..], "a c", 2) == 1;
  }

  lemma SecondPart()
    ensures Rewrite(ASCII, THREE_NAMES, "a c", 1) == " y"
  {
    NoKeyAtSpace();
    KeyAtLast();
    assert "a c"[2..3] == "c";
    hide Rewrite, KeyLen;
    CopyStep(ASCII, THREE_NAMES, "a c", 1);
    PlainReplaced(THREE_NAMES, "a c", 2, 1);
    RewriteEnd(ASCII, THREE_NAMES, "a c");
  }

  // ---- Texts that hold a part of a pseudonym ----

  const TWO_NAMES := Rules(["ab cd", "ab", "cd"], map["ab cd" := "xy zw", "ab" := "xy", "cd" := "zw"])

  const TWO_BACK := Rules(["xy zw", "xy", "zw"], map["xy zw" := "ab cd", "xy" := "ab", "zw" := "cd"])

  /** A free pool name is not in the text, but its first name may be, and comes back as another. */
  lemma FirstNameInText()
    ensures Reverses(ASCII, TWO_NAMES, TWO_BACK) && Numbered.Free(ASCII, {}, Fold(ASCII, "ab cd xy"), "xy zw")
    ensures Rewrite(ASCII, TWO_NAMES, "ab cd xy", 0) == "xy zw xy" && Rewrite(ASCII, TWO_BACK, "xy zw xy", 0) == "ab cd ab"
  {
    TwoReverse();
    FullNameFree();
    FullNameOut();
    FirstNameBack();
  }

  lemma TwoReverse()
    ensures Reverses(ASCII, TWO_NAMES, TWO_BACK)
  {
    FullReverses();
    FirstReverses();
    LastReverses();
    TwoWellFormed();
    hide ReversesKey, WellFormed;
    var p0, p1, p2 := "ab cd", "ab", "cd";
    assert TWO_NAMES.pats == [p0, p1, p2];
    forall p | p in TWO_NAMES.pats
      ensures ReversesKey(ASCII, TWO_NAMES, TWO_BACK, p)
    {
      assert p == p0 || p == p1 || p == p2;
    }
  }

  lemma FullReverses()
    ensures ReversesKey(ASCII, TWO_NAMES, TWO_BACK, "ab cd")
  {
    hide ReversesKey;
    OneReverses(TWO_NAMES, TWO_BACK, "ab cd", "xy zw");
  }

  lemma FirstReverses()
    ensures ReversesKey(ASCII, TWO_NAMES, TWO_BACK, "ab")
  {
    hide ReversesKey;
    OneReverses(TWO_NAMES, TWO_BACK, "ab", "xy");
  }

  lemma LastReverses()
    ensures ReversesKey(ASCII, TWO_NAMES, TWO_BACK, "cd")
  {
    hide ReversesKey;
    OneReverses(TWO_NAMES, TWO_BACK, "cd", "zw");
  }

  lemma TwoWellFormed()
    ensures WellFormed(TWO_NAMES) && WellFormed(TWO_BACK)
  {
  }

  lemma FullNameFree()
    ensures Numbered.Free(ASCII, {}, Fold(ASCII, "ab cd xy"), "xy zw")
  {
    var t, g := "ab cd xy", "xy zw";
    PlainFold(t);
    PlainFold(g);
    forall i | 0 <= i <= |t|
      ensures !Numbered.OccursAt(t, g, i)
    {
      if i + |g| <= |t| {
        assert t[i..i + |g|][0] == t[i] && t[0] == 'a' && t[1] == 'b' && t[2] == ' ' && t[3] == 'c' && g[0] == 'x';
      }
    }
    hide Fold;
  }

  lemma {:induction false} CopiedFrom(rules: Rules, t: string, i: nat)
    requires i <= |t| && forall k :: i <= k < |t| ==> KeyLen(ASCII, rules.pats, t, k) == 0
    ensures Rewrite(ASCII, rules, t, i) == t[i..]
    decreases |t| - i
  {
    hide KeyLen, Rewrite;
    if i < |t| {
      CopyStep(ASCII, rules, t, i);
      CopiedFrom(rules, t, i + 1);
    } else {
      RewriteEnd(ASCII, rules, t);
    }
  }

  /** The key p, standing alone at i, becomes v. */
  lemma PlainStep(rules: Rules, t: string, i: nat, p: string, v: string)
    requires i < |t| && p != [] && i + |p| <= |t| && Plain(t) && Plain(v)
    requires KeyLen(ASCII, rules.pats, t, i) == |p| && t[i..i + |p|] == p && p in rules.table && rules.table[p] == v
    requires (i == 0 || t[i - 1] == ' ') && (i + |p| == |t| || t[i + |p|] == ' ')
    ensures Rewrite(ASCII, rules, t, i) == v + Rewrite(ASCII, rules, t, i + |p|)
  {
    hide *;
    PlainReplaced(rules, t, i, |p|);
  }

  lemma FirstOfThree(pats: seq<string>, t: string, p: string)
    requires pats != [] && pats[0] == p && p != [] && p <= t && Plain(t)
    ensures KeyLen(ASCII, pats, t, 0) == |p|
  {
    PlainMatches(t, 0, p);
    assert t[0..|p|] == p;
  }

  lemma SecondOfThree(pats: seq<string>, t: string, i: nat, p: string)
    requires |pats| > 1 && i + |pats[0]| > |t| && pats[1] == p && p != [] && i + |p| <= |t| && t[i..i + |p|] == p && Plain(t)
    ensures KeyLen(ASCII, pats, t, i) == |p|
  {
    PlainMatches(t, i, p);
    assert KeyLen(ASCII, pats[1..], t, i) == |p|;
  }

  lemma FullNameOut()
    ensures Rewrite(ASCII, TWO_NAMES, "ab cd xy", 0) == "xy zw xy"
  {
    var t := "ab cd xy";
    assert t[0..5] == "ab cd" && t[5..] == " xy" && t[5] == ' ' && t[6] == 'x' && t[7] == 'y';
    hide Rewrite, KeyLen;
    FirstOfThree(TWO_NAMES.pats, t, "ab cd");
    PlainStep(TWO_NAMES, t, 0, "ab cd", "xy zw");
    RestCopied(t);
  }

  lemma RestCopied(t: string)
    requires t == "ab cd xy"
    ensures Rewrite(ASCII, TWO_NAMES, t, 5) == t[5..]
  {
    hide Rewrite, KeyLen;
    forall k | 5 <= k < |t|
      ensures KeyLen(ASCII, TWO_NAMES.pats, t, k) == 0
    {
      NoneAt(TWO_NAMES.pats, "ab cd", "ab", "cd", t, k);
    }
    CopiedFrom(TWO_NAMES, t, 5);
  }

  lemma NoneAt(pats: seq<string>, a: string, b: string, c: string, t: string, k: nat)
    requires Plain(t) && k < |t| && pats == [a, b, c] && a != [] && b != [] && c != [] && t[k] != a[0] && t[k] != b[0] && t[k] != c[0]
    ensures KeyLen(ASCII, pats, t, k) == 0
  {
    hide KeyLen, Plain;
    forall p | p in pats && k + |p| <= |t|
      ensures t[k..k + |p|] != p
    {
      assert p == a || p == b || p == c;
      assert t[k..k + |p|][0] == t[k];
    }
    NoKey(pats, t, k);
  }

  lemma FirstNameBack()
    ensures Rewrite(ASCII, TWO_BACK, "xy zw xy", 0) == "ab cd ab"
  {
    var t := "xy zw xy";
    assert t[0..5] == "xy zw" && t[5] == ' ' && t[6..8] == "xy";
    hide Rewrite, KeyLen;
    FirstOfThree(TWO_BACK.pats, t, "xy zw");
    PlainStep(TWO_BACK, t, 0, "xy zw", "ab cd");
    LastBack(t);
  }

  lemma LastBack(t: string)
    requires t == "xy zw xy"
    ensures Rewrite(ASCII, TWO_BACK, t, 5) == " ab"
  {
    assert t[5] == ' ' && t[6..8] == "xy";
    hide Rewrite, KeyLen;
    NoneAt(TWO_BACK.pats, "xy zw", "xy", "zw", t, 5);
    CopyStep(ASCII, TWO_BACK, t, 5);
    SecondOfThree(TWO_BACK.pats, t, 6, "xy");
    PlainStep(TWO_BACK, t, 6, "xy", "ab");
    RewriteEnd(ASCII, TWO_BACK, t);
  }
}
