/** Values that the text holds itself: when the way back takes them, and when it does not. */
module Strays {
  import opened Unicode
  import opened Scanner
  import opened Streaming
  import opened Reversal
  import opened Stretches
  import opened RoundTrip

  /** g stands at x where the way back may take it: as whole words, or with an end that is no part of
      a word next to what is. */
  predicate MayStand(u: Tables, text: string, x: nat, g: string) {
    && x < |text| && MatchesAt(u, text, x, g)
    && (LeftClear(u, text, x) || !IsWordRune(u, text[x]))
    && var e := End(u, text, x, |g|);
       RightClear(u, text, e) || !IsWordContext(u, text[e - 1])
  }

  /** No value stands so where the scan from i on copies. */
  ghost predicate NoneStand(u: Tables, fwd: Rules, back: Rules, text: string, i: nat) {
    forall g, x: nat {:trigger MayStand(u, text, x, g)} :: g in back.pats && Copied(u, fwd.pats, text, i, x) ==> !MayStand(u, text, x, g)
  }

  // ---- A copied stretch in the text and in its rewriting ----

  /** k is where x comes out. */
  ghost predicate InStretch(u: Tables, fwd: Rules, back: Rules, text: string, i: nat, j: nat, out: string, y: nat, k: nat, x: nat) {
    RunAt(u, fwd, back, text, i, j, out, y) && y <= k <= y + (j - i) && x == i + (k - y)
  }

  lemma StretchParts(u: Tables, fwd: Rules, back: Rules, text: string, i: nat, j: nat, out: string, y: nat, k: nat, x: nat)
    requires InStretch(u, fwd, back, text, i, j, out, y, k, x)
    ensures i <= x <= j <= |text| && y <= k <= y + (j - i) <= |out| && x - i == k - y && RunAt(u, fwd, back, text, i, j, out, y)
    ensures Reversible(u, fwd, back) && (j == |text| || Accepted(u, fwd.pats, text, j))
  {
  }

  lemma SameChar(u: Tables, fwd: Rules, back: Rules, text: string, i: nat, j: nat, out: string, y: nat, k: nat, x: nat)
    requires InStretch(u, fwd, back, text, i, j, out, y, k, x) && x < j
    ensures k < |out| && x < |text| && out[k] == text[x]
  {
    hide *;
    StretchParts(u, fwd, back, text, i, j, out, y, k, x);
    RunChar(u, fwd, back, text, i, j, out, y, k, k + 1);
    OneChar(out, k, text, x);
  }

  /** Where a source is accepted no apostrophe stands. */
  lemma SourcePlain(u: Tables, fwd: Rules, back: Rules, text: string, j: nat)
    requires Reversible(u, fwd, back) && j < |text| && Accepted(u, fwd.pats, text, j)
    ensures text[j] != APOSTROPHE && text[j] != CURLY
  {
    hide KeyLen, Rewrite, CaseStable, LongestFirst, LeftClear, RightClear, Reverses, StartsClean;
    Apostrophes(u, APOSTROPHE);
    Apostrophes(u, CURLY);
    if text[j] == APOSTROPHE || text[j] == CURLY {
      NotWordKept(u, fwd, text, j);
    }
  }

  /** What is around the end of the stretch. */
  lemma StretchEnd(u: Tables, fwd: Rules, back: Rules, text: string, i: nat, j: nat, out: string, y: nat)
    requires RunAt(u, fwd, back, text, i, j, out, y)
    ensures i <= j <= |text| && y + (j - i) <= |out|
    ensures j == |text| ==> |out| == y + (j - i)
    ensures var z := y + (j - i);
            i < j < |text| ==>
              && z < |out| && out[z] != APOSTROPHE && out[z] != CURLY && text[j] != APOSTROPHE && text[j] != CURLY
              && text[j - 1] != APOSTROPHE && text[j - 1] != CURLY && !IsWordContext(u, text[j - 1])
  {
    hide *;
    RunParts(u, fwd, back, text, i, j, out, y);
    if j == |text| {
      RunFills(u, fwd, back, text, i, j, out, y);
    } else if i < j {
      RunMarks(u, fwd, back, text, i, j, out, y);
      SourcePlain(u, fwd, back, text, j);
      BeforeAccepted(u, fwd, text, j);
    }
  }

  /** A tail in the stretch is the same in both. */
  lemma SameTail(u: Tables, fwd: Rules, back: Rules, text: string, i: nat, j: nat, out: string, y: nat, k: nat, x: nat)
    requires InStretch(u, fwd, back, text, i, j, out, y, k, x) && i < x
    ensures TailLen(u, out, k) == TailLen(u, text, x)
  {
    StretchParts(u, fwd, back, text, i, j, out, y, k, x);
    StretchEnd(u, fwd, back, text, i, j, out, y);
    if x < j {
      SameChar(u, fwd, back, text, i, j, out, y, k, x);
    }
    if x + 1 < j {
      assert InStretch(u, fwd, back, text, i, j, out, y, k + 1, x + 1);
      SameChar(u, fwd, back, text, i, j, out, y, k + 1, x + 1);
    }
    hide InStretch, RunAt, Reversible, Accepted;
  }

  /** So is the boundary behind it, unless it is the end of the stretch. */
  lemma SameRight(u: Tables, fwd: Rules, back: Rules, text: string, i: nat, j: nat, out: string, y: nat, k: nat, x: nat)
    requires InStretch(u, fwd, back, text, i, j, out, y, k, x) && i < x
    ensures x < j || j == |text| ==> (RightClear(u, out, k) <==> RightClear(u, text, x))
    ensures x == j < |text| ==> !IsWordContext(u, text[x - 1])
  {
    StretchParts(u, fwd, back, text, i, j, out, y, k, x);
    StretchEnd(u, fwd, back, text, i, j, out, y);
    if x < j {
      SameChar(u, fwd, back, text, i, j, out, y, k, x);
    }
    hide InStretch, RunAt, Reversible, Accepted, IsWordContext, IsWordRune;
  }

  lemma SameLeft(u: Tables, fwd: Rules, back: Rules, text: string, i: nat, j: nat, out: string, y: nat, k: nat, x: nat)
    requires InStretch(u, fwd, back, text, i, j, out, y, k, x)
    ensures k <= |out| && x <= |text|
    ensures i < x || (x == 0 && k == 0) ==> (LeftClear(u, out, k) <==> LeftClear(u, text, x))
  {
    StretchParts(u, fwd, back, text, i, j, out, y, k, x);
    if i < x {
      assert InStretch(u, fwd, back, text, i, j, out, y, k - 1, x - 1);
      SameChar(u, fwd, back, text, i, j, out, y, k - 1, x - 1);
    }
    hide InStretch, RunAt, Reversible, Accepted;
  }

  // ---- What the way back takes stands in the text ----

  lemma LeftStands(u: Tables, fwd: Rules, text: string, i: nat, out: string, y: nat)
    requires Lawful(u) && Linked(u, fwd, text, i, out, y) && i < |text|
    ensures LeftClear(u, out, y) ==> LeftClear(u, text, i) || !IsWordRune(u, text[i])
  {
    hide Rewrite, IsWordRune, IsWordContext;
  }

  /** Where a match of length n ends, both ways. */
  lemma EndsAlike(u: Tables, fwd: Rules, back: Rules, text: string, i: nat, j: nat, out: string, y: nat, k: nat, x: nat, n: nat) returns (e: nat)
    requires InStretch(u, fwd, back, text, i, j, out, y, k, x) && x < j && n > 0 && x + n <= j
    ensures k < |out| && k + n <= |out| && x < |text| && x + n <= |text|
    ensures e == End(u, out, k, n) && End(u, text, x, n) == x + (e - k) && k < e && x < x + (e - k) <= j
    ensures InStretch(u, fwd, back, text, i, j, out, y, e, x + (e - k))
  {
    StretchParts(u, fwd, back, text, i, j, out, y, k, x);
    assert InStretch(u, fwd, back, text, i, j, out, y, k + n, x + n);
    SameTail(u, fwd, back, text, i, j, out, y, k + n, x + n);
    TailInRun(u, fwd, back, text, i, j, out, y, k + n);
    SameChar(u, fwd, back, text, i, j, out, y, k, x);
    e := k + n + TailLen(u, out, k + n);
    hide RunAt, Reversible, Accepted, TailLen;
  }

  lemma Stretch(u: Tables, fwd: Rules, back: Rules, text: string, i: nat, j: nat, out: string, y: nat, k: nat, x: nat)
    requires RunAt(u, fwd, back, text, i, j, out, y) && y <= k <= y + (j - i) && x == i + (k - y)
    ensures InStretch(u, fwd, back, text, i, j, out, y, k, x)
  {
  }

  /** A match at k that the way back accepts may stand at x. */
  lemma Boundaries(u: Tables, fwd: Rules, back: Rules, text: string, i: nat, j: nat, out: string, y: nat, k: nat, x: nat, n: nat, e: nat)
    requires InStretch(u, fwd, back, text, i, j, out, y, k, x) && k < |out| && k + n <= |out| && x < |text| && x + n <= |text|
    requires Linked(u, fwd, text, i, out, y)
    requires e == End(u, out, k, n) && Clear(u, out, k, n) && InStretch(u, fwd, back, text, i, j, out, y, e, x + (e - k))
    ensures LeftClear(u, text, x) || !IsWordRune(u, text[x])
    ensures RightClear(u, text, x + (e - k)) || !IsWordContext(u, text[x + (e - k) - 1])
  {
    hide *;
    ClearParts(u, out, k, n);
    StretchParts(u, fwd, back, text, i, j, out, y, k, x);
    LawfulRules(u, fwd, back);
    SameRight(u, fwd, back, text, i, j, out, y, e, x + (e - k));
    SameLeft(u, fwd, back, text, i, j, out, y, k, x);
    LeftStands(u, fwd, text, i, out, y);
    StretchParts(u, fwd, back, text, i, j, out, y, e, x + (e - k));
  }

  lemma ClearParts(u: Tables, out: string, k: nat, n: nat)
    requires k < |out| && k + n <= |out|
    ensures Clear(u, out, k, n) <==> n > 0 && LeftClear(u, out, k) && RightClear(u, out, End(u, out, k, n))
    ensures k < End(u, out, k, n)
  {
  }

  lemma Standing(u: Tables, text: string, x: nat, g: string, e: nat)
    requires x < |text| && MatchesAt(u, text, x, g) && e == End(u, text, x, |g|)
    requires LeftClear(u, text, x) || !IsWordRune(u, text[x])
    requires RightClear(u, text, e) || !IsWordContext(u, text[e - 1])
    ensures MayStand(u, text, x, g)
  {
  }

  lemma AcceptedStands(u: Tables, fwd: Rules, back: Rules, text: string, i: nat, j: nat, out: string, y: nat, k: nat) returns (g: string)
    requires RunAt(u, fwd, back, text, i, j, out, y) && Linked(u, fwd, text, i, out, y)
    requires y <= k < y + (j - i) && k < |out| && Accepted(u, back.pats, out, k) && k + KeyLen(u, back.pats, out, k) <= y + (j - i)
    ensures g in back.pats && MayStand(u, text, i + (k - y), g)
  {
    hide *;
    RunParts(u, fwd, back, text, i, j, out, y);
    var x := i + (k - y);
    AcceptedTakes(u, back.pats, out, k);
    g := TakenInRun(u, fwd, back, text, i, j, out, y, k);
    Stretch(u, fwd, back, text, i, j, out, y, k, x);
    var e := EndsAlike(u, fwd, back, text, i, j, out, y, k, x, |g|);
    Boundaries(u, fwd, back, text, i, j, out, y, k, x, |g|, e);
    Standing(u, text, x, g, x + (e - k));
  }

  /** Nothing may stand in text[i..j], and nothing crosses from there into what replaces text[j..]. */
  ghost predicate NoneIn(u: Tables, fwd: Rules, back: Rules, text: string, i: nat, j: nat) {
    && (forall g, x: nat {:trigger MayStand(u, text, x, g)} :: g in back.pats && i <= x < j ==> !MayStand(u, text, x, g))
    && (forall g, x: nat, o: nat {:trigger CrossesAt(u, fwd, text, x, g, o)} :: g in back.pats && i <= x < j ==> !CrossesAt(u, fwd, text, x, g, o))
  }

  lemma NothingIn(u: Tables, fwd: Rules, back: Rules, text: string, i: nat, j: nat, x: nat, g: string, o: nat)
    requires NoneIn(u, fwd, back, text, i, j) && i <= x < j && g in back.pats
    ensures !MayStand(u, text, x, g) && !CrossesAt(u, fwd, text, x, g, o)
  {
    hide MayStand, CrossesAt;
  }

  lemma StepQuiet(u: Tables, fwd: Rules, back: Rules, text: string, i: nat, j: nat, out: string, y: nat, k: nat)
    requires RunAt(u, fwd, back, text, i, j, out, y) && Linked(u, fwd, text, i, out, y) && y <= k < y + (j - i)
    requires NoneIn(u, fwd, back, text, i, j)
    ensures k < |out| && !Accepted(u, back.pats, out, k) && Next(u, back.pats, out, k) <= y + (j - i)
  {
    hide *;
    RunParts(u, fwd, back, text, i, j, out, y);
    var x, z := i + (k - y), y + (j - i);
    if KeyLen(u, back.pats, out, k) > 0 {
      var f := TakenKey(u, back.pats, out, k);
      WithinRun(u, fwd, back, text, i, j, out, y, k, f);
      NothingIn(u, fwd, back, text, i, j, x, f, z - k);
    }
    StepInRun(u, fwd, back, text, i, j, out, y, k);
    if Accepted(u, back.pats, out, k) {
      var g := AcceptedStands(u, fwd, back, text, i, j, out, y, k);
      NothingIn(u, fwd, back, text, i, j, x, g, 0);
    }
  }

  lemma {:induction false} QuietStretch(u: Tables, fwd: Rules, back: Rules, text: string, i: nat, j: nat, out: string, y: nat, k: nat)
    requires RunAt(u, fwd, back, text, i, j, out, y) && Linked(u, fwd, text, i, out, y) && y <= k <= y + (j - i)
    requires NoneIn(u, fwd, back, text, i, j)
    ensures Quiet(u, back.pats, out, k, y + (j - i))
    decreases y + (j - i) - k
  {
    hide RunAt, Linked, NoneIn, KeyLen, Clear;
    if k < y + (j - i) {
      StepQuiet(u, fwd, back, text, i, j, out, y, k);
      QuietStretch(u, fwd, back, text, i, j, out, y, Next(u, back.pats, out, k));
    }
  }

  // ---- All stretches ----

  lemma NoneInRun(u: Tables, fwd: Rules, back: Rules, text: string, i: nat, j: nat)
    requires i <= |text| && NoneStand(u, fwd, back, text, i) && NotCrossed(u, fwd, back, text, i) && j == RunEnd(u, fwd.pats, text, i)
    ensures NoneIn(u, fwd, back, text, i, j)
  {
    hide MayStand, RunEnd, Copied, CrossesAt;
    forall x: nat | i <= x < j
      ensures Copied(u, fwd.pats, text, i, x)
    {
      RunCopied(u, fwd.pats, text, i, x);
    }
  }

  lemma NoneBehind(u: Tables, fwd: Rules, back: Rules, text: string, i: nat)
    requires i < |text| && NoneStand(u, fwd, back, text, i)
    ensures NoneStand(u, fwd, back, text, Next(u, fwd.pats, text, i))
  {
    hide MayStand, Copied, KeyLen;
    forall x: nat
      ensures Copied(u, fwd.pats, text, Next(u, fwd.pats, text, i), x) ==> Copied(u, fwd.pats, text, i, x)
    {
      CopiedBehind(u, fwd.pats, text, i, x);
    }
  }

  lemma {:induction false} NoneBehindRun(u: Tables, fwd: Rules, back: Rules, text: string, i: nat)
    requires i <= |text| && NoneStand(u, fwd, back, text, i)
    ensures NoneStand(u, fwd, back, text, RunEnd(u, fwd.pats, text, i))
    decreases |text| - i
  {
    hide KeyLen, Clear, NoneStand;
    if i < |text| && !Accepted(u, fwd.pats, text, i) {
      NoneBehind(u, fwd, back, text, i);
      NoneBehindRun(u, fwd, back, text, Next(u, fwd.pats, text, i));
    }
  }

  lemma {:induction false} QuietFrom(u: Tables, fwd: Rules, back: Rules, text: string, i: nat, out: string, y: nat)
    requires Reversible(u, fwd, back) && Linked(u, fwd, text, i, out, y) && NotCrossed(u, fwd, back, text, i)
    requires NoneJoined(u, fwd, back, text, i) && NoneStand(u, fwd, back, text, i)
    ensures AllQuiet(u, fwd, back, text, out, i, y)
    decreases |text| - i
  {
    hide *;
    LinkedParts(u, fwd, text, i, out, y);
    if i == |text| {
      NothingLeft(u, fwd, back, text, out, y);
    } else if Accepted(u, fwd.pats, text, i) {
      NextMoves(u, fwd.pats, text, i);
      QuietBehind(u, fwd, back, text, out, i, y);
      BackStep(u, fwd, back, text, i, out, y);
      NotCrossedBehind(u, fwd, back, text, i);
      NoneBehind(u, fwd, back, text, i);
      QuietFrom(u, fwd, back, text, Next(u, fwd.pats, text, i), out, y + |Out(u, fwd, text, i)|);
    } else {
      QuietHere(u, fwd, back, text, out, i, y);
      var j := RunEnd(u, fwd.pats, text, i);
      BackRun(u, fwd, back, text, i, out, y);
      NoneInRun(u, fwd, back, text, i, j);
      QuietStretch(u, fwd, back, text, i, j, out, y, y);
      OverRun(u, fwd, back, text, i);
      CopiedBehindRun(u, fwd, back, text, i);
      NoneBehindRun(u, fwd, back, text, i);
      QuietFrom(u, fwd, back, text, j, out, y + (j - i));
    }
  }

  /** A text in which no value may stand where it is copied comes back, letter case aside, if no source
      comes out as the beginning of a longer value. */
  lemma NoneStandComesBack(u: Tables, fwd: Rules, back: Rules, text: string)
    requires Reversible(u, fwd, back) && NotCrossed(u, fwd, back, text, 0) && NoneJoined(u, fwd, back, text, 0)
    requires NoneStand(u, fwd, back, text, 0)
    ensures Unstrayed(u, fwd, back, text) && Fold(u, Rewrite(u, back, Rewrite(u, fwd, text, 0), 0)) == Fold(u, text)
  {
    hide Reversible, NotCrossed, NoneJoined, NoneStand, AllQuiet, Rewrite, Fold;
    var out := Rewrite(u, fwd, text, 0);
    assert out[0..] == out;
    QuietFrom(u, fwd, back, text, 0, out, 0);
    RoundTripFolded(u, fwd, back, text);
  }

  // ---- A value that stands as whole words ----

  /** The scan from i on copies everything from the character before x to the one at e. */
  ghost predicate CopiedAround(u: Tables, pats: seq<string>, text: string, i: nat, x: nat, e: nat) {
    forall q: nat {:trigger Copied(u, pats, text, i, q)} :: x <= q + 1 && q <= e && q < |text| ==> Copied(u, pats, text, i, q)
  }

  /** No longer value than g stands at x, and none from before reaches over x. */
  ghost predicate Outermost(u: Tables, pats: seq<string>, text: string, x: nat, g: string) {
    forall f, q: nat {:trigger MatchesAt(u, text, q, f)} :: f in pats && q <= x < q + |f| && MatchesAt(u, text, q, f) ==> q == x && |f| <= |g|
  }

  /** g stands at x as whole words. */
  predicate StandsWhole(u: Tables, text: string, x: nat, g: string) {
    x < |text| && MatchesAt(u, text, x, g) && LeftClear(u, text, x) && RightClear(u, text, End(u, text, x, |g|))
  }

  /** It does, with nothing next to it replaced and no other value over it. */
  ghost predicate StandsAlone(u: Tables, fwd: Rules, back: Rules, text: string, i: nat, x: nat, g: string) {
    && g in back.pats && StandsWhole(u, text, x, g) && Outermost(u, back.pats, text, x, g)
    && CopiedAround(u, fwd.pats, text, i, x, End(u, text, x, |g|))
  }

  /** In a stretch that holds g and what is around it, k is where x comes out. */
  ghost predicate Held(u: Tables, fwd: Rules, back: Rules, text: string, i: nat, j: nat, out: string, y: nat, k: nat, x: nat, g: string) {
    && InStretch(u, fwd, back, text, i, j, out, y, k, x) && LeftClear(u, out, k)
    && g in back.pats && g != [] && StandsWhole(u, text, x, g) && Outermost(u, back.pats, text, x, g)
    && var e := End(u, text, x, |g|); e < j || e == j == |text|
  }

  lemma HeldParts(u: Tables, fwd: Rules, back: Rules, text: string, i: nat, j: nat, out: string, y: nat, k: nat, x: nat, g: string)
    requires Held(u, fwd, back, text, i, j, out, y, k, x, g)
    ensures InStretch(u, fwd, back, text, i, j, out, y, k, x) && k <= |out| && LeftClear(u, out, k)
    ensures g in back.pats && g != [] && Outermost(u, back.pats, text, x, g)
    ensures x < |text| && x + |g| <= |text| && MatchesAt(u, text, x, g) && RightClear(u, text, End(u, text, x, |g|))
    ensures var e := End(u, text, x, |g|); x + |g| <= e && (e < j || e == j == |text|)
  {
    StretchParts(u, fwd, back, text, i, j, out, y, k, x);
    hide TailLen, RunAt, InStretch, LeftClear, Outermost;
  }

  /** The way back takes exactly g there. */
  lemma TakesHeld(u: Tables, fwd: Rules, back: Rules, text: string, i: nat, j: nat, out: string, y: nat, k: nat, x: nat, g: string)
    requires Held(u, fwd, back, text, i, j, out, y, k, x, g) && k + KeyLen(u, back.pats, out, k) <= y + (j - i)
    ensures k < y + (j - i) && KeyLen(u, back.pats, out, k) == |g|
  {
    hide *;
    HeldParts(u, fwd, back, text, i, j, out, y, k, x, g);
    StretchParts(u, fwd, back, text, i, j, out, y, k, x);
    LawfulRules(u, fwd, back);
    RunChar(u, fwd, back, text, i, j, out, y, k, k + |g|);
    SameMatch(u, text, x, out, k, g);
    LongestFound(u, fwd, back, out, k, g);
    var f := TakenInRun(u, fwd, back, text, i, j, out, y, k);
    NoneOver(u, back.pats, text, x, g, x, f);
  }

  lemma LongestFound(u: Tables, fwd: Rules, back: Rules, out: string, k: nat, g: string)
    requires Reversible(u, fwd, back) && g in back.pats && g != [] && MatchesAt(u, out, k, g)
    ensures KeyLen(u, back.pats, out, k) >= |g|
  {
    hide KeyLen, MatchesAt, LongestFirst;
    LongestTaken(u, back.pats, out, k, g);
  }

  lemma NoneOver(u: Tables, pats: seq<string>, text: string, x: nat, g: string, q: nat, f: string)
    requires Outermost(u, pats, text, x, g) && f in pats && MatchesAt(u, text, q, f) && q <= x
    ensures q == x && |f| > 0 ==> |f| <= |g|
    ensures q < x ==> q + |f| <= x
  {
    hide MatchesAt;
  }

  /** And accepts it. */
  lemma AcceptsHeld(u: Tables, fwd: Rules, back: Rules, text: string, i: nat, j: nat, out: string, y: nat, k: nat, x: nat, g: string)
    requires Held(u, fwd, back, text, i, j, out, y, k, x, g) && k + KeyLen(u, back.pats, out, k) <= y + (j - i)
    ensures k < |out| && Accepted(u, back.pats, out, k)
  {
    hide *;
    HeldParts(u, fwd, back, text, i, j, out, y, k, x, g);
    StretchParts(u, fwd, back, text, i, j, out, y, k, x);
    TakesHeld(u, fwd, back, text, i, j, out, y, k, x, g);
    var e := EndsAlike(u, fwd, back, text, i, j, out, y, k, x, |g|);
    SameRight(u, fwd, back, text, i, j, out, y, e, x + (e - k));
    ClearParts(u, out, k, |g|);
    AcceptedIs(u, back.pats, out, k, |g|);
  }

  lemma AcceptedIs(u: Tables, pats: seq<string>, out: string, k: nat, n: nat)
    requires k < |out| && n == KeyLen(u, pats, out, k) && k + n <= |out| && Clear(u, out, k, n)
    ensures Accepted(u, pats, out, k)
  {
  }

  /** No step of the way back from before passes k. */
  lemma StepsUpTo(u: Tables, fwd: Rules, back: Rules, text: string, i: nat, j: nat, out: string, y: nat, k: nat, x: nat, g: string, l: nat)
    requires Held(u, fwd, back, text, i, j, out, y, k, x, g) && y <= l < k && l + KeyLen(u, back.pats, out, l) <= y + (j - i)
    ensures l < |out| && Next(u, back.pats, out, l) <= k
  {
    hide *;
    HeldParts(u, fwd, back, text, i, j, out, y, k, x, g);
    StretchParts(u, fwd, back, text, i, j, out, y, k, x);
    var n := KeyLen(u, back.pats, out, l);
    if n > 0 {
      var f := TakenInRun(u, fwd, back, text, i, j, out, y, l);
      NoneOver(u, back.pats, text, x, g, i + (l - y), f);
      SameChar(u, fwd, back, text, i, j, out, y, k, x);
      NoMark(u, fwd, back, text, x, g);
      TailUpTo(u, out, l + n, k);
    }
    NextFrom(u, back.pats, out, l, n);
  }

  lemma NextFrom(u: Tables, pats: seq<string>, out: string, l: nat, n: nat)
    requires l < |out| && n == KeyLen(u, pats, out, l)
    ensures Next(u, pats, out, l) == if n == 0 then l + 1 else l + n + TailLen(u, out, l + n)
  {
    hide KeyLen, TailLen;
  }

  lemma NoMark(u: Tables, fwd: Rules, back: Rules, text: string, x: nat, g: string)
    requires Reversible(u, fwd, back) && g in back.pats && g != [] && x < |text| && MatchesAt(u, text, x, g)
    ensures text[x] != APOSTROPHE && text[x] != CURLY
  {
    hide Reverses, LongestFirst, WordStarts;
    assert g[0] == Fold(u, text[x..x + |g|])[0] == u.Lower(text[x]);
    Apostrophes(u, APOSTROPHE);
    Apostrophes(u, CURLY);
  }

  lemma TailUpTo(u: Tables, out: string, f: nat, k: nat)
    requires f <= k < |out| && out[k] != APOSTROPHE && out[k] != CURLY && LeftClear(u, out, k)
    ensures f + TailLen(u, out, f) <= k
  {
    hide IsS;
  }

  lemma {:induction false} HeldIsTaken(u: Tables, fwd: Rules, back: Rules, text: string, i: nat, j: nat, out: string, y: nat, k: nat, x: nat, g: string, l: nat)
    requires Held(u, fwd, back, text, i, j, out, y, k, x, g) && y <= l <= k
    ensures !Quiet(u, back.pats, out, l, y + (j - i))
    decreases k - l
  {
    hide *;
    HeldParts(u, fwd, back, text, i, j, out, y, k, x, g);
    StretchParts(u, fwd, back, text, i, j, out, y, k, x);
    var z := y + (j - i);
    StretchRoom(u, fwd, back, text, i, j, out, y, k, x, g);
    QuietStep(u, back.pats, out, l, z);
    if l + KeyLen(u, back.pats, out, l) > z {
      StepsOver(u, back.pats, out, l, z);
    } else if l == k {
      AcceptsHeld(u, fwd, back, text, i, j, out, y, k, x, g);
    } else {
      StepsUpTo(u, fwd, back, text, i, j, out, y, k, x, g, l);
      NextMoves(u, back.pats, out, l);
      HeldIsTaken(u, fwd, back, text, i, j, out, y, k, x, g, Next(u, back.pats, out, l));
    }
  }

  lemma StretchRoom(u: Tables, fwd: Rules, back: Rules, text: string, i: nat, j: nat, out: string, y: nat, k: nat, x: nat, g: string)
    requires Held(u, fwd, back, text, i, j, out, y, k, x, g)
    ensures k < y + (j - i) <= |out|
  {
    hide *;
    HeldParts(u, fwd, back, text, i, j, out, y, k, x, g);
    StretchParts(u, fwd, back, text, i, j, out, y, k, x);
  }

  lemma StepsOver(u: Tables, pats: seq<string>, out: string, l: nat, z: nat)
    requires l < |out| && l + KeyLen(u, pats, out, l) > z
    ensures !Quiet(u, pats, out, Next(u, pats, out, l), z)
  {
    hide KeyLen, Clear, TailLen;
  }

  lemma QuietStep(u: Tables, pats: seq<string>, out: string, l: nat, z: nat)
    requires l < |out| && l < z
    ensures Quiet(u, pats, out, l, z) <==> !Accepted(u, pats, out, l) && Quiet(u, pats, out, Next(u, pats, out, l), z)
  {
    hide KeyLen, Clear;
  }

  // ---- The stretch that holds it ----

  lemma {:induction false} CopiedSplit(u: Tables, pats: seq<string>, text: string, i: nat, q: nat)
    requires i <= |text| && Copied(u, pats, text, i, q)
    ensures var j := RunEnd(u, pats, text, i); i <= q < |text| && (q < j || (q > j && Copied(u, pats, text, j, q)))
    decreases |text| - i
  {
    hide KeyLen, Clear;
    if i < |text| && !Accepted(u, pats, text, i) {
      var m := Next(u, pats, text, i);
      if q >= m {
        CopiedSplit(u, pats, text, m, q);
      }
    }
  }

  /** What is around it lies in the same stretch, or all of it behind. */
  lemma AroundSplit(u: Tables, pats: seq<string>, text: string, i: nat, x: nat, e: nat)
    requires i <= |text| && x < e <= |text| && x < |text| && CopiedAround(u, pats, text, i, x, e)
    ensures i < x || i == x == 0
    ensures var j := RunEnd(u, pats, text, i);
            if x < j then e < j || e == j == |text| else j < x && CopiedAround(u, pats, text, j, x, e)
  {
    var j := RunEnd(u, pats, text, i);
    hide RunEnd, Copied;
    CopiedSplit(u, pats, text, i, x);
    if x > 0 {
      CopiedSplit(u, pats, text, i, x - 1);
    }
    if x < j <= e && j < |text| {
      CopiedSplit(u, pats, text, i, j);
    }
    forall q: nat | j < x && x <= q + 1 && q <= e && q < |text|
      ensures Copied(u, pats, text, j, q)
    {
      CopiedSplit(u, pats, text, i, q);
    }
  }

  lemma AroundBehind(u: Tables, pats: seq<string>, text: string, i: nat, x: nat, e: nat)
    requires i < |text| && Accepted(u, pats, text, i) && CopiedAround(u, pats, text, i, x, e)
    ensures CopiedAround(u, pats, text, Next(u, pats, text, i), x, e)
  {
    hide KeyLen, Clear;
    forall q: nat | x <= q + 1 && q <= e && q < |text|
      ensures Copied(u, pats, text, Next(u, pats, text, i), q)
    {
      assert Copied(u, pats, text, i, q);
    }
  }

  lemma AloneParts(u: Tables, fwd: Rules, back: Rules, text: string, i: nat, x: nat, g: string)
    requires StandsAlone(u, fwd, back, text, i, x, g)
    ensures g in back.pats && StandsWhole(u, text, x, g) && Outermost(u, back.pats, text, x, g)
    ensures x < |text| && x + |g| <= |text| && LeftClear(u, text, x) && x < End(u, text, x, |g|) <= |text|
    ensures CopiedAround(u, fwd.pats, text, i, x, End(u, text, x, |g|))
  {
    hide MatchesAt, LeftClear, RightClear, TailLen, Outermost, CopiedAround;
  }

  lemma IsAlone(u: Tables, fwd: Rules, back: Rules, text: string, i: nat, x: nat, g: string)
    requires g in back.pats && StandsWhole(u, text, x, g) && Outermost(u, back.pats, text, x, g)
    requires x + |g| <= |text| && x < |text| && CopiedAround(u, fwd.pats, text, i, x, End(u, text, x, |g|))
    ensures StandsAlone(u, fwd, back, text, i, x, g)
  {
  }

  lemma IsHeld(u: Tables, fwd: Rules, back: Rules, text: string, i: nat, j: nat, out: string, y: nat, k: nat, x: nat, g: string)
    requires InStretch(u, fwd, back, text, i, j, out, y, k, x) && k <= |out| && LeftClear(u, out, k)
    requires g in back.pats && StandsWhole(u, text, x, g) && Outermost(u, back.pats, text, x, g) && x < |text| && x + |g| <= |text|
    requires var e := End(u, text, x, |g|); e < j || e == j == |text|
    ensures Held(u, fwd, back, text, i, j, out, y, k, x, g)
  {
    StretchParts(u, fwd, back, text, i, j, out, y, k, x);
    hide InStretch, RunAt, LeftClear, Outermost, StandsWhole, Reverses, LongestFirst, WordStarts, TailLen;
  }

  /** A stretch that holds it is not quiet. */
  lemma StretchTaken(u: Tables, fwd: Rules, back: Rules, text: string, i: nat, j: nat, out: string, y: nat, x: nat, g: string)
    requires RunAt(u, fwd, back, text, i, j, out, y) && i <= x < j && (i < x || (x == 0 && y == 0))
    requires StandsAlone(u, fwd, back, text, i, x, g)
    requires x < |text| && x + |g| <= |text| && var e := End(u, text, x, |g|); e < j || e == j == |text|
    ensures !Quiet(u, back.pats, out, y, y + (j - i))
  {
    hide *;
    RunParts(u, fwd, back, text, i, j, out, y);
    var k := y + (x - i);
    AloneParts(u, fwd, back, text, i, x, g);
    Stretch(u, fwd, back, text, i, j, out, y, k, x);
    SameLeft(u, fwd, back, text, i, j, out, y, k, x);
    IsHeld(u, fwd, back, text, i, j, out, y, k, x, g);
    HeldIsTaken(u, fwd, back, text, i, j, out, y, k, x, g, y);
  }

  lemma {:induction false} StandingFrom(u: Tables, fwd: Rules, back: Rules, text: string, i: nat, out: string, y: nat, x: nat, g: string)
    requires Reversible(u, fwd, back) && Linked(u, fwd, text, i, out, y) && (i == 0 ==> y == 0)
    requires NoneJoined(u, fwd, back, text, i) && StandsAlone(u, fwd, back, text, i, x, g)
    ensures !AllQuiet(u, fwd, back, text, out, i, y)
    decreases |text| - i
  {
    hide *;
    LinkedParts(u, fwd, text, i, out, y);
    AloneParts(u, fwd, back, text, i, x, g);
    var e := End(u, text, x, |g|);
    AroundSplit(u, fwd.pats, text, i, x, e);
    if Accepted(u, fwd.pats, text, i) {
      NextMoves(u, fwd.pats, text, i);
      QuietBehind(u, fwd, back, text, out, i, y);
      BackStep(u, fwd, back, text, i, out, y);
      AroundBehind(u, fwd.pats, text, i, x, e);
      var m := Next(u, fwd.pats, text, i);
      IsAlone(u, fwd, back, text, m, x, g);
      StandingFrom(u, fwd, back, text, m, out, y + |Out(u, fwd, text, i)|, x, g);
    } else {
      QuietHere(u, fwd, back, text, out, i, y);
      var j := RunEnd(u, fwd.pats, text, i);
      BackRun(u, fwd, back, text, i, out, y);
      if x < j {
        StretchTaken(u, fwd, back, text, i, j, out, y, x, g);
      } else {
        OverRun(u, fwd, back, text, i);
        IsAlone(u, fwd, back, text, j, x, g);
        StandingFrom(u, fwd, back, text, j, out, y + (j - i), x, g);
      }
    }
  }

  /** A value that the text holds as whole words, where nothing next to it is replaced and no other
      value lies over it, is taken by the way back: the text does not come back. */
  lemma StandingBreaks(u: Tables, fwd: Rules, back: Rules, text: string, x: nat, g: string)
    requires Reversible(u, fwd, back)
    requires LongestFirst(fwd.pats) && Returns(u, fwd, back) && FirstsBegin(u, back) && Tellable(u, back, text) && Told(u, fwd, back, text)
    requires StandsAlone(u, fwd, back, text, 0, x, g)
    ensures Fold(u, Rewrite(u, back, Rewrite(u, fwd, text, 0), 0)) != Fold(u, text)
  {
    hide Reversible, NoneJoined, StandsAlone, AllQuiet, Rewrite, Fold, LongestFirst, Returns, FirstsBegin, Tellable, Told;
    var out := Rewrite(u, fwd, text, 0);
    assert out[0..] == out;
    RoundTripFolded(u, fwd, back, text);
    if NoneJoined(u, fwd, back, text, 0) {
      StandingFrom(u, fwd, back, text, 0, out, 0, x, g);
    }
  }
}
