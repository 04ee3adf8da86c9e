/** Rewriting with a map and then with its inverse: what comes back. */
module RoundTrip {
  import opened Unicode
  import opened Scanner
  import opened Streaming
  import opened Reversal
  import opened Stretches

  // ---- The way back, step by step ----

  lemma OutLength(u: Tables, fwd: Rules, back: Rules, text: string, i: nat, n: nat)
    requires Lawful(u) && Reverses(u, fwd, back) && i < |text| && n == KeyLen(u, fwd.pats, text, i) && Accepted(u, fwd.pats, text, i)
    ensures |Out(u, fwd, text, i)| == |Replaced(u, fwd, text[i..i + n])| + (End(u, text, i, n) - (i + n))
  {
    KeyTaken(u, fwd.pats, text, i);
    assert ReversesKey(u, fwd, back, Fold(u, text[i..i + n]));
    hide MatchCase, KeyLen, Fold, TailLen, CaseStable, Clear, MatchesAt, End, Emit;
    ClearEmit(u, fwd.table, text, i, n);
  }

  /** Over an accepted source. */
  lemma BackStep(u: Tables, fwd: Rules, back: Rules, text: string, i: nat, out: string, y: nat)
    requires Reversible(u, fwd, back) && i < |text| && Linked(u, fwd, text, i, out, y)
    requires Accepted(u, fwd.pats, text, i) && !Joined(u, fwd, back, text, i)
    ensures var z := y + |Out(u, fwd, text, i)|;
            && Linked(u, fwd, text, Next(u, fwd.pats, text, i), out, z)
            && Rewrite(u, back, out, y) == EchoStep(u, fwd, back, text, i) + Rewrite(u, back, out, z)
  {
    hide *;
    var n := KeyLen(u, fwd.pats, text, i);
    LawfulRules(u, fwd, back);
    NextIs(u, fwd, back, text, i, n);
    OutLength(u, fwd, back, text, i, n);
    BackOverReplaced(u, fwd, back, text, i, n, out, y);
  }

  lemma LawfulRules(u: Tables, fwd: Rules, back: Rules)
    requires Reversible(u, fwd, back)
    ensures Lawful(u) && Reverses(u, fwd, back)
  {
  }

  lemma NextIs(u: Tables, fwd: Rules, back: Rules, text: string, i: nat, n: nat)
    requires i < |text| && n == KeyLen(u, fwd.pats, text, i) && Accepted(u, fwd.pats, text, i)
    ensures i + n <= |text| && Next(u, fwd.pats, text, i) == End(u, text, i, n) && i + n <= End(u, text, i, n)
    ensures EchoStep(u, fwd, back, text, i) == Returned(u, fwd, back, text[i..i + n]) + text[i + n..End(u, text, i, n)]
  {
    hide KeyLen, Clear, Returned, TailLen;
  }

  /** Over a copied stretch. */
  lemma BackRun(u: Tables, fwd: Rules, back: Rules, text: string, i: nat, out: string, y: nat)
    requires Reversible(u, fwd, back) && i < |text| && Linked(u, fwd, text, i, out, y)
    requires !Accepted(u, fwd.pats, text, i)
    ensures var j := RunEnd(u, fwd.pats, text, i);
            i < j <= |text| && Linked(u, fwd, text, j, out, y + (j - i)) && RunAt(u, fwd, back, text, i, j, out, y)
  {
    hide *;
    LinkedParts(u, fwd, text, i, out, y);
    RunMoves(u, fwd.pats, text, i);
    RunFound(u, fwd, back, text, i, out, y);
    RunLinked(u, fwd, back, text, i, RunEnd(u, fwd.pats, text, i), out, y);
  }

  lemma RunLinked(u: Tables, fwd: Rules, back: Rules, text: string, i: nat, j: nat, out: string, y: nat)
    requires RunAt(u, fwd, back, text, i, j, out, y) && i < j
    ensures j <= |text| && Linked(u, fwd, text, j, out, y + (j - i))
  {
    hide *;
    RunParts(u, fwd, back, text, i, j, out, y);
    BehindRun(u, fwd, back, text, i, j, out, y);
    var z := y + (j - i);
    RunChar(u, fwd, back, text, i, j, out, y, z - 1, z);
    OneChar(out, z - 1, text, j - 1);
    LinkedBehind(u, fwd, text, j, out, z);
  }

  lemma RunQuiet(u: Tables, fwd: Rules, back: Rules, text: string, i: nat, j: nat, out: string, y: nat)
    requires RunAt(u, fwd, back, text, i, j, out, y) && Quiet(u, back.pats, out, y, y + (j - i))
    ensures i <= j <= |text| && Rewrite(u, back, out, y) == text[i..j] + Rewrite(u, back, out, y + (j - i))
  {
    hide *;
    RunParts(u, fwd, back, text, i, j, out, y);
    QuietRun(u, back, out, y, y + (j - i));
    RunChar(u, fwd, back, text, i, j, out, y, y, y + (j - i));
  }

  lemma LinkedParts(u: Tables, fwd: Rules, text: string, i: nat, out: string, y: nat)
    requires Linked(u, fwd, text, i, out, y)
    ensures i <= |text| && y <= |out| && out[y..] == Rewrite(u, fwd, text, i)
  {
  }

  lemma LinkedBehind(u: Tables, fwd: Rules, text: string, j: nat, out: string, z: nat)
    requires 0 < j <= |text| && 0 < z <= |out| && out[z..] == Rewrite(u, fwd, text, j) && out[z - 1] == text[j - 1]
    ensures Linked(u, fwd, text, j, out, z)
  {
  }

  /** Behind the end of the text there is nothing to come back. */
  lemma BackAtEnd(u: Tables, fwd: Rules, back: Rules, text: string, out: string, y: nat)
    requires Linked(u, fwd, text, |text|, out, y)
    ensures Rewrite(u, back, out, y) == []
  {
    RewriteEnd(u, fwd, text);
    RewriteEnd(u, back, out);
    hide Rewrite;
    assert y == |out|;
  }

  lemma {:induction false} BackFrom(u: Tables, fwd: Rules, back: Rules, text: string, i: nat, out: string, y: nat)
    requires Reversible(u, fwd, back) && Linked(u, fwd, text, i, out, y)
    requires NoneJoined(u, fwd, back, text, i) && AllQuiet(u, fwd, back, text, out, i, y)
    ensures Rewrite(u, back, out, y) == Echo(u, fwd, back, text, i)
    decreases |text| - i
  {
    hide *;
    LinkedParts(u, fwd, text, i, out, y);
    if i == |text| {
      BackAtEnd(u, fwd, back, text, out, y);
      EchoEnd(u, fwd, back, text);
    } else if Accepted(u, fwd.pats, text, i) {
      QuietBehind(u, fwd, back, text, out, i, y);
      BackStep(u, fwd, back, text, i, out, y);
      BackFrom(u, fwd, back, text, Next(u, fwd.pats, text, i), out, y + |Out(u, fwd, text, i)|);
    } else {
      QuietHere(u, fwd, back, text, out, i, y);
      var j := RunEnd(u, fwd.pats, text, i);
      BackRun(u, fwd, back, text, i, out, y);
      RunQuiet(u, fwd, back, text, i, j, out, y);
      OverRun(u, fwd, back, text, i);
      BackFrom(u, fwd, back, text, j, out, y + (j - i));
    }
  }

  lemma EchoEnd(u: Tables, fwd: Rules, back: Rules, text: string)
    ensures Echo(u, fwd, back, text, |text|) == []
  {
  }

  /** Behind an accepted source. */
  lemma QuietBehind(u: Tables, fwd: Rules, back: Rules, text: string, out: string, i: nat, y: nat)
    requires i < |text| && Accepted(u, fwd.pats, text, i)
    ensures var m := Next(u, fwd.pats, text, i);
            && i < m <= |text|
            && (AllQuiet(u, fwd, back, text, out, i, y) <==> AllQuiet(u, fwd, back, text, out, m, y + |Out(u, fwd, text, i)|))
            && (NoneJoined(u, fwd, back, text, i) <==> !Joined(u, fwd, back, text, i) && NoneJoined(u, fwd, back, text, m))
            && Echo(u, fwd, back, text, i) == EchoStep(u, fwd, back, text, i) + Echo(u, fwd, back, text, m)
  {
    hide KeyLen, Clear, Joined, EchoStep, Out;
  }

  /** Over a copied stretch. */
  lemma QuietHere(u: Tables, fwd: Rules, back: Rules, text: string, out: string, i: nat, y: nat)
    requires i < |text| && !Accepted(u, fwd.pats, text, i)
    ensures var j := RunEnd(u, fwd.pats, text, i); var z := y + (j - i);
            && i < j <= |text|
            && (AllQuiet(u, fwd, back, text, out, i, y) <==> Quiet(u, back.pats, out, y, z) && AllQuiet(u, fwd, back, text, out, j, z))
  {
    hide KeyLen, Clear, Quiet;
    RunMoves(u, fwd.pats, text, i);
  }

  /** Rewriting with a map and then with its inverse gives back the text with every replaced
      source in the casing it comes back in. */
  lemma ComesBack(u: Tables, fwd: Rules, back: Rules, text: string)
    requires Reversible(u, fwd, back)
    requires NoneJoined(u, fwd, back, text, 0) && AllQuiet(u, fwd, back, text, Rewrite(u, fwd, text, 0), 0, 0)
    ensures Rewrite(u, back, Rewrite(u, fwd, text, 0), 0) == Echo(u, fwd, back, text, 0)
  {
    hide Rewrite, Reversible, NoneJoined, AllQuiet;
    var out := Rewrite(u, fwd, text, 0);
    assert out[0..] == out;
    BackFrom(u, fwd, back, text, 0, out, 0);
  }

  lemma ReturnedFolds(u: Tables, fwd: Rules, back: Rules, source: string)
    requires Lawful(u) && Reverses(u, fwd, back) && Fold(u, source) in fwd.pats
    ensures Fold(u, Returned(u, fwd, back, source)) == Fold(u, source)
  {
    hide MatchCase;
    var p := Fold(u, source);
    assert ReversesKey(u, fwd, back, p);
    var v := Fold(u, fwd.table[p]);
    MatchCaseFolds(u, MatchCase(u, source, fwd.table[p]), back.table[v]);
  }

  lemma EchoStepFolds(u: Tables, fwd: Rules, back: Rules, text: string, i: nat)
    requires Lawful(u) && Reverses(u, fwd, back) && i < |text|
    ensures var end := Next(u, fwd.pats, text, i);
            && Fold(u, EchoStep(u, fwd, back, text, i)) == Fold(u, text[i..end])
            && (EchoStep(u, fwd, back, text, i) == text[i..end] <==> ExactAt(u, fwd, back, text, i))
  {
    hide *;
    if Accepted(u, fwd.pats, text, i) {
      var n := KeyLen(u, fwd.pats, text, i);
      AcceptedTakes(u, fwd.pats, text, i);
      KeyTaken(u, fwd.pats, text, i);
      NextIs(u, fwd, back, text, i, n);
      NextMoves(u, fwd.pats, text, i);
      ExactIs(u, fwd, back, text, i, n);
      ReturnedPart(u, fwd, back, text, i, i + n, Next(u, fwd.pats, text, i));
    } else {
      KeptStep(u, fwd, back, text, i);
    }
  }

  lemma ExactIs(u: Tables, fwd: Rules, back: Rules, text: string, i: nat, n: nat)
    requires i < |text| && n == KeyLen(u, fwd.pats, text, i) && Accepted(u, fwd.pats, text, i) && i + n <= |text|
    ensures ExactAt(u, fwd, back, text, i) <==> Returned(u, fwd, back, text[i..i + n]) == text[i..i + n]
  {
    hide KeyLen, Clear, Returned;
  }

  lemma KeptStep(u: Tables, fwd: Rules, back: Rules, text: string, i: nat)
    requires i < |text| && !Accepted(u, fwd.pats, text, i)
    ensures EchoStep(u, fwd, back, text, i) == text[i..Next(u, fwd.pats, text, i)] && ExactAt(u, fwd, back, text, i)
  {
    hide KeyLen, Clear, TailLen, Returned;
  }

  lemma ReturnedPart(u: Tables, fwd: Rules, back: Rules, text: string, i: nat, e: nat, end: nat)
    requires Lawful(u) && Reverses(u, fwd, back) && i <= e <= end <= |text| && Fold(u, text[i..e]) in fwd.pats
    ensures var r := Returned(u, fwd, back, text[i..e]);
            && Fold(u, r + text[e..end]) == Fold(u, text[i..end])
            && (r + text[e..end] == text[i..end] <==> r == text[i..e])
  {
    hide Returned, Fold, Reverses, Lawful;
    ReturnedFolds(u, fwd, back, text[i..e]);
    assert text[i..e] + text[e..end] == text[i..end];
    SameBefore(u, Returned(u, fwd, back, text[i..e]), text[i..e], text[e..end]);
  }

  lemma SameBefore(u: Tables, r: string, source: string, tail: string)
    requires Fold(u, r) == Fold(u, source)
    ensures Fold(u, r + tail) == Fold(u, source + tail)
    ensures r + tail == source + tail <==> r == source
  {
    FoldConcat(u, r, tail);
    FoldConcat(u, source, tail);
    assert |r| == |source|;
    assert (r + tail)[..|r|] == r && (source + tail)[..|source|] == source;
  }

  /** Echo differs from the text in letter case only. */
  lemma {:induction false} EchoFolds(u: Tables, fwd: Rules, back: Rules, text: string, i: nat)
    requires Lawful(u) && Reverses(u, fwd, back) && i <= |text|
    ensures Fold(u, Echo(u, fwd, back, text, i)) == Fold(u, text[i..])
    decreases |text| - i
  {
    hide EchoStep, Fold, Reverses;
    if i < |text| {
      var end := Next(u, fwd.pats, text, i);
      EchoStepFolds(u, fwd, back, text, i);
      EchoFolds(u, fwd, back, text, end);
      FoldConcat(u, EchoStep(u, fwd, back, text, i), Echo(u, fwd, back, text, end));
      FoldConcat(u, text[i..end], text[end..]);
      assert text[i..] == text[i..end] + text[end..];
    } else {
      assert text[i..] == [];
    }
  }

  /** A source accepted at i comes back as it was written. */
  predicate ExactAt(u: Tables, fwd: Rules, back: Rules, text: string, i: nat)
    requires i < |text|
  {
    Accepted(u, fwd.pats, text, i) ==>
      var source := text[i..i + KeyLen(u, fwd.pats, text, i)]; Returned(u, fwd, back, source) == source
  }

  /** Every source accepted in text[i..] does. */
  predicate AllExact(u: Tables, fwd: Rules, back: Rules, text: string, i: nat)
    decreases |text| - i
  {
    i >= |text| || (ExactAt(u, fwd, back, text, i) && AllExact(u, fwd, back, text, Next(u, fwd.pats, text, i)))
  }

  lemma {:induction false} EchoExact(u: Tables, fwd: Rules, back: Rules, text: string, i: nat)
    requires Lawful(u) && Reverses(u, fwd, back) && i <= |text|
    ensures Echo(u, fwd, back, text, i) == text[i..] <==> AllExact(u, fwd, back, text, i)
    decreases |text| - i
  {
    hide EchoStep, ExactAt, Reverses, Fold, KeyLen, TailLen;
    if i < |text| {
      var end := Next(u, fwd.pats, text, i);
      EchoStepFolds(u, fwd, back, text, i);
      EchoExact(u, fwd, back, text, end);
      SameSplit(u, EchoStep(u, fwd, back, text, i), Echo(u, fwd, back, text, end), text, i, end);
    }
  }

  lemma SameSplit(u: Tables, a: string, x: string, text: string, i: nat, end: nat)
    requires i <= end <= |text| && Fold(u, a) == Fold(u, text[i..end])
    ensures a + x == text[i..] <==> a == text[i..end] && x == text[end..]
  {
    assert |Fold(u, a)| == |a| && |Fold(u, text[i..end])| == end - i;
    assert text[i..] == text[i..end] + text[end..];
    assert (a + x)[..|a|] == a && (a + x)[|a|..] == x;
    assert text[i..][..end - i] == text[i..end] && text[i..][end - i..] == text[end..];
  }

  // ---- What does not come back ----

  /** back takes every value to a key of fwd. */
  ghost predicate Returns(u: Tables, fwd: Rules, back: Rules) {
    forall g :: g in back.pats ==> g in back.table && CaseStable(u, back.table[g]) && Fold(u, back.table[g]) in fwd.pats
  }

  /** Where a value begins with another as whole words, its key begins with the other's key: a full
      name and its first name. */
  ghost predicate FirstsBegin(u: Tables, back: Rules) {
    forall g, v {:trigger StandsInside(u, g, v, 0)} ::
      g in back.pats && v in back.pats && StandsInside(u, g, v, 0) && !IsWordRune(u, g[|v|]) && g in back.table && v in back.table ==>
        Fold(u, back.table[v]) < Fold(u, back.table[g])
  }

  /** No value stands in the text where its own name does. */
  ghost predicate Tellable(u: Tables, back: Rules, text: string) {
    forall g, x: nat {:trigger MatchesAt(u, text, x, g)} :: g in back.pats && g in back.table && MatchesAt(u, text, x, g) ==>
      !MatchesAt(u, text, x, Fold(u, back.table[g]))
  }

  /** Where a value reaches from the text into a replacement, neither it nor its name stands in the
      text. */
  ghost predicate Told(u: Tables, fwd: Rules, back: Rules, text: string) {
    forall g, x: nat, j: nat {:trigger CrossesAt(u, fwd, text, x, g, j)} :: g in back.pats && g in back.table && CrossesAt(u, fwd, text, x, g, j) ==>
      !MatchesAt(u, text, x, g) && !MatchesAt(u, text, x, Fold(u, back.table[g]))
  }

  lemma SameStart(u: Tables, text: string, i: nat, r: string, x: string)
    requires i <= |text| && Fold(u, r) == Fold(u, text[i..]) && Begins(u, r, x)
    ensures MatchesAt(u, text, i, x)
  {
    assert |Fold(u, r)| == |r| && |Fold(u, text[i..])| == |text| - i;
    assert text[i..i + |x|] == text[i..][..|x|];
    assert Fold(u, r[..|x|]) == Fold(u, r)[..|x|] == Fold(u, text[i..])[..|x|] == Fold(u, text[i..][..|x|]);
  }

  lemma LongestStands(u: Tables, pats: seq<string>, out: string, y: nat, x: string) returns (g: string)
    requires LongestFirst(pats) && y <= |out| && x in pats && x != [] && Begins(u, out[y..], x)
    ensures g in pats && |g| >= |x| && Begins(u, out[y..], g) && KeyLen(u, pats, out, y) == |g| && MatchesAt(u, out, y, g)
  {
    hide LongestFirst, KeyLen, Begins, MatchesAt;
    Stands(u, out, y, x);
    LongestTaken(u, pats, out, y, x);
    KeyTaken(u, pats, out, y);
    g := Fold(u, out[y..y + KeyLen(u, pats, out, y)]);
    Stands(u, out, y, g);
  }

  /** The way back takes a longer value at y. */
  lemma LongerTaken(u: Tables, fwd: Rules, back: Rules, text: string, i: nat, out: string, y: nat) returns (p: string, w: string, rest: string, g: string)
    requires Reversible(u, fwd, back) && i < |text| && Joined(u, fwd, back, text, i) && Linked(u, fwd, text, i, out, y)
    ensures |p| == KeyLen(u, fwd.pats, text, i) && p == Fold(u, text[i..i + |p|]) && ReversesKey(u, fwd, back, p) && y < |out|
    ensures out[y..] == w + rest && Fold(u, w) == Fold(u, fwd.table[p]) && RightClear(u, rest, 0)
    ensures g in back.pats && |g| > |w| && Begins(u, w + rest, g) && KeyLen(u, back.pats, out, y) == |g| && MatchesAt(u, out, y, g)
  {
    hide Rewrite, Emit, Replaced, LongestFirst, KeyLen, Begins, MatchesAt, CaseStable, TailLen, LeftClear, RightClear;
    var n := KeyLen(u, fwd.pats, text, i);
    var source, e, end := text[i..i + n], i + n, End(u, text, i, n);
    Replacement(u, fwd, back, text, i, n);
    p, w, rest := Fold(u, source), Replaced(u, fwd, source), text[e..end] + Rewrite(u, fwd, text, end);
    TailKept(u, fwd, text, e, end, rest);
    hide WordStarts, Reverses, ReversesKey, Clear;
    var x :| JoinedBy(u, fwd, back, text, i, x);
    g := LongestStands(u, back.pats, out, y, x);
  }

  /** A value accepted on the way back comes out as its key. */
  lemma TakenComesBack(u: Tables, back: Rules, out: string, y: nat, g: string)
    requires y < |out| && g in back.table && CaseStable(u, back.table[g]) && Lawful(u)
    requires KeyLen(u, back.pats, out, y) == |g| && MatchesAt(u, out, y, g) && Clear(u, out, y, |g|)
    ensures Begins(u, Rewrite(u, back, out, y), Fold(u, back.table[g]))
  {
    hide KeyLen, MatchCase, Rewrite, CaseStable;
    RewriteIs(u, back, out, y, |g|);
    var end := End(u, out, y, |g|);
    var more := Rewrite(u, back, out, end);
    hide Clear, End;
    ClearEmit(u, back.table, out, y, |g|);
    var k := MatchCase(u, out[y..y + |g|], back.table[g]);
    MatchCaseFolds(u, out[y..y + |g|], back.table[g]);
    BeginsWith(u, k, out[y + |g|..end] + more);
    assert k + (out[y + |g|..end] + more) == k + out[y + |g|..end] + more;
  }

  /** A longer value, taken, is accepted and its key comes back, or it is copied. */
  lemma LongerComesBack(u: Tables, back: Rules, out: string, y: nat, w: string, rest: string, g: string)
    requires y < |out| && out[y..] == w + rest && |w| < |g| && g in back.table && CaseStable(u, back.table[g]) && Lawful(u)
    requires KeyLen(u, back.pats, out, y) == |g| && MatchesAt(u, out, y, g)
    ensures Begins(u, Rewrite(u, back, out, y), Fold(u, back.table[g])) || Begins(u, Rewrite(u, back, out, y), Fold(u, w))
  {
    hide KeyLen, MatchCase, Rewrite, CaseStable, Begins;
    RewriteIs(u, back, out, y, |g|);
    var end := End(u, out, y, |g|);
    var more := Rewrite(u, back, out, end);
    if Clear(u, out, y, |g|) {
      TakenComesBack(u, back, out, y, g);
    } else {
      hide Clear, End, MatchesAt;
      assert w <= out[y..];
      assert out[y..end] == w + out[y + |w|..end];
      BeginsWith(u, w, out[y + |w|..end] + more);
      assert w + (out[y + |w|..end] + more) == w + out[y + |w|..end] + more;
    }
  }

  lemma BeginsWith(u: Tables, a: string, b: string)
    ensures Begins(u, a + b, Fold(u, a))
  {
    assert (a + b)[..|a|] == a;
  }

  /** The longer value's key is longer. */
  lemma LongerKey(u: Tables, fwd: Rules, back: Rules, w: string, rest: string, g: string, p: string)
    requires Lawful(u) && FirstsBegin(u, back) && RightClear(u, rest, 0) && ReversesKey(u, fwd, back, p) && Fold(u, w) == Fold(u, fwd.table[p])
    requires g in back.pats && g in back.table && Begins(u, w + rest, g) && |g| > |w|
    ensures |p| < |Fold(u, back.table[g])|
  {
    assert [] + w + rest == w + rest;
    CrossingOverlaps(u, [], w, rest, g);
    hide Begins, RightClear, Fold, CaseStable;
    assert StandsInside(u, g, Fold(u, w), 0);
  }

  lemma LongerResult(u: Tables, fwd: Rules, back: Rules, text: string, i: nat, out: string, y: nat) returns (g: string, v: string)
    requires Reversible(u, fwd, back) && Returns(u, fwd, back) && FirstsBegin(u, back)
    requires i < |text| && Joined(u, fwd, back, text, i) && Linked(u, fwd, text, i, out, y)
    ensures g in back.pats && g in back.table && KeyLen(u, fwd.pats, text, i) < |Fold(u, back.table[g])|
    ensures v in back.pats && v in back.table && Fold(u, back.table[v]) == Fold(u, text[i..i + KeyLen(u, fwd.pats, text, i)])
    ensures var r := Rewrite(u, back, out, y); Begins(u, r, Fold(u, back.table[g])) || Begins(u, r, v)
  {
    hide *;
    var p, w, rest;
    p, w, rest, g := LongerTaken(u, fwd, back, text, i, out, y);
    LawfulRules(u, fwd, back);
    OwnValue(u, fwd, back, p, w);
    ReturnsTo(u, fwd, back, g);
    v := Fold(u, w);
    LongerKey(u, fwd, back, w, rest, g, p);
    LongerComesBack(u, back, out, y, w, rest, g);
  }

  lemma OwnValue(u: Tables, fwd: Rules, back: Rules, p: string, w: string)
    requires ReversesKey(u, fwd, back, p) && Fold(u, w) == Fold(u, fwd.table[p])
    ensures Fold(u, w) in back.pats && Fold(u, w) in back.table && Fold(u, back.table[Fold(u, w)]) == p
  {
  }

  lemma ReturnsTo(u: Tables, fwd: Rules, back: Rules, g: string)
    requires Returns(u, fwd, back) && g in back.pats
    ensures g in back.table && CaseStable(u, back.table[g]) && Fold(u, back.table[g]) in fwd.pats
  {
  }

  /** The text then differs where the source stood: the longer key does not stand there, and the
      source's own value does not. */
  lemma JoinedBreaks(u: Tables, fwd: Rules, back: Rules, text: string, i: nat, out: string, y: nat)
    requires Reversible(u, fwd, back) && LongestFirst(fwd.pats) && Returns(u, fwd, back) && FirstsBegin(u, back) && Tellable(u, back, text)
    requires i < |text| && Accepted(u, fwd.pats, text, i) && Joined(u, fwd, back, text, i) && Linked(u, fwd, text, i, out, y)
    ensures Fold(u, Rewrite(u, back, out, y)) != Fold(u, text[i..])
  {
    hide *;
    var g, v := LongerResult(u, fwd, back, text, i, out, y);
    OwnKey(u, fwd.pats, text, i);
    FormedRules(u, fwd, back);
    NothingStands(u, fwd, back, text, i, g, Rewrite(u, back, out, y), v);
  }

  lemma FormedRules(u: Tables, fwd: Rules, back: Rules)
    requires Reversible(u, fwd, back)
    ensures WellFormed(fwd)
  {
  }

  lemma OwnKey(u: Tables, pats: seq<string>, text: string, i: nat)
    requires i < |text| && Accepted(u, pats, text, i)
    ensures MatchesAt(u, text, i, Fold(u, text[i..i + KeyLen(u, pats, text, i)]))
  {
    hide MatchesAt, LeftClear, RightClear, Fold;
    KeyTaken(u, pats, text, i);
  }

  lemma NothingStands(u: Tables, fwd: Rules, back: Rules, text: string, i: nat, g: string, r: string, v: string)
    requires WellFormed(fwd) && LongestFirst(fwd.pats) && Returns(u, fwd, back) && Tellable(u, back, text) && i < |text|
    requires g in back.pats && KeyLen(u, fwd.pats, text, i) < |Fold(u, back.table[g])|
    requires v in back.pats && v in back.table && MatchesAt(u, text, i, Fold(u, back.table[v]))
    requires Begins(u, r, Fold(u, back.table[g])) || Begins(u, r, v)
    ensures Fold(u, r) != Fold(u, text[i..])
  {
    hide LongestFirst, KeyLen, Begins, MatchesAt, Fold;
    var k := Fold(u, back.table[g]);
    if Fold(u, r) == Fold(u, text[i..]) {
      if Begins(u, r, k) {
        SameStart(u, text, i, r, k);
        LongestTaken(u, fwd.pats, text, i, k);
      } else {
        SameStart(u, text, i, r, v);
      }
    }
  }

  /** A step that folds back, before a rest that does not. */
  lemma DiffersBehind(u: Tables, a: string, b: string, x: string, y: string)
    requires Fold(u, a) == Fold(u, b) && Fold(u, x) != Fold(u, y)
    ensures Fold(u, a + x) != Fold(u, b + y)
  {
    FoldConcat(u, a, x);
    FoldConcat(u, b, y);
    hide Fold;
    assert (Fold(u, a) + Fold(u, x))[|Fold(u, a)|..] == Fold(u, x);
    assert (Fold(u, b) + Fold(u, y))[|Fold(u, b)|..] == Fold(u, y);
  }

  /** A value the way back takes out of copied characters comes out as its name, which does not stand
      there. */
  lemma {:induction false} StrayBreaks(u: Tables, fwd: Rules, back: Rules, text: string, i: nat, j: nat, out: string, y: nat, k: nat)
    requires RunAt(u, fwd, back, text, i, j, out, y) && y <= k <= y + (j - i)
    requires Returns(u, fwd, back) && Tellable(u, back, text) && Told(u, fwd, back, text) && !Quiet(u, back.pats, out, k, y + (j - i))
    ensures i + (k - y) <= |text| && Fold(u, Rewrite(u, back, out, k)) != Fold(u, text[i + (k - y)..])
    decreases y + (j - i) - k
  {
    hide *;
    RunParts(u, fwd, back, text, i, j, out, y);
    var z := y + (j - i);
    QuietEnd(u, back.pats, out, z);
    StepInRun(u, fwd, back, text, i, j, out, y, k);
    NextMoves(u, back.pats, out, k);
    if k + KeyLen(u, back.pats, out, k) > z {
      CrossingBreaks(u, fwd, back, text, i, j, out, y, k);
    } else if Accepted(u, back.pats, out, k) {
      TakenBreaks(u, fwd, back, text, i, j, out, y, k);
    } else {
      NotQuiet(u, back.pats, out, k, z);
      var m, x := Next(u, back.pats, out, k), i + (k - y);
      StrayBreaks(u, fwd, back, text, i, j, out, y, m);
      RunChar(u, fwd, back, text, i, j, out, y, k, m);
      CopiedOut(u, back, out, k);
      DiffersBehind(u, out[k..m], text[x..x + (m - k)], Rewrite(u, back, out, m), text[x + (m - k)..]);
      assert text[x..] == text[x..x + (m - k)] + text[x + (m - k)..];
    }
  }

  /** A value that crosses into a replacement comes out as its name, or is copied. */
  lemma CrossingBreaks(u: Tables, fwd: Rules, back: Rules, text: string, i: nat, j: nat, out: string, y: nat, k: nat)
    requires RunAt(u, fwd, back, text, i, j, out, y) && y <= k < y + (j - i) && k < |out| && j <= |text|
    requires Returns(u, fwd, back) && Told(u, fwd, back, text) && k + KeyLen(u, back.pats, out, k) > y + (j - i)
    ensures Fold(u, Rewrite(u, back, out, k)) != Fold(u, text[i + (k - y)..])
  {
    hide *;
    RunParts(u, fwd, back, text, i, j, out, y);
    LawfulRules(u, fwd, back);
    var x := i + (k - y);
    KeyTaken(u, back.pats, out, k);
    var g := TakenKey(u, back.pats, out, k);
    ReturnsTo(u, fwd, back, g);
    WithinRun(u, fwd, back, text, i, j, out, y, k, g);
    NeitherStands(u, fwd, back, text, x, g, y + (j - i) - k);
    var r := Rewrite(u, back, out, k);
    if Clear(u, out, k, |g|) {
      TakenComesBack(u, back, out, k, g);
    } else {
      KeptBegins(u, back, out, k, g);
    }
    if Fold(u, r) == Fold(u, text[x..]) {
      if Clear(u, out, k, |g|) {
        SameStart(u, text, x, r, Fold(u, back.table[g]));
      } else {
        SameStart(u, text, x, r, g);
      }
    }
  }

  lemma TakenKey(u: Tables, pats: seq<string>, out: string, k: nat) returns (g: string)
    requires KeyLen(u, pats, out, k) > 0 && k < |out|
    ensures |g| == KeyLen(u, pats, out, k) && g in pats && MatchesAt(u, out, k, g) && k + |g| <= |out|
  {
    hide KeyLen, MatchesAt;
    KeyTaken(u, pats, out, k);
    g := Fold(u, out[k..k + KeyLen(u, pats, out, k)]);
  }

  lemma NeitherStands(u: Tables, fwd: Rules, back: Rules, text: string, x: nat, g: string, j: nat)
    requires Told(u, fwd, back, text) && g in back.pats && g in back.table && CrossesAt(u, fwd, text, x, g, j)
    ensures !MatchesAt(u, text, x, g) && !MatchesAt(u, text, x, Fold(u, back.table[g]))
  {
  }

  /** A match that is not accepted is copied. */
  lemma KeptBegins(u: Tables, back: Rules, out: string, k: nat, g: string)
    requires k < |out| && |g| == KeyLen(u, back.pats, out, k) && k + |g| <= |out| && MatchesAt(u, out, k, g) && !Clear(u, out, k, |g|)
    ensures Begins(u, Rewrite(u, back, out, k), g)
  {
    RewriteIs(u, back, out, k, |g|);
    hide KeyLen, Rewrite, Clear, Fold, TailLen;
    var end := End(u, out, k, |g|);
    assert (out[k..end] + Rewrite(u, back, out, end))[..|g|] == out[k..k + |g|];
  }

  lemma QuietEnd(u: Tables, pats: seq<string>, out: string, z: nat)
    ensures Quiet(u, pats, out, z, z)
  {
  }

  lemma NotQuiet(u: Tables, pats: seq<string>, out: string, k: nat, z: nat)
    requires k < z && k < |out| && !Quiet(u, pats, out, k, z) && !Accepted(u, pats, out, k)
    ensures k < Next(u, pats, out, k) <= |out| && !Quiet(u, pats, out, Next(u, pats, out, k), z)
  {
    hide KeyLen, Clear;
  }

  lemma TakenBreaks(u: Tables, fwd: Rules, back: Rules, text: string, i: nat, j: nat, out: string, y: nat, k: nat)
    requires RunAt(u, fwd, back, text, i, j, out, y) && y <= k < y + (j - i) && k < |out| && j <= |text|
    requires Returns(u, fwd, back) && Tellable(u, back, text) && Accepted(u, back.pats, out, k)
    requires k + KeyLen(u, back.pats, out, k) <= y + (j - i)
    ensures Fold(u, Rewrite(u, back, out, k)) != Fold(u, text[i + (k - y)..])
  {
    hide *;
    RunParts(u, fwd, back, text, i, j, out, y);
    LawfulRules(u, fwd, back);
    var x := i + (k - y);
    AcceptedTakes(u, back.pats, out, k);
    var g := TakenInRun(u, fwd, back, text, i, j, out, y, k);
    ReturnsTo(u, fwd, back, g);
    TakenComesBack(u, back, out, k, g);
    NameAbsent(u, back, text, x, g);
    var r := Rewrite(u, back, out, k);
    if Fold(u, r) == Fold(u, text[x..]) {
      SameStart(u, text, x, r, Fold(u, back.table[g]));
    }
  }

  lemma AcceptedTakes(u: Tables, pats: seq<string>, out: string, k: nat)
    requires k < |out| && Accepted(u, pats, out, k)
    ensures KeyLen(u, pats, out, k) > 0 && k + KeyLen(u, pats, out, k) <= |out| && Clear(u, out, k, KeyLen(u, pats, out, k))
  {
  }

  lemma NameAbsent(u: Tables, back: Rules, text: string, x: nat, g: string)
    requires Tellable(u, back, text) && g in back.pats && g in back.table && MatchesAt(u, text, x, g)
    ensures !MatchesAt(u, text, x, Fold(u, back.table[g]))
  {
  }

  lemma {:induction false} BreaksFrom(u: Tables, fwd: Rules, back: Rules, text: string, i: nat, out: string, y: nat)
    requires Reversible(u, fwd, back) && LongestFirst(fwd.pats) && Returns(u, fwd, back) && FirstsBegin(u, back) && Tellable(u, back, text) && Told(u, fwd, back, text)
    requires Linked(u, fwd, text, i, out, y)
    requires !(NoneJoined(u, fwd, back, text, i) && AllQuiet(u, fwd, back, text, out, i, y))
    ensures i <= |text| && Fold(u, Rewrite(u, back, out, y)) != Fold(u, text[i..])
    decreases |text| - i
  {
    hide *;
    LinkedParts(u, fwd, text, i, out, y);
    if i == |text| {
      NothingLeft(u, fwd, back, text, out, y);
    } else if Accepted(u, fwd.pats, text, i) {
      QuietBehind(u, fwd, back, text, out, i, y);
      if Joined(u, fwd, back, text, i) {
        JoinedBreaks(u, fwd, back, text, i, out, y);
      } else {
        BreaksBehind(u, fwd, back, text, i, out, y);
        BreaksFrom(u, fwd, back, text, Next(u, fwd.pats, text, i), out, y + |Out(u, fwd, text, i)|);
      }
    } else {
      QuietHere(u, fwd, back, text, out, i, y);
      var j := RunEnd(u, fwd.pats, text, i);
      BackRun(u, fwd, back, text, i, out, y);
      if Quiet(u, back.pats, out, y, y + (j - i)) {
        BreaksBehindRun(u, fwd, back, text, i, j, out, y);
        OverRun(u, fwd, back, text, i);
          BreaksFrom(u, fwd, back, text, j, out, y + (j - i));
      } else {
        StrayBreaks(u, fwd, back, text, i, j, out, y, y);
      }
    }
  }

  lemma NothingLeft(u: Tables, fwd: Rules, back: Rules, text: string, out: string, y: nat)
    ensures NoneJoined(u, fwd, back, text, |text|) && AllQuiet(u, fwd, back, text, out, |text|, y)
  {
  }

  /** What differs behind an accepted source differs. */
  lemma BreaksBehind(u: Tables, fwd: Rules, back: Rules, text: string, i: nat, out: string, y: nat)
    requires Reversible(u, fwd, back) && i < |text| && Linked(u, fwd, text, i, out, y)
    requires Accepted(u, fwd.pats, text, i) && !Joined(u, fwd, back, text, i)
    ensures var m, z := Next(u, fwd.pats, text, i), y + |Out(u, fwd, text, i)|;
            && i < m <= |text| && Linked(u, fwd, text, m, out, z)
            && (Fold(u, Rewrite(u, back, out, z)) != Fold(u, text[m..]) ==> Fold(u, Rewrite(u, back, out, y)) != Fold(u, text[i..]))
  {
    hide *;
    LawfulRules(u, fwd, back);
    BackStep(u, fwd, back, text, i, out, y);
    EchoStepFolds(u, fwd, back, text, i);
    NextMoves(u, fwd.pats, text, i);
    var m, z := Next(u, fwd.pats, text, i), y + |Out(u, fwd, text, i)|;
    if Fold(u, Rewrite(u, back, out, z)) != Fold(u, text[m..]) {
      DiffersBehind(u, EchoStep(u, fwd, back, text, i), text[i..m], Rewrite(u, back, out, z), text[m..]);
    }
    assert text[i..] == text[i..m] + text[m..];
  }

  lemma NextMoves(u: Tables, pats: seq<string>, text: string, i: nat)
    requires i < |text|
    ensures i < Next(u, pats, text, i) <= |text|
  {
  }

  lemma BreaksBehindRun(u: Tables, fwd: Rules, back: Rules, text: string, i: nat, j: nat, out: string, y: nat)
    requires RunAt(u, fwd, back, text, i, j, out, y) && Quiet(u, back.pats, out, y, y + (j - i)) && j <= |text|
    ensures Fold(u, Rewrite(u, back, out, y + (j - i))) != Fold(u, text[j..]) ==> Fold(u, Rewrite(u, back, out, y)) != Fold(u, text[i..])
  {
    hide *;
    RunQuiet(u, fwd, back, text, i, j, out, y);
    var r := Rewrite(u, back, out, y + (j - i));
    if Fold(u, r) != Fold(u, text[j..]) {
      DiffersBehind(u, text[i..j], text[i..j], r, text[j..]);
    }
    assert text[i..] == text[i..j] + text[j..];
  }

  // ---- The theorems ----

  /** The way back takes no value that starts in copied characters. */
  predicate Unstrayed(u: Tables, fwd: Rules, back: Rules, text: string) {
    AllQuiet(u, fwd, back, text, Rewrite(u, fwd, text, 0), 0, 0)
  }

  /** Round trip: the text comes back, letter case aside, if no source comes out as the beginning of
      a longer value that what follows it completes, and the way back takes no value that
      starts in what was copied; and only if, where the maps are inverse on both sides, full names
      begin with their first names and no value stands where its own name does. */
  lemma RoundTripFolded(u: Tables, fwd: Rules, back: Rules, text: string)
    requires Reversible(u, fwd, back)
    ensures NoneJoined(u, fwd, back, text, 0) && Unstrayed(u, fwd, back, text) ==>
              Fold(u, Rewrite(u, back, Rewrite(u, fwd, text, 0), 0)) == Fold(u, text)
    ensures LongestFirst(fwd.pats) && Returns(u, fwd, back) && FirstsBegin(u, back) && Tellable(u, back, text) && Told(u, fwd, back, text) ==>
              (Fold(u, Rewrite(u, back, Rewrite(u, fwd, text, 0), 0)) == Fold(u, text) <==>
                NoneJoined(u, fwd, back, text, 0) && Unstrayed(u, fwd, back, text))
  {
    hide Reversible, Fold, NoneJoined, AllQuiet, Returns, FirstsBegin, Tellable, Told, LongestFirst, Rewrite;
    assert text[0..] == text;
    if NoneJoined(u, fwd, back, text, 0) && Unstrayed(u, fwd, back, text) {
      ComesBack(u, fwd, back, text);
      FoldsBack(u, fwd, back, text);
    } else if LongestFirst(fwd.pats) && Returns(u, fwd, back) && FirstsBegin(u, back) && Tellable(u, back, text) && Told(u, fwd, back, text) {
      var out := Rewrite(u, fwd, text, 0);
      assert out[0..] == out;
      BreaksFrom(u, fwd, back, text, 0, out, 0);
    }
  }

  lemma FoldsBack(u: Tables, fwd: Rules, back: Rules, text: string)
    requires Reversible(u, fwd, back)
    ensures Fold(u, Echo(u, fwd, back, text, 0)) == Fold(u, text)
  {
    EchoFolds(u, fwd, back, text, 0);
    assert text[0..] == text;
  }

  /** It is exact if and only if, besides, every replaced source comes back as written. */
  lemma RoundTripExact(u: Tables, fwd: Rules, back: Rules, text: string)
    requires Reversible(u, fwd, back)
    ensures NoneJoined(u, fwd, back, text, 0) && Unstrayed(u, fwd, back, text) ==>
              (Rewrite(u, back, Rewrite(u, fwd, text, 0), 0) == text <==> AllExact(u, fwd, back, text, 0))
    ensures LongestFirst(fwd.pats) && Returns(u, fwd, back) && FirstsBegin(u, back) && Tellable(u, back, text) && Told(u, fwd, back, text) ==>
              (Rewrite(u, back, Rewrite(u, fwd, text, 0), 0) == text <==>
                NoneJoined(u, fwd, back, text, 0) && Unstrayed(u, fwd, back, text) && AllExact(u, fwd, back, text, 0))
  {
    LawfulRules(u, fwd, back);
    RoundTripFolded(u, fwd, back, text);
    hide Reversible, NoneJoined, AllQuiet, Fold, Returns, FirstsBegin, Tellable, Told, LongestFirst, Rewrite, AllExact;
    if NoneJoined(u, fwd, back, text, 0) && Unstrayed(u, fwd, back, text) {
      ComesBack(u, fwd, back, text);
      EchoExact(u, fwd, back, text, 0);
      assert text[0..] == text;
    }
  }
}
