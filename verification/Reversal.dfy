/** Rewriting with a map and then with its inverse: the pieces. */
module Reversal {
  import opened Unicode
  import opened Scanner
  import opened Streaming

  // ---- Premises ----

  /** back takes every value of fwd to its key, case aside. */
  ghost predicate Reverses(u: Tables, fwd: Rules, back: Rules) {
    && WellFormed(fwd) && WellFormed(back)
    && forall p :: p in fwd.pats ==> ReversesKey(u, fwd, back, p)
  }

  ghost predicate ReversesKey(u: Tables, fwd: Rules, back: Rules, p: string) {
    && p in fwd.table && CaseStable(u, fwd.table[p])
    && var v := Fold(u, fwd.table[p]);
       && v in back.pats && v in back.table
       && Fold(u, back.table[v]) == p && CaseStable(u, back.table[v])
  }

  /** Every key starts with a letter, digit or underscore. */
  ghost predicate WordStarts(u: Tables, pats: seq<string>) {
    forall p :: p in pats ==> p != [] && IsWordRune(u, p[0])
  }

  /** The rest of a from the word start j on begins b. */
  predicate TailBegins(u: Tables, a: string, j: nat, b: string) {
    0 < j < |a| && !IsWordContext(u, a[j - 1]) && a[j..] <= b
  }

  /** From offset o on, g begins v, or holds v as whole words. */
  predicate Overlaps(u: Tables, g: string, o: nat, v: string) {
    (o > 0 && TailBegins(u, g, o, v)) || (StandsInside(u, g, v, o) && !IsWordRune(u, g[o + |v|]))
  }

  /** The first j characters of g stand at x. */
  predicate StartsAt(u: Tables, text: string, x: nat, g: string, j: nat) {
    j <= |g| && MatchesAt(u, text, x, g[..j])
  }

  ghost predicate Reversible(u: Tables, fwd: Rules, back: Rules) {
    Lawful(u) && Reverses(u, fwd, back) && WordStarts(u, fwd.pats) && LongestFirst(back.pats) && StartsClean(back.pats)
  }

  // ---- What comes back ----

  /** An accepted source, replaced and reversed. */
  function Returned(u: Tables, fwd: Rules, back: Rules, source: string): string {
    if Fold(u, source) !in fwd.table then source
    else
      var v := fwd.table[Fold(u, source)];
      if Fold(u, v) !in back.table then source
      else MatchCase(u, MatchCase(u, source, v), back.table[Fold(u, v)])
  }

  /** How the step at i comes back. */
  function EchoStep(u: Tables, fwd: Rules, back: Rules, text: string, i: nat): string
    requires i < |text|
  {
    var e := i + KeyLen(u, fwd.pats, text, i);
    var end := Next(u, fwd.pats, text, i);
    if Accepted(u, fwd.pats, text, i) then Returned(u, fwd, back, text[i..e]) + text[e..end] else text[i..end]
  }

  /** The text with every accepted source as it comes back. */
  function Echo(u: Tables, fwd: Rules, back: Rules, text: string, i: nat): string
    decreases |text| - i
  {
    if i >= |text| then []
    else EchoStep(u, fwd, back, text, i) + Echo(u, fwd, back, text, Next(u, fwd.pats, text, i))
  }

  // ---- Behind a replaced key ----

  /** A character that starts no word is kept. */
  lemma NotWordKept(u: Tables, fwd: Rules, text: string, i: nat)
    requires Lawful(u) && WordStarts(u, fwd.pats) && i < |text| && !IsWordRune(u, text[i])
    ensures KeyLen(u, fwd.pats, text, i) == 0
    ensures Rewrite(u, fwd, text, i) == [text[i]] + Rewrite(u, fwd, text, i + 1)
  {
    var n := KeyLen(u, fwd.pats, text, i);
    FoldKeepsWordClasses(u, text[i]);
    if n > 0 {
      KeyTaken(u, fwd.pats, text, i);
    }
    CopyStep(u, fwd, text, i);
  }

  /** If the text goes on outside a word, so does its rewriting. */
  lemma StaysClear(u: Tables, fwd: Rules, text: string, i: nat)
    requires Lawful(u) && WordStarts(u, fwd.pats) && i <= |text| && RightClear(u, text, i)
    ensures RightClear(u, Rewrite(u, fwd, text, i), 0)
    ensures i == |text| ==> Rewrite(u, fwd, text, i) == []
    ensures i < |text| ==> Rewrite(u, fwd, text, i) != [] && Rewrite(u, fwd, text, i)[0] == text[i]
  {
    if i < |text| {
      NotWordKept(u, fwd, text, i);
    }
  }

  /** Behind a curly apostrophe nothing is replaced. */
  lemma CurlyKept(u: Tables, fwd: Rules, text: string, i: nat)
    requires Lawful(u) && WordStarts(u, fwd.pats) && i < |text| && text[i] == CURLY
    ensures var r := Rewrite(u, fwd, text, i);
            && |r| > 0 && r[0] == CURLY
            && (IsS(u, r, 1) ==> IsS(u, text, i + 1))
  {
    Apostrophes(u, CURLY);
    NotWordKept(u, fwd, text, i);
    if i + 1 < |text| {
      assert !LeftClear(u, text, i + 1);
      FirstKept(u, fwd, text, i + 1);
    } else {
      RewriteEnd(u, fwd, text);
    }
  }

  /** The tail behind a replaced key is read the same way back. */
  lemma TailKept(u: Tables, fwd: Rules, text: string, e: nat, end: nat, y: string)
    requires Lawful(u) && WordStarts(u, fwd.pats) && e <= |text|
    requires end == e + TailLen(u, text, e) && RightClear(u, text, end)
    requires y == text[e..end] + Rewrite(u, fwd, text, end)
    ensures TailLen(u, y, 0) == end - e
    ensures RightClear(u, y, 0) && RightClear(u, y, end - e)
  {
    var rest := Rewrite(u, fwd, text, end);
    StaysClear(u, fwd, text, end);
    Apostrophes(u, APOSTROPHE);
    Apostrophes(u, CURLY);
    if end == e {
      assert y == rest;
      if e < |text| && text[e] == CURLY {
        CurlyKept(u, fwd, text, e);
      }
    } else {
      assert y[0] == text[e];
      assert forall k :: 0 <= k < end - e ==> y[k] == text[e + k];
      assert |y| > end - e ==> y[end - e] == rest[0];
    }
  }

  // ---- Positions of the text and of its rewriting ----

  /** y is where the rewriting of text[i..] starts in `out`, and what stands before i in the text
      stands before y too, unless no key can start at i. */
  ghost predicate Linked(u: Tables, fwd: Rules, text: string, i: nat, out: string, y: nat) {
    && i <= |text| && y <= |out| && out[y..] == Rewrite(u, fwd, text, i)
    && ((i == 0 && y == 0) || (i > 0 && y > 0 && out[y - 1] == text[i - 1]) || (y > 0 && RightClear(u, text, i)))
  }

  lemma Shift(u: Tables, out: string, y: nat, z: nat)
    requires y <= |out| && y + z <= |out|
    ensures TailLen(u, out, y + z) == TailLen(u, out[y..], z)
    ensures RightClear(u, out, y + z) == RightClear(u, out[y..], z)
  {
  }

  lemma MatchShift(u: Tables, out: string, y: nat, p: string)
    requires y <= |out|
    ensures MatchesAt(u, out, y, p) <==> |p| <= |out[y..]| && Fold(u, out[y..][..|p|]) == p
  {
    if y + |p| <= |out| {
      assert out[y..y + |p|] == out[y..][..|p|];
    }
  }

  /** g stands at the beginning of s, case aside. */
  predicate Begins(u: Tables, s: string, g: string) {
    |g| <= |s| && Fold(u, s[..|g|]) == g
  }

  /** What replaces an accepted source. */
  function Replaced(u: Tables, fwd: Rules, source: string): string {
    if Fold(u, source) in fwd.table then MatchCase(u, source, fwd.table[Fold(u, source)]) else source
  }

  /** An accepted source of length n at i and its replacement. */
  lemma Replacement(u: Tables, fwd: Rules, back: Rules, text: string, i: nat, n: nat)
    requires Lawful(u) && Reverses(u, fwd, back) && i < |text|
    requires n == KeyLen(u, fwd.pats, text, i) && Accepted(u, fwd.pats, text, i)
    ensures ReversesKey(u, fwd, back, Fold(u, text[i..i + n]))
    ensures var w := Replaced(u, fwd, text[i..i + n]);
            && Fold(u, w) == Fold(u, fwd.table[Fold(u, text[i..i + n])]) && w != []
            && Rewrite(u, fwd, text, i) == w + (text[i + n..End(u, text, i, n)] + Rewrite(u, fwd, text, End(u, text, i, n)))
  {
    hide MatchCase, LeftClear, RightClear, Emit, Rewrite, FoldTo, TailLen, KeyLen, CaseStable;
    KeyTaken(u, fwd.pats, text, i);
    var p := Fold(u, text[i..i + n]);
    assert ReversesKey(u, fwd, back, p);
    MatchCaseFolds(u, text[i..i + n], fwd.table[p]);
    assert Fold(u, fwd.table[p]) != [];
    ClearEmit(u, fwd.table, text, i, n);
    RewriteIs(u, fwd, text, i, n);
  }

  // ---- From copied characters into a replacement ----

  /** The value of the source taken at i. */
  function ValueAt(u: Tables, fwd: Rules, text: string, i: nat): string
    requires i < |text|
  {
    var p := Fold(u, text[i..i + KeyLen(u, fwd.pats, text, i)]);
    if p in fwd.table then Fold(u, fwd.table[p]) else []
  }

  /** g's first j characters stand at x, and the source replaced behind them has a value that ends or
      continues g. */
  predicate CrossesAt(u: Tables, fwd: Rules, text: string, x: nat, g: string, j: nat) {
    && 0 < j && x + j < |text| && Accepted(u, fwd.pats, text, x + j)
    && Overlaps(u, g, j, ValueAt(u, fwd, text, x + j)) && StartsAt(u, text, x, g, j)
  }

  /** Else no value reaches from copied characters into a replacement. */
  lemma NoneAcross(u: Tables, fwd: Rules, back: Rules, text: string, x: nat, j: nat, tail: string, g: string)
    requires Reversible(u, fwd, back) && x < j < |text| && Accepted(u, fwd.pats, text, j) && j - x < |g|
    requires !CrossesAt(u, fwd, text, x, g, j - x)
    requires tail == text[x..j] + Rewrite(u, fwd, text, j)
    ensures !Begins(u, tail, g)
  {
    hide Replaced, KeyLen, Rewrite, Begins, TailLen, Overlaps, LongestFirst, CaseStable, StartsClean;
    var n := KeyLen(u, fwd.pats, text, j);
    var end := End(u, text, j, n);
    Replacement(u, fwd, back, text, j, n);
    var w := Replaced(u, fwd, text[j..j + n]);
    var rest := text[j + n..end] + Rewrite(u, fwd, text, end);
    TailKept(u, fwd, text, j + n, end, rest);
    assert tail == text[x..j] + w + rest;
    assert ValueAt(u, fwd, text, j) == Fold(u, w);
    NoCrossing(u, text[x..j], w, rest, g);
  }

  /** Where g stands at the start of a + w + rest and reaches into w, it overlaps w. */
  lemma CrossingOverlaps(u: Tables, a: string, w: string, rest: string, g: string)
    requires Lawful(u) && (a == [] || !IsWordContext(u, a[|a| - 1])) && RightClear(u, rest, 0)
    requires Begins(u, a + w + rest, g) && |a| < |g| && (a == [] ==> |g| > |w|)
    ensures Overlaps(u, g, |a|, Fold(u, w))
  {
    var v, o := Fold(u, w), |a|;
    BeginsAt(u, a, w, rest, g);
    hide Begins, Fold;
    if o > 0 {
      FoldKeepsWordClasses(u, a[o - 1]);
    }
    if |g| - o <= |v| {
      assert g[o..] == v[..|g| - o];
    } else {
      FoldKeepsWordClasses(u, rest[0]);
      assert g[o..o + |v|] == v;
    }
  }

  lemma BeginsAt(u: Tables, a: string, w: string, rest: string, g: string)
    requires Begins(u, a + w + rest, g)
    ensures 0 < |a| <= |g| ==> g[|a| - 1] == u.Lower(a[|a| - 1])
    ensures forall k :: 0 <= k < |w| && |a| + k < |g| ==> g[|a| + k] == u.Lower(w[k])
    ensures |a| + |w| < |g| ==> rest != [] && g[|a| + |w|] == u.Lower(rest[0])
  {
    var t := a + w + rest;
    assert forall k :: 0 <= k < |g| ==> g[k] == u.Lower(t[k]);
  }

  /** No value starts in a and ends behind a where a whole value w stands. */
  lemma NoCrossing(u: Tables, a: string, w: string, rest: string, g: string)
    requires Lawful(u) && a != [] && !IsWordContext(u, a[|a| - 1]) && RightClear(u, rest, 0) && |a| < |g|
    requires Overlaps(u, g, |a|, Fold(u, w)) ==> Fold(u, a) != g[..|a|]
    ensures !Begins(u, a + w + rest, g)
  {
    hide TailBegins, StandsInside, RightClear, Overlaps;
    assert a + w + rest == a + (w + rest);
    if Begins(u, a + w + rest, g) {
      BeginsFolds(u, a, w + rest, g);
      CrossingOverlaps(u, a, w, rest, g);
    }
  }

  lemma BeginsFolds(u: Tables, a: string, b: string, g: string)
    requires Begins(u, a + b, g) && |a| <= |g|
    ensures Fold(u, a) == g[..|a|]
  {
    assert (a + b)[..|g|][..|a|] == a;
    assert Fold(u, (a + b)[..|g|])[..|a|] == Fold(u, a);
  }

  /** Where no longer value stands than w, the scan takes w. */
  lemma TakesValue(u: Tables, pats: seq<string>, out: string, y: nat, w: string, rest: string)
    requires LongestFirst(pats) && Fold(u, w) in pats && w != []
    requires y <= |out| && out[y..] == w + rest
    requires forall g :: g in pats && Begins(u, w + rest, g) ==> |g| <= |w|
    ensures KeyLen(u, pats, out, y) == |w|
  {
    hide LongestFirst, KeyLen;
    var v := Fold(u, w);
    assert (w + rest)[..|v|] == w;
    MatchShift(u, out, y, v);
    assert MatchesAt(u, out, y, v);
    LongestTaken(u, pats, out, y, v);
    KeyTaken(u, pats, out, y);
    var g := Fold(u, out[y..y + KeyLen(u, pats, out, y)]);
    MatchShift(u, out, y, g);
  }

  // ---- Where a longer value comes out ----

  ghost predicate JoinedBy(u: Tables, fwd: Rules, back: Rules, text: string, i: nat, g: string)
    requires i < |text|
  {
    g in back.pats && |g| > |ValueAt(u, fwd, text, i)| && Begins(u, Rewrite(u, fwd, text, i), g)
  }

  /** The source accepted at i comes out as the beginning of a longer value, which what follows it
      completes. */
  ghost predicate Joined(u: Tables, fwd: Rules, back: Rules, text: string, i: nat)
    requires i < |text|
  {
    Accepted(u, fwd.pats, text, i) && exists g :: JoinedBy(u, fwd, back, text, i, g)
  }

  /** From i on no source does. */
  ghost predicate NoneJoined(u: Tables, fwd: Rules, back: Rules, text: string, i: nat)
    decreases |text| - i
  {
    i >= |text| || (!Joined(u, fwd, back, text, i) && NoneJoined(u, fwd, back, text, Next(u, fwd.pats, text, i)))
  }

  // ---- Back over a replacement ----

  lemma SplitSuffix(out: string, y: nat, a: string, b: string)
    requires y <= |out| && out[y..] == a + b
    ensures y + |a| <= |out| && out[y..y + |a|] == a && out[y + |a|..] == b
  {
    assert out[y..][..|a|] == a && out[y..][|a|..] == b;
    assert out[y..y + |a|] == out[y..][..|a|];
    assert out[y + |a|..] == out[y..][|a|..];
  }

  /** A match that may start at i in the text may start at y in the rewriting. */
  lemma StillLeftClear(u: Tables, fwd: Rules, text: string, i: nat, out: string, y: nat)
    requires Lawful(u) && WordStarts(u, fwd.pats)
    requires i < |text| && Accepted(u, fwd.pats, text, i) && Linked(u, fwd, text, i, out, y)
    ensures LeftClear(u, out, y)
  {
    hide Rewrite;
    if RightClear(u, text, i) {
      NotWordKept(u, fwd, text, i);
    }
  }

  /** Unless it is joined, the way back takes the source's own value. */
  lemma TakesOwn(u: Tables, fwd: Rules, back: Rules, text: string, i: nat, out: string, y: nat, w: string, rest: string)
    requires LongestFirst(back.pats) && i < |text| && Accepted(u, fwd.pats, text, i) && !Joined(u, fwd, back, text, i)
    requires y <= |out| && out[y..] == Rewrite(u, fwd, text, i) == w + rest
    requires w != [] && Fold(u, w) == ValueAt(u, fwd, text, i) && Fold(u, w) in back.pats
    ensures KeyLen(u, back.pats, out, y) == |w|
  {
    hide Rewrite, LongestFirst, KeyLen, Begins, ValueAt, Clear;
    forall g | g in back.pats && Begins(u, w + rest, g)
      ensures |g| <= |w|
    {
      assert !JoinedBy(u, fwd, back, text, i, g);
    }
    TakesValue(u, back.pats, out, y, w, rest);
  }

  /** A replacement comes back as the key it stands for. */
  lemma BackOverReplaced(u: Tables, fwd: Rules, back: Rules, text: string, i: nat, n: nat, out: string, y: nat)
    requires Reversible(u, fwd, back)
    requires i < |text| && Accepted(u, fwd.pats, text, i) && n == KeyLen(u, fwd.pats, text, i)
    requires Linked(u, fwd, text, i, out, y) && !Joined(u, fwd, back, text, i)
    ensures var end := End(u, text, i, n);
            var z := y + |Replaced(u, fwd, text[i..i + n])| + (end - (i + n));
            && Linked(u, fwd, text, end, out, z)
            && Rewrite(u, back, out, y) == Returned(u, fwd, back, text[i..i + n]) + text[i + n..end] + Rewrite(u, back, out, z)
  {
    hide Rewrite, Emit, Replaced, LongestFirst, KeyLen, StartsClean, Begins, Joined;
    var source, e, end := text[i..i + n], i + n, End(u, text, i, n);
    Replacement(u, fwd, back, text, i, n);
    StillLeftClear(u, fwd, text, i, out, y);
    var w := Replaced(u, fwd, source);
    var tail, rest := text[e..end], Rewrite(u, fwd, text, end);
    TailKept(u, fwd, text, e, end, tail + rest);
    TakesOwn(u, fwd, back, text, i, out, y, w, tail + rest);
    ReplacedStep(u, back, out, y, w, tail, rest);
    SplitSuffix(out, y, w + tail, rest);
    assert w + (tail + rest) == (w + tail) + rest;
    if end > e {
      assert out[y + |w| + |tail| - 1] == (w + tail)[|w + tail| - 1] == text[end - 1];
    }
    assert Returned(u, fwd, back, source) == MatchCase(u, w, back.table[Fold(u, w)]) by {
      ReplacedIs(u, fwd, source);
    }
  }

  lemma ReplacedIs(u: Tables, fwd: Rules, source: string)
    requires Fold(u, source) in fwd.table
    ensures Replaced(u, fwd, source) == MatchCase(u, source, fwd.table[Fold(u, source)])
  {
  }

  /** A value and its tail, as the way back reads them. */
  lemma ReplacedEnd(u: Tables, out: string, y: nat, w: string, tail: string, rest: string)
    requires y < |out| && out[y..] == w + (tail + rest) && w != []
    requires TailLen(u, tail + rest, 0) == |tail| && RightClear(u, tail + rest, |tail|) && LeftClear(u, out, y)
    ensures y + |w| + |tail| <= |out| && out[y..y + |w|] == w && out[y + |w|..y + |w| + |tail|] == tail
    ensures End(u, out, y, |w|) == y + |w| + |tail| && Clear(u, out, y, |w|)
  {
    SplitSuffix(out, y, w, tail + rest);
    SplitSuffix(out, y + |w|, tail, rest);
    Shift(u, out, y + |w|, 0);
    Shift(u, out, y + |w|, |tail|);
    hide RightClear, LeftClear, TailLen;
    assert out[y + |w|..] == tail + rest;
  }

  lemma ReplacedEmit(u: Tables, back: Rules, out: string, y: nat, w: string, tail: string)
    requires y < |out| && y + |w| + |tail| <= |out| && |w| == KeyLen(u, back.pats, out, y) && Fold(u, w) in back.table
    requires out[y..y + |w|] == w && out[y + |w|..y + |w| + |tail|] == tail
    requires End(u, out, y, |w|) == y + |w| + |tail| && Clear(u, out, y, |w|)
    ensures Rewrite(u, back, out, y) == MatchCase(u, w, back.table[Fold(u, w)]) + tail + Rewrite(u, back, out, y + |w| + |tail|)
  {
    hide *;
    ClearEmit(u, back.table, out, y, |w|);
    RewriteIs(u, back, out, y, |w|);
  }

  /** One step of the way back over a value and its tail. */
  lemma ReplacedStep(u: Tables, back: Rules, out: string, y: nat, w: string, tail: string, rest: string)
    requires y < |out| && out[y..] == w + (tail + rest) && w != []
    requires KeyLen(u, back.pats, out, y) == |w| && Fold(u, w) in back.table
    requires TailLen(u, tail + rest, 0) == |tail| && RightClear(u, tail + rest, |tail|) && LeftClear(u, out, y)
    ensures y + |w| + |tail| <= |out|
    ensures Rewrite(u, back, out, y) == MatchCase(u, w, back.table[Fold(u, w)]) + tail + Rewrite(u, back, out, y + |w| + |tail|)
  {
    ReplacedEnd(u, out, y, w, tail, rest);
    hide *;
    ReplacedEmit(u, back, out, y, w, tail);
  }
}
