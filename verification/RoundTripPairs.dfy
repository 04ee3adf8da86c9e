/** The round trip of decomposed maps, whose values hold full names next to their first and last
    names. */
module RoundTripPairs {
  import opened Unicode
  import opened Scanner
  import opened Streaming
  import opened Reversal
  import opened Stretches
  import opened RoundTrip
  import opened Strays

  /** Behind the first n characters of g a space follows, and one word. */
  predicate IsFull(g: string, n: nat) {
    n + 1 < |g| && g[n] == ' ' && ' ' !in g[n + 1..]
  }

  /** A value overlaps another only as its first name, or as its last. */
  ghost predicate Decomposed(u: Tables, pats: seq<string>) {
    forall g, v, j: nat {:trigger Overlaps(u, g, j, v)} :: g in pats && v in pats && Overlaps(u, g, j, v) ==>
      if j == 0 then IsFull(g, |v|) else IsFull(g, j - 1) && v == g[j..]
  }

  /** The source at i, a space and the source behind it are both replaced, and their values make up a
      full name. */
  predicate ReplacedPairAt(u: Tables, fwd: Rules, back: Rules, text: string, i: nat)
    requires i < |text|
  {
    var e := i + KeyLen(u, fwd.pats, text, i);
    && Accepted(u, fwd.pats, text, i) && e + 1 < |text| && text[e] == ' ' && Accepted(u, fwd.pats, text, e + 1)
    && ValueAt(u, fwd, text, i) + " " + ValueAt(u, fwd, text, e + 1) in back.pats
  }

  /** The source at i is replaced, and behind a space the text itself holds l, which makes the value a
      full name. */
  predicate LiteralPair(u: Tables, fwd: Rules, back: Rules, text: string, i: nat, l: string)
    requires i < |text|
  {
    var e := i + KeyLen(u, fwd.pats, text, i);
    && Accepted(u, fwd.pats, text, i) && e + 1 < |text| && text[e] == ' ' && !Accepted(u, fwd.pats, text, e + 1)
    && ValueAt(u, fwd, text, i) + " " + l in back.pats
    && MatchesAt(u, text, e + 1, l) && e + 1 + |l| <= RunEnd(u, fwd.pats, text, e + 1)
  }

  ghost predicate LiteralPairAt(u: Tables, fwd: Rules, back: Rules, text: string, i: nat)
    requires i < |text|
  {
    exists l :: LiteralPair(u, fwd, back, text, i, l)
  }

  /** The scan from i on meets no pair whose last name stands in the text itself. */
  ghost predicate NoLiteralPairs(u: Tables, fwd: Rules, back: Rules, text: string, i: nat)
    decreases |text| - i
  {
    i >= |text| || (!LiteralPairAt(u, fwd, back, text, i) && NoLiteralPairs(u, fwd, back, text, Next(u, fwd.pats, text, i)))
  }

  /** Nor one whose two names are both replaced. */
  ghost predicate NoPairs(u: Tables, fwd: Rules, back: Rules, text: string, i: nat)
    decreases |text| - i
  {
    i >= |text| || (!ReplacedPairAt(u, fwd, back, text, i) && !LiteralPairAt(u, fwd, back, text, i) && NoPairs(u, fwd, back, text, Next(u, fwd.pats, text, i)))
  }

  /** Both maps compiled. */
  ghost predicate Paired(u: Tables, fwd: Rules, back: Rules) {
    Reversible(u, fwd, back) && Decomposed(u, back.pats)
  }

  // ---- Joined means paired ----

  /** An accepted source of length n: its replacement, and what follows it. */
  lemma Accepts(u: Tables, fwd: Rules, back: Rules, text: string, i: nat, n: nat) returns (w: string, rest: string)
    requires Reversible(u, fwd, back) && i < |text| && n == KeyLen(u, fwd.pats, text, i) && Accepted(u, fwd.pats, text, i)
    ensures Rewrite(u, fwd, text, i) == w + rest && Fold(u, w) == ValueAt(u, fwd, text, i) && RightClear(u, rest, 0) && w != []
    ensures Fold(u, w) in back.pats && Fold(u, text[i..i + n]) in fwd.pats
    ensures TailLen(u, text, i + n) == 0 ==> RightClear(u, text, i + n) && rest == Rewrite(u, fwd, text, i + n)
    ensures TailLen(u, text, i + n) > 0 ==> rest != [] && i + n < |text| && rest[0] == text[i + n]
  {
    hide Rewrite, Emit, Replaced, LongestFirst, KeyLen, CaseStable, LeftClear, MatchCase;
    KeyTaken(u, fwd.pats, text, i);
    Replacement(u, fwd, back, text, i, n);
    var e, end := i + n, End(u, text, i, n);
    w, rest := Replaced(u, fwd, text[i..e]), text[e..end] + Rewrite(u, fwd, text, end);
    TailKept(u, fwd, text, e, end, rest);
    assert text[e..e] == [];
  }

  lemma TailIsMark(u: Tables, text: string, e: nat)
    ensures TailLen(u, text, e) > 0 ==> e < |text| && (text[e] == APOSTROPHE || text[e] == CURLY)
  {
  }

  lemma SpaceBehind(u: Tables, w: string, rest: string, v: string, g: string)
    requires Lawful(u) && Begins(u, w + rest, g) && Fold(u, w) == v && v + " " <= g
    ensures rest != [] && rest[0] == ' ' && Begins(u, rest[1..], g[|v| + 1..])
  {
    var s := w + rest;
    assert |w| == |v| && g[|v|] == ' ' && s[..|g|][|v|] == rest[0];
    assert Fold(u, s[..|g|])[|v|] == u.Lower(rest[0]);
    Spaces(u, rest[0]);
    var l := g[|v| + 1..];
    assert s[..|g|][|v| + 1..] == rest[1..][..|l|];
    assert Fold(u, s[..|g|])[|v| + 1..] == Fold(u, s[..|g|][|v| + 1..]);
  }

  /** Where the rewriting goes on with a space, so does the text. */
  lemma SpaceInText(u: Tables, fwd: Rules, text: string, e: nat, rest: string)
    requires Lawful(u) && WordStarts(u, fwd.pats) && e <= |text| && rest != [] && rest[0] == ' '
    requires TailLen(u, text, e) == 0 ==> RightClear(u, text, e) && rest == Rewrite(u, fwd, text, e)
    requires TailLen(u, text, e) > 0 ==> e < |text| && rest[0] == text[e]
    ensures e < |text| && text[e] == ' ' && rest == " " + Rewrite(u, fwd, text, e + 1)
  {
    TailIsMark(u, text, e);
    hide TailLen, Rewrite;
    assert TailLen(u, text, e) == 0;
    StaysClear(u, fwd, text, e);
    NotWordKept(u, fwd, text, e);
  }

  /** Where a source is joined, a space follows it and what begins with the last name. */
  lemma JoinedFollowed(u: Tables, fwd: Rules, back: Rules, text: string, i: nat, n: nat, w: string, rest: string, g: string)
    requires Reversible(u, fwd, back) && i < |text| && n == KeyLen(u, fwd.pats, text, i) && n > 0
    requires rest != [] && rest[0] == ' ' && g != [] && Begins(u, rest[1..], g)
    requires TailLen(u, text, i + n) == 0 ==> RightClear(u, text, i + n) && rest == Rewrite(u, fwd, text, i + n)
    requires TailLen(u, text, i + n) > 0 ==> i + n < |text| && rest[0] == text[i + n]
    ensures i + n + 1 < |text| && text[i + n] == ' ' && rest == " " + Rewrite(u, fwd, text, i + n + 1)
    ensures Begins(u, Rewrite(u, fwd, text, i + n + 1), g)
  {
    hide *;
    LawfulStarts(u, fwd, back);
    SpaceInText(u, fwd, text, i + n, rest);
    DropFirst(rest, Rewrite(u, fwd, text, i + n + 1));
    RunToEnd(u, fwd, text, i + n + 1);
    NotInEmpty(u, Rewrite(u, fwd, text, i + n + 1), g);
  }

  lemma NotInEmpty(u: Tables, s: string, g: string)
    requires Begins(u, s, g) && g != []
    ensures s != []
  {
  }

  lemma DropFirst(rest: string, r: string)
    requires rest == " " + r
    ensures rest[1..] == r
  {
  }

  /** A last name that begins the rewriting of copied characters stands in them. */
  lemma LastIsLiteral(u: Tables, fwd: Rules, back: Rules, text: string, x: nat, g: string, n: nat)
    requires Paired(u, fwd, back) && x < |text| && !Accepted(u, fwd.pats, text, x)
    requires g in back.pats && IsFull(g, n) && n < |g| && Begins(u, Rewrite(u, fwd, text, x), g[n + 1..])
    ensures MatchesAt(u, text, x, g[n + 1..]) && x + |g[n + 1..]| <= RunEnd(u, fwd.pats, text, x)
  {
    hide *;
    var out, l := Rewrite(u, fwd, text, x), g[n + 1..];
    var j := RunEnd(u, fwd.pats, text, x);
    assert out[0..] == out;
    ReversiblePair(u, fwd, back);
    RunMoves(u, fwd.pats, text, x);
    RunFound(u, fwd, back, text, x, out, 0);
    RunParts(u, fwd, back, text, x, j, out, 0);
    Stands(u, out, 0, l);
    WithinRun(u, fwd, back, text, x, j, out, 0, 0, l);
    OneWordStays(u, fwd, back, text, x, g, n, j - x);
    RunChar(u, fwd, back, text, x, j, out, 0, 0, |l|);
    SameMatch(u, text, x, out, 0, l);
  }

  lemma CrossingParts(u: Tables, fwd: Rules, back: Rules, text: string, x: nat, g: string, j: nat)
    requires Reverses(u, fwd, back) && CrossesAt(u, fwd, text, x, g, j)
    ensures 0 < j < |g| && x + j < |text| && Accepted(u, fwd.pats, text, x + j) && StartsAt(u, text, x, g, j)
    ensures ValueAt(u, fwd, text, x + j) in back.pats && Overlaps(u, g, j, ValueAt(u, fwd, text, x + j))
  {
    hide Overlaps, StartsAt, ValueAt, KeyLen, Clear, Reverses;
    ValueIn(u, fwd, back, text, x + j);
    OverlapsWithin(u, g, j, ValueAt(u, fwd, text, x + j));
  }

  lemma OnlyAsPart(u: Tables, pats: seq<string>, g: string, v: string, j: nat)
    requires Decomposed(u, pats) && g in pats && v in pats && Overlaps(u, g, j, v)
    ensures j == 0 ==> IsFull(g, |v|)
    ensures j > 0 ==> IsFull(g, j - 1) && j <= |g| && v == g[j..]
  {
    hide Overlaps;
  }

  /** A value that crosses into a replacement is a full name. */
  lemma CrossingIsFull(u: Tables, fwd: Rules, back: Rules, text: string, x: nat, g: string, j: nat)
    requires Paired(u, fwd, back) && g in back.pats && CrossesAt(u, fwd, text, x, g, j)
    ensures 0 < j < |g| && IsFull(g, j - 1) && StartsAt(u, text, x, g, j)
    ensures x + j < |text| && Accepted(u, fwd.pats, text, x + j) && ValueAt(u, fwd, text, x + j) == g[j..]
  {
    hide *;
    ReversiblePair(u, fwd, back);
    CrossingParts(u, fwd, back, text, x, g, j);
    OnlyAsPart(u, back.pats, g, ValueAt(u, fwd, text, x + j), j);
  }

  /** What overlaps the last name overlaps the full one. */
  lemma OverlapShifts(u: Tables, g: string, n: nat, o: nat, v: string)
    requires n < |g| && o > 0 && Overlaps(u, g[n + 1..], o, v)
    ensures Overlaps(u, g, n + 1 + o, v)
  {
    var l := g[n + 1..];
    assert l[o - 1] == g[n + o];
    if TailBegins(u, l, o, v) {
      assert l[o..] == g[n + 1 + o..];
    } else {
      assert l[o..o + |v|] == g[n + 1 + o..n + 1 + o + |v|];
    }
  }

  lemma NoSecondSpace(g: string, n: nat, o: nat)
    requires IsFull(g, n) && 0 < o
    ensures !IsFull(g, n + o)
  {
    if n + o < |g| {
      assert g[n + 1..][o - 1] == g[n + o];
    }
  }

  lemma OneWordStays(u: Tables, fwd: Rules, back: Rules, text: string, x: nat, g: string, n: nat, j: nat)
    requires Paired(u, fwd, back) && g in back.pats && IsFull(g, n) && n < |g|
    ensures !CrossesAt(u, fwd, text, x, g[n + 1..], j)
  {
    hide *;
    ReversiblePair(u, fwd, back);
    if CrossesAt(u, fwd, text, x, g[n + 1..], j) {
      CrossingParts(u, fwd, back, text, x, g[n + 1..], j);
      var v := ValueAt(u, fwd, text, x + j);
      OverlapShifts(u, g, n, j, v);
      OnlyAsPart(u, back.pats, g, v, n + 1 + j);
      NoSecondSpace(g, n, j);
    }
  }

  lemma ValueIn(u: Tables, fwd: Rules, back: Rules, text: string, i: nat)
    requires Reverses(u, fwd, back) && i < |text| && Accepted(u, fwd.pats, text, i)
    ensures ValueAt(u, fwd, text, i) in back.pats
  {
    hide Reverses, LeftClear, RightClear, KeyAt;
    ValueBack(u, fwd, back, text, i);
  }

  lemma JoinedFull(u: Tables, fwd: Rules, back: Rules, text: string, i: nat, w: string, rest: string) returns (g: string)
    requires Paired(u, fwd, back) && i < |text| && Joined(u, fwd, back, text, i)
    requires Rewrite(u, fwd, text, i) == w + rest && Fold(u, w) == ValueAt(u, fwd, text, i) && Fold(u, w) in back.pats && RightClear(u, rest, 0)
    ensures g in back.pats && Begins(u, w + rest, g) && IsFull(g, |Fold(u, w)|) && Fold(u, w) <= g
  {
    hide KeyLen, Rewrite, Begins, LongestFirst, Reverses, WordStarts, ValueAt, RightClear, IsFull, Decomposed, FoldTo;
    g :| JoinedBy(u, fwd, back, text, i, g);
    assert |w| == |Fold(u, w)|;
    FullBegins(u, back.pats, w, rest, g);
  }

  lemma PairMade(u: Tables, fwd: Rules, back: Rules, text: string, i: nat, n: nat, g: string)
    requires i < |text| && n == KeyLen(u, fwd.pats, text, i) && Accepted(u, fwd.pats, text, i)
    requires i + n + 1 < |text| && text[i + n] == ' ' && Accepted(u, fwd.pats, text, i + n + 1)
    requires g in back.pats && g == ValueAt(u, fwd, text, i) + " " + ValueAt(u, fwd, text, i + n + 1)
    ensures ReplacedPairAt(u, fwd, back, text, i)
  {
    hide KeyLen, Clear, ValueAt;
  }

  lemma LiteralMade(u: Tables, fwd: Rules, back: Rules, text: string, i: nat, n: nat, l: string)
    requires i < |text| && n == KeyLen(u, fwd.pats, text, i) && Accepted(u, fwd.pats, text, i)
    requires i + n + 1 < |text| && text[i + n] == ' ' && !Accepted(u, fwd.pats, text, i + n + 1)
    requires ValueAt(u, fwd, text, i) + " " + l in back.pats
    requires MatchesAt(u, text, i + n + 1, l) && i + n + 1 + |l| <= RunEnd(u, fwd.pats, text, i + n + 1)
    ensures LiteralPairAt(u, fwd, back, text, i)
  {
    hide KeyLen, Clear, ValueAt, MatchesAt, RunEnd;
    assert LiteralPair(u, fwd, back, text, i, l);
  }

  lemma FullParts(g: string, v: string) returns (l: string)
    requires IsFull(g, |v|) && v <= g
    ensures |v| < |g| && l == g[|v| + 1..] && l != [] && g == v + " " + l
  {
    l := g[|v| + 1..];
  }

  /** A joined source is the first name of a full name, whose last name comes out behind a space. */
  lemma JoinedShape(u: Tables, fwd: Rules, back: Rules, text: string, i: nat, n: nat) returns (g: string, m: nat)
    requires Paired(u, fwd, back) && i < |text| && n == KeyLen(u, fwd.pats, text, i) && Joined(u, fwd, back, text, i)
    ensures g in back.pats && IsFull(g, m) && m < |g| && g == ValueAt(u, fwd, text, i) + " " + g[m + 1..]
    ensures i + n + 1 < |text| && text[i + n] == ' ' && Begins(u, Rewrite(u, fwd, text, i + n + 1), g[m + 1..])
    ensures Accepted(u, fwd.pats, text, i + n + 1) ==> g == ValueAt(u, fwd, text, i) + " " + ValueAt(u, fwd, text, i + n + 1)
  {
    hide *;
    PairedKeys(u, fwd, back, text, i);
    var w, rest := Accepts(u, fwd, back, text, i, n);
    g := JoinedFull(u, fwd, back, text, i, w, rest);
    var v := Fold(u, w);
    m := |v|;
    var l := FullParts(g, v);
    FollowedBySpace(u, w, rest, g);
    JoinedFollowed(u, fwd, back, text, i, n, w, rest, l);
    if Accepted(u, fwd.pats, text, i + n + 1) {
      SecondPart(u, fwd, back, text, i, n, w, rest, g);
    }
  }

  /** In a decomposed map a source comes out as the beginning of a longer value only in a pair. */
  lemma JoinedIsPair(u: Tables, fwd: Rules, back: Rules, text: string, i: nat)
    requires Paired(u, fwd, back) && i < |text| && Joined(u, fwd, back, text, i)
    ensures ReplacedPairAt(u, fwd, back, text, i) || LiteralPairAt(u, fwd, back, text, i)
  {
    hide *;
    PairedKeys(u, fwd, back, text, i);
    var n := KeyLen(u, fwd.pats, text, i);
    var g, m := JoinedShape(u, fwd, back, text, i, n);
    if Accepted(u, fwd.pats, text, i + n + 1) {
      PairMade(u, fwd, back, text, i, n, g);
    } else {
      LastIsLiteral(u, fwd, back, text, i + n + 1, g, m);
      LiteralMade(u, fwd, back, text, i, n, g[m + 1..]);
    }
  }

  lemma PairedKeys(u: Tables, fwd: Rules, back: Rules, text: string, i: nat)
    requires Paired(u, fwd, back) && i < |text| && Joined(u, fwd, back, text, i)
    ensures Reversible(u, fwd, back) && Lawful(u) && [] !in back.pats && Accepted(u, fwd.pats, text, i) && KeyLen(u, fwd.pats, text, i) > 0
  {
    hide KeyLen, Rewrite, LongestFirst, WordStarts, RightClear, LeftClear, Decomposed, TailLen;
  }

  lemma FollowedBySpace(u: Tables, w: string, rest: string, g: string)
    requires Lawful(u) && Begins(u, w + rest, g) && IsFull(g, |Fold(u, w)|) && Fold(u, w) <= g
    ensures |Fold(u, w)| + 1 <= |g| && rest != [] && rest[0] == ' ' && Begins(u, rest[1..], g[|Fold(u, w)| + 1..])
  {
    hide Begins, Fold;
    SpaceBehind(u, w, rest, Fold(u, w), g);
  }

  lemma FullBegins(u: Tables, pats: seq<string>, w: string, rest: string, g: string)
    requires Lawful(u) && Decomposed(u, pats) && g in pats && Fold(u, w) in pats && RightClear(u, rest, 0)
    requires Begins(u, w + rest, g) && |g| > |w|
    ensures IsFull(g, |Fold(u, w)|) && Fold(u, w) <= g
  {
    assert [] + w + rest == w + rest;
    CrossingOverlaps(u, [], w, rest, g);
    OnlyAsPart(u, pats, g, Fold(u, w), 0);
    hide Begins, RightClear, Fold, IsFull, Decomposed;
  }

  lemma SecondPart(u: Tables, fwd: Rules, back: Rules, text: string, i: nat, n: nat, w: string, rest: string, g: string)
    requires Paired(u, fwd, back) && Reversible(u, fwd, back) && i + n + 1 < |text| && Accepted(u, fwd.pats, text, i + n + 1)
    requires rest == " " + Rewrite(u, fwd, text, i + n + 1)
    requires g in back.pats && Begins(u, w + rest, g) && IsFull(g, |Fold(u, w)|) && Fold(u, w) <= g
    ensures g == Fold(u, w) + " " + ValueAt(u, fwd, text, i + n + 1)
  {
    hide KeyLen, Rewrite, TailLen, Begins, LongestFirst, Reverses, WordStarts, Clear, ValueAt, RightClear, Overlaps, FoldTo;
    var x := i + n + 1;
    var w2, rest2 := Accepts(u, fwd, back, text, x, KeyLen(u, fwd.pats, text, x));
    var a, v := w + " ", Fold(u, w);
    assert a + w2 + rest2 == w + rest;
    Spaces(u, ' ');
    assert g[|v| + 1..] != [] && |a| < |g|;
    CrossingOverlaps(u, a, w2, rest2, g);
    assert g[|v| + 1..] == Fold(u, w2);
    assert g == v + " " + g[|v| + 1..];
  }

  lemma BeginsBoth(u: Tables, w: string, r: string, l: string)
    requires Lawful(u) && Begins(u, r, l)
    ensures Begins(u, w + (" " + r), Fold(u, w) + " " + l)
  {
    Spaces(u, ' ');
    assert Fold(u, " ") == " ";
    var b, more := r[..|l|], r[|l|..];
    FoldConcat(u, w + " ", b);
    FoldConcat(u, w, " ");
    var a := w + " " + b;
    assert r == b + more;
    assert w + (" " + r) == a + more;
    BeginsWith(u, a, more);
  }

  /** A space behind an accepted source is copied. */
  lemma SpaceReached(u: Tables, fwd: Rules, text: string, e: nat, rest: string)
    requires Lawful(u) && WordStarts(u, fwd.pats) && e < |text| && text[e] == ' '
    requires TailLen(u, text, e) == 0 ==> rest == Rewrite(u, fwd, text, e)
    ensures rest == " " + Rewrite(u, fwd, text, e + 1)
  {
    TailIsMark(u, text, e);
    Spaces(u, ' ');
    hide TailLen, Rewrite;
    NotWordKept(u, fwd, text, e);
  }

  /** And every pair comes out as the full name. */
  lemma PairIsJoined(u: Tables, fwd: Rules, back: Rules, text: string, i: nat)
    requires Paired(u, fwd, back) && i < |text| && ReplacedPairAt(u, fwd, back, text, i)
    ensures Joined(u, fwd, back, text, i)
  {
    hide *;
    PairHere(u, fwd, back, text, i);
    ReversiblePair(u, fwd, back);
    var n := KeyLen(u, fwd.pats, text, i);
    var x := i + n + 1;
    var w2, rest2 := Accepts(u, fwd, back, text, x, KeyLen(u, fwd.pats, text, x));
    BeginsWith(u, w2, rest2);
    FirstIsJoined(u, fwd, back, text, i, n, ValueAt(u, fwd, text, x));
  }

  lemma ReversiblePair(u: Tables, fwd: Rules, back: Rules)
    requires Paired(u, fwd, back)
    ensures Reversible(u, fwd, back) && Lawful(u) && WordStarts(u, fwd.pats) && Reverses(u, fwd, back) && Decomposed(u, back.pats) && StartsClean(back.pats)
  {
  }

  lemma LiteralIsJoined(u: Tables, fwd: Rules, back: Rules, text: string, i: nat, l: string)
    requires Paired(u, fwd, back) && i < |text| && LiteralPair(u, fwd, back, text, i, l)
    ensures Joined(u, fwd, back, text, i)
  {
    hide *;
    LiteralHere(u, fwd, back, text, i, l);
    ReversiblePair(u, fwd, back);
    var n := KeyLen(u, fwd.pats, text, i);
    var x := i + n + 1;
    var j := RunEnd(u, fwd.pats, text, x);
    OverRun(u, fwd, back, text, x);
    BeginsRun(u, text, x, j, Rewrite(u, fwd, text, j), l);
    FirstIsJoined(u, fwd, back, text, i, n, l);
  }

  lemma BeginsRun(u: Tables, text: string, x: nat, j: nat, rest: string, l: string)
    requires x + |l| <= j <= |text| && MatchesAt(u, text, x, l)
    ensures Begins(u, text[x..j] + rest, l)
  {
    assert (text[x..j] + rest)[..|l|] == text[x..x + |l|];
  }

  lemma LiteralHere(u: Tables, fwd: Rules, back: Rules, text: string, i: nat, l: string)
    requires i < |text| && LiteralPair(u, fwd, back, text, i, l)
    ensures var n := KeyLen(u, fwd.pats, text, i); var x := i + n + 1;
            && n > 0 && x < |text| && text[i + n] == ' ' && Accepted(u, fwd.pats, text, i)
            && ValueAt(u, fwd, text, i) + " " + l in back.pats
            && MatchesAt(u, text, x, l) && x + |l| <= RunEnd(u, fwd.pats, text, x) <= |text|
  {
    hide KeyLen, ValueAt, LeftClear, RightClear, MatchesAt, RunEnd;
    var x := i + KeyLen(u, fwd.pats, text, i) + 1;
    assert RunEnd(u, fwd.pats, text, x) <= |text|;
  }

  lemma FirstIsJoined(u: Tables, fwd: Rules, back: Rules, text: string, i: nat, n: nat, l: string)
    requires Reversible(u, fwd, back) && i < |text| && n == KeyLen(u, fwd.pats, text, i) && Accepted(u, fwd.pats, text, i)
    requires i + n < |text| && text[i + n] == ' ' && ValueAt(u, fwd, text, i) + " " + l in back.pats
    requires Begins(u, Rewrite(u, fwd, text, i + n + 1), l)
    ensures Joined(u, fwd, back, text, i)
  {
    hide *;
    FirstComesOut(u, fwd, back, text, i, n, l);
    IsJoined(u, fwd, back, text, i, l);
  }

  lemma FirstComesOut(u: Tables, fwd: Rules, back: Rules, text: string, i: nat, n: nat, l: string)
    requires Reversible(u, fwd, back) && i < |text| && n == KeyLen(u, fwd.pats, text, i) && Accepted(u, fwd.pats, text, i)
    requires i + n < |text| && text[i + n] == ' ' && Begins(u, Rewrite(u, fwd, text, i + n + 1), l)
    ensures Begins(u, Rewrite(u, fwd, text, i), ValueAt(u, fwd, text, i) + " " + l)
  {
    hide *;
    LawfulStarts(u, fwd, back);
    var w, rest := Accepts(u, fwd, back, text, i, n);
    SpaceReached(u, fwd, text, i + n, rest);
    BeginsBoth(u, w, Rewrite(u, fwd, text, i + n + 1), l);
  }

  lemma LawfulStarts(u: Tables, fwd: Rules, back: Rules)
    requires Reversible(u, fwd, back)
    ensures Lawful(u) && WordStarts(u, fwd.pats)
  {
  }

  lemma IsJoined(u: Tables, fwd: Rules, back: Rules, text: string, i: nat, l: string)
    requires i < |text| && Accepted(u, fwd.pats, text, i) && ValueAt(u, fwd, text, i) + " " + l in back.pats
    requires Begins(u, Rewrite(u, fwd, text, i), ValueAt(u, fwd, text, i) + " " + l)
    ensures Joined(u, fwd, back, text, i)
  {
    hide Rewrite, Begins, KeyLen, Clear, ValueAt;
    assert JoinedBy(u, fwd, back, text, i, ValueAt(u, fwd, text, i) + " " + l);
  }

  lemma {:induction false} NoPairsIff(u: Tables, fwd: Rules, back: Rules, text: string, i: nat)
    requires Paired(u, fwd, back) && i <= |text|
    ensures NoPairs(u, fwd, back, text, i) <==> NoneJoined(u, fwd, back, text, i)
    decreases |text| - i
  {
    hide Paired, ReplacedPairAt, LiteralPair, Joined;
    if i < |text| {
      if Joined(u, fwd, back, text, i) {
        JoinedIsPair(u, fwd, back, text, i);
      }
      if ReplacedPairAt(u, fwd, back, text, i) {
        PairIsJoined(u, fwd, back, text, i);
      }
      if LiteralPairAt(u, fwd, back, text, i) {
        var l :| LiteralPair(u, fwd, back, text, i, l);
        LiteralIsJoined(u, fwd, back, text, i, l);
      }
      NoPairsIff(u, fwd, back, text, Next(u, fwd.pats, text, i));
    }
  }

  // ---- Full names that are not their parts ----

  lemma SourceMatches(u: Tables, text: string, i: nat, n: nat, m: nat)
    requires Lawful(u) && i + n + 1 + m <= |text| && text[i + n] == ' '
    ensures MatchesAt(u, text, i, Fold(u, text[i..i + n]) + " " + Fold(u, text[i + n + 1..i + n + 1 + m]))
  {
    var a, b := text[i..i + n], text[i + n + 1..i + n + 1 + m];
    assert text[i..i + n + 1 + m] == a + " " + b;
    Spaces(u, ' ');
    assert Fold(u, " ") == " ";
    FoldConcat(u, a + " ", b);
    FoldConcat(u, a, " ");
  }

  lemma LongerIsNoKey(u: Tables, pats: seq<string>, text: string, i: nat, k: string)
    requires LongestFirst(pats) && MatchesAt(u, text, i, k) && |k| > KeyLen(u, pats, text, i)
    ensures k !in pats
  {
    hide MatchesAt, KeyLen, LongestFirst;
    if k in pats {
      LongestTaken(u, pats, text, i, k);
    }
  }

  /** The two keys taken at i and behind the space. */
  function KeysAt(u: Tables, fwd: Rules, text: string, i: nat): string
    requires i < |text| && i + KeyLen(u, fwd.pats, text, i) + 1 < |text|
  {
    var x := i + KeyLen(u, fwd.pats, text, i) + 1;
    KeyAt(u, fwd, text, i) + " " + KeyAt(u, fwd, text, x)
  }

  function KeyAt(u: Tables, fwd: Rules, text: string, i: nat): (k: string)
    requires i < |text|
    ensures |k| == KeyLen(u, fwd.pats, text, i)
  {
    Fold(u, text[i..i + KeyLen(u, fwd.pats, text, i)])
  }

  lemma PairHere(u: Tables, fwd: Rules, back: Rules, text: string, i: nat)
    requires i < |text| && ReplacedPairAt(u, fwd, back, text, i)
    ensures var n := KeyLen(u, fwd.pats, text, i);
            && n > 0 && i + n + 1 < |text| && Accepted(u, fwd.pats, text, i) && Accepted(u, fwd.pats, text, i + n + 1) && text[i + n] == ' ' && KeyLen(u, fwd.pats, text, i + n + 1) > 0
            && ValueAt(u, fwd, text, i) + " " + ValueAt(u, fwd, text, i + n + 1) in back.pats
  {
    hide KeyLen, ValueAt, LeftClear, RightClear;
  }

  lemma KeysMatch(u: Tables, fwd: Rules, text: string, i: nat)
    requires Lawful(u) && i < |text| && i + KeyLen(u, fwd.pats, text, i) + 1 < |text| && text[i + KeyLen(u, fwd.pats, text, i)] == ' '
    ensures MatchesAt(u, text, i, KeysAt(u, fwd, text, i))
  {
    var n := KeyLen(u, fwd.pats, text, i);
    hide KeyLen, MatchesAt, Fold;
    SourceMatches(u, text, i, n, KeyLen(u, fwd.pats, text, i + n + 1));
  }

  lemma KeysLength(u: Tables, fwd: Rules, text: string, i: nat)
    requires i < |text| && i + KeyLen(u, fwd.pats, text, i) + 1 < |text|
    ensures |KeysAt(u, fwd, text, i)| > KeyLen(u, fwd.pats, text, i)
  {
    hide KeyLen, Fold;
  }

  /** The scan meets a pair only if the two keys side by side are not a key: a full name with
      something else between its first and its last. */
  lemma PairIsNoKey(u: Tables, fwd: Rules, back: Rules, text: string, i: nat)
    requires Lawful(u) && LongestFirst(fwd.pats) && i < |text| && ReplacedPairAt(u, fwd, back, text, i)
    ensures i + KeyLen(u, fwd.pats, text, i) + 1 < |text| && KeysAt(u, fwd, text, i) !in fwd.pats
  {
    hide *;
    PairHere(u, fwd, back, text, i);
    KeysMatch(u, fwd, text, i);
    KeysLength(u, fwd, text, i);
    LongerIsNoKey(u, fwd.pats, text, i, KeysAt(u, fwd, text, i));
  }

  /** Every full name is its first name, a space and its last, on both sides of the map. */
  ghost predicate Spelled(u: Tables, back: Rules) {
    forall v, l {:trigger v + " " + l} :: v in back.pats && l in back.pats && v + " " + l in back.pats ==> SpelledAs(u, back, v, l)
  }

  ghost predicate SpelledAs(u: Tables, back: Rules, v: string, l: string) {
    && v in back.table && l in back.table && v + " " + l in back.table
    && Fold(u, back.table[v + " " + l]) == Fold(u, back.table[v]) + " " + Fold(u, back.table[l])
  }

  lemma SpelledKey(u: Tables, fwd: Rules, back: Rules, v: string, l: string)
    requires Returns(u, fwd, back) && Spelled(u, back) && v in back.pats && l in back.pats && v + " " + l in back.pats
    ensures v in back.table && l in back.table && Fold(u, back.table[v]) + " " + Fold(u, back.table[l]) in fwd.pats
  {
    hide CaseStable, Fold;
    assert SpelledAs(u, back, v, l);
  }

  lemma SpelledNoPair(u: Tables, fwd: Rules, back: Rules, text: string, i: nat)
    requires Lawful(u) && Reverses(u, fwd, back) && LongestFirst(fwd.pats) && Returns(u, fwd, back) && Spelled(u, back) && i < |text|
    ensures !ReplacedPairAt(u, fwd, back, text, i)
  {
    hide KeyLen, ValueAt, Reverses, Fold, LongestFirst, ReplacedPairAt, Returns, Spelled, KeyAt, Lawful;
    if ReplacedPairAt(u, fwd, back, text, i) {
      PairIsNoKey(u, fwd, back, text, i);
      PairHere(u, fwd, back, text, i);
      var x := i + KeyLen(u, fwd.pats, text, i) + 1;
      ValueBack(u, fwd, back, text, i);
      ValueBack(u, fwd, back, text, x);
      SpelledKey(u, fwd, back, ValueAt(u, fwd, text, i), ValueAt(u, fwd, text, x));
    }
  }

  /** The value taken at i goes back to the key taken there. */
  lemma ValueBack(u: Tables, fwd: Rules, back: Rules, text: string, i: nat)
    requires Reverses(u, fwd, back) && i < |text| && KeyLen(u, fwd.pats, text, i) > 0
    ensures var v := ValueAt(u, fwd, text, i);
            v in back.pats && v in back.table && Fold(u, back.table[v]) == KeyAt(u, fwd, text, i)
  {
    KeyTaken(u, fwd.pats, text, i);
    hide KeyLen, Fold, CaseStable, MatchesAt;
    assert ReversesKey(u, fwd, back, KeyAt(u, fwd, text, i));
  }

  lemma {:induction false} SpelledNoPairs(u: Tables, fwd: Rules, back: Rules, text: string, i: nat)
    requires Lawful(u) && Reverses(u, fwd, back) && LongestFirst(fwd.pats) && Returns(u, fwd, back) && Spelled(u, back)
    ensures NoPairs(u, fwd, back, text, i) <==> NoLiteralPairs(u, fwd, back, text, i)
    decreases |text| - i
  {
    hide Reverses, LongestFirst, Returns, Spelled, ReplacedPairAt, LiteralPair;
    if i < |text| {
      SpelledNoPair(u, fwd, back, text, i);
      SpelledNoPairs(u, fwd, back, text, Next(u, fwd.pats, text, i));
    }
  }

  // ---- Values that cross into a replacement ----

  /** No full name's first name stands in the text where the full name's own name does. */
  ghost predicate FirstsTell(u: Tables, back: Rules, text: string) {
    forall g, n: nat, x: nat {:trigger MatchesAt(u, text, x, g[..n])} ::
      g in back.pats && g in back.table && n < |g| && g[n] == ' ' && MatchesAt(u, text, x, g[..n]) ==>
        !MatchesAt(u, text, x, Fold(u, back.table[g]))
  }

  /** Names and values that start differently never stand at one place. */
  lemma UnlikeTells(u: Tables, back: Rules, text: string)
    requires StartsClean(back.pats)
    requires forall g :: g in back.pats && g in back.table ==> back.table[g] != [] && Fold(u, back.table[g])[0] != g[0]
    ensures Tellable(u, back, text) && FirstsTell(u, back, text)
  {
    hide Fold, MatchesAt;
    forall g, x: nat, n: nat | g in back.pats && g in back.table && 0 < n <= |g| && MatchesAt(u, text, x, g[..n])
      ensures !MatchesAt(u, text, x, Fold(u, back.table[g]))
    {
      SameFirst(u, text, x, g[..n], Fold(u, back.table[g]));
    }
    forall g, x: nat | g in back.pats && g in back.table && MatchesAt(u, text, x, g)
      ensures !MatchesAt(u, text, x, Fold(u, back.table[g]))
    {
      assert g[..|g|] == g;
    }
  }

  lemma SameFirst(u: Tables, text: string, x: nat, p: string, q: string)
    requires p != [] && q != []
    ensures MatchesAt(u, text, x, p) && MatchesAt(u, text, x, q) ==> p[0] == q[0]
  {
    if MatchesAt(u, text, x, p) && MatchesAt(u, text, x, q) {
      SameFirstChar(u, text, x, p);
      SameFirstChar(u, text, x, q);
    }
  }

  lemma SameFirstChar(u: Tables, text: string, x: nat, p: string)
    requires p != [] && MatchesAt(u, text, x, p)
    ensures p[0] == u.Lower(text[x])
  {
  }

  /** Where a full name reaches from the text into a replacement, its first name stands in the text and
      its last name is a replacement: neither the full name nor its key stands there. */
  lemma CrossingsTold(u: Tables, fwd: Rules, back: Rules, text: string)
    requires Paired(u, fwd, back) && Tellable(u, back, text) && FirstsTell(u, back, text)
    ensures Told(u, fwd, back, text)
  {
    hide Paired, Tellable, FirstsTell, CrossesAt, MatchesAt, Fold;
    forall g, x: nat, j: nat | g in back.pats && g in back.table && CrossesAt(u, fwd, text, x, g, j)
      ensures !MatchesAt(u, text, x, g) && !MatchesAt(u, text, x, Fold(u, back.table[g]))
    {
      NameNotThere(u, fwd, back, text, x, g, j);
      FullNotThere(u, fwd, back, text, x, g, j);
    }
  }

  lemma NameNotThere(u: Tables, fwd: Rules, back: Rules, text: string, x: nat, g: string, j: nat)
    requires Paired(u, fwd, back) && FirstsTell(u, back, text)
    requires g in back.pats && g in back.table && CrossesAt(u, fwd, text, x, g, j)
    ensures !MatchesAt(u, text, x, Fold(u, back.table[g]))
  {
    CrossingIsFull(u, fwd, back, text, x, g, j);
    FirstHere(u, text, x, g, j);
    hide Paired, CrossesAt, MatchesAt, Fold, StartsAt;
  }

  lemma FirstHere(u: Tables, text: string, x: nat, g: string, j: nat)
    requires StartsAt(u, text, x, g, j) && j > 0
    ensures MatchesAt(u, text, x, g[..j - 1])
  {
    assert g[..j][..j - 1] == g[..j - 1];
    ShorterMatches(u, text, x, g[..j], j - 1);
  }

  lemma FullNotThere(u: Tables, fwd: Rules, back: Rules, text: string, x: nat, g: string, j: nat)
    requires Paired(u, fwd, back) && Tellable(u, back, text) && g in back.pats && CrossesAt(u, fwd, text, x, g, j)
    ensures !MatchesAt(u, text, x, g)
  {
    hide *;
    CrossingIsFull(u, fwd, back, text, x, g, j);
    ReversiblePair(u, fwd, back);
    AcceptedKey(u, fwd, back, text, x + j);
    OwnKey(u, fwd.pats, text, x + j);
    ValueAbsent(u, back, text, x + j, g[j..], KeyAt(u, fwd, text, x + j));
    LaterAbsent(u, text, x, g, j);
  }

  lemma AcceptedKey(u: Tables, fwd: Rules, back: Rules, text: string, i: nat)
    requires Reverses(u, fwd, back) && i < |text| && Accepted(u, fwd.pats, text, i)
    ensures var v := ValueAt(u, fwd, text, i);
            v in back.pats && v in back.table && Fold(u, back.table[v]) == KeyAt(u, fwd, text, i) == Fold(u, text[i..i + KeyLen(u, fwd.pats, text, i)])
  {
    hide Reverses, LeftClear, RightClear, ValueAt;
    ValueBack(u, fwd, back, text, i);
  }

  lemma ValueAbsent(u: Tables, back: Rules, text: string, x: nat, v: string, k: string)
    requires Tellable(u, back, text) && v in back.pats && v in back.table && Fold(u, back.table[v]) == k && MatchesAt(u, text, x, k)
    ensures !MatchesAt(u, text, x, v)
  {
    hide MatchesAt;
  }

  lemma LaterAbsent(u: Tables, text: string, x: nat, g: string, j: nat)
    requires j <= |g| && !MatchesAt(u, text, x + j, g[j..])
    ensures !MatchesAt(u, text, x, g)
  {
    hide MatchesAt;
    if MatchesAt(u, text, x, g) {
      LaterMatches(u, text, x, g, j);
    }
  }

  lemma LaterMatches(u: Tables, text: string, x: nat, g: string, j: nat)
    requires j <= |g| && MatchesAt(u, text, x, g)
    ensures MatchesAt(u, text, x + j, g[j..])
  {
    assert text[x..x + |g|][j..] == text[x + j..x + j + |g[j..]|];
    assert Fold(u, text[x..x + |g|])[j..] == Fold(u, text[x..x + |g|][j..]);
  }

  // ---- The theorems ----

  /** The round trip of a decomposed map: the text comes back, letter case aside, if and only if the
      scan nowhere replaces a source whose value makes up a full name with what comes behind a
      space, replaced or not, and the way back takes no value that starts in what was copied. */
  lemma DecomposedRoundTrip(u: Tables, fwd: Rules, back: Rules, text: string)
    requires Paired(u, fwd, back)
    ensures NoPairs(u, fwd, back, text, 0) && Unstrayed(u, fwd, back, text) ==>
              Fold(u, Rewrite(u, back, Rewrite(u, fwd, text, 0), 0)) == Fold(u, text)
    ensures LongestFirst(fwd.pats) && Returns(u, fwd, back) && FirstsBegin(u, back) && Tellable(u, back, text) && FirstsTell(u, back, text) ==>
              (Fold(u, Rewrite(u, back, Rewrite(u, fwd, text, 0), 0)) == Fold(u, text) <==>
                NoPairs(u, fwd, back, text, 0) && Unstrayed(u, fwd, back, text))
  {
    hide *;
    ReversiblePair(u, fwd, back);
    NoPairsIff(u, fwd, back, text, 0);
    RoundTripFolded(u, fwd, back, text);
    if Tellable(u, back, text) && FirstsTell(u, back, text) {
      CrossingsTold(u, fwd, back, text);
    }
  }

  /** Where full names are their first and last names with a space between, two replaced names never
      make one up: only a last name that stands in the text itself can. */
  lemma SpelledRoundTrip(u: Tables, fwd: Rules, back: Rules, text: string)
    requires Paired(u, fwd, back) && LongestFirst(fwd.pats) && Returns(u, fwd, back) && Spelled(u, back)
    ensures NoLiteralPairs(u, fwd, back, text, 0) && Unstrayed(u, fwd, back, text) ==>
              Fold(u, Rewrite(u, back, Rewrite(u, fwd, text, 0), 0)) == Fold(u, text)
    ensures FirstsBegin(u, back) && Tellable(u, back, text) && FirstsTell(u, back, text) ==>
              (Fold(u, Rewrite(u, back, Rewrite(u, fwd, text, 0), 0)) == Fold(u, text) <==>
                NoLiteralPairs(u, fwd, back, text, 0) && Unstrayed(u, fwd, back, text))
  {
    hide *;
    ReversiblePair(u, fwd, back);
    SpelledNoPairs(u, fwd, back, text, 0);
    DecomposedRoundTrip(u, fwd, back, text);
  }

  // ---- Texts without a value ----

  /** No value stands in the text, in whatever casing. */
  ghost predicate NotInText(u: Tables, pats: seq<string>, text: string) {
    forall g, x: nat {:trigger MatchesAt(u, text, x, g)} :: g in pats ==> !MatchesAt(u, text, x, g)
  }

  /** First and last name of every full name are values themselves. */
  ghost predicate PartsKnown(pats: seq<string>) {
    forall g, n: nat {:trigger IsFull(g, n)} :: g in pats && IsFull(g, n) ==> g[..n] in pats && g[n + 1..] in pats
  }

  lemma KnownParts(pats: seq<string>, g: string, n: nat)
    requires PartsKnown(pats) && g in pats && IsFull(g, n)
    ensures n < |g| && g[..n] in pats && g[n + 1..] in pats
  {
  }

  /** Before a last name the text would have to hold the first. */
  lemma PartsNotCrossed(u: Tables, fwd: Rules, back: Rules, text: string)
    requires Paired(u, fwd, back) && PartsKnown(back.pats) && NotInText(u, back.pats, text)
    ensures NotCrossed(u, fwd, back, text, 0)
  {
    hide Paired, CrossesAt, Copied, MatchesAt, IsFull, PartsKnown;
    forall g, x: nat, j: nat | g in back.pats
      ensures !CrossesAt(u, fwd, text, x, g, j)
    {
      if CrossesAt(u, fwd, text, x, g, j) {
        CrossingIsFull(u, fwd, back, text, x, g, j);
        KnownParts(back.pats, g, j - 1);
        FirstHere(u, text, x, g, j);
      }
    }
  }

  lemma ShorterMatches(u: Tables, text: string, x: nat, p: string, n: nat)
    requires MatchesAt(u, text, x, p) && n <= |p|
    ensures MatchesAt(u, text, x, p[..n])
  {
    assert text[x..x + |p|][..n] == text[x..x + n];
  }

  lemma OverlapsWithin(u: Tables, g: string, j: nat, v: string)
    requires Overlaps(u, g, j, v)
    ensures j < |g|
  {
  }

  lemma {:induction false} NothingLiteral(u: Tables, fwd: Rules, back: Rules, text: string, i: nat)
    requires Paired(u, fwd, back) && PartsKnown(back.pats) && NotInText(u, back.pats, text)
    ensures NoLiteralPairs(u, fwd, back, text, i)
    decreases |text| - i
  {
    hide Paired, PartsKnown, LiteralPair, NotInText;
    if i < |text| {
      if LiteralPairAt(u, fwd, back, text, i) {
        var l :| LiteralPair(u, fwd, back, text, i, l);
        LiteralStands(u, fwd, back, text, i, l);
      }
      NothingLiteral(u, fwd, back, text, Next(u, fwd.pats, text, i));
    }
  }

  /** A last name behind an accepted first name is a value. */
  lemma LiteralStands(u: Tables, fwd: Rules, back: Rules, text: string, i: nat, l: string)
    requires Paired(u, fwd, back) && PartsKnown(back.pats) && i < |text| && LiteralPair(u, fwd, back, text, i, l)
    ensures !NotInText(u, back.pats, text)
  {
    hide *;
    LiteralHere(u, fwd, back, text, i, l);
    ReversiblePair(u, fwd, back);
    ValueIn(u, fwd, back, text, i);
    var v := ValueAt(u, fwd, text, i);
    LastIsValue(u, back.pats, v, l);
    IsInText(u, back.pats, text, i + KeyLen(u, fwd.pats, text, i) + 1, l);
  }

  lemma LastIsValue(u: Tables, pats: seq<string>, v: string, l: string)
    requires Lawful(u) && Decomposed(u, pats) && PartsKnown(pats) && v in pats && v + " " + l in pats
    ensures l in pats
  {
    var g := v + " " + l;
    Spaces(u, ' ');
    assert g[0..|v|] == v && g[|v|] == ' ' && g[|v| + 1..] == l;
    assert StandsInside(u, g, v, 0);
    hide StandsInside, IsFull, Decomposed, PartsKnown;
    OnlyAsPart(u, pats, g, v, 0);
    KnownParts(pats, g, |v|);
  }

  lemma IsInText(u: Tables, pats: seq<string>, text: string, x: nat, l: string)
    requires l in pats && MatchesAt(u, text, x, l)
    ensures !NotInText(u, pats, text)
  {
  }

  /** So every text that holds no value comes back, where full names are spelled out and their parts
      are values too. */
  lemma FreshRoundTrip(u: Tables, fwd: Rules, back: Rules, text: string)
    requires Paired(u, fwd, back) && LongestFirst(fwd.pats) && Returns(u, fwd, back) && Spelled(u, back)
    requires PartsKnown(back.pats) && NotInText(u, back.pats, text)
    ensures Fold(u, Rewrite(u, back, Rewrite(u, fwd, text, 0), 0)) == Fold(u, text)
  {
    hide *;
    ReversiblePair(u, fwd, back);
    PartsNotCrossed(u, fwd, back, text);
    NothingLiteral(u, fwd, back, text, 0);
    SpelledNoPairs(u, fwd, back, text, 0);
    NoPairsIff(u, fwd, back, text, 0);
    NothingStandsIn(u, fwd, back, text);
    NoneStandComesBack(u, fwd, back, text);
  }

  lemma NothingStandsIn(u: Tables, fwd: Rules, back: Rules, text: string)
    requires NotInText(u, back.pats, text)
    ensures NoneStand(u, fwd, back, text, 0)
  {
    hide MatchesAt, Copied, RightClear, LeftClear;
  }
}
