/** What the forward pass copies, and how the way back reads it. */
module Stretches {
  import opened Unicode
  import opened Scanner
  import opened Reversal

  // ---- Copied stretches ----

  /** The scan from i on leaves the character at x as it is. */
  predicate Copied(u: Tables, pats: seq<string>, text: string, i: nat, x: nat)
    decreases |text| - i
  {
    i <= x < |text| && if x < Next(u, pats, text, i) then !Accepted(u, pats, text, i) else Copied(u, pats, text, Next(u, pats, text, i), x)
  }

  /** From i on, no value reaches from copied characters into a replacement. */
  ghost predicate NotCrossed(u: Tables, fwd: Rules, back: Rules, text: string, i: nat) {
    forall g, x: nat, j: nat {:trigger CrossesAt(u, fwd, text, x, g, j)} ::
      g in back.pats && Copied(u, fwd.pats, text, i, x) ==> !CrossesAt(u, fwd, text, x, g, j)
  }

  lemma CopiedBehind(u: Tables, pats: seq<string>, text: string, i: nat, x: nat)
    requires i < |text|
    ensures Copied(u, pats, text, Next(u, pats, text, i), x) ==> Copied(u, pats, text, i, x)
  {
    hide KeyLen, Clear;
    assert Copied(u, pats, text, Next(u, pats, text, i), x) ==> Next(u, pats, text, i) <= x;
  }

  lemma NotCrossedBehind(u: Tables, fwd: Rules, back: Rules, text: string, i: nat)
    requires i < |text| && NotCrossed(u, fwd, back, text, i)
    ensures NotCrossed(u, fwd, back, text, Next(u, fwd.pats, text, i))
  {
    hide CrossesAt, Copied, KeyLen;
    forall x: nat
      ensures Copied(u, fwd.pats, text, Next(u, fwd.pats, text, i), x) ==> Copied(u, fwd.pats, text, i, x)
    {
      CopiedBehind(u, fwd.pats, text, i, x);
    }
  }

  /** Where the scan from i on first accepts a key, or the end of the text. */
  function RunEnd(u: Tables, pats: seq<string>, text: string, i: nat): (j: nat)
    requires i <= |text|
    ensures i <= j <= |text| && (j == |text| || Accepted(u, pats, text, j))
    decreases |text| - i
  {
    if i == |text| || Accepted(u, pats, text, i) then i else RunEnd(u, pats, text, Next(u, pats, text, i))
  }

  /** What stands between is copied. */
  lemma {:induction false} RunCopied(u: Tables, pats: seq<string>, text: string, i: nat, x: nat)
    requires i <= |text|
    ensures i <= x < RunEnd(u, pats, text, i) ==> Copied(u, pats, text, i, x)
    decreases |text| - i
  {
    hide KeyLen, Clear;
    if i < |text| && !Accepted(u, pats, text, i) {
      RunCopied(u, pats, text, Next(u, pats, text, i), x);
    }
  }

  lemma {:induction false} CopiedBehindRun(u: Tables, fwd: Rules, back: Rules, text: string, i: nat)
    requires i <= |text|
    ensures NotCrossed(u, fwd, back, text, i) ==> NotCrossed(u, fwd, back, text, RunEnd(u, fwd.pats, text, i))
    decreases |text| - i
  {
    hide KeyLen, Clear, NotCrossed;
    if i < |text| && !Accepted(u, fwd.pats, text, i) {
      if NotCrossed(u, fwd, back, text, i) {
        NotCrossedBehind(u, fwd, back, text, i);
      }
      CopiedBehindRun(u, fwd, back, text, Next(u, fwd.pats, text, i));
    }
  }

  lemma JoinSlices(text: string, i: nat, m: nat, j: nat, rest: string)
    requires i <= m <= j <= |text|
    ensures text[i..m] + (text[m..j] + rest) == text[i..j] + rest
  {
    assert text[i..m] + text[m..j] == text[i..j];
  }

  /** Over such a stretch the rewriting, the echo and the joins are those behind it. */
  lemma {:induction false} OverRun(u: Tables, fwd: Rules, back: Rules, text: string, i: nat)
    requires i <= |text|
    ensures var j := RunEnd(u, fwd.pats, text, i);
            && Rewrite(u, fwd, text, i) == text[i..j] + Rewrite(u, fwd, text, j)
            && Echo(u, fwd, back, text, i) == text[i..j] + Echo(u, fwd, back, text, j)
            && (NoneJoined(u, fwd, back, text, i) <==> NoneJoined(u, fwd, back, text, j))
    decreases |text| - i
  {
    hide KeyLen, Clear, Rewrite, Emit, Returned, JoinedBy;
    var j := RunEnd(u, fwd.pats, text, i);
    if i == |text| || Accepted(u, fwd.pats, text, i) {
      assert text[i..i] == [];
    } else {
      var m := Next(u, fwd.pats, text, i);
      OverRun(u, fwd, back, text, m);
      CopiedOut(u, fwd, text, i);
      JoinSlices(text, i, m, j, Rewrite(u, fwd, text, j));
      JoinSlices(text, i, m, j, Echo(u, fwd, back, text, j));
    }
  }

  lemma CopiedOut(u: Tables, fwd: Rules, text: string, i: nat)
    requires i < |text| && !Accepted(u, fwd.pats, text, i)
    ensures var m := Next(u, fwd.pats, text, i); Rewrite(u, fwd, text, i) == text[i..m] + Rewrite(u, fwd, text, m)
  {
    hide KeyLen;
  }

  // ---- Back over a copied stretch ----

  /** text[i..j] is copied to y, and the rewriting of text[j..] follows. */
  ghost predicate RunAt(u: Tables, fwd: Rules, back: Rules, text: string, i: nat, j: nat, out: string, y: nat) {
    && Reversible(u, fwd, back) && i <= j <= |text| && (j == |text| || Accepted(u, fwd.pats, text, j))
    && y + (j - i) <= |out| && out[y..] == text[i..j] + Rewrite(u, fwd, text, j)
  }

  lemma RunFound(u: Tables, fwd: Rules, back: Rules, text: string, i: nat, out: string, y: nat)
    requires Reversible(u, fwd, back) && i <= |text| && y <= |out| && out[y..] == Rewrite(u, fwd, text, i)
    ensures RunAt(u, fwd, back, text, i, RunEnd(u, fwd.pats, text, i), out, y)
  {
    hide KeyLen, Rewrite, Reversible, Clear;
    OverRun(u, fwd, back, text, i);
    var j := RunEnd(u, fwd.pats, text, i);
    SplitSuffix(out, y, text[i..j], Rewrite(u, fwd, text, j));
  }

  /** The stretch from one of its characters on. */
  lemma InRun(u: Tables, fwd: Rules, back: Rules, text: string, i: nat, j: nat, out: string, y: nat, k: nat)
    requires RunAt(u, fwd, back, text, i, j, out, y) && y <= k <= y + (j - i)
    ensures var x := i + (k - y); out[k..] == text[x..j] + Rewrite(u, fwd, text, j)
  {
    hide Rewrite, Reversible;
    var x := i + (k - y);
    assert text[i..j] == text[i..x] + text[x..j];
    assert out[y..] == text[i..x] + (text[x..j] + Rewrite(u, fwd, text, j));
    SplitSuffix(out, y, text[i..x], text[x..j] + Rewrite(u, fwd, text, j));
  }

  lemma RunChar(u: Tables, fwd: Rules, back: Rules, text: string, i: nat, j: nat, out: string, y: nat, k: nat, m: nat)
    requires RunAt(u, fwd, back, text, i, j, out, y) && y <= k <= m <= y + (j - i)
    ensures var x := i + (k - y); out[k..m] == text[x..x + (m - k)]
  {
    hide Rewrite, Reversible;
    InRun(u, fwd, back, text, i, j, out, y, k);
    var x := i + (k - y);
    var rest := Rewrite(u, fwd, text, j);
    assert out[k..m] == out[k..][..m - k] == (text[x..j] + rest)[..m - k] == text[x..j][..m - k];
  }

  /** A value taken in a copied stretch stands in the text. */
  lemma TakenInRun(u: Tables, fwd: Rules, back: Rules, text: string, i: nat, j: nat, out: string, y: nat, k: nat) returns (g: string)
    requires RunAt(u, fwd, back, text, i, j, out, y) && y <= k
    requires var n := KeyLen(u, back.pats, out, k); 0 < n && k + n <= y + (j - i)
    ensures |g| == KeyLen(u, back.pats, out, k) && g in back.pats
    ensures MatchesAt(u, text, i + (k - y), g) && MatchesAt(u, out, k, g) && g == Fold(u, out[k..k + |g|])
  {
    hide KeyLen, Rewrite, Reversible, MatchesAt, Clear;
    KeyTaken(u, back.pats, out, k);
    g := Fold(u, out[k..k + KeyLen(u, back.pats, out, k)]);
    RunChar(u, fwd, back, text, i, j, out, y, k, k + |g|);
    SameMatch(u, text, i + (k - y), out, k, g);
  }

  /** A value that stands at k ends in the stretch, or it crosses into the replacement behind. */
  lemma WithinRun(u: Tables, fwd: Rules, back: Rules, text: string, i: nat, j: nat, out: string, y: nat, k: nat, g: string)
    requires RunAt(u, fwd, back, text, i, j, out, y) && y <= k < y + (j - i) && MatchesAt(u, out, k, g)
    ensures k + |g| <= y + (j - i) || (i < j && CrossesAt(u, fwd, text, i + (k - y), g, y + (j - i) - k))
  {
    hide *;
    RunParts(u, fwd, back, text, i, j, out, y);
    InRun(u, fwd, back, text, i, j, out, y, k);
    var x := i + (k - y);
    Stands(u, out, k, g);
    if j < |text| && |g| > j - x && !CrossesAt(u, fwd, text, x, g, j - x) {
      NoneAcross(u, fwd, back, text, x, j, out[k..], g);
    }
    MatchFits(u, out, k, g);
    if j == |text| {
      RunFills(u, fwd, back, text, i, j, out, y);
    }
  }

  lemma RunToEnd(u: Tables, fwd: Rules, text: string, j: nat)
    ensures j >= |text| ==> Rewrite(u, fwd, text, j) == []
  {
  }

  lemma MatchFits(u: Tables, out: string, k: nat, g: string)
    requires MatchesAt(u, out, k, g)
    ensures k + |g| <= |out|
  {
  }

  lemma SameMatch(u: Tables, text: string, x: nat, out: string, k: nat, g: string)
    requires k + |g| <= |out| && x + |g| <= |text| && out[k..k + |g|] == text[x..x + |g|]
    ensures MatchesAt(u, out, k, g) <==> MatchesAt(u, text, x, g)
  {
  }

  lemma Stands(u: Tables, out: string, y: nat, p: string)
    requires y <= |out|
    ensures MatchesAt(u, out, y, p) <==> Begins(u, out[y..], p)
  {
    MatchShift(u, out, y, p);
  }

  /** A replacement does not start with an apostrophe. */
  lemma StartsPlain(u: Tables, fwd: Rules, back: Rules, text: string, j: nat)
    requires Reversible(u, fwd, back) && j < |text| && Accepted(u, fwd.pats, text, j)
    ensures var r := Rewrite(u, fwd, text, j); r != [] && r[0] != APOSTROPHE && r[0] != CURLY
  {
    var n := KeyLen(u, fwd.pats, text, j);
    Replacement(u, fwd, back, text, j, n);
    hide KeyLen, Rewrite, Replaced, CaseStable, LongestFirst, WordStarts, LeftClear, RightClear, FoldTo;
    var w := Replaced(u, fwd, text[j..j + n]);
    assert Fold(u, w)[0] == u.Lower(w[0]) && Fold(u, w) in back.pats;
    Apostrophes(u, APOSTROPHE);
    Apostrophes(u, CURLY);
  }

  /** A tail read in a copied stretch ends in it. */
  lemma TailInRun(u: Tables, fwd: Rules, back: Rules, text: string, i: nat, j: nat, out: string, y: nat, e: nat)
    requires RunAt(u, fwd, back, text, i, j, out, y) && y < e <= y + (j - i)
    ensures e + TailLen(u, out, e) <= y + (j - i)
  {
    RunFits(u, fwd, back, text, i, j, out, y);
    var z := y + (j - i);
    if j < |text| {
      RunMarks(u, fwd, back, text, i, j, out, y);
    } else {
      RunFills(u, fwd, back, text, i, j, out, y);
    }
    hide RunAt;
  }

  /** Around the end of a copied stretch there is no apostrophe. */
  lemma RunMarks(u: Tables, fwd: Rules, back: Rules, text: string, i: nat, j: nat, out: string, y: nat)
    requires RunAt(u, fwd, back, text, i, j, out, y) && i < j < |text|
    ensures var z := y + (j - i);
            && z < |out| && out[z] != APOSTROPHE && out[z] != CURLY
            && out[z - 1] != APOSTROPHE && out[z - 1] != CURLY && LeftClear(u, out, z)
  {
    RunParts(u, fwd, back, text, i, j, out, y);
    hide *;
    var z := y + (j - i);
    StartsPlain(u, fwd, back, text, j);
    RunChar(u, fwd, back, text, i, j, out, y, z - 1, z);
    BehindRun(u, fwd, back, text, i, j, out, y);
    BeforeAccepted(u, fwd, text, j);
    FirstOfRest(out, z, Rewrite(u, fwd, text, j));
    OneChar(out, z - 1, text, j - 1);
    ClearBehind(u, out, z);
  }

  lemma ClearBehind(u: Tables, out: string, z: nat)
    requires 0 < z <= |out| && !IsWordContext(u, out[z - 1])
    ensures LeftClear(u, out, z)
  {
  }

  lemma FirstOfRest(out: string, z: nat, rest: string)
    requires z <= |out| && out[z..] == rest && rest != []
    ensures z < |out| && out[z] == rest[0]
  {
  }

  lemma OneChar(out: string, z: nat, text: string, x: nat)
    requires z < |out| && x < |text| && out[z..z + 1] == text[x..x + 1]
    ensures out[z] == text[x]
  {
    assert out[z..z + 1][0] == out[z] && text[x..x + 1][0] == text[x];
  }

  lemma RunParts(u: Tables, fwd: Rules, back: Rules, text: string, i: nat, j: nat, out: string, y: nat)
    requires RunAt(u, fwd, back, text, i, j, out, y)
    ensures i <= j <= |text| && y + (j - i) <= |out| && Reversible(u, fwd, back) && (j == |text| || Accepted(u, fwd.pats, text, j))
  {
  }

  lemma BehindRun(u: Tables, fwd: Rules, back: Rules, text: string, i: nat, j: nat, out: string, y: nat)
    requires RunAt(u, fwd, back, text, i, j, out, y)
    ensures out[y + (j - i)..] == Rewrite(u, fwd, text, j)
  {
    hide Rewrite, Reversible, Accepted;
    InRun(u, fwd, back, text, i, j, out, y, y + (j - i));
    assert text[j..j] == [];
  }

  lemma RunFills(u: Tables, fwd: Rules, back: Rules, text: string, i: nat, j: nat, out: string, y: nat)
    requires RunAt(u, fwd, back, text, i, j, out, y) && j == |text|
    ensures |out| == y + (j - i)
  {
    RunParts(u, fwd, back, text, i, j, out, y);
    BehindRun(u, fwd, back, text, i, j, out, y);
    RunToEnd(u, fwd, text, j);
    hide *;
  }

  lemma BeforeAccepted(u: Tables, fwd: Rules, text: string, j: nat)
    requires 0 < j < |text| && Accepted(u, fwd.pats, text, j)
    ensures text[j - 1] != APOSTROPHE && text[j - 1] != CURLY && !IsWordContext(u, text[j - 1])
  {
    hide KeyLen, TailLen, RightClear;
  }

  /** So a step of the way back ends in the stretch if its match does. */
  lemma StepInRun(u: Tables, fwd: Rules, back: Rules, text: string, i: nat, j: nat, out: string, y: nat, k: nat)
    requires RunAt(u, fwd, back, text, i, j, out, y) && y <= k < y + (j - i)
    ensures k < |out|
    ensures Next(u, back.pats, out, k) <= y + (j - i) <==> k + KeyLen(u, back.pats, out, k) <= y + (j - i)
  {
    hide RunAt, KeyLen, TailLen, MatchesAt;
    RunFits(u, fwd, back, text, i, j, out, y);
    var n := KeyLen(u, back.pats, out, k);
    if 0 < n && k + n <= y + (j - i) {
      TailInRun(u, fwd, back, text, i, j, out, y, k + n);
    }
  }

  lemma RunFits(u: Tables, fwd: Rules, back: Rules, text: string, i: nat, j: nat, out: string, y: nat)
    requires RunAt(u, fwd, back, text, i, j, out, y)
    ensures i <= j <= |text| && y + (j - i) <= |out|
  {
  }

  /** The scan of out from k on accepts nothing before z, and does not step over z. */
  predicate Quiet(u: Tables, pats: seq<string>, out: string, k: nat, z: nat)
    decreases |out| - k
  {
    k == z || (k < z && k < |out| && !Accepted(u, pats, out, k) && Quiet(u, pats, out, Next(u, pats, out, k), z))
  }

  /** Up to z everything comes back as it is. */
  lemma {:induction false} QuietRun(u: Tables, back: Rules, out: string, k: nat, z: nat)
    requires z <= |out| && Quiet(u, back.pats, out, k, z)
    ensures k <= z && Rewrite(u, back, out, k) == out[k..z] + Rewrite(u, back, out, z)
    decreases |out| - k
  {
    hide KeyLen, Rewrite, Clear;
    if k < z {
      var m := Next(u, back.pats, out, k);
      QuietRun(u, back, out, m, z);
      CopiedOut(u, back, out, k);
      JoinSlices(out, k, m, z, Rewrite(u, back, out, z));
    } else {
      assert out[k..z] == [];
    }
  }

  /** What the forward pass copied from text[i..] on, to y on in out, is quiet on the way back. */
  predicate AllQuiet(u: Tables, fwd: Rules, back: Rules, text: string, out: string, i: nat, y: nat)
    decreases |text| - i
  {
    i >= |text| ||
    if Accepted(u, fwd.pats, text, i) then AllQuiet(u, fwd, back, text, out, Next(u, fwd.pats, text, i), y + |Out(u, fwd, text, i)|)
    else
      var j := RunEnd(u, fwd.pats, text, i);
      var z := y + (j - i);
      j > i && Quiet(u, back.pats, out, y, z) && AllQuiet(u, fwd, back, text, out, j, z)
  }

  lemma RunMoves(u: Tables, pats: seq<string>, text: string, i: nat)
    requires i < |text| && !Accepted(u, pats, text, i)
    ensures RunEnd(u, pats, text, i) > i
  {
    hide KeyLen;
  }
}
