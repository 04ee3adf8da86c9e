/** The replacer's regular expression as a scanner, and the rewriting it drives.

    The expression is `(?i)(k1|k2|...)('s|(U+2019)s|')?` with leftmost-first semantics: at
    the leftmost position where some alternative matches, the first alternative of the list
    is taken, then the optional tail greedily; the next match is sought after the whole
    match, accepted or not. */
module Scanner {
  import opened Unicode
  import opened Tokens

  /** `pats`: the lower-cased keys in alternation order.  `table`: lower-cased key to value. */
  datatype Rules = Rules(pats: seq<string>, table: map<string, string>)

  ghost predicate WellFormed(rules: Rules) {
    forall p :: p in rules.pats ==> p != [] && p in rules.table
  }

  /** One match: the key is text[start..keyEnd], its tail text[keyEnd..end]. */
  datatype Match = Match(start: nat, keyEnd: nat, end: nat)

  predicate MatchesAt(u: Tables, text: string, i: nat, p: string) {
    i + |p| <= |text| && Fold(u, text[i..i + |p|]) == p
  }

  /** Length of the first alternative that matches at i; 0 if none does. */
  function KeyLen(u: Tables, pats: seq<string>, text: string, i: nat): (n: nat)
    ensures n > 0 ==> i + n <= |text|
  {
    if pats == [] then 0
    else if pats[0] != [] && MatchesAt(u, text, i, pats[0]) then |pats[0]|
    else KeyLen(u, pats[1..], text, i)
  }

  predicate IsS(u: Tables, text: string, i: nat) {
    i < |text| && u.Lower(text[i]) == 's'
  }

  /** Length of the possessive tail at e. */
  function TailLen(u: Tables, text: string, e: nat): (t: nat)
    ensures t <= 2 && (t > 0 ==> e + t <= |text|)
  {
    if e < |text| && (text[e] == APOSTROPHE || text[e] == CURLY) && IsS(u, text, e + 1) then 2
    else if e < |text| && text[e] == APOSTROPHE then 1
    else 0
  }

  predicate LeftClear(u: Tables, text: string, i: nat)
    requires i <= |text|
  {
    i == 0 || !IsWordContext(u, text[i - 1])
  }

  predicate RightClear(u: Tables, text: string, e: nat) {
    e >= |text| || !IsWordRune(u, text[e])
  }

  /** End of the step at i that takes a key of length n, or copies one character if n is 0. */
  function End(u: Tables, text: string, i: nat, n: nat): (j: nat)
    requires i < |text| && i + n <= |text|
    ensures i < j <= |text| && i + n <= j
  {
    if n == 0 then i + 1 else i + n + TailLen(u, text, i + n)
  }

  /** A key of length n taken at i has both word boundaries clear. */
  predicate Clear(u: Tables, text: string, i: nat, n: nat)
    requires i < |text| && i + n <= |text|
  {
    n > 0 && LeftClear(u, text, i) && RightClear(u, text, End(u, text, i, n))
  }

  /** Next scan position after i. */
  function Next(u: Tables, pats: seq<string>, text: string, i: nat): (j: nat)
    requires i < |text|
    ensures i < j <= |text|
  {
    End(u, text, i, KeyLen(u, pats, text, i))
  }

  /** A key matches at i with both word boundaries clear. */
  predicate Accepted(u: Tables, pats: seq<string>, text: string, i: nat)
    requires i < |text|
  {
    Clear(u, text, i, KeyLen(u, pats, text, i))
  }

  datatype Casing = AsIs | AllUpper | AllLower

  /** What the letters of a text say about its casing. */
  datatype LetterFlags = LetterFlags(hasLetter: bool, allUpper: bool, allLower: bool)

  function FlagsOf(u: Tables, s: string, n: nat): LetterFlags
    requires n <= |s|
  {
    if n == 0 then LetterFlags(false, true, true)
    else
      var f, c := FlagsOf(u, s, n - 1), s[n - 1];
      if u.IsLetter(c) then LetterFlags(true, f.allUpper && u.IsUpper(c), f.allLower && u.IsLower(c)) else f
  }

  /** The casing of a matched text: letters decide; a token has none. */
  function CasingOf(u: Tables, source: string): Casing {
    var f := FlagsOf(u, source, |source|);
    if IsToken(source) || !f.hasLetter then AsIs
    else if f.allUpper then AllUpper
    else if f.allLower then AllLower
    else AsIs
  }

  function Recase(u: Tables, c: Casing, value: string): (r: string)
    ensures |r| == |value|
  {
    match c
    case AsIs => value
    case AllUpper => Upper(u, value)
    case AllLower => Fold(u, value)
  }

  /** `value` in the casing of `source`; a token value is an exact stand-in. */
  function MatchCase(u: Tables, source: string, value: string): (r: string)
    ensures |r| == |value|
  {
    if IsToken(value) then value else Recase(u, CasingOf(u, source), value)
  }

  /** What a step that takes a key of length n at i emits. */
  function Emit(u: Tables, table: map<string, string>, text: string, i: nat, n: nat): string
    requires i < |text| && i + n <= |text|
  {
    var source := text[i..i + n];
    var end := End(u, text, i, n);
    if Clear(u, text, i, n) && Fold(u, source) in table then
      MatchCase(u, source, table[Fold(u, source)]) + text[i + n..end]
    else
      text[i..end]
  }

  /** What the scan emits for the step at i. */
  function Out(u: Tables, rules: Rules, text: string, i: nat): string
    requires i < |text|
  {
    Emit(u, rules.table, text, i, KeyLen(u, rules.pats, text, i))
  }

  /** The rewriting of text[i..]. */
  function Rewrite(u: Tables, rules: Rules, text: string, i: nat): string
    decreases |text| - i
  {
    if i >= |text| then []
    else Out(u, rules, text, i) + Rewrite(u, rules, text, Next(u, rules.pats, text, i))
  }

  /** All matches from i on, in order: FindAllStringSubmatchIndex. */
  function Matches(u: Tables, pats: seq<string>, text: string, i: nat): seq<Match>
    decreases |text| - i
  {
    if i >= |text| then []
    else
      var n := KeyLen(u, pats, text, i);
      var end := Next(u, pats, text, i);
      if n == 0 then Matches(u, pats, text, end) else [Match(i, i + n, end)] + Matches(u, pats, text, end)
  }

  lemma CopyStep(u: Tables, rules: Rules, text: string, i: nat)
    requires i < |text| && KeyLen(u, rules.pats, text, i) == 0
    ensures Rewrite(u, rules, text, i) == [text[i]] + Rewrite(u, rules, text, i + 1)
  {
    assert text[i..i + 1] == [text[i]];
  }

  lemma RewriteEnd(u: Tables, rules: Rules, text: string)
    ensures Rewrite(u, rules, text, |text|) == []
  {
  }

  // ---- The first alternative ----

  /** The key taken at i is one of the alternatives, and it is what stands in the text. */
  lemma {:induction false} KeyTaken(u: Tables, pats: seq<string>, text: string, i: nat)
    requires KeyLen(u, pats, text, i) > 0
    ensures var n := KeyLen(u, pats, text, i);
            Fold(u, text[i..i + n]) in pats && MatchesAt(u, text, i, Fold(u, text[i..i + n]))
  {
    if pats[0] != [] && MatchesAt(u, text, i, pats[0]) {
      assert Fold(u, text[i..i + |pats[0]|]) == pats[0];
    } else {
      KeyTaken(u, pats[1..], text, i);
    }
  }

  /** A key is taken at i exactly when some alternative matches there. */
  lemma {:induction false} KeyFound(u: Tables, pats: seq<string>, text: string, i: nat, p: string)
    requires p in pats && p != [] && MatchesAt(u, text, i, p)
    ensures KeyLen(u, pats, text, i) > 0
  {
    if pats[0] != p {
      assert p in pats[1..];
      KeyFound(u, pats[1..], text, i, p);
    }
  }

  /** Keys that match at the same place begin with one another. */
  lemma MatchesComparable(u: Tables, text: string, i: nat, p: string, q: string)
    requires MatchesAt(u, text, i, p) && MatchesAt(u, text, i, q) && |p| <= |q|
    ensures p == q[..|p|]
  {
  }

  /** No alternative is a proper prefix of a later one. */
  ghost predicate LongestFirst(pats: seq<string>) {
    forall a, b :: 0 <= a < b < |pats| ==> !(|pats[a]| < |pats[b]| && pats[a] == pats[b][..|pats[a]|])
  }

  /** With longest-first alternatives the key taken is the longest that matches. */
  lemma {:induction false} LongestTaken(u: Tables, pats: seq<string>, text: string, i: nat, p: string)
    requires LongestFirst(pats)
    requires p in pats && p != [] && MatchesAt(u, text, i, p)
    ensures |p| <= KeyLen(u, pats, text, i)
  {
    if pats[0] != [] && MatchesAt(u, text, i, pats[0]) {
      var b :| 0 <= b < |pats| && pats[b] == p;
      if |pats[0]| < |p| {
        MatchesComparable(u, text, i, pats[0], p);
      }
    } else {
      assert p in pats[1..];
      LongestTaken(u, pats[1..], text, i, p);
    }
  }

  /** Two texts on which the same alternatives match at two places take the same key there. */
  lemma {:induction false} SameKeyLen(u: Tables, pats: seq<string>, s: string, i: nat, t: string, j: nat)
    requires forall p :: p in pats ==> (MatchesAt(u, s, i, p) <==> MatchesAt(u, t, j, p))
    ensures KeyLen(u, pats, s, i) == KeyLen(u, pats, t, j)
  {
    if pats != [] {
      assert pats[0] in pats;
      assert forall p :: p in pats[1..] ==> p in pats;
      SameKeyLen(u, pats[1..], s, i, t, j);
    }
  }

  // ---- What the matches are ----

  /** m is the step of the scan at its start. */
  predicate IsStep(u: Tables, pats: seq<string>, text: string, m: Match) {
    && m.start < m.keyEnd <= m.end <= |text|
    && m.keyEnd == m.start + KeyLen(u, pats, text, m.start)
    && m.end == Next(u, pats, text, m.start)
  }

  /** Steps of the scan from i on, in order and disjoint. */
  predicate OrderedSteps(u: Tables, pats: seq<string>, text: string, i: nat, ms: seq<Match>) {
    && (forall k :: 0 <= k < |ms| ==> i <= ms[k].start && IsStep(u, pats, text, ms[k]))
    && (forall j, k :: 0 <= j < k < |ms| ==> ms[j].end <= ms[k].start)
  }

  lemma OrderedStepsCons(u: Tables, pats: seq<string>, text: string, i: nat, m: Match, rest: seq<Match>)
    requires i <= m.start <= m.end && IsStep(u, pats, text, m) && OrderedSteps(u, pats, text, m.end, rest)
    ensures OrderedSteps(u, pats, text, i, [m] + rest)
  {
    hide IsStep;
    var ms := [m] + rest;
    forall k | 0 <= k < |ms|
      ensures i <= ms[k].start && IsStep(u, pats, text, ms[k])
    {
      if k > 0 { assert ms[k] == rest[k - 1]; }
    }
    forall j, k | 0 <= j < k < |ms|
      ensures ms[j].end <= ms[k].start
    {
      assert ms[k] == rest[k - 1];
      if j > 0 { assert ms[j] == rest[j - 1]; }
    }
  }

  lemma {:induction false} MatchesOrdered(u: Tables, pats: seq<string>, text: string, i: nat)
    ensures OrderedSteps(u, pats, text, i, Matches(u, pats, text, i))
    decreases |text| - i
  {
    if i >= |text| {
      assert Matches(u, pats, text, i) == [];
    } else {
      hide OrderedSteps, KeyLen;
      var n := KeyLen(u, pats, text, i);
      var end := Next(u, pats, text, i);
      MatchesOrdered(u, pats, text, end);
      if n > 0 {
        OrderedStepsCons(u, pats, text, i, Match(i, i + n, end), Matches(u, pats, text, end));
      }
    }
  }

  predicate Covers(ms: seq<Match>, q: nat) {
    exists k :: 0 <= k < |ms| && ms[k].start <= q < ms[k].end
  }

  lemma CoversMore(m: Match, ms: seq<Match>, q: nat)
    ensures Covers([m] + ms, q) <==> m.start <= q < m.end || Covers(ms, q)
  {
    var all := [m] + ms;
    assert all[0] == m;
    assert forall k :: 0 <= k < |ms| ==> all[k + 1] == ms[k];
  }

  /** Every occurrence of an alternative at or after i starts inside some match: nothing is
      overlooked, only hidden behind an earlier match. */
  lemma {:induction false} MatchesCover(u: Tables, pats: seq<string>, text: string, i: nat, q: nat, p: string)
    requires i <= q && p in pats && p != [] && MatchesAt(u, text, q, p)
    ensures Covers(Matches(u, pats, text, i), q)
    decreases |text| - i
  {
    var n := KeyLen(u, pats, text, i);
    var end := Next(u, pats, text, i);
    var rest := Matches(u, pats, text, end);
    if n > 0 {
      CoversMore(Match(i, i + n, end), rest, q);
      assert Matches(u, pats, text, i) == [Match(i, i + n, end)] + rest;
    } else {
      assert Matches(u, pats, text, i) == rest;
    }
    if q < end {
      if n == 0 {
        KeyFound(u, pats, text, i, p);
      }
    } else {
      MatchesCover(u, pats, text, end, q, p);
    }
  }

  // ---- Folding ----

  /** Case-preserving output differs from the table value in case only. */
  lemma MatchCaseFolds(u: Tables, source: string, value: string)
    requires Lawful(u) && CaseStable(u, value)
    ensures Fold(u, MatchCase(u, source, value)) == Fold(u, value)
  {
    FoldUpper(u, value);
    FoldFold(u, value);
  }

  /** Unless a key is accepted at i, the rewriting of text[i..] begins with text[i]. */
  lemma FirstKept(u: Tables, rules: Rules, text: string, i: nat)
    requires i < |text| && !Accepted(u, rules.pats, text, i)
    ensures Rewrite(u, rules, text, i) != [] && Rewrite(u, rules, text, i)[0] == text[i]
  {
  }
}
