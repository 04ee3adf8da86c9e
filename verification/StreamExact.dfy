/** When exactly a sample is safe: the condition on what comes next, for reverse maps whose keys may
    begin with one another, as decomposed names do. */
module StreamExact {
  import opened Unicode
  import opened Tokens
  import opened Scanner
  import opened Mappings
  import opened Replacer
  import opened Streaming
  import opened StreamRuns

  // ---- The maps ----

  /** A key begins a later word of another only as the whole rest of it. */
  ghost predicate LaterWords(u: Tables, pats: seq<string>) {
    forall p, k, j: nat {:trigger BeginsWordAt(u, p, k, j)} :: p in pats && k in pats && j > 0 && BeginsWordAt(u, p, k, j) ==> k == p[j..]
  }

  ghost predicate Parts(u: Tables, rules: Rules) {
    WellFormed(rules) && StartsClean(rules.pats) && LaterWords(u, rules.pats)
  }

  /** p is the key k, a space and another key, and its value begins with k's value and a space. */
  predicate FirstOf(rules: Rules, p: string, k: string) {
    && k + " " <= p && p[|k| + 1..] in rules.pats && p in rules.table && k in rules.table
    && rules.table[k] + " " <= rules.table[p] && !IsToken(rules.table[k]) && !IsToken(rules.table[p])
  }

  // ---- The condition ----

  /** buf without its last h characters. */
  function Shown(buf: string, h: nat): string {
    if h <= |buf| then buf[..|buf| - h] else []
  }

  /** What t accepts at i stays accepted, or becomes a full name that begins alike in both casings. */
  predicate StaysAt(u: Tables, rules: Rules, t: string, d: string, i: nat)
    requires i < |t|
  {
    var n, n' := KeyLen(u, rules.pats, t, i), KeyLen(u, rules.pats, t + d, i);
    var a, b := t[i..i + n], (t + d)[i..i + n'];
    && Accepted(u, rules.pats, t + d, i)
    && (n != n' ==> FirstOf(rules, Fold(u, b), Fold(u, a)) && MatchCase(u, a, rules.table[Fold(u, a)]) == Recase(u, CasingOf(u, b), rules.table[Fold(u, a)]))
  }

  /** What t + d has at i instead: another value, or the source itself. */
  function PlaceAt(u: Tables, rules: Rules, t: string, d: string, i: nat): string
    requires i < |t|
  {
    var b := (t + d)[i..i + KeyLen(u, rules.pats, t + d, i)];
    if Accepted(u, rules.pats, t + d, i) && Fold(u, b) in rules.table then MatchCase(u, b, rules.table[Fold(u, b)]) else t[i..]
  }

  /** What t has from i on, where the scans part: the value and the rest of the text, or the text. */
  function TakenAt(u: Tables, rules: Rules, t: string, i: nat): string
    requires i < |t|
  {
    var n := KeyLen(u, rules.pats, t, i);
    var a := t[i..i + n];
    if Accepted(u, rules.pats, t, i) && Fold(u, a) in rules.table then MatchCase(u, a, rules.table[Fold(u, a)]) + t[i + n..] else t[i..]
  }

  /** What t accepts at i stays, or what is shown of what t has there begins what takes its place. */
  predicate KeptAt(u: Tables, rules: Rules, t: string, d: string, h: nat, i: nat)
    requires i < |t|
  {
    || (Accepted(u, rules.pats, t, i) && StaysAt(u, rules, t, d, i))
    || Shown(TakenAt(u, rules, t, i), h) <= PlaceAt(u, rules, t, d, i)
  }

  /** Where the scans of t and t + d part, from i on, t's part is kept. */
  predicate Kept(u: Tables, rules: Rules, t: string, d: string, h: nat, i: nat)
    decreases |t| - i
  {
    i >= |t| || if Agrees(u, rules.pats, t, d, i) then Kept(u, rules, t, d, h, Next(u, rules.pats, t, i)) else KeptAt(u, rules, t, d, h, i)
  }

  // ---- Where the scans of t and t + d part ----

  /** Both take the same step at i. */
  predicate Agrees(u: Tables, pats: seq<string>, t: string, d: string, i: nat)
    requires i < |t|
  {
    var n := KeyLen(u, pats, t, i);
    && n == KeyLen(u, pats, t + d, i) && End(u, t, i, n) == End(u, t + d, i, n) && Clear(u, t, i, n) == Clear(u, t + d, i, n)
  }

  /** Otherwise a key of t + d reaches past the end of t, or t's key touches it. */
  lemma Parting(u: Tables, pats: seq<string>, t: string, d: string, i: nat)
    requires i < |t| && !Agrees(u, pats, t, d, i)
    ensures var n, n' := KeyLen(u, pats, t, i), KeyLen(u, pats, t + d, i);
            && End(u, t + d, i, n') >= |t|
            && (n != n' ==> i + n' > |t|)
            && (n == n' ==> n > 0 && TouchesEnd(u, t, i, n))
  {
    hide KeyLen, TailLen, Clear;
    var n, n' := KeyLen(u, pats, t, i), KeyLen(u, pats, t + d, i);
    if n != n' {
      KeyCrosses(u, pats, t, d, i);
    } else {
      StepChanges(u, t, d, i, n);
    }
  }

  /** Inside a key of t + d that starts at i and reaches past the end of t, t accepts nothing. */
  lemma NoneInside(u: Tables, rules: Rules, t: string, d: string, i: nat, p: string, j: nat)
    requires Lawful(u) && LaterWords(u, rules.pats)
    requires i < j < |t| < i + |p| && p in rules.pats && MatchesAt(u, t + d, i, p)
    ensures !Accepted(u, rules.pats, t, j)
  {
    var n := KeyLen(u, rules.pats, t, j);
    hide KeyLen, RightClear;
    if n > 0 && LeftClear(u, t, j) {
      KeyTaken(u, rules.pats, t, j);
      var k := Fold(u, t[j..j + n]);
      MatchesAtGrows(u, t, d, j, k);
      assert t[j - 1] == (t + d)[j - 1];
      InnerKey(u, t + d, i, p, j, k);
      hide MatchesAt, Fold, LeftClear;
      StandsBegins(u, p, k, j - i);
    }
  }

  lemma StandsBegins(u: Tables, p: string, k: string, j: nat)
    requires StandsInside(u, p, k, j)
    ensures BeginsWordAt(u, p, k, j) && k != p[j..]
  {
    assert p[j..][..|k|] == p[j..j + |k|];
  }

  /** So it is left as it is there. */
  lemma {:induction false} InsideKept(u: Tables, rules: Rules, t: string, d: string, i: nat, p: string, j: nat)
    requires Lawful(u) && LaterWords(u, rules.pats)
    requires i < j <= |t| < i + |p| && p in rules.pats && MatchesAt(u, t + d, i, p)
    ensures Rewrite(u, rules, t, j) == t[j..]
    decreases |t| - j
  {
    hide KeyLen, LaterWords, MatchesAt;
    if j < |t| {
      NoneInside(u, rules, t, d, i, p, j);
      var end := Next(u, rules.pats, t, j);
      InsideKept(u, rules, t, d, i, p, end);
      assert t[j..] == t[j..end] + t[end..];
    }
  }

  /** Where a key is taken that reaches past the end of t. */
  lemma KeyPastEnd(u: Tables, pats: seq<string>, t: string, d: string, i: nat) returns (b: string, p: string)
    requires i < |t| && KeyLen(u, pats, t, i) != KeyLen(u, pats, t + d, i)
    ensures b == (t + d)[i..i + KeyLen(u, pats, t + d, i)] && p == Fold(u, b) && p in pats
    ensures |p| == KeyLen(u, pats, t + d, i) && MatchesAt(u, t + d, i, p) && |t| < i + |p|
  {
    hide KeyLen, MatchesAt;
    b := (t + d)[i..i + KeyLen(u, pats, t + d, i)];
    p := Fold(u, b);
    KeyCrosses(u, pats, t, d, i);
    KeyTaken(u, pats, t + d, i);
  }

  lemma RestBehindCrossing(u: Tables, rules: Rules, t: string, d: string, i: nat)
    requires Lawful(u) && LaterWords(u, rules.pats) && i < |t|
    requires KeyLen(u, rules.pats, t, i) != KeyLen(u, rules.pats, t + d, i)
    ensures var end := Next(u, rules.pats, t, i);
            Rewrite(u, rules, t, end) == t[end..]
  {
    var end := Next(u, rules.pats, t, i);
    assert i < end <= |t|;
    hide *;
    var b, p := KeyPastEnd(u, rules.pats, t, d, i);
    InsideKept(u, rules, t, d, i, p, end);
  }

  /** At the end of t, or at the apostrophe it ends in, nothing is replaced. */
  lemma RestBehindLast(u: Tables, rules: Rules, t: string, i: nat, n: nat)
    requires Lawful(u) && StartsClean(rules.pats) && i < |t| && i + n <= |t| && n > 0 && TouchesEnd(u, t, i, n)
    ensures Rewrite(u, rules, t, End(u, t, i, n)) == t[End(u, t, i, n)..]
  {
    var end := End(u, t, i, n);
    hide KeyLen, Rewrite, LawfulAt;
    if end < |t| {
      ApostropheKept(u, rules, t, end);
    } else {
      RewriteEnd(u, rules, t);
    }
  }

  /** Where the scans part, t emits what it takes there and leaves the rest. */
  lemma PartingRest(u: Tables, rules: Rules, t: string, d: string, i: nat)
    requires Lawful(u) && Parts(u, rules) && i < |t| && !Agrees(u, rules.pats, t, d, i)
    ensures var end := Next(u, rules.pats, t, i);
            Rewrite(u, rules, t, end) == t[end..]
  {
    Parting(u, rules.pats, t, d, i);
    assert LaterWords(u, rules.pats) && StartsClean(rules.pats);
    assert Next(u, rules.pats, t, i) == End(u, t, i, KeyLen(u, rules.pats, t, i));
    hide *;
    if KeyLen(u, rules.pats, t, i) != KeyLen(u, rules.pats, t + d, i) {
      RestBehindCrossing(u, rules, t, d, i);
    } else {
      RestBehindLast(u, rules, t, i, KeyLen(u, rules.pats, t, i));
    }
  }

  /** A source that is accepted, and its key. */
  lemma AcceptedSource(u: Tables, rules: Rules, text: string, i: nat) returns (a: string, k: string)
    requires WellFormed(rules) && i < |text| && Accepted(u, rules.pats, text, i)
    ensures 0 < |k| == KeyLen(u, rules.pats, text, i) && i + |k| <= |text| && a == text[i..i + |k|] && k == Fold(u, a)
    ensures k in rules.pats && k in rules.table && Clear(u, text, i, |k|)
  {
    hide KeyLen, LeftClear, RightClear, TailLen, MatchesAt, FoldTo;
    KeyTaken(u, rules.pats, text, i);
    EmitsValue(u, rules, text, i);
    a := text[i..i + KeyLen(u, rules.pats, text, i)];
    k := Fold(u, a);
  }

  lemma JoinTail(v: string, t: string, e: nat, end: nat)
    requires e <= end <= |t|
    ensures v + t[e..end] + t[end..] == v + t[e..]
    ensures t[e..end] + t[end..] == t[e..]
  {
    assert t[e..] == t[e..end] + t[end..];
  }

  lemma PrefixRest(y: string, r: string)
    requires y <= r
    ensures r == y + r[|y|..]
  {
  }

  lemma PartingEmit(u: Tables, rules: Rules, t: string, d: string, i: nat)
    requires Lawful(u) && Parts(u, rules) && i < |t| && !Agrees(u, rules.pats, t, d, i)
    ensures var n := KeyLen(u, rules.pats, t, i);
            var end := End(u, t, i, n);
            Rewrite(u, rules, t, i) == Emit(u, rules.table, t, i, n) + t[end..]
  {
    hide Parts, Agrees, Rewrite, KeyLen, Emit, Clear, End;
    PartingRest(u, rules, t, d, i);
    RewriteIs(u, rules, t, i, KeyLen(u, rules.pats, t, i));
  }

  /** What t emits where the scans part. */
  lemma PartingCopied(u: Tables, rules: Rules, t: string, d: string, i: nat)
    requires Lawful(u) && Parts(u, rules) && i < |t| && !Agrees(u, rules.pats, t, d, i) && !Accepted(u, rules.pats, t, i)
    ensures Rewrite(u, rules, t, i) == t[i..]
  {
    hide Parts, Agrees, Rewrite, KeyLen, Emit, Clear, TailLen, Lawful;
    var n := KeyLen(u, rules.pats, t, i);
    PartingEmit(u, rules, t, d, i);
    NotClearEmit(u, rules.table, t, i, n);
    var end := End(u, t, i, n);
    assert i <= end <= |t|;
    hide *;
    JoinTail([], t, i, end);
  }

  lemma ReplacedEmit(u: Tables, table: Mapping, t: string, i: nat, a: string, k: string)
    requires i < |t| && i + |k| <= |t| && Clear(u, t, i, |k|) && a == t[i..i + |k|] && k == Fold(u, a) && k in table
    ensures Emit(u, table, t, i, |k|) + t[End(u, t, i, |k|)..] == MatchCase(u, a, table[k]) + t[i + |k|..]
  {
    ClearEmit(u, table, t, i, |k|);
    var end := End(u, t, i, |k|);
    assert i + |k| <= end <= |t|;
    hide *;
    JoinTail(MatchCase(u, a, table[k]), t, i + |k|, end);
  }

  lemma PartingReplaced(u: Tables, rules: Rules, t: string, d: string, i: nat) returns (a: string, k: string)
    requires Lawful(u) && Parts(u, rules) && i < |t| && !Agrees(u, rules.pats, t, d, i) && Accepted(u, rules.pats, t, i)
    ensures 0 < |k| == KeyLen(u, rules.pats, t, i) && i + |k| <= |t| && a == t[i..i + |k|]
    ensures k == Fold(u, a) && k in rules.pats && k in rules.table
    ensures Rewrite(u, rules, t, i) == MatchCase(u, a, rules.table[k]) + t[i + |k|..]
  {
    assert WellFormed(rules);
    hide *;
    a, k := AcceptedSource(u, rules, t, i);
    PartingEmit(u, rules, t, d, i);
    ReplacedEmit(u, rules.table, t, i, a, k);
  }

  lemma PartingTaken(u: Tables, rules: Rules, t: string, d: string, i: nat)
    requires Lawful(u) && Parts(u, rules) && i < |t| && !Agrees(u, rules.pats, t, d, i)
    ensures Rewrite(u, rules, t, i) == TakenAt(u, rules, t, i)
  {
    hide Parts, Agrees, Rewrite, KeyLen, MatchCase, Fold, Clear, Lawful;
    if Accepted(u, rules.pats, t, i) {
      var a, k := PartingReplaced(u, rules, t, d, i);
    } else {
      PartingCopied(u, rules, t, d, i);
    }
  }

  lemma NotClearEmit(u: Tables, table: Mapping, t: string, i: nat, n: nat)
    requires i < |t| && i + n <= |t| && !Clear(u, t, i, n)
    ensures Emit(u, table, t, i, n) == t[i..End(u, t, i, n)]
  {
  }

  lemma CopiedPast(t: string, d: string, i: nat, end: nat, more: string)
    requires i <= |t| <= end <= |t + d|
    ensures t[i..] <= (t + d)[i..end] + more
  {
  }

  lemma PlaceReplaced(u: Tables, rules: Rules, t: string, d: string, i: nat)
    requires WellFormed(rules) && i < |t| && Accepted(u, rules.pats, t + d, i)
    ensures PlaceAt(u, rules, t, d, i) <= Rewrite(u, rules, t + d, i)
  {
    hide Rewrite, KeyLen, Emit, MatchCase, Fold, End, Clear, WellFormed;
    var s := t + d;
    var b, p := AcceptedSource(u, rules, s, i);
    RewriteIs(u, rules, s, i, |p|);
    ClearEmit(u, rules.table, s, i, |p|);
    assert PlaceAt(u, rules, t, d, i) == MatchCase(u, b, rules.table[p]);
    hide *;
    PrefixExtends(MatchCase(u, b, rules.table[p]), MatchCase(u, b, rules.table[p]) + s[i + |p|..End(u, s, i, |p|)], Rewrite(u, rules, s, End(u, s, i, |p|)));
  }

  /** There t + d goes on with what takes the place. */
  lemma PlaceBegins(u: Tables, rules: Rules, t: string, d: string, i: nat)
    requires WellFormed(rules) && i < |t| && !Agrees(u, rules.pats, t, d, i)
    ensures PlaceAt(u, rules, t, d, i) <= Rewrite(u, rules, t + d, i)
  {
    hide Rewrite, KeyLen, Emit, MatchCase, Fold, TailLen, Clear, WellFormed, Agrees;
    var s := t + d;
    var n' := KeyLen(u, rules.pats, s, i);
    if Accepted(u, rules.pats, s, i) {
      PlaceReplaced(u, rules, t, d, i);
    } else {
      Parting(u, rules.pats, t, d, i);
      RewriteIs(u, rules, s, i, n');
      NotClearEmit(u, rules.table, s, i, n');
      var end := End(u, s, i, n');
      assert end <= |s| && PlaceAt(u, rules, t, d, i) == t[i..];
      hide *;
      CopiedPast(t, d, i, end, Rewrite(u, rules, s, end));
    }
  }

  /** What a text shows behind acc. */
  lemma ShownSplit(acc: string, r: string, s: string, h: nat)
    requires h <= |acc + r|
    ensures Shown(r, h) <= s ==> (acc + r)[..|acc + r| - h] <= acc + s
    ensures (acc + r)[..|acc + r| - h] <= acc + s ==> Shown(r, h) <= s
  {
    var x := (acc + r)[..|acc + r| - h];
    if h <= |r| {
      assert x == acc + Shown(r, h);
      if x <= acc + s {
        assert Shown(r, h) == x[|acc|..] && s == (acc + s)[|acc|..];
      }
    } else {
      assert x <= acc;
    }
  }

  // ---- Kept is safe ----

  /** What the sample shows from i on, behind acc, begins what t + d has there. */
  ghost predicate SafeBehind(u: Tables, rules: Rules, t: string, d: string, h: nat, i: nat, acc: string) {
    var r := acc + Rewrite(u, rules, t, i);
    h <= |r| && r[..|r| - h] <= acc + Rewrite(u, rules, t + d, i)
  }

  /** Accepted by both with one key. */
  lemma SameKeySafe(u: Tables, rules: Rules, t: string, d: string, h: nat, i: nat, acc: string)
    requires Lawful(u) && Parts(u, rules) && i < |t| && !Agrees(u, rules.pats, t, d, i)
    requires KeyLen(u, rules.pats, t, i) == KeyLen(u, rules.pats, t + d, i) && h <= |acc + Rewrite(u, rules, t, i)|
    requires Accepted(u, rules.pats, t, i) ==> Accepted(u, rules.pats, t + d, i)
    ensures SafeBehind(u, rules, t, d, h, i, acc)
  {
    Parting(u, rules.pats, t, d, i);
    hide LaterWords, Clear, KeyLen, Agrees, Rewrite, TouchesEnd;
    SafeAtEnd(u, rules, t, d, i);
    PrefixAfter(acc, Rewrite(u, rules, t, i), Rewrite(u, rules, t + d, i));
  }

  /** Where t accepts a first name and t + d the full name. */
  lemma FullNameKeys(u: Tables, rules: Rules, t: string, d: string, i: nat, a: string, k: string) returns (b: string, p: string)
    requires i < |t| && StaysAt(u, rules, t, d, i) && KeyLen(u, rules.pats, t, i) != KeyLen(u, rules.pats, t + d, i)
    requires |k| == KeyLen(u, rules.pats, t, i) && i + |k| <= |t| && a == t[i..i + |k|] && k == Fold(u, a)
    ensures |p| == KeyLen(u, rules.pats, t + d, i) && MatchesAt(u, t + d, i, p) && |t| < i + |p|
    ensures FirstOf(rules, p, k) && MatchCase(u, a, rules.table[k]) == Recase(u, CasingOf(u, b), rules.table[k])
    ensures PlaceAt(u, rules, t, d, i) == MatchCase(u, b, rules.table[p])
  {
    hide CasingOf, Clear, KeyLen, MatchesAt, Recase, Fold;
    b, p := KeyPastEnd(u, rules.pats, t, d, i);
  }

  lemma FirstOfValues(rules: Rules, p: string, k: string)
    requires FirstOf(rules, p, k)
    ensures p in rules.table && k in rules.table && rules.table[k] + " " <= rules.table[p] && !IsToken(rules.table[p])
  {
  }

  lemma RecasedNames(u: Tables, a: string, b: string, v: string, w: string)
    requires Lawful(u) && v + " " <= w && !IsToken(w) && MatchCase(u, a, v) == Recase(u, CasingOf(u, b), v)
    ensures MatchCase(u, a, v) + " " <= MatchCase(u, b, w)
  {
    RecaseAligned(u, CasingOf(u, b), v, w);
  }

  /** What both emit there. */
  lemma FullNameValues(u: Tables, rules: Rules, t: string, d: string, i: nat) returns (x: string, y: string, later: string, p: string, k: string)
    requires Lawful(u) && Parts(u, rules) && i < |t| && Accepted(u, rules.pats, t, i) && StaysAt(u, rules, t, d, i)
    requires KeyLen(u, rules.pats, t, i) != KeyLen(u, rules.pats, t + d, i)
    ensures FirstOf(rules, p, k) && i + |k| <= |t| < i + |p| && MatchesAt(u, t + d, i, p)
    ensures x + " " <= y && Rewrite(u, rules, t, i) == x + t[i + |k|..] && Rewrite(u, rules, t + d, i) == y + later
  {
    assert WellFormed(rules) && !Agrees(u, rules.pats, t, d, i);
    hide *;
    var a, b;
    a, k := PartingReplaced(u, rules, t, d, i);
    b, p := FullNameKeys(u, rules, t, d, i, a, k);
    PlaceBegins(u, rules, t, d, i);
    FirstOfValues(rules, p, k);
    RecasedNames(u, a, b, rules.table[k], rules.table[p]);
    x, y := MatchCase(u, a, rules.table[k]), MatchCase(u, b, rules.table[p]);
    PrefixRest(y, Rewrite(u, rules, t + d, i));
    later := Rewrite(u, rules, t + d, i)[|y|..];
  }

  /** Accepted by t as a first name, by t + d as the full name. */
  lemma FullNameSafe(u: Tables, rules: Rules, t: string, d: string, h: nat, i: nat, acc: string)
    requires Lawful(u) && Parts(u, rules) && i < |t| && Accepted(u, rules.pats, t, i) && StaysAt(u, rules, t, d, i)
    requires KeyLen(u, rules.pats, t, i) != KeyLen(u, rules.pats, t + d, i)
    requires IsHoldback(u, rules.pats, acc + Rewrite(u, rules, t, i), h)
    ensures SafeBehind(u, rules, t, d, h, i, acc)
  {
    hide KeyLen, Parts, Clear, StaysAt, MatchesAt, Rewrite, FirstOf, IsHoldback;
    var x, y, later, p, k := FullNameValues(u, rules, t, d, i);
    FirstParts(u, rules, t, d, i, |k|, p, k);
    FirstNameSafe(u, rules, t, d, i, acc, p[|k| + 1..], h, x, y, t[i + |k|..], later, i + |k|);
  }

  /** The text behind a first name that t + d continues to the full name. */
  lemma FirstParts(u: Tables, rules: Rules, t: string, d: string, i: nat, n: nat, p: string, k: string)
    requires Lawful(u) && FirstOf(rules, p, k) && |k| == n && i + n <= |t| < i + |p| && MatchesAt(u, t + d, i, p)
    ensures n + 1 <= |p| && p[n + 1..] in rules.pats && MatchesAt(u, t + d, i + n + 1, p[n + 1..]) && |t| < i + n + 1 + |p[n + 1..]|
    ensures i + n < |t| ==> t[i + n] == ' '
    ensures t[i + n..] == if i + n == |t| then [] else " " + t[i + n + 1..]
  {
    assert p[n] == (k + " ")[n] == ' ';
    LastNameAt(u, t + d, i, p, n);
    hide MatchesAt;
    if i + n < |t| {
      assert t[i + n] == (t + d)[i + n];
      assert t[i + n..] == [t[i + n]] + t[i + n + 1..];
    }
  }

  /** What is shown from i on begins what t + d has there. */
  lemma ShownSafe(u: Tables, rules: Rules, t: string, d: string, h: nat, i: nat, acc: string)
    requires h <= |acc + Rewrite(u, rules, t, i)|
    ensures SafeBehind(u, rules, t, d, h, i, acc) <==> Shown(Rewrite(u, rules, t, i), h) <= Rewrite(u, rules, t + d, i)
  {
    hide Rewrite, Shown;
    ShownSplit(acc, Rewrite(u, rules, t, i), Rewrite(u, rules, t + d, i), h);
  }

  lemma SafeFits(u: Tables, rules: Rules, t: string, d: string, h: nat, i: nat, acc: string)
    requires SafeBehind(u, rules, t, d, h, i, acc)
    ensures h <= |acc + Rewrite(u, rules, t, i)|
  {
  }

  /** Where the scans part, what is kept is safe. */
  lemma PartingSafe(u: Tables, rules: Rules, t: string, d: string, h: nat, i: nat, acc: string)
    requires Lawful(u) && Parts(u, rules) && i < |t| && !Agrees(u, rules.pats, t, d, i)
    requires IsHoldback(u, rules.pats, acc + Rewrite(u, rules, t, i), h) && KeptAt(u, rules, t, d, h, i)
    ensures SafeBehind(u, rules, t, d, h, i, acc)
  {
    assert WellFormed(rules);
    HoldbackFits(u, rules.pats, acc + Rewrite(u, rules, t, i), h);
    hide Parts, Rewrite, KeyLen, Clear, IsHoldback, Agrees, PlaceAt, Lawful, WellFormed, MatchCase, Recase, CasingOf, FirstOf, Fold, TakenAt;
    if !(Accepted(u, rules.pats, t, i) && StaysAt(u, rules, t, d, i)) {
      PartingTaken(u, rules, t, d, i);
      PlaceBegins(u, rules, t, d, i);
      PrefixTransitive(Shown(TakenAt(u, rules, t, i), h), PlaceAt(u, rules, t, d, i), Rewrite(u, rules, t + d, i));
      ShownSafe(u, rules, t, d, h, i, acc);
    } else if KeyLen(u, rules.pats, t, i) == KeyLen(u, rules.pats, t + d, i) {
      SameKeySafe(u, rules, t, d, h, i, acc);
    } else {
      FullNameSafe(u, rules, t, d, h, i, acc);
    }
  }

  lemma {:induction false} KeptFrom(u: Tables, rules: Rules, t: string, d: string, h: nat, i: nat, acc: string)
    requires Lawful(u) && Parts(u, rules) && i <= |t|
    requires IsHoldback(u, rules.pats, acc + Rewrite(u, rules, t, i), h) && Kept(u, rules, t, d, h, i)
    ensures SafeBehind(u, rules, t, d, h, i, acc)
    decreases |t| - i
  {
    hide Rewrite, Emit, KeyLen, Clear, IsHoldback, KeptAt, End, LaterWords, StartsClean;
    if i == |t| {
      HoldbackFits(u, rules.pats, acc + Rewrite(u, rules, t, i), h);
      RewriteEnd(u, rules, t);
      PrefixExtends(acc[..|acc| - h], acc, Rewrite(u, rules, t + d, i));
      assert acc + [] == acc;
    } else if Agrees(u, rules.pats, t, d, i) {
      SafeStep(u, rules, t, d, i, acc);
      var n := KeyLen(u, rules.pats, t, i);
      KeptFrom(u, rules, t, d, h, End(u, t, i, n), acc + Emit(u, rules.table, t, i, n));
    } else {
      PartingSafe(u, rules, t, d, h, i, acc);
    }
  }

  // ---- Safe is kept ----

  /** A key begins another as its first name, or inside a word and the other's value does not begin
      its own; keys and their values do not begin with one another. */
  ghost predicate Exacting(u: Tables, rules: Rules) {
    && (forall p, k :: p in rules.pats && k in rules.pats && k < p ==> FirstOf(rules, p, k) || GoesOn(u, rules, p, k))
    && (forall p :: p in rules.pats && p in rules.table ==> NotBegun(u, p, rules.table[p]))
  }

  /** The key k goes on to p inside a word. */
  predicate GoesOn(u: Tables, rules: Rules, p: string, k: string) {
    |k| < |p| && IsWordRune(u, p[|k|]) && p in rules.table && k in rules.table && !(Fold(u, rules.table[p]) <= Fold(u, rules.table[k]))
  }

  ghost predicate NotBegun(u: Tables, p: string, value: string) {
    CaseStable(u, value) && !(p <= Fold(u, value)) && !(Fold(u, value) <= p)
  }

  /** Of two beginnings of one text the shorter begins the longer. */
  lemma ShorterBegins(a: string, b: string, r: string)
    requires a <= r && b <= r && |a| <= |b|
    ensures a <= b
  {
  }

  lemma SourceBeginsValue(a: string, x: string, tail: string, shown: string, r: string)
    requires shown <= x + tail && shown <= r && a + tail <= r && |shown| > |a + tail|
    ensures a <= x
  {
    ShorterBegins(a + tail, shown, r);
    PrefixTransitive(a + tail, shown, x + tail);
    PrefixTransitive(a, a + tail, x + tail);
    ShorterBegins(a, x, x + tail);
  }

  lemma FoldBegins(u: Tables, a: string, x: string)
    requires a <= x
    ensures Fold(u, a) <= Fold(u, x)
  {
  }

  /** Where the source takes the value's place, what is shown of the value is no longer than the
      sample's rest. */
  lemma ShownWithinSource(u: Tables, a: string, v: string, tail: string, shown: string, r: string)
    requires Lawful(u) && NotBegun(u, Fold(u, a), v)
    requires shown <= MatchCase(u, a, v) + tail && shown <= r && a + tail <= r
    ensures shown <= a + tail
  {
    hide MatchCase, Fold;
    if |shown| > |a + tail| {
      SourceBeginsValue(a, MatchCase(u, a, v), tail, shown, r);
      MatchCaseFolds(u, a, v);
      FoldBegins(u, a, MatchCase(u, a, v));
    } else {
      ShorterBegins(shown, a + tail, r);
    }
  }

  lemma ShownBegins(r: string, h: nat)
    ensures Shown(r, h) <= r
  {
  }

  lemma SplitSource(t: string, i: nat, n: nat)
    requires i + n <= |t|
    ensures t[i..] == t[i..i + n] + t[i + n..]
  {
  }

  lemma ShownOfSource(u: Tables, t: string, i: nat, a: string, k: string, v: string, r: string, whole: string, h: nat)
    requires Lawful(u) && i + |k| <= |t| && k == Fold(u, a) && a == t[i..i + |k|] && NotBegun(u, k, v)
    requires r == MatchCase(u, a, v) + t[i + |k|..] && t[i..] <= whole && Shown(r, h) <= whole
    ensures Shown(r, h) <= t[i..]
  {
    hide *;
    SplitSource(t, i, |k|);
    ShownBegins(r, h);
    ShownWithinSource(u, a, v, t[i + |k|..], Shown(r, h), whole);
  }

  lemma NotBegunAt(u: Tables, rules: Rules, k: string)
    requires Exacting(u, rules) && k in rules.pats && k in rules.table
    ensures NotBegun(u, k, rules.table[k])
  {
  }

  lemma SourceTakesPlace(u: Tables, rules: Rules, t: string, d: string, i: nat)
    requires i < |t| && !Accepted(u, rules.pats, t + d, i)
    ensures PlaceAt(u, rules, t, d, i) == t[i..]
  {
  }

  /** Un-accepted, a match is safe only if what is shown of it begins its source. */
  lemma UnacceptedKept(u: Tables, rules: Rules, t: string, d: string, h: nat, i: nat)
    requires Lawful(u) && Parts(u, rules) && Exacting(u, rules) && i < |t| && !Agrees(u, rules.pats, t, d, i)
    requires Accepted(u, rules.pats, t, i) && !Accepted(u, rules.pats, t + d, i)
    requires Shown(Rewrite(u, rules, t, i), h) <= Rewrite(u, rules, t + d, i)
    ensures Shown(Rewrite(u, rules, t, i), h) <= PlaceAt(u, rules, t, d, i)
  {
    assert WellFormed(rules);
    hide *;
    var a, k := PartingReplaced(u, rules, t, d, i);
    PlaceBegins(u, rules, t, d, i);
    SourceTakesPlace(u, rules, t, d, i);
    NotBegunAt(u, rules, k);
    ShownOfSource(u, t, i, a, k, rules.table[k], Rewrite(u, rules, t, i), Rewrite(u, rules, t + d, i), h);
  }

  /** Of a first name that t + d continues to the full name at most a space more is shown. */
  lemma ShownOfFirst(u: Tables, rules: Rules, t: string, d: string, h: nat, i: nat, acc: string, x: string, p: string, k: string)
    requires Lawful(u) && FirstOf(rules, p, k) && i + |k| <= |t| < i + |p| && MatchesAt(u, t + d, i, p)
    requires IsHoldback(u, rules.pats, acc + (x + t[i + |k|..]), h)
    ensures Shown(x + t[i + |k|..], h) <= x + " "
  {
    hide Lawful, MatchesAt, IsHoldback, Shown;
    FirstParts(u, rules, t, d, i, |k|, p, k);
    hide FirstOf;
    FirstNameShown(u, rules.pats, t, d, i + |k|, acc, x, p[|k| + 1..], t[i + |k|..], h);
    ShownSplit(acc, x + t[i + |k|..], x + " ", h);
  }

  lemma ShownBeforePlace(u: Tables, rules: Rules, a: string, b: string, p: string, k: string, shown: string, r: string)
    requires FirstOf(rules, p, k) && shown <= MatchCase(u, a, rules.table[k]) + " "
    requires shown <= r && MatchCase(u, b, rules.table[p]) <= r
    ensures shown <= MatchCase(u, b, rules.table[p])
  {
    hide MatchCase;
    FirstOfValues(rules, p, k);
    assert |rules.table[k]| + 1 <= |rules.table[p]|;
    ShorterBegins(shown, MatchCase(u, b, rules.table[p]), r);
  }

  lemma ShownOfLonger(u: Tables, rules: Rules, t: string, d: string, h: nat, i: nat, acc: string, a: string, b: string, p: string, k: string, r: string, whole: string)
    requires Lawful(u) && FirstOf(rules, p, k) && i + |k| <= |t| < i + |p| && MatchesAt(u, t + d, i, p)
    requires r == MatchCase(u, a, rules.table[k]) + t[i + |k|..] && IsHoldback(u, rules.pats, acc + r, h)
    requires Shown(r, h) <= whole && MatchCase(u, b, rules.table[p]) <= whole
    ensures p in rules.table && Shown(r, h) <= MatchCase(u, b, rules.table[p])
  {
    FirstOfValues(rules, p, k);
    hide *;
    ShownOfFirst(u, rules, t, d, h, i, acc, MatchCase(u, a, rules.table[k]), p, k);
    ShownBeforePlace(u, rules, a, b, p, k, Shown(r, h), whole);
  }

  lemma LongerOfKeys(u: Tables, rules: Rules, p: string, k: string)
    requires Exacting(u, rules) && p in rules.pats && k in rules.pats && k < p
    ensures FirstOf(rules, p, k) || GoesOn(u, rules, p, k)
  {
  }

  /** The keys both take where a longer one takes the place. */
  lemma LongerKeys(u: Tables, rules: Rules, t: string, d: string, i: nat) returns (a: string, k: string, b: string, p: string)
    requires Lawful(u) && Parts(u, rules) && i < |t|
    requires Accepted(u, rules.pats, t, i) && Accepted(u, rules.pats, t + d, i)
    requires KeyLen(u, rules.pats, t, i) != KeyLen(u, rules.pats, t + d, i)
    ensures k in rules.pats && p in rules.pats && k < p && i + |k| <= |t| < i + |p| && MatchesAt(u, t + d, i, p)
    ensures a == t[i..i + |k|] && k == Fold(u, a) && |k| == KeyLen(u, rules.pats, t, i)
    ensures b == (t + d)[i..i + |p|] && p == Fold(u, b) && |p| == KeyLen(u, rules.pats, t + d, i)
    ensures k in rules.table && Rewrite(u, rules, t, i) == MatchCase(u, a, rules.table[k]) + t[i + |k|..]
    ensures p in rules.table && PlaceAt(u, rules, t, d, i) == MatchCase(u, b, rules.table[p])
  {
    assert WellFormed(rules) && !Agrees(u, rules.pats, t, d, i);
    hide *;
    a, k := PartingReplaced(u, rules, t, d, i);
    b, p := KeyPastEnd(u, rules.pats, t, d, i);
    PlaceIs(u, rules, t, d, i, b, p);
    KeyBegins(u, t, d, i, a, k, p);
  }

  lemma WordIsNoApostrophe(u: Tables, c: char)
    requires Lawful(u) && IsWordRune(u, c)
    ensures c != APOSTROPHE && c != CURLY
  {
    Apostrophes(u, APOSTROPHE);
    Apostrophes(u, CURLY);
  }

  /** Behind a key accepted in t that t + d continues inside a word, t ends. */
  lemma EndsBehind(u: Tables, t: string, d: string, i: nat, k: string, p: string)
    requires Lawful(u) && i < |t| && i + |k| <= |t| < i + |p| && |k| < |p| && Clear(u, t, i, |k|)
    requires MatchesAt(u, t + d, i, p) && IsWordRune(u, p[|k|])
    ensures i + |k| == |t|
  {
    var s, e := t + d, i + |k|;
    assert forall m :: 0 <= m < |t| ==> s[m] == t[m];
    assert Fold(u, s[i..i + |p|])[|k|] == u.Lower(s[e]);
    FoldKeepsWordClasses(u, s[e]);
    WordIsNoApostrophe(u, s[e]);
  }

  lemma ShownOfOther(u: Tables, a: string, b: string, v: string, w: string, shown: string, r: string)
    requires Lawful(u) && CaseStable(u, v) && CaseStable(u, w) && !(Fold(u, w) <= Fold(u, v))
    requires shown <= MatchCase(u, a, v) && shown <= r && MatchCase(u, b, w) <= r
    ensures shown <= MatchCase(u, b, w)
  {
    hide MatchCase, Fold;
    var x, y := MatchCase(u, a, v), MatchCase(u, b, w);
    if |shown| <= |y| {
      ShorterBegins(shown, y, r);
    } else {
      ShorterBegins(y, shown, r);
      PrefixTransitive(y, shown, x);
      FoldBegins(u, y, x);
      MatchCaseFolds(u, a, v);
      MatchCaseFolds(u, b, w);
    }
  }

  lemma ShownOfGoingOn(u: Tables, rules: Rules, t: string, d: string, h: nat, i: nat, a: string, b: string, p: string, k: string, r: string, whole: string)
    requires Lawful(u) && GoesOn(u, rules, p, k) && NotBegun(u, k, rules.table[k]) && NotBegun(u, p, rules.table[p])
    requires i < |t| && i + |k| <= |t| < i + |p| && Clear(u, t, i, |k|) && MatchesAt(u, t + d, i, p)
    requires r == MatchCase(u, a, rules.table[k]) + t[i + |k|..] && Shown(r, h) <= whole && MatchCase(u, b, rules.table[p]) <= whole
    ensures Shown(r, h) <= MatchCase(u, b, rules.table[p])
  {
    EndsBehind(u, t, d, i, k, p);
    assert t[|t|..] == [] && r == MatchCase(u, a, rules.table[k]);
    hide MatchCase, Shown, MatchesAt, Clear, Fold;
    ShownBegins(r, h);
    ShownOfOther(u, a, b, rules.table[k], rules.table[p], Shown(r, h), whole);
  }

  /** Become a longer key's value, it is safe only if what is shown of it begins that value. */
  lemma ReplacedKept(u: Tables, rules: Rules, t: string, d: string, h: nat, i: nat, acc: string)
    requires Lawful(u) && Parts(u, rules) && Exacting(u, rules) && i < |t| && !Agrees(u, rules.pats, t, d, i)
    requires Accepted(u, rules.pats, t, i) && Accepted(u, rules.pats, t + d, i)
    requires KeyLen(u, rules.pats, t, i) != KeyLen(u, rules.pats, t + d, i)
    requires IsHoldback(u, rules.pats, acc + Rewrite(u, rules, t, i), h)
    requires Shown(Rewrite(u, rules, t, i), h) <= Rewrite(u, rules, t + d, i)
    ensures Shown(Rewrite(u, rules, t, i), h) <= PlaceAt(u, rules, t, d, i)
  {
    assert WellFormed(rules) && Clear(u, t, i, KeyLen(u, rules.pats, t, i));
    hide *;
    PlaceBegins(u, rules, t, d, i);
    var a, k, b, p := LongerKeys(u, rules, t, d, i);
    LongerOfKeys(u, rules, p, k);
    NotBegunAt(u, rules, k);
    NotBegunAt(u, rules, p);
    if FirstOf(rules, p, k) {
      ShownOfLonger(u, rules, t, d, h, i, acc, a, b, p, k, Rewrite(u, rules, t, i), Rewrite(u, rules, t + d, i));
    } else {
      ShownOfGoingOn(u, rules, t, d, h, i, a, b, p, k, Rewrite(u, rules, t, i), Rewrite(u, rules, t + d, i));
    }
  }

  /** The beginning of a key becomes the key's value: safe only if what is shown of it begins that
      value. */
  lemma CompletedKept(u: Tables, rules: Rules, t: string, d: string, h: nat, i: nat)
    requires Lawful(u) && Parts(u, rules) && Exacting(u, rules) && i < |t| && !Agrees(u, rules.pats, t, d, i)
    requires !Accepted(u, rules.pats, t, i) && Accepted(u, rules.pats, t + d, i)
    requires Shown(Rewrite(u, rules, t, i), h) <= Rewrite(u, rules, t + d, i)
    ensures Shown(Rewrite(u, rules, t, i), h) <= PlaceAt(u, rules, t, d, i)
  {
    assert WellFormed(rules);
    hide *;
    PartingCopied(u, rules, t, d, i);
    PlaceBegins(u, rules, t, d, i);
    NewlyTaken(u, rules, t, d, i);
    var b, p := KeyPastEnd(u, rules.pats, t, d, i);
    PlaceIs(u, rules, t, d, i, b, p);
    NotBegunAt(u, rules, p);
    ShownOfBeginning(u, t, d, i, b, p, rules.table[p], h, Rewrite(u, rules, t + d, i));
  }

  /** What t does not accept and t + d does is another key. */
  lemma NewlyTaken(u: Tables, rules: Rules, t: string, d: string, i: nat)
    requires Lawful(u) && i < |t| && !Agrees(u, rules.pats, t, d, i) && !Accepted(u, rules.pats, t, i) && Accepted(u, rules.pats, t + d, i)
    ensures KeyLen(u, rules.pats, t, i) != KeyLen(u, rules.pats, t + d, i)
  {
    Parting(u, rules.pats, t, d, i);
    hide KeyLen, Agrees, TouchesEnd, Clear;
    if KeyLen(u, rules.pats, t, i) == KeyLen(u, rules.pats, t + d, i) {
      NeverClear(u, t, d, i, KeyLen(u, rules.pats, t, i));
    }
  }

  lemma ShownOfBeginning(u: Tables, t: string, d: string, i: nat, b: string, p: string, w: string, h: nat, r: string)
    requires Lawful(u) && i < |t| < i + |p| && MatchesAt(u, t + d, i, p) && NotBegun(u, p, w)
    requires Shown(t[i..], h) <= r && MatchCase(u, b, w) <= r
    ensures Shown(t[i..], h) <= MatchCase(u, b, w)
  {
    hide MatchCase, MatchesAt, Shown, Fold;
    var shown, y := Shown(t[i..], h), MatchCase(u, b, w);
    if |shown| <= |y| {
      ShorterBegins(shown, y, r);
    } else {
      ShorterBegins(y, shown, r);
      ShownBegins(t[i..], h);
      PrefixTransitive(y, shown, t[i..]);
      FoldBegins(u, y, t[i..]);
      MatchCaseFolds(u, b, w);
      BeginningOf(u, t, d, i, p);
      PrefixTransitive(Fold(u, y), Fold(u, t[i..]), p);
    }
  }

  /** The rest of t is the beginning of a key that t + d takes. */
  lemma BeginningOf(u: Tables, t: string, d: string, i: nat, p: string)
    requires i <= |t| < i + |p| && MatchesAt(u, t + d, i, p)
    ensures Fold(u, t[i..]) <= p
  {
    var n := |t| - i;
    assert (t + d)[i..i + |p|][..n] == t[i..];
    assert Fold(u, (t + d)[i..i + |p|])[..n] == Fold(u, t[i..]);
  }

  lemma PlaceIs(u: Tables, rules: Rules, t: string, d: string, i: nat, b: string, p: string)
    requires WellFormed(rules) && i < |t| && Accepted(u, rules.pats, t + d, i)
    requires b == (t + d)[i..i + KeyLen(u, rules.pats, t + d, i)] && p == Fold(u, b)
    ensures p in rules.table && PlaceAt(u, rules, t, d, i) == MatchCase(u, b, rules.table[p])
  {
    hide KeyLen, MatchCase, Fold, Clear, WellFormed;
    var _, _ := AcceptedSource(u, rules, t + d, i);
  }

  lemma KeyBegins(u: Tables, t: string, d: string, i: nat, a: string, k: string, p: string)
    requires i + |k| <= |t| < i + |p| && a == t[i..i + |k|] && k == Fold(u, a) && MatchesAt(u, t + d, i, p)
    ensures k < p
  {
    assert MatchesAt(u, t, i, k);
    MatchesAtGrows(u, t, d, i, k);
    MatchesComparable(u, t + d, i, k, p);
  }

  /** Where the scans part, what is safe is kept. */
  lemma PartingKept(u: Tables, rules: Rules, t: string, d: string, h: nat, i: nat, acc: string)
    requires Lawful(u) && Parts(u, rules) && Exacting(u, rules) && i < |t| && !Agrees(u, rules.pats, t, d, i)
    requires SafeBehind(u, rules, t, d, h, i, acc) && IsHoldback(u, rules.pats, acc + Rewrite(u, rules, t, i), h)
    ensures KeptAt(u, rules, t, d, h, i)
  {
    SafeFits(u, rules, t, d, h, i, acc);
    ShownSafe(u, rules, t, d, h, i, acc);
    PartingTaken(u, rules, t, d, i);
    hide Parts, Rewrite, KeyLen, Clear, IsHoldback, Agrees, Lawful, Exacting, SafeBehind, MatchCase, Recase, CasingOf, FirstOf, Fold, PlaceAt, Shown, TakenAt;
    if Accepted(u, rules.pats, t, i) {
      if !Accepted(u, rules.pats, t + d, i) {
        UnacceptedKept(u, rules, t, d, h, i);
      } else if KeyLen(u, rules.pats, t, i) != KeyLen(u, rules.pats, t + d, i) {
        ReplacedKept(u, rules, t, d, h, i, acc);
      }
    } else if Accepted(u, rules.pats, t + d, i) {
      CompletedKept(u, rules, t, d, h, i);
    } else {
      PartingCopied(u, rules, t, d, i);
      SourceTakesPlace(u, rules, t, d, i);
      ShownBegins(t[i..], h);
    }
  }

  lemma {:induction false} SafeIsKept(u: Tables, rules: Rules, t: string, d: string, h: nat, i: nat, acc: string)
    requires Lawful(u) && Parts(u, rules) && Exacting(u, rules) && i <= |t| && SafeBehind(u, rules, t, d, h, i, acc)
    requires IsHoldback(u, rules.pats, acc + Rewrite(u, rules, t, i), h)
    ensures Kept(u, rules, t, d, h, i)
    decreases |t| - i
  {
    hide Rewrite, Emit, KeyLen, Clear, IsHoldback, End, LaterWords, StartsClean, Exacting, KeptAt;
    if i < |t| {
      var n := KeyLen(u, rules.pats, t, i);
      if Agrees(u, rules.pats, t, d, i) {
        SafeStep(u, rules, t, d, i, acc);
        SafeIsKept(u, rules, t, d, h, End(u, t, i, n), acc + Emit(u, rules.table, t, i, n));
      } else {
        PartingKept(u, rules, t, d, h, i, acc);
      }
    }
  }

  // ---- The theorem ----

  /** Streaming safety without a premise on what comes next: what the sample shows begins the
      rewriting of t + d if t's part is kept where the two scans part; and only if, for exacting
      maps. */
  lemma StreamingExact(u: Tables, rules: Rules, t: string, d: string, h: nat)
    requires Lawful(u) && Parts(u, rules) && IsHoldback(u, rules.pats, Rewrite(u, rules, t, 0), h)
    ensures Kept(u, rules, t, d, h, 0) ==> Shown(Rewrite(u, rules, t, 0), h) <= Rewrite(u, rules, t + d, 0)
    ensures Exacting(u, rules) ==>
              (Shown(Rewrite(u, rules, t, 0), h) <= Rewrite(u, rules, t + d, 0) <==> Kept(u, rules, t, d, h, 0))
  {
    hide *;
    HoldbackFits(u, rules.pats, Rewrite(u, rules, t, 0), h);
    assert [] + Rewrite(u, rules, t, 0) == Rewrite(u, rules, t, 0);
    ShownSafe(u, rules, t, d, h, 0, []);
    if Kept(u, rules, t, d, h, 0) {
      KeptFrom(u, rules, t, d, h, 0, []);
    } else if Exacting(u, rules) && SafeBehind(u, rules, t, d, h, 0, []) {
      SafeIsKept(u, rules, t, d, h, 0, []);
    }
  }
}
