/** ComputeHoldback and incremental emission.

    A stream is reversed sample by sample: each sample is the whole text so far, it is rewritten
    with the reverse map, and all but the last `holdback` characters may be shown to the
    client at once.  The safety theorem says when what was shown is never taken back. */
module Streaming {
  import opened Unicode
  import opened Tokens
  import opened Scanner
  import opened Mappings
  import opened Replacer

  /** The last h characters of buf are a proper prefix of a key and start at a word boundary. */
  ghost predicate Holdable(u: Tables, pats: seq<string>, buf: string, h: nat) {
    && 0 < h <= |buf|
    && LeftClear(u, buf, |buf| - h)
    && exists p :: p in pats && Fold(u, buf[|buf| - h..]) < p
  }

  /** h is the greatest such number, 0 if there is none. */
  ghost predicate IsHoldback(u: Tables, pats: seq<string>, buf: string, h: nat) {
    && (h == 0 || Holdable(u, pats, buf, h))
    && forall k: nat :: h < k ==> !Holdable(u, pats, buf, k)
  }

  method IsBeginning(suffix: string, loweredKeys: seq<string>) returns (found: bool)
    ensures found <==> exists p :: p in loweredKeys && suffix < p
  {
    for i := 0 to |loweredKeys|
      invariant forall j :: 0 <= j < i ==> !(suffix < loweredKeys[j])
    {
      if suffix < loweredKeys[i] {
        assert loweredKeys[i] in loweredKeys;
        return true;
      }
    }
    return false;
  }

  method ComputeHoldback(u: Tables, buf: string, keys: seq<string>) returns (h: nat)
    ensures IsHoldback(u, FoldAll(u, keys), buf, h)
  {
    if buf == [] || keys == [] {
      return 0;
    }
    var loweredKeys := FoldAll(u, keys);
    var maxKeyLen := 0;
    for i := 0 to |keys|
      invariant forall j :: 0 <= j < i ==> |keys[j]| <= maxKeyLen
    {
      if |keys[i]| > maxKeyLen {
        maxKeyLen := |keys[i]|;
      }
    }
    assert forall p :: p in loweredKeys ==> |p| <= maxKeyLen;
    if maxKeyLen < 2 {
      return 0;
    }
    h := if maxKeyLen - 1 < |buf| then maxKeyLen - 1 else |buf|;
    while h > 0
      invariant h <= |buf|
      invariant forall k: nat :: h < k ==> !Holdable(u, loweredKeys, buf, k)
    {
      var startPos := |buf| - h;
      // A match can start only where the character before is no word context.
      if LeftClear(u, buf, startPos) {
        var found := IsBeginning(Fold(u, buf[startPos..]), loweredKeys);
        if found {
          return h;
        }
      }
      h := h - 1;
    }
  }

  // ---- Premises ----

  /** k stands at a word start of p, but not at its end. */
  predicate StandsInside(u: Tables, p: string, k: string, j: nat) {
    j + |k| < |p| && p[j..j + |k|] == k && (j == 0 || !IsWordContext(u, p[j - 1]))
  }

  /** Where k stands at offset j of p as a beginning of words, the word goes on behind it. */
  ghost predicate SolidAt(u: Tables, pats: seq<string>, p: string, j: nat) {
    forall k {:trigger StandsInside(u, p, k, j)} :: k in pats && StandsInside(u, p, k, j) ==> IsWordRune(u, p[j + |k|])
  }

  /** No key occurs inside p as whole words, except at its end. */
  ghost predicate Solid(u: Tables, pats: seq<string>, p: string) {
    forall j: nat :: SolidAt(u, pats, p, j)
  }

  /** p is the key k, a space and another key, and its value begins with k's value and a
      space: a full name and its first name, as person-name decomposition registers them. */
  ghost predicate Aligned(u: Tables, rules: Rules, p: string, k: string) {
    && k + " " <= p && p[|k| + 1..] in rules.pats && Solid(u, rules.pats, p[|k| + 1..])
    && p in rules.table && k in rules.table
    && rules.table[k] + " " <= rules.table[p]
    && !IsToken(rules.table[k]) && !IsToken(rules.table[p])
  }

  /** A key occurs inside another as whole words only at its end, or as an aligned first name. */
  ghost predicate NoInnerWord(u: Tables, rules: Rules) {
    && (forall p, j: nat {:trigger SolidAt(u, rules.pats, p, j)} :: p in rules.pats && j > 0 ==> SolidAt(u, rules.pats, p, j))
    && (forall p, k {:trigger StandsInside(u, p, k, 0)} :: p in rules.pats && k in rules.pats && StandsInside(u, p, k, 0) ==>
          IsWordRune(u, p[|k|]) || Aligned(u, rules, p, k))
  }

  ghost predicate StartsClean(pats: seq<string>) {
    forall p :: p in pats ==> p != [] && p[0] != APOSTROPHE && p[0] != CURLY && p[0] != ' '
  }

  ghost predicate EndsLikeKey(u: Tables, p: string, value: string)
    requires p != []
  {
    IsWordContext(u, p[|p| - 1])
    || (value != [] && CaseStable(u, value) && !IsWordContext(u, value[|value| - 1]))
  }

  /** A key that ends outside a word has a value that does too. */
  ghost predicate EndsKept(u: Tables, rules: Rules) {
    forall p :: p in rules.pats && p != [] && p in rules.table ==> EndsLikeKey(u, p, rules.table[p])
  }

  ghost predicate Streamable(u: Tables, rules: Rules) {
    WellFormed(rules) && NoInnerWord(u, rules) && StartsClean(rules.pats)
  }

  /** The key of length n accepted at i ends outside a word, without a tail, and what replaces it ends
      inside one: a token for a name. */
  predicate Glues(u: Tables, table: Mapping, t: string, i: nat, n: nat)
    requires i < |t| && i + n <= |t|
  {
    Clear(u, t, i, n) && End(u, t, i, n) == i + n && !IsWordContext(u, t[i + n - 1]) &&
    var w := Emit(u, table, t, i, n); w == [] || IsWordContext(u, w[|w| - 1])
  }

  /** Such a key ends at i. */
  ghost predicate GluedEnd(u: Tables, rules: Rules, t: string, i: nat) {
    exists j: nat :: j < |t| && j + KeyLen(u, rules.pats, t, j) == i && Glues(u, rules.table, t, j, KeyLen(u, rules.pats, t, j))
  }

  /** Directly behind such a key t + d takes none that reaches past the end of t. */
  ghost predicate Unglued(u: Tables, rules: Rules, t: string, d: string) {
    forall i: nat {:trigger GluedEnd(u, rules, t, i)} :: i < |t| && GluedEnd(u, rules, t, i) ==> i + KeyLen(u, rules.pats, t + d, i) <= |t|
  }

  /** A key of length n taken at i ends the text, up to a possessive that may still grow. */
  predicate TouchesEnd(u: Tables, t: string, i: nat, n: nat)
    requires i < |t| && i + n <= |t|
  {
    End(u, t, i, n) == |t| || (i + n + 1 == |t| && t[i + n] == CURLY)
  }

  /** What is accepted in the sample t is not undone by d: a key t ends in stays accepted, and
      a longer key that takes the place of one is accepted too and starts a new word behind it. */
  predicate SettledAt(u: Tables, pats: seq<string>, t: string, d: string, i: nat)
    requires i < |t|
  {
    var n := KeyLen(u, pats, t, i);
    if KeyLen(u, pats, t + d, i) == n then
      TouchesEnd(u, t, i, n) ==> Accepted(u, pats, t + d, i)
    else
      Accepted(u, pats, t + d, i) && i + n < |t + d| && !IsWordRune(u, (t + d)[i + n])
  }

  /** Such a longer key has the casing of the key whose place it takes. */
  predicate SameCasingAt(u: Tables, pats: seq<string>, t: string, d: string, i: nat)
    requires i < |t|
  {
    var n, n' := KeyLen(u, pats, t, i), KeyLen(u, pats, t + d, i);
    n != n' ==> CasingOf(u, t[i..i + n]) == CasingOf(u, (t + d)[i..i + n'])
  }

  ghost predicate Settled(u: Tables, pats: seq<string>, t: string, d: string) {
    && (forall i: nat {:trigger SettledAt(u, pats, t, d, i)} ::
          i < |t| && Accepted(u, pats, t, i) ==> SettledAt(u, pats, t, d, i))
    && (forall i: nat {:trigger SameCasingAt(u, pats, t, d, i)} ::
          i < |t| && Accepted(u, pats, t, i) ==> SameCasingAt(u, pats, t, d, i))
  }

  // ---- Growing the text ----

  lemma SameSlice(t: string, d: string, i: nat, e: nat)
    requires i <= e <= |t|
    ensures t[i..e] == (t + d)[i..e]
  {
  }

  lemma PrefixAfter(a: string, b: string, c: string)
    requires b <= c
    ensures a + b <= a + c
  {
  }

  lemma MatchesAtGrows(u: Tables, t: string, d: string, i: nat, p: string)
    requires i + |p| <= |t|
    ensures MatchesAt(u, t, i, p) <==> MatchesAt(u, t + d, i, p)
  {
    SameSlice(t, d, i, i + |p|);
  }

  /** Where the larger text takes a different key, that key reaches into what was appended. */
  lemma {:induction false} KeyCrosses(u: Tables, pats: seq<string>, t: string, d: string, i: nat)
    requires KeyLen(u, pats, t, i) != KeyLen(u, pats, t + d, i)
    ensures i + KeyLen(u, pats, t + d, i) > |t|
  {
    if pats != [] && pats[0] != [] {
      if i + |pats[0]| <= |t| {
        MatchesAtGrows(u, t, d, i, pats[0]);
      }
      if !MatchesAt(u, t, i, pats[0]) && !MatchesAt(u, t + d, i, pats[0]) {
        KeyCrosses(u, pats[1..], t, d, i);
      }
    } else if pats != [] {
      KeyCrosses(u, pats[1..], t, d, i);
    }
  }

  /** The part of a key p, matched from i on in s, that is matched by k from j on. */
  lemma InnerKey(u: Tables, s: string, i: nat, p: string, j: nat, k: string)
    requires i <= j && j + |k| < i + |p| && MatchesAt(u, s, i, p) && MatchesAt(u, s, j, k)
    requires Lawful(u) && (j == i || !IsWordContext(u, s[j - 1]))
    ensures StandsInside(u, p, k, j - i)
    ensures p[j - i + |k|] == u.Lower(s[j + |k|])
  {
    var o := j - i;
    var f := Fold(u, s[i..i + |p|]);
    assert forall m :: 0 <= m < |p| ==> p[m] == u.Lower(s[i + m]);
    assert forall m :: 0 <= m < |k| ==> k[m] == Fold(u, s[j..j + |k|])[m] == u.Lower(s[j + m]) == p[o + m];
    assert k == p[o..o + |k|];
    if o > 0 {
      FoldKeepsWordClasses(u, s[j - 1]);
    }
  }

  /** A key that t takes at j inside the solid beginning of p, which s matches from i on: the word
      goes on in s. */
  lemma InsideSolid(u: Tables, pats: seq<string>, t: string, d: string, i: nat, p: string, j: nat, k: string)
    requires Lawful(u) && i <= j && k in pats && SolidAt(u, pats, p, j - i)
    requires MatchesAt(u, t + d, i, p) && |t| < i + |p|
    requires MatchesAt(u, t, j, k) && (j == i || LeftClear(u, t, j))
    ensures j + |k| < |t + d| && IsWordRune(u, (t + d)[j + |k|])
  {
    MatchesAtGrows(u, t, d, j, k);
    assert j > i ==> t[j - 1] == (t + d)[j - 1];
    InnerKey(u, t + d, i, p, j, k);
    FoldKeepsWordClasses(u, (t + d)[j + |k|]);
  }

  /** Inside the beginning of a key nothing is accepted. */
  lemma NothingAccepted(u: Tables, rules: Rules, t: string, d: string, i: nat, p: string, j: nat)
    requires Lawful(u) && Settled(u, rules.pats, t, d)
    requires i <= j < |t| < i + |p| && MatchesAt(u, t + d, i, p) && SolidAt(u, rules.pats, p, j - i)
    ensures !Accepted(u, rules.pats, t, j)
  {
    var n := KeyLen(u, rules.pats, t, j);
    assert Accepted(u, rules.pats, t, j) ==> SettledAt(u, rules.pats, t, d, j);
    if n > 0 && LeftClear(u, t, j) {
      KeyTaken(u, rules.pats, t, j);
      InsideSolid(u, rules.pats, t, d, i, p, j, Fold(u, t[j..j + n]));
      WordGoesOn(u, t, d, j, n);
    }
  }

  /** A key followed by a word rune is not accepted, be it in t or in what comes after. */
  lemma WordGoesOn(u: Tables, t: string, d: string, j: nat, n: nat)
    requires Lawful(u) && j < |t| && j + n <= |t| && j + n < |t + d| && IsWordRune(u, (t + d)[j + n])
    ensures !Clear(u, t + d, j, n)
    ensures Clear(u, t, j, n) ==> TouchesEnd(u, t, j, n)
  {
    var c := (t + d)[j + n];
    if c == APOSTROPHE || c == CURLY {
      Apostrophes(u, c);
    }
    assert j + n < |t| ==> t[j + n] == c;
  }

  /** So a text that ends in the beginning of a key is left as it is from there on. */
  lemma {:induction false} BeginningKept(u: Tables, rules: Rules, t: string, d: string, i: nat, p: string, j: nat)
    requires Lawful(u) && Settled(u, rules.pats, t, d)
    requires i <= j <= |t| < i + |p| && MatchesAt(u, t + d, i, p)
    requires forall o: nat :: o >= j - i ==> SolidAt(u, rules.pats, p, o)
    ensures Rewrite(u, rules, t, j) == t[j..]
    decreases |t| - j
  {
    if j < |t| {
      NothingAccepted(u, rules, t, d, i, p, j);
      var end := Next(u, rules.pats, t, j);
      BeginningKept(u, rules, t, d, i, p, end);
      assert t[j..] == t[j..end] + t[end..];
    }
  }

  /** A step of t that accepts nothing, in the beginning of a key of the larger text. */
  lemma BeginningUnaccepted(u: Tables, rules: Rules, t: string, d: string, i: nat, p: string)
    requires Lawful(u) && NoInnerWord(u, rules) && Settled(u, rules.pats, t, d)
    requires p in rules.pats && i < |t| < i + |p| && MatchesAt(u, t + d, i, p)
    requires !Accepted(u, rules.pats, t, i)
    ensures Rewrite(u, rules, t, i) == t[i..]
  {
    var end := Next(u, rules.pats, t, i);
    BeginningKept(u, rules, t, d, i, p, end);
    assert t[i..] == t[i..end] + t[end..];
  }

  /** Nothing starts at the apostrophe a text ends in. */
  lemma ApostropheKept(u: Tables, rules: Rules, t: string, j: nat)
    requires Lawful(u) && StartsClean(rules.pats)
    requires j + 1 == |t| && t[j] == CURLY
    ensures Rewrite(u, rules, t, j) == t[j..]
  {
    Apostrophes(u, CURLY);
    var n := KeyLen(u, rules.pats, t, j);
    if n > 0 {
      KeyTaken(u, rules.pats, t, j);
      assert false;
    }
    assert Rewrite(u, rules, t, |t|) == [];
    assert t[j..] == t[j..j + 1];
  }

  /** Tail and boundaries of a step can only change if the step touches the end. */
  lemma StepChanges(u: Tables, t: string, d: string, i: nat, n: nat)
    requires i < |t| && i + n <= |t|
    ensures var s := t + d;
            || (End(u, t, i, n) == End(u, s, i, n) && Clear(u, t, i, n) == Clear(u, s, i, n))
            || (n > 0 && TouchesEnd(u, t, i, n) && End(u, s, i, n) >= |t|)
  {
    assert forall k :: 0 <= k < |t| ==> (t + d)[k] == t[k];
  }

  /** Where both texts take the same step they emit the same. */
  lemma SameEmit(u: Tables, table: Mapping, t: string, d: string, i: nat, n: nat)
    requires i < |t| && i + n <= |t|
    requires End(u, t, i, n) == End(u, t + d, i, n) && Clear(u, t, i, n) == Clear(u, t + d, i, n)
    ensures Emit(u, table, t, i, n) == Emit(u, table, t + d, i, n)
  {
    var end := End(u, t, i, n);
    SameSlice(t, d, i, i + n);
    SameSlice(t, d, i + n, end);
    SameSlice(t, d, i, end);
  }

  /** A step that touches the end, followed by the rest of t unchanged, is the beginning of what
      the larger text emits, provided a key accepted in t stays accepted. */
  lemma EndKept(u: Tables, table: Mapping, t: string, d: string, i: nat, n: nat)
    requires Lawful(u)
    requires i < |t| && i + n <= |t| && n > 0
    requires TouchesEnd(u, t, i, n) && End(u, t + d, i, n) >= |t|
    requires Clear(u, t, i, n) ==> Clear(u, t + d, i, n)
    requires Fold(u, t[i..i + n]) in table
    ensures Emit(u, table, t, i, n) + t[End(u, t, i, n)..] <= Emit(u, table, t + d, i, n)
  {
    hide MatchCase, FoldTo, LawfulAt, TailLen, LeftClear, RightClear;
    if Clear(u, t, i, n) {
      hide End, Emit;
      EndReplaced(u, table, t, d, i, n);
    } else {
      NeverClear(u, t, d, i, n);
      hide End, Emit;
      EndCopied(u, table, t, d, i, n);
    }
  }

  lemma EndReplaced(u: Tables, table: Mapping, t: string, d: string, i: nat, n: nat)
    requires i < |t| && i + n <= |t| && End(u, t + d, i, n) >= |t| && Clear(u, t, i, n) && Clear(u, t + d, i, n)
    requires Fold(u, t[i..i + n]) in table
    ensures Emit(u, table, t, i, n) + t[End(u, t, i, n)..] <= Emit(u, table, t + d, i, n)
  {
    var s := t + d;
    var e, end, end' := i + n, End(u, t, i, n), End(u, s, i, n);
    SameSlice(t, d, i, e);
    ClearEmit(u, table, t, i, n);
    ClearEmit(u, table, s, i, n);
    var value := MatchCase(u, t[i..e], table[Fold(u, t[i..e])]);
    assert e <= end <= |t| <= end' <= |s|;
    hide *;
    RestBegins(t, d, e, end, end');
    PrefixAfter(value, t[e..end] + t[end..], s[e..end']);
    assert value + t[e..end] + t[end..] == value + (t[e..end] + t[end..]);
  }

  lemma EndCopied(u: Tables, table: Mapping, t: string, d: string, i: nat, n: nat)
    requires i < |t| && i + n <= |t| && End(u, t + d, i, n) >= |t| && !Clear(u, t, i, n) && !Clear(u, t + d, i, n)
    ensures Emit(u, table, t, i, n) + t[End(u, t, i, n)..] <= Emit(u, table, t + d, i, n)
  {
    hide Clear, End;
    RestBegins(t, d, i, End(u, t, i, n), End(u, t + d, i, n));
  }

  lemma RestBegins(t: string, d: string, e: nat, end: nat, end': nat)
    requires e <= end <= |t| <= end' <= |t + d|
    ensures t[e..end] + t[end..] <= (t + d)[e..end']
  {
    assert t[e..end] + t[end..] == t[e..];
  }

  /** A step that touches the end and is not clear is not clear in a larger text. */
  lemma NeverClear(u: Tables, t: string, d: string, i: nat, n: nat)
    requires Lawful(u) && i < |t| && i + n <= |t| && n > 0 && TouchesEnd(u, t, i, n) && !Clear(u, t, i, n)
    ensures !Clear(u, t + d, i, n)
  {
    Apostrophes(u, CURLY);
    hide TailLen;
    assert i > 0 ==> t[i - 1] == (t + d)[i - 1];
  }

  // ---- The theorem ----

  /** Where a match may start at i in t, one may start behind what was emitted for t[..i]. */
  predicate Anchored(u: Tables, t: string, i: nat, acc: string)
    requires i <= |t|
  {
    LeftClear(u, t, i) ==> LeftClear(u, acc, |acc|)
  }

  ghost predicate AnchoredOrGlued(u: Tables, rules: Rules, t: string, i: nat, acc: string)
    requires i <= |t|
  {
    Anchored(u, t, i, acc) || GluedEnd(u, rules, t, i)
  }

  lemma LastOf(a: string, b: string)
    requires b != []
    ensures (a + b)[|a + b| - 1] == b[|b| - 1]
  {
  }

  lemma StaysAnchored(u: Tables, table: Mapping, t: string, i: nat, n: nat, acc: string)
    requires i < |t| && i + n <= |t| && !Glues(u, table, t, i, n)
    requires n > 0 ==> Fold(u, t[i..i + n]) in table
    ensures Anchored(u, t, End(u, t, i, n), acc + Emit(u, table, t, i, n))
  {
    var e, end := i + n, End(u, t, i, n);
    var out := Emit(u, table, t, i, n);
    if !Clear(u, t, i, n) {
      LastOf(acc, t[i..end]);
    } else if e < end {
      ClearEmit(u, table, t, i, n);
      hide Emit, Clear, MatchCase, TailLen, Fold;
      LastOf(MatchCase(u, t[i..e], table[Fold(u, t[i..e])]), t[e..end]);
      LastOf(acc, out);
    } else if !IsWordContext(u, t[e - 1]) {
      hide Emit, Clear, MatchCase, TailLen, Fold;
      LastOf(acc, out);
    }
  }

  /** Values that end outside a word where their keys do leave no such key. */
  lemma EndsKeptUnglued(u: Tables, rules: Rules, t: string, d: string)
    requires Lawful(u) && WellFormed(rules) && EndsKept(u, rules)
    ensures Unglued(u, rules, t, d)
  {
    hide Emit;
    forall j: nat | j < |t|
      ensures !Glues(u, rules.table, t, j, KeyLen(u, rules.pats, t, j))
    {
      NeverGlues(u, rules, t, j);
    }
  }

  lemma NeverGlues(u: Tables, rules: Rules, t: string, j: nat)
    requires Lawful(u) && WellFormed(rules) && EndsKept(u, rules) && j < |t|
    ensures !Glues(u, rules.table, t, j, KeyLen(u, rules.pats, t, j))
  {
    var n := KeyLen(u, rules.pats, t, j);
    if n > 0 {
      KeyTaken(u, rules.pats, t, j);
      var p := Fold(u, t[j..j + n]);
      assert p in rules.table && EndsLikeKey(u, p, rules.table[p]);
      hide KeyLen, EndsKept, MatchesAt;
      EndsLikeNever(u, rules.table, t, j, n);
    }
  }

  lemma EndsLikeNever(u: Tables, table: Mapping, t: string, j: nat, n: nat)
    requires Lawful(u) && j < |t| && j + n <= |t| && n > 0
    requires var p := Fold(u, t[j..j + n]); p in table && EndsLikeKey(u, p, table[p])
    ensures !Glues(u, table, t, j, n)
  {
    var p := Fold(u, t[j..j + n]);
    assert p[n - 1] == u.Lower(t[j + n - 1]);
    FoldKeepsWordClasses(u, t[j + n - 1]);
    hide MatchCase, CaseStable, FoldTo, LeftClear, RightClear, TailLen;
    if !IsWordContext(u, p[n - 1]) && Clear(u, t, j, n) && End(u, t, j, n) == j + n {
      ValueEndsOutside(u, p, table[p], t[j..j + n]);
      ClearEmit(u, table, t, j, n);
    }
  }

  lemma ValueEndsOutside(u: Tables, p: string, value: string, source: string)
    requires Lawful(u) && p != [] && !IsWordContext(u, p[|p| - 1]) && EndsLikeKey(u, p, value)
    ensures var w := MatchCase(u, source, value); w != [] && !IsWordContext(u, w[|w| - 1])
  {
    FoldKeepsWordClasses(u, value[|value| - 1]);
  }

  lemma HeldBack(u: Tables, pats: seq<string>, t: string, d: string, i: nat, acc: string, p: string, h: nat)
    requires p in pats && i < |t| < i + |p| && MatchesAt(u, t + d, i, p)
    requires LeftClear(u, t, i) && Anchored(u, t, i, acc)
    requires IsHoldback(u, pats, acc + t[i..], h)
    ensures |t| - i <= h <= |acc + t[i..]|
    ensures (acc + t[i..])[..|acc + t[i..]| - h] <= acc
  {
    var r := acc + t[i..];
    var k := |t| - i;
    assert r[|r| - k..] == t[i..];
    assert t[i..] == (t + d)[i..i + |p|][..k];
    assert Fold(u, t[i..]) < p;
    assert LeftClear(u, r, |r| - k);
    assert Holdable(u, pats, r, k);
  }

  /** The same casing turns aligned values into aligned outputs. */
  lemma AlignedOutputs(u: Tables, a: string, b: string, v: string, w: string)
    requires Lawful(u) && CasingOf(u, a) == CasingOf(u, b)
    requires v + " " <= w && !IsToken(v) && !IsToken(w)
    ensures MatchCase(u, a, v) + " " <= MatchCase(u, b, w)
  {
    RecaseAligned(u, CasingOf(u, a), v, w);
  }

  lemma RecaseAligned(u: Tables, c: Casing, v: string, w: string)
    requires Lawful(u) && v + " " <= w
    ensures Recase(u, c, v) + " " <= Recase(u, c, w)
  {
    Spaces(u, ' ');
    var x, y := Recase(u, c, v), Recase(u, c, w);
    assert forall m :: 0 <= m < |v| ==> (v + " ")[m] == w[m];
    assert (v + " ")[|v|] == w[|v|];
    assert forall m :: 0 <= m < |x + " "| ==> (x + " ")[m] == y[m];
  }

  /** What t emits for the first name and s for the full name. */
  lemma AlignedEmits(u: Tables, table: Mapping, t: string, d: string, i: nat, n: nat, n': nat)
    requires Lawful(u) && i < |t| && i + n <= |t| && i + n' <= |t + d|
    requires Clear(u, t, i, n) && Clear(u, t + d, i, n') && End(u, t, i, n) == i + n
    requires CasingOf(u, t[i..i + n]) == CasingOf(u, (t + d)[i..i + n'])
    requires var k, p := Fold(u, t[i..i + n]), Fold(u, (t + d)[i..i + n']);
             k in table && p in table && table[k] + " " <= table[p] && !IsToken(table[k]) && !IsToken(table[p])
    ensures Emit(u, table, t, i, n) + " " <= Emit(u, table, t + d, i, n')
  {
    var a, b := t[i..i + n], (t + d)[i..i + n'];
    AlignedOutputs(u, a, b, table[Fold(u, a)], table[Fold(u, b)]);
    ClearEmit(u, table, t, i, n);
    ClearEmit(u, table, t + d, i, n');
    assert t[i + n..i + n] == [];
    PrefixExtends(MatchCase(u, a, table[Fold(u, a)]) + " ", MatchCase(u, b, table[Fold(u, b)]), (t + d)[i + n'..End(u, t + d, i, n')]);
  }

  lemma PrefixExtends(a: string, b: string, c: string)
    requires a <= b
    ensures a <= b + c
  {
  }

  lemma ClearEmit(u: Tables, table: Mapping, t: string, i: nat, n: nat)
    requires i < |t| && i + n <= |t| && Clear(u, t, i, n) && Fold(u, t[i..i + n]) in table
    ensures Emit(u, table, t, i, n) == MatchCase(u, t[i..i + n], table[Fold(u, t[i..i + n])]) + t[i + n..End(u, t, i, n)]
  {
  }

  /** The parts of an aligned full name that s matches from i on. */
  lemma LastNameAt(u: Tables, s: string, i: nat, p: string, n: nat)
    requires Lawful(u) && MatchesAt(u, s, i, p) && n < |p| && p[n] == ' '
    ensures s[i + n] == ' ' && MatchesAt(u, s, i + n + 1, p[n + 1..])
  {
    var a := s[i..i + |p|];
    assert Fold(u, a)[n] == u.Lower(s[i + n]);
    Spaces(u, s[i + n]);
    assert s[i + n + 1..i + |p|] == a[n + 1..];
    assert Fold(u, a[n + 1..]) == Fold(u, a)[n + 1..];
  }

  /** A space that no key starts with is copied. */
  lemma SpaceCopied(u: Tables, rules: Rules, t: string, e: nat)
    requires Lawful(u) && StartsClean(rules.pats) && e < |t| && t[e] == ' '
    ensures KeyLen(u, rules.pats, t, e) == 0
    ensures Rewrite(u, rules, t, e) == " " + Rewrite(u, rules, t, e + 1)
  {
    var n := KeyLen(u, rules.pats, t, e);
    if n > 0 {
      KeyTaken(u, rules.pats, t, e);
      Spaces(u, ' ');
      assert false;
    }
    assert t[e..e + 1] == " ";
  }

  /** Of what t emits behind the first name only the space is shown. */
  lemma SpaceShown(u: Tables, pats: seq<string>, t: string, d: string, e: nat, acc: string, x: string, q: string, h: nat)
    requires Lawful(u) && e < |t| < e + 1 + |q| && t[e] == ' ' && q in pats && MatchesAt(u, t + d, e + 1, q)
    requires IsHoldback(u, pats, acc + (x + (" " + t[e + 1..])), h)
    ensures var r := acc + (x + (" " + t[e + 1..]));
            h <= |r| && r[..|r| - h] <= acc + (x + " ")
  {
    var acc' := acc + (x + " ");
    assert acc + (x + (" " + t[e + 1..])) == acc' + t[e + 1..];
    Spaces(u, ' ');
    if e + 1 < |t| {
      HeldBack(u, pats, t, d, e + 1, acc', q, h);
    }
  }

  lemma PrefixTransitive(a: string, b: string, c: string)
    requires a <= b && b <= c
    ensures a <= c
  {
  }

  /** Behind an aligned first name t goes on with a space and the beginning of the last name. */
  lemma AfterFirstName(u: Tables, rules: Rules, t: string, d: string, i: nat, n: nat, p: string)
    requires Lawful(u) && StartsClean(rules.pats) && Settled(u, rules.pats, t, d)
    requires i + n < |t| < i + |p| && n < |p| && MatchesAt(u, t + d, i, p) && p[n] == ' '
    requires p[n + 1..] in rules.pats && Solid(u, rules.pats, p[n + 1..])
    ensures t[i + n] == ' ' && MatchesAt(u, t + d, i + n + 1, p[n + 1..])
    ensures Rewrite(u, rules, t, i + n) == " " + t[i + n + 1..]
  {
    hide Rewrite, MatchesAt;
    LastNameAt(u, t + d, i, p, n);
    SpaceCopied(u, rules, t, i + n);
    BeginningKept(u, rules, t, d, i + n + 1, p[n + 1..], i + n + 1);
  }

  /** What is shown of a first name that the larger text continues to the full name ends with it
      or with the space behind it. */
  lemma FirstNameShown(u: Tables, pats: seq<string>, t: string, d: string, e: nat, acc: string, x: string, q: string, rest: string, h: nat)
    requires Lawful(u) && e <= |t| < e + 1 + |q| && q in pats && MatchesAt(u, t + d, e + 1, q)
    requires rest == if e == |t| then [] else " " + t[e + 1..]
    requires e < |t| ==> t[e] == ' '
    requires IsHoldback(u, pats, acc + (x + rest), h)
    ensures h <= |acc + (x + rest)| && (acc + (x + rest))[..|acc + (x + rest)| - h] <= acc + (x + " ")
  {
    if e == |t| {
      assert acc + (x + rest) == acc + x;
    } else {
      SpaceShown(u, pats, t, d, e, acc, x, q, h);
    }
  }

  /** An accepted key whose place a longer one takes is its aligned first name. */
  lemma FirstNameAligned(u: Tables, rules: Rules, t: string, d: string, i: nat, k: string, p: string)
    requires Lawful(u) && NoInnerWord(u, rules) && k in rules.pats && p in rules.pats
    requires MatchesAt(u, t, i, k) && MatchesAt(u, t + d, i, p) && |t| < i + |p|
    requires !IsWordRune(u, (t + d)[i + |k|])
    ensures Aligned(u, rules, p, k)
  {
    MatchesAtGrows(u, t, d, i, k);
    InnerKey(u, t + d, i, p, i, k);
    FoldKeepsWordClasses(u, (t + d)[i + |k|]);
  }

  /** Behind a first name that s continues to the full name there is no tail. */
  lemma NoTailAfterFirstName(u: Tables, t: string, d: string, i: nat, n: nat)
    requires i < |t| && n > 0 && i + n <= |t| && i + n < |t + d| && (t + d)[i + n] == ' '
    ensures End(u, t, i, n) == i + n
  {
    assert i + n < |t| ==> t[i + n] == ' ';
  }

  /** An accepted key whose place a longer one takes: the longer one is its aligned full name. */
  lemma FullNameFollows(u: Tables, rules: Rules, t: string, d: string, i: nat, n: nat, n': nat)
    requires Lawful(u) && NoInnerWord(u, rules) && Settled(u, rules.pats, t, d)
    requires i < |t| && Accepted(u, rules.pats, t, i)
    requires n == KeyLen(u, rules.pats, t, i) && n' == KeyLen(u, rules.pats, t + d, i) && n != n'
    ensures i + n <= |t| < i + n' <= |t + d| && Clear(u, t, i, n) && Clear(u, t + d, i, n')
    ensures MatchesAt(u, t + d, i, Fold(u, (t + d)[i..i + n']))
    ensures Aligned(u, rules, Fold(u, (t + d)[i..i + n']), Fold(u, t[i..i + n]))
  {
    assert SettledAt(u, rules.pats, t, d, i);
    KeyCrosses(u, rules.pats, t, d, i);
    KeyTaken(u, rules.pats, t, i);
    KeyTaken(u, rules.pats, t + d, i);
    FirstNameAligned(u, rules, t, d, i, Fold(u, t[i..i + n]), Fold(u, (t + d)[i..i + n']));
  }

  lemma FullNameParts(u: Tables, rules: Rules, p: string, k: string)
    requires Aligned(u, rules, p, k)
    ensures |k| < |p| && p[|k|] == ' ' && p[|k| + 1..] in rules.pats && Solid(u, rules.pats, p[|k| + 1..])
  {
    assert p[|k|] == (k + " ")[|k|];
  }

  lemma AlignedValues(u: Tables, rules: Rules, p: string, k: string)
    requires Aligned(u, rules, p, k)
    ensures k in rules.table && p in rules.table && rules.table[k] + " " <= rules.table[p]
    ensures !IsToken(rules.table[k]) && !IsToken(rules.table[p])
  {
  }

  lemma ShownIsPrefix(acc: string, x: string, y: string, later: string, r: string, h: nat)
    requires h <= |r| && r[..|r| - h] <= acc + (x + " ") && x + " " <= y
    ensures r[..|r| - h] <= acc + (y + later)
  {
    PrefixExtends(x + " ", y, later);
    PrefixAfter(acc, x + " ", y + later);
    PrefixTransitive(r[..|r| - h], acc + (x + " "), acc + (y + later));
  }

  lemma RewriteIs(u: Tables, rules: Rules, text: string, i: nat, n: nat)
    requires i < |text| && n == KeyLen(u, rules.pats, text, i)
    ensures Rewrite(u, rules, text, i) == Emit(u, rules.table, text, i, n) + Rewrite(u, rules, text, End(u, text, i, n))
  {
  }

  lemma AlignedRewrites(u: Tables, rules: Rules, t: string, d: string, i: nat, n: nat, n': nat) returns (x: string, y: string, later: string)
    requires Lawful(u) && i < |t| && n == KeyLen(u, rules.pats, t, i) && n' == KeyLen(u, rules.pats, t + d, i)
    requires Clear(u, t, i, n) && Clear(u, t + d, i, n') && End(u, t, i, n) == i + n
    requires CasingOf(u, t[i..i + n]) == CasingOf(u, (t + d)[i..i + n'])
    requires var k, p := Fold(u, t[i..i + n]), Fold(u, (t + d)[i..i + n']);
             k in rules.table && p in rules.table && rules.table[k] + " " <= rules.table[p]
             && !IsToken(rules.table[k]) && !IsToken(rules.table[p])
    ensures x + " " <= y
    ensures Rewrite(u, rules, t, i) == x + Rewrite(u, rules, t, i + n) && Rewrite(u, rules, t + d, i) == y + later
  {
    hide *;
    AlignedEmits(u, rules.table, t, d, i, n, n');
    RewriteIs(u, rules, t, i, n);
    RewriteIs(u, rules, t + d, i, n');
    x, y := Emit(u, rules.table, t, i, n), Emit(u, rules.table, t + d, i, n');
    later := Rewrite(u, rules, t + d, End(u, t + d, i, n'));
  }

  /** What t emits for the first name, and a space, is the beginning of what the larger text
      emits for the full name. */
  lemma FullNameEmits(u: Tables, rules: Rules, t: string, d: string, i: nat, n: nat, n': nat) returns (x: string, y: string, later: string)
    requires Lawful(u) && NoInnerWord(u, rules) && Settled(u, rules.pats, t, d)
    requires i < |t| && Accepted(u, rules.pats, t, i)
    requires n == KeyLen(u, rules.pats, t, i) && n' == KeyLen(u, rules.pats, t + d, i) && n != n'
    ensures x + " " <= y
    ensures Rewrite(u, rules, t, i) == x + Rewrite(u, rules, t, i + n) && Rewrite(u, rules, t + d, i) == y + later
  {
    hide Rewrite, Emit, CasingOf, MatchesAt, End, Aligned;
    var k, p := Fold(u, t[i..i + n]), Fold(u, (t + d)[i..i + n']);
    FullNameFollows(u, rules, t, d, i, n, n');
    FullNameParts(u, rules, p, k);
    LastNameAt(u, t + d, i, p, n);
    NoTailAfterFirstName(u, t, d, i, n);
    AlignedValues(u, rules, p, k);
    assert SameCasingAt(u, rules.pats, t, d, i);
    x, y, later := AlignedRewrites(u, rules, t, d, i, n, n');
  }

  /** What t emits behind the first name. */
  lemma FirstNameRest(u: Tables, rules: Rules, t: string, d: string, i: nat, n: nat, n': nat) returns (q: string)
    requires Lawful(u) && NoInnerWord(u, rules) && StartsClean(rules.pats) && Settled(u, rules.pats, t, d)
    requires i < |t| && Accepted(u, rules.pats, t, i)
    requires n == KeyLen(u, rules.pats, t, i) && n' == KeyLen(u, rules.pats, t + d, i) && n != n'
    ensures i + n <= |t| < i + n + 1 + |q| && q in rules.pats && MatchesAt(u, t + d, i + n + 1, q)
    ensures Rewrite(u, rules, t, i + n) == if i + n == |t| then [] else " " + t[i + n + 1..]
    ensures i + n < |t| ==> t[i + n] == ' '
  {
    var p := Fold(u, (t + d)[i..i + n']);
    FullNameFollows(u, rules, t, d, i, n, n');
    FullNameParts(u, rules, p, Fold(u, t[i..i + n]));
    q := p[n + 1..];
    LastNameAt(u, t + d, i, p, n);
    if i + n < |t| {
      AfterFirstName(u, rules, t, d, i, n, p);
    }
  }

  lemma FirstNameSafe(u: Tables, rules: Rules, t: string, d: string, i: nat, acc: string, q: string, h: nat, x: string, y: string, rest: string, later: string, e: nat)
    requires Lawful(u) && e <= |t| < e + 1 + |q| && q in rules.pats && MatchesAt(u, t + d, e + 1, q)
    requires rest == if e == |t| then [] else " " + t[e + 1..]
    requires e < |t| ==> t[e] == ' '
    requires x + " " <= y
    requires Rewrite(u, rules, t, i) == x + rest && Rewrite(u, rules, t + d, i) == y + later
    requires IsHoldback(u, rules.pats, acc + Rewrite(u, rules, t, i), h)
    ensures var r := acc + Rewrite(u, rules, t, i);
            h <= |r| && r[..|r| - h] <= acc + Rewrite(u, rules, t + d, i)
  {
    FirstNameShown(u, rules.pats, t, d, e, acc, x, q, rest, h);
    ShownIsPrefix(acc, x, y, later, acc + (x + rest), h);
  }

  /** What the two texts emit from a first name on. */
  lemma FirstNameParts(u: Tables, rules: Rules, t: string, d: string, i: nat) returns (x: string, y: string, rest: string, later: string, e: nat, q: string)
    requires Lawful(u) && NoInnerWord(u, rules) && StartsClean(rules.pats) && Settled(u, rules.pats, t, d)
    requires i < |t| && Accepted(u, rules.pats, t, i)
    requires KeyLen(u, rules.pats, t, i) != KeyLen(u, rules.pats, t + d, i)
    ensures e <= |t| < e + 1 + |q| && q in rules.pats && MatchesAt(u, t + d, e + 1, q)
    ensures rest == if e == |t| then [] else " " + t[e + 1..]
    ensures (e < |t| ==> t[e] == ' ') && x + " " <= y
    ensures Rewrite(u, rules, t, i) == x + rest && Rewrite(u, rules, t + d, i) == y + later
  {
    hide Rewrite, MatchesAt;
    var n, n' := KeyLen(u, rules.pats, t, i), KeyLen(u, rules.pats, t + d, i);
    x, y, later := FullNameEmits(u, rules, t, d, i, n, n');
    q := FirstNameRest(u, rules, t, d, i, n, n');
    e := i + n;
    rest := Rewrite(u, rules, t, e);
  }

  /** A key that reaches past the end of t and begins with a key accepted in t. */
  lemma SafeAcrossFirstName(u: Tables, rules: Rules, t: string, d: string, i: nat, acc: string, h: nat)
    requires Lawful(u) && NoInnerWord(u, rules) && StartsClean(rules.pats) && Settled(u, rules.pats, t, d)
    requires i < |t| && Accepted(u, rules.pats, t, i)
    requires KeyLen(u, rules.pats, t, i) != KeyLen(u, rules.pats, t + d, i)
    requires IsHoldback(u, rules.pats, acc + Rewrite(u, rules, t, i), h)
    ensures var r := acc + Rewrite(u, rules, t, i);
            h <= |r| && r[..|r| - h] <= acc + Rewrite(u, rules, t + d, i)
  {
    hide Rewrite, MatchesAt;
    var x, y, rest, later, e, q := FirstNameParts(u, rules, t, d, i);
    FirstNameSafe(u, rules, t, d, i, acc, q, h, x, y, rest, later, e);
  }

  /** A key that reaches past the end of t while t accepts none at its start: t is left as it is
      from there on. */
  lemma CrossingKey(u: Tables, rules: Rules, t: string, d: string, i: nat) returns (p: string)
    requires Lawful(u) && NoInnerWord(u, rules) && Settled(u, rules.pats, t, d)
    requires i < |t| && !Accepted(u, rules.pats, t, i)
    requires KeyLen(u, rules.pats, t, i) != KeyLen(u, rules.pats, t + d, i)
    ensures p in rules.pats && i < |t| < i + |p| && |p| == KeyLen(u, rules.pats, t + d, i) && MatchesAt(u, t + d, i, p)
    ensures Rewrite(u, rules, t, i) == t[i..]
  {
    hide Rewrite, NoInnerWord, Settled, MatchesAt, KeyLen, Clear;
    KeyCrosses(u, rules.pats, t, d, i);
    KeyTaken(u, rules.pats, t + d, i);
    p := Fold(u, (t + d)[i..i + KeyLen(u, rules.pats, t + d, i)]);
    BeginningUnaccepted(u, rules, t, d, i, p);
  }

  lemma SafeAcross(u: Tables, rules: Rules, t: string, d: string, i: nat, acc: string, h: nat)
    requires Lawful(u) && Streamable(u, rules) && Settled(u, rules.pats, t, d)
    requires i < |t| && Anchored(u, t, i, acc) && !Accepted(u, rules.pats, t, i)
    requires KeyLen(u, rules.pats, t, i) != KeyLen(u, rules.pats, t + d, i)
    requires IsHoldback(u, rules.pats, acc + Rewrite(u, rules, t, i), h)
    ensures var r := acc + Rewrite(u, rules, t, i);
            h <= |r| && r[..|r| - h] <= acc + Rewrite(u, rules, t + d, i)
  {
    hide Rewrite, NoInnerWord, Settled, MatchesAt, KeyLen, Clear, Anchored, IsHoldback;
    var p := CrossingKey(u, rules, t, d, i);
    hide *;
    if LeftClear(u, t, i) {
      HeldBackAcross(u, rules, t, d, i, acc, p, h);
    } else {
      CopiedAcross(u, rules, t, d, i, acc, p, h);
    }
  }

  lemma HeldBackAcross(u: Tables, rules: Rules, t: string, d: string, i: nat, acc: string, p: string, h: nat)
    requires p in rules.pats && i < |t| < i + |p| && MatchesAt(u, t + d, i, p)
    requires LeftClear(u, t, i) && Anchored(u, t, i, acc)
    requires Rewrite(u, rules, t, i) == t[i..] && IsHoldback(u, rules.pats, acc + Rewrite(u, rules, t, i), h)
    ensures var r := acc + Rewrite(u, rules, t, i);
            h <= |r| && r[..|r| - h] <= acc + Rewrite(u, rules, t + d, i)
  {
    hide Rewrite, IsHoldback, MatchesAt, LeftClear, Anchored;
    HeldBack(u, rules.pats, t, d, i, acc, p, h);
    PrefixExtends((acc + t[i..])[..|acc + t[i..]| - h], acc, Rewrite(u, rules, t + d, i));
  }

  lemma CopiedAcross(u: Tables, rules: Rules, t: string, d: string, i: nat, acc: string, p: string, h: nat)
    requires i < |t| < i + |p| <= |t + d| && |p| == KeyLen(u, rules.pats, t + d, i) && !LeftClear(u, t, i)
    requires Rewrite(u, rules, t, i) == t[i..] && IsHoldback(u, rules.pats, acc + Rewrite(u, rules, t, i), h)
    ensures var r := acc + Rewrite(u, rules, t, i);
            h <= |r| && r[..|r| - h] <= acc + Rewrite(u, rules, t + d, i)
  {
    NotClearKept(u, rules.table, t, d, i, |p|);
    RewriteIs(u, rules, t + d, i, |p|);
    HoldbackFits(u, rules.pats, acc + Rewrite(u, rules, t, i), h);
    hide Rewrite, IsHoldback, KeyLen, Emit, LeftClear;
    PrefixExtends(t[i..], Emit(u, rules.table, t + d, i, |p|), Rewrite(u, rules, t + d, End(u, t + d, i, |p|)));
    PrefixAfter(acc, t[i..], Rewrite(u, rules, t + d, i));
  }

  lemma HoldbackFits(u: Tables, pats: seq<string>, buf: string, h: nat)
    requires IsHoldback(u, pats, buf, h)
    ensures h <= |buf|
  {
  }

  lemma NotClearKept(u: Tables, table: Mapping, t: string, d: string, i: nat, n: nat)
    requires i < |t| < i + n <= |t + d| && !LeftClear(u, t, i)
    ensures t[i..] <= Emit(u, table, t + d, i, n)
  {
    assert (t + d)[i - 1] == t[i - 1];
    assert Emit(u, table, t + d, i, n) == (t + d)[i..End(u, t + d, i, n)];
  }

  lemma RewriteStep(u: Tables, rules: Rules, text: string, i: nat, acc: string)
    requires i < |text|
    ensures acc + Rewrite(u, rules, text, i)
         == (acc + Out(u, rules, text, i)) + Rewrite(u, rules, text, Next(u, rules.pats, text, i))
  {
  }

  /** A step that touches the end of t. */
  lemma SafeAtEnd(u: Tables, rules: Rules, t: string, d: string, i: nat)
    requires Lawful(u) && WellFormed(rules) && StartsClean(rules.pats)
    requires i < |t| && KeyLen(u, rules.pats, t, i) == KeyLen(u, rules.pats, t + d, i) > 0
    requires TouchesEnd(u, t, i, KeyLen(u, rules.pats, t, i)) && Next(u, rules.pats, t + d, i) >= |t|
    requires Accepted(u, rules.pats, t, i) ==> Accepted(u, rules.pats, t + d, i)
    ensures Rewrite(u, rules, t, i) <= Rewrite(u, rules, t + d, i)
  {
    var n := KeyLen(u, rules.pats, t, i);
    EmitsValue(u, rules, t, i);
    EndKept(u, rules.table, t, d, i, n);
    AtEndIs(u, rules, t, i);
    RewriteIs(u, rules, t + d, i, n);
    hide *;
    PrefixExtends(Rewrite(u, rules, t, i), Emit(u, rules.table, t + d, i, n), Rewrite(u, rules, t + d, End(u, t + d, i, n)));
  }

  lemma AtEndIs(u: Tables, rules: Rules, t: string, i: nat)
    requires Lawful(u) && StartsClean(rules.pats) && i < |t| && TouchesEnd(u, t, i, KeyLen(u, rules.pats, t, i))
    ensures var n := KeyLen(u, rules.pats, t, i);
            Rewrite(u, rules, t, i) == Emit(u, rules.table, t, i, n) + t[End(u, t, i, n)..]
  {
    hide Emit, KeyLen, StartsClean, LawfulAt;
    var n := KeyLen(u, rules.pats, t, i);
    var end := End(u, t, i, n);
    RewriteIs(u, rules, t, i, n);
    if end < |t| {
      ApostropheKept(u, rules, t, end);
    }
  }

  lemma StaysAccepted(u: Tables, pats: seq<string>, t: string, d: string, i: nat)
    requires Settled(u, pats, t, d) && i < |t| && KeyLen(u, pats, t, i) == KeyLen(u, pats, t + d, i)
    requires TouchesEnd(u, t, i, KeyLen(u, pats, t, i))
    ensures Accepted(u, pats, t, i) ==> Accepted(u, pats, t + d, i)
  {
    hide KeyLen, Clear, TailLen;
    assert Accepted(u, pats, t, i) ==> SettledAt(u, pats, t, d, i);
  }

  /** A step both texts take. */
  lemma SafeStep(u: Tables, rules: Rules, t: string, d: string, i: nat, acc: string)
    requires WellFormed(rules)
    requires i < |t| && KeyLen(u, rules.pats, t, i) == KeyLen(u, rules.pats, t + d, i)
    requires var n := KeyLen(u, rules.pats, t, i);
             End(u, t, i, n) == End(u, t + d, i, n) && Clear(u, t, i, n) == Clear(u, t + d, i, n)
    ensures var n := KeyLen(u, rules.pats, t, i);
            var end, out := End(u, t, i, n), Emit(u, rules.table, t, i, n);
            && acc + Rewrite(u, rules, t, i) == (acc + out) + Rewrite(u, rules, t, end)
            && acc + Rewrite(u, rules, t + d, i) == (acc + out) + Rewrite(u, rules, t + d, end)
  {
    var n := KeyLen(u, rules.pats, t, i);
    SameEmit(u, rules.table, t, d, i, n);
    RewriteStep(u, rules, t, i, acc);
    RewriteStep(u, rules, t + d, i, acc);
  }

  /** Behind a step of t a match may start as before, or it glues. */
  lemma AnchoredStep(u: Tables, rules: Rules, t: string, i: nat, acc: string)
    requires WellFormed(rules) && i < |t|
    ensures var n := KeyLen(u, rules.pats, t, i);
            AnchoredOrGlued(u, rules, t, End(u, t, i, n), acc + Emit(u, rules.table, t, i, n))
  {
    var n := KeyLen(u, rules.pats, t, i);
    if n > 0 {
      EmitsValue(u, rules, t, i);
    }
    hide KeyLen, Emit, Clear, TailLen, IsWordContext, Anchored, WellFormed;
    if !Glues(u, rules.table, t, i, n) {
      StaysAnchored(u, rules.table, t, i, n, acc);
    }
  }

  lemma {:induction false} SafeFrom(u: Tables, rules: Rules, t: string, d: string, i: nat, acc: string, h: nat)
    requires Lawful(u) && Streamable(u, rules) && Settled(u, rules.pats, t, d) && Unglued(u, rules, t, d)
    requires i <= |t| && AnchoredOrGlued(u, rules, t, i, acc)
    requires IsHoldback(u, rules.pats, acc + Rewrite(u, rules, t, i), h)
    ensures var r := acc + Rewrite(u, rules, t, i);
            h <= |r| && r[..|r| - h] <= acc + Rewrite(u, rules, t + d, i)
    decreases |t| - i
  {
    hide Emit, IsHoldback, Anchored, NoInnerWord, Settled, GluedEnd, StartsClean, WellFormed, TailLen;
    var s := t + d;
    if i == |t| {
      HoldbackFits(u, rules.pats, acc + Rewrite(u, rules, t, i), h);
      assert acc + Rewrite(u, rules, t, i) == acc;
    } else if KeyLen(u, rules.pats, t, i) != KeyLen(u, rules.pats, s, i) {
      if Accepted(u, rules.pats, t, i) {
        SafeAcrossFirstName(u, rules, t, d, i, acc, h);
      } else {
        KeyCrosses(u, rules.pats, t, d, i);
        assert !GluedEnd(u, rules, t, i);
        SafeAcross(u, rules, t, d, i, acc, h);
      }
    } else {
      var n := KeyLen(u, rules.pats, t, i);
      StepChanges(u, t, d, i, n);
      if End(u, t, i, n) == End(u, s, i, n) && Clear(u, t, i, n) == Clear(u, s, i, n) {
        SafeStep(u, rules, t, d, i, acc);
        AnchoredStep(u, rules, t, i, acc);
        SafeFrom(u, rules, t, d, End(u, t, i, n), acc + Emit(u, rules.table, t, i, n), h);
      } else {
        StaysAccepted(u, rules.pats, t, d, i);
        SafeAtEnd(u, rules, t, d, i);
        HoldbackFits(u, rules.pats, acc + Rewrite(u, rules, t, i), h);
        PrefixAfter(acc, Rewrite(u, rules, t, i), Rewrite(u, rules, s, i));
      }
    }
  }

  /** Streaming safety: for a streamable reverse map, the rewriting of a sample minus its held-back
      characters is a prefix of the rewriting of every continuation that leaves a key the sample ends
      in accepted, and that completes no key directly behind a token whose name ends in a word. */
  lemma StreamingSafe(u: Tables, rules: Rules, t: string, d: string, h: nat)
    requires Lawful(u) && Streamable(u, rules) && Settled(u, rules.pats, t, d) && Unglued(u, rules, t, d)
    requires IsHoldback(u, rules.pats, Rewrite(u, rules, t, 0), h)
    ensures var r := Rewrite(u, rules, t, 0);
            h <= |r| && r[..|r| - h] <= Rewrite(u, rules, t + d, 0)
  {
    hide Rewrite, Streamable, Settled, Unglued, IsHoldback;
    assert [] + Rewrite(u, rules, t, 0) == Rewrite(u, rules, t, 0);
    assert [] + Rewrite(u, rules, t + d, 0) == Rewrite(u, rules, t + d, 0);
    SafeFrom(u, rules, t, d, 0, [], h);
  }
}
