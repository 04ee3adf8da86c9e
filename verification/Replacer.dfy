/** Replacer.Replace: compile a mapping to scanner rules, then rewrite the text. */
module Replacer {
  import opened Unicode
  import opened Ordering
  import opened Mappings
  import opened Tokens
  import opened Scanner
  import Rewriting

  function NonEmptyKeys(mapping: Mapping): set<string> {
    set k | k in mapping && k != []
  }

  function FoldAll(u: Tables, keys: seq<string>): (r: seq<string>)
    ensures |r| == |keys|
    ensures forall i :: 0 <= i < |keys| ==> r[i] == Fold(u, keys[i])
  {
    seq(|keys|, i requires 0 <= i < |keys| => Fold(u, keys[i]))
  }

  /** The lookup table: every key lower-cased.  Of two keys that differ only in case the
      table holds one's value; which one is not determined (map iteration order). */
  ghost predicate LoweredTable(u: Tables, mapping: Mapping, table: Mapping) {
    && (forall k :: k in mapping ==> Fold(u, k) in table)
    && (forall f :: f in table ==> exists k :: k in mapping && Fold(u, k) == f && table[f] == mapping[k])
  }

  ghost predicate RulesOf(u: Tables, mapping: Mapping, rules: Rules) {
    && (exists keys :: SortedElements(keys, NonEmptyKeys(mapping)) && rules.pats == FoldAll(u, keys))
    && LoweredTable(u, mapping, rules.table)
  }

  /** Compiled rules never miss a lookup. */
  lemma RulesWellFormed(u: Tables, mapping: Mapping, rules: Rules)
    requires RulesOf(u, mapping, rules)
    ensures WellFormed(rules)
  {
    var keys :| SortedElements(keys, NonEmptyKeys(mapping)) && rules.pats == FoldAll(u, keys);
    forall p | p in rules.pats
      ensures p != [] && p in rules.table
    {
      var i :| 0 <= i < |keys| && FoldAll(u, keys)[i] == p;
      assert keys[i] in keys;
    }
  }

  /** If no two keys differ in case only, the rules are determined by the mapping. */
  lemma RulesUnique(u: Tables, mapping: Mapping, r: Rules, s: Rules)
    requires FoldDistinct(u, mapping)
    requires RulesOf(u, mapping, r) && RulesOf(u, mapping, s)
    ensures r == s
  {
    var rk :| SortedElements(rk, NonEmptyKeys(mapping)) && r.pats == FoldAll(u, rk);
    var sk :| SortedElements(sk, NonEmptyKeys(mapping)) && s.pats == FoldAll(u, sk);
    SortedUnique(rk, sk, NonEmptyKeys(mapping));
    hide FoldDistinct, LoweredTable;
    TableWithin(u, mapping, r.table, s.table);
    TableWithin(u, mapping, s.table, r.table);
    assert r.table == s.table;
  }

  lemma TableWithin(u: Tables, mapping: Mapping, a: Mapping, b: Mapping)
    requires FoldDistinct(u, mapping) && LoweredTable(u, mapping, a) && LoweredTable(u, mapping, b)
    ensures Extends(a, b)
  {
    forall f | f in a
      ensures f in b && b[f] == a[f]
    {
      var k :| k in mapping && Fold(u, k) == f && a[f] == mapping[k];
      var l :| l in mapping && Fold(u, l) == f && b[f] == mapping[l];
      assert SameFold(u, k, l);
    }
  }

  /** Keys whose characters keep their UTF-8 width under lower-casing are tried longest first:
      no alternative hides a longer one that begins with it. */
  lemma SortedLongestFirst(u: Tables, mapping: Mapping, rules: Rules)
    requires RulesOf(u, mapping, rules)
    requires forall k :: k in mapping ==> WidthStable(u, k)
    ensures LongestFirst(rules.pats)
  {
    var keys :| SortedElements(keys, NonEmptyKeys(mapping)) && rules.pats == FoldAll(u, keys);
    forall a, b | 0 <= a < b < |keys|
      ensures !(|keys[a]| < |keys[b]| && Fold(u, keys[a]) == Fold(u, keys[b])[..|keys[a]|])
    {
      assert keys[a] in keys && keys[b] in keys;
      assert Precedes(keys[a], keys[b]);
      MoreBytesFirst(u, keys[a], keys[b]);
    }
  }

  /** A string with at least as many bytes is no proper prefix, case aside. */
  lemma MoreBytesFirst(u: Tables, a: string, b: string)
    requires WidthStable(u, a) && WidthStable(u, b) && ByteLen(a) >= ByteLen(b)
    ensures !(|a| < |b| && Fold(u, a) == Fold(u, b)[..|a|])
  {
    WidthStableByteLen(u, a);
    WidthStableByteLen(u, b);
    var f := Fold(u, b);
    if |a| < |b| && Fold(u, a) == f[..|a|] {
      assert f[..|f|] == f;
      ByteLenStrict(f, |a|, |f|);
    }
  }

  lemma KeyIsPattern(u: Tables, mapping: Mapping, rules: Rules, k: string)
    requires RulesOf(u, mapping, rules) && k in mapping && k != []
    ensures Fold(u, k) in rules.pats
  {
    var keys :| SortedElements(keys, NonEmptyKeys(mapping)) && rules.pats == FoldAll(u, keys);
    assert k in keys;
    var i :| 0 <= i < |keys| && keys[i] == k;
    assert FoldAll(u, keys)[i] == Fold(u, k);
  }

  /** What becomes of a match whose source is that of the key k. */
  ghost predicate Becomes(u: Tables, mapping: Mapping, rules: Rules, text: string, m: Match, k: string)
    requires m.start < m.keyEnd <= m.end <= |text|
  {
    var source := text[m.start..m.keyEnd];
    && k in mapping && Fold(u, k) == Fold(u, source)
    && Out(u, rules, text, m.start) ==
         if LeftClear(u, text, m.start) && RightClear(u, text, m.end) then MatchCase(u, source, mapping[k]) + text[m.keyEnd..m.end]
         else text[m.start..m.end]
  }

  /** With both boundaries clear a match becomes its key's value in the source's casing, its tail
      kept; otherwise it is kept whole. */
  lemma MatchOutcome(u: Tables, mapping: Mapping, rules: Rules, text: string, m: Match)
    requires RulesOf(u, mapping, rules) && m in Matches(u, rules.pats, text, 0)
    ensures m.start < m.keyEnd <= m.end <= |text|
    ensures exists k :: Becomes(u, mapping, rules, text, m, k)
  {
    MatchIsStep(u, rules.pats, text, m);
    OutcomeOf(u, mapping, rules, text, m);
  }

  /** Every match takes the longest key at its start. */
  lemma LongestKey(u: Tables, mapping: Mapping, rules: Rules, text: string, m: Match, k: string)
    requires RulesOf(u, mapping, rules) && forall l :: l in mapping ==> WidthStable(u, l)
    requires m in Matches(u, rules.pats, text, 0) && k in mapping && k != [] && MatchesAt(u, text, m.start, Fold(u, k))
    ensures |k| <= m.keyEnd - m.start
  {
    MatchIsStep(u, rules.pats, text, m);
    SortedLongestFirst(u, mapping, rules);
    KeyIsPattern(u, mapping, rules, k);
    hide RulesOf, LongestFirst, MatchesAt, WidthStable, KeyLen, Matches;
    LongestTaken(u, rules.pats, text, m.start, Fold(u, k));
  }

  lemma MatchIsStep(u: Tables, pats: seq<string>, text: string, m: Match)
    requires m in Matches(u, pats, text, 0)
    ensures IsStep(u, pats, text, m)
  {
    MatchesOrdered(u, pats, text, 0);
    hide IsStep, Matches;
  }

  lemma OutcomeOf(u: Tables, mapping: Mapping, rules: Rules, text: string, m: Match)
    requires RulesOf(u, mapping, rules) && IsStep(u, rules.pats, text, m)
    ensures exists k :: Becomes(u, mapping, rules, text, m, k)
  {
    hide RulesOf, KeyLen, MatchCase, LeftClear, RightClear, FoldTo, TailLen, Emit;
    var k := KeyOf(u, mapping, rules, text, m);
    hide Fold;
    EmitCases(u, rules.table, text, m.start, m.keyEnd - m.start);
    hide End;
    assert Becomes(u, mapping, rules, text, m, k);
  }

  lemma EmitCases(u: Tables, table: Mapping, text: string, i: nat, n: nat)
    requires i < |text| && 0 < n && i + n <= |text| && Fold(u, text[i..i + n]) in table
    ensures var source, end := text[i..i + n], End(u, text, i, n);
            Emit(u, table, text, i, n) ==
              if LeftClear(u, text, i) && RightClear(u, text, end) then MatchCase(u, source, table[Fold(u, source)]) + text[i + n..end]
              else text[i..end]
  {
    hide MatchCase, Fold, LeftClear, RightClear, End;
  }

  /** A key that reads like the source. */
  lemma KeyOf(u: Tables, mapping: Mapping, rules: Rules, text: string, m: Match) returns (k: string)
    requires RulesOf(u, mapping, rules) && IsStep(u, rules.pats, text, m)
    ensures var f := Fold(u, text[m.start..m.keyEnd]);
            f in rules.table && k in mapping && Fold(u, k) == f && rules.table[f] == mapping[k]
  {
    RulesWellFormed(u, mapping, rules);
    KeyTaken(u, rules.pats, text, m.start);
    hide KeyLen, MatchesAt, Fold, End;
    var f := Fold(u, text[m.start..m.keyEnd]);
    k :| k in mapping && Fold(u, k) == f && rules.table[f] == mapping[k];
  }

  /** Without alternatives nothing changes. */
  lemma {:induction false} NoPatterns(u: Tables, rules: Rules, text: string, i: nat)
    requires rules.pats == [] && i <= |text|
    ensures Rewrite(u, rules, text, i) == text[i..]
    decreases |text| - i
  {
    if i < |text| {
      NoPatterns(u, rules, text, i + 1);
    }
  }

  /** What one match contributes: the gap before it is copied, the scan goes on behind it. */
  ghost predicate GapThenMatch(u: Tables, rules: Rules, text: string, pos: nat, m: Match) {
    && pos <= m.start && IsStep(u, rules.pats, text, m)
    && Rewrite(u, rules, text, pos) == text[pos..m.start] + Out(u, rules, text, m.start) + Rewrite(u, rules, text, m.end)
  }

  lemma ConsGap(c: string, a: string, b: string, d: string)
    ensures c + (a + b + d) == c + a + b + d
  {
  }

  lemma GapGrows(u: Tables, rules: Rules, text: string, pos: nat, m: Match)
    requires pos < |text| && KeyLen(u, rules.pats, text, pos) == 0
    requires GapThenMatch(u, rules, text, pos + 1, m)
    ensures GapThenMatch(u, rules, text, pos, m)
  {
    assert Out(u, rules, text, pos) == text[pos..pos + 1];
    assert text[pos..m.start] == text[pos..pos + 1] + text[pos + 1..m.start];
    ConsGap(text[pos..pos + 1], text[pos + 1..m.start], Out(u, rules, text, m.start), Rewrite(u, rules, text, m.end));
  }

  lemma {:induction false} GapCopied(u: Tables, rules: Rules, text: string, pos: nat)
    requires pos <= |text|
    requires Matches(u, rules.pats, text, pos) != []
    ensures var ms := Matches(u, rules.pats, text, pos);
            GapThenMatch(u, rules, text, pos, ms[0]) && ms[1..] == Matches(u, rules.pats, text, ms[0].end)
    decreases |text| - pos
  {
    if KeyLen(u, rules.pats, text, pos) == 0 {
      GapCopied(u, rules, text, pos + 1);
      GapGrows(u, rules, text, pos, Matches(u, rules.pats, text, pos + 1)[0]);
    }
  }

  lemma {:induction false} LastGapCopied(u: Tables, rules: Rules, text: string, pos: nat)
    requires pos <= |text| && Matches(u, rules.pats, text, pos) == []
    ensures Rewrite(u, rules, text, pos) == text[pos..]
    decreases |text| - pos
  {
    if pos < |text| {
      LastGapCopied(u, rules, text, pos + 1);
    }
  }

  // ---- The rewriting, character by character ----

  lemma {:induction false} FlagsAre(u: Tables, s: string, n: nat)
    requires n <= |s|
    ensures var f := FlagsOf(u, s, n);
            && (f.hasLetter <==> exists i :: 0 <= i < n && u.IsLetter(s[i]))
            && (f.allUpper <==> forall i :: 0 <= i < n && u.IsLetter(s[i]) ==> u.IsUpper(s[i]))
            && (f.allLower <==> forall i :: 0 <= i < n && u.IsLetter(s[i]) ==> u.IsLower(s[i]))
  {
    if n > 0 {
      FlagsAre(u, s, n - 1);
    }
  }

  /** The casing rule: a source whose letters are all upper case, or all lower, hands its casing on. */
  lemma CasedByLetters(u: Tables, source: string, value: string)
    ensures Rewriting.CasedAs(u, source, value, MatchCase(u, source, value))
  {
    FlagsAre(u, source, |source|);
    hide FlagsOf, IsToken;
  }

  lemma KeyStands(u: Tables, text: string, i: nat, k: string)
    ensures Rewriting.KeyAt(u, text, i, k) <==> k != [] && MatchesAt(u, text, i, Fold(u, k))
  {
    if i + |k| <= |text| {
      var s := text[i..i + |k|];
      assert forall j :: 0 <= j < |k| ==> s[j] == text[i + j] && Fold(u, s)[j] == u.Lower(text[i + j]) && Fold(u, k)[j] == u.Lower(k[j]);
      assert Fold(u, s) == Fold(u, k) <==> forall j :: 0 <= j < |k| ==> Fold(u, s)[j] == Fold(u, k)[j];
    }
  }

  /** The alternative taken is the first that matches. */
  lemma {:induction false} FirstAlternative(u: Tables, pats: seq<string>, text: string, i: nat) returns (a: nat)
    requires KeyLen(u, pats, text, i) > 0
    ensures a < |pats| && pats[a] != [] && MatchesAt(u, text, i, pats[a]) && |pats[a]| == KeyLen(u, pats, text, i)
    ensures forall b :: 0 <= b < a ==> pats[b] == [] || !MatchesAt(u, text, i, pats[b])
  {
    if pats[0] != [] && MatchesAt(u, text, i, pats[0]) {
      a := 0;
    } else {
      var r := FirstAlternative(u, pats[1..], text, i);
      a := r + 1;
    }
  }

  /** It is the key of most bytes. */
  lemma TakesHeaviest(u: Tables, mapping: Mapping, rules: Rules, text: string, i: nat) returns (k: string)
    requires RulesOf(u, mapping, rules) && KeyLen(u, rules.pats, text, i) > 0
    ensures Rewriting.HeaviestAt(u, mapping, text, i, k) && |k| == KeyLen(u, rules.pats, text, i)
  {
    var keys :| SortedElements(keys, NonEmptyKeys(mapping)) && rules.pats == FoldAll(u, keys);
    hide *;
    var a := FirstAlternative(u, rules.pats, text, i);
    k := FirstIsHeaviest(u, mapping, keys, rules.pats, text, i, a);
  }

  lemma FirstIsHeaviest(u: Tables, mapping: Mapping, keys: seq<string>, pats: seq<string>, text: string, i: nat, a: nat) returns (k: string)
    requires SortedElements(keys, NonEmptyKeys(mapping)) && pats == FoldAll(u, keys) && a < |pats| && MatchesAt(u, text, i, pats[a])
    requires forall b :: 0 <= b < a ==> pats[b] == [] || !MatchesAt(u, text, i, pats[b])
    ensures Rewriting.HeaviestAt(u, mapping, text, i, k) && |k| == |pats[a]|
  {
    hide MatchesAt, Rewriting.KeyAt, ByteLen, LexLess;
    k := keys[a];
    assert k in keys;
    KeyStands(u, text, i, k);
    forall l | l in mapping && Rewriting.KeyAt(u, text, i, l)
      ensures ByteLen(l) <= ByteLen(k)
    {
      KeyStands(u, text, i, l);
      assert l in keys;
      var b :| 0 <= b < |keys| && keys[b] == l;
      assert pats[b] == Fold(u, l);
    }
  }

  /** Where no alternative matches no key stands. */
  lemma NoneStands(u: Tables, mapping: Mapping, rules: Rules, text: string, i: nat)
    requires RulesOf(u, mapping, rules)
    ensures KeyLen(u, rules.pats, text, i) == 0 <==> Rewriting.NoneAt(u, mapping, text, i)
  {
    hide KeyLen, MatchesAt, Rewriting.KeyAt, ByteLen, RulesOf;
    if KeyLen(u, rules.pats, text, i) > 0 {
      var k := TakesHeaviest(u, mapping, rules, text, i);
    } else {
      forall k | k in mapping
        ensures !Rewriting.KeyAt(u, text, i, k)
      {
        KeyStands(u, text, i, k);
        if k != [] && MatchesAt(u, text, i, Fold(u, k)) {
          KeyIsPattern(u, mapping, rules, k);
          KeyFound(u, rules.pats, text, i, Fold(u, k));
        }
      }
    }
  }

  lemma TailIs(u: Tables, text: string, e: nat)
    ensures Rewriting.TailAt(u, text, e, TailLen(u, text, e))
  {
  }

  lemma BoundariesAre(u: Tables, text: string, i: nat, e: nat)
    requires i <= |text|
    ensures LeftClear(u, text, i) <==> Rewriting.FreeBefore(u, text, i)
    ensures RightClear(u, text, e) <==> Rewriting.FreeAt(u, text, e)
  {
  }

  lemma SourceStands(u: Tables, text: string, i: nat, n: nat, l: string)
    requires n > 0 && i + n <= |text| && Fold(u, l) == Fold(u, text[i..i + n])
    ensures |l| == n && Rewriting.KeyAt(u, text, i, l)
  {
    KeyStands(u, text, i, l);
  }

  lemma ValueTaken(u: Tables, mapping: Mapping, rules: Rules, text: string, i: nat, n: nat) returns (l: string)
    requires RulesOf(u, mapping, rules) && n == KeyLen(u, rules.pats, text, i) && n > 0
    ensures i + n <= |text| && l in mapping && |l| == n && Rewriting.KeyAt(u, text, i, l)
    ensures var f := Fold(u, text[i..i + n]); f in rules.table && rules.table[f] == mapping[l]
  {
    hide *;
    RulesWellFormed(u, mapping, rules);
    KeyTaken(u, rules.pats, text, i);
    l := LookedUp(u, mapping, rules, Fold(u, text[i..i + n]));
    SourceStands(u, text, i, n, l);
  }

  lemma LookedUp(u: Tables, mapping: Mapping, rules: Rules, f: string) returns (l: string)
    requires RulesOf(u, mapping, rules) && WellFormed(rules) && f in rules.pats
    ensures f in rules.table && l in mapping && Fold(u, l) == f && rules.table[f] == mapping[l]
  {
    hide Fold;
    l :| l in mapping && Fold(u, l) == f && rules.table[f] == mapping[l];
  }

  lemma KeptWhole(text: string, i: nat, e: nat, end: nat)
    requires i <= e <= end <= |text|
    ensures text[i..end] == text[i..e] + text[e..end]
  {
  }

  /** What the match at i becomes, character by character. */
  lemma MatchBecomes(u: Tables, mapping: Mapping, rules: Rules, text: string, i: nat, n: nat) returns (k: string, l: string, w: string)
    requires RulesOf(u, mapping, rules) && i < |text| && n == KeyLen(u, rules.pats, text, i) && n > 0
    ensures |k| == n && i + n <= |text| && Rewriting.Becomes(u, mapping, text, i, k, l, TailLen(u, text, i + n), w)
    ensures Emit(u, rules.table, text, i, n) == w + text[i + n..End(u, text, i, n)]
  {
    hide *;
    k := TakesHeaviest(u, mapping, rules, text, i);
    l := ValueTaken(u, mapping, rules, text, i, n);
    var source := text[i..i + n];
    var end := EndOf(u, text, i, n);
    TailIs(u, text, i + n);
    BoundariesAre(u, text, i, end);
    EmitCases(u, rules.table, text, i, n);
    CasedByLetters(u, source, mapping[l]);
    KeptWhole(text, i, i + n, end);
    w := if LeftClear(u, text, i) && RightClear(u, text, end) then MatchCase(u, source, mapping[l]) else source;
    IsMatch(u, mapping, text, i, k, l, end - (i + n), w);
  }

  lemma EndOf(u: Tables, text: string, i: nat, n: nat) returns (end: nat)
    requires i < |text| && i + n <= |text| && n > 0
    ensures end == End(u, text, i, n) == i + n + TailLen(u, text, i + n) && i + n <= end <= |text|
  {
    end := End(u, text, i, n);
  }

  lemma IsMatch(u: Tables, mapping: Mapping, text: string, i: nat, k: string, l: string, t: nat, w: string)
    requires Rewriting.HeaviestAt(u, mapping, text, i, k) && l in mapping && |l| == |k| && Rewriting.KeyAt(u, text, i, l)
    requires i + |k| <= |text| && Rewriting.TailAt(u, text, i + |k|, t)
    requires if Rewriting.FreeBefore(u, text, i) && Rewriting.FreeAt(u, text, i + |k| + t) then Rewriting.CasedAs(u, text[i..i + |k|], mapping[l], w)
             else w == text[i..i + |k|]
    ensures Rewriting.Becomes(u, mapping, text, i, k, l, t, w)
  {
    hide Rewriting.CasedAs, Rewriting.KeyAt, Rewriting.FreeAt, Rewriting.FreeBefore, Rewriting.TailAt;
  }

  /** The scan rewrites the text as the keys, the boundaries and the letters say. */
  lemma {:induction false} ScanRewrites(u: Tables, mapping: Mapping, rules: Rules, text: string, i: nat)
    requires RulesOf(u, mapping, rules)
    ensures Rewriting.Rewritten(u, mapping, text, i, Rewrite(u, rules, text, i))
    decreases |text| - i
  {
    hide *;
    if i >= |text| {
      NothingToRewrite(u, mapping, rules, text, i);
    } else {
      var n := KeyLen(u, rules.pats, text, i);
      NoneStands(u, mapping, rules, text, i);
      if n == 0 {
        ScanRewrites(u, mapping, rules, text, i + 1);
        CopyStep(u, rules, text, i);
        CharKept(u, mapping, text, i, Rewrite(u, rules, text, i + 1));
      } else {
        var k, l, w := MatchBecomes(u, mapping, rules, text, i, n);
        var end := EndOf(u, text, i, n);
        ScanRewrites(u, mapping, rules, text, end);
        StepIs(u, rules, text, i, n);
        KeyReplaced(u, mapping, text, i, k, l, end - (i + n), w, Rewrite(u, rules, text, end));
      }
    }
  }

  lemma StepIs(u: Tables, rules: Rules, text: string, i: nat, n: nat)
    requires i < |text| && n == KeyLen(u, rules.pats, text, i)
    ensures Rewrite(u, rules, text, i) == Emit(u, rules.table, text, i, n) + Rewrite(u, rules, text, End(u, text, i, n))
  {
  }

  lemma NothingToRewrite(u: Tables, mapping: Mapping, rules: Rules, text: string, i: nat)
    requires i >= |text|
    ensures Rewriting.Rewritten(u, mapping, text, i, Rewrite(u, rules, text, i))
  {
  }

  lemma CharKept(u: Tables, mapping: Mapping, text: string, i: nat, rest: string)
    requires i < |text| && Rewriting.NoneAt(u, mapping, text, i) && Rewriting.Rewritten(u, mapping, text, i + 1, rest)
    ensures Rewriting.Rewritten(u, mapping, text, i, [text[i]] + rest)
  {
    hide Rewriting.NoneAt;
    var out := [text[i]] + rest;
    assert out[1..] == rest;
  }

  lemma KeyReplaced(u: Tables, mapping: Mapping, text: string, i: nat, k: string, l: string, t: nat, w: string, rest: string)
    requires i < |text| && !Rewriting.NoneAt(u, mapping, text, i) && Rewriting.Becomes(u, mapping, text, i, k, l, t, w)
    requires k != [] && i + |k| + t <= |text| && Rewriting.Rewritten(u, mapping, text, i + |k| + t, rest)
    ensures Rewriting.Rewritten(u, mapping, text, i, w + text[i + |k|..i + |k| + t] + rest)
  {
    hide Rewriting.NoneAt, Rewriting.Becomes;
    var tail := text[i + |k|..i + |k| + t];
    var out := w + tail + rest;
    assert out[..|w| + t] == w + tail && out[|w| + t..] == rest;
  }

  /** matchCase, with its three flags. */
  method ApplyCase(u: Tables, source: string, value: string) returns (r: string)
    ensures r == MatchCase(u, source, value) && Rewriting.CasedAs(u, source, value, r)
  {
    CasedByLetters(u, source, value);
    hide Rewriting.CasedAs;
    if IsToken(source) || IsToken(value) {
      return value;
    }
    var hasLetter, allUpper, allLower := false, true, true;
    for i := 0 to |source|
      invariant LetterFlags(hasLetter, allUpper, allLower) == FlagsOf(u, source, i)
    {
      if !u.IsLetter(source[i]) {
        continue;
      }
      hasLetter := true;
      if !u.IsUpper(source[i]) { allUpper := false; }
      if !u.IsLower(source[i]) { allLower := false; }
    }
    if !hasLetter {
      return value;
    }
    if allUpper {
      return Upper(u, value);
    } else if allLower {
      return Fold(u, value);
    }
    return value;
  }

  /** The lower-cased lookup table, filled in no particular order. */
  method LowerKeys(u: Tables, mapping: Mapping) returns (lowered: Mapping)
    ensures LoweredTable(u, mapping, lowered)
  {
    lowered := map[];
    var todo := mapping.Keys;
    while todo != {}
      invariant todo <= mapping.Keys
      invariant forall k :: k in mapping && k !in todo ==> Fold(u, k) in lowered
      invariant forall f :: f in lowered ==> exists k :: k in mapping && Fold(u, k) == f && lowered[f] == mapping[k]
      decreases |todo|
    {
      var k :| k in todo;
      lowered := lowered[Fold(u, k) := mapping[k]];
      todo := todo - {k};
    }
  }

  /** A compiled table never misses the key that was matched. */
  lemma EmitsValue(u: Tables, rules: Rules, text: string, i: nat)
    requires WellFormed(rules) && i < |text| && KeyLen(u, rules.pats, text, i) > 0
    ensures Fold(u, text[i..i + KeyLen(u, rules.pats, text, i)]) in rules.table
  {
    KeyTaken(u, rules.pats, text, i);
  }

  /** The loop's state: ms are the matches still to come, b is what was built up to pos. */
  ghost predicate Built(u: Tables, rules: Rules, text: string, ms: seq<Match>, b: string, pos: nat) {
    && pos <= |text|
    && ms == Matches(u, rules.pats, text, pos)
    && Rewrite(u, rules, text, 0) == b + Rewrite(u, rules, text, pos)
  }

  lemma BuiltGrows(u: Tables, rules: Rules, text: string, m: Match, rest: seq<Match>, b: string, pos: nat)
    requires WellFormed(rules) && Built(u, rules, text, [m] + rest, b, pos)
    ensures pos <= m.start < m.keyEnd <= |text| && m.end == End(u, text, m.start, m.keyEnd - m.start)
    ensures Fold(u, text[m.start..m.keyEnd]) in rules.table
    ensures Built(u, rules, text, rest, b + text[pos..m.start] + Emit(u, rules.table, text, m.start, m.keyEnd - m.start), m.end)
  {
    hide Rewrite, KeyLen, Emit, End;
    var ms := Matches(u, rules.pats, text, pos);
    assert ms[0] == m && ms[1..] == rest;
    GapCopied(u, rules, text, pos);
    EmitsValue(u, rules, text, m.start);
    ConsGap(b, text[pos..m.start], Out(u, rules, text, m.start), Rewrite(u, rules, text, m.end));
  }

  /** One turn of the loop: the gap before m and what m becomes are appended to the builder. */
  method EmitStep(u: Tables, table: Mapping, text: string, b: string, pos: nat, m: Match) returns (r: string)
    requires pos <= m.start < m.keyEnd <= |text| && m.end == End(u, text, m.start, m.keyEnd - m.start)
    requires Fold(u, text[m.start..m.keyEnd]) in table
    ensures r == b + text[pos..m.start] + Emit(u, table, text, m.start, m.keyEnd - m.start)
  {
    if !LeftClear(u, text, m.start) || !RightClear(u, text, m.end) {
      // The whole match, tail included, stays verbatim.
      assert text[pos..m.end] == text[pos..m.start] + text[m.start..m.end];
      return b + text[pos..m.end];
    }
    var source := text[m.start..m.keyEnd];
    var replacement := ApplyCase(u, source, table[Fold(u, source)]);
    r := b + text[pos..m.start];
    r := r + replacement;
    r := r + text[m.keyEnd..m.end];
  }

  /** One turn of the loop keeps its state. */
  method AppendMatch(u: Tables, rules: Rules, text: string, m: Match, ghost rest: seq<Match>, b: string, pos: nat) returns (r: string)
    requires WellFormed(rules) && Built(u, rules, text, [m] + rest, b, pos)
    ensures Built(u, rules, text, rest, r, m.end)
  {
    hide Emit, Built, End, Fold, Matches;
    BuiltGrows(u, rules, text, m, rest, b, pos);
    r := EmitStep(u, rules.table, text, b, pos, m);
  }

  /** The index-and-builder loop over all matches is the recursive scan. */
  method RewriteMatches(u: Tables, rules: Rules, text: string) returns (b: string)
    requires WellFormed(rules)
    ensures b == Rewrite(u, rules, text, 0)
  {
    var ms := Matches(u, rules.pats, text, 0);
    b := "";
    var pos: nat := 0;
    assert ms[0..] == ms;
    for i := 0 to |ms|
      invariant Built(u, rules, text, ms[i..], b, pos)
    {
      hide *;
      assert ms[i..] == [ms[i]] + ms[i + 1..];
      b := AppendMatch(u, rules, text, ms[i], ms[i + 1..], b, pos);
      pos := ms[i].end;
    }
    LastGapCopied(u, rules, text, pos);
    b := b + text[pos..];
  }

  /** Replace: `rules` are the rules it compiled, and the result is the scan's rewriting. */
  method Replace(u: Tables, text: string, mapping: Mapping) returns (r: string, ghost rules: Rules)
    ensures text == [] ==> r == []
    ensures text != [] ==> RulesOf(u, mapping, rules) && r == Rewrite(u, rules, text, 0)
    ensures Rewriting.Rewritten(u, mapping, text, 0, r)
  {
    hide Rewriting.KeyAt;
    if text == [] {
      return text, Rules([], map[]);
    }
    var keys := Sort(NonEmptyKeys(mapping));
    var lowered := LowerKeys(u, mapping);
    var compiled := Rules(FoldAll(u, keys), lowered);
    rules := compiled;
    ScanRewrites(u, mapping, rules, text, 0);
    hide Rewriting.Rewritten;
    if keys == [] {
      NoPatterns(u, rules, text, 0);
      return text, rules;
    }
    RulesWellFormed(u, mapping, rules);
    r := RewriteMatches(u, compiled, text);
  }
}
