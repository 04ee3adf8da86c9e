/** Lower-case words and spaces under the ASCII tables, for concrete examples. */
module PlainText {
  import opened Unicode
  import opened Scanner
  import opened Streaming

  predicate IsPlain(c: char) { IsAsciiLower(c) || c == ' ' }

  predicate Plain(s: string) {
    forall i :: 0 <= i < |s| ==> IsPlain(s[i])
  }

  lemma PlainChar(c: char)
    requires IsPlain(c)
    ensures ASCII.Lower(c) == c
    ensures c == ' ' <==> !IsWordRune(ASCII, c) && !IsWordContext(ASCII, c)
    ensures IsAsciiLower(c) <==> ASCII.IsLetter(c) && ASCII.IsLower(c) && !ASCII.IsUpper(c)
  {
  }

  lemma PlainFold(s: string)
    requires Plain(s)
    ensures Fold(ASCII, s) == s
  {
    forall i | 0 <= i < |s|
      ensures ASCII.Lower(s[i]) == s[i]
    {
      PlainChar(s[i]);
    }
  }

  lemma PlainStable(s: string)
    requires Plain(s)
    ensures CaseStable(ASCII, s)
  {
    forall i | 0 <= i < |s|
      ensures ASCII.Lower(ASCII.Upper(s[i])) == ASCII.Lower(s[i]) && IsWordContext(ASCII, ASCII.Upper(s[i])) == IsWordContext(ASCII, s[i])
    {
      PlainChar(s[i]);
    }
  }

  /** In lower-case text a value stays lower-case. */
  lemma {:induction false} PlainFlags(s: string, n: nat)
    requires n <= |s| && Plain(s)
    ensures FlagsOf(ASCII, s, n).allLower
    ensures FlagsOf(ASCII, s, n).hasLetter ==> !FlagsOf(ASCII, s, n).allUpper
  {
    if n > 0 {
      PlainChar(s[n - 1]);
      PlainFlags(s, n - 1);
    }
  }

  lemma PlainMatchCase(source: string, value: string)
    requires Plain(source)
    requires Plain(value)
    ensures MatchCase(ASCII, source, value) == value
  {
    PlainFlags(source, |source|);
    PlainFold(value);
  }

  lemma PlainMatches(text: string, i: nat, p: string)
    requires i + |p| <= |text| && Plain(text)
    ensures MatchesAt(ASCII, text, i, p) <==> text[i..i + |p|] == p
  {
    PlainFold(text[i..i + |p|]);
  }

  lemma PlainReplaced(rules: Rules, text: string, i: nat, n: nat)
    requires i < |text| && 0 < n && i + n <= |text| && Plain(text)
    requires KeyLen(ASCII, rules.pats, text, i) == n && text[i..i + n] in rules.table
    requires Plain(rules.table[text[i..i + n]])
    requires (i == 0 || text[i - 1] == ' ') && (i + n == |text| || text[i + n] == ' ')
    ensures Rewrite(ASCII, rules, text, i) == rules.table[text[i..i + n]] + Rewrite(ASCII, rules, text, i + n)
  {
    var source, e := text[i..i + n], i + n;
    PlainFold(source);
    PlainMatchCase(source, rules.table[source]);
    assert text[e..e] == [];
    PlainChar(' ');
    assert TailLen(ASCII, text, e) == 0 && LeftClear(ASCII, text, i) && RightClear(ASCII, text, e);
    ClearEmit(ASCII, rules.table, text, i, n);
    hide MatchCase, KeyLen, Plain;
    assert Emit(ASCII, rules.table, text, i, n) == rules.table[source];
  }

  lemma NoKey(pats: seq<string>, text: string, i: nat)
    requires Plain(text) && i <= |text|
    requires forall p :: p in pats ==> p == [] || i + |p| > |text| || text[i..i + |p|] != p
    ensures KeyLen(ASCII, pats, text, i) == 0
  {
    hide KeyLen, Fold, Plain;
    if KeyLen(ASCII, pats, text, i) > 0 {
      KeyTaken(ASCII, pats, text, i);
      PlainSlice(text, i, i + KeyLen(ASCII, pats, text, i));
    }
  }

  lemma PlainSlice(text: string, i: nat, e: nat)
    requires Plain(text) && i <= e <= |text|
    ensures Fold(ASCII, text[i..e]) == text[i..e]
  {
    PlainFold(text[i..e]);
  }
}
