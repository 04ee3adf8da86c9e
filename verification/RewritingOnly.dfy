/** The rewriting of a text is determined by the mapping alone. */
module RewritingOnly {
  import opened Unicode
  import opened Mappings
  import opened Rewriting
  import Scanner
  import Replacer

  /** Keys that stand at one place and have as many bytes have as many characters. */
  lemma SameLength(u: Tables, text: string, i: nat, k: string, l: string)
    requires KeyAt(u, text, i, k) && KeyAt(u, text, i, l) && WidthStable(u, k) && WidthStable(u, l) && ByteLen(k) == ByteLen(l)
    ensures |k| == |l|
  {
    Replacer.KeyStands(u, text, i, k);
    Replacer.KeyStands(u, text, i, l);
    hide KeyAt, ByteLen, WidthStable;
    if |k| < |l| {
      Scanner.MatchesComparable(u, text, i, Fold(u, k), Fold(u, l));
    } else {
      Scanner.MatchesComparable(u, text, i, Fold(u, l), Fold(u, k));
    }
    Replacer.MoreBytesFirst(u, k, l);
    Replacer.MoreBytesFirst(u, l, k);
  }

  lemma SameKey(u: Tables, text: string, i: nat, k: string, l: string)
    requires KeyAt(u, text, i, k) && KeyAt(u, text, i, l) && |k| == |l|
    ensures SameFold(u, k, l)
  {
    forall j | 0 <= j < |k|
      ensures Fold(u, k)[j] == Fold(u, l)[j]
    {
      assert u.Lower(text[i + j]) == u.Lower(k[j]) == u.Lower(l[j]);
    }
  }

  lemma SameCased(u: Tables, source: string, value: string, r: string, s: string)
    requires CasedAs(u, source, value, r) && CasedAs(u, source, value, s)
    ensures r == s
  {
    hide Shouted, Whispered;
  }

  lemma SameHeaviest(u: Tables, mapping: Mapping, text: string, i: nat, k: string, k': string)
    requires (forall l :: l in mapping ==> WidthStable(u, l)) && HeaviestAt(u, mapping, text, i, k) && HeaviestAt(u, mapping, text, i, k')
    ensures |k| == |k'|
  {
    hide KeyAt, ByteLen, WidthStable;
    SameLength(u, text, i, k, k');
  }

  lemma SameStep(u: Tables, mapping: Mapping, text: string, i: nat, k: string, l: string, t: nat, w: string, k': string, l': string, t': nat, w': string)
    requires FoldDistinct(u, mapping) && (forall x :: x in mapping ==> WidthStable(u, x))
    requires Becomes(u, mapping, text, i, k, l, t, w) && Becomes(u, mapping, text, i, k', l', t', w')
    ensures |k| == |k'| && t == t' && w == w'
  {
    hide *;
    StepParts(u, mapping, text, i, k, l, t, w);
    StepParts(u, mapping, text, i, k', l', t', w');
    SameHeaviest(u, mapping, text, i, k, k');
    SameKey(u, text, i, l, l');
    OneKey(u, mapping, l, l');
    SameTail(u, text, i + |k|, t, t');
    if FreeBefore(u, text, i) && FreeAt(u, text, i + |k| + t) {
      SameCased(u, text[i..i + |k|], mapping[l], w, w');
    }
  }

  lemma StepParts(u: Tables, mapping: Mapping, text: string, i: nat, k: string, l: string, t: nat, w: string)
    requires Becomes(u, mapping, text, i, k, l, t, w)
    ensures HeaviestAt(u, mapping, text, i, k) && l in mapping && |l| == |k| && KeyAt(u, text, i, l) && TailAt(u, text, i + |k|, t)
    ensures i + |k| <= |text|
    ensures if FreeBefore(u, text, i) && FreeAt(u, text, i + |k| + t) then CasedAs(u, text[i..i + |k|], mapping[l], w)
            else w == text[i..i + |k|]
  {
    hide CasedAs;
  }

  lemma SameTail(u: Tables, text: string, e: nat, t: nat, t': nat)
    requires TailAt(u, text, e, t) && TailAt(u, text, e, t')
    ensures t == t'
  {
  }

  lemma OneKey(u: Tables, mapping: Mapping, k: string, l: string)
    requires FoldDistinct(u, mapping) && k in mapping && l in mapping && SameFold(u, k, l)
    ensures k == l
  {
  }

  lemma KeyMoves(u: Tables, mapping: Mapping, text: string, i: nat, k: string, l: string, t: nat, w: string)
    requires Becomes(u, mapping, text, i, k, l, t, w)
    ensures k != []
  {
    hide CasedAs;
  }

  lemma KeptStep(u: Tables, mapping: Mapping, text: string, i: nat, out: string) returns (rest: string)
    requires i < |text| && NoneAt(u, mapping, text, i) && Rewritten(u, mapping, text, i, out)
    ensures out == [text[i]] + rest && Rewritten(u, mapping, text, i + 1, rest)
  {
    hide NoneAt;
    rest := out[1..];
  }

  lemma KeyStep(u: Tables, mapping: Mapping, text: string, i: nat, out: string) returns (k: string, l: string, t: nat, w: string, rest: string)
    requires i < |text| && !NoneAt(u, mapping, text, i) && Rewritten(u, mapping, text, i, out)
    ensures Becomes(u, mapping, text, i, k, l, t, w) && k != [] && i + |k| + t <= |text|
    ensures out == w + text[i + |k|..i + |k| + t] + rest && Rewritten(u, mapping, text, i + |k| + t, rest)
  {
    hide NoneAt, Becomes;
    k, l, t, w :| Becomes(u, mapping, text, i, k, l, t, w) && |w| + t <= |out| && i + |k| + t <= |text|
      && w + text[i + |k|..i + |k| + t] == out[..|w| + t] && Rewritten(u, mapping, text, i + |k| + t, out[|w| + t..]);
    rest := out[|w| + t..];
    KeyMoves(u, mapping, text, i, k, l, t, w);
    assert out == out[..|w| + t] + rest;
  }

  lemma AtEnd(u: Tables, mapping: Mapping, text: string, i: nat, out: string)
    requires i >= |text| && Rewritten(u, mapping, text, i, out)
    ensures out == []
  {
  }

  /** Two rewritings of one text are the same. */
  lemma {:induction false} OneRewriting(u: Tables, mapping: Mapping, text: string, i: nat, out: string, out': string)
    requires FoldDistinct(u, mapping) && (forall k :: k in mapping ==> WidthStable(u, k))
    requires Rewritten(u, mapping, text, i, out) && Rewritten(u, mapping, text, i, out')
    ensures out == out'
    decreases |text| - i
  {
    hide *;
    if i >= |text| {
      AtEnd(u, mapping, text, i, out);
      AtEnd(u, mapping, text, i, out');
    } else if NoneAt(u, mapping, text, i) {
      var rest := KeptStep(u, mapping, text, i, out);
      var rest' := KeptStep(u, mapping, text, i, out');
      OneRewriting(u, mapping, text, i + 1, rest, rest');
    } else {
      var k, l, t, w, rest := KeyStep(u, mapping, text, i, out);
      var k', l', t', w', rest' := KeyStep(u, mapping, text, i, out');
      SameStep(u, mapping, text, i, k, l, t, w, k', l', t', w');
      OneRewriting(u, mapping, text, i + |k| + t, rest, rest');
    }
  }
}
