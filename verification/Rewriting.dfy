/** What Replace makes of a text, character by character: the reference the scanner, the casing rule and
    the loops are compared with. */
module Rewriting {
  import opened Unicode
  import opened Tokens
  import opened Mappings

  // ---- Casing ----

  /** s holds a letter, and every letter of it is upper case. */
  ghost predicate Shouted(u: Tables, s: string) {
    && (exists i :: 0 <= i < |s| && u.IsLetter(s[i]))
    && forall i :: 0 <= i < |s| && u.IsLetter(s[i]) ==> u.IsUpper(s[i])
  }

  /** s holds a letter, and every letter of it is lower case. */
  ghost predicate Whispered(u: Tables, s: string) {
    && (exists i :: 0 <= i < |s| && u.IsLetter(s[i]))
    && forall i :: 0 <= i < |s| && u.IsLetter(s[i]) ==> u.IsLower(s[i])
  }

  /** r is the value in the casing of the source; tokens are exact stand-ins. */
  ghost predicate CasedAs(u: Tables, source: string, value: string, r: string) {
    if IsToken(source) || IsToken(value) then r == value
    else if Shouted(u, source) then |r| == |value| && forall i :: 0 <= i < |r| ==> r[i] == u.Upper(value[i])
    else if Whispered(u, source) then |r| == |value| && forall i :: 0 <= i < |r| ==> r[i] == u.Lower(value[i])
    else r == value
  }

  // ---- Where a key stands ----

  /** k stands at i, whatever the casing. */
  ghost predicate KeyAt(u: Tables, text: string, i: nat, k: string) {
    k != [] && i + |k| <= |text| && forall j :: 0 <= j < |k| ==> u.Lower(text[i + j]) == u.Lower(k[j])
  }

  /** No key stands at i. */
  ghost predicate NoneAt(u: Tables, mapping: Mapping, text: string, i: nat) {
    forall k :: k in mapping ==> !KeyAt(u, text, i, k)
  }

  /** k stands at i, and no key of more bytes does. */
  ghost predicate HeaviestAt(u: Tables, mapping: Mapping, text: string, i: nat, k: string) {
    && k in mapping && KeyAt(u, text, i, k)
    && forall l :: l in mapping && KeyAt(u, text, i, l) ==> ByteLen(l) <= ByteLen(k)
  }

  /** Before i stands no letter, digit, underscore or apostrophe. */
  predicate FreeBefore(u: Tables, text: string, i: nat)
    requires i <= |text|
  {
    i == 0 ||
    var c := text[i - 1];
    !u.IsLetter(c) && !u.IsDigit(c) && c != '_' && c != '\'' && c != '\U{2019}'
  }

  /** At e stands no letter, digit or underscore. */
  predicate FreeAt(u: Tables, text: string, e: nat) {
    e >= |text| || (!u.IsLetter(text[e]) && !u.IsDigit(text[e]) && text[e] != '_')
  }

  /** The possessive at e: an apostrophe of either kind and an s, or a straight apostrophe. */
  predicate TailAt(u: Tables, text: string, e: nat, t: nat) {
    if e + 1 < |text| && (text[e] == '\'' || text[e] == '\U{2019}') && u.Lower(text[e + 1]) == 's' then t == 2
    else if e < |text| && text[e] == '\'' then t == 1
    else t == 0
  }

  // ---- The text ----

  /** The key k taken at i, with a tail of t characters, becomes w: the value of l, which reads like k,
      in the casing of the source, if the match has both boundaries; else it stays. */
  ghost predicate Becomes(u: Tables, mapping: Mapping, text: string, i: nat, k: string, l: string, t: nat, w: string) {
    && HeaviestAt(u, mapping, text, i, k) && l in mapping && |l| == |k| && KeyAt(u, text, i, l) && TailAt(u, text, i + |k|, t)
    && if FreeBefore(u, text, i) && FreeAt(u, text, i + |k| + t) then CasedAs(u, text[i..i + |k|], mapping[l], w)
       else w == text[i..i + |k|]
  }

  /** out is what text[i..] becomes: a character where no key stands is kept; where keys stand the one
      of most bytes is taken, its tail is kept, and the text goes on behind it. */
  ghost predicate Rewritten(u: Tables, mapping: Mapping, text: string, i: nat, out: string)
    decreases |text| - i
  {
    if i >= |text| then out == []
    else if NoneAt(u, mapping, text, i) then out != [] && out[0] == text[i] && Rewritten(u, mapping, text, i + 1, out[1..])
    else exists k, l, t: nat, w {:trigger Becomes(u, mapping, text, i, k, l, t, w)} ::
      && Becomes(u, mapping, text, i, k, l, t, w) && |w| + t <= |out| && i + |k| + t <= |text|
      && w + text[i + |k|..i + |k| + t] == out[..|w| + t] && Rewritten(u, mapping, text, i + |k| + t, out[|w| + t..])
  }
}
