/** What pseudonyms look like, and how one can overlap another. */
module Shapes {
  import opened Unicode
  import opened Reversal
  import opened RoundTripPairs

  predicate AllLetters(u: Tables, f: string) {
    forall i :: 0 <= i < |f| ==> u.IsLetter(f[i])
  }

  predicate AllWordRunes(u: Tables, f: string) {
    forall i :: 0 <= i < |f| ==> IsWordRune(u, f[i])
  }

  predicate AllAsciiDigits(f: string) {
    forall i :: 0 <= i < |f| ==> IsAsciiDigit(f[i])
  }

  /** One word of letters: a name, or a part of one. */
  predicate IsPure(u: Tables, f: string) {
    f != [] && AllLetters(u, f)
  }

  /** Two of them with a space between. */
  predicate IsDouble(u: Tables, f: string, n: nat) {
    0 < n && n + 1 < |f| && f[n] == ' ' && AllLetters(u, f[..n]) && AllLetters(u, f[n + 1..])
  }

  /** A word that starts with a letter, a hyphen and a number. */
  predicate IsHyphened(u: Tables, f: string, n: nat) {
    0 < n && n + 1 < |f| && f[n] == '-' && u.IsLetter(f[0]) && AllWordRunes(u, f[..n]) && AllAsciiDigits(f[n + 1..])
  }

  /** A word that is more than letters, in angle brackets. */
  predicate IsBracketed(u: Tables, f: string) {
    |f| > 2 && f[0] == '<' && f[|f| - 1] == '>' && AllWordRunes(u, f[1..|f| - 1]) && !AllLetters(u, f[1..|f| - 1])
  }

  ghost predicate Shaped(u: Tables, f: string) {
    IsPure(u, f) || IsBracketed(u, f) || (exists n: nat :: IsDouble(u, f, n)) || (exists n: nat :: IsHyphened(u, f, n))
  }

  lemma LetterChar(u: Tables, c: char)
    requires Lawful(u) && u.IsLetter(c)
    ensures IsWordRune(u, c) && IsWordContext(u, c) && c != ' ' && c != '-' && c != '<' && c != '>' && c != '_' && !IsAsciiDigit(c)
    ensures c != APOSTROPHE && c != CURLY
  {
    assert LawfulAt(u, c);
  }

  lemma WordChar(u: Tables, c: char)
    requires Lawful(u) && IsWordRune(u, c)
    ensures IsWordContext(u, c) && c != ' ' && c != '-' && c != '<' && c != '>'
  {
    assert LawfulAt(u, c);
  }

  lemma MarkChar(u: Tables, c: char)
    requires Lawful(u)
    ensures c == ' ' || c == '-' || c == '<' || c == '>' ==> !IsWordRune(u, c) && !IsWordContext(u, c)
    ensures IsAsciiDigit(c) ==> IsWordRune(u, c)
  {
    assert LawfulAt(u, c);
  }

  /** The characters of a shaped string, and its first. */
  lemma ShapeStart(u: Tables, f: string)
    requires Lawful(u) && Shaped(u, f)
    ensures f != [] && !IsAsciiDigit(f[0]) && f[0] != ' ' && f[0] != APOSTROPHE && f[0] != CURLY && f[0] != '>'
    ensures f[0] == '<' || IsWordRune(u, f[0])
    ensures f[0] == '<' ==> IsBracketed(u, f)
  {
    if n: nat :| IsDouble(u, f, n) {
      assert f[..n][0] == f[0];
    }
    if u.IsLetter(f[0]) {
      LetterChar(u, f[0]);
    }
  }

  lemma PureChar(u: Tables, f: string, i: nat)
    requires Lawful(u) && IsPure(u, f) && i < |f|
    ensures IsWordRune(u, f[i]) && IsWordContext(u, f[i])
  {
    LetterChar(u, f[i]);
  }

  /** Nothing overlaps a single word. */
  lemma PureAlone(u: Tables, g: string, v: string, j: nat)
    requires Lawful(u) && IsPure(u, g)
    ensures !Overlaps(u, g, j, v)
  {
    if 0 < j <= |g| {
      PureChar(u, g, j - 1);
    }
    if j + |v| < |g| {
      PureChar(u, g, j + |v|);
    }
  }

  lemma DoubleChar(u: Tables, f: string, n: nat, i: nat)
    requires Lawful(u) && IsDouble(u, f, n) && i < |f|
    ensures if i == n then !IsWordRune(u, f[i]) && !IsWordContext(u, f[i]) else IsWordRune(u, f[i]) && IsWordContext(u, f[i]) && u.IsLetter(f[i])
  {
    MarkChar(u, f[i]);
    if i < n {
      assert f[..n][i] == f[i];
      LetterChar(u, f[i]);
    } else if i > n {
      assert f[n + 1..][i - n - 1] == f[i];
      LetterChar(u, f[i]);
    }
  }

  /** What overlaps two words is the first, or begins with the second. */
  lemma OverDouble(u: Tables, g: string, n: nat, v: string, j: nat)
    requires Lawful(u) && IsDouble(u, g, n) && Overlaps(u, g, j, v) && v != []
    ensures if j == 0 then |v| == n else j == n + 1 && g[n + 1..] <= v
  {
    hide IsWordRune, IsWordContext, AllLetters;
    if 0 < j <= |g| {
      DoubleChar(u, g, n, j - 1);
    }
    if j + |v| < |g| {
      DoubleChar(u, g, n, j + |v|);
    }
  }

  lemma DoubleIsFull(u: Tables, g: string, n: nat)
    requires Lawful(u) && IsDouble(u, g, n)
    ensures IsFull(g, n)
  {
    hide IsWordRune, IsWordContext, AllLetters;
    MarkChar(u, ' ');
    var l := g[n + 1..];
    if ' ' in l {
      var i :| 0 <= i < |l| && l[i] == ' ';
      DoubleChar(u, g, n, n + 1 + i);
    }
  }

  lemma HyphenedChar(u: Tables, f: string, n: nat, i: nat)
    requires Lawful(u) && IsHyphened(u, f, n) && i < |f|
    ensures if i == n then !IsWordRune(u, f[i]) && !IsWordContext(u, f[i]) else IsWordRune(u, f[i]) && IsWordContext(u, f[i])
    ensures i > n ==> IsAsciiDigit(f[i])
  {
    MarkChar(u, f[i]);
    if i < n {
      assert f[..n][i] == f[i];
      WordChar(u, f[i]);
    } else if i > n {
      assert f[n + 1..][i - n - 1] == f[i];
      WordChar(u, f[i]);
    }
  }

  /** What overlaps a word and a number is the word. */
  lemma OverHyphened(u: Tables, g: string, n: nat, v: string, j: nat)
    requires Lawful(u) && IsHyphened(u, g, n) && Overlaps(u, g, j, v) && Shaped(u, v)
    ensures j == 0 && v == g[..n]
  {
    ShapeStart(u, v);
    hide IsWordRune, IsWordContext, AllWordRunes, AllAsciiDigits, Shaped;
    if 0 < j <= |g| {
      HyphenedChar(u, g, n, j - 1);
    }
    if j + |v| < |g| {
      HyphenedChar(u, g, n, j + |v|);
    }
    if j == n + 1 && j < |g| {
      HyphenedChar(u, g, n, j);
    }
    RestStarts(g, j);
  }

  lemma RestStarts(g: string, j: nat)
    ensures j < |g| ==> g[j..][0] == g[j]
  {
  }

  lemma BracketedChar(u: Tables, f: string, i: nat)
    requires Lawful(u) && IsBracketed(u, f) && 0 < i < |f| - 1
    ensures IsWordRune(u, f[i]) && IsWordContext(u, f[i]) && f[i] != '>' && f[i] != '<'
  {
    assert f[1..|f| - 1][i - 1] == f[i];
    WordChar(u, f[i]);
  }

  /** Nothing overlaps a token. */
  lemma BracketedAlone(u: Tables, g: string, v: string, j: nat)
    requires Lawful(u) && IsBracketed(u, g) && Shaped(u, v)
    ensures !Overlaps(u, g, j, v)
  {
    ShapeStart(u, v);
    if Overlaps(u, g, j, v) {
      OverBracket(u, g, v, j);
      InBracket(u, g, v);
    }
  }

  lemma OverBracket(u: Tables, g: string, v: string, j: nat)
    requires Lawful(u) && IsBracketed(u, g) && Overlaps(u, g, j, v) && v != [] && (v[0] == '<' ==> IsBracketed(u, v))
    ensures j == 1 && (g[1..] <= v || v == g[1..|g| - 1])
  {
    hide IsWordRune, IsWordContext, AllWordRunes, AllLetters;
    if 1 < j < |g| {
      BracketedChar(u, g, j - 1);
    }
    if j + |v| < |g| - 1 {
      BracketedChar(u, g, j + |v|);
    }
    if j == 0 {
      assert g[0..|v|][0] == g[0];
      assert g[0..|v|][|v| - 1] == g[|v| - 1];
      if |v| > 1 {
        BracketedChar(u, g, |v| - 1);
      }
    }
  }

  /** Only a token holds an angle bracket. */
  lemma NoBracket(u: Tables, v: string, k: nat)
    requires Lawful(u) && Shaped(u, v) && !IsBracketed(u, v) && k < |v|
    ensures v[k] != '>'
  {
    hide IsWordRune, IsWordContext, AllWordRunes, AllLetters, AllAsciiDigits, IsBracketed;
    MarkChar(u, '>');
    if IsPure(u, v) {
      PureChar(u, v, k);
    } else if n: nat :| IsDouble(u, v, n) {
      DoubleChar(u, v, n, k);
    } else {
      var n: nat :| IsHyphened(u, v, n);
      HyphenedChar(u, v, n, k);
    }
  }

  /** A shaped string of word characters only is one word of letters. */
  lemma OnlyWord(u: Tables, v: string)
    requires Lawful(u) && Shaped(u, v) && AllWordRunes(u, v)
    ensures IsPure(u, v)
  {
    hide IsWordRune, IsWordContext, AllLetters, AllAsciiDigits;
    MarkChar(u, v[0]);
    if n: nat :| IsDouble(u, v, n) {
      MarkChar(u, v[n]);
    }
    if n: nat :| IsHyphened(u, v, n) {
      MarkChar(u, v[n]);
    }
  }

  /** What stands behind a token's bracket is no pseudonym. */
  lemma InBracket(u: Tables, g: string, v: string)
    requires Lawful(u) && IsBracketed(u, g) && Shaped(u, v)
    ensures !(g[1..] <= v) && v != g[1..|g| - 1]
  {
    ShapeStart(u, v);
    BracketedChar(u, g, 1);
    hide IsWordRune, IsWordContext, AllWordRunes, AllLetters, Shaped;
    if v == g[1..|g| - 1] {
      OnlyWord(u, v);
    }
    if g[1..] <= v {
      assert v[0] == g[1..][0] == g[1] && v[|g| - 2] == g[1..][|g| - 2] == '>';
      NoBracket(u, v, |g| - 2);
    }
  }

  // ---- Which values decompose ----

  /** No value begins with the second of two words but that word itself. */
  ghost predicate LastsApart(u: Tables, pats: seq<string>) {
    forall g, n: nat, v {:trigger IsDouble(u, g, n), v in pats} :: g in pats && v in pats && IsDouble(u, g, n) && g[n + 1..] <= v ==> v == g[n + 1..]
  }

  /** No value is the word before the number of another. */
  ghost predicate HeadsApart(u: Tables, pats: seq<string>) {
    forall g, n: nat {:trigger IsHyphened(u, g, n)} :: g in pats && IsHyphened(u, g, n) ==> g[..n] !in pats
  }

  lemma DecomposedAt(u: Tables, pats: seq<string>, g: string, v: string, j: nat)
    requires Lawful(u) && LastsApart(u, pats) && HeadsApart(u, pats) && g in pats && v in pats && Shaped(u, g) && Shaped(u, v)
    requires Overlaps(u, g, j, v)
    ensures j <= |g| && if j == 0 then IsFull(g, |v|) else IsFull(g, j - 1) && v == g[j..]
  {
    ShapeStart(u, v);
    hide Overlaps, IsDouble, IsHyphened, IsBracketed, IsPure, IsFull;
    if IsPure(u, g) {
      PureAlone(u, g, v, j);
    } else if IsBracketed(u, g) {
      BracketedAlone(u, g, v, j);
    } else if n: nat :| IsDouble(u, g, n) {
      DoubleIsFull(u, g, n);
      OverDouble(u, g, n, v, j);
      DoubleRoom(u, g, n);
    } else {
      var n: nat :| IsHyphened(u, g, n);
      OverHyphened(u, g, n, v, j);
    }
  }

  lemma DoubleRoom(u: Tables, g: string, n: nat)
    requires IsDouble(u, g, n)
    ensures n + 1 < |g|
  {
  }

  /** Shaped values decompose, if last names and the words before numbers are apart. */
  lemma ShapedDecomposed(u: Tables, pats: seq<string>)
    requires Lawful(u) && LastsApart(u, pats) && HeadsApart(u, pats) && forall g :: g in pats ==> Shaped(u, g)
    ensures Decomposed(u, pats)
  {
    hide Overlaps, IsFull, LastsApart, HeadsApart, Shaped;
    forall g, v, j: nat | g in pats && v in pats && Overlaps(u, g, j, v)
      ensures if j == 0 then IsFull(g, |v|) else j <= |g| && IsFull(g, j - 1) && v == g[j..]
    {
      DecomposedAt(u, pats, g, v, j);
    }
  }
}
