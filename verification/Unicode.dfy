/** Code points, the Unicode tables the text package relies on, and UTF-8 widths.

    A string is a sequence of code points (Go's runes).  The tables are a parameter of the
    whole development: every theorem holds for every `Lawful` table, and the laws are ones
    the standard Unicode tables satisfy for every code point.  Upper-casing is not lawful for every
    code point (dotless i, final sigma), so what a theorem needs of it is a premise on the
    strings concerned, `CaseStable`. */
module Unicode {

  /** Simple case mappings and character classes; a character a mapping does not list is its
      own lower or upper case. */
  datatype Tables = Tables(
    lower: map<char, char>,
    upper: map<char, char>,
    letters: set<char>,
    digits: set<char>,
    uppers: set<char>,
    lowers: set<char>,
    spaces: set<char>)
  {
    function Lower(c: char): char { if c in lower then lower[c] else c }

    function Upper(c: char): char { if c in upper then upper[c] else c }

    predicate IsLetter(c: char) { c in letters }

    predicate IsDigit(c: char) { c in digits }

    predicate IsUpper(c: char) { c in uppers }

    predicate IsLower(c: char) { c in lowers }

    predicate IsSpace(c: char) { c in spaces }
  }

  const APOSTROPHE: char := '\''
  const CURLY: char := '\U{2019}'

  predicate IsAsciiUpper(c: char) { 'A' <= c <= 'Z' }

  predicate IsAsciiLower(c: char) { 'a' <= c <= 'z' }

  predicate IsAsciiDigit(c: char) { '0' <= c <= '9' }

  /** ASCII characters without case, and the typographic apostrophe. */
  predicate IsMark(c: char) {
    (c as int < 128 && !IsAsciiUpper(c) && !IsAsciiLower(c)) || c == CURLY
  }

  /** The laws, character by character. */
  predicate LawfulAt(u: Tables, c: char) {
    && u.Lower(u.Lower(c)) == u.Lower(c)
    && u.IsLetter(u.Lower(c)) == u.IsLetter(c)
    && u.IsDigit(u.Lower(c)) == u.IsDigit(c)
    && (IsMark(c) ==> u.Lower(c) == c && u.Upper(c) == c && !u.IsLetter(c) && (u.IsDigit(c) <==> IsAsciiDigit(c)))
    && (IsMark(u.Lower(c)) ==> u.Lower(c) == c)
    && (IsAsciiUpper(c) || IsAsciiLower(c) ==> u.IsLetter(c))
    && (IsAsciiUpper(c) ==> u.Lower(c) == (c as int + 32) as char)
    && (IsAsciiLower(c) ==> u.Lower(c) == c)
    && (u.IsSpace(c) ==> !u.IsLetter(c) && !u.IsDigit(c) && c != '_' && c != '<' && c != '>' && c != '-')
  }

  ghost predicate Lawful(u: Tables) {
    u.IsSpace(' ') && u.IsSpace('\n') && forall c: char :: LawfulAt(u, c)
  }

  /** `isWordContextRune` of the replacer: what may not stand before a match. */
  predicate IsWordContext(u: Tables, c: char) {
    c == '_' || c == APOSTROPHE || c == CURLY || u.IsLetter(c) || u.IsDigit(c)
  }

  /** What may not follow a match: an apostrophe may. */
  predicate IsWordRune(u: Tables, c: char) {
    c == '_' || u.IsLetter(c) || u.IsDigit(c)
  }

  /** strings.ToLower: character by character. */
  function Fold(u: Tables, s: string): (r: string)
    ensures |r| == |s|
    ensures forall i :: 0 <= i < |s| ==> r[i] == u.Lower(s[i])
  {
    FoldTo(u, s, |s|)
  }

  function FoldTo(u: Tables, s: string, n: nat): (r: string)
    requires n <= |s|
    ensures |r| == n
    ensures forall i :: 0 <= i < n ==> r[i] == u.Lower(s[i])
  {
    if n == 0 then [] else FoldTo(u, s, n - 1) + [u.Lower(s[n - 1])]
  }

  /** strings.ToUpper. */
  function Upper(u: Tables, s: string): (r: string)
    ensures |r| == |s|
    ensures forall i :: 0 <= i < |s| ==> r[i] == u.Upper(s[i])
  {
    UpperTo(u, s, |s|)
  }

  function UpperTo(u: Tables, s: string, n: nat): (r: string)
    requires n <= |s|
    ensures |r| == n
    ensures forall i :: 0 <= i < n ==> r[i] == u.Upper(s[i])
  {
    if n == 0 then [] else UpperTo(u, s, n - 1) + [u.Upper(s[n - 1])]
  }

  /** Upper-casing `s` changes nothing but case. */
  ghost predicate CaseStable(u: Tables, s: string) {
    forall i :: 0 <= i < |s| ==>
      && u.Lower(u.Upper(s[i])) == u.Lower(s[i])
      && IsWordContext(u, u.Upper(s[i])) == IsWordContext(u, s[i])
  }

  lemma FoldConcat(u: Tables, a: string, b: string)
    ensures Fold(u, a + b) == Fold(u, a) + Fold(u, b)
  {
  }

  lemma FoldFold(u: Tables, s: string)
    requires Lawful(u)
    ensures Fold(u, Fold(u, s)) == Fold(u, s)
  {
    forall i | 0 <= i < |s|
      ensures u.Lower(u.Lower(s[i])) == u.Lower(s[i])
    {
      assert LawfulAt(u, s[i]);
    }
  }

  lemma FoldUpper(u: Tables, s: string)
    requires CaseStable(u, s)
    ensures Fold(u, Upper(u, s)) == Fold(u, s)
  {
  }

  /** Folding neither makes nor removes a word boundary. */
  lemma FoldKeepsWordClasses(u: Tables, c: char)
    requires Lawful(u)
    ensures IsWordContext(u, u.Lower(c)) == IsWordContext(u, c)
    ensures IsWordRune(u, u.Lower(c)) == IsWordRune(u, c)
  {
    assert LawfulAt(u, c);
    assert LawfulAt(u, u.Lower(c));
  }

  /** Apostrophes fold to themselves, nothing else folds to them, and they are no word runes. */
  lemma Apostrophes(u: Tables, c: char)
    requires Lawful(u) && (c == APOSTROPHE || c == CURLY || u.Lower(c) == APOSTROPHE || u.Lower(c) == CURLY)
    ensures u.Lower(c) == c && !IsWordRune(u, c)
  {
    assert LawfulAt(u, c);
  }

  /** A space folds to itself, nothing else folds to it, and it stands outside words. */
  lemma Spaces(u: Tables, c: char)
    requires Lawful(u) && (c == ' ' || u.Lower(c) == ' ')
    ensures u.Lower(c) == c == u.Upper(c) && !IsWordContext(u, c)
  {
    assert LawfulAt(u, c);
  }

  // ---- UTF-8 (RFC 3629, section 3) ----

  function Width(c: char): (w: nat)
    ensures 1 <= w <= 4
  {
    if c as int < 0x80 then 1 else if c as int < 0x800 then 2 else if c as int < 0x10000 then 3 else 4
  }

  /** A character takes as few bytes as hold its code point: seven bits in one byte, and with w bytes
      five bits and six more for every byte but the first and second. */
  lemma WidthHolds(c: char)
    ensures Width(c) == 1 <==> c as int < Bits(7)
    ensures Width(c) > 1 ==> Bits(if Width(c) == 2 then 7 else 5 * Width(c) - 4) <= c as int < Bits(5 * Width(c) + 1)
  {
    assert Bits(7) == 0x80 && Bits(11) == 0x800 && Bits(16) == 0x10000 && Bits(21) == 0x200000 by {
      SomeBits();
    }
  }

  /** As many values as n bits have. */
  function Bits(n: nat): nat { if n == 0 then 1 else 2 * Bits(n - 1) }

  lemma SomeBits()
    ensures Bits(7) == 0x80 && Bits(11) == 0x800 && Bits(16) == 0x10000 && Bits(21) == 0x200000
  {
    assert Bits(4) == 16;
    assert Bits(7) == 0x80;
    assert Bits(9) == 0x200;
    assert Bits(11) == 0x800;
    assert Bits(14) == 0x4000;
    assert Bits(16) == 0x10000;
    assert Bits(19) == 0x80000;
  }

  function ByteLen(s: string): (n: nat)
    ensures |s| <= n
  {
    if s == [] then 0 else Width(s[0]) + ByteLen(s[1..])
  }

  lemma {:induction false} ByteLenConcat(a: string, b: string)
    ensures ByteLen(a + b) == ByteLen(a) + ByteLen(b)
  {
    if a == [] {
      assert a + b == b;
    } else {
      assert (a + b)[1..] == a[1..] + b;
      ByteLenConcat(a[1..], b);
    }
  }

  /** Byte offsets grow strictly with character offsets, so each names one character. */
  lemma ByteLenStrict(s: string, i: nat, j: nat)
    requires i < j <= |s|
    ensures ByteLen(s[..i]) < ByteLen(s[..j])
  {
    assert s[..j] == s[..i] + s[i..j];
    ByteLenConcat(s[..i], s[i..j]);
  }

  /** Lower-casing keeps the UTF-8 width of every character of `s` (true of ordinary text; a
      few letters change width with case). */
  predicate WidthStable(u: Tables, s: string) {
    forall i :: 0 <= i < |s| ==> Width(u.Lower(s[i])) == Width(s[i])
  }

  lemma {:induction false} WidthStableByteLen(u: Tables, s: string)
    requires WidthStable(u, s)
    ensures ByteLen(Fold(u, s)) == ByteLen(s)
  {
    if s != [] {
      assert Fold(u, s)[1..] == Fold(u, s[1..]);
      WidthStableByteLen(u, s[1..]);
    }
  }

  // ---- Trimming ----

  function TrimLeft(u: Tables, s: string): (r: string)
    ensures |r| <= |s| && r == s[|s| - |r|..]
    ensures r == [] || !u.IsSpace(r[0])
    ensures forall i :: 0 <= i < |s| - |r| ==> u.IsSpace(s[i])
  {
    if s != [] && u.IsSpace(s[0]) then TrimLeft(u, s[1..]) else s
  }

  function TrimRight(u: Tables, s: string): (r: string)
    ensures |r| <= |s| && r == s[..|r|]
    ensures r == [] || !u.IsSpace(r[|r| - 1])
    ensures forall i :: |r| <= i < |s| ==> u.IsSpace(s[i])
  {
    if s != [] && u.IsSpace(s[|s| - 1]) then TrimRight(u, s[..|s| - 1]) else s
  }

  /** strings.TrimSpace. */
  function Trim(u: Tables, s: string): (r: string)
    ensures r == [] || (!u.IsSpace(r[0]) && !u.IsSpace(r[|r| - 1]))
  {
    TrimRight(u, TrimLeft(u, s))
  }

  /** Only blank strings trim to nothing. */
  lemma TrimBlank(u: Tables, s: string)
    ensures Trim(u, s) == [] <==> forall i :: 0 <= i < |s| ==> u.IsSpace(s[i])
  {
    var l := TrimLeft(u, s);
    var o := |s| - |l|;
    assert forall i :: o <= i < |s| ==> s[i] == l[i - o];
    if Trim(u, s) != [] {
      assert !u.IsSpace(s[o]);
    }
  }

  // ---- ASCII: a lawful table, used for concrete examples ----

  const ASCII_UPPERS := set c: char | 'A' <= c <= 'Z' :: c

  const ASCII_LOWERS := set c: char | 'a' <= c <= 'z' :: c

  const ASCII: Tables := Tables(
    map c | c in ASCII_UPPERS :: (c as int + 32) as char,
    map c | c in ASCII_LOWERS :: (c as int - 32) as char,
    ASCII_UPPERS + ASCII_LOWERS,
    set c: char | '0' <= c <= '9' :: c,
    ASCII_UPPERS,
    ASCII_LOWERS,
    {' ', '\n', '\t', '\r'})

  lemma AsciiIsLawful()
    ensures Lawful(ASCII)
  {
    forall c: char
      ensures LawfulAt(ASCII, c)
    {
    }
  }
}
