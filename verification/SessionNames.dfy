/** What the pseudonyms of a session look like when its pools are lists of plain names: the premises
    of the round trip hold for every session whose requests come one after the other. */
module SessionNames {
  import opened Unicode
  import opened Tokens
  import opened Mappings
  import opened Pseudonyms
  import opened Components
  import opened Distinct
  import opened Streaming
  import opened RoundTripPairs
  import opened Shapes

  // ---- Plain pools ----

  /** One word of letters, or two with a space between. */
  predicate PlainName(u: Tables, p: string) {
    var f := Fields(u, p);
    if |f| == 2 then IsPure(u, f[0]) && IsPure(u, f[1]) && p == f[0] + " " + f[1] else f == [p] && IsPure(u, p)
  }

  predicate FoldBegins(u: Tables, w: string, x: string) { Fold(u, w) <= Fold(u, x) }

  /** Pool names are plain, and no word of theirs begins another, case aside. */
  ghost predicate PlainPools(u: Tables, pools: Pools) {
    && (forall p :: PoolName(pools, p) ==> PlainName(u, p))
    && (forall p, q, i: nat, j: nat, w, x {:trigger WordAt(u, p, i, w), WordAt(u, q, j, x), PoolName(pools, p), PoolName(pools, q)} ::
          PoolName(pools, p) && PoolName(pools, q) && WordAt(u, p, i, w) && WordAt(u, q, j, x) && FoldBegins(u, w, x) ==> p == q && i == j)
  }

  /** w is a word of a pool name. */
  ghost predicate PoolWord(u: Tables, pools: Pools, w: string) {
    exists p, i: nat :: PoolName(pools, p) && WordAt(u, p, i, w)
  }

  /** h stands before the number of a synthetic name: a word that starts with a letter and that no pool
      word begins. */
  ghost predicate PlainHead(u: Tables, pools: Pools, h: string) {
    && h != [] && u.IsLetter(h[0]) && AllWordRunes(u, h)
    && forall w :: PoolWord(u, pools, w) ==> !FoldBegins(u, w, h)
  }

  /** What stands before the hyphen and the number s ends in. */
  function HeadOf(s: string): string {
    var d := TrailingDigits(s, |s|);
    if d < |s| then s[..|s| - d - 1] else []
  }

  /** Synthetic names have such heads, and numbered names that agree, case aside, are the same. */
  ghost predicate PlainNumbers(u: Tables, pools: Pools, m: Mapping) {
    && (forall k :: k in m && !IsToken(m[k]) && EndsNumbered(m[k]) ==> PlainHead(u, pools, HeadOf(m[k])))
    && (forall k, l :: k in m && l in m && NumberForm(m[k]) && NumberForm(m[l]) && SameFold(u, m[k], m[l]) ==> m[k] == m[l])
  }

  lemma WordIsPure(u: Tables, pools: Pools, w: string)
    requires PlainPools(u, pools) && PoolWord(u, pools, w)
    ensures IsPure(u, w)
  {
    hide PoolName, IsPure, Fields, FoldBegins;
    var p, i: nat :| PoolName(pools, p) && WordAt(u, p, i, w);
    assert PlainName(u, p);
  }

  lemma PureIsNoNumber(u: Tables, w: string)
    requires Lawful(u) && IsPure(u, w)
    ensures !NumberForm(w)
  {
    hide TokenCut, TrailingDigits;
    forall i | 0 <= i < |w|
      ensures w[i] != '<' && w[i] != '-'
    {
      LetterChar(u, w[i]);
    }
    if IsToken(w) {
      TokenStarts(w);
    }
  }

  lemma TokenStarts(s: string)
    requires IsToken(s)
    ensures s != [] && s[0] == '<'
  {
  }

  /** Plain pools are clean. */
  lemma PlainIsClean(u: Tables, pools: Pools)
    requires Lawful(u) && PlainPools(u, pools)
    ensures CleanPools(u, pools)
  {
    hide PoolName, IsPure, Fields, NumberForm, Fold;
    forall p, i: nat, w | PoolName(pools, p) && WordAt(u, p, i, w)
      ensures !NumberForm(w)
    {
      assert PoolWord(u, pools, w);
      WordIsPure(u, pools, w);
      PureIsNoNumber(u, w);
    }
    forall p | PoolName(pools, p)
      ensures |Fields(u, p)| != 1 || Fields(u, p)[0] == p
    {
      assert PlainName(u, p);
    }
    assert forall w :: FoldBegins(u, w, w);
  }

  // ---- The pseudonyms of a session ----

  /** A pool name of two words. */
  ghost predicate DoubleName(u: Tables, pools: Pools, p: string, a: string, b: string) {
    PoolName(pools, p) && Fields(u, p) == [a, b] && IsPure(u, a) && IsPure(u, b) && p == a + " " + b
  }

  lemma Origins(u: Tables, pools: Pools, m: Mapping, v: string)
    requires PlainPools(u, pools) && HasOrigin(u, pools, m, v)
    ensures NumberForm(v) || PoolWord(u, pools, v) || exists a, b :: DoubleName(u, pools, v, a, b)
  {
    hide PoolName, IsPure, Fields, NumberForm, FoldBegins, InUse;
    if PoolName(pools, v) {
      assert PlainName(u, v);
      var f := Fields(u, v);
      if |f| == 2 {
        assert f == [f[0], f[1]];
        assert DoubleName(u, pools, v, f[0], f[1]);
      } else {
        assert WordAt(u, v, 0, v);
      }
    } else if p :| InUse(m, p) && PoolName(pools, p) && PartOf(u, p, v) {
      assert WordAt(u, p, 0, v) || WordAt(u, p, |Fields(u, p)| - 1, v);
    }
  }

  // ---- Their shapes ----

  lemma FoldLetters(u: Tables, w: string)
    requires Lawful(u)
    ensures IsPure(u, w) ==> IsPure(u, Fold(u, w))
  {
    forall i | 0 <= i < |w|
      ensures u.IsLetter(u.Lower(w[i])) == u.IsLetter(w[i])
    {
      assert LawfulAt(u, w[i]);
    }
  }

  lemma DoubleShape(u: Tables, pools: Pools, p: string, a: string, b: string)
    requires Lawful(u) && DoubleName(u, pools, p, a, b)
    ensures IsDouble(u, Fold(u, p), |a|) && Fold(u, p)[..|a|] == Fold(u, a) && Fold(u, p)[|a| + 1..] == Fold(u, b)
  {
    FoldLetters(u, a);
    FoldLetters(u, b);
    Spaces(u, ' ');
    FoldConcat(u, a + " ", b);
    FoldConcat(u, a, " ");
    assert Fold(u, " ") == " ";
    hide Fold, PoolName, Fields, AllLetters;
    var f := Fold(u, p);
    assert f == Fold(u, a) + " " + Fold(u, b);
    assert f[..|a|] == Fold(u, a) && f[|a| + 1..] == Fold(u, b);
  }

  lemma TokenShape(u: Tables, v: string)
    requires Lawful(u) && IsToken(v)
    ensures IsBracketed(u, Fold(u, v))
  {
    ParsedToken(v);
    var p := ParseToken(v);
    TokenLayout(p.prefix, p.digits);
    hide IsToken, ParseToken;
    var f, end, cut := Fold(u, v), |v| - 1, |p.prefix| + 2;
    MarksStay(u);
    forall k | 1 <= k < end
      ensures IsWordRune(u, f[k])
    {
      TokenCharFolds(u, v[k]);
    }
    assert f[1..end][cut - 2] == '_';
    LetterOrNot(u);
  }

  lemma MarksStay(u: Tables)
    requires Lawful(u)
    ensures u.Lower('<') == '<' && u.Lower('>') == '>' && u.Lower('_') == '_' && u.Lower('-') == '-'
  {
    assert LawfulAt(u, '<') && LawfulAt(u, '>') && LawfulAt(u, '_') && LawfulAt(u, '-');
  }

  lemma LetterOrNot(u: Tables)
    requires Lawful(u)
    ensures !u.IsLetter('_')
  {
    assert LawfulAt(u, '_');
  }

  lemma TokenCharFolds(u: Tables, c: char)
    requires Lawful(u) && (IsTokenChar(c) || IsAsciiDigit(c))
    ensures IsWordRune(u, u.Lower(c))
  {
    assert LawfulAt(u, c);
    FoldKeepsWordClasses(u, c);
  }

  lemma NumberShape(u: Tables, pools: Pools, v: string)
    requires Lawful(u) && EndsNumbered(v) && PlainHead(u, pools, HeadOf(v))
    ensures IsHyphened(u, Fold(u, v), |HeadOf(v)|) && Fold(u, v)[..|HeadOf(v)|] == Fold(u, HeadOf(v))
  {
    var d := TrailingDigits(v, |v|);
    TrailingDigitsAre(v, |v|);
    hide TrailingDigits;
    var h := HeadOf(v);
    MarksStay(u);
    var f := Fold(u, v);
    assert f[..|h|] == Fold(u, h);
    forall i | 0 <= i < |h|
      ensures IsWordRune(u, f[i])
    {
      FoldKeepsWordClasses(u, h[i]);
    }
    forall i | |h| < i < |v|
      ensures IsAsciiDigit(f[i])
    {
      assert LawfulAt(u, v[i]);
    }
    assert LawfulAt(u, h[0]);
  }

  /** The four shapes exclude one another. */
  lemma PureDiffers(u: Tables, f: string, n: nat)
    requires Lawful(u) && IsPure(u, f)
    ensures !IsBracketed(u, f) && !IsDouble(u, f, n) && !IsHyphened(u, f, n)
  {
    hide AllLetters, AllWordRunes, AllAsciiDigits, IsWordRune, IsWordContext;
    MarkChar(u, '<');
    MarkChar(u, ' ');
    MarkChar(u, '-');
    PureChar(u, f, 0);
    if n < |f| {
      PureChar(u, f, n);
    }
  }

  lemma BracketedDiffers(u: Tables, f: string, n: nat)
    requires Lawful(u) && IsBracketed(u, f)
    ensures !IsDouble(u, f, n) && !IsHyphened(u, f, n)
  {
    hide AllLetters, AllWordRunes, AllAsciiDigits, IsWordRune, IsWordContext;
    MarkChar(u, ' ');
    MarkChar(u, '-');
    if 0 < n < |f| - 1 {
      BracketedChar(u, f, n);
    }
  }

  lemma DoubleDiffers(u: Tables, f: string, n: nat, k: nat)
    requires Lawful(u) && IsDouble(u, f, n)
    ensures !IsHyphened(u, f, k) && (IsDouble(u, f, k) ==> n == k)
  {
    hide AllLetters, AllWordRunes, AllAsciiDigits, IsWordRune, IsWordContext;
    MarkChar(u, ' ');
    MarkChar(u, '-');
    if k < |f| {
      DoubleChar(u, f, n, k);
    }
  }

  lemma HyphenedDiffers(u: Tables, f: string, n: nat, k: nat)
    requires Lawful(u) && IsHyphened(u, f, n) && IsHyphened(u, f, k)
    ensures n == k
  {
    hide AllLetters, AllWordRunes, AllAsciiDigits, IsWordRune, IsWordContext;
    MarkChar(u, '-');
    HyphenedChar(u, f, n, k);
  }

  /** What v looks like, lower-cased, and where it comes from. */
  ghost predicate Kind(u: Tables, pools: Pools, v: string) {
    || (PoolWord(u, pools, v) && IsPure(u, Fold(u, v)))
    || (exists a, b :: IsDoubleOf(u, pools, v, a, b))
    || (NumberForm(v) && IsBracketed(u, Fold(u, v)))
    || (NumberForm(v) && IsNumberOf(u, pools, v))
  }

  ghost predicate IsDoubleOf(u: Tables, pools: Pools, v: string, a: string, b: string) {
    && DoubleName(u, pools, v, a, b) && IsDouble(u, Fold(u, v), |a|)
    && Fold(u, v)[..|a|] == Fold(u, a) && Fold(u, v)[|a| + 1..] == Fold(u, b)
  }

  ghost predicate IsNumberOf(u: Tables, pools: Pools, v: string) {
    var h := HeadOf(v);
    PlainHead(u, pools, h) && IsHyphened(u, Fold(u, v), |h|) && Fold(u, v)[..|h|] == Fold(u, h)
  }

  lemma KindOf(u: Tables, pools: Pools, m: Mapping, k: string)
    requires Lawful(u) && PlainPools(u, pools) && PlainNumbers(u, pools, m) && k in m && HasOrigin(u, pools, m, m[k])
    ensures Kind(u, pools, m[k])
  {
    var v := m[k];
    Origins(u, pools, m, v);
    hide HasOrigin, PlainPools, DoubleName, IsPure, IsDouble, IsBracketed, IsHyphened, PlainHead, HeadOf, EndsNumbered, PoolWord, IsToken;
    if PoolWord(u, pools, v) {
      WordIsPure(u, pools, v);
      FoldLetters(u, v);
    } else if a, b :| DoubleName(u, pools, v, a, b) {
      DoubleShape(u, pools, v, a, b);
      assert IsDoubleOf(u, pools, v, a, b);
    } else if IsToken(v) {
      TokenShape(u, v);
    } else {
      NumberShape(u, pools, v);
    }
  }

  lemma KindShaped(u: Tables, pools: Pools, v: string)
    requires Kind(u, pools, v)
    ensures Shaped(u, Fold(u, v))
  {
    hide PoolWord, IsPure, IsDouble, IsBracketed, IsHyphened, DoubleName, PlainHead, Fold, NumberForm;
  }

  // ---- Words of the pools begin no other ----

  lemma WordsApart(u: Tables, pools: Pools, p: string, i: nat, w: string, q: string, j: nat, x: string)
    requires PlainPools(u, pools) && PoolName(pools, p) && PoolName(pools, q) && WordAt(u, p, i, w) && WordAt(u, q, j, x) && Fold(u, w) <= Fold(u, x)
    ensures p == q && i == j && w == x
  {
    hide PoolName, Fields, Fold, IsPure;
    assert FoldBegins(u, w, x);
  }

  lemma DoubleWords(u: Tables, pools: Pools, p: string, a: string, b: string)
    requires DoubleName(u, pools, p, a, b)
    ensures PoolName(pools, p) && WordAt(u, p, 0, a) && WordAt(u, p, 1, b) && PoolWord(u, pools, a) && PoolWord(u, pools, b)
    ensures IsPure(u, a) && IsPure(u, b)
  {
    hide PoolName, IsPure;
    assert WordAt(u, p, 0, a) && WordAt(u, p, 1, b);
  }

  /** What begins two words begins the first. */
  lemma BeginsFirst(u: Tables, f: string, n: nat, b: string)
    requires Lawful(u) && IsDouble(u, f, n) && IsPure(u, b) && b <= f
    ensures n < |f| && b <= f[..n]
  {
    hide IsWordRune, IsWordContext;
    MarkChar(u, ' ');
    if |b| > n {
      PureChar(u, b, n);
    }
  }

  lemma BeginsHead(u: Tables, f: string, n: nat, b: string)
    requires Lawful(u) && IsHyphened(u, f, n) && IsPure(u, b) && b <= f
    ensures n < |f| && b <= f[..n]
  {
    hide IsWordRune, IsWordContext, AllWordRunes, AllAsciiDigits;
    MarkChar(u, '-');
    if |b| > n {
      PureChar(u, b, n);
    }
  }

  lemma HeadNotBegun(u: Tables, pools: Pools, h: string, w: string)
    requires PlainHead(u, pools, h) && PoolWord(u, pools, w)
    ensures !(Fold(u, w) <= Fold(u, h))
  {
    hide PoolWord, Fold, AllWordRunes;
    assert !FoldBegins(u, w, h);
  }

  /** A pseudonym that begins with the last word of a pool name is that word. */
  lemma LastOnly(u: Tables, pools: Pools, p: string, a: string, b: string, v: string)
    requires Lawful(u) && PlainPools(u, pools) && DoubleName(u, pools, p, a, b) && Kind(u, pools, v) && Fold(u, b) <= Fold(u, v)
    ensures v == b
  {
    DoubleWords(u, pools, p, a, b);
    FoldLetters(u, b);
    hide PlainPools, DoubleName, IsPure, IsDouble, IsBracketed, IsHyphened, PlainHead, HeadOf, NumberForm, WordAt, PoolName, Fold;
    if PoolWord(u, pools, v) {
      var q, j: nat :| PoolName(pools, q) && WordAt(u, q, j, v);
      WordsApart(u, pools, p, 1, b, q, j, v);
    } else if c, d :| IsDoubleOf(u, pools, v, c, d) {
      DoubleWords(u, pools, v, c, d);
      BeginsFirst(u, Fold(u, v), |c|, Fold(u, b));
      WordsApart(u, pools, p, 1, b, v, 0, c);
    } else if IsBracketed(u, Fold(u, v)) {
      NoBracketFirst(u, Fold(u, b), Fold(u, v));
    } else {
      BeginsHead(u, Fold(u, v), |HeadOf(v)|, Fold(u, b));
      HeadNotBegun(u, pools, HeadOf(v), b);
    }
  }

  lemma NoBracketFirst(u: Tables, b: string, f: string)
    requires Lawful(u) && IsPure(u, b) && IsBracketed(u, f)
    ensures !(b <= f)
  {
    hide IsWordRune, IsWordContext, AllWordRunes;
    MarkChar(u, '<');
    PureChar(u, b, 0);
  }

  lemma KindCases(u: Tables, pools: Pools, v: string) returns (a: string, b: string)
    requires Kind(u, pools, v)
    ensures var f := Fold(u, v);
            || (PoolWord(u, pools, v) && IsPure(u, f))
            || IsDoubleOf(u, pools, v, a, b)
            || (NumberForm(v) && (IsBracketed(u, f) || IsNumberOf(u, pools, v)))
  {
    hide PoolWord, IsPure, IsDoubleOf, IsBracketed, IsNumberOf, NumberForm, Fold;
    a, b := [], [];
    if c, d :| IsDoubleOf(u, pools, v, c, d) {
      a, b := c, d;
    }
  }

  lemma DoubleOfParts(u: Tables, pools: Pools, v: string, a: string, b: string)
    requires IsDoubleOf(u, pools, v, a, b)
    ensures DoubleName(u, pools, v, a, b) && IsDouble(u, Fold(u, v), |a|) && |a| + 1 <= |v|
    ensures Fold(u, v)[..|a|] == Fold(u, a) && Fold(u, v)[|a| + 1..] == Fold(u, b)
  {
  }

  lemma NumberOfParts(u: Tables, pools: Pools, v: string)
    requires IsNumberOf(u, pools, v)
    ensures var h := HeadOf(v);
            PlainHead(u, pools, h) && |h| <= |v| && IsHyphened(u, Fold(u, v), |h|) && Fold(u, v)[..|h|] == Fold(u, h)
  {
  }

  /** One word of letters, lower-cased, is a pool word. */
  lemma PureKind(u: Tables, pools: Pools, v: string)
    requires Lawful(u) && Kind(u, pools, v) && IsPure(u, Fold(u, v))
    ensures PoolWord(u, pools, v)
  {
    hide *;
    var f := Fold(u, v);
    var a, b := KindCases(u, pools, v);
    if IsDoubleOf(u, pools, v, a, b) {
      DoubleOfParts(u, pools, v, a, b);
    } else if IsNumberOf(u, pools, v) {
      NumberOfParts(u, pools, v);
    }
    PureDiffers(u, f, |a|);
    PureDiffers(u, f, |HeadOf(v)|);
  }

  /** A word and a number, lower-cased, is a synthetic name. */
  lemma NumberKind(u: Tables, pools: Pools, v: string, n: nat)
    requires Lawful(u) && Kind(u, pools, v) && IsHyphened(u, Fold(u, v), n)
    ensures PlainHead(u, pools, HeadOf(v)) && n <= |v| && Fold(u, v)[..n] == Fold(u, HeadOf(v))
  {
    hide *;
    var f := Fold(u, v);
    var a, b := KindCases(u, pools, v);
    if IsPure(u, f) {
      PureDiffers(u, f, n);
    } else if IsDoubleOf(u, pools, v, a, b) {
      DoubleOfParts(u, pools, v, a, b);
      DoubleDiffers(u, f, |a|, n);
    } else if IsBracketed(u, f) {
      BracketedDiffers(u, f, n);
    } else {
      NumberOfParts(u, pools, v);
      HyphenedDiffers(u, f, n, |HeadOf(v)|);
    }
  }

  /** Two words, lower-cased, are a pool name. */
  lemma DoubleKind(u: Tables, pools: Pools, v: string, n: nat) returns (a: string, b: string)
    requires Lawful(u) && Kind(u, pools, v) && IsDouble(u, Fold(u, v), n)
    ensures DoubleName(u, pools, v, a, b) && n == |a| && n + 1 <= |v|
    ensures Fold(u, v)[..n] == Fold(u, a) && Fold(u, v)[n + 1..] == Fold(u, b)
  {
    hide *;
    var f := Fold(u, v);
    a, b := KindCases(u, pools, v);
    if IsPure(u, f) {
      PureDiffers(u, f, n);
    } else if IsDoubleOf(u, pools, v, a, b) {
      DoubleOfParts(u, pools, v, a, b);
      DoubleDiffers(u, f, n, |a|);
    } else if IsBracketed(u, f) {
      BracketedDiffers(u, f, n);
    } else {
      NumberOfParts(u, pools, v);
      DoubleDiffers(u, f, n, |HeadOf(v)|);
    }
  }

  /** No pseudonym is the head of a synthetic name. */
  lemma HeadIsNone(u: Tables, pools: Pools, w: string, v: string, n: nat)
    requires Lawful(u) && Kind(u, pools, w) && Kind(u, pools, v) && IsHyphened(u, Fold(u, w), n)
    ensures n <= |w| && Fold(u, v) != Fold(u, w)[..n]
  {
    hide *;
    HyphenedRoom(u, Fold(u, w), n);
    NumberKind(u, pools, w, n);
    KindShaped(u, pools, v);
    if Fold(u, v) == Fold(u, w)[..n] {
      OnlyWord(u, Fold(u, v));
      PureKind(u, pools, v);
      HeadNotBegun(u, pools, HeadOf(w), v);
    }
  }

  lemma HyphenedRoom(u: Tables, f: string, n: nat)
    requires IsHyphened(u, f, n)
    ensures 0 < n < |f| && AllWordRunes(u, f[..n])
  {
  }

  lemma SameWord(u: Tables, pools: Pools, v: string, w: string)
    requires PlainPools(u, pools) && PoolWord(u, pools, v) && PoolWord(u, pools, w) && Fold(u, v) == Fold(u, w)
    ensures v == w
  {
    hide PlainPools, Fold, WordAt, PoolName;
    var p, i: nat :| PoolName(pools, p) && WordAt(u, p, i, v);
    var q, j: nat :| PoolName(pools, q) && WordAt(u, q, j, w);
    WordsApart(u, pools, p, i, v, q, j, w);
  }

  lemma SameDouble(u: Tables, pools: Pools, v: string, w: string, n: nat)
    requires Lawful(u) && PlainPools(u, pools) && Kind(u, pools, v) && Kind(u, pools, w) && Fold(u, v) == Fold(u, w)
    requires IsDouble(u, Fold(u, v), n)
    ensures v == w
  {
    hide *;
    var a, b := DoubleKind(u, pools, v, n);
    var c, d := DoubleKind(u, pools, w, n);
    DoubleWords(u, pools, v, a, b);
    DoubleWords(u, pools, w, c, d);
    WordsApart(u, pools, v, 0, a, w, 0, c);
  }

  /** Pool names and their words differ in more than case. */
  lemma FoldSameKind(u: Tables, pools: Pools, v: string, w: string)
    requires Lawful(u) && PlainPools(u, pools) && Kind(u, pools, v) && Kind(u, pools, w) && Fold(u, v) == Fold(u, w)
    ensures v == w || (NumberForm(v) && NumberForm(w))
  {
    hide *;
    if IsPure(u, Fold(u, v)) {
      PureKind(u, pools, v);
      PureKind(u, pools, w);
      SameWord(u, pools, v, w);
    } else if n: nat :| IsDouble(u, Fold(u, v), n) {
      SameDouble(u, pools, v, w, n);
    } else {
      NeitherIsNumber(u, pools, v);
      NeitherIsNumber(u, pools, w);
    }
  }

  lemma NeitherIsNumber(u: Tables, pools: Pools, v: string)
    requires Kind(u, pools, v) && !IsPure(u, Fold(u, v)) && forall n: nat :: !IsDouble(u, Fold(u, v), n)
    ensures NumberForm(v)
  {
    hide *;
    var a, b := KindCases(u, pools, v);
    if IsDoubleOf(u, pools, v, a, b) {
      DoubleOfParts(u, pools, v, a, b);
    }
  }

  // ---- The pseudonyms of a mapping ----

  ghost predicate Kinds(u: Tables, pools: Pools, m: Mapping) {
    forall k :: k in m ==> Kind(u, pools, m[k])
  }

  /** pats are the pseudonyms of m, lower-cased. */
  ghost predicate ValuesOf(u: Tables, m: Mapping, pats: seq<string>) {
    forall g :: g in pats ==> exists k :: k in m && Fold(u, m[k]) == g
  }

  lemma ValuesLastsApart(u: Tables, pools: Pools, m: Mapping, pats: seq<string>)
    requires Lawful(u) && PlainPools(u, pools) && Kinds(u, pools, m) && ValuesOf(u, m, pats)
    ensures LastsApart(u, pats)
  {
    hide PlainPools, Kind, IsDouble, DoubleName, Fold;
    forall g, n: nat, v | g in pats && v in pats && IsDouble(u, g, n) && n + 1 <= |g| && g[n + 1..] <= v
      ensures v == g[n + 1..]
    {
      var k :| k in m && Fold(u, m[k]) == g;
      var l :| l in m && Fold(u, m[l]) == v;
      var a, b := DoubleKind(u, pools, m[k], n);
      LastOnly(u, pools, m[k], a, b, m[l]);
    }
    DoubleRooms(u, pats);
  }

  lemma DoubleRooms(u: Tables, pats: seq<string>)
    ensures forall g, n: nat :: IsDouble(u, g, n) ==> n + 1 <= |g|
  {
  }

  lemma ValuesHeadsApart(u: Tables, pools: Pools, m: Mapping, pats: seq<string>)
    requires Lawful(u) && Kinds(u, pools, m) && ValuesOf(u, m, pats)
    ensures HeadsApart(u, pats)
  {
    hide Kind, IsHyphened, Fold;
    HyphenedRooms(u);
    forall g, n: nat | g in pats && IsHyphened(u, g, n)
      ensures n <= |g| && g[..n] !in pats
    {
      var k :| k in m && Fold(u, m[k]) == g;
      if g[..n] in pats {
        var l :| l in m && Fold(u, m[l]) == g[..n];
        HeadIsNone(u, pools, m[k], m[l], n);
      }
    }
  }

  lemma HyphenedRooms(u: Tables)
    ensures forall g, n: nat :: IsHyphened(u, g, n) ==> n <= |g|
  {
  }

  lemma ValuesShaped(u: Tables, pools: Pools, m: Mapping, pats: seq<string>)
    requires Kinds(u, pools, m) && ValuesOf(u, m, pats)
    ensures forall g :: g in pats ==> Shaped(u, g)
  {
    hide Kind, Shaped, Fold;
    forall g | g in pats
      ensures Shaped(u, g)
    {
      var k :| k in m && Fold(u, m[k]) == g;
      KindShaped(u, pools, m[k]);
    }
  }

  lemma SoundKinds(u: Tables, pools: Pools, m: Mapping)
    requires Lawful(u) && PlainPools(u, pools) && PlainNumbers(u, pools, m) && SoundValues(u, pools, m)
    ensures Kinds(u, pools, m)
  {
    hide PlainPools, PlainNumbers, HasOrigin, Kind;
    forall k | k in m
      ensures Kind(u, pools, m[k])
    {
      KindOf(u, pools, m, k);
    }
  }

  /** No two of a session's pseudonyms differ in case only. */
  lemma ValuesFoldApart(u: Tables, pools: Pools, m: Mapping, k: string, l: string)
    requires Lawful(u) && PlainPools(u, pools) && PlainNumbers(u, pools, m) && Kinds(u, pools, m)
    requires k in m && l in m && SameFold(u, m[k], m[l])
    ensures m[k] == m[l]
  {
    hide PlainPools, Kind, Fold, NumberForm, PlainHead;
    FoldSameKind(u, pools, m[k], m[l]);
  }

  /** The pseudonyms of a session decompose. */
  lemma SoundDecomposes(u: Tables, pools: Pools, m: Mapping, pats: seq<string>)
    requires Lawful(u) && PlainPools(u, pools) && PlainNumbers(u, pools, m) && SoundValues(u, pools, m) && ValuesOf(u, m, pats)
    ensures Decomposed(u, pats) && StartsClean(pats)
  {
    hide *;
    SoundKinds(u, pools, m);
    ValuesShaped(u, pools, m, pats);
    ValuesLastsApart(u, pools, m, pats);
    ValuesHeadsApart(u, pools, m, pats);
    ShapedDecomposed(u, pats);
    ShapedStart(u, pats);
  }

  lemma ShapedStart(u: Tables, pats: seq<string>)
    requires Lawful(u) && forall g :: g in pats ==> Shaped(u, g)
    ensures StartsClean(pats)
  {
    hide Shaped;
    forall g | g in pats
      ensures g != [] && g[0] != APOSTROPHE && g[0] != CURLY && g[0] != ' '
    {
      ShapeStart(u, g);
    }
  }
}
