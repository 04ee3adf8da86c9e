/** Decimal numerals and token pseudonyms such as <CREDIT_CARD_12>. */
module Tokens {
  import opened Unicode

  function Digit(d: nat): (c: char)
    requires d < 10
    ensures IsAsciiDigit(c) && c as int - '0' as int == d
  {
    ('0' as int + d) as char
  }

  /** n in decimal, without leading zeros: %d. */
  function Dec(n: nat): (s: string)
    ensures s != [] && forall i :: 0 <= i < |s| ==> IsAsciiDigit(s[i])
  {
    if n < 10 then [Digit(n)] else Dec(n / 10) + [Digit(n % 10)]
  }

  predicate AllDigits(s: string) {
    forall i :: 0 <= i < |s| ==> IsAsciiDigit(s[i])
  }

  /** The number a digit string denotes. */
  function Value(s: string): (n: nat)
    requires AllDigits(s)
  {
    if s == [] then 0
    else 10 * Value(s[..|s| - 1]) + (s[|s| - 1] as int - '0' as int)
  }

  /** Numerals parse back to the number printed. */
  lemma {:induction false} ValueOfDec(n: nat)
    ensures Value(Dec(n)) == n
  {
    if n >= 10 {
      ValueOfDec(n / 10);
      assert Dec(n)[..|Dec(n)| - 1] == Dec(n / 10);
    }
  }

  function Power(i: nat): (p: nat)
    ensures p > 0
  {
    if i == 0 then 1 else 10 * Power(i - 1)
  }

  /** The digits of n: the i-th from the right counts the i-th powers of ten, and the first is no zero
      unless it is the only one. */
  lemma {:induction false} DecDigits(n: nat, i: nat)
    requires i < |Dec(n)|
    ensures Dec(n)[|Dec(n)| - 1 - i] as int == '0' as int + n / Power(i) % 10
    ensures n > 0 ==> Dec(n)[0] != '0'
  {
    if n >= 10 {
      var m := n / 10;
      LastDigit(n);
      hide Dec, Power;
      if i > 0 {
        DecDigits(m, i - 1);
        PowerStep(n, i);
      } else {
        DecDigits(m, 0);
        PowerStep(n, 0);
      }
    } else {
      OneDigit(n);
    }
  }

  lemma OneDigit(n: nat)
    requires n < 10
    ensures |Dec(n)| == 1 && Dec(n)[0] as int == '0' as int + n && Power(0) == 1
  {
  }

  lemma LastDigit(n: nat)
    requires n >= 10
    ensures n / 10 > 0 && |Dec(n)| == |Dec(n / 10)| + 1 && Dec(n)[|Dec(n)| - 1] as int == '0' as int + n % 10
    ensures forall j :: 0 <= j < |Dec(n / 10)| ==> Dec(n)[j] == Dec(n / 10)[j]
  {
  }

  lemma PowerStep(n: nat, i: nat)
    ensures i > 0 ==> n / Power(i) == n / 10 / Power(i - 1)
    ensures i == 0 ==> n / Power(i) == n
  {
    if i > 0 {
      Divided(n, Power(i - 1));
    }
  }

  lemma Divided(n: nat, p: nat)
    requires p > 0
    ensures n / (10 * p) == n / 10 / p
  {
    var q := n / 10 / p;
    var r := n / 10 - q * p;
    assert n / 10 == q * p + r && 0 <= r < p;
    var s := n - 10 * (n / 10);
    assert n == 10 * p * q + (10 * r + s) && 0 <= 10 * r + s < 10 * p;
    QuotientIs(n, 10 * p, q, 10 * r + s);
  }

  lemma QuotientIs(n: nat, d: nat, q: nat, r: nat)
    requires d > 0 && n == d * q + r && r < d
    ensures n / d == q
  {
    var k := n / d;
    assert n == d * k + n % d;
    Times(d, k, k);
    Times(d, q, q);
    if k < q {
      Times(d, k + 1, q);
    } else {
      Times(d, q, k);
      if k > q {
        Times(d, q + 1, k);
      }
    }
  }

  lemma Times(d: nat, a: nat, b: nat)
    requires a <= b
    ensures d * a <= d * b && d * (a + 1) == d * a + d
  {
  }

  lemma DecInjective(m: nat, n: nat)
    requires Dec(m) == Dec(n)
    ensures m == n
  {
    ValueOfDec(m);
    ValueOfDec(n);
  }

  /** strconv.Atoi on digits: no result past the largest 64-bit integer. */
  const MAX_INT: nat := 0x7FFF_FFFF_FFFF_FFFF

  predicate IsTokenChar(c: char) {
    IsAsciiUpper(c) || IsAsciiDigit(c) || c == '_'
  }

  /** s[i..j] matches [A-Z0-9_]*. */
  predicate AllTokenChars(s: string, i: nat, j: nat)
    requires j <= |s|
    decreases j
  {
    i >= j || (IsTokenChar(s[j - 1]) && AllTokenChars(s, i, j - 1))
  }

  /** Length of the run of digits s[..j] ends in. */
  function TrailingDigits(s: string, j: nat): (d: nat)
    requires j <= |s|
    ensures d <= j
  {
    if j > 0 && IsAsciiDigit(s[j - 1]) then 1 + TrailingDigits(s, j - 1) else 0
  }

  /** Where the index of the token s starts; 0 if s is no token.  The digits hold no underscore and
      the character before them is one, so they are the whole run of digits before the `>`. */
  function TokenCut(s: string): (cut: nat)
    ensures cut > 0 ==> 3 <= cut < |s| - 1
  {
    if |s| < 5 || s[0] != '<' || s[|s| - 1] != '>' then 0
    else
      var end := |s| - 1;
      var cut := end - TrailingDigits(s, end);
      if 3 <= cut < end && s[cut - 1] == '_' && AllTokenChars(s, 1, cut - 1) then cut else 0
  }

  /** s matches `^<([A-Z0-9_]+)_(\d+)>$`. */
  predicate IsToken(s: string) { TokenCut(s) > 0 }

  datatype TokenParts = NotAToken | TokenParts(prefix: string, digits: string)

  /** Its submatches. */
  function ParseToken(s: string): (p: TokenParts)
    ensures p.TokenParts? <==> IsToken(s)
  {
    var cut := TokenCut(s);
    if cut == 0 then NotAToken else TokenParts(s[1..cut - 1], s[cut..|s| - 1])
  }

  function Token(prefix: string, n: nat): string {
    "<" + prefix + "_" + Dec(n) + ">"
  }

  predicate IsTokenPrefix(s: string) {
    s != [] && forall i :: 0 <= i < |s| ==> IsTokenChar(s[i])
  }

  lemma {:induction false} AllTokenCharsAre(s: string, i: nat, j: nat)
    requires j <= |s|
    ensures AllTokenChars(s, i, j) <==> forall k :: i <= k < j ==> IsTokenChar(s[k])
    decreases j
  {
    if i < j {
      AllTokenCharsAre(s, i, j - 1);
    }
  }

  lemma {:induction false} TrailingDigitsAre(s: string, j: nat)
    requires j <= |s|
    ensures forall k :: j - TrailingDigits(s, j) <= k < j ==> IsAsciiDigit(s[k])
  {
    if j > 0 && IsAsciiDigit(s[j - 1]) {
      TrailingDigitsAre(s, j - 1);
    }
  }

  lemma {:induction false} TrailingDigitsFrom(s: string, i: nat, j: nat)
    requires i <= j <= |s| && (forall k :: i <= k < j ==> IsAsciiDigit(s[k]))
    requires i == 0 || !IsAsciiDigit(s[i - 1])
    ensures TrailingDigits(s, j) == j - i
  {
    if i < j {
      TrailingDigitsFrom(s, i, j - 1);
    }
  }

  /** A printed token parses back to its prefix and numeral, whatever digits and underscores
      the prefix itself holds. */
  lemma TokenParses(prefix: string, n: nat)
    requires IsTokenPrefix(prefix)
    ensures ParseToken(Token(prefix, n)) == TokenParts(prefix, Dec(n))
  {
    TokenLayout(prefix, Dec(n));
    LaidOutParses(Token(prefix, n), |prefix| + 2);
  }

  lemma LaidOutParses(t: string, cut: nat)
    requires 3 <= cut < |t| - 1 && t[0] == '<' && t[|t| - 1] == '>' && t[cut - 1] == '_'
    requires forall k :: 1 <= k < cut - 1 ==> IsTokenChar(t[k])
    requires forall k :: cut <= k < |t| - 1 ==> IsAsciiDigit(t[k])
    ensures ParseToken(t) == TokenParts(t[1..cut - 1], t[cut..|t| - 1])
  {
    TrailingDigitsFrom(t, cut, |t| - 1);
    AllTokenCharsAre(t, 1, cut - 1);
  }

  lemma TokenLayout(prefix: string, digits: string)
    requires IsTokenPrefix(prefix) && digits != [] && AllDigits(digits)
    ensures var t := "<" + prefix + "_" + digits + ">";
            var cut, end := |prefix| + 2, |t| - 1;
            && t[0] == '<' && t[end] == '>' && t[cut - 1] == '_'
            && t[1..cut - 1] == prefix && t[cut..end] == digits
            && (forall k :: 1 <= k < cut - 1 ==> IsTokenChar(t[k]))
            && (forall k :: cut <= k < end ==> IsAsciiDigit(t[k]))
  {
    var t := "<" + prefix + "_" + digits + ">";
    assert forall k :: 1 <= k < |prefix| + 1 ==> t[k] == prefix[k - 1];
    assert forall k :: |prefix| + 2 <= k < |t| - 1 ==> t[k] == digits[k - |prefix| - 2];
  }

  /** And what parses as a token is printed that way, up to leading zeros. */
  lemma ParsedToken(s: string)
    requires IsToken(s)
    ensures var p := ParseToken(s); s == "<" + p.prefix + "_" + p.digits + ">"
    ensures var p := ParseToken(s); IsTokenPrefix(p.prefix) && p.digits != [] && AllDigits(p.digits)
  {
    var end := |s| - 1;
    var cut := end - TrailingDigits(s, end);
    TrailingDigitsAre(s, end);
    AllTokenCharsAre(s, 1, cut - 1);
    assert s == [s[0]] + s[1..cut - 1] + [s[cut - 1]] + s[cut..end] + [s[end]];
  }

  lemma TokenInjective(p: string, m: nat, q: string, n: nat)
    requires IsTokenPrefix(p) && IsTokenPrefix(q) && Token(p, m) == Token(q, n)
    ensures p == q && m == n
  {
    TokenParses(p, m);
    TokenParses(q, n);
    DecInjective(m, n);
  }
}
