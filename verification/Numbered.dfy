/** The two searches for a numbered pseudonym, Prefix-N and <PREFIX_N>: from a start upwards to the
    first number whose rendering is neither taken nor written in the reserved text. */
module Numbered {
  import opened Unicode
  import opened Tokens

  predicate OccursAt(hay: string, needle: string, i: int) {
    0 <= i && i + |needle| <= |hay| && hay[i..i + |needle|] == needle
  }

  /** strings.Contains. */
  predicate Contains(hay: string, needle: string) {
    exists i :: 0 <= i <= |hay| && OccursAt(hay, needle, i)
  }

  /** reservedContains: the candidate, lower-cased, stands in the (lower-cased) reserved text. */
  predicate ReservedContains(u: Tables, reserved: string, candidate: string) {
    reserved != [] && Contains(reserved, Fold(u, candidate))
  }

  predicate Free(u: Tables, used: set<string>, reserved: string, candidate: string) {
    candidate !in used && !ReservedContains(u, reserved, candidate)
  }

  /** What stands around the number: the head ends in a character that is no digit and has no case. */
  datatype Frame = Frame(head: string, tail: string)
  {
    predicate Good() {
      head != [] && IsMark(head[|head| - 1]) && !IsAsciiDigit(head[|head| - 1])
    }

    function Render(n: nat): string { head + Dec(n) + tail }
  }

  lemma RenderInjective(f: Frame, m: nat, n: nat)
    requires f.Render(m) == f.Render(n)
    ensures m == n
  {
    assert Dec(m) == f.Render(m)[|f.head|..|f.Render(m)| - |f.tail|];
    assert Dec(n) == f.Render(n)[|f.head|..|f.Render(n)| - |f.tail|];
    DecInjective(m, n);
  }

  // ---- Pigeonhole ----

  /** The rendering of n ends at e in the reserved text. */
  predicate EndsAt(u: Tables, reserved: string, f: Frame, n: nat, e: int) {
    e <= |reserved| && OccursAt(reserved, Fold(u, f.Render(n)), e - |f.Render(n)|)
  }

  /** Folding changes neither the number nor the character before it. */
  lemma FoldRender(u: Tables, f: Frame, n: nat)
    requires Lawful(u) && f.Good()
    ensures var r, a := Fold(u, f.Render(n)), |f.head|;
            |r| == a + |Dec(n)| + |f.tail| && r[a - 1] == f.head[a - 1] && r[a..a + |Dec(n)|] == Dec(n)
  {
    var r, a, d := f.Render(n), |f.head|, Dec(n);
    assert r[a - 1] == f.head[a - 1] && r[a..a + |d|] == d;
    assert LawfulAt(u, f.head[a - 1]);
    forall k | 0 <= k < |d|
      ensures Fold(u, r)[a + k] == d[k]
    {
      assert r[a + k] == r[a..a + |d|][k];
      assert LawfulAt(u, d[k]);
    }
  }

  /** Where s stands, its digits from a to b are the run of digits before their end. */
  lemma DigitsBefore(hay: string, o: nat, s: string, a: nat, b: nat)
    requires o + |s| <= |hay| && hay[o..o + |s|] == s && 0 < a <= b <= |s|
    requires !IsAsciiDigit(s[a - 1]) && AllDigits(s[a..b])
    ensures TrailingDigits(hay, o + b) == b - a && hay[o + a..o + b] == s[a..b]
  {
    hide IsAsciiDigit;
    assert forall k :: 0 <= k < |s| ==> hay[o + k] == s[k];
    forall k | o + a <= k < o + b
      ensures IsAsciiDigit(hay[k])
    {
      assert hay[k] == s[k - o] == s[a..b][k - o - a];
    }
    TrailingDigitsFrom(hay, o + a, o + b);
  }

  /** The digits before the tail, up to the head's last character, are the number. */
  lemma EndTellsDigits(u: Tables, reserved: string, f: Frame, n: nat, e: int)
    requires Lawful(u) && f.Good() && EndsAt(u, reserved, f, n, e)
    ensures var j := e - |f.tail|;
            0 <= j <= |reserved| && TrailingDigits(reserved, j) == |Dec(n)| && reserved[j - |Dec(n)|..j] == Dec(n)
  {
    FoldRender(u, f, n);
    var s := Fold(u, f.Render(n));
    assert |s| == |f.Render(n)| && !IsAsciiDigit(f.head[|f.head| - 1]);
    hide *;
    EndDigits(reserved, s, e, |f.head|, Dec(n));
    assert |s| - |f.head| - |Dec(n)| == |f.tail|;
  }

  lemma EndDigits(hay: string, s: string, e: int, a: nat, d: string)
    requires e <= |hay| && OccursAt(hay, s, e - |s|)
    requires 0 < a && a + |d| <= |s| && !IsAsciiDigit(s[a - 1]) && s[a..a + |d|] == d && AllDigits(d)
    ensures var j := e - (|s| - a - |d|);
            |d| <= j <= |hay| && TrailingDigits(hay, j) == |d| && hay[j - |d|..j] == d
  {
    hide AllDigits, IsAsciiDigit, TrailingDigits;
    DigitsBefore(hay, e - |s|, s, a, a + |d|);
  }

  /** No two numbers end at one place. */
  lemma EndTellsNumber(u: Tables, reserved: string, f: Frame, m: nat, n: nat, e: int)
    requires Lawful(u) && f.Good() && EndsAt(u, reserved, f, m, e) && EndsAt(u, reserved, f, n, e)
    ensures m == n
  {
    EndTellsDigits(u, reserved, f, m, e);
    EndTellsDigits(u, reserved, f, n, e);
    DecInjective(m, n);
  }

  ghost predicate AllTaken(u: Tables, used: set<string>, reserved: string, f: Frame, lo: nat, hi: nat) {
    forall n: nat :: lo <= n < hi ==> !Free(u, used, reserved, f.Render(n))
  }

  ghost predicate IsUsedNumber(f: Frame, s: string, lo: nat, hi: nat) {
    exists n: nat :: lo <= n < hi && f.Render(n) == s
  }

  ghost predicate IsEndNumber(u: Tables, reserved: string, f: Frame, e: int, lo: nat, hi: nat) {
    exists n: nat :: lo <= n < hi && EndsAt(u, reserved, f, n, e)
  }

  /** Each taken number has its own used string or its own place in the reserved text. */
  lemma {:induction false} Witnesses(u: Tables, used: set<string>, reserved: string, f: Frame, lo: nat, hi: nat)
    returns (us: set<string>, es: set<int>)
    requires Lawful(u) && f.Good() && lo <= hi && AllTaken(u, used, reserved, f, lo, hi)
    ensures |us| + |es| == hi - lo && us <= used
    ensures forall s :: s in us ==> IsUsedNumber(f, s, lo, hi)
    ensures forall e :: e in es ==> 0 < e <= |reserved| && IsEndNumber(u, reserved, f, e, lo, hi)
    decreases hi
  {
    if lo == hi {
      us, es := {}, {};
    } else {
      var n := hi - 1;
      us, es := Witnesses(u, used, reserved, f, lo, n);
      hide EndsAt, ReservedContains;
      if f.Render(n) in used {
        forall m: nat | lo <= m < n
          ensures f.Render(m) != f.Render(n)
        {
          if f.Render(m) == f.Render(n) { RenderInjective(f, m, n); }
        }
        us := us + {f.Render(n)};
      } else {
        assert ReservedContains(u, reserved, f.Render(n));
        var e := EndOf(u, reserved, f, n);
        forall m: nat | lo <= m < n
          ensures !EndsAt(u, reserved, f, m, e)
        {
          if EndsAt(u, reserved, f, m, e) { EndTellsNumber(u, reserved, f, m, n, e); }
        }
        es := es + {e};
      }
    }
  }

  lemma EndOf(u: Tables, reserved: string, f: Frame, n: nat) returns (e: int)
    requires ReservedContains(u, reserved, f.Render(n)) && f.head != []
    ensures EndsAt(u, reserved, f, n, e) && 0 < e <= |reserved|
  {
    var r := Fold(u, f.Render(n));
    var i :| 0 <= i <= |reserved| && OccursAt(reserved, r, i);
    e := i + |r|;
  }

  lemma {:induction false} Places(es: set<int>, n: nat)
    requires forall e :: e in es ==> 0 < e <= n
    ensures |es| <= n
  {
    if n == 0 {
      assert forall e :: e !in es;
    } else {
      Places(es - {n}, n - 1);
    }
  }

  lemma {:induction false} SubsetSize<T>(a: set<T>, b: set<T>)
    requires a <= b
    ensures |a| <= |b|
  {
    if a != {} {
      var x :| x in a;
      SubsetSize(a - {x}, b - {x});
    }
  }

  /** So no more numbers are taken in a row than there are used strings and reserved characters. */
  lemma Pigeonhole(u: Tables, used: set<string>, reserved: string, f: Frame, lo: nat, hi: nat)
    requires Lawful(u) && f.Good() && lo <= hi && AllTaken(u, used, reserved, f, lo, hi)
    ensures hi - lo <= |used| + |reserved|
  {
    var us, es := Witnesses(u, used, reserved, f, lo, hi);
    SubsetSize(us, used);
    Places(es, |reserved|);
  }

  /** n is the first number from lo on that is free. */
  ghost predicate FirstFree(u: Tables, used: set<string>, reserved: string, f: Frame, lo: nat, n: nat) {
    lo <= n && Free(u, used, reserved, f.Render(n)) && AllTaken(u, used, reserved, f, lo, n)
  }

  /** The search ends, at most as many steps on as there are used strings and reserved characters. */
  method Search(u: Tables, used: set<string>, reserved: string, f: Frame, lo: nat) returns (n: nat)
    requires Lawful(u) && f.Good()
    ensures FirstFree(u, used, reserved, f, lo, n) && n <= lo + |used| + |reserved|
  {
    hide Free;
    n := lo;
    Pigeonhole(u, used, reserved, f, lo, n);
    while !Free(u, used, reserved, f.Render(n))
      invariant lo <= n <= lo + |used| + |reserved| && AllTaken(u, used, reserved, f, lo, n)
      decreases lo + |used| + |reserved| - n
    {
      n := n + 1;
      Pigeonhole(u, used, reserved, f, lo, n);
    }
  }
}
