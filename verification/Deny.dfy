/** DenyMatcher: deny-listed terms found as whole words, longer terms first. */
module Deny {
  import opened Unicode
  import opened Scanner

  // ---- The terms of a type ----

  datatype DenyList = DenyList(entity: string, terms: seq<string>)

  /** The terms of n bytes, in order. */
  function OfLength(terms: seq<string>, n: nat): seq<string> {
    if terms == [] then []
    else
      var last := terms[|terms| - 1];
      OfLength(terms[..|terms| - 1], n) + (if ByteLen(last) == n then [last] else [])
  }

  ghost predicate LongFirst(terms: seq<string>) {
    forall i, j :: 0 <= i < j < |terms| ==> ByteLen(terms[i]) >= ByteLen(terms[j])
  }

  /** t goes behind every term at least as long. */
  function InsertTerm(terms: seq<string>, t: string): seq<string> {
    if terms == [] || ByteLen(terms[|terms| - 1]) >= ByteLen(t) then terms + [t]
    else InsertTerm(terms[..|terms| - 1], t) + [terms[|terms| - 1]]
  }

  lemma {:induction false} InsertHolds(terms: seq<string>, t: string)
    ensures forall x :: x in InsertTerm(terms, t) <==> x in terms || x == t
  {
    if terms != [] && ByteLen(terms[|terms| - 1]) < ByteLen(t) {
      var r, last := terms[..|terms| - 1], terms[|terms| - 1];
      InsertHolds(r, t);
      assert terms == r + [last];
    }
  }

  lemma {:induction false} InsertKeepsOrder(terms: seq<string>, t: string)
    requires LongFirst(terms)
    ensures LongFirst(InsertTerm(terms, t))
  {
    hide ByteLen;
    if terms != [] && ByteLen(terms[|terms| - 1]) < ByteLen(t) {
      var r, last := terms[..|terms| - 1], terms[|terms| - 1];
      InsertKeepsOrder(r, t);
      InsertHolds(r, t);
      var s := InsertTerm(r, t);
      forall i | 0 <= i < |s|
        ensures ByteLen(s[i]) >= ByteLen(last)
      {
        assert s[i] in s;
        assert s[i] != t ==> s[i] in r;
      }
    }
  }

  lemma {:induction false} InsertIsStable(terms: seq<string>, t: string, n: nat)
    requires LongFirst(terms)
    ensures OfLength(InsertTerm(terms, t), n) == OfLength(terms, n) + (if ByteLen(t) == n then [t] else [])
  {
    if terms == [] || ByteLen(terms[|terms| - 1]) >= ByteLen(t) {
      assert (terms + [t])[..|terms|] == terms;
    } else {
      var r, last := terms[..|terms| - 1], terms[|terms| - 1];
      InsertIsStable(r, t, n);
      var s := InsertTerm(r, t) + [last];
      assert s[..|s| - 1] == InsertTerm(r, t);
    }
  }

  /** sort.SliceStable by length: longer terms first, terms of one length in their old order. */
  method SortTerms(terms: seq<string>) returns (r: seq<string>)
    ensures LongFirst(r) && forall n :: OfLength(r, n) == OfLength(terms, n)
    ensures forall t :: t in r <==> t in terms
  {
    r := [];
    for i := 0 to |terms|
      invariant LongFirst(r) && forall n :: OfLength(r, n) == OfLength(terms[..i], n)
      invariant forall t :: t in r <==> t in terms[..i]
    {
      assert terms[..i + 1] == terms[..i] + [terms[i]];
      forall n: nat
        ensures OfLength(InsertTerm(r, terms[i]), n) == OfLength(terms[..i + 1], n)
      {
        InsertIsStable(r, terms[i], n);
        assert terms[..i + 1][..i] == terms[..i];
      }
      InsertKeepsOrder(r, terms[i]);
      InsertHolds(r, terms[i]);
      r := InsertTerm(r, terms[i]);
    }
    assert terms[..|terms|] == terms;
  }

  // ---- Occurrences ----

  /** Characters [start, end) of the text. */
  datatype Loc = Loc(start: nat, end: nat)

  predicate Intersects(a: Loc, b: Loc) {
    a.start < b.end && b.start < a.end
  }

  /** The leftmost occurrences of p from i on, none overlapping the one before: FindAllStringIndex
      of the quoted term. */
  function Occurrences(u: Tables, text: string, p: string, i: nat): (r: seq<nat>)
    requires p != []
    ensures forall k :: 0 <= k < |r| ==> i <= r[k] && MatchesAt(u, text, r[k], p)
    ensures i + |r| <= |text| || r == []
    decreases |text| - i
  {
    if i + |p| > |text| then []
    else if MatchesAt(u, text, i, p) then [i] + Occurrences(u, text, p, i + |p|)
    else Occurrences(u, text, p, i + 1)
  }

  /** The scan passes over an occurrence only behind an earlier one that overlaps it. */
  lemma {:induction false} FoundOrPassed(u: Tables, text: string, p: string, i: nat, q: nat)
    requires p != [] && i <= q && MatchesAt(u, text, q, p)
    ensures q in Occurrences(u, text, p, i) || exists k :: k in Occurrences(u, text, p, i) && k < q < k + |p|
    decreases |text| - i
  {
    if MatchesAt(u, text, i, p) {
      var rest := Occurrences(u, text, p, i + |p|);
      assert Occurrences(u, text, p, i) == [i] + rest;
      if q >= i + |p| {
        FoundOrPassed(u, text, p, i + |p|, q);
        assert forall k :: k in rest ==> k in [i] + rest;
      } else if q > i {
        assert i in [i] + rest;
      }
    } else {
      FoundOrPassed(u, text, p, i + 1, q);
    }
  }

  /** No end of p that starts outside a word is a beginning of p. */
  ghost predicate NoWordBorder(u: Tables, p: string) {
    forall k: nat :: !WordBorder(u, p, k)
  }

  predicate WordBorder(u: Tables, p: string, k: nat) {
    0 < k < |p| && !IsWordRune(u, p[k - 1]) && p[k..] == p[..|p| - k]
  }

  /** Two overlapping occurrences make an end of p a beginning of p. */
  lemma OverlapIsBorder(u: Tables, text: string, p: string, a: nat, b: nat)
    requires MatchesAt(u, text, a, p) && MatchesAt(u, text, b, p) && a < b < a + |p|
    ensures p[b - a..] == p[..|p| - (b - a)]
  {
    var k := b - a;
    CharsAt(u, text, p, a);
    CharsAt(u, text, p, b);
    hide MatchesAt;
    forall m | 0 <= m < |p| - k
      ensures p[k..][m] == p[..|p| - k][m]
    {
      assert p[k + m] == u.Lower(text[a + (k + m)]) == u.Lower(text[b + m]) == p[m];
    }
  }

  lemma CharsAt(u: Tables, text: string, p: string, i: nat)
    requires MatchesAt(u, text, i, p)
    ensures forall m :: 0 <= m < |p| ==> p[m] == u.Lower(text[i + m])
  {
    var s := text[i..i + |p|];
    forall m | 0 <= m < |p|
      ensures p[m] == u.Lower(text[i + m])
    {
      assert s[m] == text[i + m];
    }
  }

  // ---- Whole words ----

  predicate BoundaryBefore(u: Tables, text: string, i: nat)
    requires i <= |text|
  {
    i == 0 || !IsWordRune(u, text[i - 1])
  }

  predicate BoundaryAfter(u: Tables, text: string, i: nat)
    requires i <= |text|
  {
    i == |text| || !IsWordRune(u, text[i])
  }

  /** The term stands at loc as whole words. */
  predicate StandsAt(u: Tables, text: string, term: string, loc: Loc) {
    && term != [] && MatchesAt(u, text, loc.start, Fold(u, term)) && loc.end == loc.start + |term|
    && BoundaryBefore(u, text, loc.start) && BoundaryAfter(u, text, loc.end)
  }

  /** The scan for the term comes by loc, and the term stands there as whole words. */
  ghost predicate ScannedAt(u: Tables, text: string, term: string, loc: Loc) {
    StandsAt(u, text, term, loc) && loc.start in Occurrences(u, text, Fold(u, term), 0)
  }

  /** One of the first n terms was found at loc. */
  ghost predicate FromTerms(u: Tables, text: string, terms: seq<string>, n: nat, loc: Loc)
    requires n <= |terms|
  {
    exists t :: 0 <= t < n && ScannedAt(u, text, terms[t], loc)
  }

  /** loc is reported, or intersects a reported occurrence of one of the first n terms. */
  ghost predicate Accounted(u: Tables, text: string, terms: seq<string>, n: nat, kept: seq<Loc>, loc: Loc)
    requires n <= |terms|
  {
    loc in kept || exists k :: k in kept && FromTerms(u, text, terms, n, k) && Intersects(loc, k)
  }

  ghost predicate Disjoint(kept: seq<Loc>) {
    forall i, j :: 0 <= i < j < |kept| ==> !Intersects(kept[i], kept[j])
  }

  /** Term t's whole-word matches among the first m of its scan are accounted for. */
  ghost predicate TermDone(u: Tables, text: string, terms: seq<string>, t: nat, m: nat, kept: seq<Loc>)
    requires t < |terms| && terms[t] != []
  {
    var occ := Occurrences(u, text, Fold(u, terms[t]), 0);
    forall k :: 0 <= k < m && k < |occ| && StandsAt(u, text, terms[t], LocOf(occ[k], terms[t])) ==>
      Accounted(u, text, terms, t + 1, kept, LocOf(occ[k], terms[t]))
  }

  function LocOf(start: nat, term: string): Loc { Loc(start, start + |term|) }

  ghost predicate NoneEmpty(terms: seq<string>) {
    forall t :: 0 <= t < |terms| ==> terms[t] != []
  }

  /** What Find keeps of the first n terms, and of the first m matches of the next. */
  ghost predicate Finds(u: Tables, text: string, terms: seq<string>, n: nat, kept: seq<Loc>)
    requires n <= |terms| && NoneEmpty(terms)
  {
    && Disjoint(kept)
    && (forall k :: k in kept ==> FromTerms(u, text, terms, n, k))
    && (forall t :: 0 <= t < n ==> TermDone(u, text, terms, t, |text|, kept))
  }

  method Overlaps(kept: seq<Loc>, loc: Loc) returns (yes: bool)
    ensures yes <==> exists k :: k in kept && Intersects(loc, k)
  {
    for i := 0 to |kept|
      invariant forall j :: 0 <= j < i ==> !Intersects(loc, kept[j])
    {
      if Intersects(loc, kept[i]) {
        return true;
      }
    }
    return false;
  }

  lemma StillAccounted(u: Tables, text: string, terms: seq<string>, n: nat, kept: seq<Loc>, more: seq<Loc>, loc: Loc)
    requires n <= |terms| && Accounted(u, text, terms, n, kept, loc)
    ensures Accounted(u, text, terms, n, kept + more, loc)
  {
    hide FromTerms;
    assert forall k :: k in kept ==> k in kept + more;
  }

  lemma StillDone(u: Tables, text: string, terms: seq<string>, t: nat, m: nat, kept: seq<Loc>, more: seq<Loc>)
    requires t < |terms| && terms[t] != [] && TermDone(u, text, terms, t, m, kept)
    ensures TermDone(u, text, terms, t, m, kept + more)
  {
    hide Accounted, StandsAt, MatchesAt;
    var occ := Occurrences(u, text, Fold(u, terms[t]), 0);
    forall k | 0 <= k < m && k < |occ| && StandsAt(u, text, terms[t], LocOf(occ[k], terms[t]))
      ensures Accounted(u, text, terms, t + 1, kept + more, LocOf(occ[k], terms[t]))
    {
      StillAccounted(u, text, terms, t + 1, kept, more, LocOf(occ[k], terms[t]));
    }
  }

  /** The state of the inner loop: term n's first m matches looked at. */
  ghost predicate FindsPartly(u: Tables, text: string, terms: seq<string>, n: nat, m: nat, kept: seq<Loc>)
    requires n < |terms| && NoneEmpty(terms)
  {
    && Disjoint(kept)
    && (forall k :: k in kept ==> FromTerms(u, text, terms, n + 1, k))
    && (forall t :: 0 <= t < n ==> TermDone(u, text, terms, t, |text|, kept))
    && TermDone(u, text, terms, n, m, kept)
  }

  lemma KeepOne(u: Tables, text: string, terms: seq<string>, n: nat, m: nat, kept: seq<Loc>, loc: Loc)
    requires n < |terms| && NoneEmpty(terms) && FindsPartly(u, text, terms, n, m, kept)
    requires m < |Occurrences(u, text, Fold(u, terms[n]), 0)| && loc == LocOf(Occurrences(u, text, Fold(u, terms[n]), 0)[m], terms[n])
    requires StandsAt(u, text, terms[n], loc) && !exists k :: k in kept && Intersects(loc, k)
    ensures FindsPartly(u, text, terms, n, m + 1, kept + [loc])
  {
    hide StandsAt, MatchesAt, Occurrences;
    forall t | 0 <= t < n
      ensures TermDone(u, text, terms, t, |text|, kept + [loc])
    {
      StillDone(u, text, terms, t, |text|, kept, [loc]);
    }
    StillDone(u, text, terms, n, m, kept, [loc]);
    var all := kept + [loc];
    assert all[|kept|] == loc && FromTerms(u, text, terms, n + 1, loc);
    forall i, j | 0 <= i < j < |all|
      ensures !Intersects(all[i], all[j])
    {
      if j == |kept| {
        assert kept[i] in kept;
      }
    }
  }

  lemma PassOne(u: Tables, text: string, terms: seq<string>, n: nat, m: nat, kept: seq<Loc>, loc: Loc)
    requires n < |terms| && NoneEmpty(terms) && FindsPartly(u, text, terms, n, m, kept)
    requires m < |Occurrences(u, text, Fold(u, terms[n]), 0)| && loc == LocOf(Occurrences(u, text, Fold(u, terms[n]), 0)[m], terms[n])
    requires !StandsAt(u, text, terms[n], loc) || exists k :: k in kept && Intersects(loc, k)
    ensures FindsPartly(u, text, terms, n, m + 1, kept)
  {
    hide StandsAt, MatchesAt, Occurrences;
  }

  /** The matches of one term. */
  method FindTerm(u: Tables, text: string, terms: seq<string>, n: nat, before: seq<Loc>) returns (kept: seq<Loc>)
    requires n < |terms| && NoneEmpty(terms) && Finds(u, text, terms, n, before)
    ensures Finds(u, text, terms, n + 1, kept)
  {
    kept := before;
    var occ := Occurrences(u, text, Fold(u, terms[n]), 0);
    MoreTerms(u, text, terms, n, kept);
    for m := 0 to |occ|
      invariant FindsPartly(u, text, terms, n, m, kept)
    {
      hide FindsPartly, Finds, Disjoint;
      var loc := LocOf(occ[m], terms[n]);
      var taken := Overlaps(kept, loc);
      if !BoundaryBefore(u, text, loc.start) || !BoundaryAfter(u, text, loc.end) || taken {
        PassOne(u, text, terms, n, m, kept, loc);
        continue;
      }
      KeepOne(u, text, terms, n, m, kept, loc);
      kept := kept + [loc];
    }
    AllLooked(u, text, terms, n, kept);
  }

  lemma MoreTerms(u: Tables, text: string, terms: seq<string>, n: nat, kept: seq<Loc>)
    requires n < |terms| && NoneEmpty(terms) && Finds(u, text, terms, n, kept)
    ensures FindsPartly(u, text, terms, n, 0, kept)
  {
    hide StandsAt;
  }

  lemma AllLooked(u: Tables, text: string, terms: seq<string>, n: nat, kept: seq<Loc>)
    requires n < |terms| && NoneEmpty(terms) && FindsPartly(u, text, terms, n, |Occurrences(u, text, Fold(u, terms[n]), 0)|, kept)
    ensures Finds(u, text, terms, n + 1, kept)
  {
    hide StandsAt, Occurrences, Accounted;
  }

  method FindAll(u: Tables, text: string, terms: seq<string>) returns (kept: seq<Loc>)
    requires NoneEmpty(terms)
    ensures Finds(u, text, terms, |terms|, kept)
  {
    kept := [];
    for n := 0 to |terms|
      invariant Finds(u, text, terms, n, kept)
    {
      kept := FindTerm(u, text, terms, n, kept);
    }
  }

  // ---- What is found ----

  /** Reported spans are whole-word occurrences of terms, pairwise disjoint. */
  lemma ReportedAreTerms(u: Tables, text: string, terms: seq<string>, kept: seq<Loc>, i: nat, j: nat)
    requires NoneEmpty(terms) && Finds(u, text, terms, |terms|, kept) && i < |kept| && j < |kept|
    ensures FromTerms(u, text, terms, |terms|, kept[i])
    ensures i != j ==> !Intersects(kept[i], kept[j])
  {
    hide FromTerms;
    assert kept[i] in kept;
  }

  /** A reported occurrence of a term at least as long, in bytes. */
  ghost predicate ReportedLonger(u: Tables, text: string, terms: seq<string>, kept: seq<Loc>, t: nat, k: Loc)
    requires t < |terms|
  {
    k in kept && exists s :: 0 <= s < |terms| && StandsAt(u, text, terms[s], k) && ByteLen(terms[s]) >= ByteLen(terms[t])
  }

  /** Hidden behind a match of the same term that overlaps it and is not reported. */
  ghost predicate Hidden(u: Tables, text: string, term: string, kept: seq<Loc>, loc: Loc) {
    exists k: nat :: HidesAt(u, text, term, kept, loc, k)
  }

  ghost predicate HidesAt(u: Tables, text: string, term: string, kept: seq<Loc>, loc: Loc, k: nat) {
    MatchesAt(u, text, k, Fold(u, term)) && k < loc.start < k + |term| && LocOf(k, term) !in kept
  }

  ghost predicate Covered(u: Tables, text: string, terms: seq<string>, kept: seq<Loc>, t: nat, loc: Loc)
    requires t < |terms|
  {
    loc in kept || exists k :: ReportedLonger(u, text, terms, kept, t, k) && Intersects(loc, k)
  }

  lemma AccountedIsCovered(u: Tables, text: string, terms: seq<string>, kept: seq<Loc>, t: nat, loc: Loc)
    requires t < |terms| && LongFirst(terms) && Accounted(u, text, terms, t + 1, kept, loc)
    ensures Covered(u, text, terms, kept, t, loc)
  {
    hide StandsAt, Occurrences, Intersects, ByteLen;
    if loc !in kept {
      var k :| k in kept && FromTerms(u, text, terms, t + 1, k) && Intersects(loc, k);
      assert ReportedLonger(u, text, terms, kept, t, k);
    }
  }

  lemma ScannedIsCovered(u: Tables, text: string, terms: seq<string>, kept: seq<Loc>, t: nat, loc: Loc)
    requires NoneEmpty(terms) && LongFirst(terms) && Finds(u, text, terms, |terms|, kept)
    requires t < |terms| && StandsAt(u, text, terms[t], loc) && loc.start in Occurrences(u, text, Fold(u, terms[t]), 0)
    ensures Covered(u, text, terms, kept, t, loc)
  {
    hide MatchesAt, BoundaryBefore, BoundaryAfter, Disjoint, Accounted, Covered, LongFirst, FromTerms;
    var occ := Occurrences(u, text, Fold(u, terms[t]), 0);
    assert TermDone(u, text, terms, t, |text|, kept);
    var m :| 0 <= m < |occ| && occ[m] == loc.start;
    assert LocOf(occ[m], terms[t]) == loc;
    AccountedIsCovered(u, text, terms, kept, t, loc);
  }

  lemma OverlapIsCovered(u: Tables, text: string, terms: seq<string>, kept: seq<Loc>, t: nat, loc: Loc, k: nat)
    requires NoneEmpty(terms) && Finds(u, text, terms, |terms|, kept)
    requires t < |terms| && StandsAt(u, text, terms[t], loc) && MatchesAt(u, text, k, Fold(u, terms[t])) && k < loc.start < k + |terms[t]|
    ensures Covered(u, text, terms, kept, t, loc) || Hidden(u, text, terms[t], kept, loc)
  {
    hide MatchesAt, Occurrences, BoundaryBefore, BoundaryAfter, Disjoint, TermDone;
    var own := LocOf(k, terms[t]);
    if own in kept {
      assert FromTerms(u, text, terms, |terms|, own);
      assert StandsAt(u, text, terms[t], own);
      assert ReportedLonger(u, text, terms, kept, t, own);
      assert Intersects(loc, own);
    } else {
      assert HidesAt(u, text, terms[t], kept, loc, k);
    }
  }

  /** Every whole-word occurrence of a term is reported, or intersects a reported occurrence of a
      term at least as long, or is hidden behind an overlapping match of its own. */
  lemma FoundOrHidden(u: Tables, text: string, terms: seq<string>, kept: seq<Loc>, t: nat, loc: Loc)
    requires NoneEmpty(terms) && LongFirst(terms) && Finds(u, text, terms, |terms|, kept)
    requires t < |terms| && StandsAt(u, text, terms[t], loc)
    ensures Covered(u, text, terms, kept, t, loc) || Hidden(u, text, terms[t], kept, loc)
  {
    var p := Fold(u, terms[t]);
    FoundOrPassed(u, text, p, 0, loc.start);
    hide MatchesAt, Occurrences, Finds, Covered, Hidden;
    if loc.start in Occurrences(u, text, p, 0) {
      ScannedIsCovered(u, text, terms, kept, t, loc);
    } else {
      var k :| k in Occurrences(u, text, p, 0) && k < loc.start < k + |p|;
      OverlapIsCovered(u, text, terms, kept, t, loc, k);
    }
  }

  /** A term without a beginning that returns behind a word of its own is never missed: each of its
      whole-word occurrences is reported or intersects a reported occurrence of a term at least as
      long. */
  lemma NeverMissed(u: Tables, text: string, terms: seq<string>, kept: seq<Loc>, t: nat, loc: Loc)
    requires Lawful(u) && NoneEmpty(terms) && LongFirst(terms) && Finds(u, text, terms, |terms|, kept)
    requires t < |terms| && StandsAt(u, text, terms[t], loc) && NoWordBorder(u, Fold(u, terms[t]))
    ensures Covered(u, text, terms, kept, t, loc)
  {
    FoundOrHidden(u, text, terms, kept, t, loc);
    hide MatchesAt, Finds, Covered, BoundaryAfter, WordBorder;
    if k: nat :| HidesAt(u, text, terms[t], kept, loc, k) {
      OverlapIsWordBorder(u, text, Fold(u, terms[t]), k, loc.start);
    }
  }

  /** Two overlapping occurrences, the later one at a word start. */
  lemma OverlapIsWordBorder(u: Tables, text: string, p: string, a: nat, b: nat)
    requires Lawful(u) && MatchesAt(u, text, a, p) && MatchesAt(u, text, b, p) && a < b < a + |p|
    requires b <= |text| && BoundaryBefore(u, text, b)
    ensures WordBorder(u, p, b - a)
  {
    OverlapIsBorder(u, text, p, a, b);
    CharsAt(u, text, p, a);
    FoldKeepsWordClasses(u, text[b - 1]);
    hide MatchesAt;
    assert p[b - a - 1] == u.Lower(text[a + (b - a - 1)]);
  }

  /** loc is a whole-word occurrence of the term, one of the terms searched for, that is neither
      reported nor intersected by a reported one at least as long. */
  ghost predicate Misses(u: Tables, term: string, text: string, terms: seq<string>, kept: seq<Loc>, t: nat, loc: Loc) {
    && t < |terms| && terms[t] == term && NoneEmpty(terms) && LongFirst(terms) && Finds(u, text, terms, |terms|, kept)
    && StandsAt(u, text, term, loc) && !Covered(u, text, terms, kept, t, loc)
  }

  /** Exactly the terms without such a beginning are never missed, whatever the text and the other
      terms. */
  lemma MissedIff(u: Tables, term: string)
    requires Lawful(u) && term != []
    ensures NoWordBorder(u, Fold(u, term)) <==>
            !exists text, terms, kept, t: nat, loc :: Misses(u, term, text, terms, kept, t, loc)
  {
    hide StandsAt, Finds, Covered, WordBorder, LongFirst;
    if NoWordBorder(u, Fold(u, term)) {
      forall text, terms, kept, t: nat, loc
        ensures !Misses(u, term, text, terms, kept, t, loc)
      {
        hide NoWordBorder;
        if t < |terms| && terms[t] == term && NoneEmpty(terms) && LongFirst(terms) && Finds(u, text, terms, |terms|, kept) && StandsAt(u, text, term, loc) {
          NeverMissed(u, text, terms, kept, t, loc);
        }
      }
    } else {
      var k: nat :| WordBorder(u, Fold(u, term), k);
      BorderMissed(u, term, k);
    }
  }

  /** A letter that is not the one p starts with. */
  function OtherLetter(p: string): (x: char)
    requires p != []
    ensures IsAsciiLower(x) && x != p[0]
  {
    if p[0] == 'a' then 'b' else 'a'
  }

  /** The border's beginning of the term glued to a letter, and the term behind it. */
  function Bordered(u: Tables, term: string, k: nat): string
    requires 0 < k < |term|
  {
    [OtherLetter(Fold(u, term))] + term[..k] + term
  }

  lemma BorderedFold(u: Tables, term: string, k: nat)
    requires Lawful(u) && 0 < k < |term|
    ensures var p := Fold(u, term);
            Fold(u, Bordered(u, term, k)) == [OtherLetter(p)] + p[..k] + p
  {
    assert LawfulAt(u, OtherLetter(Fold(u, term)));
  }

  lemma MatchesFolded(u: Tables, text: string, i: nat, p: string)
    requires i + |p| <= |text|
    ensures MatchesAt(u, text, i, p) <==> Fold(u, text)[i..i + |p|] == p
  {
    assert Fold(u, text)[i..i + |p|] == Fold(u, text[i..i + |p|]);
  }

  lemma BorderMatches(u: Tables, term: string, k: nat)
    requires Lawful(u) && term != [] && WordBorder(u, Fold(u, term), k)
    ensures |Bordered(u, term, k)| == 1 + k + |term|
    ensures var text, p := Bordered(u, term, k), Fold(u, term);
            !MatchesAt(u, text, 0, p) && MatchesAt(u, text, 1, p) && MatchesAt(u, text, 1 + k, p)
  {
    var text, p := Bordered(u, term, k), Fold(u, term);
    BorderedFold(u, term, k);
    MatchesFolded(u, text, 0, p);
    MatchesFolded(u, text, 1, p);
    MatchesFolded(u, text, 1 + k, p);
    hide *;
    BorderShifts(p, k, OtherLetter(p));
  }

  lemma BorderShifts(p: string, k: nat, x: char)
    requires 0 < k < |p| && p[k..] == p[..|p| - k] && x != p[0]
    ensures var f := [x] + p[..k] + p;
            f[0..|p|] != p && f[1..1 + |p|] == p && f[1 + k..1 + k + |p|] == p
  {
    var f := [x] + p[..k] + p;
    assert f[0..|p|][0] == x;
    forall m | 0 <= m < |p|
      ensures f[1..1 + |p|][m] == p[m]
    {
      if m >= k {
        assert p[k..][m - k] == p[..|p| - k][m - k];
      }
    }
  }

  lemma OneScanned(u: Tables, text: string, p: string)
    requires 0 < |p| && |text| < 1 + |p| + |p| && !MatchesAt(u, text, 0, p) && MatchesAt(u, text, 1, p)
    ensures Occurrences(u, text, p, 0) == [1]
  {
    assert Occurrences(u, text, p, 1 + |p|) == [];
    assert Occurrences(u, text, p, 1) == [1] + Occurrences(u, text, p, 1 + |p|);
  }

  lemma BorderMissed(u: Tables, term: string, k: nat)
    requires Lawful(u) && term != [] && WordBorder(u, Fold(u, term), k)
    ensures Misses(u, term, Bordered(u, term, k), [term], [], 0, Loc(1 + k, 1 + k + |term|))
  {
    var text := Bordered(u, term, k);
    BorderMatches(u, term, k);
    OneScanned(u, text, Fold(u, term));
    BorderBoundaries(u, term, k);
    hide MatchesAt, Occurrences, Bordered, BoundaryBefore, BoundaryAfter, Fold;
    NothingFound(u, text, term);
    assert StandsAt(u, text, term, Loc(1 + k, 1 + k + |term|));
  }

  lemma BorderBoundaries(u: Tables, term: string, k: nat)
    requires Lawful(u) && term != [] && WordBorder(u, Fold(u, term), k)
    ensures var text := Bordered(u, term, k);
            |text| == 1 + k + |term| && !BoundaryBefore(u, text, 1) && BoundaryBefore(u, text, 1 + k) && BoundaryAfter(u, text, |text|)
  {
    var text, x := Bordered(u, term, k), OtherLetter(Fold(u, term));
    assert LawfulAt(u, x);
    assert text[0] == x && text[k] == term[k - 1];
    FoldKeepsWordClasses(u, term[k - 1]);
  }

  /** Of one term, whose one match is no whole word, nothing is reported. */
  lemma NothingFound(u: Tables, text: string, term: string)
    requires term != [] && Occurrences(u, text, Fold(u, term), 0) == [1] && 1 <= |text| && !BoundaryBefore(u, text, 1)
    ensures Finds(u, text, [term], 1, [])
  {
    hide MatchesAt, Occurrences, BoundaryBefore, BoundaryAfter, Fold;
    assert !StandsAt(u, text, term, LocOf(1, term));
  }

  const TEXT := "xa a a"

  const TERM := "a a"

  lemma OneMatch()
    ensures Occurrences(ASCII, TEXT, TERM, 0) == [1] && Fold(ASCII, TERM) == TERM
    ensures StandsAt(ASCII, TEXT, TERM, Loc(3, 6)) && !BoundaryBefore(ASCII, TEXT, 1)
  {
    assert Fold(ASCII, TERM) == TERM && Fold(ASCII, TEXT) == TEXT;
    assert Fold(ASCII, TEXT[0..3])[0] == 'x';
    assert TEXT[1..4] == TERM && TEXT[3..6] == TERM;
    assert Occurrences(ASCII, TEXT, TERM, 4) == [];
    assert Occurrences(ASCII, TEXT, TERM, 1) == [1] + Occurrences(ASCII, TEXT, TERM, 4);
  }

  /** A term that overlaps itself can be missed: of "a a" in "xa a a" the first match is no whole
      word, and the second, which is, begins inside it. */
  lemma SelfOverlapMissed(kept: seq<Loc>)
    requires Finds(ASCII, TEXT, [TERM], 1, kept)
    ensures StandsAt(ASCII, TEXT, TERM, Loc(3, 6)) && !Covered(ASCII, TEXT, [TERM], kept, 0, Loc(3, 6))
  {
    OneMatch();
    hide StandsAt, Occurrences, Fold;
    forall k
      ensures k !in kept
    {
      if FromTerms(ASCII, TEXT, [TERM], 1, k) {
        NotStanding(k);
      }
    }
  }

  lemma NotStanding(k: Loc)
    ensures k.start == 1 ==> !StandsAt(ASCII, TEXT, TERM, k)
  {
    OneMatch();
  }

  // ---- Find ----

  /** A detection: its type, its byte offsets and its text. */
  datatype Hit = Hit(entity: string, start: nat, end: nat, text: string)

  function HitOf(text: string, entity: string, loc: Loc): Hit
    requires loc.start <= loc.end <= |text|
  {
    Hit(entity, ByteLen(text[..loc.start]), ByteLen(text[..loc.end]), text[loc.start..loc.end])
  }

  type Matcher = map<string, seq<string>>

  /** The terms of an enabled type, trimmed, in the order of the lists. */
  function TermsOf(u: Tables, lists: seq<DenyList>, entity: string): (r: seq<string>)
    ensures NoneEmpty(r)
  {
    if lists == [] then []
    else
      var last := lists[|lists| - 1];
      TermsOf(u, lists[..|lists| - 1], entity) + (if last.entity == entity then Trimmed(u, last.terms) else [])
  }

  function Trimmed(u: Tables, terms: seq<string>): (r: seq<string>)
    ensures NoneEmpty(r)
  {
    if terms == [] then []
    else
      var t := Trim(u, terms[|terms| - 1]);
      Trimmed(u, terms[..|terms| - 1]) + (if t == [] then [] else [t])
  }

  /** The matcher compiled from the lists: for each enabled type with terms, its terms, longest
      first. */
  ghost predicate CompiledFrom(u: Tables, lists: seq<DenyList>, entities: seq<string>, m: Matcher) {
    && (forall e :: e in m <==> e in entities && TermsOf(u, lists, e) != [])
    && (forall e :: e in m ==> SortedAs(TermsOf(u, lists, e), m[e]))
  }

  ghost predicate SortedAs(terms: seq<string>, sorted: seq<string>) {
    && LongFirst(sorted) && NoneEmpty(sorted) && (forall n :: OfLength(sorted, n) == OfLength(terms, n))
    && forall t :: t in sorted <==> t in terms
  }

  function At(terms: Matcher, e: string): seq<string> {
    if e in terms then terms[e] else []
  }

  /** The terms collected from the lists so far. */
  ghost predicate Collected(u: Tables, lists: seq<DenyList>, entities: seq<string>, terms: Matcher) {
    && NoEmptyLists(terms)
    && forall e :: At(terms, e) == if e in entities then TermsOf(u, lists, e) else []
  }

  ghost predicate NoEmptyLists(terms: Matcher) {
    forall e :: e in terms ==> terms[e] != []
  }

  /** after is before with more terms for one type. */
  ghost predicate Appended(before: Matcher, after: Matcher, entity: string, more: seq<string>) {
    NoEmptyLists(after) && forall e :: At(after, e) == if e == entity then At(before, e) + more else At(before, e)
  }

  lemma AppendOne(before: Matcher, after: Matcher, entity: string, more: seq<string>, t: string)
    requires Appended(before, after, entity, more)
    ensures Appended(before, after[entity := At(after, entity) + [t]], entity, more + [t])
  {
    assert At(before, entity) + more + [t] == At(before, entity) + (more + [t]);
  }

  lemma NothingAppended(u: Tables, terms: Matcher, entity: string, more: seq<string>)
    requires NoEmptyLists(terms)
    ensures Appended(terms, terms, entity, Trimmed(u, more[..0]))
  {
    assert At(terms, entity) + [] == At(terms, entity);
  }

  lemma TrimmedMore(u: Tables, terms: seq<string>, i: nat)
    requires i < |terms|
    ensures var t := Trim(u, terms[i]); Trimmed(u, terms[..i + 1]) == if t == [] then Trimmed(u, terms[..i]) else Trimmed(u, terms[..i]) + [t]
  {
    hide Trim;
    assert terms[..i + 1][..i] == terms[..i];
  }

  method CollectList(u: Tables, l: DenyList, terms: Matcher) returns (after: Matcher)
    requires NoEmptyLists(terms)
    ensures Appended(terms, after, l.entity, Trimmed(u, l.terms))
  {
    var e, ts := l.entity, l.terms;
    after := terms;
    NothingAppended(u, terms, e, ts);
    hide *;
    for i := 0 to |ts|
      invariant Appended(terms, after, e, Trimmed(u, ts[..i]))
    {
      TrimmedMore(u, ts, i);
      var t := Trim(u, ts[i]);
      if t != [] {
        AppendOne(terms, after, e, Trimmed(u, ts[..i]), t);
        after := after[e := At(after, e) + [t]];
      }
    }
    assert ts[..|ts|] == ts;
  }

  lemma CollectedMore(u: Tables, lists: seq<DenyList>, i: nat, entities: seq<string>, before: Matcher, after: Matcher)
    requires i < |lists| && Collected(u, lists[..i], entities, before)
    requires if lists[i].entity in entities then Appended(before, after, lists[i].entity, Trimmed(u, lists[i].terms)) else after == before
    ensures Collected(u, lists[..i + 1], entities, after)
  {
    hide Trimmed;
    assert lists[..i + 1][..i] == lists[..i] && lists[..i + 1][i] == lists[i];
  }

  method CollectTerms(u: Tables, lists: seq<DenyList>, entities: seq<string>) returns (terms: Matcher)
    ensures Collected(u, lists, entities, terms)
  {
    terms := map[];
    assert lists[..0] == [];
    for i := 0 to |lists|
      invariant Collected(u, lists[..i], entities, terms)
    {
      hide Trimmed, Appended;
      ghost var was := terms;
      if lists[i].entity in entities {
        terms := CollectList(u, lists[i], terms);
      }
      CollectedMore(u, lists, i, entities, was, terms);
    }
    assert lists[..|lists|] == lists;
  }

  /** NewDenyMatcher; no matcher is a matcher without types. */
  method NewDenyMatcher(u: Tables, lists: seq<DenyList>, entities: seq<string>) returns (m: Matcher)
    ensures CompiledFrom(u, lists, entities, m)
  {
    var terms := CollectTerms(u, lists, entities);
    hide SortedAs, Trim, Trimmed, CompiledFrom;
    m := map[];
    var todo := terms.Keys;
    while todo != {}
      invariant todo <= terms.Keys && m.Keys == terms.Keys - todo
      invariant forall e :: e in m ==> SortedAs(TermsOf(u, lists, e), m[e])
      decreases |todo|
    {
      var e :| e in todo;
      assert At(terms, e) == terms[e] == TermsOf(u, lists, e);
      var sorted := SortedTerms(terms[e]);
      m := m[e := sorted];
      todo := todo - {e};
    }
    AllCompiled(u, lists, entities, terms, m);
  }

  lemma AllCompiled(u: Tables, lists: seq<DenyList>, entities: seq<string>, terms: Matcher, m: Matcher)
    requires Collected(u, lists, entities, terms) && m.Keys == terms.Keys
    requires forall e :: e in m ==> SortedAs(TermsOf(u, lists, e), m[e])
    ensures CompiledFrom(u, lists, entities, m)
  {
    hide SortedAs;
    forall e
      ensures e in m <==> e in entities && TermsOf(u, lists, e) != []
    {
      assert e in m <==> e in terms;
      assert e in terms <==> At(terms, e) != [];
    }
  }

  method SortedTerms(terms: seq<string>) returns (sorted: seq<string>)
    requires NoneEmpty(terms)
    ensures SortedAs(terms, sorted)
  {
    hide LongFirst, OfLength;
    sorted := SortTerms(terms);
    SortedNoneEmpty(terms, sorted);
  }

  lemma SortedNoneEmpty(terms: seq<string>, sorted: seq<string>)
    requires NoneEmpty(terms) && forall t :: t in sorted <==> t in terms
    ensures NoneEmpty(sorted)
  {
    forall t | 0 <= t < |sorted|
      ensures sorted[t] != []
    {
      assert sorted[t] in terms;
    }
  }

  ghost predicate InText(text: string, kept: seq<Loc>) {
    forall k :: 0 <= k < |kept| ==> kept[k].start < kept[k].end <= |text|
  }

  lemma FindsInText(u: Tables, text: string, terms: seq<string>, kept: seq<Loc>)
    requires NoneEmpty(terms) && Finds(u, text, terms, |terms|, kept)
    ensures InText(text, kept) && Disjoint(kept)
  {
    hide Occurrences;
    forall k | 0 <= k < |kept|
      ensures kept[k].start < kept[k].end <= |text|
    {
      assert kept[k] in kept;
    }
  }

  ghost predicate IsHit(text: string, kept: map<string, seq<Loc>>, hit: Hit) {
    exists e, k :: e in kept && 0 <= k < |kept[e]| && HitAt(text, e, kept[e][k], hit)
  }

  predicate HitAt(text: string, entity: string, loc: Loc, hit: Hit) {
    loc.start <= loc.end <= |text| && hit == HitOf(text, entity, loc)
  }

  /** The hits are, per type, what FindAll keeps. */
  ghost predicate HitsOfKept(u: Tables, text: string, m: Matcher, kept: map<string, seq<Loc>>, out: seq<Hit>)
    requires forall e :: e in m ==> NoneEmpty(m[e])
  {
    && kept.Keys == m.Keys && (forall e :: e in m ==> Finds(u, text, m[e], |m[e]|, kept[e]))
    && (forall hit :: hit in out <==> IsHit(text, kept, hit))
    && EachOnce(out)
  }

  ghost predicate EachOnce(out: seq<Hit>) {
    forall i, j :: 0 <= i < j < |out| ==> out[i] != out[j]
  }

  /** Find: per type, what FindAll keeps, as detections, each once. */
  method Find(u: Tables, text: string, m: Matcher) returns (out: seq<Hit>, ghost kept: map<string, seq<Loc>>)
    requires forall e :: e in m ==> NoneEmpty(m[e])
    ensures exists k :: HitsOfKept(u, text, m, k, out)
    ensures HitsOfKept(u, text, m, kept, out)
  {
    out, kept := [], map[];
    var todo := m.Keys;
    while todo != {}
      invariant todo <= m.Keys && kept.Keys == m.Keys - todo
      invariant forall e :: e in kept ==> Finds(u, text, m[e], |m[e]|, kept[e])
      invariant Gathered(text, kept, out)
      decreases |todo|
    {
      hide Finds, Disjoint, InText, Gathered;
      var e :| e in todo;
      var locs := FindAll(u, text, m[e]);
      FindsInText(u, text, m[e], locs);
      var hits := HitsOf(text, e, locs);
      MoreHits(text, kept, out, e, locs, hits);
      kept := kept[e := locs];
      out := out + hits;
      todo := todo - {e};
    }
    assert HitsOfKept(u, text, m, kept, out);
  }

  ghost predicate Gathered(text: string, kept: map<string, seq<Loc>>, out: seq<Hit>) {
    (forall hit :: hit in out <==> IsHit(text, kept, hit)) && EachOnce(out)
  }

  ghost predicate AreHits(text: string, e: string, locs: seq<Loc>, hits: seq<Hit>) {
    |hits| == |locs| && forall k :: 0 <= k < |locs| ==> HitAt(text, e, locs[k], hits[k])
  }

  method HitsOf(text: string, e: string, locs: seq<Loc>) returns (hits: seq<Hit>)
    requires InText(text, locs)
    ensures AreHits(text, e, locs, hits)
  {
    hits := [];
    for i := 0 to |locs|
      invariant |hits| == i && forall k :: 0 <= k < i ==> HitAt(text, e, locs[k], hits[k])
    {
      hide ByteLen;
      hits := hits + [HitOf(text, e, locs[i])];
    }
  }

  /** Spans that do not intersect start at different bytes. */
  lemma DifferentHits(text: string, e: string, locs: seq<Loc>, hits: seq<Hit>)
    requires InText(text, locs) && Disjoint(locs) && AreHits(text, e, locs, hits)
    ensures EachOnce(hits)
  {
    hide ByteLen;
    forall i, j | 0 <= i < j < |hits|
      ensures hits[i] != hits[j]
    {
      assert HitAt(text, e, locs[i], hits[i]) && HitAt(text, e, locs[j], hits[j]) && !Intersects(locs[i], locs[j]);
      if locs[i].start < locs[j].start {
        ByteLenStrict(text, locs[i].start, locs[j].start);
      } else {
        ByteLenStrict(text, locs[j].start, locs[i].start);
      }
    }
  }

  lemma MoreHits(text: string, was: map<string, seq<Loc>>, out: seq<Hit>, e: string, locs: seq<Loc>, hits: seq<Hit>)
    requires e !in was && Gathered(text, was, out)
    requires InText(text, locs) && Disjoint(locs) && AreHits(text, e, locs, hits)
    ensures Gathered(text, was[e := locs], out + hits)
  {
    DifferentHits(text, e, locs, hits);
    forall hit
      ensures hit in out + hits <==> IsHit(text, was[e := locs], hit)
    {
      OneMore(text, was, out, e, locs, hits, hit);
    }
    EntitiesDiffer(text, was, out, e, locs, hits);
  }

  lemma EntitiesDiffer(text: string, was: map<string, seq<Loc>>, out: seq<Hit>, e: string, locs: seq<Loc>, hits: seq<Hit>)
    requires e !in was && Gathered(text, was, out) && AreHits(text, e, locs, hits) && EachOnce(hits)
    ensures EachOnce(out + hits)
  {
    hide ByteLen;
    forall i | 0 <= i < |out|
      ensures out[i].entity != e
    {
      assert out[i] in out && IsHit(text, was, out[i]);
    }
    assert forall j :: 0 <= j < |hits| ==> HitAt(text, e, locs[j], hits[j]) && hits[j].entity == e;
  }

  lemma OneMore(text: string, was: map<string, seq<Loc>>, out: seq<Hit>, e: string, locs: seq<Loc>, hits: seq<Hit>, hit: Hit)
    requires e !in was && Gathered(text, was, out) && AreHits(text, e, locs, hits)
    ensures hit in out + hits <==> IsHit(text, was[e := locs], hit)
  {
    hide ByteLen;
    var now := was[e := locs];
    assert forall d :: d in was ==> now[d] == was[d];
    assert now[e] == locs;
    assert hit in out <==> IsHit(text, was, hit);
    hide Gathered;
    if k :| 0 <= k < |hits| && hits[k] == hit {
      assert HitAt(text, e, now[e][k], hit);
    }
  }
}
