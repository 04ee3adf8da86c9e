/** What the deny-list matcher reports, by the characters of the text and the neighbours of a span. */
module DenyPlaces {
  import opened Unicode
  import opened Deny

  /** Neither a letter nor a digit nor an underscore. */
  predicate OutsideWords(u: Tables, c: char) {
    !u.IsLetter(c) && !u.IsDigit(c) && c != '_'
  }

  /** text[a..b] is the term, case aside, and no word goes on before or behind it. */
  ghost predicate IsPlace(u: Tables, text: string, term: string, a: nat, b: nat) {
    && term != [] && b == a + |term| && b <= |text|
    && (forall j :: 0 <= j < |term| ==> u.Lower(text[a + j]) == u.Lower(term[j]))
    && (a == 0 || OutsideWords(u, text[a - 1])) && (b == |text| || OutsideWords(u, text[b]))
  }

  /** Behind its first k characters, the last of which is outside a word, the term begins again. */
  ghost predicate ReturnsAt(u: Tables, term: string, k: nat) {
    0 < k < |term| && OutsideWords(u, term[k - 1]) && forall j :: 0 <= j < |term| - k ==> u.Lower(term[k + j]) == u.Lower(term[j])
  }

  ghost predicate NeverReturns(u: Tables, term: string) {
    forall k: nat :: !ReturnsAt(u, term, k)
  }

  /** A term of the list, at least as long as term in bytes, has its place at [a, b). */
  ghost predicate LongerAt(u: Tables, text: string, terms: seq<string>, term: string, a: nat, b: nat) {
    exists s :: s in terms && ByteLen(s) >= ByteLen(term) && IsPlace(u, text, s, a, b)
  }

  // ---- Places and standing terms ----

  lemma PlaceMatches(u: Tables, text: string, term: string, a: nat)
    requires a + |term| <= |text|
    ensures Fold(u, text[a..a + |term|]) == Fold(u, term) <==> forall j :: 0 <= j < |term| ==> u.Lower(text[a + j]) == u.Lower(term[j])
  {
    var s := text[a..a + |term|];
    assert forall j :: 0 <= j < |term| ==> s[j] == text[a + j] && Fold(u, s)[j] == u.Lower(text[a + j]) && Fold(u, term)[j] == u.Lower(term[j]);
    assert Fold(u, s) == Fold(u, term) <==> forall j :: 0 <= j < |term| ==> Fold(u, s)[j] == Fold(u, term)[j];
  }

  lemma StandsIsPlace(u: Tables, text: string, term: string, loc: Loc)
    ensures StandsAt(u, text, term, loc) <==> IsPlace(u, text, term, loc.start, loc.end)
  {
    if loc.start + |term| <= |text| {
      PlaceMatches(u, text, term, loc.start);
    }
    hide Fold;
  }

  lemma NeverReturnsIs(u: Tables, term: string)
    requires Lawful(u)
    ensures NeverReturns(u, term) <==> NoWordBorder(u, Fold(u, term))
  {
    var p := Fold(u, term);
    forall k: nat
      ensures WordBorder(u, p, k) <==> ReturnsAt(u, term, k)
    {
      if 0 < k < |term| {
        FoldKeepsWordClasses(u, term[k - 1]);
        BorderChars(u, term, k);
      }
    }
    hide WordBorder, ReturnsAt;
  }

  lemma BorderChars(u: Tables, term: string, k: nat)
    requires 0 < k < |term|
    ensures var p := Fold(u, term); p[k..] == p[..|p| - k] <==> forall j :: 0 <= j < |term| - k ==> u.Lower(term[k + j]) == u.Lower(term[j])
  {
    var p := Fold(u, term);
    var x, y := p[k..], p[..|p| - k];
    assert |x| == |y| == |term| - k;
    assert forall j :: 0 <= j < |x| ==> x[j] == u.Lower(term[k + j]) && y[j] == u.Lower(term[j]);
    assert x == y <==> forall j :: 0 <= j < |x| ==> x[j] == y[j];
  }

  // ---- What FindAll keeps ----

  /** Every span kept is the place of a term. */
  lemma KeptArePlaces(u: Tables, text: string, terms: seq<string>, kept: seq<Loc>, k: Loc)
    requires NoneEmpty(terms) && Finds(u, text, terms, |terms|, kept) && k in kept
    ensures exists s :: s in terms && IsPlace(u, text, s, k.start, k.end)
  {
    hide StandsAt, Disjoint, TermDone, IsPlace;
    assert FromTerms(u, text, terms, |terms|, k);
    var t :| 0 <= t < |terms| && ScannedAt(u, text, terms[t], k);
    StandsIsPlace(u, text, terms[t], k);
    assert terms[t] in terms;
  }

  /** Every place of a term that never returns intersects a span kept for a term at least as long, or is
      kept itself. */
  lemma PlacesKept(u: Tables, text: string, terms: seq<string>, kept: seq<Loc>, term: string, a: nat, b: nat)
    requires Lawful(u) && NoneEmpty(terms) && LongFirst(terms) && Finds(u, text, terms, |terms|, kept)
    requires term in terms && NeverReturns(u, term) && IsPlace(u, text, term, a, b)
    ensures exists k :: k in kept && k.start < b && a < k.end && LongerAt(u, text, terms, term, k.start, k.end)
  {
    var t :| 0 <= t < |terms| && terms[t] == term;
    var loc := Loc(a, b);
    StandsIsPlace(u, text, term, loc);
    NeverReturnsIs(u, term);
    NeverMissed(u, text, terms, kept, t, loc);
    hide StandsAt, NoWordBorder, NeverReturns, Finds, LongFirst;
    if loc in kept {
      assert LongerAt(u, text, terms, term, loc.start, loc.end);
    } else {
      hide IsPlace;
      var k :| ReportedLonger(u, text, terms, kept, t, k) && Intersects(loc, k);
      LongerReported(u, text, terms, kept, t, k);
    }
  }

  lemma LongerReported(u: Tables, text: string, terms: seq<string>, kept: seq<Loc>, t: nat, k: Loc)
    requires t < |terms| && ReportedLonger(u, text, terms, kept, t, k)
    ensures k in kept && LongerAt(u, text, terms, terms[t], k.start, k.end)
  {
    hide StandsAt, IsPlace;
    var s :| 0 <= s < |terms| && StandsAt(u, text, terms[s], k) && ByteLen(terms[s]) >= ByteLen(terms[t]);
    StandsIsPlace(u, text, terms[s], k);
    assert terms[s] in terms;
  }

  // ---- What Find reports ----

  /** The hit is text[a..b], of type e. */
  predicate HitIs(text: string, hit: Hit, e: string, a: nat, b: nat) {
    a <= b <= |text| && hit == Hit(e, ByteLen(text[..a]), ByteLen(text[..b]), text[a..b])
  }

  lemma HitOfLoc(text: string, kept: map<string, seq<Loc>>, out: seq<Hit>, e: string, k: Loc)
    requires (forall hit :: hit in out <==> IsHit(text, kept, hit)) && e in kept && k in kept[e] && k.start <= k.end <= |text|
    ensures exists hit :: hit in out && HitIs(text, hit, e, k.start, k.end)
  {
    hide ByteLen;
    var i :| 0 <= i < |kept[e]| && kept[e][i] == k;
    var hit := HitOf(text, e, k);
    assert HitAt(text, e, kept[e][i], hit);
    assert IsHit(text, kept, hit) && HitIs(text, hit, e, k.start, k.end);
  }

  /** Every hit is the place of a term of its type. */
  lemma HitsArePlaces(u: Tables, text: string, m: Matcher, kept: map<string, seq<Loc>>, out: seq<Hit>, hit: Hit)
    requires (forall e :: e in m ==> NoneEmpty(m[e])) && HitsOfKept(u, text, m, kept, out) && hit in out
    ensures hit.entity in m && exists a: nat, b: nat, s :: HitIs(text, hit, hit.entity, a, b) && s in m[hit.entity] && IsPlace(u, text, s, a, b)
  {
    hide Finds, IsPlace, ByteLen, EachOnce;
    assert IsHit(text, kept, hit);
    var e, i :| e in kept && 0 <= i < |kept[e]| && HitAt(text, e, kept[e][i], hit);
    var k := kept[e][i];
    assert HitIs(text, hit, e, k.start, k.end);
    assert k in kept[e];
    KeptArePlaces(u, text, m[e], kept[e], k);
  }

  /** Every place of a term that never returns is met by a hit of the term's type, itself the place of a
      term at least as long. */
  lemma PlacesHit(u: Tables, text: string, m: Matcher, kept: map<string, seq<Loc>>, out: seq<Hit>, e: string, term: string, a: nat, b: nat)
    requires Lawful(u) && (forall e :: e in m ==> NoneEmpty(m[e])) && HitsOfKept(u, text, m, kept, out)
    requires e in m && LongFirst(m[e]) && term in m[e] && NeverReturns(u, term) && IsPlace(u, text, term, a, b)
    ensures exists hit, c: nat, d: nat :: hit in out && HitIs(text, hit, e, c, d) && c < b && a < d && LongerAt(u, text, m[e], term, c, d)
  {
    hide Finds, IsPlace, ByteLen, EachOnce, LongFirst, NeverReturns;
    PlacesKept(u, text, m[e], kept[e], term, a, b);
    var k :| k in kept[e] && k.start < b && a < k.end && LongerAt(u, text, m[e], term, k.start, k.end);
    LongerInText(u, text, m[e], term, k.start, k.end);
    HitOfLoc(text, kept, out, e, k);
  }

  lemma LongerInText(u: Tables, text: string, terms: seq<string>, term: string, a: nat, b: nat)
    requires LongerAt(u, text, terms, term, a, b)
    ensures a <= b <= |text|
  {
  }

  // ---- From the configured lists ----

  lemma {:induction false} TrimmedHas(u: Tables, terms: seq<string>, i: nat)
    requires i < |terms| && Trim(u, terms[i]) != []
    ensures Trim(u, terms[i]) in Trimmed(u, terms)
  {
    hide Trim;
    if i < |terms| - 1 {
      TrimmedHas(u, terms[..|terms| - 1], i);
    }
  }

  lemma {:induction false} TermsHave(u: Tables, lists: seq<DenyList>, j: nat, i: nat)
    requires j < |lists| && i < |lists[j].terms| && Trim(u, lists[j].terms[i]) != []
    ensures Trim(u, lists[j].terms[i]) in TermsOf(u, lists, lists[j].entity)
  {
    hide Trim, Trimmed;
    if j < |lists| - 1 {
      TermsHave(u, lists[..|lists| - 1], j, i);
    } else {
      TrimmedHas(u, lists[j].terms, i);
    }
  }

  /** A hit of type e meets [a, b). */
  ghost predicate MetAt(text: string, out: seq<Hit>, e: string, a: nat, b: nat) {
    exists hit, c: nat, d: nat :: hit in out && HitIs(text, hit, e, c, d) && c < b && a < d
  }

  /** A deny-listed term of an enabled type does not pass: wherever the text holds it between characters
      that belong to no word, a hit of its type meets the place. */
  lemma ListedTermsFound(u: Tables, lists: seq<DenyList>, entities: seq<string>, m: Matcher, text: string, kept: map<string, seq<Loc>>, out: seq<Hit>,
      j: nat, i: nat, term: string, a: nat, b: nat)
    requires Lawful(u) && CompiledFrom(u, lists, entities, m) && (forall e :: e in m ==> NoneEmpty(m[e])) && HitsOfKept(u, text, m, kept, out)
    requires j < |lists| && lists[j].entity in entities && i < |lists[j].terms| && term == Trim(u, lists[j].terms[i])
    requires NeverReturns(u, term) && IsPlace(u, text, term, a, b)
    ensures MetAt(text, out, lists[j].entity, a, b)
  {
    PlaceIsSomething(u, text, term, a, b);
    TermsHave(u, lists, j, i);
    hide *;
    var e := lists[j].entity;
    CompiledHas(u, lists, entities, m, e, term);
    PlacesHit(u, text, m, kept, out, e, term, a, b);
    var hit, c: nat, d: nat :| hit in out && HitIs(text, hit, e, c, d) && c < b && a < d && LongerAt(u, text, m[e], term, c, d);
    HitMeets(text, out, e, a, b, hit, c, d);
  }

  lemma PlaceIsSomething(u: Tables, text: string, term: string, a: nat, b: nat)
    requires IsPlace(u, text, term, a, b)
    ensures term != []
  {
  }

  lemma HitMeets(text: string, out: seq<Hit>, e: string, a: nat, b: nat, hit: Hit, c: nat, d: nat)
    requires hit in out && HitIs(text, hit, e, c, d) && c < b && a < d
    ensures MetAt(text, out, e, a, b)
  {
    hide HitIs;
  }

  lemma CompiledHas(u: Tables, lists: seq<DenyList>, entities: seq<string>, m: Matcher, e: string, term: string)
    requires CompiledFrom(u, lists, entities, m) && e in entities && term in TermsOf(u, lists, e)
    ensures e in m && LongFirst(m[e]) && term in m[e]
  {
    hide LongFirst, NoneEmpty, OfLength, TermsOf;
    assert e in m && SortedAs(TermsOf(u, lists, e), m[e]);
  }

  lemma {:induction false} TrimmedFrom(u: Tables, terms: seq<string>, term: string) returns (i: nat)
    requires term in Trimmed(u, terms)
    ensures i < |terms| && term == Trim(u, terms[i])
  {
    hide Trim;
    if term == Trim(u, terms[|terms| - 1]) {
      i := |terms| - 1;
    } else {
      i := TrimmedFrom(u, terms[..|terms| - 1], term);
    }
  }

  /** And only terms of the configured lists of its type make hits. */
  lemma {:induction false} TermsFrom(u: Tables, lists: seq<DenyList>, e: string, term: string) returns (j: nat, i: nat)
    requires term in TermsOf(u, lists, e)
    ensures j < |lists| && lists[j].entity == e && i < |lists[j].terms| && term == Trim(u, lists[j].terms[i])
  {
    hide Trim, Trimmed;
    var rest, last := lists[..|lists| - 1], lists[|lists| - 1];
    if term in TermsOf(u, rest, e) {
      j, i := TermsFrom(u, rest, e, term);
    } else {
      j := |lists| - 1;
      i := TrimmedFrom(u, last.terms, term);
    }
  }

  lemma HitsAreListed(u: Tables, lists: seq<DenyList>, entities: seq<string>, m: Matcher, text: string, kept: map<string, seq<Loc>>, out: seq<Hit>, hit: Hit)
    returns (j: nat, i: nat, a: nat, b: nat)
    requires CompiledFrom(u, lists, entities, m) && (forall e :: e in m ==> NoneEmpty(m[e])) && HitsOfKept(u, text, m, kept, out) && hit in out
    ensures j < |lists| && lists[j].entity == hit.entity && hit.entity in entities && i < |lists[j].terms|
    ensures HitIs(text, hit, hit.entity, a, b) && IsPlace(u, text, Trim(u, lists[j].terms[i]), a, b)
  {
    hide *;
    HitsArePlaces(u, text, m, kept, out, hit);
    var e := hit.entity;
    var c: nat, d: nat, s :| HitIs(text, hit, e, c, d) && s in m[e] && IsPlace(u, text, s, c, d);
    CompiledOnly(u, lists, entities, m, e, s);
    j, i := TermsFrom(u, lists, e, s);
    a, b := c, d;
  }

  lemma CompiledOnly(u: Tables, lists: seq<DenyList>, entities: seq<string>, m: Matcher, e: string, term: string)
    requires CompiledFrom(u, lists, entities, m) && e in m && term in m[e]
    ensures e in entities && term in TermsOf(u, lists, e)
  {
    hide LongFirst, NoneEmpty, OfLength, TermsOf;
    assert SortedAs(TermsOf(u, lists, e), m[e]);
  }
}
