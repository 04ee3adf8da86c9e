/** Two persons in a row whose pool names share a first name: components are not compared with the
    pseudonyms in use, so both first names get one stand-in. */
module ComponentLimits {
  import opened Unicode
  import opened Ordering
  import opened Mappings
  import opened Numbered
  import opened Pseudonyms
  import opened Components
  import opened Assignments
  import opened Distinct
  import opened Sessions
  import opened SessionLimits

  /** Two pool names with one first name; full names are decomposed. */
  const JORDANS := Handler(Strategizer(map["PERSON" := ["Jordan Avery", "Jordan Lee"]], map[], TOKEN, false), true, {})

  const ANN_THEN_CID := [Request([Person("Ann Bee")], "ann bee"), Request([Person("Cid Dow")], "cid dow")]

  /** A capital and lower-case letters. */
  predicate IsCap(s: string) {
    |s| >= 2 && IsAsciiUpper(s[0]) && forall i :: 0 < i < |s| ==> IsAsciiLower(s[i])
  }

  lemma CapIsWord(s: string)
    requires IsCap(s)
    ensures IsWord(ASCII, s) && IsSafeComponent(ASCII, s)
  {
    AllLetters(s, |s|);
  }

  lemma {:induction false} AllLetters(s: string, n: nat)
    requires IsCap(s) && n <= |s|
    ensures Letters(ASCII, s, n) == n
  {
    if n > 0 {
      AllLetters(s, n - 1);
      assert ASCII.IsLetter(s[n - 1]);
    }
  }

  function FullName(first: string, last: string): string { first + " " + last }

  lemma FullIsTwoWords(a: string, b: string)
    requires IsCap(a) && IsCap(b)
    ensures TwoWords(ASCII, FullName(a, b), |a|)
    ensures FullName(a, b)[..|a|] == a && FullName(a, b)[|a| + 1..] == b
  {
    CapIsWord(a);
    CapIsWord(b);
    var s := FullName(a, b);
    assert s[..|a|] == a && s[|a| + 1..] == b && s[|a|] == ' ';
    assert forall i :: 0 <= i < |a| ==> s[i] == a[i];
  }

  lemma TwoFields(a: string, b: string)
    requires IsCap(a) && IsCap(b)
    ensures Fields(ASCII, FullName(a, b)) == [a, b]
  {
    hide *;
    FullIsTwoWords(a, b);
    FieldsOfTwo(ASCII, FullName(a, b), |a|);
  }

  lemma FullIsTrimmed(a: string, b: string)
    requires IsCap(a) && IsCap(b)
    ensures Trim(ASCII, FullName(a, b)) == FullName(a, b) != []
  {
    CapIsWord(a);
    CapIsWord(b);
    var s := FullName(a, b);
    assert s[0] == a[0] && s[|s| - 1] == b[|b| - 1];
    hide Trim, IsCap;
    TrimmedOf(ASCII, s);
  }

  /** Different lengths or different initials. */
  predicate Unlike(a: string, b: string) {
    a != [] && b != [] && (|a| != |b| || ASCII.Lower(a[0]) != ASCII.Lower(b[0]))
  }

  lemma UnlikeDiffer(a: string, b: string)
    requires Unlike(a, b)
    ensures !SameFold(ASCII, a, b) && a != b
  {
    assert Fold(ASCII, a)[0] == ASCII.Lower(a[0]) && Fold(ASCII, b)[0] == ASCII.Lower(b[0]);
  }

  /** Nothing like k is mapped. */
  predicate NewTo(m: Mapping, k: string) {
    forall l :: l in m ==> Unlike(l, k)
  }

  lemma NewToHasNone(m: Mapping, k: string)
    requires NewTo(m, k)
    ensures !HasFoldKey(ASCII, m, k) && Addable(ASCII, JORDANS, m, k) && k !in m
  {
    hide SameFold, Unlike, Fold;
    forall l | l in m
      ensures !SameFold(ASCII, l, k) && l != k
    {
      UnlikeDiffer(l, k);
    }
  }

  /** A person's full name, and the pool name it gets. */
  datatype Naming = Naming(first: string, last: string, standFirst: string, standLast: string)
  {
    function Real(): string { FullName(first, last) }

    function Stand(): string { FullName(standFirst, standLast) }

    predicate Good() {
      && IsCap(first) && IsCap(last) && IsCap(standFirst) && IsCap(standLast)
      && Unlike(first, standFirst) && Unlike(last, standLast) && Unlike(last, first)
    }
  }

  lemma PartsOf(r: seq<string>, p: seq<string>, k: string, v: string)
    requires |r| == |p| == 2 && IsPair(ASCII, r[0], p[0]) && IsPair(ASCII, r[1], p[1]) && !SameFold(ASCII, r[1], r[0])
    ensures IsComponentOf(ASCII, r, p, k, v) <==> (k == r[0] && v == p[0]) || (k == r[1] && v == p[1])
  {
    hide IsPair, SameFold;
  }

  lemma PairOf(a: string, b: string)
    requires IsCap(a) && IsCap(b) && Unlike(a, b)
    ensures IsPair(ASCII, a, b)
  {
    CapIsWord(a);
    UnlikeDiffer(a, b);
    hide IsSafeComponent, SameFold, Unlike;
  }

  lemma ComponentsOf(n: Naming, k: string, v: string)
    requires n.Good()
    ensures IsComponent(ASCII, n.Real(), n.Stand(), k, v) <==> (k == n.first && v == n.standFirst) || (k == n.last && v == n.standLast)
  {
    PairOf(n.first, n.standFirst);
    PairOf(n.last, n.standLast);
    UnlikeDiffer(n.last, n.first);
    TwoFields(n.first, n.last);
    TwoFields(n.standFirst, n.standLast);
    hide Fields, SameFold, IsComponentOf, IsSafeComponent, Unlike, IsCap, IsPair, IsWord;
    PartsOf([n.first, n.last], [n.standFirst, n.standLast], k, v);
  }

  function Named(m: Mapping, n: Naming): Mapping {
    m[n.Real() := n.Stand()][n.first := n.standFirst][n.last := n.standLast]
  }

  /** The name and both its parts are new, and the pool name is picked. */
  ghost predicate Fresh(hmac: string -> nat, n: Naming, reserved: string, m: Mapping) {
    && n.Good() && NewTo(m, n.Real()) && NewTo(m[n.Real() := n.Stand()], n.first) && NewTo(m[n.Real() := n.Stand()], n.last)
    && Picks(ASCII, hmac, JORDANS.strat, "PERSON", n.Real(), m.Values, reserved, n.Stand())
  }

  lemma AddsBoth(hmac: string -> nat, n: Naming, reserved: string, m: Mapping)
    requires Fresh(hmac, n, reserved, m)
    ensures AddsComponents(ASCII, JORDANS, Person(n.Real()), n.Stand(), m[n.Real() := n.Stand()], Named(m, n))
  {
    hide IsComponent, Picks, Addable, NewTo;
    var mid := m[n.Real() := n.Stand()];
    NewToHasNone(mid, n.first);
    NewToHasNone(mid, n.last);
    UnlikeDiffer(n.last, n.first);
    hide Naming.Good, Naming.Real, Naming.Stand, SameFold;
    forall k, v
      ensures IsComponent(ASCII, n.Real(), n.Stand(), k, v) <==> (k == n.first && v == n.standFirst) || (k == n.last && v == n.standLast)
    {
      ComponentsOf(n, k, v);
    }
    hide Unlike, Fresh;
  }

  lemma AssignsPerson(hmac: string -> nat, n: Naming, reserved: string, m: Mapping)
    requires Fresh(hmac, n, reserved, m)
    ensures Assigns(ASCII, hmac, JORDANS, [Person(n.Real())], reserved, m, Named(m, n))
  {
    AddsBoth(hmac, n, reserved, m);
    NewToHasNone(m, n.Real());
    FullIsTrimmed(n.first, n.last);
    hide Naming.Good, Naming.Stand, Picks, AddsComponents, Trim, FullName, Fields, HasFoldKey, IsWord, NewTo, Named;
    assert AssignStep(ASCII, hmac, JORDANS, Person(n.Real()), reserved, m, Named(m, n));
    AssignsOne(hmac, JORDANS, n.Real(), reserved, m, Named(m, n));
  }

  lemma AssignsOne(hmac: string -> nat, h: Handler, name: string, reserved: string, m: Mapping, after: Mapping)
    requires Trim(ASCII, name) == name != [] && AssignStep(ASCII, hmac, h, Person(name), reserved, m, after)
    ensures Assigns(ASCII, hmac, h, [Person(name)], reserved, m, after)
  {
    hide Trim, AssignStep;
    var ds := [Person(name)];
    var byText := map[name := Person(name)];
    assert DecidedBy(ASCII, ds, 1, 0, name, byText[name]);
    assert HasDecider(ASCII, ds, 1, name, byText[name]);
    assert SortedElements([name], byText.Keys);
    AssignedMore(ASCII, hmac, h, byText, [name], 1, reserved, m, m, after);
    assert IsAssignment(ASCII, hmac, h, ds, reserved, m, after, byText, [name]);
  }

  const ANN := Naming("Ann", "Bee", "Jordan", "Avery")

  const CID := Naming("Cid", "Dow", "Jordan", "Lee")

  function AfterAnn(): Mapping { Named(NONE, ANN) }

  function AfterCid(): Mapping { Named(AfterAnn(), CID) }

  /** A name longer than the reserved text is not in it. */
  lemma LongIsFree(used: set<string>, reserved: string, p: string)
    requires p !in used && |reserved| < |p|
    ensures Free(ASCII, used, reserved, p)
  {
    hide Fold;
    assert |Fold(ASCII, p)| == |p|;
  }

  lemma PicksFirst(hmac: string -> nat, name: string, reserved: string)
    requires |reserved| < 10
    ensures Picks(ASCII, hmac, JORDANS.strat, "PERSON", name, {}, reserved, "Jordan Avery")
  {
    LongIsFree({}, reserved, "Jordan Avery");
    hide Free, IsSynthetic;
    var pool := PoolOf(JORDANS.strat.pools, "PERSON");
    assert pool[0] == "Jordan Avery";
    assert IsFirstOf(ASCII, pool, {}, reserved, "Jordan Avery");
  }

  lemma PicksSecond(hmac: string -> nat, name: string, used: set<string>, reserved: string)
    requires |reserved| < 10 && "Jordan Avery" in used && "Jordan Lee" !in used
    ensures Picks(ASCII, hmac, JORDANS.strat, "PERSON", name, used, reserved, "Jordan Lee")
  {
    LongIsFree(used, reserved, "Jordan Lee");
    hide ReservedContains, IsSynthetic;
    var pool := PoolOf(JORDANS.strat.pools, "PERSON");
    assert pool[0] == "Jordan Avery" && pool[1] == "Jordan Lee";
    assert IsFirstOf(ASCII, pool, used, reserved, "Jordan Lee");
  }

  lemma AnnIsFresh(hmac: string -> nat)
    ensures Fresh(hmac, ANN, "ann bee", NONE)
  {
    hide Picks;
    assert ANN.Stand() == "Jordan Avery" && ANN.Real() == "Ann Bee";
    PicksFirst(hmac, "Ann Bee", "ann bee");
    assert NONE.Values == {};
  }

  lemma AfterAnnValues()
    ensures AfterAnn().Keys == {"Ann Bee", "Ann", "Bee"}
    ensures "Jordan Avery" in AfterAnn().Values && "Jordan Lee" !in AfterAnn().Values
  {
    var m := AfterAnn();
    assert ANN.Stand() == "Jordan Avery" && ANN.Real() == "Ann Bee";
    assert |"Ann Bee"| == 7 && |"Ann"| == 3 && |"Bee"| == 3 && "Ann"[0] == 'A' && "Bee"[0] == 'B';
    assert m["Ann Bee"] == "Jordan Avery" && m["Ann"] == "Jordan" && m["Bee"] == "Avery";
    assert |"Jordan Avery"| == 12 && |"Jordan Lee"| == 10 && |"Jordan"| == 6 && |"Avery"| == 5;
  }

  lemma CidIsFresh(hmac: string -> nat)
    ensures Fresh(hmac, CID, "cid dow", AfterAnn())
  {
    hide Picks;
    AfterAnnValues();
    hide AfterAnn;
    assert CID.Stand() == "Jordan Lee" && CID.Real() == "Cid Dow";
    PicksSecond(hmac, "Cid Dow", AfterAnn().Values, "cid dow");
  }

  lemma TwoInARow(u: Tables, hmac: string -> nat, h: Handler, reqs: seq<Request>, a: Mapping, b: Mapping)
    requires |reqs| == 2 && Assigns(u, hmac, h, reqs[0].ds, reqs[0].reserved, NONE, a) && Assigns(u, hmac, h, reqs[1].ds, reqs[1].reserved, a, b)
    ensures InARow(u, hmac, h, reqs, 2, b)
  {
    hide Assigns;
    assert InARow(u, hmac, h, reqs, 0, NONE);
    assert Follows(u, hmac, h, reqs, 1, NONE, a);
    assert InARow(u, hmac, h, reqs, 1, a);
    assert Follows(u, hmac, h, reqs, 2, a, b);
  }

  lemma AnnAssigned(hmac: string -> nat)
    ensures Assigns(ASCII, hmac, JORDANS, ANN_THEN_CID[0].ds, ANN_THEN_CID[0].reserved, NONE, AfterAnn())
  {
    AnnIsFresh(hmac);
    AssignsPerson(hmac, ANN, "ann bee", NONE);
    assert ANN.Real() == "Ann Bee";
    hide Assigns, Fresh, Named, Person;
  }

  lemma CidAssigned(hmac: string -> nat)
    ensures Assigns(ASCII, hmac, JORDANS, ANN_THEN_CID[1].ds, ANN_THEN_CID[1].reserved, AfterAnn(), AfterCid())
  {
    hide AfterAnn;
    CidIsFresh(hmac);
    AssignsPerson(hmac, CID, "cid dow", AfterAnn());
    assert CID.Real() == "Cid Dow";
    hide Assigns, Fresh, Named, Person;
  }

  /** In a row, with pool names that share a first name: Ann and Cid both become Jordan. */
  lemma OneFirstNameForTwo(hmac: string -> nat)
    ensures InARow(ASCII, hmac, JORDANS, ANN_THEN_CID, 2, AfterCid())
    ensures var m := AfterCid(); "Ann" in m && "Cid" in m && m["Ann"] == m["Cid"] == "Jordan" && !DistinctValues(m)
  {
    AnnAssigned(hmac);
    CidAssigned(hmac);
    BothJordan();
    assert |ANN_THEN_CID| == 2;
    hide *;
    TwoInARow(ASCII, hmac, JORDANS, ANN_THEN_CID, AfterAnn(), AfterCid());
  }

  lemma BothJordan()
    ensures var m := AfterCid(); "Ann" in m && "Cid" in m && m["Ann"] == m["Cid"] == "Jordan" && !DistinctValues(m)
  {
    var m := AfterCid();
    assert ANN.Real() == "Ann Bee" && CID.Real() == "Cid Dow";
    assert |"Ann Bee"| == |"Cid Dow"| == 7 && "Ann"[0] == 'A' && "Bee"[0] == 'B' && "Cid"[0] == 'C' && "Dow"[0] == 'D';
    assert m["Ann"] == "Jordan" && m["Cid"] == "Jordan" && "Ann" != "Cid";
  }
}
