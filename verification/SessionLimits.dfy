/** Two requests at once: the merge compares keys only, so what holds of requests in a row fails. */
module SessionLimits {
  import opened Unicode
  import opened Ordering
  import opened Mappings
  import opened Numbered
  import opened Pseudonyms
  import opened Assignments
  import opened Distinct
  import opened Sessions

  /** One person's name in the pool, nothing decomposed. */
  const ONE_POOL := Handler(Strategizer(map["PERSON" := ["Zed"]], map[], TOKEN, false), false, {})

  function Person(name: string): Entity { Entity("PERSON", name, 1.0) }

  /** A request about one name; its text does not hold the pool's name. */
  predicate Asks(r: Request, name: string) {
    && r.ds == [Person(name)] && name != [] && Trim(ASCII, name) == name
    && !ReservedContains(ASCII, r.reserved, "Zed")
  }

  /** In an empty session the name gets the pool's name. */
  lemma GetsPoolName(hmac: string -> nat, r: Request, name: string)
    requires Asks(r, name)
    ensures Assigns(ASCII, hmac, ONE_POOL, r.ds, r.reserved, map[], map[name := "Zed"])
  {
    hide Trim, ReservedContains, Fold;
    var byText := map[name := Person(name)];
    assert DecidedBy(ASCII, r.ds, 1, 0, name, byText[name]);
    assert HasDecider(ASCII, r.ds, 1, name, byText[name]);
    assert SortedElements([name], byText.Keys);
    PicksPoolName(hmac, r, name);
    var none: Mapping := map[];
    assert none.Values == {} && none[name := "Zed"] == map[name := "Zed"];
    assert AddsComponents(ASCII, ONE_POOL, Person(name), "Zed", none[name := "Zed"], map[name := "Zed"]);
    assert AssignStep(ASCII, hmac, ONE_POOL, Person(name), r.reserved, none, map[name := "Zed"]) by {
      assert Picks(ASCII, hmac, ONE_POOL.strat, "PERSON", name, none.Values, r.reserved, "Zed");
    }
    AssignedMore(ASCII, hmac, ONE_POOL, byText, [name], 1, r.reserved, map[], map[], map[name := "Zed"]);
    assert IsAssignment(ASCII, hmac, ONE_POOL, r.ds, r.reserved, map[], map[name := "Zed"], byText, [name]);
  }

  lemma PicksPoolName(hmac: string -> nat, r: Request, name: string)
    requires Asks(r, name)
    ensures Picks(ASCII, hmac, ONE_POOL.strat, "PERSON", name, {}, r.reserved, "Zed")
  {
    hide ReservedContains, IsSynthetic, Trim;
    var pool := PoolOf(ONE_POOL.strat.pools, "PERSON");
    assert pool == ["Zed"] && pool[0] == "Zed";
    assert Free(ASCII, {}, r.reserved, pool[0]);
  }

  const NONE: Mapping := map[]

  function One(a: string): Mapping { map[a := "Zed"] }

  function Both(a: string, b: string): Mapping { map[a := "Zed", b := "Zed"] }

  const START := World(NONE, [Waiting, Waiting])

  const FIRST_READ := World(NONE, [HasRead(NONE), Waiting])

  const BOTH_READ := World(NONE, [HasRead(NONE), HasRead(NONE)])

  function FirstMerged(a: string): World { World(One(a), [Done(One(a)), HasRead(NONE)]) }

  function BothMerged(a: string, b: string): World { World(Both(a, b), [Done(One(a)), Done(Both(a, b))]) }

  /** Both requests read, then both merge. */
  function Overlapping(a: string, b: string): seq<World> {
    [START, FIRST_READ, BOTH_READ, FirstMerged(a), BothMerged(a, b)]
  }

  /** In an empty session the handler gives the one name the request is about the pool's name. */
  ghost predicate Gives(u: Tables, hmac: string -> nat, h: Handler, r: Request, name: string) {
    Assigns(u, hmac, h, r.ds, r.reserved, NONE, One(name))
  }

  lemma FirstMerge(u: Tables, hmac: string -> nat, h: Handler, r: Request, s: Request, a: string)
    requires Gives(u, hmac, h, r, a)
    ensures Step(u, hmac, h, [r, s], BOTH_READ, FirstMerged(a))
  {
    hide Assigns;
    assert NewIn(NONE, One(a)) == One(a) && Merge(NONE, One(a)) == One(a);
    assert a in One(a);
    assert MergeStep(u, hmac, h, [r, s], BOTH_READ, FirstMerged(a), 0, One(a));
  }

  lemma SecondMerge(u: Tables, hmac: string -> nat, h: Handler, r: Request, s: Request, a: string, b: string)
    requires Gives(u, hmac, h, s, b) && a != b
    ensures Step(u, hmac, h, [r, s], FirstMerged(a), BothMerged(a, b))
  {
    hide Assigns;
    assert NewIn(NONE, One(b)) == One(b) && Merge(One(a), One(b)) == Both(a, b);
    assert b in One(b);
    assert MergeStep(u, hmac, h, [r, s], FirstMerged(a), BothMerged(a, b), 1, One(b));
  }

  lemma Reads(u: Tables, hmac: string -> nat, h: Handler, reqs: seq<Request>)
    ensures |reqs| == 2 ==> Initial(reqs, START)
    ensures Step(u, hmac, h, reqs, START, FIRST_READ) && Step(u, hmac, h, reqs, FIRST_READ, BOTH_READ)
  {
    assert ReadStep(START, FIRST_READ, 0);
    assert ReadStep(FIRST_READ, BOTH_READ, 1);
  }

  lemma FourSteps(u: Tables, hmac: string -> nat, h: Handler, reqs: seq<Request>, a: World, b: World, c: World, d: World, e: World)
    requires Initial(reqs, a) && Step(u, hmac, h, reqs, a, b) && Step(u, hmac, h, reqs, b, c)
    requires Step(u, hmac, h, reqs, c, d) && Step(u, hmac, h, reqs, d, e)
    ensures IsRun(u, hmac, h, reqs, [a, b, c, d, e])
  {
    hide Step, Initial;
    var run := [a, b, c, d, e];
    forall t | 0 < t < |run|
      ensures Step(u, hmac, h, reqs, run[t - 1], run[t])
    {
      assert (t == 1 && run[t - 1] == a) || (t == 2 && run[t - 1] == b) || (t == 3 && run[t - 1] == c) || (t == 4 && run[t - 1] == d);
    }
  }

  /** Any two names can end up with one pseudonym. */
  lemma OverlappingRun(u: Tables, hmac: string -> nat, h: Handler, r: Request, s: Request, a: string, b: string)
    requires Gives(u, hmac, h, r, a) && Gives(u, hmac, h, s, b) && a != b
    ensures IsRun(u, hmac, h, [r, s], Overlapping(a, b))
  {
    Reads(u, hmac, h, [r, s]);
    FirstMerge(u, hmac, h, r, s, a);
    SecondMerge(u, hmac, h, r, s, a, b);
    hide Step, FirstMerged, BothMerged, Gives, Initial, IsRun;
    FourSteps(u, hmac, h, [r, s], START, FIRST_READ, BOTH_READ, FirstMerged(a), BothMerged(a, b));
  }

  lemma OverlappingEnds(a: string, b: string)
    ensures Overlapping(a, b)[4].store == Both(a, b)
  {
  }

  const ANN_AND_BOB := [Request([Person("Ann")], "ann"), Request([Person("Bob")], "bob")]

  /** Two names with one pseudonym: no reverse map takes it back to both. */
  lemma BothShare(a: string, b: string)
    requires a != b
    ensures var m := Both(a, b);
            && a in m && b in m && m[a] == m[b] && !DistinctValues(m)
            && forall rev :: IsReverse(m, rev) ==> exists k :: k in m && !(m[k] in rev && rev[m[k]] == k)
  {
    var m := Both(a, b);
    assert a in m && b in m && m[a] == m[b];
    forall rev | IsReverse(m, rev)
      ensures exists k :: k in m && !(m[k] in rev && rev[m[k]] == k)
    {
      ReverseIsInverse(m, rev);
    }
  }

  /** Two requests at once give two names one pseudonym. */
  lemma OnePseudonymForTwo(hmac: string -> nat)
    ensures IsRun(ASCII, hmac, ONE_POOL, ANN_AND_BOB, Overlapping("Ann", "Bob"))
    ensures var m := Overlapping("Ann", "Bob")[4].store;
            && "Ann" in m && "Bob" in m && m["Ann"] == m["Bob"] && !DistinctValues(m)
            && forall rev :: IsReverse(m, rev) ==> exists k :: k in m && !(m[k] in rev && rev[m[k]] == k)
  {
    AsksOf("Ann", "ann");
    AsksOf("Bob", "bob");
    hide IsRun, Asks, Assigns, Fold, Initial, Trim;
    GetsPoolName(hmac, ANN_AND_BOB[0], "Ann");
    GetsPoolName(hmac, ANN_AND_BOB[1], "Bob");
    assert "Ann"[0] != "Bob"[0];
    OverlappingRun(ASCII, hmac, ONE_POOL, ANN_AND_BOB[0], ANN_AND_BOB[1], "Ann", "Bob");
    hide Gives, DistinctValues, IsReverse, Both;
    BothShare("Ann", "Bob");
    OverlappingEnds("Ann", "Bob");
  }

  lemma AsksOf(name: string, text: string)
    requires |name| == |text| == 3 && text[0] != 'z' && !ASCII.IsSpace(name[0]) && !ASCII.IsSpace(name[2])
    ensures Asks(Request([Person(name)], text), name)
  {
    hide Fold;
    assert Fold(ASCII, "Zed")[0] == ASCII.Lower('Z') == 'z';
    assert !Contains(text, Fold(ASCII, "Zed"));
    assert TrimLeft(ASCII, name) == name && TrimRight(ASCII, name) == name;
  }

  const ANN_AND_ANN := [Request([Person("Ann")], "ann"), Request([Person("ann")], "ann")]

  lemma AnnTwin()
    ensures "Ann" != "ann" && SameFold(ASCII, "Ann", "ann")
  {
    assert "Ann"[0] != "ann"[0];
    var a, b := Fold(ASCII, "Ann"), Fold(ASCII, "ann");
    assert a[0] == b[0] && a[1] == b[1] && a[2] == b[2];
    assert a == b;
  }

  /** They can also leave two keys that differ in case only. */
  lemma TwinKeys(hmac: string -> nat)
    ensures IsRun(ASCII, hmac, ONE_POOL, ANN_AND_ANN, Overlapping("Ann", "ann"))
    ensures !FoldDistinct(ASCII, Overlapping("Ann", "ann")[4].store)
  {
    AsksOf("Ann", "ann");
    AsksOf("ann", "ann");
    AnnTwin();
    hide IsRun, Asks, Assigns, Fold, Initial, Trim, SameFold;
    GetsPoolName(hmac, ANN_AND_ANN[0], "Ann");
    GetsPoolName(hmac, ANN_AND_ANN[1], "ann");
    OverlappingRun(ASCII, hmac, ONE_POOL, ANN_AND_ANN[0], ANN_AND_ANN[1], "Ann", "ann");
    hide Gives;
    OverlappingEnds("Ann", "ann");
    TwinsInBoth("Ann", "ann");
  }

  lemma TwinsInBoth(a: string, b: string)
    requires a != b && SameFold(ASCII, a, b)
    ensures !FoldDistinct(ASCII, Both(a, b))
  {
    hide SameFold;
    assert a in Both(a, b) && b in Both(a, b);
  }
}
