/** The round trip of every session whose requests come one after the other. */
module SequentialRoundTrip {
  import opened Unicode
  import opened Ordering
  import opened Mappings
  import opened Scanner
  import opened Replacer
  import opened Streaming
  import opened Reversal
  import opened RoundTrip
  import opened RoundTripPairs
  import opened Pseudonyms
  import opened Components
  import opened Assignments
  import opened Distinct
  import opened Sessions
  import opened Pseudonymizer
  import opened Shapes
  import opened SessionNames
  import opened FirstNames
  import opened ComponentLimits

  /** m is what requests in a row leave, with plain pools; rev is its reverse; both are compiled. */
  ghost predicate Serial(u: Tables, hmac: string -> nat, h: Handler, reqs: seq<Request>, m: Mapping, rev: Mapping, fwd: Rules, back: Rules) {
    && Lawful(u) && PlainPools(u, h.strat.pools) && InARow(u, hmac, h, reqs, |reqs|, m) && AllFit(m) && PlainNumbers(u, h.strat.pools, m)
    && RulesOf(u, m, fwd) && RulesOf(u, rev, back) && IsReverse(m, rev) && Ordinary(u, m) && WordStarts(u, fwd.pats)
  }

  lemma SerialSound(u: Tables, hmac: string -> nat, h: Handler, reqs: seq<Request>, m: Mapping, rev: Mapping, fwd: Rules, back: Rules)
    requires Serial(u, hmac, h, reqs, m, rev, fwd, back)
    ensures FoldDistinct(u, m) && SoundValues(u, h.strat.pools, m) && FirstsFiled(u, h.strat.pools, m) && Kinds(u, h.strat.pools, m)
  {
    hide PlainPools, InARow, AllFit, PlainNumbers, RulesOf, Ordinary, WordStarts, FoldDistinct, SoundValues, FirstsFiled, Kinds, CleanPools;
    PlainIsClean(u, h.strat.pools);
    InARowSound(u, hmac, h, reqs, |reqs|, m);
    InARowFiled(u, hmac, h, reqs, |reqs|, m);
    SoundKinds(u, h.strat.pools, m);
  }

  /** The reverse map's alternatives are the pseudonyms. */
  lemma BackValues(u: Tables, m: Mapping, rev: Mapping, back: Rules)
    requires RulesOf(u, rev, back) && IsReverse(m, rev)
    ensures ValuesOf(u, m, back.pats)
  {
    var keys :| SortedElements(keys, NonEmptyKeys(rev)) && back.pats == FoldAll(u, keys);
    hide Fold;
    forall g | g in back.pats
      ensures exists k :: k in m && Fold(u, m[k]) == g
    {
      var i :| 0 <= i < |keys| && FoldAll(u, keys)[i] == g;
      assert keys[i] in keys && Fold(u, m[rev[keys[i]]]) == g;
    }
  }

  /** No two pseudonyms differ in case only. */
  lemma ReverseFoldDistinct(u: Tables, pools: Pools, m: Mapping, rev: Mapping)
    requires Lawful(u) && PlainPools(u, pools) && PlainNumbers(u, pools, m) && Kinds(u, pools, m) && IsReverse(m, rev)
    ensures FoldDistinct(u, rev)
  {
    hide PlainPools, PlainNumbers, Kinds, SameFold;
    forall v, w | v in rev && w in rev && SameFold(u, v, w)
      ensures v == w
    {
      ValuesFoldApart(u, pools, m, rev[v], rev[w]);
    }
  }

  /** Where a pseudonym begins another as whole words, it is the first word of a pool name. */
  lemma BeginsAsFirst(u: Tables, pools: Pools, m: Mapping, k: string, l: string)
    requires Lawful(u) && PlainPools(u, pools) && Kinds(u, pools, m) && k in m && l in m && Overlaps(u, Fold(u, m[k]), 0, Fold(u, m[l]))
    ensures FirstOfName(u, pools, m[k], m[l])
  {
    hide *;
    var g, v := Fold(u, m[k]), Fold(u, m[l]);
    KindsAt(u, pools, m, k);
    KindsAt(u, pools, m, l);
    KindShaped(u, pools, m[k]);
    KindShaped(u, pools, m[l]);
    ShapeStart(u, v);
    var n := OverlapsDouble(u, g, v);
    if IsHyphened(u, g, n) {
      OverHyphened(u, g, n, v, 0);
      HeadIsNone(u, pools, m[k], m[l], n);
    } else {
      OverDouble(u, g, n, v, 0);
      var a, b := DoubleKind(u, pools, m[k], n);
      DoubleWords(u, pools, m[k], a, b);
      FoldLetters(u, a);
      FirstIs(u, g, n, v);
      PureKind(u, pools, m[l]);
      assert PoolWord(u, pools, a);
      SameWord(u, pools, m[l], a);
      FirstOfDouble(u, pools, m[k], a, b);
    }
  }

  lemma KindsAt(u: Tables, pools: Pools, m: Mapping, k: string)
    requires Kinds(u, pools, m) && k in m
    ensures Kind(u, pools, m[k])
  {
  }

  /** Only two words, or a word and a number, can be overlapped. */
  lemma OverlapsDouble(u: Tables, g: string, v: string) returns (n: nat)
    requires Lawful(u) && Shaped(u, g) && Shaped(u, v) && Overlaps(u, g, 0, v)
    ensures IsDouble(u, g, n) || IsHyphened(u, g, n)
  {
    hide Overlaps, IsDouble, IsHyphened, IsPure, IsBracketed;
    if IsPure(u, g) {
      PureAlone(u, g, v, 0);
    }
    if IsBracketed(u, g) {
      BracketedAlone(u, g, v, 0);
    }
    n :| IsDouble(u, g, n) || IsHyphened(u, g, n);
  }

  lemma FirstIs(u: Tables, g: string, n: nat, v: string)
    requires Overlaps(u, g, 0, v) && |v| == n
    ensures n <= |g| && v == g[..n]
  {
  }

  lemma FirstOfDouble(u: Tables, pools: Pools, p: string, a: string, b: string)
    requires DoubleName(u, pools, p, a, b)
    ensures FirstOfName(u, pools, p, a)
  {
  }

  /** Full names begin with their first names. */
  lemma SerialFirstsBegin(u: Tables, pools: Pools, m: Mapping, rev: Mapping, back: Rules)
    requires Lawful(u) && PlainPools(u, pools) && Kinds(u, pools, m) && FirstsFiled(u, pools, m) && DistinctValues(m)
    requires RulesOf(u, rev, back) && FoldDistinct(u, rev) && IsReverse(m, rev)
    ensures FirstsBegin(u, back)
  {
    BackValues(u, m, rev, back);
    hide PlainPools, Kinds, FirstsFiled, RulesOf, FoldDistinct, Fold;
    forall g, v | g in back.pats && v in back.pats && StandsInside(u, g, v, 0) && !IsWordRune(u, g[|v|]) && g in back.table && v in back.table
      ensures Fold(u, back.table[v]) < Fold(u, back.table[g])
    {
      var k :| k in m && Fold(u, m[k]) == g;
      var l :| l in m && Fold(u, m[l]) == v;
      ValueBackTo(u, m, rev, back, k);
      ValueBackTo(u, m, rev, back, l);
      BeginsAsFirst(u, pools, m, k, l);
      FiledFirst(u, pools, m, k, l);
      FirstWordBegins(u, k, l);
      FoldShorter(u, l, k);
    }
  }

  lemma FiledFirst(u: Tables, pools: Pools, m: Mapping, k: string, l: string)
    requires FirstsFiled(u, pools, m) && k in m && l in m && FirstOfName(u, pools, m[k], m[l])
    ensures FirstWordOf(u, k, l)
  {
  }

  lemma FoldShorter(u: Tables, l: string, k: string)
    requires l < k
    ensures Fold(u, l) < Fold(u, k)
  {
  }

  lemma ValueBackTo(u: Tables, m: Mapping, rev: Mapping, back: Rules, k: string)
    requires RulesOf(u, rev, back) && FoldDistinct(u, rev) && IsReverse(m, rev) && DistinctValues(m) && k in m && Fold(u, m[k]) in back.pats
    ensures Fold(u, m[k]) in back.table && back.table[Fold(u, m[k])] == k
  {
    var g := Fold(u, m[k]);
    var v := PatternOf(u, rev, back, g);
    assert SameFold(u, v, m[k]);
  }

  /** Every such session meets the premises of the round trip. */
  lemma SerialSession(u: Tables, hmac: string -> nat, h: Handler, reqs: seq<Request>, m: Mapping, rev: Mapping, fwd: Rules, back: Rules)
    requires Serial(u, hmac, h, reqs, m, rev, fwd, back)
    ensures Session(u, m, rev, fwd, back) && Decomposed(u, back.pats) && FirstsBegin(u, back)
  {
    hide PlainPools, InARow, AllFit, PlainNumbers, RulesOf, Ordinary, WordStarts, FoldDistinct, FirstsFiled, Kinds, Decomposed, StartsClean, FirstsBegin, HasOrigin;
    SerialSound(u, hmac, h, reqs, m, rev, fwd, back);
    BackValues(u, m, rev, back);
    SoundDecomposes(u, h.strat.pools, m, back.pats);
    ReverseFoldDistinct(u, h.strat.pools, m, rev);
    SerialFirstsBegin(u, h.strat.pools, m, rev, back);
  }

  /** So, whatever the requests were, a text rewritten with what the session maps comes back, letter
      case aside, if and only if the scan nowhere replaces a name whose pseudonym makes up a full one
      with what comes behind a space, and the way back takes no pseudonym that starts in what was
      copied. */
  lemma SerialRoundTrip(u: Tables, hmac: string -> nat, h: Handler, reqs: seq<Request>, m: Mapping, rev: Mapping, fwd: Rules, back: Rules, text: string)
    requires Serial(u, hmac, h, reqs, m, rev, fwd, back)
    ensures NoPairs(u, fwd, back, text, 0) && Unstrayed(u, fwd, back, text) ==>
              Fold(u, Rewrite(u, back, Rewrite(u, fwd, text, 0), 0)) == Fold(u, text)
    ensures (forall k :: k in m ==> WidthStable(u, k)) && Tellable(u, back, text) && FirstsTell(u, back, text) ==>
              (Fold(u, Rewrite(u, back, Rewrite(u, fwd, text, 0), 0)) == Fold(u, text) <==>
                NoPairs(u, fwd, back, text, 0) && Unstrayed(u, fwd, back, text))
  {
    hide *;
    SerialSession(u, hmac, h, reqs, m, rev, fwd, back);
    SessionPairsRoundTrip(u, m, rev, fwd, back, text);
  }

  // ---- Pools that are plain ----

  const TWO_PERSONS: Pools := map["PERSON" := ["Jordan Avery", "Taylor Morgan"]]

  lemma CapIsPure(w: string)
    requires IsCap(w)
    ensures IsPure(ASCII, w)
  {
  }

  lemma PoolNameFields(p: string)
    requires PoolName(TWO_PERSONS, p)
    ensures (p == "Jordan Avery" && Fields(ASCII, p) == ["Jordan", "Avery"]) || (p == "Taylor Morgan" && Fields(ASCII, p) == ["Taylor", "Morgan"])
  {
    hide *;
    PoolNames(p);
    NamesSpelled();
    FieldsOf("Jordan Avery", "Jordan", "Avery");
    FieldsOf("Taylor Morgan", "Taylor", "Morgan");
  }

  lemma FullIs(a: string, b: string)
    ensures FullName(a, b) == a + " " + b
  {
  }

  lemma NamesSpelled()
    ensures IsCap("Jordan") && IsCap("Avery") && IsCap("Taylor") && IsCap("Morgan")
    ensures "Jordan Avery" == "Jordan" + " " + "Avery" && "Taylor Morgan" == "Taylor" + " " + "Morgan"
  {
  }

  lemma PoolNames(p: string)
    requires PoolName(TWO_PERSONS, p)
    ensures p == "Jordan Avery" || p == "Taylor Morgan"
  {
  }

  lemma FieldsOf(p: string, a: string, b: string)
    requires IsCap(a) && IsCap(b) && p == a + " " + b
    ensures Fields(ASCII, p) == [a, b]
  {
    hide *;
    TwoFields(a, b);
    FullIs(a, b);
  }

  /** The first letter tells a word's place. */
  lemma WordPlace(p: string, i: nat, w: string)
    requires PoolName(TWO_PERSONS, p) && WordAt(ASCII, p, i, w)
    ensures w != [] && (w[0] == 'J' || w[0] == 'A' || w[0] == 'T' || w[0] == 'M')
    ensures w[0] == 'J' || w[0] == 'A' ==> p == "Jordan Avery"
    ensures w[0] == 'T' || w[0] == 'M' ==> p == "Taylor Morgan"
    ensures (w[0] == 'J' || w[0] == 'T') <==> i == 0
    ensures i <= 1
  {
    hide *;
    PoolNameFields(p);
    Initials();
    if p == "Jordan Avery" {
      PlaceIn(p, "Jordan", "Avery", i, w);
    } else {
      PlaceIn(p, "Taylor", "Morgan", i, w);
    }
  }

  lemma PlaceIn(p: string, a: string, b: string, i: nat, w: string)
    requires Fields(ASCII, p) == [a, b] && WordAt(ASCII, p, i, w)
    ensures (i == 0 && w == a) || (i == 1 && w == b)
  {
    hide Fields;
  }

  lemma Initials()
    ensures "Jordan" != [] && "Avery" != [] && "Taylor" != [] && "Morgan" != []
    ensures "Jordan"[0] == 'J' && "Avery"[0] == 'A' && "Taylor"[0] == 'T' && "Morgan"[0] == 'M'
    ensures "Jordan Avery" != "Taylor Morgan"
  {
    assert "Jordan Avery"[0] == 'J' && "Taylor Morgan"[0] == 'T';
  }

  lemma SameLetter(w: string, x: string)
    requires FoldBegins(ASCII, w, x) && w != [] && x != [] && IsAsciiUpper(w[0]) && IsAsciiUpper(x[0])
    ensures w[0] == x[0]
  {
    assert Fold(ASCII, w)[0] == Fold(ASCII, x)[0];
    AsciiIsLawful();
    assert LawfulAt(ASCII, w[0]) && LawfulAt(ASCII, x[0]);
  }

  /** Such are lists of names whose words are all different. */
  lemma TwoPersonsPlain()
    ensures PlainPools(ASCII, TWO_PERSONS)
  {
    hide Fields, PoolName, FoldBegins, IsPure, WordAt;
    forall p | PoolName(TWO_PERSONS, p)
      ensures PlainName(ASCII, p)
    {
      PoolNameFields(p);
      WordsArePure();
    }
    forall p, q, i: nat, j: nat, w, x | PoolName(TWO_PERSONS, p) && PoolName(TWO_PERSONS, q) && WordAt(ASCII, p, i, w) && WordAt(ASCII, q, j, x) && FoldBegins(ASCII, w, x)
      ensures p == q && i == j
    {
      WordPlace(p, i, w);
      WordPlace(q, j, x);
      SameLetter(w, x);
    }
  }

  lemma WordsArePure()
    ensures IsPure(ASCII, "Jordan") && IsPure(ASCII, "Avery") && IsPure(ASCII, "Taylor") && IsPure(ASCII, "Morgan")
    ensures "Jordan Avery" == "Jordan" + " " + "Avery" && "Taylor Morgan" == "Taylor" + " " + "Morgan"
  {
    hide *;
    NamesSpelled();
    CapIsPure("Jordan");
    CapIsPure("Avery");
    CapIsPure("Taylor");
    CapIsPure("Morgan");
  }
}
