/** ReverseStream, whole runs of samples, and what goes wrong outside the premises. */
module StreamRuns {
  import opened Unicode
  import opened Scanner
  import opened Mappings
  import opened Replacer
  import opened Streaming

  // ---- When nothing is undone ----

  /** A match of t stays accepted when d starts outside a word. */
  lemma ClearGrows(u: Tables, t: string, d: string, i: nat, n: nat)
    requires Lawful(u) && i < |t| && i + n <= |t| && Clear(u, t, i, n)
    requires d == [] || !IsWordContext(u, d[0])
    ensures Clear(u, t + d, i, n)
  {
    var s := t + d;
    assert forall k :: 0 <= k < |t| ==> s[k] == t[k];
    assert |t| < |s| ==> s[|t|] == d[0];
    assert LawfulAt(u, 's');
    if d != [] {
      assert LawfulAt(u, d[0]);
      assert u.Lower(d[0]) != 's';
    }
    Apostrophes(u, CURLY);
    Apostrophes(u, APOSTROPHE);
  }

  /** If no key occurs inside another as whole words, a continuation that starts outside a word
      settles every sample. */
  lemma SettledAtBoundary(u: Tables, rules: Rules, t: string, d: string)
    requires Lawful(u) && forall p :: p in rules.pats ==> Solid(u, rules.pats, p)
    requires d == [] || !IsWordContext(u, d[0])
    ensures Settled(u, rules.pats, t, d)
  {
    hide Clear;
    forall i: nat | i < |t| && Accepted(u, rules.pats, t, i)
      ensures SettledAt(u, rules.pats, t, d, i) && SameCasingAt(u, rules.pats, t, d, i)
    {
      ClearGrows(u, t, d, i, KeyLen(u, rules.pats, t, i));
      if KeyLen(u, rules.pats, t + d, i) != KeyLen(u, rules.pats, t, i) {
        SameKeyAtBoundary(u, rules, t, d, i);
      }
    }
  }

  lemma SameKeyAtBoundary(u: Tables, rules: Rules, t: string, d: string, i: nat)
    requires Lawful(u) && forall p :: p in rules.pats ==> Solid(u, rules.pats, p)
    requires d == [] || !IsWordContext(u, d[0])
    requires i < |t| && Accepted(u, rules.pats, t, i)
    ensures KeyLen(u, rules.pats, t + d, i) == KeyLen(u, rules.pats, t, i)
  {
    hide TailLen, MatchesAt;
    var n, n' := KeyLen(u, rules.pats, t, i), KeyLen(u, rules.pats, t + d, i);
    if n != n' {
      KeyCrosses(u, rules.pats, t, d, i);
      KeyTaken(u, rules.pats, t, i);
      KeyTaken(u, rules.pats, t + d, i);
      var k, p := Fold(u, t[i..i + n]), Fold(u, (t + d)[i..i + n']);
      assert SolidAt(u, rules.pats, p, 0);
      InsideSolid(u, rules.pats, t, d, i, p, i, k);
      WordGoesOn(u, t, d, i, n);
      ClearGrows(u, t, d, i, n);
    }
  }

  // ---- Keys that stand alone ----

  /** k stands at a word start inside p, or at its start. */
  predicate BeginsWordAt(u: Tables, p: string, k: string, j: nat) {
    j <= |p| && k <= p[j..] && (j == 0 || !IsWordContext(u, p[j - 1]))
  }

  /** Keys start with no apostrophe and no space, none begins with another, and none begins the rest of
      another from a word start on. */
  ghost predicate StandAlone(u: Tables, pats: seq<string>) {
    && StartsClean(pats)
    && (forall p, k, j: nat {:trigger BeginsWordAt(u, p, k, j)} :: p in pats && k in pats && BeginsWordAt(u, p, k, j) ==> j == 0 && k == p)
  }

  /** Behind each complete key the sample ends in, and behind its possessive tail, the continuation
      leaves the word's end. */
  ghost predicate EndsClear(u: Tables, pats: seq<string>, t: string, d: string) {
    forall i: nat :: i < |t| && Accepted(u, pats, t, i) && TouchesEnd(u, t, i, KeyLen(u, pats, t, i)) ==>
      RightClear(u, t + d, End(u, t + d, i, KeyLen(u, pats, t, i)))
  }

  lemma AloneIsStreamable(u: Tables, rules: Rules)
    requires WellFormed(rules) && StandAlone(u, rules.pats)
    ensures Streamable(u, rules)
  {
    forall p, k, j: nat | p in rules.pats && k in rules.pats && StandsInside(u, p, k, j)
      ensures BeginsWordAt(u, p, k, j)
    {
      assert p[j..][..|k|] == p[j..j + |k|];
    }
  }

  /** The key taken at i does not change when the text grows. */
  lemma AloneSameKey(u: Tables, pats: seq<string>, t: string, d: string, i: nat)
    requires StandAlone(u, pats) && i < |t| && KeyLen(u, pats, t, i) > 0
    ensures KeyLen(u, pats, t + d, i) == KeyLen(u, pats, t, i)
  {
    hide KeyLen;
    KeyTaken(u, pats, t, i);
    var k := Fold(u, t[i..i + KeyLen(u, pats, t, i)]);
    MatchesAtGrows(u, t, d, i, k);
    KeyFound(u, pats, t + d, i, k);
    KeyTaken(u, pats, t + d, i);
    var p := Fold(u, (t + d)[i..i + KeyLen(u, pats, t + d, i)]);
    hide MatchesAt;
    if |k| <= |p| {
      MatchesComparable(u, t + d, i, k, p);
    } else {
      MatchesComparable(u, t + d, i, p, k);
    }
    OneBeginsOther(u, p, k);
  }

  lemma OneBeginsOther(u: Tables, p: string, k: string)
    requires p <= k || k <= p
    ensures BeginsWordAt(u, p, k, 0) || BeginsWordAt(u, k, p, 0)
  {
    assert p[0..] == p && k[0..] == k;
  }

  lemma AloneSettles(u: Tables, pats: seq<string>, t: string, d: string)
    requires Lawful(u) && StandAlone(u, pats)
    requires EndsClear(u, pats, t, d)
    ensures Settled(u, pats, t, d)
  {
    hide Clear, StandAlone, KeyLen, RightClear, End;
    forall i: nat | i < |t| && Accepted(u, pats, t, i)
      ensures SettledAt(u, pats, t, d, i) && SameCasingAt(u, pats, t, d, i)
    {
      AcceptedTakes(u, pats, t, i);
      AloneSameKey(u, pats, t, d, i);
      if TouchesEnd(u, t, i, KeyLen(u, pats, t, i)) {
        StaysClearAt(u, t, d, i, KeyLen(u, pats, t, i));
      }
    }
  }

  lemma StaysClearAt(u: Tables, t: string, d: string, i: nat, n: nat)
    requires i < |t| && i + n <= |t| && Clear(u, t, i, n) && RightClear(u, t + d, End(u, t + d, i, n))
    ensures Clear(u, t + d, i, n)
  {
    hide RightClear, TailLen;
    assert i > 0 ==> (t + d)[i - 1] == t[i - 1];
  }

  /** A continuation that starts outside a word leaves every word's end. */
  lemma BoundaryEndsClear(u: Tables, pats: seq<string>, t: string, d: string)
    requires Lawful(u) && (d == [] || !IsWordContext(u, d[0]))
    ensures EndsClear(u, pats, t, d)
  {
    hide KeyLen, LeftClear, RightClear, End;
    forall i: nat | i < |t| && Accepted(u, pats, t, i) && TouchesEnd(u, t, i, KeyLen(u, pats, t, i))
      ensures RightClear(u, t + d, End(u, t + d, i, KeyLen(u, pats, t, i)))
    {
      ClearGrows(u, t, d, i, KeyLen(u, pats, t, i));
    }
  }

  lemma AcceptedTakes(u: Tables, pats: seq<string>, t: string, i: nat)
    requires i < |t| && Accepted(u, pats, t, i)
    ensures KeyLen(u, pats, t, i) > 0
  {
  }

  /** Streaming safety, for keys that stand alone: whatever the sample and its continuation, what is
      shown is never taken back, provided that a complete key at the sample's end, with the tail the
      continuation may give it, is followed by no letter, digit or underscore, and that no key is
      completed directly behind a token whose name ends in a word. */
  lemma StreamingSafeAlone(u: Tables, rules: Rules, t: string, d: string, h: nat)
    requires Lawful(u) && WellFormed(rules) && StandAlone(u, rules.pats)
    requires EndsClear(u, rules.pats, t, d) && Unglued(u, rules, t, d)
    requires IsHoldback(u, rules.pats, Rewrite(u, rules, t, 0), h)
    ensures var r := Rewrite(u, rules, t, 0);
            h <= |r| && r[..|r| - h] <= Rewrite(u, rules, t + d, 0)
  {
    AloneIsStreamable(u, rules);
    AloneSettles(u, rules.pats, t, d);
    hide *;
    StreamingSafe(u, rules, t, d, h);
  }

  // ---- Runs ----

  /** What one sample may show: its rewriting without the held-back characters. */
  function Visible(r: string, h: nat): string
    requires h <= |r|
  {
    r[..|r| - h]
  }

  /** The framework sends what a sample shows beyond what was sent before. */
  function Send(sent: string, visible: string): string {
    if |visible| > |sent| then sent + visible[|sent|..] else sent
  }

  /** What the client has received after all samples. */
  function Received(sent: string, visibles: seq<string>): string
    decreases |visibles|
  {
    if |visibles| == 0 then sent else Received(Send(sent, visibles[0]), visibles[1..])
  }

  /** visible is what some sample of the text `whole` shows, the rest of whole settling it. */
  ghost predicate ShownBySample(u: Tables, rules: Rules, whole: string, visible: string) {
    exists t, d, h :: SampleShows(u, rules, whole, visible, t, d, h)
  }

  ghost predicate SampleShows(u: Tables, rules: Rules, whole: string, visible: string, t: string, d: string, h: nat) {
    && whole == t + d && Settled(u, rules.pats, t, d) && Unglued(u, rules, t, d)
    && IsHoldback(u, rules.pats, Rewrite(u, rules, t, 0), h) && h <= |Rewrite(u, rules, t, 0)|
    && visible == Visible(Rewrite(u, rules, t, 0), h)
  }

  /** What begins the rewriting is sent only as its beginning. */
  lemma {:induction false} ReceivedIsPrefix(whole: string, sent: string, visibles: seq<string>)
    requires sent <= whole && forall v :: v in visibles ==> v <= whole
    ensures Received(sent, visibles) <= whole
    decreases |visibles|
  {
    if |visibles| != 0 {
      assert visibles[0] in visibles;
      SentBegins(sent, visibles[0], whole);
      assert forall w :: w in visibles[1..] ==> w in visibles;
      ReceivedIsPrefix(whole, Send(sent, visibles[0]), visibles[1..]);
    }
  }

  lemma SentBegins(sent: string, visible: string, whole: string)
    requires sent <= whole && visible <= whole
    ensures Send(sent, visible) <= whole
  {
    if |visible| > |sent| {
      assert sent + visible[|sent|..] == visible;
    }
  }

  lemma SampleIsPrefix(u: Tables, rules: Rules, whole: string, visible: string)
    requires Lawful(u) && Streamable(u, rules) && ShownBySample(u, rules, whole, visible)
    ensures visible <= Rewrite(u, rules, whole, 0)
  {
    hide Streamable, Rewrite, IsHoldback, Settled, Unglued;
    var t, d, h :| SampleShows(u, rules, whole, visible, t, d, h);
    StreamingSafe(u, rules, t, d, h);
  }

  /** A whole stream: after any samples, in any order and repeated at will, followed by the
      complete text with nothing held back, the client has received exactly the rewriting of
      the complete text. */
  lemma StreamDelivers(u: Tables, rules: Rules, whole: string, visibles: seq<string>)
    requires Lawful(u) && Streamable(u, rules)
    requires forall v :: v in visibles ==> ShownBySample(u, rules, whole, v)
    ensures Send(Received([], visibles), Rewrite(u, rules, whole, 0)) == Rewrite(u, rules, whole, 0)
  {
    hide Streamable, Rewrite, ShownBySample;
    forall v | v in visibles
      ensures v <= Rewrite(u, rules, whole, 0)
    {
      SampleIsPrefix(u, rules, whole, v);
    }
    ReceivedIsPrefix(Rewrite(u, rules, whole, 0), [], visibles);
  }

  // ---- ReverseStream ----

  /** raw is shown as `out` with h characters held back, under the rules of the reverse map. */
  ghost predicate StreamedAs(u: Tables, reverse: Mapping, raw: string, out: string, h: nat) {
    if raw == [] then out == [] && h == 0
    else exists rules :: RulesOf(u, reverse, rules) && out == Rewrite(u, rules, raw, 0) && IsHoldback(u, rules.pats, out, h)
  }

  /** Only the non-empty keys matter for the holdback, not their order. */
  lemma HoldbackOfKeys(u: Tables, reverse: Mapping, rules: Rules, keys: seq<string>, buf: string, h: nat)
    requires RulesOf(u, reverse, rules) && (forall k :: k in keys <==> k in reverse)
    requires IsHoldback(u, FoldAll(u, keys), buf, h)
    ensures IsHoldback(u, rules.pats, buf, h)
  {
    var sorted :| Ordering.SortedElements(sorted, NonEmptyKeys(reverse)) && rules.pats == FoldAll(u, sorted);
    assert forall k :: k in sorted <==> k in NonEmptyKeys(reverse);
    FoldedElements(u, keys, sorted);
    SameHoldback(u, FoldAll(u, keys), rules.pats, buf, h);
  }

  lemma SameHoldback(u: Tables, a: seq<string>, b: seq<string>, buf: string, h: nat)
    requires forall p :: p != [] ==> (p in a <==> p in b)
    requires IsHoldback(u, a, buf, h)
    ensures IsHoldback(u, b, buf, h)
  {
    forall k: nat
      ensures Holdable(u, a, buf, k) <==> Holdable(u, b, buf, k)
    {
    }
  }

  lemma FoldedElements(u: Tables, keys: seq<string>, sorted: seq<string>)
    requires forall k :: k in sorted <==> k in keys && k != []
    ensures forall p :: p != [] ==> (p in FoldAll(u, keys) <==> p in FoldAll(u, sorted))
  {
    var a, b := FoldAll(u, keys), FoldAll(u, sorted);
    forall p | p != []
      ensures p in a <==> p in b
    {
      if p in a {
        var i :| 0 <= i < |keys| && a[i] == p;
        assert keys[i] in keys && keys[i] != [];
        assert keys[i] in sorted;
        var j :| 0 <= j < |sorted| && sorted[j] == keys[i];
        assert b[j] == p;
      }
      if p in b {
        var j :| 0 <= j < |sorted| && b[j] == p;
        assert sorted[j] in sorted;
        var i :| 0 <= i < |keys| && keys[i] == sorted[j];
        assert a[i] == p;
      }
    }
  }

  lemma EmptyRules(u: Tables, raw: string)
    ensures StreamedAs(u, map[], raw, raw, 0)
  {
    var rules := Rules([], map[]);
    assert Ordering.SortedElements([], NonEmptyKeys(map[]));
    assert FoldAll(u, []) == [];
    assert RulesOf(u, map[], rules);
    NoPatterns(u, rules, raw, 0);
    assert raw[0..] == raw;
  }

  /** The keys of a map in some order. */
  method KeysOf(m: Mapping) returns (keys: seq<string>)
    ensures forall k :: k in keys <==> k in m
  {
    keys := [];
    var todo := m.Keys;
    while todo != {}
      invariant todo <= m.Keys
      invariant forall k :: k in keys <==> k in m && k !in todo
      decreases |todo|
    {
      var k :| k in todo;
      keys := keys + [k];
      todo := todo - {k};
    }
  }

  method StreamOne(u: Tables, raw: string, reverse: Mapping, keys: seq<string>) returns (rewritten: string, h: nat)
    requires forall k :: k in keys <==> k in reverse
    ensures StreamedAs(u, reverse, raw, rewritten, h)
  {
    ghost var rules;
    rewritten, rules := Replace(u, raw, reverse);
    h := ComputeHoldback(u, rewritten, keys);
    if raw != [] {
      HoldbackOfKeys(u, reverse, rules, keys, rewritten, h);
    }
  }

  method ReverseStream(u: Tables, texts: seq<string>, reverse: Mapping) returns (outs: seq<string>, holdbacks: seq<nat>, modified: bool)
    ensures |outs| == |holdbacks| == |texts|
    ensures forall i :: 0 <= i < |texts| ==> StreamedAs(u, reverse, texts[i], outs[i], holdbacks[i])
    ensures modified <==> exists i :: 0 <= i < |texts| && outs[i] != texts[i]
  {
    hide StreamedAs;
    if reverse == map[] {
      outs, holdbacks, modified := texts, seq(|texts|, _ => 0), false;
      forall i | 0 <= i < |texts|
        ensures StreamedAs(u, reverse, texts[i], outs[i], holdbacks[i])
      {
        EmptyRules(u, texts[i]);
      }
      return;
    }
    var keys := KeysOf(reverse);
    outs, holdbacks, modified := [], [], false;
    for i := 0 to |texts|
      invariant |outs| == |holdbacks| == i
      invariant forall j :: 0 <= j < i ==> StreamedAs(u, reverse, texts[j], outs[j], holdbacks[j])
      invariant modified <==> exists j :: 0 <= j < i && outs[j] != texts[j]
    {
      var rewritten, h := StreamOne(u, texts[i], reverse, keys);
      outs := outs + [rewritten];
      holdbacks := holdbacks + [h];
      if rewritten != texts[i] {
        modified := true;
      }
    }
  }
}
