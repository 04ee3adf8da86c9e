/** First and last names of a person as mappings of their own. */
module Components {
  import opened Unicode
  import opened Mappings

  /** Length of the word s starts with. */
  function WordLen(u: Tables, s: string): (n: nat)
    ensures n <= |s| && (n == |s| || u.IsSpace(s[n]))
    ensures forall i :: 0 <= i < n ==> !u.IsSpace(s[i])
  {
    if s == [] || u.IsSpace(s[0]) then 0 else 1 + WordLen(u, s[1..])
  }

  predicate IsWord(u: Tables, w: string) {
    w != [] && forall i :: 0 <= i < |w| ==> !u.IsSpace(w[i])
  }

  /** strings.Fields. */
  function Fields(u: Tables, s: string): (r: seq<string>)
    decreases |s|
  {
    var t := TrimLeft(u, s);
    if t == [] then [] else [t[..WordLen(u, t)]] + (if WordLen(u, t) > 0 then Fields(u, t[WordLen(u, t)..]) else [])
  }

  lemma {:induction false} FieldsAreWords(u: Tables, s: string)
    ensures forall i :: 0 <= i < |Fields(u, s)| ==> IsWord(u, Fields(u, s)[i])
    decreases |s|
  {
    var t := TrimLeft(u, s);
    if t != [] {
      FieldsAreWords(u, t[WordLen(u, t)..]);
    }
  }

  lemma FieldsStep(u: Tables, s: string)
    ensures var t := TrimLeft(u, s);
            t != [] && WordLen(u, t) > 0 ==> Fields(u, s) == [t[..WordLen(u, t)]] + Fields(u, t[WordLen(u, t)..])
    ensures s == [] ==> Fields(u, s) == []
  {
  }

  /** A word is its own only field. */
  lemma WordFields(u: Tables, w: string)
    requires IsWord(u, w)
    ensures Fields(u, w) == [w]
  {
    assert TrimLeft(u, w) == w && WordLen(u, w) == |w|;
    FieldsStep(u, w);
    FieldsStep(u, []);
    hide *;
    assert w[..|w|] == w && w[|w|..] == [];
  }

  /** n characters of one word, then a space or nothing. */
  predicate StartsWord(u: Tables, s: string, n: nat) {
    0 < n <= |s| && (forall i :: 0 <= i < n ==> !u.IsSpace(s[i])) && (n == |s| || u.IsSpace(s[n]))
  }

  lemma BareWord(u: Tables, s: string, n: nat)
    requires StartsWord(u, s, n)
    ensures TrimLeft(u, s) == s && WordLen(u, s) == n
  {
    assert !u.IsSpace(s[0]);
  }

  lemma SpaceTrimmed(u: Tables, s: string, w: string)
    requires s != [] && u.IsSpace(s[0]) && w == s[1..] && w != [] && !u.IsSpace(w[0])
    ensures TrimLeft(u, s) == w
  {
  }

  /** Two words with a space between. */
  predicate TwoWords(u: Tables, s: string, n: nat) {
    n + 1 < |s| && StartsWord(u, s, n) && StartsWord(u, s[n + 1..], |s| - n - 1)
  }

  lemma LastFieldOf(u: Tables, r: string, w: string)
    requires r != [] && u.IsSpace(r[0]) && w == r[1..] && StartsWord(u, w, |w|)
    ensures Fields(u, r) == [w]
  {
    SpaceTrimmed(u, r, w);
    BareWord(u, w, |w|);
    FieldsStep(u, r);
    FieldsStep(u, []);
    assert w[..|w|] == w && w[|w|..] == [];
    hide *;
  }

  lemma FieldsOfTwo(u: Tables, s: string, n: nat)
    requires TwoWords(u, s, n)
    ensures Fields(u, s) == [s[..n], s[n + 1..]]
  {
    BareWord(u, s, n);
    FieldsStep(u, s);
    var r, w := s[n..], s[n + 1..];
    assert r[0] == s[n] && r[1..] == w;
    hide Fields, TrimLeft, WordLen;
    LastFieldOf(u, r, w);
  }

  lemma TrimmedOf(u: Tables, s: string)
    requires s != [] && !u.IsSpace(s[0]) && !u.IsSpace(s[|s| - 1])
    ensures Trim(u, s) == s
  {
  }

  // ---- Safe components ----

  function Letters(u: Tables, s: string, n: nat): nat
    requires n <= |s|
  {
    if n == 0 then 0 else Letters(u, s, n - 1) + (if u.IsLetter(s[n - 1]) then 1 else 0)
  }

  predicate IsSafeComponent(u: Tables, token: string) {
    |token| >= 2 && !u.IsLower(token[0]) && Letters(u, token, |token|) >= 2
  }

  method CheckSafeComponent(u: Tables, token: string) returns (safe: bool)
    ensures safe <==> IsSafeComponent(u, token)
  {
    if |token| < 2 || u.IsLower(token[0]) {
      return false;
    }
    var letters := 0;
    for i := 0 to |token|
      invariant letters == Letters(u, token, i)
    {
      if u.IsLetter(token[i]) {
        letters := letters + 1;
      }
    }
    return letters >= 2;
  }

  // ---- The mappings ----

  /** One pair: kept if the name is safe and differs from its stand-in. */
  predicate IsPair(u: Tables, name: string, stand: string) {
    stand != [] && IsSafeComponent(u, name) && !SameFold(u, name, stand)
  }

  /** k stands for v as the first name of a pair of full names, or as their last. */
  predicate IsComponent(u: Tables, name: string, pseudo: string, k: string, v: string) {
    IsComponentOf(u, Fields(u, name), Fields(u, pseudo), k, v)
  }

  predicate IsComponentOf(u: Tables, r: seq<string>, p: seq<string>, k: string, v: string) {
    && |r| >= 2 && |p| >= 2 && IsPair(u, k, v)
    && ((k == r[0] && v == p[0]) || (k == r[|r| - 1] && v == p[|p| - 1] && !SameFold(u, k, r[0])))
  }

  /** ComponentMappings: exactly the components. */
  method ComponentMappings(u: Tables, name: string, pseudo: string) returns (out: Mapping)
    ensures IsComponentMap(u, name, pseudo, out)
  {
    hide Fields, IsPair, Fold;
    var rTokens, pTokens := Fields(u, name), Fields(u, pseudo);
    if |rTokens| < 2 || |pTokens| < 2 {
      return map[];
    }
    out := AddPair(u, map[], rTokens[0], pTokens[0]);
    var rLast, pLast := rTokens[|rTokens| - 1], pTokens[|pTokens| - 1];
    if !SameFold(u, rLast, rTokens[0]) {
      out := AddPair(u, out, rLast, pLast);
    }
  }

  ghost predicate IsComponentMap(u: Tables, name: string, pseudo: string, out: Mapping) {
    && (forall k :: k in out ==> IsComponent(u, name, pseudo, k, out[k]))
    && (forall k, v :: IsComponent(u, name, pseudo, k, v) ==> k in out && out[k] == v)
  }

  method AddPair(u: Tables, out: Mapping, name: string, stand: string) returns (r: Mapping)
    ensures r == if IsPair(u, name, stand) then out[name := stand] else out
  {
    if stand == "" {
      return out;
    }
    var safe := CheckSafeComponent(u, name);
    if !safe || SameFold(u, name, stand) {
      return out;
    }
    return out[name := stand];
  }

  /** There are no two components that differ in case only, so their order never matters. */
  lemma ComponentsFoldDistinct(u: Tables, name: string, pseudo: string, k: string, v: string, l: string, w: string)
    requires IsComponent(u, name, pseudo, k, v) && IsComponent(u, name, pseudo, l, w) && SameFold(u, k, l)
    ensures k == l && v == w
  {
  }
}
