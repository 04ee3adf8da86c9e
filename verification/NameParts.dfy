/** Which first and last names become mappings of their own, by the characters of the names. */
module NameParts {
  import opened Unicode
  import opened Mappings
  import opened Components

  // ---- Words ----

  /** s[a..b] is the first word of s. */
  ghost predicate FirstWord(u: Tables, s: string, a: nat, b: nat) {
    && a < b <= |s| && (forall i :: 0 <= i < a ==> u.IsSpace(s[i])) && (forall i :: a <= i < b ==> !u.IsSpace(s[i]))
    && (b == |s| || u.IsSpace(s[b]))
  }

  /** s[a..b] is the last word of s. */
  ghost predicate LastWord(u: Tables, s: string, a: nat, b: nat) {
    && a < b <= |s| && (forall i :: b <= i < |s| ==> u.IsSpace(s[i])) && (forall i :: a <= i < b ==> !u.IsSpace(s[i]))
    && (a == 0 || u.IsSpace(s[a - 1]))
  }

  /** s has more than one word. */
  ghost predicate ManyWords(u: Tables, s: string) {
    exists i, j, k :: 0 <= i < j < k < |s| && !u.IsSpace(s[i]) && u.IsSpace(s[j]) && !u.IsSpace(s[k])
  }

  /** At least two characters, the first not in lower case, and letters in two places. */
  ghost predicate SafeWord(u: Tables, w: string) {
    |w| >= 2 && !u.IsLower(w[0]) && exists i, j :: 0 <= i < j < |w| && u.IsLetter(w[i]) && u.IsLetter(w[j])
  }

  /** The two differ, case aside. */
  ghost predicate ReadApart(u: Tables, a: string, b: string) {
    |a| != |b| || exists j :: 0 <= j < |a| && u.Lower(a[j]) != u.Lower(b[j])
  }

  ghost predicate IsFirst(u: Tables, s: string, w: string) {
    exists a: nat, b: nat :: FirstWord(u, s, a, b) && w == s[a..b]
  }

  ghost predicate IsLast(u: Tables, s: string, w: string) {
    exists a: nat, b: nat :: LastWord(u, s, a, b) && w == s[a..b]
  }

  // ---- Fields ----

  lemma FromOffset(s: string, o: nat, t: string, n: nat)
    requires o <= |s| && t == s[o..] && n <= |t|
    ensures o + n <= |s| && s[o..o + n] == t[..n] && s[o + n..] == t[n..]
    ensures forall i :: 0 <= i < |t| ==> s[o + i] == t[i]
  {
  }

  /** The field Fields takes first stands in s, and what is left of s behind it. */
  lemma TrimmedWord(u: Tables, s: string) returns (o: nat, n: nat)
    requires TrimLeft(u, s) != []
    ensures var t := TrimLeft(u, s);
            && n == WordLen(u, t) && 0 < n <= |t| && FirstWord(u, s, o, o + n) && s[o..o + n] == t[..n] && s[o + n..] == t[n..]
  {
    var t := TrimLeft(u, s);
    o, n := |s| - |t|, WordLen(u, t);
    WordStarts(u, t);
    FromOffset(s, o, t, n);
    hide TrimLeft, WordLen;
    forall i | o <= i < o + n
      ensures !u.IsSpace(s[i])
    {
      assert s[i] == s[o + (i - o)] == t[i - o];
    }
    assert o + n < |s| ==> s[o + n] == t[n];
  }

  lemma WordStarts(u: Tables, t: string)
    requires t != [] && !u.IsSpace(t[0])
    ensures WordLen(u, t) > 0
  {
  }

  lemma OneFirst(u: Tables, s: string, a: nat, b: nat, c: nat, d: nat)
    requires FirstWord(u, s, a, b) && FirstWord(u, s, c, d)
    ensures a == c && b == d
  {
    var x, y := s[a], s[c];
    var v, w := s[b - 1], s[d - 1];
  }

  lemma OneLast(u: Tables, s: string, a: nat, b: nat, c: nat, d: nat)
    requires LastWord(u, s, a, b) && LastWord(u, s, c, d)
    ensures a == c && b == d
  {
    var x, y := s[a], s[c];
    var v, w := s[b - 1], s[d - 1];
  }

  lemma NoFields(u: Tables, s: string)
    requires TrimLeft(u, s) == []
    ensures Fields(u, s) == [] && forall i :: 0 <= i < |s| ==> u.IsSpace(s[i])
  {
  }

  lemma NoWord(u: Tables, s: string, w: string)
    requires forall i :: 0 <= i < |s| ==> u.IsSpace(s[i])
    ensures !IsFirst(u, s, w) && !IsLast(u, s, w)
  {
    forall a: nat, b: nat
      ensures !FirstWord(u, s, a, b) && !LastWord(u, s, a, b)
    {
      if a < |s| {
        var x := s[a];
      }
    }
  }

  lemma HasFields(u: Tables, s: string)
    ensures TrimLeft(u, s) == [] <==> Fields(u, s) == []
  {
    if TrimLeft(u, s) != [] {
      WordStarts(u, TrimLeft(u, s));
      FieldsStep(u, s);
    }
  }

  /** The fields are the first word and the fields of what follows it. */
  lemma FieldsFrom(u: Tables, s: string) returns (a: nat, b: nat)
    requires Fields(u, s) != []
    ensures FirstWord(u, s, a, b) && b <= |s| && Fields(u, s) == [s[a..b]] + Fields(u, s[b..])
  {
    hide *;
    HasFields(u, s);
    var o, n := TrimmedWord(u, s);
    FieldsStep(u, s);
    WordEnds(u, s, o, o + n);
    a, b := o, o + n;
  }

  /** The first field is the first word. */
  lemma FirstField(u: Tables, s: string, w: string)
    ensures IsFirst(u, s, w) <==> Fields(u, s) != [] && Fields(u, s)[0] == w
  {
    HasFields(u, s);
    hide Fields, TrimLeft;
    if Fields(u, s) == [] {
      NoFields(u, s);
      NoWord(u, s, w);
    } else {
      var a, b := FieldsFrom(u, s);
      if IsFirst(u, s, w) {
        var c: nat, d: nat :| FirstWord(u, s, c, d) && w == s[c..d];
        OneFirst(u, s, a, b, c, d);
      }
    }
  }

  /** The last word of what follows a word is the last word. */
  lemma LastBehind(u: Tables, s: string, n: nat, a: nat, b: nat)
    requires n <= |s| && (n == |s| || u.IsSpace(s[n])) && LastWord(u, s[n..], a, b)
    ensures n + b <= |s| && LastWord(u, s, n + a, n + b) && s[n + a..n + b] == s[n..][a..b]
  {
    var r := s[n..];
    forall i | n <= i < |s|
      ensures s[i] == r[i - n]
    {
    }
    assert r[a] == s[n + a] && r[0] == s[n];
  }

  lemma FirstIsLast(u: Tables, s: string, a: nat, b: nat)
    requires FirstWord(u, s, a, b) && forall i :: 0 <= i < |s[b..]| ==> u.IsSpace(s[b..][i])
    ensures LastWord(u, s, a, b)
  {
    var r := s[b..];
    forall i | b <= i < |s|
      ensures u.IsSpace(s[i])
    {
      assert r[i - b] == s[i];
    }
  }

  lemma {:induction false} LastFieldAt(u: Tables, s: string) returns (a: nat, b: nat)
    requires Fields(u, s) != []
    ensures LastWord(u, s, a, b) && s[a..b] == Fields(u, s)[|Fields(u, s)| - 1]
    decreases |s|
  {
    hide *;
    var c, d := FieldsFrom(u, s);
    var r := s[d..];
    WordEnds(u, s, c, d);
    HasFields(u, r);
    if Fields(u, r) == [] {
      NoFields(u, r);
      FirstIsLast(u, s, c, d);
      a, b := c, d;
    } else {
      var x, y := LastFieldAt(u, r);
      LastBehind(u, s, d, x, y);
      a, b := d + x, d + y;
    }
  }

  lemma WordEnds(u: Tables, s: string, a: nat, b: nat)
    requires FirstWord(u, s, a, b)
    ensures a < b <= |s| && (b == |s| || u.IsSpace(s[b]))
  {
  }

  /** The last field is the last word. */
  lemma LastField(u: Tables, s: string, w: string)
    ensures IsLast(u, s, w) <==> Fields(u, s) != [] && Fields(u, s)[|Fields(u, s)| - 1] == w
  {
    HasFields(u, s);
    hide Fields, TrimLeft;
    if Fields(u, s) == [] {
      NoFields(u, s);
      NoWord(u, s, w);
    } else {
      var a, b := LastFieldAt(u, s);
      if IsLast(u, s, w) {
        var c: nat, d: nat :| LastWord(u, s, c, d) && w == s[c..d];
        OneLast(u, s, a, b, c, d);
      }
    }
  }

  /** There are several fields if there are several words. */
  lemma ManyFields(u: Tables, s: string)
    ensures ManyWords(u, s) <==> |Fields(u, s)| >= 2
  {
    HasFields(u, s);
    if Fields(u, s) == [] {
      NoFields(u, s);
      hide Fields, TrimLeft;
    } else {
      var a, b := FieldsFrom(u, s);
      HasFields(u, s[b..]);
      BlankOrNot(u, s[b..]);
      hide Fields, TrimLeft;
      MoreBehind(u, s, a, b);
    }
  }

  lemma BlankOrNot(u: Tables, s: string)
    ensures TrimLeft(u, s) == [] <==> forall i :: 0 <= i < |s| ==> u.IsSpace(s[i])
  {
    var t := TrimLeft(u, s);
    if t != [] {
      assert s[|s| - |t|] == t[0];
    }
  }

  lemma MoreBehind(u: Tables, s: string, a: nat, b: nat)
    requires FirstWord(u, s, a, b)
    ensures ManyWords(u, s) <==> !(forall i :: 0 <= i < |s[b..]| ==> u.IsSpace(s[b..][i]))
  {
    var r := s[b..];
    assert forall i :: b <= i < |s| ==> r[i - b] == s[i];
    if i :| 0 <= i < |r| && !u.IsSpace(r[i]) {
      assert !u.IsSpace(s[a]) && s[b + i] == r[i] && r[0] == s[b];
    }
    if i, j, k :| 0 <= i < j < k < |s| && !u.IsSpace(s[i]) && u.IsSpace(s[j]) && !u.IsSpace(s[k]) {
      assert k >= b ==> s[k] == r[k - b];
    }
  }

  // ---- Parts ----

  /** k stands for v as a part of the name: both have several words, k is the first word of the one and v
      of the other, or the last and not the first again, case aside; k is safe and differs from v. */
  ghost predicate IsPart(u: Tables, name: string, pseudo: string, k: string, v: string) {
    && ManyWords(u, name) && ManyWords(u, pseudo) && SafeWord(u, k) && ReadApart(u, k, v)
    && ((IsFirst(u, name, k) && IsFirst(u, pseudo, v))
        || (IsLast(u, name, k) && IsLast(u, pseudo, v) && forall f :: IsFirst(u, name, f) ==> ReadApart(u, k, f)))
  }

  lemma {:induction false} LettersAre(u: Tables, s: string, n: nat)
    requires n <= |s|
    ensures Letters(u, s, n) >= 1 <==> exists i :: 0 <= i < n && u.IsLetter(s[i])
    ensures Letters(u, s, n) >= 2 <==> exists i, j :: 0 <= i < j < n && u.IsLetter(s[i]) && u.IsLetter(s[j])
  {
    if n > 0 {
      LettersAre(u, s, n - 1);
      if u.IsLetter(s[n - 1]) {
        if i :| 0 <= i < n - 1 && u.IsLetter(s[i]) {
          assert 0 <= i < n - 1 < n && u.IsLetter(s[i]) && u.IsLetter(s[n - 1]);
        }
      }
    }
  }

  lemma SafeIs(u: Tables, w: string)
    ensures IsSafeComponent(u, w) <==> SafeWord(u, w)
  {
    LettersAre(u, w, |w|);
    hide Letters;
  }

  lemma ApartIs(u: Tables, a: string, b: string)
    ensures SameFold(u, a, b) <==> !ReadApart(u, a, b)
  {
    if |a| == |b| {
      assert forall j :: 0 <= j < |a| ==> Fold(u, a)[j] == u.Lower(a[j]) && Fold(u, b)[j] == u.Lower(b[j]);
      assert Fold(u, a) == Fold(u, b) <==> forall j :: 0 <= j < |a| ==> Fold(u, a)[j] == Fold(u, b)[j];
    }
  }

  lemma WordIsSomething(u: Tables, s: string, w: string)
    requires IsFirst(u, s, w) || IsLast(u, s, w)
    ensures w != []
  {
  }

  /** Exactly these are the components. */
  lemma ComponentIsPart(u: Tables, name: string, pseudo: string, k: string, v: string)
    ensures IsComponent(u, name, pseudo, k, v) <==> IsPart(u, name, pseudo, k, v)
  {
    ManyFields(u, name);
    ManyFields(u, pseudo);
    SafeIs(u, k);
    ApartIs(u, k, v);
    FirstField(u, name, k);
    FirstField(u, pseudo, v);
    LastField(u, name, k);
    LastField(u, pseudo, v);
    hide Fields, ManyWords, SafeWord, ReadApart, IsSafeComponent, SameFold, IsFirst, IsLast;
    if IsFirst(u, pseudo, v) || IsLast(u, pseudo, v) {
      WordIsSomething(u, pseudo, v);
    }
    NotFirstAgain(u, name, k);
  }

  lemma NotFirstAgain(u: Tables, name: string, k: string)
    ensures Fields(u, name) != [] ==> (!SameFold(u, k, Fields(u, name)[0]) <==> forall f :: IsFirst(u, name, f) ==> ReadApart(u, k, f))
  {
    if Fields(u, name) != [] {
      FirstField(u, name, Fields(u, name)[0]);
      ApartIs(u, k, Fields(u, name)[0]);
      hide Fields, SameFold, ReadApart, IsFirst;
      forall f | IsFirst(u, name, f)
        ensures f == Fields(u, name)[0]
      {
        FirstField(u, name, f);
      }
    }
  }

  /** ComponentMappings maps exactly the parts. */
  lemma MapOfParts(u: Tables, name: string, pseudo: string, out: Mapping)
    requires IsComponentMap(u, name, pseudo, out)
    ensures forall k, v :: IsPart(u, name, pseudo, k, v) <==> k in out && out[k] == v
  {
    hide IsComponent, IsPart;
    forall k, v
      ensures IsPart(u, name, pseudo, k, v) <==> k in out && out[k] == v
    {
      ComponentIsPart(u, name, pseudo, k, v);
    }
  }
}
