/** The order in which keys and detections are taken: more UTF-8 bytes first, then by
    code point (which for UTF-8 is the byte order). */
module Ordering {
  import opened Unicode

  predicate LexLess(a: string, b: string) {
    if b == [] then false
    else if a == [] then true
    else a[0] < b[0] || (a[0] == b[0] && LexLess(a[1..], b[1..]))
  }

  predicate Precedes(a: string, b: string) {
    ByteLen(a) > ByteLen(b) || (ByteLen(a) == ByteLen(b) && LexLess(a, b))
  }

  lemma {:induction false} LexTotal(a: string, b: string)
    ensures LexLess(a, b) || a == b || LexLess(b, a)
  {
    if a != [] && b != [] && a[0] == b[0] {
      LexTotal(a[1..], b[1..]);
      assert a == [a[0]] + a[1..] && b == [b[0]] + b[1..];
    }
  }

  lemma {:induction false} LexTransitive(a: string, b: string, c: string)
    requires LexLess(a, b) && LexLess(b, c)
    ensures LexLess(a, c)
  {
    if a != [] && a[0] == b[0] == c[0] {
      LexTransitive(a[1..], b[1..], c[1..]);
    }
  }

  lemma {:induction false} LexIrreflexive(a: string)
    ensures !LexLess(a, a)
  {
    if a != [] {
      LexIrreflexive(a[1..]);
    }
  }

  lemma PrecedesTotal(a: string, b: string)
    ensures Precedes(a, b) || a == b || Precedes(b, a)
  {
    LexTotal(a, b);
  }

  lemma PrecedesTransitive(a: string, b: string, c: string)
    requires Precedes(a, b) && Precedes(b, c)
    ensures Precedes(a, c)
  {
    if ByteLen(a) == ByteLen(b) == ByteLen(c) {
      LexTransitive(a, b, c);
    }
  }

  ghost predicate Sorted(keys: seq<string>) {
    forall i, j :: 0 <= i < j < |keys| ==> Precedes(keys[i], keys[j])
  }

  /** keys is the set s, each string once, in order. */
  ghost predicate SortedElements(keys: seq<string>, s: set<string>) {
    Sorted(keys) && forall k :: k in keys <==> k in s
  }

  function Insert(k: string, keys: seq<string>): (r: seq<string>)
    ensures forall x :: x in r <==> x == k || x in keys
  {
    if keys == [] || Precedes(k, keys[0]) then [k] + keys
    else
      assert keys == [keys[0]] + keys[1..];
      [keys[0]] + Insert(k, keys[1..])
  }

  lemma {:induction false} InsertSorted(k: string, keys: seq<string>)
    requires Sorted(keys) && k !in keys
    ensures Sorted(Insert(k, keys))
  {
    if keys == [] {
    } else if Precedes(k, keys[0]) {
      forall j | 0 < j < |keys|
        ensures Precedes(k, keys[j])
      {
        PrecedesTransitive(k, keys[0], keys[j]);
      }
    } else {
      var rest := Insert(k, keys[1..]);
      InsertSorted(k, keys[1..]);
      PrecedesTotal(k, keys[0]);
      forall x | x in rest
        ensures Precedes(keys[0], x)
      {
        if x != k {
          var j :| 0 <= j < |keys[1..]| && keys[1..][j] == x;
          assert keys[j + 1] == x;
        }
      }
    }
  }

  /** sort.Slice over the elements of a set. */
  method Sort(s: set<string>) returns (keys: seq<string>)
    ensures SortedElements(keys, s)
  {
    keys := [];
    var todo := s;
    while todo != {}
      invariant todo <= s
      invariant SortedElements(keys, s - todo)
      decreases |todo|
    {
      var k :| k in todo;
      InsertSorted(k, keys);
      keys := Insert(k, keys);
      todo := todo - {k};
    }
  }

  lemma NoElements(a: seq<string>, s: set<string>)
    requires SortedElements(a, s)
    ensures a == [] <==> s == {}
  {
    if a != [] {
      assert a[0] in a;
    }
  }

  /** The order fixes the sequence: sorting does not depend on the order keys are met in. */
  lemma {:induction false} SortedUnique(a: seq<string>, b: seq<string>, s: set<string>)
    requires SortedElements(a, s) && SortedElements(b, s)
    ensures a == b
    decreases |a|
  {
    NoElements(a, s);
    NoElements(b, s);
    if a != [] {
      assert a[0] in a && a[0] in b;
      assert b[0] in b && b[0] in a;
      if a[0] != b[0] {
        var i :| 0 <= i < |b| && b[i] == a[0];
        var j :| 0 <= j < |a| && a[j] == b[0];
        PrecedesTransitive(a[0], b[0], a[0]);
        LexIrreflexive(a[0]);
        assert false;
      }
      TailElements(a, s);
      TailElements(b, s);
      SortedUnique(a[1..], b[1..], s - {a[0]});
      assert a == [a[0]] + a[1..] && b == [b[0]] + b[1..];
    }
  }

  lemma TailElements(a: seq<string>, s: set<string>)
    requires a != [] && SortedElements(a, s)
    ensures SortedElements(a[1..], s - {a[0]})
  {
    assert a == [a[0]] + a[1..];
    LexIrreflexive(a[0]);
    forall k
      ensures k in a[1..] <==> k in s - {a[0]}
    {
      if k in a[1..] {
        var j :| 0 <= j < |a[1..]| && a[1..][j] == k;
        assert a[j + 1] == k && Precedes(a[0], k);
        assert k in a;
      }
      if k in s - {a[0]} {
        assert k in a;
        var j :| 0 <= j < |a| && a[j] == k;
        assert a[1..][j - 1] == k;
      }
    }
  }

  /** a and b first differ at k, where a has the smaller character. */
  predicate SmallerAt(a: string, b: string, k: nat) {
    k < |a| && k < |b| && a[k] < b[k] && forall j :: 0 <= j < k ==> a[j] == b[j]
  }

  lemma {:induction false} LexIs(a: string, b: string)
    ensures LexLess(a, b) <==> (exists k: nat :: SmallerAt(a, b, k)) || (|a| < |b| && forall j :: 0 <= j < |a| ==> a[j] == b[j])
  {
    if a != [] && b != [] {
      if a[0] == b[0] {
        LexIs(a[1..], b[1..]);
        DifferAlike(a, b);
        SameLater(a, b);
        hide SmallerAt;
      } else {
        FirstDiffers(a, b);
      }
    }
  }

  lemma FirstDiffers(a: string, b: string)
    requires a != [] && b != [] && a[0] != b[0]
    ensures (exists k: nat :: SmallerAt(a, b, k)) <==> a[0] < b[0]
  {
    if a[0] < b[0] {
      assert SmallerAt(a, b, 0);
    }
  }

  lemma DifferAlike(a: string, b: string)
    requires a != [] && b != [] && a[0] == b[0]
    ensures (exists k: nat :: SmallerAt(a, b, k)) <==> exists k: nat :: SmallerAt(a[1..], b[1..], k)
  {
    if k: nat :| SmallerAt(a, b, k) {
      LaterDiffers(a, b, k - 1);
      assert SmallerAt(a[1..], b[1..], k - 1);
    }
    if k: nat :| SmallerAt(a[1..], b[1..], k) {
      LaterDiffers(a, b, k);
      assert SmallerAt(a, b, k + 1);
    }
  }

  lemma LaterDiffers(a: string, b: string, k: nat)
    requires a != [] && b != []
    ensures SmallerAt(a, b, k + 1) <==> a[0] == b[0] && SmallerAt(a[1..], b[1..], k)
  {
    assert forall j :: 0 <= j < |a[1..]| ==> a[1..][j] == a[j + 1];
    assert forall j :: 0 <= j < |b[1..]| ==> b[1..][j] == b[j + 1];
    if a[0] == b[0] && SmallerAt(a[1..], b[1..], k) {
      forall j | 0 <= j < k + 1
        ensures a[j] == b[j]
      {
        assert j > 0 ==> a[1..][j - 1] == b[1..][j - 1];
      }
    }
    if SmallerAt(a, b, k + 1) {
      forall j | 0 <= j < k
        ensures a[1..][j] == b[1..][j]
      {
        assert a[j + 1] == b[j + 1];
      }
    }
  }

  lemma SameLater(a: string, b: string)
    requires a != [] && b != []
    ensures (|a| < |b| && forall j :: 0 <= j < |a| ==> a[j] == b[j]) <==>
            a[0] == b[0] && |a[1..]| < |b[1..]| && forall j :: 0 <= j < |a[1..]| ==> a[1..][j] == b[1..][j]
  {
    assert forall j :: 0 <= j < |a[1..]| ==> a[1..][j] == a[j + 1];
    assert forall j :: 0 <= j < |b[1..]| ==> b[1..][j] == b[j + 1];
    if a[0] == b[0] && |a| < |b| && forall j :: 0 <= j < |a[1..]| ==> a[1..][j] == b[1..][j] {
      forall j | 0 <= j < |a|
        ensures a[j] == b[j]
      {
        assert j > 0 ==> a[1..][j - 1] == b[1..][j - 1];
      }
    }
  }

  /** Sorted strings: more bytes first, and of as many bytes the one with the smaller character where they
      first differ. */
  lemma SortedByBytes(keys: seq<string>, s: set<string>, i: nat, j: nat)
    requires SortedElements(keys, s) && i < j < |keys|
    ensures ByteLen(keys[i]) > ByteLen(keys[j]) || (ByteLen(keys[i]) == ByteLen(keys[j]) && exists k: nat :: SmallerAt(keys[i], keys[j], k))
  {
    LexIs(keys[i], keys[j]);
    assert Precedes(keys[i], keys[j]);
    if |keys[i]| < |keys[j]| && forall m :: 0 <= m < |keys[i]| ==> keys[i][m] == keys[j][m] {
      PrefixShorter(keys[i], keys[j]);
    }
    hide ByteLen, LexLess, SmallerAt;
  }

  lemma PrefixShorter(a: string, b: string)
    requires |a| < |b| && forall j :: 0 <= j < |a| ==> a[j] == b[j]
    ensures ByteLen(a) < ByteLen(b)
  {
    assert b[..|b|] == b && b[..|a|] == a;
    ByteLenStrict(b, |a|, |b|);
  }
}
