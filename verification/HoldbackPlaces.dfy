/** How much a stream holds back, by the texts that may follow. */
module HoldbackPlaces {
  import opened Unicode
  import opened Replacer
  import opened Streaming
  import Rewriting

  /** Where the last h characters start, a match may start, and the text d completes a key there. */
  ghost predicate CompletedBy(u: Tables, keys: seq<string>, buf: string, h: nat, d: string, k: string) {
    && 0 < h <= |buf| && Rewriting.FreeBefore(u, buf, |buf| - h)
    && k in keys && d != [] && |k| == h + |d| && Rewriting.KeyAt(u, buf + d, |buf| - h, k)
  }

  /** Some text does. */
  ghost predicate MayComplete(u: Tables, keys: seq<string>, buf: string, h: nat) {
    exists d, k :: CompletedBy(u, keys, buf, h, d, k)
  }

  lemma BeginningStands(u: Tables, buf: string, h: nat, d: string, k: string)
    requires 0 < h <= |buf| && |k| == h + |d|
    ensures Rewriting.KeyAt(u, buf + d, |buf| - h, k) <==>
            (forall j :: 0 <= j < h ==> u.Lower(buf[|buf| - h + j]) == u.Lower(k[j])) && (forall j :: 0 <= j < |d| ==> u.Lower(d[j]) == u.Lower(k[h + j]))
  {
    var i := |buf| - h;
    assert forall x :: 0 <= x < |buf| ==> (buf + d)[x] == buf[x];
    assert forall x :: |buf| <= x < |buf + d| ==> (buf + d)[x] == d[x - |buf|];
    if (forall j :: 0 <= j < h ==> u.Lower(buf[i + j]) == u.Lower(k[j])) && (forall j :: 0 <= j < |d| ==> u.Lower(d[j]) == u.Lower(k[h + j])) {
      forall j | 0 <= j < |k|
        ensures u.Lower((buf + d)[i + j]) == u.Lower(k[j])
      {
        if j >= h {
          assert (buf + d)[i + j] == d[j - h] && u.Lower(d[j - h]) == u.Lower(k[h + (j - h)]);
        }
      }
    }
    if Rewriting.KeyAt(u, buf + d, i, k) {
      forall j | 0 <= j < |d|
        ensures u.Lower(d[j]) == u.Lower(k[h + j])
      {
        assert (buf + d)[i + (h + j)] == d[j] && u.Lower((buf + d)[i + (h + j)]) == u.Lower(k[h + j]);
      }
    }
  }

  lemma BeginsKey(u: Tables, s: string, k: string)
    ensures Fold(u, s) < Fold(u, k) <==> |s| < |k| && forall j :: 0 <= j < |s| ==> u.Lower(s[j]) == u.Lower(k[j])
  {
    var a, b := Fold(u, s), Fold(u, k);
    if |s| < |k| && forall j :: 0 <= j < |s| ==> u.Lower(s[j]) == u.Lower(k[j]) {
      assert a == b[..|a|];
    }
    if a < b {
      forall j | 0 <= j < |s|
        ensures u.Lower(s[j]) == u.Lower(k[j])
      {
        assert a[j] == b[j];
      }
    }
  }

  lemma BeginningOf(u: Tables, buf: string, h: nat, k: string)
    requires 0 < h <= |buf|
    ensures Fold(u, buf[|buf| - h..]) < Fold(u, k) <==> |k| > h && Rewriting.KeyAt(u, buf + k[h..], |buf| - h, k)
  {
    var s := buf[|buf| - h..];
    BeginsKey(u, s, k);
    assert forall j :: 0 <= j < h ==> s[j] == buf[|buf| - h + j];
    if |k| > h {
      BeginningStands(u, buf, h, k[h..], k);
      assert forall j :: 0 <= j < |k[h..]| ==> k[h..][j] == k[h + j];
    }
    hide Fold, Rewriting.KeyAt;
  }

  lemma SameBeginning(u: Tables, buf: string, h: nat, d: string, k: string)
    requires 0 < h <= |buf| && |k| == h + |d| && Rewriting.KeyAt(u, buf + d, |buf| - h, k)
    ensures Rewriting.KeyAt(u, buf + k[h..], |buf| - h, k)
  {
    BeginningStands(u, buf, h, d, k);
    BeginningStands(u, buf, h, k[h..], k);
    hide Rewriting.KeyAt;
  }

  /** h characters can be held back exactly if some text completes a key that starts with them. */
  lemma HoldableIs(u: Tables, keys: seq<string>, buf: string, h: nat)
    ensures Holdable(u, FoldAll(u, keys), buf, h) <==> MayComplete(u, keys, buf, h)
  {
    hide Fold, Rewriting.KeyAt;
    if 0 < h <= |buf| {
      BoundariesAre(u, buf, |buf| - h, 0);
      if Holdable(u, FoldAll(u, keys), buf, h) {
        var p :| p in FoldAll(u, keys) && Fold(u, buf[|buf| - h..]) < p;
        var i :| 0 <= i < |keys| && FoldAll(u, keys)[i] == p;
        BeginningOf(u, buf, h, keys[i]);
        assert CompletedBy(u, keys, buf, h, keys[i][h..], keys[i]);
      }
      if d, k :| CompletedBy(u, keys, buf, h, d, k) {
        SameBeginning(u, buf, h, d, k);
        BeginningOf(u, buf, h, k);
        var i :| 0 <= i < |keys| && keys[i] == k;
        assert FoldAll(u, keys)[i] == Fold(u, k) && Fold(u, k) in FoldAll(u, keys);
      }
    }
  }

  /** What is held back is the longest end of the sample that some text completes to a key: no more, and
      no less. */
  lemma HoldbackIs(u: Tables, keys: seq<string>, buf: string, h: nat)
    ensures IsHoldback(u, FoldAll(u, keys), buf, h) <==>
            (h == 0 || MayComplete(u, keys, buf, h)) && forall k: nat :: h < k ==> !MayComplete(u, keys, buf, k)
  {
    hide Holdable, MayComplete;
    forall k: nat
      ensures Holdable(u, FoldAll(u, keys), buf, k) <==> MayComplete(u, keys, buf, k)
    {
      HoldableIs(u, keys, buf, k);
    }
  }
}
