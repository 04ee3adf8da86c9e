/** Sessions: the store with its atomic merge, requests that interleave, and requests in a row. */
module Sessions {
  import opened Unicode
  import opened Mappings
  import opened Pseudonyms
  import opened Assignments
  import opened Covering
  import opened Distinct

  // ---- The store ----

  /** The merge: what exists wins. */
  function Merge(existing: Mapping, more: Mapping): (m: Mapping)
    ensures Extends(existing, m) && m.Keys == existing.Keys + more.Keys
    ensures forall k :: k in more && k !in existing ==> m[k] == more[k]
  {
    more + existing
  }

  /** rev takes every value of fwd to a key with that value. */
  ghost predicate IsReverse(fwd: Mapping, rev: Mapping) {
    && (forall k :: k in fwd ==> fwd[k] in rev)
    && (forall v :: v in rev ==> rev[v] in fwd && fwd[rev[v]] == v)
  }

  /** The reverse map is an inverse on both sides exactly when no two names share a pseudonym. */
  lemma ReverseIsInverse(fwd: Mapping, rev: Mapping)
    requires IsReverse(fwd, rev)
    ensures DistinctValues(fwd) <==> forall k :: k in fwd ==> fwd[k] in rev && rev[fwd[k]] == k
  {
  }

  /** The script, but for the keys still to do. */
  ghost predicate Merging(existing: Mapping, more: Mapping, todo: set<string>, merged: Mapping, changed: bool) {
    && merged.Keys == existing.Keys + (more.Keys - todo)
    && (forall k :: k in merged ==> merged[k] == if k in existing then existing[k] else more[k])
    && (changed <==> exists k :: k in merged && k !in existing)
  }

  lemma MergingNext(existing: Mapping, more: Mapping, todo: set<string>, merged: Mapping, changed: bool, k: string)
    requires Merging(existing, more, todo, merged, changed) && k in todo && k in more
    ensures k in merged ==> Merging(existing, more, todo - {k}, merged, changed)
    ensures k !in merged ==> Merging(existing, more, todo - {k}, merged[k := more[k]], true)
  {
    if k !in merged {
      var n := merged[k := more[k]];
      assert k in n && k !in existing;
    }
  }

  lemma AllMerged(existing: Mapping, more: Mapping, merged: Mapping, changed: bool)
    requires Merging(existing, more, {}, merged, changed)
    ensures merged == Merge(existing, more) && (changed <==> merged != existing)
  {
    if !changed {
      assert forall k :: k in merged <==> k in existing;
    }
  }

  /** The loop of the script. */
  method MergeInto(existing: Mapping, more: Mapping) returns (merged: Mapping, changed: bool)
    ensures merged == Merge(existing, more) && (changed <==> merged != existing)
  {
    merged, changed := existing, false;
    var todo := more.Keys;
    while todo != {}
      invariant todo <= more.Keys && Merging(existing, more, todo, merged, changed)
      decreases |todo|
    {
      hide Merging;
      var k :| k in todo;
      MergingNext(existing, more, todo, merged, changed, k);
      todo := todo - {k};
      if k !in merged {
        merged := merged[k := more[k]];
        changed := true;
      }
    }
    AllMerged(existing, more, merged, changed);
  }

  class RedisStore {
    var sessions: map<string, Mapping>

    constructor ()
      ensures sessions == map[]
    {
      sessions := map[];
    }

    function MappingOf(id: string): Mapping
      reads this
    {
      if id in sessions then sessions[id] else map[]
    }

    method GetMapping(id: string) returns (m: Mapping)
      ensures m == MappingOf(id)
    {
      if id !in sessions {
        return map[];
      }
      return sessions[id];
    }

    /** The script runs as one step; it writes only if something changed. */
    method AddMappings(id: string, more: Mapping) returns (merged: Mapping)
      modifies this
      ensures merged == Merge(old(MappingOf(id)), more) == MappingOf(id)
      ensures sessions == if merged == old(MappingOf(id)) then old(sessions) else old(sessions)[id := merged]
    {
      if |more| == 0 {
        merged := GetMapping(id);
        return;
      }
      var existing := if id in sessions then sessions[id] else map[];
      var changed;
      merged, changed := MergeInto(existing, more);
      if changed {
        sessions := sessions[id := merged];
      }
    }

    method Delete(id: string) returns (existed: bool)
      modifies this
      ensures existed == (id in old(sessions)) && sessions == old(sessions) - {id}
    {
      existed := id in sessions;
      sessions := sessions - {id};
    }

    /** The forward mapping, inverted in no particular order. */
    method GetReverseMapping(id: string) returns (rev: Mapping)
      ensures IsReverse(MappingOf(id), rev)
    {
      var fwd := GetMapping(id);
      rev := map[];
      var todo := fwd.Keys;
      while todo != {}
        invariant todo <= fwd.Keys
        invariant forall k :: k in fwd && k !in todo ==> fwd[k] in rev
        invariant forall v :: v in rev ==> rev[v] in fwd && fwd[rev[v]] == v
        decreases |todo|
      {
        var k :| k in todo;
        rev := rev[fwd[k] := k];
        todo := todo - {k};
      }
    }
  }

  // ---- Requests that interleave ----

  /** What a request detected and kept, and its lower-cased text. */
  datatype Request = Request(ds: seq<Entity>, reserved: string)

  /** Where a request is: before its read, between read and merge, or done with the mapping it
      rewrites with. */
  datatype Phase = Waiting | HasRead(snapshot: Mapping) | Done(merged: Mapping)

  datatype World = World(store: Mapping, phases: seq<Phase>)

  ghost predicate Initial(reqs: seq<Request>, w: World) {
    w.store == map[] && |w.phases| == |reqs| && forall i :: 0 <= i < |reqs| ==> w.phases[i] == Waiting
  }

  ghost predicate ReadStep(w: World, x: World, i: nat) {
    && i < |w.phases| && w.phases[i] == Waiting
    && x == w.(phases := w.phases[i := HasRead(w.store)])
  }

  /** Request i merges what it adds to its snapshot; with nothing to add it does not write. */
  ghost predicate MergeStep(u: Tables, hmac: string -> nat, h: Handler, reqs: seq<Request>, w: World, x: World, i: nat, more: Mapping) {
    && i < |w.phases| == |reqs| && w.phases[i].HasRead?
    && (exists after :: Assigns(u, hmac, h, reqs[i].ds, reqs[i].reserved, w.phases[i].snapshot, after) && more == NewIn(w.phases[i].snapshot, after))
    && if more == map[] then x == w.(phases := w.phases[i := Done(w.phases[i].snapshot)])
       else x == World(Merge(w.store, more), w.phases[i := Done(Merge(w.store, more))])
  }

  ghost predicate Step(u: Tables, hmac: string -> nat, h: Handler, reqs: seq<Request>, w: World, x: World) {
    (exists i: nat :: ReadStep(w, x, i)) || (exists i: nat, more: Mapping :: MergeStep(u, hmac, h, reqs, w, x, i, more))
  }

  /** Worlds one step apart, from the empty session on. */
  ghost predicate IsRun(u: Tables, hmac: string -> nat, h: Handler, reqs: seq<Request>, run: seq<World>) {
    && run != [] && Initial(reqs, run[0])
    && forall t :: 0 < t < |run| ==> Step(u, hmac, h, reqs, run[t - 1], run[t])
  }

  /** Snapshots are behind the store, what a request rewrites with covers its detections, and the
      store agrees with it. */
  ghost predicate Safe(u: Tables, reqs: seq<Request>, w: World) {
    |w.phases| == |reqs| && forall i :: 0 <= i < |reqs| ==> SafeAt(u, reqs, w, i)
  }

  ghost predicate SafeAt(u: Tables, reqs: seq<Request>, w: World, i: nat)
    requires i < |reqs| == |w.phases|
  {
    match w.phases[i]
    case Waiting => true
    case HasRead(snapshot) => Extends(snapshot, w.store)
    case Done(merged) => Extends(merged, w.store) && Covered(u, reqs[i].ds, merged)
  }

  lemma MergeCovers(u: Tables, hmac: string -> nat, h: Handler, ds: seq<Entity>, reserved: string, snapshot: Mapping, after: Mapping, store: Mapping)
    requires Assigns(u, hmac, h, ds, reserved, snapshot, after) && Extends(snapshot, store)
    ensures Covered(u, ds, Merge(store, NewIn(snapshot, after)))
    ensures NewIn(snapshot, after) == map[] ==> Covered(u, ds, snapshot)
  {
    hide Assigns, Covered;
    AssignmentCovers(u, hmac, h, ds, reserved, snapshot, after);
    var more := NewIn(snapshot, after);
    assert forall k :: k in after ==> k in snapshot || k in more;
    CoveredStays(u, ds, after, Merge(store, more));
    if more == map[] {
      CoveredStays(u, ds, after, snapshot);
    }
  }

  lemma StepSafe(u: Tables, hmac: string -> nat, h: Handler, reqs: seq<Request>, w: World, x: World)
    requires Safe(u, reqs, w) && Step(u, hmac, h, reqs, w, x)
    ensures Safe(u, reqs, x) && Extends(w.store, x.store)
  {
    hide Covered, Assigns;
    if i: nat, more: Mapping :| MergeStep(u, hmac, h, reqs, w, x, i, more) {
      var snapshot := w.phases[i].snapshot;
      var after :| Assigns(u, hmac, h, reqs[i].ds, reqs[i].reserved, snapshot, after) && more == NewIn(snapshot, after);
      assert SafeAt(u, reqs, w, i);
      MergeCovers(u, hmac, h, reqs[i].ds, reqs[i].reserved, snapshot, after, w.store);
    }
    hide MergeStep, Merge;
    forall j | 0 <= j < |reqs|
      ensures SafeAt(u, reqs, x, j)
    {
      assert SafeAt(u, reqs, w, j);
    }
  }

  lemma {:induction false} RunSafe(u: Tables, hmac: string -> nat, h: Handler, reqs: seq<Request>, run: seq<World>, t: nat)
    requires IsRun(u, hmac, h, reqs, run) && t < |run|
    ensures Safe(u, reqs, run[t])
  {
    hide Safe, Step;
    if t == 0 {
      InitialSafe(u, reqs, run[0]);
    } else {
      RunSafe(u, hmac, h, reqs, run, t - 1);
      StepSafe(u, hmac, h, reqs, run[t - 1], run[t]);
    }
  }

  lemma InitialSafe(u: Tables, reqs: seq<Request>, w: World)
    requires Initial(reqs, w)
    ensures Safe(u, reqs, w)
  {
  }

  /** A stored pseudonym never changes. */
  lemma {:induction false} StoreGrows(u: Tables, hmac: string -> nat, h: Handler, reqs: seq<Request>, run: seq<World>, s: nat, t: nat)
    requires IsRun(u, hmac, h, reqs, run) && s <= t < |run|
    ensures Extends(run[s].store, run[t].store)
    decreases t
  {
    hide Safe, Step;
    if s < t {
      StoreGrows(u, hmac, h, reqs, run, s, t - 1);
      RunSafe(u, hmac, h, reqs, run, t - 1);
      StepSafe(u, hmac, h, reqs, run[t - 1], run[t]);
    }
  }

  /** The step from r on is request i's merge. */
  ghost predicate MergedAt(u: Tables, hmac: string -> nat, h: Handler, reqs: seq<Request>, run: seq<World>, r: nat, i: nat, more: Mapping) {
    r + 1 < |run| && MergeStep(u, hmac, h, reqs, run[r], run[r + 1], i, more)
  }

  /** The step from s on merges k with pseudonym v, and no merge before it names k. */
  ghost predicate FirstNamed(u: Tables, hmac: string -> nat, h: Handler, reqs: seq<Request>, run: seq<World>, s: nat, k: string, v: string)
    requires s + 1 < |run|
  {
    && (exists i: nat, more: Mapping :: MergedAt(u, hmac, h, reqs, run, s, i, more) && k in more && more[k] == v)
    && (forall r: nat, i: nat, more: Mapping :: r < s && MergedAt(u, hmac, h, reqs, run, r, i, more) ==> k !in more)
  }

  /** A name's pseudonym is the one of the first merge that names it. */
  lemma {:induction false} FirstMergeDecides(u: Tables, hmac: string -> nat, h: Handler, reqs: seq<Request>, run: seq<World>, t: nat, k: string)
    requires IsRun(u, hmac, h, reqs, run) && t < |run| && k in run[t].store
    ensures exists s: nat :: s < t && FirstNamed(u, hmac, h, reqs, run, s, k, run[t].store[k])
  {
    hide Assigns;
    if k in run[t - 1].store {
      FirstMergeDecides(u, hmac, h, reqs, run, t - 1, k);
      StoreGrows(u, hmac, h, reqs, run, t - 1, t);
    } else {
      NamedHere(u, hmac, h, reqs, run, t - 1, k);
    }
  }

  lemma NamedHere(u: Tables, hmac: string -> nat, h: Handler, reqs: seq<Request>, run: seq<World>, s: nat, k: string)
    requires IsRun(u, hmac, h, reqs, run) && s + 1 < |run| && k !in run[s].store && k in run[s + 1].store
    ensures FirstNamed(u, hmac, h, reqs, run, s, k, run[s + 1].store[k])
  {
    hide Assigns;
    assert Step(u, hmac, h, reqs, run[s + 1 - 1], run[s + 1]);
    var i: nat, more: Mapping :| MergeStep(u, hmac, h, reqs, run[s], run[s + 1], i, more);
    assert MergedAt(u, hmac, h, reqs, run, s, i, more);
    forall r: nat, i: nat, more: Mapping | r < s && MergedAt(u, hmac, h, reqs, run, r, i, more)
      ensures k !in more
    {
      StoreGrows(u, hmac, h, reqs, run, r + 1, s);
      MergeNames(u, hmac, h, reqs, run[r], run[r + 1], i, more);
    }
  }

  /** What is merged is in the store afterwards. */
  lemma MergeNames(u: Tables, hmac: string -> nat, h: Handler, reqs: seq<Request>, w: World, x: World, i: nat, more: Mapping)
    requires MergeStep(u, hmac, h, reqs, w, x, i, more)
    ensures more.Keys <= x.store.Keys
  {
    hide Assigns;
  }

  /** Whatever the interleaving, a request that is done rewrites with a mapping that has a key,
      equal case aside, for each detection it kept, and that agrees with the store ever after. */
  lemma RewritesCover(u: Tables, hmac: string -> nat, h: Handler, reqs: seq<Request>, run: seq<World>, s: nat, t: nat, i: nat)
    requires IsRun(u, hmac, h, reqs, run) && s <= t < |run| && i < |run[s].phases| && run[s].phases[i].Done?
    ensures i < |reqs| && Covered(u, reqs[i].ds, run[s].phases[i].merged)
    ensures Extends(run[s].phases[i].merged, run[t].store)
  {
    RunSafe(u, hmac, h, reqs, run, s);
    hide Covered, Step;
    assert SafeAt(u, reqs, run[s], i);
    StoreGrows(u, hmac, h, reqs, run, s, t);
  }

  /** Once a request is done, assigning its detections again, at any later point and whatever the
      text around them, adds nothing, components included. */
  lemma ReplayAddsNothing(u: Tables, hmac: string -> nat, h: Handler, reqs: seq<Request>, run: seq<World>, s: nat, t: nat, i: nat, reserved: string, after: Mapping)
    requires IsRun(u, hmac, h, reqs, run) && s <= t < |run| && i < |reqs| == |run[s].phases| && run[s].phases[i].Done?
    requires Assigns(u, hmac, h, reqs[i].ds, reserved, run[t].store, after)
    ensures after == run[t].store && NewIn(run[t].store, after) == map[]
  {
    hide Covered, Step, Assigns;
    RewritesCover(u, hmac, h, reqs, run, s, t, i);
    CoveredStays(u, reqs[i].ds, run[s].phases[i].merged, run[t].store);
    CoveredGetNothing(u, hmac, h, reqs[i].ds, reserved, run[t].store, after);
  }

  // ---- When runs keep pseudonyms and names distinct ----

  /** The guard of a merge: it keeps values and folded keys distinct if and only if what it adds is
      fresh. */
  lemma MergeKeepsDistinctIff(u: Tables, existing: Mapping, more: Mapping)
    ensures DistinctValues(Merge(existing, more)) <==> DistinctValues(existing) && AddsFresh(existing, more)
    ensures FoldDistinct(u, Merge(existing, more)) <==> FoldDistinct(u, existing) && AddsFreshKeys(u, existing, more)
  {
    MergedValues(existing, more);
    MergedKeys(u, existing, more);
  }

  lemma MergedValues(existing: Mapping, more: Mapping)
    ensures DistinctValues(Merge(existing, more)) <==> DistinctValues(existing) && AddsFresh(existing, more)
  {
    var m := Merge(existing, more);
    if DistinctValues(existing) && AddsFresh(existing, more) {
      forall k, l | k in m && l in m && m[k] == m[l]
        ensures k == l
      {
        assert k in existing ==> InUse(existing, m[k]);
        assert l in existing ==> InUse(existing, m[l]);
      }
    }
    if DistinctValues(m) {
      assert forall k :: k in existing ==> k in m && m[k] == existing[k];
    }
  }

  lemma MergedKeys(u: Tables, existing: Mapping, more: Mapping)
    ensures FoldDistinct(u, Merge(existing, more)) <==> FoldDistinct(u, existing) && AddsFreshKeys(u, existing, more)
  {
    var m := Merge(existing, more);
    hide Fold;
    SameFoldSymmetric(u);
    if FoldDistinct(u, m) {
      assert forall k :: k in existing ==> k in m;
    }
  }

  /** Every merge of the first t steps adds fresh pseudonyms. */
  ghost predicate MergesFresh(u: Tables, hmac: string -> nat, h: Handler, reqs: seq<Request>, run: seq<World>, t: nat) {
    forall r: nat, i: nat, more: Mapping :: r < t && MergedAt(u, hmac, h, reqs, run, r, i, more) ==> AddsFresh(run[r].store, more)
  }

  /** Every merge of the first t steps adds fresh names. */
  ghost predicate MergesFreshKeys(u: Tables, hmac: string -> nat, h: Handler, reqs: seq<Request>, run: seq<World>, t: nat) {
    forall r: nat, i: nat, more: Mapping :: r < t && MergedAt(u, hmac, h, reqs, run, r, i, more) ==> AddsFreshKeys(u, run[r].store, more)
  }

  /** A step merges, or leaves the store. */
  lemma StepStore(u: Tables, hmac: string -> nat, h: Handler, reqs: seq<Request>, run: seq<World>, r: nat)
    requires IsRun(u, hmac, h, reqs, run) && r + 1 < |run|
    ensures forall i: nat, more: Mapping :: MergedAt(u, hmac, h, reqs, run, r, i, more) ==> run[r + 1].store == Merge(run[r].store, more)
    ensures run[r + 1].store == run[r].store || exists i: nat, more: Mapping :: MergedAt(u, hmac, h, reqs, run, r, i, more)
  {
    hide Assigns;
    var w, x := run[r], run[r + 1];
    assert Step(u, hmac, h, reqs, run[r + 1 - 1], x);
    forall i: nat, more: Mapping | MergedAt(u, hmac, h, reqs, run, r, i, more)
      ensures x.store == Merge(w.store, more)
    {
    }
    if i: nat, more: Mapping :| MergeStep(u, hmac, h, reqs, w, x, i, more) {
      assert MergedAt(u, hmac, h, reqs, run, r, i, more);
    }
  }

  /** Over every interleaving, no two names share a pseudonym if and only if every merge met the
      guard. */
  lemma {:induction false} RunDistinctIff(u: Tables, hmac: string -> nat, h: Handler, reqs: seq<Request>, run: seq<World>, t: nat)
    requires IsRun(u, hmac, h, reqs, run) && t < |run|
    ensures DistinctValues(run[t].store) <==> MergesFresh(u, hmac, h, reqs, run, t)
  {
    hide Merge, AddsFresh, DistinctValues, MergedAt, Step;
    if t == 0 {
      EmptyDistinct(u);
    } else {
      RunDistinctIff(u, hmac, h, reqs, run, t - 1);
      var r: nat := t - 1;
      StepStore(u, hmac, h, reqs, run, r);
      forall i: nat, more: Mapping | MergedAt(u, hmac, h, reqs, run, r, i, more)
        ensures DistinctValues(run[t].store) <==> DistinctValues(run[r].store) && AddsFresh(run[r].store, more)
      {
        MergedValues(run[r].store, more);
      }
    }
  }

  /** Over every interleaving, no two keys differ in case only if and only if every merge met the
      guard. */
  lemma {:induction false} RunFoldDistinctIff(u: Tables, hmac: string -> nat, h: Handler, reqs: seq<Request>, run: seq<World>, t: nat)
    requires IsRun(u, hmac, h, reqs, run) && t < |run|
    ensures FoldDistinct(u, run[t].store) <==> MergesFreshKeys(u, hmac, h, reqs, run, t)
  {
    hide Merge, AddsFreshKeys, FoldDistinct, MergedAt, Step;
    if t == 0 {
      EmptyDistinct(u);
    } else {
      RunFoldDistinctIff(u, hmac, h, reqs, run, t - 1);
      var r: nat := t - 1;
      StepStore(u, hmac, h, reqs, run, r);
      forall i: nat, more: Mapping | MergedAt(u, hmac, h, reqs, run, r, i, more)
        ensures FoldDistinct(u, run[t].store) <==> FoldDistinct(u, run[r].store) && AddsFreshKeys(u, run[r].store, more)
      {
        MergedKeys(u, run[r].store, more);
      }
    }
  }

  lemma EmptyDistinct(u: Tables)
    ensures DistinctValues(map[]) && FoldDistinct(u, map[])
  {
  }

  // ---- Requests in a row ----

  /** A request that merges into the mapping it read stores exactly what it assigned. */
  lemma AloneStoresAssigned(u: Tables, hmac: string -> nat, h: Handler, ds: seq<Entity>, reserved: string, store: Mapping, after: Mapping)
    requires Assigns(u, hmac, h, ds, reserved, store, after)
    ensures Merge(store, NewIn(store, after)) == after
  {
    hide Assigns;
    AssignmentCovers(u, hmac, h, ds, reserved, store, after);
  }

  /** m is the session's mapping after the first n requests, one after the other. */
  ghost predicate InARow(u: Tables, hmac: string -> nat, h: Handler, reqs: seq<Request>, n: nat, m: Mapping)
    requires n <= |reqs|
  {
    if n == 0 then m == map[]
    else exists before :: InARow(u, hmac, h, reqs, n - 1, before) && Follows(u, hmac, h, reqs, n, before, m)
  }

  ghost predicate Follows(u: Tables, hmac: string -> nat, h: Handler, reqs: seq<Request>, n: nat, before: Mapping, m: Mapping)
    requires 0 < n <= |reqs|
  {
    Assigns(u, hmac, h, reqs[n - 1].ds, reqs[n - 1].reserved, before, m)
  }

  lemma {:induction false} InARowSound(u: Tables, hmac: string -> nat, h: Handler, reqs: seq<Request>, n: nat, m: Mapping)
    requires Lawful(u) && CleanPools(u, h.strat.pools) && n <= |reqs| && InARow(u, hmac, h, reqs, n, m) && AllFit(m)
    ensures FoldDistinct(u, m) && SoundValues(u, h.strat.pools, m)
  {
    hide Assigns, CleanPools, HasOrigin, IndexFits;
    if n > 0 {
      hide SoundValues, FoldDistinct;
      var before :| InARow(u, hmac, h, reqs, n - 1, before) && Follows(u, hmac, h, reqs, n, before, m);
      AssignmentCovers(u, hmac, h, reqs[n - 1].ds, reqs[n - 1].reserved, before, m);
      InARowSound(u, hmac, h, reqs, n - 1, before);
      AssignmentKeepsFoldDistinct(u, hmac, h, reqs[n - 1].ds, reqs[n - 1].reserved, before, m);
      AssignmentKeepsSound(u, hmac, h, reqs[n - 1].ds, reqs[n - 1].reserved, before, m);
    }
  }

  /** If all words of the pool names are different and none looks numbered, then after any requests
      in a row no two keys differ in case only, no two names share a pseudonym, and the reverse map
      is an inverse on both sides. */
  lemma SequentialInverse(u: Tables, hmac: string -> nat, h: Handler, reqs: seq<Request>, m: Mapping, rev: Mapping)
    requires Lawful(u) && CleanPools(u, h.strat.pools) && InARow(u, hmac, h, reqs, |reqs|, m) && AllFit(m) && IsReverse(m, rev)
    ensures FoldDistinct(u, m)
    ensures forall k :: k in m ==> m[k] in rev && rev[m[k]] == k
    ensures forall v :: v in rev ==> rev[v] in m && m[rev[v]] == v
  {
    hide InARow, CleanPools, AllFit, HasOrigin, FoldDistinct;
    InARowSound(u, hmac, h, reqs, |reqs|, m);
    ReverseIsInverse(m, rev);
  }

  // ---- Runs whose requests do not overlap ----

  /** The step from q on is request i's read. */
  ghost predicate ReadAt(run: seq<World>, q: nat, i: nat) {
    q + 1 < |run| && ReadStep(run[q], run[q + 1], i)
  }

  /** The step from s on changes the store. */
  ghost predicate Writes(run: seq<World>, s: nat) {
    s + 1 < |run| && run[s + 1].store != run[s].store
  }

  /** Between a request's read and its own merge nothing is written. */
  ghost predicate Serial(u: Tables, hmac: string -> nat, h: Handler, reqs: seq<Request>, run: seq<World>) {
    forall q: nat, s: nat, r: nat, i: nat, more: Mapping {:trigger ReadAt(run, q, i), Writes(run, s), MergedAt(u, hmac, h, reqs, run, r, i, more)} ::
      q < s < r && ReadAt(run, q, i) && MergedAt(u, hmac, h, reqs, run, r, i, more) ==> !Writes(run, s)
  }

  /** A snapshot is the store as some read found it. */
  lemma {:induction false} SnapshotRead(u: Tables, hmac: string -> nat, h: Handler, reqs: seq<Request>, run: seq<World>, t: nat, i: nat)
    requires IsRun(u, hmac, h, reqs, run) && t < |run| && i < |run[t].phases| && run[t].phases[i].HasRead?
    ensures exists q: nat :: q < t && ReadAt(run, q, i) && run[q].store == run[t].phases[i].snapshot
  {
    hide Assigns, Merge;
    if t > 0 {
      var w, x := run[t - 1], run[t];
      assert Step(u, hmac, h, reqs, w, x);
      if ReadStep(w, x, i) {
        assert ReadAt(run, t - 1, i);
      } else {
        assert i < |w.phases| && w.phases[i] == x.phases[i];
        SnapshotRead(u, hmac, h, reqs, run, t - 1, i);
      }
    }
  }

  lemma {:induction false} NothingWritten(run: seq<World>, a: nat, b: nat)
    requires a <= b < |run| && forall s: nat :: a <= s < b ==> !Writes(run, s)
    ensures run[a].store == run[b].store
    decreases b - a
  {
    if a < b {
      assert !Writes(run, a);
      NothingWritten(run, a + 1, b);
    }
  }

  lemma SnapshotIsStore(u: Tables, hmac: string -> nat, h: Handler, reqs: seq<Request>, run: seq<World>, r: nat, i: nat, more: Mapping)
    requires IsRun(u, hmac, h, reqs, run) && Serial(u, hmac, h, reqs, run) && MergedAt(u, hmac, h, reqs, run, r, i, more)
    ensures i < |run[r].phases| && run[r].phases[i] == HasRead(run[r].store)
  {
    SnapshotRead(u, hmac, h, reqs, run, r, i);
    var q: nat :| q < r && ReadAt(run, q, i) && run[q].store == run[r].phases[i].snapshot;
    assert run[q + 1].store == run[q].store by { ReadKeepsStore(run[q], run[q + 1], i); }
    hide Assigns, Merge, Serial, ReadAt, IsRun, Writes;
    forall s: nat | q + 1 <= s < r
      ensures !Writes(run, s)
    {
      NotBetween(u, hmac, h, reqs, run, q, s, r, i, more);
    }
    NothingWritten(run, q + 1, r);
  }

  /** So a request merges into the mapping it read. */
  lemma MergesIntoRead(u: Tables, hmac: string -> nat, h: Handler, reqs: seq<Request>, run: seq<World>, r: nat, i: nat, more: Mapping)
    requires IsRun(u, hmac, h, reqs, run) && Serial(u, hmac, h, reqs, run) && MergedAt(u, hmac, h, reqs, run, r, i, more)
    ensures i < |reqs| && Assigns(u, hmac, h, reqs[i].ds, reqs[i].reserved, run[r].store, run[r + 1].store)
  {
    SnapshotIsStore(u, hmac, h, reqs, run, r, i, more);
    hide Assigns, Merge, Serial, IsRun;
    var store := run[r].store;
    var after :| Assigns(u, hmac, h, reqs[i].ds, reqs[i].reserved, store, after) && more == NewIn(store, after);
    AloneStoresAssigned(u, hmac, h, reqs[i].ds, reqs[i].reserved, store, after);
    MergedNothing(store);
  }

  lemma NotBetween(u: Tables, hmac: string -> nat, h: Handler, reqs: seq<Request>, run: seq<World>, q: nat, s: nat, r: nat, i: nat, more: Mapping)
    requires Serial(u, hmac, h, reqs, run) && q < s < r && ReadAt(run, q, i) && MergedAt(u, hmac, h, reqs, run, r, i, more)
    ensures !Writes(run, s)
  {
    hide ReadAt, Writes, MergedAt;
  }

  lemma ReadKeepsStore(w: World, x: World, i: nat)
    requires ReadStep(w, x, i)
    ensures x.store == w.store
  {
  }

  lemma MergedNothing(m: Mapping)
    ensures Merge(m, map[]) == m
  {
  }

  lemma {:induction false} InARowMore(u: Tables, hmac: string -> nat, h: Handler, reqs: seq<Request>, n: nat, m: Mapping, more: Request)
    requires n <= |reqs| && InARow(u, hmac, h, reqs, n, m)
    ensures InARow(u, hmac, h, reqs + [more], n, m)
  {
    hide Assigns;
    if n > 0 {
      var before :| InARow(u, hmac, h, reqs, n - 1, before) && Follows(u, hmac, h, reqs, n, before, m);
      InARowMore(u, hmac, h, reqs, n - 1, before, more);
      assert Follows(u, hmac, h, reqs + [more], n, before, m);
    }
  }

  /** Requests whose reads and merges do not overlap leave what they leave in a row, in the order of
      their merges. */
  lemma {:induction false} SerialInARow(u: Tables, hmac: string -> nat, h: Handler, reqs: seq<Request>, run: seq<World>, t: nat)
    returns (order: seq<Request>)
    requires IsRun(u, hmac, h, reqs, run) && Serial(u, hmac, h, reqs, run) && t < |run|
    ensures forall r :: r in order ==> r in reqs
    ensures InARow(u, hmac, h, order, |order|, run[t].store)
  {
    hide Assigns, Merge, Serial, Step, MergedAt;
    if t == 0 {
      order := [];
    } else {
      var r: nat := t - 1;
      order := SerialInARow(u, hmac, h, reqs, run, r);
      StepStore(u, hmac, h, reqs, run, r);
      if i: nat, more: Mapping :| MergedAt(u, hmac, h, reqs, run, r, i, more) {
        MergesIntoRead(u, hmac, h, reqs, run, r, i, more);
        InARowMore(u, hmac, h, order, |order|, run[r].store, reqs[i]);
        order := order + [reqs[i]];
        assert Follows(u, hmac, h, order, |order|, run[r].store, run[t].store);
      }
    }
  }

  /** So where the pools are clean, every reverse of the store is its inverse. */
  lemma SerialInverse(u: Tables, hmac: string -> nat, h: Handler, reqs: seq<Request>, run: seq<World>, t: nat, rev: Mapping)
    requires IsRun(u, hmac, h, reqs, run) && Serial(u, hmac, h, reqs, run) && t < |run|
    requires Lawful(u) && CleanPools(u, h.strat.pools) && AllFit(run[t].store) && IsReverse(run[t].store, rev)
    ensures FoldDistinct(u, run[t].store)
    ensures forall k :: k in run[t].store ==> run[t].store[k] in rev && rev[run[t].store[k]] == k
    ensures forall v :: v in rev ==> rev[v] in run[t].store && run[t].store[rev[v]] == v
  {
    hide *;
    var order := SerialInARow(u, hmac, h, reqs, run, t);
    SequentialInverse(u, hmac, h, order, run[t].store, rev);
  }
}
