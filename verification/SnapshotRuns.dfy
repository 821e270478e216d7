/**
  Whole runs of the snapshot registry, restarts included: counts are the live
  references, nothing referenced is ever released, and versions have no gaps.
 */
module SnapshotRuns {
  import opened Outcomes
  import opened Snapshots

  datatype SnapshotVerb =
    | DoPublish(id: SnapshotId, actor: string, content: Content, kvMode: string,
                handle: Option<string>)
    | DoAcquire(refId: RefId, id: SnapshotId, holder: string)
    | DoReleaseRef(refId: RefId)
    | DoMarkReleased(id: SnapshotId)
    | DoInvalidate
    | DoRecover

  function Step(s: Store, v: SnapshotVerb): Store {
    match v
    case DoPublish(id, actor, content, kvMode, handle) =>
      Publish(s, id, actor, content, kvMode, handle).0
    case DoAcquire(refId, id, holder) => Acquire(s, refId, id, holder).0
    case DoReleaseRef(refId) => ReleaseRef(s, refId).0
    case DoMarkReleased(id) => MarkReleased(s, id).0
    case DoInvalidate => Invalidate(s)
    case DoRecover => RecoverSnapshots(s)
  }

  function Run(vs: seq<SnapshotVerb>): Store {
    if vs == [] then NO_SNAPSHOTS else Step(Run(vs[..|vs|-1]), vs[|vs|-1])
  }

  ghost predicate RefsResolve(s: Store) {
    forall r :: r in s.refs ==> s.refs[r].snapshotId in s.snaps
  }

  /** The count is the number of references not yet released; a released
      snapshot has none, and no handle, and was receipted. */
  ghost predicate ConservedAt(s: Store, id: SnapshotId) {
    if id in s.snaps then
      s.snaps[id].refcount == |LiveRefs(s.refs, id)|
      && (s.snaps[id].status == Released ==>
            LiveRefs(s.refs, id) == {} && s.snaps[id].handle == None)
      && (ForRelease(id) in s.receipts <==> s.snaps[id].status == Released)
    else
      LiveRefs(s.refs, id) == {} && ForRelease(id) !in s.receipts
  }

  ghost predicate Conserved(s: Store) {
    RefsResolve(s) && forall id :: ConservedAt(s, id)
  }

  lemma OneRefChanged(refs: map<RefId, Reference>, refId: RefId, ref: Reference, id: SnapshotId)
    ensures var was := LiveRefs(refs, id);
            var now := LiveRefs(refs[refId := ref], id);
            now == if ref.snapshotId == id && !ref.released then was + {refId} else was - {refId}
  {
  }

  lemma StepResolves(s: Store, v: SnapshotVerb)
    requires RefsResolve(s)
    ensures RefsResolve(Step(s, v))
  {
  }

  lemma AcquireConserves(s: Store, refId: RefId, target: SnapshotId, holder: string,
                         id: SnapshotId)
    requires ConservedAt(s, id)
    ensures ConservedAt(Acquire(s, refId, target, holder).0, id)
  {
    if Acquire(s, refId, target, holder).1 == Applied {
      OneRefChanged(s.refs, refId, Reference(target, holder, false), id);
      assert refId !in LiveRefs(s.refs, id);
    }
  }

  lemma ReleaseConserves(s: Store, refId: RefId, id: SnapshotId)
    requires ConservedAt(s, id)
    requires refId in s.refs ==> s.refs[refId].snapshotId in s.snaps
    ensures ConservedAt(ReleaseRef(s, refId).0, id)
  {
    var r := ReleaseRef(s, refId).0;
    if r.refs != s.refs {
      OneRefChanged(s.refs, refId, s.refs[refId].(released := true), id);
      if s.refs[refId].snapshotId == id {
        assert refId in LiveRefs(s.refs, id);
        assert |LiveRefs(r.refs, id)| == |LiveRefs(s.refs, id)| - 1;
      } else {
        assert LiveRefs(r.refs, id) == LiveRefs(s.refs, id);
      }
    }
  }

  lemma RecoverConserves(s: Store, id: SnapshotId)
    requires ConservedAt(s, id)
    ensures ConservedAt(RecoverSnapshots(s), id)
  {
    assert LiveRefs(RecoverSnapshots(s).refs, id) == {};
  }

  lemma StepConserves(s: Store, v: SnapshotVerb, id: SnapshotId)
    requires RefsResolve(s) && ConservedAt(s, id)
    ensures ConservedAt(Step(s, v), id)
  {
    match v
    case DoAcquire(refId, target, holder) => AcquireConserves(s, refId, target, holder, id);
    case DoReleaseRef(refId) => ReleaseConserves(s, refId, id);
    case DoRecover => RecoverConserves(s, id);
    case _ =>
  }

  /** In every reachable state, across restarts, counts are exact, released
      snapshots are unreferenced, and releases are receipted once. */
  lemma {:induction false} ReferencesConserved(vs: seq<SnapshotVerb>)
    ensures Conserved(Run(vs))
  {
    if vs != [] {
      var s, v := Run(vs[..|vs|-1]), vs[|vs|-1];
      ReferencesConserved(vs[..|vs|-1]);
      StepResolves(s, v);
      forall id ensures ConservedAt(Step(s, v), id) {
        assert ConservedAt(s, id);
        StepConserves(s, v, id);
      }
    }
  }

  /** A reference still held is to a published snapshot with a positive count,
      so the clamp in the decrement never acts. */
  lemma ClampNeverActs(vs: seq<SnapshotVerb>, refId: RefId)
    requires refId in Run(vs).refs && !Run(vs).refs[refId].released
    ensures var s := Run(vs);
            var id := s.refs[refId].snapshotId;
            id in s.snaps && s.snaps[id].status == Published && s.snaps[id].refcount >= 1
            && Decremented(s.snaps[id].refcount) == s.snaps[id].refcount - 1
  {
    ReferencesConserved(vs);
    var s := Run(vs);
    assert ConservedAt(s, s.refs[refId].snapshotId);
    assert refId in LiveRefs(s.refs, s.refs[refId].snapshotId);
  }

  // ------------------------------------------------- content

  /** What a snapshot can be recomputed from outlives its handle: releases,
      invalidations and restarts leave content, actor and version alone, and a
      released snapshot stays released. */
  lemma StepKeepsContent(s: Store, v: SnapshotVerb, id: SnapshotId)
    requires id in s.snaps
    ensures var r := Step(s, v);
            id in r.snaps && r.snaps[id].content == s.snaps[id].content
            && r.snaps[id].actor == s.snaps[id].actor
            && r.snaps[id].version == s.snaps[id].version
            && (s.snaps[id].status == Released ==> r.snaps[id].status == Released)
            && (r.snaps[id].kvMode == s.snaps[id].kvMode
                || (r.snaps[id].kvMode == "recomputed" && r.snaps[id].handle == None))
  {
  }

  lemma {:induction false} ContentIsPermanent(vs: seq<SnapshotVerb>, n: nat, id: SnapshotId)
    requires n <= |vs| && id in Run(vs[..n]).snaps
    ensures id in Run(vs).snaps
    ensures Run(vs).snaps[id].content == Run(vs[..n]).snaps[id].content
    ensures Run(vs).snaps[id].version == Run(vs[..n]).snaps[id].version
    ensures Run(vs[..n]).snaps[id].status == Released ==> Run(vs).snaps[id].status == Released
  {
    if n == |vs| {
      assert vs[..n] == vs;
    } else {
      var before := vs[..|vs|-1];
      assert before[..n] == vs[..n];
      ContentIsPermanent(before, n, id);
      StepKeepsContent(Run(before), vs[|vs|-1], id);
    }
  }

  // ------------------------------------------------- reclaiming

  lemma {:induction false} UnreferencedIs(snaps: map<SnapshotId, Snapshot>, ids: seq<SnapshotId>,
                                          id: SnapshotId)
    ensures id in Unreferenced(snaps, ids) <==> id in ids && id in snaps && snaps[id].refcount == 0
  {
    if ids != [] {
      UnreferencedIs(snaps, ids[..|ids|-1], id);
      assert ids == ids[..|ids|-1] + [ids[|ids|-1]];
    }
  }

  /** Everything reported reclaimable can be released in that same state, and
      nothing holds a reference to it. */
  lemma ReclaimableCanBeReleased(vs: seq<SnapshotVerb>, actor: string, keepLatest: int,
                                 id: SnapshotId)
    requires id in Reclaimable(Run(vs), actor, keepLatest)
    ensures MarkReleased(Run(vs), id).1 == Applied
    ensures LiveRefs(Run(vs).refs, id) == {}
  {
    var s := Run(vs);
    ReferencesConserved(vs);
    var rows := NewestFirst(s.snaps, s.order, actor);
    UnreferencedIs(s.snaps, SliceFrom(rows, keepLatest), id);
    assert id in rows;
    assert ConservedAt(s, id);
  }

  ghost predicate NewestToOldest(snaps: map<SnapshotId, Snapshot>, ids: seq<SnapshotId>) {
    (forall x :: x in ids ==> x in snaps)
    && forall i, j :: 0 <= i < j < |ids| ==> snaps[ids[i]].version > snaps[ids[j]].version
  }

  lemma {:induction false} InsertKeepsOrder(snaps: map<SnapshotId, Snapshot>, id: SnapshotId,
                                            ids: seq<SnapshotId>)
    requires id in snaps && NewestToOldest(snaps, ids)
    requires forall x :: x in ids ==> snaps[x].version != snaps[id].version
    ensures NewestToOldest(snaps, InsertByVersion(snaps, id, ids))
  {
    if ids != [] && snaps[id].version < snaps[ids[0]].version {
      var rest := InsertByVersion(snaps, id, ids[1..]);
      InsertKeepsOrder(snaps, id, ids[1..]);
      forall k | 0 <= k < |rest| ensures snaps[ids[0]].version > snaps[rest[k]].version {
        assert rest[k] in rest;
        if rest[k] != id {
          var j :| 1 <= j < |ids| && ids[j] == rest[k];
        }
      }
    }
  }

  ghost predicate VersionsDistinct(snaps: map<SnapshotId, Snapshot>, order: seq<SnapshotId>,
                                   actor: string)
  {
    forall i, j :: 0 <= i < j < |order| && order[i] in snaps && order[j] in snaps
                   && snaps[order[i]].actor == actor && snaps[order[j]].actor == actor ==>
      snaps[order[i]].version != snaps[order[j]].version
  }

  lemma {:induction false} NewestFirstSorts(snaps: map<SnapshotId, Snapshot>,
                                            order: seq<SnapshotId>, actor: string)
    requires VersionsDistinct(snaps, order, actor)
    ensures NewestToOldest(snaps, NewestFirst(snaps, order, actor))
  {
    if order != [] {
      NewestFirstSorts(snaps, order[1..], actor);
      var id := order[0];
      var rest := NewestFirst(snaps, order[1..], actor);
      if id in snaps && snaps[id].actor == actor && snaps[id].status == Published {
        forall x | x in rest ensures snaps[x].version != snaps[id].version {
          var j :| 1 <= j < |order| && order[j] == x;
        }
        InsertKeepsOrder(snaps, id, rest);
      }
    }
  }

  /** The newest `keepLatest` published snapshots are never reported. */
  lemma NewestAreKept(vs: seq<SnapshotVerb>, actor: string, keepLatest: nat, id: SnapshotId)
    requires id in Reclaimable(Run(vs), actor, keepLatest)
    ensures var s := Run(vs);
            var rows := NewestFirst(s.snaps, s.order, actor);
            id in s.snaps && keepLatest < |rows|
            && forall k :: 0 <= k < keepLatest ==>
                 rows[k] in s.snaps && s.snaps[rows[k]].version > s.snaps[id].version
  {
    var s := Run(vs);
    var rows := NewestFirst(s.snaps, s.order, actor);
    UnreferencedIs(s.snaps, SliceFrom(rows, keepLatest), id);
    VersionsDense(vs);
    DenseAreDistinct(s, actor);
    NewestFirstSorts(s.snaps, s.order, actor);
    var j :| keepLatest <= j < |rows| && rows[j] == id;
  }

  // ------------------------------------------------- versions

  /** How many snapshots an actor has published, by position in the table. */
  function PublishedBefore(snaps: map<SnapshotId, Snapshot>, order: seq<SnapshotId>,
                           actor: string): nat
  {
    if order == [] then 0
    else
      var id := order[|order|-1];
      PublishedBefore(snaps, order[..|order|-1], actor)
      + if id in snaps && snaps[id].actor == actor then 1 else 0
  }

  /** The row at `k` is its actor's next version after those before it. */
  ghost predicate DenseAt(s: Store, k: nat)
    requires k < |s.order|
  {
    var id := s.order[k];
    id in s.snaps
    && s.snaps[id].version == PublishedBefore(s.snaps, s.order[..k], s.snaps[id].actor) + 1
  }

  ghost predicate Dense(s: Store) {
    forall k :: 0 <= k < |s.order| ==> DenseAt(s, k)
  }

  lemma {:induction false} MaxIsCount(s: Store, actor: string, k: nat)
    requires Dense(s) && k <= |s.order|
    ensures MaxVersion(s.snaps, s.order[..k], actor) == PublishedBefore(s.snaps, s.order[..k], actor)
  {
    if k > 0 {
      MaxIsCount(s, actor, k - 1);
      assert s.order[..k][..k-1] == s.order[..k-1];
      assert DenseAt(s, k - 1);
    }
  }

  lemma {:induction false} CountsKept(s: map<SnapshotId, Snapshot>, r: map<SnapshotId, Snapshot>,
                                      order: seq<SnapshotId>, actor: string)
    requires forall j :: 0 <= j < |order| ==>
               order[j] in s && order[j] in r && r[order[j]].actor == s[order[j]].actor
    ensures PublishedBefore(r, order, actor) == PublishedBefore(s, order, actor)
  {
    if order != [] {
      CountsKept(s, r, order[..|order|-1], actor);
    }
  }

  /** Only publication adds a row; no verb renames an actor or a version. */
  lemma StepRows(s: Store, v: SnapshotVerb, k: nat)
    requires k < |s.order| && s.order[k] in s.snaps
    ensures k < |Step(s, v).order| && Step(s, v).order[k] == s.order[k]
    ensures s.order[k] in Step(s, v).snaps
    ensures Step(s, v).snaps[s.order[k]].actor == s.snaps[s.order[k]].actor
    ensures Step(s, v).snaps[s.order[k]].version == s.snaps[s.order[k]].version
  {
  }

  lemma StepDense(s: Store, v: SnapshotVerb, k: nat)
    requires Dense(s) && k < |Step(s, v).order|
    ensures DenseAt(Step(s, v), k)
  {
    var r := Step(s, v);
    var n := if k < |s.order| then k else |s.order|;
    forall j | 0 <= j < |s.order|
      ensures s.order[j] in s.snaps && s.order[j] in r.snaps && r.order[j] == s.order[j]
      ensures r.snaps[s.order[j]].actor == s.snaps[s.order[j]].actor
      ensures r.snaps[s.order[j]].version == s.snaps[s.order[j]].version
    {
      assert DenseAt(s, j);
      StepRows(s, v, j);
    }
    assert r.order[..n] == s.order[..n];
    CountsKept(s.snaps, r.snaps, s.order[..n], r.snaps[r.order[k]].actor);
    if k >= |s.order| {
      MaxIsCount(s, v.actor, |s.order|);
      assert s.order[..|s.order|] == s.order;
    } else {
      assert DenseAt(s, k);
    }
  }

  /** For each actor the versions are exactly 1..n, without gap or repeat. */
  lemma {:induction false} VersionsDense(vs: seq<SnapshotVerb>)
    ensures Dense(Run(vs))
    ensures forall id :: id in Run(vs).snaps ==> id in Run(vs).order
  {
    if vs != [] {
      var s, v := Run(vs[..|vs|-1]), vs[|vs|-1];
      VersionsDense(vs[..|vs|-1]);
      forall k | 0 <= k < |Step(s, v).order| ensures DenseAt(Step(s, v), k) {
        StepDense(s, v, k);
      }
    }
  }

  lemma {:induction false} CountGrows(s: Store, actor: string, i: nat, j: nat)
    requires i <= j <= |s.order|
    ensures PublishedBefore(s.snaps, s.order[..i], actor)
            <= PublishedBefore(s.snaps, s.order[..j], actor)
    decreases j
  {
    if i < j {
      CountGrows(s, actor, i, j - 1);
      assert s.order[..j][..j-1] == s.order[..j-1];
    }
  }

  lemma DenseAreDistinct(s: Store, actor: string)
    requires Dense(s)
    ensures VersionsDistinct(s.snaps, s.order, actor)
  {
    forall i, j | 0 <= i < j < |s.order| && s.order[i] in s.snaps && s.order[j] in s.snaps
                  && s.snaps[s.order[i]].actor == actor && s.snaps[s.order[j]].actor == actor
      ensures s.snaps[s.order[i]].version != s.snaps[s.order[j]].version
    {
      assert DenseAt(s, i) && DenseAt(s, j);
      CountGrows(s, actor, i + 1, j);
      assert s.order[..i+1][..i] == s.order[..i];
    }
  }
}
