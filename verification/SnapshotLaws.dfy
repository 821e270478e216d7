/**
  What each verb of the snapshot registry does, column by column, and exactly
  which snapshots are offered for reclaiming.
 */
module SnapshotLaws {
  import opened Outcomes
  import opened Snapshots
  import opened SnapshotRuns

  /** Every snapshot but `id` is as it was. */
  ghost predicate OthersKept(s: Store, t: Store, id: SnapshotId) {
    t.snaps.Keys == s.snaps.Keys + {id}
    && forall x :: x in s.snaps && x != id ==> t.snaps[x] == s.snaps[x]
  }

  ghost predicate OtherRefsKept(s: Store, t: Store, refId: RefId) {
    t.refs.Keys == s.refs.Keys + {refId}
    && forall x :: x in s.refs && x != refId ==> t.refs[x] == s.refs[x]
  }

  /** The columns no verb but publication writes. */
  ghost predicate SameSnapshot(was: Snapshot, now: Snapshot) {
    now.version == was.version && now.actor == was.actor && now.content == was.content
  }

  /** A new snapshot is stored as given, published and unreferenced, under the number
      that follows those of its actor. */
  lemma PublishStores(vs: seq<SnapshotVerb>, id: SnapshotId, actor: string, content: Content,
                      kvMode: string, handle: Option<string>)
    ensures var s := Run(vs);
            var (t, r) := Publish(s, id, actor, content, kvMode, handle);
            (r.Err? <==> id in s.snaps) && (r.Err? ==> r.error == Clash && t == s)
            && (r.Ok? ==>
                  OthersKept(s, t, id) && t.refs == s.refs && t.receipts == s.receipts
                  && t.order == s.order + [id]
                  && t.snaps[id].actor == actor && t.snaps[id].content == content
                  && t.snaps[id].kvMode == kvMode && t.snaps[id].handle == handle
                  && t.snaps[id].status == Published && t.snaps[id].refcount == 0
                  && t.snaps[id].version == r.value
                  && r.value == PublishedBefore(s.snaps, s.order, actor) + 1)
  {
    var s := Run(vs);
    VersionsDense(vs);
    MaxIsCount(s, actor, |s.order|);
    assert s.order[..|s.order|] == s.order;
  }

  lemma AcquireCounts(s: Store, refId: RefId, id: SnapshotId, holder: string)
    ensures var (t, r) := Acquire(s, refId, id, holder);
            (r == Rejected(UnknownSnapshot) <==> id !in s.snaps)
            && (r == Rejected(Exhausted) <==> id in s.snaps && s.snaps[id].status == Released)
            && (r == Rejected(Clash)
                <==> id in s.snaps && s.snaps[id].status == Published && refId in s.refs)
            && (r != Applied ==> r.Rejected? && t == s)
            && (r == Applied ==>
                  OthersKept(s, t, id) && OtherRefsKept(s, t, refId) && t.receipts == s.receipts
                  && t.order == s.order && SameSnapshot(s.snaps[id], t.snaps[id])
                  && t.snaps[id].status == Published
                  && t.snaps[id].handle == s.snaps[id].handle
                  && t.snaps[id].kvMode == s.snaps[id].kvMode
                  && t.snaps[id].refcount == s.snaps[id].refcount + 1
                  && t.refs[refId].snapshotId == id && t.refs[refId].holder == holder
                  && !t.refs[refId].released)
  {
  }

  /** Giving a reference back, in any reachable state: once, and it takes exactly one
      off the count of the snapshot it held. */
  lemma ReleaseUncounts(vs: seq<SnapshotVerb>, refId: RefId)
    ensures var s := Run(vs);
            var (t, r) := ReleaseRef(s, refId);
            (r == AlreadyApplied <==> ForUnref(refId) in s.receipts)
            && (r == Rejected(UnknownRef)
                <==> ForUnref(refId) !in s.receipts && refId !in s.refs)
            && (r != Applied ==> (r == AlreadyApplied || r == Rejected(UnknownRef)) && t == s)
            && (r == Applied ==>
                  OtherRefsKept(s, t, refId) && t.order == s.order
                  && t.receipts == s.receipts + {ForUnref(refId)}
                  && t.refs[refId].released && t.refs[refId].holder == s.refs[refId].holder
                  && t.refs[refId].snapshotId == s.refs[refId].snapshotId)
            && (r == Applied && s.refs[refId].released ==> t.snaps == s.snaps)
            && (r == Applied && !s.refs[refId].released ==>
                  var id := s.refs[refId].snapshotId;
                  id in s.snaps && OthersKept(s, t, id) && SameSnapshot(s.snaps[id], t.snaps[id])
                  && t.snaps[id].status == Published
                  && t.snaps[id].handle == s.snaps[id].handle
                  && t.snaps[id].kvMode == s.snaps[id].kvMode
                  && t.snaps[id].refcount == s.snaps[id].refcount - 1)
  {
    var s := Run(vs);
    if refId in s.refs && !s.refs[refId].released {
      ClampNeverActs(vs, refId);
    }
  }

  lemma MarkReleasedDrops(s: Store, id: SnapshotId)
    ensures var (t, r) := MarkReleased(s, id);
            (r == AlreadyApplied <==> ForRelease(id) in s.receipts)
            && (r == Rejected(UnknownSnapshot)
                <==> ForRelease(id) !in s.receipts && id !in s.snaps)
            && (r == Rejected(Exhausted)
                <==> ForRelease(id) !in s.receipts && id in s.snaps && s.snaps[id].refcount > 0)
            && r != Rejected(UnknownRef) && r != Rejected(Clash)
            && (r != Applied ==> t == s)
            && (r == Applied ==>
                  OthersKept(s, t, id) && t.refs == s.refs && t.order == s.order
                  && t.receipts == s.receipts + {ForRelease(id)}
                  && SameSnapshot(s.snaps[id], t.snaps[id])
                  && t.snaps[id].status == Released && t.snaps[id].handle == None
                  && t.snaps[id].kvMode == s.snaps[id].kvMode
                  && t.snaps[id].refcount == s.snaps[id].refcount)
  {
  }

  /** A lost handle leaves the snapshot to be recomputed; one that had none keeps its
      mode. */
  ghost predicate HandleLost(was: Snapshot, now: Snapshot) {
    SameSnapshot(was, now) && now.status == was.status && now.handle == None
    && (was.handle.Some? ==> now.kvMode == "recomputed")
    && (was.handle.None? ==> now.kvMode == was.kvMode)
  }

  /** Losing the backend takes the handles and nothing else; a restart also returns
      every reference, which takes every count to 0. */
  lemma HandlesAreLost(vs: seq<SnapshotVerb>)
    ensures var s := Run(vs);
            var t := Invalidate(s);
            t.snaps.Keys == s.snaps.Keys && t.order == s.order && t.refs == s.refs
            && t.receipts == s.receipts
            && forall id :: id in s.snaps ==>
                 HandleLost(s.snaps[id], t.snaps[id])
                 && t.snaps[id].refcount == s.snaps[id].refcount
    ensures var s := Run(vs);
            var t := RecoverSnapshots(s);
            t.snaps.Keys == s.snaps.Keys && t.order == s.order && t.refs.Keys == s.refs.Keys
            && t.receipts == s.receipts
            && (forall id :: id in s.snaps ==>
                  HandleLost(s.snaps[id], t.snaps[id]) && t.snaps[id].refcount == 0)
            && forall r :: r in s.refs ==>
                 t.refs[r].released && t.refs[r].snapshotId == s.refs[r].snapshotId
                 && t.refs[r].holder == s.refs[r].holder
  {
    var s := Run(vs);
    ReferencesConserved(vs);
    forall id | id in s.snaps ensures RecoverSnapshots(s).snaps[id].refcount == 0 {
      assert ConservedAt(s, id);
    }
  }

  // ------------------------------------------------- reclaiming

  ghost function PublishedBy(s: Store, actor: string): set<SnapshotId> {
    set x | x in s.snaps && s.snaps[x].actor == actor && s.snaps[x].status == Published
  }

  ghost function NewerThan(s: Store, actor: string, id: SnapshotId): set<SnapshotId>
    requires id in s.snaps
  {
    set x | x in PublishedBy(s, actor) && s.snaps[x].version > s.snaps[id].version
  }

  lemma {:induction false} DistinctCount<T>(xs: seq<T>)
    requires forall i, j :: 0 <= i < j < |xs| ==> xs[i] != xs[j]
    ensures |set x | x in xs| == |xs|
  {
    if xs != [] {
      var rest := xs[..|xs|-1];
      DistinctCount(rest);
      assert (set x | x in xs) == (set x | x in rest) + {xs[|xs|-1]};
    }
  }

  lemma RowsArePublished(vs: seq<SnapshotVerb>, actor: string)
    ensures var s := Run(vs);
            var rows := NewestFirst(s.snaps, s.order, actor);
            (set x | x in rows) == PublishedBy(s, actor) && NewestToOldest(s.snaps, rows)
            && |rows| == |PublishedBy(s, actor)|
  {
    var s := Run(vs);
    VersionsDense(vs);
    DenseAreDistinct(s, actor);
    NewestFirstSorts(s.snaps, s.order, actor);
    var rows := NewestFirst(s.snaps, s.order, actor);
    forall x | x in PublishedBy(s, actor) ensures x in rows {
      assert x in s.order;
    }
    assert (set x | x in rows) == PublishedBy(s, actor);
    DistinctCount(rows);
  }

  lemma AheadAreNewer(vs: seq<SnapshotVerb>, actor: string, j: nat)
    requires j < |NewestFirst(Run(vs).snaps, Run(vs).order, actor)|
    ensures var s := Run(vs);
            |NewerThan(s, actor, NewestFirst(s.snaps, s.order, actor)[j])| == j
  {
    var s := Run(vs);
    RowsArePublished(vs, actor);
    var rows := NewestFirst(s.snaps, s.order, actor);
    var newer := NewerThan(s, actor, rows[j]);
    var ahead := rows[..j];
    forall x | x in newer ensures x in ahead {
      assert x in rows;
      var k :| 0 <= k < |rows| && rows[k] == x;
      assert k < j ==> ahead[k] == x;
    }
    assert newer == set x | x in ahead;
    DistinctCount(ahead);
  }

  lemma SliceHolds<T>(rows: seq<T>, keep: int, j: nat)
    requires j < |rows| && forall i, k :: 0 <= i < k < |rows| ==> rows[i] != rows[k]
    ensures rows[j] in SliceFrom(rows, keep)
            <==> j >= if keep >= 0 then keep else |rows| + keep
  {
    var kept := SliceFrom(rows, keep);
    var from := |rows| - |kept|;
    assert forall k :: 0 <= k < |kept| ==> kept[k] == rows[from+k];
    assert from <= j ==> kept[j-from] == rows[j];
  }

  /** A snapshot is offered for reclaiming exactly when it is published, nothing
      refers to it, and at least `keepLatest` published snapshots of its actor are
      newer. A negative number is counted from the end: all but so many. */
  lemma ReclaimableIff(vs: seq<SnapshotVerb>, actor: string, keepLatest: int, id: SnapshotId)
    ensures var s := Run(vs);
            id in Reclaimable(s, actor, keepLatest)
            <==> id in PublishedBy(s, actor) && LiveRefs(s.refs, id) == {}
                 && |NewerThan(s, actor, id)|
                    >= if keepLatest >= 0 then keepLatest
                       else |PublishedBy(s, actor)| + keepLatest
  {
    var s := Run(vs);
    var rows := NewestFirst(s.snaps, s.order, actor);
    var kept := SliceFrom(rows, keepLatest);
    RowsArePublished(vs, actor);
    UnreferencedIs(s.snaps, kept, id);
    ReferencesConserved(vs);
    assert ConservedAt(s, id);
    if id in PublishedBy(s, actor) {
      assert id in rows;
      var j :| 0 <= j < |rows| && rows[j] == id;
      AheadAreNewer(vs, actor, j);
      SliceHolds(rows, keepLatest, j);
    } else {
      assert id in kept ==> id in rows;
    }
  }

  /** They are listed newest first, each once. */
  lemma {:induction false} UnreferencedOrder(snaps: map<SnapshotId, Snapshot>,
                                             ids: seq<SnapshotId>)
    requires NewestToOldest(snaps, ids)
    ensures NewestToOldest(snaps, Unreferenced(snaps, ids))
  {
    if ids != [] {
      var rest := ids[..|ids|-1];
      assert forall x :: x in rest ==> x in ids;
      UnreferencedOrder(snaps, rest);
      var out := Unreferenced(snaps, rest);
      var last := ids[|ids|-1];
      forall k | 0 <= k < |out| ensures snaps[out[k]].version > snaps[last].version {
        UnreferencedIs(snaps, rest, out[k]);
        var j :| 0 <= j < |rest| && rest[j] == out[k];
        assert ids[j] == out[k];
      }
    }
  }

  lemma ReclaimableOrder(vs: seq<SnapshotVerb>, actor: string, keepLatest: int)
    ensures NewestToOldest(Run(vs).snaps, Reclaimable(Run(vs), actor, keepLatest))
  {
    var s := Run(vs);
    RowsArePublished(vs, actor);
    var rows := NewestFirst(s.snaps, s.order, actor);
    assert forall x :: x in SliceFrom(rows, keepLatest) ==> x in rows;
    UnreferencedOrder(s.snaps, SliceFrom(rows, keepLatest));
  }
}
