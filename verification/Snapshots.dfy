/**
  Published snapshots and the references that keep them from being reclaimed.
 */
module Snapshots {
  import opened Outcomes

  type SnapshotId = string
  type RefId = string

  datatype SnapshotStatus = Published | Released

  /** The model and the exact tokens a snapshot can be recomputed from; digests
      stand for the stored content. */
  datatype Content = Content(
    generation: string, tokenCount: int, tokens: string, text: Option<string>)

  datatype Snapshot = Snapshot(
    version: nat, actor: string, content: Content, kvMode: string, status: SnapshotStatus,
    refcount: int, handle: Option<string>)

  datatype Reference = Reference(snapshotId: SnapshotId, holder: string, released: bool)

  datatype SnapshotError = UnknownSnapshot | UnknownRef | Exhausted | Clash

  datatype SnapshotOutcome = Applied | AlreadyApplied | Rejected(error: SnapshotError)

  datatype SnapshotMutation = ForUnref(refId: RefId) | ForRelease(id: SnapshotId)

  datatype Store = Store(
    snaps: map<SnapshotId, Snapshot>,
    order: seq<SnapshotId>,
    refs: map<RefId, Reference>,
    receipts: set<SnapshotMutation>)

  const NO_SNAPSHOTS := Store(map[], [], map[], {})

  // ---------------------------------------------------------------- reading

  /** SELECT MAX(version) for an actor; 0 when it has published nothing. */
  function MaxVersion(snaps: map<SnapshotId, Snapshot>, order: seq<SnapshotId>, actor: string): nat {
    if order == [] then 0
    else
      var rest := MaxVersion(snaps, order[..|order|-1], actor);
      var id := order[|order|-1];
      if id in snaps && snaps[id].actor == actor && snaps[id].version > rest
      then snaps[id].version else rest
  }

  /** References to `id` that nobody has released. */
  function LiveRefs(refs: map<RefId, Reference>, id: SnapshotId): set<RefId> {
    set r | r in refs && refs[r].snapshotId == id && !refs[r].released
  }

  function InsertByVersion(snaps: map<SnapshotId, Snapshot>, id: SnapshotId, ids: seq<SnapshotId>)
    : (r: seq<SnapshotId>)
    requires id in snaps && forall x :: x in ids ==> x in snaps
    ensures forall x :: x in r <==> x == id || x in ids
  {
    if ids == [] || snaps[id].version > snaps[ids[0]].version then [id] + ids
    else [ids[0]] + InsertByVersion(snaps, id, ids[1..])
  }

  /** Published snapshots of an actor, ORDER BY version DESC. */
  function NewestFirst(snaps: map<SnapshotId, Snapshot>, order: seq<SnapshotId>, actor: string)
    : (r: seq<SnapshotId>)
    ensures forall x :: x in r <==>
              x in order && x in snaps && snaps[x].actor == actor && snaps[x].status == Published
  {
    if order == [] then []
    else
      var rest := NewestFirst(snaps, order[1..], actor);
      var id := order[0];
      if id in snaps && snaps[id].actor == actor && snaps[id].status == Published
      then InsertByVersion(snaps, id, rest) else rest
  }

  /** `rows[keep:]`, where a negative bound counts from the end. */
  function SliceFrom<T>(rows: seq<T>, keep: int): seq<T> {
    if keep >= |rows| then [] else if keep >= 0 then rows[keep..]
    else if -keep >= |rows| then rows else rows[|rows| + keep..]
  }

  function Unreferenced(snaps: map<SnapshotId, Snapshot>, ids: seq<SnapshotId>): seq<SnapshotId> {
    if ids == [] then []
    else
      var rest := Unreferenced(snaps, ids[..|ids|-1]);
      var id := ids[|ids|-1];
      if id in snaps && snaps[id].refcount == 0 then rest + [id] else rest
  }

  function Reclaimable(s: Store, actor: string, keepLatest: int): seq<SnapshotId> {
    Unreferenced(s.snaps, SliceFrom(NewestFirst(s.snaps, s.order, actor), keepLatest))
  }

  // ---------------------------------------------------------------- writing

  function Publish(s: Store, id: SnapshotId, actor: string, content: Content, kvMode: string,
                   handle: Option<string>): (Store, Result<nat, SnapshotError>)
  {
    if id in s.snaps then (s, Err(Clash))
    else
      var version := MaxVersion(s.snaps, s.order, actor) + 1;
      (s.(snaps := s.snaps[id := Snapshot(version, actor, content, kvMode, Published, 0, handle)],
          order := s.order + [id]),
       Ok(version))
  }

  function Acquire(s: Store, refId: RefId, id: SnapshotId, holder: string)
    : (Store, SnapshotOutcome)
  {
    if id !in s.snaps then (s, Rejected(UnknownSnapshot))
    else if s.snaps[id].status == Released then (s, Rejected(Exhausted))
    else if refId in s.refs then (s, Rejected(Clash))
    else
      var snap := s.snaps[id];
      (s.(refs := s.refs[refId := Reference(id, holder, false)],
          snaps := s.snaps[id := snap.(refcount := snap.refcount + 1)]),
       Applied)
  }

  /** MAX(refcount - 1, 0) */
  function Decremented(refcount: int): int {
    if refcount - 1 > 0 then refcount - 1 else 0
  }

  function ReleaseRef(s: Store, refId: RefId): (Store, SnapshotOutcome) {
    var mid := ForUnref(refId);
    if mid in s.receipts then (s, AlreadyApplied)
    else if refId !in s.refs then (s, Rejected(UnknownRef))
    else if s.refs[refId].released then (s.(receipts := s.receipts + {mid}), Applied)
    else
      var id := s.refs[refId].snapshotId;
      (s.(refs := s.refs[refId := s.refs[refId].(released := true)],
          snaps := if id in s.snaps
                   then s.snaps[id := s.snaps[id].(refcount := Decremented(s.snaps[id].refcount))]
                   else s.snaps,
          receipts := s.receipts + {mid}),
       Applied)
  }

  function MarkReleased(s: Store, id: SnapshotId): (Store, SnapshotOutcome) {
    var mid := ForRelease(id);
    if mid in s.receipts then (s, AlreadyApplied)
    else if id !in s.snaps then (s, Rejected(UnknownSnapshot))
    else if s.snaps[id].refcount > 0 then (s, Rejected(Exhausted))
    else
      (s.(snaps := s.snaps[id := s.snaps[id].(status := Released, handle := None)],
          receipts := s.receipts + {mid}),
       Applied)
  }

  /** A handle that died leaves the tokens to recompute from. */
  function WithoutHandle(snap: Snapshot): Snapshot {
    if snap.handle.Some? then snap.(handle := None, kvMode := "recomputed") else snap
  }

  function Invalidate(s: Store): Store {
    s.(snaps := map id | id in s.snaps :: WithoutHandle(s.snaps[id]))
  }

  function Handled(snaps: map<SnapshotId, Snapshot>): set<SnapshotId> {
    set id | id in snaps && snaps[id].handle.Some?
  }

  /** SET refcount = 0 WHERE refcount > 0 */
  function Zeroed(refcount: int): int {
    if refcount > 0 then 0 else refcount
  }

  /** Recovery drops every handle, every reference and every count. */
  function RecoverSnapshots(s: Store): Store {
    s.(snaps := map id | id in s.snaps ::
                  WithoutHandle(s.snaps[id])
                    .(refcount := Zeroed(s.snaps[id].refcount)),
       refs := map r | r in s.refs :: s.refs[r].(released := true))
  }

  // ---------------------------------------------------------------- the object

  class Repo {
    var snaps: map<SnapshotId, Snapshot>
    var order: seq<SnapshotId>
    var refs: map<RefId, Reference>
    var receipts: set<SnapshotMutation>

    function State(): Store
      reads this
    {
      Store(snaps, order, refs, receipts)
    }

    constructor ()
      ensures State() == NO_SNAPSHOTS
    {
      snaps, order, refs, receipts := map[], [], map[], {};
    }

    method PublishSnapshot(id: SnapshotId, actor: string, content: Content, kvMode: string,
                           handle: Option<string>)
      returns (r: Result<nat, SnapshotError>)
      modifies this`snaps, this`order
      ensures (State(), r) == Publish(old(State()), id, actor, content, kvMode, handle)
    {
      if id in snaps {
        return Err(Clash);
      }
      var newest := 0;
      for k := 0 to |order|
        invariant newest == MaxVersion(snaps, order[..k], actor)
      {
        assert order[..k+1][..k] == order[..k];
        var row := order[k];
        if row in snaps && snaps[row].actor == actor && snaps[row].version > newest {
          newest := snaps[row].version;
        }
      }
      assert order[..|order|] == order;
      snaps := snaps[id := Snapshot(newest + 1, actor, content, kvMode, Published, 0, handle)];
      order := order + [id];
      return Ok(newest + 1);
    }

    method AcquireRef(refId: RefId, id: SnapshotId, holder: string) returns (r: SnapshotOutcome)
      modifies this`snaps, this`refs
      ensures (State(), r) == Acquire(old(State()), refId, id, holder)
    {
      if id !in snaps {
        return Rejected(UnknownSnapshot);
      }
      if snaps[id].status == Released {
        return Rejected(Exhausted);
      }
      if refId in refs {
        return Rejected(Clash);
      }
      refs := refs[refId := Reference(id, holder, false)];
      snaps := snaps[id := snaps[id].(refcount := snaps[id].refcount + 1)];
      return Applied;
    }

    method ReleaseSnapshotRef(refId: RefId) returns (r: SnapshotOutcome)
      modifies this
      ensures (State(), r) == ReleaseRef(old(State()), refId)
    {
      if ForUnref(refId) in receipts {
        return AlreadyApplied;
      }
      if refId !in refs {
        return Rejected(UnknownRef);
      }
      if !refs[refId].released {
        var id := refs[refId].snapshotId;
        refs := refs[refId := refs[refId].(released := true)];
        if id in snaps {
          snaps := snaps[id := snaps[id].(refcount := Decremented(snaps[id].refcount))];
        }
      }
      receipts := receipts + {ForUnref(refId)};
      return Applied;
    }

    method ReclaimableSnapshots(actor: string, keepLatest: int) returns (out: seq<SnapshotId>)
      ensures out == Reclaimable(State(), actor, keepLatest)
    {
      var rows := SliceFrom(NewestFirst(snaps, order, actor), keepLatest);
      out := [];
      for k := 0 to |rows|
        invariant out == Unreferenced(snaps, rows[..k])
      {
        assert rows[..k+1][..k] == rows[..k];
        if rows[k] in snaps && snaps[rows[k]].refcount == 0 {
          out := out + [rows[k]];
        }
      }
      assert rows[..|rows|] == rows;
    }

    method MarkSnapshotReleased(id: SnapshotId) returns (r: SnapshotOutcome)
      modifies this
      ensures (State(), r) == MarkReleased(old(State()), id)
    {
      if ForRelease(id) in receipts {
        return AlreadyApplied;
      }
      if id !in snaps {
        return Rejected(UnknownSnapshot);
      }
      if snaps[id].refcount > 0 {
        return Rejected(Exhausted);
      }
      snaps := snaps[id := snaps[id].(status := Released, handle := None)];
      receipts := receipts + {ForRelease(id)};
      return Applied;
    }

    /** Returns how many handles there were. */
    method InvalidateBackendHandles() returns (n: nat)
      modifies this`snaps
      ensures State() == Invalidate(old(State()))
      ensures n == |Handled(old(snaps))| && Handled(snaps) == {}
    {
      n := |Handled(snaps)|;
      snaps := map id | id in snaps :: WithoutHandle(snaps[id]);
    }

    /** The snapshot and reference steps of recovery. */
    method Recover()
      modifies this`snaps, this`refs
      ensures State() == RecoverSnapshots(old(State()))
    {
      var handles := InvalidateBackendHandles();
      ReleaseHeldRefs();
      ZeroCounts();
    }

    method ZeroCounts()
      modifies this`snaps
      ensures snaps == map id | id in old(snaps) ::
                         old(snaps)[id].(refcount := Zeroed(old(snaps)[id].refcount))
    {
      snaps := map id | id in snaps :: snaps[id].(refcount := Zeroed(snaps[id].refcount));
    }

    method ReleaseHeldRefs()
      modifies this`refs
      ensures refs == map r | r in old(refs) :: old(refs)[r].(released := true)
    {
      var was := refs;
      var todo := set r | r in refs && !refs[r].released;
      while todo != {}
        invariant refs.Keys == was.Keys && todo <= was.Keys
        invariant forall r :: r in was ==>
                    refs[r] == if r in todo then was[r] else was[r].(released := true)
      {
        var r :| r in todo;
        refs := refs[r := refs[r].(released := true)];
        todo := todo - {r};
      }
    }
  }
}
