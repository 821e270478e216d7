/**
  Whole runs of the queue: any sequence of verbs, by any number of workers,
  supervisors and restarts, over one table.

  Retirement is two steps because the repository reads the blocked rows before
  it opens the transaction that fails them. Other verbs may run in between.
 */
module WorkRuns {
  import opened Outcomes
  import opened WorkQueue
  import opened Board

  datatype Verb =
    | DoAdmit(id: WorkId, req: Request, mid: MutationId, now: Time)
    | DoLease(neuocyte: string, workClass: Option<string>, workId: Option<WorkId>, until: Time)
    | DoRenew(id: WorkId, neuocyte: string, presented: int, until: Time)
    | DoComplete(id: WorkId, neuocyte: string, presented: int, blob: string)
    | DoFail(id: WorkId, neuocyte: string, presented: int, text: string, requeue: bool)
    | DoCancel(id: WorkId, reason: string)
    | DoExpire(now: Time)
    | DoScan
    | DoRetire(blocked: seq<Blocked>)
    | DoRecover
    | DoPost(postId: string, workId: Option<WorkId>)

  /** The stored tables, with the scans some supervisor may still act on. */
  datatype World = World(queue: Queue, scans: set<seq<Blocked>>, posts: map<string, Post>)

  const START := World(EMPTY, {}, map[])

  function Step(w: World, v: Verb): World {
    var q := w.queue;
    match v
    case DoAdmit(id, req, mid, now) => w.(queue := Admit(q, id, req, mid, now).0)
    case DoLease(n, cls, wid, until) => w.(queue := Lease(q, n, cls, wid, until).0)
    case DoRenew(id, n, t, until) => w.(queue := RenewLease(q, id, n, t, until).0)
    case DoComplete(id, n, t, blob) => w.(queue := Complete(q, id, n, t, blob).0)
    case DoFail(id, n, t, text, requeue) => w.(queue := Fail(q, id, n, t, text, requeue).0)
    case DoCancel(id, reason) => w.(queue := Cancel(q, id, reason).0)
    case DoExpire(now) => w.(queue := ExpireLeases(q, now).0)
    case DoScan => w.(scans := w.scans + {Scan(q.items, q.order)})
    case DoRetire(blocked) =>
      if blocked in w.scans then w.(queue := RetireScanned(q, blocked)) else w
    case DoRecover => w.(queue := Recover(q))
    case DoPost(postId, workId) =>
      if postId in w.posts then w
      else w.(posts := w.posts[postId := Post(workId, CaptureToken(q.items, workId))])
  }

  function RunFrom(w: World, vs: seq<Verb>): World {
    if vs == [] then w else Step(RunFrom(w, vs[..|vs|-1]), vs[|vs|-1])
  }

  /** The world after the verbs in order, from an empty store. */
  function Run(vs: seq<Verb>): World {
    RunFrom(START, vs)
  }

  lemma {:induction false} RunAppend(w: World, vs: seq<Verb>, ws: seq<Verb>)
    ensures RunFrom(w, vs + ws) == RunFrom(RunFrom(w, vs), ws)
  {
    if ws == [] {
      assert vs + ws == vs;
    } else {
      assert (vs + ws)[..|vs + ws|-1] == vs + ws[..|ws|-1];
      RunAppend(w, vs, ws[..|ws|-1]);
    }
  }

  // ------------------------------------------------- one legal move per row

  predicate Legal(x: Item, m: Move) {
    match m
    case Stay => true
    case TakeLease(_, _) => x.status == Queued
    case Renew(_) => x.status == Leased
    case Finish(_) => !x.status.Terminal()
    case Report(_, _) => x.status == Leased
    case CallOff(_) => !x.status.Terminal()
    case Expire => x.status == Leased
    case Requeue => x.status == Leased
    case Retire(_) => x.status == Queued
  }

  function DeadFor(blocked: seq<Blocked>, id: WorkId): Option<set<WorkId>> {
    if blocked == [] then None
    else
      var earlier := DeadFor(blocked[..|blocked|-1], id);
      var b := blocked[|blocked|-1];
      if earlier.None? && b.id == id then Some(b.dead) else earlier
  }

  /** What `v` does to the row `id`. */
  function MoveOf(w: World, v: Verb, id: WorkId): Move
    requires id in w.queue.items
  {
    var q := w.queue;
    var x := q.items[id];
    match v
    case DoLease(n, cls, wid, until) =>
      if Lease(q, n, cls, wid, until).1 == Some(id) then TakeLease(n, until) else Stay
    case DoRenew(i, n, t, until) =>
      if i == id && x.Holds(n, t) then Renew(until) else Stay
    case DoComplete(i, n, t, blob) =>
      if i == id && Complete(q, i, n, t, blob).1 == Committed then Finish(blob) else Stay
    case DoFail(i, n, t, text, requeue) =>
      if i == id && Fail(q, i, n, t, text, requeue).1 == Committed
      then Report(text, requeue) else Stay
    case DoCancel(i, reason) =>
      if i == id && ForCancel(i) !in q.receipts && !x.status.Terminal()
      then CallOff(reason) else Stay
    case DoExpire(now) => if x.Overdue(now) then Expire else Stay
    case DoRetire(blocked) =>
      if blocked in w.scans && x.status == Queued && DeadFor(blocked, id).Some?
      then Retire(DeadFor(blocked, id).value) else Stay
    case DoRecover => if x.status == Leased then Requeue else Stay
    case _ => Stay
  }

  lemma FirstReadyIs(items: map<WorkId, Item>, ids: seq<WorkId>)
    ensures var pick := FirstReady(items, ids);
            pick.Some? ==> pick.value in ids && pick.value in items
                           && AllDone(items, items[pick.value].dependsOn)
  {
  }

  /** Whatever a lease claims was queued, matched the request and was ready. */
  lemma LeasePicks(q: Queue, workClass: Option<string>, workId: Option<WorkId>, limit: nat)
    ensures var pick := FirstReady(q.items, Window(q, workClass, workId, limit));
            pick.Some? ==> pick.value in q.items
                           && Matches(q.items[pick.value], pick.value, workClass, workId)
                           && AllDone(q.items, q.items[pick.value].dependsOn)
  {
    var ids := Select(q.items, q.order, workClass, workId);
    SelectInItems(q.items, q.order, workClass, workId);
    var sorted := SortRows(q.items, ids);
    FirstReadyIs(q.items, Take(sorted, limit));
    forall x | x in Take(sorted, limit) ensures x in ids {
      assert x in sorted;
      assert x in multiset(sorted);
    }
  }

  lemma {:induction false} RetireMoves(q: Queue, blocked: seq<Blocked>, id: WorkId)
    requires id in q.items
    ensures var r := RetireScanned(q, blocked);
            r.items.Keys == q.items.Keys && r.order == q.order && r.receipts == q.receipts
            && r.items[id] == if q.items[id].status == Queued && DeadFor(blocked, id).Some?
                              then q.items[id].Apply(Retire(DeadFor(blocked, id).value))
                              else q.items[id]
  {
    if blocked != [] {
      RetireMoves(q, blocked[..|blocked|-1], id);
    }
  }

  /** Every verb moves every stored row by at most one legal move. */
  lemma StepMoves(w: World, v: Verb, id: WorkId)
    requires id in w.queue.items && WellStored(w.queue)
    ensures Legal(w.queue.items[id], MoveOf(w, v, id))
    ensures id in Step(w, v).queue.items
    ensures Step(w, v).queue.items[id] == w.queue.items[id].Apply(MoveOf(w, v, id))
  {
    var q := w.queue;
    match v
    case DoLease(_, _, _, _) => LeaseMoves(w, v, id);
    case DoExpire(now) => OverdueIdsAre(q.items, q.order, now);
    case DoRetire(blocked) => RetireMoves(q, blocked, id);
    case DoRecover => LeasedIdsAre(q.items, q.order);
    case DoComplete(_, _, _, _) => ReportMoves(w, v, id);
    case DoFail(_, _, _, _, _) => ReportMoves(w, v, id);
    case _ =>
  }

  lemma LeaseMoves(w: World, v: Verb, id: WorkId)
    requires v.DoLease? && id in w.queue.items
    ensures Legal(w.queue.items[id], MoveOf(w, v, id))
    ensures id in Step(w, v).queue.items
    ensures Step(w, v).queue.items[id] == w.queue.items[id].Apply(MoveOf(w, v, id))
  {
    LeasePicks(w.queue, v.workClass, v.workId, LEASE_WINDOW);
  }

  lemma ReportMoves(w: World, v: Verb, id: WorkId)
    requires (v.DoComplete? || v.DoFail?) && id in w.queue.items
    ensures Legal(w.queue.items[id], MoveOf(w, v, id))
    ensures id in Step(w, v).queue.items
    ensures Step(w, v).queue.items[id] == w.queue.items[id].Apply(MoveOf(w, v, id))
  {
  }

  /** Only admission changes which rows are stored. */
  lemma StepKeys(w: World, v: Verb)
    ensures !v.DoAdmit? ==> Step(w, v).queue.items.Keys == w.queue.items.Keys
                            && Step(w, v).queue.order == w.queue.order
  {
    match v
    case DoRetire(blocked) => RetireKeys(w.queue, blocked);
    case DoLease(n, cls, wid, until) => LeasePicks(w.queue, cls, wid, LEASE_WINDOW);
    case _ =>
  }

  lemma {:induction false} RetireKeys(q: Queue, blocked: seq<Blocked>)
    ensures RetireScanned(q, blocked).items.Keys == q.items.Keys
    ensures RetireScanned(q, blocked).order == q.order
  {
    if blocked != [] {
      RetireKeys(q, blocked[..|blocked|-1]);
    }
  }

  lemma StepStores(w: World, v: Verb)
    requires WellStored(w.queue)
    ensures WellStored(Step(w, v).queue)
  {
    if v.DoAdmit? {
      AdmitStores(w.queue, v.id, v.req, v.mid, v.now);
    } else {
      StepKeys(w, v);
      forall id | id in w.queue.items
        ensures Step(w, v).queue.items[id].rowid == w.queue.items[id].rowid
      {
        StepMoves(w, v, id);
      }
      TableKept(w.queue, Step(w, v).queue);
    }
  }

  /** A row that appears was admitted by this step, and starts queued. */
  lemma NewRow(w: World, v: Verb, id: WorkId)
    requires id !in w.queue.items && id in Step(w, v).queue.items
    ensures v.DoAdmit? && v.id == id
    ensures Step(w, v).queue.items[id] == NewItem(|w.queue.order|, v.req, v.now)
    ensures forall d :: d in v.req.dependsOn ==> d in w.queue.items
    ensures Step(w, v).queue.log == w.queue.log + [WorkAdmitted(id)]
  {
    StepKeys(w, v);
  }

  /** The id an admission returns names a row from then on, if it was fresh, exactly
      when the admission took effect; on a replay it names none. */
  lemma ReturnedIdIsStoredIff(vs: seq<Verb>, ws: seq<Verb>, id: WorkId, req: Request,
                              mid: MutationId, now: Time)
    requires id !in Run(vs).queue.items
    ensures var (q, r) := Admit(Run(vs).queue, id, req, mid, now);
            id in q.items <==> r == Committed
    ensures Admit(Run(vs).queue, id, req, mid, now).1 == Committed ==>
              id in Run(vs + [DoAdmit(id, req, mid, now)] + ws).queue.items
  {
    var admit := DoAdmit(id, req, mid, now);
    RunAppend(START, vs, [admit]);
    assert [admit][..0] == [];
    RunAppend(START, vs + [admit], ws);
    RowsStay(Run(vs + [admit]), ws, id);
  }

  lemma {:induction false} RowsStay(w: World, ws: seq<Verb>, id: WorkId)
    ensures id in w.queue.items ==> id in RunFrom(w, ws).queue.items
  {
    if ws != [] {
      RowsStay(w, ws[..|ws|-1], id);
      StepKeys(RunFrom(w, ws[..|ws|-1]), ws[|ws|-1]);
    }
  }

  lemma {:induction false} RunStores(vs: seq<Verb>)
    ensures WellStored(Run(vs).queue)
  {
    if vs != [] {
      RunStores(vs[..|vs|-1]);
      StepStores(Run(vs[..|vs|-1]), vs[|vs|-1]);
    }
  }
}
