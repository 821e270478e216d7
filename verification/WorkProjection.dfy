/**
  The work table is a projection of the event log: replaying the log gives back
  every row's status, lease owner, fencing token and attempt.
 */
module WorkProjection {
  import opened Outcomes
  import opened WorkQueue
  import opened WorkRuns
  import opened WorkDependencies

  datatype View = View(status: Status, owner: Option<string>, token: nat, attempt: nat)

  function ViewAt(q: Queue, id: WorkId): Option<View> {
    if id in q.items
    then Some(View(q.items[id].status, q.items[id].owner, q.items[id].token, q.items[id].attempt))
    else None
  }

  /** What one event says about one row. A failure or a cancellation of a row
      that has already ended says nothing. */
  function Read(v: Option<View>, e: Event, id: WorkId): Option<View> {
    match e
    case WorkAdmitted(i) => if i == id then Some(View(Queued, None, 0, 0)) else v
    case Recovery(ids) =>
      if v.Some? && id in ids
      then Some(v.value.(status := Queued, owner := None, token := v.value.token + 1)) else v
    case WorkLeased(i, n, t, a, _) =>
      if v.Some? && i == id then Some(View(Leased, Some(n), t, a)) else v
    case WorkCompleted(i, _, _, _) =>
      if v.Some? && i == id then Some(v.value.(status := Done, owner := None)) else v
    case WorkFailed(i, _, requeued) =>
      if v.Some? && i == id && !v.value.status.Terminal()
      then Some(v.value.(status := if requeued then Queued else Failed, owner := None)) else v
    case WorkCancelled(i, _) =>
      if v.Some? && i == id && !v.value.status.Terminal()
      then Some(v.value.(status := Cancelled, owner := None, token := v.value.token + 1)) else v
    case LeaseExpired(i, _, _, retired) =>
      if v.Some? && i == id
      then Some(v.value.(status := if retired then Failed else Queued, owner := None,
                         token := v.value.token + 1)) else v
    case _ => v
  }

  function Replay(v: Option<View>, log: seq<Event>, id: WorkId): Option<View> {
    if log == [] then v else Read(Replay(v, log[..|log|-1], id), log[|log|-1], id)
  }

  ghost predicate Projects(q: Queue) {
    forall id :: ProjectsAt(q, id)
  }

  lemma {:induction false} ReplayAppend(v: Option<View>, log: seq<Event>, more: seq<Event>,
                                        id: WorkId)
    ensures Replay(v, log + more, id) == Replay(Replay(v, log, id), more, id)
  {
    if more == [] {
      assert log + more == log;
    } else {
      assert (log + more)[..|log + more|-1] == log + more[..|more|-1];
      ReplayAppend(v, log, more[..|more|-1], id);
    }
  }

  lemma ReplayOne(v: Option<View>, log: seq<Event>, e: Event, id: WorkId)
    ensures Replay(v, log + [e], id) == Read(Replay(v, log, id), e, id)
  {
    assert (log + [e])[..|log + [e]|-1] == log;
  }

  /** An expiry is one event, or two when the attempts are spent; the second
      finds the row already failed. */
  lemma ExpiryOfReplays(v: Option<View>, row: WorkId, x: Item, id: WorkId)
    ensures Replay(v, ExpiryEventsOf(row, x), id)
            == Read(v, LeaseExpired(row, x.owner, x.attempt, x.Spent()), id)
    ensures id != row ==> Replay(v, ExpiryEventsOf(row, x), id) == v
  {
    var e := LeaseExpired(row, x.owner, x.attempt, x.Spent());
    ReplayOne(v, [], e, id);
    assert [] + [e] == [e];
    if x.Spent() {
      ReplayOne(v, [e], WorkFailed(row, x.owner, false), id);
    }
  }

  lemma {:induction false} ExpiryReplays(items: map<WorkId, Item>, ids: seq<WorkId>, id: WorkId,
                                         v: Option<View>)
    requires Distinct(ids) && forall x :: x in ids ==> x in items
    ensures Replay(v, ExpiryEvents(items, ids), id)
            == if id in ids
               then Read(v, LeaseExpired(id, items[id].owner, items[id].attempt,
                                         items[id].Spent()), id)
               else v
  {
    if ids != [] {
      var n := |ids| - 1;
      ExpiryReplays(items, ids[..n], id, v);
      ReplayAppend(v, ExpiryEvents(items, ids[..n]), ExpiryEventsOf(ids[n], items[ids[n]]), id);
      assert ids == ids[..n] + [ids[n]];
      ExpiryOfReplays(Replay(v, ExpiryEvents(items, ids[..n]), id), ids[n], items[ids[n]], id);
    }
  }

  /** Replaying a retirement fails the listed rows that are still queued, as
      long as none of them is leased. */
  lemma {:induction false} RetireReplays(q: Queue, blocked: seq<Blocked>, id: WorkId)
    requires ProjectsAt(q, id)
    requires id in q.items && DeadFor(blocked, id).Some? ==> q.items[id].status != Leased
    requires id in q.items ==> WellShaped(q.items[id])
    ensures ProjectsAt(RetireScanned(q, blocked), id)
  {
    if blocked != [] {
      var n := |blocked| - 1;
      var before := RetireScanned(q, blocked[..n]);
      RetireReplays(q, blocked[..n], id);
      RetireKeys(q, blocked[..n]);
      if id in q.items {
        RetireMoves(q, blocked[..n], id);
      }
      OneEventProjects(before, RetireOne(before, blocked[n]),
                       WorkFailed(blocked[n].id, None, false), id);
    }
  }

  ghost predicate ProjectsAt(q: Queue, id: WorkId) {
    Replay(None, q.log, id) == ViewAt(q, id)
  }

  /** One event carries the projection over when it reads as the change made. */
  lemma OneEventProjects(q: Queue, r: Queue, e: Event, id: WorkId)
    requires ProjectsAt(q, id)
    requires r.log == q.log + [e] && ViewAt(r, id) == Read(ViewAt(q, id), e, id)
    ensures ProjectsAt(r, id)
  {
    ReplayOne(None, q.log, e, id);
  }

  lemma StepProjects(w: World, v: Verb, id: WorkId)
    requires WellStored(w.queue) && ProjectsAt(w.queue, id)
    requires id in w.queue.items ==> WellShaped(w.queue.items[id])
    requires NoLeaseListed(w, v, id)
    ensures ProjectsAt(Step(w, v).queue, id)
  {
    var q := w.queue;
    match v
    case DoExpire(now) => ExpireProjects(q, now, id);
    case DoRetire(blocked) =>
      if blocked in w.scans {
        RetireReplays(q, blocked, id);
      }
    case DoRecover => RecoverProjects(q, id);
    case DoRenew(_, _, _, _) => assert q.log + [] == q.log;
    case DoScan =>
    case DoPost(_, _) =>
    case _ =>
      if Step(w, v).queue != q {
        OneEventVerb(w, v, id);
        OneEventProjects(q, Step(w, v).queue, Step(w, v).queue.log[|q.log|], id);
      }
  }

  /** A listed row is never leased, so its failure event reads as what happened. */
  ghost predicate NoLeaseListed(w: World, v: Verb, id: WorkId) {
    v.DoRetire? && v.blocked in w.scans && id in w.queue.items && DeadFor(v.blocked, id).Some?
    ==> w.queue.items[id].status != Leased
  }

  /** Admission, lease, completion, failure and cancellation log one event each. */
  lemma OneEventVerb(w: World, v: Verb, id: WorkId)
    requires Step(w, v).queue != w.queue
    requires v.DoAdmit? || v.DoLease? || v.DoComplete? || v.DoFail? || v.DoCancel?
    ensures OneEvent(w.queue, Step(w, v).queue, id)
  {
    match v
    case DoLease(n, cls, wid, until) => LeaseIsOneEvent(w.queue, n, cls, wid, until, id);
    case DoFail(i, n, t, text, requeue) => FailIsOneEvent(w.queue, i, n, t, text, requeue, id);
    case _ =>
  }

  ghost predicate OneEvent(q: Queue, r: Queue, id: WorkId) {
    |r.log| == |q.log| + 1 && r.log == q.log + [r.log[|q.log|]]
    && ViewAt(r, id) == Read(ViewAt(q, id), r.log[|q.log|], id)
  }

  lemma LeaseIsOneEvent(q: Queue, n: string, cls: Option<string>, wid: Option<WorkId>,
                        until: Time, id: WorkId)
    ensures var r := Lease(q, n, cls, wid, until).0; r == q || OneEvent(q, r, id)
  {
    LeasePicks(q, cls, wid, LEASE_WINDOW);
  }

  lemma FailIsOneEvent(q: Queue, i: WorkId, n: string, t: int, text: string, requeue: bool,
                       id: WorkId)
    ensures var r := Fail(q, i, n, t, text, requeue).0; r == q || OneEvent(q, r, id)
  {
  }

  lemma RecoverProjects(q: Queue, id: WorkId)
    requires ProjectsAt(q, id) && (id in q.items ==> id in q.order)
    ensures ProjectsAt(Recover(q), id)
  {
    var ids := LeasedIds(q.items, q.order);
    LeasedIdsAre(q.items, q.order);
    var r := q.(items := MoveAll(q.items, ids, Requeue), log := q.log + [Recovery(ids)]);
    OneEventProjects(q, r, Recovery(ids), id);
    OneEventProjects(r, Recover(q), RunStarted, id);
  }

  lemma ExpireView(q: Queue, now: Time, id: WorkId)
    requires id in q.items ==> id in q.order
    ensures ViewAt(ExpireLeases(q, now).0, id)
            == if id in q.items && q.items[id].Overdue(now)
               then Read(ViewAt(q, id), LeaseExpired(id, q.items[id].owner, q.items[id].attempt,
                                                     q.items[id].Spent()), id)
               else ViewAt(q, id)
  {
    OverdueIdsAre(q.items, q.order, now);
  }

  lemma ExpireProjects(q: Queue, now: Time, id: WorkId)
    requires ProjectsAt(q, id) && (id in q.items ==> id in q.order)
    requires Distinct(q.order)
    ensures ProjectsAt(ExpireLeases(q, now).0, id)
  {
    var ids := OverdueIds(q.items, q.order, now);
    OverdueIdsAre(q.items, q.order, now);
    OverdueIdsDistinct(q.items, q.order, now);
    ExpireView(q, now, id);
    ReplayAppend(None, q.log, ExpiryEvents(q.items, ids), id);
    ExpiryReplays(q.items, ids, id, ViewAt(q, id));
  }

  lemma ListedAreNotLeased(w: World, blocked: seq<Blocked>, id: WorkId)
    requires DepsInv(w) && blocked in w.scans && id in w.queue.items
    requires DeadFor(blocked, id).Some?
    ensures w.queue.items[id].status != Leased
  {
    DeadForListed(blocked, id);
    var b :| b in blocked && b.id == id;
    assert EntrySound(w.queue, b);
    var d :| d in b.dead;
    assert !IsDone(w.queue.items, d);
  }

  /** In every reachable state, the log alone determines the table. */
  lemma {:induction false} TableIsProjectionOfLog(vs: seq<Verb>)
    ensures Projects(Run(vs).queue)
  {
    if vs != [] {
      var w, v := Run(vs[..|vs|-1]), vs[|vs|-1];
      TableIsProjectionOfLog(vs[..|vs|-1]);
      RunDeps(vs[..|vs|-1]);
      forall id ensures ProjectsAt(Step(w, v).queue, id) {
        if v.DoRetire? && v.blocked in w.scans && id in w.queue.items
           && DeadFor(v.blocked, id).Some? {
          ListedAreNotLeased(w, v.blocked, id);
        }
        StepProjects(w, v, id);
      }
    }
  }
}
