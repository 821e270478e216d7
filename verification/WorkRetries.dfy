/**
  Retries end. Without a recovery the attempt cap holds and every change of
  status uses up a measure that starts at twice the cap. A recovery requeues
  without looking at the cap: the cap is lost exactly by recovering an item in its
  last attempt, and the bound moves by one for each recovery that requeued it.
  That bound is attained.
 */
module WorkRetries {
  import opened Outcomes
  import opened WorkQueue
  import opened WorkRuns
  import opened WorkDependencies
  import opened WorkFencing

  predicate NoRecovery(vs: seq<Verb>) {
    forall v :: v in vs ==> !v.DoRecover?
  }

  /** How many recoveries in the log requeued this item. */
  function Requeues(log: seq<Event>, id: WorkId): nat {
    if log == [] then 0
    else
      var e := log[|log|-1];
      Requeues(log[..|log|-1], id) + if e.Recovery? && id in e.requeuedWork then 1 else 0
  }

  lemma {:induction false} RequeuesExtend(log: seq<Event>, more: seq<Event>, id: WorkId)
    requires Extends(log, more)
    ensures Requeues(more, id) >= Requeues(log, id)
    ensures (forall e :: e in more[|log|..] ==> !e.Recovery?) ==>
              Requeues(more, id) == Requeues(log, id)
  {
    if |more| == |log| {
      assert more == log;
    } else {
      var shorter := more[..|more|-1];
      assert shorter[..|log|] == more[..|log|];
      assert more[|log|..] == shorter[|log|..] + [more[|more|-1]];
      RequeuesExtend(log, shorter, id);
    }
  }

  /** A queued item has an attempt left, but for those recoveries gave it. */
  ghost predicate Bounded(x: Item, requeues: nat) {
    x.attempt <= MAX_WORK_ATTEMPTS + requeues
    && (x.status == Queued ==> x.attempt < MAX_WORK_ATTEMPTS + requeues)
  }

  lemma StepBounded(w: World, v: Verb, id: WorkId)
    requires WellStored(w.queue) && id in Step(w, v).queue.items
    requires id in w.queue.items ==> Bounded(w.queue.items[id], Requeues(w.queue.log, id))
    ensures Bounded(Step(w, v).queue.items[id], Requeues(Step(w, v).queue.log, id))
  {
    var q, r := w.queue, Step(w, v).queue;
    StepLogs(w, v);
    RequeuesExtend(q.log, r.log, id);
    if id !in q.items {
      NewRow(w, v, id);
    } else {
      StepMoves(w, v, id);
      if MoveOf(w, v, id).Requeue? {
        RecoveryCounts(q, id);
      }
    }
  }

  lemma RecoveryCounts(q: Queue, id: WorkId)
    requires WellStored(q) && id in q.items && q.items[id].status == Leased
    ensures Requeues(Recover(q).log, id) == Requeues(q.log, id) + 1
  {
    LeasedIdsAre(q.items, q.order);
    RowidBound(q, id);
    var e := Recovery(LeasedIds(q.items, q.order));
    assert (q.log + [e, RunStarted])[..|q.log| + 1] == q.log + [e];
    assert (q.log + [e])[..|q.log|] == q.log;
  }

  /** Attempts stay within the cap plus the recoveries that requeued the item. */
  lemma {:induction false} AttemptsBounded(vs: seq<Verb>, id: WorkId)
    requires id in Run(vs).queue.items
    ensures Bounded(Run(vs).queue.items[id], Requeues(Run(vs).queue.log, id))
  {
    if vs != [] {
      var w := Run(vs[..|vs|-1]);
      RunStores(vs[..|vs|-1]);
      if id in w.queue.items {
        AttemptsBounded(vs[..|vs|-1], id);
      }
      StepBounded(w, vs[|vs|-1], id);
    }
  }

  lemma {:induction false} NoRecoveryNoRequeue(vs: seq<Verb>, id: WorkId)
    requires NoRecovery(vs)
    ensures Requeues(Run(vs).queue.log, id) == 0
  {
    if vs != [] {
      var w, v := Run(vs[..|vs|-1]), vs[|vs|-1];
      NoRecoveryNoRequeue(vs[..|vs|-1], id);
      StepLogs(w, v);
      forall e | e in Step(w, v).queue.log[|w.queue.log|..] ensures !e.Recovery? {
        assert NewEvent(w, v, e);
      }
      RequeuesExtend(w.queue.log, Step(w, v).queue.log, id);
    }
  }

  /** Status changes still possible for an item that no recovery touches. */
  function Budget(q: Queue, id: WorkId): nat {
    if id !in q.items then 2 * MAX_WORK_ATTEMPTS
    else
      var x := q.items[id];
      if x.status.Terminal() || x.attempt > MAX_WORK_ATTEMPTS then 0
      else 2 * (MAX_WORK_ATTEMPTS - x.attempt) + if x.status == Leased then 1 else 0
  }

  function StatusAt(q: Queue, id: WorkId): Option<Status> {
    if id in q.items then Some(q.items[id].status) else None
  }

  /** How often the item's status changed along the run, admission apart. */
  function Changes(vs: seq<Verb>, id: WorkId): nat {
    if vs == [] then 0
    else
      var before := StatusAt(Run(vs[..|vs|-1]).queue, id);
      Changes(vs[..|vs|-1], id)
      + if before.Some? && before != StatusAt(Run(vs).queue, id) then 1 else 0
  }

  /** Each status change strictly lowers the budget; nothing raises it. */
  lemma StepSpends(w: World, v: Verb, id: WorkId)
    requires WellStored(w.queue) && !v.DoRecover?
    requires id in w.queue.items ==> Bounded(w.queue.items[id], 0)
    ensures Budget(Step(w, v).queue, id) <= Budget(w.queue, id)
    ensures id in w.queue.items
            && StatusAt(Step(w, v).queue, id) != StatusAt(w.queue, id) ==>
              Budget(Step(w, v).queue, id) < Budget(w.queue, id)
  {
    if id in w.queue.items {
      StepMoves(w, v, id);
    } else if id in Step(w, v).queue.items {
      NewRow(w, v, id);
    }
  }

  /** Without recovery: the cap holds, and the status changes at most
      2 * MAX_WORK_ATTEMPTS times in any run. */
  lemma {:induction false} RetriesTerminate(vs: seq<Verb>, id: WorkId)
    requires NoRecovery(vs)
    ensures id in Run(vs).queue.items ==> Run(vs).queue.items[id].attempt <= MAX_WORK_ATTEMPTS
    ensures Changes(vs, id) + Budget(Run(vs).queue, id) <= 2 * MAX_WORK_ATTEMPTS
  {
    NoRecoveryNoRequeue(vs, id);
    if id in Run(vs).queue.items {
      AttemptsBounded(vs, id);
    }
    if vs != [] {
      var w := Run(vs[..|vs|-1]);
      RetriesTerminate(vs[..|vs|-1], id);
      NoRecoveryNoRequeue(vs[..|vs|-1], id);
      RunStores(vs[..|vs|-1]);
      if id in w.queue.items {
        AttemptsBounded(vs[..|vs|-1], id);
      }
      StepSpends(w, vs[|vs|-1], id);
    }
  }

  // ------------------------------------------------- the cap and recovery

  /** The cap holds of a row, with an attempt left while it is queued, until the
      very step that recovers it from the lease of its last attempt. */
  lemma CapLostIff(w: World, v: Verb, id: WorkId)
    requires WellStored(w.queue) && id in w.queue.items && Bounded(w.queue.items[id], 0)
    ensures id in Step(w, v).queue.items
    ensures Bounded(Step(w, v).queue.items[id], 0)
            <==> !(v.DoRecover? && w.queue.items[id].status == Leased
                   && w.queue.items[id].attempt == MAX_WORK_ATTEMPTS)
  {
    StepMoves(w, v, id);
  }

  lemma OneMore(vs: seq<Verb>, v: Verb)
    ensures Run(vs + [v]) == Step(Run(vs), v)
  {
    assert (vs + [v])[..|vs|] == vs;
  }

  ghost predicate WithinCap(vs: seq<Verb>, id: WorkId) {
    id in Run(vs).queue.items ==> Bounded(Run(vs).queue.items[id], 0)
  }

  /** The k-th verb is a restart that finds the item in its last attempt. */
  ghost predicate RecoversLastAttempt(vs: seq<Verb>, k: nat, id: WorkId)
    requires k < |vs|
  {
    var items := Run(vs[..k]).queue.items;
    vs[k].DoRecover? && id in items && items[id].status == Leased
    && items[id].attempt == MAX_WORK_ATTEMPTS
  }

  lemma CapStep(vs: seq<Verb>, k: nat, id: WorkId)
    requires k < |vs| && WithinCap(vs[..k], id)
    ensures WithinCap(vs[..k+1], id) <==> !RecoversLastAttempt(vs, k, id)
  {
    assert vs[..k+1] == vs[..k] + [vs[k]];
    OneMore(vs[..k], vs[k]);
    RunStores(vs[..k]);
    if id in Run(vs[..k]).queue.items {
      CapLostIff(Run(vs[..k]), vs[k], id);
    } else if id in Run(vs[..k+1]).queue.items {
      NewRow(Run(vs[..k]), vs[k], id);
    }
  }

  lemma {:induction false} CapUpTo(vs: seq<Verb>, k: nat, id: WorkId)
    requires k <= |vs| && forall j :: 0 <= j < k ==> !RecoversLastAttempt(vs, j, id)
    ensures WithinCap(vs[..k], id)
  {
    if k > 0 {
      CapUpTo(vs, k - 1, id);
      CapStep(vs, k - 1, id);
    } else {
      assert vs[..0] == [];
    }
  }

  /** Along a run the cap holds throughout exactly if no restart ever finds the item
      leased for its last attempt. */
  lemma CapHoldsIff(vs: seq<Verb>, id: WorkId)
    ensures (forall k :: 0 <= k <= |vs| ==> WithinCap(vs[..k], id))
            <==> forall k :: 0 <= k < |vs| ==> !RecoversLastAttempt(vs, k, id)
  {
    if forall k :: 0 <= k <= |vs| ==> WithinCap(vs[..k], id) {
      forall k | 0 <= k < |vs| ensures !RecoversLastAttempt(vs, k, id) {
        assert WithinCap(vs[..k], id) && WithinCap(vs[..k+1], id);
        CapStep(vs, k, id);
      }
    }
    if forall k :: 0 <= k < |vs| ==> !RecoversLastAttempt(vs, k, id) {
      forall k | 0 <= k <= |vs| ensures WithinCap(vs[..k], id) {
        CapUpTo(vs, k, id);
      }
    }
  }

  /** Two attempts that expire, and a third; then restarts, each followed by a
      lease. */
  function WearOut(id: WorkId, n: nat): seq<Verb> {
    if n == 0 then
      [AdmitIt(id), LeaseIt(id), DoExpire(1), LeaseIt(id), DoExpire(1), LeaseIt(id)]
    else WearOut(id, n - 1) + [DoRecover, LeaseIt(id)]
  }

  function AdmitIt(id: WorkId): Verb {
    DoAdmit(id, Request("user", 0, [], Grant("", false, "none")), ForAdmit(id), 0)
  }

  function LeaseIt(id: WorkId): Verb {
    DoLease(id, None, Some(id), 0)
  }

  /** The only item stored, in the given state. */
  ghost predicate Alone(q: Queue, id: WorkId, status: Status, attempts: nat, requeues: nat) {
    q.order == [id] && q.items.Keys == {id}
    && q.items[id].status == status && q.items[id].dependsOn == []
    && q.items[id].attempt == attempts
    && (status == Leased ==> q.items[id].expires == Some(0))
    && Requeues(q.log, id) == requeues
  }

  lemma LeaseAlone(w: World, id: WorkId, n: nat, requeues: nat)
    requires Alone(w.queue, id, Queued, n, requeues)
    ensures Alone(Step(w, LeaseIt(id)).queue, id, Leased, n + 1, requeues)
  {
    var q := w.queue;
    assert q.order[1..] == [];
    assert Select(q.items, q.order, None, Some(id)) == [id];
    assert SortRows(q.items, [id]) == [id];
    assert FirstReady(q.items, [id]) == Some(id);
    var r := Lease(q, id, None, Some(id), 0).0;
    assert r.items[id] == q.items[id].Apply(TakeLease(id, 0));
    assert r.log[..|q.log|] == q.log;
  }

  lemma ExpireAlone(w: World, id: WorkId, n: nat, requeues: nat)
    requires Alone(w.queue, id, Leased, n, requeues) && n < MAX_WORK_ATTEMPTS
    ensures Alone(Step(w, DoExpire(1)).queue, id, Queued, n, requeues)
  {
    var q := w.queue;
    assert q.order[1..] == [];
    assert OverdueIds(q.items, q.order, 1) == [id];
    var e := LeaseExpired(id, q.items[id].owner, n, false);
    assert [id][..0] == [];
    assert ExpiryEvents(q.items, [id]) == [e];
    assert (q.log + [e])[..|q.log|] == q.log;
  }

  lemma RecoverAlone(w: World, id: WorkId, n: nat, requeues: nat)
    requires Alone(w.queue, id, Leased, n, requeues)
    ensures Alone(Step(w, DoRecover).queue, id, Queued, n, requeues + 1)
  {
    var q := w.queue;
    assert q.order[1..] == [];
    assert LeasedIds(q.items, q.order) == [id];
    var e := Recovery([id]);
    assert (q.log + [e, RunStarted])[..|q.log| + 1] == q.log + [e];
    assert (q.log + [e])[..|q.log|] == q.log;
  }

  ghost predicate Reaches(vs: seq<Verb>, id: WorkId, status: Status, attempts: nat,
                          requeues: nat)
  {
    Alone(Run(vs).queue, id, status, attempts, requeues)
  }

  /** The same run with one lease, one expiry or one restart more. */
  lemma ThenLease(vs: seq<Verb>, more: seq<Verb>, id: WorkId, n: nat, requeues: nat)
    requires Reaches(vs, id, Queued, n, requeues) && more == vs + [LeaseIt(id)]
    ensures Reaches(more, id, Leased, n + 1, requeues)
  {
    OneMore(vs, LeaseIt(id));
    LeaseAlone(Run(vs), id, n, requeues);
  }

  lemma ThenExpire(vs: seq<Verb>, more: seq<Verb>, id: WorkId, n: nat, requeues: nat)
    requires Reaches(vs, id, Leased, n, requeues) && n < MAX_WORK_ATTEMPTS
    requires more == vs + [DoExpire(1)]
    ensures Reaches(more, id, Queued, n, requeues)
  {
    OneMore(vs, DoExpire(1));
    ExpireAlone(Run(vs), id, n, requeues);
  }

  lemma ThenRecover(vs: seq<Verb>, more: seq<Verb>, id: WorkId, n: nat, requeues: nat)
    requires Reaches(vs, id, Leased, n, requeues) && more == vs + [DoRecover]
    ensures Reaches(more, id, Queued, n, requeues + 1)
  {
    OneMore(vs, DoRecover);
    RecoverAlone(Run(vs), id, n, requeues);
  }

  lemma AdmitAlone(id: WorkId)
    ensures Alone(Step(START, AdmitIt(id)).queue, id, Queued, 0, 0)
  {
    var v := AdmitIt(id);
    assert v.req.workClass in WORK_CLASSES && v.req.grant.boardAccess in BOARD_ACCESS;
    assert forall d :: d !in v.req.dependsOn;
    var q := Step(START, v).queue;
    assert q.order == [id] && q.log == [WorkAdmitted(id)];
    assert q.log[..0] == [];
  }

  lemma NothingRun()
    ensures Run([]) == START
  {
  }

  lemma ThenAdmit(only: seq<Verb>, id: WorkId)
    requires only == [AdmitIt(id)]
    ensures Reaches(only, id, Queued, 0, 0)
  {
    var none: seq<Verb> := [];
    assert only == none + [AdmitIt(id)];
    OneMore(none, AdmitIt(id));
    NothingRun();
    AdmitAlone(id);
  }

  lemma OneAttempt(vs: seq<Verb>, more: seq<Verb>, id: WorkId, n: nat)
    requires Reaches(vs, id, Queued, n, 0) && n + 1 < MAX_WORK_ATTEMPTS
    requires more == vs + [LeaseIt(id), DoExpire(1)]
    ensures Reaches(more, id, Queued, n + 1, 0)
  {
    var leased := vs + [LeaseIt(id)];
    assert more == leased + [DoExpire(1)];
    ThenLease(vs, leased, id, n, 0);
    ThenExpire(leased, more, id, n + 1, 0);
  }

  lemma LastAttempt(id: WorkId)
    ensures Reaches(WearOut(id, 0), id, Leased, MAX_WORK_ATTEMPTS, 0)
  {
    var vs := WearOut(id, 0);
    ThenAdmit(vs[..1], id);
    assert vs[..1] == [AdmitIt(id)] && vs[..3] == vs[..1] + [LeaseIt(id), DoExpire(1)];
    assert vs[..5] == vs[..3] + [LeaseIt(id), DoExpire(1)] && vs == vs[..5] + [LeaseIt(id)];
    OneAttempt(vs[..1], vs[..3], id, 0);
    OneAttempt(vs[..3], vs[..5], id, 1);
    ThenLease(vs[..5], vs, id, 2, 0);
  }

  lemma OneRestart(vs: seq<Verb>, more: seq<Verb>, id: WorkId, n: nat, requeues: nat)
    requires Reaches(vs, id, Leased, n, requeues) && more == vs + [DoRecover, LeaseIt(id)]
    ensures Reaches(more, id, Leased, n + 1, requeues + 1)
  {
    var restarted := vs + [DoRecover];
    assert more == restarted + [LeaseIt(id)];
    ThenRecover(vs, restarted, id, n, requeues);
    ThenLease(restarted, more, id, n, requeues + 1);
  }

  /** The bound is attained: for every n some run ends with the item leased for the
      attempt n past the cap, requeued by exactly n recoveries. So the cap alone
      bounds nothing once recoveries happen, and no smaller bound than the cap plus
      the recoveries holds. */
  lemma {:induction false} RecoveryIgnoresTheCap(id: WorkId, n: nat)
    ensures Reaches(WearOut(id, n), id, Leased, MAX_WORK_ATTEMPTS + n, n)
  {
    if n == 0 {
      LastAttempt(id);
    } else {
      RecoveryIgnoresTheCap(id, n - 1);
      OneRestart(WearOut(id, n - 1), WearOut(id, n), id, MAX_WORK_ATTEMPTS + n - 1, n - 1);
    }
  }
}
