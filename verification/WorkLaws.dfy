/**
  What each verb of the queue does, written out on the stored columns, and what the
  admission request of an item decides for the rest of its life.
 */
module WorkLaws {
  import opened Outcomes
  import opened WorkQueue
  import opened WorkRuns
  import opened WorkDependencies
  import opened Dispatch

  // ------------------------------------------------- admission

  /** A request that may be admitted. */
  predicate Admissible(q: Queue, req: Request) {
    req.workClass in {"user", "maintenance"}
    && req.grant.boardAccess in {"none", "read", "read_write"}
    && forall d :: d in req.dependsOn ==> d in q.items
  }

  /** The row an admission stores: the request as it was made, queued, never leased. */
  predicate Admitted(x: Item, req: Request, now: Time) {
    x.dependsOn == req.dependsOn && x.workClass == req.workClass && x.priority == req.priority
    && x.grant.objective == req.grant.objective
    && x.grant.sandboxAllowed == req.grant.sandboxAllowed
    && x.grant.boardAccess == req.grant.boardAccess
    && x.createdAt == now && x.status == Queued && x.attempt == 0 && x.token == 0
    && x.owner == None && x.expires == None && x.result == None && x.failure == None
  }

  lemma AdmissionStores(q: Queue, id: WorkId, req: Request, mid: MutationId, now: Time)
    ensures var (r, out) := Admit(q, id, req, mid, now);
            (out == Refused(InvalidInput) <==> !Admissible(q, req))
            && (out == Replayed <==> Admissible(q, req) && mid in q.receipts)
            && (out == Committed <==>
                  Admissible(q, req) && mid !in q.receipts && id !in q.items)
            && (out != Committed ==> r == q)
            && (out == Committed ==>
                  id in r.items && Admitted(r.items[id], req, now)
                  && r.items.Keys == q.items.Keys + {id}
                  && (forall x :: x in q.items ==> r.items[x] == q.items[x])
                  && r.order == q.order + [id] && r.log == q.log + [WorkAdmitted(id)]
                  && r.receipts == q.receipts + {mid})
  {
  }

  // ------------------------------------------------- verbs on one row

  /** One stored row replaced, with these events, and nothing else touched. */
  predicate OneRow(q: Queue, r: Queue, id: WorkId, x: Item, events: seq<Event>) {
    id in q.items && r.items == q.items[id := x] && r.order == q.order
    && r.log == q.log + events
  }

  /** A lease goes to a queued row of the class and id asked for, all of whose
      dependencies are done, for the neuocyte and the time asked for. */
  lemma LeaseHandsOver(q: Queue, n: string, cls: Option<string>, wid: Option<WorkId>, until: Time)
    ensures var (r, pick) := Lease(q, n, cls, wid, until);
            (pick.None? ==> r == q)
            && (pick.Some? ==>
                  var id := pick.value;
                  id in q.items
                  && var x := q.items[id];
                     x.status == Queued && (cls.Some? ==> x.workClass == cls.value)
                     && (wid.Some? ==> id == wid.value)
                     && (forall d :: d in x.dependsOn ==>
                           d in q.items && q.items[d].status == Done)
                     && OneRow(q, r, id,
                               x.(status := Leased, owner := Some(n), expires := Some(until),
                                  attempt := x.attempt + 1, token := x.token + 1),
                               [WorkLeased(id, n, x.token + 1, x.attempt + 1, until)])
                     && r.receipts == q.receipts)
  {
    LeasePicks(q, cls, wid, LEASE_WINDOW);
    var pick := Lease(q, n, cls, wid, until).1;
    if pick.Some? {
      forall d | d in q.items[pick.value].dependsOn ensures IsDone(q.items, d) {
      }
    }
  }

  /** The caller holds the lease of the row, under its current token. */
  predicate HolderOf(q: Queue, id: WorkId, n: string, presented: int) {
    id in q.items && q.items[id].status == Leased && q.items[id].owner == Some(n)
    && q.items[id].token == presented
  }

  lemma RenewalMovesDeadline(q: Queue, id: WorkId, n: string, presented: int, until: Time)
    ensures var (r, ok) := RenewLease(q, id, n, presented, until);
            (ok <==> HolderOf(q, id, n, presented)) && r.receipts == q.receipts
            && if ok then OneRow(q, r, id, q.items[id].(expires := Some(until)), [])
               else r == q
  {
  }

  lemma AuthorisesHolder(q: Queue, id: WorkId, n: string, presented: int)
    ensures var r := Authorise(q, id, n, presented);
            (r.Ok? <==> HolderOf(q, id, n, presented))
            && (r.Ok? ==> r.value == q.items[id].grant)
            && (r == Err(NotFound) <==> id !in q.items)
            && (r.Err? ==> r.error == NotFound || r.error == Fenced)
  {
  }

  lemma CompletionStores(q: Queue, id: WorkId, n: string, presented: int, blob: string)
    ensures var (r, out) := Complete(q, id, n, presented, blob);
            var mid := ForComplete(id, presented);
            (out == Replayed <==> mid in q.receipts)
            && (out == Refused(NotFound) <==> mid !in q.receipts && id !in q.items)
            && (out == Committed <==>
                  mid !in q.receipts && id in q.items && q.items[id].token == presented
                  && (q.items[id].status == Queued || q.items[id].status == Leased))
            && (out == Replayed || out == Refused(NotFound) ==> r == q)
            && (out == Committed ==>
                  OneRow(q, r, id, q.items[id].(status := Done, result := Some(blob),
                                                owner := None, expires := None),
                         [WorkCompleted(id, n, blob, presented)])
                  && r.receipts == q.receipts + {mid})
            && (out.Refused? && id in q.items ==>
                  out.error == Fenced
                  && r == q.(log := q.log + [ResultFenced(id, n, presented)]))
  {
  }

  lemma FailureStores(q: Queue, id: WorkId, n: string, presented: int, text: string,
                      requeue: bool)
    ensures var (r, out) := Fail(q, id, n, presented, text, requeue);
            var mid := ForFail(id, presented);
            (out == Replayed <==> mid in q.receipts)
            && (out == Refused(NotFound) <==> mid !in q.receipts && id !in q.items)
            && (out == Committed <==>
                  mid !in q.receipts && id in q.items && q.items[id].token == presented
                  && q.items[id].status == Leased)
            && (out == Replayed || out == Refused(NotFound) ==> r == q)
            && (out == Committed ==>
                  var again := requeue && q.items[id].attempt < 3;
                  OneRow(q, r, id, q.items[id].(status := if again then Queued else Failed,
                                                failure := Some(Reported(text)),
                                                owner := None, expires := None),
                         [WorkFailed(id, Some(n), again)])
                  && r.receipts == q.receipts + {mid})
            && (out.Refused? && id in q.items ==>
                  out.error == Fenced
                  && r == q.(log := q.log + [ResultFenced(id, n, presented)]))
  {
  }

  lemma CancellationStores(q: Queue, id: WorkId, reason: string)
    ensures var (r, out) := Cancel(q, id, reason);
            (out == Replayed <==> ForCancel(id) in q.receipts)
            && (out != Replayed ==> out == Committed) && (out == Replayed ==> r == q)
            && (out == Committed ==>
                  r.log == q.log + [WorkCancelled(id, reason)] && r.order == q.order
                  && r.receipts == q.receipts + {ForCancel(id)}
                  && r.items
                     == if id in q.items
                           && (q.items[id].status == Queued || q.items[id].status == Leased)
                        then q.items[id := q.items[id].(
                               status := Cancelled, failure := Some(CalledOff(reason)),
                               owner := None, expires := None, token := q.items[id].token + 1)]
                        else q.items)
  {
  }

  /** The write of one scanned row, whenever it comes. */
  lemma RetirementStores(q: Queue, b: Blocked)
    ensures var r := RetireOne(q, b);
            r.log == q.log + [WorkFailed(b.id, None, false)] && r.order == q.order
            && r.receipts == q.receipts
            && r.items == if b.id in q.items && q.items[b.id].status == Queued
                          then q.items[b.id := q.items[b.id].(
                                 status := Failed, failure := Some(DeadDependencies(b.dead)),
                                 owner := None, expires := None)]
                          else q.items
  {
  }

  // ------------------------------------------------- verbs on many rows

  /** A lease is over when its deadline is strictly past. Its attempt is then spent
      like a reported one; the third ends the item. */
  lemma ExpiryStores(q: Queue, now: Time, id: WorkId)
    requires WellStored(q) && id in q.items
    ensures var (r, ids) := ExpireLeases(q, now);
            var x := q.items[id];
            var over := x.status == Leased && x.expires.Some? && x.expires.value < now;
            (id in ids <==> over)
            && r.items.Keys == q.items.Keys && r.order == q.order && r.receipts == q.receipts
            && r.items[id]
               == if !over then x
                  else if x.attempt >= 3
                  then x.(status := Failed, owner := None, expires := None,
                          token := x.token + 1, failure := Some(LeasesExpired))
                  else x.(status := Queued, owner := None, expires := None, token := x.token + 1)
  {
    OverdueIdsAre(q.items, q.order, now);
  }

  lemma {:induction false} ExpiryEventsSay(items: map<WorkId, Item>, ids: seq<WorkId>, e: Event)
    requires forall x :: x in ids ==> x in items
    ensures e in ExpiryEvents(items, ids) <==>
              (e.LeaseExpired? && e.id in ids && e.priorOwner == items[e.id].owner
               && e.attempt == items[e.id].attempt && e.retired == (items[e.id].attempt >= 3))
              || (e.WorkFailed? && e.id in ids && e.reporter == items[e.id].owner
                  && !e.requeued && items[e.id].attempt >= 3)
  {
    if ids != [] {
      ExpiryEventsSay(items, ids[..|ids|-1], e);
      assert ids == ids[..|ids|-1] + [ids[|ids|-1]];
    }
  }

  /** What an expiry logs: for each lease that is over, who held it and at which
      attempt, and that the item failed if that was the third. */
  lemma ExpiryLogs(q: Queue, now: Time, e: Event)
    requires WellStored(q)
    ensures var (r, ids) := ExpireLeases(q, now);
            |q.log| <= |r.log| && r.log[..|q.log|] == q.log
            && (forall x :: x in ids ==> x in q.items)
            && (e in r.log[|q.log|..] <==>
                  (e.LeaseExpired? && e.id in ids && e.priorOwner == q.items[e.id].owner
                   && e.attempt == q.items[e.id].attempt
                   && e.retired == (q.items[e.id].attempt >= 3))
                  || (e.WorkFailed? && e.id in ids && e.reporter == q.items[e.id].owner
                      && !e.requeued && q.items[e.id].attempt >= 3))
  {
    OverdueIdsAre(q.items, q.order, now);
    ExpiryEventsSay(q.items, OverdueIds(q.items, q.order, now), e);
    assert ExpireLeases(q, now).0.log[|q.log|..]
           == ExpiryEvents(q.items, OverdueIds(q.items, q.order, now));
  }

  /** A restart requeues every lease, at any attempt, under a new token. */
  lemma RecoveryStores(q: Queue, id: WorkId)
    requires WellStored(q) && id in q.items
    ensures var r := Recover(q);
            var x := q.items[id];
            r.items.Keys == q.items.Keys && r.order == q.order && r.receipts == q.receipts
            && |r.log| == |q.log| + 2 && r.log[..|q.log|] == q.log
            && r.log[|q.log|].Recovery? && r.log[|q.log|+1] == RunStarted
            && (id in r.log[|q.log|].requeuedWork <==> x.status == Leased)
            && r.items[id]
               == if x.status == Leased
                  then x.(status := Queued, owner := None, expires := None, token := x.token + 1)
                  else x
  {
    LeasedIdsAre(q.items, q.order);
  }

  // ------------------------------------------------- dispatch

  /** `id` is queued, of the class, and all its dependencies are done. */
  predicate Waiting(q: Queue, id: WorkId, cls: string) {
    id in q.items && q.items[id].status == Queued && q.items[id].workClass == cls
    && forall d :: d in q.items[id].dependsOn ==> d in q.items && q.items[d].status == Done
  }

  /** Queued rows of the class with a higher priority, or as high and not younger. */
  function AsUrgent(q: Queue, id: WorkId, cls: string): set<WorkId>
    requires id in q.items
  {
    set x | x in q.items && x != id && q.items[x].status == Queued
            && q.items[x].workClass == cls
            && (q.items[x].priority > q.items[id].priority
                || (q.items[x].priority == q.items[id].priority
                    && q.items[x].createdAt <= q.items[id].createdAt))
  }

  lemma WaitingIsClaimable(q: Queue, id: WorkId, cls: string)
    ensures Waiting(q, id, cls) <==> Claimable(q, id, Some(cls))
  {
    if Waiting(q, id, cls) {
      forall d | d in q.items[id].dependsOn ensures IsDone(q.items, d) {
      }
    }
    if Claimable(q, id, Some(cls)) {
      forall d | d in q.items[id].dependsOn ensures IsDone(q.items, d) {
      }
    }
  }

  lemma AheadIsUrgent(q: Queue, id: WorkId, cls: string)
    requires id in q.items
    ensures Ahead(q, id, Some(cls)) <= AsUrgent(q, id, cls)
    ensures |Ahead(q, id, Some(cls))| <= |AsUrgent(q, id, cls)|
  {
    var few, many := Ahead(q, id, Some(cls)), AsUrgent(q, id, cls);
    assert |many - few| == |many| - |few|;
  }

  /** Dispatch in terms of the columns: what it names waits, no waiting item of the
      class has a higher priority, or the same and an earlier admission; and it names
      something whenever some waiting item has fewer than fifty as urgent. */
  lemma DispatchServesMostUrgent(vs: seq<Verb>, cls: string, other: WorkId)
    ensures var q := Run(vs).queue;
            var next := NextReady(q, cls);
            (next.Some? ==>
               Waiting(q, next.value, cls)
               && (Waiting(q, other, cls) ==>
                     q.items[next.value].priority > q.items[other].priority
                     || (q.items[next.value].priority == q.items[other].priority
                         && q.items[next.value].createdAt <= q.items[other].createdAt)))
            && (Waiting(q, other, cls) && |AsUrgent(q, other, cls)| < 50 ==> next.Some?)
  {
    var q := Run(vs).queue;
    DispatchServesFirstReady(vs, cls);
    WaitingIsClaimable(q, other, cls);
    if NextReady(q, cls).Some? {
      WaitingIsClaimable(q, NextReady(q, cls).value, cls);
    }
    if Waiting(q, other, cls) {
      AheadIsUrgent(q, other, cls);
    }
  }

  /** A lease that names no item claims what dispatch names, unless twenty are as
      urgent. */
  lemma LeaseServesMostUrgent(vs: seq<Verb>, cls: string, n: string, until: Time)
    ensures var q := Run(vs).queue;
            var next := NextReady(q, cls);
            next.Some? ==>
              next.value in q.items
              && (|AsUrgent(q, next.value, cls)| < 20 ==>
                    Lease(q, n, Some(cls), None, until).1 == next)
  {
    var q := Run(vs).queue;
    DispatchServesFirstReady(vs, cls);
    if NextReady(q, cls).Some? {
      var id := NextReady(q, cls).value;
      UntargetedLeaseSeesTwenty(vs, cls, n, until, id);
      AheadIsUrgent(q, id, cls);
    }
  }

  // ------------------------------------------------- what the request decides

  /** The k-th verb of the run admitted `id`. */
  ghost predicate AdmittedAt(vs: seq<Verb>, k: nat, id: WorkId) {
    k < |vs| && vs[k].DoAdmit? && vs[k].id == id
    && Admit(Run(vs[..k]).queue, id, vs[k].req, vs[k].mid, vs[k].now).1 == Committed
  }

  /** The row still says what its admission asked for. */
  ghost predicate AsRequested(x: Item, v: Verb)
    requires v.DoAdmit?
  {
    x.dependsOn == v.req.dependsOn && x.workClass == v.req.workClass
    && x.priority == v.req.priority && x.grant == v.req.grant && x.createdAt == v.now
  }

  lemma NextVerb(vs: seq<Verb>)
    requires vs != []
    ensures Run(vs) == Step(Run(vs[..|vs|-1]), vs[|vs|-1])
  {
  }

  /** Every stored item goes back to one admission, and still says what that asked
      for. */
  lemma {:induction false} RequestStays(vs: seq<Verb>, id: WorkId) returns (k: nat)
    requires id in Run(vs).queue.items
    ensures AdmittedAt(vs, k, id) && AsRequested(Run(vs).queue.items[id], vs[k])
  {
    var before := vs[..|vs|-1];
    NextVerb(vs);
    RunStores(before);
    if id in Run(before).queue.items {
      k := RequestStays(before, id);
      StepMoves(Run(before), vs[|vs|-1], id);
      assert vs[..k] == before[..k];
    } else {
      k := |vs| - 1;
      NewRow(Run(before), vs[k], id);
      AdmissionStores(Run(before).queue, id, vs[k].req, vs[k].mid, vs[k].now);
    }
  }

  /** There is no second one. */
  lemma OneAdmission(vs: seq<Verb>, j: nat, k: nat, id: WorkId)
    requires AdmittedAt(vs, j, id) && AdmittedAt(vs, k, id)
    ensures j == k
  {
    if j < k {
      AdmittedStays(vs, j, k, id);
    } else if k < j {
      AdmittedStays(vs, k, j, id);
    }
  }

  lemma AdmittedStays(vs: seq<Verb>, j: nat, k: nat, id: WorkId)
    requires AdmittedAt(vs, j, id) && j < k <= |vs|
    ensures id in Run(vs[..k]).queue.items
  {
    assert vs[..j+1][..j] == vs[..j];
    NextVerb(vs[..j+1]);
    RunAppend(START, vs[..j+1], vs[j+1..k]);
    assert vs[..k] == vs[..j+1] + vs[j+1..k];
    RowsStay(Run(vs[..j+1]), vs[j+1..k], id);
  }

  /** No run leases an item before every dependency named in its admission request is
      done; and they are done from then on. */
  lemma NeverLeasedEarly(vs: seq<Verb>, k: nat, id: WorkId, d: WorkId)
    requires AdmittedAt(vs, k, id) && d in vs[k].req.dependsOn
    ensures id in Run(vs).queue.items
    ensures Run(vs).queue.items[id].attempt > 0 ==>
              d in Run(vs).queue.items && Run(vs).queue.items[d].status == Done
    ensures forall n, cls, wid, until ::
              Lease(Run(vs).queue, n, cls, wid, until).1 == Some(id) ==>
                d in Run(vs).queue.items && Run(vs).queue.items[d].status == Done
  {
    AdmittedStays(vs, k, |vs|, id);
    assert vs[..|vs|] == vs;
    var j := RequestStays(vs, id);
    OneAdmission(vs, j, k, id);
    RunDeps(vs);
    var q := Run(vs).queue;
    if q.items[id].attempt > 0 {
      assert AllDone(q.items, q.items[id].dependsOn);
      assert IsDone(q.items, d);
    }
    forall n, cls, wid, until | Lease(q, n, cls, wid, until).1 == Some(id)
      ensures d in q.items && q.items[d].status == Done
    {
      LeaseHandsOver(q, n, cls, wid, until);
    }
  }

  /** What a lease holder is authorised to do is what the item was admitted with. */
  lemma AuthorisedAsAdmitted(vs: seq<Verb>, k: nat, id: WorkId, n: string, presented: int)
    requires AdmittedAt(vs, k, id)
    ensures var r := Authorise(Run(vs).queue, id, n, presented);
            r.Ok? ==> r.value == vs[k].req.grant
  {
    var r := Authorise(Run(vs).queue, id, n, presented);
    if r.Ok? {
      var j := RequestStays(vs, id);
      OneAdmission(vs, j, k, id);
    }
  }
}
