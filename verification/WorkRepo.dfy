/**
  The leased work queue as the repository runs it: one object whose tables its
  methods update in place. Each method is tied to the verb of the same name in
  `WorkQueue`.
 */
module WorkRepo {
  import opened Outcomes
  import opened WorkQueue

  class Repo {
    var items: map<WorkId, Item>
    var order: seq<WorkId>
    var log: seq<Event>
    var receipts: set<MutationId>

    function State(): Queue
      reads this
    {
      Queue(items, order, log, receipts)
    }

    ghost predicate Valid()
      reads this
    {
      WellStored(State())
    }

    constructor ()
      ensures Valid() && State() == EMPTY
    {
      items, order, log, receipts := map[], [], [], {};
    }

    /** What each dependency is now; None if there is no such row. */
    method DepStates(deps: seq<WorkId>) returns (states: map<WorkId, Option<Status>>)
      ensures forall d :: d in states <==> d in deps
      ensures forall d :: d in states ==>
                states[d] == if d in items then Some(items[d].status) else None
    {
      states := map[];
      for k := 0 to |deps|
        invariant forall d :: d in states <==> d in deps[..k]
        invariant forall d :: d in states ==>
                    states[d] == if d in items then Some(items[d].status) else None
      {
        states := states[deps[k] := if deps[k] in items then Some(items[deps[k]].status) else None];
      }
    }

    /** The dispatcher's question: is every recorded dependency state `done`? */
    method Ready(deps: seq<WorkId>) returns (ready: bool)
      ensures ready <==> AllDone(items, deps)
    {
      var states := DepStates(deps);
      ready := forall d :: d in states ==> states[d] == Some(Done);
      assert ready ==> forall d :: d in deps ==> d in states;
    }

    /** The lease's question, asked row by row with an early exit. */
    method DepsSatisfied(deps: seq<WorkId>) returns (satisfied: bool)
      ensures satisfied <==> AllDone(items, deps)
    {
      for k := 0 to |deps|
        invariant AllDone(items, deps[..k])
      {
        if deps[k] !in items || items[deps[k]].status != Done {
          assert deps[k] in deps && !IsDone(items, deps[k]);
          return false;
        }
      }
      return true;
    }

    method UnreachableDeps(deps: seq<WorkId>) returns (dead: set<WorkId>)
      ensures dead == DeadDeps(items, deps)
    {
      var states := DepStates(deps);
      dead := set d | d in states
                      && (states[d] == None || states[d] == Some(Failed)
                          || states[d] == Some(Cancelled));
    }

    /** Returns the id the caller drew, even when the mutation is a replay and no
        row has that id. */
    method Admit(id: WorkId, req: Request, mid: MutationId, now: Time)
      returns (workId: WorkId, r: Outcome)
      requires Valid()
      modifies this
      ensures Valid()
      ensures (State(), r) == WorkQueue.Admit(old(State()), id, req, mid, now)
      ensures workId == id
    {
      if req.workClass !in WORK_CLASSES || req.grant.boardAccess !in BOARD_ACCESS {
        return id, Refused(InvalidInput);
      }
      var states := DepStates(req.dependsOn);
      var unknown := set d | d in states && states[d] == None;
      if unknown != {} {
        ghost var d :| d in unknown;
        assert d in req.dependsOn && d !in items;
        return id, Refused(InvalidInput);
      }
      assert forall d :: d in req.dependsOn ==> d in states && d in items by {
        forall d | d in req.dependsOn ensures d in items {
          assert d !in unknown;
        }
      }
      if mid in receipts {
        return id, Replayed;
      }
      if id in items {
        return id, Refused(Conflict);
      }
      AdmitStores(State(), id, req, mid, now);
      items := items[id := NewItem(|order|, req, now)];
      order := order + [id];
      log := log + [WorkAdmitted(id)];
      receipts := receipts + {mid};
      return id, Committed;
    }

    /** Claim the first ready row of the window. */
    method Lease(neuocyte: string, workClass: Option<string>, workId: Option<WorkId>,
                 until: Time) returns (claimed: Option<WorkId>)
      requires Valid()
      modifies this
      ensures Valid()
      ensures (State(), claimed) == WorkQueue.Lease(old(State()), neuocyte, workClass, workId, until)
    {
      var rows := Window(State(), workClass, workId, LEASE_WINDOW);
      claimed := FirstSatisfied(rows);
      if claimed.Some? && claimed.value in items {
        Claim(claimed.value, neuocyte, until);
      } else {
        claimed := None;
      }
    }

    method FirstSatisfied(rows: seq<WorkId>) returns (first: Option<WorkId>)
      ensures first == FirstReady(items, rows)
    {
      for k := 0 to |rows|
        invariant FirstReady(items, rows) == FirstReady(items, rows[k..])
      {
        if rows[k] in items {
          var satisfied := DepsSatisfied(items[rows[k]].dependsOn);
          if satisfied {
            return Some(rows[k]);
          }
        }
      }
      return None;
    }

    method Claim(id: WorkId, neuocyte: string, until: Time)
      requires Valid() && id in items
      modifies this`items, this`log
      ensures Valid()
      ensures State() == Update(old(State()), id, TakeLease(neuocyte, until),
                                [WorkLeased(id, neuocyte, old(items)[id].token + 1,
                                            old(items)[id].attempt + 1, until)])
    {
      var x := items[id];
      ghost var events := [WorkLeased(id, neuocyte, x.token + 1, x.attempt + 1, until)];
      UpdateStores(State(), id, TakeLease(neuocyte, until), events);
      items := items[id := x.Apply(TakeLease(neuocyte, until))];
      log := log + [WorkLeased(id, neuocyte, x.token + 1, x.attempt + 1, until)];
    }

    method NextReady(workClass: string) returns (next: Option<WorkId>)
      ensures next == WorkQueue.NextReady(State(), workClass)
    {
      var rows := Window(State(), Some(workClass), None, DISPATCH_WINDOW);
      for k := 0 to |rows|
        invariant FirstReady(items, rows) == FirstReady(items, rows[k..])
      {
        if rows[k] in items {
          var ready := Ready(items[rows[k]].dependsOn);
          if ready {
            return Some(rows[k]);
          }
        }
      }
      return None;
    }

    method RenewLease(id: WorkId, neuocyte: string, presented: int, until: Time)
      returns (renewed: bool)
      requires Valid()
      modifies this`items
      ensures Valid()
      ensures (State(), renewed) ==
              WorkQueue.RenewLease(old(State()), id, neuocyte, presented, until)
    {
      renewed := id in items && items[id].Holds(neuocyte, presented);
      if renewed {
        items := items[id := items[id].Apply(Renew(until))];
        assert log + [] == log;
      }
    }

    method AuthoriseToolCall(id: WorkId, neuocyte: string, presented: int)
      returns (r: Result<Grant, Error>)
      ensures r.Ok? <==> id in items && items[id].Holds(neuocyte, presented)
      ensures r.Ok? ==> r.value == items[id].grant
      ensures r == Authorise(State(), id, neuocyte, presented)
    {
      if id !in items {
        return Err(NotFound);
      }
      var row := items[id];
      if row.status != Leased || row.owner != Some(neuocyte) || row.token != presented {
        return Err(Fenced);
      }
      return Ok(row.grant);
    }

    method Complete(id: WorkId, neuocyte: string, presented: int, blob: string)
      returns (r: Outcome)
      requires Valid()
      modifies this
      ensures Valid()
      ensures (State(), r) == WorkQueue.Complete(old(State()), id, neuocyte, presented, blob)
    {
      if ForComplete(id, presented) in receipts {
        return Replayed;
      }
      if id !in items {
        return Refused(NotFound);
      }
      if items[id].token != presented || items[id].status.Terminal() {
        log := log + [ResultFenced(id, neuocyte, presented)];
        return Refused(Fenced);
      }
      items := items[id := items[id].Apply(Finish(blob))];
      log := log + [WorkCompleted(id, neuocyte, blob, presented)];
      receipts := receipts + {ForComplete(id, presented)};
      return Committed;
    }

    method Fail(id: WorkId, neuocyte: string, presented: int, text: string, requeue: bool)
      returns (r: Outcome)
      requires Valid()
      modifies this
      ensures Valid()
      ensures (State(), r) == WorkQueue.Fail(old(State()), id, neuocyte, presented, text, requeue)
    {
      if ForFail(id, presented) in receipts {
        return Replayed;
      }
      if id !in items {
        return Refused(NotFound);
      }
      var row := items[id];
      if row.token != presented || row.status != Leased {
        log := log + [ResultFenced(id, neuocyte, presented)];
        return Refused(Fenced);
      }
      items := items[id := row.Apply(Report(text, requeue))];
      log := log + [WorkFailed(id, Some(neuocyte), items[id].status == Queued)];
      receipts := receipts + {ForFail(id, presented)};
      return Committed;
    }

    method Cancel(id: WorkId, reason: string) returns (r: Outcome)
      requires Valid()
      modifies this
      ensures Valid()
      ensures (State(), r) == WorkQueue.Cancel(old(State()), id, reason)
    {
      if ForCancel(id) in receipts {
        return Replayed;
      }
      if id in items && !items[id].status.Terminal() {
        items := items[id := items[id].Apply(CallOff(reason))];
      }
      log := log + [WorkCancelled(id, reason)];
      receipts := receipts + {ForCancel(id)};
      return Committed;
    }

    /** One overdue row: back to the queue, or failed once its attempts are spent. */
    method ExpireRow(id: WorkId)
      requires id in items
      modifies this`items, this`log
      ensures items == old(items)[id := old(items)[id].Apply(Expire)]
      ensures log == old(log) + ExpiryEventsOf(id, old(items)[id])
    {
      var row := items[id];
      items := items[id := row.Apply(Expire)];
      log := log + [LeaseExpired(id, row.owner, row.attempt, row.Spent())];
      if row.Spent() {
        log := log + [WorkFailed(id, row.owner, false)];
      }
    }

    method ExpireRows(rows: seq<WorkId>)
      requires Distinct(rows) && forall id :: id in rows ==> id in items
      modifies this`items, this`log
      ensures items == MoveAll(old(items), rows, Expire)
      ensures log == old(log) + ExpiryEvents(old(items), rows)
    {
      ghost var was := items;
      MoveAllNone(was, Expire);
      for k := 0 to |rows|
        invariant items == MoveAll(was, rows[..k], Expire)
        invariant log == old(log) + ExpiryEvents(was, rows[..k])
      {
        MoveAllNext(was, rows, k, Expire);
        ExpiryEventsNext(was, rows, k);
        ghost var before := items;
        ExpireRow(rows[k]);
        assert items == before[rows[k] := before[rows[k]].Apply(Expire)];
      }
      assert rows[..|rows|] == rows;
    }

    method ExpireLeases(now: Time) returns (expired: seq<WorkId>)
      requires Valid()
      modifies this`items, this`log
      ensures Valid()
      ensures (State(), expired) == WorkQueue.ExpireLeases(old(State()), now)
    {
      expired := OverdueIds(items, order, now);
      OverdueIdsAre(items, order, now);
      OverdueIdsDistinct(items, order, now);
      ExpireRows(expired);
      MoveAllKeepsTable(old(State()), expired, Expire);
    }

    /** The work step of recovery after a restart. */
    method Recover()
      requires Valid()
      modifies this`items, this`log
      ensures Valid()
      ensures State() == WorkQueue.Recover(old(State()))
    {
      var rows := LeasedIds(items, order);
      LeasedIdsAre(items, order);
      MoveAllKeepsTable(State(), rows, Requeue);
      RequeueRows(rows);
      log := log + [Recovery(rows), RunStarted];
    }

    method RequeueRows(rows: seq<WorkId>)
      requires Distinct(rows) && forall id :: id in rows ==> id in items
      modifies this`items
      ensures items == MoveAll(old(items), rows, Requeue)
    {
      ghost var was := items;
      MoveAllNone(was, Requeue);
      for k := 0 to |rows|
        invariant items == MoveAll(was, rows[..k], Requeue)
      {
        assert rows[k] in rows && rows[k] !in rows[..k];
        MoveAllNext(was, rows, k, Requeue);
        items := items[rows[k] := items[rows[k]].Apply(Requeue)];
      }
      assert rows[..|rows|] == rows;
    }

    method ScanBlocked() returns (blocked: seq<Blocked>)
      ensures blocked == Scan(items, order)
    {
      blocked := [];
      for k := 0 to |order|
        invariant blocked + Scan(items, order[k..]) == Scan(items, order)
      {
        assert order[k..][1..] == order[k+1..];
        var id := order[k];
        if id in items && items[id].status == Queued {
          var dead := UnreachableDeps(items[id].dependsOn);
          if dead != {} {
            blocked := blocked + [Blocked(id, dead)];
          }
        }
      }
    }

    method RetireScanned(blocked: seq<Blocked>)
      requires Valid()
      modifies this`items, this`log
      ensures Valid()
      ensures State() == WorkQueue.RetireScanned(old(State()), blocked)
    {
      for k := 0 to |blocked|
        invariant Valid()
        invariant State() == WorkQueue.RetireScanned(old(State()), blocked[..k])
      {
        assert blocked[..k+1][..k] == blocked[..k];
        RetireRow(blocked[k]);
      }
      assert blocked[..|blocked|] == blocked;
    }

    method RetireRow(b: Blocked)
      requires Valid()
      modifies this`items, this`log
      ensures Valid()
      ensures State() == RetireOne(old(State()), b)
    {
      RetireOneStores(State(), b);
      if b.id in items && items[b.id].status == Queued {
        items := items[b.id := items[b.id].Apply(Retire(b.dead))];
      }
      log := log + [WorkFailed(b.id, None, false)];
    }

    method RetireBlocked() returns (retired: seq<WorkId>)
      requires Valid()
      modifies this`items, this`log
      ensures Valid()
      ensures var blocked := Scan(old(items), old(order));
              State() == WorkQueue.RetireScanned(old(State()), blocked)
              && |retired| == |blocked|
              && forall k :: 0 <= k < |blocked| ==> retired[k] == blocked[k].id
    {
      var blocked := ScanBlocked();
      RetireScanned(blocked);
      retired := seq(|blocked|, k requires 0 <= k < |blocked| => blocked[k].id);
    }
  }
}
