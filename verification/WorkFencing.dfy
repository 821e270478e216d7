/**
  Fencing over whole runs: tokens only go up, each leased token belongs to one
  attempt, a superseded token is inert for good, and an ended item never moves.
 */
module WorkFencing {
  import opened Outcomes
  import opened WorkQueue
  import opened WorkRuns
  import opened WorkDependencies

  // ------------------------------------------------- what a step may log

  ghost predicate Extends(log: seq<Event>, more: seq<Event>) {
    |log| <= |more| && more[..|log|] == log
  }

  ghost predicate OnlyEndings(events: seq<Event>) {
    forall e :: e in events ==> e.LeaseExpired? || e.WorkFailed?
  }

  lemma {:induction false} ExpiriesAreEndings(items: map<WorkId, Item>, ids: seq<WorkId>)
    requires forall x :: x in ids ==> x in items
    ensures OnlyEndings(ExpiryEvents(items, ids))
  {
    if ids != [] {
      ExpiriesAreEndings(items, ids[..|ids|-1]);
    }
  }

  lemma {:induction false} RetirementsAreEndings(q: Queue, blocked: seq<Blocked>)
    ensures Extends(q.log, RetireScanned(q, blocked).log)
    ensures OnlyEndings(RetireScanned(q, blocked).log[|q.log|..])
  {
    if blocked != [] {
      RetirementsAreEndings(q, blocked[..|blocked|-1]);
    }
  }

  /** A new lease event carries the next token of its row, a new completion the
      row's own; each is the only event of its step. */
  ghost predicate NewEvent(w: World, v: Verb, e: Event) {
    var q, r := w.queue, Step(w, v).queue;
    match e
    case WorkLeased(id, n, t, _, _) =>
      v.DoLease? && id in q.items && id in r.items && r.log == q.log + [e]
      && t == q.items[id].token + 1 && t == r.items[id].token
      && r.items[id].owner == Some(n)
    case WorkCompleted(id, _, blob, t) =>
      v.DoComplete? && id in q.items && id in r.items && r.log == q.log + [e]
      && !q.items[id].status.Terminal() && r.items[id].status == Done
      && t == q.items[id].token && t == r.items[id].token && r.items[id].result == Some(blob)
    case Recovery(ids) => v.DoRecover? && ids == LeasedIds(q.items, q.order)
    case _ => true
  }

  lemma StepLogs(w: World, v: Verb)
    ensures Extends(w.queue.log, Step(w, v).queue.log)
    ensures forall e :: e in Step(w, v).queue.log[|w.queue.log|..] ==> NewEvent(w, v, e)
  {
    var q := w.queue;
    match v
    case DoExpire(now) =>
      OverdueIdsAre(q.items, q.order, now);
      ExpiriesAreEndings(q.items, OverdueIds(q.items, q.order, now));
    case DoRetire(blocked) => RetirementsAreEndings(q, blocked);
    case DoLease(n, cls, wid, until) => LeaseLogs(w, v);
    case DoComplete(_, _, _, _) => CompleteLogs(w, v);
    case _ =>
  }

  lemma LeaseLogs(w: World, v: Verb)
    requires v.DoLease?
    ensures Extends(w.queue.log, Step(w, v).queue.log)
    ensures forall e :: e in Step(w, v).queue.log[|w.queue.log|..] ==> NewEvent(w, v, e)
  {
    LeasePicks(w.queue, v.workClass, v.workId, LEASE_WINDOW);
  }

  lemma CompleteLogs(w: World, v: Verb)
    requires v.DoComplete?
    ensures Extends(w.queue.log, Step(w, v).queue.log)
    ensures forall e :: e in Step(w, v).queue.log[|w.queue.log|..] ==> NewEvent(w, v, e)
  {
  }

  lemma {:induction false} LogGrows(w: World, ws: seq<Verb>)
    ensures Extends(w.queue.log, RunFrom(w, ws).queue.log)
  {
    if ws != [] {
      LogGrows(w, ws[..|ws|-1]);
      StepLogs(RunFrom(w, ws[..|ws|-1]), ws[|ws|-1]);
    }
  }

  // ------------------------------------------------- tokens

  predicate LeaseOf(e: Event, id: WorkId) {
    e.WorkLeased? && e.id == id
  }

  predicate CompletionOf(e: Event, id: WorkId) {
    e.WorkCompleted? && e.id == id
  }

  ghost predicate TokensOrdered(q: Queue) {
    (forall i :: 0 <= i < |q.log| && q.log[i].WorkLeased? ==>
       q.log[i].id in q.items && q.log[i].token <= q.items[q.log[i].id].token)
    && forall i, j :: 0 <= i < j < |q.log| && q.log[i].WorkLeased? && LeaseOf(q.log[j], q.log[i].id)
         ==> q.log[i].token < q.log[j].token
  }

  lemma StepTokens(w: World, v: Verb)
    requires WellStored(w.queue) && TokensOrdered(w.queue)
    ensures TokensOrdered(Step(w, v).queue)
  {
    var q, r := w.queue, Step(w, v).queue;
    StepLogs(w, v);
    forall i | 0 <= i < |r.log| && r.log[i].WorkLeased?
      ensures r.log[i].id in r.items && r.log[i].token <= r.items[r.log[i].id].token
      ensures i < |q.log| ==> r.log[i] == q.log[i]
      ensures i >= |q.log| ==> NewEvent(w, v, r.log[i])
    {
      if i < |q.log| {
        assert r.log[i] == r.log[..|q.log|][i];
        StepMoves(w, v, q.log[i].id);
      } else {
        assert r.log[i] in r.log[|q.log|..];
      }
    }
  }

  /** The tokens leased for one item strictly increase along the log. */
  lemma {:induction false} LeasedTokensIncrease(vs: seq<Verb>)
    ensures TokensOrdered(Run(vs).queue)
  {
    if vs != [] {
      LeasedTokensIncrease(vs[..|vs|-1]);
      RunStores(vs[..|vs|-1]);
      StepTokens(Run(vs[..|vs|-1]), vs[|vs|-1]);
    }
  }

  /** A leased token names one lease, hence one neuocyte. */
  lemma TokenHasOneHolder(vs: seq<Verb>, i: nat, j: nat)
    requires var log := Run(vs).queue.log;
             i < |log| && j < |log| && log[i].WorkLeased? && log[j].WorkLeased?
             && log[i].id == log[j].id && log[i].token == log[j].token
    ensures i == j && Run(vs).queue.log[i].neuocyte == Run(vs).queue.log[j].neuocyte
  {
    LeasedTokensIncrease(vs);
    if i < j {
      assert LeaseOf(Run(vs).queue.log[j], Run(vs).queue.log[i].id);
    } else if j < i {
      assert LeaseOf(Run(vs).queue.log[i], Run(vs).queue.log[j].id);
    }
  }

  /** Once the row's token has passed `stale`, nothing presenting `stale` can
      change any row, or be authorised, in any later state. */
  lemma SupersededTokenIsInert(vs: seq<Verb>, ws: seq<Verb>, id: WorkId, stale: int,
                               neuocyte: string, text: string, requeue: bool, until: Time)
    requires id in Run(vs).queue.items && stale < Run(vs).queue.items[id].token
    ensures var q := Run(vs + ws).queue;
            Complete(q, id, neuocyte, stale, text).0.items == q.items
            && Complete(q, id, neuocyte, stale, text).1 != Committed
            && Fail(q, id, neuocyte, stale, text, requeue).0.items == q.items
            && Fail(q, id, neuocyte, stale, text, requeue).1 != Committed
            && RenewLease(q, id, neuocyte, stale, until) == (q, false)
            && Authorise(q, id, neuocyte, stale) == Err(Fenced)
  {
    RunAppend(START, vs, ws);
    RunStores(vs);
    AttemptsGrow(Run(vs), ws, id);
  }

  // ------------------------------------------------- endings

  /** Done, failed and cancelled are final: the whole row stays as it is. */
  lemma EndedForever(vs: seq<Verb>, ws: seq<Verb>, id: WorkId)
    requires id in Run(vs).queue.items && Run(vs).queue.items[id].status.Terminal()
    ensures id in Run(vs + ws).queue.items
    ensures Run(vs + ws).queue.items[id] == Run(vs).queue.items[id]
  {
    RunAppend(START, vs, ws);
    RunStores(vs);
    EndedStaysFrom(Run(vs), ws, id);
  }

  lemma {:induction false} EndedStaysFrom(w: World, ws: seq<Verb>, id: WorkId)
    requires WellStored(w.queue) && id in w.queue.items && w.queue.items[id].status.Terminal()
    ensures WellStored(RunFrom(w, ws).queue) && id in RunFrom(w, ws).queue.items
    ensures RunFrom(w, ws).queue.items[id] == w.queue.items[id]
  {
    if ws != [] {
      EndedStaysFrom(w, ws[..|ws|-1], id);
      StepStores(RunFrom(w, ws[..|ws|-1]), ws[|ws|-1]);
      EndedStays(RunFrom(w, ws[..|ws|-1]), ws[|ws|-1], id);
    }
  }

  ghost predicate CompletionsRecorded(q: Queue) {
    (forall i :: 0 <= i < |q.log| && q.log[i].WorkCompleted? ==> CompletionHolds(q, q.log[i]))
    && (forall i, j :: 0 <= i < j < |q.log| && q.log[i].WorkCompleted? ==>
          !CompletionOf(q.log[j], q.log[i].id))
    && forall id :: id in q.items && q.items[id].status == Done ==>
         exists i :: 0 <= i < |q.log| && CompletionOf(q.log[i], id)
  }

  ghost predicate CompletionHolds(q: Queue, e: Event)
    requires e.WorkCompleted?
  {
    e.id in q.items && q.items[e.id].status == Done && q.items[e.id].token == e.presented
    && q.items[e.id].result == Some(e.blob)
  }

  lemma CompletionStaysTrue(w: World, v: Verb, i: nat)
    requires WellStored(w.queue) && CompletionsRecorded(w.queue)
    requires i < |Step(w, v).queue.log| && Step(w, v).queue.log[i].WorkCompleted?
    ensures CompletionHolds(Step(w, v).queue, Step(w, v).queue.log[i])
    ensures i < |w.queue.log| ==> Step(w, v).queue.log[i] == w.queue.log[i]
    ensures i >= |w.queue.log| ==>
              var id := Step(w, v).queue.log[i].id;
              i == |w.queue.log| && id in w.queue.items && w.queue.items[id].status != Done
  {
    var q, r := w.queue, Step(w, v).queue;
    StepLogs(w, v);
    if i < |q.log| {
      assert r.log[i] == r.log[..|q.log|][i];
      EndedStays(w, v, q.log[i].id);
    } else {
      assert r.log[i] in r.log[|q.log|..];
      assert NewEvent(w, v, r.log[i]);
    }
  }

  lemma StepCompletions(w: World, v: Verb)
    requires WellStored(w.queue) && CompletionsRecorded(w.queue)
    ensures CompletionsRecorded(Step(w, v).queue)
  {
    var q, r := w.queue, Step(w, v).queue;
    forall i | 0 <= i < |r.log| && r.log[i].WorkCompleted?
      ensures CompletionHolds(r, r.log[i])
    {
      CompletionStaysTrue(w, v, i);
    }
    forall i, j | 0 <= i < j < |r.log| && r.log[i].WorkCompleted?
      ensures !CompletionOf(r.log[j], r.log[i].id)
    {
      CompletionStaysTrue(w, v, i);
      if CompletionOf(r.log[j], r.log[i].id) {
        CompletionStaysTrue(w, v, j);
      }
    }
    forall id | id in r.items && r.items[id].status == Done
      ensures exists i :: 0 <= i < |r.log| && CompletionOf(r.log[i], id)
    {
      DoneHasCompletion(w, v, id);
    }
  }

  lemma DoneHasCompletion(w: World, v: Verb, id: WorkId)
    requires WellStored(w.queue) && CompletionsRecorded(w.queue)
    requires id in Step(w, v).queue.items && Step(w, v).queue.items[id].status == Done
    ensures exists i :: 0 <= i < |Step(w, v).queue.log| && CompletionOf(Step(w, v).queue.log[i], id)
  {
    var q, r := w.queue, Step(w, v).queue;
    StepLogs(w, v);
    if id !in q.items {
      NewRow(w, v, id);
    }
    StepMoves(w, v, id);
    if q.items[id].status == Done {
      var i :| 0 <= i < |q.log| && CompletionOf(q.log[i], id);
      assert r.log[i] == r.log[..|q.log|][i];
    } else {
      assert r.log[|q.log|] == WorkCompleted(id, v.neuocyte, v.blob, v.presented);
      assert CompletionOf(r.log[|q.log|], id);
    }
  }

  /** A result is stored at most once, exactly when one completion committed,
      and it is that completion's. */
  lemma {:induction false} ResultWrittenOnce(vs: seq<Verb>)
    ensures CompletionsRecorded(Run(vs).queue)
  {
    if vs != [] {
      ResultWrittenOnce(vs[..|vs|-1]);
      RunStores(vs[..|vs|-1]);
      StepCompletions(Run(vs[..|vs|-1]), vs[|vs|-1]);
    }
  }
}
