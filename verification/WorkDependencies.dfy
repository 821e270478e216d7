/**
  Dependencies: they point back in admission order, they are settled before an
  item starts, they cannot wedge the queue, and retirement fails exactly the
  items that can never run.
 */
module WorkDependencies {
  import opened Outcomes
  import opened WorkQueue
  import opened WorkRuns

  /** Edges point to items admitted earlier. */
  ghost predicate DepsEarlier(q: Queue) {
    forall id, d :: id in q.items && d in q.items[id].dependsOn ==>
      d in q.items && q.items[d].rowid < q.items[id].rowid
  }

  /** An item that was ever leased has all its dependencies done. */
  ghost predicate StartedAreSettled(q: Queue) {
    forall id :: id in q.items && q.items[id].attempt > 0 ==>
      AllDone(q.items, q.items[id].dependsOn)
  }

  ghost predicate WellShaped(x: Item) {
    (x.status == Leased <==> x.owner.Some?)
    && (x.status == Leased <==> x.expires.Some?)
    && (x.status == Done <==> x.result.Some?)
    && (x.status == Leased ==> x.attempt > 0)
    && x.attempt <= x.token && ReasonFits(x)
  }

  /** A failure text says why the row ended as it did; only a report by the worker
      may stay on a row that goes on. */
  predicate ReasonFits(x: Item) {
    (x.status == Cancelled || x.status == Failed ==> x.failure.Some?)
    && (x.status == Cancelled <==> x.failure.Some? && x.failure.value.CalledOff?)
    && (x.failure.Some? && x.failure.value.LeasesExpired? ==> x.status == Failed && x.Spent())
    && (x.failure.Some? && x.failure.value.DeadDependencies? ==> x.status == Failed)
  }

  ghost predicate ShapesHold(q: Queue) {
    forall id :: id in q.items ==> WellShaped(q.items[id])
  }

  /** A scanned entry names dependencies that are dead now and stay dead. */
  ghost predicate EntrySound(q: Queue, b: Blocked) {
    b.id in q.items && b.dead != {}
    && forall d :: d in b.dead ==>
         d in q.items[b.id].dependsOn && d in q.items
         && (q.items[d].status == Failed || q.items[d].status == Cancelled)
  }

  ghost predicate ScansSound(w: World) {
    forall s, b :: s in w.scans && b in s ==> EntrySound(w.queue, b)
  }

  ghost predicate DepsInv(w: World) {
    WellStored(w.queue) && DepsEarlier(w.queue) && StartedAreSettled(w.queue)
    && ShapesHold(w.queue) && ScansSound(w)
  }

  lemma RowidBound(q: Queue, id: WorkId)
    requires WellStored(q) && id in q.items
    ensures q.items[id].rowid < |q.order| && q.order[q.items[id].rowid] == id
  {
    var i :| 0 <= i < |q.order| && q.order[i] == id;
  }

  lemma StepDepsEarlier(w: World, v: Verb)
    requires WellStored(w.queue) && DepsEarlier(w.queue)
    ensures DepsEarlier(Step(w, v).queue)
  {
    var q, r := w.queue, Step(w, v).queue;
    forall id, d | id in r.items && d in r.items[id].dependsOn
      ensures d in r.items && r.items[d].rowid < r.items[id].rowid
    {
      if id in q.items {
        StepMoves(w, v, id);
      } else {
        NewRow(w, v, id);
        RowidBound(q, d);
      }
      StepMoves(w, v, d);
    }
  }

  lemma StepShapes(w: World, v: Verb)
    requires WellStored(w.queue) && ShapesHold(w.queue)
    ensures ShapesHold(Step(w, v).queue)
  {
    forall id | id in Step(w, v).queue.items
      ensures WellShaped(Step(w, v).queue.items[id])
    {
      if id in w.queue.items {
        StepMoves(w, v, id);
      } else {
        NewRow(w, v, id);
      }
    }
  }

  /** Once a row has ended, no verb changes it. */
  lemma EndedStays(w: World, v: Verb, id: WorkId)
    requires WellStored(w.queue) && id in w.queue.items && w.queue.items[id].status.Terminal()
    ensures id in Step(w, v).queue.items
    ensures Step(w, v).queue.items[id] == w.queue.items[id]
  {
    StepMoves(w, v, id);
  }

  lemma StepStarted(w: World, v: Verb)
    requires WellStored(w.queue) && StartedAreSettled(w.queue)
    ensures StartedAreSettled(Step(w, v).queue)
  {
    var q, r := w.queue, Step(w, v).queue;
    forall id | id in r.items && r.items[id].attempt > 0
      ensures AllDone(r.items, r.items[id].dependsOn)
    {
      if id !in q.items {
        NewRow(w, v, id);
      } else {
        StepMoves(w, v, id);
        if q.items[id].attempt == 0 {
          LeasePicks(q, v.workClass, v.workId, LEASE_WINDOW);
        }
        forall d | d in r.items[id].dependsOn ensures IsDone(r.items, d) {
          assert IsDone(q.items, d);
          EndedStays(w, v, d);
        }
      }
    }
  }

  lemma ScanIs(items: map<WorkId, Item>, order: seq<WorkId>, b: Blocked)
    ensures b in Scan(items, order) <==>
              b.id in order && b.id in items && items[b.id].status == Queued
              && b.dead == DeadDeps(items, items[b.id].dependsOn) && b.dead != {}
  {
  }

  lemma StepScans(w: World, v: Verb)
    requires WellStored(w.queue) && DepsEarlier(w.queue) && ScansSound(w)
    ensures ScansSound(Step(w, v))
  {
    var q, r := w.queue, Step(w, v).queue;
    forall s, b | s in Step(w, v).scans && b in s
      ensures EntrySound(r, b)
    {
      if s !in w.scans {
        ScanIs(q.items, q.order, b);
      }
      assert EntrySound(q, b);
      StepMoves(w, v, b.id);
      forall d | d in b.dead
        ensures d in r.items[b.id].dependsOn && d in r.items && r.items[d] == q.items[d]
      {
        EndedStays(w, v, d);
      }
    }
  }

  lemma {:induction false} RunDeps(vs: seq<Verb>)
    ensures DepsInv(Run(vs))
  {
    if vs != [] {
      var w, v := Run(vs[..|vs|-1]), vs[|vs|-1];
      RunDeps(vs[..|vs|-1]);
      StepStores(w, v);
      StepDepsEarlier(w, v);
      StepStarted(w, v);
      StepShapes(w, v);
      StepScans(w, v);
    }
  }

  // ------------------------------------------------------- never wedged

  /** In any reachable state with queued work and no lease outstanding, either
      some queued item can be leased or retirement has something to retire. */
  lemma NeverWedged(vs: seq<Verb>, stuck: WorkId)
    requires var q := Run(vs).queue;
             stuck in q.items && q.items[stuck].status == Queued
             && forall id :: id in q.items ==> q.items[id].status != Leased
    ensures var q := Run(vs).queue;
            (exists id :: id in q.items && q.items[id].status == Queued
                          && AllDone(q.items, q.items[id].dependsOn))
            || Scan(q.items, q.order) != []
  {
    var q := Run(vs).queue;
    RunDeps(vs);
    var id := OldestQueued(q, stuck);
    if !AllDone(q.items, q.items[id].dependsOn) {
      var d :| d in q.items[id].dependsOn && !IsDone(q.items, d);
      assert IsDead(q.items, d);
      assert d in DeadDeps(q.items, q.items[id].dependsOn);
      RowidBound(q, id);
      ScanIs(q.items, q.order, Blocked(id, DeadDeps(q.items, q.items[id].dependsOn)));
    }
  }

  lemma OldestQueued(q: Queue, id: WorkId) returns (oldest: WorkId)
    requires id in q.items && q.items[id].status == Queued
    ensures oldest in q.items && q.items[oldest].status == Queued
    ensures forall x :: x in q.items && q.items[x].rowid < q.items[oldest].rowid ==>
              q.items[x].status != Queued
    decreases q.items[id].rowid
  {
    if x :| x in q.items && q.items[x].rowid < q.items[id].rowid && q.items[x].status == Queued {
      oldest := OldestQueued(q, x);
    } else {
      oldest := id;
    }
  }

  /** From the moment an item is leased, its dependencies are done for good. */
  lemma LeasedMeansSettled(vs: seq<Verb>, ws: seq<Verb>, id: WorkId)
    requires id in Run(vs).queue.items && Run(vs).queue.items[id].attempt > 0
    ensures id in Run(vs + ws).queue.items
    ensures var q := Run(vs + ws).queue; AllDone(q.items, q.items[id].dependsOn)
  {
    RunAppend(START, vs, ws);
    RunDeps(vs + ws);
    RunStores(vs);
    AttemptsGrow(Run(vs), ws, id);
  }

  lemma {:induction false} AttemptsGrow(w: World, ws: seq<Verb>, id: WorkId)
    requires WellStored(w.queue) && id in w.queue.items
    ensures WellStored(RunFrom(w, ws).queue) && id in RunFrom(w, ws).queue.items
    ensures RunFrom(w, ws).queue.items[id].attempt >= w.queue.items[id].attempt
    ensures RunFrom(w, ws).queue.items[id].token >= w.queue.items[id].token
    ensures RunFrom(w, ws).queue.items[id].dependsOn == w.queue.items[id].dependsOn
  {
    if ws != [] {
      AttemptsGrow(w, ws[..|ws|-1], id);
      StepStores(RunFrom(w, ws[..|ws|-1]), ws[|ws|-1]);
      StepMoves(RunFrom(w, ws[..|ws|-1]), ws[|ws|-1], id);
    }
  }

  // ------------------------------------------------------- retirement

  /** Queued, and some dependency is dead or itself doomed. */
  ghost predicate Doomed(q: Queue, id: WorkId)
    requires DepsEarlier(q) && id in q.items
    decreases q.items[id].rowid
  {
    q.items[id].status == Queued
    && exists d :: d in q.items[id].dependsOn && (IsDead(q.items, d) || Doomed(q, d))
  }

  /** A chain of dependencies through queued items that ends at a dead one. */
  ghost predicate DeadPath(q: Queue, path: seq<WorkId>) {
    |path| >= 2
    && (forall k :: 0 <= k < |path| ==> path[k] in q.items)
    && (forall k :: 0 <= k < |path| - 1 ==>
          q.items[path[k]].status == Queued && path[k+1] in q.items[path[k]].dependsOn)
    && IsDead(q.items, path[|path|-1])
  }

  lemma DoomedHasPath(q: Queue, id: WorkId) returns (path: seq<WorkId>)
    requires DepsEarlier(q) && id in q.items && Doomed(q, id)
    ensures DeadPath(q, path) && path[0] == id
    decreases q.items[id].rowid
  {
    var d :| d in q.items[id].dependsOn && (IsDead(q.items, d) || Doomed(q, d));
    if IsDead(q.items, d) {
      path := [id, d];
    } else {
      var rest := DoomedHasPath(q, d);
      path := [id] + rest;
    }
  }

  lemma {:induction false} PathDooms(q: Queue, path: seq<WorkId>)
    requires DepsEarlier(q) && DeadPath(q, path)
    ensures Doomed(q, path[0])
    decreases |path|
  {
    assert path[1] in q.items[path[0]].dependsOn;
    if |path| > 2 {
      assert DeadPath(q, path[1..]);
      PathDooms(q, path[1..]);
    }
  }

  /** Being doomed is reaching a dead item through queued ones. */
  lemma DoomedIsReachability(q: Queue, id: WorkId)
    requires DepsEarlier(q) && id in q.items
    ensures Doomed(q, id) <==> exists path :: DeadPath(q, path) && path[0] == id
  {
    if Doomed(q, id) {
      var path := DoomedHasPath(q, id);
    }
    if path :| DeadPath(q, path) && path[0] == id {
      PathDooms(q, path);
    }
  }

  /** Scan and retire, with nothing in between. */
  function Sweep(q: Queue): Queue {
    RetireScanned(q, Scan(q.items, q.order))
  }

  lemma DeadForListed(blocked: seq<Blocked>, id: WorkId)
    ensures DeadFor(blocked, id).Some? <==> exists b :: b in blocked && b.id == id
  {
    if blocked != [] {
      DeadForListed(blocked[..|blocked|-1], id);
      assert blocked == blocked[..|blocked|-1] + [blocked[|blocked|-1]];
    }
  }

  ghost predicate Retirable(q: Queue, id: WorkId)
    requires id in q.items
  {
    q.items[id].status == Queued && DeadDeps(q.items, q.items[id].dependsOn) != {}
  }

  /** One sweep fails exactly the queued items with a dead dependency. */
  lemma SweepFails(q: Queue, id: WorkId)
    requires WellStored(q) && id in q.items
    ensures Sweep(q).items.Keys == q.items.Keys && Sweep(q).order == q.order
    ensures Retirable(q, id) ==> Sweep(q).items[id].status == Failed
                                 && Sweep(q).items[id].dependsOn == q.items[id].dependsOn
                                 && Sweep(q).items[id].rowid == q.items[id].rowid
    ensures !Retirable(q, id) ==> Sweep(q).items[id] == q.items[id]
  {
    var blocked := Scan(q.items, q.order);
    RetireMoves(q, blocked, id);
    DeadForListed(blocked, id);
    RowidBound(q, id);
    var dead := DeadDeps(q.items, q.items[id].dependsOn);
    ScanIs(q.items, q.order, Blocked(id, dead));
    forall b | b in blocked && b.id == id ensures b == Blocked(id, dead) {
      ScanIs(q.items, q.order, b);
    }
  }

  lemma SweepKeepsOrder(q: Queue)
    requires WellStored(q) && DepsEarlier(q)
    ensures WellStored(Sweep(q)) && DepsEarlier(Sweep(q))
  {
    forall id | id in q.items
      ensures id in Sweep(q).items && Sweep(q).items[id].rowid == q.items[id].rowid
      ensures Sweep(q).items[id].dependsOn == q.items[id].dependsOn
    {
      SweepFails(q, id);
    }
    RetireKeys(q, Scan(q.items, q.order));
    TableKept(q, Sweep(q));
    KeepsEarlier(q, Sweep(q));
  }

  lemma KeepsEarlier(q: Queue, r: Queue)
    requires DepsEarlier(q) && r.items.Keys == q.items.Keys
    requires forall id :: id in q.items ==>
               r.items[id].rowid == q.items[id].rowid
               && r.items[id].dependsOn == q.items[id].dependsOn
    ensures DepsEarlier(r)
  {
  }

  function QueuedIds(q: Queue): set<WorkId> {
    set id | id in q.items && q.items[id].status == Queued
  }

  lemma SweepShrinks(q: Queue)
    requires WellStored(q) && Scan(q.items, q.order) != []
    ensures QueuedIds(Sweep(q)) < QueuedIds(q)
  {
    var b := Scan(q.items, q.order)[0];
    ScanIs(q.items, q.order, b);
    SweepFails(q, b.id);
    forall id | id in QueuedIds(Sweep(q)) ensures id in QueuedIds(q) {
      RetireKeys(q, Scan(q.items, q.order));
      SweepFails(q, id);
    }
    assert b.id in QueuedIds(q) && b.id !in QueuedIds(Sweep(q));
  }

  /** Sweep until a scan finds nothing. */
  ghost function SweepAll(q: Queue): Queue
    requires WellStored(q) && DepsEarlier(q)
    decreases QueuedIds(q)
  {
    if Scan(q.items, q.order) == [] then q
    else
      SweepShrinks(q);
      SweepKeepsOrder(q);
      SweepAll(Sweep(q))
  }

  lemma DepsHere(q: Queue, r: Queue, id: WorkId)
    requires DepsEarlier(q) && id in q.items && r.items.Keys == q.items.Keys
    ensures forall d :: d in q.items[id].dependsOn ==>
              d in q.items && d in r.items && q.items[d].rowid < q.items[id].rowid
  {
  }

  lemma SweepDeath(q: Queue, id: WorkId)
    requires WellStored(q) && id in q.items
    ensures IsDead(Sweep(q).items, id) <==> IsDead(q.items, id) || Retirable(q, id)
  {
    SweepFails(q, id);
  }

  /** A sweep changes nobody's fate: what it does not fail now is doomed
      afterwards exactly if it was doomed before. */
  lemma {:induction false} SweepKeepsDoom(q: Queue, id: WorkId)
    requires WellStored(q) && DepsEarlier(q) && id in q.items
    requires WellStored(Sweep(q)) && DepsEarlier(Sweep(q)) && id in Sweep(q).items
    ensures Doomed(q, id) <==> Retirable(q, id) || Doomed(Sweep(q), id)
    decreases q.items[id].rowid
  {
    var r := Sweep(q);
    SweepFails(q, id);
    DepsHere(q, r, id);
    forall d | d in q.items[id].dependsOn
      ensures IsDead(r.items, d) <==> IsDead(q.items, d) || Retirable(q, d)
      ensures Doomed(q, d) <==> Retirable(q, d) || Doomed(r, d)
    {
      SweepDeath(q, d);
      SweepKeepsDoom(q, d);
    }
    if d :| d in q.items[id].dependsOn && IsDead(q.items, d) {
      assert d in DeadDeps(q.items, q.items[id].dependsOn);
    }
  }

  lemma NothingDoomedAtRest(q: Queue, id: WorkId)
    requires WellStored(q) && DepsEarlier(q) && id in q.items
    requires Scan(q.items, q.order) == []
    ensures !Doomed(q, id)
    decreases q.items[id].rowid
  {
    RowidBound(q, id);
    var dead := DeadDeps(q.items, q.items[id].dependsOn);
    ScanIs(q.items, q.order, Blocked(id, dead));
    forall d | d in q.items[id].dependsOn && q.items[id].status == Queued
      ensures !IsDead(q.items, d) && !Doomed(q, d)
    {
      assert d !in dead;
      NothingDoomedAtRest(q, d);
    }
  }

  /** Repeated retirement fails exactly the doomed items and touches no other. */
  lemma {:induction false} RetirementIsExact(q: Queue, id: WorkId)
    requires WellStored(q) && DepsEarlier(q) && id in q.items
    ensures id in SweepAll(q).items
    ensures Doomed(q, id) ==> SweepAll(q).items[id].status == Failed
    ensures !Doomed(q, id) ==> SweepAll(q).items[id] == q.items[id]
    ensures Scan(SweepAll(q).items, SweepAll(q).order) == []
    decreases QueuedIds(q)
  {
    if Scan(q.items, q.order) == [] {
      NothingDoomedAtRest(q, id);
    } else {
      SweepShrinks(q);
      SweepKeepsOrder(q);
      SweepFails(q, id);
      SweepKeepsDoom(q, id);
      RetirementIsExact(Sweep(q), id);
    }
  }
}
