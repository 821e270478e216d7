/**
  Restart: bringing everything durable to a point work can resume from. Nobody
  who was alive before still holds anything afterwards.
 */
module MindRecovery {
  import opened Outcomes
  import WorkQueue
  import WorkRepo
  import opened Snapshots
  import SnapshotRuns
  import WorkRuns
  import WorkFencing

  type AgentId = string
  type OperationId = string

  datatype Agent = Agent(role: string, status: string, session: Option<string>)

  datatype Mindful = Mindful(
    agents: map<AgentId, Agent>,
    operations: map<OperationId, string>,
    snapshots: Store,
    queue: WorkQueue.Queue)

  /** Neuocytes, and the long-lived roles, that claim to be alive. */
  predicate Stale(a: Agent) {
    a.role in {"neuocyte", "ego", "id", "inference"} && a.status == "alive"
  }

  predicate MidFlight(status: string) {
    status in {"accepted", "running"}
  }

  function Crashed(a: Agent): Agent {
    a.(status := "crashed", session := None)
  }

  function Crash(agents: map<AgentId, Agent>): map<AgentId, Agent> {
    map id | id in agents :: if Stale(agents[id]) then Crashed(agents[id]) else agents[id]
  }

  function Interrupt(operations: map<OperationId, string>): map<OperationId, string> {
    map id | id in operations ::
      if MidFlight(operations[id]) then "interrupted" else operations[id]
  }

  function RecoverMind(m: Mindful): Mindful {
    Mindful(Crash(m.agents), Interrupt(m.operations), RecoverSnapshots(m.snapshots),
            WorkQueue.Recover(m.queue))
  }

  class Mind {
    var agents: map<AgentId, Agent>
    var operations: map<OperationId, string>
    const snapshots: Snapshots.Repo
    const work: WorkRepo.Repo

    function State(): Mindful
      reads this, snapshots, work
    {
      Mindful(agents, operations, snapshots.State(), work.State())
    }

    constructor (snapshots: Snapshots.Repo, work: WorkRepo.Repo)
      ensures this.snapshots == snapshots && this.work == work
      ensures State() == Mindful(map[], map[], snapshots.State(), work.State())
    {
      this.snapshots, this.work := snapshots, work;
      agents, operations := map[], map[];
    }

    method Recover()
      requires work.Valid()
      modifies this, snapshots, work
      ensures work.Valid()
      ensures State() == RecoverMind(old(State()))
    {
      CrashAgents();
      snapshots.Recover();
      work.Recover();
      InterruptOperations();
    }

    method CrashAgents()
      modifies this`agents
      ensures agents == Crash(old(agents))
    {
      var was := agents;
      var stale := set id | id in agents && Stale(agents[id]);
      while stale != {}
        invariant agents.Keys == was.Keys && stale <= was.Keys
        invariant forall id :: id in stale ==> Stale(was[id])
        invariant forall id :: id in was ==>
                    agents[id] == if Stale(was[id]) && id !in stale
                                  then Crashed(was[id]) else was[id]
      {
        var id :| id in stale;
        agents := agents[id := Crashed(agents[id])];
        stale := stale - {id};
      }
    }

    method InterruptOperations()
      modifies this`operations
      ensures operations == Interrupt(old(operations))
    {
      var was := operations;
      var open := set id | id in operations && MidFlight(operations[id]);
      while open != {}
        invariant operations.Keys == was.Keys && open <= was.Keys
        invariant forall id :: id in open ==> MidFlight(was[id])
        invariant forall id :: id in was ==>
                    operations[id] == if MidFlight(was[id]) && id !in open
                                      then "interrupted" else was[id]
      {
        var id :| id in open;
        operations := operations[id := "interrupted"];
        open := open - {id};
      }
    }
  }

  // ------------------------------------------------- nothing is held

  ghost predicate NobodyActs(m: Mindful) {
    (forall id :: id in m.agents ==> !Stale(m.agents[id]))
    && forall id :: id in m.operations ==> !MidFlight(m.operations[id])
  }

  ghost predicate NothingReferenced(s: Store) {
    (forall r :: r in s.refs ==> s.refs[r].released)
    && forall id :: id in s.snaps ==> s.snaps[id].refcount == 0 && s.snaps[id].handle == None
  }

  ghost predicate NothingLeased(q: WorkQueue.Queue) {
    forall id :: id in q.items ==> q.items[id].status != WorkQueue.Leased
  }

  lemma ReferencesDropped(s: Store)
    requires SnapshotRuns.Conserved(s)
    ensures NothingReferenced(RecoverSnapshots(s))
  {
    forall id | id in s.snaps ensures RecoverSnapshots(s).snaps[id].refcount == 0 {
      assert SnapshotRuns.ConservedAt(s, id);
    }
  }

  lemma LeasesDropped(q: WorkQueue.Queue)
    requires WorkQueue.WellStored(q)
    ensures NothingLeased(WorkQueue.Recover(q))
    ensures WorkQueue.Recover(q).items.Keys == q.items.Keys
    ensures forall id :: id in q.items ==>
              WorkQueue.Recover(q).items[id]
              == if q.items[id].status == WorkQueue.Leased
                 then q.items[id].Apply(WorkQueue.Requeue) else q.items[id]
    ensures WorkQueue.WellStored(WorkQueue.Recover(q))
  {
    WorkQueue.LeasedIdsAre(q.items, q.order);
  }

  /** After a restart, from any state that runs of the queue and of the registry
      can reach, nothing is held by anyone; and a row that was not leased is as it
      was. */
  lemma RestartHoldsNothing(m: Mindful, vs: seq<WorkRuns.Verb>,
                            ss: seq<SnapshotRuns.SnapshotVerb>)
    requires m.queue == WorkRuns.Run(vs).queue && m.snapshots == SnapshotRuns.Run(ss)
    ensures var now := RecoverMind(m);
            NobodyActs(now) && NothingReferenced(now.snapshots) && NothingLeased(now.queue)
            && now.queue.items.Keys == m.queue.items.Keys
            && forall id :: id in m.queue.items && m.queue.items[id].status != WorkQueue.Leased ==>
                 now.queue.items[id] == m.queue.items[id]
  {
    WorkRuns.RunStores(vs);
    LeasesDropped(m.queue);
    SnapshotRuns.ReferencesConserved(ss);
    ReferencesDropped(m.snapshots);
  }

  /** What a restart does to agents and operations, by role and status: the roles it
      sweeps are marked crashed where they claimed to be alive, and lose their session;
      operations accepted or running are interrupted; nothing else changes. */
  lemma RestartSweeps(m: Mindful, id: AgentId, op: OperationId)
    ensures var now := RecoverMind(m);
            now.agents.Keys == m.agents.Keys && now.operations.Keys == m.operations.Keys
            && (id in m.agents ==>
                  var was, after := m.agents[id], now.agents[id];
                  var swept := was.status == "alive"
                               && (was.role == "neuocyte" || was.role == "ego" || was.role == "id"
                                   || was.role == "inference");
                  after.role == was.role
                  && (swept ==> after.status == "crashed" && after.session == None)
                  && (!swept ==> after == was))
            && (op in m.operations ==>
                  var was, after := m.operations[op], now.operations[op];
                  (was == "accepted" || was == "running" ==> after == "interrupted")
                  && (was != "accepted" && was != "running" ==> after == was))
  {
  }

  lemma HasFirst<T>(s: seq<T>)
    ensures s != [] ==> exists x :: x in s
  {
    assert s != [] ==> s[0] in s;
  }

  lemma NothingToRequeue(q: WorkQueue.Queue)
    requires NothingLeased(q)
    ensures WorkQueue.Recover(q)
            == q.(log := q.log + [WorkQueue.Recovery([]), WorkQueue.RunStarted])
  {
    WorkQueue.LeasedIdsAre(q.items, q.order);
    var ids := WorkQueue.LeasedIds(q.items, q.order);
    HasFirst(ids);
    WorkQueue.MoveAllNone(q.items, WorkQueue.Requeue);
  }

  /** Restarting twice is restarting once, but for what the log says of it. */
  lemma RestartTwiceIsOnce(m: Mindful, vs: seq<WorkRuns.Verb>,
                           ss: seq<SnapshotRuns.SnapshotVerb>)
    requires m.queue == WorkRuns.Run(vs).queue && m.snapshots == SnapshotRuns.Run(ss)
    ensures var once := RecoverMind(m);
            RecoverMind(once)
            == once.(queue := once.queue.(log := once.queue.log
                                                 + [WorkQueue.Recovery([]), WorkQueue.RunStarted]))
  {
    var once := RecoverMind(m);
    RestartHoldsNothing(m, vs, ss);
    NothingToRequeue(once.queue);
    assert Crash(once.agents) == once.agents;
    assert Interrupt(once.operations) == once.operations;
    NothingToRelease(once.snapshots);
  }

  lemma NothingToRelease(s: Store)
    requires NothingReferenced(s)
    ensures RecoverSnapshots(s) == s
  {
    assert RecoverSnapshots(s).snaps == s.snaps;
    assert RecoverSnapshots(s).refs == s.refs;
  }

  /** A result half-finished before a restart cannot commit after it: whoever held
      the lease, whatever ran before the restart, and whatever runs since. */
  lemma LateResultsDie(vs: seq<WorkRuns.Verb>, ws: seq<WorkRuns.Verb>, id: WorkQueue.WorkId,
                       neuocyte: string, text: string, requeue: bool, until: WorkQueue.Time)
    requires id in WorkRuns.Run(vs).queue.items
    requires WorkRuns.Run(vs).queue.items[id].status == WorkQueue.Leased
    ensures var held := WorkRuns.Run(vs).queue.items[id].token;
            var q := WorkRuns.Run(vs + [WorkRuns.DoRecover] + ws).queue;
            WorkQueue.Complete(q, id, neuocyte, held, text).0.items == q.items
            && WorkQueue.Complete(q, id, neuocyte, held, text).1 != WorkQueue.Committed
            && WorkQueue.Fail(q, id, neuocyte, held, text, requeue).0.items == q.items
            && WorkQueue.Fail(q, id, neuocyte, held, text, requeue).1 != WorkQueue.Committed
            && WorkQueue.RenewLease(q, id, neuocyte, held, until) == (q, false)
            && WorkQueue.Authorise(q, id, neuocyte, held) == Err(WorkQueue.Fenced)
  {
    var held := WorkRuns.Run(vs).queue.items[id].token;
    WorkRuns.RunStores(vs);
    var q := WorkRuns.Run(vs).queue;
    WorkQueue.LeasedIdsAre(q.items, q.order);
    var restarted := vs + [WorkRuns.DoRecover];
    assert restarted[..|restarted|-1] == vs;
    assert WorkRuns.Run(restarted) == WorkRuns.Step(WorkRuns.Run(vs), WorkRuns.DoRecover);
    WorkFencing.SupersededTokenIsInert(restarted, ws, id, held, neuocyte, text, requeue, until);
  }
}
