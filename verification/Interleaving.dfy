/**
  Threads sharing one connection. The connection has a single transaction, so
  what one thread commits is whatever any thread has written; the lock is what
  keeps a commit from publishing another thread's half-finished work.

  A call of the writer is cut into its sub-steps, and any schedule may interleave
  them with other calls, with heartbeats and with read receipts. A call may raise
  at any of its sub-steps.
 */
module Interleaving {
  import opened Outcomes
  import opened HashChain
  import opened StateWriter
  import opened WriterHistory

  type Thread = nat

  datatype Job<!S> =
    | Call(req: Request<S>)
    | Beat(beat: S -> S)
    | Mark(mark: (S, int) -> S)

  /** Where a thread is. The phases after the first three hold the lock. */
  datatype Phase<!S> =
    | Idle
    | Waiting(job: Job<S>)
    | WaitingToMark(mark: (S, int) -> S, sampled: int)
    | Locked(req: Request<S>)
    | Checked(req: Request<S>)
    | InBody(req: Request<S>, found: Found<S>, done: nat, queued: seq<Pending>)
    | Linking(req: Request<S>, prior: int, queued: seq<Pending>, done: nat)
    | Bumped(req: Request<S>, prior: int, queued: seq<Pending>)
    | Receipted(req: Request<S>, receipt: Receipt)
    | Beating(beat: S -> S)
    | BeatWritten(beat: S -> S)
    | Marking(mark: (S, int) -> S, sampled: int)
    | MarkWritten(mark: (S, int) -> S, sampled: int)
    | Leaving(answer: Option<Answer>)
  {
    predicate HoldsLock() {
      !Idle? && !Waiting? && !WaitingToMark?
    }
  }

  datatype System<!S> = System(
    durable: Db<S>,
    working: Db<S>,
    owner: Option<Thread>,
    phases: map<Thread, Phase<S>>,
    history: seq<Entry<S>>,
    answers: seq<Answer>)

  datatype Action<!S> = Start(job: Job<S>) | Advance | Raise

  function PhaseOf<S>(s: System<S>, t: Thread): Phase<S> {
    if t in s.phases then s.phases[t] else Idle
  }

  function Goto<S>(s: System<S>, t: Thread, p: Phase<S>): System<S> {
    s.(phases := s.phases[t := p])
  }

  function Rollback<S>(s: System<S>, t: Thread): System<S> {
    Goto(s.(working := s.durable), t, Leaving(None))
  }

  /** COMMIT publishes the connection's whole uncommitted state. */
  function Publish<S>(s: System<S>, t: Thread, e: Entry<S>, answer: Option<Answer>): System<S> {
    Goto(s.(durable := s.working, history := s.history + [e]), t, Leaving(answer))
  }

  predicate Unexpected<S>(req: Request<S>, version: int) {
    req.expectVersion.Some? && req.expectVersion.value != version
  }

  /** Take the lock if it is free; otherwise wait. */
  function Enqueue<S>(s: System<S>, t: Thread, p: Phase<S>): System<S> {
    if s.owner == None then Goto(s.(owner := Some(t)), t, p) else s
  }

  /** A statement uses what this thread found when its transaction began, and what
      the connection shows it now. */
  function AdvanceBody<S>(s: System<S>, t: Thread, req: Request<S>, found: Found<S>, k: nat,
                          queued: seq<Pending>): System<S>
  {
    if k < |req.body| then
      match req.body[k]
      case Write(f) =>
        var written := f(found, s.working.rows);
        if written.None? then Rollback(s, t)
        else
          Goto(s.(working := s.working.(rows := written.value)), t,
               InBody(req, found, k + 1, queued))
      case Emit(drafts) =>
        Goto(s, t, InBody(req, found, k + 1,
                          Queue(req.author, queued, drafts(found, s.working.rows))))
    else if Unexpected(req, s.working.version) then Rollback(s, t)
    else Goto(s, t, Linking(req, s.working.version, queued, 0))
  }

  function AdvanceLinking<S>(h: Hasher, s: System<S>, t: Thread, req: Request<S>, prior: int,
                             queued: seq<Pending>, k: nat): System<S>
  {
    if k < |queued| then
      if Taken(s.working.events, queued[k].eventId) then Rollback(s, t)
      else
        var row := NextRow(h, s.working.events, queued[k], req.runId, req.ts);
        Goto(s.(working := s.working.(events := s.working.events + [row])), t,
             Linking(req, prior, queued, k + 1))
    else
      var version := if req.bumpVersion then prior + 1 else s.working.version;
      Goto(s.(working := s.working.(version := version)), t, Bumped(req, prior, queued))
  }

  function AdvanceBumped<S>(s: System<S>, t: Thread, req: Request<S>, prior: int,
                            queued: seq<Pending>): System<S>
  {
    var logged := if |s.working.events| >= |queued| then |s.working.events| - |queued| else 0;
    var receipt := ReceiptOf(req, prior, logged, |queued|);
    Goto(s.(working := s.working.(receipts := s.working.receipts + [receipt])), t,
         Receipted(req, receipt))
  }

  function AdvanceThread<S>(h: Hasher, s: System<S>, t: Thread): System<S> {
    match PhaseOf(s, t)
    case Idle => s
    case Waiting(Call(req)) => Enqueue(s, t, Locked(req))
    case Waiting(Beat(f)) => Enqueue(s, t, Beating(f))
    case Waiting(Mark(f)) => Goto(s, t, WaitingToMark(f, s.working.version))
    case WaitingToMark(f, sampled) => Enqueue(s, t, Marking(f, sampled))
    case Locked(req) =>
      var existing := FindReceipt(s.working.receipts, req.mutationId);
      if existing.Some? then Goto(s, t, Leaving(Some(Answer(existing.value, true))))
      else if Unexpected(req, s.working.version) then Goto(s, t, Leaving(None))
      else Goto(s, t, Checked(req))
    case Checked(req) => Goto(s, t, InBody(req, Found(s.working.rows, s.working.version), 0, []))
    case InBody(req, found, k, queued) => AdvanceBody(s, t, req, found, k, queued)
    case Linking(req, prior, queued, k) => AdvanceLinking(h, s, t, req, prior, queued, k)
    case Bumped(req, prior, queued) => AdvanceBumped(s, t, req, prior, queued)
    case Receipted(req, receipt) => Publish(s, t, Applied(req), Some(Answer(receipt, false)))
    case Beating(f) =>
      Goto(s.(working := s.working.(rows := f(s.working.rows))), t, BeatWritten(f))
    case BeatWritten(f) => Publish(s, t, Beaten(f), None)
    case Marking(f, sampled) =>
      Goto(s.(working := s.working.(rows := f(s.working.rows, sampled))), t,
           MarkWritten(f, sampled))
    case MarkWritten(f, sampled) => Publish(s, t, Marked(f, sampled), None)
    case Leaving(answer) =>
      Goto(s.(owner := None,
              answers := s.answers + if answer.Some? then [answer.value] else []), t, Idle)
  }

  /** An exception inside a call: roll back whatever is open, keep the lock until
      the `with` block is left. */
  function RaiseIn<S>(s: System<S>, t: Thread): System<S> {
    match PhaseOf(s, t)
    case Locked(_) => Goto(s, t, Leaving(None))
    case Checked(_) => Goto(s, t, Leaving(None))
    case InBody(_, _, _, _) => Rollback(s, t)
    case Linking(_, _, _, _) => Rollback(s, t)
    case Bumped(_, _, _) => Rollback(s, t)
    case Receipted(_, _) => Rollback(s, t)
    case _ => s
  }

  function Step<S>(h: Hasher, s: System<S>, t: Thread, a: Action<S>): System<S> {
    match a
    case Start(job) => if PhaseOf(s, t).Idle? then Goto(s, t, Waiting(job)) else s
    case Advance => AdvanceThread(h, s, t)
    case Raise => RaiseIn(s, t)
  }

  function Begin<S>(rows: S): System<S> {
    System(Fresh(rows), Fresh(rows), None, map[], [], [])
  }

  function Run<S>(h: Hasher, rows: S, schedule: seq<(Thread, Action<S>)>): System<S> {
    if schedule == [] then Begin(rows)
    else
      var last := schedule[|schedule|-1];
      Step(h, Run(h, rows, schedule[..|schedule|-1]), last.0, last.1)
  }

  // ---------------------------------------------------------------- invariant

  /** What the connection shows while a thread is in phase `p`. */
  ghost predicate Matches<S>(h: Hasher, d: Db<S>, w: Db<S>, p: Phase<S>) {
    match p
    case Checked(req) => w == d && Admissible(d, req)
    case InBody(req, found, k, queued) =>
      Admissible(d, req) && k <= |req.body| && found == Found(d.rows, d.version)
      && RunBody(req.author, req.body[..k], found) == Some((w.rows, queued))
      && w == d.(rows := w.rows)
    case Linking(req, prior, queued, k) =>
      Admissible(d, req) && k <= |queued| && prior == d.version
      && RunBody(req.author, req.body, Found(d.rows, d.version)) == Some((w.rows, queued))
      && LinkEvents(h, d.events, queued[..k], req.runId, req.ts) == Some(w.events)
      && w == d.(rows := w.rows, events := w.events)
    case Bumped(req, prior, queued) =>
      Admissible(d, req) && prior == d.version
      && RunBody(req.author, req.body, Found(d.rows, d.version)) == Some((w.rows, queued))
      && LinkEvents(h, d.events, queued, req.runId, req.ts) == Some(w.events)
      && w == Db(w.rows, w.events, if req.bumpVersion then prior + 1 else prior, d.receipts)
    case Receipted(req, receipt) => Commit(h, d, req) == (w, Ok(Answer(receipt, false)))
    case BeatWritten(f) => w == d.(rows := f(d.rows))
    case MarkWritten(f, sampled) => w == d.(rows := f(d.rows, sampled))
    case Leaving(answer) => w == d && (answer.Some? ==> answer.value.receipt in d.receipts)
    case _ => w == d
  }

  ghost predicate Admissible<S>(d: Db<S>, req: Request<S>) {
    FindReceipt(d.receipts, req.mutationId).None? && !Unexpected(req, d.version)
  }

  /** At most the owner holds the lock, and it is where its phase says. */
  ghost predicate Guarded<S>(h: Hasher, s: System<S>) {
    (forall t: Thread :: PhaseOf(s, t).HoldsLock() <==> s.owner == Some(t))
    && Matches(h, s.durable, s.working,
               if s.owner.Some? then PhaseOf(s, s.owner.value) else Idle)
  }

  /** The mutation ids committed along a history, in order. */
  function CommittedIds<S>(history: seq<Entry<S>>): seq<string> {
    if history == [] then []
    else
      var e := history[|history|-1];
      CommittedIds(history[..|history|-1]) + if e.Applied? then [e.req.mutationId] else []
  }

  function IdsOf(receipts: seq<Receipt>): seq<string> {
    if receipts == [] then []
    else IdsOf(receipts[..|receipts|-1]) + [receipts[|receipts|-1].mutationId]
  }

  /** The committed state is the history's, entry by entry, and every entry
      that is a call took effect. */
  ghost predicate Linear<S>(h: Hasher, rows: S, s: System<S>) {
    s.durable == Replay(h, Fresh(rows), s.history)
    && IdsOf(s.durable.receipts) == CommittedIds(s.history)
    && forall a :: a in s.answers ==> a.receipt in s.durable.receipts
  }

  lemma RunBodyNext<S>(author: Author, body: seq<BodyOp<S>>, k: nat, found: Found<S>)
    requires k < |body| && RunBody(author, body[..k], found).Some?
    ensures RunBody(author, body[..k+1], found)
            == var before := RunBody(author, body[..k], found).value;
               match body[k]
               case Write(f) =>
                 var written := f(found, before.0);
                 if written.None? then None else Some((written.value, before.1))
               case Emit(drafts) =>
                 Some((before.0, Queue(author, before.1, drafts(found, before.0))))
  {
    assert body[..k+1][..k] == body[..k];
  }

  lemma LinkNext(h: Hasher, log: seq<Row>, events: seq<Pending>, k: nat, runId: string, ts: int)
    requires k < |events| && LinkEvents(h, log, events[..k], runId, ts).Some?
    ensures LinkEvents(h, log, events[..k+1], runId, ts)
            == var before := LinkEvents(h, log, events[..k], runId, ts).value;
               if Taken(before, events[k].eventId) then None
               else Some(before + [NextRow(h, before, events[k], runId, ts)])
  {
    assert events[..k+1][..k] == events[..k];
  }

  lemma {:induction false} LinkLength(h: Hasher, log: seq<Row>, events: seq<Pending>,
                                      runId: string, ts: int)
    ensures var linked := LinkEvents(h, log, events, runId, ts);
            linked.Some? ==> |linked.value| == |log| + |events|
  {
    if events != [] {
      LinkLength(h, log, events[..|events|-1], runId, ts);
    }
  }

  /** The owner's own step keeps the connection where its new phase says. */
  lemma OwnerKeepsMatch<S>(h: Hasher, s: System<S>, t: Thread, a: Action<S>)
    requires Matches(h, s.durable, s.working, PhaseOf(s, t)) && PhaseOf(s, t).HoldsLock()
    requires s.owner == Some(t)
    ensures var r := Step(h, s, t, a);
            Matches(h, r.durable, r.working, PhaseOf(r, t))
            && ((r.owner == Some(t) && PhaseOf(r, t).HoldsLock())
                || (r.owner == None && PhaseOf(r, t).Idle?))
  {
    if a.Advance? {
      match PhaseOf(s, t)
      case Locked(req) => FindReceiptIs(s.durable.receipts, req.mutationId);
      case Checked(req) => assert req.body[..0] == [];
      case InBody(req, found, k, queued) => BodyKeepsMatch(h, s, t, req, found, k, queued);
      case Linking(req, prior, queued, k) => LinkingKeepsMatch(h, s, t, req, prior, queued, k);
      case Bumped(req, prior, queued) => BumpedKeepsMatch(h, s, t, req, prior, queued);
      case Receipted(req, receipt) => assert receipt in s.working.receipts;
      case _ =>
    }
  }

  lemma BumpedKeepsMatch<S>(h: Hasher, s: System<S>, t: Thread, req: Request<S>, prior: int,
                            queued: seq<Pending>)
    requires Matches(h, s.durable, s.working, Bumped(req, prior, queued))
    ensures var r := AdvanceBumped(s, t, req, prior, queued);
            Matches(h, r.durable, r.working, PhaseOf(r, t)) && PhaseOf(r, t).HoldsLock()
            && r.owner == s.owner
  {
    LinkLength(h, s.durable.events, queued, req.runId, req.ts);
  }

  lemma BodyKeepsMatch<S>(h: Hasher, s: System<S>, t: Thread, req: Request<S>, found: Found<S>, k: nat,
                          queued: seq<Pending>)
    requires Matches(h, s.durable, s.working, InBody(req, found, k, queued))
    ensures var r := AdvanceBody(s, t, req, found, k, queued);
            Matches(h, r.durable, r.working, PhaseOf(r, t)) && PhaseOf(r, t).HoldsLock()
            && r.owner == s.owner
  {
    if k < |req.body| {
      RunBodyNext(req.author, req.body, k, found);
    } else {
      assert req.body[..k] == req.body;
      assert queued[..0] == [];
    }
  }

  lemma LinkingKeepsMatch<S>(h: Hasher, s: System<S>, t: Thread, req: Request<S>, prior: int,
                             queued: seq<Pending>, k: nat)
    requires Matches(h, s.durable, s.working, Linking(req, prior, queued, k))
    ensures var r := AdvanceLinking(h, s, t, req, prior, queued, k);
            Matches(h, r.durable, r.working, PhaseOf(r, t)) && PhaseOf(r, t).HoldsLock()
            && r.owner == s.owner
  {
    if k < |queued| {
      LinkNext(h, s.durable.events, queued, k, req.runId, req.ts);
    } else {
      assert queued[..k] == queued;
    }
  }

  /** A thread that does not hold the lock can at most take it. */
  lemma OutsiderTouchesNothing<S>(h: Hasher, s: System<S>, t: Thread, a: Action<S>)
    requires Guarded(h, s) && s.owner != Some(t)
    ensures var r := Step(h, s, t, a);
            r.durable == s.durable && r.working == s.working && r.history == s.history
            && r.answers == s.answers
            && ((r.owner == s.owner && !PhaseOf(r, t).HoldsLock())
                || (s.owner == None && r.owner == Some(t) && PhaseOf(r, t).HoldsLock()
                    && Matches(h, r.durable, r.working, PhaseOf(r, t))))
  {
    assert !PhaseOf(s, t).HoldsLock();
  }

  lemma OthersStay<S>(h: Hasher, s: System<S>, t: Thread, a: Action<S>, u: Thread)
    requires u != t
    ensures PhaseOf(Step(h, s, t, a), u) == PhaseOf(s, u)
  {
  }

  lemma StepGuarded<S>(h: Hasher, s: System<S>, t: Thread, a: Action<S>)
    requires Guarded(h, s)
    ensures Guarded(h, Step(h, s, t, a))
  {
    var r := Step(h, s, t, a);
    if s.owner == Some(t) {
      OwnerKeepsMatch(h, s, t, a);
    } else {
      OutsiderTouchesNothing(h, s, t, a);
    }
    forall u: Thread ensures PhaseOf(r, u).HoldsLock() <==> r.owner == Some(u) {
      if u != t {
        OthersStay(h, s, t, a, u);
        assert PhaseOf(s, u).HoldsLock() <==> s.owner == Some(u);
      }
    }
    if r.owner.Some? && r.owner.value != t {
      OthersStay(h, s, t, a, r.owner.value);
    }
  }

  /** COMMIT adds the owner's own entry, and that entry took effect. */
  lemma PublishLinear<S>(h: Hasher, rows: S, s: System<S>, t: Thread, e: Entry<S>,
                         answer: Option<Answer>)
    requires Linear(h, rows, s) && s.working == Enter(h, s.durable, e)
    requires e.Applied? ==> exists r: Receipt ::
               r.mutationId == e.req.mutationId && s.working.receipts == s.durable.receipts + [r]
    ensures Linear(h, rows, Publish(s, t, e, answer))
  {
    assert (s.history + [e])[..|s.history|] == s.history;
    if e.Applied? {
      var r: Receipt :| r.mutationId == e.req.mutationId
                        && s.working.receipts == s.durable.receipts + [r];
      assert s.working.receipts[..|s.durable.receipts|] == s.durable.receipts;
    }
  }

  /** Nothing but a commit changes what is durable. */
  lemma OwnerLinear<S>(h: Hasher, rows: S, s: System<S>, t: Thread)
    requires Matches(h, s.durable, s.working, PhaseOf(s, t)) && PhaseOf(s, t).HoldsLock()
    requires Linear(h, rows, s)
    ensures Linear(h, rows, AdvanceThread(h, s, t))
  {
    match PhaseOf(s, t)
    case Receipted(req, receipt) =>
      assert s.working.receipts == s.durable.receipts + [receipt];
      PublishLinear(h, rows, s, t, Applied(req), Some(Answer(receipt, false)));
    case BeatWritten(f) => PublishLinear(h, rows, s, t, Beaten(f), None);
    case MarkWritten(f, v) => PublishLinear(h, rows, s, t, Marked(f, v), None);
    case InBody(req, found, k, queued) =>
      assert AdvanceBody(s, t, req, found, k, queued).history == s.history;
    case _ =>
  }

  lemma StepLinear<S>(h: Hasher, rows: S, s: System<S>, t: Thread, a: Action<S>)
    requires Guarded(h, s) && Linear(h, rows, s)
    ensures Linear(h, rows, Step(h, s, t, a))
  {
    if s.owner != Some(t) {
      OutsiderTouchesNothing(h, s, t, a);
    } else if a.Advance? {
      OwnerLinear(h, rows, s, t);
    }
  }

  /** Concurrent writers linearise. In every interleaving: while nobody holds
      the lock nothing uncommitted is pending; the durable state is the committed
      entries replayed one at a time in commit order, each call having taken
      effect exactly once; and every answer given has its receipt on record. */
  lemma {:induction false} WritersLinearise<S>(h: Hasher, rows: S,
                                               schedule: seq<(Thread, Action<S>)>)
    ensures Guarded(h, Run(h, rows, schedule))
    ensures Linear(h, rows, Run(h, rows, schedule))
  {
    if schedule != [] {
      var last := schedule[|schedule|-1];
      var s := Run(h, rows, schedule[..|schedule|-1]);
      WritersLinearise(h, rows, schedule[..|schedule|-1]);
      StepGuarded(h, s, last.0, last.1);
      StepLinear(h, rows, s, last.0, last.1);
    }
  }

  /** So every interleaving leaves a verified log, gapless versions, ranges that
      tile the log, and one receipt for each mutation id. */
  lemma InterleavingsAreSound<S>(h: Hasher, rows: S, schedule: seq<(Thread, Action<S>)>)
    ensures Sound(h, Run(h, rows, schedule).durable)
  {
    WritersLinearise(h, rows, schedule);
    HistoriesAreSound(h, rows, Run(h, rows, schedule).history);
  }

  /** What a body reads when it begins, and so what its events are made of, is
      committed: the writes of no other call, half done or rolled back, reach it. */
  lemma BodiesReadCommitted<S>(h: Hasher, rows: S, schedule: seq<(Thread, Action<S>)>, t: Thread)
    requires PhaseOf(Run(h, rows, schedule), t).InBody?
    ensures var s := Run(h, rows, schedule);
            var p := PhaseOf(s, t);
            s.owner == Some(t)
            && p.found == Found(s.durable.rows, s.durable.version)
            && p.done <= |p.req.body|
            && RunBody(p.req.author, p.req.body[..p.done], p.found)
               == Some((s.working.rows, p.queued))
  {
    WritersLinearise(h, rows, schedule);
    assert PhaseOf(Run(h, rows, schedule), t).HoldsLock();
  }

  // ------------------------------------------------- read receipts

  predicate SampleWithin<S>(p: Phase<S>, limit: int) {
    match p
    case WaitingToMark(_, v) => v <= limit
    case Marking(_, v) => v <= limit
    case MarkWritten(_, v) => v <= limit
    case _ => true
  }

  ghost predicate SamplesWithin<S>(s: System<S>) {
    forall t: Thread :: SampleWithin(PhaseOf(s, t), s.durable.version + 1)
  }

  lemma WorkingVersion<S>(h: Hasher, s: System<S>)
    requires Guarded(h, s)
    ensures s.durable.version <= s.working.version <= s.durable.version + 1
  {
  }

  /** A read receipt takes the version before it has the lock, on a connection
      that shows uncommitted work. It can therefore be ahead, by at most one. */
  lemma {:induction false} SampledVersionBound<S>(h: Hasher, rows: S,
                                                  schedule: seq<(Thread, Action<S>)>)
    ensures SamplesWithin(Run(h, rows, schedule))
  {
    if schedule != [] {
      var last := schedule[|schedule|-1];
      var s := Run(h, rows, schedule[..|schedule|-1]);
      var r := Step(h, s, last.0, last.1);
      SampledVersionBound(h, rows, schedule[..|schedule|-1]);
      WritersLinearise(h, rows, schedule[..|schedule|-1]);
      WorkingVersion(h, s);
      DurableVersionGrows(h, s, last.0, last.1);
      forall t: Thread ensures SampleWithin(PhaseOf(r, t), r.durable.version + 1) {
        assert SampleWithin(PhaseOf(s, t), s.durable.version + 1);
        if t != last.0 {
          OthersStay(h, s, last.0, last.1, t);
        }
      }
    }
  }

  /** Some call has raised the version and not yet committed. */
  predicate BumpPending<S>(s: System<S>) {
    s.owner.Some?
    && match PhaseOf(s, s.owner.value)
       case Bumped(req, _, _) => req.bumpVersion
       case Receipted(req, _) => req.bumpVersion
       case _ => false
  }

  /** The version the connection shows is the committed one exactly while no call
      stands between its bump and its COMMIT; in between it is one ahead. */
  lemma ShownVersionCommittedIff<S>(h: Hasher, s: System<S>)
    requires Guarded(h, s)
    ensures s.working.version == s.durable.version <==> !BumpPending(s)
    ensures BumpPending(s) ==> s.working.version == s.durable.version + 1
  {
  }

  /** At the k-th step of the schedule some thread takes the version `v` for the
      read receipt it is about to record. */
  ghost predicate Sampled<S>(h: Hasher, rows: S, schedule: seq<(Thread, Action<S>)>, k: nat,
                             mark: (S, int) -> S, v: int)
  {
    k < |schedule|
    && var s := Run(h, rows, schedule[..k]);
       schedule[k].1.Advance? && PhaseOf(s, schedule[k].0) == Waiting(Mark(mark))
       && v == s.working.version
  }

  ghost predicate WasSampled<S>(h: Hasher, rows: S, schedule: seq<(Thread, Action<S>)>,
                                mark: (S, int) -> S, v: int)
  {
    exists k: nat :: Sampled(h, rows, schedule, k, mark, v)
  }

  /** Every version a thread carries towards a read receipt was taken earlier. */
  ghost predicate PhaseSampled<S>(h: Hasher, rows: S, schedule: seq<(Thread, Action<S>)>,
                                  p: Phase<S>)
  {
    match p
    case WaitingToMark(mark, v) => WasSampled(h, rows, schedule, mark, v)
    case Marking(mark, v) => WasSampled(h, rows, schedule, mark, v)
    case MarkWritten(mark, v) => WasSampled(h, rows, schedule, mark, v)
    case _ => true
  }

  ghost predicate EntrySampled<S>(h: Hasher, rows: S, schedule: seq<(Thread, Action<S>)>,
                                  e: Entry<S>)
  {
    e.Marked? ==> WasSampled(h, rows, schedule, e.mark, e.version)
  }

  lemma SampledStays<S>(h: Hasher, rows: S, schedule: seq<(Thread, Action<S>)>,
                        mark: (S, int) -> S, v: int)
    requires schedule != [] && WasSampled(h, rows, schedule[..|schedule|-1], mark, v)
    ensures WasSampled(h, rows, schedule, mark, v)
  {
    var before := schedule[..|schedule|-1];
    var k: nat :| Sampled(h, rows, before, k, mark, v);
    assert schedule[..k] == before[..k];
    assert Sampled(h, rows, schedule, k, mark, v);
  }

  lemma PhaseStays<S>(h: Hasher, rows: S, schedule: seq<(Thread, Action<S>)>, p: Phase<S>)
    requires schedule != [] && PhaseSampled(h, rows, schedule[..|schedule|-1], p)
    ensures PhaseSampled(h, rows, schedule, p)
  {
    match p
    case WaitingToMark(mark, v) => SampledStays(h, rows, schedule, mark, v);
    case Marking(mark, v) => SampledStays(h, rows, schedule, mark, v);
    case MarkWritten(mark, v) => SampledStays(h, rows, schedule, mark, v);
    case _ =>
  }

  /** A thread enters these phases by sampling, or carries on with what it had. */
  ghost predicate Carries<S>(s: System<S>, was: Phase<S>, now: Phase<S>) {
    match now
    case WaitingToMark(mark, v) =>
      was == now || (was == Waiting(Mark(mark)) && v == s.working.version)
    case Marking(mark, v) => was == now || was == WaitingToMark(mark, v)
    case MarkWritten(mark, v) => was == now || was == Marking(mark, v)
    case _ => true
  }

  lemma StepCarries<S>(h: Hasher, s: System<S>, t: Thread, a: Action<S>)
    ensures Carries(s, PhaseOf(s, t), PhaseOf(Step(h, s, t, a), t))
    ensures PhaseOf(Step(h, s, t, a), t).WaitingToMark? ==>
              PhaseOf(Step(h, s, t, a), t) == PhaseOf(s, t) || a.Advance?
  {
  }

  lemma PhaseNext<S>(h: Hasher, rows: S, schedule: seq<(Thread, Action<S>)>, s: System<S>,
                     was: Phase<S>, now: Phase<S>)
    requires schedule != [] && PhaseSampled(h, rows, schedule[..|schedule|-1], was)
    requires Carries(s, was, now)
    requires now.WaitingToMark? && now != was ==>
               Sampled(h, rows, schedule, |schedule| - 1, now.mark, now.sampled)
    ensures PhaseSampled(h, rows, schedule, now)
  {
    PhaseStays(h, rows, schedule, was);
  }

  lemma HistoryNext<S>(h: Hasher, s: System<S>, t: Thread, a: Action<S>)
    ensures var r := Step(h, s, t, a);
            r.history == s.history
            || (exists e :: r.history == s.history + [e]
                            && (e.Marked? ==> PhaseOf(s, t) == MarkWritten(e.mark, e.version)))
  {
    var r := Step(h, s, t, a);
    if a.Advance? {
      match PhaseOf(s, t)
      case Receipted(req, receipt) => assert r.history == s.history + [Applied(req)];
      case BeatWritten(f) => assert r.history == s.history + [Beaten(f)];
      case MarkWritten(f, v) => assert r.history == s.history + [Marked(f, v)];
      case InBody(req, found, k, queued) =>
        assert AdvanceBody(s, t, req, found, k, queued).history == s.history;
      case _ =>
    }
  }

  lemma {:induction false} EverythingSampled<S>(h: Hasher, rows: S,
                                                schedule: seq<(Thread, Action<S>)>, t: Thread)
    ensures PhaseSampled(h, rows, schedule, PhaseOf(Run(h, rows, schedule), t))
  {
    if schedule != [] {
      var before, last := schedule[..|schedule|-1], schedule[|schedule|-1];
      var s := Run(h, rows, before);
      EverythingSampled(h, rows, before, t);
      if last.0 == t {
        StepCarries(h, s, t, last.1);
      } else {
        OthersStay(h, s, last.0, last.1, t);
      }
      PhaseNext(h, rows, schedule, s, PhaseOf(s, t), PhaseOf(Run(h, rows, schedule), t));
    }
  }

  lemma {:induction false} EntriesSampled<S>(h: Hasher, rows: S,
                                             schedule: seq<(Thread, Action<S>)>, e: Entry<S>)
    requires e in Run(h, rows, schedule).history
    ensures EntrySampled(h, rows, schedule, e)
  {
    if schedule != [] && e.Marked? {
      var before, last := schedule[..|schedule|-1], schedule[|schedule|-1];
      var s := Run(h, rows, before);
      HistoryNext(h, s, last.0, last.1);
      if e in s.history {
        EntriesSampled(h, rows, before, e);
      } else {
        EverythingSampled(h, rows, before, last.0);
      }
      SampledStays(h, rows, schedule, e.mark, e.version);
    }
  }

  /** Which recorded versions were committed. The version in a recorded read receipt
      was taken at some step of the schedule; it was the committed one at that step
      exactly if no call then stood between its version bump and its COMMIT. */
  lemma RecordedVersionCommittedIff<S>(h: Hasher, rows: S, schedule: seq<(Thread, Action<S>)>,
                                       e: Entry<S>) returns (k: nat)
    requires e in Run(h, rows, schedule).history && e.Marked?
    ensures Sampled(h, rows, schedule, k, e.mark, e.version)
    ensures var at := Run(h, rows, schedule[..k]);
            (e.version == at.durable.version <==> !BumpPending(at))
            && (BumpPending(at) ==> e.version == at.durable.version + 1)
  {
    EntriesSampled(h, rows, schedule, e);
    k :| Sampled(h, rows, schedule, k, e.mark, e.version);
    WritersLinearise(h, rows, schedule[..k]);
    ShownVersionCommittedIff(h, Run(h, rows, schedule[..k]));
  }

  lemma DurableVersionGrows<S>(h: Hasher, s: System<S>, t: Thread, a: Action<S>)
    requires Guarded(h, s)
    ensures s.durable.version <= Step(h, s, t, a).durable.version
  {
    WorkingVersion(h, s);
  }

  lemma RunMore<S>(h: Hasher, rows: S, schedule: seq<(Thread, Action<S>)>, t: Thread, a: Action<S>)
    ensures Run(h, rows, schedule + [(t, a)]) == Step(h, Run(h, rows, schedule), t, a)
  {
    assert (schedule + [(t, a)])[..|schedule|] == schedule;
  }

  /** The bound is met: a call raises after bumping the version, and a reader
      that sampled in between records a version that was never committed. */
  lemma UncommittedVersionCanBeRecorded<S>(h: Hasher, rows: S, mark: (S, int) -> S,
                                           req: Request<S>)
    returns (schedule: seq<(Thread, Action<S>)>)
    requires req.body == [] && req.bumpVersion && req.expectVersion == None
    ensures Run(h, rows, schedule).history == [Marked(mark, 1)]
    ensures Run(h, rows, schedule).durable.version == 0
  {
    schedule := BumpWithoutCommit(h, rows, req);
    schedule := SampleThenRaise(h, rows, mark, schedule);
    for k := 0 to 3
      invariant var s := Run(h, rows, schedule);
                s.durable.version == 0
                && (k == 0 ==> s.owner == None && PhaseOf(s, 1) == WaitingToMark(mark, 1))
                && (k == 1 ==> s.owner == Some(1) && PhaseOf(s, 1) == Marking(mark, 1))
                && (k == 2 ==> PhaseOf(s, 1) == MarkWritten(mark, 1) && s.working.version == 0)
                && s.history == (if k < 3 then [] else [Marked(mark, 1)])
                && s.working.version == 0
    {
      RunMore(h, rows, schedule, 1, Advance);
      schedule := schedule + [(1, Advance)];
    }
  }

  lemma BumpWithoutCommit<S>(h: Hasher, rows: S, req: Request<S>)
    returns (schedule: seq<(Thread, Action<S>)>)
    requires req.body == [] && req.bumpVersion && req.expectVersion == None
    ensures var s := Run(h, rows, schedule);
            s.owner == Some(0) && PhaseOf(s, 0) == Bumped(req, 0, []) && PhaseOf(s, 1) == Idle
            && s.durable == Fresh(rows) && s.working.version == 1 && s.history == []
  {
    schedule := [];
    RunMore(h, rows, schedule, 0, Start(Call(req)));
    schedule := schedule + [(0, Start(Call(req)))];
    for k := 0 to 5
      invariant var s := Run(h, rows, schedule);
                s.durable == Fresh(rows) && s.history == [] && PhaseOf(s, 1) == Idle
                && s.working == Fresh(rows).(version := if k < 5 then 0 else 1)
                && s.owner == (if k == 0 then None else Some(0))
                && PhaseOf(s, 0) == (match k
                                     case 0 => Waiting(Call(req))
                                     case 1 => Locked(req)
                                     case 2 => Checked(req)
                                     case 3 => InBody(req, Found(rows, 0), 0, [])
                                     case 4 => Linking(req, 0, [], 0)
                                     case _ => Bumped(req, 0, []))
    {
      RunMore(h, rows, schedule, 0, Advance);
      schedule := schedule + [(0, Advance)];
    }
  }

  lemma SampleThenRaise<S>(h: Hasher, rows: S, mark: (S, int) -> S,
                           before: seq<(Thread, Action<S>)>)
    returns (schedule: seq<(Thread, Action<S>)>)
    requires var s := Run(h, rows, before);
             s.owner == Some(0) && PhaseOf(s, 0).Bumped? && PhaseOf(s, 1) == Idle
             && s.durable.version == 0 && s.working.version == 1 && s.history == []
    ensures var s := Run(h, rows, schedule);
            s.owner == None && PhaseOf(s, 1) == WaitingToMark(mark, 1)
            && s.durable.version == 0 && s.working.version == 0 && s.history == []
  {
    schedule := before;
    RunMore(h, rows, schedule, 1, Start(Mark(mark)));
    schedule := schedule + [(1, Start(Mark(mark)))];
    RunMore(h, rows, schedule, 1, Advance);
    schedule := schedule + [(1, Advance)];
    RunMore(h, rows, schedule, 0, Raise);
    schedule := schedule + [(0, Raise)];
    RunMore(h, rows, schedule, 0, Advance);
    schedule := schedule + [(0, Advance)];
  }
}
