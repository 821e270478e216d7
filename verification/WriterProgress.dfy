/**
  What a call comes to is settled when it has the lock: left to run, its thread
  commits exactly what the call does as one step, answers with its receipt, and
  gives the lock back. So no thread blocks the others for good, and every history
  of calls, heartbeats and read receipts is what some schedule commits.
 */
module WriterProgress {
  import opened Outcomes
  import opened HashChain
  import opened StateWriter
  import opened WriterHistory
  import opened Interleaving

  /** What is committed, answered and entered in the history. */
  datatype Effect<!S> = Effect(durable: Db<S>, answers: seq<Answer>, entries: seq<Entry<S>>)

  function CallComesTo<S>(h: Hasher, d: Db<S>, req: Request<S>): Effect<S> {
    var (after, r) := Commit(h, d, req);
    Effect(after, if r.Ok? then [r.value] else [],
            if r.Ok? && !r.value.replayed then [Applied(req)] else [])
  }

  function JobComesTo<S>(h: Hasher, d: Db<S>, job: Job<S>): Effect<S> {
    match job
    case Call(req) => CallComesTo(h, d, req)
    case Beat(f) => Effect(d.(rows := f(d.rows)), [], [Beaten(f)])
    case Mark(f) => Effect(d.(rows := f(d.rows, d.version)), [], [Marked(f, d.version)])
  }

  /** What the owner of the lock, in phase `p`, will have done when it leaves. */
  function ComesTo<S>(h: Hasher, d: Db<S>, p: Phase<S>): Effect<S> {
    match p
    case Locked(req) => CallComesTo(h, d, req)
    case Checked(req) => CallComesTo(h, d, req)
    case InBody(req, _, _, _) => CallComesTo(h, d, req)
    case Linking(req, _, _, _) => CallComesTo(h, d, req)
    case Bumped(req, _, _) => CallComesTo(h, d, req)
    case Receipted(req, _) => CallComesTo(h, d, req)
    case Beating(f) => JobComesTo(h, d, Beat(f))
    case BeatWritten(f) => JobComesTo(h, d, Beat(f))
    case Marking(f, v) => Effect(d.(rows := f(d.rows, v)), [], [Marked(f, v)])
    case MarkWritten(f, v) => Effect(d.(rows := f(d.rows, v)), [], [Marked(f, v)])
    case Leaving(answer) => Effect(d, if answer.Some? then [answer.value] else [], [])
    case _ => Effect(d, [], [])
  }

  function After<S>(s: System<S>, r: Effect<S>): Effect<S> {
    Effect(r.durable, s.answers + r.answers, s.history + r.entries)
  }

  /** What the whole system will have committed, answered and entered. */
  function Forecast<S>(h: Hasher, s: System<S>, t: Thread): Effect<S> {
    After(s, ComesTo(h, s.durable, PhaseOf(s, t)))
  }

  ghost predicate Owns<S>(h: Hasher, s: System<S>, t: Thread) {
    s.owner == Some(t) && PhaseOf(s, t).HoldsLock()
    && Matches(h, s.durable, s.working, PhaseOf(s, t))
  }

  lemma BodyKeepsForecast<S>(h: Hasher, s: System<S>, t: Thread)
    requires Owns(h, s, t) && PhaseOf(s, t).InBody?
    ensures Forecast(h, AdvanceThread(h, s, t), t) == Forecast(h, s, t)
  {
    var p := PhaseOf(s, t);
    if p.done < |p.req.body| {
      RunBodyNext(p.req.author, p.req.body, p.done, p.found);
      if RunBody(p.req.author, p.req.body[..p.done+1], p.found).None? {
        RaisedStays(p.req.author, p.req.body, p.done + 1, p.found);
      }
    }
  }

  /** A clash anywhere in the events makes the whole call come to nothing. */
  lemma ClashComesToNothing<S>(h: Hasher, d: Db<S>, req: Request<S>, queued: seq<Pending>,
                               k: nat, rows: S)
    requires Admissible(d, req) && k <= |queued|
    requires RunBody(req.author, req.body, Found(d.rows, d.version)) == Some((rows, queued))
    requires LinkEvents(h, d.events, queued[..k], req.runId, req.ts).None?
    ensures CallComesTo(h, d, req) == Effect(d, [], [])
  {
    ClashStays(h, d.events, queued, k, req.runId, req.ts);
  }

  lemma LinkingGoesOn<S>(h: Hasher, s: System<S>, t: Thread)
    requires PhaseOf(s, t).Linking?
    requires var p := PhaseOf(s, t);
             p.done < |p.queued| ==> !Taken(s.working.events, p.queued[p.done].eventId)
    ensures Forecast(h, AdvanceThread(h, s, t), t) == Forecast(h, s, t)
  {
  }

  lemma LinkingKeepsForecast<S>(h: Hasher, s: System<S>, t: Thread)
    requires Owns(h, s, t) && PhaseOf(s, t).Linking?
    ensures Forecast(h, AdvanceThread(h, s, t), t) == Forecast(h, s, t)
  {
    var p := PhaseOf(s, t);
    if p.done < |p.queued| && Taken(s.working.events, p.queued[p.done].eventId) {
      LinkNext(h, s.durable.events, p.queued, p.done, p.req.runId, p.req.ts);
      ClashComesToNothing(h, s.durable, p.req, p.queued, p.done + 1, s.working.rows);
    } else {
      LinkingGoesOn(h, s, t);
    }
  }

  lemma LockedKeepsForecast<S>(h: Hasher, s: System<S>, t: Thread)
    requires Owns(h, s, t) && PhaseOf(s, t).Locked?
    ensures Forecast(h, AdvanceThread(h, s, t), t) == Forecast(h, s, t)
  {
  }

  /** No step the owner takes changes what its job will have come to. */
  lemma AdvanceKeepsForecast<S>(h: Hasher, s: System<S>, t: Thread)
    requires Owns(h, s, t)
    ensures Forecast(h, AdvanceThread(h, s, t), t) == Forecast(h, s, t)
  {
    match PhaseOf(s, t)
    case Locked(_) => LockedKeepsForecast(h, s, t);
    case InBody(_, _, _, _) => BodyKeepsForecast(h, s, t);
    case Linking(_, _, _, _) => LinkingKeepsForecast(h, s, t);
    case _ =>
  }

  // ------------------------------------------------- the lock is given back

  function Rank<S>(p: Phase<S>): (r: nat) {
    match p
    case Locked(_) => 8
    case Checked(_) => 7
    case InBody(_, _, _, _) => 6
    case Linking(_, _, _, _) => 5
    case Bumped(_, _, _) => 4
    case Beating(_) => 4
    case Marking(_, _) => 4
    case Receipted(_, _) => 3
    case BeatWritten(_) => 3
    case MarkWritten(_, _) => 3
    case Leaving(_) => 2
    case _ => 1
  }

  function Remaining<S>(p: Phase<S>): nat {
    match p
    case InBody(req, _, k, _) => if k < |req.body| then |req.body| - k else 0
    case Linking(_, _, queued, k) => if k < |queued| then |queued| - k else 0
    case _ => 0
  }

  lemma AdvanceGetsOn<S>(h: Hasher, s: System<S>, t: Thread)
    requires PhaseOf(s, t).HoldsLock()
    ensures var p, q := PhaseOf(s, t), PhaseOf(AdvanceThread(h, s, t), t);
            Rank(q) < Rank(p) || (Rank(q) == Rank(p) && Remaining(q) < Remaining(p))
  {
  }

  function Alone<S>(h: Hasher, s: System<S>, t: Thread, n: nat): System<S>
    decreases n
  {
    if n == 0 then s else Alone(h, AdvanceThread(h, s, t), t, n - 1)
  }

  /** Nothing is left to do: the forecast has come true, and the lock is free. */
  ghost predicate Left<S>(s: System<S>, t: Thread, r: Effect<S>) {
    s.owner == None && PhaseOf(s, t).Idle? && s.working == s.durable
    && s.durable == r.durable && s.answers == r.answers && s.history == r.entries
  }

  lemma {:induction false} OwnerFinishes<S>(h: Hasher, s: System<S>, t: Thread) returns (n: nat)
    requires Owns(h, s, t)
    ensures Left(Alone(h, s, t, n), t, Forecast(h, s, t))
    decreases Rank(PhaseOf(s, t)), Remaining(PhaseOf(s, t))
  {
    var r := AdvanceThread(h, s, t);
    AdvanceKeepsForecast(h, s, t);
    OwnerKeepsMatch(h, s, t, Advance);
    AdvanceGetsOn(h, s, t);
    if r.owner == None {
      n := 1;
      assert Alone(h, s, t, 1) == Alone(h, r, t, 0);
    } else {
      var m := OwnerFinishes(h, r, t);
      n := m + 1;
    }
  }

  function Advances<S>(t: Thread, n: nat): seq<(Thread, Action<S>)> {
    if n == 0 then [] else [(t, Advance)] + Advances(t, n - 1)
  }

  lemma {:induction false} RunAlone<S>(h: Hasher, rows: S, schedule: seq<(Thread, Action<S>)>,
                                       t: Thread, n: nat)
    ensures Run(h, rows, schedule + Advances(t, n)) == Alone(h, Run(h, rows, schedule), t, n)
    decreases n
  {
    if n == 0 {
      assert schedule + [] == schedule;
    } else {
      RunMore(h, rows, schedule, t, Advance);
      RunAlone(h, rows, schedule + [(t, Advance)], t, n - 1);
      assert schedule + Advances(t, n) == schedule + [(t, Advance)] + Advances(t, n - 1);
    }
  }

  /** Whoever has the lock gives it back by its own steps alone, wherever it is. */
  lemma LockIsGivenBack<S>(h: Hasher, rows: S, schedule: seq<(Thread, Action<S>)>, t: Thread)
    returns (n: nat)
    requires Run(h, rows, schedule).owner == Some(t)
    ensures Left(Run(h, rows, schedule + Advances(t, n)), t,
                 Forecast(h, Run(h, rows, schedule), t))
  {
    WritersLinearise(h, rows, schedule);
    n := OwnerFinishes(h, Run(h, rows, schedule), t);
    RunAlone(h, rows, schedule, t, n);
  }

  // ------------------------------------------------- jobs run to their end

  lemma TakesLock<S>(h: Hasher, s: System<S>, t: Thread, job: Job<S>) returns (n: nat)
    requires Guarded(h, s) && s.owner == None && PhaseOf(s, t) == Waiting(job)
    ensures Owns(h, Alone(h, s, t, n), t)
    ensures Forecast(h, Alone(h, s, t, n), t) == After(s, JobComesTo(h, s.durable, job))
  {
    n := if job.Mark? then 2 else 1;
    var r := AdvanceThread(h, s, t);
    assert Alone(h, s, t, 1) == Alone(h, r, t, 0);
    if job.Mark? {
      assert Alone(h, r, t, 1) == Alone(h, AdvanceThread(h, r, t), t, 0);
    }
  }

  lemma {:induction false} AloneAppend<S>(h: Hasher, s: System<S>, t: Thread, m: nat, n: nat)
    ensures Alone(h, s, t, m + n) == Alone(h, Alone(h, s, t, m), t, n)
    decreases m
  {
    if m > 0 {
      AloneAppend(h, AdvanceThread(h, s, t), t, m - 1, n);
    }
  }

  /** A job started while the lock is free, and left to run, commits exactly what it
      does as one step: a call takes effect, or changes nothing and is answered with
      the receipt on record or refused. */
  lemma JobRunsAlone<S>(h: Hasher, rows: S, schedule: seq<(Thread, Action<S>)>, t: Thread,
                        job: Job<S>) returns (n: nat)
    requires var s := Run(h, rows, schedule); s.owner == None && PhaseOf(s, t).Idle?
    ensures var s := Run(h, rows, schedule);
            Left(Run(h, rows, schedule + [(t, Start(job))] + Advances(t, n)), t,
                 After(s, JobComesTo(h, s.durable, job)))
  {
    var started := schedule + [(t, Start(job))];
    RunMore(h, rows, schedule, t, Start(job));
    WritersLinearise(h, rows, started);
    var s := Run(h, rows, started);
    var m := TakesLock(h, s, t, job);
    var k := OwnerFinishes(h, Alone(h, s, t, m), t);
    n := m + k;
    AloneAppend(h, s, t, m, k);
    RunAlone(h, rows, started, t, n);
  }

  /** One job after another, each as one step. */
  function InTurn<S>(h: Hasher, d: Db<S>, jobs: seq<Job<S>>): Effect<S> {
    if jobs == [] then Effect(d, [], [])
    else
      var before := InTurn(h, d, jobs[..|jobs|-1]);
      var last := JobComesTo(h, before.durable, jobs[|jobs|-1]);
      Effect(last.durable, before.answers + last.answers, before.entries + last.entries)
  }

  /** Whatever jobs run one after another come to, some schedule comes to. */
  lemma {:induction false} EveryOrderIsReached<S>(h: Hasher, rows: S, jobs: seq<Job<S>>, t: Thread)
    returns (schedule: seq<(Thread, Action<S>)>)
    ensures Left(Run(h, rows, schedule), t, InTurn(h, Fresh(rows), jobs))
  {
    if jobs == [] {
      schedule := [];
    } else {
      var before := EveryOrderIsReached(h, rows, jobs[..|jobs|-1], t);
      var n := JobRunsAlone(h, rows, before, t, jobs[|jobs|-1]);
      schedule := before + [(t, Start(jobs[|jobs|-1]))] + Advances(t, n);
    }
  }
}
