/**
  Open disputes about what the organism concluded: one at a time for each subject,
  closed by the same transaction that changes the claim they were about.
 */
module Disputes {
  import opened Outcomes

  type DisputeId = string
  type ConclusionId = string

  const RESOLUTIONS := {"superseded", "retracted", "resolved_supported", "closed_by_operator"}

  datatype Status = Open | Closed(resolution: string)

  datatype Dispute = Dispute(kind: string, subject: string, status: Status, recurrences: nat)

  datatype Standing = Active | Retracted | Superseded

  datatype Conclusion = Conclusion(
    producedBy: string, standing: Standing, supersededBy: Option<ConclusionId>)

  datatype Event =
    | Opened(id: DisputeId, recurrence: bool)
    | Resolved(id: DisputeId, resolution: string)
    | Withdrawn(conclusion: ConclusionId)
    | ReplacedBy(conclusion: ConclusionId, successor: ConclusionId)
    | Recorded(conclusion: ConclusionId)

  datatype MutationId =
    | Named(name: string)
    | ForOpen(id: DisputeId)
    | ForResolve(id: DisputeId, resolution: string)
    | ForWithdraw(conclusion: ConclusionId)

  datatype Refusal = InvalidInput | NotFound | Clash

  datatype Outcome = Applied | Replayed | Refused(why: Refusal)

  datatype Memory = Memory(
    disputes: map<DisputeId, Dispute>,
    order: seq<DisputeId>,
    conclusions: map<ConclusionId, Conclusion>,
    log: seq<Event>,
    receipts: set<MutationId>)

  const NO_MEMORY := Memory(map[], [], map[], [], {})

  // ------------------------------------------------- the verbs

  predicate IsOpenAbout(d: Dispute, kind: string, subject: string) {
    d.kind == kind && d.subject == subject && d.status == Open
  }

  /** The first row a query for the live dispute returns. */
  function FirstOpen(disputes: map<DisputeId, Dispute>, order: seq<DisputeId>, kind: string,
                     subject: string): (r: Option<DisputeId>)
    ensures r.Some? ==> r.value in disputes && r.value in order
                        && IsOpenAbout(disputes[r.value], kind, subject)
    ensures r.None? ==> forall id :: id in order && id in disputes ==>
                          !IsOpenAbout(disputes[id], kind, subject)
  {
    if order == [] then None
    else if order[0] in disputes && IsOpenAbout(disputes[order[0]], kind, subject)
    then Some(order[0])
    else FirstOpen(disputes, order[1..], kind, subject)
  }

  function Live(s: Memory, kind: string, subject: string): Option<DisputeId> {
    FirstOpen(s.disputes, s.order, kind, subject)
  }

  function Receipted(s: Memory, mid: MutationId): Memory {
    s.(receipts := s.receipts + {mid})
  }

  function Close(s: Memory, id: DisputeId, resolution: string): Memory
    requires id in s.disputes
  {
    s.(disputes := s.disputes[id := s.disputes[id].(status := Closed(resolution))],
       log := s.log + [Resolved(id, resolution)])
  }

  /** Close the live dispute about a subject, if there is one. */
  function CloseAbout(s: Memory, kind: string, subject: string, resolution: string): Memory {
    var live := Live(s, kind, subject);
    if live.None? then s else Close(s, live.value, resolution)
  }

  /** `drawn` is the new id drawn for the dispute. Reaching the same contradiction
      again is a recurrence of the open one. */
  function OpenDispute(s: Memory, drawn: DisputeId, kind: string, subject: string)
    : (Memory, Outcome)
  {
    var live := Live(s, kind, subject);
    if ForOpen(drawn) in s.receipts then (s, Replayed)
    else if live.Some? then
      var d := s.disputes[live.value];
      (Receipted(s.(disputes := s.disputes[live.value := d.(recurrences := d.recurrences + 1)],
                    log := s.log + [Opened(live.value, true)]), ForOpen(drawn)),
       Applied)
    else if drawn in s.disputes then (s, Refused(Clash))
    else
      (Receipted(s.(disputes := s.disputes[drawn := Dispute(kind, subject, Open, 0)],
                    order := s.order + [drawn],
                    log := s.log + [Opened(drawn, false)]), ForOpen(drawn)),
       Applied)
  }

  function Resolve(s: Memory, id: DisputeId, resolution: string): (Memory, Outcome) {
    if resolution !in RESOLUTIONS then (s, Refused(InvalidInput))
    else if ForResolve(id, resolution) in s.receipts then (s, Replayed)
    else if id !in s.disputes then (s, Refused(NotFound))
    else if s.disputes[id].status != Open then (s, Refused(InvalidInput))
    else (Receipted(Close(s, id, resolution), ForResolve(id, resolution)), Applied)
  }

  function Retract(s: Memory, conclusion: ConclusionId): Memory
    requires conclusion in s.conclusions
  {
    s.(conclusions := s.conclusions[conclusion := s.conclusions[conclusion]
                                                    .(standing := Retracted)],
       log := s.log + [Withdrawn(conclusion)])
  }

  function Withdraw(s: Memory, conclusion: ConclusionId): (Memory, Outcome) {
    if ForWithdraw(conclusion) in s.receipts then (s, Replayed)
    else if conclusion !in s.conclusions then (s, Refused(NotFound))
    else if s.conclusions[conclusion].standing != Active then (s, Refused(InvalidInput))
    else
      (Receipted(CloseAbout(Retract(s, conclusion), "conclusion", conclusion, "retracted"),
                 ForWithdraw(conclusion)),
       Applied)
  }

  /** Only a claim still made is marked superseded; the event is written, and the
      dispute closed, in any case. */
  function Replace(s: Memory, prior: ConclusionId, successor: ConclusionId): Memory
    requires prior in s.conclusions
  {
    var c := s.conclusions[prior];
    s.(conclusions := if c.standing == Active
                      then s.conclusions[prior := c.(standing := Superseded,
                                                     supersededBy := Some(successor))]
                      else s.conclusions,
       log := s.log + [ReplacedBy(prior, successor)])
  }

  function Supersede(s: Memory, prior: ConclusionId, successor: ConclusionId): Memory
    requires prior in s.conclusions
  {
    CloseAbout(Replace(s, prior, successor), "conclusion", prior, "superseded")
  }

  function Inserted(s: Memory, id: ConclusionId, producer: string): Memory {
    s.(conclusions := s.conclusions[id := Conclusion(producer, Active, None)])
  }

  function Noted(s: Memory, id: ConclusionId, mid: MutationId): Memory {
    Receipted(s.(log := s.log + [Recorded(id)]), mid)
  }

  /** The row goes in first, so a conclusion that names itself finds itself. */
  function Conclude(s: Memory, id: ConclusionId, producer: string, supersedes: Option<ConclusionId>,
                    mid: MutationId): (Memory, Outcome)
  {
    if mid in s.receipts then (s, Replayed)
    else if id in s.conclusions then (s, Refused(Clash))
    else
      var inserted := Inserted(s, id, producer);
      if supersedes.None? || supersedes.value == "" then (Noted(inserted, id, mid), Applied)
      else if supersedes.value !in inserted.conclusions then (s, Refused(NotFound))
      else (Noted(Supersede(inserted, supersedes.value, id), id, mid), Applied)
  }

  // ------------------------------------------------- the object

  class Repo {
    var disputes: map<DisputeId, Dispute>
    var order: seq<DisputeId>
    var conclusions: map<ConclusionId, Conclusion>
    var log: seq<Event>
    var receipts: set<MutationId>

    function State(): Memory
      reads this
    {
      Memory(disputes, order, conclusions, log, receipts)
    }

    constructor ()
      ensures State() == NO_MEMORY
    {
      disputes, order, conclusions, log, receipts := map[], [], map[], [], {};
    }

    method OpenDisagreementFor(kind: string, subject: string) returns (r: Option<DisputeId>)
      ensures r == Live(State(), kind, subject)
    {
      for k := 0 to |order|
        invariant Live(State(), kind, subject) == FirstOpen(disputes, order[k..], kind, subject)
      {
        assert order[k..][1..] == order[k+1..];
        if order[k] in disputes && IsOpenAbout(disputes[order[k]], kind, subject) {
          return Some(order[k]);
        }
      }
      return None;
    }

    /** Returns the dispute the contradiction is now recorded against. */
    method OpenDisagreement(drawn: DisputeId, kind: string, subject: string)
      returns (r: Outcome, id: DisputeId)
      modifies this
      ensures (State(), r) == OpenDispute(old(State()), drawn, kind, subject)
      ensures r == Applied ==> id in disputes && IsOpenAbout(disputes[id], kind, subject)
    {
      id := drawn;
      if ForOpen(drawn) in receipts {
        return Replayed, drawn;
      }
      var live := OpenDisagreementFor(kind, subject);
      if live.Some? {
        id := live.value;
        disputes := disputes[id := disputes[id].(recurrences := disputes[id].recurrences + 1)];
        log := log + [Opened(id, true)];
      } else {
        if drawn in disputes {
          return Refused(Clash), drawn;
        }
        disputes := disputes[drawn := Dispute(kind, subject, Open, 0)];
        order := order + [drawn];
        log := log + [Opened(drawn, false)];
      }
      receipts := receipts + {ForOpen(drawn)};
      r := Applied;
    }

    method CloseDisputesIn(kind: string, subject: string, resolution: string)
      modifies this`disputes, this`log
      ensures State() == CloseAbout(old(State()), kind, subject, resolution)
    {
      var live := OpenDisagreementFor(kind, subject);
      if live.Some? {
        disputes := disputes[live.value := disputes[live.value].(status := Closed(resolution))];
        log := log + [Resolved(live.value, resolution)];
      }
    }

    method ResolveDisagreement(id: DisputeId, resolution: string) returns (r: Outcome)
      modifies this
      ensures (State(), r) == Resolve(old(State()), id, resolution)
    {
      if resolution !in RESOLUTIONS {
        return Refused(InvalidInput);
      }
      if ForResolve(id, resolution) in receipts {
        return Replayed;
      }
      if id !in disputes {
        return Refused(NotFound);
      }
      if disputes[id].status != Open {
        return Refused(InvalidInput);
      }
      disputes := disputes[id := disputes[id].(status := Closed(resolution))];
      log := log + [Resolved(id, resolution)];
      receipts := receipts + {ForResolve(id, resolution)};
      return Applied;
    }

    method WithdrawConclusion(conclusion: ConclusionId) returns (r: Outcome)
      modifies this
      ensures (State(), r) == Withdraw(old(State()), conclusion)
    {
      if ForWithdraw(conclusion) in receipts {
        return Replayed;
      }
      if conclusion !in conclusions {
        return Refused(NotFound);
      }
      if conclusions[conclusion].standing != Active {
        return Refused(InvalidInput);
      }
      conclusions := conclusions[conclusion := conclusions[conclusion].(standing := Retracted)];
      log := log + [Withdrawn(conclusion)];
      CloseDisputesIn("conclusion", conclusion, "retracted");
      receipts := receipts + {ForWithdraw(conclusion)};
      return Applied;
    }

    /** Rolled back when the conclusion to supersede is unknown. */
    method WriteConclusion(id: ConclusionId, producer: string, supersedes: Option<ConclusionId>,
                           mid: MutationId) returns (r: Outcome)
      modifies this
      ensures (State(), r) == Conclude(old(State()), id, producer, supersedes, mid)
    {
      if mid in receipts {
        return Replayed;
      }
      if id in conclusions {
        return Refused(Clash);
      }
      var saved := conclusions;
      conclusions := conclusions[id := Conclusion(producer, Active, None)];
      if supersedes.Some? && supersedes.value != "" {
        var prior := supersedes.value;
        if prior !in conclusions {
          conclusions := saved;
          return Refused(NotFound);
        }
        if conclusions[prior].standing == Active {
          conclusions := conclusions[prior := conclusions[prior].(standing := Superseded,
                                                                  supersededBy := Some(id))];
        }
        log := log + [ReplacedBy(prior, id)];
        CloseDisputesIn("conclusion", prior, "superseded");
      }
      log := log + [Recorded(id)];
      receipts := receipts + {mid};
      return Applied;
    }
  }

  // ------------------------------------------------- runs

  datatype Verb =
    | DoOpen(drawn: DisputeId, kind: string, subject: string)
    | DoResolve(id: DisputeId, resolution: string)
    | DoWithdraw(conclusion: ConclusionId)
    | DoConclude(newId: ConclusionId, producer: string, supersedes: Option<ConclusionId>,
                 mid: MutationId)

  function Step(s: Memory, v: Verb): Memory {
    match v
    case DoOpen(drawn, kind, subject) => OpenDispute(s, drawn, kind, subject).0
    case DoResolve(id, resolution) => Resolve(s, id, resolution).0
    case DoWithdraw(conclusion) => Withdraw(s, conclusion).0
    case DoConclude(id, producer, supersedes, mid) =>
      Conclude(s, id, producer, supersedes, mid).0
  }

  function RunFrom(s: Memory, vs: seq<Verb>): Memory {
    if vs == [] then s else Step(RunFrom(s, vs[..|vs|-1]), vs[|vs|-1])
  }

  function Run(vs: seq<Verb>): Memory {
    RunFrom(NO_MEMORY, vs)
  }

  function OpenedCount(log: seq<Event>, id: DisputeId): nat {
    if log == [] then 0
    else
      var e := log[|log|-1];
      OpenedCount(log[..|log|-1], id) + if e.Opened? && e.id == id then 1 else 0
  }

  function ResolvedCount(log: seq<Event>, id: DisputeId): nat {
    if log == [] then 0
    else
      var e := log[|log|-1];
      ResolvedCount(log[..|log|-1], id) + if e.Resolved? && e.id == id then 1 else 0
  }

  /** What the log says about a dispute is what its row says. */
  ghost predicate Accounted(s: Memory, id: DisputeId) {
    if id in s.disputes then
      OpenedCount(s.log, id) == 1 + s.disputes[id].recurrences
      && ResolvedCount(s.log, id) == (if s.disputes[id].status == Open then 0 else 1)
    else OpenedCount(s.log, id) == 0 && ResolvedCount(s.log, id) == 0
  }

  /** Both open, about the same thing. */
  predicate Rivals(a: Dispute, b: Dispute) {
    a.status == Open && IsOpenAbout(b, a.kind, a.subject)
  }

  ghost predicate OneOpen(s: Memory) {
    (forall id :: id in s.order <==> id in s.disputes)
    && forall i, j {:trigger Rivals(s.disputes[i], s.disputes[j])} ::
         i in s.disputes && j in s.disputes && Rivals(s.disputes[i], s.disputes[j]) ==> i == j
  }

  lemma CountNext(log: seq<Event>, e: Event, id: DisputeId)
    ensures OpenedCount(log + [e], id)
            == OpenedCount(log, id) + if e.Opened? && e.id == id then 1 else 0
    ensures ResolvedCount(log + [e], id)
            == ResolvedCount(log, id) + if e.Resolved? && e.id == id then 1 else 0
  {
    assert (log + [e])[..|log|] == log;
  }

  lemma CloseAccounted(s: Memory, kind: string, subject: string, resolution: string,
                       id: DisputeId)
    requires Accounted(s, id)
    ensures Accounted(CloseAbout(s, kind, subject, resolution), id)
  {
    var live := Live(s, kind, subject);
    if live.Some? {
      CountNext(s.log, Resolved(live.value, resolution), id);
    }
  }

  lemma SupersedeAccounted(s: Memory, prior: ConclusionId, successor: ConclusionId, id: DisputeId)
    requires prior in s.conclusions && Accounted(s, id)
    ensures Accounted(Supersede(s, prior, successor), id)
  {
    CountNext(s.log, ReplacedBy(prior, successor), id);
    CloseAccounted(Replace(s, prior, successor), "conclusion", prior, "superseded", id);
  }

  /** A conclusion written is noted, after what it replaces, or nothing happens. */
  lemma ConcludeIs(s: Memory, v: Verb)
    requires v.DoConclude?
    ensures var inserted := Inserted(s, v.newId, v.producer);
            Step(s, v) == s || Step(s, v) == Noted(inserted, v.newId, v.mid)
            || (v.supersedes.Some? && v.supersedes.value in inserted.conclusions
                && Step(s, v) == Noted(Supersede(inserted, v.supersedes.value, v.newId), v.newId,
                                       v.mid))
  {
  }

  lemma ConcludeAccounted(s: Memory, v: Verb, id: DisputeId)
    requires v.DoConclude? && Accounted(s, id)
    ensures Accounted(Step(s, v), id)
  {
    ConcludeIs(s, v);
    var inserted := Inserted(s, v.newId, v.producer);
    if Step(s, v) == Noted(inserted, v.newId, v.mid) {
      NotedAccounted(inserted, v.newId, v.mid, id);
    } else if Step(s, v) != s {
      SupersedeAccounted(inserted, v.supersedes.value, v.newId, id);
      NotedAccounted(Supersede(inserted, v.supersedes.value, v.newId), v.newId, v.mid, id);
    }
  }

  lemma NotedAccounted(s: Memory, c: ConclusionId, mid: MutationId, id: DisputeId)
    requires Accounted(s, id)
    ensures Accounted(Noted(s, c, mid), id)
  {
    CountNext(s.log, Recorded(c), id);
  }

  lemma OpenAccounted(s: Memory, drawn: DisputeId, kind: string, subject: string, id: DisputeId)
    requires Accounted(s, id)
    ensures Accounted(OpenDispute(s, drawn, kind, subject).0, id)
  {
    var live := Live(s, kind, subject);
    CountNext(s.log, Opened(if live.Some? then live.value else drawn, live.Some?), id);
  }

  lemma WithdrawAccounted(s: Memory, conclusion: ConclusionId, id: DisputeId)
    requires Accounted(s, id)
    ensures Accounted(Withdraw(s, conclusion).0, id)
  {
    CountNext(s.log, Withdrawn(conclusion), id);
    if conclusion in s.conclusions {
      CloseAccounted(Retract(s, conclusion), "conclusion", conclusion, "retracted", id);
    }
  }

  lemma StepAccounted(s: Memory, v: Verb, id: DisputeId)
    requires Accounted(s, id)
    ensures Accounted(Step(s, v), id)
  {
    match v
    case DoOpen(drawn, kind, subject) => OpenAccounted(s, drawn, kind, subject, id);
    case DoResolve(d, resolution) => CountNext(s.log, Resolved(d, resolution), id);
    case DoWithdraw(conclusion) => WithdrawAccounted(s, conclusion, id);
    case DoConclude(_, _, _, _) => ConcludeAccounted(s, v, id);
  }

  /** Closing, and changing conclusions, keeps open disputes apart. */
  lemma CloseOneOpen(s: Memory, kind: string, subject: string, resolution: string)
    requires OneOpen(s)
    ensures OneOpen(CloseAbout(s, kind, subject, resolution))
  {
    var live := Live(s, kind, subject);
    if live.Some? {
      CloseRowOneOpen(s, live.value, resolution);
    }
  }

  lemma CloseRowOneOpen(s: Memory, id: DisputeId, resolution: string)
    requires OneOpen(s) && id in s.disputes
    ensures OneOpen(Close(s, id, resolution))
  {
    var r := Close(s, id, resolution);
    forall i, j | i in r.disputes && j in r.disputes && Rivals(r.disputes[i], r.disputes[j])
      ensures i == j
    {
      assert Rivals(s.disputes[i], s.disputes[j]);
    }
  }

  lemma OpenOneOpen(s: Memory, drawn: DisputeId, kind: string, subject: string)
    requires OneOpen(s)
    ensures OneOpen(OpenDispute(s, drawn, kind, subject).0)
  {
    var r := OpenDispute(s, drawn, kind, subject).0;
    forall i, j | i in r.disputes && j in r.disputes && Rivals(r.disputes[i], r.disputes[j])
      ensures i == j
    {
      assert i in s.disputes && j in s.disputes ==> Rivals(s.disputes[i], s.disputes[j]);
    }
  }

  lemma StepOneOpen(s: Memory, v: Verb)
    requires OneOpen(s)
    ensures OneOpen(Step(s, v))
  {
    match v
    case DoOpen(drawn, kind, subject) => OpenOneOpen(s, drawn, kind, subject);
    case DoResolve(id, resolution) =>
      if id in s.disputes {
        CloseRowOneOpen(s, id, resolution);
      }
    case DoWithdraw(conclusion) =>
      if conclusion in s.conclusions {
        CloseOneOpen(Retract(s, conclusion), "conclusion", conclusion, "retracted");
      }
    case DoConclude(id, producer, supersedes, _) =>
      var inserted := Inserted(s, id, producer);
      if supersedes.Some? && supersedes.value in inserted.conclusions {
        CloseOneOpen(Replace(inserted, supersedes.value, id), "conclusion", supersedes.value,
                     "superseded");
      }
  }

  /** In every reachable state: at most one open dispute about a subject; as many
      opened events as one plus its recurrences; and one resolved event exactly if
      it is closed. */
  lemma {:induction false} DisputesAreAccounted(vs: seq<Verb>)
    ensures OneOpen(Run(vs))
    ensures forall id :: Accounted(Run(vs), id)
  {
    if vs != [] {
      var s, v := Run(vs[..|vs|-1]), vs[|vs|-1];
      DisputesAreAccounted(vs[..|vs|-1]);
      StepOneOpen(s, v);
      forall id ensures Accounted(Step(s, v), id) {
        StepAccounted(s, v, id);
      }
    }
  }

  ghost predicate NoneOpenAbout(s: Memory, kind: string, subject: string) {
    forall id :: id in s.disputes ==> !IsOpenAbout(s.disputes[id], kind, subject)
  }

  /** Closing the one row found is enough. */
  lemma ClosingOneIsEnough(s: Memory, kind: string, subject: string, resolution: string)
    requires OneOpen(s)
    ensures NoneOpenAbout(CloseAbout(s, kind, subject, resolution), kind, subject)
  {
    var live := Live(s, kind, subject);
    forall id | id in s.disputes && IsOpenAbout(s.disputes[id], kind, subject)
      ensures live == Some(id)
    {
      assert Rivals(s.disputes[live.value], s.disputes[id]);
    }
  }

  /** A claim withdrawn, or replaced, takes the dispute about it along. */
  lemma EndedClaimLeavesNoDispute(vs: seq<Verb>, conclusion: ConclusionId, successor: ConclusionId,
                                  producer: string, mid: MutationId)
    ensures var s := Run(vs);
            Withdraw(s, conclusion).1 == Applied ==>
              NoneOpenAbout(Withdraw(s, conclusion).0, "conclusion", conclusion)
    ensures var s := Run(vs);
            conclusion != "" && Conclude(s, successor, producer, Some(conclusion), mid).1 == Applied ==>
              NoneOpenAbout(Conclude(s, successor, producer, Some(conclusion), mid).0,
                            "conclusion", conclusion)
  {
    DisputesAreAccounted(vs);
    var s := Run(vs);
    if Withdraw(s, conclusion).1 == Applied {
      WithdrawCloses(s, conclusion);
    }
    if conclusion != "" && Conclude(s, successor, producer, Some(conclusion), mid).1 == Applied {
      SupersedeCloses(Inserted(s, successor, producer), conclusion, successor);
    }
  }

  lemma WithdrawCloses(s: Memory, conclusion: ConclusionId)
    requires OneOpen(s) && Withdraw(s, conclusion).1 == Applied
    ensures NoneOpenAbout(Withdraw(s, conclusion).0, "conclusion", conclusion)
  {
    ClosingOneIsEnough(Retract(s, conclusion), "conclusion", conclusion, "retracted");
  }

  lemma SupersedeCloses(s: Memory, prior: ConclusionId, successor: ConclusionId)
    requires OneOpen(s) && prior in s.conclusions
    ensures NoneOpenAbout(Supersede(s, prior, successor), "conclusion", prior)
  {
    ClosingOneIsEnough(Replace(s, prior, successor), "conclusion", prior, "superseded");
  }

  // ------------------------------------------------- what is never undone

  lemma StepKeepsEnded(s: Memory, v: Verb, id: DisputeId, conclusion: ConclusionId)
    ensures id in s.disputes && s.disputes[id].status.Closed? ==>
              id in Step(s, v).disputes && Step(s, v).disputes[id] == s.disputes[id]
    ensures conclusion in s.conclusions && s.conclusions[conclusion].standing != Active ==>
              conclusion in Step(s, v).conclusions
              && Step(s, v).conclusions[conclusion] == s.conclusions[conclusion]
    ensures s.receipts <= Step(s, v).receipts
  {
  }

  /** A closed dispute stays closed as it was, a claim no longer made is never made
      again, and repeating a withdrawal or a resolution that succeeded adds
      nothing, whatever happened since. */
  lemma {:induction false} EndedStaysEnded(s: Memory, ws: seq<Verb>, id: DisputeId,
                                           conclusion: ConclusionId)
    ensures var r := RunFrom(s, ws);
            (id in s.disputes && s.disputes[id].status.Closed? ==>
               id in r.disputes && r.disputes[id] == s.disputes[id])
            && (conclusion in s.conclusions && s.conclusions[conclusion].standing != Active ==>
                  conclusion in r.conclusions && r.conclusions[conclusion] == s.conclusions[conclusion])
            && s.receipts <= r.receipts
            && (forall res :: ForResolve(id, res) in s.receipts ==> Resolve(r, id, res).0 == r)
            && (ForWithdraw(conclusion) in s.receipts ==> Withdraw(r, conclusion) == (r, Replayed))
  {
    if ws != [] {
      EndedStaysEnded(s, ws[..|ws|-1], id, conclusion);
      StepKeepsEnded(RunFrom(s, ws[..|ws|-1]), ws[|ws|-1], id, conclusion);
    }
  }

  /** A conclusion names a successor exactly if it was superseded, and the one it
      names is recorded. */
  ghost predicate SuccessorsRecorded(s: Memory) {
    forall c :: c in s.conclusions ==>
      (s.conclusions[c].standing == Superseded <==> s.conclusions[c].supersededBy.Some?)
      && (s.conclusions[c].supersededBy.Some? ==>
            s.conclusions[c].supersededBy.value in s.conclusions)
  }

  lemma {:induction false} SuccessorsAreRecorded(vs: seq<Verb>)
    ensures SuccessorsRecorded(Run(vs))
  {
    if vs != [] {
      var s, v := Run(vs[..|vs|-1]), vs[|vs|-1];
      SuccessorsAreRecorded(vs[..|vs|-1]);
      if v.DoConclude? {
        ConcludeIs(s, v);
        SupersedeRecords(Inserted(s, v.newId, v.producer), v);
      }
    }
  }

  lemma SupersedeRecords(s: Memory, v: Verb)
    requires v.DoConclude? && SuccessorsRecorded(s) && v.newId in s.conclusions
    ensures v.supersedes.Some? && v.supersedes.value in s.conclusions ==>
              SuccessorsRecorded(Supersede(s, v.supersedes.value, v.newId))
  {
  }

  // ------------------------------------------------- disputes about nothing

  /** Every open dispute about a recorded conclusion is about one still made. */
  ghost predicate AboutSomething(s: Memory) {
    forall id :: id in s.disputes && s.disputes[id].status == Open
                 && s.disputes[id].kind == "conclusion" && s.disputes[id].subject in s.conclusions ==>
      s.conclusions[s.disputes[id].subject].standing == Active
  }

  /** Opening does not ask whether the claim is still made. So "no open dispute is
      about a claim nobody makes" is kept by a verb exactly when the verb does not
      open a new dispute about a conclusion already withdrawn or superseded. */
  lemma AboutSomethingKeptIff(s: Memory, v: Verb)
    requires OneOpen(s) && AboutSomething(s)
    ensures AboutSomething(Step(s, v))
            <==> !(v.DoOpen? && v.kind == "conclusion" && v.subject in s.conclusions
                   && s.conclusions[v.subject].standing != Active
                   && ForOpen(v.drawn) !in s.receipts && v.drawn !in s.disputes)
  {
    match v
    case DoOpen(drawn, kind, subject) => OpenKeepsIff(s, v);
    case DoResolve(id, resolution) =>
    case DoWithdraw(conclusion) => WithdrawKeeps(s, conclusion);
    case DoConclude(_, _, _, _) => ConcludeKeeps(s, v);
  }

  lemma OpenKeepsIff(s: Memory, v: Verb)
    requires OneOpen(s) && AboutSomething(s) && v.DoOpen?
    ensures AboutSomething(Step(s, v))
            <==> !(v.kind == "conclusion" && v.subject in s.conclusions
                   && s.conclusions[v.subject].standing != Active
                   && ForOpen(v.drawn) !in s.receipts && v.drawn !in s.disputes)
  {
    var r := Step(s, v);
    if v.drawn in r.disputes && v.drawn !in s.disputes {
      assert r.disputes[v.drawn] == Dispute(v.kind, v.subject, Open, 0);
    }
  }

  lemma WithdrawKeeps(s: Memory, conclusion: ConclusionId)
    requires OneOpen(s) && AboutSomething(s)
    ensures AboutSomething(Withdraw(s, conclusion).0)
  {
    if Withdraw(s, conclusion).1 == Applied {
      WithdrawCloses(s, conclusion);
    }
  }

  lemma ConcludeKeeps(s: Memory, v: Verb)
    requires OneOpen(s) && AboutSomething(s) && v.DoConclude?
    ensures AboutSomething(Step(s, v))
  {
    var inserted := Inserted(s, v.newId, v.producer);
    if v.supersedes.Some? && v.supersedes.value in inserted.conclusions {
      SupersedeCloses(inserted, v.supersedes.value, v.newId);
    }
  }
}
