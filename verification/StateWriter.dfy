/**
  The single write path. One call is one transaction: the rows the body writes,
  the events it emitted, linked from the tip of the log, and one receipt. It
  happens completely or not at all, and once for each mutation id.
 */
module StateWriter {
  import opened Outcomes
  import opened HashChain

  /** An event queued by a body; the writer adds time, run and hashes. */
  datatype Pending = Pending(
    eventId: string, kind: string, actorId: string, actorIncarnation: int,
    operationId: Option<string>, causationId: Option<string>, correlationId: Option<string>,
    payloadSha256: Option<string>, payloadInline: Option<string>)

  /** Who a mutation acts for. */
  datatype Author = Author(
    actor: string, incarnation: int, operationId: Option<string>, correlationId: Option<string>)

  /** The arguments of one emit; what is not given is filled in. */
  datatype Draft = Draft(
    eventId: string, kind: string, actorId: Option<string>, causationId: Option<string>,
    operationId: Option<string>, correlationId: Option<string>,
    payloadSha256: Option<string>, payloadInline: Option<string>)

  /** The state a transaction finds when it begins. */
  datatype Found<S> = Found(rows: S, version: int)

  /** A body is the statements it runs, in order. Each may use what the transaction
      found and the rows as they are now: what it writes, how many events it emits
      and what they say can all depend on rows it reads. A write that cannot be made
      raises, and so ends the body. */
  datatype BodyOp<!S> =
    | Write(f: (Found<S>, S) -> Option<S>)
    | Emit(drafts: (Found<S>, S) -> seq<Draft>)

  datatype Request<!S> = Request(
    author: Author, body: seq<BodyOp<S>>, mutationId: string,
    expectVersion: Option<int>, bumpVersion: bool, runId: string, ts: int)

  datatype Receipt = Receipt(
    mutationId: string, operationId: Option<string>, priorVersion: int, resultVersion: int,
    seqFrom: int, seqTo: int)

  datatype WriteError = StaleVersion | BodyRaised | DuplicateEvent

  datatype Answer = Answer(receipt: Receipt, replayed: bool)

  datatype Db<!S> = Db(rows: S, events: seq<Row>, version: int, receipts: seq<Receipt>)

  // ---------------------------------------------------------------- one commit

  function FindReceipt(receipts: seq<Receipt>, mutationId: string): Option<Receipt> {
    if receipts == [] then None
    else if receipts[0].mutationId == mutationId then Some(receipts[0])
    else FindReceipt(receipts[1..], mutationId)
  }

  function Given(asked: Option<string>, otherwise: Option<string>): Option<string> {
    if asked.Some? && asked.value != "" then asked else otherwise
  }

  /** The event a draft becomes. Unless it names a cause, it is caused by the event
      queued before it. */
  function Filled(author: Author, queued: seq<Pending>, d: Draft): Pending {
    Pending(d.eventId, d.kind,
            if d.actorId.Some? && d.actorId.value != "" then d.actorId.value else author.actor,
            author.incarnation, Given(d.operationId, author.operationId),
            if d.causationId.Some? then d.causationId
            else if queued == [] then None else Some(queued[|queued|-1].eventId),
            Given(d.correlationId, author.correlationId), d.payloadSha256, d.payloadInline)
  }

  function Queue(author: Author, queued: seq<Pending>, drafts: seq<Draft>): seq<Pending> {
    if drafts == [] then queued
    else
      var before := Queue(author, queued, drafts[..|drafts|-1]);
      before + [Filled(author, before, drafts[|drafts|-1])]
  }

  /** The rows and the queued events after the first statements of a body. */
  function RunBody<S>(author: Author, body: seq<BodyOp<S>>, found: Found<S>)
    : Option<(S, seq<Pending>)>
  {
    if body == [] then Some((found.rows, []))
    else
      var before := RunBody(author, body[..|body|-1], found);
      if before.None? then None
      else match body[|body|-1]
        case Write(f) =>
          var written := f(found, before.value.0);
          if written.None? then None else Some((written.value, before.value.1))
        case Emit(drafts) =>
          Some((before.value.0, Queue(author, before.value.1, drafts(found, before.value.0))))
  }

  function FieldsOf(e: Pending, runId: string, ts: int): Fields {
    Fields(e.eventId, ts, runId, e.actorId, e.actorIncarnation, e.operationId, e.causationId,
           e.correlationId, e.kind, e.payloadSha256, e.payloadInline)
  }

  function NextRow(h: Hasher, log: seq<Row>, e: Pending, runId: string, ts: int): Row {
    var fields := FieldsOf(e, runId, ts);
    Row(|log| + 1, fields, Tip(log), h(Tip(log), fields))
  }

  predicate Taken(log: seq<Row>, eventId: string) {
    exists k :: 0 <= k < |log| && log[k].fields.eventId == eventId
  }

  /** Link the events one after another; event ids are unique. */
  function LinkEvents(h: Hasher, log: seq<Row>, events: seq<Pending>, runId: string, ts: int)
    : Option<seq<Row>>
  {
    if events == [] then Some(log)
    else
      var before := LinkEvents(h, log, events[..|events|-1], runId, ts);
      var e := events[|events|-1];
      if before.None? || Taken(before.value, e.eventId) then None
      else Some(before.value + [NextRow(h, before.value, e, runId, ts)])
  }

  function ReceiptOf<S>(req: Request<S>, prior: int, logged: nat, added: nat): Receipt {
    Receipt(req.mutationId, req.author.operationId, prior, if req.bumpVersion then prior + 1 else prior,
            if added == 0 then -1 else logged + 1, if added == 0 then -1 else logged + added)
  }

  /** The whole transaction, as one step. */
  function Commit<S>(h: Hasher, db: Db<S>, req: Request<S>): (Db<S>, Result<Answer, WriteError>) {
    var existing := FindReceipt(db.receipts, req.mutationId);
    if existing.Some? then (db, Ok(Answer(existing.value, true)))
    else if req.expectVersion.Some? && req.expectVersion.value != db.version
    then (db, Err(StaleVersion))
    else
      var ran := RunBody(req.author, req.body, Found(db.rows, db.version));
      if ran.None? then (db, Err(BodyRaised))
      else
        var linked := LinkEvents(h, db.events, ran.value.1, req.runId, req.ts);
        if linked.None? then (db, Err(DuplicateEvent))
        else
          var receipt := ReceiptOf(req, db.version, |db.events|, |ran.value.1|);
          (Db(ran.value.0, linked.value, receipt.resultVersion, db.receipts + [receipt]),
           Ok(Answer(receipt, false)))
  }

  /** What a call adds when it takes effect. */
  ghost predicate TakesEffect<S>(h: Hasher, db: Db<S>, req: Request<S>) {
    Commit(h, db, req).1.Ok? && !Commit(h, db, req).1.value.replayed
  }

  // ---------------------------------------------------------------- the object

  class Mutation {
    const author: Author
    var events: seq<Pending>
    var lastEventId: Option<string>

    constructor (author: Author)
      ensures this.author == author && events == [] && Valid()
    {
      this.author, events, lastEventId := author, [], None;
    }

    /** The last event queued is remembered as the cause of the next. */
    ghost predicate Valid()
      reads this
    {
      lastEventId == if events == [] then None else Some(events[|events|-1].eventId)
    }

    method EmitEvent(d: Draft)
      requires Valid()
      modifies this
      ensures Valid()
      ensures events == old(events) + [Filled(author, old(events), d)]
    {
      var who := if d.actorId.Some? && d.actorId.value != "" then d.actorId.value
                 else author.actor;
      var cause := if d.causationId.Some? then d.causationId else lastEventId;
      events := events + [Pending(d.eventId, d.kind, who, author.incarnation,
                                  Given(d.operationId, author.operationId), cause,
                                  Given(d.correlationId, author.correlationId),
                                  d.payloadSha256, d.payloadInline)];
      lastEventId := Some(d.eventId);
    }

    method EmitAll(drafts: seq<Draft>)
      requires Valid()
      modifies this
      ensures Valid()
      ensures events == Queue(author, old(events), drafts)
    {
      for k := 0 to |drafts|
        invariant Valid()
        invariant events == Queue(author, old(events), drafts[..k])
      {
        assert drafts[..k+1][..k] == drafts[..k];
        EmitEvent(drafts[k]);
      }
      assert drafts[..|drafts|] == drafts;
    }
  }

  class Writer<!S> {
    const h: Hasher
    var rows: S
    var events: seq<Row>
    var version: int
    var receipts: seq<Receipt>

    constructor (h: Hasher, rows: S)
      ensures this.h == h && State() == Db(rows, [], 0, [])
    {
      this.h, this.rows, events, version, receipts := h, rows, [], 0, [];
    }

    function State(): Db<S>
      reads this
    {
      Db(rows, events, version, receipts)
    }

    method ReceiptFor(mutationId: string) returns (found: Option<Receipt>)
      ensures found == FindReceipt(receipts, mutationId)
    {
      for k := 0 to |receipts|
        invariant FindReceipt(receipts, mutationId) == FindReceipt(receipts[k..], mutationId)
      {
        if receipts[k].mutationId == mutationId {
          return Some(receipts[k]);
        }
      }
      return None;
    }

    /** Run the body against the live rows; the mutation collects what it emits. */
    method RunStatements(m: Mutation, body: seq<BodyOp<S>>) returns (ok: bool)
      requires m.Valid() && m.events == []
      modifies this`rows, m
      ensures ok <==> RunBody(m.author, body, Found(old(rows), version)).Some?
      ensures ok ==> RunBody(m.author, body, Found(old(rows), version)).value == (rows, m.events)
    {
      var found := Found(rows, version);
      for k := 0 to |body|
        invariant m.Valid()
        invariant RunBody(m.author, body[..k], found) == Some((rows, m.events))
      {
        assert body[..k+1][..k] == body[..k];
        match body[k]
        case Write(f) =>
          var written := f(found, rows);
          if written.None? {
            RaisedStays(m.author, body, k + 1, found);
            return false;
          }
          rows := written.value;
        case Emit(drafts) =>
          m.EmitAll(drafts(found, rows));
      }
      assert body[..|body|] == body;
      return true;
    }

    /** Insert the events, each linked from the one before, tracking the range. */
    method InsertEvents(queued: seq<Pending>, runId: string, ts: int)
      returns (ok: bool, seqFrom: int, seqTo: int)
      modifies this`events
      ensures ok <==> LinkEvents(h, old(events), queued, runId, ts).Some?
      ensures ok ==> LinkEvents(h, old(events), queued, runId, ts).value == events
      ensures ok ==> seqFrom == (if queued == [] then -1 else |old(events)| + 1)
      ensures ok ==> seqTo == (if queued == [] then -1 else |old(events)| + |queued|)
    {
      var prevHash := Tip(events);
      seqFrom, seqTo := -1, -1;
      for k := 0 to |queued|
        invariant LinkEvents(h, old(events), queued[..k], runId, ts) == Some(events)
        invariant |events| == |old(events)| + k
        invariant prevHash == Tip(events)
        invariant seqFrom == if k == 0 then -1 else |old(events)| + 1
        invariant seqTo == if k == 0 then -1 else |old(events)| + k
      {
        assert queued[..k+1][..k] == queued[..k];
        var fields := FieldsOf(queued[k], runId, ts);
        var eventHash := h(prevHash, fields);
        if Taken(events, queued[k].eventId) {
          ClashStays(h, old(events), queued, k + 1, runId, ts);
          return false, seqFrom, seqTo;
        }
        events := events + [Row(|events| + 1, fields, prevHash, eventHash)];
        if seqFrom < 0 {
          seqFrom := |events|;
        }
        seqTo := |events|;
        prevHash := eventHash;
      }
      assert queued[..|queued|] == queued;
      ok := true;
    }

    /** Apply a body once. Whatever goes wrong, everything is rolled back. */
    method Apply(req: Request<S>) returns (r: Result<Answer, WriteError>)
      modifies this
      ensures (State(), r) == Commit(h, old(State()), req)
    {
      var existing := ReceiptFor(req.mutationId);
      if existing.Some? {
        return Ok(Answer(existing.value, true));
      }
      if req.expectVersion.Some? && req.expectVersion.value != version {
        return Err(StaleVersion);
      }
      var savedRows, savedEvents := rows, events;
      var m := new Mutation(req.author);
      var ran := RunStatements(m, req.body);
      if !ran {
        rows := savedRows;
        return Err(BodyRaised);
      }
      var prior := version;
      var newVersion := if req.bumpVersion then prior + 1 else prior;
      var ok, seqFrom, seqTo := InsertEvents(m.events, req.runId, req.ts);
      if !ok {
        rows, events := savedRows, savedEvents;
        return Err(DuplicateEvent);
      }
      if req.bumpVersion {
        version := newVersion;
      }
      var receipt := Receipt(req.mutationId, req.author.operationId, prior, newVersion, seqFrom, seqTo);
      receipts := receipts + [receipt];
      return Ok(Answer(receipt, false));
    }
  }

  lemma {:induction false} RaisedStays<S>(author: Author, body: seq<BodyOp<S>>, k: nat, found: Found<S>)
    requires k <= |body| && RunBody(author, body[..k], found).None?
    ensures RunBody(author, body, found).None?
    decreases |body| - k
  {
    if k == |body| {
      assert body[..k] == body;
    } else {
      assert body[..k+1][..k] == body[..k];
      RaisedStays(author, body, k + 1, found);
    }
  }

  lemma {:induction false} ClashStays(h: Hasher, log: seq<Row>, events: seq<Pending>, k: nat,
                                      runId: string, ts: int)
    requires k <= |events| && LinkEvents(h, log, events[..k], runId, ts).None?
    ensures LinkEvents(h, log, events, runId, ts).None?
    decreases |events| - k
  {
    if k == |events| {
      assert events[..k] == events;
    } else {
      assert events[..k+1][..k] == events[..k];
      ClashStays(h, log, events, k + 1, runId, ts);
    }
  }
}
