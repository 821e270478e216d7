/**
  What a commit puts on record, stated on the columns themselves: when a call
  takes effect and what refuses it, what its body did to the rows, every column
  of every event it committed, and the receipt.
 */
module WriterLaws {
  import opened Outcomes
  import opened HashChain
  import opened StateWriter
  import opened WriterHistory

  // ---------------------------------------------------------------- bodies

  /** The rows before the first statement and after each: a write makes its change
      to the rows as they are, an emit leaves them alone. */
  ghost predicate Trace<S(!new)>(body: seq<BodyOp<S>>, found: Found<S>, rows: seq<S>) {
    |rows| == |body| + 1 && rows[0] == found.rows
    && (forall k :: 0 <= k < |body| && body[k].Write? ==>
          body[k].f(found, rows[k]) == Some(rows[k+1]))
    && forall k :: 0 <= k < |body| && body[k].Emit? ==> rows[k+1] == rows[k]
  }

  /** What the statements emitted, in order. */
  ghost function Emitted<S>(body: seq<BodyOp<S>>, found: Found<S>, rows: seq<S>): seq<Draft>
    requires |rows| == |body| + 1
  {
    if body == [] then []
    else
      var n := |body| - 1;
      Emitted(body[..n], found, rows[..n+1])
      + if body[n].Emit? then body[n].drafts(found, rows[n]) else []
  }

  ghost predicate CanRun<S(!new)>(body: seq<BodyOp<S>>, found: Found<S>) {
    exists rows :: Trace(body, found, rows)
  }

  lemma TracePrefix<S(!new)>(body: seq<BodyOp<S>>, found: Found<S>, rows: seq<S>)
    requires body != [] && Trace(body, found, rows)
    ensures Trace(body[..|body|-1], found, rows[..|body|])
  {
    var n := |body| - 1;
    var b, rs := body[..n], rows[..n+1];
    forall k | 0 <= k < n && b[k].Write? ensures b[k].f(found, rs[k]) == Some(rs[k+1]) {
      assert body[k].Write? && body[k].f(found, rows[k]) == Some(rows[k+1]);
    }
    forall k | 0 <= k < n && b[k].Emit? ensures rs[k+1] == rs[k] {
      assert body[k].Emit?;
    }
  }

  /** A traced body is the body the writer ran. */
  lemma {:induction false} TraceIsRun<S(!new)>(author: Author, body: seq<BodyOp<S>>,
                                               found: Found<S>, rows: seq<S>)
    requires Trace(body, found, rows)
    ensures RunBody(author, body, found)
            == Some((rows[|body|], Queue(author, [], Emitted(body, found, rows))))
  {
    if body != [] {
      var n := |body| - 1;
      TracePrefix(body, found, rows);
      TraceIsRun(author, body[..n], found, rows[..n+1]);
      var earlier := Emitted(body[..n], found, rows[..n+1]);
      match body[n]
      case Write(f) => assert earlier + [] == earlier;
      case Emit(drafts) => QueueAppend(author, [], earlier, drafts(found, rows[n]));
    }
  }

  lemma {:induction false} RunIsTrace<S(!new)>(author: Author, body: seq<BodyOp<S>>,
                                               found: Found<S>) returns (rows: seq<S>)
    requires RunBody(author, body, found).Some?
    ensures Trace(body, found, rows)
  {
    if body == [] {
      rows := [found.rows];
    } else {
      var n := |body| - 1;
      var before := RunIsTrace(author, body[..n], found);
      TraceIsRun(author, body[..n], found, before);
      rows := before + [RunBody(author, body, found).value.0];
      forall k | 0 <= k < |body| && body[k].Write?
        ensures body[k].f(found, rows[k]) == Some(rows[k+1])
      {
        assert k < n ==> body[..n][k].Write?;
      }
      forall k | 0 <= k < |body| && body[k].Emit? ensures rows[k+1] == rows[k] {
        assert k < n ==> body[..n][k].Emit?;
      }
    }
  }

  // ---------------------------------------------------------------- event ids

  /** No emitted id is in the log, and none was emitted before. */
  ghost predicate IdsFresh(log: seq<Row>, drafts: seq<Draft>) {
    (forall i, k :: 0 <= i < |drafts| && 0 <= k < |log| ==>
       log[k].fields.eventId != drafts[i].eventId)
    && forall i, j :: 0 <= j < i < |drafts| ==> drafts[j].eventId != drafts[i].eventId
  }

  lemma {:induction false} LinkedIff(h: Hasher, log: seq<Row>, author: Author,
                                     drafts: seq<Draft>, runId: string, ts: int)
    ensures LinkEvents(h, log, Queue(author, [], drafts), runId, ts).Some?
            <==> IdsFresh(log, drafts)
  {
    if drafts != [] {
      var n := |drafts| - 1;
      var rest := drafts[..n];
      LinkedIff(h, log, author, rest, runId, ts);
      var queued := Queue(author, [], drafts);
      assert queued[..|queued|-1] == Queue(author, [], rest);
      var before := LinkEvents(h, log, Queue(author, [], rest), runId, ts);
      if before.Some? {
        LinkedIds(h, log, author, rest, runId, ts);
        TakenIff(log, rest, before.value, drafts[n].eventId);
        FreshOneMore(log, drafts);
      } else {
        assert IdsFresh(log, drafts) ==> IdsFresh(log, rest);
      }
    }
  }

  lemma LinkedIds(h: Hasher, log: seq<Row>, author: Author, drafts: seq<Draft>, runId: string,
                  ts: int)
    requires LinkEvents(h, log, Queue(author, [], drafts), runId, ts).Some?
    ensures var linked := LinkEvents(h, log, Queue(author, [], drafts), runId, ts).value;
            |linked| == |log| + |drafts| && linked[..|log|] == log
            && forall i :: 0 <= i < |drafts| ==>
                 linked[|log|+i].fields.eventId == drafts[i].eventId
  {
    LinkedCauses(h, log, author, drafts, runId, ts, 0);
    LinkedFields(h, log, Queue(author, [], drafts), runId, ts);
    var linked := LinkEvents(h, log, Queue(author, [], drafts), runId, ts).value;
    forall i | 0 <= i < |drafts| ensures linked[|log|+i].fields.eventId == drafts[i].eventId {
      LinkedCauses(h, log, author, drafts, runId, ts, i);
    }
  }

  lemma TakenIff(log: seq<Row>, drafts: seq<Draft>, linked: seq<Row>, eventId: string)
    requires |linked| == |log| + |drafts| && linked[..|log|] == log
    requires forall i :: 0 <= i < |drafts| ==> linked[|log|+i].fields.eventId == drafts[i].eventId
    ensures !Taken(linked, eventId)
            <==> (forall k :: 0 <= k < |log| ==> log[k].fields.eventId != eventId)
                 && forall i :: 0 <= i < |drafts| ==> drafts[i].eventId != eventId
  {
    if !Taken(linked, eventId) {
      forall k | 0 <= k < |log| ensures log[k].fields.eventId != eventId {
        assert linked[k] == linked[..|log|][k];
      }
      forall i | 0 <= i < |drafts| ensures drafts[i].eventId != eventId {
        assert linked[|log|+i].fields.eventId != eventId;
      }
    } else {
      var k :| 0 <= k < |linked| && linked[k].fields.eventId == eventId;
      assert k < |log| ==> log[k] == linked[k];
      assert k >= |log| ==> drafts[k-|log|].eventId == linked[|log|+(k-|log|)].fields.eventId;
    }
  }

  lemma FreshOneMore(log: seq<Row>, drafts: seq<Draft>)
    requires drafts != []
    ensures var n := |drafts| - 1;
            IdsFresh(log, drafts)
            <==> IdsFresh(log, drafts[..n])
                 && (forall k :: 0 <= k < |log| ==> log[k].fields.eventId != drafts[n].eventId)
                 && forall i :: 0 <= i < n ==> drafts[i].eventId != drafts[n].eventId
  {
    var n := |drafts| - 1;
    var rest := drafts[..n];
    assert forall i :: 0 <= i < n ==> rest[i] == drafts[i];
  }

  // ---------------------------------------------------------------- columns

  predicate Named(asked: Option<string>) {
    asked.Some? && |asked.value| > 0
  }

  /** Every column of the row an emitted event becomes: the request's time and run;
      the event's own actor, operation and correlation where it names one that is not
      empty, the author's otherwise. */
  ghost predicate Recorded<S>(req: Request<S>, d: Draft, r: Row, previous: Option<string>) {
    r.fields.eventId == d.eventId && r.fields.ts == req.ts && r.fields.runId == req.runId
    && r.fields.kind == d.kind
    && r.fields.payloadSha256 == d.payloadSha256 && r.fields.payloadInline == d.payloadInline
    && r.fields.actorIncarnation == req.author.incarnation
    && (Named(d.actorId) ==> Some(r.fields.actorId) == d.actorId)
    && (!Named(d.actorId) ==> r.fields.actorId == req.author.actor)
    && (Named(d.operationId) ==> r.fields.operationId == d.operationId)
    && (!Named(d.operationId) ==> r.fields.operationId == req.author.operationId)
    && (Named(d.correlationId) ==> r.fields.correlationId == d.correlationId)
    && (!Named(d.correlationId) ==> r.fields.correlationId == req.author.correlationId)
    && (d.causationId.Some? ==> r.fields.causationId == d.causationId)
    && (d.causationId.None? ==> r.fields.causationId == previous)
  }

  /** The events a call added to the log, row by row. */
  ghost predicate AddsEvents<S>(h: Hasher, req: Request<S>, drafts: seq<Draft>, was: seq<Row>,
                                log: seq<Row>) {
    |log| == |was| + |drafts| && log[..|was|] == was
    && forall i :: 0 <= i < |drafts| ==> AddsEvent(h, req, drafts[i], log, |was|, |was| + i)
  }

  ghost predicate AddsEvent<S>(h: Hasher, req: Request<S>, d: Draft, log: seq<Row>, from: nat,
                               at: nat)
    requires from <= at < |log|
  {
    Recorded(req, d, log[at], if at == from then None else Some(log[at-1].fields.eventId))
    && log[at].seqNo == at + 1
    && log[at].prevHash == (if at == 0 then GENESIS_HASH else log[at-1].eventHash)
    && log[at].eventHash == h(log[at].prevHash, log[at].fields)
  }

  lemma LinkedRecorded<S>(h: Hasher, req: Request<S>, drafts: seq<Draft>, log: seq<Row>, i: nat)
    requires LinkEvents(h, log, Queue(req.author, [], drafts), req.runId, req.ts).Some?
    requires i < |drafts|
    ensures var linked := LinkEvents(h, log, Queue(req.author, [], drafts), req.runId, req.ts).value;
            |linked| == |log| + |drafts|
            && Recorded(req, drafts[i], linked[|log|+i],
                        if i == 0 then None else Some(linked[|log|+i-1].fields.eventId))
  {
    var queued := Queue(req.author, [], drafts);
    LinkedFields(h, log, queued, req.runId, req.ts);
    QueueFills(req.author, drafts, i);
    if 0 < i {
      assert queued[..i][i-1] == queued[i-1];
    }
  }

  lemma {:induction false} LinkedInPlace(h: Hasher, log: seq<Row>, events: seq<Pending>,
                                         runId: string, ts: int, k: nat)
    requires LinkEvents(h, log, events, runId, ts).Some? && |log| <= k < |log| + |events|
    ensures var linked := LinkEvents(h, log, events, runId, ts).value;
            |linked| == |log| + |events| && linked[k].seqNo == k + 1
            && linked[k].prevHash == (if k == 0 then GENESIS_HASH else linked[k-1].eventHash)
            && linked[k].eventHash == h(linked[k].prevHash, linked[k].fields)
  {
    LinkedFields(h, log, events, runId, ts);
    var rest := events[..|events|-1];
    LinkedFields(h, log, rest, runId, ts);
    if k < |log| + |rest| {
      LinkedInPlace(h, log, rest, runId, ts, k);
    }
  }

  lemma LinkedAdds<S>(h: Hasher, req: Request<S>, drafts: seq<Draft>, log: seq<Row>)
    requires LinkEvents(h, log, Queue(req.author, [], drafts), req.runId, req.ts).Some?
    ensures AddsEvents(h, req, drafts, log,
                       LinkEvents(h, log, Queue(req.author, [], drafts), req.runId, req.ts).value)
  {
    var queued := Queue(req.author, [], drafts);
    var linked := LinkEvents(h, log, queued, req.runId, req.ts).value;
    LinkedIds(h, log, req.author, drafts, req.runId, req.ts);
    QueuedAll(req.author, drafts);
    forall i | 0 <= i < |drafts|
      ensures AddsEvent(h, req, drafts[i], linked, |log|, |log| + i)
    {
      LinkedAddsOne(h, req, drafts, log, i);
    }
  }

  lemma LinkedAddsOne<S>(h: Hasher, req: Request<S>, drafts: seq<Draft>, log: seq<Row>, i: nat)
    requires LinkEvents(h, log, Queue(req.author, [], drafts), req.runId, req.ts).Some?
    requires i < |drafts|
    ensures var linked := LinkEvents(h, log, Queue(req.author, [], drafts), req.runId, req.ts).value;
            |linked| == |log| + |drafts|
            && AddsEvent(h, req, drafts[i], linked, |log|, |log| + i)
  {
    QueuedAll(req.author, drafts);
    LinkedRecorded(h, req, drafts, log, i);
    LinkedInPlace(h, log, Queue(req.author, [], drafts), req.runId, req.ts, |log| + i);
  }

  // ---------------------------------------------------------------- outcomes

  ghost predicate Receipted(receipts: seq<Receipt>, mutationId: string) {
    exists k :: 0 <= k < |receipts| && receipts[k].mutationId == mutationId
  }

  ghost predicate Expected<S>(db: Db<S>, req: Request<S>) {
    req.expectVersion.Some? ==> req.expectVersion == Some(db.version)
  }

  lemma RunsIff<S(!new)>(author: Author, body: seq<BodyOp<S>>, found: Found<S>)
    ensures RunBody(author, body, found).Some? <==> CanRun(body, found)
  {
    if CanRun(body, found) {
      var rows :| Trace(body, found, rows);
      TraceIsRun(author, body, found, rows);
    } else if RunBody(author, body, found).Some? {
      var rows := RunIsTrace(author, body, found);
    }
  }

  lemma ReceiptedIff(receipts: seq<Receipt>, mutationId: string)
    ensures FindReceipt(receipts, mutationId).Some? <==> Receipted(receipts, mutationId)
    ensures var found := FindReceipt(receipts, mutationId);
            found.Some? ==> found.value in receipts && found.value.mutationId == mutationId
  {
    FindReceiptIs(receipts, mutationId);
  }

  /** A call whose mutation id has a receipt is answered with that receipt; one that
      expects another version, whose body raises, or which emits an id already used,
      is refused. None of them changes anything. */
  lemma RefusalsChangeNothing<S(!new)>(h: Hasher, db: Db<S>, req: Request<S>)
    ensures var (after, r) := Commit(h, db, req);
            (Receipted(db.receipts, req.mutationId) <==> r.Ok? && r.value.replayed)
            && (r.Ok? && r.value.replayed ==>
                  r.value.receipt in db.receipts
                  && r.value.receipt.mutationId == req.mutationId)
            && (r.Err? || r.value.replayed ==> after == db)
    ensures Commit(h, db, req).1 == Err(StaleVersion)
            <==> !Receipted(db.receipts, req.mutationId)
                 && !Expected(db, req)
    ensures Commit(h, db, req).1 == Err(BodyRaised)
            <==> !Receipted(db.receipts, req.mutationId)
                 && Expected(db, req)
                 && !CanRun(req.body, Found(db.rows, db.version))
  {
    ReceiptedIff(db.receipts, req.mutationId);
    RunsIff(req.author, req.body, Found(db.rows, db.version));
  }

  /** What a call that took effect left behind. */
  ghost predicate Stored<S>(h: Hasher, db: Db<S>, req: Request<S>, rows: S, drafts: seq<Draft>,
                            after: Db<S>, r: Receipt) {
    after.rows == rows
    && after.version == (if req.bumpVersion then db.version + 1 else db.version)
    && AddsEvents(h, req, drafts, db.events, after.events)
    && after.receipts == db.receipts + [r]
    && r.mutationId == req.mutationId && r.operationId == req.author.operationId
    && r.priorVersion == db.version && r.resultVersion == after.version
    && (drafts == [] ==> r.seqFrom == -1 && r.seqTo == -1)
    && (drafts != [] ==> r.seqFrom == |db.events| + 1 && r.seqTo == |after.events|)
  }

  /** A call takes effect exactly when its mutation id has no receipt, the version is
      the one it expects, its body runs and the ids it emits are new. Then the rows are
      those its last statement left, each event is on record with every column, and
      the receipt says who, from which version to which, and which events. */
  lemma CommitStores<S(!new)>(h: Hasher, db: Db<S>, req: Request<S>, rows: seq<S>)
    requires Trace(req.body, Found(db.rows, db.version), rows)
    ensures var (after, r) := Commit(h, db, req);
            var drafts := Emitted(req.body, Found(db.rows, db.version), rows);
            (r.Ok? && !r.value.replayed
             <==> !Receipted(db.receipts, req.mutationId)
                  && Expected(db, req)
                  && IdsFresh(db.events, drafts))
            && (r.Ok? && !r.value.replayed ==>
                  Stored(h, db, req, rows[|req.body|], drafts, after, r.value.receipt))
  {
    ReceiptedIff(db.receipts, req.mutationId);
    var found := Found(db.rows, db.version);
    TraceIsRun(req.author, req.body, found, rows);
    var drafts := Emitted(req.body, found, rows);
    LinkedIff(h, db.events, req.author, drafts, req.runId, req.ts);
    QueuedAll(req.author, drafts);
    if IdsFresh(db.events, drafts) {
      LinkedAdds(h, req, drafts, db.events);
    }
  }

  lemma QueuedAll(author: Author, drafts: seq<Draft>)
    ensures |Queue(author, [], drafts)| == |drafts|
  {
    if drafts != [] {
      QueueFills(author, drafts, 0);
    }
  }

  // ---------------------------------------------------------------- histories

  ghost predicate IdsUnique(log: seq<Row>) {
    forall i, j :: 0 <= i < j < |log| ==> log[i].fields.eventId != log[j].fields.eventId
  }

  /** No log a history leaves names an event twice. */
  lemma {:induction false} EventIdsUnique<S(!new)>(h: Hasher, rows: S, history: seq<Entry<S>>)
    ensures IdsUnique(Replay(h, Fresh(rows), history).events)
  {
    if history != [] {
      EventIdsUnique(h, rows, history[..|history|-1]);
      var db := Replay(h, Fresh(rows), history[..|history|-1]);
      match history[|history|-1]
      case Applied(req) => CommitKeepsIds(h, db, req);
      case _ =>
    }
  }

  lemma CommitKeepsIds<S(!new)>(h: Hasher, db: Db<S>, req: Request<S>)
    requires IdsUnique(db.events)
    ensures IdsUnique(Commit(h, db, req).0.events)
  {
    if TakesEffect(h, db, req) {
      var found := Found(db.rows, db.version);
      var rows := RunIsTrace(req.author, req.body, found);
      CommitStores(h, db, req, rows);
      AddedIdsUnique(h, req, Emitted(req.body, found, rows), db.events, Commit(h, db, req).0.events);
    }
  }

  lemma AddedIdsUnique<S>(h: Hasher, req: Request<S>, drafts: seq<Draft>, was: seq<Row>,
                          log: seq<Row>)
    requires IdsUnique(was) && IdsFresh(was, drafts) && AddsEvents(h, req, drafts, was, log)
    ensures IdsUnique(log)
  {
    var n := |was|;
    forall i, j | 0 <= i < j < |log| ensures log[i].fields.eventId != log[j].fields.eventId {
      assert i < n ==> log[i] == log[..n][i];
      assert j < n ==> log[j] == log[..n][j];
      assert i >= n ==> AddsEvent(h, req, drafts[i-n], log, n, n + (i - n));
      assert j >= n ==> AddsEvent(h, req, drafts[j-n], log, n, n + (j - n));
    }
  }
}
