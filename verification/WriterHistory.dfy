/**
  What every history of commits keeps: a verified chain, receipts whose versions
  follow on without a gap, event ranges that tile the log, and one receipt for
  each mutation id.
 */
module WriterHistory {
  import opened Outcomes
  import opened HashChain
  import opened StateWriter

  /** Commits, and the two writes that bypass the writer but hold its lock. */
  datatype Entry<!S> =
    | Applied(req: Request<S>)
    | Beaten(beat: S -> S)
    | Marked(mark: (S, int) -> S, version: int)

  function Enter<S>(h: Hasher, db: Db<S>, e: Entry<S>): Db<S> {
    match e
    case Applied(req) => Commit(h, db, req).0
    case Beaten(f) => db.(rows := f(db.rows))
    case Marked(f, v) => db.(rows := f(db.rows, v))
  }

  function Replay<S>(h: Hasher, db: Db<S>, history: seq<Entry<S>>): Db<S> {
    if history == [] then db
    else Enter(h, Replay(h, db, history[..|history|-1]), history[|history|-1])
  }

  function Fresh<S>(rows: S): Db<S> {
    Db(rows, [], 0, [])
  }

  // ---------------------------------------------------------------- receipts

  function VersionAfter(receipts: seq<Receipt>, k: nat): int
    requires k <= |receipts|
  {
    if k == 0 then 0 else receipts[k-1].resultVersion
  }

  /** Each receipt starts at the version the one before it ended at, and a
      commit moves the version by one or not at all. */
  ghost predicate VersionsChain(receipts: seq<Receipt>, version: int) {
    version == VersionAfter(receipts, |receipts|)
    && (forall k :: 0 <= k < |receipts| ==>
          receipts[k].priorVersion == VersionAfter(receipts, k))
    && forall k :: 0 <= k < |receipts| ==>
         receipts[k].resultVersion == receipts[k].priorVersion
         || receipts[k].resultVersion == receipts[k].priorVersion + 1
  }

  lemma VersionsOneMore(receipts: seq<Receipt>, version: int, r: Receipt)
    requires VersionsChain(receipts, version) && r.priorVersion == version
    requires r.resultVersion == version || r.resultVersion == version + 1
    ensures VersionsChain(receipts + [r], r.resultVersion)
  {
    var more := receipts + [r];
    forall k | 0 <= k < |more| ensures more[k].priorVersion == VersionAfter(more, k) {
      if k < |receipts| {
        assert VersionAfter(more, k) == VersionAfter(receipts, k);
        assert more[k] == receipts[k];
      }
    }
  }

  predicate Covers(r: Receipt, seqNo: int) {
    r.seqFrom <= seqNo <= r.seqTo && r.seqFrom != -1
  }

  /** The ranges, in order, are consecutive stretches of 1..n. */
  ghost predicate Tiles(receipts: seq<Receipt>, n: int) {
    if receipts == [] then n == 0
    else
      var r := receipts[|receipts|-1];
      if r.seqFrom == -1 then r.seqTo == -1 && Tiles(receipts[..|receipts|-1], n)
      else 1 <= r.seqFrom <= r.seqTo == n && Tiles(receipts[..|receipts|-1], r.seqFrom - 1)
  }

  lemma {:induction false} TilesCoverOnce(receipts: seq<Receipt>, n: int, seqNo: int)
    requires Tiles(receipts, n)
    ensures n >= 0
    ensures 1 <= seqNo <= n <==> exists k :: 0 <= k < |receipts| && Covers(receipts[k], seqNo)
    ensures forall i, j :: 0 <= i < j < |receipts| && Covers(receipts[i], seqNo) ==>
              !Covers(receipts[j], seqNo)
  {
    if receipts != [] {
      var m := |receipts| - 1;
      var rest := receipts[..m];
      var r := receipts[m];
      TilesCoverOnce(rest, if r.seqFrom == -1 then n else r.seqFrom - 1, seqNo);
      if k :| 0 <= k < |rest| && Covers(rest[k], seqNo) {
        assert Covers(receipts[k], seqNo);
      }
      if Covers(r, seqNo) {
        assert Covers(receipts[m], seqNo);
      }
      if k :| 0 <= k < |receipts| && Covers(receipts[k], seqNo) {
        assert k < m ==> Covers(rest[k], seqNo);
      }
      forall i, j | 0 <= i < j < |receipts| && Covers(receipts[i], seqNo)
        ensures !Covers(receipts[j], seqNo)
      {
        assert Covers(rest[i], seqNo);
      }
    }
  }

  ghost predicate MutationIdsUnique(receipts: seq<Receipt>) {
    forall i, j :: 0 <= i < j < |receipts| ==> receipts[i].mutationId != receipts[j].mutationId
  }

  ghost predicate Numbered(log: seq<Row>) {
    forall k :: 0 <= k < |log| ==> log[k].seqNo == k + 1
  }

  ghost predicate Sound<S>(h: Hasher, db: Db<S>) {
    Verified(h, db.events) && Numbered(db.events)
    && VersionsChain(db.receipts, db.version)
    && Tiles(db.receipts, |db.events|)
    && MutationIdsUnique(db.receipts)
  }

  lemma {:induction false} FindReceiptIs(receipts: seq<Receipt>, mutationId: string)
    ensures FindReceipt(receipts, mutationId).None? <==>
              forall k :: 0 <= k < |receipts| ==> receipts[k].mutationId != mutationId
    ensures var found := FindReceipt(receipts, mutationId);
            found.Some? ==> found.value in receipts && found.value.mutationId == mutationId
  {
    if receipts != [] {
      FindReceiptIs(receipts[1..], mutationId);
      assert receipts == [receipts[0]] + receipts[1..];
    }
  }

  lemma {:induction false} LinkingVerifies(h: Hasher, log: seq<Row>, events: seq<Pending>,
                                           runId: string, ts: int)
    requires Verified(h, log) && Numbered(log)
    ensures var linked := LinkEvents(h, log, events, runId, ts);
            linked.Some? ==> Verified(h, linked.value) && Numbered(linked.value)
                             && |linked.value| == |log| + |events|
                             && linked.value[..|log|] == log
  {
    if events != [] {
      LinkingVerifies(h, log, events[..|events|-1], runId, ts);
      var before := LinkEvents(h, log, events[..|events|-1], runId, ts);
      var linked := LinkEvents(h, log, events, runId, ts);
      if linked.Some? {
        forall k | 0 <= k < |linked.value| ensures Linked(h, linked.value, k) {
          assert k < |before.value| ==> Linked(h, before.value, k);
        }
      }
    }
  }

  lemma TilesOneMore(receipts: seq<Receipt>, n: int, r: Receipt, m: int)
    requires Tiles(receipts, n)
    requires if r.seqFrom == -1 then r.seqTo == -1 && m == n
             else 1 <= r.seqFrom <= r.seqTo == m && r.seqFrom == n + 1
    ensures Tiles(receipts + [r], m)
  {
    assert (receipts + [r])[..|receipts|] == receipts;
  }

  lemma CommitKeepsSound<S>(h: Hasher, db: Db<S>, req: Request<S>)
    requires Sound(h, db)
    ensures Sound(h, Commit(h, db, req).0)
  {
    if TakesEffect(h, db, req) {
      var ran := RunBody(req.author, req.body, Found(db.rows, db.version));
      FindReceiptIs(db.receipts, req.mutationId);
      LinkingVerifies(h, db.events, ran.value.1, req.runId, req.ts);
      var receipt := ReceiptOf(req, db.version, |db.events|, |ran.value.1|);
      VersionsOneMore(db.receipts, db.version, receipt);
      TilesOneMore(db.receipts, |db.events|, receipt, |db.events| + |ran.value.1|);
    }
  }

  /** Every history, whatever its bodies do, leaves a sound store. */
  lemma {:induction false} HistoriesAreSound<S>(h: Hasher, rows: S, history: seq<Entry<S>>)
    ensures Sound(h, Replay(h, Fresh(rows), history))
  {
    if history != [] {
      HistoriesAreSound(h, rows, history[..|history|-1]);
      var db := Replay(h, Fresh(rows), history[..|history|-1]);
      match history[|history|-1]
      case Applied(req) => CommitKeepsSound(h, db, req);
      case _ =>
    }
  }

  // ---------------------------------------------------------------- causes

  /** What a body emits, in order, before anything is filled in. */
  function DraftsOf<S>(author: Author, body: seq<BodyOp<S>>, found: Found<S>): seq<Draft>
    requires RunBody(author, body, found).Some?
  {
    if body == [] then []
    else
      var before := body[..|body|-1];
      DraftsOf(author, before, found)
      + match body[|body|-1]
        case Write(_) => []
        case Emit(drafts) => drafts(found, RunBody(author, before, found).value.0)
  }

  lemma {:induction false} QueueAppend(author: Author, queued: seq<Pending>, a: seq<Draft>,
                                       b: seq<Draft>)
    ensures Queue(author, Queue(author, queued, a), b) == Queue(author, queued, a + b)
  {
    if b == [] {
      assert a + b == a;
    } else {
      QueueAppend(author, queued, a, b[..|b|-1]);
      assert (a + b)[..|a + b|-1] == a + b[..|b|-1];
    }
  }

  lemma {:induction false} BodyQueuesDrafts<S>(author: Author, body: seq<BodyOp<S>>,
                                               found: Found<S>)
    requires RunBody(author, body, found).Some?
    ensures RunBody(author, body, found).value.1
            == Queue(author, [], DraftsOf(author, body, found))
  {
    if body != [] {
      var before := body[..|body|-1];
      BodyQueuesDrafts(author, before, found);
      var earlier := DraftsOf(author, before, found);
      match body[|body|-1]
      case Write(_) => assert earlier + [] == earlier;
      case Emit(drafts) =>
        QueueAppend(author, [], earlier, drafts(found, RunBody(author, before, found).value.0));
    }
  }

  lemma {:induction false} QueueFills(author: Author, drafts: seq<Draft>, i: nat)
    requires i < |drafts|
    ensures var queued := Queue(author, [], drafts);
            |queued| == |drafts| && queued[i] == Filled(author, queued[..i], drafts[i])
  {
    var n := |drafts| - 1;
    var before := Queue(author, [], drafts[..n]);
    if n > 0 {
      QueueFills(author, drafts[..n], if i < n then i else 0);
    }
    assert Queue(author, [], drafts)[..i] == before[..i];
  }

  lemma {:induction false} LinkedFields(h: Hasher, log: seq<Row>, events: seq<Pending>,
                                        runId: string, ts: int)
    requires LinkEvents(h, log, events, runId, ts).Some?
    ensures var linked := LinkEvents(h, log, events, runId, ts).value;
            |linked| == |log| + |events| && linked[..|log|] == log
            && forall i :: 0 <= i < |events| ==>
                 linked[|log|+i].fields == FieldsOf(events[i], runId, ts)
  {
    if events != [] {
      LinkedFields(h, log, events[..|events|-1], runId, ts);
    }
  }

  /** The events on record: the i-th event a call committed is the i-th its body
      emitted, and unless that named a cause it is caused by the event the same call
      committed before it, the first by none. */
  lemma CommittedCauses<S>(h: Hasher, db: Db<S>, req: Request<S>, i: nat)
    requires TakesEffect(h, db, req)
    ensures var found := Found(db.rows, db.version);
            var drafts := DraftsOf(req.author, req.body, found);
            var log := Commit(h, db, req).0.events;
            |log| == |db.events| + |drafts|
            && (i < |drafts| ==>
                  var fields := log[|db.events|+i].fields;
                  fields.eventId == drafts[i].eventId && fields.kind == drafts[i].kind
                  && fields.payloadInline == drafts[i].payloadInline
                  && fields.payloadSha256 == drafts[i].payloadSha256
                  && fields.actorIncarnation == req.author.incarnation
                  && fields.causationId
                     == if drafts[i].causationId.Some? then drafts[i].causationId
                        else if i == 0 then None
                        else Some(log[|db.events|+i-1].fields.eventId))
  {
    var found := Found(db.rows, db.version);
    var drafts := DraftsOf(req.author, req.body, found);
    BodyQueuesDrafts(req.author, req.body, found);
    LinkedCauses(h, db.events, req.author, drafts, req.runId, req.ts, i);
  }

  lemma LinkedCauses(h: Hasher, log: seq<Row>, author: Author, drafts: seq<Draft>, runId: string,
                     ts: int, i: nat)
    requires LinkEvents(h, log, Queue(author, [], drafts), runId, ts).Some?
    ensures var linked := LinkEvents(h, log, Queue(author, [], drafts), runId, ts).value;
            |linked| == |log| + |drafts|
            && (i < |drafts| ==>
                  var fields := linked[|log|+i].fields;
                  fields.eventId == drafts[i].eventId && fields.kind == drafts[i].kind
                  && fields.payloadInline == drafts[i].payloadInline
                  && fields.payloadSha256 == drafts[i].payloadSha256
                  && fields.actorIncarnation == author.incarnation
                  && fields.causationId
                     == if drafts[i].causationId.Some? then drafts[i].causationId
                        else if i == 0 then None
                        else Some(linked[|log|+i-1].fields.eventId))
  {
    var queued := Queue(author, [], drafts);
    LinkedFields(h, log, queued, runId, ts);
    if drafts != [] {
      QueueFills(author, drafts, if i < |drafts| then i else 0);
    }
    if 0 < i < |drafts| {
      assert queued[..i][i-1] == queued[i-1];
    }
  }

  /** Read back: the log verifies from any starting point, every event lies in
      exactly one receipt's range, and no receipt's range reaches outside. */
  lemma EveryEventReceiptedOnce<S>(h: Hasher, rows: S, history: seq<Entry<S>>, seqNo: int)
    ensures var db := Replay(h, Fresh(rows), history);
            InSeqOrder(db.events) && Verified(h, db.events)
            && (1 <= seqNo <= |db.events|
                <==> exists k :: 0 <= k < |db.receipts| && Covers(db.receipts[k], seqNo))
            && forall i, j :: 0 <= i < j < |db.receipts| && Covers(db.receipts[i], seqNo) ==>
                 !Covers(db.receipts[j], seqNo)
  {
    HistoriesAreSound(h, rows, history);
    var db := Replay(h, Fresh(rows), history);
    TilesCoverOnce(db.receipts, |db.events|, seqNo);
  }

  lemma {:induction false} ReceiptsStay<S>(h: Hasher, db: Db<S>, history: seq<Entry<S>>)
    ensures var later := Replay(h, db, history).receipts;
            |db.receipts| <= |later| && later[..|db.receipts|] == db.receipts
  {
    if history != [] {
      ReceiptsStay(h, db, history[..|history|-1]);
    }
  }

  lemma {:induction false} FirstReceiptStays(receipts: seq<Receipt>, later: seq<Receipt>,
                                             mutationId: string)
    requires |receipts| <= |later| && later[..|receipts|] == receipts
    requires FindReceipt(receipts, mutationId).Some?
    ensures FindReceipt(later, mutationId) == FindReceipt(receipts, mutationId)
  {
    assert later[0] == later[..|receipts|][0];
    if receipts[0].mutationId != mutationId {
      assert later[1..][..|receipts|-1] == receipts[1..];
      FirstReceiptStays(receipts[1..], later[1..], mutationId);
    }
  }

  /** Once a mutation id is committed, a later call with that id, whatever its
      body, is answered with the first receipt and adds nothing. */
  lemma RepeatAddsNothing<S>(h: Hasher, db: Db<S>, req: Request<S>, between: seq<Entry<S>>,
                             again: Request<S>)
    requires Commit(h, db, req).1.Ok? && again.mutationId == req.mutationId
    ensures var later := Replay(h, Commit(h, db, req).0, between);
            Commit(h, later, again)
            == (later, Ok(Answer(Commit(h, db, req).1.value.receipt, true)))
  {
    var (after, r) := Commit(h, db, req);
    if !r.value.replayed {
      FindReceiptIs(db.receipts, req.mutationId);
      FindAppended(db.receipts, r.value.receipt);
    }
    ReceiptsStay(h, after, between);
    FirstReceiptStays(after.receipts, Replay(h, after, between).receipts, req.mutationId);
  }

  lemma {:induction false} FindAppended(receipts: seq<Receipt>, r: Receipt)
    requires FindReceipt(receipts, r.mutationId).None?
    ensures FindReceipt(receipts + [r], r.mutationId) == Some(r)
  {
    if receipts != [] {
      assert (receipts + [r])[1..] == receipts[1..] + [r];
      FindAppended(receipts[1..], r);
    }
  }
}
