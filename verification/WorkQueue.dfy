/**
  The work table as a value, and what each verb of the queue does to it.

  Every verb is one transaction. A verb that raises leaves the table as it was,
  so each one is a total function from a table to a table and an outcome.
  Rows are kept in a map; `order` lists their ids in the order they were
  inserted, which is what SQLite's rowid records.
 */
module WorkQueue {
  import opened Outcomes

  type WorkId = string
  type Time = int

  const MAX_WORK_ATTEMPTS: nat := 3
  const LEASE_WINDOW: nat := 20
  const DISPATCH_WINDOW: nat := 50
  const WORK_CLASSES := {"user", "maintenance"}
  const BOARD_ACCESS := {"none", "read", "read_write"}

  datatype Status = Queued | Leased | Done | Failed | Cancelled
  {
    predicate Terminal() { Done? || Failed? || Cancelled? }
  }

  /** Why a row carries a failure text. */
  datatype Failure =
    | Reported(text: string)
    | CalledOff(reason: string)
    | LeasesExpired
    | DeadDependencies(dead: set<WorkId>)

  /** What the row permits the attempt that holds its lease to do. */
  datatype Grant = Grant(objective: string, sandboxAllowed: bool, boardAccess: string)

  datatype Error = InvalidInput | NotFound | Fenced | Conflict

  datatype Outcome = Committed | Replayed | Refused(error: Error)

  /** One thing a committed verb may do to one row. */
  datatype Move =
    | Stay
    | TakeLease(neuocyte: string, until: Time)
    | Renew(renewedUntil: Time)
    | Finish(blob: string)
    | Report(text: string, requeue: bool)
    | CallOff(reason: string)
    | Expire
    | Requeue
    | Retire(dead: set<WorkId>)

  datatype Item = Item(
    rowid: nat,
    workClass: string,
    priority: int,
    dependsOn: seq<WorkId>,
    grant: Grant,
    createdAt: Time,
    status: Status,
    owner: Option<string>,
    expires: Option<Time>,
    attempt: nat,
    token: nat,
    result: Option<string>,
    failure: Option<Failure>)
  {
    /** Leases, cancellations, expiries and recoveries retire the old token. */
    function Apply(m: Move): Item {
      match m
      case Stay => this
      case TakeLease(n, until) =>
        this.(status := Leased, owner := Some(n), expires := Some(until),
              attempt := attempt + 1, token := token + 1)
      case Renew(until) => this.(expires := Some(until))
      case Finish(blob) =>
        this.(status := Done, result := Some(blob), owner := None, expires := None)
      case Report(text, requeue) =>
        this.(status := if requeue && attempt < MAX_WORK_ATTEMPTS then Queued else Failed,
              failure := Some(Reported(text)), owner := None, expires := None)
      case CallOff(reason) =>
        this.(status := Cancelled, failure := Some(CalledOff(reason)), owner := None,
              expires := None, token := token + 1)
      case Expire =>
        this.(status := if Spent() then Failed else Queued, owner := None, expires := None,
              token := token + 1,
              failure := if Spent() then Some(LeasesExpired) else failure)
      case Requeue =>
        this.(status := Queued, owner := None, expires := None, token := token + 1)
      case Retire(dead) =>
        this.(status := Failed, failure := Some(DeadDependencies(dead)), owner := None,
              expires := None)
    }

    predicate Spent() { attempt >= MAX_WORK_ATTEMPTS }

    predicate Overdue(now: Time) {
      status == Leased && expires.Some? && expires.value < now
    }

    predicate Holds(neuocyte: string, presented: int) {
      status == Leased && owner == Some(neuocyte) && token == presented
    }

    /** Dispatch order: priority descending, then age; ties by insertion. */
    predicate Before(other: Item) {
      priority > other.priority
      || (priority == other.priority
          && (createdAt < other.createdAt
              || (createdAt == other.createdAt && rowid < other.rowid)))
    }
  }

  datatype Event =
    | WorkAdmitted(id: WorkId)
    | WorkLeased(id: WorkId, neuocyte: string, token: nat, attempt: nat, until: Time)
    | WorkCompleted(id: WorkId, neuocyte: string, blob: string, presented: int)
    | WorkFailed(id: WorkId, reporter: Option<string>, requeued: bool)
    | WorkCancelled(id: WorkId, reason: string)
    | LeaseExpired(id: WorkId, priorOwner: Option<string>, attempt: nat, retired: bool)
    | ResultFenced(id: WorkId, neuocyte: string, presented: int)
    | Recovery(requeuedWork: seq<WorkId>)
    | RunStarted

  /** The deterministic mutation ids; a caller may also supply its own. */
  datatype MutationId =
    | Named(name: string)
    | ForAdmit(id: WorkId)
    | ForComplete(id: WorkId, presented: int)
    | ForFail(id: WorkId, presented: int)
    | ForCancel(id: WorkId)

  datatype Request = Request(
    workClass: string, priority: int, dependsOn: seq<WorkId>, grant: Grant)

  datatype Blocked = Blocked(id: WorkId, dead: set<WorkId>)

  datatype Queue = Queue(
    items: map<WorkId, Item>,
    order: seq<WorkId>,
    log: seq<Event>,
    receipts: set<MutationId>)

  const EMPTY := Queue(map[], [], [], {})

  // ---------------------------------------------------------------- reading

  predicate IsDone(items: map<WorkId, Item>, d: WorkId) {
    d in items && items[d].status == Done
  }

  predicate AllDone(items: map<WorkId, Item>, deps: seq<WorkId>) {
    forall d :: d in deps ==> IsDone(items, d)
  }

  /** A dependency that can never become satisfied. */
  predicate IsDead(items: map<WorkId, Item>, d: WorkId) {
    d !in items || items[d].status == Failed || items[d].status == Cancelled
  }

  function DeadDeps(items: map<WorkId, Item>, deps: seq<WorkId>): set<WorkId> {
    set d | d in deps && IsDead(items, d)
  }

  /** The WHERE clause of the lease and dispatch queries. */
  predicate Matches(x: Item, id: WorkId, workClass: Option<string>, workId: Option<WorkId>) {
    x.status == Queued
    && (workClass.Some? ==> x.workClass == workClass.value)
    && (workId.Some? ==> id == workId.value)
  }

  function Select(items: map<WorkId, Item>, order: seq<WorkId>,
                  workClass: Option<string>, workId: Option<WorkId>): seq<WorkId>
  {
    if order == [] then []
    else
      var rest := Select(items, order[1..], workClass, workId);
      if order[0] in items && Matches(items[order[0]], order[0], workClass, workId)
      then [order[0]] + rest else rest
  }

  function InsertRow(items: map<WorkId, Item>, id: WorkId, sorted: seq<WorkId>): seq<WorkId>
    requires id in items && forall x :: x in sorted ==> x in items
  {
    if sorted == [] || items[id].Before(items[sorted[0]]) then [id] + sorted
    else [sorted[0]] + InsertRow(items, id, sorted[1..])
  }

  /** ORDER BY priority DESC, created_at ASC. */
  function SortRows(items: map<WorkId, Item>, ids: seq<WorkId>): (r: seq<WorkId>)
    requires forall x :: x in ids ==> x in items
    ensures multiset(r) == multiset(ids)
    ensures forall x :: x in r ==> x in items
  {
    if ids == [] then []
    else
      var rest := SortRows(items, ids[1..]);
      InsertRowKeeps(items, ids[0], rest);
      assert ids == [ids[0]] + ids[1..];
      InsertRow(items, ids[0], rest)
  }

  lemma InsertRowKeeps(items: map<WorkId, Item>, id: WorkId, sorted: seq<WorkId>)
    requires id in items && forall x :: x in sorted ==> x in items
    ensures multiset(InsertRow(items, id, sorted)) == multiset(sorted) + multiset{id}
    ensures forall x :: x in InsertRow(items, id, sorted) ==> x == id || x in sorted
  {
    if sorted != [] && !items[id].Before(items[sorted[0]]) {
      InsertRowKeeps(items, id, sorted[1..]);
      assert sorted == [sorted[0]] + sorted[1..];
    }
  }

  function Take<T>(s: seq<T>, n: nat): seq<T> {
    if |s| <= n then s else s[..n]
  }

  /** The rows a query returns: matching, in dispatch order, at most `limit`. */
  function Window(q: Queue, workClass: Option<string>, workId: Option<WorkId>, limit: nat)
    : seq<WorkId>
  {
    SelectInItems(q.items, q.order, workClass, workId);
    Take(SortRows(q.items, Select(q.items, q.order, workClass, workId)), limit)
  }

  lemma SelectInItems(items: map<WorkId, Item>, order: seq<WorkId>,
                      workClass: Option<string>, workId: Option<WorkId>)
    ensures forall x :: x in Select(items, order, workClass, workId) <==>
                        x in order && x in items && Matches(items[x], x, workClass, workId)
  {
    if order != [] {
      SelectInItems(items, order[1..], workClass, workId);
    }
  }

  /** The first id whose dependencies are all done. */
  function FirstReady(items: map<WorkId, Item>, ids: seq<WorkId>): Option<WorkId> {
    if ids == [] then None
    else if ids[0] in items && AllDone(items, items[ids[0]].dependsOn) then Some(ids[0])
    else FirstReady(items, ids[1..])
  }

  function NextReady(q: Queue, workClass: string): Option<WorkId> {
    FirstReady(q.items, Window(q, Some(workClass), None, DISPATCH_WINDOW))
  }

  /** The read half of retirement: queued rows with a dead dependency. */
  function Scan(items: map<WorkId, Item>, order: seq<WorkId>): seq<Blocked> {
    if order == [] then []
    else
      var rest := Scan(items, order[1..]);
      var id := order[0];
      if id in items && items[id].status == Queued && DeadDeps(items, items[id].dependsOn) != {}
      then [Blocked(id, DeadDeps(items, items[id].dependsOn))] + rest
      else rest
  }

  function Authorise(q: Queue, id: WorkId, neuocyte: string, presented: int)
    : Result<Grant, Error>
  {
    if id !in q.items then Err(NotFound)
    else if q.items[id].status != Leased then Err(Fenced)
    else if q.items[id].owner != Some(neuocyte) then Err(Fenced)
    else if q.items[id].token != presented then Err(Fenced)
    else Ok(q.items[id].grant)
  }

  // ---------------------------------------------------------------- writing

  /** One row updated in place, with what the transaction logs about it. */
  function Update(q: Queue, id: WorkId, m: Move, events: seq<Event>): Queue
    requires id in q.items
  {
    q.(items := q.items[id := q.items[id].Apply(m)], log := q.log + events)
  }

  function Receipted(q: Queue, mid: MutationId): Queue {
    q.(receipts := q.receipts + {mid})
  }

  function NewItem(rowid: nat, req: Request, now: Time): Item {
    Item(rowid, req.workClass, req.priority, req.dependsOn, req.grant, now,
         Queued, None, None, 0, 0, None, None)
  }

  /** `id` is the fresh id the caller drew; a clash breaks the primary key. */
  function Admit(q: Queue, id: WorkId, req: Request, mid: MutationId, now: Time)
    : (Queue, Outcome)
  {
    if req.workClass !in WORK_CLASSES || req.grant.boardAccess !in BOARD_ACCESS
    then (q, Refused(InvalidInput))
    else if exists d :: d in req.dependsOn && d !in q.items then (q, Refused(InvalidInput))
    else if mid in q.receipts then (q, Replayed)
    else if id in q.items then (q, Refused(Conflict))
    else
      (Receipted(q.(items := q.items[id := NewItem(|q.order|, req, now)],
                    order := q.order + [id],
                    log := q.log + [WorkAdmitted(id)]), mid),
       Committed)
  }

  function Lease(q: Queue, neuocyte: string, workClass: Option<string>,
                 workId: Option<WorkId>, until: Time): (Queue, Option<WorkId>)
  {
    var pick := FirstReady(q.items, Window(q, workClass, workId, LEASE_WINDOW));
    if pick.None? || pick.value !in q.items then (q, None)
    else
      var x := q.items[pick.value];
      (Update(q, pick.value, TakeLease(neuocyte, until),
              [WorkLeased(pick.value, neuocyte, x.token + 1, x.attempt + 1, until)]),
       pick)
  }

  function RenewLease(q: Queue, id: WorkId, neuocyte: string, presented: int, until: Time)
    : (Queue, bool)
  {
    if id in q.items && q.items[id].Holds(neuocyte, presented)
    then (Update(q, id, Renew(until), []), true)
    else (q, false)
  }

  /** A result needs the current token and a row that has not ended. It does
      not need the row to be leased. */
  function Complete(q: Queue, id: WorkId, neuocyte: string, presented: int, blob: string)
    : (Queue, Outcome)
  {
    var mid := ForComplete(id, presented);
    if mid in q.receipts then (q, Replayed)
    else if id !in q.items then (q, Refused(NotFound))
    else if q.items[id].token != presented || q.items[id].status.Terminal()
    then (q.(log := q.log + [ResultFenced(id, neuocyte, presented)]), Refused(Fenced))
    else
      (Receipted(Update(q, id, Finish(blob), [WorkCompleted(id, neuocyte, blob, presented)]),
                 mid),
       Committed)
  }

  function Fail(q: Queue, id: WorkId, neuocyte: string, presented: int, text: string,
                requeue: bool): (Queue, Outcome)
  {
    var mid := ForFail(id, presented);
    if mid in q.receipts then (q, Replayed)
    else if id !in q.items then (q, Refused(NotFound))
    else if q.items[id].token != presented || q.items[id].status != Leased
    then (q.(log := q.log + [ResultFenced(id, neuocyte, presented)]), Refused(Fenced))
    else
      var back := requeue && q.items[id].attempt < MAX_WORK_ATTEMPTS;
      (Receipted(Update(q, id, Report(text, requeue),
                        [WorkFailed(id, Some(neuocyte), back)]), mid),
       Committed)
  }

  /** The event is written even when the row had already ended or never was. */
  function Cancel(q: Queue, id: WorkId, reason: string): (Queue, Outcome) {
    var mid := ForCancel(id);
    if mid in q.receipts then (q, Replayed)
    else
      var noted := q.(log := q.log + [WorkCancelled(id, reason)]);
      (Receipted(if id in q.items && !q.items[id].status.Terminal()
                 then noted.(items := q.items[id := q.items[id].Apply(CallOff(reason))])
                 else noted, mid),
       Committed)
  }

  function OverdueIds(items: map<WorkId, Item>, order: seq<WorkId>, now: Time): seq<WorkId> {
    if order == [] then []
    else
      var rest := OverdueIds(items, order[1..], now);
      if order[0] in items && items[order[0]].Overdue(now) then [order[0]] + rest else rest
  }

  function ExpiryEvents(items: map<WorkId, Item>, ids: seq<WorkId>): seq<Event>
    requires forall x :: x in ids ==> x in items
  {
    if ids == [] then []
    else ExpiryEvents(items, ids[..|ids|-1]) + ExpiryEventsOf(ids[|ids|-1], items[ids[|ids|-1]])
  }

  function ExpiryEventsOf(id: WorkId, x: Item): seq<Event> {
    [LeaseExpired(id, x.owner, x.attempt, x.Spent())]
    + if x.Spent() then [WorkFailed(id, x.owner, false)] else []
  }

  lemma ExpiryEventsNext(items: map<WorkId, Item>, ids: seq<WorkId>, k: nat)
    requires k < |ids| && forall x :: x in ids ==> x in items
    ensures ExpiryEvents(items, ids[..k+1])
            == ExpiryEvents(items, ids[..k]) + ExpiryEventsOf(ids[k], items[ids[k]])
  {
    assert ids[..k+1][..k] == ids[..k];
  }

  lemma OverdueIdsAre(items: map<WorkId, Item>, order: seq<WorkId>, now: Time)
    ensures forall x :: x in OverdueIds(items, order, now) <==>
                        x in order && x in items && items[x].Overdue(now)
  {
    if order != [] {
      OverdueIdsAre(items, order[1..], now);
    }
  }

  /** Every row in `ids` moved once, each by `m`. */
  function MoveAll(items: map<WorkId, Item>, ids: seq<WorkId>, m: Move): map<WorkId, Item> {
    map id | id in items :: if id in ids then items[id].Apply(m) else items[id]
  }

  lemma MoveAllNone(items: map<WorkId, Item>, m: Move)
    ensures MoveAll(items, [], m) == items
  {
  }

  /** Moving one more row, not yet moved, extends the batch by that row. */
  lemma MoveAllNext(items: map<WorkId, Item>, ids: seq<WorkId>, k: nat, m: Move)
    requires k < |ids| && ids[k] in items && ids[k] !in ids[..k]
    ensures MoveAll(items, ids[..k], m)[ids[k]] == items[ids[k]]
    ensures MoveAll(items, ids[..k+1], m)
            == MoveAll(items, ids[..k], m)[ids[k] := items[ids[k]].Apply(m)]
  {
    assert ids[..k+1] == ids[..k] + [ids[k]];
  }

  function ExpireLeases(q: Queue, now: Time): (Queue, seq<WorkId>) {
    OverdueIdsAre(q.items, q.order, now);
    var ids := OverdueIds(q.items, q.order, now);
    (q.(items := MoveAll(q.items, ids, Expire), log := q.log + ExpiryEvents(q.items, ids)), ids)
  }

  function LeasedIds(items: map<WorkId, Item>, order: seq<WorkId>): seq<WorkId> {
    if order == [] then []
    else
      var rest := LeasedIds(items, order[1..]);
      if order[0] in items && items[order[0]].status == Leased then [order[0]] + rest else rest
  }

  /** The work step of recovery. The attempt cap is not consulted. */
  function Recover(q: Queue): Queue {
    var ids := LeasedIds(q.items, q.order);
    q.(items := MoveAll(q.items, ids, Requeue), log := q.log + [Recovery(ids), RunStarted])
  }

  /** The write half of retirement, over a scan that may be out of date: a row
      that is no longer queued is left alone, yet its event is written. */
  function RetireOne(q: Queue, b: Blocked): Queue {
    var noted := q.(log := q.log + [WorkFailed(b.id, None, false)]);
    if b.id in q.items && q.items[b.id].status == Queued
    then noted.(items := q.items[b.id := q.items[b.id].Apply(Retire(b.dead))])
    else noted
  }

  function RetireScanned(q: Queue, blocked: seq<Blocked>): Queue {
    if blocked == [] then q
    else RetireOne(RetireScanned(q, blocked[..|blocked|-1]), blocked[|blocked|-1])
  }

  // ------------------------------------------------------- shape of the table

  /** Primary key and rowid: each stored row is listed exactly once. */
  ghost predicate WellStored(q: Queue) {
    (forall i, j :: 0 <= i < j < |q.order| ==> q.order[i] != q.order[j])
    && (forall id :: id in q.order <==> id in q.items)
    && (forall i :: 0 <= i < |q.order| ==> q.order[i] in q.items && q.items[q.order[i]].rowid == i)
  }

  lemma TableKept(q: Queue, r: Queue)
    requires WellStored(q) && r.order == q.order && r.items.Keys == q.items.Keys
    requires forall id :: id in q.items ==> r.items[id].rowid == q.items[id].rowid
    ensures WellStored(r)
  {
  }

  lemma AdmitStores(q: Queue, id: WorkId, req: Request, mid: MutationId, now: Time)
    requires WellStored(q)
    ensures WellStored(Admit(q, id, req, mid, now).0)
  {
  }

  lemma UpdateStores(q: Queue, id: WorkId, m: Move, events: seq<Event>)
    requires WellStored(q) && id in q.items
    ensures WellStored(Update(q, id, m, events))
  {
    TableKept(q, Update(q, id, m, events));
  }

  lemma RetireOneStores(q: Queue, b: Blocked)
    requires WellStored(q)
    ensures WellStored(RetireOne(q, b))
  {
    TableKept(q, RetireOne(q, b));
  }

  lemma MoveAllKeepsTable(q: Queue, ids: seq<WorkId>, m: Move)
    requires WellStored(q)
    ensures forall log :: WellStored(q.(items := MoveAll(q.items, ids, m), log := log))
  {
  }

  ghost predicate Distinct(ids: seq<WorkId>) {
    forall i, j :: 0 <= i < j < |ids| ==> ids[i] != ids[j]
  }

  lemma OverdueIdsDistinct(items: map<WorkId, Item>, order: seq<WorkId>, now: Time)
    requires Distinct(order)
    ensures Distinct(OverdueIds(items, order, now))
  {
    if order != [] {
      OverdueIdsDistinct(items, order[1..], now);
      OverdueIdsAre(items, order[1..], now);
    }
  }

  lemma LeasedIdsAre(items: map<WorkId, Item>, order: seq<WorkId>)
    ensures forall x :: x in LeasedIds(items, order) <==>
                        x in order && x in items && items[x].status == Leased
    ensures Distinct(order) ==> Distinct(LeasedIds(items, order))
  {
    if order != [] {
      LeasedIdsAre(items, order[1..]);
    }
  }
}
