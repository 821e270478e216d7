/**
  Dispatch and leasing agree: the item dispatch names is the first ready one in
  priority-then-age order, and leasing it in the same state claims it.
 */
module Dispatch {
  import opened Outcomes
  import opened WorkQueue
  import opened WorkRuns

  /** `id` could be claimed now, were it asked for. */
  predicate Claimable(q: Queue, id: WorkId, workClass: Option<string>) {
    id in q.items && Matches(q.items[id], id, workClass, None)
    && AllDone(q.items, q.items[id].dependsOn)
  }

  /** The matching rows a query lists before `id`. */
  function Ahead(q: Queue, id: WorkId, workClass: Option<string>): set<WorkId>
    requires id in q.items
  {
    set x | x in q.items && Matches(q.items[x], x, workClass, None)
            && q.items[x].Before(q.items[id])
  }

  ghost predicate Sorted(items: map<WorkId, Item>, ids: seq<WorkId>) {
    (forall x :: x in ids ==> x in items)
    && forall i, j :: 0 <= i < j < |ids| ==> items[ids[i]].Before(items[ids[j]])
  }

  ghost predicate DistinctRowids(items: map<WorkId, Item>, ids: seq<WorkId>) {
    (forall x :: x in ids ==> x in items)
    && forall i, j :: 0 <= i < j < |ids| ==> items[ids[i]].rowid != items[ids[j]].rowid
  }

  lemma {:induction false} InsertSorts(items: map<WorkId, Item>, id: WorkId, sorted: seq<WorkId>)
    requires id in items && Sorted(items, sorted)
    requires forall x :: x in sorted ==> items[x].rowid != items[id].rowid
    ensures Sorted(items, InsertRow(items, id, sorted))
  {
    InsertRowKeeps(items, id, sorted);
    if sorted != [] {
      if items[id].Before(items[sorted[0]]) {
        forall k | 0 <= k < |sorted| ensures items[id].Before(items[sorted[k]]) {
        }
      } else {
        var rest := InsertRow(items, id, sorted[1..]);
        InsertSorts(items, id, sorted[1..]);
        InsertRowKeeps(items, id, sorted[1..]);
        forall k | 0 <= k < |rest| ensures items[sorted[0]].Before(items[rest[k]]) {
          assert rest[k] in rest;
          if rest[k] != id {
            var j :| 1 <= j < |sorted| && sorted[j] == rest[k];
          }
        }
      }
    }
  }

  /** The query's ORDER BY: sorted, and the same rows. */
  lemma {:induction false} SortRowsSorts(items: map<WorkId, Item>, ids: seq<WorkId>)
    requires DistinctRowids(items, ids)
    ensures Sorted(items, SortRows(items, ids))
    ensures forall x :: x in SortRows(items, ids) <==> x in ids
  {
    SameMembers(SortRows(items, ids), ids);
    if ids != [] {
      SortRowsSorts(items, ids[1..]);
      InsertSorts(items, ids[0], SortRows(items, ids[1..]));
    }
  }

  lemma SameMembers(a: seq<WorkId>, b: seq<WorkId>)
    requires multiset(a) == multiset(b)
    ensures forall x :: x in a <==> x in b
  {
    forall x ensures x in a <==> x in b {
      assert x in a <==> x in multiset(a);
    }
  }

  lemma {:induction false} SelectKeepsRowids(q: Queue, order: seq<WorkId>,
                                             workClass: Option<string>, workId: Option<WorkId>)
    requires DistinctRowids(q.items, order)
    ensures DistinctRowids(q.items, Select(q.items, order, workClass, workId))
  {
    SelectInItems(q.items, order, workClass, workId);
    if order != [] {
      SelectKeepsRowids(q, order[1..], workClass, workId);
      SelectInItems(q.items, order[1..], workClass, workId);
    }
  }

  function Listing(q: Queue, workClass: Option<string>): seq<WorkId> {
    SelectInItems(q.items, q.order, workClass, None);
    SortRows(q.items, Select(q.items, q.order, workClass, None))
  }

  lemma ListingIs(q: Queue, workClass: Option<string>)
    requires WellStored(q)
    ensures Sorted(q.items, Listing(q, workClass))
    ensures forall x :: x in Listing(q, workClass) <==>
                        x in q.items && Matches(q.items[x], x, workClass, None)
  {
    SelectInItems(q.items, q.order, workClass, None);
    SelectKeepsRowids(q, q.order, workClass, None);
    SortRowsSorts(q.items, Select(q.items, q.order, workClass, None));
  }

  function Members(ids: seq<WorkId>): set<WorkId> {
    set y | y in ids
  }

  /** The position of a row in the listing is the number of rows ahead of it. */
  lemma PositionIsAhead(q: Queue, workClass: Option<string>, k: nat)
    requires WellStored(q) && k < |Listing(q, workClass)|
    ensures Listing(q, workClass)[k] in q.items
    ensures |Ahead(q, Listing(q, workClass)[k], workClass)| == k
  {
    var ids := Listing(q, workClass);
    ListingIs(q, workClass);
    assert ids[k] in ids;
    PrefixSize(q.items, ids, k);
    forall x ensures x in Ahead(q, ids[k], workClass) <==> x in Members(ids[..k]) {
      if x in Ahead(q, ids[k], workClass) {
        var j :| 0 <= j < |ids| && ids[j] == x;
        assert j < k;
        assert ids[..k][j] == x;
      }
    }
    assert Ahead(q, ids[k], workClass) == Members(ids[..k]);
  }

  lemma {:induction false} PrefixSize(items: map<WorkId, Item>, ids: seq<WorkId>, k: nat)
    requires Sorted(items, ids) && k <= |ids|
    ensures |Members(ids[..k])| == k
  {
    if k > 0 {
      PrefixSize(items, ids, k - 1);
      assert ids[..k] == ids[..k-1] + [ids[k-1]];
      assert Members(ids[..k]) == Members(ids[..k-1]) + {ids[k-1]};
      assert ids[k-1] !in ids[..k-1];
    }
  }

  lemma {:induction false} FirstReadyIsFirst(items: map<WorkId, Item>, ids: seq<WorkId>)
    requires forall x :: x in ids ==> x in items
    ensures FirstReady(items, ids).None? ==>
              forall x :: x in ids ==> !AllDone(items, items[x].dependsOn)
    ensures FirstReady(items, ids).Some? ==>
              exists k :: 0 <= k < |ids| && ids[k] == FirstReady(items, ids).value
                          && AllDone(items, items[ids[k]].dependsOn)
                          && forall j :: 0 <= j < k ==> !AllDone(items, items[ids[j]].dependsOn)
  {
    if ids != [] && !AllDone(items, items[ids[0]].dependsOn) {
      FirstReadyIsFirst(items, ids[1..]);
      if FirstReady(items, ids).Some? {
        var k :| 0 <= k < |ids[1..]| && ids[1..][k] == FirstReady(items, ids).value
                 && AllDone(items, items[ids[1..][k]].dependsOn)
                 && forall j :: 0 <= j < k ==> !AllDone(items, items[ids[1..][j]].dependsOn);
        assert ids[k+1] == ids[1..][k];
        forall j | 0 <= j < k + 1 ensures !AllDone(items, items[ids[j]].dependsOn) {
          assert j > 0 ==> ids[j] == ids[1..][j-1];
        }
      }
    }
  }

  /** A windowed search finds an item exactly when a claimable one lies in the
      window, and it finds the one that comes before all other claimable ones. */
  lemma WindowSearch(q: Queue, workClass: Option<string>, limit: nat)
    requires WellStored(q)
    ensures var pick := FirstReady(q.items, Window(q, workClass, None, limit));
            (pick.None? <==> forall y :: Claimable(q, y, workClass) ==>
                               |Ahead(q, y, workClass)| >= limit)
            && (pick.Some? ==>
                  Claimable(q, pick.value, workClass)
                  && |Ahead(q, pick.value, workClass)| < limit
                  && forall y :: Claimable(q, y, workClass) && y != pick.value ==>
                       q.items[pick.value].Before(q.items[y]))
  {
    var ids := Listing(q, workClass);
    var window := Window(q, workClass, None, limit);
    ListingIs(q, workClass);
    assert window == Take(ids, limit);
    forall k | 0 <= k < |window| ensures window[k] == ids[k] && window[k] in ids {
    }
    FirstReadyIsFirst(q.items, window);
    var pick := FirstReady(q.items, window);
    forall y | Claimable(q, y, workClass)
      ensures pick.None? ==> |Ahead(q, y, workClass)| >= limit
      ensures pick.Some? && y != pick.value ==> q.items[pick.value].Before(q.items[y])
    {
      var j :| 0 <= j < |ids| && ids[j] == y;
      PositionIsAhead(q, workClass, j);
      if j < limit {
        assert window[j] == y;
      }
    }
    if pick.Some? {
      var k :| 0 <= k < |window| && window[k] == pick.value
               && AllDone(q.items, q.items[window[k]].dependsOn);
      PositionIsAhead(q, workClass, k);
    }
  }

  /** Dispatch serves the first ready item, unless fifty queued items of its
      class stand ahead of every ready one. */
  lemma DispatchServesFirstReady(vs: seq<Verb>, workClass: string)
    ensures var q, cls := Run(vs).queue, Some(workClass);
            (NextReady(q, workClass).None? <==> forall y :: Claimable(q, y, cls) ==>
                                               |Ahead(q, y, cls)| >= DISPATCH_WINDOW)
            && (NextReady(q, workClass).Some? ==>
                  Claimable(q, NextReady(q, workClass).value, cls)
                  && forall y :: Claimable(q, y, cls) && y != NextReady(q, workClass).value ==>
                       q.items[NextReady(q, workClass).value].Before(q.items[y]))
  {
    RunStores(vs);
    WindowSearch(Run(vs).queue, Some(workClass), DISPATCH_WINDOW);
  }

  /** Leasing the id dispatch named, in the same state, always claims it. */
  lemma LeaseFollowsDispatch(vs: seq<Verb>, workClass: string, askClass: Option<string>,
                             neuocyte: string, until: Time)
    requires NextReady(Run(vs).queue, workClass).Some?
    requires askClass == None || askClass == Some(workClass)
    ensures var q := Run(vs).queue;
            var id := NextReady(q, workClass).value;
            Lease(q, neuocyte, askClass, Some(id), until).1 == Some(id)
  {
    var q := Run(vs).queue;
    RunStores(vs);
    WindowSearch(q, Some(workClass), DISPATCH_WINDOW);
    var id := NextReady(q, workClass).value;
    SelectOne(q.items, q.order, askClass, id);
    assert SortRows(q.items, [id]) == [id];
    assert FirstReady(q.items, [id]) == Some(id);
  }

  lemma {:induction false} SelectOne(items: map<WorkId, Item>, order: seq<WorkId>,
                                     workClass: Option<string>, id: WorkId)
    requires Distinct(order)
    ensures Select(items, order, workClass, Some(id))
            == if id in order && id in items && Matches(items[id], id, workClass, Some(id))
               then [id] else []
  {
    if order != [] {
      SelectOne(items, order[1..], workClass, id);
    }
  }

  /** A lease that names no item looks at twenty rows, not fifty: it claims what
      dispatch would serve exactly when fewer than twenty rows are ahead of it. */
  lemma UntargetedLeaseSeesTwenty(vs: seq<Verb>, workClass: string, neuocyte: string,
                                  until: Time, id: WorkId)
    requires NextReady(Run(vs).queue, workClass) == Some(id) && id in Run(vs).queue.items
    ensures var q := Run(vs).queue;
            Lease(q, neuocyte, Some(workClass), None, until).1
            == if |Ahead(q, id, Some(workClass))| < LEASE_WINDOW then Some(id) else None
  {
    var q, cls := Run(vs).queue, Some(workClass);
    RunStores(vs);
    WindowSearch(q, cls, DISPATCH_WINDOW);
    WindowSearch(q, cls, LEASE_WINDOW);
    assert Claimable(q, id, cls);
  }
}
