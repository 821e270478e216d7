/**
  What the board says about the attempt behind a post is true, and a verdict of
  "unfinished" is never taken back.
 */
module AttemptFate {
  import opened Outcomes
  import opened WorkQueue
  import opened WorkRuns
  import opened WorkDependencies
  import opened WorkFencing
  import opened Board

  /** A captured token was the row's at the time, so it never exceeds it. */
  ghost predicate PostSound(w: World, p: Post) {
    p.authorToken.Some? ==>
      p.workId.Some? && p.workId.value != "" && p.workId.value in w.queue.items
      && p.authorToken.value <= w.queue.items[p.workId.value].token
  }

  ghost predicate PostsSound(w: World) {
    forall id :: id in w.posts ==> PostSound(w, w.posts[id])
  }

  lemma {:induction false} RunPosts(vs: seq<Verb>)
    ensures PostsSound(Run(vs))
  {
    if vs != [] {
      var w, v := Run(vs[..|vs|-1]), vs[|vs|-1];
      RunPosts(vs[..|vs|-1]);
      RunStores(vs[..|vs|-1]);
      forall id | id in Step(w, v).posts ensures PostSound(Step(w, v), Step(w, v).posts[id]) {
        var p := Step(w, v).posts[id];
        assert PostSound(w, p);
        if p.authorToken.Some? {
          StepMoves(w, v, p.workId.value);
        }
      }
    }
  }

  function FateIn(w: World, postId: string): Provenance
    requires postId in w.posts
  {
    WorkProvenance(w.queue.items, w.posts[postId])
  }

  /** A completion presenting this very token was committed. */
  ghost predicate CompletedUnder(q: Queue, id: WorkId, token: nat) {
    exists i :: 0 <= i < |q.log| && CompletionOf(q.log[i], id) && q.log[i].presented == token
  }

  /** A post by an attempt reads "completed" exactly when a completion that
      presented the attempt's own token was committed. */
  lemma CompletedIsTruthful(vs: seq<Verb>, postId: string)
    requires postId in Run(vs).posts && IsAttempt(Run(vs).posts[postId])
    ensures var p := Run(vs).posts[postId];
            FateIn(Run(vs), postId).fate == Some(CompletedFate)
            <==> CompletedUnder(Run(vs).queue, p.workId.value, p.authorToken.value)
  {
    var q, p := Run(vs).queue, Run(vs).posts[postId];
    RunPosts(vs);
    ResultWrittenOnce(vs);
    assert PostSound(Run(vs), p);
    if FateIn(Run(vs), postId).fate == Some(CompletedFate) {
      var i :| 0 <= i < |q.log| && CompletionOf(q.log[i], p.workId.value);
      assert CompletionHolds(q, q.log[i]);
    }
    if i :| 0 <= i < |q.log| && CompletionOf(q.log[i], p.workId.value)
            && q.log[i].presented == p.authorToken.value {
      assert CompletionHolds(q, q.log[i]);
    }
  }

  lemma {:induction false} PostsStay(w: World, ws: seq<Verb>, postId: string)
    requires postId in w.posts
    ensures postId in RunFrom(w, ws).posts && RunFrom(w, ws).posts[postId] == w.posts[postId]
  {
    if ws != [] {
      PostsStay(w, ws[..|ws|-1], postId);
    }
  }

  /** Once a post is reported unfinished it is reported unfinished ever after;
      likewise once it is reported completed. */
  lemma VerdictsAreFinal(vs: seq<Verb>, ws: seq<Verb>, postId: string)
    requires postId in Run(vs).posts
    ensures postId in Run(vs + ws).posts
    ensures FateIn(Run(vs), postId).unfinished == Some(true) ==>
              FateIn(Run(vs + ws), postId).unfinished == Some(true)
    ensures FateIn(Run(vs), postId).fate == Some(CompletedFate) ==>
              FateIn(Run(vs + ws), postId) == FateIn(Run(vs), postId)
  {
    var p := Run(vs).posts[postId];
    RunAppend(START, vs, ws);
    PostsStay(Run(vs), ws, postId);
    RunStores(vs);
    if FateIn(Run(vs), postId).fate.Some? {
      var id := p.workId.value;
      AttemptsGrow(Run(vs), ws, id);
      if Run(vs).queue.items[id].status.Terminal() {
        EndedForever(vs, ws, id);
      }
    }
  }

  /** Exactly which posts are reported unfinished: the work was cancelled, or
      failed, or the row's token has moved past the author's. */
  lemma UnfinishedMeans(vs: seq<Verb>, postId: string)
    requires postId in Run(vs).posts && IsAttempt(Run(vs).posts[postId])
    ensures Run(vs).posts[postId].workId.value in Run(vs).queue.items
    ensures var p := Run(vs).posts[postId];
            var row := Run(vs).queue.items[p.workId.value];
            FateIn(Run(vs), postId).unfinished == Some(true)
            <==> row.status == Cancelled || row.status == Failed
                 || p.authorToken.value != row.token
  {
    RunPosts(vs);
    assert PostSound(Run(vs), Run(vs).posts[postId]);
  }

  // ------------------------------------------------- each verdict, both ways

  /** What is said about the attempt behind a post, by the work's row alone. The work
      being called off comes first, then the row's token having moved past the
      author's; only under the author's own token does the status speak. */
  lemma FateIs(vs: seq<Verb>, postId: string)
    requires postId in Run(vs).posts
    requires Run(vs).posts[postId].authorToken !in {None, Some(0)}
    ensures Run(vs).posts[postId].workId.Some?
    ensures Run(vs).posts[postId].workId.value in Run(vs).queue.items
    ensures var p := Run(vs).posts[postId];
            var row := Run(vs).queue.items[p.workId.value];
            var current := row.token == p.authorToken.value;
            var said := FateIn(Run(vs), postId);
            said.fate.Some? && said.workStatus == Some(row.status)
            && (said.fate == Some(CalledOffFate) <==> row.status == Cancelled)
            && (said.fate == Some(FencedFate) <==> row.status != Cancelled && !current)
            && (said.fate == Some(FailedFate) <==> row.status == Failed && current)
            && (said.fate == Some(CompletedFate) <==> row.status == Done && current)
            && (said.fate == Some(RunningFate)
                <==> (row.status == Queued || row.status == Leased) && current)
            && (said.note == WasCancelled <==> row.status == Cancelled)
            && (said.note == WasSuperseded <==> row.status != Cancelled && !current)
            && (said.note == DidNotFinish(row.failure) <==> row.status == Failed && current)
            && (said.note == NoNote <==> row.status == Done && current)
            && (said.note == StillRunning
                <==> (row.status == Queued || row.status == Leased) && current)
            && said.unfinished == Some(row.status == Cancelled || row.status == Failed || !current)
  {
    RunPosts(vs);
    assert PostSound(Run(vs), Run(vs).posts[postId]);
  }

  /** A post that names no work, or was written under no lease, gets no verdict; the
      note says which of the two it is, or that the work is gone. */
  lemma NoAttemptNoFate(vs: seq<Verb>, postId: string)
    requires postId in Run(vs).posts
    ensures var p := Run(vs).posts[postId];
            var said := FateIn(Run(vs), postId);
            var named := p.workId.Some? && |p.workId.value| > 0;
            var stored := named && p.workId.value in Run(vs).queue.items;
            var leaseless := p.authorToken == None || p.authorToken == Some(0);
            (said.fate == None <==> !stored || leaseless)
            && (said.fate == None ==>
                  said.unfinished == None
                  && said.workStatus == (if stored
                                         then Some(Run(vs).queue.items[p.workId.value].status)
                                         else None)
                  && said.note == if stored then NotAnAttempt else if named then WorkIsGone
                                  else NoNote)
  {
  }

  /** A post keeps the work it names and the token that work's row has as it is
      written; with no such row it keeps no token. */
  lemma PostCaptures(vs: seq<Verb>, postId: string, workId: Option<WorkId>)
    requires postId !in Run(vs).posts
    ensures var w := Run(vs + [DoPost(postId, workId)]);
            w.queue == Run(vs).queue && w.posts.Keys == Run(vs).posts.Keys + {postId}
            && w.posts[postId].workId == workId
            && (workId.Some? && |workId.value| > 0 && workId.value in w.queue.items ==>
                  w.posts[postId].authorToken == Some(w.queue.items[workId.value].token))
            && (workId.None? || |workId.value| == 0 || workId.value !in w.queue.items ==>
                  w.posts[postId].authorToken == None)
            && forall other :: other in Run(vs).posts ==> w.posts[other] == Run(vs).posts[other]
  {
    assert (vs + [DoPost(postId, workId)])[..|vs|] == vs;
  }

  /** What is posted under a lease is an attempt, and runs. */
  lemma LeasedPostRuns(vs: seq<Verb>, postId: string, id: WorkId)
    requires postId !in Run(vs).posts && id != "" && id in Run(vs).queue.items
    requires Run(vs).queue.items[id].status == Leased
    ensures var w := Run(vs + [DoPost(postId, Some(id))]);
            postId in w.posts && w.posts[postId].authorToken !in {None, Some(0)}
            && FateIn(w, postId) == Provenance(Some(RunningFate), Some(false), Some(Leased),
                                               StillRunning)
  {
    PostCaptures(vs, postId, Some(id));
    RunLeased(vs, id);
  }

  /** A leased row has been given a token. */
  lemma {:induction false} RunLeased(vs: seq<Verb>, id: WorkId)
    requires id in Run(vs).queue.items && Run(vs).queue.items[id].status == Leased
    ensures Run(vs).queue.items[id].token > 0
  {
    if vs != [] {
      var w, v := Run(vs[..|vs|-1]), vs[|vs|-1];
      RunStores(vs[..|vs|-1]);
      if id in w.queue.items {
        StepMoves(w, v, id);
        if w.queue.items[id].status == Leased {
          RunLeased(vs[..|vs|-1], id);
        }
      } else {
        NewRow(w, v, id);
      }
    }
  }
}
