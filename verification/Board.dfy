/**
  What the board reports about the attempt that wrote a post.
 */
module Board {
  import opened Outcomes
  import opened WorkQueue

  /** The columns of a post that attempt provenance is computed from. */
  datatype Post = Post(workId: Option<WorkId>, authorToken: Option<nat>)

  datatype Fate = CalledOffFate | FencedFate | CompletedFate | RunningFate | FailedFate

  datatype Note =
    | NoNote | WorkIsGone | NotAnAttempt | WasCancelled | WasSuperseded | StillRunning
    | DidNotFinish(why: Option<Failure>)

  datatype Provenance = Provenance(
    fate: Option<Fate>, unfinished: Option<bool>, workStatus: Option<Status>, note: Note)

  /** The token is read off the work row, never taken from the author. */
  function CaptureToken(items: map<WorkId, Item>, workId: Option<WorkId>): Option<nat> {
    if workId.Some? && workId.value != "" && workId.value in items
    then Some(items[workId.value].token) else None
  }

  /** An author that held no lease wrote under no token, or under token 0. */
  predicate IsAttempt(p: Post) {
    p.workId.Some? && p.workId.value != "" && p.authorToken.Some? && p.authorToken.value != 0
  }

  function WorkProvenance(items: map<WorkId, Item>, p: Post): Provenance {
    if p.workId.None? || p.workId.value == "" then Provenance(None, None, None, NoNote)
    else if p.workId.value !in items then Provenance(None, None, None, WorkIsGone)
    else
      var row := items[p.workId.value];
      if p.authorToken.None? || p.authorToken.value == 0
      then Provenance(None, None, Some(row.status), NotAnAttempt)
      else if row.status == Cancelled
      then Provenance(Some(CalledOffFate), Some(true), Some(row.status), WasCancelled)
      else if p.authorToken.value < row.token
      then Provenance(Some(FencedFate), Some(true), Some(row.status), WasSuperseded)
      else match row.status
        case Done => Provenance(Some(CompletedFate), Some(false), Some(Done), NoNote)
        case Queued => Provenance(Some(RunningFate), Some(false), Some(Queued), StillRunning)
        case Leased => Provenance(Some(RunningFate), Some(false), Some(Leased), StillRunning)
        case _ =>
          Provenance(Some(FailedFate), Some(true), Some(row.status), DidNotFinish(row.failure))
  }

  class Posts {
    var posts: map<string, Post>
    var order: seq<string>

    constructor ()
      ensures posts == map[] && order == []
    {
      posts, order := map[], [];
    }

    /** Publishing captures the token inside the transaction that stores the post. */
    method Publish(postId: string, workId: Option<WorkId>, items: map<WorkId, Item>)
      returns (stored: bool)
      modifies this
      ensures stored <==> postId !in old(posts)
      ensures posts == if stored
                       then old(posts)[postId := Post(workId, CaptureToken(items, workId))]
                       else old(posts)
      ensures order == if stored then old(order) + [postId] else old(order)
    {
      stored := postId !in posts;
      if stored {
        var token: Option<nat> := None;
        if workId.Some? && workId.value != "" {
          if workId.value in items {
            token := Some(items[workId.value].token);
          }
        }
        posts := posts[postId := Post(workId, token)];
        order := order + [postId];
      }
    }

    /** Branch by branch, with the fields filled in as each is decided. */
    method ReportFate(p: Post, items: map<WorkId, Item>) returns (r: Provenance)
      ensures r == WorkProvenance(items, p)
    {
      r := Provenance(None, None, None, NoNote);
      if p.workId.None? || p.workId.value == "" {
        return;
      }
      if p.workId.value !in items {
        r := r.(note := WorkIsGone);
        return;
      }
      var row := items[p.workId.value];
      r := r.(workStatus := Some(row.status));
      if p.authorToken.None? || p.authorToken.value == 0 {
        r := r.(note := NotAnAttempt);
        return;
      }
      if row.status == Cancelled {
        r := r.(fate := Some(CalledOffFate), unfinished := Some(true), note := WasCancelled);
        return;
      }
      if p.authorToken.value < row.token {
        r := r.(fate := Some(FencedFate), unfinished := Some(true), note := WasSuperseded);
        return;
      }
      if row.status == Done {
        r := r.(fate := Some(CompletedFate), unfinished := Some(false));
      } else if row.status == Queued || row.status == Leased {
        r := r.(fate := Some(RunningFate), unfinished := Some(false), note := StillRunning);
      } else {
        r := r.(fate := Some(FailedFate), unfinished := Some(true),
                note := DidNotFinish(row.failure));
      }
    }
  }
}
