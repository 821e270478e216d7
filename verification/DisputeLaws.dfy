/**
  What each verb about disputes and conclusions does, row by row: which dispute it
  closes and with what word, what happens to the claim, and what is logged.
 */
module DisputeLaws {
  import opened Outcomes
  import opened Disputes

  /** The dispute is open, of that kind, about that subject. */
  ghost predicate LiveAt(s: Memory, id: DisputeId, kind: string, subject: string) {
    id in s.disputes && s.disputes[id].status == Open
    && s.disputes[id].kind == kind && s.disputes[id].subject == subject
  }

  ghost predicate SomeLive(s: Memory, kind: string, subject: string) {
    exists id :: LiveAt(s, id, kind, subject)
  }

  lemma LiveIs(s: Memory, id: DisputeId, kind: string, subject: string)
    requires OneOpen(s)
    ensures LiveAt(s, id, kind, subject) <==> Live(s, kind, subject) == Some(id)
  {
    var live := Live(s, kind, subject);
    if LiveAt(s, id, kind, subject) {
      assert IsOpenAbout(s.disputes[id], kind, subject);
      assert Rivals(s.disputes[live.value], s.disputes[id]);
    }
  }

  lemma NoLiveIs(s: Memory, kind: string, subject: string)
    requires OneOpen(s)
    ensures !SomeLive(s, kind, subject) <==> Live(s, kind, subject) == None
  {
    var live := Live(s, kind, subject);
    if live.Some? {
      LiveIs(s, live.value, kind, subject);
    } else if id :| LiveAt(s, id, kind, subject) {
      LiveIs(s, id, kind, subject);
    }
  }

  ghost predicate OtherDisputesKept(s: Memory, t: Memory, id: DisputeId) {
    t.disputes.Keys == s.disputes.Keys + {id}
    && forall x :: x in s.disputes && x != id ==> t.disputes[x] == s.disputes[x]
  }

  /** A contradiction reached again raises the count of the open dispute about it; a
      new one opens the dispute it drew an id for. */
  lemma OpenStores(vs: seq<Verb>, drawn: DisputeId, kind: string, subject: string, id: DisputeId)
    ensures var s := Run(vs);
            var (t, r) := OpenDispute(s, drawn, kind, subject);
            (r == Replayed <==> ForOpen(drawn) in s.receipts)
            && (r == Refused(Clash)
                <==> ForOpen(drawn) !in s.receipts && !SomeLive(s, kind, subject)
                     && drawn in s.disputes)
            && (r != Applied ==> (r == Replayed || r == Refused(Clash)) && t == s)
            && (r == Applied ==>
                  t.conclusions == s.conclusions && t.receipts == s.receipts + {ForOpen(drawn)})
            && (r == Applied && LiveAt(s, id, kind, subject) ==>
                  OtherDisputesKept(s, t, id) && t.order == s.order
                  && LiveAt(t, id, kind, subject)
                  && t.disputes[id].recurrences == s.disputes[id].recurrences + 1
                  && t.log == s.log + [Opened(id, true)])
            && (r == Applied && !SomeLive(s, kind, subject) ==>
                  OtherDisputesKept(s, t, drawn) && t.order == s.order + [drawn]
                  && LiveAt(t, drawn, kind, subject) && t.disputes[drawn].recurrences == 0
                  && t.log == s.log + [Opened(drawn, false)])
  {
    DisputesAreAccounted(vs);
    LiveIs(Run(vs), id, kind, subject);
    NoLiveIs(Run(vs), kind, subject);
  }

  /** A dispute is resolved by one of four words, once, and carries that word. */
  lemma ResolveStores(s: Memory, id: DisputeId, resolution: string)
    ensures var (t, r) := Resolve(s, id, resolution);
            var known := resolution == "superseded" || resolution == "retracted"
                         || resolution == "resolved_supported"
                         || resolution == "closed_by_operator";
            var isNew := ForResolve(id, resolution) !in s.receipts;
            (r == Replayed <==> known && !isNew)
            && (r == Refused(NotFound) <==> known && isNew && id !in s.disputes)
            && (r == Refused(InvalidInput)
                <==> !known || (isNew && id in s.disputes && s.disputes[id].status != Open))
            && r != Refused(Clash)
            && (r != Applied ==> t == s)
            && (r == Applied ==>
                  OtherDisputesKept(s, t, id) && t.order == s.order
                  && t.conclusions == s.conclusions
                  && t.receipts == s.receipts + {ForResolve(id, resolution)}
                  && t.disputes[id].status == Closed(resolution)
                  && t.disputes[id].kind == s.disputes[id].kind
                  && t.disputes[id].subject == s.disputes[id].subject
                  && t.disputes[id].recurrences == s.disputes[id].recurrences
                  && t.log == s.log + [Resolved(id, resolution)])
  {
  }

  /** The open dispute about a claim is closed with the given word, and no other is
      touched. */
  ghost predicate ClaimSettled(s: Memory, t: Memory, claim: ConclusionId, word: string) {
    t.disputes.Keys == s.disputes.Keys && t.order == s.order
    && forall d :: d in s.disputes ==>
         t.disputes[d].kind == s.disputes[d].kind && t.disputes[d].subject == s.disputes[d].subject
         && t.disputes[d].recurrences == s.disputes[d].recurrences
         && t.disputes[d].status == if LiveAt(s, d, "conclusion", claim) then Closed(word)
                                    else s.disputes[d].status
  }

  /** What is logged about it: the resolution of the open dispute, if there was one. */
  ghost predicate SettledLog(s: Memory, claim: ConclusionId, word: string, events: seq<Event>) {
    (!SomeLive(s, "conclusion", claim) ==> events == [])
    && forall d :: LiveAt(s, d, "conclusion", claim) ==> events == [Resolved(d, word)]
  }

  ghost predicate OtherClaimsKept(s: Memory, t: Memory, claims: set<ConclusionId>) {
    t.conclusions.Keys == s.conclusions.Keys + claims
    && forall c :: c in s.conclusions && c !in claims ==> t.conclusions[c] == s.conclusions[c]
  }

  /** Closing what is open about a claim. */
  lemma SettleStores(s: Memory, claim: ConclusionId, word: string) returns (events: seq<Event>)
    requires OneOpen(s)
    ensures var t := CloseAbout(s, "conclusion", claim, word);
            ClaimSettled(s, t, claim, word) && SettledLog(s, claim, word, events)
            && t.log == s.log + events && t.conclusions == s.conclusions
            && t.receipts == s.receipts
  {
    var live := Live(s, "conclusion", claim);
    events := if live.Some? then [Resolved(live.value, word)] else [];
    NoLiveIs(s, "conclusion", claim);
    forall d ensures LiveAt(s, d, "conclusion", claim) <==> live == Some(d) {
      LiveIs(s, d, "conclusion", claim);
    }
  }

  /** Withdrawing a claim still made retracts it, and settles what is open about it as
      retracted; nobody else's claim or dispute changes. */
  lemma WithdrawStores(vs: seq<Verb>, claim: ConclusionId) returns (events: seq<Event>)
    ensures var s := Run(vs);
            var (t, r) := Withdraw(s, claim);
            var isNew := ForWithdraw(claim) !in s.receipts;
            (r == Replayed <==> !isNew)
            && (r == Refused(NotFound) <==> isNew && claim !in s.conclusions)
            && (r == Refused(InvalidInput)
                <==> isNew && claim in s.conclusions && s.conclusions[claim].standing != Active)
            && r != Refused(Clash) && (r != Applied ==> t == s)
            && (r == Applied ==>
                  t.receipts == s.receipts + {ForWithdraw(claim)} && OtherClaimsKept(s, t, {claim})
                  && t.conclusions[claim].standing == Retracted
                  && t.conclusions[claim].producedBy == s.conclusions[claim].producedBy
                  && t.conclusions[claim].supersededBy == s.conclusions[claim].supersededBy
                  && ClaimSettled(s, t, claim, "retracted")
                  && SettledLog(s, claim, "retracted", events)
                  && t.log == s.log + [Withdrawn(claim)] + events)
  {
    DisputesAreAccounted(vs);
    var s := Run(vs);
    events := [];
    if Withdraw(s, claim).1 == Applied {
      events := SettleStores(Retract(s, claim), claim, "retracted");
      SameDisputes(s, Retract(s, claim));
    }
  }

  lemma SameDisputes(s: Memory, t: Memory)
    requires t.disputes == s.disputes && t.order == s.order
    ensures forall d, kind, subject :: LiveAt(t, d, kind, subject) <==> LiveAt(s, d, kind, subject)
    ensures forall kind, subject :: SomeLive(t, kind, subject) <==> SomeLive(s, kind, subject)
  {
    forall kind, subject ensures SomeLive(t, kind, subject) <==> SomeLive(s, kind, subject) {
      if d :| LiveAt(t, d, kind, subject) {
        assert LiveAt(s, d, kind, subject);
      }
      if d :| LiveAt(s, d, kind, subject) {
        assert LiveAt(t, d, kind, subject);
      }
    }
  }

  /** A claim that replaces none is recorded as made by its producer. */
  lemma ConcludeStores(s: Memory, id: ConclusionId, producer: string, mid: MutationId,
                       prior: Option<ConclusionId>)
    requires prior.Some? ==> |prior.value| == 0
    ensures var (t, r) := Conclude(s, id, producer, prior, mid);
            (r == Replayed <==> mid in s.receipts)
            && (r == Refused(Clash) <==> mid !in s.receipts && id in s.conclusions)
            && (r != Applied ==> (r == Replayed || r == Refused(Clash)) && t == s)
            && (r == Applied ==>
                  OtherClaimsKept(s, t, {id}) && t.conclusions[id] == Conclusion(producer, Active, None)
                  && t.disputes == s.disputes && t.order == s.order
                  && t.receipts == s.receipts + {mid} && t.log == s.log + [Recorded(id)])
  {
  }

  /** A claim that replaces another leaves that superseded by it, if it was still made,
      and settles what is open about it as superseded. */
  lemma ReplaceStores(vs: seq<Verb>, id: ConclusionId, producer: string, mid: MutationId,
                      prior: ConclusionId) returns (events: seq<Event>)
    requires |prior| > 0 && prior != id
    ensures var s := Run(vs);
            var (t, r) := Conclude(s, id, producer, Some(prior), mid);
            (r == Replayed <==> mid in s.receipts)
            && (r == Refused(Clash) <==> mid !in s.receipts && id in s.conclusions)
            && (r == Refused(NotFound)
                <==> mid !in s.receipts && id !in s.conclusions && prior !in s.conclusions)
            && r != Refused(InvalidInput) && (r != Applied ==> t == s)
            && (r == Applied ==>
                  t.receipts == s.receipts + {mid} && OtherClaimsKept(s, t, {id, prior})
                  && t.conclusions[id] == Conclusion(producer, Active, None)
                  && t.conclusions[prior].producedBy == s.conclusions[prior].producedBy
                  && (s.conclusions[prior].standing == Active ==>
                        t.conclusions[prior].standing == Superseded
                        && t.conclusions[prior].supersededBy == Some(id))
                  && (s.conclusions[prior].standing != Active ==>
                        t.conclusions[prior] == s.conclusions[prior])
                  && ClaimSettled(s, t, prior, "superseded")
                  && SettledLog(s, prior, "superseded", events)
                  && t.log == s.log + [ReplacedBy(prior, id)] + events + [Recorded(id)])
  {
    DisputesAreAccounted(vs);
    var s := Run(vs);
    events := [];
    if Conclude(s, id, producer, Some(prior), mid).1 == Applied {
      var replaced := Replace(Inserted(s, id, producer), prior, id);
      events := SettleStores(replaced, prior, "superseded");
      SameDisputes(s, replaced);
    }
  }
}
