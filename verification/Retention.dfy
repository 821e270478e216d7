/**
  What may be forgotten: consumed and expired triggers, and the closed turns that
  nothing surviving points at. Swept again and again at one cutoff, the working
  set settles, and this says on what.
 */
module Retention {
  import opened Outcomes

  type TriggerId = string
  type TurnId = string
  type Time = int

  datatype Trigger = Trigger(
    status: string, created: Time, consumed: Option<Time>, expectsAnswer: bool,
    answerStatus: Option<string>, turn: Option<TurnId>)

  datatype Turn = Turn(
    status: string, started: Time, finished: Option<Time>, parent: Option<TurnId>)

  datatype Tables = Tables(triggers: map<TriggerId, Trigger>, turns: map<TurnId, Turn>)

  function Coalesce(first: Option<Time>, otherwise: Time): Time {
    if first.Some? then first.value else otherwise
  }

  /** A caller is still waiting for the answer. */
  predicate Owed(t: Trigger) {
    t.expectsAnswer && t.answerStatus.None?
  }

  predicate TriggerGoes(t: Trigger, cutoff: Time) {
    t.status in {"consumed", "expired"} && Coalesce(t.consumed, t.created) < cutoff && !Owed(t)
  }

  function GoingTriggers(s: Tables, cutoff: Time): set<TriggerId> {
    set t | t in s.triggers && TriggerGoes(s.triggers[t], cutoff)
  }

  predicate ClosedAndOld(u: Turn, cutoff: Time) {
    u.status != "running" && Coalesce(u.finished, u.started) < cutoff
  }

  /** Triggers that name a turn. */
  function Referencing(s: Tables, id: TurnId): set<TriggerId> {
    set t | t in s.triggers && s.triggers[t].turn == Some(id)
  }

  /** Turns that continue a turn. */
  function Continuations(s: Tables, id: TurnId): set<TurnId> {
    set u | u in s.turns && s.turns[u].parent == Some(id)
  }

  predicate TurnGoes(s: Tables, id: TurnId, cutoff: Time)
    requires id in s.turns
  {
    ClosedAndOld(s.turns[id], cutoff)
    && Referencing(s, id) <= GoingTriggers(s, cutoff)
    && Continuations(s, id) == {}
  }

  function GoingTurns(s: Tables, cutoff: Time): set<TurnId> {
    set u | u in s.turns && TurnGoes(s, u, cutoff)
  }

  function Sweep(s: Tables, cutoff: Time): Tables {
    Tables(s.triggers - GoingTriggers(s, cutoff), s.turns - GoingTurns(s, cutoff))
  }

  function Sweeps(s: Tables, cutoff: Time, n: nat): Tables {
    if n == 0 then s else Sweep(Sweeps(s, cutoff, n - 1), cutoff)
  }

  class WorkingSet {
    var triggers: map<TriggerId, Trigger>
    var turns: map<TurnId, Turn>

    function State(): Tables
      reads this
    {
      Tables(triggers, turns)
    }

    constructor (triggers: map<TriggerId, Trigger>, turns: map<TurnId, Turn>)
      ensures State() == Tables(triggers, turns)
    {
      this.triggers, this.turns := triggers, turns;
    }

    /** The decision, apart from the deletion. */
    method Prunable(cutoff: Time) returns (doomed: set<TriggerId>, gone: set<TurnId>)
      ensures doomed == GoingTriggers(State(), cutoff)
      ensures gone == GoingTurns(State(), cutoff)
    {
      doomed := set t | t in triggers && TriggerGoes(triggers[t], cutoff);
      gone := {};
      var rows := set u | u in turns && ClosedAndOld(turns[u], cutoff);
      var todo := rows;
      while todo != {}
        invariant todo <= rows
        invariant gone == set u | u in rows - todo && TurnGoes(State(), u, cutoff)
      {
        var id :| id in todo;
        todo := todo - {id};
        var referencing := set t | t in triggers && triggers[t].turn == Some(id);
        if !(referencing <= doomed) {
          continue;
        }
        var children := |set u | u in turns && turns[u].parent == Some(id)|;
        if children != 0 {
          continue;
        }
        gone := gone + {id};
      }
    }

    /** Forget what is past its window. What goes is neither owed an answer, nor
        running, nor recent; what stays is named by nobody that went. */
    method Prune(olderThan: int, now: Time)
      returns (cutoff: Time, triggersPruned: nat, turnsPruned: nat, noted: bool)
      modifies this
      ensures cutoff == now - if olderThan > 0 then olderThan else 0
      ensures State() == Sweep(old(State()), cutoff)
      ensures triggersPruned == |old(triggers)| - |triggers|
      ensures turnsPruned == |old(turns)| - |turns|
      ensures noted <==> State() != old(State())
    {
      cutoff := now - if olderThan > 0 then olderThan else 0;
      var doomed, gone := Prunable(cutoff);
      DeleteTriggers(doomed);
      DeleteTurns(gone);
      Removed(old(triggers), doomed);
      Removed(old(turns), gone);
      triggersPruned, turnsPruned, noted := |doomed|, |gone|, doomed != {} || gone != {};
    }

    method DeleteTriggers(doomed: set<TriggerId>)
      modifies this`triggers
      ensures triggers == old(triggers) - doomed
    {
      var todo := doomed;
      while todo != {}
        invariant todo <= doomed
        invariant triggers == old(triggers) - (doomed - todo)
      {
        var id :| id in todo;
        triggers, todo := triggers - {id}, todo - {id};
      }
    }

    method DeleteTurns(gone: set<TurnId>)
      modifies this`turns
      ensures turns == old(turns) - gone
    {
      var todo := gone;
      while todo != {}
        invariant todo <= gone
        invariant turns == old(turns) - (gone - todo)
      {
        var id :| id in todo;
        turns, todo := turns - {id}, todo - {id};
      }
    }
  }

  lemma Removed<K, V>(m: map<K, V>, ks: set<K>)
    requires ks <= m.Keys
    ensures |m - ks| == |m| - |ks|
    ensures m - ks == m <==> ks == {}
  {
    assert (m - ks).Keys == m.Keys - ks;
    assert |m.Keys - ks| == |m.Keys| - |ks|;
  }

  // ------------------------------------------------- what a sweep takes

  /** Nothing after the cutoff: the first time, or the second where that is not set. */
  ghost predicate Before(first: Option<Time>, otherwise: Time, cutoff: Time) {
    (first.Some? ==> first.value < cutoff) && (first.None? ==> otherwise < cutoff)
  }

  /** A trigger goes exactly when it is consumed or expired, that long ago, and nobody
      waits for its answer. What stays is as it was. */
  lemma TriggerGoesIff(s: Tables, cutoff: Time, id: TriggerId)
    requires id in s.triggers
    ensures var t := s.triggers[id];
            id !in Sweep(s, cutoff).triggers
            <==> (t.status == "consumed" || t.status == "expired")
                 && Before(t.consumed, t.created, cutoff)
                 && (t.expectsAnswer ==> t.answerStatus.Some?)
    ensures id in Sweep(s, cutoff).triggers ==> Sweep(s, cutoff).triggers[id] == s.triggers[id]
  {
  }

  /** A turn goes exactly when it is not running, ended that long ago, every trigger
      that names it goes with it, and no turn continues it. */
  lemma TurnGoesIff(s: Tables, cutoff: Time, id: TurnId)
    requires id in s.turns
    ensures id !in Sweep(s, cutoff).turns
            <==> s.turns[id].status != "running"
                 && Before(s.turns[id].finished, s.turns[id].started, cutoff)
                 && (forall t :: t in Sweep(s, cutoff).triggers ==> s.triggers[t].turn != Some(id))
                 && forall u :: u in s.turns ==> s.turns[u].parent != Some(id)
    ensures id in Sweep(s, cutoff).turns ==> Sweep(s, cutoff).turns[id] == s.turns[id]
  {
    var stay := Sweep(s, cutoff).triggers;
    assert forall t :: t in Referencing(s, id) && t in stay ==> s.triggers[t].turn == Some(id);
    assert forall t :: t in stay && s.triggers[t].turn == Some(id) ==> t in Referencing(s, id);
    assert forall t :: t in s.triggers ==> (t in stay <==> t !in GoingTriggers(s, cutoff));
    assert forall u :: u in s.turns && s.turns[u].parent == Some(id) ==> u in Continuations(s, id);
  }

  // ------------------------------------------------- what a sweep never takes

  /** Kept for its own sake: running, recent, or named by a trigger that stays. */
  ghost predicate Kept(s: Tables, cutoff: Time, id: TurnId)
    requires id in s.turns
  {
    !ClosedAndOld(s.turns[id], cutoff)
    || exists t :: t in Referencing(s, id) && !TriggerGoes(s.triggers[t], cutoff)
  }

  /** Owed triggers, running turns, turns a surviving trigger names, and turns any
      turn continues, whether or not that one goes, all survive the sweep. */
  lemma SweepSpares(s: Tables, cutoff: Time)
    ensures forall t :: t in s.triggers && Owed(s.triggers[t]) ==> t in Sweep(s, cutoff).triggers
    ensures forall u :: u in s.turns && s.turns[u].status == "running" ==>
              u in Sweep(s, cutoff).turns
    ensures forall t :: t in Sweep(s, cutoff).triggers
                        && s.triggers[t].turn.Some? && s.triggers[t].turn.value in s.turns ==>
              s.triggers[t].turn.value in Sweep(s, cutoff).turns
    ensures forall u :: u in s.turns && s.turns[u].parent.Some?
                        && s.turns[u].parent.value in s.turns ==>
              s.turns[u].parent.value in Sweep(s, cutoff).turns
  {
    forall t | t in Sweep(s, cutoff).triggers
               && s.triggers[t].turn.Some? && s.triggers[t].turn.value in s.turns
      ensures s.triggers[t].turn.value in Sweep(s, cutoff).turns
    {
      assert t in Referencing(s, s.triggers[t].turn.value);
    }
    forall u | u in s.turns && s.turns[u].parent.Some? && s.turns[u].parent.value in s.turns
      ensures s.turns[u].parent.value in Sweep(s, cutoff).turns
    {
      assert u in Continuations(s, s.turns[u].parent.value);
    }
  }

  lemma SurvivesIff(s: Tables, cutoff: Time, id: TurnId)
    requires id in s.turns
    ensures id in Sweep(s, cutoff).turns
            <==> Kept(s, cutoff, id) || Continuations(s, id) != {}
  {
    if Kept(s, cutoff, id) && ClosedAndOld(s.turns[id], cutoff) {
      var t :| t in Referencing(s, id) && !TriggerGoes(s.triggers[t], cutoff);
      assert t !in GoingTriggers(s, cutoff);
    }
  }

  /** Rows are never altered, and being kept does not depend on what went. */
  lemma {:induction false} SweepsAlterNothing(s: Tables, cutoff: Time, n: nat)
    ensures var r := Sweeps(s, cutoff, n);
            (forall t :: t in r.triggers ==> t in s.triggers && r.triggers[t] == s.triggers[t])
            && (forall u :: u in r.turns ==> u in s.turns && r.turns[u] == s.turns[u])
            && (forall t :: t in s.triggers && !TriggerGoes(s.triggers[t], cutoff) ==>
                  t in r.triggers)
            && forall u :: u in r.turns ==> (Kept(r, cutoff, u) <==> Kept(s, cutoff, u))
  {
    if n > 0 {
      SweepsAlterNothing(s, cutoff, n - 1);
    }
    var r := Sweeps(s, cutoff, n);
    forall u | u in r.turns && Kept(s, cutoff, u) && ClosedAndOld(s.turns[u], cutoff)
      ensures Kept(r, cutoff, u)
    {
      var t :| t in Referencing(s, u) && !TriggerGoes(s.triggers[t], cutoff);
      assert t in Referencing(r, u);
    }
    forall u | u in r.turns && Kept(r, cutoff, u) && ClosedAndOld(s.turns[u], cutoff)
      ensures Kept(s, cutoff, u)
    {
      var t :| t in Referencing(r, u) && !TriggerGoes(r.triggers[t], cutoff);
      assert t in Referencing(s, u);
    }
  }

  // ------------------------------------------------- sweeping until it settles

  ghost predicate Settled(s: Tables, cutoff: Time) {
    Sweep(s, cutoff) == s
  }

  lemma SweptOnce(s: Tables, cutoff: Time)
    ensures GoingTriggers(Sweep(s, cutoff), cutoff) == {}
  {
  }

  lemma SweepShrinks(s: Tables, cutoff: Time)
    requires GoingTriggers(s, cutoff) == {} && !Settled(s, cutoff)
    ensures |Sweep(s, cutoff).turns| < |s.turns|
  {
    Removed(s.triggers, {});
    Removed(s.turns, GoingTurns(s, cutoff));
  }

  lemma {:induction false} SettledOrSmaller(s: Tables, cutoff: Time, n: nat)
    requires n > 0
    ensures Settled(Sweeps(s, cutoff, n), cutoff)
            || |Sweeps(s, cutoff, n).turns| + n - 1 <= |s.turns|
    ensures GoingTriggers(Sweeps(s, cutoff, n), cutoff) == {}
  {
    var before := Sweeps(s, cutoff, n - 1);
    SweptOnce(before, cutoff);
    if n > 1 {
      SettledOrSmaller(s, cutoff, n - 1);
      if !Settled(before, cutoff) {
        SweepShrinks(before, cutoff);
      }
    } else {
      Removed(s.turns, GoingTurns(s, cutoff));
    }
  }

  /** Repeated sweeps at one cutoff come to rest, after at most one more than there
      were turns. */
  lemma SweepsSettle(s: Tables, cutoff: Time, n: nat)
    requires n > |s.turns|
    ensures Settled(Sweeps(s, cutoff, n), cutoff)
  {
    SettledOrSmaller(s, cutoff, n);
    var r := Sweeps(s, cutoff, n);
    if |r.turns| == 0 {
      assert Sweep(r, cutoff).turns == r.turns && Sweep(r, cutoff).triggers == r.triggers;
    }
  }

  // ------------------------------------------------- what it settles on

  /** A line of continuations, each stored, eldest first. */
  ghost predicate Line(s: Tables, path: seq<TurnId>) {
    path != []
    && (forall k :: 0 <= k < |path| ==> path[k] in s.turns)
    && forall k :: 0 <= k < |path| - 1 ==> s.turns[path[k+1]].parent == Some(path[k])
  }

  /** The turn is kept, or is an ancestor of one that is. */
  ghost predicate Needed(s: Tables, cutoff: Time, id: TurnId) {
    exists path :: Line(s, path) && path[0] == id && Kept(s, cutoff, path[|path|-1])
  }

  /** Following continuations from the turn can come round in a circle. */
  ghost predicate Circles(s: Tables, id: TurnId) {
    exists path :: Line(s, path) && path[0] == id && path[|path|-1] in path[..|path|-1]
  }

  lemma LineHolds(s: Tables, cutoff: Time, path: seq<TurnId>, k: nat)
    requires Line(s, path) && k < |path|
    requires Kept(s, cutoff, path[|path|-1]) || path[|path|-1] in path[..|path|-1]
    ensures path[k] in Sweep(s, cutoff).turns
  {
    SurvivesIff(s, cutoff, path[k]);
    if k < |path| - 1 {
      assert path[k+1] in Continuations(s, path[k]);
    } else if path[|path|-1] in path[..|path|-1] {
      var j :| 0 <= j < |path| - 1 && path[j] == path[k];
      assert path[j+1] in Continuations(s, path[k]);
    }
  }

  /** A line that ends in a kept turn, or in a circle, is never broken. */
  lemma {:induction false} LineSurvives(s: Tables, cutoff: Time, path: seq<TurnId>, n: nat)
    requires Line(s, path)
    requires Kept(s, cutoff, path[|path|-1]) || path[|path|-1] in path[..|path|-1]
    ensures Line(Sweeps(s, cutoff, n), path)
  {
    if n > 0 {
      var before := Sweeps(s, cutoff, n - 1);
      LineSurvives(s, cutoff, path, n - 1);
      SweepsAlterNothing(s, cutoff, n - 1);
      forall k | 0 <= k < |path| ensures path[k] in Sweep(before, cutoff).turns {
        LineHolds(before, cutoff, path, k);
      }
    }
  }

  lemma {:induction false} DistinctInside(path: seq<TurnId>, keys: set<TurnId>)
    requires forall i, j :: 0 <= i < j < |path| ==> path[i] != path[j]
    requires forall k :: 0 <= k < |path| ==> path[k] in keys
    ensures |path| <= |keys|
  {
    if path != [] {
      var last := path[|path|-1];
      DistinctInside(path[..|path|-1], keys - {last});
    }
  }

  /** In a settled table every line can be followed to a kept turn or round a
      circle. */
  lemma {:induction false} LineEnds(s: Tables, cutoff: Time, path: seq<TurnId>)
    requires Settled(s, cutoff) && Line(s, path)
    requires forall i, j :: 0 <= i < j < |path| ==> path[i] != path[j]
    ensures Needed(s, cutoff, path[0]) || Circles(s, path[0])
    decreases |s.turns| + 1 - |path|
  {
    var last := path[|path|-1];
    if !Kept(s, cutoff, last) {
      SurvivesIff(s, cutoff, last);
      var c :| c in Continuations(s, last);
      var longer := path + [c];
      assert Line(s, longer);
      if c in path {
        assert longer[..|longer|-1] == path;
      } else {
        DistinctInside(longer, s.turns.Keys);
        LineEnds(s, cutoff, longer);
      }
    }
  }

  lemma SettledNeeds(s: Tables, cutoff: Time, n: nat, id: TurnId)
    requires Settled(Sweeps(s, cutoff, n), cutoff) && id in Sweeps(s, cutoff, n).turns
    ensures Needed(s, cutoff, id) || Circles(s, id)
  {
    var r := Sweeps(s, cutoff, n);
    SweepsAlterNothing(s, cutoff, n);
    LineEnds(r, cutoff, [id]);
    if Needed(r, cutoff, id) {
      var path :| Line(r, path) && path[0] == id && Kept(r, cutoff, path[|path|-1]);
      assert Line(s, path);
    } else {
      var path :| Line(r, path) && path[0] == id && path[|path|-1] in path[..|path|-1];
      assert Line(s, path);
    }
  }

  /** Once sweeps have settled, the turns left are exactly those kept for their own
      sake, all their ancestors, and any that lead into a circle of parents. */
  lemma SurvivorsAre(s: Tables, cutoff: Time, n: nat, id: TurnId)
    requires n > |s.turns|
    ensures id in Sweeps(s, cutoff, n).turns
            <==> Needed(s, cutoff, id) || Circles(s, id)
  {
    SweepsSettle(s, cutoff, n);
    if Needed(s, cutoff, id) {
      var path :| Line(s, path) && path[0] == id && Kept(s, cutoff, path[|path|-1]);
      LineSurvives(s, cutoff, path, n);
    } else if Circles(s, id) {
      var path :| Line(s, path) && path[0] == id && path[|path|-1] in path[..|path|-1];
      LineSurvives(s, cutoff, path, n);
    } else if id in Sweeps(s, cutoff, n).turns {
      SettledNeeds(s, cutoff, n, id);
    }
  }

  /** Where parents form no circle, the survivors are exactly the kept turns and
      their ancestors. */
  lemma AcyclicSurvivorsAre(s: Tables, cutoff: Time, n: nat)
    requires n > |s.turns|
    requires forall id :: id in s.turns ==> !Circles(s, id)
    ensures forall id :: id in Sweeps(s, cutoff, n).turns <==> Needed(s, cutoff, id)
  {
    forall id ensures id in Sweeps(s, cutoff, n).turns <==> Needed(s, cutoff, id) {
      SurvivorsAre(s, cutoff, n, id);
    }
  }
}
