/**
  Carrying a parent change down the family tree: planning a rebase of the subtree,
  breadth first, and applying the plan.
 */
module Cascade {
  import opened Outcomes
  import opened PromptModel
  import opened PromptStore
  import opened PromptLineage

  datatype PropagationMode = NoPropagation | QueueCandidates | ApproveAll

  datatype RebaseStep = RebaseStep(
    ns: Namespace, fromVersion: int, newVersion: int, newParent: Namespace, newParentVersion: int,
    digest: Digest)

  /** Why a child is not rebased. */
  datatype SkipReason = NothingRunning | AlreadyPins(version: int)

  type Skips = map<Namespace, SkipReason>

  datatype Plan = Plan(
    mode: PropagationMode, ns: Namespace, version: int, steps: seq<RebaseStep>,
    skipped: Skips)

  // ------------------------------------------------- what a plan should say

  /** The version of `ns` its children should pin once `root`@`v` is carried
      down; None where the subtree is not reached. */
  function Target(lib: Lib, root: Namespace, v: int, ns: Namespace): Option<int>
    decreases |ns|
  {
    if ns == root then Some(v)
    else if |ns| <= |root| || |ns| == 0 then None
    else
      var above := Target(lib, root, v, Parent(ns));
      var chosen := Selected(lib, ns, Production);
      if above.None? || chosen.None? then None
      else if chosen.value.node.parent == Some((Parent(ns), above.value))
      then Some(chosen.value.node.local)
      else Some(NextLocal(lib, ns))
  }

  /** A namespace strictly below the root whose parent is reached. */
  predicate Visited(lib: Lib, root: Namespace, v: int, ns: Namespace) {
    ns in lib.table && lib.table[ns] != [] && |ns| > |root|
    && Target(lib, root, v, Parent(ns)).Some?
  }

  /** Visited, with something selected that pins another parent version. */
  predicate Moves(lib: Lib, root: Namespace, v: int, ns: Namespace) {
    Visited(lib, root, v, ns)
    && Selected(lib, ns, Production).Some?
    && Selected(lib, ns, Production).value.node.parent
       != Some((Parent(ns), Target(lib, root, v, Parent(ns)).value))
  }

  function StepFor(lib: Lib, root: Namespace, v: int, ns: Namespace): RebaseStep
    requires Moves(lib, root, v, ns)
  {
    var chosen := Selected(lib, ns, Production).value.node;
    RebaseStep(ns, chosen.local, NextLocal(lib, ns), Parent(ns),
               Target(lib, root, v, Parent(ns)).value, chosen.digest)
  }

  /** A child that stays put runs nothing, or has what it should pin already. */
  function ReasonFor(lib: Lib, root: Namespace, v: int, ns: Namespace): SkipReason {
    var above := if |ns| >= 1 then Target(lib, root, v, Parent(ns)) else None;
    if Selected(lib, ns, Production).None? || above.None? then NothingRunning
    else AlreadyPins(above.value)
  }

  // ------------------------------------------------- order of the steps

  predicate LexLess(a: string, b: string) {
    b != "" && (a == "" || a[0] < b[0] || (a[0] == b[0] && LexLess(a[1..], b[1..])))
  }

  /** Shallower first; within a level, by name. */
  predicate StepBefore(a: RebaseStep, b: RebaseStep) {
    |a.ns| < |b.ns| || (|a.ns| == |b.ns| && LexLess(Text(a.ns), Text(b.ns)))
  }

  function InsertStep(x: RebaseStep, steps: seq<RebaseStep>): (r: seq<RebaseStep>)
    ensures multiset(r) == multiset(steps) + multiset{x}
  {
    if steps == [] || StepBefore(x, steps[0]) then [x] + steps
    else
      assert steps == [steps[0]] + steps[1..];
      [steps[0]] + InsertStep(x, steps[1..])
  }

  function SortSteps(steps: seq<RebaseStep>): (r: seq<RebaseStep>)
    ensures multiset(r) == multiset(steps)
  {
    if steps == [] then []
    else
      assert steps == [steps[0]] + steps[1..];
      InsertStep(steps[0], SortSteps(steps[1..]))
  }

  ghost predicate Ordered(steps: seq<RebaseStep>) {
    forall i, j :: 0 <= i < j < |steps| ==> StepBefore(steps[i], steps[j])
  }

  ghost predicate DistinctSteps(steps: seq<RebaseStep>) {
    forall i, j :: 0 <= i < j < |steps| ==> steps[i].ns != steps[j].ns
  }

  lemma {:induction false} LexTotal(a: string, b: string)
    ensures a == b || LexLess(a, b) || LexLess(b, a)
  {
    if a != "" && b != "" && a[0] == b[0] {
      LexTotal(a[1..], b[1..]);
      assert a == [a[0]] + a[1..] && b == [b[0]] + b[1..];
    }
  }

  lemma {:induction false} LexTransitive(a: string, b: string, c: string)
    requires LexLess(a, b) && LexLess(b, c)
    ensures LexLess(a, c)
  {
    if a != "" && a[0] == b[0] && b[0] == c[0] {
      LexTransitive(a[1..], b[1..], c[1..]);
    }
  }

  lemma BeforeTransitive(a: RebaseStep, b: RebaseStep, c: RebaseStep)
    requires StepBefore(a, b) && StepBefore(b, c)
    ensures StepBefore(a, c)
  {
    if |a.ns| == |b.ns| == |c.ns| {
      LexTransitive(Text(a.ns), Text(b.ns), Text(c.ns));
    }
  }

  lemma BeforeTotal(a: RebaseStep, b: RebaseStep)
    requires a.ns != b.ns && ValidNamespace(a.ns) && ValidNamespace(b.ns)
    ensures StepBefore(a, b) || StepBefore(b, a)
  {
    LexTotal(Text(a.ns), Text(b.ns));
    NamespaceRoundTrip(a.ns);
    NamespaceRoundTrip(b.ns);
  }

  lemma {:induction false} InsertOrders(x: RebaseStep, steps: seq<RebaseStep>)
    requires Ordered(steps) && ValidNamespace(x.ns)
    requires forall s :: s in steps ==> ValidNamespace(s.ns) && s.ns != x.ns
    ensures Ordered(InsertStep(x, steps))
  {
    if steps != [] {
      if StepBefore(x, steps[0]) {
        forall k | 1 <= k < |steps| ensures StepBefore(x, steps[k]) {
          BeforeTransitive(x, steps[0], steps[k]);
        }
      } else {
        var rest := InsertStep(x, steps[1..]);
        InsertOrders(x, steps[1..]);
        BeforeTotal(x, steps[0]);
        forall k | 0 <= k < |rest| ensures StepBefore(steps[0], rest[k]) {
          assert rest[k] in multiset(rest);
          assert rest[k] == x || rest[k] in steps[1..];
        }
      }
    }
  }

  lemma {:induction false} SortOrders(steps: seq<RebaseStep>)
    requires DistinctSteps(steps) && forall s :: s in steps ==> ValidNamespace(s.ns)
    ensures Ordered(SortSteps(steps))
    ensures forall s :: s in SortSteps(steps) <==> s in steps
  {
    forall s ensures s in SortSteps(steps) <==> s in steps {
      assert s in steps <==> s in multiset(steps);
    }
    if steps != [] {
      SortOrders(steps[1..]);
      InsertOrders(steps[0], SortSteps(steps[1..]));
    }
  }

  // ------------------------------------------------- planning

  /** A step or a skip for each child processed, and nothing else. */
  ghost predicate Recorded(lib: Lib, root: Namespace, v: int, done: set<Namespace>,
                           steps: seq<RebaseStep>, skipped: Skips)
  {
    (forall ns :: ns in done ==> Visited(lib, root, v, ns))
    && (forall s :: s in steps ==> s.ns in done && Moves(lib, root, v, s.ns)
                                   && s == StepFor(lib, root, v, s.ns))
    && (forall ns :: ns in done && Moves(lib, root, v, ns) ==> StepFor(lib, root, v, ns) in steps)
    && skipped == (map ns | ns in done && !Moves(lib, root, v, ns) :: ReasonFor(lib, root, v, ns))
    && DistinctSteps(steps)
  }

  ghost predicate InFrontier(frontier: seq<(Namespace, int)>, ns: Namespace) {
    exists k :: 0 <= k < |frontier| && frontier[k].0 == ns
  }

  ghost predicate Reached(root: Namespace, done: set<Namespace>, ns: Namespace) {
    ns == root || ns in done
  }

  /** Everything reached is still to be expanded, or is the one being expanded,
      or has all its children processed; nothing waits twice, or was expanded. */
  ghost predicate FrontierOk(lib: Lib, root: Namespace, v: int, done: set<Namespace>,
                             frontier: seq<(Namespace, int)>, busy: set<Namespace>)
  {
    (forall k :: 0 <= k < |frontier| ==>
       Target(lib, root, v, frontier[k].0) == Some(frontier[k].1)
       && Reached(root, done, frontier[k].0) && frontier[k].0 !in busy)
    && (forall i, j :: 0 <= i < j < |frontier| ==> frontier[i].0 != frontier[j].0)
    && (forall k, c :: 0 <= k < |frontier| && IsChild(frontier[k].0, c) ==> c !in done)
    && (forall ns :: ns in done ==> |ns| > |root| && |ns| > 0 && Reached(root, done, Parent(ns)))
    && (forall ns :: Expanded(lib, root, v, done, frontier, busy, ns) ==>
          ChildrenOf(lib, ns) <= done)
  }

  ghost predicate Expanded(lib: Lib, root: Namespace, v: int, done: set<Namespace>,
                           frontier: seq<(Namespace, int)>, busy: set<Namespace>, ns: Namespace)
  {
    Reached(root, done, ns) && Target(lib, root, v, ns).Some?
    && ns !in busy && !InFrontier(frontier, ns)
  }

  function VisitedSet(lib: Lib, root: Namespace, v: int): set<Namespace> {
    set ns | ns in lib.table && Visited(lib, root, v, ns)
  }

  /** A plan lists exactly the moves, in order, and reports every other child it
      met as skipped, and why. */
  ghost predicate PlanComplete(lib: Lib, root: Namespace, v: int, steps: seq<RebaseStep>,
                               skipped: Skips)
  {
    Ordered(steps) && DistinctSteps(steps)
    && (forall s :: s in steps ==> Moves(lib, root, v, s.ns) && s == StepFor(lib, root, v, s.ns))
    && (forall ns :: Moves(lib, root, v, ns) ==> StepFor(lib, root, v, ns) in steps)
    && skipped == (map ns | ns in VisitedSet(lib, root, v) && !Moves(lib, root, v, ns) ::
                     ReasonFor(lib, root, v, ns))
  }

  lemma {:induction false} TargetIsBelow(lib: Lib, root: Namespace, v: int, ns: Namespace)
    requires Target(lib, root, v, ns).Some?
    ensures |ns| >= |root| && ns[..|root|] == root
    decreases |ns|
  {
    if ns != root {
      TargetIsBelow(lib, root, v, Parent(ns));
    } else {
      assert ns[..|root|] == root;
    }
  }

  lemma StoredChildren(lib: Lib, root: Namespace, v: int, ns: Namespace)
    requires SelectionsOk(lib) && Target(lib, root, v, ns).Some? && ns != root
    ensures Visited(lib, root, v, ns)
  {
    assert (ns, Production) in lib.selected;
  }

  /** When the frontier is empty, every visited namespace has been processed. */
  lemma {:induction false} NothingMissed(lib: Lib, root: Namespace, v: int, done: set<Namespace>,
                                         ns: Namespace)
    requires SelectionsOk(lib)
    requires FrontierOk(lib, root, v, done, [], {}) && Visited(lib, root, v, ns)
    ensures ns in done
    decreases |ns|
  {
    var parent := Parent(ns);
    if parent != root {
      StoredChildren(lib, root, v, parent);
      NothingMissed(lib, root, v, done, parent);
    }
    assert Expanded(lib, root, v, done, [], {}, parent);
    assert ns in ChildrenOf(lib, parent);
  }

  function Queue(frontier: seq<(Namespace, int)>, c: Namespace, t: Option<int>)
    : seq<(Namespace, int)>
  {
    if t.Some? then frontier + [(c, t.value)] else frontier
  }

  lemma OneParent(p: Namespace, q: Namespace, c: Namespace)
    ensures IsChild(p, c) && IsChild(q, c) ==> p == q
  {
  }

  /** Processing one more child of the namespace being expanded. */
  lemma FrontierAdd(lib: Lib, root: Namespace, v: int, done: set<Namespace>,
                    frontier: seq<(Namespace, int)>, parent: Namespace, c: Namespace)
    requires FrontierOk(lib, root, v, done, frontier, {parent})
    requires Target(lib, root, v, parent).Some? && Reached(root, done, parent)
    requires IsChild(parent, c) && c !in done
    ensures FrontierOk(lib, root, v, done + {c}, Queue(frontier, c, Target(lib, root, v, c)), {parent})
  {
    TargetIsBelow(lib, root, v, parent);
    assert Parent(c) == parent;
    var more := Queue(frontier, c, Target(lib, root, v, c));
    forall k, g | 0 <= k < |more| && IsChild(more[k].0, g) ensures g !in done + {c} {
      OneParent(more[k].0, parent, c);
      if k >= |frontier| {
        assert g !in done by { assert Parent(g) == c; }
      }
    }
    forall k | 0 <= k < |frontier| ensures frontier[k].0 != c {
      assert Reached(root, done, frontier[k].0);
    }
    forall ns | InFrontier(frontier, ns) || (ns == c && Target(lib, root, v, c).Some?)
      ensures InFrontier(more, ns)
    {
      if InFrontier(frontier, ns) {
        var k :| 0 <= k < |frontier| && frontier[k].0 == ns;
        assert more[k].0 == ns;
      } else {
        assert more[|frontier|].0 == ns;
      }
    }
    forall ns | Expanded(lib, root, v, done + {c}, more, {parent}, ns)
      ensures ChildrenOf(lib, ns) <= done + {c}
    {
      assert Expanded(lib, root, v, done, frontier, {parent}, ns);
    }
  }

  function Listed(lib: Lib, root: Namespace, v: int, c: Namespace, steps: seq<RebaseStep>)
    : seq<RebaseStep>
  {
    if Moves(lib, root, v, c) then steps + [StepFor(lib, root, v, c)] else steps
  }

  function PassedOver(lib: Lib, root: Namespace, v: int, c: Namespace, skipped: Skips): Skips {
    if Moves(lib, root, v, c) then skipped else skipped[c := ReasonFor(lib, root, v, c)]
  }

  /** One child: skipped, or skipped but reached, or a step. */
  method ExpandChild(store: Store, root: Namespace, v: int, parent: Namespace, parentVersion: int,
                     c: Namespace, frontier0: seq<(Namespace, int)>, steps0: seq<RebaseStep>,
                     skipped0: Skips)
    returns (frontier: seq<(Namespace, int)>, steps: seq<RebaseStep>, skipped: Skips)
    requires Target(store.State(), root, v, parent) == Some(parentVersion)
    requires c in ChildrenOf(store.State(), parent) && |parent| >= |root|
    ensures frontier == Queue(frontier0, c, Target(store.State(), root, v, c))
    ensures steps == Listed(store.State(), root, v, c, steps0)
    ensures skipped == PassedOver(store.State(), root, v, c, skipped0)
  {
    assert Visited(store.State(), root, v, c) && Parent(c) == parent;
    frontier, steps, skipped := frontier0, steps0, skipped0;
    var chosen := Selected(store.State(), c, Production);
    if chosen.None? {
      skipped := skipped[c := NothingRunning];
    } else if chosen.value.node.parent == Some((parent, parentVersion)) {
      skipped := skipped[c := AlreadyPins(parentVersion)];
      frontier := frontier + [(c, chosen.value.node.local)];
    } else {
      var next := store.NextLocalVersion(c);
      steps := steps + [RebaseStep(c, chosen.value.node.local, next, parent, parentVersion,
                                   chosen.value.node.digest)];
      frontier := frontier + [(c, next)];
    }
  }

  /** Between children of the namespace being expanded. */
  ghost predicate Expanding(lib: Lib, root: Namespace, v: int, parent: Namespace,
                            done0: set<Namespace>, done: set<Namespace>, todo: set<Namespace>)
  {
    Target(lib, root, v, parent).Some? && Reached(root, done, parent)
    && todo <= ChildrenOf(lib, parent) && todo !! done
    && done + todo == done0 + ChildrenOf(lib, parent)
  }

  lemma ChildDone(lib: Lib, root: Namespace, v: int, parent: Namespace, done0: set<Namespace>,
                  done: set<Namespace>, todo: set<Namespace>, c: Namespace)
    requires Expanding(lib, root, v, parent, done0, done, todo) && c in todo
    ensures Expanding(lib, root, v, parent, done0, done + {c}, todo - {c})
    ensures IsChild(parent, c) && c !in done && Visited(lib, root, v, c)
  {
    VisitedChild(lib, root, v, parent, c);
    assert done + {c} + (todo - {c}) == done + todo;
  }

  /** Expand one namespace: record each child, and queue those reached. */
  method Expand(store: Store, root: Namespace, v: int, parent: Namespace, parentVersion: int,
                frontier0: seq<(Namespace, int)>, steps0: seq<RebaseStep>,
                skipped0: Skips, ghost done0: set<Namespace>)
    returns (frontier: seq<(Namespace, int)>, steps: seq<RebaseStep>, skipped: Skips,
             ghost done: set<Namespace>)
    requires Target(store.State(), root, v, parent) == Some(parentVersion)
    requires Reached(root, done0, parent)
    requires FrontierOk(store.State(), root, v, done0, frontier0, {parent})
    requires Recorded(store.State(), root, v, done0, steps0, skipped0)
    requires ChildrenOf(store.State(), parent) !! done0
    ensures done == done0 + ChildrenOf(store.State(), parent)
    ensures FrontierOk(store.State(), root, v, done, frontier, {parent})
    ensures Recorded(store.State(), root, v, done, steps, skipped)
    ensures ChildrenOf(store.State(), parent) == {} ==> frontier == frontier0
  {
    ghost var lib := store.State();
    frontier, steps, skipped, done := frontier0, steps0, skipped0, done0;
    var todo := ChildrenOf(store.State(), parent);
    TargetIsBelow(lib, root, v, parent);
    while todo != {}
      invariant Expanding(lib, root, v, parent, done0, done, todo)
      invariant FrontierOk(lib, root, v, done, frontier, {parent})
      invariant Recorded(lib, root, v, done, steps, skipped)
      invariant ChildrenOf(lib, parent) == {} ==> frontier == frontier0
    {
      var c :| c in todo;
      ChildDone(lib, root, v, parent, done0, done, todo, c);
      FrontierAdd(lib, root, v, done, frontier, parent, c);
      RecordedAdd(lib, root, v, done, steps, skipped, c);
      frontier, steps, skipped :=
        ExpandChild(store, root, v, parent, parentVersion, c, frontier, steps, skipped);
      done, todo := done + {c}, todo - {c};
    }
  }

  lemma VisitedChild(lib: Lib, root: Namespace, v: int, parent: Namespace, c: Namespace)
    requires Target(lib, root, v, parent).Some? && c in ChildrenOf(lib, parent)
    ensures Visited(lib, root, v, c)
  {
    TargetIsBelow(lib, root, v, parent);
    assert Parent(c) == parent;
  }

  lemma RecordedAdd(lib: Lib, root: Namespace, v: int, done: set<Namespace>,
                    steps: seq<RebaseStep>, skipped: Skips, c: Namespace)
    requires Recorded(lib, root, v, done, steps, skipped)
    requires Visited(lib, root, v, c) && c !in done
    ensures Recorded(lib, root, v, done + {c}, Listed(lib, root, v, c, steps),
                     PassedOver(lib, root, v, c, skipped))
  {
  }

  method MakePlan(store: Store, ns: Namespace, version: int, mode: PropagationMode)
    returns (r: Result<Plan, PromptError>)
    requires LibOk(store.digest, store.State())
    ensures var lib := store.State();
            var root := GetVersion(lib, ns, version);
            if root.None? then r == Err(NoSuchVersion)
            else if mode == NoPropagation then r == Ok(Plan(mode, ns, version, [], map[]))
            else if !root.value.state.Approved() then r == Err(NotApproved)
            else r.Ok? && r.value.mode == mode && r.value.ns == ns && r.value.version == version
                 && PlanComplete(lib, ns, version, r.value.steps, r.value.skipped)
  {
    var root := GetVersion(store.State(), ns, version);
    if root.None? {
      return Err(NoSuchVersion);
    }
    if mode == NoPropagation {
      return Ok(Plan(mode, ns, version, [], map[]));
    }
    if !root.value.state.Approved() {
      return Err(NotApproved);
    }
    var steps, skipped := PlanSteps(store, ns, version);
    return Ok(Plan(mode, ns, version, steps, skipped));
  }

  method PlanSteps(store: Store, root: Namespace, v: int)
    returns (steps: seq<RebaseStep>, skipped: Skips)
    requires LibOk(store.digest, store.State())
    ensures PlanComplete(store.State(), root, v, steps, skipped)
  {
    ghost var lib := store.State();
    steps, skipped := [], map[];
    var frontier := [(root, v)];
    assert frontier[0].0 == root;
    ghost var done: set<Namespace> := {};
    while frontier != []
      invariant FrontierOk(lib, root, v, done, frontier, {})
      invariant Recorded(lib, root, v, done, steps, skipped)
      invariant done <= VisitedSet(lib, root, v)
      decreases VisitedSet(lib, root, v) - done, |frontier|
    {
      var (parent, parentVersion) := frontier[0];
      PopFrontier(lib, root, v, done, frontier);
      ghost var before := done;
      frontier, steps, skipped, done :=
        Expand(store, root, v, parent, parentVersion, frontier[1..], steps, skipped, done);
      ExpandedAll(lib, root, v, done, frontier, parent);
      Progress(lib, root, v, before, done, steps, skipped, parent);
    }
    PlanIsComplete(store.digest, lib, root, v, done, steps, skipped);
    steps := SortSteps(steps);
  }

  /** Expanding visits what is left to visit, and more of it if it has children. */
  lemma Progress(lib: Lib, root: Namespace, v: int, before: set<Namespace>, done: set<Namespace>,
                 steps: seq<RebaseStep>, skipped: Skips, parent: Namespace)
    requires Recorded(lib, root, v, done, steps, skipped)
    requires done == before + ChildrenOf(lib, parent) && ChildrenOf(lib, parent) !! before
    ensures done <= VisitedSet(lib, root, v)
    ensures if ChildrenOf(lib, parent) == {} then done == before
            else VisitedSet(lib, root, v) - done < VisitedSet(lib, root, v) - before
  {
    forall ns | ns in done ensures ns in VisitedSet(lib, root, v) {
      assert Visited(lib, root, v, ns);
    }
    if ChildrenOf(lib, parent) != {} {
      var c :| c in ChildrenOf(lib, parent);
      assert c in done && c !in before;
    }
  }

  lemma PopFrontier(lib: Lib, root: Namespace, v: int, done: set<Namespace>,
                    frontier: seq<(Namespace, int)>)
    requires frontier != [] && FrontierOk(lib, root, v, done, frontier, {})
    ensures FrontierOk(lib, root, v, done, frontier[1..], {frontier[0].0})
    ensures ChildrenOf(lib, frontier[0].0) !! done
  {
    var rest := frontier[1..];
    forall ns | InFrontier(frontier, ns) && ns != frontier[0].0 ensures InFrontier(rest, ns) {
      var k :| 0 <= k < |frontier| && frontier[k].0 == ns;
      assert rest[k-1].0 == ns;
    }
    forall ns | Expanded(lib, root, v, done, rest, {frontier[0].0}, ns)
      ensures ChildrenOf(lib, ns) <= done
    {
      assert Expanded(lib, root, v, done, frontier, {}, ns);
    }
  }

  lemma ExpandedAll(lib: Lib, root: Namespace, v: int, done: set<Namespace>,
                    frontier: seq<(Namespace, int)>, parent: Namespace)
    requires FrontierOk(lib, root, v, done, frontier, {parent})
    requires ChildrenOf(lib, parent) <= done
    ensures FrontierOk(lib, root, v, done, frontier, {})
  {
    forall ns | Expanded(lib, root, v, done, frontier, {}, ns)
      ensures ChildrenOf(lib, ns) <= done
    {
      if ns != parent {
        assert Expanded(lib, root, v, done, frontier, {parent}, ns);
      }
    }
  }

  lemma PlanIsComplete(digest: LocalDigest, lib: Lib, root: Namespace, v: int,
                       done: set<Namespace>, steps: seq<RebaseStep>, skipped: Skips)
    requires LibOk(digest, lib) && FrontierOk(lib, root, v, done, [], {})
    requires Recorded(lib, root, v, done, steps, skipped)
    ensures PlanComplete(lib, root, v, SortSteps(steps), skipped)
  {
    forall ns ensures ns in VisitedSet(lib, root, v) <==> ns in done {
      if ns in VisitedSet(lib, root, v) {
        NothingMissed(lib, root, v, done, ns);
      }
    }
    forall s | s in steps ensures ValidNamespace(s.ns) {
      assert NamespaceOk(digest, lib, s.ns);
    }
    SortOrders(steps);
    forall ns | Moves(lib, root, v, ns) ensures StepFor(lib, root, v, ns) in SortSteps(steps) {
      assert ns in VisitedSet(lib, root, v);
    }
    OrderedAreDistinct(SortSteps(steps));
  }

  lemma OrderedAreDistinct(steps: seq<RebaseStep>)
    requires Ordered(steps)
    ensures DistinctSteps(steps)
  {
    forall i, j | 0 <= i < j < |steps| ensures steps[i].ns != steps[j].ns {
      assert StepBefore(steps[i], steps[j]);
      LexIrreflexive(Text(steps[i].ns));
    }
  }

  lemma {:induction false} LexIrreflexive(a: string)
    ensures !LexLess(a, a)
  {
    if a != "" {
      LexIrreflexive(a[1..]);
    }
  }
}
