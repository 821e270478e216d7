/**
  Applying a plan, and what an applied plan guarantees.
 */
module CascadeApply {
  import opened Outcomes
  import opened PromptModel
  import opened PromptStore
  import opened PromptLineage
  import opened Cascade

  function ModeName(m: Mode): string {
    match m
    case Inherit => "inherit"
    case Append => "append"
    case Prepend => "prepend"
    case Replace => "replace"
  }

  function StateFor(mode: PropagationMode): State {
    if mode == ApproveAll then ProductionApproved else Candidate
  }

  /** The parent version this run really produced, or else the predicted one. */
  function PinOf(produced: map<Namespace, int>, step: RebaseStep): int {
    if step.newParent in produced then produced[step.newParent] else step.newParentVersion
  }

  /** One step: copy the local definition onto the parent version that the
      cascade really produced, and in approval mode select the copy. */
  function ApplyStep(digest: LocalDigest, lib: Lib, mode: PropagationMode,
                     produced: map<Namespace, int>, step: RebaseStep)
    : Result<(Lib, int), PromptError>
  {
    var pin := PinOf(produced, step);
    var source := GetVersion(lib, step.ns, step.fromVersion);
    if source.None? then Err(NoSuchVersion)
    else
      var def := source.value.node.def;
      var (made, created) := CreateVersion(digest, lib, Text(step.ns), ModeName(def.mode), def.text,
                                           RawOf(def.vars), Some(pin), StateFor(mode));
      if created.Err? then Err(created.error)
      else if created.value.digest != source.value.node.digest then Err(DigestChanged)
      else if mode != ApproveAll then Ok((made, created.value.local))
      else
        var (chosen, r) := Select(made, step.ns, (step.ns, created.value.local), Production);
        if r.Err? then Err(r.error) else Ok((chosen, created.value.local))
  }

  function ApplySteps(digest: LocalDigest, lib: Lib, mode: PropagationMode,
                      produced: map<Namespace, int>, steps: seq<RebaseStep>)
    : Result<(Lib, map<Namespace, int>), PromptError>
  {
    if steps == [] then Ok((lib, produced))
    else
      var before := ApplySteps(digest, lib, mode, produced, steps[..|steps|-1]);
      if before.Err? then before
      else
        var step := steps[|steps|-1];
        var (l, p) := before.value;
        var r := ApplyStep(digest, l, mode, p, step);
        if r.Err? then Err(r.error) else Ok((r.value.0, p[step.ns := r.value.1]))
  }

  function ApplyPlan(digest: LocalDigest, lib: Lib, plan: Plan): (Lib, Result<(), PromptError>) {
    if plan.mode == NoPropagation || plan.steps == [] then (lib, Ok(()))
    else
      var r := ApplySteps(digest, lib, plan.mode, map[plan.ns := plan.version], plan.steps);
      if r.Err? then (lib, Err(r.error)) else (r.value.0, Ok(()))
  }

  /** A failed step, whatever comes after it, fails the whole plan. */
  lemma {:induction false} FailureStays(digest: LocalDigest, lib: Lib, mode: PropagationMode,
                                        produced: map<Namespace, int>, steps: seq<RebaseStep>,
                                        k: nat)
    requires k <= |steps| && ApplySteps(digest, lib, mode, produced, steps[..k]).Err?
    ensures ApplySteps(digest, lib, mode, produced, steps)
            == ApplySteps(digest, lib, mode, produced, steps[..k])
    decreases |steps| - k
  {
    if k == |steps| {
      assert steps[..k] == steps;
    } else {
      assert steps[..k+1][..k] == steps[..k];
      FailureStays(digest, lib, mode, produced, steps, k + 1);
    }
  }

  /** Execute a plan step by step. The mutation it runs in is rolled back when a
      step raises. */
  method Execute(store: Store, plan: Plan) returns (r: Result<(), PromptError>)
    modifies store
    ensures (store.State(), r) == ApplyPlan(store.digest, old(store.State()), plan)
  {
    if plan.mode == NoPropagation || plan.steps == [] {
      return Ok(());
    }
    var savedTable, savedSelected := store.table, store.selected;
    var produced := map[plan.ns := plan.version];
    for k := 0 to |plan.steps|
      invariant ApplySteps(store.digest, old(store.State()), plan.mode,
                           map[plan.ns := plan.version], plan.steps[..k])
                == Ok((store.State(), produced))
    {
      assert plan.steps[..k+1][..k] == plan.steps[..k];
      var made := ExecuteStep(store, plan.mode, produced, plan.steps[k]);
      if made.Err? {
        FailureStays(store.digest, old(store.State()), plan.mode, map[plan.ns := plan.version],
                     plan.steps, k + 1);
        store.table, store.selected := savedTable, savedSelected;
        return Err(made.error);
      }
      produced := produced[plan.steps[k].ns := made.value];
    }
    assert plan.steps[..|plan.steps|] == plan.steps;
    return Ok(());
  }

  method ExecuteStep(store: Store, mode: PropagationMode, produced: map<Namespace, int>,
                     step: RebaseStep) returns (r: Result<int, PromptError>)
    modifies store
    ensures var expected := ApplyStep(store.digest, old(store.State()), mode, produced, step);
            if expected.Err? then r == Err(expected.error)
            else store.State() == expected.value.0 && r == Ok(expected.value.1)
  {
    var pin := if step.newParent in produced then produced[step.newParent]
               else step.newParentVersion;
    var source := GetVersion(store.State(), step.ns, step.fromVersion);
    if source.None? {
      return Err(NoSuchVersion);
    }
    var def := source.value.node.def;
    var created := store.Create(Text(step.ns), ModeName(def.mode), def.text, RawOf(def.vars),
                                Some(pin), StateFor(mode));
    if created.Err? {
      return Err(created.error);
    }
    if created.value.digest != source.value.node.digest {
      return Err(DigestChanged);
    }
    if mode == ApproveAll {
      var chosen := store.Choose(step.ns, (step.ns, created.value.local), Production);
      if chosen.Err? {
        return Err(chosen.error);
      }
    }
    return Ok(created.value.local);
  }

  // ------------------------------------------------- the carried library

  /** The rebased copy of a namespace that moves. */
  function Copy(lib: Lib, root: Namespace, v: int, ns: Namespace): Node
    requires Moves(lib, root, v, ns)
  {
    var chosen := Selected(lib, ns, Production).value.node;
    chosen.(ns := ns, local := NextLocal(lib, ns),
            parent := Some((Parent(ns), Target(lib, root, v, Parent(ns)).value)))
  }

  /** The library once the moves in `done` have been made, and no others. */
  function Carried(lib: Lib, root: Namespace, v: int, mode: PropagationMode,
                   done: set<Namespace>): Lib
  {
    Lib(map ns | ns in lib.table ::
          if ns in done && Moves(lib, root, v, ns)
          then lib.table[ns] + [VersionRow(Copy(lib, root, v, ns), StateFor(mode))]
          else lib.table[ns],
        map key | key in lib.selected ::
          if mode == ApproveAll && key.1 == Production && key.0 in done
             && Moves(lib, root, v, key.0)
          then (key.0, NextLocal(lib, key.0))
          else lib.selected[key])
  }

  function Moved(lib: Lib, root: Namespace, v: int): set<Namespace> {
    set ns | ns in lib.table && Moves(lib, root, v, ns)
  }

  /** What `produced` holds once `done` have moved: each one's target. */
  ghost predicate ProducedOk(lib: Lib, root: Namespace, v: int, done: set<Namespace>,
                             produced: map<Namespace, int>)
  {
    produced.Keys == done + {root}
    && forall ns :: ns in produced ==> Target(lib, root, v, ns) == Some(produced[ns])
  }

  lemma CarriedGets(digest: LocalDigest, lib: Lib, root: Namespace, v: int, mode: PropagationMode,
                    done: set<Namespace>, ns: Namespace, w: int)
    requires LibOk(digest, lib)
    ensures var here := ns in done && Moves(lib, root, v, ns);
            GetVersion(Carried(lib, root, v, mode, done), ns, w)
            == if here && w == NextLocal(lib, ns)
               then Some(VersionRow(Copy(lib, root, v, ns), StateFor(mode)))
               else GetVersion(lib, ns, w)
    ensures !(ns in done && Moves(lib, root, v, ns)) ==>
              NextLocal(Carried(lib, root, v, mode, done), ns) == NextLocal(lib, ns)
  {
    TableIsNumbered(digest, lib);
    GetIs(digest, lib, ns, w);
    var later := Carried(lib, root, v, mode, done);
    FindNumbered(Rows(later, ns), 1, w);
  }

  /** The parent version a moving namespace is to pin exists by the time its turn
      comes: its parent stays put, or has been moved already. */
  lemma PinExists(digest: LocalDigest, lib: Lib, root: Namespace, v: int, mode: PropagationMode,
                  done: set<Namespace>, ns: Namespace)
    requires LibOk(digest, lib) && GetVersion(lib, root, v).Some?
    requires Moves(lib, root, v, ns)
    requires Moves(lib, root, v, Parent(ns)) ==> Parent(ns) in done
    ensures GetVersion(Carried(lib, root, v, mode, done), Parent(ns),
                       Target(lib, root, v, Parent(ns)).value).Some?
  {
    var parent := Parent(ns);
    var t := Target(lib, root, v, parent).value;
    CarriedGets(digest, lib, root, v, mode, done, parent, t);
    if parent != root {
      StoredChildren(lib, root, v, parent);
      var id := lib.selected[(parent, Production)];
      assert id.0 == parent;
      GotNode(digest, lib, parent, id.1);
    }
  }

  /** Every check a stored definition passed once passes again. */
  lemma StoredPassesAgain(def: Local)
    requires StoredLocal(def)
    ensures CheckedLocal(ModeName(def.mode), def.text, RawOf(def.vars)) == Ok(def)
  {
    assert ModeOf(ModeName(def.mode)) == Some(def.mode);
  }

  lemma DeeperThanRoot(digest: LocalDigest, lib: Lib, root: Namespace, v: int, ns: Namespace)
    requires LibOk(digest, lib) && GetVersion(lib, root, v).Some? && Moves(lib, root, v, ns)
    ensures |ns| > |root| >= 1
  {
    TargetIsBelow(lib, root, v, Parent(ns));
    GotNode(digest, lib, root, v);
  }

  /** Creating the copy on the parent version it was planned for. */
  lemma CopyIsCreated(digest: LocalDigest, lib: Lib, root: Namespace, v: int,
                      mode: PropagationMode, done: set<Namespace>, ns: Namespace)
    requires LibOk(digest, lib) && GetVersion(lib, root, v).Some?
    requires Moves(lib, root, v, ns) && ns !in done
    requires Moves(lib, root, v, Parent(ns)) ==> Parent(ns) in done
    ensures var now := Carried(lib, root, v, mode, done);
            var def := Selected(lib, ns, Production).value.node.def;
            CreateVersion(digest, now, Text(ns), ModeName(def.mode), def.text, RawOf(def.vars),
                          Some(Target(lib, root, v, Parent(ns)).value), StateFor(mode))
            == (Insert(now, VersionRow(Copy(lib, root, v, ns), StateFor(mode))),
                Ok(Copy(lib, root, v, ns)))
  {
    var id := lib.selected[(ns, Production)];
    GotNode(digest, lib, ns, id.1);
    NamespaceRoundTrip(ns);
    StoredPassesAgain(Selected(lib, ns, Production).value.node.def);
    PinExists(digest, lib, root, v, mode, done, ns);
    CarriedGets(digest, lib, root, v, mode, done, ns, 0);
    DeeperThanRoot(digest, lib, root, v, ns);
  }

  lemma CarriedExtends(lib: Lib, root: Namespace, v: int, mode: PropagationMode,
                       done: set<Namespace>, ns: Namespace)
    requires Moves(lib, root, v, ns) && ns !in done
    ensures var now := Carried(lib, root, v, mode, done);
            var later := Insert(now, VersionRow(Copy(lib, root, v, ns), StateFor(mode)));
            Carried(lib, root, v, mode, done + {ns})
            == if mode == ApproveAll
               then later.(selected := later.selected[(ns, Production) := (ns, NextLocal(lib, ns))])
               else later
  {
    assert (ns, Production) in lib.selected;
    TableExtends(lib, root, v, mode, done, ns);
    SelectionsExtend(lib, root, v, mode, done, ns);
  }

  lemma TableExtends(lib: Lib, root: Namespace, v: int, mode: PropagationMode,
                     done: set<Namespace>, ns: Namespace)
    requires Moves(lib, root, v, ns) && ns !in done
    ensures Carried(lib, root, v, mode, done + {ns}).table
            == Insert(Carried(lib, root, v, mode, done),
                      VersionRow(Copy(lib, root, v, ns), StateFor(mode))).table
  {
    var later := Insert(Carried(lib, root, v, mode, done),
                        VersionRow(Copy(lib, root, v, ns), StateFor(mode))).table;
    var next := Carried(lib, root, v, mode, done + {ns}).table;
    assert next.Keys == later.Keys;
    forall other | other in next ensures next[other] == later[other] {
      if other != ns {
        assert other in done + {ns} <==> other in done;
      }
    }
  }

  lemma SelectionsExtend(lib: Lib, root: Namespace, v: int, mode: PropagationMode,
                         done: set<Namespace>, ns: Namespace)
    requires Moves(lib, root, v, ns) && ns !in done && (ns, Production) in lib.selected
    ensures var now := Carried(lib, root, v, mode, done).selected;
            Carried(lib, root, v, mode, done + {ns}).selected
            == if mode == ApproveAll then now[(ns, Production) := (ns, NextLocal(lib, ns))] else now
  {
    var now := Carried(lib, root, v, mode, done).selected;
    var later := if mode == ApproveAll then now[(ns, Production) := (ns, NextLocal(lib, ns))]
                 else now;
    var next := Carried(lib, root, v, mode, done + {ns}).selected;
    assert next.Keys == later.Keys;
    forall key | key in next ensures next[key] == later[key] {
      if key.0 != ns {
        assert key.0 in done + {ns} <==> key.0 in done;
      }
    }
  }

  lemma SelectsCopy(digest: LocalDigest, lib: Lib, root: Namespace, v: int,
                    mode: PropagationMode, done: set<Namespace>, ns: Namespace)
    requires LibOk(digest, lib) && mode == ApproveAll
    requires Moves(lib, root, v, ns) && ns !in done
    ensures var now := Carried(lib, root, v, mode, done);
            var later := Insert(now, VersionRow(Copy(lib, root, v, ns), StateFor(mode)));
            Select(later, ns, (ns, NextLocal(lib, ns)), Production)
            == (later.(selected := later.selected[(ns, Production) := (ns, NextLocal(lib, ns))]),
                Ok(()))
  {
    CarriedGets(digest, lib, root, v, mode, done + {ns}, ns, NextLocal(lib, ns));
    CarriedExtends(lib, root, v, mode, done, ns);
  }

  /** One planned step, taken when those above it have been, does what was
      predicted: that version number, that pin, the same definition. */
  lemma StepCarries(digest: LocalDigest, lib: Lib, root: Namespace, v: int,
                    mode: PropagationMode, done: set<Namespace>, produced: map<Namespace, int>,
                    ns: Namespace)
    requires LibOk(digest, lib) && GetVersion(lib, root, v).Some?
    requires Moves(lib, root, v, ns) && ns !in done
    requires Moves(lib, root, v, Parent(ns)) ==> Parent(ns) in done
    requires PinOf(produced, StepFor(lib, root, v, ns))
             == Target(lib, root, v, Parent(ns)).value
    ensures ApplyStep(digest, Carried(lib, root, v, mode, done), mode, produced,
                      StepFor(lib, root, v, ns))
            == Ok((Carried(lib, root, v, mode, done + {ns}), NextLocal(lib, ns)))
  {
    var id := lib.selected[(ns, Production)];
    GotNode(digest, lib, ns, id.1);
    CarriedGets(digest, lib, root, v, mode, done, ns, id.1);
    CopyIsCreated(digest, lib, root, v, mode, done, ns);
    CarriedExtends(lib, root, v, mode, done, ns);
    if mode == ApproveAll {
      SelectsCopy(digest, lib, root, v, mode, done, ns);
    }
  }

  lemma ProducedGrows(digest: LocalDigest, lib: Lib, root: Namespace, v: int,
                      done: set<Namespace>, produced: map<Namespace, int>, ns: Namespace)
    requires ProducedOk(lib, root, v, done, produced) && Moves(lib, root, v, ns)
    ensures PinOf(produced, StepFor(lib, root, v, ns)) == Target(lib, root, v, Parent(ns)).value
    ensures ProducedOk(lib, root, v, done + {ns}, produced[ns := NextLocal(lib, ns)])
  {
    assert Target(lib, root, v, ns) == Some(NextLocal(lib, ns));
  }

  function Names(steps: seq<RebaseStep>): set<Namespace> {
    set s | s in steps :: s.ns
  }

  lemma {:induction false} StepsCarry(digest: LocalDigest, lib: Lib, root: Namespace, v: int,
                                      mode: PropagationMode, steps: seq<RebaseStep>, k: nat)
    requires LibOk(digest, lib) && GetVersion(lib, root, v).Some?
    requires k <= |steps|
    requires forall j {:trigger InOrder(lib, root, v, steps, j)} ::
               0 <= j < |steps| ==> InOrder(lib, root, v, steps, j)
    ensures var r := ApplySteps(digest, lib, mode, map[root := v], steps[..k]);
            r.Ok? && r.value.0 == Carried(lib, root, v, mode, Names(steps[..k]))
            && ProducedOk(lib, root, v, Names(steps[..k]), r.value.1)
  {
    if k == 0 {
      NothingCarried(lib, root, v, mode);
      assert steps[..0] == [] && Names([]) == {};
    } else {
      var done, ns := Names(steps[..k-1]), steps[k-1].ns;
      StepsCarry(digest, lib, root, v, mode, steps, k - 1);
      assert InOrder(lib, root, v, steps, k - 1);
      var produced := ApplySteps(digest, lib, mode, map[root := v], steps[..k-1]).value.1;
      ProducedGrows(digest, lib, root, v, done, produced, ns);
      StepCarries(digest, lib, root, v, mode, done, produced, ns);
      LastStep(digest, lib, mode, map[root := v], steps, k);
    }
  }

  lemma LastStep(digest: LocalDigest, lib: Lib, mode: PropagationMode,
                 produced: map<Namespace, int>, steps: seq<RebaseStep>, k: nat)
    requires 0 < k <= |steps|
    ensures var before := ApplySteps(digest, lib, mode, produced, steps[..k-1]);
            before.Ok? ==>
              var r := ApplyStep(digest, before.value.0, mode, before.value.1, steps[k-1]);
              r.Ok? ==> ApplySteps(digest, lib, mode, produced, steps[..k])
                        == Ok((r.value.0, before.value.1[steps[k-1].ns := r.value.1]))
    ensures Names(steps[..k]) == Names(steps[..k-1]) + {steps[k-1].ns}
  {
    assert steps[..k][..k-1] == steps[..k-1];
    assert steps[..k] == steps[..k-1] + [steps[k-1]];
  }

  lemma NothingCarried(lib: Lib, root: Namespace, v: int, mode: PropagationMode)
    ensures Carried(lib, root, v, mode, {}) == lib
  {
    assert Carried(lib, root, v, mode, {}).table == lib.table;
    assert Carried(lib, root, v, mode, {}).selected == lib.selected;
  }

  /** A step is the predicted one for its namespace, and comes after its parent's
      and not after another for the same namespace. */
  ghost predicate InOrder(lib: Lib, root: Namespace, v: int, steps: seq<RebaseStep>, k: int)
    requires 0 <= k < |steps|
  {
    var ns := steps[k].ns;
    ns !in Names(steps[..k]) && Moves(lib, root, v, ns) && steps[k] == StepFor(lib, root, v, ns)
    && (Moves(lib, root, v, Parent(ns)) ==> Parent(ns) in Names(steps[..k]))
  }

  lemma PlansAreInOrder(lib: Lib, root: Namespace, v: int, steps: seq<RebaseStep>,
                        skipped: Skips, k: nat)
    requires PlanComplete(lib, root, v, steps, skipped) && k < |steps|
    ensures InOrder(lib, root, v, steps, k)
  {
    var ns := steps[k].ns;
    assert steps[k] in steps;
    assert Ordered(steps) && DistinctSteps(steps);
    if Moves(lib, root, v, Parent(ns)) {
      assert StepFor(lib, root, v, Parent(ns)) in steps;
      ParentFirst(steps, StepFor(lib, root, v, Parent(ns)), k);
    }
  }

  lemma ParentFirst(steps: seq<RebaseStep>, above: RebaseStep, k: nat)
    requires Ordered(steps) && k < |steps| && above in steps && |above.ns| < |steps[k].ns|
    ensures above.ns in Names(steps[..k])
  {
    var j :| 0 <= j < |steps| && steps[j] == above;
    assert !StepBefore(steps[k], steps[j]);
    assert steps[..k][j] == above;
  }

  // ------------------------------------------------- the guarantees

  /** A plan applied to the library it was made on always succeeds, and the result
      is exactly the prediction: each moving namespace gains the predicted version
      with the predicted pin and its own unchanged definition, in approval mode
      that version becomes the selected one, and nothing else changes. */
  lemma PlannedCascadeComesTrue(digest: LocalDigest, lib: Lib, plan: Plan)
    requires LibOk(digest, lib) && GetVersion(lib, plan.ns, plan.version).Some?
    requires plan.mode != NoPropagation
    requires PlanComplete(lib, plan.ns, plan.version, plan.steps, plan.skipped)
    ensures ApplyPlan(digest, lib, plan)
            == (Carried(lib, plan.ns, plan.version, plan.mode, Moved(lib, plan.ns, plan.version)),
                Ok(()))
  {
    var n := |plan.steps|;
    forall k | 0 <= k < n ensures InOrder(lib, plan.ns, plan.version, plan.steps, k) {
      PlansAreInOrder(lib, plan.ns, plan.version, plan.steps, plan.skipped, k);
    }
    StepsCarry(digest, lib, plan.ns, plan.version, plan.mode, plan.steps, n);
    assert plan.steps[..n] == plan.steps;
    forall ns ensures ns in Names(plan.steps) <==> ns in Moved(lib, plan.ns, plan.version) {
      if ns in Moved(lib, plan.ns, plan.version) {
        assert StepFor(lib, plan.ns, plan.version, ns) in plan.steps;
      }
    }
    assert Names(plan.steps) == Moved(lib, plan.ns, plan.version);
    if plan.steps == [] {
      NothingCarried(lib, plan.ns, plan.version, plan.mode);
    }
  }

  function After(lib: Lib, root: Namespace, v: int, mode: PropagationMode): Lib {
    Carried(lib, root, v, mode, Moved(lib, root, v))
  }

  /** Read back row by row: the new version is the old definition, digest for
      digest, under the predicted number and pin. */
  lemma RebaseKeepsDefinition(digest: LocalDigest, lib: Lib, root: Namespace, v: int,
                              mode: PropagationMode, ns: Namespace)
    requires LibOk(digest, lib) && Moves(lib, root, v, ns)
    ensures var step := StepFor(lib, root, v, ns);
            var was := GetVersion(lib, ns, step.fromVersion);
            var now := GetVersion(After(lib, root, v, mode), ns, step.newVersion);
            was.Some? && now.Some?
            && now.value.node.def == was.value.node.def
            && now.value.node.digest == was.value.node.digest == step.digest
            && now.value.node.local == step.newVersion
            && now.value.node.parent == Some((step.newParent, step.newParentVersion))
            && GetVersion(lib, ns, step.newVersion).None?
  {
    var id := lib.selected[(ns, Production)];
    GotNode(digest, lib, ns, id.1);
    CarriedGets(digest, lib, root, v, mode, Moved(lib, root, v), ns, NextLocal(lib, ns));
    CarriedGets(digest, lib, root, v, mode, Moved(lib, root, v), ns, id.1);
    GetIs(digest, lib, ns, NextLocal(lib, ns));
    assert ns in Moved(lib, root, v);
  }

  /** Queueing moves nobody's selection; neither does asking for nothing. */
  lemma OnlyApprovalMovesSelections(digest: LocalDigest, lib: Lib, plan: Plan)
    requires plan.mode != ApproveAll
    ensures ApplyPlan(digest, lib, plan).0.selected == lib.selected
    ensures plan.mode == NoPropagation ==> ApplyPlan(digest, lib, plan).0 == lib
  {
    if plan.mode != NoPropagation {
      QueueingSelectsNothing(digest, lib, plan.mode, map[plan.ns := plan.version], plan.steps);
    }
  }

  lemma {:induction false} QueueingSelectsNothing(digest: LocalDigest, lib: Lib,
                                                  mode: PropagationMode,
                                                  produced: map<Namespace, int>,
                                                  steps: seq<RebaseStep>)
    requires mode == QueueCandidates
    ensures var r := ApplySteps(digest, lib, mode, produced, steps);
            r.Ok? ==> r.value.0.selected == lib.selected
  {
    if steps != [] {
      QueueingSelectsNothing(digest, lib, mode, produced, steps[..|steps|-1]);
    }
  }

  /** After an approved cascade the selected version of every reached namespace
      is its target. */
  lemma SelectedIsTarget(digest: LocalDigest, lib: Lib, root: Namespace, v: int, ns: Namespace)
    requires LibOk(digest, lib)
    requires ns != root && Target(lib, root, v, ns).Some?
    ensures Visited(lib, root, v, ns)
    ensures var now := Selected(After(lib, root, v, ApproveAll), ns, Production);
            now.Some? && now.value.node.local == Target(lib, root, v, ns).value
            && now.value.node.parent
               == Some((Parent(ns), Target(lib, root, v, Parent(ns)).value))
  {
    StoredChildren(lib, root, v, ns);
    var id := lib.selected[(ns, Production)];
    GotNode(digest, lib, ns, id.1);
    var done := Moved(lib, root, v);
    CarriedGets(digest, lib, root, v, ApproveAll, done, ns, NextLocal(lib, ns));
    CarriedGets(digest, lib, root, v, ApproveAll, done, ns, id.1);
    assert Moves(lib, root, v, ns) ==> ns in done;
  }

  /** Every namespace strictly between the root and `ns`, and `ns`, has a
      selected production version. */
  ghost predicate PathSelected(lib: Lib, root: Namespace, ns: Namespace)
    decreases |ns|
  {
    ns == root
    || (|ns| > |root| && (ns, Production) in lib.selected && PathSelected(lib, root, Parent(ns)))
  }

  lemma {:induction false} SelectedPathIsReached(lib: Lib, root: Namespace, v: int, ns: Namespace)
    requires SelectionsOk(lib)
    ensures PathSelected(lib, root, ns) <==> Target(lib, root, v, ns).Some?
    decreases |ns|
  {
    if ns != root && |ns| > |root| {
      SelectedPathIsReached(lib, root, v, Parent(ns));
    }
  }

  /** The library after an approved cascade is still a good one. */
  lemma AfterIsGood(digest: LocalDigest, lib: Lib, root: Namespace, v: int)
    requires LibOk(digest, lib) && GetVersion(lib, root, v).Some?
    ensures LibOk(digest, After(lib, root, v, ApproveAll))
  {
    var later := After(lib, root, v, ApproveAll);
    AfterGrows(digest, lib, root, v);
    forall ns | ns in later.table ensures NamespaceOk(digest, later, ns) {
      AfterNamespaceOk(digest, lib, root, v, ns);
    }
    forall key | key in later.selected
      ensures later.selected[key].0 == key.0
              && GetVersion(later, later.selected[key].0, later.selected[key].1).Some?
    {
      AfterSelects(digest, lib, root, v, key);
    }
  }

  lemma AfterSelects(digest: LocalDigest, lib: Lib, root: Namespace, v: int,
                     key: (Namespace, Purpose))
    requires LibOk(digest, lib) && key in lib.selected
    ensures var later := After(lib, root, v, ApproveAll);
            later.selected[key].0 == key.0
            && GetVersion(later, later.selected[key].0, later.selected[key].1).Some?
  {
    CarriedGets(digest, lib, root, v, ApproveAll, Moved(lib, root, v), key.0,
                After(lib, root, v, ApproveAll).selected[key].1);
  }

  lemma AfterGrows(digest: LocalDigest, lib: Lib, root: Namespace, v: int)
    requires LibOk(digest, lib)
    ensures Grows(lib, After(lib, root, v, ApproveAll))
    ensures NumberedAll(After(lib, root, v, ApproveAll))
  {
    var later := After(lib, root, v, ApproveAll);
    TableIsNumbered(digest, lib);
    forall ns ensures Numbered(Rows(later, ns), 1) {
      assert Numbered(Rows(lib, ns), 1);
      MaxNumbered(Rows(lib, ns));
    }
  }

  lemma AfterNamespaceOk(digest: LocalDigest, lib: Lib, root: Namespace, v: int, ns: Namespace)
    requires LibOk(digest, lib) && GetVersion(lib, root, v).Some?
    requires ns in lib.table && NumberedAll(After(lib, root, v, ApproveAll))
    requires Grows(lib, After(lib, root, v, ApproveAll))
    ensures NamespaceOk(digest, After(lib, root, v, ApproveAll), ns)
  {
    var later := After(lib, root, v, ApproveAll);
    assert NamespaceOk(digest, lib, ns);
    forall k | 0 <= k < |Rows(later, ns)|
      ensures NodeOk(digest, later, ns, Rows(later, ns)[k].node)
    {
      if k < |Rows(lib, ns)| {
        assert NodeOk(digest, lib, ns, Rows(lib, ns)[k].node);
        if |ns| > 1 {
          var p := Rows(lib, ns)[k].node.parent.value;
          GrowsKeepsVersions(digest, lib, later, p.0, p.1);
        }
      } else {
        var id := lib.selected[(ns, Production)];
        GotNode(digest, lib, ns, id.1);
        TargetIsBelow(lib, root, v, Parent(ns));
        GotNode(digest, lib, root, v);
        PinExists(digest, lib, root, v, ApproveAll, Moved(lib, root, v), ns);
      }
    }
  }

  /** The lineage of `ns`@`t` passes through `root`@`v`. */
  ghost predicate PassesThrough(digest: LocalDigest, lib: Lib, ns: Namespace, t: int,
                                root: Namespace, v: int)
    requires TableOk(digest, lib)
  {
    GetVersion(lib, ns, t).Some? && |ns| >= |root|
    && var chain := Ancestors(digest, lib, ns, t);
       |ns| - |root| < |chain| && chain[|ns|-|root|].ns == root && chain[|ns|-|root|].local == v
  }

  /** An approved cascade carries the whole subtree: every descendant whose path
      below the root is fully selected then has the carried version of the root in
      its selected version's pinned chain. */
  lemma CascadeCarriesSubtree(digest: LocalDigest, lib: Lib, root: Namespace, v: int,
                              ns: Namespace)
    requires LibOk(digest, lib) && GetVersion(lib, root, v).Some?
    requires PathSelected(lib, root, ns) && ns != root
    ensures var later := After(lib, root, v, ApproveAll);
            LibOk(digest, later)
            && var chosen := Selected(later, ns, Production);
               chosen.Some? && PassesThrough(digest, later, ns, chosen.value.node.local, root, v)
  {
    AfterIsGood(digest, lib, root, v);
    SelectedPathIsReached(lib, root, v, ns);
    TargetPassesThrough(digest, lib, root, v, ns);
    SelectedIsTarget(digest, lib, root, v, ns);
  }

  lemma {:induction false} TargetPassesThrough(digest: LocalDigest, lib: Lib, root: Namespace,
                                               v: int, ns: Namespace)
    requires LibOk(digest, lib) && GetVersion(lib, root, v).Some?
    requires Target(lib, root, v, ns).Some?
    requires LibOk(digest, After(lib, root, v, ApproveAll))
    ensures PassesThrough(digest, After(lib, root, v, ApproveAll), ns,
                          Target(lib, root, v, ns).value, root, v)
    decreases |ns|
  {
    var later := After(lib, root, v, ApproveAll);
    var t := Target(lib, root, v, ns).value;
    if ns == root {
      AfterGrows(digest, lib, root, v);
      GrowsKeepsVersions(digest, lib, later, root, v);
      AncestorsShape(digest, later, root, v);
      assert root[..|root|] == root;
    } else {
      TargetPassesThrough(digest, lib, root, v, Parent(ns));
      SelectedIsTarget(digest, lib, root, v, ns);
      TargetStored(digest, lib, root, v, ns);
      PassesUp(digest, later, ns, t, root, v);
    }
  }

  lemma TargetStored(digest: LocalDigest, lib: Lib, root: Namespace, v: int, ns: Namespace)
    requires LibOk(digest, lib) && ns != root && Target(lib, root, v, ns).Some?
    requires LibOk(digest, After(lib, root, v, ApproveAll))
    ensures var later := After(lib, root, v, ApproveAll);
            Selected(later, ns, Production)
            == GetVersion(later, ns, Target(lib, root, v, ns).value)
  {
    var later := After(lib, root, v, ApproveAll);
    SelectedIsTarget(digest, lib, root, v, ns);
    var id := later.selected[(ns, Production)];
    GotNode(digest, later, ns, id.1);
  }

  lemma PassesUp(digest: LocalDigest, lib: Lib, ns: Namespace, t: int, root: Namespace, v: int)
    requires TableOk(digest, lib) && GetVersion(lib, ns, t).Some?
    requires |ns| > |root| >= 0
    requires var p := GetVersion(lib, ns, t).value.node.parent;
             p.Some? && p.value.0 == Parent(ns)
             && PassesThrough(digest, lib, Parent(ns), p.value.1, root, v)
    ensures PassesThrough(digest, lib, ns, t, root, v)
  {
    AncestorsUp(digest, lib, ns, t);
    GotNode(digest, lib, ns, t);
    var p := GetVersion(lib, ns, t).value.node.parent.value.1;
    var chain := Ancestors(digest, lib, ns, t);
    assert |ns| > 1;
    assert chain[|ns|-|root|] == chain[1..][|Parent(ns)|-|root|];
  }

  lemma AncestorsUp(digest: LocalDigest, lib: Lib, ns: Namespace, v: int)
    requires TableOk(digest, lib) && GetVersion(lib, ns, v).Some?
    ensures |Ancestors(digest, lib, ns, v)| == |ns|
    ensures |ns| > 1 ==>
              var p := GetVersion(lib, ns, v).value.node.parent;
              p.Some? && p.value.0 == Parent(ns) && GetVersion(lib, Parent(ns), p.value.1).Some?
              && Ancestors(digest, lib, ns, v)[1..] == Ancestors(digest, lib, Parent(ns), p.value.1)
  {
    AncestorsShape(digest, lib, ns, v);
    GotNode(digest, lib, ns, v);
  }

  /** Planning again after an approved cascade finds nothing left to move. */
  lemma {:induction false} TargetsSettle(digest: LocalDigest, lib: Lib, root: Namespace, v: int,
                                         ns: Namespace)
    requires LibOk(digest, lib)
    requires LibOk(digest, After(lib, root, v, ApproveAll))
    ensures Target(After(lib, root, v, ApproveAll), root, v, ns) == Target(lib, root, v, ns)
    ensures !Moves(After(lib, root, v, ApproveAll), root, v, ns)
    decreases |ns|
  {
    var later := After(lib, root, v, ApproveAll);
    if ns != root && |ns| > |root| {
      TargetsSettle(digest, lib, root, v, Parent(ns));
      if Target(lib, root, v, ns).Some? {
        SelectedIsTarget(digest, lib, root, v, ns);
      } else if Target(lib, root, v, Parent(ns)).Some? {
        assert (ns, Production) !in lib.selected;
      }
    }
  }

  lemma ReplanningIsEmpty(digest: LocalDigest, lib: Lib, root: Namespace, v: int,
                          steps: seq<RebaseStep>, skipped: Skips)
    requires LibOk(digest, lib) && GetVersion(lib, root, v).Some?
    requires PlanComplete(After(lib, root, v, ApproveAll), root, v, steps, skipped)
    ensures steps == []
  {
    AfterIsGood(digest, lib, root, v);
    if steps != [] {
      assert steps[0] in steps;
      TargetsSettle(digest, lib, root, v, steps[0].ns);
    }
  }

  /** An approved cascade, end to end: planned on a good library and applied to it,
      it succeeds; the library is good; every descendant whose path was fully
      selected now runs on a lineage through the carried version; and whatever plan
      is made next, for the same version, has no steps. */
  lemma ApprovedCascadeIsDone(digest: LocalDigest, lib: Lib, plan: Plan)
    requires LibOk(digest, lib) && GetVersion(lib, plan.ns, plan.version).Some?
    requires plan.mode == ApproveAll
    requires PlanComplete(lib, plan.ns, plan.version, plan.steps, plan.skipped)
    ensures ApplyPlan(digest, lib, plan).1 == Ok(())
    ensures LibOk(digest, ApplyPlan(digest, lib, plan).0)
    ensures var later := ApplyPlan(digest, lib, plan).0;
            forall ns :: PathSelected(lib, plan.ns, ns) && ns != plan.ns ==>
              var chosen := Selected(later, ns, Production);
              chosen.Some?
              && PassesThrough(digest, later, ns, chosen.value.node.local, plan.ns, plan.version)
    ensures var later := ApplyPlan(digest, lib, plan).0;
            forall steps, skipped :: PlanComplete(later, plan.ns, plan.version, steps, skipped) ==>
              steps == []
  {
    var later := After(lib, plan.ns, plan.version, ApproveAll);
    PlannedCascadeComesTrue(digest, lib, plan);
    AfterIsGood(digest, lib, plan.ns, plan.version);
    forall ns | PathSelected(lib, plan.ns, ns) && ns != plan.ns
      ensures Selected(later, ns, Production).Some?
      ensures PassesThrough(digest, later, ns, Selected(later, ns, Production).value.node.local,
                            plan.ns, plan.version)
    {
      CascadeCarriesSubtree(digest, lib, plan.ns, plan.version, ns);
    }
    forall steps, skipped | PlanComplete(later, plan.ns, plan.version, steps, skipped)
      ensures steps == []
    {
      ReplanningIsEmpty(digest, lib, plan.ns, plan.version, steps, skipped);
    }
  }
}
