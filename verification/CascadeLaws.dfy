/**
  A plan read off its own steps: which namespaces it lists, what each step says, in
  what order, and why the others are skipped.
 */
module CascadeLaws {
  import opened Outcomes
  import opened PromptModel
  import opened PromptStore
  import opened PromptLineage
  import opened Cascade
  import opened CascadeApply

  /** The first step for a namespace. */
  function StepOf(steps: seq<RebaseStep>, ns: Namespace): (s: Option<RebaseStep>)
    ensures s.Some? ==> s.value in steps && s.value.ns == ns
    ensures s.None? ==> forall x :: x in steps ==> x.ns != ns
  {
    if steps == [] then None
    else if steps[0].ns == ns then Some(steps[0])
    else StepOf(steps[1..], ns)
  }

  /** The version a namespace will run: the one its step creates, or else the one it
      runs now. */
  ghost function WillRun(lib: Lib, root: Namespace, v: int, steps: seq<RebaseStep>, ns: Namespace)
    : int
    requires ns == root || (ns, Production) in lib.selected
  {
    if ns == root then v
    else if StepOf(steps, ns).Some? then StepOf(steps, ns).value.newVersion
    else lib.selected[(ns, Production)].1
  }

  lemma {:induction false} WillRunIsTarget(digest: LocalDigest, lib: Lib, root: Namespace, v: int,
                                           steps: seq<RebaseStep>, skipped: Skips, ns: Namespace)
    requires LibOk(digest, lib) && PlanComplete(lib, root, v, steps, skipped)
    requires PathSelected(lib, root, ns)
    ensures Target(lib, root, v, ns) == Some(WillRun(lib, root, v, steps, ns))
  {
    SelectedPathIsReached(lib, root, v, ns);
    if ns != root {
      StoredChildren(lib, root, v, ns);
      GotNode(digest, lib, ns, lib.selected[(ns, Production)].1);
      if Moves(lib, root, v, ns) {
        assert StepFor(lib, root, v, ns) in steps;
      }
    }
  }

  /** What a step for `ns` says: rebase the version it runs, under the next number,
      onto the version its parent will run. */
  ghost predicate SaysFor(lib: Lib, ns: Namespace, above: int, step: RebaseStep) {
    |ns| >= 1 && (ns, Production) in lib.selected
    && var chosen := lib.selected[(ns, Production)].1;
       1 <= chosen <= |Rows(lib, ns)|
       && step.ns == ns && step.fromVersion == chosen && step.newVersion == |Rows(lib, ns)| + 1
       && step.newParent == Parent(ns) && step.newParentVersion == above
       && step.digest == Rows(lib, ns)[chosen-1].node.digest
  }

  /** It runs nothing, or what it runs pins `above` of its parent. */
  ghost predicate Stays(lib: Lib, ns: Namespace, above: int) {
    (ns, Production) in lib.selected ==>
      var chosen := lib.selected[(ns, Production)].1;
      |ns| >= 1 && 1 <= chosen <= |Rows(lib, ns)|
      && Rows(lib, ns)[chosen-1].node.parent == Some((Parent(ns), above))
  }

  lemma MovesIff(digest: LocalDigest, lib: Lib, root: Namespace, v: int, ns: Namespace, above: int)
    requires LibOk(digest, lib) && ns in lib.table && |ns| > |root|
    requires Target(lib, root, v, Parent(ns)) == Some(above)
    ensures Visited(lib, root, v, ns)
    ensures Moves(lib, root, v, ns) <==> !Stays(lib, ns, above)
    ensures Moves(lib, root, v, ns) ==> SaysFor(lib, ns, above, StepFor(lib, root, v, ns))
    ensures !Moves(lib, root, v, ns) ==>
              ReasonFor(lib, root, v, ns)
              == if (ns, Production) in lib.selected then AlreadyPins(above) else NothingRunning
  {
    assert NamespaceOk(digest, lib, ns);
    if (ns, Production) in lib.selected {
      GotNode(digest, lib, ns, lib.selected[(ns, Production)].1);
    }
    GetIs(digest, lib, ns, 0);
  }

  /** A complete plan, for any stored child of a namespace the cascade reaches: there
      is a step exactly if the child runs a version that does not pin what its parent
      will run, and the step says so; otherwise the child is reported skipped, as
      running nothing or as pinning that version already. */
  lemma PlanReadsOff(digest: LocalDigest, lib: Lib, root: Namespace, v: int,
                     steps: seq<RebaseStep>, skipped: Skips, ns: Namespace)
    requires LibOk(digest, lib) && PlanComplete(lib, root, v, steps, skipped)
    requires ns in lib.table && |ns| > |root| && PathSelected(lib, root, Parent(ns))
    ensures var above := WillRun(lib, root, v, steps, Parent(ns));
            (StepOf(steps, ns).Some? <==> !Stays(lib, ns, above))
            && (!Stays(lib, ns, above) ==> SaysFor(lib, ns, above, StepOf(steps, ns).value))
            && (ns in skipped <==> Stays(lib, ns, above))
            && (Stays(lib, ns, above) ==>
                  skipped[ns] == if (ns, Production) in lib.selected then AlreadyPins(above)
                                 else NothingRunning)
  {
    var above := WillRun(lib, root, v, steps, Parent(ns));
    WillRunIsTarget(digest, lib, root, v, steps, skipped, Parent(ns));
    MovesIff(digest, lib, root, v, ns, above);
    StepOfIs(lib, root, v, steps, skipped, ns);
    assert ns in VisitedSet(lib, root, v);
  }

  lemma StepOfIs(lib: Lib, root: Namespace, v: int, steps: seq<RebaseStep>, skipped: Skips,
                 ns: Namespace)
    requires PlanComplete(lib, root, v, steps, skipped)
    ensures Moves(lib, root, v, ns) <==> StepOf(steps, ns).Some?
    ensures Moves(lib, root, v, ns) ==> StepOf(steps, ns) == Some(StepFor(lib, root, v, ns))
  {
    if Moves(lib, root, v, ns) {
      assert StepFor(lib, root, v, ns) in steps;
    }
  }

  /** And a plan names nothing else. */
  lemma PlanNamesOnlyReached(digest: LocalDigest, lib: Lib, root: Namespace, v: int,
                             steps: seq<RebaseStep>, skipped: Skips, ns: Namespace)
    requires LibOk(digest, lib) && PlanComplete(lib, root, v, steps, skipped)
    requires StepOf(steps, ns).Some? || ns in skipped
    ensures ns in lib.table && |ns| > |root| && ns[..|root|] == root
    ensures PathSelected(lib, root, Parent(ns))
  {
    assert Visited(lib, root, v, ns);
    SelectedPathIsReached(lib, root, v, Parent(ns));
    TargetIsBelow(lib, root, v, Parent(ns));
    assert ns[..|root|] == Parent(ns)[..|root|];
  }

  /** `a` comes before `b` in code-point order: it is a proper prefix, or has the
      smaller character where they first differ. */
  ghost predicate EarlierName(a: string, b: string) {
    exists k :: 0 <= k <= |a| && k <= |b| && a[..k] == b[..k]
                && ((k == |a| && k < |b|) || (k < |a| && k < |b| && a[k] < b[k]))
  }

  lemma {:induction false} LexLessIs(a: string, b: string)
    requires LexLess(a, b)
    ensures EarlierName(a, b)
  {
    if a == "" {
      assert a[..0] == b[..0];
    } else if a[0] < b[0] {
      assert a[..0] == b[..0];
    } else {
      LexLessIs(a[1..], b[1..]);
      var k :| 0 <= k <= |a[1..]| && k <= |b[1..]| && a[1..][..k] == b[1..][..k]
               && ((k == |a[1..]| && k < |b[1..]|)
                   || (k < |a[1..]| && k < |b[1..]| && a[1..][k] < b[1..][k]));
      assert a[..k+1] == [a[0]] + a[1..][..k] && b[..k+1] == [b[0]] + b[1..][..k];
    }
  }

  /** Steps come level by level, and within a level in the order of their names. */
  lemma StepsInOrder(lib: Lib, root: Namespace, v: int, steps: seq<RebaseStep>, skipped: Skips,
                     i: nat, j: nat)
    requires PlanComplete(lib, root, v, steps, skipped) && i < j < |steps|
    ensures |steps[i].ns| < |steps[j].ns|
            || (|steps[i].ns| == |steps[j].ns|
                && EarlierName(Text(steps[i].ns), Text(steps[j].ns)))
  {
    assert StepBefore(steps[i], steps[j]);
    if |steps[i].ns| == |steps[j].ns| {
      LexLessIs(Text(steps[i].ns), Text(steps[j].ns));
    }
  }
}
