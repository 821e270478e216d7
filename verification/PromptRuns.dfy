/**
  Whole histories of the prompt library: what every sequence of writes keeps,
  and that a stored version means the same for ever.
 */
module PromptRuns {
  import opened Outcomes
  import opened PromptModel
  import opened PromptStore
  import opened PromptLineage
  import opened Cascade
  import opened CascadeApply
  import opened Resolver

  /** Any write a caller can ask for, with any arguments. A plan may have been
      computed on another library, or made up. */
  datatype LibOp =
    | CreateOp(name: string, mode: string, text: string, vars: map<string, Raw>,
               asked: Option<int>, state: State)
    | EstablishOp(name: string, mode: string, text: string, vars: map<string, Raw>, state: State)
    | DecideOp(id: VersionId, state: State)
    | SelectOp(ns: Namespace, id: VersionId, purpose: Purpose)
    | CascadeOp(plan: Plan)

  function Do(digest: LocalDigest, lib: Lib, op: LibOp): Lib {
    match op
    case CreateOp(name, mode, text, vars, asked, state) =>
      CreateVersion(digest, lib, name, mode, text, vars, asked, state).0
    case EstablishOp(name, mode, text, vars, state) =>
      EstablishRoot(digest, lib, name, mode, text, vars, state).0
    case DecideOp(id, state) => SetState(lib, id, state).0
    case SelectOp(ns, id, purpose) => Select(lib, ns, id, purpose).0
    case CascadeOp(plan) => ApplyPlan(digest, lib, plan).0
  }

  function RunOps(digest: LocalDigest, lib: Lib, ops: seq<LibOp>): Lib {
    if ops == [] then lib
    else Do(digest, RunOps(digest, lib, ops[..|ops|-1]), ops[|ops|-1])
  }

  // ------------------------------------------------- what every run keeps

  lemma GrowsTransitive(a: Lib, b: Lib, c: Lib)
    requires Grows(a, b) && Grows(b, c)
    ensures Grows(a, c)
  {
    forall ns ensures |Rows(a, ns)| <= |Rows(c, ns)|
    ensures forall k :: 0 <= k < |Rows(a, ns)| ==> Rows(c, ns)[k].node == Rows(a, ns)[k].node {
      assert |Rows(a, ns)| <= |Rows(b, ns)| <= |Rows(c, ns)|;
    }
  }

  lemma StepKeepsLib(digest: LocalDigest, lib: Lib, mode: PropagationMode,
                     produced: map<Namespace, int>, step: RebaseStep)
    requires LibOk(digest, lib)
    ensures var r := ApplyStep(digest, lib, mode, produced, step);
            r.Ok? ==> LibOk(digest, r.value.0) && Grows(lib, r.value.0)
  {
    var source := GetVersion(lib, step.ns, step.fromVersion);
    if source.Some? {
      var def, pin := source.value.node.def, Some(PinOf(produced, step));
      var name, m, raw := Text(step.ns), ModeName(def.mode), RawOf(def.vars);
      var (made, created) := CreateVersion(digest, lib, name, m, def.text, raw, pin, StateFor(mode));
      CreateKeepsLib(digest, lib, name, m, def.text, raw, pin, StateFor(mode));
      if created.Ok? {
        var id := (step.ns, created.value.local);
        SelectKeepsLib(digest, made, step.ns, id, Production);
        GrowsTransitive(lib, made, Select(made, step.ns, id, Production).0);
      }
    }
  }

  lemma {:induction false} StepsKeepLib(digest: LocalDigest, lib: Lib, mode: PropagationMode,
                                        produced: map<Namespace, int>, steps: seq<RebaseStep>)
    requires LibOk(digest, lib)
    ensures var r := ApplySteps(digest, lib, mode, produced, steps);
            r.Ok? ==> LibOk(digest, r.value.0) && Grows(lib, r.value.0)
  {
    if steps != [] {
      StepsKeepLib(digest, lib, mode, produced, steps[..|steps|-1]);
      var before := ApplySteps(digest, lib, mode, produced, steps[..|steps|-1]);
      if before.Ok? {
        var r := ApplyStep(digest, before.value.0, mode, before.value.1, steps[|steps|-1]);
        StepKeepsLib(digest, before.value.0, mode, before.value.1, steps[|steps|-1]);
        if r.Ok? {
          GrowsTransitive(lib, before.value.0, r.value.0);
        }
      }
    }
  }

  lemma OpKeepsLib(digest: LocalDigest, lib: Lib, op: LibOp)
    requires LibOk(digest, lib)
    ensures LibOk(digest, Do(digest, lib, op)) && Grows(lib, Do(digest, lib, op))
  {
    match op
    case CreateOp(name, mode, text, vars, asked, state) =>
      CreateKeepsLib(digest, lib, name, mode, text, vars, asked, state);
    case EstablishOp(name, mode, text, vars, state) =>
      EstablishKeepsLib(digest, lib, name, mode, text, vars, state);
    case DecideOp(id, state) => SetStateKeepsLib(digest, lib, id, state);
    case SelectOp(ns, id, purpose) => SelectKeepsLib(digest, lib, ns, id, purpose);
    case CascadeOp(plan) =>
      StepsKeepLib(digest, lib, plan.mode, map[plan.ns := plan.version], plan.steps);
  }

  lemma {:induction false} RunKeepsLib(digest: LocalDigest, lib: Lib, ops: seq<LibOp>)
    requires LibOk(digest, lib)
    ensures LibOk(digest, RunOps(digest, lib, ops)) && Grows(lib, RunOps(digest, lib, ops))
  {
    if ops != [] {
      var before := RunOps(digest, lib, ops[..|ops|-1]);
      RunKeepsLib(digest, lib, ops[..|ops|-1]);
      OpKeepsLib(digest, before, ops[|ops|-1]);
      GrowsTransitive(lib, before, RunOps(digest, lib, ops));
    }
  }

  /** Every library that any sequence of writes can produce from nothing. */
  lemma ReachableIsGood(digest: LocalDigest, ops: seq<LibOp>)
    ensures LibOk(digest, RunOps(digest, EMPTY_LIB, ops))
  {
    RunKeepsLib(digest, EMPTY_LIB, ops);
  }

  // ------------------------------------------------- resolving

  function Profile(levels: seq<Node>): Resolved {
    var n := |levels|;
    Resolved(Effective(levels, n), VarsAfter(levels, n), SourceAfter(levels, n),
             seq(n, k requires 0 <= k < n => Contributed(levels, k, Shadows(levels, n, k))))
  }

  function Resolution(lib: Lib, ns: Namespace, v: int): Result<Resolved, PromptError> {
    var chain := PinnedChain(lib, ns, v);
    if chain.Err? then Err(chain.error)
    else if chain.value == [] then Err(EmptyLineage)
    else
      var profile := Profile(Reversed(chain.value));
      if HasPlaceholder(profile.text) then Err(Placeholder) else Ok(profile)
  }

  lemma AncestorsAreDistinct(digest: LocalDigest, lib: Lib, ns: Namespace, v: int)
    requires TableOk(digest, lib) && GetVersion(lib, ns, v).Some?
    ensures DistinctLabels(Reversed(Ancestors(digest, lib, ns, v)))
  {
    AncestorsShape(digest, lib, ns, v);
    var chain := Ancestors(digest, lib, ns, v);
    var levels := Reversed(chain);
    forall i, j | 0 <= i < j < |levels| ensures LabelOf(levels[i]) != LabelOf(levels[j]) {
      assert |chain[|chain|-1-i].ns| == i + 1 && |chain[|chain|-1-j].ns| == j + 1;
    }
  }

  method ResolveVersion(store: Store, ns: Namespace, v: int)
    returns (r: Result<Resolved, PromptError>)
    requires LibOk(store.digest, store.State())
    ensures r == Resolution(store.State(), ns, v)
  {
    var chain := store.Ancestry(ns, v);
    if chain.Err? {
      return Err(chain.error);
    }
    PinnedChainIsTotal(store.digest, store.State(), ns, v);
    AncestorsAreDistinct(store.digest, store.State(), ns, v);
    r := ResolveChain(chain.value);
    if r.Ok? {
      assert r.value.contributions == Profile(Reversed(chain.value)).contributions;
    }
  }

  /** The only time-dependent way in. */
  method ResolveSelected(store: Store, ns: Namespace, purpose: Purpose)
    returns (r: Result<Resolved, PromptError>)
    requires LibOk(store.digest, store.State())
    ensures var chosen := Selected(store.State(), ns, purpose);
            if chosen.None? then r == Err(NothingSelected)
            else r == Resolution(store.State(), ns, chosen.value.node.local)
  {
    var chosen := Selected(store.State(), ns, purpose);
    if chosen.None? {
      return Err(NothingSelected);
    }
    r := ResolveVersion(store, ns, chosen.value.node.local);
  }

  /** Whatever is created, decided, selected or cascaded afterwards, a version
      stored at any point of any history keeps its ancestry, digest for digest,
      and its resolution, byte for byte. */
  lemma MeaningIsPermanent(digest: LocalDigest, before: seq<LibOp>, after: seq<LibOp>,
                           ns: Namespace, v: int)
    ensures var lib := RunOps(digest, EMPTY_LIB, before);
            var later := RunOps(digest, lib, after);
            GetVersion(lib, ns, v).Some? ==>
              GetVersion(later, ns, v).Some?
              && GetVersion(later, ns, v).value.node == GetVersion(lib, ns, v).value.node
              && PinnedChain(later, ns, v) == PinnedChain(lib, ns, v)
              && PinnedChain(lib, ns, v).Ok? && |PinnedChain(lib, ns, v).value| == |ns|
              && Resolution(later, ns, v) == Resolution(lib, ns, v)
  {
    var lib := RunOps(digest, EMPTY_LIB, before);
    var later := RunOps(digest, lib, after);
    ReachableIsGood(digest, before);
    RunKeepsLib(digest, lib, after);
    if GetVersion(lib, ns, v).Some? {
      TableIsNumbered(digest, later);
      GrowsKeepsVersions(digest, lib, later, ns, v);
      AncestorsStay(digest, lib, later, ns, v);
      AncestorsShape(digest, lib, ns, v);
      PinnedChainIsTotal(digest, lib, ns, v);
      PinnedChainIsTotal(digest, later, ns, v);
    }
  }

  // ------------------------------------------------- selected, but approved?

  ghost predicate SelectionsApproved(lib: Lib) {
    forall key :: key in lib.selected ==> ApprovedId(lib, lib.selected[key])
  }

  predicate ApprovedId(lib: Lib, id: VersionId) {
    GetVersion(lib, id.0, id.1).Some? && GetVersion(lib, id.0, id.1).value.state.Approved()
  }

  predicate IsSelected(lib: Lib, id: VersionId) {
    exists key :: key in lib.selected && lib.selected[key] == id
  }

  /** Rows are only added. */
  ghost predicate Appends(lib: Lib, later: Lib) {
    forall ns :: Rows(lib, ns) <= Rows(later, ns)
  }

  lemma AppendKeepsApproved(digest: LocalDigest, lib: Lib, later: Lib, id: VersionId)
    requires LibOk(digest, lib) && LibOk(digest, later) && Appends(lib, later)
    requires ApprovedId(lib, id)
    ensures ApprovedId(later, id)
  {
    GetIs(digest, lib, id.0, id.1);
    GetIs(digest, later, id.0, id.1);
    assert Rows(lib, id.0) <= Rows(later, id.0);
  }

  lemma {:induction false} FindWithState(rows: seq<VersionRow>, v: int, state: State, w: int)
    ensures Find(WithState(rows, v, state), w)
            == if w == v && Find(rows, w).Some?
               then Some(Find(rows, w).value.(state := state)) else Find(rows, w)
  {
    if rows != [] {
      FindWithState(rows[1..], v, state, w);
    }
  }

  lemma InsertKeepsApproved(digest: LocalDigest, lib: Lib, row: VersionRow)
    requires LibOk(digest, lib) && LibOk(digest, Insert(lib, row)) && SelectionsApproved(lib)
    ensures SelectionsApproved(Insert(lib, row))
  {
    var later := Insert(lib, row);
    forall ns ensures Rows(lib, ns) <= Rows(later, ns) {
    }
    forall key | key in later.selected ensures ApprovedId(later, later.selected[key]) {
      AppendKeepsApproved(digest, lib, later, lib.selected[key]);
    }
  }

  lemma WriteKeepsApproved(digest: LocalDigest, lib: Lib, ns: Namespace, mode: string,
                           text: string, vars: map<string, Raw>, asked: Option<int>, state: State)
    requires LibOk(digest, lib) && SelectionsApproved(lib) && ValidNamespace(ns)
    ensures SelectionsApproved(WriteVersion(digest, lib, ns, mode, text, vars, asked, state).0)
  {
    WrittenNode(digest, lib, ns, mode, text, vars, asked, state);
    WriteKeepsLib(digest, lib, ns, mode, text, vars, asked, state);
    var r := WriteVersion(digest, lib, ns, mode, text, vars, asked, state).1;
    if r.Ok? {
      InsertKeepsApproved(digest, lib, VersionRow(r.value, state));
    }
  }

  lemma StepKeepsApproved(digest: LocalDigest, lib: Lib, mode: PropagationMode,
                          produced: map<Namespace, int>, step: RebaseStep)
    requires LibOk(digest, lib) && SelectionsApproved(lib)
    ensures var r := ApplyStep(digest, lib, mode, produced, step);
            r.Ok? ==> SelectionsApproved(r.value.0)
  {
    var source := GetVersion(lib, step.ns, step.fromVersion);
    if source.Some? {
      var def, pin := source.value.node.def, Some(PinOf(produced, step));
      var name, m, raw := Text(step.ns), ModeName(def.mode), RawOf(def.vars);
      CreateKeepsApproved(digest, lib, name, m, def.text, raw, pin, StateFor(mode));
    }
  }

  lemma CreateKeepsApproved(digest: LocalDigest, lib: Lib, name: string, mode: string,
                            text: string, vars: map<string, Raw>, asked: Option<int>, state: State)
    requires LibOk(digest, lib) && SelectionsApproved(lib)
    ensures SelectionsApproved(CreateVersion(digest, lib, name, mode, text, vars, asked, state).0)
  {
    AcceptedNamespaces(name);
    if ValidateNamespace(name, true).Ok? {
      var ns := ValidateNamespace(name, true).value;
      WriteKeepsApproved(digest, lib, ns, mode, text, vars, asked, state);
    }
  }

  lemma EstablishKeepsApproved(digest: LocalDigest, lib: Lib, name: string, mode: string,
                               text: string, vars: map<string, Raw>, state: State)
    requires LibOk(digest, lib) && SelectionsApproved(lib)
    ensures SelectionsApproved(EstablishRoot(digest, lib, name, mode, text, vars, state).0)
  {
    AcceptedNamespaces(name);
    if ValidateNamespace(name, true).Ok? {
      var ns := ValidateNamespace(name, true).value;
      WriteKeepsApproved(digest, lib, ns, mode, text, vars, None, state);
    }
  }

  lemma {:induction false} StepsKeepApproved(digest: LocalDigest, lib: Lib, mode: PropagationMode,
                                             produced: map<Namespace, int>, steps: seq<RebaseStep>)
    requires LibOk(digest, lib) && SelectionsApproved(lib)
    ensures var r := ApplySteps(digest, lib, mode, produced, steps);
            r.Ok? ==> SelectionsApproved(r.value.0)
  {
    if steps != [] {
      StepsKeepApproved(digest, lib, mode, produced, steps[..|steps|-1]);
      StepsKeepLib(digest, lib, mode, produced, steps[..|steps|-1]);
      var before := ApplySteps(digest, lib, mode, produced, steps[..|steps|-1]);
      if before.Ok? {
        StepKeepsApproved(digest, before.value.0, mode, before.value.1, steps[|steps|-1]);
      }
    }
  }

  lemma DecideKeepsApprovedIff(digest: LocalDigest, lib: Lib, id: VersionId, state: State)
    requires LibOk(digest, lib) && SelectionsApproved(lib)
    ensures SelectionsApproved(SetState(lib, id, state).0)
            <==> !(IsSelected(lib, id) && (state == Retired || state == Rejected))
  {
    var later := SetState(lib, id, state).0;
    forall key | key in lib.selected
      ensures ApprovedId(later, lib.selected[key])
              <==> !(lib.selected[key] == id && (state == Retired || state == Rejected))
    {
      var other := lib.selected[key];
      assert ApprovedId(lib, other);
      FindWithState(Rows(lib, id.0), id.1, state, other.1);
    }
    if IsSelected(lib, id) {
      var key :| key in lib.selected && lib.selected[key] == id;
      assert ApprovedId(later, later.selected[key])
             <==> !(state == Retired || state == Rejected);
    }
  }

  /** "Whatever is selected is approved" is not kept by every write. It is kept by
      a write exactly when that write does not retire or reject a version that is
      selected at the time. */
  lemma SelectedStaysApprovedIff(digest: LocalDigest, lib: Lib, op: LibOp)
    requires LibOk(digest, lib) && SelectionsApproved(lib)
    ensures SelectionsApproved(Do(digest, lib, op))
            <==> !(op.DecideOp? && IsSelected(lib, op.id)
                   && (op.state == Retired || op.state == Rejected))
  {
    match op
    case CreateOp(name, mode, text, vars, asked, state) =>
      CreateKeepsApproved(digest, lib, name, mode, text, vars, asked, state);
    case EstablishOp(name, mode, text, vars, state) =>
      EstablishKeepsApproved(digest, lib, name, mode, text, vars, state);
    case DecideOp(id, state) => DecideKeepsApprovedIff(digest, lib, id, state);
    case SelectOp(ns, id, purpose) =>
    case CascadeOp(plan) =>
      StepsKeepApproved(digest, lib, plan.mode, map[plan.ns := plan.version], plan.steps);
  }
}
