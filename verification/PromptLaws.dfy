/**
  What each write of the prompt library stores, column by column, and what may
  happen to a stored version's state.
 */
module PromptLaws {
  import opened Outcomes
  import opened PromptModel
  import opened PromptStore
  import opened PromptLineage
  import opened Cascade
  import opened CascadeApply
  import opened PromptRuns

  // ------------------------------------------------- names

  /** A lowercase letter, then lowercase letters, digits and underscores, and perhaps
      a newline at the end; at most 48 characters in all. */
  ghost predicate NamesLevel(s: string) {
    1 <= |s| <= 48 && 'a' <= s[0] <= 'z'
    && forall k :: 0 < k < |s| ==>
         'a' <= s[k] <= 'z' || '0' <= s[k] <= '9' || s[k] == '_'
         || (s[k] == '\n' && k == |s| - 1)
  }

  lemma NamesLevelIff(s: string)
    ensures AcceptedComponent(s) <==> NamesLevel(s)
  {
    if |s| >= 2 && s[|s|-1] == '\n' && NamesLevel(s) {
      assert forall k :: 0 <= k < |s| - 1 ==> s[..|s|-1][k] == s[k];
    }
    if AcceptedComponent(s) && !PlainComponent(s) {
      assert forall k :: 0 <= k < |s| - 1 ==> s[..|s|-1][k] == s[k];
    }
  }

  /** A name is valid exactly if its dotted parts are one to eight such levels, the
      first of them "ego" or "id". */
  lemma ValidNamesIff(text: string)
    ensures ValidateNamespace(text, true).Ok?
            <==> var parts := Split(text, '.');
                 |parts| <= 8 && (parts[0] == "ego" || parts[0] == "id")
                 && forall k :: 0 <= k < |parts| ==> NamesLevel(parts[k])
  {
    var parts := Split(text, '.');
    forall k | 0 <= k < |parts| ensures AcceptedComponent(parts[k]) <==> NamesLevel(parts[k]) {
      NamesLevelIff(parts[k]);
    }
  }

  // ------------------------------------------------- placeholders

  predicate Letter(c: char) {
    'a' <= c <= 'z' || 'A' <= c <= 'Z' || c == '_'
  }

  predicate Blanks(s: string) {
    forall k :: 0 <= k < |s| ==>
      s[k] == ' ' || '\t' <= s[k] <= '\r' || '\U{1C}' <= s[k] <= '\U{1F}'
  }

  /** A letter or underscore, then letters, digits, underscores and dots. */
  predicate DottedName(s: string) {
    s != "" && Letter(s[0])
    && forall k :: 0 < k < |s| ==> Letter(s[k]) || '0' <= s[k] <= '9' || s[k] == '.'
  }

  /** Between two pairs of braces: blanks, a name, blanks. */
  ghost predicate Substitution(text: string, i: nat, a: nat, b: nat, c: nat) {
    i + 2 <= a <= b <= c && c + 2 <= |text| && text[i..i+2] == "{{" && Blanks(text[i+2..a])
    && DottedName(text[a..b]) && Blanks(text[b..c]) && text[c..c+2] == "}}"
  }

  lemma SubstitutionIs(text: string, i: nat, a: nat, b: nat, c: nat)
    ensures Substitution(text, i, a, b, c) <==> PlaceholderAt(text, i, a, b, c)
  {
    if i + 2 <= a <= b <= c && c + 2 <= |text| {
      assert text[i..i+2] == [text[i], text[i+1]] && text[c..c+2] == [text[c], text[c+1]];
      BlanksIs(text, i + 2, a);
      BlanksIs(text, b, c);
      DottedNameIs(text, a, b);
    }
  }

  lemma BlanksIs(text: string, a: nat, b: nat)
    requires a <= b <= |text|
    ensures Blanks(text[a..b]) <==> forall k :: a <= k < b ==> Space(text[k])
  {
    var s := text[a..b];
    assert forall k :: 0 <= k < |s| ==> s[k] == text[a+k];
    assert forall k :: a <= k < b ==> text[k] == s[k-a];
  }

  lemma DottedNameIs(text: string, a: nat, b: nat)
    requires a <= b <= |text|
    ensures DottedName(text[a..b])
            <==> a < b && NameStart(text[a]) && forall k :: a <= k < b ==> NameChar(text[k])
  {
    var s := text[a..b];
    assert forall k :: 0 <= k < |s| ==> s[k] == text[a+k];
    assert forall k :: a <= k < b ==> text[k] == s[k-a];
  }

  /** A text holds a placeholder exactly if it has such a piece. */
  lemma PlaceholderIff(text: string)
    ensures HasPlaceholder(text) <==> exists i, a, b, c :: Substitution(text, i, a, b, c)
  {
    forall i: nat, a: nat, b: nat, c: nat
      ensures Substitution(text, i, a, b, c) <==> PlaceholderAt(text, i, a, b, c)
    {
      SubstitutionIs(text, i, a, b, c);
    }
  }

  // ------------------------------------------------- definitions

  lemma {:induction false} TextsAre(items: seq<Raw>)
    requires AllTexts(items).Some?
    ensures |AllTexts(items).value| == |items|
    ensures forall k :: 0 <= k < |items| ==> items[k] == RawText(AllTexts(items).value[k])
  {
    if items != [] {
      TextsAre(items[1..]);
    }
  }

  /** An accepted variable is stored with its own value: a number as that number,
      a whole one as that integer, texts one for one. */
  lemma AcceptedKeepsValue(name: string, raw: Raw)
    requires Normalise(name, raw).Some?
    ensures match Normalise(name, raw).value
            case Whole(i) => raw == RawInt(i) || raw == RawFloat(Finite(i as real))
            case Number(f) =>
              raw == RawFloat(f) || (raw.RawInt? && f == Finite(raw.i as real))
            case Texts(texts) =>
              raw.RawList? && |texts| == |raw.items| <= 8
              && forall k :: 0 <= k < |texts| ==> raw.items[k] == RawText(texts[k])
  {
    if raw.RawList? {
      TextsAre(raw.items);
    }
  }

  /** The whole number `i`, written as one or as a float. */
  ghost predicate IsWhole(raw: Raw, i: int) {
    raw == RawInt(i) || raw == RawFloat(Finite(i as real))
  }

  ghost predicate WholeIn(raw: Raw, lo: int, hi: int) {
    exists i :: lo <= i <= hi && IsWhole(raw, i)
  }

  /** From 0 to `hi`, or the float that no comparison refuses. */
  ghost predicate NumberUpTo(raw: Raw, hi: int) {
    (raw.RawInt? && 0 <= raw.i <= hi) || raw == RawFloat(NaN)
    || (raw.RawFloat? && raw.f.Finite? && 0.0 <= raw.f.r <= hi as real)
  }

  /** Every variable there is, and exactly what it accepts, limits included. */
  lemma AcceptedIff(name: string, raw: Raw)
    ensures Normalise(name, raw).Some?
            <==> (name == "temperature" && NumberUpTo(raw, 2))
                 || (name == "top_p" && NumberUpTo(raw, 1))
                 || (name == "top_k" && WholeIn(raw, 0, 100_000))
                 || (name == "max_output_tokens" && WholeIn(raw, 1, 1_000_000))
                 || (name == "seed" && WholeIn(raw, 0, 0x7FFF_FFFF))
                 || (name == "stop_sequences" && raw.RawList? && |raw.items| <= 8
                     && forall k :: 0 <= k < |raw.items| ==> raw.items[k].RawText?)
  {
    WholeIff(raw);
    if raw.RawList? {
      TextsIff(raw.items);
    }
  }

  lemma WholeIff(raw: Raw)
    ensures forall i :: AsWhole(raw) == Some(i) <==> IsWhole(raw, i)
  {
    forall i ensures AsWhole(raw) == Some(i) <==> IsWhole(raw, i) {
      assert (i as real).Floor == i;
    }
  }

  lemma {:induction false} TextsIff(items: seq<Raw>)
    ensures AllTexts(items).Some? <==> forall k :: 0 <= k < |items| ==> items[k].RawText?
  {
    if items != [] {
      TextsIff(items[1..]);
      assert forall k :: 1 <= k < |items| ==> items[k] == items[1..][k-1];
    }
  }

  /** The definition a write stores is the one it was given: its mode by name, its
      text untouched, blank exactly when it inherits, and each variable by value. */
  lemma StoredAsGiven(mode: string, text: string, vars: map<string, Raw>)
    requires CheckedLocal(mode, text, vars).Ok?
    ensures var def := CheckedLocal(mode, text, vars).value;
            def.text == text
            && (mode == "inherit" <==> def.mode == Inherit)
            && (mode == "append" <==> def.mode == Append)
            && (mode == "prepend" <==> def.mode == Prepend)
            && (mode == "replace" <==> def.mode == Replace)
            && (mode == "inherit" <==> forall k :: 0 <= k < |text| ==> Space(text[k]))
            && def.vars.Keys == vars.Keys
            && forall name :: name in vars ==> Normalise(name, vars[name]) == Some(def.vars[name])
  {
  }

  // ------------------------------------------------- creating

  /** The definition passes every check. */
  predicate Passes(mode: string, text: string, vars: map<string, Raw>) {
    mode in {"inherit", "append", "prepend", "replace"}
    && (mode == "inherit" <==> Blank(text)) && !HasPlaceholder(text) && AllAccepted(vars)
  }

  /** The parent version is there to be pinned: the one asked for, or else the one
      selected for production. */
  ghost predicate ParentThere(lib: Lib, ns: Namespace, asked: Option<int>) {
    if |ns| <= 1 then asked == None
    else if asked.Some? then 1 <= asked.value <= |Rows(lib, Parent(ns))|
    else (Parent(ns), Production) in lib.selected
  }

  lemma CheckedIff(mode: string, text: string, vars: map<string, Raw>)
    ensures CheckedLocal(mode, text, vars).Ok? <==> Passes(mode, text, vars)
  {
  }

  lemma BoundIff(digest: LocalDigest, lib: Lib, ns: Namespace, asked: Option<int>)
    requires LibOk(digest, lib) && |ns| >= 1
    ensures BindParent(lib, ns, asked).Ok? <==> ParentThere(lib, ns, asked)
    ensures BindParent(lib, ns, asked).Ok? ==>
              var pin := BindParent(lib, ns, asked).value;
              if |ns| == 1 then pin == None
              else if asked.Some? then pin == Some((Parent(ns), asked.value))
              else (Parent(ns), Production) in lib.selected
                   && pin == Some((Parent(ns), lib.selected[(Parent(ns), Production)].1))
  {
    if |ns| > 1 {
      if asked.Some? {
        GetIs(digest, lib, Parent(ns), asked.value);
      }
      if (Parent(ns), Production) in lib.selected {
        GotNode(digest, lib, Parent(ns), lib.selected[(Parent(ns), Production)].1);
      }
    }
  }

  /** A stored row, column by column. */
  ghost predicate StoredRow(digest: LocalDigest, lib: Lib, ns: Namespace, asked: Option<int>,
                            def: Local, state: State, row: VersionRow)
  {
    row.node.ns == ns && row.node.local == |Rows(lib, ns)| + 1 && row.state == state
    && row.node.def == def && row.node.digest == digest(def)
    && (|ns| <= 1 ==> row.node.parent == None)
    && (|ns| > 1 && asked.Some? ==> row.node.parent == Some((Parent(ns), asked.value)))
    && (|ns| > 1 && asked.None? ==>
          (Parent(ns), Production) in lib.selected
          && row.node.parent == Some((Parent(ns), lib.selected[(Parent(ns), Production)].1)))
  }

  /** Nothing changes but one row added at the end of a namespace. */
  ghost predicate AddsRow(lib: Lib, later: Lib, ns: Namespace, row: VersionRow) {
    later.selected == lib.selected
    && later.table == lib.table[ns := Rows(lib, ns) + [row]]
  }

  lemma NamesAccepted(name: string)
    ensures ValidateNamespace(name, true)
            == if ValidNamespace(Split(name, '.')) then Ok(Split(name, '.')) else Err(BadNamespace)
  {
  }

  /** One outcome of a write: a refusal that changes nothing, or one row. */
  ghost predicate Wrote(digest: LocalDigest, lib: Lib, ns: Namespace, mode: string, text: string,
                        vars: map<string, Raw>, asked: Option<int>, state: State, later: Lib,
                        r: Result<Node, PromptError>)
  {
    if r.Err? then later == lib
    else
      CheckedLocal(mode, text, vars).Ok?
      && StoredRow(digest, lib, ns, asked, CheckedLocal(mode, text, vars).value, state,
                   VersionRow(r.value, state))
      && AddsRow(lib, later, ns, VersionRow(r.value, state))
  }

  lemma WriteStores(digest: LocalDigest, lib: Lib, ns: Namespace, mode: string, text: string,
                    vars: map<string, Raw>, asked: Option<int>, state: State)
    requires LibOk(digest, lib) && |ns| >= 1
    ensures var (later, r) := WriteVersion(digest, lib, ns, mode, text, vars, asked, state);
            (r.Ok? <==> Passes(mode, text, vars) && ParentThere(lib, ns, asked))
            && Wrote(digest, lib, ns, mode, text, vars, asked, state, later, r)
  {
    CheckedIff(mode, text, vars);
    BoundIff(digest, lib, ns, asked);
    GetIs(digest, lib, ns, 0);
  }

  /** Creating succeeds exactly if the name is valid, a root exists already, the
      definition passes and the parent version is there; then one row is added, with
      the next number, in the state asked for, pinning the version asked for or, if
      none was, the parent's production selection. Otherwise nothing changes. */
  lemma CreateStores(digest: LocalDigest, lib: Lib, name: string, mode: string, text: string,
                     vars: map<string, Raw>, asked: Option<int>, state: State)
    requires LibOk(digest, lib)
    ensures var (later, r) := CreateVersion(digest, lib, name, mode, text, vars, asked, state);
            var ns := Split(name, '.');
            (r.Ok? <==> ValidNamespace(ns) && (|ns| == 1 ==> Rows(lib, ns) != [])
                        && Passes(mode, text, vars) && ParentThere(lib, ns, asked))
            && Wrote(digest, lib, ns, mode, text, vars, asked, state, later, r)
  {
    var ns := Split(name, '.');
    NamesAccepted(name);
    if |ns| >= 1 {
      WriteStores(digest, lib, ns, mode, text, vars, asked, state);
    }
  }

  /** A root is established exactly if it is a valid root with no version yet. */
  lemma EstablishStores(digest: LocalDigest, lib: Lib, name: string, mode: string, text: string,
                        vars: map<string, Raw>, state: State)
    requires LibOk(digest, lib)
    ensures var (later, r) := EstablishRoot(digest, lib, name, mode, text, vars, state);
            var ns := Split(name, '.');
            (r.Ok? <==> ValidNamespace(ns) && |ns| == 1 && Rows(lib, ns) == []
                        && Passes(mode, text, vars))
            && Wrote(digest, lib, ns, mode, text, vars, None, state, later, r)
  {
    var ns := Split(name, '.');
    NamesAccepted(name);
    if |ns| >= 1 {
      WriteStores(digest, lib, ns, mode, text, vars, None, state);
    }
  }

  /** As lineage: a version created with no parent named continues the chain of the
      version its parent runs in production at that moment, and keeps doing so. */
  lemma CreateContinuesSelected(digest: LocalDigest, lib: Lib, name: string, mode: string,
                                text: string, vars: map<string, Raw>, state: State,
                                after: seq<LibOp>)
    requires LibOk(digest, lib)
    requires CreateVersion(digest, lib, name, mode, text, vars, None, state).1.Ok?
    requires |Split(name, '.')| > 1
    ensures var (made, r) := CreateVersion(digest, lib, name, mode, text, vars, None, state);
            var later := RunOps(digest, made, after);
            var parent := Parent(Split(name, '.'));
            var chosen := Selected(lib, parent, Production);
            chosen.Some? && PinnedChain(lib, parent, chosen.value.node.local).Ok?
            && PinnedChain(later, r.value.ns, r.value.local)
               == Ok([r.value] + PinnedChain(lib, parent, chosen.value.node.local).value)
  {
    var (made, r) := CreateVersion(digest, lib, name, mode, text, vars, None, state);
    var later := RunOps(digest, made, after);
    var ns := Split(name, '.');
    CreateStores(digest, lib, name, mode, text, vars, None, state);
    CreateKeepsLib(digest, lib, name, mode, text, vars, None, state);
    RunKeepsLib(digest, made, after);
    var v := lib.selected[(Parent(ns), Production)].1;
    GotNode(digest, lib, Parent(ns), v);
    GetIs(digest, made, ns, r.value.local);
    AncestorsStay(digest, lib, made, Parent(ns), v);
    AncestorsStay(digest, made, later, ns, r.value.local);
    PinnedChainIsTotal(digest, lib, Parent(ns), v);
    PinnedChainIsTotal(digest, later, ns, r.value.local);
  }

  // ------------------------------------------------- selecting

  /** Selecting succeeds exactly for an approved version of that very namespace, and
      moves that one selection: neither the other purpose nor any other namespace
      runs anything else, and no row changes. */
  lemma SelectMovesOne(digest: LocalDigest, lib: Lib, ns: Namespace, id: VersionId,
                       purpose: Purpose, other: Namespace, otherPurpose: Purpose)
    requires LibOk(digest, lib)
    ensures var (later, r) := Select(lib, ns, id, purpose);
            (r.Ok? <==> id.0 == ns && 1 <= id.1 <= |Rows(lib, ns)|
                        && (Rows(lib, ns)[id.1-1].state == ProductionApproved
                            || Rows(lib, ns)[id.1-1].state == ExperimentalApproved))
            && (r.Err? ==> later == lib) && later.table == lib.table
            && (r.Ok? ==> Selected(later, ns, purpose) == Some(Rows(lib, ns)[id.1-1]))
            && ((other, otherPurpose) != (ns, purpose) ==>
                  Selected(later, other, otherPurpose) == Selected(lib, other, otherPurpose))
  {
    GetIs(digest, lib, id.0, id.1);
    assert Select(lib, ns, id, purpose).0.table == lib.table;
  }

  // ------------------------------------------------- deciding

  /** Every decision there is. */
  const DECISIONS := {
    (Candidate, Validated), (Candidate, Rejected),
    (Validated, Evaluated), (Validated, Proposed), (Validated, Rejected),
    (Evaluated, Proposed), (Evaluated, Rejected),
    (Proposed, ProductionApproved), (Proposed, ExperimentalApproved), (Proposed, Rejected),
    (ProductionApproved, Retired), (ProductionApproved, Rejected),
    (ExperimentalApproved, ProductionApproved), (ExperimentalApproved, Retired),
    (ExperimentalApproved, Rejected)}

  ghost function StateOf(lib: Lib, id: VersionId): Option<State> {
    var row := GetVersion(lib, id.0, id.1);
    if row.Some? then Some(row.value.state) else None
  }

  /** A decision succeeds exactly along one of these, and changes the state of that
      one version. */
  lemma DecideChangesOne(lib: Lib, id: VersionId, state: State, other: VersionId)
    ensures var (later, r) := SetState(lib, id, state);
            (r.Ok? <==> StateOf(lib, id).Some? && (StateOf(lib, id).value, state) in DECISIONS)
            && (r.Err? ==> later == lib) && later.selected == lib.selected
            && StateOf(later, other) == (if r.Ok? && other == id then Some(state)
                                         else StateOf(lib, other))
  {
    var (later, r) := SetState(lib, id, state);
    FindWithState(Rows(lib, id.0), id.1, state, other.1);
  }

  // ------------------------------------------------- cascades

  /** A copy of `source` under the next number of its namespace. */
  ghost predicate CopiedRow(lib: Lib, source: VersionRow, pin: VersionId, state: State,
                            row: VersionRow)
  {
    row.node.ns == source.node.ns && row.node.local == |Rows(lib, source.node.ns)| + 1
    && row.node.def == source.node.def && row.node.digest == source.node.digest
    && row.node.parent == Some(pin) && row.state == state
  }

  /** What one step of any plan adds: a copy of the named version's definition, on
      the version of the parent that this run has produced, or failing that the one
      the step names; a candidate when queueing, approved when approving. Only
      approving selects it. */
  lemma StepAdds(digest: LocalDigest, lib: Lib, mode: PropagationMode,
                 produced: map<Namespace, int>, step: RebaseStep) returns (row: VersionRow)
    requires LibOk(digest, lib) && ApplyStep(digest, lib, mode, produced, step).Ok?
    ensures var (later, v) := ApplyStep(digest, lib, mode, produced, step).value;
            var source := GetVersion(lib, step.ns, step.fromVersion);
            var parentVersion := if step.newParent in produced then produced[step.newParent]
                                 else step.newParentVersion;
            source.Some? && |step.ns| > 1 && v == row.node.local && row.node.ns == step.ns
            && CopiedRow(lib, source.value, (Parent(step.ns), parentVersion),
                         if mode == ApproveAll then ProductionApproved else Candidate, row)
            && later.table == lib.table[step.ns := Rows(lib, step.ns) + [row]]
            && later.selected
               == if mode == ApproveAll then lib.selected[(step.ns, Production) := (step.ns, v)]
                  else lib.selected
  {
    var source := GetVersion(lib, step.ns, step.fromVersion).value;
    var def := source.node.def;
    var pin := if step.newParent in produced then produced[step.newParent]
               else step.newParentVersion;
    GotNode(digest, lib, step.ns, step.fromVersion);
    NamespaceRoundTrip(step.ns);
    NamesAccepted(Text(step.ns));
    StoredPassesAgain(def);
    WriteStores(digest, lib, step.ns, ModeName(def.mode), def.text, RawOf(def.vars), Some(pin),
                StateFor(mode));
    var r := CreateVersion(digest, lib, Text(step.ns), ModeName(def.mode), def.text,
                           RawOf(def.vars), Some(pin), StateFor(mode)).1;
    row := VersionRow(r.value, StateFor(mode));
  }

  /** Stored rows stay as they are, states included, and rows added are in `state`. */
  ghost predicate AddsInState(lib: Lib, later: Lib, state: State) {
    forall ns :: Rows(lib, ns) <= Rows(later, ns)
                 && forall k :: |Rows(lib, ns)| <= k < |Rows(later, ns)| ==>
                      Rows(later, ns)[k].state == state
  }

  /** What was produced for a namespace is its newest version. */
  ghost predicate ProducedNewest(lib: Lib, produced: map<Namespace, int>, names: set<Namespace>) {
    forall ns :: ns in names ==> ns in produced && produced[ns] == |Rows(lib, ns)|
  }

  lemma StepAddsInState(digest: LocalDigest, lib: Lib, now: Lib, mode: PropagationMode,
                        produced: map<Namespace, int>, step: RebaseStep, names: set<Namespace>)
    requires LibOk(digest, now) && ApplyStep(digest, now, mode, produced, step).Ok?
    requires AddsInState(lib, now, if mode == ApproveAll then ProductionApproved else Candidate)
    requires ProducedNewest(now, produced, names)
    ensures var (later, v) := ApplyStep(digest, now, mode, produced, step).value;
            AddsInState(lib, later, if mode == ApproveAll then ProductionApproved else Candidate)
            && ProducedNewest(later, produced[step.ns := v], names + {step.ns})
  {
    var row := StepAdds(digest, now, mode, produced, step);
    var (later, v) := ApplyStep(digest, now, mode, produced, step).value;
    RowAdded(lib, now, later, produced, names, row);
  }

  lemma RowAdded(lib: Lib, now: Lib, later: Lib, produced: map<Namespace, int>,
                 names: set<Namespace>, row: VersionRow)
    requires AddsInState(lib, now, row.state) && ProducedNewest(now, produced, names)
    requires row.node.local == |Rows(now, row.node.ns)| + 1
    requires later.table == now.table[row.node.ns := Rows(now, row.node.ns) + [row]]
    ensures AddsInState(lib, later, row.state)
    ensures ProducedNewest(later, produced[row.node.ns := row.node.local], names + {row.node.ns})
  {
    forall ns
      ensures Rows(later, ns)
              == if ns == row.node.ns then Rows(now, ns) + [row] else Rows(now, ns)
    {
    }
  }

  lemma NamesNext(steps: seq<RebaseStep>)
    requires steps != []
    ensures var n := |steps| - 1; Names(steps) == Names(steps[..n]) + {steps[n].ns}
  {
    assert steps == steps[..|steps|-1] + [steps[|steps|-1]];
  }

  lemma {:induction false} StepsAddInState(digest: LocalDigest, lib: Lib, mode: PropagationMode,
                                           produced: map<Namespace, int>, steps: seq<RebaseStep>)
    requires LibOk(digest, lib) && ApplySteps(digest, lib, mode, produced, steps).Ok?
    ensures var (later, made) := ApplySteps(digest, lib, mode, produced, steps).value;
            LibOk(digest, later)
            && AddsInState(lib, later, if mode == ApproveAll then ProductionApproved else Candidate)
            && ProducedNewest(later, made, Names(steps))
  {
    StepsKeepLib(digest, lib, mode, produced, steps);
    if steps != [] {
      var n := |steps| - 1;
      var (now, made) := ApplySteps(digest, lib, mode, produced, steps[..n]).value;
      StepsAddInState(digest, lib, mode, produced, steps[..n]);
      StepAddsInState(digest, lib, now, mode, made, steps[n], Names(steps[..n]));
      NamesNext(steps);
    }
  }

  /** Whatever plan is applied, to whatever library: the rows it adds are candidates
      if it queues and approved if it approves, and no stored row changes. */
  lemma CascadeAddsInState(digest: LocalDigest, lib: Lib, plan: Plan)
    requires LibOk(digest, lib)
    ensures var (later, r) := ApplyPlan(digest, lib, plan);
            (plan.mode == QueueCandidates ==> AddsInState(lib, later, Candidate))
            && (plan.mode == ApproveAll ==> AddsInState(lib, later, ProductionApproved))
            && (plan.mode == NoPropagation || r.Err? ==> later == lib)
  {
    if plan.mode != NoPropagation && plan.steps != [] && ApplyPlan(digest, lib, plan).1.Ok? {
      StepsAddInState(digest, lib, plan.mode, map[plan.ns := plan.version], plan.steps);
    }
  }

  // ------------------------------------------------- states over runs

  lemma AppendKeepsState(digest: LocalDigest, lib: Lib, later: Lib, id: VersionId)
    requires LibOk(digest, lib) && LibOk(digest, later) && Appends(lib, later)
    requires StateOf(lib, id).Some?
    ensures StateOf(later, id) == StateOf(lib, id)
  {
    GetIs(digest, lib, id.0, id.1);
    GetIs(digest, later, id.0, id.1);
    assert Rows(lib, id.0) <= Rows(later, id.0);
  }

  lemma CreateAppends(digest: LocalDigest, lib: Lib, op: LibOp)
    requires LibOk(digest, lib) && (op.CreateOp? || op.EstablishOp?)
    ensures Appends(lib, Do(digest, lib, op))
  {
    if op.CreateOp? {
      CreateStores(digest, lib, op.name, op.mode, op.text, op.vars, op.asked, op.state);
    } else {
      EstablishStores(digest, lib, op.name, op.mode, op.text, op.vars, op.state);
    }
  }

  /** The state of a stored version changes by a decision on that version, along one
      of the decisions there are, and by nothing else. */
  lemma StateMovesByDecision(digest: LocalDigest, lib: Lib, op: LibOp, id: VersionId)
    requires LibOk(digest, lib) && StateOf(lib, id).Some?
    ensures StateOf(Do(digest, lib, op), id)
            == if op.DecideOp? && op.id == id && (StateOf(lib, id).value, op.state) in DECISIONS
               then Some(op.state) else StateOf(lib, id)
  {
    var later := Do(digest, lib, op);
    OpKeepsLib(digest, lib, op);
    match op
    case CreateOp(_, _, _, _, _, _) =>
      CreateAppends(digest, lib, op);
      AppendKeepsState(digest, lib, later, id);
    case EstablishOp(_, _, _, _, _) =>
      CreateAppends(digest, lib, op);
      AppendKeepsState(digest, lib, later, id);
    case DecideOp(target, state) => DecideChangesOne(lib, target, state, id);
    case SelectOp(ns, target, purpose) =>
      SelectMovesOne(digest, lib, ns, target, purpose, ns, purpose);
    case CascadeOp(plan) =>
      CascadeAddsInState(digest, lib, plan);
      AppendKeepsState(digest, lib, later, id);
  }

  predicate IsApproved(state: State) {
    state == ProductionApproved || state == ExperimentalApproved
  }

  predicate Approves(op: LibOp, id: VersionId) {
    op.DecideOp? && op.id == id && IsApproved(op.state)
  }

  /** A version that is not approved stays so, and cannot be selected for any
      purpose, until a decision approves it. */
  lemma {:induction false} UnapprovedUntilDecided(digest: LocalDigest, lib: Lib, ops: seq<LibOp>,
                                                  id: VersionId, purpose: Purpose)
    requires LibOk(digest, lib) && StateOf(lib, id).Some? && !IsApproved(StateOf(lib, id).value)
    requires forall op :: op in ops ==> !Approves(op, id)
    ensures var later := RunOps(digest, lib, ops);
            StateOf(later, id).Some? && !IsApproved(StateOf(later, id).value)
            && Select(later, id.0, id, purpose) == (later, Err(NotApproved))
  {
    if ops != [] {
      var before, op := ops[..|ops|-1], ops[|ops|-1];
      assert op in ops;
      UnapprovedUntilDecided(digest, lib, before, id, purpose);
      RunKeepsLib(digest, lib, before);
      StateMovesByDecision(digest, RunOps(digest, lib, before), op, id);
    }
  }

  /** What a queued cascade offers is not in force: whatever runs afterwards, none of
      the versions it added can be selected until a decision approves it. */
  lemma QueuedNeedsDecision(digest: LocalDigest, lib: Lib, plan: Plan, ops: seq<LibOp>,
                            id: VersionId, purpose: Purpose)
    requires LibOk(digest, lib) && plan.mode == QueueCandidates
    requires GetVersion(lib, id.0, id.1).None?
    requires GetVersion(ApplyPlan(digest, lib, plan).0, id.0, id.1).Some?
    requires forall op :: op in ops ==> !Approves(op, id)
    ensures var later := RunOps(digest, ApplyPlan(digest, lib, plan).0, ops);
            Select(later, id.0, id, purpose) == (later, Err(NotApproved))
  {
    var now := ApplyPlan(digest, lib, plan).0;
    CascadeAddsInState(digest, lib, plan);
    OpKeepsLib(digest, lib, CascadeOp(plan));
    GetIs(digest, lib, id.0, id.1);
    GetIs(digest, now, id.0, id.1);
    assert Rows(lib, id.0) <= Rows(now, id.0);
    UnapprovedUntilDecided(digest, now, ops, id, purpose);
  }

  /** A version rejected or retired stays that, whatever is written. */
  lemma {:induction false} EndedStaysEnded(digest: LocalDigest, lib: Lib, ops: seq<LibOp>,
                                           id: VersionId)
    requires LibOk(digest, lib)
    requires StateOf(lib, id) == Some(Rejected) || StateOf(lib, id) == Some(Retired)
    ensures StateOf(RunOps(digest, lib, ops), id) == StateOf(lib, id)
  {
    if ops != [] {
      var before := ops[..|ops|-1];
      EndedStaysEnded(digest, lib, before, id);
      RunKeepsLib(digest, lib, before);
      StateMovesByDecision(digest, RunOps(digest, lib, before), ops[|ops|-1], id);
    }
  }
}
