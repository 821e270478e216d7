/**
  Which stored versions resolve. Every stored fragment is free of placeholders, yet
  two of them can complete one across the blank line that joins them. This says
  exactly when, for a version about to be written and for a cascade about to run.
 */
module Seams {
  import opened Outcomes
  import opened PromptModel
  import opened PromptStore
  import opened PromptLineage
  import opened Cascade
  import opened CascadeApply
  import opened Resolver
  import opened PromptRuns

  // ------------------------------------------------- the seam of two texts

  predicate AllSpace(text: string, from: nat, to: nat)
    requires to <= |text|
  {
    forall k :: from <= k < to ==> Space(text[k])
  }

  predicate NameAt(text: string, s: nat, e: nat) {
    s < e <= |text| && NameStart(text[s]) && forall k :: s <= k < e ==> NameChar(text[k])
  }

  predicate Opens(text: string, i: nat) {
    i + 2 <= |text| && text[i] == '{' && text[i+1] == '{'
  }

  predicate Closes(text: string, c: nat) {
    c + 2 <= |text| && text[c] == '}' && text[c+1] == '}'
  }

  /** Two braces and blanks to the end. */
  predicate EndsOpenAt(a: string, i: nat) {
    Opens(a, i) && AllSpace(a, i + 2, |a|)
  }

  /** Two braces, a name, and blanks to the end. */
  predicate EndsNamedAt(a: string, i: nat, s: nat, e: nat) {
    Opens(a, i) && i + 2 <= s && NameAt(a, s, e) && AllSpace(a, i + 2, s) && AllSpace(a, e, |a|)
  }

  /** From the start: blanks, a name, blanks and two closing braces. */
  predicate StartsNamedAt(b: string, s: nat, e: nat, c: nat) {
    NameAt(b, s, e) && e <= c && Closes(b, c) && AllSpace(b, 0, s) && AllSpace(b, e, c)
  }

  /** From the start: blanks and two closing braces. */
  predicate StartsClosedAt(b: string, c: nat) {
    Closes(b, c) && AllSpace(b, 0, c)
  }

  ghost predicate EndsOpen(a: string) { exists i: nat :: EndsOpenAt(a, i) }

  ghost predicate EndsNamed(a: string) {
    exists i: nat, s: nat, e: nat :: EndsNamedAt(a, i, s, e)
  }

  ghost predicate StartsNamed(b: string) {
    exists s: nat, e: nat, c: nat :: StartsNamedAt(b, s, e, c)
  }

  ghost predicate StartsClosed(b: string) { exists c: nat :: StartsClosedAt(b, c) }

  /** A tail of `a` and a head of `b` are the two parts of a placeholder: it is cut
      before its name, or after. */
  ghost predicate Seam(a: string, b: string) {
    (EndsOpen(a) && StartsNamed(b)) || (EndsNamed(a) && StartsClosed(b))
  }

  predicate InJoin(a: string, b: string, text: string) {
    |text| == |a| + 2 + |b| && text[|a|] == '\n' && text[|a|+1] == '\n'
    && (forall k :: 0 <= k < |a| ==> text[k] == a[k])
    && forall k :: 0 <= k < |b| ==> text[|a|+2+k] == b[k]
  }

  lemma JoinIs(a: string, b: string)
    requires a != "" && b != ""
    ensures InJoin(a, b, Joined(a, b))
  {
  }

  lemma Found(text: string, i: nat, s: nat, e: nat, c: nat)
    requires PlaceholderAt(text, i, s, e, c)
    ensures HasPlaceholder(text)
  {
  }

  /** A placeholder of the joined text lies in one side, or across the seam. */
  lemma WhereItLies(a: string, b: string, text: string, i: nat, s: nat, e: nat, c: nat)
    requires InJoin(a, b, text) && PlaceholderAt(text, i, s, e, c)
    ensures HasPlaceholder(a) || HasPlaceholder(b) || Seam(a, b)
  {
    var n := |a|;
    if c + 2 <= n {
      Found(a, i, s, e, c);
    } else if i >= n + 2 {
      assert PlaceholderAt(b, i - n - 2, s - n - 2, e - n - 2, c - n - 2);
      Found(b, i - n - 2, s - n - 2, e - n - 2, c - n - 2);
    } else {
      assert i + 2 <= n && c >= n + 2;
      assert !NameChar(text[n]) && !NameChar(text[n+1]);
      if n < s {
        assert s >= n + 2;
        assert EndsOpenAt(a, i);
        forall k | 0 <= k < s - n - 2 ensures Space(b[k]) {
          assert Space(text[n+2+k]);
        }
        assert StartsNamedAt(b, s - n - 2, e - n - 2, c - n - 2);
      } else {
        assert e <= n;
        assert EndsNamedAt(a, i, s, e);
        forall k | 0 <= k < c - n - 2 ensures Space(b[k]) {
          assert Space(text[n+2+k]);
        }
        assert StartsClosedAt(b, c - n - 2);
      }
    }
  }

  lemma SideShows(a: string, b: string, text: string)
    requires InJoin(a, b, text) && (HasPlaceholder(a) || HasPlaceholder(b))
    ensures HasPlaceholder(text)
  {
    var n := |a|;
    if i: nat, s: nat, e: nat, c: nat :| i < |a| && s < |a| && e <= |a| && c <= |a|
                                         && PlaceholderAt(a, i, s, e, c) {
      Found(text, i, s, e, c);
    } else {
      var i: nat, s: nat, e: nat, c: nat :| i < |b| && s < |b| && e <= |b| && c <= |b|
                                            && PlaceholderAt(b, i, s, e, c);
      Shifted(a, b, text, i, s, e, c);
    }
  }

  lemma TailIs(a: string, b: string, text: string)
    requires InJoin(a, b, text)
    ensures forall k :: |a| + 2 <= k < |text| ==> text[k] == b[k-|a|-2]
  {
    forall k | |a| + 2 <= k < |text| ensures text[k] == b[k-|a|-2] {
      assert text[|a|+2+(k-|a|-2)] == b[k-|a|-2];
    }
  }

  lemma Shifted(a: string, b: string, text: string, i: nat, s: nat, e: nat, c: nat)
    requires InJoin(a, b, text) && PlaceholderAt(b, i, s, e, c)
    ensures HasPlaceholder(text)
  {
    var n := |a| + 2;
    TailIs(a, b, text);
    forall k | n + i + 2 <= k < n + s ensures Space(text[k]) {
      assert text[k] == b[k-n];
    }
    forall k | n + s <= k < n + e ensures NameChar(text[k]) {
      assert text[k] == b[k-n];
    }
    forall k | n + e <= k < n + c ensures Space(text[k]) {
      assert text[k] == b[k-n];
    }
    assert text[n+i] == b[i] && text[n+i+1] == b[i+1] && text[n+s] == b[s];
    assert text[n+c] == b[c] && text[n+c+1] == b[c+1];
    Found(text, n + i, n + s, n + e, n + c);
  }

  lemma SeamShows(a: string, b: string, text: string)
    requires InJoin(a, b, text) && Seam(a, b)
    ensures HasPlaceholder(text)
  {
    var n := |a|;
    assert Space('\n');
    if EndsOpen(a) && StartsNamed(b) {
      var i: nat :| EndsOpenAt(a, i);
      var s: nat, e: nat, c: nat :| StartsNamedAt(b, s, e, c);
      CutBeforeName(a, b, text, i, s, e, c);
    } else {
      var i: nat, s: nat, e: nat :| EndsNamedAt(a, i, s, e);
      var c: nat :| StartsClosedAt(b, c);
      CutAfterName(a, b, text, i, s, e, c);
    }
  }

  lemma CutBeforeName(a: string, b: string, text: string, i: nat, s: nat, e: nat, c: nat)
    requires InJoin(a, b, text) && EndsOpenAt(a, i) && StartsNamedAt(b, s, e, c)
    ensures HasPlaceholder(text)
  {
    var n := |a| + 2;
    forall k | i + 2 <= k < n + s ensures Space(text[k]) {
      assert k >= n ==> text[k] == b[k-n];
    }
    forall k | n + s <= k < n + c ensures text[k] == b[k-n] {
    }
    Found(text, i, n + s, n + e, n + c);
  }

  lemma CutAfterName(a: string, b: string, text: string, i: nat, s: nat, e: nat, c: nat)
    requires InJoin(a, b, text) && EndsNamedAt(a, i, s, e) && StartsClosedAt(b, c)
    ensures HasPlaceholder(text)
  {
    var n := |a| + 2;
    forall k | e <= k < n + c ensures Space(text[k]) {
      assert k >= n ==> text[k] == b[k-n];
    }
    Found(text, i, s, e, n + c);
  }

  /** Joining two texts leaves a placeholder exactly if one of them holds one, or
      they complete one at the seam. */
  lemma JoinedHasPlaceholderIff(a: string, b: string)
    ensures HasPlaceholder(Joined(a, b))
            <==> HasPlaceholder(a) || HasPlaceholder(b) || Seam(a, b)
  {
    if a != "" && b != "" {
      var text := Joined(a, b);
      JoinIs(a, b);
      if HasPlaceholder(text) {
        var i: nat, s: nat, e: nat, c: nat :|
          i < |text| && s < |text| && e <= |text| && c <= |text|
          && PlaceholderAt(text, i, s, e, c);
        WhereItLies(a, b, text, i, s, e, c);
      } else if HasPlaceholder(a) || HasPlaceholder(b) {
        SideShows(a, b, text);
      } else if Seam(a, b) {
        SeamShows(a, b, text);
      }
    }
  }

  /** Whether a clean fragment, composed onto `above`, completes a placeholder. */
  ghost predicate Completes(above: string, text: string, mode: Mode) {
    match mode
    case Inherit => HasPlaceholder(above)
    case Replace => false
    case Append => HasPlaceholder(above) || Seam(above, text)
    case Prepend => HasPlaceholder(above) || Seam(text, above)
  }

  lemma ComposedHasPlaceholderIff(above: string, text: string, mode: Mode)
    requires !HasPlaceholder(text)
    ensures HasPlaceholder(Compose(above, text, mode)) <==> Completes(above, text, mode)
  {
    JoinedHasPlaceholderIff(above, text);
    JoinedHasPlaceholderIff(text, above);
  }

  // ------------------------------------------------- stored versions

  /** The text a stored version composes to. */
  ghost function TextOf(digest: LocalDigest, lib: Lib, ns: Namespace, v: int): string
    requires TableOk(digest, lib) && GetVersion(lib, ns, v).Some?
  {
    var levels := Reversed(Ancestors(digest, lib, ns, v));
    Effective(levels, |levels|)
  }

  /** The text of the pinned parent; none for a root. */
  ghost function TextAbove(digest: LocalDigest, lib: Lib, parent: Option<VersionId>): string
    requires TableOk(digest, lib)
    requires parent.Some? ==> GetVersion(lib, parent.value.0, parent.value.1).Some?
  {
    if parent.None? then "" else TextOf(digest, lib, parent.value.0, parent.value.1)
  }

  lemma {:induction false} EffectivePrefix(levels: seq<Node>, more: seq<Node>, n: nat)
    requires n <= |levels|
    ensures Effective(levels + more, n) == Effective(levels, n)
  {
    if n > 0 {
      EffectivePrefix(levels, more, n - 1);
    }
  }

  lemma ReversedFirst(chain: seq<Node>)
    requires chain != []
    ensures Reversed(chain) == Reversed(chain[1..]) + [chain[0]]
    ensures Effective(Reversed(chain), |chain|)
            == Compose(Effective(Reversed(chain[1..]), |chain| - 1), chain[0].def.text,
                       chain[0].def.mode)
  {
    EffectivePrefix(Reversed(chain[1..]), [chain[0]], |chain| - 1);
  }

  /** A version's text is its fragment composed onto its parent's text. */
  lemma TextComposes(digest: LocalDigest, lib: Lib, ns: Namespace, v: int)
    requires TableOk(digest, lib) && GetVersion(lib, ns, v).Some?
    ensures var node := GetVersion(lib, ns, v).value.node;
            (node.parent.Some? ==>
               GetVersion(lib, node.parent.value.0, node.parent.value.1).Some?)
            && TextOf(digest, lib, ns, v)
               == Compose(TextAbove(digest, lib, node.parent), node.def.text, node.def.mode)
  {
    GotNode(digest, lib, ns, v);
    AncestorsShape(digest, lib, ns, v);
    ReversedFirst(Ancestors(digest, lib, ns, v));
    var node := GetVersion(lib, ns, v).value.node;
    if node.parent.Some? {
      AncestorsUp(digest, lib, ns, v);
    } else {
      assert Ancestors(digest, lib, ns, v)[1..] == [];
    }
  }

  /** A stored version resolves exactly if the text it composes to is clean. */
  lemma ResolvesIff(digest: LocalDigest, lib: Lib, ns: Namespace, v: int)
    requires LibOk(digest, lib) && GetVersion(lib, ns, v).Some?
    ensures if HasPlaceholder(TextOf(digest, lib, ns, v))
            then Resolution(lib, ns, v) == Err(Placeholder)
            else Resolution(lib, ns, v).Ok?
                 && Resolution(lib, ns, v).value.text == TextOf(digest, lib, ns, v)
  {
    PinnedChainIsTotal(digest, lib, ns, v);
    AncestorsShape(digest, lib, ns, v);
  }

  lemma TextStays(digest: LocalDigest, lib: Lib, later: Lib, ns: Namespace, v: int)
    requires TableOk(digest, lib) && TableOk(digest, later) && Grows(lib, later)
    requires GetVersion(lib, ns, v).Some?
    ensures GetVersion(later, ns, v).Some?
    ensures TextOf(digest, later, ns, v) == TextOf(digest, lib, ns, v)
  {
    AncestorsStay(digest, lib, later, ns, v);
  }

  /** Whether a version about to be written will resolve is known before it is
      written: a replacing one always does; an inheriting one exactly if the version
      it binds to does; an appended or prepended one exactly if that does and no
      placeholder is completed where its text meets the parent's. */
  lemma WrittenResolvesIff(digest: LocalDigest, lib: Lib, ns: Namespace, mode: string,
                           text: string, vars: map<string, Raw>, asked: Option<int>, state: State)
    requires LibOk(digest, lib) && ValidNamespace(ns)
    requires WriteVersion(digest, lib, ns, mode, text, vars, asked, state).1.Ok?
    ensures var (later, r) := WriteVersion(digest, lib, ns, mode, text, vars, asked, state);
            var parent := BindParent(lib, ns, asked).value;
            (parent.Some? ==> GetVersion(lib, parent.value.0, parent.value.1).Some?)
            && GetVersion(later, ns, r.value.local).Some?
            && (Resolution(later, ns, r.value.local).Ok?
                <==> !Completes(TextAbove(digest, lib, parent), text, ModeOf(mode).value))
  {
    var (later, r) := WriteVersion(digest, lib, ns, mode, text, vars, asked, state);
    var parent := BindParent(lib, ns, asked).value;
    WrittenNode(digest, lib, ns, mode, text, vars, asked, state);
    WriteKeepsLib(digest, lib, ns, mode, text, vars, asked, state);
    WrittenIsStored(digest, lib, later, ns, VersionRow(r.value, state));
    TextComposes(digest, later, ns, r.value.local);
    if parent.Some? {
      TextStays(digest, lib, later, parent.value.0, parent.value.1);
    }
    ResolvesIff(digest, later, ns, r.value.local);
    ComposedHasPlaceholderIff(TextAbove(digest, lib, parent), text, ModeOf(mode).value);
  }

  /** Read off in terms of the parent: replacing never introduces a refusal, and
      inheriting is refused exactly if the parent is. */
  lemma ReplaceAndInherit(digest: LocalDigest, lib: Lib, ns: Namespace, mode: string,
                          text: string, vars: map<string, Raw>, asked: Option<int>, state: State)
    requires LibOk(digest, lib) && ValidNamespace(ns)
    requires WriteVersion(digest, lib, ns, mode, text, vars, asked, state).1.Ok?
    ensures var (later, r) := WriteVersion(digest, lib, ns, mode, text, vars, asked, state);
            var parent := BindParent(lib, ns, asked).value;
            (mode == "replace" ==> Resolution(later, ns, r.value.local).Ok?)
            && (mode == "inherit" ==>
                  (Resolution(later, ns, r.value.local).Ok?
                   <==> parent.None? || Resolution(lib, parent.value.0, parent.value.1).Ok?))
  {
    WrittenResolvesIff(digest, lib, ns, mode, text, vars, asked, state);
    var parent := BindParent(lib, ns, asked).value;
    if parent.Some? {
      ResolvesIff(digest, lib, parent.value.0, parent.value.1);
    }
  }

  lemma WrittenIsStored(digest: LocalDigest, lib: Lib, later: Lib, ns: Namespace, row: VersionRow)
    requires LibOk(digest, lib) && LibOk(digest, later)
    requires row.node.ns == ns && row.node.local == |Rows(lib, ns)| + 1
    requires later == Insert(lib, row)
    ensures GetVersion(later, ns, row.node.local) == Some(row)
  {
    GetIs(digest, later, ns, row.node.local);
  }

  // ------------------------------------------------- cascades

  /** What a reached namespace will compose to once the cascade has run, told from
      the library it is planned on: its selected fragment, unchanged, on what its
      parent will compose to. */
  ghost function CarriedText(digest: LocalDigest, lib: Lib, root: Namespace, v: int,
                             ns: Namespace): string
    requires LibOk(digest, lib) && GetVersion(lib, root, v).Some?
    requires Target(lib, root, v, ns).Some?
    decreases |ns|
  {
    if ns == root then TextOf(digest, lib, root, v)
    else
      var def := Selected(lib, ns, Production).value.node.def;
      Compose(CarriedText(digest, lib, root, v, Parent(ns)), def.text, def.mode)
  }

  /** The version selected after the cascade has the definition selected before. */
  lemma CarriedDefinition(digest: LocalDigest, lib: Lib, root: Namespace, v: int, ns: Namespace)
    requires LibOk(digest, lib) && GetVersion(lib, root, v).Some?
    requires ns != root && Target(lib, root, v, ns).Some?
    ensures Selected(lib, ns, Production).Some?
    ensures var now := Selected(After(lib, root, v, ApproveAll), ns, Production);
            now.Some? && now.value.node.def == Selected(lib, ns, Production).value.node.def
  {
    StoredChildren(lib, root, v, ns);
    var id := lib.selected[(ns, Production)];
    var done := Moved(lib, root, v);
    GotNode(digest, lib, ns, id.1);
    CarriedGets(digest, lib, root, v, ApproveAll, done, ns, NextLocal(lib, ns));
    CarriedGets(digest, lib, root, v, ApproveAll, done, ns, id.1);
    assert Moves(lib, root, v, ns) ==> ns in done;
  }

  lemma {:induction false} CarriedTextComesTrue(digest: LocalDigest, lib: Lib, root: Namespace,
                                                v: int, ns: Namespace)
    requires LibOk(digest, lib) && GetVersion(lib, root, v).Some?
    requires Target(lib, root, v, ns).Some?
    requires LibOk(digest, After(lib, root, v, ApproveAll))
    ensures var later := After(lib, root, v, ApproveAll);
            var t := Target(lib, root, v, ns).value;
            GetVersion(later, ns, t).Some?
            && TextOf(digest, later, ns, t) == CarriedText(digest, lib, root, v, ns)
    decreases |ns|
  {
    var later := After(lib, root, v, ApproveAll);
    var t := Target(lib, root, v, ns).value;
    if ns == root {
      AfterGrows(digest, lib, root, v);
      TextStays(digest, lib, later, root, v);
    } else {
      CarriedTextComesTrue(digest, lib, root, v, Parent(ns));
      SelectedIsTarget(digest, lib, root, v, ns);
      TargetStored(digest, lib, root, v, ns);
      CarriedDefinition(digest, lib, root, v, ns);
      TextComposes(digest, later, ns, t);
    }
  }

  /** An approved cascade copies definitions without resolving them. Which of the
      namespaces it carries resolve afterwards is decided on the library it was
      planned on: exactly those whose fragment completes no placeholder on the text
      their parent will have. */
  lemma CascadeResolvesIff(digest: LocalDigest, lib: Lib, plan: Plan, ns: Namespace)
    requires LibOk(digest, lib) && GetVersion(lib, plan.ns, plan.version).Some?
    requires plan.mode == ApproveAll
    requires PlanComplete(lib, plan.ns, plan.version, plan.steps, plan.skipped)
    requires PathSelected(lib, plan.ns, ns) && ns != plan.ns
    ensures Target(lib, plan.ns, plan.version, ns).Some?
    ensures Target(lib, plan.ns, plan.version, Parent(ns)).Some?
    ensures Selected(lib, ns, Production).Some?
    ensures var later := ApplyPlan(digest, lib, plan).0;
            var chosen := Selected(later, ns, Production);
            var def := Selected(lib, ns, Production).value.node.def;
            var above := CarriedText(digest, lib, plan.ns, plan.version, Parent(ns));
            chosen.Some?
            && (Resolution(later, ns, chosen.value.node.local).Ok?
                <==> !Completes(above, def.text, def.mode))
  {
    var root, v := plan.ns, plan.version;
    var later := After(lib, root, v, ApproveAll);
    PlannedCascadeComesTrue(digest, lib, plan);
    AfterIsGood(digest, lib, root, v);
    SelectedPathIsReached(lib, root, v, ns);
    CarriedTextComesTrue(digest, lib, root, v, ns);
    SelectedIsTarget(digest, lib, root, v, ns);
    ResolvesIff(digest, later, ns, Target(lib, root, v, ns).value);
    var id := lib.selected[(ns, Production)];
    GotNode(digest, lib, ns, id.1);
    var def := Selected(lib, ns, Production).value.node.def;
    ComposedHasPlaceholderIff(CarriedText(digest, lib, root, v, Parent(ns)), def.text, def.mode);
  }

  // ------------------------------------------------- a version that is refused

  const OPENING := "{{ a"
  const CLOSING := "}}"

  /** A root that ends inside a placeholder, and a child that closes it. */
  function SplitPlaceholder(): seq<LibOp> {
    [EstablishOp("ego", "append", OPENING, map[], ProductionApproved),
     CreateOp("ego.x", "append", CLOSING, map[], Some(1), Candidate)]
  }

  lemma PartsAreClean()
    ensures CheckedLocal("append", OPENING, map[]) == Ok(Local(Append, OPENING, map[]))
    ensures CheckedLocal("append", CLOSING, map[]) == Ok(Local(Append, CLOSING, map[]))
    ensures Completes(OPENING, CLOSING, Append)
  {
    assert !Space(OPENING[0]) && !Space(CLOSING[0]);
    assert forall k :: 0 <= k < |OPENING| ==> OPENING[k] != '}';
    assert forall k :: 0 <= k < |CLOSING| ==> CLOSING[k] != '{';
    assert NormaliseAll(map[]) == map[];
    assert EndsNamedAt(OPENING, 0, 3, 4) && StartsClosedAt(CLOSING, 0);
  }

  lemma NamesAreValid()
    ensures ValidNamespace(["ego"]) && ValidNamespace(["ego", "x"])
    ensures ValidateNamespace("ego", true) == Ok(["ego"])
    ensures ValidateNamespace("ego.x", true) == Ok(["ego", "x"])
  {
    assert PlainComponent("ego") && PlainComponent("x");
    NamespaceRoundTrip(["ego"]);
    NamespaceRoundTrip(["ego", "x"]);
    assert Text(["ego"]) == "ego";
    assert ["ego", "x"][1..] == ["x"];
    assert Text(["ego", "x"]) == "ego" + ['.'] + "x";
    assert "ego.x" == "ego" + ['.'] + "x";
  }

  lemma RootIsStored(digest: LocalDigest)
    ensures var op := SplitPlaceholder()[0];
            var lib := Do(digest, EMPTY_LIB, op);
            LibOk(digest, lib)
            && Rows(lib, ["ego"]) != [] && GetVersion(lib, ["ego"], 1).Some?
            && TextOf(digest, lib, ["ego"], 1) == OPENING
  {
    NamesAreValid();
    PartsAreClean();
    OpKeepsLib(digest, EMPTY_LIB, SplitPlaceholder()[0]);
    var lib := Do(digest, EMPTY_LIB, SplitPlaceholder()[0]);
    var def := Local(Append, OPENING, map[]);
    assert Rows(lib, ["ego"]) == [VersionRow(Node(["ego"], 1, None, def, digest(def)),
                                             ProductionApproved)];
    TextComposes(digest, lib, ["ego"], 1);
  }

  /** A version can be stored, all its checks passed, that no later resolution
      accepts. */
  lemma StoredButRefused(digest: LocalDigest)
    ensures var lib := RunOps(digest, EMPTY_LIB, SplitPlaceholder());
            GetVersion(lib, ["ego", "x"], 1).Some?
            && Resolution(lib, ["ego", "x"], 1) == Err(Placeholder)
  {
    var ops := SplitPlaceholder();
    var lib := Do(digest, EMPTY_LIB, ops[0]);
    TwoOps(digest, EMPTY_LIB, ops[0], ops[1]);
    NamesAreValid();
    PartsAreClean();
    RootIsStored(digest);
    ChildIsRefused(digest, lib);
  }

  lemma ChildIsRefused(digest: LocalDigest, lib: Lib)
    requires LibOk(digest, lib) && Rows(lib, ["ego", "x"]) == []
    requires GetVersion(lib, ["ego"], 1).Some? && TextOf(digest, lib, ["ego"], 1) == OPENING
    ensures var later := Do(digest, lib, SplitPlaceholder()[1]);
            GetVersion(later, ["ego", "x"], 1).Some?
            && Resolution(later, ["ego", "x"], 1) == Err(Placeholder)
  {
    var ns := ["ego", "x"];
    NamesAreValid();
    PartsAreClean();
    assert Parent(ns) == ["ego"];
    assert BindParent(lib, ns, Some(1)) == Ok(Some((["ego"], 1)));
    WrittenResolvesIff(digest, lib, ns, "append", CLOSING, map[], Some(1), Candidate);
    OpKeepsLib(digest, lib, SplitPlaceholder()[1]);
    ResolvesIff(digest, Do(digest, lib, SplitPlaceholder()[1]), ns, 1);
  }

  lemma TwoOps(digest: LocalDigest, lib: Lib, a: LibOp, b: LibOp)
    ensures RunOps(digest, lib, [a, b]) == Do(digest, Do(digest, lib, a), b)
  {
    assert [a, b][..1] == [a] && [a][..0] == [];
    assert RunOps(digest, lib, [a]) == Do(digest, lib, a);
  }

  // ------------------------------------------------- a cascade that breaks a child

  const HARMLESS := "x"

  /** A child that closes two braces, selected on a parent that opens none; then a
      second version of the parent, which does. */
  function OpenLater(): seq<LibOp> {
    [EstablishOp("ego", "append", HARMLESS, map[], ProductionApproved),
     CreateOp("ego.x", "append", CLOSING, map[], Some(1), ProductionApproved),
     SelectOp(["ego", "x"], (["ego", "x"], 1), Production),
     CreateOp("ego", "append", OPENING, map[], None, ProductionApproved)]
  }

  lemma HarmlessIsClean()
    ensures CheckedLocal("append", HARMLESS, map[]) == Ok(Local(Append, HARMLESS, map[]))
    ensures !Completes(HARMLESS, CLOSING, Append)
  {
    assert !Space(HARMLESS[0]);
    assert NormaliseAll(map[]) == map[];
  }

  function RowFor(digest: LocalDigest, ns: Namespace, v: int, parent: Option<VersionId>,
                  text: string): VersionRow
  {
    var def := Local(Append, text, map[]);
    VersionRow(Node(ns, v, parent, def, digest(def)), ProductionApproved)
  }

  lemma OneCreated(digest: LocalDigest, lib: Lib, name: string, ns: Namespace, text: string,
                   asked: Option<int>, parent: Option<VersionId>)
    requires LibOk(digest, lib) && ValidateNamespace(name, true) == Ok(ns)
    requires CheckedLocal("append", text, map[]) == Ok(Local(Append, text, map[]))
    requires |ns| >= 1 && BindParent(lib, ns, asked) == Ok(parent)
    requires |ns| == 1 ==> Rows(lib, ns) != []
    ensures Do(digest, lib, CreateOp(name, "append", text, map[], asked, ProductionApproved))
            == Insert(lib, RowFor(digest, ns, |Rows(lib, ns)| + 1, parent, text))
  {
    GetIs(digest, lib, ns, 0);
  }

  /** The library after each of the four writes. */
  function Opened(digest: LocalDigest, writes: nat): Lib
    requires 1 <= writes <= 4
  {
    var first := RowFor(digest, ["ego"], 1, None, HARMLESS);
    var second := RowFor(digest, ["ego"], 2, None, OPENING);
    var child := RowFor(digest, ["ego", "x"], 1, Some((["ego"], 1)), CLOSING);
    var chosen := map[(["ego", "x"], Production) := (["ego", "x"], 1)];
    if writes == 1 then Lib(map[["ego"] := [first]], map[])
    else if writes == 2 then Lib(map[["ego"] := [first], ["ego", "x"] := [child]], map[])
    else if writes == 3 then Lib(map[["ego"] := [first], ["ego", "x"] := [child]], chosen)
    else Lib(map[["ego"] := [first, second], ["ego", "x"] := [child]], chosen)
  }

  lemma FirstWrite(digest: LocalDigest)
    ensures Do(digest, EMPTY_LIB, OpenLater()[0]) == Opened(digest, 1)
  {
    NamesAreValid();
    HarmlessIsClean();
    var row := RowFor(digest, ["ego"], 1, None, HARMLESS);
    assert Do(digest, EMPTY_LIB, OpenLater()[0]) == Insert(EMPTY_LIB, row);
    assert Rows(EMPTY_LIB, ["ego"]) + [row] == [row];
  }

  lemma SecondWrite(digest: LocalDigest)
    requires LibOk(digest, Opened(digest, 1))
    ensures Do(digest, Opened(digest, 1), OpenLater()[1]) == Opened(digest, 2)
  {
    var lib, ns := Opened(digest, 1), ["ego", "x"];
    NamesAreValid();
    PartsAreClean();
    assert ns != ["ego"] && Parent(ns) == ["ego"] && Rows(lib, ns) == [];
    OneCreated(digest, lib, "ego.x", ns, CLOSING, Some(1), Some((["ego"], 1)));
    var row := RowFor(digest, ns, 1, Some((["ego"], 1)), CLOSING);
    assert Rows(lib, ns) + [row] == [row];
  }

  lemma ThirdWrite(digest: LocalDigest)
    requires LibOk(digest, Opened(digest, 2))
    ensures Do(digest, Opened(digest, 2), OpenLater()[2]) == Opened(digest, 3)
  {
    GetIs(digest, Opened(digest, 2), ["ego", "x"], 1);
  }

  lemma FourthWrite(digest: LocalDigest)
    requires LibOk(digest, Opened(digest, 3))
    ensures Do(digest, Opened(digest, 3), OpenLater()[3]) == Opened(digest, 4)
  {
    var lib, ns := Opened(digest, 3), ["ego"];
    NamesAreValid();
    PartsAreClean();
    var first := RowFor(digest, ns, 1, None, HARMLESS);
    assert Rows(lib, ns) == [first];
    OneCreated(digest, lib, "ego", ns, OPENING, None, None);
    var second := RowFor(digest, ns, 2, None, OPENING);
    InsertSecond(lib, ns, first, second);
    KeyReplaced(ns, ["ego", "x"], [first], lib.table[["ego", "x"]], [first, second]);
  }

  lemma KeyReplaced<K, V>(a: K, b: K, x: V, y: V, z: V)
    requires a != b
    ensures map[a := x, b := y][a := z] == map[a := z, b := y]
  {
  }

  lemma InsertSecond(lib: Lib, ns: Namespace, first: VersionRow, second: VersionRow)
    requires Rows(lib, ns) == [first] && second.node.ns == ns
    ensures Insert(lib, second) == lib.(table := lib.table[ns := [first, second]])
  {
    assert [first] + [second] == [first, second];
  }

  lemma OpenedIsReached(digest: LocalDigest)
    ensures RunOps(digest, EMPTY_LIB, OpenLater()) == Opened(digest, 4)
    ensures LibOk(digest, Opened(digest, 4))
  {
    var ops := OpenLater();
    OpsOneByOne(digest, ops);
    FirstWrite(digest);
    OpKeepsLib(digest, EMPTY_LIB, ops[0]);
    SecondWrite(digest);
    OpKeepsLib(digest, Opened(digest, 1), ops[1]);
    ThirdWrite(digest);
    OpKeepsLib(digest, Opened(digest, 2), ops[2]);
    FourthWrite(digest);
    OpKeepsLib(digest, Opened(digest, 3), ops[3]);
  }

  lemma OpsOneByOne(digest: LocalDigest, ops: seq<LibOp>)
    requires |ops| == 4
    ensures RunOps(digest, EMPTY_LIB, ops)
            == Do(digest, Do(digest, Do(digest, Do(digest, EMPTY_LIB, ops[0]), ops[1]), ops[2]),
                  ops[3])
  {
    assert ops[..3][..2] == [ops[0], ops[1]] && ops[..3][2] == ops[2];
    assert RunOps(digest, EMPTY_LIB, ops[..3])
           == Do(digest, RunOps(digest, EMPTY_LIB, ops[..3][..2]), ops[2]);
    TwoOps(digest, EMPTY_LIB, ops[0], ops[1]);
  }

  /** A version that resolved on its pinned parent is carried into refusal: whatever
      plan is made for the parent's second version, its cascade succeeds and leaves
      the child selected on a version that does not resolve. */
  lemma CascadeCanRefuse(digest: LocalDigest, plan: Plan)
    requires plan.mode == ApproveAll && plan.ns == ["ego"] && plan.version == 2
    requires var lib := RunOps(digest, EMPTY_LIB, OpenLater());
             PlanComplete(lib, plan.ns, plan.version, plan.steps, plan.skipped)
    ensures var lib := RunOps(digest, EMPTY_LIB, OpenLater());
            Resolution(lib, ["ego", "x"], 1).Ok?
            && ApplyPlan(digest, lib, plan).1 == Ok(())
            && var chosen := Selected(ApplyPlan(digest, lib, plan).0, ["ego", "x"], Production);
               chosen.Some?
               && Resolution(ApplyPlan(digest, lib, plan).0, ["ego", "x"],
                             chosen.value.node.local).Err?
  {
    var lib, ns := RunOps(digest, EMPTY_LIB, OpenLater()), ["ego", "x"];
    OpenedIsReached(digest);
    PartsAreClean();
    HarmlessIsClean();
    OpenedTexts(digest);
    assert Parent(ns) == ["ego"];
    assert PathSelected(lib, ["ego"], ns);
    ResolvesIff(digest, lib, ns, 1);
    ComposedHasPlaceholderIff(HARMLESS, CLOSING, Append);
    PlannedCascadeComesTrue(digest, lib, plan);
    CascadeResolvesIff(digest, lib, plan, ns);
    assert CarriedText(digest, lib, ["ego"], 2, ["ego"]) == OPENING;
  }

  lemma OpenedTexts(digest: LocalDigest)
    requires LibOk(digest, Opened(digest, 4))
    ensures var lib := Opened(digest, 4);
            GetVersion(lib, ["ego"], 1).Some? && GetVersion(lib, ["ego"], 2).Some?
            && GetVersion(lib, ["ego", "x"], 1).Some?
            && TextOf(digest, lib, ["ego"], 2) == OPENING
            && TextOf(digest, lib, ["ego", "x"], 1) == Compose(HARMLESS, CLOSING, Append)
            && Selected(lib, ["ego", "x"], Production).Some?
            && Selected(lib, ["ego", "x"], Production).value.node.def
               == Local(Append, CLOSING, map[])
  {
    var lib := Opened(digest, 4);
    GetIs(digest, lib, ["ego"], 1);
    GetIs(digest, lib, ["ego"], 2);
    GetIs(digest, lib, ["ego", "x"], 1);
    TextComposes(digest, lib, ["ego"], 1);
    TextComposes(digest, lib, ["ego"], 2);
    TextComposes(digest, lib, ["ego", "x"], 1);
  }
}
