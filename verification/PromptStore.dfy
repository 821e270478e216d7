/**
  The family tree: immutable versions that pin exact parent versions, approval
  states, and selections.
 */
module PromptStore {
  import opened Outcomes
  import opened PromptModel

  datatype State =
    | Candidate | Validated | Evaluated | Proposed
    | ProductionApproved | ExperimentalApproved | Rejected | Retired
  {
    predicate Approved() { ProductionApproved? || ExperimentalApproved? }

    predicate MayBecome(next: State) {
      match this
      case Candidate => next == Validated || next == Rejected
      case Validated => next == Evaluated || next == Proposed || next == Rejected
      case Evaluated => next == Proposed || next == Rejected
      case Proposed => next.Approved() || next == Rejected
      case ProductionApproved => next == Retired || next == Rejected
      case ExperimentalApproved =>
        next == ProductionApproved || next == Retired || next == Rejected
      case Rejected => false
      case Retired => false
    }
  }

  datatype Purpose = Production | Experimental

  /** A node's local definition; the parent binding is not part of it. */
  datatype Local = Local(mode: Mode, text: string, vars: map<string, Value>)

  type Digest = string
  type LocalDigest = Local -> Digest

  /** The columns that are never updated. */
  datatype Node = Node(
    ns: Namespace, local: int, parent: Option<(Namespace, int)>, def: Local, digest: Digest)

  datatype VersionRow = VersionRow(node: Node, state: State)

  type VersionId = (Namespace, int)

  datatype Lib = Lib(
    table: map<Namespace, seq<VersionRow>>,
    selected: map<(Namespace, Purpose), VersionId>)

  const EMPTY_LIB := Lib(map[], map[])

  // ---------------------------------------------------------------- reading

  function Rows(lib: Lib, ns: Namespace): seq<VersionRow> {
    if ns in lib.table then lib.table[ns] else []
  }

  function Find(rows: seq<VersionRow>, v: int): Option<VersionRow> {
    if rows == [] then None
    else if rows[0].node.local == v then Some(rows[0])
    else Find(rows[1..], v)
  }

  function GetVersion(lib: Lib, ns: Namespace, v: int): Option<VersionRow> {
    Find(Rows(lib, ns), v)
  }

  /** MAX(local_version), 0 for a namespace with no versions. */
  function MaxLocal(rows: seq<VersionRow>): int {
    if rows == [] then 0
    else
      var rest := MaxLocal(rows[..|rows|-1]);
      var v := rows[|rows|-1].node.local;
      if v > rest then v else rest
  }

  function NextLocal(lib: Lib, ns: Namespace): int {
    MaxLocal(Rows(lib, ns)) + 1
  }

  function Selected(lib: Lib, ns: Namespace, purpose: Purpose): Option<VersionRow> {
    if (ns, purpose) in lib.selected
    then GetVersion(lib, lib.selected[(ns, purpose)].0, lib.selected[(ns, purpose)].1)
    else None
  }

  predicate IsChild(parent: Namespace, child: Namespace) {
    |child| == |parent| + 1 && child[..|parent|] == parent
  }

  function ChildrenOf(lib: Lib, ns: Namespace): set<Namespace> {
    set c | c in lib.table && lib.table[c] != [] && IsChild(ns, c)
  }

  // ---------------------------------------------------------------- writing

  /** A definition that passed the checks, normalised; or why it did not. */
  function CheckedLocal(mode: string, text: string, vars: map<string, Raw>)
    : Result<Local, PromptError>
  {
    var m := ModeOf(mode);
    if m.None? || !PromptAgrees(m.value, text) then Err(BadPrompt)
    else if HasPlaceholder(text) then Err(Placeholder)
    else if !AllAccepted(vars) then Err(BadVariable(""))
    else Ok(Local(m.value, text, NormaliseAll(vars)))
  }

  /** The parent binding a new version gets. */
  function BindParent(lib: Lib, ns: Namespace, asked: Option<int>)
    : Result<Option<(Namespace, int)>, PromptError>
    requires |ns| >= 1
  {
    if |ns| == 1 then (if asked.Some? then Err(RootHasNoParent) else Ok(None))
    else
      var parent := Parent(ns);
      var chosen := Selected(lib, parent, Production);
      if asked.None? && chosen.None? then Err(NoParentSelected)
      else
        var v := if asked.Some? then asked.value else chosen.value.node.local;
        if GetVersion(lib, parent, v).None? then Err(NoSuchVersion) else Ok(Some((parent, v)))
  }

  function Insert(lib: Lib, row: VersionRow): Lib {
    lib.(table := lib.table[row.node.ns := Rows(lib, row.node.ns) + [row]])
  }

  function WriteVersion(digest: LocalDigest, lib: Lib, ns: Namespace, mode: string, text: string,
                        vars: map<string, Raw>, asked: Option<int>, state: State)
    : (Lib, Result<Node, PromptError>)
    requires |ns| >= 1
  {
    var def := CheckedLocal(mode, text, vars);
    var parent := BindParent(lib, ns, asked);
    if def.Err? then (lib, Err(def.error))
    else if parent.Err? then (lib, Err(parent.error))
    else
      var node := Node(ns, NextLocal(lib, ns), parent.value, def.value, digest(def.value));
      (Insert(lib, VersionRow(node, state)), Ok(node))
  }

  function CreateVersion(digest: LocalDigest, lib: Lib, name: string, mode: string, text: string,
                         vars: map<string, Raw>, asked: Option<int>, state: State)
    : (Lib, Result<Node, PromptError>)
  {
    var ns := ValidateNamespace(name, true);
    if ns.Err? then (lib, Err(ns.error))
    else if |ns.value| == 1 && Rows(lib, ns.value) == [] then (lib, Err(RootNotEstablished))
    else WriteVersion(digest, lib, ns.value, mode, text, vars, asked, state)
  }

  function EstablishRoot(digest: LocalDigest, lib: Lib, name: string, mode: string, text: string,
                         vars: map<string, Raw>, state: State): (Lib, Result<Node, PromptError>)
  {
    var ns := ValidateNamespace(name, true);
    if ns.Err? then (lib, Err(ns.error))
    else if |ns.value| != 1 then (lib, Err(NotARoot))
    else if Rows(lib, ns.value) != [] then (lib, Err(RootExists))
    else WriteVersion(digest, lib, ns.value, mode, text, vars, None, state)
  }

  function WithState(rows: seq<VersionRow>, v: int, state: State): seq<VersionRow> {
    if rows == [] then []
    else if rows[0].node.local == v then [rows[0].(state := state)] + rows[1..]
    else [rows[0]] + WithState(rows[1..], v, state)
  }

  /** A selected version may be retired like any other. */
  function SetState(lib: Lib, id: VersionId, state: State): (Lib, Result<(), PromptError>) {
    var row := GetVersion(lib, id.0, id.1);
    if row.None? then (lib, Err(NoSuchVersion))
    else if !row.value.state.MayBecome(state) then (lib, Err(IllegalTransition))
    else (lib.(table := lib.table[id.0 := WithState(Rows(lib, id.0), id.1, state)]), Ok(()))
  }

  function Select(lib: Lib, ns: Namespace, id: VersionId, purpose: Purpose)
    : (Lib, Result<(), PromptError>)
  {
    var row := GetVersion(lib, id.0, id.1);
    if row.None? then (lib, Err(NoSuchVersion))
    else if id.0 != ns then (lib, Err(WrongNamespace))
    else if !row.value.state.Approved() then (lib, Err(NotApproved))
    else (lib.(selected := lib.selected[(ns, purpose) := id]), Ok(()))
  }

  // ---------------------------------------------------------------- ancestry

  /** The walk up the stored bindings, with the refusals it can make. */
  function Walk(lib: Lib, ns: Namespace, v: int, seen: set<VersionId>, chain: seq<Node>,
                depth: nat): Result<seq<Node>, PromptError>
    decreases 20 - |chain|
  {
    if (ns, v) in seen then Err(Cycle)
    else
      var row := GetVersion(lib, ns, v);
      if row.None? then Err(NoSuchVersion)
      else
        var node := row.value.node;
        var longer := chain + [node];
        if node.parent.None? then
          (if |longer| != depth then Err(DepthMismatch) else Ok(longer))
        else if |longer| > 16 then Err(TooLong)
        else Walk(lib, node.parent.value.0, node.parent.value.1, seen + {(ns, v)}, longer, depth)
  }

  /** The exact immutable ancestry, leaf first. */
  function PinnedChain(lib: Lib, ns: Namespace, v: int): Result<seq<Node>, PromptError> {
    Walk(lib, ns, v, {}, [], |ns|)
  }

  function Locals(chain: seq<Node>): seq<int> {
    if chain == [] then [] else [chain[0].local] + Locals(chain[1..])
  }

  /** An explicitly requested lineage must be the stored one. */
  function ResolveRef(lib: Lib, ns: Namespace, versions: seq<int>): Result<seq<Node>, PromptError>
    requires versions != []
  {
    var chain := PinnedChain(lib, ns, versions[0]);
    if chain.Err? then chain
    else if Locals(chain.value) != versions then Err(NoSuchVersion)
    else chain
  }

  // ---------------------------------------------------------------- the object

  class Store {
    const digest: LocalDigest
    var table: map<Namespace, seq<VersionRow>>
    var selected: map<(Namespace, Purpose), VersionId>

    function State(): Lib
      reads this
    {
      Lib(table, selected)
    }

    constructor (digest: LocalDigest)
      ensures this.digest == digest && State() == EMPTY_LIB
    {
      this.digest := digest;
      table, selected := map[], map[];
    }

    method NextLocalVersion(ns: Namespace) returns (next: int)
      ensures next == NextLocal(State(), ns)
    {
      var rows := Rows(State(), ns);
      var newest := 0;
      for k := 0 to |rows|
        invariant newest == MaxLocal(rows[..k])
      {
        assert rows[..k+1][..k] == rows[..k];
        if rows[k].node.local > newest {
          newest := rows[k].node.local;
        }
      }
      assert rows[..|rows|] == rows;
      return newest + 1;
    }

    method AddVersion(ns: Namespace, mode: string, text: string, vars: map<string, Raw>,
                      asked: Option<int>, state: State) returns (r: Result<Node, PromptError>)
      requires |ns| >= 1
      modifies this`table
      ensures (State(), r) == WriteVersion(digest, old(State()), ns, mode, text, vars, asked, state)
    {
      var m := ModeOf(mode);
      if m.None? || !PromptAgrees(m.value, text) {
        return Err(BadPrompt);
      }
      if HasPlaceholder(text) {
        return Err(Placeholder);
      }
      var checked := ValidateModelVars(vars);
      if checked.Err? {
        return Err(BadVariable(""));
      }
      var parent := BindParent(State(), ns, asked);
      if parent.Err? {
        return Err(parent.error);
      }
      var def := Local(m.value, text, checked.value);
      var next := NextLocalVersion(ns);
      var node := Node(ns, next, parent.value, def, digest(def));
      table := table[ns := Rows(State(), ns) + [VersionRow(node, state)]];
      return Ok(node);
    }

    method Create(name: string, mode: string, text: string, vars: map<string, Raw>,
                  asked: Option<int>, state: State) returns (r: Result<Node, PromptError>)
      modifies this`table
      ensures (State(), r)
              == CreateVersion(digest, old(State()), name, mode, text, vars, asked, state)
    {
      var ns := CheckNamespace(name, true);
      if ns.Err? {
        return Err(ns.error);
      }
      if |ns.value| == 1 && Rows(State(), ns.value) == [] {
        return Err(RootNotEstablished);
      }
      r := AddVersion(ns.value, mode, text, vars, asked, state);
    }

    method Establish(name: string, mode: string, text: string, vars: map<string, Raw>,
                     state: State) returns (r: Result<Node, PromptError>)
      modifies this`table
      ensures (State(), r) == EstablishRoot(digest, old(State()), name, mode, text, vars, state)
    {
      var ns := CheckNamespace(name, true);
      if ns.Err? {
        return Err(ns.error);
      }
      if |ns.value| != 1 {
        return Err(NotARoot);
      }
      if Rows(State(), ns.value) != [] {
        return Err(RootExists);
      }
      r := AddVersion(ns.value, mode, text, vars, None, state);
    }

    method Decide(id: VersionId, state: State) returns (r: Result<(), PromptError>)
      modifies this`table
      ensures (State(), r) == SetState(old(State()), id, state)
    {
      var row := GetVersion(State(), id.0, id.1);
      if row.None? {
        return Err(NoSuchVersion);
      }
      if !row.value.state.MayBecome(state) {
        return Err(IllegalTransition);
      }
      table := table[id.0 := WithState(Rows(State(), id.0), id.1, state)];
      return Ok(());
    }

    method Choose(ns: Namespace, id: VersionId, purpose: Purpose)
      returns (r: Result<(), PromptError>)
      modifies this`selected
      ensures (State(), r) == Select(old(State()), ns, id, purpose)
    {
      var row := GetVersion(State(), id.0, id.1);
      if row.None? {
        return Err(NoSuchVersion);
      }
      if id.0 != ns {
        return Err(WrongNamespace);
      }
      if !row.value.state.Approved() {
        return Err(NotApproved);
      }
      selected := selected[(ns, purpose) := id];
      return Ok(());
    }

    /** Walk up the pinned parents, refusing a cycle, an overlong chain, or one
        whose length is not the namespace's depth. */
    method Ancestry(namespace: Namespace, localVersion: int)
      returns (r: Result<seq<Node>, PromptError>)
      ensures r == PinnedChain(State(), namespace, localVersion)
    {
      var chain: seq<Node> := [];
      var ns, version := namespace, localVersion;
      var seen: set<VersionId> := {};
      while true
        invariant |chain| <= 16
        invariant PinnedChain(State(), namespace, localVersion)
                  == Walk(State(), ns, version, seen, chain, |namespace|)
        decreases 20 - |chain|
      {
        if (ns, version) in seen {
          return Err(Cycle);
        }
        var row := GetVersion(State(), ns, version);
        if row.None? {
          return Err(NoSuchVersion);
        }
        seen := seen + {(ns, version)};
        var node := row.value.node;
        chain := chain + [node];
        if node.parent.None? {
          break;
        }
        ns, version := node.parent.value.0, node.parent.value.1;
        if |chain| > 16 {
          return Err(TooLong);
        }
      }
      if |chain| != |namespace| {
        return Err(DepthMismatch);
      }
      return Ok(chain);
    }
  }
}
