/**
  What the library always looks like, and what follows for ancestry: every
  stored version has a complete pinned chain, and no later write changes it.
 */
module PromptLineage {
  import opened Outcomes
  import opened PromptModel
  import opened PromptStore

  ghost predicate Numbered(rows: seq<VersionRow>, from: int) {
    forall k :: 0 <= k < |rows| ==> rows[k].node.local == from + k
  }

  /** A stored definition would pass the checks again, unchanged. */
  ghost predicate StoredLocal(def: Local) {
    PromptAgrees(def.mode, def.text) && !HasPlaceholder(def.text)
    && AllAccepted(RawOf(def.vars)) && NormaliseAll(RawOf(def.vars)) == def.vars
  }

  ghost predicate NodeOk(digest: LocalDigest, lib: Lib, ns: Namespace, n: Node) {
    |ns| >= 1 && n.ns == ns && n.digest == digest(n.def) && StoredLocal(n.def)
    && (if |ns| == 1 then n.parent == None
        else n.parent.Some? && n.parent.value.0 == Parent(ns)
             && GetVersion(lib, Parent(ns), n.parent.value.1).Some?)
  }

  ghost predicate NamespaceOk(digest: LocalDigest, lib: Lib, ns: Namespace) {
    ValidNamespace(ns) && Rows(lib, ns) != [] && Numbered(Rows(lib, ns), 1)
    && forall k :: 0 <= k < |Rows(lib, ns)| ==> NodeOk(digest, lib, ns, Rows(lib, ns)[k].node)
  }

  ghost predicate TableOk(digest: LocalDigest, lib: Lib) {
    forall ns {:trigger NamespaceOk(digest, lib, ns)} ::
      ns in lib.table ==> NamespaceOk(digest, lib, ns)
  }

  ghost predicate SelectionsOk(lib: Lib) {
    forall key :: key in lib.selected ==>
      lib.selected[key].0 == key.0
      && GetVersion(lib, lib.selected[key].0, lib.selected[key].1).Some?
  }

  ghost predicate LibOk(digest: LocalDigest, lib: Lib) {
    TableOk(digest, lib) && SelectionsOk(lib)
  }

  // ---------------------------------------------------------------- lookups

  lemma {:induction false} FindNumbered(rows: seq<VersionRow>, from: int, v: int)
    requires Numbered(rows, from)
    ensures Find(rows, v) == if from <= v < from + |rows| then Some(rows[v-from]) else None
  {
    if rows != [] && rows[0].node.local != v {
      FindNumbered(rows[1..], from + 1, v);
    }
  }

  lemma {:induction false} MaxNumbered(rows: seq<VersionRow>)
    requires Numbered(rows, 1)
    ensures MaxLocal(rows) == |rows|
  {
    if rows != [] {
      MaxNumbered(rows[..|rows|-1]);
    }
  }

  lemma GetIs(digest: LocalDigest, lib: Lib, ns: Namespace, v: int)
    requires TableOk(digest, lib)
    ensures GetVersion(lib, ns, v)
            == if 1 <= v <= |Rows(lib, ns)| then Some(Rows(lib, ns)[v-1]) else None
    ensures NextLocal(lib, ns) == |Rows(lib, ns)| + 1
    ensures Rows(lib, ns) != [] ==> ns in lib.table && ValidNamespace(ns)
  {
    assert ns in lib.table ==> NamespaceOk(digest, lib, ns);
    FindNumbered(Rows(lib, ns), 1, v);
    MaxNumbered(Rows(lib, ns));
  }

  /** A stored version, with everything the library guarantees of it. */
  lemma GotNode(digest: LocalDigest, lib: Lib, ns: Namespace, v: int)
    requires TableOk(digest, lib) && GetVersion(lib, ns, v).Some?
    ensures ValidNamespace(ns) && ns in lib.table && 1 <= v <= |Rows(lib, ns)|
    ensures GetVersion(lib, ns, v).value == Rows(lib, ns)[v-1]
    ensures NodeOk(digest, lib, ns, GetVersion(lib, ns, v).value.node)
    ensures GetVersion(lib, ns, v).value.node.local == v
  {
    GetIs(digest, lib, ns, v);
    assert NamespaceOk(digest, lib, ns);
  }

  // ---------------------------------------------------------------- growth

  /** Nothing stored is lost and no immutable column changes. */
  ghost predicate Grows(lib: Lib, later: Lib) {
    forall ns :: |Rows(lib, ns)| <= |Rows(later, ns)|
                 && forall k :: 0 <= k < |Rows(lib, ns)| ==>
                      Rows(later, ns)[k].node == Rows(lib, ns)[k].node
  }

  lemma GrowsKeepsVersions(digest: LocalDigest, lib: Lib, later: Lib, ns: Namespace, v: int)
    requires TableOk(digest, lib) && Grows(lib, later) && NumberedAll(later)
    requires GetVersion(lib, ns, v).Some?
    ensures GetVersion(later, ns, v).Some?
    ensures GetVersion(later, ns, v).value.node == GetVersion(lib, ns, v).value.node
  {
    GotNode(digest, lib, ns, v);
    FindNumbered(Rows(later, ns), 1, v);
  }

  ghost predicate NumberedAll(lib: Lib) {
    forall ns :: Numbered(Rows(lib, ns), 1)
  }

  lemma TableIsNumbered(digest: LocalDigest, lib: Lib)
    requires TableOk(digest, lib)
    ensures NumberedAll(lib)
  {
    forall ns ensures Numbered(Rows(lib, ns), 1) {
      assert ns in lib.table ==> NamespaceOk(digest, lib, ns);
    }
  }

  /** A library that grew out of a good one is good if its new rows are. */
  lemma GrownTableOk(digest: LocalDigest, lib: Lib, later: Lib)
    requires TableOk(digest, lib) && Grows(lib, later) && NumberedAll(later)
    requires forall ns :: ns in later.table ==> ValidNamespace(ns) && Rows(later, ns) != []
    requires forall ns, k :: ns in later.table && |Rows(lib, ns)| <= k < |Rows(later, ns)| ==>
               NodeOk(digest, lib, ns, Rows(later, ns)[k].node)
    ensures TableOk(digest, later)
  {
    forall ns | ns in later.table ensures NamespaceOk(digest, later, ns) {
      forall k | 0 <= k < |Rows(later, ns)|
        ensures NodeOk(digest, later, ns, Rows(later, ns)[k].node)
      {
        if k < |Rows(lib, ns)| {
          assert NamespaceOk(digest, lib, ns);
        }
        assert NodeOk(digest, lib, ns, Rows(later, ns)[k].node);
        if |ns| > 1 {
          var p := Rows(later, ns)[k].node.parent.value;
          GrowsKeepsVersions(digest, lib, later, p.0, p.1);
        }
      }
    }
  }

  lemma GrownSelectionsOk(digest: LocalDigest, lib: Lib, later: Lib)
    requires TableOk(digest, lib) && Grows(lib, later) && NumberedAll(later)
    requires SelectionsOk(lib) && later.selected == lib.selected
    ensures SelectionsOk(later)
  {
    forall key | key in later.selected
      ensures GetVersion(later, later.selected[key].0, later.selected[key].1).Some?
    {
      GrowsKeepsVersions(digest, lib, later, lib.selected[key].0, lib.selected[key].1);
    }
  }

  // ---------------------------------------------------------------- writes

  lemma CheckedIsStored(mode: string, text: string, vars: map<string, Raw>)
    requires CheckedLocal(mode, text, vars).Ok?
    ensures StoredLocal(CheckedLocal(mode, text, vars).value)
  {
    StoredVarsReadBack(vars);
  }

  lemma WrittenNode(digest: LocalDigest, lib: Lib, ns: Namespace, mode: string, text: string,
                    vars: map<string, Raw>, asked: Option<int>, state: State)
    requires TableOk(digest, lib) && ValidNamespace(ns)
    ensures var (later, r) := WriteVersion(digest, lib, ns, mode, text, vars, asked, state);
            if r.Ok? then
              later == Insert(lib, VersionRow(r.value, state))
              && NodeOk(digest, lib, ns, r.value) && r.value.local == |Rows(lib, ns)| + 1
            else later == lib
  {
    if CheckedLocal(mode, text, vars).Ok? {
      CheckedIsStored(mode, text, vars);
    }
    GetIs(digest, lib, ns, 0);
  }

  lemma InsertKeepsLib(digest: LocalDigest, lib: Lib, row: VersionRow)
    requires LibOk(digest, lib) && ValidNamespace(row.node.ns)
    requires NodeOk(digest, lib, row.node.ns, row.node)
    requires row.node.local == |Rows(lib, row.node.ns)| + 1
    ensures LibOk(digest, Insert(lib, row)) && Grows(lib, Insert(lib, row))
  {
    var later, ns := Insert(lib, row), row.node.ns;
    forall other ensures Rows(later, other)
                         == if other == ns then Rows(lib, ns) + [row] else Rows(lib, other) {
    }
    TableIsNumbered(digest, lib);
    forall other ensures Numbered(Rows(later, other), 1) {
      assert Numbered(Rows(lib, other), 1);
    }
    forall other | other in lib.table ensures ValidNamespace(other) && Rows(lib, other) != [] {
      assert NamespaceOk(digest, lib, other);
    }
    assert Grows(lib, later);
    forall other, k | other in later.table && |Rows(lib, other)| <= k < |Rows(later, other)|
      ensures NodeOk(digest, lib, other, Rows(later, other)[k].node)
    {
      assert other == ns && Rows(later, other)[k] == row;
    }
    GrownTableOk(digest, lib, later);
    GrownSelectionsOk(digest, lib, later);
  }

  lemma WriteKeepsLib(digest: LocalDigest, lib: Lib, ns: Namespace, mode: string, text: string,
                      vars: map<string, Raw>, asked: Option<int>, state: State)
    requires LibOk(digest, lib) && ValidNamespace(ns)
    ensures var (later, r) := WriteVersion(digest, lib, ns, mode, text, vars, asked, state);
            LibOk(digest, later) && Grows(lib, later)
  {
    var (later, r) := WriteVersion(digest, lib, ns, mode, text, vars, asked, state);
    WrittenNode(digest, lib, ns, mode, text, vars, asked, state);
    if r.Ok? {
      InsertKeepsLib(digest, lib, VersionRow(r.value, state));
    }
  }

  lemma {:induction false} WithStateKeepsNodes(rows: seq<VersionRow>, v: int, state: State)
    ensures |WithState(rows, v, state)| == |rows|
    ensures forall k :: 0 <= k < |rows| ==> WithState(rows, v, state)[k].node == rows[k].node
  {
    if rows != [] {
      WithStateKeepsNodes(rows[1..], v, state);
    }
  }

  lemma SetStateKeepsLib(digest: LocalDigest, lib: Lib, id: VersionId, state: State)
    requires LibOk(digest, lib)
    ensures LibOk(digest, SetState(lib, id, state).0) && Grows(lib, SetState(lib, id, state).0)
  {
    var (later, r) := SetState(lib, id, state);
    TableIsNumbered(digest, lib);
    if r.Ok? {
      WithStateKeepsNodes(Rows(lib, id.0), id.1, state);
      GotNode(digest, lib, id.0, id.1);
      forall other ensures |Rows(later, other)| == |Rows(lib, other)|
      ensures forall k :: 0 <= k < |Rows(lib, other)| ==>
                Rows(later, other)[k].node == Rows(lib, other)[k].node {
      }
      forall other | other in lib.table ensures ValidNamespace(other) && Rows(lib, other) != [] {
        assert NamespaceOk(digest, lib, other);
      }
      GrownTableOk(digest, lib, later);
      GrownSelectionsOk(digest, lib, later);
    }
  }

  lemma SelectKeepsLib(digest: LocalDigest, lib: Lib, ns: Namespace, id: VersionId,
                       purpose: Purpose)
    requires LibOk(digest, lib)
    ensures LibOk(digest, Select(lib, ns, id, purpose).0)
    ensures Grows(lib, Select(lib, ns, id, purpose).0)
  {
    var later := Select(lib, ns, id, purpose).0;
    assert later.table == lib.table;
    forall other, v ensures GetVersion(later, other, v) == GetVersion(lib, other, v) {
    }
    forall other | other in later.table ensures NamespaceOk(digest, later, other) {
      assert NamespaceOk(digest, lib, other);
    }
  }

  lemma CreateKeepsLib(digest: LocalDigest, lib: Lib, name: string, mode: string, text: string,
                       vars: map<string, Raw>, asked: Option<int>, state: State)
    requires LibOk(digest, lib)
    ensures var later := CreateVersion(digest, lib, name, mode, text, vars, asked, state).0;
            LibOk(digest, later) && Grows(lib, later)
  {
    AcceptedNamespaces(name);
    if ValidateNamespace(name, true).Ok? {
      WriteKeepsLib(digest, lib, ValidateNamespace(name, true).value, mode, text, vars, asked,
                    state);
    }
  }

  lemma EstablishKeepsLib(digest: LocalDigest, lib: Lib, name: string, mode: string, text: string,
                          vars: map<string, Raw>, state: State)
    requires LibOk(digest, lib)
    ensures var later := EstablishRoot(digest, lib, name, mode, text, vars, state).0;
            LibOk(digest, later) && Grows(lib, later)
  {
    AcceptedNamespaces(name);
    if ValidateNamespace(name, true).Ok? {
      WriteKeepsLib(digest, lib, ValidateNamespace(name, true).value, mode, text, vars, None,
                    state);
    }
  }

  // ---------------------------------------------------------------- ancestry

  /** The lineage read off the bindings, leaf first, one node for each level. */
  ghost function Ancestors(digest: LocalDigest, lib: Lib, ns: Namespace, v: int): seq<Node>
    requires TableOk(digest, lib) && GetVersion(lib, ns, v).Some?
    decreases |ns|
  {
    GotNode(digest, lib, ns, v);
    var node := GetVersion(lib, ns, v).value.node;
    if |ns| == 1 then [node]
    else [node] + Ancestors(digest, lib, Parent(ns), node.parent.value.1)
  }

  lemma {:induction false} AncestorsShape(digest: LocalDigest, lib: Lib, ns: Namespace, v: int)
    requires TableOk(digest, lib) && GetVersion(lib, ns, v).Some?
    ensures var chain := Ancestors(digest, lib, ns, v);
            |chain| == |ns| && chain[0].local == v
            && (forall k :: 0 <= k < |chain| ==> chain[k].ns == ns[..|ns|-k])
            && forall k :: 0 <= k < |chain| - 1 ==>
                 chain[k].parent == Some((chain[k+1].ns, chain[k+1].local))
    decreases |ns|
  {
    GotNode(digest, lib, ns, v);
    var node := GetVersion(lib, ns, v).value.node;
    if |ns| > 1 {
      var rest := Ancestors(digest, lib, Parent(ns), node.parent.value.1);
      AncestorsShape(digest, lib, Parent(ns), node.parent.value.1);
      forall k | 0 <= k < |ns| ensures Ancestors(digest, lib, ns, v)[k].ns == ns[..|ns|-k] {
        if k > 0 {
          assert rest[k-1].ns == Parent(ns)[..|ns|-k];
        } else {
          assert ns[..|ns|] == ns;
        }
      }
    } else {
      assert ns[..1] == ns;
    }
  }

  lemma {:induction false} WalkSucceeds(digest: LocalDigest, lib: Lib, ns: Namespace, v: int,
                                        seen: set<VersionId>, chain: seq<Node>, depth: nat)
    requires TableOk(digest, lib) && GetVersion(lib, ns, v).Some?
    requires |chain| + |ns| == depth <= MAX_DEPTH
    requires forall id :: id in seen ==> |id.0| > |ns|
    ensures Walk(lib, ns, v, seen, chain, depth) == Ok(chain + Ancestors(digest, lib, ns, v))
    decreases |ns|
  {
    GotNode(digest, lib, ns, v);
    var node := GetVersion(lib, ns, v).value.node;
    if |ns| > 1 {
      WalkSucceeds(digest, lib, Parent(ns), node.parent.value.1, seen + {(ns, v)}, chain + [node],
                   depth);
      assert chain + [node] + Ancestors(digest, lib, Parent(ns), node.parent.value.1)
             == chain + Ancestors(digest, lib, ns, v);
    }
  }

  /** For every stored version the pinned chain exists: one node for each level of
      the namespace, in ancestor order. Its refusals are unreachable. */
  lemma PinnedChainIsTotal(digest: LocalDigest, lib: Lib, ns: Namespace, v: int)
    requires LibOk(digest, lib)
    ensures GetVersion(lib, ns, v).Some? ==>
              PinnedChain(lib, ns, v) == Ok(Ancestors(digest, lib, ns, v))
    ensures GetVersion(lib, ns, v).None? ==> PinnedChain(lib, ns, v) == Err(NoSuchVersion)
  {
    if GetVersion(lib, ns, v).Some? {
      GotNode(digest, lib, ns, v);
      WalkSucceeds(digest, lib, ns, v, {}, [], |ns|);
      assert [] + Ancestors(digest, lib, ns, v) == Ancestors(digest, lib, ns, v);
    }
  }

  lemma {:induction false} AncestorsStay(digest: LocalDigest, lib: Lib, later: Lib, ns: Namespace,
                                         v: int)
    requires TableOk(digest, lib) && TableOk(digest, later) && Grows(lib, later)
    requires GetVersion(lib, ns, v).Some?
    ensures GetVersion(later, ns, v).Some?
    ensures Ancestors(digest, later, ns, v) == Ancestors(digest, lib, ns, v)
    decreases |ns|
  {
    TableIsNumbered(digest, later);
    GrowsKeepsVersions(digest, lib, later, ns, v);
    GotNode(digest, lib, ns, v);
    var node := GetVersion(lib, ns, v).value.node;
    if |ns| > 1 {
      AncestorsStay(digest, lib, later, Parent(ns), node.parent.value.1);
    }
  }

  /** A lineage reference resolves exactly when it names the stored ancestry. */
  lemma ResolvesOnlyRealLineage(digest: LocalDigest, lib: Lib, ns: Namespace, versions: seq<int>)
    requires LibOk(digest, lib) && versions != []
    ensures ResolveRef(lib, ns, versions).Ok?
            <==> GetVersion(lib, ns, versions[0]).Some?
                 && Locals(Ancestors(digest, lib, ns, versions[0])) == versions
    ensures ResolveRef(lib, ns, versions).Ok? ==>
              ResolveRef(lib, ns, versions).value == Ancestors(digest, lib, ns, versions[0])
  {
    PinnedChainIsTotal(digest, lib, ns, versions[0]);
  }
}
