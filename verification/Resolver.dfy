/**
  Resolution: a pure function of the pinned ancestry. Text composes root first;
  every variable comes from the nearest level that defines it.
 */
module Resolver {
  import opened Outcomes
  import opened PromptModel
  import opened PromptStore

  type Label = (Namespace, int)

  /** What one level of the lineage did. */
  datatype Contribution = Contribution(
    node: Node, textBefore: string, textAfter: string, shadowedBy: map<string, Label>)

  datatype Resolved = Resolved(
    text: string, vars: map<string, Value>, source: map<string, Label>,
    contributions: seq<Contribution>)

  function LabelOf(n: Node): Label {
    (n.ns, n.local)
  }

  function Reversed(chain: seq<Node>): (r: seq<Node>)
    ensures |r| == |chain|
    ensures forall k :: 0 <= k < |chain| ==> r[k] == chain[|chain|-1-k]
  {
    if chain == [] then [] else Reversed(chain[1..]) + [chain[0]]
  }

  // ------------------------------------------------- level by level

  /** The effective text after the first `n` levels, root first. */
  function Effective(levels: seq<Node>, n: nat): string
    requires n <= |levels|
  {
    if n == 0 then ""
    else Compose(Effective(levels, n - 1), levels[n-1].def.text, levels[n-1].def.mode)
  }

  function VarsAfter(levels: seq<Node>, n: nat): map<string, Value>
    requires n <= |levels|
  {
    if n == 0 then map[] else VarsAfter(levels, n - 1) + levels[n-1].def.vars
  }

  function SourcesOf(n: Node): map<string, Label> {
    map name | name in n.def.vars :: LabelOf(n)
  }

  function SourceAfter(levels: seq<Node>, n: nat): map<string, Label>
    requires n <= |levels|
  {
    if n == 0 then map[] else SourceAfter(levels, n - 1) + SourcesOf(levels[n-1])
  }

  // ------------------------------------------------- the declarative reading

  predicate Defines(levels: seq<Node>, k: nat, name: string) {
    k < |levels| && name in levels[k].def.vars
  }

  /** The nearest of the first `n` levels that defines the variable. */
  function Nearest(levels: seq<Node>, n: nat, name: string): (k: Option<nat>)
    requires n <= |levels|
    ensures k.Some? ==> k.value < n && Defines(levels, k.value, name)
                        && forall j :: k.value < j < n ==> !Defines(levels, j, name)
    ensures k.None? ==> forall j :: 0 <= j < n ==> !Defines(levels, j, name)
  {
    if n == 0 then None
    else if Defines(levels, n - 1, name) then Some(n - 1)
    else Nearest(levels, n - 1, name)
  }

  /** The first level below `k` that defines the variable again. */
  function NextBelow(levels: seq<Node>, n: nat, name: string, k: nat): (j: Option<nat>)
    requires n <= |levels|
    ensures j.Some? ==> k < j.value < n && Defines(levels, j.value, name)
                        && forall i :: k < i < j.value ==> !Defines(levels, i, name)
    ensures j.None? ==> forall i :: k < i < n ==> !Defines(levels, i, name)
  {
    if n == 0 then None
    else
      var earlier := NextBelow(levels, n - 1, name, k);
      if earlier.Some? then earlier
      else if k < n - 1 && Defines(levels, n - 1, name) then Some(n - 1)
      else None
  }

  /** Which definitions of level `k` are overridden, and by whom. */
  function Shadows(levels: seq<Node>, n: nat, k: nat): map<string, Label>
    requires k < n <= |levels|
  {
    map name | name in levels[k].def.vars && NextBelow(levels, n, name, k).Some? ::
      LabelOf(levels[NextBelow(levels, n, name, k).value])
  }

  /** Every variable has the value, and the source, of its nearest definer. */
  lemma {:induction false} NearestWins(levels: seq<Node>, n: nat, name: string)
    requires n <= |levels|
    ensures var k := Nearest(levels, n, name);
            (name in VarsAfter(levels, n) <==> k.Some?)
            && (name in SourceAfter(levels, n) <==> k.Some?)
            && (k.Some? ==> VarsAfter(levels, n)[name] == levels[k.value].def.vars[name]
                            && SourceAfter(levels, n)[name] == LabelOf(levels[k.value]))
  {
    if n > 0 {
      NearestWins(levels, n - 1, name);
    }
  }

  ghost predicate DistinctLabels(levels: seq<Node>) {
    forall i, j :: 0 <= i < j < |levels| ==> LabelOf(levels[i]) != LabelOf(levels[j])
  }

  // ------------------------------------------------- the loops

  /** Part of level `n`'s shadow records: `done` of its variables were read. */
  function PartShadows(levels: seq<Node>, n: nat, k: nat, done: set<string>): map<string, Label>
    requires k < n < |levels|
  {
    map name | name in levels[k].def.vars
               && (NextBelow(levels, n, name, k).Some? || name in done) ::
      if NextBelow(levels, n, name, k).Some?
      then LabelOf(levels[NextBelow(levels, n, name, k).value]) else LabelOf(levels[n])
  }

  lemma AllShadowsRead(levels: seq<Node>, n: nat, k: nat)
    requires k < n < |levels|
    ensures PartShadows(levels, n, k, {}) == Shadows(levels, n, k)
    ensures PartShadows(levels, n, k, levels[n].def.vars.Keys) == Shadows(levels, n + 1, k)
  {
  }

  /** Reading one more variable extends the records of its nearest definer and
      of nobody else. */
  lemma OneMoreShadow(levels: seq<Node>, n: nat, k: nat, done: set<string>, name: string)
    requires k < n < |levels| && name !in done
    ensures PartShadows(levels, n, k, done + {name})
            == if Nearest(levels, n, name) == Some(k)
               then PartShadows(levels, n, k, done)[name := LabelOf(levels[n])]
               else PartShadows(levels, n, k, done)
  {
    var nearest := Nearest(levels, n, name);
    if nearest == Some(k) {
      assert NextBelow(levels, n, name, k).None?;
    } else if Defines(levels, k, name) {
      assert nearest.Some? && k < nearest.value;
      assert NextBelow(levels, n, name, k).Some?;
    }
  }

  /** Mark the first contribution whose label is the overridden source. */
  method RecordShadow(cs: seq<Contribution>, previous: Label, name: string, overrider: Label)
    returns (r: seq<Contribution>)
    requires forall i, j :: 0 <= i < j < |cs| ==> LabelOf(cs[i].node) != LabelOf(cs[j].node)
    ensures |r| == |cs|
    ensures forall k :: 0 <= k < |cs| ==>
              r[k] == if LabelOf(cs[k].node) == previous
                      then cs[k].(shadowedBy := cs[k].shadowedBy[name := overrider]) else cs[k]
  {
    for k := 0 to |cs|
      invariant forall j :: 0 <= j < k ==> LabelOf(cs[j].node) != previous
    {
      if LabelOf(cs[k].node) == previous {
        return cs[k := cs[k].(shadowedBy := cs[k].shadowedBy[name := overrider])];
      }
    }
    return cs;
  }

  function Contributed(levels: seq<Node>, k: nat, shadowedBy: map<string, Label>): Contribution
    requires k < |levels|
  {
    Contribution(levels[k], Effective(levels, k), Effective(levels, k + 1), shadowedBy)
  }

  function Restrict<V>(m: map<string, V>, names: set<string>): map<string, V> {
    map name | name in m && name in names :: m[name]
  }

  /** Values and sources once `done` of level `n`'s variables were read. */
  function PartVars(levels: seq<Node>, n: nat, done: set<string>): map<string, Value>
    requires n < |levels|
  {
    VarsAfter(levels, n) + Restrict(levels[n].def.vars, done)
  }

  function PartSource(levels: seq<Node>, n: nat, done: set<string>): map<string, Label>
    requires n < |levels|
  {
    SourceAfter(levels, n) + Restrict(SourcesOf(levels[n]), done)
  }

  lemma RestrictMore<V>(base: map<string, V>, own: map<string, V>, done: set<string>, name: string)
    requires name in own
    ensures base + Restrict(own, done + {name}) == (base + Restrict(own, done))[name := own[name]]
  {
  }

  lemma RestrictEnds<V>(base: map<string, V>, own: map<string, V>)
    ensures base + Restrict(own, {}) == base && base + Restrict(own, own.Keys) == base + own
  {
    assert Restrict(own, own.Keys) == own;
  }

  /** Before a variable of level `n` is read, its source is the nearest above. */
  lemma SourceBefore(levels: seq<Node>, n: nat, done: set<string>, name: string)
    requires n < |levels| && name !in done
    ensures name in PartSource(levels, n, done) <==> Nearest(levels, n, name).Some?
    ensures name in PartSource(levels, n, done) ==>
              PartSource(levels, n, done)[name]
              == LabelOf(levels[Nearest(levels, n, name).value])
  {
    NearestWins(levels, n, name);
  }

  ghost predicate ReadSoFar(levels: seq<Node>, n: nat, done: set<string>, cs: seq<Contribution>)
    requires n < |levels|
  {
    |cs| == n
    && forall k :: 0 <= k < n ==>
         cs[k] == Contributed(levels, k, PartShadows(levels, n, k, done))
  }

  /** One variable: if a level above had defined it, that level's record learns
      who overrides it. */
  method ReadVar(levels: seq<Node>, n: nat, ghost done: set<string>, name: string,
                 source: map<string, Label>, cs0: seq<Contribution>)
    returns (cs: seq<Contribution>)
    requires n < |levels| && DistinctLabels(levels) && name !in done
    requires ReadSoFar(levels, n, done, cs0)
    requires name in source <==> Nearest(levels, n, name).Some?
    requires name in source ==> source[name] == LabelOf(levels[Nearest(levels, n, name).value])
    ensures ReadSoFar(levels, n, done + {name}, cs)
  {
    cs := cs0;
    if name in source {
      cs := RecordShadow(cs0, source[name], name, LabelOf(levels[n]));
    }
    forall k | 0 <= k < n
      ensures cs[k] == Contributed(levels, k, PartShadows(levels, n, k, done + {name}))
    {
      OneMoreShadow(levels, n, k, done, name);
    }
  }

  lemma ReadSoFarEnds(levels: seq<Node>, n: nat, cs: seq<Contribution>)
    requires n < |levels| && |cs| == n
    ensures ReadSoFar(levels, n, {}, cs) <==>
              forall k :: 0 <= k < n ==> cs[k] == Contributed(levels, k, Shadows(levels, n, k))
    ensures ReadSoFar(levels, n, levels[n].def.vars.Keys, cs) <==>
              forall k :: 0 <= k < n ==> cs[k] == Contributed(levels, k, Shadows(levels, n + 1, k))
  {
    forall k | 0 <= k < n
      ensures PartShadows(levels, n, k, {}) == Shadows(levels, n, k)
      ensures PartShadows(levels, n, k, levels[n].def.vars.Keys) == Shadows(levels, n + 1, k)
    {
      AllShadowsRead(levels, n, k);
    }
  }

  /** One level's variables, one after another in any order. */
  method ReadVars(levels: seq<Node>, n: nat, vars0: map<string, Value>,
                  source0: map<string, Label>, cs0: seq<Contribution>)
    returns (vars: map<string, Value>, source: map<string, Label>, cs: seq<Contribution>)
    requires n < |levels| && DistinctLabels(levels)
    requires vars0 == VarsAfter(levels, n) && source0 == SourceAfter(levels, n)
    requires |cs0| == n
    requires forall k :: 0 <= k < n ==> cs0[k] == Contributed(levels, k, Shadows(levels, n, k))
    ensures vars == VarsAfter(levels, n + 1) && source == SourceAfter(levels, n + 1)
    ensures |cs| == n
    ensures forall k :: 0 <= k < n ==> cs[k] == Contributed(levels, k, Shadows(levels, n + 1, k))
  {
    var own, labels := levels[n].def.vars, SourcesOf(levels[n]);
    vars, source, cs := vars0, source0, cs0;
    ghost var done: set<string> := {};
    var todo := own.Keys;
    ReadSoFarEnds(levels, n, cs0);
    RestrictEnds(vars0, own);
    RestrictEnds(source0, labels);
    while todo != {}
      invariant todo + done == own.Keys && todo !! done
      invariant vars == PartVars(levels, n, done)
      invariant source == PartSource(levels, n, done)
      invariant ReadSoFar(levels, n, done, cs)
    {
      var name :| name in todo;
      SourceBefore(levels, n, done, name);
      cs := ReadVar(levels, n, done, name, source, cs);
      RestrictMore(vars0, own, done, name);
      RestrictMore(source0, labels, done, name);
      vars := vars[name := own[name]];
      source := source[name := LabelOf(levels[n])];
      todo, done := todo - {name}, done + {name};
    }
    assert done == own.Keys && labels.Keys == own.Keys;
    assert vars == vars0 + own && source == source0 + labels;
    ReadSoFarEnds(levels, n, cs);
  }

  /** Resolve a pinned chain, given leaf first. Its labels are distinct because
      its namespaces are. */
  method ResolveChain(chain: seq<Node>) returns (r: Result<Resolved, PromptError>)
    requires DistinctLabels(Reversed(chain))
    ensures chain == [] ==> r == Err(EmptyLineage)
    ensures var levels := Reversed(chain);
            chain != [] ==>
              if HasPlaceholder(Effective(levels, |levels|)) then r == Err(Placeholder)
              else r.Ok? && ReadsAs(levels, r.value)
  {
    if chain == [] {
      return Err(EmptyLineage);
    }
    var levels := Reversed(chain);
    var text := "";
    var vars: map<string, Value>, source: map<string, Label> := map[], map[];
    var cs: seq<Contribution> := [];
    for n := 0 to |levels|
      invariant text == Effective(levels, n)
      invariant vars == VarsAfter(levels, n) && source == SourceAfter(levels, n)
      invariant |cs| == n
      invariant forall k :: 0 <= k < n ==> cs[k] == Contributed(levels, k, Shadows(levels, n, k))
    {
      var before := text;
      text := Compose(before, levels[n].def.text, levels[n].def.mode);
      vars, source, cs := ReadVars(levels, n, vars, source, cs);
      assert Shadows(levels, n + 1, n) == map[];
      cs := cs + [Contribution(levels[n], before, text, map[])];
    }
    if HasPlaceholder(text) {
      return Err(Placeholder);
    }
    return Ok(Resolved(text, vars, source, cs));
  }

  /** The resolved profile, level for level. */
  ghost predicate ReadsAs(levels: seq<Node>, p: Resolved) {
    var n := |levels|;
    p.text == Effective(levels, n)
    && p.vars == VarsAfter(levels, n) && p.source == SourceAfter(levels, n)
    && |p.contributions| == n
    && forall k :: 0 <= k < n ==>
         p.contributions[k] == Contributed(levels, k, Shadows(levels, n, k))
  }

  /** The declarative reading of a resolved profile: a variable has the value and
      label of the nearest level that defines it, and a level's definition is
      recorded as overridden exactly by the next level below that redefines it. */
  lemma ResolutionIsDeclarative(levels: seq<Node>, p: Resolved, name: string, k: nat)
    requires ReadsAs(levels, p) && k < |levels|
    ensures var nearest := Nearest(levels, |levels|, name);
            (name in p.vars <==> nearest.Some?)
            && (nearest.Some? ==> name in p.source
                                  && p.vars[name] == levels[nearest.value].def.vars[name]
                                  && p.source[name] == LabelOf(levels[nearest.value]))
    ensures var below := NextBelow(levels, |levels|, name, k);
            (name in p.contributions[k].shadowedBy
             <==> Defines(levels, k, name) && Nearest(levels, |levels|, name) != Some(k))
            && (name in p.contributions[k].shadowedBy ==>
                  below.Some?
                  && p.contributions[k].shadowedBy[name] == LabelOf(levels[below.value]))
  {
    NearestWins(levels, |levels|, name);
    var nearest := Nearest(levels, |levels|, name);
    var below := NextBelow(levels, |levels|, name, k);
    assert name in Shadows(levels, |levels|, k) <==> Defines(levels, k, name) && below.Some?;
    if Defines(levels, k, name) && below.Some? {
      assert nearest.Some? && nearest.value >= below.value;
    }
  }

  /** What one level makes of the text above it: it keeps it, replaces it, or puts its
      own after or before it, with a blank line between two texts that are not empty. */
  ghost predicate Makes(above: string, n: Node, below: string) {
    var own := n.def.text;
    (n.def.mode == Inherit ==> below == above)
    && (n.def.mode == Replace ==> below == own)
    && (n.def.mode in {Append, Prepend} && own == "" ==> below == above)
    && (n.def.mode in {Append, Prepend} && above == "" ==> below == own)
    && (n.def.mode == Append && above != "" && own != "" ==> below == above + "\n\n" + own)
    && (n.def.mode == Prepend && above != "" && own != "" ==> below == own + "\n\n" + above)
  }

  /** The levels' own account: one contribution each, root first, starting from no
      text; each takes up the text where the one above left it, and the last leaves
      the profile's. */
  lemma ContributionsChain(levels: seq<Node>, p: Resolved)
    requires ReadsAs(levels, p) && levels != []
    ensures |p.contributions| == |levels| && p.contributions[0].textBefore == ""
    ensures p.contributions[|levels|-1].textAfter == p.text
    ensures forall k :: 0 <= k < |levels| ==>
              p.contributions[k].node == levels[k]
              && Makes(p.contributions[k].textBefore, levels[k], p.contributions[k].textAfter)
    ensures forall k :: 0 < k < |levels| ==>
              p.contributions[k].textBefore == p.contributions[k-1].textAfter
  {
  }

  /** A label is the namespace and local number of a level: of the nearest that
      defines the variable for its source, of the next below that defines it again for
      an overridden definition. */
  lemma LabelsName(levels: seq<Node>, p: Resolved, name: string, k: nat, j: nat)
    requires ReadsAs(levels, p) && k < |levels| && j < |levels|
    requires Defines(levels, j, name)
    ensures (forall i :: j < i < |levels| ==> name !in levels[i].def.vars) ==>
              name in p.source && p.source[name].0 == levels[j].ns
              && p.source[name].1 == levels[j].local && name in p.vars
              && p.vars[name] == levels[j].def.vars[name]
    ensures k < j && Defines(levels, k, name)
            && (forall i :: k < i < j ==> name !in levels[i].def.vars) ==>
              name in p.contributions[k].shadowedBy
              && p.contributions[k].shadowedBy[name].0 == levels[j].ns
              && p.contributions[k].shadowedBy[name].1 == levels[j].local
  {
    ResolutionIsDeclarative(levels, p, name, k);
    var nearest, below := Nearest(levels, |levels|, name), NextBelow(levels, |levels|, name, k);
    if forall i :: j < i < |levels| ==> name !in levels[i].def.vars {
      assert nearest == Some(j);
    }
    if k < j && Defines(levels, k, name)
       && forall i :: k < i < j ==> name !in levels[i].def.vars {
      assert below == Some(j);
      assert nearest.value >= j;
    }
  }

  // ------------------------------------------------- the suffix

  /** The text contributed by the levels from `from` on, on its own. */
  function Suffix(levels: seq<Node>, from: nat, n: nat): string
    requires from <= n <= |levels|
  {
    if n == from then ""
    else Compose(Suffix(levels, from, n - 1), levels[n-1].def.text, levels[n-1].def.mode)
  }

  method SuffixAfter(p: Resolved, ns: Namespace) returns (r: Result<string, PromptError>)
    ensures var levels := seq(|p.contributions|,
                              k requires 0 <= k < |p.contributions| => p.contributions[k].node);
            if exists k :: 0 <= k < |levels| && levels[k].ns == ns then
              exists k :: 0 <= k < |levels| && levels[k].ns == ns
                          && (forall j :: 0 <= j < k ==> levels[j].ns != ns)
                          && r == Ok(Suffix(levels, k + 1, |levels|))
            else r == Err(NotInLineage)
  {
    var levels := seq(|p.contributions|,
                      k requires 0 <= k < |p.contributions| => p.contributions[k].node);
    var at := 0;
    while at < |levels| && levels[at].ns != ns
      invariant at <= |levels|
      invariant forall j :: 0 <= j < at ==> levels[j].ns != ns
    {
      at := at + 1;
    }
    if at == |levels| {
      return Err(NotInLineage);
    }
    var text := "";
    for k := at + 1 to |levels|
      invariant text == Suffix(levels, at + 1, k)
    {
      text := Compose(text, levels[k].def.text, levels[k].def.mode);
    }
    return Ok(text);
  }

  predicate Additive(levels: seq<Node>, from: nat, n: nat)
    requires from <= n <= |levels|
  {
    forall k :: from <= k < n ==> levels[k].def.mode == Append || levels[k].def.mode == Inherit
  }

  /** With only appending or inheriting levels below, what is injected after the
      primed ancestors is exactly the rest of the profile. */
  lemma {:induction false} SuffixCompletes(levels: seq<Node>, from: nat, n: nat)
    requires from <= n <= |levels| && Additive(levels, from, n)
    ensures Joined(Effective(levels, from), Suffix(levels, from, n)) == Effective(levels, n)
  {
    if from < n {
      SuffixCompletes(levels, from, n - 1);
      JoinedAssociates(Effective(levels, from), Suffix(levels, from, n - 1), levels[n-1].def.text);
    }
  }

  /** Levels in given modes, each with the same one-letter text. */
  function Uniform(modes: seq<Mode>): seq<Node> {
    seq(|modes|, k requires 0 <= k < |modes| =>
      Node([], k, None, Local(modes[k], "x", map[]), ""))
  }

  /** Fold the texts of `levels` onto a starting text. */
  function FoldOnto(base: string, levels: seq<Node>, n: nat): string
    requires n <= |levels|
  {
    if n == 0 then base
    else Compose(FoldOnto(base, levels, n - 1), levels[n-1].def.text, levels[n-1].def.mode)
  }

  /** Injecting the suffix after any primed text gives the composed text. */
  ghost predicate SuffixFaithful(modes: seq<Mode>) {
    forall base: string, levels: seq<Node> ::
      |levels| == |modes| && (forall k :: 0 <= k < |modes| ==> levels[k].def.mode == modes[k]) ==>
        Joined(base, FoldOnto("", levels, |levels|)) == FoldOnto(base, levels, |levels|)
  }

  lemma {:induction false} AppendFaithful(base: string, levels: seq<Node>, n: nat)
    requires n <= |levels| && Additive(levels, 0, n)
    ensures Joined(base, FoldOnto("", levels, n)) == FoldOnto(base, levels, n)
  {
    if n > 0 {
      AppendFaithful(base, levels, n - 1);
      JoinedAssociates(base, FoldOnto("", levels, n - 1), levels[n-1].def.text);
    }
  }

  /** Folding the levels below onto a primed text is what resolution does. */
  lemma {:induction false} FoldIsResolution(levels: seq<Node>, from: nat, m: nat)
    requires from + m <= |levels|
    ensures FoldOnto("", levels[from..], m) == Suffix(levels, from, from + m)
    ensures FoldOnto(Effective(levels, from), levels[from..], m) == Effective(levels, from + m)
  {
    if m > 0 {
      FoldIsResolution(levels, from, m - 1);
      assert levels[from..][m-1] == levels[from + m - 1];
    }
  }

  /** Where a base text "p" ends up among uniform levels: a replacement loses it,
      a prepended level comes before it. */
  lemma {:induction false} BaseMisplaced(modes: seq<Mode>, n: nat)
    requires n <= |modes|
    ensures var levels := Uniform(modes);
            var bare, full := FoldOnto("", levels, n), FoldOnto("p", levels, n);
            if exists k :: 0 <= k < n && modes[k] == Replace then full == bare && bare != ""
            else if exists k :: 0 <= k < n && modes[k] == Prepend then full != "" && full[0] == 'x'
            else true
    ensures FoldOnto("p", Uniform(modes), n) != ""
  {
    if n > 0 {
      BaseMisplaced(modes, n - 1);
    }
  }

  /** The suffix reproduces the profile for all texts exactly when no level below
      prepends or replaces. */
  lemma SuffixFaithfulIff(modes: seq<Mode>)
    ensures SuffixFaithful(modes)
            <==> forall k :: 0 <= k < |modes| ==> modes[k] == Append || modes[k] == Inherit
  {
    if forall k :: 0 <= k < |modes| ==> modes[k] == Append || modes[k] == Inherit {
      forall base: string, levels: seq<Node> |
        |levels| == |modes| && forall k :: 0 <= k < |modes| ==> levels[k].def.mode == modes[k]
        ensures Joined(base, FoldOnto("", levels, |levels|)) == FoldOnto(base, levels, |levels|)
      {
        AppendFaithful(base, levels, |levels|);
      }
    } else {
      var levels := Uniform(modes);
      var bare, full := FoldOnto("", levels, |levels|), FoldOnto("p", levels, |levels|);
      BaseMisplaced(modes, |modes|);
      if exists k :: 0 <= k < |modes| && modes[k] == Replace {
        assert |Joined("p", bare)| > |full|;
      } else {
        var k :| 0 <= k < |modes| && modes[k] == Prepend;
        assert Joined("p", bare)[0] == 'p';
      }
      assert Joined("p", bare) != full;
    }
  }
}
