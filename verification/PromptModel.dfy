/**
  The vocabulary of the prompt library: namespaces, composition, the checks on a
  local definition, and the model variables.
 */
module PromptModel {
  import opened Outcomes

  /** A namespace, split into its components, root first. */
  type Namespace = seq<string>

  const MAX_DEPTH: nat := 8
  const MAX_COMPONENT_CHARS: nat := 48
  const MAX_STOP_SEQUENCES: nat := 8
  const ROOTS := {"ego", "id"}
  const SEPARATOR := "\n\n"

  datatype PromptError =
    | BadNamespace | BadPrompt | Placeholder | BadVariable(name: string) | BadReference
    | RootNotEstablished | NotARoot | RootExists | RootHasNoParent | NoParentSelected
    | NoSuchVersion | Cycle | TooLong | DepthMismatch | EmptyLineage | NotInLineage
    | IllegalTransition | WrongNamespace | NotApproved | DigestChanged | NothingSelected

  // ---------------------------------------------------------------- splitting

  /** text.split(sep) */
  function Split(text: string, sep: char): (parts: seq<string>)
    ensures |parts| >= 1
  {
    if text == "" then [""]
    else
      var rest := Split(text[1..], sep);
      if text[0] == sep then [""] + rest else [[text[0]] + rest[0]] + rest[1..]
  }

  /** sep.join(parts) */
  function Join(parts: seq<string>, sep: char): string {
    if parts == [] then ""
    else if |parts| == 1 then parts[0]
    else parts[0] + [sep] + Join(parts[1..], sep)
  }

  lemma {:induction false} JoinSplit(text: string, sep: char)
    ensures Join(Split(text, sep), sep) == text
  {
    if text != "" {
      JoinSplit(text[1..], sep);
      var rest := Split(text[1..], sep);
      if text[0] != sep {
        var first := [text[0]] + rest[0];
        assert Split(text, sep)[1..] == rest[1..];
        if |rest| > 1 {
          assert first + [sep] + Join(rest[1..], sep) == [text[0]] + Join(rest, sep);
        }
      } else {
        assert Split(text, sep)[1..] == rest;
      }
      assert text == [text[0]] + text[1..];
    }
  }

  ghost predicate Unsplittable(parts: seq<string>, sep: char) {
    forall k :: 0 <= k < |parts| ==> sep !in parts[k]
  }

  lemma {:induction false} SplitPrefix(head: string, tail: string, sep: char)
    requires sep !in head
    ensures Split(head + tail, sep)
            == [head + Split(tail, sep)[0]] + Split(tail, sep)[1..]
  {
    if head == "" {
      assert head + tail == tail;
      assert head + Split(tail, sep)[0] == Split(tail, sep)[0];
    } else {
      assert (head + tail)[1..] == head[1..] + tail;
      SplitPrefix(head[1..], tail, sep);
      assert [head[0]] + (head[1..] + Split(tail, sep)[0]) == head + Split(tail, sep)[0];
    }
  }

  lemma {:induction false} SplitJoin(parts: seq<string>, sep: char)
    requires parts != [] && Unsplittable(parts, sep)
    ensures Split(Join(parts, sep), sep) == parts
  {
    if |parts| == 1 {
      SplitPrefix(parts[0], "", sep);
      assert parts[0] + "" == parts[0];
    } else {
      var rest := Join(parts[1..], sep);
      SplitJoin(parts[1..], sep);
      SplitPrefix(parts[0], [sep] + rest, sep);
      assert ([sep] + rest)[1..] == rest;
      assert Join(parts, sep) == parts[0] + ([sep] + rest);
      assert parts[0] + "" == parts[0];
    }
  }

  lemma {:induction false} SplitParts(text: string, sep: char)
    ensures Unsplittable(Split(text, sep), sep)
  {
    if text != "" {
      SplitParts(text[1..], sep);
    }
  }

  // ---------------------------------------------------------------- namespaces

  predicate Lower(c: char) { 'a' <= c <= 'z' }

  predicate Digit(c: char) { '0' <= c <= '9' }

  /** Lowercase letters, digits and underscores, starting with a letter. */
  predicate PlainComponent(s: string) {
    |s| >= 1 && Lower(s[0])
    && forall k :: 0 <= k < |s| ==> Lower(s[k]) || Digit(s[k]) || s[k] == '_'
  }

  /** What the pattern `^[a-z][a-z0-9_]*$` matches: `$` also holds before a
      newline that ends the text. */
  predicate MatchesComponent(s: string) {
    PlainComponent(s) || (|s| >= 2 && s[|s|-1] == '\n' && PlainComponent(s[..|s|-1]))
  }

  predicate AcceptedComponent(s: string) {
    |s| <= MAX_COMPONENT_CHARS && MatchesComponent(s)
  }

  ghost predicate ValidNamespace(parts: Namespace) {
    1 <= |parts| <= MAX_DEPTH && parts[0] in ROOTS
    && forall k :: 0 <= k < |parts| ==> AcceptedComponent(parts[k])
  }

  /** The dotted name. */
  function Text(parts: Namespace): string {
    Join(parts, '.')
  }

  function Parent(parts: Namespace): Namespace
    requires |parts| >= 1
  {
    parts[..|parts|-1]
  }

  function ValidateNamespace(text: string, requireRoot: bool): Result<Namespace, PromptError> {
    var parts := Split(text, '.');
    if |parts| > MAX_DEPTH then Err(BadNamespace)
    else if exists k :: 0 <= k < |parts| && !AcceptedComponent(parts[k]) then Err(BadNamespace)
    else if requireRoot && parts[0] !in ROOTS then Err(BadNamespace)
    else Ok(parts)
  }

  /** Component by component, in the order the checks are made. */
  method CheckNamespace(text: string, requireRoot: bool) returns (r: Result<Namespace, PromptError>)
    ensures r == ValidateNamespace(text, requireRoot)
  {
    var parts := Split(text, '.');
    if |parts| > MAX_DEPTH {
      return Err(BadNamespace);
    }
    for k := 0 to |parts|
      invariant forall j :: 0 <= j < k ==> AcceptedComponent(parts[j])
    {
      if |parts[k]| > MAX_COMPONENT_CHARS {
        return Err(BadNamespace);
      }
      if !MatchesComponent(parts[k]) {
        return Err(BadNamespace);
      }
    }
    if requireRoot && parts[0] !in ROOTS {
      return Err(BadNamespace);
    }
    return Ok(parts);
  }

  lemma AcceptedHasNo(s: string, c: char)
    requires AcceptedComponent(s) && !Lower(c) && !Digit(c) && c != '_' && c != '\n'
    ensures c !in s
  {
    forall k | 0 <= k < |s| ensures s[k] != c {
      if !PlainComponent(s) && k < |s| - 1 {
        assert s[..|s|-1][k] == s[k];
      }
    }
  }

  /** A valid namespace is recovered from its dotted name. */
  lemma NamespaceRoundTrip(parts: Namespace)
    requires ValidNamespace(parts)
    ensures ValidateNamespace(Text(parts), true) == Ok(parts)
  {
    forall k | 0 <= k < |parts| ensures '.' !in parts[k] {
      AcceptedHasNo(parts[k], '.');
    }
    SplitJoin(parts, '.');
  }

  /** What the check accepts is a valid namespace, and its name is the text. */
  lemma AcceptedNamespaces(text: string)
    ensures ValidateNamespace(text, true).Ok? ==>
              ValidNamespace(ValidateNamespace(text, true).value)
              && Text(ValidateNamespace(text, true).value) == text
  {
    JoinSplit(text, '.');
  }

  lemma {:induction false} CharInJoin(parts: seq<string>, sep: char, c: char)
    requires c != sep
    ensures c in Join(parts, sep) <==> exists k :: 0 <= k < |parts| && c in parts[k]
  {
    if |parts| > 1 {
      CharInJoin(parts[1..], sep, c);
      if c in parts[0] {
        assert c in parts[0];
      }
      if k :| 0 <= k < |parts[1..]| && c in parts[1..][k] {
        assert c in parts[k+1];
      }
      if k :| 0 <= k < |parts| && c in parts[k] {
        assert k > 0 ==> c in parts[1..][k-1];
      }
    }
  }

  /** An accepted name consists of plain components exactly when it holds no
      newline: the pattern lets each component end with one. */
  lemma AcceptedIsPlainWithoutNewline(text: string)
    requires ValidateNamespace(text, true).Ok?
    ensures var parts := ValidateNamespace(text, true).value;
            (forall k :: 0 <= k < |parts| ==> PlainComponent(parts[k])) <==> '\n' !in text
  {
    var parts := ValidateNamespace(text, true).value;
    JoinSplit(text, '.');
    CharInJoin(parts, '.', '\n');
    forall k | 0 <= k < |parts| ensures PlainComponent(parts[k]) <==> '\n' !in parts[k] {
      if !PlainComponent(parts[k]) {
        assert parts[k][|parts[k]|-1] == '\n';
      }
    }
  }

  lemma NewlineIsAccepted()
    ensures ValidateNamespace("ego.a\n", true) == Ok(["ego", "a\n"])
    ensures !PlainComponent("a\n")
  {
    assert "a\n"[..1] == "a";
    NamespaceRoundTrip(["ego", "a\n"]);
    assert Join(["a\n"], '.') == "a\n";
    assert ["ego", "a\n"][1..] == ["a\n"];
    assert Text(["ego", "a\n"]) == "ego" + ['.'] + "a\n";
    assert "ego.a\n" == "ego" + ['.'] + "a\n";
    assert "a\n"[1] == '\n';
  }

  // ------------------------------------------------- ancestry is the name

  predicate StartsWith(text: string, prefix: string) {
    |prefix| <= |text| && text[..|prefix|] == prefix
  }

  lemma {:induction false} JoinLast(parts: seq<string>, sep: char)
    requires |parts| >= 2
    ensures Join(parts, sep) == Join(parts[..|parts|-1], sep) + [sep] + parts[|parts|-1]
  {
    if |parts| == 2 {
      assert Join(parts[1..], sep) == parts[1];
      assert parts[..1][0] == parts[0];
    } else {
      JoinLast(parts[1..], sep);
      assert parts[1..][..|parts|-2] == parts[..|parts|-1][1..];
    }
  }

  lemma {:induction false} SplitAfter(head: string, sep: char, tail: string)
    ensures Split(head + [sep] + tail, sep) == Split(head, sep) + Split(tail, sep)
  {
    if head == "" {
      assert head + [sep] + tail == [sep] + tail;
      assert ([sep] + tail)[1..] == tail;
    } else {
      assert (head + [sep] + tail)[1..] == head[1..] + [sep] + tail;
      SplitAfter(head[1..], sep, tail);
    }
  }

  /** "Starts with the parent's name and a dot, one level deeper" is the same as
      "its components are the parent's and one more". */
  lemma ChildByNameIsChildByParts(parent: string, child: string)
    ensures StartsWith(child, parent + ".") && |Split(child, '.')| == |Split(parent, '.')| + 1
            <==> |Split(child, '.')| > 1 && Parent(Split(child, '.')) == Split(parent, '.')
  {
    var p, c := Split(parent, '.'), Split(child, '.');
    if StartsWith(child, parent + ".") && |c| == |p| + 1 {
      var tail := child[|parent|+1..];
      assert child == parent + ['.'] + tail;
      SplitAfter(parent, '.', tail);
      assert c == p + Split(tail, '.');
      assert Parent(c) == p;
    }
    if |c| > 1 && Parent(c) == p {
      JoinSplit(child, '.');
      JoinSplit(parent, '.');
      JoinLast(c, '.');
      assert child == parent + ['.'] + c[|c|-1];
    }
  }

  // ---------------------------------------------------------------- prompts

  datatype Mode = Inherit | Append | Prepend | Replace

  /** The composition rule: one separator, and only between two non-empty sides. */
  function Compose(parentText: string, localText: string, mode: Mode): string {
    match mode
    case Inherit => parentText
    case Replace => localText
    case Append => Joined(parentText, localText)
    case Prepend => Joined(localText, parentText)
  }

  function Joined(a: string, b: string): string {
    if a == "" then b else if b == "" then a else a + SEPARATOR + b
  }

  /** Appending is associative, the empty text being its unit. */
  lemma JoinedAssociates(a: string, b: string, c: string)
    ensures Joined(Joined(a, b), c) == Joined(a, Joined(b, c))
  {
    if a != "" && b != "" && c != "" {
      assert a + SEPARATOR + b + SEPARATOR + c == a + SEPARATOR + (b + SEPARATOR + c);
    }
  }

  predicate Space(c: char) {
    c == ' ' || '\t' <= c <= '\r' || '\U{1C}' <= c <= '\U{1F}'
  }

  predicate Blank(text: string) {
    forall k :: 0 <= k < |text| ==> Space(text[k])
  }

  function ModeOf(name: string): Option<Mode> {
    if name == "inherit" then Some(Inherit)
    else if name == "append" then Some(Append)
    else if name == "prepend" then Some(Prepend)
    else if name == "replace" then Some(Replace)
    else None
  }

  /** Mode and text must agree. */
  predicate PromptAgrees(mode: Mode, text: string) {
    if mode == Inherit then Blank(text) else !Blank(text)
  }

  predicate NameStart(c: char) { 'a' <= c <= 'z' || 'A' <= c <= 'Z' || c == '_' }

  predicate NameChar(c: char) { NameStart(c) || Digit(c) || c == '.' }

  /** `text[i..]` begins with two braces, blanks, a dotted name, blanks and two
      closing braces, the name at [a, b) and the closing braces at c. */
  predicate PlaceholderAt(text: string, i: nat, a: nat, b: nat, c: nat) {
    i + 2 <= a < b <= c && c + 2 <= |text|
    && text[i] == '{' && text[i+1] == '{' && text[c] == '}' && text[c+1] == '}'
    && NameStart(text[a])
    && (forall k :: i + 2 <= k < a ==> Space(text[k]))
    && (forall k :: a <= k < b ==> NameChar(text[k]))
    && (forall k :: b <= k < c ==> Space(text[k]))
  }

  predicate HasPlaceholder(text: string) {
    exists i: nat, a: nat, b: nat, c: nat ::
      i < |text| && a < |text| && b <= |text| && c <= |text| && PlaceholderAt(text, i, a, b, c)
  }

  // ---------------------------------------------------------------- variables

  /** A float: finite, or one of the values JSON and Python let through. */
  datatype Float = Finite(r: real) | NaN | Infinite(positive: bool)

  datatype Raw =
    | RawBool(b: bool) | RawInt(i: int) | RawFloat(f: Float) | RawText(s: string)
    | RawList(items: seq<Raw>) | RawOther

  /** A normalised variable. */
  datatype Value = Number(f: Float) | Whole(i: int) | Texts(items: seq<string>)

  datatype VarSpec = NumberSpec(lo: real, hi: real) | WholeSpec(min: int, max: int) | TextsSpec

  function SpecOf(name: string): Option<VarSpec> {
    if name == "temperature" then Some(NumberSpec(0.0, 2.0))
    else if name == "top_p" then Some(NumberSpec(0.0, 1.0))
    else if name == "top_k" then Some(WholeSpec(0, 100_000))
    else if name == "max_output_tokens" then Some(WholeSpec(1, 1_000_000))
    else if name == "seed" then Some(WholeSpec(0, 0x7FFF_FFFF))
    else if name == "stop_sequences" then Some(TextsSpec)
    else None
  }

  predicate Below(f: Float, limit: real) {
    match f
    case Finite(r) => r < limit
    case NaN => false
    case Infinite(positive) => !positive
  }

  predicate Above(f: Float, limit: real) {
    match f
    case Finite(r) => r > limit
    case NaN => false
    case Infinite(positive) => positive
  }

  function AllTexts(items: seq<Raw>): Option<seq<string>> {
    if items == [] then Some([])
    else
      var rest := AllTexts(items[1..]);
      if items[0].RawText? && rest.Some? then Some([items[0].s] + rest.value) else None
  }

  function AsNumber(raw: Raw): Option<Float> {
    match raw
    case RawInt(i) => Some(Finite(i as real))
    case RawFloat(f) => Some(f)
    case _ => None
  }

  function AsWhole(raw: Raw): Option<int> {
    match raw
    case RawInt(i) => Some(i)
    case RawFloat(Finite(r)) => if r.Floor as real == r then Some(r.Floor) else None
    case _ => None
  }

  /** One variable, checked and normalised. */
  function Normalise(name: string, raw: Raw): Option<Value> {
    match SpecOf(name)
    case None => None
    case Some(TextsSpec) =>
      if raw.RawList? && AllTexts(raw.items).Some? && |raw.items| <= MAX_STOP_SEQUENCES
      then Some(Texts(AllTexts(raw.items).value)) else None
    case Some(WholeSpec(min, max)) =>
      var whole := AsWhole(raw);
      if whole.Some? && min <= whole.value <= max then Some(Whole(whole.value)) else None
    case Some(NumberSpec(lo, hi)) =>
      var number := AsNumber(raw);
      if number.None? || Below(number.value, lo) || Above(number.value, hi) then None
      else Some(Number(number.value))
  }

  /** What is stored and read back. */
  function AsRaw(v: Value): Raw {
    match v
    case Number(f) => RawFloat(f)
    case Whole(i) => RawInt(i)
    case Texts(items) => RawList(RawTexts(items))
  }

  function RawTexts(items: seq<string>): seq<Raw> {
    if items == [] then [] else [RawText(items[0])] + RawTexts(items[1..])
  }

  predicate AllAccepted(values: map<string, Raw>) {
    forall name :: name in values ==> Normalise(name, values[name]).Some?
  }

  function NormaliseAll(values: map<string, Raw>): map<string, Value>
    requires AllAccepted(values)
  {
    map name | name in values :: Normalise(name, values[name]).value
  }

  function RawOf(values: map<string, Value>): map<string, Raw> {
    map name | name in values :: AsRaw(values[name])
  }

  /** Unknown names and values out of range are refused, not dropped. */
  method ValidateModelVars(values: map<string, Raw>)
    returns (r: Result<map<string, Value>, PromptError>)
    ensures r.Ok? <==> AllAccepted(values)
    ensures r.Ok? ==> r.value == NormaliseAll(values)
    ensures r.Err? ==> r.error.BadVariable? && r.error.name in values
                       && Normalise(r.error.name, values[r.error.name]).None?
  {
    var out: map<string, Value> := map[];
    var todo := values.Keys;
    while todo != {}
      invariant todo <= values.Keys
      invariant out.Keys == values.Keys - todo
      invariant forall name :: name in out ==> Normalise(name, values[name]) == Some(out[name])
    {
      var name :| name in todo;
      var value := Normalise(name, values[name]);
      if value.None? {
        return Err(BadVariable(name));
      }
      out := out[name := value.value];
      todo := todo - {name};
    }
    return Ok(out);
  }

  lemma {:induction false} TextsReadBack(items: seq<string>)
    ensures |RawTexts(items)| == |items| && AllTexts(RawTexts(items)) == Some(items)
  {
    if items != [] {
      TextsReadBack(items[1..]);
      assert RawTexts(items)[1..] == RawTexts(items[1..]);
      assert [items[0]] + items[1..] == items;
    }
  }

  lemma {:induction false} AllTextsLength(items: seq<Raw>)
    ensures AllTexts(items).Some? ==> |AllTexts(items).value| == |items|
  {
    if items != [] {
      AllTextsLength(items[1..]);
    }
  }

  /** Checking a stored variable again changes nothing. */
  lemma NormaliseIsIdempotent(name: string, raw: Raw)
    requires Normalise(name, raw).Some?
    ensures Normalise(name, AsRaw(Normalise(name, raw).value)) == Normalise(name, raw)
  {
    var v := Normalise(name, raw).value;
    if v.Texts? {
      TextsReadBack(v.items);
      AllTextsLength(raw.items);
    }
  }

  lemma StoredVarsReadBack(values: map<string, Raw>)
    requires AllAccepted(values)
    ensures var stored := NormaliseAll(values);
            AllAccepted(RawOf(stored)) && NormaliseAll(RawOf(stored)) == stored
  {
    var stored := NormaliseAll(values);
    forall name | name in stored
      ensures Normalise(name, RawOf(stored)[name]) == Some(stored[name])
    {
      NormaliseIsIdempotent(name, values[name]);
    }
  }

  /** The stated range holds of an accepted number exactly when it is not NaN,
      which no comparison refuses. */
  lemma RangeHoldsUnlessNaN(name: string, raw: Raw, lo: real, hi: real)
    requires SpecOf(name) == Some(NumberSpec(lo, hi)) && Normalise(name, raw).Some?
    ensures var f := Normalise(name, raw).value.f;
            (f.Finite? && lo <= f.r <= hi) <==> f != NaN
    ensures Normalise(name, RawFloat(NaN)) == Some(Number(NaN))
  {
  }
}
