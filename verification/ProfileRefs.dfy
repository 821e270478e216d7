/**
  Lineage references: `ego.neuocyte.research@3.7.5`, leaf first. Printing one and
  parsing it back gives the same reference; parsing is more permissive than
  printing, and this module says by exactly how much.
 */
module ProfileRefs {
  import opened Outcomes
  import opened PromptModel

  datatype ProfileRef = ProfileRef(namespace: string, versions: seq<int>)

  // ---------------------------------------------------------------- integers

  function DigitChar(d: nat): char
    requires d < 10
  {
    "0123456789"[d]
  }

  function DigitValue(c: char): (d: nat)
    requires Digit(c)
    ensures d < 10
  {
    (c as int) - ('0' as int)
  }

  function Decimal(n: nat): (s: string)
    ensures |s| >= 1 && Digit(s[|s|-1])
  {
    if n < 10 then [DigitChar(n)] else Decimal(n / 10) + [DigitChar(n % 10)]
  }

  /** str(n) */
  function Show(n: int): string {
    if n < 0 then "-" + Decimal(-n) else Decimal(n)
  }

  /** Digits, with single underscores allowed between two of them. */
  function DigitsValue(s: string): Option<nat> {
    if s == "" || !Digit(s[|s|-1]) then None
    else
      var front := s[..|s|-1];
      var d := DigitValue(s[|s|-1]);
      if front == "" then Some(d)
      else
        var more := if front[|front|-1] == '_' then front[..|front|-1] else front;
        var high := DigitsValue(more);
        if high.None? then None else Some(10 * high.value + d)
  }

  function StripLeft(s: string): string {
    if s != "" && Space(s[0]) then StripLeft(s[1..]) else s
  }

  function StripRight(s: string): string {
    if s != "" && Space(s[|s|-1]) then StripRight(s[..|s|-1]) else s
  }

  /** int(text): blanks around it, a sign, leading zeros and underscores pass. */
  function ParseInt(text: string): Option<int> {
    var s := StripRight(StripLeft(text));
    if s != "" && s[0] == '-' then
      var v := DigitsValue(s[1..]);
      if v.None? then None else Some((0 - v.value) as int)
    else if s != "" && s[0] == '+' then
      var v := DigitsValue(s[1..]);
      if v.None? then None else Some(v.value)
    else
      var v := DigitsValue(s);
      if v.None? then None else Some(v.value)
  }

  predicate AllDigits(s: string) {
    forall k :: 0 <= k < |s| ==> Digit(s[k])
  }

  lemma {:induction false} DecimalReadsBack(n: nat)
    ensures AllDigits(Decimal(n)) && DigitsValue(Decimal(n)) == Some(n)
  {
    if n >= 10 {
      DecimalReadsBack(n / 10);
      var s := Decimal(n);
      assert s[..|s|-1] == Decimal(n / 10);
    }
  }

  lemma ShowReadsBack(n: nat)
    ensures ParseInt(Show(n)) == Some(n)
  {
    DecimalReadsBack(n);
    var s := Decimal(n);
    assert Digit(s[0]) && Digit(s[|s|-1]);
    assert StripLeft(s) == s && StripRight(s) == s;
  }

  // ---------------------------------------------------------------- references

  function Shown(versions: seq<int>): seq<string> {
    if versions == [] then [] else [Show(versions[0])] + Shown(versions[1..])
  }

  /** str(ref) */
  function Print(ref: ProfileRef): string {
    ref.namespace + "@" + Join(Shown(ref.versions), '.')
  }

  function IndexOf(text: string, c: char): nat
    requires c in text
    ensures IndexOf(text, c) < |text| && text[IndexOf(text, c)] == c
    ensures c !in text[..IndexOf(text, c)]
  {
    if text[0] == c then 0 else
      assert text == [text[0]] + text[1..];
      1 + IndexOf(text[1..], c)
  }

  function ParseInts(parts: seq<string>): Option<seq<int>> {
    if parts == [] then Some([])
    else
      var first, rest := ParseInt(parts[0]), ParseInts(parts[1..]);
      if first.None? || rest.None? then None else Some([first.value] + rest.value)
  }

  /** The lineage has one component per namespace level, each at least 1. */
  function Parse(text: string, requireRoot: bool): Result<ProfileRef, PromptError> {
    if '@' !in text then Err(BadNamespace)
    else
      var at := IndexOf(text, '@');
      var namespace, lineage := text[..at], text[at+1..];
      var parts := ValidateNamespace(namespace, requireRoot);
      if parts.Err? then Err(parts.error)
      else if lineage == "" then Err(BadReference)
      else
        var nums := ParseInts(Split(lineage, '.'));
        if nums.None? then Err(BadReference)
        else if exists k :: 0 <= k < |nums.value| && nums.value[k] < 1 then Err(BadReference)
        else if |nums.value| != |parts.value| then Err(BadReference)
        else Ok(ProfileRef(namespace, nums.value))
  }

  /** A reference to a complete ancestry. */
  ghost predicate WellFormed(ref: ProfileRef) {
    ValidateNamespace(ref.namespace, true).Ok?
    && |ref.versions| == |ValidateNamespace(ref.namespace, true).value|
    && forall k :: 0 <= k < |ref.versions| ==> ref.versions[k] >= 1
  }

  lemma {:induction false} ShownReadsBack(versions: seq<int>)
    requires forall k :: 0 <= k < |versions| ==> versions[k] >= 1
    ensures |Shown(versions)| == |versions|
    ensures Unsplittable(Shown(versions), '.')
    ensures ParseInts(Shown(versions)) == Some(versions)
  {
    if versions != [] {
      ShownReadsBack(versions[1..]);
      ShowReadsBack(versions[0]);
      DecimalReadsBack(versions[0]);
      var shown := Shown(versions);
      assert shown[1..] == Shown(versions[1..]);
      assert [versions[0]] + versions[1..] == versions;
      forall k | 0 <= k < |shown| ensures '.' !in shown[k] {
        if k > 0 {
          assert shown[k] == Shown(versions[1..])[k-1];
        }
      }
    }
  }

  lemma {:induction false} IndexOfFirst(head: string, tail: string, c: char)
    requires c !in head
    ensures c in head + [c] + tail && IndexOf(head + [c] + tail, c) == |head|
  {
    var text := head + [c] + tail;
    assert text[|head|] == c;
    if head != "" {
      IndexOfFirst(head[1..], tail, c);
      assert text[1..] == head[1..] + [c] + tail;
    }
  }

  /** Printing then parsing gives the reference back. */
  lemma PrintThenParse(ref: ProfileRef)
    requires WellFormed(ref)
    ensures Parse(Print(ref), true) == Ok(ref)
  {
    var shown := Shown(ref.versions);
    var lineage := Join(shown, '.');
    ShownReadsBack(ref.versions);
    SplitJoin(shown, '.');
    NamespaceHasNoAt(ref.namespace);
    IndexOfFirst(ref.namespace, lineage, '@');
    var text := ref.namespace + ['@'] + lineage;
    assert Print(ref) == text;
    assert text[..|ref.namespace|] == ref.namespace;
    assert text[|ref.namespace|+1..] == lineage;
    assert |shown[0]| >= 1;
  }

  lemma NamespaceHasNoAt(text: string)
    requires ValidateNamespace(text, true).Ok?
    ensures '@' !in text
  {
    var parts := ValidateNamespace(text, true).value;
    JoinSplit(text, '.');
    CharInJoin(parts, '.', '@');
    forall k | 0 <= k < |parts| ensures '@' !in parts[k] {
      AcceptedHasNo(parts[k], '@');
    }
  }

  /** Digits, the first of them not zero. */
  predicate Plain(s: string) {
    s != "" && s[0] != '0' && AllDigits(s)
  }

  lemma {:induction false} DecimalIsPlain(n: nat)
    requires n >= 1
    ensures Plain(Decimal(n))
  {
    DecimalReadsBack(n);
    if n >= 10 {
      DecimalIsPlain(n / 10);
    }
  }

  /** A plain spelling is the one its value is printed with. */
  lemma {:induction false} PlainIsDecimal(s: string)
    requires Plain(s)
    ensures DigitsValue(s).Some? && DigitsValue(s).value >= 1
    ensures Decimal(DigitsValue(s).value) == s
  {
    var front, last := s[..|s|-1], s[|s|-1];
    assert Digit(last) && s == front + [last];
    DigitReadsBack(last);
    if front != "" {
      PlainIsDecimal(front);
      assert Digit(front[|front|-1]);
      DecimalNext(DigitsValue(front).value, DigitValue(last));
    }
  }

  lemma DigitReadsBack(c: char)
    requires Digit(c)
    ensures DigitChar(DigitValue(c)) == c
  {
    assert c == '0' + DigitValue(c) as char;
  }

  lemma DecimalNext(high: nat, d: nat)
    requires high >= 1 && d < 10
    ensures Decimal(10 * high + d) == Decimal(high) + [DigitChar(d)]
  {
    assert (10 * high + d) / 10 == high && (10 * high + d) % 10 == d;
  }

  /** Of all the spellings of a positive number that are accepted, exactly the plain
      one is what the number prints as. */
  lemma PrintedIsPlain(s: string)
    requires ParseInt(s).Some? && ParseInt(s).value >= 1
    ensures s == Show(ParseInt(s).value) <==> Plain(s)
  {
    DecimalIsPlain(ParseInt(s).value);
    if Plain(s) {
      PlainIsDecimal(s);
      assert Digit(s[0]) && Digit(s[|s|-1]);
      assert StripLeft(s) == s && StripRight(s) == s;
    }
  }

  ghost predicate AllPlain(parts: seq<string>) {
    forall k :: 0 <= k < |parts| ==> Plain(parts[k])
  }

  lemma {:induction false} PlainIsShown(parts: seq<string>)
    requires ParseInts(parts).Some?
    requires forall k :: 0 <= k < |ParseInts(parts).value| ==> ParseInts(parts).value[k] >= 1
    ensures |ParseInts(parts).value| == |parts|
    ensures AllPlain(parts) <==> Shown(ParseInts(parts).value) == parts
  {
    if parts != [] {
      var nums := ParseInts(parts).value;
      assert nums[1..] == ParseInts(parts[1..]).value && nums[0] == ParseInt(parts[0]).value;
      PlainIsShown(parts[1..]);
      PrintedIsPlain(parts[0]);
      assert parts == [parts[0]] + parts[1..];
      assert AllPlain(parts) <==> Plain(parts[0]) && AllPlain(parts[1..]) by {
        assert forall k :: 1 <= k < |parts| ==> parts[k] == parts[1..][k-1];
      }
      assert Shown(nums) == [Show(nums[0])] + Shown(nums[1..]);
      assert Shown(nums) == parts ==> Shown(nums)[0] == parts[0] && Shown(nums)[1..] == parts[1..];
    }
  }

  /** Whatever parses is a complete, well-formed reference. */
  lemma ParsedIsWellFormed(text: string)
    requires Parse(text, true).Ok?
    ensures WellFormed(Parse(text, true).value)
    ensures Parse(text, true).value.namespace == text[..IndexOf(text, '@')]
    ensures ParseInts(Split(text[IndexOf(text, '@')+1..], '.'))
            == Some(Parse(text, true).value.versions)
  {
  }

  lemma {:induction false} JoinIsInjective(a: seq<string>, b: seq<string>, sep: char)
    requires a != [] && b != [] && Unsplittable(a, sep) && Unsplittable(b, sep)
    ensures Join(a, sep) == Join(b, sep) <==> a == b
  {
    SplitJoin(a, sep);
    SplitJoin(b, sep);
  }

  /** Parsing then printing gives the text back exactly when every lineage
      component is written in digits alone, the first of them not zero. */
  lemma ParseThenPrint(text: string)
    requires Parse(text, true).Ok?
    ensures Print(Parse(text, true).value) == text
            <==> AllPlain(Split(text[IndexOf(text, '@')+1..], '.'))
  {
    ParsedIsWellFormed(text);
    var ref := Parse(text, true).value;
    var lineage := text[IndexOf(text, '@')+1..];
    var parts := Split(lineage, '.');
    PlainIsShown(parts);
    JoinSplit(lineage, '.');
    SplitParts(lineage, '.');
    ShownReadsBack(ref.versions);
    JoinIsInjective(Shown(ref.versions), parts, '.');
    assert text == ref.namespace + "@" + lineage;
    assert Print(ref)[|ref.namespace|+1..] == Join(Shown(ref.versions), '.');
  }

  /** Two spellings of one reference, one of them not what is printed. */
  lemma LeadingZeroParses()
    ensures ParseInt("01") == Some(1) && Show(1) == "1"
    ensures !AllPlain(["01"])
  {
    assert "01"[..1] == "0";
    assert StripLeft("01") == "01" && StripRight("01") == "01";
    assert DigitsValue("0") == Some(0);
    assert DigitsValue("01") == Some(1);
    assert Decimal(1) == "1";
    assert ["01"][0] == "01";
  }

  // ------------------------------------------------- what reads as a number

  ghost predicate Blank(s: string) {
    forall k :: 0 <= k < |s| ==> Space(s[k])
  }

  /** Digits in groups, one underscore between two groups. */
  ghost predicate Grouped(s: string) {
    s != "" && Digit(s[0]) && Digit(s[|s|-1])
    && (forall k :: 0 <= k < |s| ==> Digit(s[k]) || s[k] == '_')
    && forall k :: 0 < k < |s| ==> Digit(s[k-1]) || Digit(s[k])
  }

  /** The digits of the groups. */
  function Ungrouped(s: string): string {
    if s == "" then ""
    else Ungrouped(s[..|s|-1]) + if s[|s|-1] == '_' then "" else [s[|s|-1]]
  }

  /** All but the last digit, and the underscore before it. */
  function Shorter(s: string): (r: string)
    requires |s| > 1
    ensures |r| < |s| && r == s[..|r|]
  {
    if s[|s|-2] == '_' then s[..|s|-2] else s[..|s|-1]
  }

  lemma GroupedShorter(s: string)
    requires |s| > 1 && Grouped(s)
    ensures Grouped(Shorter(s))
  {
    var n := |Shorter(s)|;
    assert Digit(s[n-1]);
    assert forall k :: 0 <= k < n ==> s[..n][k] == s[k];
  }

  lemma GroupedLonger(s: string)
    requires |s| > 1 && Digit(s[|s|-1]) && Grouped(Shorter(s))
    ensures Grouped(s)
  {
    var more := Shorter(s);
    var n := |more|;
    assert Digit(s[n-1]) && s[0] == more[0];
    forall k | 0 <= k < |s| ensures Digit(s[k]) || s[k] == '_' {
      assert k < n ==> s[k] == more[k];
    }
    forall k | 0 < k < |s| ensures Digit(s[k-1]) || Digit(s[k]) {
      assert k < n ==> s[k-1] == more[k-1] && s[k] == more[k];
    }
  }

  lemma UngroupedLonger(s: string)
    requires |s| > 1 && Digit(s[|s|-1])
    ensures Ungrouped(s) == Ungrouped(Shorter(s)) + [s[|s|-1]]
  {
    if s[|s|-2] == '_' {
      var front := s[..|s|-1];
      assert front[..|front|-1] == Shorter(s) && front[|front|-1] == '_';
      assert Ungrouped(front) == Ungrouped(Shorter(s));
    }
  }

  lemma ReadsShorter(s: string)
    requires |s| > 1 && Digit(s[|s|-1])
    ensures DigitsValue(s) == var high := DigitsValue(Shorter(s));
                              if high.None? then None
                              else Some(10 * high.value + DigitValue(s[|s|-1]))
  {
    var front := s[..|s|-1];
    assert front[|front|-1] == s[|s|-2] && front[..|front|-1] == s[..|s|-2];
  }

  lemma ReadsLast(high: string, c: char)
    requires AllDigits(high) && high != "" && Digit(c)
    ensures AllDigits(high + [c])
    ensures DigitsValue(high + [c])
            == var v := DigitsValue(high);
               if v.None? then None else Some(10 * v.value + DigitValue(c))
  {
    var s := high + [c];
    assert Digit(high[|high|-1]);
    assert Shorter(s) == high;
    ReadsShorter(s);
  }

  /** Exactly the grouped digits have a value, and it is that of the digits alone. */
  lemma {:induction false} GroupedReads(s: string)
    ensures DigitsValue(s).Some? <==> Grouped(s)
    ensures Grouped(s) ==> AllDigits(Ungrouped(s)) && Ungrouped(s) != ""
                           && DigitsValue(s) == DigitsValue(Ungrouped(s))
    decreases |s|
  {
    if |s| > 1 && Digit(s[|s|-1]) {
      var more := Shorter(s);
      GroupedReads(more);
      ReadsShorter(s);
      if Grouped(s) {
        GroupedShorter(s);
      }
      if Grouped(more) {
        GroupedLonger(s);
        UngroupedLonger(s);
        ReadsLast(Ungrouped(more), s[|s|-1]);
      }
    } else if |s| == 1 {
      assert s[..0] == "" && s == [s[0]];
      assert Ungrouped(s) == Ungrouped(s[..0]) + if s[0] == '_' then "" else [s[0]];
    }
  }

  lemma {:induction false} StripsLeft(left: string, s: string)
    requires Blank(left) && (s != "" ==> !Space(s[0]))
    ensures StripLeft(left + s) == s
  {
    if left == "" {
      assert left + s == s;
    } else {
      StripsLeft(left[1..], s);
      assert (left + s)[1..] == left[1..] + s;
    }
  }

  lemma {:induction false} StripsRight(s: string, right: string)
    requires Blank(right) && (s != "" ==> !Space(s[|s|-1]))
    ensures StripRight(s + right) == s
  {
    if right == "" {
      assert s + right == s;
    } else {
      StripsRight(s, right[..|right|-1]);
      assert (s + right)[..|s + right|-1] == s + right[..|right|-1];
    }
  }

  lemma {:induction false} StripLeftIs(s: string) returns (left: string)
    ensures s == left + StripLeft(s) && Blank(left)
  {
    if s != "" && Space(s[0]) {
      var more := StripLeftIs(s[1..]);
      left := [s[0]] + more;
    } else {
      left := "";
    }
  }

  lemma {:induction false} StripRightIs(s: string) returns (right: string)
    ensures s == StripRight(s) + right && Blank(right)
  {
    if s != "" && Space(s[|s|-1]) {
      var more := StripRightIs(s[..|s|-1]);
      right := more + [s[|s|-1]];
      assert s == s[..|s|-1] + [s[|s|-1]];
    } else {
      right := "";
    }
  }

  /** Blanks, perhaps a sign, grouped digits, blanks. */
  ghost predicate Spells(text: string, left: string, sign: string, digits: string, right: string) {
    text == left + sign + digits + right && Blank(left) && Blank(right)
    && (sign == "" || sign == "+" || sign == "-") && Grouped(digits)
  }

  lemma StripsToCore(text: string, left: string, core: string, right: string)
    requires text == left + (core + right) && Blank(left) && Blank(right)
    requires core != "" && !Space(core[0]) && !Space(core[|core|-1])
    ensures StripRight(StripLeft(text)) == core
  {
    StripsLeft(left, core + right);
    StripsRight(core, right);
  }

  function Signed(sign: string, n: int): int {
    if sign == "-" then 0 - n else n
  }

  lemma CoreReads(text: string, sign: string, digits: string)
    requires StripRight(StripLeft(text)) == sign + digits && digits != "" && Digit(digits[0])
    requires sign == "" || sign == "+" || sign == "-"
    ensures ParseInt(text) == var v := DigitsValue(digits);
                              if v.None? then None else Some(Signed(sign, v.value))
  {
    var core := sign + digits;
    assert core[|sign|..] == digits;
    assert core[0] == if sign == "" then digits[0] else sign[0];
  }

  /** Such a text reads as the number the digits alone spell, with that sign. */
  lemma SpellingReads(text: string, left: string, sign: string, digits: string, right: string)
    requires Spells(text, left, sign, digits, right)
    ensures DigitsValue(Ungrouped(digits)).Some?
    ensures ParseInt(text) == Some(Signed(sign, DigitsValue(Ungrouped(digits)).value))
  {
    var core := sign + digits;
    GroupedReads(digits);
    assert core[0] == if sign == "" then digits[0] else sign[0];
    assert core[|core|-1] == digits[|digits|-1];
    assert text == left + (core + right);
    StripsToCore(text, left, core, right);
    CoreReads(text, sign, digits);
  }

  function SignOf(core: string): (sign: string)
    ensures sign == "" || sign == "+" || sign == "-"
    ensures sign <= core
  {
    if core != "" && core[0] == '-' then "-" else if core != "" && core[0] == '+' then "+" else ""
  }

  lemma ReadsUnsigned(text: string)
    requires ParseInt(text).Some?
    ensures var core := StripRight(StripLeft(text));
            DigitsValue(core[|SignOf(core)|..]).Some?
  {
    var core := StripRight(StripLeft(text));
    assert core[0..] == core;
  }

  /** And nothing else reads as one. */
  lemma ReadsOnlySpellings(text: string)
    returns (left: string, sign: string, digits: string, right: string)
    requires ParseInt(text).Some?
    ensures Spells(text, left, sign, digits, right)
  {
    left := StripLeftIs(text);
    right := StripRightIs(StripLeft(text));
    var core := StripRight(StripLeft(text));
    sign := SignOf(core);
    digits := core[|sign|..];
    ReadsUnsigned(text);
    GroupedReads(digits);
    InFour(text, left, sign, digits, right, core, StripLeft(text));
  }

  lemma InFour(text: string, left: string, sign: string, digits: string, right: string,
               core: string, rest: string)
    requires text == left + rest && rest == core + right && sign <= core
    requires digits == core[|sign|..]
    ensures text == left + sign + digits + right
  {
    assert core == sign + digits;
  }

  // ------------------------------------------------- what reads as a reference

  lemma {:induction false} EachReads(parts: seq<string>, versions: seq<int>)
    ensures ParseInts(parts) == Some(versions)
            <==> |versions| == |parts|
                 && forall k :: 0 <= k < |parts| ==> ParseInt(parts[k]) == Some(versions[k])
  {
    if parts != [] && versions != [] {
      EachReads(parts[1..], versions[1..]);
      assert versions == [versions[0]] + versions[1..];
      assert forall k :: 1 <= k < |parts| ==> parts[k] == parts[1..][k-1];
      assert forall k :: 1 <= k < |versions| ==> versions[k] == versions[1..][k-1];
      if |versions| == |parts|
         && forall k :: 0 <= k < |parts| ==> ParseInt(parts[k]) == Some(versions[k]) {
        forall k | 0 <= k < |parts[1..]|
          ensures ParseInt(parts[1..][k]) == Some(versions[1..][k])
        {
          assert ParseInt(parts[k+1]) == Some(versions[k+1]);
        }
      }
    }
  }

  /** A text is a reference exactly when what stands before its first "@" is a
      namespace, and what stands after it is one number for each of its levels, none of
      them below 1. */
  lemma ParsesIff(text: string, ref: ProfileRef)
    ensures Parse(text, true) == Ok(ref)
            <==> WellFormed(ref) && |ref.namespace| < |text| && '@' !in ref.namespace
                 && text[..|ref.namespace|] == ref.namespace && text[|ref.namespace|] == '@'
                 && var parts := Split(text[|ref.namespace|+1..], '.');
                    |parts| == |ref.versions|
                    && forall k :: 0 <= k < |parts| ==> ParseInt(parts[k]) == Some(ref.versions[k])
  {
    var n := |ref.namespace|;
    if n < |text| && '@' !in ref.namespace && text[..n] == ref.namespace && text[n] == '@' {
      var tail := text[n+1..];
      IndexOfFirst(ref.namespace, tail, '@');
      assert text == ref.namespace + ['@'] + tail;
      EachReads(Split(tail, '.'), ref.versions);
    }
    if Parse(text, true) == Ok(ref) {
      EachReads(Split(text[n+1..], '.'), ref.versions);
    }
  }
}
