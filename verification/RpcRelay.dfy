/**
  Relaying a refusal over any number of hops: each hop wraps the error it was sent
  in one of its own, renaming what would collide, and nothing is lost on the way.
 */
module RpcRelay {
  import opened Outcomes

  /** A JSON value, as its text. */
  type Value = string

  type Details = map<string, Value>

  /** Raised in place of the error when its arguments cannot be bound. */
  datatype Failure = TypeError

  const RESERVED := {"message", "remote_code"}
  const PREFIX := "remote_"

  // ------------------------------------------------- one hop

  /** Names no shorter than a candidate that it might still meet. */
  function Taken(details: Details, candidate: string): set<string> {
    set k | k in details.Keys + RESERVED && |k| >= |candidate|
  }

  lemma PrefixingLeavesBehind(details: Details, candidate: string)
    requires candidate in details || candidate in RESERVED
    ensures |Taken(details, PREFIX + candidate)| < |Taken(details, candidate)|
  {
    assert Taken(details, PREFIX + candidate) <= Taken(details, candidate) - {candidate};
    SmallerInside(Taken(details, PREFIX + candidate), Taken(details, candidate) - {candidate});
  }

  lemma SmallerInside(a: set<string>, b: set<string>)
    requires a <= b
    ensures |a| <= |b|
  {
    assert |b - a| == |b| - |a|;
  }

  /** Prefixed until nobody has the name. */
  function FreeName(details: Details, candidate: string): (name: string)
    ensures name !in details && name !in RESERVED
    decreases |Taken(details, candidate)|
  {
    if candidate in details || candidate in RESERVED then
      PrefixingLeavesBehind(details, candidate);
      FreeName(details, PREFIX + candidate)
    else candidate
  }

  function Rename(details: Details, name: string): Details {
    if name in details
    then (details - {name})[FreeName(details, PREFIX + name) := details[name]] else details
  }

  function Cleared(details: Details): Details {
    Rename(Rename(details, "message"), "remote_code")
  }

  /** RpcError(message, remote_code=code, **details): a detail called "self" clashes
      with the constructor's own first argument. */
  function Bind(details: Details, code: Value): Result<Details, Failure> {
    if "self" in details then Err(TypeError) else Ok(details["remote_code" := code])
  }

  function Hop(details: Details, code: Value): Result<Details, Failure> {
    Bind(Cleared(details), code)
  }

  method RemoteError(sent: Details, code: Value) returns (r: Result<Details, Failure>)
    ensures r == Hop(sent, code)
  {
    var details := sent;
    var names := ["message", "remote_code"];
    for k := 0 to 2
      invariant details == if k == 0 then sent
                           else if k == 1 then Rename(sent, "message") else Cleared(sent)
    {
      var name := names[k];
      if name in details {
        var renamed := PREFIX + name;
        while renamed in details || renamed in RESERVED
          invariant FreeName(details, PREFIX + name) == FreeName(details, renamed)
          decreases |Taken(details, renamed)|
        {
          PrefixingLeavesBehind(details, renamed);
          renamed := PREFIX + renamed;
        }
        var value := details[name];
        details := (details - {name})[renamed := value];
      }
    }
    if "self" in details {
      return Err(TypeError);
    }
    return Ok(details["remote_code" := code]);
  }

  // ------------------------------------------------- where a name goes

  function Moved(details: Details, name: string, key: string): string {
    if key == name && name in details then FreeName(details, PREFIX + name) else key
  }

  /** Where one hop puts the detail called `key`. */
  function Place(details: Details, key: string): string {
    Moved(Rename(details, "message"), "remote_code", Moved(details, "message", key))
  }

  lemma RenameMoves(details: Details, name: string, a: string, b: string)
    requires a in details && b in details
    ensures var r := Rename(details, name);
            Moved(details, name, a) in r && r[Moved(details, name, a)] == details[a]
            && (Moved(details, name, a) == Moved(details, name, b) ==> a == b)
  {
  }

  lemma RenameAddsNothing(details: Details, name: string, key: string)
    requires key in Rename(details, name)
    ensures exists a :: a in details && Moved(details, name, a) == key
  {
    var free := FreeName(details, PREFIX + name);
    if name in details && key == free {
      assert Moved(details, name, name) == key;
    } else {
      assert Moved(details, name, key) == key;
    }
  }

  /** Every detail is placed, with its value, apart from every other, and under a
      name that is not reserved; and every name left belongs to a detail. */
  lemma HopPlaces(details: Details, a: string, b: string, key: string)
    requires a in details && b in details
    ensures var r := Cleared(details);
            Place(details, a) in r && r[Place(details, a)] == details[a]
            && (Place(details, a) == Place(details, b) ==> a == b)
            && (a !in RESERVED ==> Place(details, a) == a)
            && (key in r ==> exists x :: x in details && Place(details, x) == key)
            && "message" !in r && "remote_code" !in r
  {
    var first := Rename(details, "message");
    RenameMoves(details, "message", a, b);
    RenameMoves(first, "remote_code", Moved(details, "message", a), Moved(details, "message", b));
    if key in Cleared(details) {
      RenameAddsNothing(first, "remote_code", key);
      var mid :| mid in first && Moved(first, "remote_code", mid) == key;
      RenameAddsNothing(details, "message", mid);
    }
  }

  lemma {:induction false} FreeNameIsPrefixed(details: Details, candidate: string)
    requires PREFIX <= candidate
    ensures PREFIX <= FreeName(details, candidate)
    decreases |Taken(details, candidate)|
  {
    if candidate in details || candidate in RESERVED {
      PrefixingLeavesBehind(details, candidate);
      FreeNameIsPrefixed(details, PREFIX + candidate);
    }
  }

  lemma RenameKeepsSelf(details: Details, name: string)
    requires name in RESERVED
    ensures "self" in Rename(details, name) <==> "self" in details
  {
    FreeNameIsPrefixed(details, PREFIX + name);
    assert "self"[0] != PREFIX[0];
    assert FreeName(details, PREFIX + name)[0] == PREFIX[0];
  }

  /** A hop is refused exactly when a detail is called "self". */
  lemma HopRefusedIff(details: Details, code: Value)
    ensures Hop(details, code).Err? <==> "self" in details
  {
    RenameKeepsSelf(details, "message");
    RenameKeepsSelf(Rename(details, "message"), "remote_code");
  }

  /** The name with so many prefixes. */
  function Prefixes(n: nat, name: string): string {
    if n == 0 then name else "remote_" + Prefixes(n - 1, name)
  }

  lemma {:induction false} PrefixesEnd(n: nat, name: string)
    ensures |Prefixes(n, name)| == 7 * n + |name|
    ensures forall k :: 0 <= k < |name| ==> Prefixes(n, name)[7 * n + k] == name[k]
  {
    if n > 0 {
      PrefixesEnd(n - 1, name);
    }
  }

  lemma {:induction false} FreeNameIsFirst(details: Details, name: string, m: nat)
    returns (n: nat)
    ensures FreeName(details, Prefixes(m, name)) == Prefixes(n, name) && m <= n
    ensures Prefixes(n, name) !in details && Prefixes(n, name) !in RESERVED
    ensures forall k :: m <= k < n ==>
              Prefixes(k, name) in details || Prefixes(k, name) in RESERVED
    decreases |Taken(details, Prefixes(m, name))|
  {
    var candidate := Prefixes(m, name);
    if candidate in details || candidate in RESERVED {
      PrefixingLeavesBehind(details, candidate);
      n := FreeNameIsFirst(details, name, m + 1);
    } else {
      n := m;
    }
  }

  /** Prefixed names of the two reserved ones are never the same, nor reserved. */
  lemma PrefixesApart(m: nat, n: nat)
    ensures Prefixes(m, "message") != Prefixes(n, "remote_code")
    ensures m > 0 ==> Prefixes(m, "message") !in RESERVED
    ensures n > 0 ==> Prefixes(n, "remote_code") !in RESERVED
  {
    PrefixesEnd(m, "message");
    PrefixesEnd(n, "remote_code");
    var a, b := Prefixes(m, "message"), Prefixes(n, "remote_code");
    assert a[7 * m + 5] == "message"[5] && b[7 * n + 9] == "remote_code"[9];
    assert "message"[|"message"|-2] == 'g' && "remote_code"[|"remote_code"|-2] == 'd';
  }

  /** The detail is found under the first free of its prefixed names. */
  ghost predicate FirstFree(sent: Details, raised: Details, name: string, n: nat)
    requires name in sent
  {
    n > 0 && Prefixes(n, name) !in sent
    && (forall k :: 1 <= k < n ==> Prefixes(k, name) in sent)
    && Prefixes(n, name) in raised && raised[Prefixes(n, name)] == sent[name]
  }

  /** What a hop raises: the code it was sent, the details called neither "message"
      nor "remote_code" as they were, and those two under their first free names. */
  lemma HopRaises(details: Details, code: Value, key: string) returns (m: nat, n: nat)
    requires "self" !in details
    ensures var r := Hop(details, code);
            r.Ok? && "remote_code" in r.value && r.value["remote_code"] == code
            && "message" !in r.value
            && (key in details && key != "message" && key != "remote_code" ==>
                  key in r.value && r.value[key] == details[key])
            && ("message" in details ==> FirstFree(details, r.value, "message", m))
            && ("remote_code" in details ==> FirstFree(details, r.value, "remote_code", n))
  {
    HopRefusedIff(details, code);
    var first := Rename(details, "message");
    assert Prefixes(0, "message") == "message" && Prefixes(0, "remote_code") == "remote_code";
    assert Prefixes(1, "message") == PREFIX + "message";
    assert Prefixes(1, "remote_code") == PREFIX + "remote_code";
    m := FreeNameIsFirst(details, "message", 1);
    n := FreeNameIsFirst(first, "remote_code", 1);
    forall k, j ensures Prefixes(j, "message") != Prefixes(k, "remote_code")
                        && (k > 0 ==> Prefixes(k, "message") !in RESERVED
                                      && Prefixes(k, "remote_code") !in RESERVED) {
      PrefixesApart(j, k);
      PrefixesApart(k, k);
    }
    if key in details {
      HopPlaces(details, key, key, "message");
    } else {
      ClearedKeeps(details);
    }
    if "message" in details {
      HopPlaces(details, "message", "message", "");
      assert Place(details, "message") == Prefixes(m, "message");
    }
    if "remote_code" in details {
      HopPlaces(details, "remote_code", "remote_code", "");
      assert Place(details, "remote_code") == Prefixes(n, "remote_code");
    }
  }

  lemma ClearedKeeps(details: Details)
    ensures "message" !in Cleared(details)
  {
    assert "message" !in Rename(details, "message");
  }

  // ------------------------------------------------- many hops

  /** Each hop is sent what the one before it raised, and the code of that. */
  function Relay(details: Details, codes: seq<Value>): Result<Details, Failure> {
    if codes == [] then Ok(details)
    else
      var before := Relay(details, codes[..|codes|-1]);
      if before.Err? then before else Hop(before.value, codes[|codes|-1])
  }

  /** Where a value in the final details came from. */
  datatype Origin = Detail(name: string) | CodeOf(hop: nat)

  predicate Known(details: Details, n: nat, o: Origin) {
    match o
    case Detail(name) => name in details
    case CodeOf(hop) => hop < n
  }

  function ValueOf(details: Details, codes: seq<Value>, o: Origin): Value
    requires Known(details, |codes|, o)
  {
    match o
    case Detail(name) => details[name]
    case CodeOf(hop) => codes[hop]
  }

  /** The name under which it arrives. */
  function Located(details: Details, codes: seq<Value>, o: Origin): string
    requires Relay(details, codes).Ok?
  {
    if codes == [] then (if o.Detail? then o.name else "remote_code")
    else if o == CodeOf(|codes| - 1) then "remote_code"
    else
      Place(Relay(details, codes[..|codes|-1]).value, Located(details, codes[..|codes|-1], o))
  }

  lemma HopIs(details: Details, codes: seq<Value>)
    requires codes != [] && Relay(details, codes).Ok?
    ensures var before := Relay(details, codes[..|codes|-1]);
            before.Ok?
            && Relay(details, codes).value
               == Cleared(before.value)["remote_code" := codes[|codes|-1]]
  {
  }

  /** Every original value, and every hop's code, arrives under a name of its own. */
  lemma {:induction false} EverythingArrives(details: Details, codes: seq<Value>, o: Origin,
                                             p: Origin)
    requires Relay(details, codes).Ok?
    requires Known(details, |codes|, o) && Known(details, |codes|, p)
    ensures Located(details, codes, o) in Relay(details, codes).value
    ensures Relay(details, codes).value[Located(details, codes, o)] == ValueOf(details, codes, o)
    ensures Located(details, codes, o) == Located(details, codes, p) ==> o == p
    ensures o.Detail? && o.name !in RESERVED ==> Located(details, codes, o) == o.name
  {
    if codes != [] {
      HopIs(details, codes);
      var earlier := codes[..|codes|-1];
      var before := Relay(details, earlier).value;
      var last := CodeOf(|codes| - 1);
      if o != last {
        var other := if p == last then o else p;
        EverythingArrives(details, earlier, o, other);
        EverythingArrives(details, earlier, other, o);
        HopPlaces(before, Located(details, earlier, o), Located(details, earlier, other), "");
      } else if p != last {
        EverythingArrives(details, earlier, p, p);
        HopPlaces(before, Located(details, earlier, p), Located(details, earlier, p), "");
      }
    }
  }

  /** And nothing else does. */
  lemma {:induction false} NothingElseArrives(details: Details, codes: seq<Value>, key: string)
    requires Relay(details, codes).Ok? && key in Relay(details, codes).value
    ensures exists o :: Known(details, |codes|, o) && Located(details, codes, o) == key
    ensures codes != [] ==> key != "message"
  {
    if codes == [] {
      assert Located(details, codes, Detail(key)) == key;
    } else {
      HopIs(details, codes);
      var earlier := codes[..|codes|-1];
      var before := Relay(details, earlier).value;
      if key == "remote_code" {
        assert Located(details, codes, CodeOf(|codes| - 1)) == key;
      } else {
        var x := PlacedBefore(before, key);
        NothingElseArrives(details, earlier, x);
        var o :| Known(details, |earlier|, o) && Located(details, earlier, o) == x;
        assert Located(details, codes, o) == key;
      }
    }
  }

  lemma PlacedBefore(details: Details, key: string) returns (x: string)
    requires key in Cleared(details)
    ensures x in details && Place(details, x) == key && key != "message"
  {
    var first := Rename(details, "message");
    RenameAddsNothing(first, "remote_code", key);
    var mid :| mid in first && Moved(first, "remote_code", mid) == key;
    RenameAddsNothing(details, "message", mid);
    x :| x in details && Moved(details, "message", x) == mid;
    HopPlaces(details, x, x, key);
  }

  /** The final details hold the originals and one code for each hop: no more, no
      fewer. */
  lemma {:induction false} RelayCounts(details: Details, codes: seq<Value>)
    requires Relay(details, codes).Ok?
    ensures |Relay(details, codes).value| == |details| + |codes|
  {
    if codes != [] {
      HopIs(details, codes);
      RelayCounts(details, codes[..|codes|-1]);
      var before := Relay(details, codes[..|codes|-1]).value;
      RenameCounts(before, "message");
      RenameCounts(Rename(before, "message"), "remote_code");
      ClearedHasNoCode(before);
    }
  }

  lemma RenameCounts(details: Details, name: string)
    ensures |Rename(details, name)| == |details|
  {
    if name in details {
      var rest := details - {name};
      assert rest.Keys == details.Keys - {name};
      assert |rest.Keys| == |details.Keys| - 1;
      assert Rename(details, name).Keys == rest.Keys + {FreeName(details, PREFIX + name)};
    }
  }

  lemma ClearedHasNoCode(details: Details)
    ensures "remote_code" !in Cleared(details)
  {
    if "remote_code" in Cleared(details) {
      var x := PlacedBefore(details, "remote_code");
      HopPlaces(details, x, x, "remote_code");
    }
  }

  /** A relay over at least one hop fails exactly when an original detail is called
      "self", and then it fails at the first hop. */
  lemma {:induction false} RelayRefusedIff(details: Details, codes: seq<Value>)
    ensures Relay(details, codes).Err? <==> codes != [] && "self" in details
    ensures Relay(details, codes).Ok? ==>
              ("self" in Relay(details, codes).value <==> "self" in details)
  {
    if codes != [] {
      var before := Relay(details, codes[..|codes|-1]);
      RelayRefusedIff(details, codes[..|codes|-1]);
      if before.Ok? {
        HopRefusedIff(before.value, codes[|codes|-1]);
        RenameKeepsSelf(before.value, "message");
        RenameKeepsSelf(Rename(before.value, "message"), "remote_code");
      }
    }
  }
}
