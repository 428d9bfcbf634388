/**
 * The dotted-path accessor of the processor: `findVersion` reads and
 * `updateVersion` writes the version leaf of a parsed YAML document, addressed
 * by a key such as "app.version".  A key present verbatim at the current level
 * wins; otherwise the key is split at its first dot and the walk descends.
 *
 * The document is loosely typed.  PHP turns canonical decimal string keys into
 * integer keys and back on lookup, so a YAML sequence is the mapping from
 * "0", "1", ... to its items; keys are therefore modelled as strings.
 */
module DottedPath {
  import opened Outcomes

  /** A YAML node: a string scalar, a mapping, or any other scalar (int, bool,
      null, float), which the strict `string` and `array` types reject. */
  datatype Value = Str(s: string) | Map(m: map<string, Value>) | Other

  /** The two parts `explode('.', key, 2)` yields for a key with a dot. */
  datatype Split = Split(head: string, rest: string)

  /** `explode('.', key, 2)` when `strpos(key, '.')` finds a dot, None otherwise. */
  function Explode(key: string): (r: Option<Split>)
    ensures r.Some? <==> '.' in key
    ensures r.Some? ==> key == r.value.head + "." + r.value.rest && '.' !in r.value.head
  {
    if key == [] then None
    else if key[0] == '.' then Some(Split([], key[1..]))
    else match Explode(key[1..])
      case None => None
      case Some(Split(head, rest)) =>
        assert key == [key[0]] + key[1..];
        Some(Split([key[0]] + head, rest))
  }

  /** Processor::findVersion. */
  function FindVersion(dump: Value, key: string): Result<string>
    decreases |key|
  {
    if !dump.Map? then Err(NotAnArray)
    else if key in dump.m then
      (if dump.m[key].Str? then Ok(dump.m[key].s) else Err(NotAString))
    else match Explode(key)
      case None => Ok("")
      case Some(Split(head, rest)) =>
        if head in dump.m then FindVersion(dump.m[head], rest) else Err(NotAnArray)
  }

  /** Processor::updateVersion: PHP arrays are passed by value, so the update
      returns a new document. */
  function UpdateVersion(dump: Value, key: string, version: string): Result<Value>
    decreases |key|
  {
    if !dump.Map? then Err(NotAnArray)
    else if key in dump.m then Ok(Map(dump.m[key := Str(version)]))
    else match Explode(key)
      case None => Ok(Map(dump.m[key := Str(version)]))
      case Some(Split(head, rest)) =>
        if head !in dump.m then Err(NotAnArray)
        else
          var sub :- UpdateVersion(dump.m[head], rest, version);
          Ok(Map(dump.m[head := sub]))
  }

  // ---------------------------------------------------------------------------
  // Reference semantics: plain paths of keys, and the path a dotted key names.

  /** The node reached from `d` by following the keys `ks` one level each. */
  function Lookup(d: Value, ks: seq<string>): Option<Value>
    decreases |ks|
  {
    if ks == [] then Some(d)
    else if d.Map? && ks[0] in d.m then Lookup(d.m[ks[0]], ks[1..])
    else None
  }

  /** The keys joined with dots. */
  function JoinDots(ks: seq<string>): string
  {
    if ks == [] then ""
    else if |ks| == 1 then ks[0]
    else ks[0] + "." + JoinDots(ks[1..])
  }

  /** True when the level reached by all but the last key is a mapping. */
  predicate ParentIsMap(d: Value, ks: seq<string>)
    requires ks != []
  {
    var parent := Lookup(d, ks[..|ks| - 1]);
    parent.Some? && parent.value.Map?
  }

  /** The keys the walk for `key` visits in `d`, or None when it meets a
      missing or non-mapping intermediate level. */
  ghost function Route(d: Value, key: string): (r: Option<seq<string>>)
    ensures r.Some? ==> r.value != [] && JoinDots(r.value) == key
    ensures r.Some? ==> forall i :: 0 <= i < |r.value| - 1 ==> '.' !in r.value[i]
    ensures r.Some? ==> ParentIsMap(d, r.value)
    ensures r.Some? ==> var ks := r.value; var m := Lookup(d, ks[..|ks| - 1]).value.m;
                        ks[|ks| - 1] in m || '.' !in ks[|ks| - 1]
    decreases |key|
  {
    if !d.Map? then None
    else if key in d.m then Some([key])
    else match Explode(key)
      case None => Some([key])
      case Some(Split(head, rest)) =>
        if head !in d.m then None
        else match Route(d.m[head], rest)
          case None => None
          case Some(ks) =>
            RouteExtends(d, key, head, rest, ks);
            Some([head] + ks)
  }

  /** A route found in the child named by the key's head, with that head in
      front, is a route in the parent with the properties Route promises. */
  lemma RouteExtends(d: Value, key: string, head: string, rest: string, ks: seq<string>)
    requires d.Map? && head in d.m && key == head + "." + rest && '.' !in head
    requires ks != [] && JoinDots(ks) == rest
    requires forall i :: 0 <= i < |ks| - 1 ==> '.' !in ks[i]
    requires ParentIsMap(d.m[head], ks)
    requires var m := Lookup(d.m[head], ks[..|ks| - 1]).value.m;
             ks[|ks| - 1] in m || '.' !in ks[|ks| - 1]
    ensures var r := [head] + ks;
            && JoinDots(r) == key
            && (forall i :: 0 <= i < |r| - 1 ==> '.' !in r[i])
            && ParentIsMap(d, r)
            && var m := Lookup(d, r[..|r| - 1]).value.m;
               r[|r| - 1] in m || '.' !in r[|r| - 1]
  {
    var r := [head] + ks;
    assert r[1..] == ks;
    assert r[..|r| - 1][1..] == ks[..|ks| - 1];
    assert Lookup(d, r[..|r| - 1]) == Lookup(d.m[head], ks[..|ks| - 1]);
    forall i | 0 <= i < |r| - 1 ensures '.' !in r[i] {
      if i > 0 { assert r[i] == ks[i - 1]; }
    }
  }

  /** What findVersion answers for the node its walk reaches: a string leaf is
      returned, an absent leaf reads as "", any other node breaks the `string`
      return type. */
  function LeafVersion(leaf: Option<Value>): Result<string>
  {
    match leaf
      case None => Ok("")
      case Some(Str(s)) => Ok(s)
      case Some(_) => Err(NotAString)
  }

  // ---------------------------------------------------------------------------
  // Properties.

  /** findVersion reads exactly the node its route addresses, and fails when
      the route meets a missing or non-mapping level. */
  lemma {:induction false} FindVersionFollowsRoute(d: Value, key: string)
    ensures Route(d, key).None? ==> FindVersion(d, key) == Err(NotAnArray)
    ensures Route(d, key).Some? ==> FindVersion(d, key) == LeafVersion(Lookup(d, Route(d, key).value))
    decreases |key|
  {
    if d.Map? && key !in d.m {
      match Explode(key)
      case None =>
      case Some(Split(head, rest)) =>
        if head in d.m {
          FindVersionFollowsRoute(d.m[head], rest);
          match Route(d.m[head], rest)
          case None =>
          case Some(ks) => assert ([head] + ks)[1..] == ks;
        }
    }
  }

  /** updateVersion succeeds exactly when the route exists; it then stores the
      new version at the end of that route and leaves the route itself intact. */
  lemma {:induction false} UpdateVersionFollowsRoute(d: Value, key: string, version: string)
    ensures UpdateVersion(d, key, version).Ok? <==> Route(d, key).Some?
    ensures UpdateVersion(d, key, version).Err? ==> UpdateVersion(d, key, version).error == NotAnArray
    ensures Route(d, key).Some? ==>
              Lookup(UpdateVersion(d, key, version).value, Route(d, key).value) == Some(Str(version)) &&
              Route(UpdateVersion(d, key, version).value, key) == Route(d, key)
    decreases |key|
  {
    if d.Map? && key !in d.m {
      match Explode(key)
      case None =>
      case Some(Split(head, rest)) =>
        if head in d.m {
          UpdateVersionFollowsRoute(d.m[head], rest, version);
          match Route(d.m[head], rest)
          case None =>
          case Some(ks) =>
            assert ([head] + ks)[1..] == ks;
            var sub := UpdateVersion(d.m[head], rest, version).value;
            assert UpdateVersion(d, key, version) == Ok(Map(d.m[head := sub]));
            assert key != head;
        }
    }
  }

  /** One level of the walk for a key that is not present verbatim and has a
      dot: the route continues in the child named by the key's head, and the
      update replaces that child by its updated copy. */
  lemma DescendStep(d: Value, key: string, version: string)
    requires Route(d, key).Some? && d.Map? && key !in d.m && Explode(key).Some?
    ensures var s := Explode(key).value;
            && s.head in d.m && Route(d.m[s.head], s.rest).Some?
            && Route(d, key).value == [s.head] + Route(d.m[s.head], s.rest).value
            && UpdateVersion(d.m[s.head], s.rest, version).Ok?
            && UpdateVersion(d, key, version)
               == Ok(Map(d.m[s.head := UpdateVersion(d.m[s.head], s.rest, version).value]))
  {
    var s := Explode(key).value;
    UpdateVersionFollowsRoute(d.m[s.head], s.rest, version);
  }

  /** updateVersion touches nothing but its route: every node whose path
      leaves the route is unchanged. */
  lemma {:induction false} UpdateVersionFrame(d: Value, key: string, version: string, q: seq<string>)
    requires Route(d, key).Some?
    ensures UpdateVersion(d, key, version).Ok?
    ensures var ks := Route(d, key).value; var d' := UpdateVersion(d, key, version).value;
            !(q <= ks) && !(ks <= q) ==> Lookup(d', q) == Lookup(d, q)
    decreases |key|
  {
    UpdateVersionFollowsRoute(d, key, version);
    var ks := Route(d, key).value;
    var d' := UpdateVersion(d, key, version).value;
    if q != [] && q[0] != ks[0] {
      assert Lookup(d', q) == Lookup(d, q);
    } else if q != [] && key !in d.m && Explode(key).Some? {
      DescendStep(d, key, version);
      var head, rest := Explode(key).value.head, Explode(key).value.rest;
      var ks' := Route(d.m[head], rest).value;
      UpdateVersionFrame(d.m[head], rest, version, q[1..]);
      assert q <= ks <==> q[1..] <= ks';
      assert ks <= q <==> ks' <= q[1..];
    }
  }

  /** The top level of a successful update keeps its keys and gains at most
      the route's first key. */
  lemma TopLevelKeys(d: Value, key: string, version: string)
    requires Route(d, key).Some?
    ensures d.Map? && UpdateVersion(d, key, version).Ok? && UpdateVersion(d, key, version).value.Map?
    ensures UpdateVersion(d, key, version).value.m.Keys == d.m.Keys + {Route(d, key).value[0]}
  {
    if key !in d.m && Explode(key).Some? {
      DescendStep(d, key, version);
    }
  }

  /** Each level along the route keeps its keys, gaining at most the route's
      next key (which, by Route's contract, can be new only at the last
      level). */
  lemma {:induction false} UpdateVersionKeepsLevels(d: Value, key: string, version: string, q: seq<string>)
    requires Route(d, key).Some?
    ensures UpdateVersion(d, key, version).Ok?
    ensures var ks := Route(d, key).value; var d' := UpdateVersion(d, key, version).value;
            q < ks ==> Lookup(d, q).Some? && Lookup(d, q).value.Map? &&
                       Lookup(d', q).Some? && Lookup(d', q).value.Map? &&
                       Lookup(d', q).value.m.Keys == Lookup(d, q).value.m.Keys + {ks[|q|]}
    decreases |key|
  {
    TopLevelKeys(d, key, version);
    var ks := Route(d, key).value;
    if q != [] && q < ks {
      assert |ks| > 1;
      assert key !in d.m && Explode(key).Some?;
      DescendStep(d, key, version);
      var head, rest := Explode(key).value.head, Explode(key).value.rest;
      var ks' := Route(d.m[head], rest).value;
      var sub := UpdateVersion(d.m[head], rest, version).value;
      UpdateVersionKeepsLevels(d.m[head], rest, version, q[1..]);
      assert q[0] == head && q[1..] < ks';
      assert Lookup(d, q) == Lookup(d.m[head], q[1..]);
      assert Lookup(UpdateVersion(d, key, version).value, q) == Lookup(sub, q[1..]);
      assert ks[|q|] == ks'[|q| - 1];
    }
  }

  /** Reading fails only by a type error: a non-mapping level or a
      non-string leaf. */
  lemma FindVersionErrors(d: Value, key: string)
    ensures FindVersion(d, key).Err? ==> FindVersion(d, key).error in {NotAnArray, NotAString}
  {
    FindVersionFollowsRoute(d, key);
  }

  /** Round trip: after a successful update, reading the same key yields the
      version just written. */
  lemma RoundTrip(d: Value, key: string, version: string)
    requires UpdateVersion(d, key, version).Ok?
    ensures FindVersion(UpdateVersion(d, key, version).value, key) == Ok(version)
  {
    UpdateVersionFollowsRoute(d, key, version);
    FindVersionFollowsRoute(UpdateVersion(d, key, version).value, key);
  }

  /** Whenever the current version can be read, the update along the same key
      cannot fail. */
  lemma FindThenUpdate(d: Value, key: string, version: string)
    requires FindVersion(d, key).Ok?
    ensures UpdateVersion(d, key, version).Ok?
  {
    FindVersionFollowsRoute(d, key);
    UpdateVersionFollowsRoute(d, key, version);
  }

  /** Worked cases: a verbatim dotted key shadows the nested reading, an absent
      undotted key reads as "", and non-string leaves break the `string` type. */
  lemma AccessorExamples()
    ensures var doc := Map(map["a.b" := Str("x"), "a" := Map(map["b" := Str("y")])]);
            FindVersion(doc, "a.b") == Ok("x")
    ensures FindVersion(Map(map[]), "version") == Ok("")
    ensures FindVersion(Map(map["version" := Other]), "version") == Err(NotAString)
  {
  }

  /** explode splits at the FIRST dot: any split whose head has no dot is the one. */
  lemma {:induction false} ExplodeAtFirstDot(key: string, head: string, rest: string)
    requires key == head + "." + rest && '.' !in head
    ensures Explode(key) == Some(Split(head, rest))
  {
    if head != [] {
      assert key[1..] == head[1..] + "." + rest;
      ExplodeAtFirstDot(key[1..], head[1..], rest);
      assert key[0] == head[0] && key[0] != '.';
      assert head == [key[0]] + head[1..];
    } else {
      assert key[1..] == rest;
    }
  }

  /** Worked case: "app.version" descends into "app"; a scalar there is an error. */
  lemma NestedKeyExamples()
    ensures FindVersion(Map(map["app" := Map(map["version" := Str("v9")])]), "app.version") == Ok("v9")
    ensures FindVersion(Map(map["app" := Str("v9")]), "app.version") == Err(NotAnArray)
  {
    ExplodeAtFirstDot("app.version", "app", "version");
  }

  /** Rewriting "app.version" replaces only the nested leaf. */
  lemma NestedUpdateExample()
    ensures UpdateVersion(Map(map["app" := Map(map["version" := Str("v9")])]), "app.version", "v10")
            == Ok(Map(map["app" := Map(map["version" := Str("v10")])]))
  {
    var inner := map["version" := Str("v9")];
    var outer := map["app" := Map(inner)];
    var leaf := map["version" := Str("v10")];
    assert inner["version" := Str("v10")] == leaf;
    assert UpdateVersion(Map(inner), "version", "v10") == Ok(Map(leaf));
    assert outer["app" := Map(leaf)] == map["app" := Map(leaf)];
    assert "app.version" !in outer;
    ExplodeAtFirstDot("app.version", "app", "version");
  }
}
