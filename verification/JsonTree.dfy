/** Walks over JSON trees of the auditor: the first protocol version and all JSON-RPC calls. */
module JsonTree {
  import opened Json
  import opened Wrappers

  /** The values directly inside a value, in order. */
  function Children(v: Value): seq<Value> {
    match v
    case Array(items) => items
    case Object(fields) => seq(|fields|, i requires 0 <= i < |fields| => fields[i].1)
    case _ => []
  }

  /** The value that a path of child positions leads to. */
  function At(v: Value, path: seq<nat>): Option<Value> {
    if path == [] then Some(v)
    else if path[0] < |Children(v)| then At(Children(v)[path[0]], path[1..])
    else None
  }

  /** The order in which a walk visits a value before what is inside it, left to right. */
  predicate Before(p: seq<nat>, q: seq<nat>) {
    q != [] && (p == [] || p[0] < q[0] || (p[0] == q[0] && Before(p[1..], q[1..])))
  }

  // ---------------------------------------------------------------- the first protocol version

  function VersionUnder(v: Value, names: seq<string>): Option<nat> {
    if names == [] then None else
      var field := v.Get(names[0]);
      FirstOf(if field.Some? then ToU32(field.value.LooseU64()) else None, VersionUnder(v, names[1..]))
  }

  /** The version a value carries itself. */
  function OwnVersion(v: Value): Option<nat> {
    if v.Object? then VersionUnder(v, ["protocol_version", "protocolVersion", "protocol"]) else None
  }

  function FindProtocolVersion(v: Value): Option<nat>
    decreases v, 1
  {
    FirstOf(OwnVersion(v), FindInside(v, 0))
  }

  /** The first version inside a value, from its k-th child on. */
  function FindInside(v: Value, k: nat): Option<nat>
    decreases v, 0, |Children(v)| - k
  {
    if k >= |Children(v)| then None else
      ChildSmaller(v, k);
      FirstOf(FindProtocolVersion(Children(v)[k]), FindInside(v, k + 1))
  }

  lemma ChildSmaller(v: Value, k: nat)
    requires k < |Children(v)|
    ensures Children(v)[k] < v
  {
    match v
    case Object(fields) => assert fields[k].1 < fields[k];
    case Array(items) =>
  }

  /** `path` leads to the first value, in visiting order, that carries a version itself. */
  ghost predicate FirstCarrier(v: Value, path: seq<nat>, version: nat) {
    && At(v, path).Some? && OwnVersion(At(v, path).value) == Some(version)
    && forall q :: Before(q, path) && At(v, q).Some? ==> OwnVersion(At(v, q).value) == None
  }

  ghost predicate NoCarrier(v: Value) {
    forall q :: At(v, q).Some? ==> OwnVersion(At(v, q).value) == None
  }

  /** The version found is that of the first value that carries one; none is found exactly when no
      value anywhere carries one. */
  lemma {:induction false} FindsFirstCarrier(v: Value)
    ensures FindProtocolVersion(v) == None <==> NoCarrier(v)
    ensures FindProtocolVersion(v).Some? ==> exists path :: FirstCarrier(v, path, FindProtocolVersion(v).value)
    decreases v, 1
  {
    if OwnVersion(v).Some? {
      assert At(v, []) == Some(v);
      assert FirstCarrier(v, [], OwnVersion(v).value);
    } else {
      FindsInside(v, 0);
      if FindInside(v, 0).None? {
        forall q | At(v, q).Some? ensures OwnVersion(At(v, q).value) == None {
          if q != [] { assert NoCarrier(Children(v)[q[0]]); }
        }
      }
    }
  }

  lemma {:induction false} FindsInside(v: Value, k: nat)
    requires k <= |Children(v)| && OwnVersion(v) == None
    requires forall i :: 0 <= i < k ==> NoCarrier(Children(v)[i])
    ensures FindInside(v, k) == None ==> forall i :: 0 <= i < |Children(v)| ==> NoCarrier(Children(v)[i])
    ensures FindInside(v, k).Some? ==>
        !NoCarrier(v) && exists path :: FirstCarrier(v, path, FindInside(v, k).value)
    decreases v, 0, |Children(v)| - k
  {
    var children := Children(v);
    if k < |children| {
      ChildSmaller(v, k);
      FindsFirstCarrier(children[k]);
      if FindProtocolVersion(children[k]).Some? {
        var version := FindProtocolVersion(children[k]).value;
        var path :| FirstCarrier(children[k], path, version);
        var whole := [k] + path;
        assert whole[1..] == path;
        forall q | Before(q, whole) && At(v, q).Some? ensures OwnVersion(At(v, q).value) == None {
          if q != [] && q[0] < k {
            assert NoCarrier(children[q[0]]);
          }
        }
        assert FirstCarrier(v, whole, version);
        assert At(v, whole).Some?;
      } else {
        FindsInside(v, k + 1);
      }
    }
  }

  // ---------------------------------------------------------------- JSON-RPC calls

  /** The value is a JSON-RPC 2.0 request object for `name`. */
  predicate Calls(v: Value, name: string) {
    v.Object? && GetStr(v, "jsonrpc") == Some("2.0") && GetStr(v, "method") == Some(name)
  }

  method CollectRpcMethods(v: Value, methods0: set<string>) returns (methods: set<string>)
    ensures forall n :: n in methods <==> n in methods0 || CalledWithin(v, n)
    decreases v, 1
  {
    methods := methods0;
    if v.Object? {
      if GetStr(v, "jsonrpc") == Some("2.0") {
        var name := GetStr(v, "method");
        if name.Some? {
          methods := methods + {name.value};
        }
      }
    }
    var own := methods;
    for i := 0 to |Children(v)|
      invariant forall n :: n in own <==> n in methods0 || Calls(v, n)
      invariant forall n :: n in methods <==> n in own || exists k :: 0 <= k < i && CalledWithin(Children(v)[k], n)
    {
      ChildSmaller(v, i);
      methods := CollectRpcMethods(Children(v)[i], methods);
    }
    forall n ensures CalledWithin(v, n) <==>
      Calls(v, n) || exists k :: 0 <= k < |Children(v)| && CalledWithin(Children(v)[k], n)
    {
      CalledWithinSteps(v, n);
    }
  }

  /** Somewhere in the tree, at any depth, is a call of `name`. */
  ghost predicate CalledWithin(v: Value, name: string) {
    exists path :: At(v, path).Some? && Calls(At(v, path).value, name)
  }

  lemma CalledWithinSteps(v: Value, name: string)
    ensures CalledWithin(v, name) <==>
      Calls(v, name) || exists k :: 0 <= k < |Children(v)| && CalledWithin(Children(v)[k], name)
  {
    if Calls(v, name) {
      assert At(v, []) == Some(v);
    }
    if k :| 0 <= k < |Children(v)| && CalledWithin(Children(v)[k], name) {
      var path :| At(Children(v)[k], path).Some? && Calls(At(Children(v)[k], path).value, name);
      assert ([k] + path)[1..] == path;
      assert At(v, [k] + path) == At(Children(v)[k], path);
    }
    if CalledWithin(v, name) && !Calls(v, name) {
      var path :| At(v, path).Some? && Calls(At(v, path).value, name);
      var rest := path[1..];
      assert At(Children(v)[path[0]], rest).Some? && Calls(At(Children(v)[path[0]], rest).value, name);
    }
  }

  // ---------------------------------------------------------------- paths, versions and calls in a document

  /** A path goes into the items of an array and the field values of an object, and paths compose. */
  lemma {:induction false} AtRules(v: Value, p: seq<nat>, q: seq<nat>, k: nat)
    ensures At(v, p + q) == if At(v, p).Some? then At(At(v, p).value, q) else None
    ensures v.Array? ==> At(v, [k]) == if k < |v.items| then Some(v.items[k]) else None
    ensures v.Object? ==> At(v, [k]) == if k < |v.fields| then Some(v.fields[k].1) else None
    ensures !v.Array? && !v.Object? ==> At(v, [k]) == None
  {
    assert [k][1..] == [];
    if p == [] {
      assert p + q == q;
    } else {
      assert (p + q)[1..] == p[1..] + q;
      if p[0] < |Children(v)| { AtRules(Children(v)[p[0]], p[1..], q, k); }
    }
  }

  /** Of two different paths exactly one comes first. */
  lemma {:induction false} BeforeIsStrict(p: seq<nat>, q: seq<nat>)
    ensures p != q ==> (Before(p, q) <==> !Before(q, p))
    ensures p == q ==> !Before(p, q)
  {
    if p != [] && q != [] {
      BeforeIsStrict(p[1..], q[1..]);
      if p[0] == q[0] {
        assert p == [p[0]] + p[1..] && q == [p[0]] + q[1..];
      }
    }
  }

  /** A value comes before what is inside it. */
  lemma {:induction false} OuterBefore(p: seq<nat>, q: seq<nat>)
    requires q != []
    ensures Before(p, p + q)
  {
    if p != [] {
      assert (p + q)[1..] == p[1..] + q;
      OuterBefore(p[1..], q);
    }
  }

  /** What is to the left comes before what is to the right. */
  lemma {:induction false} LeftBefore(p: seq<nat>, i: nat, j: nat, q: seq<nat>, r: seq<nat>)
    requires i < j
    ensures Before(p + ([i] + q), p + ([j] + r))
  {
    if p == [] {
      assert p + ([i] + q) == [i] + q && p + ([j] + r) == [j] + r;
    } else {
      assert (p + ([i] + q))[1..] == p[1..] + ([i] + q) && (p + ([j] + r))[1..] == p[1..] + ([j] + r);
      LeftBefore(p[1..], i, j, q, r);
    }
  }

  /** The field at position `k` of `names` holds the 32-bit number `n`, and no earlier one holds any. */
  ghost predicate FirstVersion(v: Value, names: seq<string>, k: int, n: nat) {
    && 0 <= k < |names| && n <= 0xFFFF_FFFF && v.Get(names[k]).Some? && IsNumber(v.Get(names[k]).value, n)
    && forall j, m: nat | 0 <= j < k && m <= 0xFFFF_FFFF && v.Get(names[j]).Some? ::
         !IsNumber(v.Get(names[j]).value, m)
  }

  lemma {:induction false} VersionUnderIff(v: Value, names: seq<string>, n: nat)
    ensures VersionUnder(v, names) == Some(n) <==> exists k :: FirstVersion(v, names, k, n)
  {
    if names != [] {
      hide Value.Get, IsNumber, Value.LooseU64;
      var first, rest := v.Get(names[0]), names[1..];
      assert forall j | 0 < j < |names| :: names[j] == rest[j - 1];
      forall x: Value, m: nat ensures x.LooseU64() == Some(m) <==> IsNumber(x, m) { LooseU64Iff(x, m); }
      if first.Some? && ToU32(first.value.LooseU64()).Some? {
        assert FirstVersion(v, names, 0, first.value.LooseU64().value);
      } else {
        VersionUnderIff(v, rest, n);
        if k :| FirstVersion(v, rest, k, n) { assert FirstVersion(v, names, k + 1, n); }
        if k :| FirstVersion(v, names, k, n) { assert FirstVersion(v, rest, k - 1, n); }
      }
    }
  }

  /** A value carries a version itself when it is an object with one under one of three names; the first of
      them that holds a 32-bit number counts. */
  lemma OwnVersionIff(v: Value, n: nat)
    ensures OwnVersion(v) == Some(n) <==>
      exists k :: FirstVersion(v, ["protocol_version", "protocolVersion", "protocol"], k, n)
  {
    VersionUnderIff(v, ["protocol_version", "protocolVersion", "protocol"], n);
  }

  /** A call says both: version 2.0 of JSON-RPC, and the name of the method. */
  lemma CallsIff(v: Value, name: string)
    ensures Calls(v, name) <==> v.Get("jsonrpc") == Some(Str("2.0")) && v.Get("method") == Some(Str(name))
  {
    hide Lookup;
  }
}
