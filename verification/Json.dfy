/** JSON values as serde_json holds them, and the accessors the sources use. */
module Json {
  import opened Strings
  import opened Wrappers

  datatype Value =
    | Null
    | Bool(b: bool)
    | Int(n: int)
    | Float(x: real)
    | Str(s: string)
    | Array(items: seq<Value>)
    | Object(fields: seq<(string, Value)>)
  {
    /** `value.get(name)`: the field of that name; nothing on a value that is no object. A name that is
        given twice counts as its last field, as it does when a text is parsed. */
    function Get(name: string): Option<Value> {
      if Object? then Lookup(fields, name) else None
    }

    function AsStr(): Option<string> {
      if Str? then Some(s) else None
    }

    function AsU64(): Option<nat> {
      if Int? && 0 <= n <= U64_MAX then Some(n) else None
    }

    function AsI64(): Option<int> {
      if Int? && -0x8000_0000_0000_0000 <= n <= 0x7FFF_FFFF_FFFF_FFFF then Some(n) else None
    }

    /** A number, or a string that parses as one. */
    function LooseU64(): Option<nat> {
      FirstOf(AsU64(), if Str? then ParseU64(s) else None)
    }
  }

  function Lookup(fields: seq<(string, Value)>, name: string): Option<Value> {
    if fields == [] then None
    else if fields[|fields| - 1].0 == name then Some(fields[|fields| - 1].1)
    else Lookup(fields[..|fields| - 1], name)
  }

  /** `value.get(name).and_then(Value::as_str)` */
  function GetStr(value: Value, name: string): Option<string> {
    var field := value.Get(name);
    if field.Some? then field.value.AsStr() else None
  }

  /** The first of `names` whose field is a string. */
  function StringField(value: Value, names: seq<string>): Option<string> {
    if names == [] then None
    else FirstOf(GetStr(value, names[0]), StringField(value, names[1..]))
  }

  /** The first of `names` whose field is a number. */
  function U64Field(value: Value, names: seq<string>): Option<nat> {
    if names == [] then None else
      var field := value.Get(names[0]);
      FirstOf(if field.Some? then field.value.LooseU64() else None, U64Field(value, names[1..]))
  }

  function ToU32(n: Option<nat>): Option<nat> {
    if n.Some? && n.value <= U32_MAX then n else None
  }

  function U32Field(value: Value, names: seq<string>): Option<nat> {
    ToU32(U64Field(value, names))
  }

  // ---------------------------------------------------------------- what the accessors read

  /** The last field of that name. */
  ghost predicate FieldAt(v: Value, name: string, i: int, x: Value) {
    && v.Object? && 0 <= i < |v.fields| && v.fields[i] == (name, x)
    && forall j | i < j < |v.fields| :: v.fields[j].0 != name
  }

  lemma {:induction false} GetIff(v: Value, name: string, x: Value)
    ensures v.Get(name) == Some(x) <==> exists i :: FieldAt(v, name, i, x)
    decreases if v.Object? then |v.fields| else 0
  {
    if v.Object? && v.fields != [] {
      var last := |v.fields| - 1;
      var before := Object(v.fields[..last]);
      if v.fields[last].0 == name {
        assert FieldAt(v, name, last, v.fields[last].1);
      } else {
        GetIff(before, name, x);
        if i :| FieldAt(before, name, i, x) { assert FieldAt(v, name, i, x); }
        if i :| FieldAt(v, name, i, x) { assert FieldAt(before, name, i, x); }
      }
    }
  }

  /** What counts as the number `n`: a JSON integer of 64 bits, or a text that reads as one. */
  ghost predicate IsNumber(v: Value, n: nat) {
    n <= 0xFFFF_FFFF_FFFF_FFFF && (v == Int(n) || (v.Str? && ParseU64(v.s) == Some(n)))
  }

  lemma LooseU64Iff(v: Value, n: nat)
    ensures v.LooseU64() == Some(n) <==> IsNumber(v, n)
  {
    hide ParseU64;
  }

  lemma SignedIff(v: Value, n: int)
    ensures v.AsI64() == Some(n) <==> v == Int(n) && -0x8000_0000_0000_0000 <= n <= 0x7FFF_FFFF_FFFF_FFFF
  {
  }

  /** The first name whose field holds what is looked for decides. */
  ghost predicate FirstNumber(v: Value, names: seq<string>, k: int, n: nat) {
    && 0 <= k < |names| && v.Get(names[k]).Some? && IsNumber(v.Get(names[k]).value, n)
    && forall j, m: nat | 0 <= j < k && v.Get(names[j]).Some? :: !IsNumber(v.Get(names[j]).value, m)
  }

  lemma {:induction false} U64FieldIff(v: Value, names: seq<string>, n: nat)
    ensures U64Field(v, names) == Some(n) <==> exists k :: FirstNumber(v, names, k, n)
  {
    if names != [] {
      hide Value.Get, IsNumber, Value.LooseU64;
      var first, rest := v.Get(names[0]), names[1..];
      assert forall j | 0 < j < |names| :: names[j] == rest[j - 1];
      forall x: Value, m: nat ensures x.LooseU64() == Some(m) <==> IsNumber(x, m) { LooseU64Iff(x, m); }
      if first.Some? && first.value.LooseU64().Some? {
        assert FirstNumber(v, names, 0, first.value.LooseU64().value);
      } else {
        U64FieldIff(v, rest, n);
        if k :| FirstNumber(v, rest, k, n) { assert FirstNumber(v, names, k + 1, n); }
        if k :| FirstNumber(v, names, k, n) { assert FirstNumber(v, rest, k - 1, n); }
      }
    }
  }

  ghost predicate FirstString(v: Value, names: seq<string>, k: int, s: string) {
    && 0 <= k < |names| && v.Get(names[k]) == Some(Str(s))
    && forall j | 0 <= j < k && v.Get(names[j]).Some? :: !v.Get(names[j]).value.Str?
  }

  lemma {:induction false} StringFieldIff(v: Value, names: seq<string>, s: string)
    ensures StringField(v, names) == Some(s) <==> exists k :: FirstString(v, names, k, s)
  {
    if names != [] {
      hide Value.Get;
      var first, rest := v.Get(names[0]), names[1..];
      assert forall j | 0 < j < |names| :: names[j] == rest[j - 1];
      if first.Some? && first.value.Str? {
        assert FirstString(v, names, 0, first.value.s);
      } else {
        StringFieldIff(v, rest, s);
        if k :| FirstString(v, rest, k, s) { assert FirstString(v, names, k + 1, s); }
        if k :| FirstString(v, names, k, s) { assert FirstString(v, rest, k - 1, s); }
      }
    }
  }

  lemma U32FieldIff(v: Value, names: seq<string>, n: nat)
    ensures U32Field(v, names) == Some(n) <==> n <= 0xFFFF_FFFF && exists k :: FirstNumber(v, names, k, n)
  {
    U64FieldIff(v, names, n);
  }
}
