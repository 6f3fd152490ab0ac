/** The wire side of a capability probe: JSON-RPC 2.0 replies, method discovery, and the
    evidence draft that a probe updates call by call. */
module Transport {
  import opened Domain
  import Endpoint
  import opened Json
  import opened Strings
  import opened Wrappers

  datatype ProbeErrorKind = Timeout | TransportFailed | InvalidResponse | Rpc {
    function Name(): string {
      match this
      case Timeout => "Timeout"
      case TransportFailed => "Transport"
      case InvalidResponse => "InvalidResponse"
      case Rpc => "Rpc"
    }
  }

  datatype Detail =
    | NotAnHttpUrl
    | NotAnObject
    | NoMarker
    | NeitherResultNorError
    | RootNotAnObject
    | Reported(text: string)
  {
    function Text(): string {
      match this
      case NotAnHttpUrl => "endpoint must be an absolute HTTP(S) URL with a host"
      case NotAnObject => "JSON-RPC response must be an object"
      case NoMarker => "missing JSON-RPC 2.0 marker"
      case NeitherResultNorError => "JSON-RPC response contains neither result nor error"
      case RootNotAnObject => "root response must be a JSON object"
      case Reported(text) => text
    }
  }

  datatype ProbeError = ProbeError(kind: ProbeErrorKind, endpoint: string, operation: string, detail: Detail)

  datatype Request =
    | Post(endpoint: string, name: string, params: Value, id: nat)
    | Get(endpoint: string)

  datatype Exchange = Exchange(request: Request, response: Result<Value, ProbeError>)

  /** Any endpoint whatever: each response may depend on everything sent and received before. */
  class Connection {
    const respond: (seq<Exchange>, Request) -> Result<Value, ProbeError>
    var log: seq<Exchange>

    constructor (respond: (seq<Exchange>, Request) -> Result<Value, ProbeError>)
      ensures this.respond == respond && log == []
      ensures Truthful()
    {
      this.respond := respond;
      log := [];
    }

    /** Every response in the log is what the endpoint answered at that point. */
    ghost predicate Truthful()
      reads this
    {
      forall i | 0 <= i < |log| :: log[i].response == respond(log[..i], log[i].request)
    }

    method Send(request: Request) returns (response: Result<Value, ProbeError>)
      requires Truthful()
      modifies this
      ensures Truthful()
      ensures response == respond(old(log), request)
      ensures log == old(log) + [Exchange(request, response)]
    {
      response := respond(log, request);
      ghost var before := log;
      log := log + [Exchange(request, response)];
      assert forall i | 0 <= i <= |before| :: log[..i] == before[..i];
    }
  }

  /** The exchanges `xs`, made after `before`, hold the answers of the endpoint. */
  ghost predicate AnswersFrom(respond: (seq<Exchange>, Request) -> Result<Value, ProbeError>,
                              before: seq<Exchange>, xs: seq<Exchange>)
  {
    forall i | 0 <= i < |xs| :: xs[i].response == respond(before + xs[..i], xs[i].request)
  }

  lemma LogAnswers(c: Connection, before: seq<Exchange>, xs: seq<Exchange>)
    requires c.Truthful() && c.log == before + xs
    ensures AnswersFrom(c.respond, before, xs)
  {
    forall i | 0 <= i < |xs| ensures xs[i].response == c.respond(before + xs[..i], xs[i].request) {
      assert c.log[|before| + i] == xs[i] && c.log[..|before| + i] == before + xs[..i];
    }
  }

  // ---------------------------------------------------------------- replies

  datatype Support = Supported | Missing

  datatype RpcReply = RpcReply(result: Option<Value>, support: Support, warning: Option<string>)

  const METHOD_NOT_FOUND: int := -32601
  const INVALID_PARAMS: int := -32602

  function SignedDecimal(n: int): string {
    if n < 0 then "-" + Decimal(-n) else Decimal(n)
  }

  function ErrorCode(error: Value): int {
    var code := error.Get("code");
    if code.Some? && code.value.AsI64().Some? then code.value.AsI64().value else 0
  }

  /** The error object says that the method does not exist. JSON-RPC 2.0, section 5.1. */
  predicate SaysMethodNotFound(error: Value) {
    || ErrorCode(error) == METHOD_NOT_FOUND
    || (var message := GetStr(error, "message");
        message.Some? && Contains(AsciiLower(message.value), "method not found"))
  }

  function InvalidReply(endpoint: string, operation: string, detail: Detail): ProbeError {
    ProbeError(InvalidResponse, Endpoint.DisplayEndpoint(endpoint), operation, detail)
  }

  /** The response object of JSON-RPC 2.0, section 5. An error decides before a result does. */
  function ParseRpcReply(response: Value, name: string, endpoint: string): (r: Result<RpcReply, ProbeError>)
    ensures r.Success? && r.value.support == Missing ==> r.value.result == None && r.value.warning == None
  {
    if !response.Object? then Failure(InvalidReply(endpoint, name, NotAnObject))
    else if GetStr(response, "jsonrpc") != Some("2.0") then Failure(InvalidReply(endpoint, name, NoMarker))
    else
      var error, result := response.Get("error"), response.Get("result");
      if error.Some? then
        var code := ErrorCode(error.value);
        if SaysMethodNotFound(error.value) then Success(RpcReply(None, Missing, None))
        else if code == INVALID_PARAMS then Success(RpcReply(None, Supported, None))
        else Success(RpcReply(None, Supported,
                              Some("RPC method " + name + " returned error code " + SignedDecimal(code))))
      else if result.Some? then Success(RpcReply(result, Supported, None))
      else Failure(InvalidReply(endpoint, name, NeitherResultNorError))
  }

  /** The error object by its own fields: the code is an integer or counts as 0; the method is denied by
      code -32601, or by a message that says "method not found" in any case of letters. */
  lemma ErrorRules(error: Value)
    ensures var code, message := error.Get("code"), error.Get("message");
      && (ErrorCode(error) == if code.Some? && code.value.AsI64().Some? then code.value.n else 0)
      && (SaysMethodNotFound(error) <==>
            || code == Some(Int(-32601))
            || (message.Some? && message.value.Str? && Occurs(AsciiLower(message.value.s), "method not found")))
    ensures INVALID_PARAMS == -32602
  {
    hide AsciiLower, Contains, Occurs, Value.Get;
    var message := error.Get("message");
    if message.Some? && message.value.Str? {
      ContainsIff(AsciiLower(message.value.s), "method not found");
    }
  }

  /** What a reply says about a method, by JSON-RPC 2.0, sections 5 and 5.1: it is usable exactly when it
      is a marked object with a result or an error; an error outweighs a result; only the error that the
      method does not exist denies the method; and only an error that is neither that nor one about the
      parameters is worth a warning. */
  lemma ReplyRules(response: Value, name: string, endpoint: string)
    ensures var r := ParseRpcReply(response, name, endpoint);
      var error, result := response.Get("error"), response.Get("result");
      && (r.Success? <==> GetStr(response, "jsonrpc") == Some("2.0") && (error.Some? || result.Some?))
      && (r.Failure? ==> r.error.kind == InvalidResponse)
      && (r.Success? ==>
            && (r.value.support == Missing <==> error.Some? && SaysMethodNotFound(error.value))
            && (r.value.result == if error.Some? then None else result)
            && (r.value.warning.Some? <==>
                  error.Some? && !SaysMethodNotFound(error.value) && ErrorCode(error.value) != INVALID_PARAMS))
  {
    hide SaysMethodNotFound, ErrorCode, SignedDecimal, Endpoint.DisplayEndpoint;
  }

  function ReplyOf(x: Exchange): Result<RpcReply, ProbeError>
    requires x.request.Post?
  {
    match x.response
    case Failure(e) => Failure(e)
    case Success(v) => ParseRpcReply(v, x.request.name, x.request.endpoint)
  }

  function NameOf(entry: Value): Option<string> {
    FirstOf(entry.AsStr(), GetStr(entry, "name"))
  }

  function GetIn(value: Value, outer: string, inner: string): Option<Value> {
    var field := value.Get(outer);
    if field.Some? then field.value.Get(inner) else None
  }

  function MethodsOf(value: Value): Option<Value> {
    FirstOf(value.Get("methods"), FirstOf(GetIn(value, "openrpc", "methods"), GetIn(value, "schema", "methods")))
  }

  /** The method names an OpenRPC document lists, wherever it keeps them. */
  function DiscoverMethodNames(value: Value): set<string> {
    var methods := MethodsOf(value);
    if methods.None? || !methods.value.Array? then {}
    else set entry | entry in methods.value.items && NameOf(entry).Some? :: NameOf(entry).value
  }

  /** The array of methods a document holds: at the top, or else under "openrpc", or else under "schema". */
  ghost predicate HoldsMethods(value: Value, items: seq<Value>) {
    var top, openrpc, schema := value.Get("methods"), value.Get("openrpc"), value.Get("schema");
    || top == Some(Array(items))
    || (top.None? && openrpc.Some? && openrpc.value.Get("methods") == Some(Array(items)))
    || (&& top.None? && (openrpc.Some? ==> openrpc.value.Get("methods").None?)
        && schema.Some? && schema.value.Get("methods") == Some(Array(items)))
  }

  /** An entry names a method: it is the name, or an object with that "name". */
  ghost predicate Names(entry: Value, name: string) {
    entry == Str(name) || (entry.Object? && entry.Get("name") == Some(Str(name)))
  }

  /** A method is discovered exactly when an entry of the array names it. */
  lemma DiscoveredIff(value: Value, name: string)
    ensures name in DiscoverMethodNames(value) <==>
      exists items, entry :: HoldsMethods(value, items) && entry in items && Names(entry, name)
  {
    hide MethodsOf, HoldsMethods, NameOf, Names;
    forall items ensures HoldsMethods(value, items) <==> MethodsOf(value) == Some(Array(items)) {
      MethodsOfIff(value, items);
    }
    forall entry ensures NameOf(entry) == Some(name) <==> Names(entry, name) {
      NameOfIff(entry, name);
    }
    if name in DiscoverMethodNames(value) {
      var items := MethodsOf(value).value.items;
      assert HoldsMethods(value, items);
      var entry :| entry in items && NameOf(entry) == Some(name);
    }
  }

  lemma MethodsOfIff(value: Value, items: seq<Value>)
    ensures HoldsMethods(value, items) <==> MethodsOf(value) == Some(Array(items))
  {
    hide Value.Get;
  }

  lemma NameOfIff(entry: Value, name: string)
    ensures NameOf(entry) == Some(name) <==> Names(entry, name)
  {
  }

  function MethodObjects(names: seq<string>): seq<Value> {
    seq(|names|, i requires 0 <= i < |names| => Object([("name", Str(names[i]))]))
  }

  /** A document that lists methods as OpenRPC does, as objects with a name, is discovered whole. */
  lemma OpenRpcDiscovered(names: seq<string>)
    ensures DiscoverMethodNames(Object([("methods", Array(MethodObjects(names)))])) == set n | n in names
  {
    var document := Object([("methods", Array(MethodObjects(names)))]);
    assert document.Get("methods") == Some(Array(MethodObjects(names)));
    forall n ensures n in DiscoverMethodNames(document) <==> n in names {
      DiscoveredIff(document, n);
      NamedIn(names, n);
    }
  }

  lemma NamedIn(names: seq<string>, name: string)
    ensures (exists entry :: entry in MethodObjects(names) && Names(entry, name)) <==> name in names
  {
    var entries := MethodObjects(names);
    forall i | 0 <= i < |names| ensures entries[i] in entries && (Names(entries[i], name) <==> names[i] == name) {
      assert entries[i].Get("name") == Some(Str(names[i]));
    }
  }

  function SafeProbeParams(name: string): Value {
    if name in {"getEvents", "getTransactions", "getLedgers"} then
      Object([("startLedger", Int(0)), ("limit", Int(1))])
    else if name == "getLedgerEntries" then Object([("keys", Array([]))])
    else if name == "getTransaction" then Object([("hash", Str("compatibility-probe-invalid-hash"))])
    else if name in {"simulateTransaction", "sendTransaction"} then
      Object([("transaction", Str("compatibility-probe-invalid-envelope"))])
    else Object([])
  }

  predicate IsProbedWithParams(name: string) {
    || name in {"getEvents", "getTransactions", "getLedgers", "getLedgerEntries"}
    || name in {"getTransaction", "simulateTransaction", "sendTransaction"}
  }

  /** No optional question can do anything: listings ask for one entry from ledger 0, entries are asked for
      no key, and hash and envelope hold a dash, which neither hexadecimal nor Base64 digits do. */
  lemma ProbesAreHarmless(name: string)
    ensures var params := SafeProbeParams(name);
      && (name in {"getEvents", "getTransactions", "getLedgers"} ==>
            params.Get("startLedger") == Some(Int(0)) && params.Get("limit") == Some(Int(1)))
      && (name == "getLedgerEntries" ==> params.Get("keys") == Some(Array([])))
      && (name == "getTransaction" ==> exists hash :: params.Get("hash") == Some(Str(hash)) && '-' in hash)
      && (name in {"simulateTransaction", "sendTransaction"} ==>
            exists envelope :: params.Get("transaction") == Some(Str(envelope)) && '-' in envelope)
      && (!IsProbedWithParams(name) ==> params == Object([]))
  {
    var hash, envelope := "compatibility-probe-invalid-hash", "compatibility-probe-invalid-envelope";
    assert hash[13] == '-' && envelope[13] == '-';
    var params := SafeProbeParams(name);
    if name == "getTransaction" { assert params.Get("hash") == Some(Str(hash)); }
    if name in {"simulateTransaction", "sendTransaction"} { assert params.Get("transaction") == Some(Str(envelope)); }
  }

  // ---------------------------------------------------------------- limits and retention

  predicate IsLimit(key: string) {
    var lower := AsciiLower(key);
    Contains(lower, "limit") || "max" <= lower || Contains(lower, "retention")
  }

  /** A name speaks of a limit, in any case of letters, by "limit" or "retention" anywhere or "max" in
      front. */
  lemma IsLimitIff(key: string)
    ensures IsLimit(key) <==>
      || Occurs(AsciiLower(key), "limit") || Occurs(AsciiLower(key), "retention")
      || exists after :: AsciiLower(key) == "max" + after
  {
    hide AsciiLower, Contains, Occurs;
    var lower := AsciiLower(key);
    ContainsIff(lower, "limit");
    ContainsIff(lower, "retention");
    if "max" <= lower { assert lower == "max" + lower[3..]; }
  }

  /** Every numeric field whose name speaks of a limit; a later field replaces an earlier one. */
  function LimitsOf(fields: seq<(string, Value)>): map<string, nat> {
    if fields == [] then map[] else
      var (key, value) := fields[|fields| - 1];
      var rest := LimitsOf(fields[..|fields| - 1]);
      var number := value.LooseU64();
      if IsLimit(key) && number.Some? then rest[key := number.value] else rest
  }

  ghost predicate LimitAt(fields: seq<(string, Value)>, i: int, key: string) {
    0 <= i < |fields| && fields[i].0 == key && IsLimit(key) && fields[i].1.LooseU64().Some?
  }

  /** The limits are exactly the numeric fields whose names speak of one, each with its last value. */
  lemma {:induction false} LimitsKeepLast(fields: seq<(string, Value)>, key: string)
    ensures key in LimitsOf(fields) <==> exists i :: LimitAt(fields, i, key)
    ensures key in LimitsOf(fields) ==>
      exists i ::
        && LimitAt(fields, i, key)
        && LimitsOf(fields)[key] == fields[i].1.LooseU64().value
        && forall j :: i < j ==> !LimitAt(fields, j, key)
  {
    hide IsLimit, Value.LooseU64;
    if fields != [] {
      var before, last := fields[..|fields| - 1], |fields| - 1;
      LimitsKeepLast(before, key);
      assert forall i :: i < last ==> LimitAt(before, i, key) == LimitAt(fields, i, key);
      assert forall i :: i > last ==> !LimitAt(fields, i, key);
      if LimitAt(fields, last, key) {
        assert LimitsOf(fields)[key] == fields[last].1.LooseU64().value;
      }
    }
  }

  method ExtractLimits(value: Value) returns (limits: map<string, nat>)
    ensures limits == if value.Object? then LimitsOf(value.fields) else map[]
  {
    limits := map[];
    if !value.Object? {
      return;
    }
    for i := 0 to |value.fields|
      invariant limits == LimitsOf(value.fields[..i])
    {
      var (key, field) := value.fields[i];
      if IsLimit(key) {
        var number := field.LooseU64();
        if number.Some? {
          limits := limits[key := number.value];
        }
      }
      assert value.fields[..i + 1][..i] == value.fields[..i];
    }
    assert value.fields[..|value.fields|] == value.fields;
  }

  function SaturatingSub(a: nat, b: nat): nat {
    if a < b then 0 else a - b
  }

  function SaturatingAdd(a: nat, b: nat): nat {
    if a + b > U64_MAX then U64_MAX else a + b
  }

  /** The number of ledgers kept, from the newest and the oldest one. */
  function RetentionFrom(latest: Option<nat>, oldest: Option<nat>): Option<nat> {
    if latest.Some? && oldest.Some? then Some(SaturatingAdd(SaturatingSub(latest.value, oldest.value), 1))
    else None
  }

  predicate Between(l: int, lo: int, hi: int) {
    lo <= l <= hi
  }

  /** The derived window is the number of ledgers from the oldest to the newest, both included; a newest
      ledger before the oldest counts as one ledger. */
  lemma RetentionCounts(latest: nat, oldest: nat)
    requires latest <= U64_MAX
    ensures RetentionFrom(Some(latest), Some(oldest)).Some?
    ensures oldest <= latest && latest - oldest < U64_MAX ==>
      |set l | oldest <= l <= latest && Between(l, oldest, latest)| == RetentionFrom(Some(latest), Some(oldest)).value
    ensures latest < oldest ==> RetentionFrom(Some(latest), Some(oldest)) == Some(1)
    ensures RetentionFrom(None, Some(oldest)) == RetentionFrom(Some(latest), None) == None
  {
    if oldest <= latest { IntervalSize(oldest, latest); }
  }

  lemma {:induction false} IntervalSize(lo: nat, hi: nat)
    requires lo <= hi
    ensures |set l | lo <= l <= hi && Between(l, lo, hi)| == hi - lo + 1
    decreases hi - lo
  {
    var all := set l | lo <= l <= hi && Between(l, lo, hi);
    if lo == hi {
      assert all == {lo};
    } else {
      var top := hi - 1;
      IntervalSize(lo, top);
      assert all == (set l | lo <= l <= top && Between(l, lo, top)) + {hi};
    }
  }

  // ---------------------------------------------------------------- the evidence draft

  /** What the core replies say beyond which methods exist. */
  datatype Fields = Fields(
    networkIdentity: Option<string>,
    protocolVersion: Option<nat>,
    latestLedger: Option<nat>,
    oldestLedger: Option<nat>,
    retentionWindow: Option<nat>,
    rpcVersion: Option<string>,
    limits: map<string, nat>)

  function FieldsOf(e: Evidence): Fields {
    Fields(e.networkIdentity, e.protocolVersion, e.latestLedger, e.oldestLedger, e.retentionWindow, e.rpcVersion,
           e.limits)
  }

  const NO_FIELDS := Fields(None, None, None, None, None, None, map[])

  /** The evidence under construction. */
  class EvidenceDraft {
    const endpointId: string
    const displayEndpoint: string
    const observedAt: int
    var networkIdentity: Option<string>
    var latestLedger: Option<nat>
    var protocolVersion: Option<nat>
    var oldestLedger: Option<nat>
    var retentionWindow: Option<nat>
    var rpcVersion: Option<string>
    var supported: set<string>
    var missing: set<string>
    var vendor: set<string>
    var limits: map<string, nat>
    var horizon: Option<Horizon>
    var warnings: seq<string>

    constructor (displayEndpoint: string, endpointId: string, observedAt: int)
      ensures supported == missing == vendor == {} && warnings == [] && horizon == None
      ensures CurrentFields() == NO_FIELDS
      ensures this.displayEndpoint == displayEndpoint && this.endpointId == endpointId
      ensures this.observedAt == observedAt
    {
      this.displayEndpoint, this.endpointId, this.observedAt := displayEndpoint, endpointId, observedAt;
      networkIdentity, latestLedger, protocolVersion, oldestLedger := None, None, None, None;
      retentionWindow, rpcVersion, horizon := None, None, None;
      supported, missing, vendor, limits, warnings := {}, {}, {}, map[], [];
    }

    method RecordSupport(name: string, reply: RpcReply)
      modifies this`supported, this`missing, this`warnings
      ensures reply.support == Supported ==> supported == old(supported) + {name} && missing == old(missing) - {name}
      ensures reply.support == Missing ==> missing == old(missing) + {name} && supported == old(supported) - {name}
      ensures warnings == old(warnings) + (if reply.warning.Some? then [reply.warning.value] else [])
    {
      match reply.support {
        case Supported =>
          supported := supported + {name};
          missing := missing - {name};
        case Missing =>
          missing := missing + {name};
          supported := supported - {name};
      }
      if reply.warning.Some? {
        warnings := warnings + [reply.warning.value];
      }
    }

    function CurrentFields(): Fields
      reads this
    {
      Fields(networkIdentity, protocolVersion, latestLedger, oldestLedger, retentionWindow, rpcVersion, limits)
    }

    function Freeze(): Evidence
      reads this
    {
      Evidence(SCHEMA_VERSION, endpointId, displayEndpoint, observedAt, networkIdentity, latestLedger,
               protocolVersion, oldestLedger, retentionWindow, rpcVersion, supported, missing, vendor,
               limits, horizon, warnings)
    }
  }
}
