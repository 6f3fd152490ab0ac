/** The capability probe: a fixed series of JSON-RPC calls to an arbitrary endpoint, and what
    the evidence it gathers says about the replies. */
module Prober {
  import opened Domain
  import Endpoint
  import opened Json
  import opened Sorting
  import opened Strings
  import opened Transport
  import opened Wrappers

  datatype ProbeOptions = ProbeOptions(probeOptionalMethods: bool, includeHorizon: bool)

  const DISCOVER := "rpc.discover"
  const NETWORK := "getNetwork"
  const LATEST := "getLatestLedger"
  const HEALTH := "getHealth"
  const VERSION := "getVersionInfo"
  const CORE: seq<string> := [DISCOVER, NETWORK, LATEST, HEALTH, VERSION]
  const CORE_SET: set<string> := set c | c in CORE

  // ---------------------------------------------------------------- what was asked

  function CoreRequest(rpc: string, i: nat): Request
    requires i < |CORE|
  {
    Post(rpc, CORE[i], Object([]), i + 1)
  }

  function OptionalRequest(rpc: string, name: string, index: nat): Request {
    Post(rpc, name, SafeProbeParams(name), 100 + index)
  }

  function OptionalMethods(m: Matrix): seq<string> {
    Ascending(m.KnownMethods() - CORE_SET)
  }

  lemma OptionalMembers(m: Matrix)
    ensures forall n :: n in OptionalMethods(m) <==> n in m.KnownMethods() && n !in CORE_SET
  {
  }

  function Requests(posts: seq<Exchange>): seq<Request> {
    seq(|posts|, i requires 0 <= i < |posts| => posts[i].request)
  }

  function CorePlan(rpc: string): seq<Request> {
    seq(|CORE|, i requires 0 <= i < |CORE| => CoreRequest(rpc, i))
  }

  function OptionalPlan(rpc: string, names: seq<string>): seq<Request> {
    seq(|names|, i requires 0 <= i < |names| => OptionalRequest(rpc, names[i], i))
  }

  lemma OptionalPosts(rpc: string, names: seq<string>)
    ensures forall q :: q in OptionalPlan(rpc, names) ==> q.Post?
  {
  }

  /** The requests of a complete probe: the core methods, then the other known methods in
      ascending order, but only if discovery listed nothing. */
  function Plan(m: Matrix, options: ProbeOptions, rpc: string, listed: set<string>): seq<Request> {
    CorePlan(rpc)
    + (if options.probeOptionalMethods && listed == {} then OptionalPlan(rpc, OptionalMethods(m)) else [])
  }

  // ---------------------------------------------------------------- what was answered

  ghost predicate AllAnswered(posts: seq<Exchange>) {
    forall x :: x in posts ==> x.request.Post? && ReplyOf(x).Success?
  }

  function Listed(x: Exchange): set<string>
    requires x.request.Post? && ReplyOf(x).Success?
  {
    var result := ReplyOf(x).value.result;
    if result.Some? then DiscoverMethodNames(result.value) else {}
  }

  /** What the last direct question about a method was answered. */
  function AnswerTo(posts: seq<Exchange>, name: string): Option<Support>
    requires AllAnswered(posts)
  {
    if posts == [] then None
    else if posts[|posts| - 1].request.name == name then Some(ReplyOf(posts[|posts| - 1]).value.support)
    else AnswerTo(posts[..|posts| - 1], name)
  }

  /** The reported warnings of the replies, in order. */
  function WarningsOf(posts: seq<Exchange>): seq<string>
    requires AllAnswered(posts)
  {
    if posts == [] then [] else
      var warning := ReplyOf(posts[|posts| - 1]).value.warning;
      WarningsOf(posts[..|posts| - 1]) + (if warning.Some? then [warning.value] else [])
  }

  /** How the evidence must classify a method. A direct answer decides. Otherwise a known method
      is supported when discovery lists it; and it is missing when discovery lists others only. */
  function Classify(m: Matrix, options: ProbeOptions, listed: set<string>, posts: seq<Exchange>, name: string)
    : Option<Support>
    requires AllAnswered(posts)
  {
    var direct := AnswerTo(posts, name);
    if direct.Some? then direct
    else if name !in m.KnownMethods() then None
    else if name in listed then Some(Supported)
    else if options.probeOptionalMethods && listed != {} then Some(Missing)
    else None
  }

  ghost predicate Classifies(m: Matrix, options: ProbeOptions, listed: set<string>, posts: seq<Exchange>,
                             supported: set<string>, missing: set<string>)
    requires AllAnswered(posts)
  {
    forall n ::
      && (n in supported <==> Classify(m, options, listed, posts, n) == Some(Supported))
      && (n in missing <==> Classify(m, options, listed, posts, n) == Some(Missing))
  }

  function ResultOf(x: Exchange): Option<Value>
    requires x.request.Post? && ReplyOf(x).Success?
  {
    ReplyOf(x).value.result
  }

  function StringOf(result: Option<Value>, names: seq<string>): Option<string> {
    if result.Some? then StringField(result.value, names) else None
  }

  function NumberOf(result: Option<Value>, names: seq<string>): Option<nat> {
    if result.Some? then U64Field(result.value, names) else None
  }

  const PROTOCOL_FIELDS := ["protocolVersion", "protocol_version"]
  const SEQUENCE_FIELDS := ["sequence", "ledger", "latestLedger", "latest_ledger"]
  const LATEST_FIELDS := ["latestLedger", "latest_ledger", "latestLedgerSequence"]
  const OLDEST_FIELDS := ["oldestLedger", "oldest_ledger", "oldestLedgerSequence"]
  const RETENTION_FIELDS := ["ledgerRetentionWindow", "retentionWindow", "retention_window"]
  const PASSPHRASE_FIELDS := ["passphrase", "networkPassphrase"]
  const VERSION_FIELDS := ["version", "versionString", "commitHash", "commit_hash"]

  function LimitsIn(result: Option<Value>): map<string, nat> {
    if result.Some? && result.value.Object? then LimitsOf(result.value.fields) else map[]
  }

  function IdentityIn(result: Option<Value>, digest: string -> string): Option<string> {
    var passphrase := StringOf(result, PASSPHRASE_FIELDS);
    if passphrase.Some? then Some(digest(passphrase.value)) else None
  }

  function ProtocolIn(result: Option<Value>): Option<nat> {
    ToU32(NumberOf(result, PROTOCOL_FIELDS))
  }

  function RetentionIn(health: Option<Value>, latest: Option<nat>, oldest: Option<nat>): Option<nat> {
    if health.None? then None
    else FirstOf(NumberOf(health, RETENTION_FIELDS), RetentionFrom(latest, oldest))
  }

  /** The ledger numbers, versions and limits of the evidence, from the four replies that carry
      them: a later reply overrides an earlier one where it has the field at all. */
  function FieldsFrom(digest: string -> string, network: Option<Value>, latest: Option<Value>,
                      health: Option<Value>, version: Option<Value>): Fields
  {
    var latestLedger := FirstOf(NumberOf(health, LATEST_FIELDS), NumberOf(latest, SEQUENCE_FIELDS));
    var oldestLedger := NumberOf(health, OLDEST_FIELDS);
    Fields(
      IdentityIn(network, digest),
      FirstOf(ProtocolIn(latest), ProtocolIn(network)),
      latestLedger,
      oldestLedger,
      RetentionIn(health, latestLedger, oldestLedger),
      StringOf(version, VERSION_FIELDS),
      LimitsIn(health) + LimitsIn(version))
  }

  /** What the Horizon root says, if it says anything usable. */
  function HorizonFrom(x: Exchange, digest: string -> string): Result<Horizon, ProbeError>
    requires x.request.Get?
  {
    match x.response
    case Failure(e) => Failure(e)
    case Success(v) =>
      if !v.Object? then Failure(InvalidReply(x.request.endpoint, "Horizon request", RootNotAnObject)) else
        var passphrase := StringField(v, ["network_passphrase", "networkPassphrase", "passphrase"]);
        Success(Horizon(
          Endpoint.DisplayEndpoint(x.request.endpoint),
          if passphrase.Some? then Some(digest(passphrase.value)) else None,
          U64Field(v, ["history_latest_ledger", "historyLatestLedger", "latest_ledger"]),
          U32Field(v, ["current_protocol_version", "protocolVersion", "protocol_version"]),
          StringField(v, ["core_version", "coreVersion"])))
  }

  function HorizonWarning(e: ProbeError): string {
    "Horizon evidence was unavailable: " + e.detail.Text() + " (" + e.kind.Name() + ")"
  }

  function HorizonRequests(options: ProbeOptions, horizon: Option<string>): seq<Request> {
    if options.includeHorizon && horizon.Some? then [Get(horizon.value)] else []
  }

  /** What the optional Horizon call adds: evidence, or one warning instead. */
  ghost predicate HorizonAdds(gets: seq<Exchange>, digest: string -> string, horizon: Option<Horizon>,
                              warning: seq<string>)
    requires forall x :: x in gets ==> x.request.Get?
  {
    if gets == [] then horizon == None && warning == [] else
      match HorizonFrom(gets[0], digest)
      case Success(h) => horizon == Some(h) && warning == []
      case Failure(e) => horizon == None && warning == [HorizonWarning(e)]
  }

  /** Every call was answered, and the calls are exactly the planned ones. */
  ghost predicate Planned(m: Matrix, options: ProbeOptions, rpc: string, posts: seq<Exchange>) {
    && AllAnswered(posts) && |posts| >= |CORE|
    && Requests(posts) == Plan(m, options, rpc, Listed(posts[0]))
  }

  /** The method sets of the evidence are what the replies say. */
  ghost predicate Sorts(m: Matrix, options: ProbeOptions, posts: seq<Exchange>, e: Evidence)
    requires AllAnswered(posts) && |posts| >= |CORE|
  {
    && Classifies(m, options, Listed(posts[0]), posts, e.supported, e.missing)
    && e.vendor == Listed(posts[0]) - m.KnownMethods()
  }

  /** So are the ledger numbers, versions and limits. */
  ghost predicate Carries(digest: string -> string, posts: seq<Exchange>, e: Evidence)
    requires AllAnswered(posts) && |posts| >= |CORE|
  {
    FieldsOf(e) == FieldsFrom(digest, ResultOf(posts[1]), ResultOf(posts[2]), ResultOf(posts[3]), ResultOf(posts[4]))
  }

  /** And the warnings, with what the optional Horizon call adds. */
  ghost predicate Warns(options: ProbeOptions, horizon: Option<string>, digest: string -> string,
                        posts: seq<Exchange>, gets: seq<Exchange>, e: Evidence)
    requires AllAnswered(posts)
  {
    && (forall x :: x in gets ==> x.request.Get?)
    && Requests(gets) == HorizonRequests(options, horizon)
    && exists warning ::
        && HorizonAdds(gets, digest, e.horizon, warning)
        && e.warnings == Ascending(set w | w in WarningsOf(posts) + warning)
  }

  /** The evidence of a successful probe, given the calls it made. */
  ghost predicate Probed(m: Matrix, options: ProbeOptions, rpc: string, horizon: Option<string>,
                         digest: string -> string, posts: seq<Exchange>, gets: seq<Exchange>, e: Evidence)
  {
    && Planned(m, options, rpc, posts)
    && Sorts(m, options, posts, e)
    && Carries(digest, posts, e)
    && Warns(options, horizon, digest, posts, gets, e)
  }

  // ---------------------------------------------------------------- the prober

  /** One more answered question, recorded in the draft. */
  lemma AnswerGrows(posts: seq<Exchange>, x: Exchange)
    requires AllAnswered(posts) && x.request.Post? && ReplyOf(x).Success?
    ensures AllAnswered(posts + [x])
    ensures forall n ::
        AnswerTo(posts + [x], n) == if n == x.request.name then Some(ReplyOf(x).value.support) else AnswerTo(posts, n)
    ensures WarningsOf(posts + [x]) == WarningsOf(posts)
      + (if ReplyOf(x).value.warning.Some? then [ReplyOf(x).value.warning.value] else [])
    ensures Requests(posts + [x]) == Requests(posts) + [x.request]
  {
    assert (posts + [x])[..|posts|] == posts;
  }

  /** The sets of a draft reflect the answers so far, and what discovery listed where nothing was
      asked. */
  ghost predicate Reflected(supported: set<string>, missing: set<string>, known: set<string>,
                            listed: set<string>, posts: seq<Exchange>)
    requires AllAnswered(posts)
  {
    forall n :: var a := AnswerTo(posts, n);
      && (n in supported <==> a == Some(Supported) || (a == None && n in listed && n in known))
      && (n in missing <==> a == Some(Missing))
  }

  ghost predicate Reflects(d: EvidenceDraft, known: set<string>, listed: set<string>, posts: seq<Exchange>)
    reads d
    requires AllAnswered(posts)
  {
    && d.warnings == WarningsOf(posts)
    && d.vendor == listed - known
    && Reflected(d.supported, d.missing, known, listed, posts)
  }

  lemma {:induction false} AnsweredIffAsked(posts: seq<Exchange>, n: string)
    requires AllAnswered(posts)
    ensures AnswerTo(posts, n).Some? <==> exists i :: 0 <= i < |posts| && posts[i].request.name == n
  {
    if posts != [] && posts[|posts| - 1].request.name != n {
      AnsweredIffAsked(posts[..|posts| - 1], n);
    }
  }

  lemma LogGrows(log: seq<Exchange>, before: seq<Exchange>, after: seq<Exchange>)
    requires before <= after
    ensures (log + before) + after[|before|..] == log + after
  {
  }

  lemma CorePlanned(rpc: string, posts: seq<Exchange>)
    requires CorePrefix(rpc, posts) && |posts| == |CORE|
    ensures Requests(posts) == CorePlan(rpc)
  {
  }

  lemma RequestsConcatenate(a: seq<Exchange>, b: seq<Exchange>)
    ensures Requests(a + b) == Requests(a) + Requests(b)
  {
  }

  lemma CoreAnswered(rpc: string, posts: seq<Exchange>)
    requires AllAnswered(posts) && CorePrefix(rpc, posts) && |posts| == |CORE|
    ensures forall n :: AnswerTo(posts, n).Some? <==> n in CORE_SET
  {
    hide AnswerTo, ReplyOf, AllAnswered, CORE;
    assert forall i :: 0 <= i < |posts| ==> posts[i].request.name == CORE[i];
    forall n ensures AnswerTo(posts, n).Some? <==> n in CORE_SET {
      AnsweredIffAsked(posts, n);
      if n in CORE_SET {
        var i :| 0 <= i < |CORE| && CORE[i] == n;
        assert posts[i].request.name == n;
      }
    }
  }

  /** Discovery listed something: the other known methods are sorted by that list alone. */
  lemma ListedClassifies(m: Matrix, options: ProbeOptions, listed: set<string>, core: seq<Exchange>, asked: set<string>,
                         supported0: set<string>, missing0: set<string>, supported: set<string>, missing: set<string>)
    requires options.probeOptionalMethods && listed != {} && AllAnswered(core)
    requires forall n :: AnswerTo(core, n).Some? <==> n in asked
    requires Reflected(supported0, missing0, m.KnownMethods(), listed, core)
    requires forall n :: n in supported <==> n in supported0 || (n in listed && n in m.KnownMethods() && n !in asked)
    requires forall n :: n in missing <==> n in missing0 || (n !in listed && n in m.KnownMethods() && n !in asked)
    ensures Classifies(m, options, listed, core, supported, missing)
  {
  }

  /** Without optional methods, or with every one of them asked, the draft is the classification. */
  lemma ReflectedClassifies(m: Matrix, options: ProbeOptions, listed: set<string>, posts: seq<Exchange>,
                            supported: set<string>, missing: set<string>)
    requires AllAnswered(posts) && Reflected(supported, missing, m.KnownMethods(), listed, posts)
    requires !options.probeOptionalMethods || listed == {}
    ensures Classifies(m, options, listed, posts, supported, missing)
  {
  }

  lemma DiscoveryReflected(x: Exchange, known: set<string>)
    requires x.request.Post? && ReplyOf(x).Success?
    ensures AllAnswered([x])
    ensures forall supported, missing |
        && (forall n :: n in supported <==>
              (n == x.request.name && ReplyOf(x).value.support == Supported) || (n in Listed(x) && n in known))
        && (forall n :: n in missing <==> n == x.request.name && ReplyOf(x).value.support == Missing)
      :: Reflected(supported, missing, known, Listed(x), [x])
    ensures WarningsOf([x]) == if ReplyOf(x).value.warning.Some? then [ReplyOf(x).value.warning.value] else []
  {
    AnswerGrows([], x);
    assert [] + [x] == [x];
    assert forall n :: AnswerTo([x], n) == if n == x.request.name then Some(ReplyOf(x).value.support) else None;
  }

  /** The probe stopped at a call that failed: every earlier one was answered. */
  ghost predicate FailsAtLast(posts: seq<Exchange>, error: ProbeError) {
    && posts != [] && AllAnswered(posts[..|posts| - 1])
    && posts[|posts| - 1].request.Post? && ReplyOf(posts[|posts| - 1]) == Failure(error)
  }

  /** What discovery listed, if it was answered at all. */
  ghost function ListedSoFar(posts: seq<Exchange>): set<string> {
    if posts != [] && posts[0].request.Post? && ReplyOf(posts[0]).Success? then Listed(posts[0]) else {}
  }

  /** The requests of a probe, however far it got. */
  ghost predicate FollowsPlan(m: Matrix, options: ProbeOptions, rpc: string, posts: seq<Exchange>) {
    Requests(posts) <= Plan(m, options, rpc, ListedSoFar(posts))
  }

  lemma CoreFollowsPlan(m: Matrix, options: ProbeOptions, rpc: string, posts: seq<Exchange>)
    requires CorePrefix(rpc, posts)
    ensures FollowsPlan(m, options, rpc, posts)
  {
    hide CoreRequest, ListedSoFar, OptionalPlan, CORE;
    assert Requests(posts) == CorePlan(rpc)[..|posts|];
  }

  lemma OptionalFollowsPlan(m: Matrix, options: ProbeOptions, rpc: string, core: seq<Exchange>, asked: seq<Exchange>)
    requires options.probeOptionalMethods && ListedSoFar(core + asked) == {} && Requests(core) == CorePlan(rpc)
    requires Requests(asked) <= OptionalPlan(rpc, OptionalMethods(m))
    ensures FollowsPlan(m, options, rpc, core + asked)
  {
    hide CorePlan, OptionalPlan, OptionalMethods, ListedSoFar;
    RequestsConcatenate(core, asked);
  }

  ghost predicate CorePrefix(rpc: string, posts: seq<Exchange>) {
    |posts| <= |CORE| && forall i :: 0 <= i < |posts| ==> posts[i].request == CoreRequest(rpc, i)
  }

  /** One call was made, and this is its reply. */
  ghost predicate Answered(before: seq<Exchange>, after: seq<Exchange>, request: Request,
                           r: Result<RpcReply, ProbeError>, x: Exchange)
  {
    after == before + [x] && x.request == request && request.Post? && r == ReplyOf(x)
  }

  class EndpointProber {
    const connection: Connection
    const m: Matrix
    const options: ProbeOptions
    /** The truncated SHA-256 identifiers of endpoints and of network passphrases. */
    const endpointDigest: string -> string
    const digest: string -> string

    constructor (connection: Connection, m: Matrix, options: ProbeOptions,
                 endpointDigest: string -> string, digest: string -> string)
      ensures this.connection == connection && this.m == m && this.options == options
      ensures this.endpointDigest == endpointDigest && this.digest == digest
    {
      this.connection, this.m, this.options := connection, m, options;
      this.endpointDigest, this.digest := endpointDigest, digest;
    }

    method RpcCall(request: Request) returns (r: Result<RpcReply, ProbeError>, ghost x: Exchange)
      requires request.Post?
      requires connection.Truthful()
      modifies connection
      ensures connection.Truthful()
      ensures Answered(old(connection.log), connection.log, request, r, x)
    {
      var response := connection.Send(request);
      x := Exchange(request, response);
      match response {
        case Failure(e) => r := Failure(e);
        case Success(v) => r := ParseRpcReply(v, request.name, request.endpoint);
      }
    }

    /** A call whose outcome is recorded in the draft. */
    method Ask(d: EvidenceDraft, request: Request, ghost known: set<string>, ghost listed: set<string>,
               ghost posts: seq<Exchange>)
      returns (r: Result<RpcReply, ProbeError>, ghost x: Exchange)
      requires request.Post?
      requires AllAnswered(posts) && Reflects(d, known, listed, posts)
      requires connection.Truthful()
      modifies connection, d`supported, d`missing, d`warnings
      ensures connection.Truthful()
      ensures Answered(old(connection.log), connection.log, request, r, x)
      ensures r.Success? ==> AllAnswered(posts + [x]) && Reflects(d, known, listed, posts + [x])
    {
      r, x := RpcCall(request);
      if r.Success? {
        d.RecordSupport(request.name, r.value);
        AnswerGrows(posts, x);
      }
    }

    /** The first call: what discovery lists, and which of it the matrix does not know. */
    method Discover(d: EvidenceDraft, rpc: string) returns (r: Result<set<string>, ProbeError>, ghost x: Exchange)
      requires d.supported == d.missing == d.vendor == {} && d.warnings == []
      requires connection.Truthful()
      modifies connection, d`supported, d`missing, d`vendor, d`warnings
      ensures connection.Truthful()
      ensures connection.log == old(connection.log) + [x] && x.request == CoreRequest(rpc, 0)
      ensures r.Failure? ==> FailsAtLast([x], r.error)
      ensures r.Success? ==>
        AllAnswered([x]) && r.value == Listed(x) && Reflects(d, m.KnownMethods(), r.value, [x])
    {
      var reply;
      reply, x := RpcCall(CoreRequest(rpc, 0));
      if reply.Failure? {
        r := Failure(reply.error);
        return;
      }
      var discovered := if reply.value.result.Some? then DiscoverMethodNames(reply.value.result.value) else {};
      if reply.value.support == Supported {
        d.supported := d.supported + {DISCOVER};
      } else {
        d.missing := d.missing + {DISCOVER};
      }
      RecordListed(d, discovered, m.KnownMethods());
      if reply.value.warning.Some? {
        d.warnings := d.warnings + [reply.value.warning.value];
      }
      r := Success(discovered);
      DiscoveryReflected(x, m.KnownMethods());
    }

    /** The loop over the discovered methods. */
    static method RecordListed(d: EvidenceDraft, discovered: set<string>, known: set<string>)
      modifies d`supported, d`vendor
      ensures forall n :: n in d.supported <==> n in old(d.supported) || (n in discovered && n in known)
      ensures d.vendor == old(d.vendor) + (discovered - known)
    {
      var rest := discovered;
      while rest != {}
        invariant rest <= discovered
        invariant forall n ::
          n in d.supported <==> n in old(d.supported) || (n in discovered && n !in rest && n in known)
        invariant forall n :: n in d.vendor <==> n in old(d.vendor) || (n in discovered && n !in rest && n !in known)
        decreases |rest|
      {
        var name :| name in rest;
        if name in known {
          d.supported := d.supported + {name};
        } else {
          d.vendor := d.vendor + {name};
        }
        rest := rest - {name};
      }
    }

    method AskNetwork(d: EvidenceDraft, rpc: string, ghost listed: set<string>, ghost posts: seq<Exchange>)
      returns (r: Result<RpcReply, ProbeError>, ghost x: Exchange)
      requires AllAnswered(posts) && Reflects(d, m.KnownMethods(), listed, posts)
      requires d.networkIdentity == None && d.protocolVersion == None
      requires connection.Truthful()
      modifies connection, d`supported, d`missing, d`warnings, d`networkIdentity, d`protocolVersion
      ensures connection.Truthful()
      ensures Answered(old(connection.log), connection.log, CoreRequest(rpc, 1), r, x)
      ensures r.Success? ==> AllAnswered(posts + [x]) && Reflects(d, m.KnownMethods(), listed, posts + [x])
      ensures r.Success? ==>
        && d.networkIdentity == IdentityIn(r.value.result, digest)
        && d.protocolVersion == ProtocolIn(r.value.result)
    {
      hide U64Field, StringField, Reflected, WarningsOf, ReplyOf, LimitsOf;
      r, x := Ask(d, CoreRequest(rpc, 1), m.KnownMethods(), listed, posts);
      if r.Success? && r.value.result.Some? {
        var passphrase := StringField(r.value.result.value, PASSPHRASE_FIELDS);
        d.networkIdentity := if passphrase.Some? then Some(digest(passphrase.value)) else None;
        d.protocolVersion := U32Field(r.value.result.value, PROTOCOL_FIELDS);
      }
    }

    method AskLatest(d: EvidenceDraft, rpc: string, ghost listed: set<string>, ghost posts: seq<Exchange>)
      returns (r: Result<RpcReply, ProbeError>, ghost x: Exchange)
      requires AllAnswered(posts) && Reflects(d, m.KnownMethods(), listed, posts)
      requires d.latestLedger == None
      requires connection.Truthful()
      modifies connection, d`supported, d`missing, d`warnings, d`latestLedger, d`protocolVersion
      ensures connection.Truthful()
      ensures Answered(old(connection.log), connection.log, CoreRequest(rpc, 2), r, x)
      ensures r.Success? ==> AllAnswered(posts + [x]) && Reflects(d, m.KnownMethods(), listed, posts + [x])
      ensures r.Success? ==>
        && d.latestLedger == NumberOf(r.value.result, SEQUENCE_FIELDS)
        && d.protocolVersion == FirstOf(ProtocolIn(r.value.result), old(d.protocolVersion))
    {
      hide U64Field, StringField, Reflected, WarningsOf, ReplyOf, LimitsOf;
      r, x := Ask(d, CoreRequest(rpc, 2), m.KnownMethods(), listed, posts);
      if r.Success? && r.value.result.Some? {
        d.latestLedger := U64Field(r.value.result.value, SEQUENCE_FIELDS);
        d.protocolVersion := FirstOf(U32Field(r.value.result.value, PROTOCOL_FIELDS), d.protocolVersion);
      }
    }

    method AskHealth(d: EvidenceDraft, rpc: string, ghost listed: set<string>, ghost posts: seq<Exchange>)
      returns (r: Result<RpcReply, ProbeError>, ghost x: Exchange)
      requires AllAnswered(posts) && Reflects(d, m.KnownMethods(), listed, posts)
      requires d.oldestLedger == None && d.retentionWindow == None && d.limits == map[]
      requires connection.Truthful()
      modifies connection, d`supported, d`missing, d`warnings, d`oldestLedger, d`latestLedger,
        d`retentionWindow, d`limits
      ensures connection.Truthful()
      ensures Answered(old(connection.log), connection.log, CoreRequest(rpc, 3), r, x)
      ensures r.Success? ==> AllAnswered(posts + [x]) && Reflects(d, m.KnownMethods(), listed, posts + [x])
      ensures r.Success? ==>
        && d.oldestLedger == NumberOf(r.value.result, OLDEST_FIELDS)
        && d.latestLedger == FirstOf(NumberOf(r.value.result, LATEST_FIELDS), old(d.latestLedger))
        && d.retentionWindow == RetentionIn(r.value.result, d.latestLedger, d.oldestLedger)
        && d.limits == LimitsIn(r.value.result)
    {
      hide U64Field, StringField, Reflected, WarningsOf, ReplyOf, LimitsOf;
      r, x := Ask(d, CoreRequest(rpc, 3), m.KnownMethods(), listed, posts);
      if r.Success? && r.value.result.Some? {
        var result := r.value.result.value;
        d.oldestLedger := U64Field(result, OLDEST_FIELDS);
        d.latestLedger := FirstOf(U64Field(result, LATEST_FIELDS), d.latestLedger);
        d.retentionWindow := FirstOf(U64Field(result, RETENTION_FIELDS), RetentionFrom(d.latestLedger, d.oldestLedger));
        var limits := ExtractLimits(result);
        d.limits := d.limits + limits;
      }
    }

    method AskVersion(d: EvidenceDraft, rpc: string, ghost listed: set<string>, ghost posts: seq<Exchange>)
      returns (r: Result<RpcReply, ProbeError>, ghost x: Exchange)
      requires AllAnswered(posts) && Reflects(d, m.KnownMethods(), listed, posts)
      requires d.rpcVersion == None
      requires connection.Truthful()
      modifies connection, d`supported, d`missing, d`warnings, d`rpcVersion, d`limits
      ensures connection.Truthful()
      ensures Answered(old(connection.log), connection.log, CoreRequest(rpc, 4), r, x)
      ensures r.Success? ==> AllAnswered(posts + [x]) && Reflects(d, m.KnownMethods(), listed, posts + [x])
      ensures r.Success? ==>
        && d.rpcVersion == StringOf(r.value.result, VERSION_FIELDS)
        && d.limits == old(d.limits) + LimitsIn(r.value.result)
    {
      hide U64Field, StringField, Reflected, WarningsOf, ReplyOf, LimitsOf;
      r, x := Ask(d, CoreRequest(rpc, 4), m.KnownMethods(), listed, posts);
      if r.Success? && r.value.result.Some? {
        d.rpcVersion := StringField(r.value.result.value, VERSION_FIELDS);
        var limits := ExtractLimits(r.value.result.value);
        d.limits := d.limits + limits;
      }
    }

    /** getNetwork, then getLatestLedger. */
    method ProbeLedger(d: EvidenceDraft, rpc: string, ghost listed: set<string>, ghost first: seq<Exchange>)
      returns (r: Result<(), ProbeError>, ghost posts: seq<Exchange>)
      requires |first| == 1 && CorePrefix(rpc, first) && AllAnswered(first)
      requires Reflects(d, m.KnownMethods(), listed, first)
      requires d.networkIdentity == None && d.latestLedger == None && d.protocolVersion == None
      requires connection.Truthful()
      modifies connection, d`supported, d`missing, d`warnings, d`networkIdentity, d`latestLedger, d`protocolVersion
      ensures connection.Truthful()
      ensures first <= posts && CorePrefix(rpc, posts)
      ensures connection.log == old(connection.log) + posts[|first|..]
      ensures r.Failure? ==> FailsAtLast(posts, r.error)
      ensures r.Success? ==>
        && |posts| == 3 && AllAnswered(posts) && Reflects(d, m.KnownMethods(), listed, posts)
        && d.networkIdentity == IdentityIn(ResultOf(posts[1]), digest)
        && d.protocolVersion == FirstOf(ProtocolIn(ResultOf(posts[2])), ProtocolIn(ResultOf(posts[1])))
        && d.latestLedger == NumberOf(ResultOf(posts[2]), SEQUENCE_FIELDS)
    {
      ghost var x1, x2;
      var reply;
      reply, x1 := AskNetwork(d, rpc, listed, first);
      posts := first + [x1];
      if reply.Failure? { return Failure(reply.error), posts; }
      reply, x2 := AskLatest(d, rpc, listed, posts);
      posts := posts + [x2];
      if reply.Failure? { return Failure(reply.error), posts; }
      r := Success(());
    }

    /** getHealth, then getVersionInfo. */
    method ProbeService(d: EvidenceDraft, rpc: string, ghost listed: set<string>, ghost first: seq<Exchange>)
      returns (r: Result<(), ProbeError>, ghost posts: seq<Exchange>)
      requires |first| == 3 && CorePrefix(rpc, first) && AllAnswered(first)
      requires Reflects(d, m.KnownMethods(), listed, first)
      requires d.oldestLedger == None && d.retentionWindow == None && d.rpcVersion == None && d.limits == map[]
      requires connection.Truthful()
      modifies connection, d`supported, d`missing, d`warnings, d`latestLedger, d`oldestLedger,
        d`retentionWindow, d`rpcVersion, d`limits
      ensures connection.Truthful()
      ensures first <= posts && CorePrefix(rpc, posts)
      ensures connection.log == old(connection.log) + posts[|first|..]
      ensures r.Failure? ==> FailsAtLast(posts, r.error)
      ensures r.Success? ==>
        && |posts| == 5 && AllAnswered(posts) && Reflects(d, m.KnownMethods(), listed, posts)
        && d.latestLedger == FirstOf(NumberOf(ResultOf(posts[3]), LATEST_FIELDS), old(d.latestLedger))
        && d.oldestLedger == NumberOf(ResultOf(posts[3]), OLDEST_FIELDS)
        && d.retentionWindow == RetentionIn(ResultOf(posts[3]), d.latestLedger, d.oldestLedger)
        && d.rpcVersion == StringOf(ResultOf(posts[4]), VERSION_FIELDS)
        && d.limits == LimitsIn(ResultOf(posts[3])) + LimitsIn(ResultOf(posts[4]))
    {
      ghost var x3, x4;
      var reply;
      reply, x3 := AskHealth(d, rpc, listed, first);
      posts := first + [x3];
      if reply.Failure? { return Failure(reply.error), posts; }
      reply, x4 := AskVersion(d, rpc, listed, posts);
      posts := posts + [x4];
      if reply.Failure? { return Failure(reply.error), posts; }
      r := Success(());
    }

    /** The loop over the other known methods when discovery listed something: nothing is asked. */
    method SortOptional(d: EvidenceDraft, optional: seq<string>, listed: set<string>)
      modifies d`supported, d`missing
      ensures forall n :: n in d.supported <==> n in old(d.supported) || (n in listed && n in optional)
      ensures forall n :: n in d.missing <==> n in old(d.missing) || (n !in listed && n in optional)
    {
      for index := 0 to |optional|
        invariant forall n :: n in d.supported <==> n in old(d.supported) || (n in listed && n in optional[..index])
        invariant forall n :: n in d.missing <==> n in old(d.missing) || (n !in listed && n in optional[..index])
      {
        if optional[index] in listed {
          d.supported := d.supported + {optional[index]};
        } else {
          d.missing := d.missing + {optional[index]};
        }
        assert optional[..index + 1] == optional[..index] + [optional[index]];
      }
      assert optional[..|optional|] == optional;
    }

    /** The same loop when discovery listed nothing: every method is asked. */
    method AskOptional(d: EvidenceDraft, plan: seq<Request>, ghost listed: set<string>, ghost core: seq<Exchange>)
      returns (r: Result<(), ProbeError>, ghost asked: seq<Exchange>)
      requires forall q :: q in plan ==> q.Post?
      requires AllAnswered(core) && Reflects(d, m.KnownMethods(), listed, core)
      requires connection.Truthful()
      modifies connection, d`supported, d`missing, d`warnings
      ensures connection.Truthful()
      ensures connection.log == old(connection.log) + asked
      ensures Requests(asked) <= plan
      ensures r.Failure? ==> FailsAtLast(core + asked, r.error)
      ensures r.Success? ==> Requests(asked) == plan
      ensures r.Success? ==> AllAnswered(core + asked) && Reflects(d, m.KnownMethods(), listed, core + asked)
    {
      hide AnswerTo, WarningsOf, Reflects, AllAnswered, ReplyOf;
      asked := [];
      assert core + asked == core;
      ghost var known := m.KnownMethods();
      for index := 0 to |plan|
        invariant Requests(asked) == plan[..index]
        invariant connection.Truthful() && connection.log == old(connection.log) + asked
        invariant AllAnswered(core + asked) && Reflects(d, known, listed, core + asked)
      {
        var reply;
        ghost var x;
        assert plan[index] in plan;
        reply, x := Ask(d, plan[index], known, listed, core + asked);
        assert (core + asked) + [x] == core + (asked + [x]);
        assert Requests(asked + [x]) == Requests(asked) + [plan[index]];
        if reply.Failure? {
          assert (core + (asked + [x]))[..|core + asked|] == core + asked;
          return Failure(reply.error), asked + [x];
        }
        asked := asked + [x];
      }
      r := Success(());
    }

    /** Discovery and the other four core calls. */
    method ProbeCore(d: EvidenceDraft, rpc: string)
      returns (r: Result<set<string>, ProbeError>, ghost posts: seq<Exchange>)
      requires d.supported == d.missing == d.vendor == {} && d.warnings == [] && d.CurrentFields() == NO_FIELDS
      requires connection.Truthful()
      modifies connection, d`supported, d`missing, d`vendor, d`warnings, d`networkIdentity, d`latestLedger,
        d`protocolVersion, d`oldestLedger, d`retentionWindow, d`rpcVersion, d`limits
      ensures connection.Truthful()
      ensures connection.log == old(connection.log) + posts
      ensures CorePrefix(rpc, posts)
      ensures r.Failure? ==> FailsAtLast(posts, r.error)
      ensures r.Success? ==>
        && |posts| == |CORE| && AllAnswered(posts) && r.value == Listed(posts[0])
        && Reflects(d, m.KnownMethods(), r.value, posts)
        && d.CurrentFields()
           == FieldsFrom(digest, ResultOf(posts[1]), ResultOf(posts[2]), ResultOf(posts[3]), ResultOf(posts[4]))
    {
      hide StringOf, NumberOf, ProtocolIn, IdentityIn, RetentionIn, LimitsIn, WarningsOf, AnswerTo, Listed, Reflected,
        CoreRequest, ReplyOf;
      ghost var log0 := connection.log;
      ghost var first;
      r, first := Discover(d, rpc);
      posts := [first];
      if r.Failure? { return; }
      var step;
      ghost var core;
      step, core := ProbeLedger(d, rpc, r.value, posts);
      LogGrows(log0, posts, core);
      posts := core;
      if step.Failure? { return Failure(step.error), posts; }
      step, core := ProbeService(d, rpc, r.value, posts);
      LogGrows(log0, posts, core);
      posts := core;
      if step.Failure? { return Failure(step.error), posts; }
    }

    /** Every JSON-RPC call of a probe. */
    method ProbeMethods(d: EvidenceDraft, rpc: string)
      returns (r: Result<(), ProbeError>, ghost posts: seq<Exchange>)
      requires d.supported == d.missing == d.vendor == {} && d.warnings == [] && d.CurrentFields() == NO_FIELDS
      requires connection.Truthful()
      modifies connection, d`supported, d`missing, d`vendor, d`warnings, d`networkIdentity, d`latestLedger,
        d`protocolVersion, d`oldestLedger, d`retentionWindow, d`rpcVersion, d`limits
      ensures connection.Truthful()
      ensures connection.log == old(connection.log) + posts
      ensures r.Failure? ==> FailsAtLast(posts, r.error) && FollowsPlan(m, options, rpc, posts)
      ensures r.Success? ==>
        && AllAnswered(posts) && |posts| >= |CORE|
        && Requests(posts) == Plan(m, options, rpc, Listed(posts[0]))
        && Classifies(m, options, Listed(posts[0]), posts, d.supported, d.missing)
        && d.vendor == Listed(posts[0]) - m.KnownMethods()
        && d.warnings == WarningsOf(posts)
        && d.CurrentFields()
           == FieldsFrom(digest, ResultOf(posts[1]), ResultOf(posts[2]), ResultOf(posts[3]), ResultOf(posts[4]))
    {
      hide FieldsFrom, WarningsOf, AnswerTo, Listed, Reflected, Classifies, OptionalMethods, OptionalPlan,
        CorePlan, CorePrefix, ReplyOf, ResultOf, FollowsPlan;
      var discovery;
      discovery, posts := ProbeCore(d, rpc);
      if discovery.Failure? {
        CoreFollowsPlan(m, options, rpc, posts);
        return Failure(discovery.error), posts;
      }
      var listed := discovery.value;
      CorePlanned(rpc, posts);
      OptionalMembers(m);
      OptionalPosts(rpc, OptionalMethods(m));
      if !options.probeOptionalMethods {
        ReflectedClassifies(m, options, listed, posts, d.supported, d.missing);
      } else if listed != {} {
        ghost var supported0, missing0 := d.supported, d.missing;
        SortOptional(d, OptionalMethods(m), listed);
        CoreAnswered(rpc, posts);
        ListedClassifies(m, options, listed, posts, CORE_SET, supported0, missing0, d.supported, d.missing);
      } else {
        var step;
        ghost var asked;
        step, asked := AskOptional(d, OptionalPlan(rpc, OptionalMethods(m)), listed, posts);
        ghost var core := posts;
        posts := posts + asked;
        if step.Failure? {
          assert ListedSoFar(posts) == Listed(core[0]) by { assert posts[0] == core[0] && core[0] in core; }
          OptionalFollowsPlan(m, options, rpc, core, asked);
          return Failure(step.error), posts;
        }
        RequestsConcatenate(core, asked);
        ReflectedClassifies(m, options, listed, posts, d.supported, d.missing);
      }
      r := Success(());
    }

    /** The Horizon root, whose failure costs the probe a warning only. */
    method ProbeHorizon(d: EvidenceDraft, horizon: Option<string>)
      returns (ghost gets: seq<Exchange>, ghost warning: seq<string>)
      requires d.horizon == None
      requires connection.Truthful()
      modifies connection, d`horizon, d`warnings
      ensures connection.Truthful()
      ensures connection.log == old(connection.log) + gets
      ensures Requests(gets) == HorizonRequests(options, horizon)
      ensures forall x :: x in gets ==> x.request.Get?
      ensures HorizonAdds(gets, digest, d.horizon, warning)
      ensures d.warnings == old(d.warnings) + warning
    {
      gets, warning := [], [];
      if options.includeHorizon && horizon.Some? {
        var request := Get(horizon.value);
        var response := connection.Send(request);
        gets := [Exchange(request, response)];
        match HorizonFrom(Exchange(request, response), digest) {
          case Success(h) => d.horizon := Some(h);
          case Failure(e) =>
            warning := [HorizonWarning(e)];
            d.warnings := d.warnings + [HorizonWarning(e)];
        }
      }
    }

    method ProbeAt(rpc: string, horizon: Option<string>, observedAt: int)
      returns (r: Result<Evidence, ProbeError>, ghost posts: seq<Exchange>, ghost gets: seq<Exchange>)
      requires connection.Truthful()
      modifies connection
      ensures connection.Truthful()
      ensures connection.log == old(connection.log) + posts + gets
      ensures AnswersFrom(connection.respond, old(connection.log), posts + gets)
      ensures !Accepted(rpc, horizon) ==> r.Failure? && r.error.detail == NotAnHttpUrl && posts == gets == []
      ensures Accepted(rpc, horizon) <==>
        && Endpoint.ValidateEndpoint(rpc)
        && (horizon == None || (horizon.Some? && Endpoint.ValidateEndpoint(horizon.value)))
      ensures Accepted(rpc, horizon) && r.Failure? ==>
        FailsAtLast(posts, r.error) && FollowsPlan(m, options, rpc, posts) && gets == []
      ensures r.Success? ==>
        && Probed(m, options, rpc, horizon, digest, posts, gets, r.value)
        && r.value.schemaVersion == SCHEMA_VERSION && r.value.endpointId == endpointDigest(rpc)
        && r.value.displayEndpoint == Endpoint.DisplayEndpoint(rpc) && r.value.observedAt == observedAt
    {
      hide FieldsFrom, WarningsOf, ReplyOf, Listed, Classifies, Plan, HorizonFrom, HorizonWarning, Ascending,
        StableSort, Dedup, Endpoint.ValidateEndpoint, Endpoint.DisplayEndpoint, Connection.Truthful;
      posts, gets := [], [];
      if !Endpoint.ValidateEndpoint(rpc) {
        return Failure(InvalidEndpoint(rpc)), posts, gets;
      }
      if horizon.Some? && !Endpoint.ValidateEndpoint(horizon.value) {
        return Failure(InvalidEndpoint(horizon.value)), posts, gets;
      }
      var d := new EvidenceDraft(Endpoint.DisplayEndpoint(rpc), endpointDigest(rpc), observedAt);
      var step;
      step, posts := ProbeMethods(d, rpc);
      assert old(connection.log) + posts + [] == old(connection.log) + (posts + []);
      if step.Failure? {
        LogAnswers(connection, old(connection.log), posts + gets);
        return Failure(step.error), posts, gets;
      }
      ghost var warning;
      gets, warning := ProbeHorizon(d, horizon);
      assert old(connection.log) + posts + gets == old(connection.log) + (posts + gets);
      LogAnswers(connection, old(connection.log), posts + gets);
      SortDedupAscending(d.warnings);
      d.warnings := Dedup((x, y) => x == y, StableSort(AtMost, d.warnings));
      r := Success(d.Freeze());
    }
  }

  function InvalidEndpoint(endpoint: string): ProbeError {
    ProbeError(TransportFailed, Endpoint.DisplayEndpoint(endpoint), "endpoint validation", NotAnHttpUrl)
  }

  predicate Accepted(rpc: string, horizon: Option<string>) {
    Endpoint.ValidateEndpoint(rpc) && (horizon.Some? ==> Endpoint.ValidateEndpoint(horizon.value))
  }
}
