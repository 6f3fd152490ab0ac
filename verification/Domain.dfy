/** The compatibility domain: the capability matrix, the evidence gathered from an endpoint,
    and the evaluator that folds the evidence over the matrix into a verdict with findings. */
module Domain {
  import opened Strings
  import opened Sorting
  import opened Wrappers

  const SCHEMA_VERSION: nat := 1

  datatype Level = Compatible | Degraded | Unknown | Incompatible {
    function Rank(): nat {
      match this
      case Compatible => 0
      case Degraded => 1
      case Unknown => 2
      case Incompatible => 3
    }

    function Name(): string {
      match this
      case Compatible => "compatible"
      case Degraded => "degraded"
      case Unknown => "unknown"
      case Incompatible => "incompatible"
    }

    function Merge(other: Level): Level {
      if other.Rank() > Rank() then other else this
    }
  }

  datatype Severity = Info | Warning | Error {
    function Rank(): nat {
      match this
      case Info => 0
      case Warning => 1
      case Error => 2
    }
  }

  datatype ProtocolRange = ProtocolRange(minimum: nat, maximum: nat) {
    predicate Includes(version: nat) {
      minimum <= version <= maximum
    }
  }

  datatype ProtocolCapability = ProtocolCapability(version: nat, status: Level)

  datatype MethodCapability = MethodCapability(name: string, requiredForProbe: bool)

  datatype Feature = Feature(
    name: string,
    protocol: ProtocolRange,
    required: set<string>,
    optional: set<string>,
    hard: bool)

  datatype Matrix = Matrix(
    protocols: seq<ProtocolCapability>,
    methods: seq<MethodCapability>,
    xdr: ProtocolRange,
    features: seq<Feature>)
  {
    function KnownMethods(): set<string> {
      set c | c in methods :: c.name
    }

    function RequiredProbeMethods(): set<string> {
      set c | c in methods && c.requiredForProbe :: c.name
    }

    /** The status of the first entry for a version; a version without an entry is unknown. */
    function StatusOf(version: nat): Level {
      FirstStatus(protocols, version)
    }
  }

  function FirstStatus(protocols: seq<ProtocolCapability>, version: nat): Level {
    if protocols == [] then Unknown
    else if protocols[0].version == version then protocols[0].status
    else FirstStatus(protocols[1..], version)
  }

  datatype Horizon = Horizon(
    displayEndpoint: string,
    networkIdentity: Option<string>,
    latestLedger: Option<nat>,
    protocolVersion: Option<nat>,
    coreVersion: Option<string>)

  datatype Evidence = Evidence(
    schemaVersion: nat,
    endpointId: string,
    displayEndpoint: string,
    observedAt: int,
    networkIdentity: Option<string>,
    latestLedger: Option<nat>,
    protocolVersion: Option<nat>,
    oldestLedger: Option<nat>,
    retentionWindow: Option<nat>,
    rpcVersion: Option<string>,
    supported: set<string>,
    missing: set<string>,
    vendor: set<string>,
    limits: map<string, nat>,
    horizon: Option<Horizon>,
    warnings: seq<string>)

  /** What a finding is about. The reported code, component, summary and evidence are texts
      determined by the topic. `Inspection` stands for findings about a project file. */
  datatype Topic =
    | ProtocolUnknown
    | ProtocolTooOld(version: nat, minimum: nat)
    | ProtocolFuture(version: nat, maximum: nat)
    | ProtocolNotValidated(version: nat)
    | MethodMissing(name: string)
    | NetworkIdentityMismatch
    | ProtocolVersionMismatch(rpc: nat, horizonVersion: nat)
    | NoRetention
    | ProbeWarning(text: string)
    | FeatureGate(decision: Decision)
    | CargoManifestMissing
    | WasmMissing
    | EvidenceMissing
    | Inspection(code: string, component: string, summary: string, facts: map<string, string>)
  {
    function Code(): string {
      match this
      case ProtocolUnknown => "protocol.unknown"
      case ProtocolTooOld(_, _) => "protocol.too_old"
      case ProtocolFuture(_, _) => "protocol.future_unverified"
      case ProtocolNotValidated(_) => "protocol.not_validated"
      case MethodMissing(_) => "rpc.required_method_missing"
      case NetworkIdentityMismatch => "endpoint.network_identity_mismatch"
      case ProtocolVersionMismatch(_, _) => "endpoint.protocol_mismatch"
      case NoRetention => "rpc.no_retention"
      case ProbeWarning(_) => "probe.warning"
      case FeatureGate(d) => "feature." + d.feature
      case CargoManifestMissing => "project.cargo_manifest_missing"
      case WasmMissing => "artifact.wasm_missing"
      case EvidenceMissing => "endpoint.evidence_missing"
      case Inspection(code, _, _, _) => code
    }

    function Component(): string {
      match this
      case ProtocolUnknown => "protocol"
      case ProtocolTooOld(_, _) => "protocol"
      case ProtocolFuture(_, _) => "protocol"
      case ProtocolNotValidated(_) => "protocol"
      case MethodMissing(_) => "rpc"
      case NetworkIdentityMismatch => "endpoint"
      case ProtocolVersionMismatch(_, _) => "endpoint"
      case NoRetention => "retention"
      case ProbeWarning(_) => "probe"
      case FeatureGate(_) => "feature"
      case CargoManifestMissing => "project"
      case WasmMissing => "artifact"
      case EvidenceMissing => "endpoint"
      case Inspection(_, component, _, _) => component
    }

    function Summary(): string {
      match this
      case ProtocolUnknown => "The endpoint did not provide a protocol version."
      case ProtocolTooOld(v, least) =>
        "Protocol " + Decimal(v) + " predates supported Soroban protocol " + Decimal(least) + "."
      case ProtocolFuture(v, _) => "Protocol " + Decimal(v) + " is newer than the evidence-backed matrix."
      case ProtocolNotValidated(v) => "Protocol " + Decimal(v) + " has no fully compatible matrix entry."
      case MethodMissing(name) => "Required RPC method " + name + " is missing."
      case NetworkIdentityMismatch => "Horizon and Soroban RPC identify different networks."
      case ProtocolVersionMismatch(_, _) => "Horizon and Soroban RPC report different protocol versions."
      case NoRetention => "The RPC endpoint reports no retained historical ledger window."
      case ProbeWarning(text) => text
      case FeatureGate(d) =>
        "Feature " + d.feature + " is " + d.level.Name() + " under the observed capabilities."
      case CargoManifestMissing => "No Cargo.toml was found in the audited project."
      case WasmMissing => "No compiled Soroban WASM artifact was available for validation."
      case EvidenceMissing => "No fresh endpoint capability evidence was included in the audit."
      case Inspection(_, _, summary, _) => summary
    }

    function Facts(): map<string, string> {
      match this
      case ProtocolTooOld(v, least) => map["observed" := Decimal(v), "minimum" := Decimal(least)]
      case ProtocolFuture(v, most) => map["observed" := Decimal(v), "maximum_validated" := Decimal(most)]
      case MethodMissing(name) => map["method" := name]
      case ProtocolVersionMismatch(rpc, horizon) => map["rpc" := Decimal(rpc), "horizon" := Decimal(horizon)]
      case FeatureGate(d) => map["missing_required_methods" := Join(Ascending(d.missingRequired), ",")]
      case Inspection(_, _, _, facts) => facts
      case _ => map[]
    }
  }

  datatype Finding = Finding(severity: Severity, topic: Topic)

  datatype Decision = Decision(
    feature: string,
    level: Level,
    missingRequired: set<string>,
    missingOptional: set<string>)

  datatype Status = Status(
    level: Level,
    protocolVersion: Option<nat>,
    endpoint: Option<Evidence>,
    features: seq<Decision>,
    findings: seq<Finding>)

  // ---------------------------------------------------------------- the feature gate

  /** What a feature's protocol range alone says. */
  function RangeLevel(f: Feature, protocol: Option<nat>): Level {
    match protocol
    case None => Unknown
    case Some(v) => if f.protocol.Includes(v) then Compatible else if f.hard then Incompatible else Degraded
  }

  /** The decision on one feature. A missing required method decides alone, whatever the
      protocol says; a missing optional one degrades. */
  function Gate(f: Feature, protocol: Option<nat>, endpoint: Option<Evidence>): Decision {
    if endpoint.None? then Decision(f.name, RangeLevel(f, protocol), {}, {}) else
      var required := f.required - endpoint.value.supported;
      var optional := f.optional - endpoint.value.supported;
      var level :=
        if required != {} then (if f.hard then Incompatible else Degraded)
        else if optional != {} then RangeLevel(f, protocol).Merge(Degraded)
        else RangeLevel(f, protocol);
      Decision(f.name, level, required, optional)
  }

  method GateFeature(f: Feature, protocol: Option<nat>, endpoint: Option<Evidence>) returns (d: Decision)
    ensures d == Gate(f, protocol, endpoint)
  {
    var level := Compatible;
    if protocol.None? {
      level := Unknown;
    }
    if protocol.Some? {
      if !f.protocol.Includes(protocol.value) {
        level := if f.hard then Incompatible else Degraded;
      }
    }
    var missingRequired, missingOptional: set<string> := {}, {};
    if endpoint.Some? {
      var supported := endpoint.value.supported;
      missingRequired := Absent(f.required, supported);
      missingOptional := Absent(f.optional, supported);
      if missingRequired != {} {
        level := if f.hard then Incompatible else Degraded;
      } else if missingOptional != {} {
        level := level.Merge(Degraded);
      }
    }
    d := Decision(f.name, level, missingRequired, missingOptional);
  }

  /** The loop over a feature's methods that collects those the endpoint does not support. */
  method Absent(methods: set<string>, supported: set<string>) returns (missing: set<string>)
    ensures missing == methods - supported
  {
    missing := {};
    var rest := methods;
    while rest != {}
      invariant rest <= methods
      invariant missing == (methods - rest) - supported
      decreases |rest|
    {
      var m :| m in rest;
      if m !in supported {
        missing := missing + {m};
      }
      rest := rest - {m};
    }
  }

  // ---------------------------------------------------------------- findings and levels

  /** What the protocol version contributes to the verdict. */
  function ProtocolLevel(m: Matrix, protocol: Option<nat>): Level {
    match protocol
    case None => Unknown
    case Some(v) => if m.xdr.Includes(v) then m.StatusOf(v) else Incompatible
  }

  function ProtocolFindings(m: Matrix, protocol: Option<nat>): seq<Finding> {
    match protocol
    case None => [Finding(Warning, ProtocolUnknown)]
    case Some(v) =>
      if v < m.xdr.minimum then [Finding(Error, ProtocolTooOld(v, m.xdr.minimum))]
      else if v > m.xdr.maximum then [Finding(Error, ProtocolFuture(v, m.xdr.maximum))]
      else if m.StatusOf(v) != Compatible then [Finding(Warning, ProtocolNotValidated(v))]
      else []
  }

  /** One error for every name the endpoint does not support, in the order of the names. */
  function MissingFindings(names: seq<string>, supported: set<string>): seq<Finding> {
    if names == [] then []
    else MissingFindings(names[..|names| - 1], supported)
         + (if names[|names| - 1] in supported then [] else [Finding(Error, MethodMissing(names[|names| - 1]))])
  }

  lemma {:induction false} NoMissingFindings(names: seq<string>, supported: set<string>)
    ensures MissingFindings(names, supported) == [] <==> forall n :: n in names ==> n in supported
  {
    if names != [] {
      NoMissingFindings(names[..|names| - 1], supported);
      assert names == names[..|names| - 1] + [names[|names| - 1]];
    }
  }

  lemma RequiredSupported(m: Matrix, supported: set<string>)
    ensures MissingFindings(Ascending(m.RequiredProbeMethods()), supported) == []
      <==> m.RequiredProbeMethods() <= supported
  {
    NoMissingFindings(Ascending(m.RequiredProbeMethods()), supported);
  }

  predicate IdentityMismatch(e: Evidence) {
    && e.horizon.Some? && e.networkIdentity.Some? && e.horizon.value.networkIdentity.Some?
    && e.networkIdentity != e.horizon.value.networkIdentity
  }

  predicate ProtocolMismatch(e: Evidence) {
    && e.horizon.Some? && e.protocolVersion.Some? && e.horizon.value.protocolVersion.Some?
    && e.protocolVersion != e.horizon.value.protocolVersion
  }

  function HorizonFindings(e: Evidence): seq<Finding> {
    (if IdentityMismatch(e) then [Finding(Error, NetworkIdentityMismatch)] else [])
    + (if ProtocolMismatch(e) then
         [Finding(Warning, ProtocolVersionMismatch(e.protocolVersion.value, e.horizon.value.protocolVersion.value))]
       else [])
  }

  function RetentionFindings(e: Evidence): seq<Finding> {
    if e.retentionWindow == Some(0) then [Finding(Warning, NoRetention)] else []
  }

  function ProbeWarnings(warnings: seq<string>): seq<Finding> {
    seq(|warnings|, i requires 0 <= i < |warnings| => Finding(Warning, ProbeWarning(warnings[i])))
  }

  function EndpointFindings(m: Matrix, e: Evidence): seq<Finding> {
    MissingFindings(Ascending(m.RequiredProbeMethods()), e.supported)
    + (HorizonFindings(e) + (RetentionFindings(e) + ProbeWarnings(e.warnings)))
  }

  /** What the endpoint evidence contributes to the verdict. */
  function EndpointLevel(m: Matrix, e: Evidence): Level {
    if !(m.RequiredProbeMethods() <= e.supported) || IdentityMismatch(e) then Incompatible
    else if ProtocolMismatch(e) || e.retentionWindow == Some(0) || e.warnings != [] then Degraded
    else Compatible
  }

  function FeatureFinding(d: Decision): Finding {
    Finding(if d.level == Incompatible then Error else Warning, FeatureGate(d))
  }

  function Decisions(fs: seq<Feature>, protocol: Option<nat>, endpoint: Option<Evidence>): (r: seq<Decision>)
    ensures |r| == |fs|
  {
    seq(|fs|, i requires 0 <= i < |fs| => Gate(fs[i], protocol, endpoint))
  }

  /** One finding for every feature that is not compatible, in the order of the features. */
  function FeatureFindings(ds: seq<Decision>): seq<Finding> {
    if ds == [] then []
    else FeatureFindings(ds[..|ds| - 1])
         + (if ds[|ds| - 1].level == Compatible then [] else [FeatureFinding(ds[|ds| - 1])])
  }

  /** The worst level among the decisions. */
  function Worst(ds: seq<Decision>): Level {
    if ds == [] then Compatible else Worst(ds[..|ds| - 1]).Merge(ds[|ds| - 1].level)
  }

  lemma DecisionsGrow(ds: seq<Decision>, d: Decision)
    ensures Worst(ds + [d]) == Worst(ds).Merge(d.level)
    ensures FeatureFindings(ds + [d])
         == FeatureFindings(ds) + (if d.level == Compatible then [] else [FeatureFinding(d)])
  {
    assert (ds + [d])[..|ds|] == ds;
  }

  lemma Concatenate<T>(a: seq<T>, b: seq<T>, c: seq<T>)
    ensures (a + b) + c == a + (b + c)
  {
  }

  /** The verdict: the worst of what protocol, endpoint and features contribute. */
  function Verdict(m: Matrix, protocol: Option<nat>, endpoint: Option<Evidence>): Level {
    ProtocolLevel(m, protocol)
    .Merge(if endpoint.Some? then EndpointLevel(m, endpoint.value) else Compatible)
    .Merge(Worst(Decisions(m.features, protocol, endpoint)))
  }

  /** All findings in the order in which the evaluator meets them. */
  function RawFindings(m: Matrix, protocol: Option<nat>, endpoint: Option<Evidence>): seq<Finding> {
    ProtocolFindings(m, protocol)
    + (if endpoint.Some? then EndpointFindings(m, endpoint.value) else [])
    + FeatureFindings(Decisions(m.features, protocol, endpoint))
  }

  /** The evaluator's sort order: severity descending, then code. */
  predicate ReportOrder(a: Finding, b: Finding) {
    a.severity.Rank() > b.severity.Rank() || (a.severity == b.severity && AtMost(a.topic.Code(), b.topic.Code()))
  }

  lemma ReportOrderTotal()
    ensures TotalPreorder(ReportOrder)
  {
    AtMostTotalPreorder();
  }

  // ---------------------------------------------------------------- the evaluator

  method Evaluate(m: Matrix, protocol: Option<nat>, endpoint: Option<Evidence>) returns (status: Status)
    ensures status.level == Verdict(m, protocol, endpoint)
    ensures status.findings == StableSort(ReportOrder, RawFindings(m, protocol, endpoint))
    ensures status.features == Decisions(m.features, protocol, endpoint)
    ensures status.protocolVersion == protocol && status.endpoint == endpoint
  {
    var level, findings := EvaluateProtocol(m, protocol);
    if endpoint.Some? {
      level, findings := EvaluateEndpoint(m, endpoint.value, level, findings);
    }
    var features;
    level, findings, features := EvaluateFeatures(m, protocol, endpoint, level, findings);
    assert findings == RawFindings(m, protocol, endpoint);
    status := Status(level, protocol, endpoint, features, StableSort(ReportOrder, findings));
  }

  method EvaluateProtocol(m: Matrix, protocol: Option<nat>) returns (level: Level, findings: seq<Finding>)
    ensures level == ProtocolLevel(m, protocol)
    ensures findings == ProtocolFindings(m, protocol)
  {
    level, findings := Compatible, [];
    match protocol {
      case None =>
        level := level.Merge(Unknown);
        findings := findings + [Finding(Warning, ProtocolUnknown)];
      case Some(v) =>
        if v < m.xdr.minimum {
          level := Incompatible;
          findings := findings + [Finding(Error, ProtocolTooOld(v, m.xdr.minimum))];
        } else if v > m.xdr.maximum {
          level := Incompatible;
          findings := findings + [Finding(Error, ProtocolFuture(v, m.xdr.maximum))];
        } else {
          var entry := m.StatusOf(v);
          level := level.Merge(entry);
          if entry != Compatible {
            findings := findings + [Finding(Warning, ProtocolNotValidated(v))];
          }
        }
    }
  }

  method EvaluateEndpoint(m: Matrix, e: Evidence, level0: Level, findings0: seq<Finding>)
    returns (level: Level, findings: seq<Finding>)
    ensures level == level0.Merge(EndpointLevel(m, e))
    ensures findings == findings0 + EndpointFindings(m, e)
  {
    hide IdentityMismatch, ProtocolMismatch, MissingFindings, Matrix.RequiredProbeMethods, HorizonFindings,
      RetentionFindings;
    level, findings := EvaluateRequired(Ascending(m.RequiredProbeMethods()), e.supported, level0, findings0);
    RequiredSupported(m, e.supported);
    ghost var found := findings;
    level, findings := EvaluateHorizon(e, level, findings);
    level, findings := EvaluateRetention(e, level, findings);
    Concatenate(found, HorizonFindings(e), RetentionFindings(e) + ProbeWarnings(e.warnings));
    Concatenate(findings0, MissingFindings(Ascending(m.RequiredProbeMethods()), e.supported),
                HorizonFindings(e) + (RetentionFindings(e) + ProbeWarnings(e.warnings)));
  }

  /** The comparison of the endpoint with its Horizon server. */
  method EvaluateHorizon(e: Evidence, level0: Level, findings0: seq<Finding>)
    returns (level: Level, findings: seq<Finding>)
    ensures level ==
      if IdentityMismatch(e) then Incompatible
      else if ProtocolMismatch(e) then level0.Merge(Degraded)
      else level0
    ensures findings == findings0 + HorizonFindings(e)
  {
    level, findings := level0, findings0;
    if IdentityMismatch(e) {
      level := Incompatible;
      findings := findings + [Finding(Error, NetworkIdentityMismatch)];
    }
    if ProtocolMismatch(e) {
      level := level.Merge(Degraded);
      findings := findings + [Finding(Warning, ProtocolVersionMismatch(
        e.protocolVersion.value, e.horizon.value.protocolVersion.value))];
    }
    assert findings == findings0 + HorizonFindings(e);
  }

  method EvaluateRequired(required: seq<string>, supported: set<string>, level0: Level, findings0: seq<Finding>)
    returns (level: Level, findings: seq<Finding>)
    ensures level == if MissingFindings(required, supported) == [] then level0 else Incompatible
    ensures findings == findings0 + MissingFindings(required, supported)
  {
    level, findings := level0, findings0;
    for i := 0 to |required|
      invariant level == if MissingFindings(required[..i], supported) == [] then level0 else Incompatible
      invariant findings == findings0 + MissingFindings(required[..i], supported)
    {
      assert required[..i + 1][..i] == required[..i];
      if required[i] !in supported {
        level := Incompatible;
        findings := findings + [Finding(Error, MethodMissing(required[i]))];
      }
    }
    assert required[..|required|] == required;
  }

  method EvaluateRetention(e: Evidence, level0: Level, findings0: seq<Finding>)
    returns (level: Level, findings: seq<Finding>)
    ensures level == if e.retentionWindow == Some(0) || e.warnings != [] then level0.Merge(Degraded) else level0
    ensures findings == findings0 + (RetentionFindings(e) + ProbeWarnings(e.warnings))
  {
    level, findings := level0, findings0;
    if e.retentionWindow == Some(0) {
      level := level.Merge(Degraded);
      findings := findings + [Finding(Warning, NoRetention)];
    }
    ghost var before, found := level, findings;
    for i := 0 to |e.warnings|
      invariant findings == found + ProbeWarnings(e.warnings)[..i]
      invariant level == if i == 0 then before else before.Merge(Degraded)
    {
      findings := findings + [Finding(Warning, ProbeWarning(e.warnings[i]))];
      level := level.Merge(Degraded);
    }
    Concatenate(findings0, RetentionFindings(e), ProbeWarnings(e.warnings));
  }

  method EvaluateFeatures(m: Matrix, protocol: Option<nat>, endpoint: Option<Evidence>,
                          level0: Level, findings0: seq<Finding>)
    returns (level: Level, findings: seq<Finding>, features: seq<Decision>)
    ensures features == Decisions(m.features, protocol, endpoint)
    ensures level == level0.Merge(Worst(features))
    ensures findings == findings0 + FeatureFindings(features)
  {
    hide Gate, FeatureFinding;
    level, findings, features := level0, findings0, [];
    for i := 0 to |m.features|
      invariant |features| == i
      invariant forall j :: 0 <= j < i ==> features[j] == Gate(m.features[j], protocol, endpoint)
      invariant level == level0.Merge(Worst(features))
      invariant findings == findings0 + FeatureFindings(features)
    {
      var decision := GateFeature(m.features[i], protocol, endpoint);
      level := level.Merge(decision.level);
      if decision.level != Compatible {
        findings := findings + [FeatureFinding(decision)];
      }
      DecisionsGrow(features, decision);
      features := features + [decision];
    }
  }
}
