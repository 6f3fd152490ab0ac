/** When the evaluator reports what, and which level each part gives, in terms of the fields of matrix
    and evidence alone. */
module FindingRules {
  import opened Domain
  import opened Sorting
  import opened Strings
  import opened Verdicts
  import opened Wrappers

  // ---------------------------------------------------------------- levels

  /** The order of the levels, and merging as taking the worse one. */
  lemma LevelOrder(a: Level, b: Level)
    ensures Compatible.Rank() < Degraded.Rank() < Unknown.Rank() < Incompatible.Rank()
    ensures a.Merge(b) in {a, b} && a.Rank() <= a.Merge(b).Rank() && b.Rank() <= a.Merge(b).Rank()
    ensures a.Rank() == b.Rank() ==> a == b
  {
  }

  lemma {:induction false} WorstIsReached(ds: seq<Decision>)
    ensures forall i | 0 <= i < |ds| :: ds[i].level.Rank() <= Worst(ds).Rank()
    ensures Worst(ds) == Compatible || exists i :: 0 <= i < |ds| && ds[i].level == Worst(ds)
  {
    if ds != [] {
      WorstIsReached(ds[..|ds| - 1]);
      assert ds[|ds| - 1].level in {ds[|ds| - 1].level};
    }
  }

  /** A verdict is the worst of its parts: no part is worse, and some part is as bad. */
  lemma VerdictIsWorst(m: Matrix, protocol: Option<nat>, e: Evidence)
    ensures var v := Verdict(m, protocol, Some(e));
      && ProtocolLevel(m, protocol).Rank() <= v.Rank() && EndpointLevel(m, e).Rank() <= v.Rank()
      && (forall f | f in m.features :: Gate(f, protocol, Some(e)).level.Rank() <= v.Rank())
      && (v == ProtocolLevel(m, protocol) || v == EndpointLevel(m, e)
          || exists f :: f in m.features && v == Gate(f, protocol, Some(e)).level)
  {
    hide ProtocolLevel, EndpointLevel, Gate, Worst;
    var ds := Decisions(m.features, protocol, Some(e));
    WorstIsReached(ds);
    forall f | f in m.features ensures Gate(f, protocol, Some(e)).level.Rank() <= Worst(ds).Rank() {
      var i :| 0 <= i < |m.features| && m.features[i] == f;
      assert ds[i] == Gate(f, protocol, Some(e));
    }
    if Worst(ds) != Compatible {
      var i :| 0 <= i < |ds| && ds[i].level == Worst(ds);
      assert m.features[i] in m.features && ds[i] == Gate(m.features[i], protocol, Some(e));
    }
  }

  // ---------------------------------------------------------------- the protocol

  ghost predicate FirstEntry(entries: seq<ProtocolCapability>, version: nat, k: int) {
    && 0 <= k < |entries| && entries[k].version == version
    && forall j | 0 <= j < k :: entries[j].version != version
  }

  /** The first entry for a version gives its status; without one it is unknown. */
  lemma StatusRules(m: Matrix, version: nat)
    ensures forall k | FirstEntry(m.protocols, version, k) :: m.StatusOf(version) == m.protocols[k].status
    ensures (forall k :: !FirstEntry(m.protocols, version, k)) ==> m.StatusOf(version) == Unknown
  {
    forall k | FirstEntry(m.protocols, version, k) ensures m.StatusOf(version) == m.protocols[k].status {
      FirstStatusIs(m.protocols, version, k);
    }
    NoStatus(m.protocols, version);
  }

  lemma {:induction false} FirstStatusIs(entries: seq<ProtocolCapability>, version: nat, k: nat)
    requires FirstEntry(entries, version, k)
    ensures FirstStatus(entries, version) == entries[k].status
  {
    if k > 0 {
      assert entries[0].version != version;
      FirstStatusIs(entries[1..], version, k - 1);
    }
  }

  lemma {:induction false} NoStatus(entries: seq<ProtocolCapability>, version: nat)
    ensures FirstStatus(entries, version) == Unknown || exists k :: FirstEntry(entries, version, k)
  {
    if entries != [] {
      if entries[0].version == version {
        assert FirstEntry(entries, version, 0);
      } else {
        NoStatus(entries[1..], version);
        if k :| FirstEntry(entries[1..], version, k) { assert FirstEntry(entries, version, k + 1); }
      }
    }
  }

  /** Which finding a protocol version gives, and which level. */
  lemma ProtocolRules(m: Matrix, protocol: Option<nat>, v: nat)
    ensures var fs := ProtocolFindings(m, protocol);
      && |fs| <= 1
      && (Finding(Warning, ProtocolUnknown) in fs <==> protocol == None)
      && (Finding(Error, ProtocolTooOld(v, m.xdr.minimum)) in fs <==> protocol == Some(v) && v < m.xdr.minimum)
      && (Finding(Error, ProtocolFuture(v, m.xdr.maximum)) in fs <==>
            protocol == Some(v) && m.xdr.minimum <= v && m.xdr.maximum < v)
      && (Finding(Warning, ProtocolNotValidated(v)) in fs <==>
            protocol == Some(v) && m.xdr.minimum <= v <= m.xdr.maximum && m.StatusOf(v) != Compatible)
    ensures ProtocolLevel(m, None) == Unknown
    ensures ProtocolLevel(m, Some(v)) == if m.xdr.minimum <= v <= m.xdr.maximum then m.StatusOf(v) else Incompatible
  {
    hide Matrix.StatusOf;
  }

  // ---------------------------------------------------------------- the endpoint

  /** Both sides name a network, and not the same one. */
  ghost predicate NetworksDiffer(e: Evidence) {
    e.horizon.Some? && exists a, b ::
      e.networkIdentity == Some(a) && e.horizon.value.networkIdentity == Some(b) && a != b
  }

  ghost predicate ProtocolsDiffer(e: Evidence, rpc: nat, horizon: nat) {
    && e.horizon.Some? && rpc != horizon
    && e.protocolVersion == Some(rpc) && e.horizon.value.protocolVersion == Some(horizon)
  }

  ghost predicate Denied(m: Matrix, e: Evidence, name: string) {
    name !in e.supported && exists c :: c in m.methods && c.requiredForProbe && c.name == name
  }

  lemma RequiredIff(m: Matrix, name: string)
    ensures name in m.RequiredProbeMethods() <==> exists c :: c in m.methods && c.requiredForProbe && c.name == name
    ensures name in m.KnownMethods() <==> exists c :: c in m.methods && c.name == name
  {
  }

  /** Which findings the endpoint evidence gives. */
  lemma EndpointFindingRules(m: Matrix, e: Evidence, name: string, rpc: nat, horizon: nat)
    ensures var fs := EndpointFindings(m, e);
      && (Finding(Error, MethodMissing(name)) in fs <==> Denied(m, e, name))
      && (Finding(Error, NetworkIdentityMismatch) in fs <==> NetworksDiffer(e))
      && (Finding(Warning, ProtocolVersionMismatch(rpc, horizon)) in fs <==> ProtocolsDiffer(e, rpc, horizon))
      && (Finding(Warning, NoRetention) in fs <==> e.retentionWindow == Some(0))
      && (Finding(Warning, ProbeWarning(name)) in fs <==> name in e.warnings)
  {
    MissingFindingRules(m, e, name);
    HorizonFindingRules(e, rpc, horizon);
    WarningFindingRules(e.warnings, name);
    hide MissingFindings, Matrix.RequiredProbeMethods, Ascending, HorizonFindings, NetworksDiffer, ProtocolsDiffer,
      ProbeWarnings, Denied;
    var missing := MissingFindings(Ascending(m.RequiredProbeMethods()), e.supported);
    assert forall f :: f in EndpointFindings(m, e) <==>
      f in missing || f in HorizonFindings(e) || f in RetentionFindings(e) || f in ProbeWarnings(e.warnings);
  }

  lemma MissingFindingRules(m: Matrix, e: Evidence, name: string)
    ensures var fs := MissingFindings(Ascending(m.RequiredProbeMethods()), e.supported);
      && (Finding(Error, MethodMissing(name)) in fs <==> Denied(m, e, name))
      && (forall f | f in fs :: f.topic.MethodMissing?)
  {
    hide Ascending;
    MissingFindingsAgree(Ascending(m.RequiredProbeMethods()), e.supported);
    RequiredIff(m, name);
    hide MissingFindings, Matrix.RequiredProbeMethods;
  }

  lemma WarningFindingRules(warnings: seq<string>, w: string)
    ensures Finding(Warning, ProbeWarning(w)) in ProbeWarnings(warnings) <==> w in warnings
    ensures forall f | f in ProbeWarnings(warnings) :: f.topic.ProbeWarning?
  {
    var fs := ProbeWarnings(warnings);
    if w in warnings {
      var i :| 0 <= i < |warnings| && warnings[i] == w;
      assert fs[i] in fs;
    }
  }

  lemma HorizonFindingRules(e: Evidence, rpc: nat, horizon: nat)
    ensures var fs := HorizonFindings(e);
      && (Finding(Error, NetworkIdentityMismatch) in fs <==> NetworksDiffer(e))
      && (Finding(Warning, ProtocolVersionMismatch(rpc, horizon)) in fs <==> ProtocolsDiffer(e, rpc, horizon))
      && (forall f | f in fs :: f.topic.NetworkIdentityMismatch? || f.topic.ProtocolVersionMismatch?)
  {
  }

  /** Which level the endpoint evidence gives. */
  lemma EndpointLevelRules(m: Matrix, e: Evidence)
    ensures EndpointLevel(m, e) == Incompatible <==> (exists name :: Denied(m, e, name)) || NetworksDiffer(e)
    ensures EndpointLevel(m, e) == Degraded <==>
      && EndpointLevel(m, e) != Incompatible
      && ((exists rpc, horizon :: ProtocolsDiffer(e, rpc, horizon)) || e.retentionWindow == Some(0) || e.warnings != [])
    ensures EndpointLevel(m, e) != Unknown
  {
    forall name ensures name in m.RequiredProbeMethods() && name !in e.supported <==> Denied(m, e, name) {
      RequiredIff(m, name);
    }
    hide Matrix.RequiredProbeMethods, Denied;
    assert IdentityMismatch(e) <==> NetworksDiffer(e);
    assert ProtocolMismatch(e) <==> exists rpc, horizon :: ProtocolsDiffer(e, rpc, horizon) by {
      if ProtocolMismatch(e) {
        assert ProtocolsDiffer(e, e.protocolVersion.value, e.horizon.value.protocolVersion.value);
      }
    }
  }

  // ---------------------------------------------------------------- the features

  ghost predicate Lacks(methods: set<string>, e: Evidence) {
    exists n :: n in methods && n !in e.supported
  }

  /** The gate of one feature, with endpoint evidence: what it finds missing, and its level. */
  lemma GateRules(f: Feature, protocol: Option<nat>, e: Evidence)
    ensures var d := Gate(f, protocol, Some(e));
      var outside := protocol.Some? && !(f.protocol.minimum <= protocol.value <= f.protocol.maximum);
      && d.feature == f.name
      && (forall n :: n in d.missingRequired <==> n in f.required && n !in e.supported)
      && (forall n :: n in d.missingOptional <==> n in f.optional && n !in e.supported)
      && (d.level == Incompatible <==> f.hard && (Lacks(f.required, e) || outside))
      && (d.level == Unknown <==> protocol == None && !Lacks(f.required, e))
      && (d.level == Compatible <==> protocol.Some? && !outside && !Lacks(f.required, e) && !Lacks(f.optional, e))
  {
    var required, optional := f.required - e.supported, f.optional - e.supported;
    assert required != {} <==> Lacks(f.required, e) by {
      if Lacks(f.required, e) { var n :| n in f.required && n !in e.supported; assert n in required; }
      if required != {} { var n :| n in required; assert n in f.required && n !in e.supported; }
    }
    assert optional != {} <==> Lacks(f.optional, e) by {
      if Lacks(f.optional, e) { var n :| n in f.optional && n !in e.supported; assert n in optional; }
      if optional != {} { var n :| n in optional; assert n in f.optional && n !in e.supported; }
    }
    hide Lacks;
  }

  /** Without endpoint evidence the protocol range decides alone. */
  lemma GateWithoutEvidence(f: Feature, protocol: Option<nat>)
    ensures var d := Gate(f, protocol, None);
      var outside := protocol.Some? && !(f.protocol.minimum <= protocol.value <= f.protocol.maximum);
      && d.feature == f.name && d.missingRequired == d.missingOptional == {}
      && d.level == if protocol == None then Unknown
                    else if !outside then Compatible else if f.hard then Incompatible else Degraded
  {
  }

  /** A feature is reported exactly when its gate is not Compatible, as an error exactly when it is
      Incompatible. */
  lemma {:induction false} FeatureFindingRules(ds: seq<Decision>, f: Finding)
    ensures f in FeatureFindings(ds) <==>
      exists d :: d in ds && d.level != Compatible && f.topic == FeatureGate(d)
        && f.severity == if d.level == Incompatible then Error else Warning
  {
    if ds != [] {
      var init, last := ds[..|ds| - 1], ds[|ds| - 1];
      FeatureFindingRules(init, f);
      assert ds == init + [last];
      assert forall d :: d in ds <==> d in init || d == last;
    }
  }

  // ---------------------------------------------------------------- the report

  /** What is reported is what protocol, endpoint and features give, and nothing else. */
  lemma FindingsUnion(m: Matrix, protocol: Option<nat>, endpoint: Option<Evidence>, f: Finding)
    ensures f in StableSort(ReportOrder, RawFindings(m, protocol, endpoint)) <==>
      || f in ProtocolFindings(m, protocol)
      || (endpoint.Some? && f in EndpointFindings(m, endpoint.value))
      || f in FeatureFindings(Decisions(m.features, protocol, endpoint))
  {
    hide ProtocolFindings, EndpointFindings, FeatureFindings, Decisions, StableSort, ReportOrder;
    var fs := RawFindings(m, protocol, endpoint);
    assert f in multiset(StableSort(ReportOrder, fs)) <==> f in multiset(fs);
  }

  /** The features are decided one by one, in the matrix's order. */
  lemma DecisionAt(m: Matrix, protocol: Option<nat>, endpoint: Option<Evidence>, i: nat)
    requires i < |m.features|
    ensures |Decisions(m.features, protocol, endpoint)| == |m.features|
    ensures Decisions(m.features, protocol, endpoint)[i] == Gate(m.features[i], protocol, endpoint)
  {
  }

  /** Errors come first, then warnings, then the rest; among equals the codes ascend. */
  lemma ReportIsOrdered(m: Matrix, protocol: Option<nat>, endpoint: Option<Evidence>, i: nat, j: nat)
    requires i < j < |StableSort(ReportOrder, RawFindings(m, protocol, endpoint))|
    ensures var report := StableSort(ReportOrder, RawFindings(m, protocol, endpoint));
      && (report[j].severity == Error ==> report[i].severity == Error)
      && (report[i].severity == Info ==> report[j].severity == Info)
      && (report[i].severity == report[j].severity ==> AtMost(report[i].topic.Code(), report[j].topic.Code()))
  {
    hide RawFindings, Topic.Code, AtMost, StableSort;
    ReportOrderTotal();
    StableSortSorted(ReportOrder, RawFindings(m, protocol, endpoint));
    var report := StableSort(ReportOrder, RawFindings(m, protocol, endpoint));
    assert ReportOrder(report[i], report[j]);
  }

  // ---------------------------------------------------------------- one method less

  /** Nothing but the methods can spoil the verdict. */
  ghost predicate OtherwiseHealthy(m: Matrix, v: nat, e: Evidence) {
    && m.xdr.minimum <= v <= m.xdr.maximum && m.StatusOf(v) == Compatible
    && (forall f | f in m.features :: f.protocol.minimum <= v <= f.protocol.maximum)
    && e.horizon == None && e.retentionWindow != Some(0) && e.warnings == []
  }

  ghost predicate NeededBy(f: Feature, e: Evidence) {
    f.hard && Lacks(f.required, e)
  }

  /** Then the verdict is Incompatible exactly when a required method or one of a hard feature is lacking,
      and Compatible exactly when no method is that anything speaks of. */
  lemma MethodsDecide(m: Matrix, v: nat, e: Evidence)
    requires OtherwiseHealthy(m, v, e)
    ensures var verdict := Verdict(m, Some(v), Some(e));
      && (verdict == Incompatible <==>
            (exists n :: Denied(m, e, n)) || exists f :: f in m.features && NeededBy(f, e))
      && (verdict == Compatible <==>
            && (forall n :: !Denied(m, e, n))
            && forall f | f in m.features :: !Lacks(f.required, e) && !Lacks(f.optional, e))
      && verdict != Unknown
  {
    VerdictIsWorst(m, Some(v), e);
    EndpointLevelRules(m, e);
    ProtocolRules(m, Some(v), v);
    forall f ensures
      var d := Gate(f, Some(v), Some(e)).level;
      f in m.features ==>
        && (d == Incompatible <==> NeededBy(f, e))
        && (d == Compatible <==> !Lacks(f.required, e) && !Lacks(f.optional, e))
        && d != Unknown
    {
      GateRules(f, Some(v), e);
    }
    hide Verdict, EndpointLevel, ProtocolLevel, Gate, Denied, Lacks, NeededBy, Matrix.StatusOf;
  }
}
