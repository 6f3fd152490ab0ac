/** What the evaluator's verdict means: it agrees exactly with the reported findings, and more
    supported methods never make it worse. */
module Verdicts {
  import opened Domain
  import opened Sorting
  import opened Strings
  import opened Wrappers

  ghost predicate HasError(fs: seq<Finding>) {
    exists f :: f in fs && f.severity == Error
  }

  ghost predicate NoInfo(fs: seq<Finding>) {
    forall f :: f in fs ==> f.severity != Info
  }

  /** The matrix itself declares the version incompatible: the one verdict without a finding of
      severity Error. */
  ghost predicate DeclaredIncompatible(m: Matrix, protocol: Option<nat>) {
    protocol.Some? && m.xdr.Includes(protocol.value) && m.StatusOf(protocol.value) == Incompatible
  }

  ghost predicate ProtocolUndecided(m: Matrix, protocol: Option<nat>) {
    protocol.None? || (m.xdr.Includes(protocol.value) && m.StatusOf(protocol.value) == Unknown)
  }

  // ---------------------------------------------------------------- verdict and findings agree

  lemma {:induction false} FeatureFindingsAgree(ds: seq<Decision>)
    ensures FeatureFindings(ds) == [] <==> Worst(ds) == Compatible
    ensures HasError(FeatureFindings(ds)) <==> Worst(ds) == Incompatible
    ensures NoInfo(FeatureFindings(ds))
  {
    if ds != [] {
      var init, last := ds[..|ds| - 1], ds[|ds| - 1];
      FeatureFindingsAgree(init);
      if last.level != Compatible {
        assert FeatureFindings(ds) == FeatureFindings(init) + [FeatureFinding(last)];
        assert FeatureFinding(last) in FeatureFindings(ds);
        assert forall f :: f in FeatureFindings(init) ==> f in FeatureFindings(ds);
      }
    }
  }

  lemma {:induction false} MissingFindingsAgree(names: seq<string>, supported: set<string>)
    ensures forall f :: f in MissingFindings(names, supported) <==>
      exists n :: n in names && n !in supported && f == Finding(Error, MethodMissing(n))
  {
    if names != [] {
      MissingFindingsAgree(names[..|names| - 1], supported);
      assert names == names[..|names| - 1] + [names[|names| - 1]];
    }
  }

  lemma Parts(a: seq<Finding>, b: seq<Finding>)
    ensures a + b == [] <==> a == [] && b == []
    ensures HasError(a + b) <==> HasError(a) || HasError(b)
    ensures NoInfo(a + b) <==> NoInfo(a) && NoInfo(b)
  {
    assert |a + b| == |a| + |b|;
    assert forall f :: f in a + b <==> f in a || f in b;
  }

  lemma HealthFindingsAgree(e: Evidence)
    ensures HasError(HorizonFindings(e)) <==> IdentityMismatch(e)
    ensures HorizonFindings(e) == [] <==> !IdentityMismatch(e) && !ProtocolMismatch(e)
    ensures !HasError(RetentionFindings(e)) && !HasError(ProbeWarnings(e.warnings))
    ensures NoInfo(HorizonFindings(e)) && NoInfo(RetentionFindings(e)) && NoInfo(ProbeWarnings(e.warnings))
  {
    if IdentityMismatch(e) {
      assert HorizonFindings(e)[0] in HorizonFindings(e);
    }
  }

  lemma EndpointFindingsAgree(m: Matrix, e: Evidence)
    ensures EndpointFindings(m, e) == [] <==> EndpointLevel(m, e) == Compatible
    ensures HasError(EndpointFindings(m, e)) <==> EndpointLevel(m, e) == Incompatible
    ensures NoInfo(EndpointFindings(m, e))
  {
    var required := Ascending(m.RequiredProbeMethods());
    var missing := MissingFindings(required, e.supported);
    MissingFindingsAgree(required, e.supported);
    NoMissingFindings(required, e.supported);
    assert missing != [] ==> missing[0] in missing;
    HealthFindingsAgree(e);
    Parts(RetentionFindings(e), ProbeWarnings(e.warnings));
    Parts(HorizonFindings(e), RetentionFindings(e) + ProbeWarnings(e.warnings));
    Parts(missing, HorizonFindings(e) + (RetentionFindings(e) + ProbeWarnings(e.warnings)));
  }

  lemma RawFindingsParts(m: Matrix, protocol: Option<nat>, endpoint: Option<Evidence>)
    ensures var fs, ps, ds := RawFindings(m, protocol, endpoint), ProtocolFindings(m, protocol),
                FeatureFindings(Decisions(m.features, protocol, endpoint));
      var es := if endpoint.Some? then EndpointFindings(m, endpoint.value) else [];
      && (fs == [] <==> ps == [] && es == [] && ds == [])
      && (HasError(fs) <==> HasError(ps) || HasError(es) || HasError(ds))
      && (NoInfo(fs) <==> NoInfo(ps) && NoInfo(es) && NoInfo(ds))
  {
    var es := if endpoint.Some? then EndpointFindings(m, endpoint.value) else [];
    Parts(ProtocolFindings(m, protocol), es);
    Parts(ProtocolFindings(m, protocol) + es, FeatureFindings(Decisions(m.features, protocol, endpoint)));
  }

  /** Only an unknown protocol makes a feature's level Unknown. */
  lemma {:induction false} WorstIsKnown(fs: seq<Feature>, protocol: Option<nat>, endpoint: Option<Evidence>)
    ensures protocol.Some? ==> Worst(Decisions(fs, protocol, endpoint)) != Unknown
  {
    if fs != [] {
      WorstIsKnown(fs[..|fs| - 1], protocol, endpoint);
      var ds := Decisions(fs, protocol, endpoint);
      assert ds[..|fs| - 1] == Decisions(fs[..|fs| - 1], protocol, endpoint);
      assert ds[|fs| - 1] == Gate(fs[|fs| - 1], protocol, endpoint);
    }
  }

  /** The verdict read off the findings, level by level. */
  lemma VerdictAgreesWithFindings(m: Matrix, protocol: Option<nat>, endpoint: Option<Evidence>)
    ensures var level, fs := Verdict(m, protocol, endpoint), RawFindings(m, protocol, endpoint);
      && NoInfo(fs)
      && (level == Compatible <==> fs == [])
      && (level == Incompatible <==> HasError(fs) || DeclaredIncompatible(m, protocol))
      && (level == Unknown <==> level != Incompatible && ProtocolUndecided(m, protocol))
  {
    RawFindingsParts(m, protocol, endpoint);
    FeatureFindingsAgree(Decisions(m.features, protocol, endpoint));
    WorstIsKnown(m.features, protocol, endpoint);
    if endpoint.Some? {
      EndpointFindingsAgree(m, endpoint.value);
    }
    ProtocolFindingsAgree(m, protocol);
  }

  lemma ProtocolFindingsAgree(m: Matrix, protocol: Option<nat>)
    ensures var level, fs := ProtocolLevel(m, protocol), ProtocolFindings(m, protocol);
      && NoInfo(fs)
      && (level == Compatible <==> fs == [])
      && (level == Incompatible <==> HasError(fs) || DeclaredIncompatible(m, protocol))
      && (level == Unknown <==> ProtocolUndecided(m, protocol))
  {
    var fs := ProtocolFindings(m, protocol);
    if fs != [] {
      assert fs[0] in fs;
    }
  }

  /** The same for the report: sorting the findings loses and adds none. */
  lemma ReportAgreesWithVerdict(m: Matrix, protocol: Option<nat>, endpoint: Option<Evidence>)
    ensures var level, report := Verdict(m, protocol, endpoint),
                                 StableSort(ReportOrder, RawFindings(m, protocol, endpoint));
      && NoInfo(report)
      && Sorted(ReportOrder, report)
      && (level == Compatible <==> report == [])
      && (level == Incompatible <==> HasError(report) || DeclaredIncompatible(m, protocol))
  {
    VerdictAgreesWithFindings(m, protocol, endpoint);
    var fs := RawFindings(m, protocol, endpoint);
    var report := StableSort(ReportOrder, fs);
    ReportOrderTotal();
    StableSortSorted(ReportOrder, fs);
    forall f ensures f in report <==> f in fs {
      assert f in multiset(report) <==> f in multiset(fs);
    }
  }

  // ---------------------------------------------------------------- more methods never hurt

  function WithMore(e: Evidence, more: set<string>): Evidence {
    e.(supported := e.supported + more)
  }

  /** Supporting more methods never raises this feature's level. */
  ghost predicate GateImproves(f: Feature, protocol: Option<nat>) {
    forall e: Evidence, more: set<string> ::
      Gate(f, protocol, Some(WithMore(e, more))).level.Rank() <= Gate(f, protocol, Some(e)).level.Rank()
  }

  /** The gate alone is monotone for every feature except a soft one with required methods while
      the protocol is unknown: there a missing method replaces Unknown by the milder Degraded. */
  lemma GateImprovesIff(f: Feature, protocol: Option<nat>)
    ensures GateImproves(f, protocol) <==> !(protocol.None? && !f.hard && f.required != {})
  {
    if protocol.None? && !f.hard && f.required != {} {
      var e := Evidence(0, "", "", 0, None, None, None, None, None, None, {}, {}, {}, map[], None, []);
      var more := f.required + f.optional;
      assert f.required - e.supported == f.required;
      assert f.required - WithMore(e, more).supported == {};
      assert Gate(f, protocol, Some(e)).level == Degraded;
      assert Gate(f, protocol, Some(WithMore(e, more))).level == Unknown;
    } else {
      forall e: Evidence, more: set<string>
        ensures Gate(f, protocol, Some(WithMore(e, more))).level.Rank() <= Gate(f, protocol, Some(e)).level.Rank()
      {
        GateShrinks(f, protocol, e, more);
      }
    }
  }

  /** One gate under more methods, next to what the protocol already contributes. */
  lemma GateShrinks(f: Feature, protocol: Option<nat>, e: Evidence, more: set<string>)
    ensures var better, worse := Gate(f, protocol, Some(WithMore(e, more))), Gate(f, protocol, Some(e));
      && better.missingRequired <= worse.missingRequired
      && better.missingOptional <= worse.missingOptional
      && (better.level.Rank() <= worse.level.Rank()
          || (protocol.None? && !f.hard && f.required != {} && better.level == Unknown))
  {
    assert f.required - WithMore(e, more).supported <= f.required - e.supported;
    assert f.optional - WithMore(e, more).supported <= f.optional - e.supported;
  }

  lemma {:induction false} WorstShrinks(fs: seq<Feature>, protocol: Option<nat>, e: Evidence, more: set<string>)
    ensures var better, worse := Worst(Decisions(fs, protocol, Some(WithMore(e, more)))),
                                 Worst(Decisions(fs, protocol, Some(e)));
      better.Rank() <= worse.Rank() || (protocol.None? && better == Unknown)
  {
    if fs != [] {
      var init, last := fs[..|fs| - 1], fs[|fs| - 1];
      var better, worse := Decisions(fs, protocol, Some(WithMore(e, more))), Decisions(fs, protocol, Some(e));
      WorstShrinks(init, protocol, e, more);
      GateShrinks(last, protocol, e, more);
      assert better[..|init|] == Decisions(init, protocol, Some(WithMore(e, more)));
      assert worse[..|init|] == Decisions(init, protocol, Some(e));
      assert better[|init|] == Gate(last, protocol, Some(WithMore(e, more)));
      assert worse[|init|] == Gate(last, protocol, Some(e));
    }
  }

  /** For every matrix, protocol and evidence, supporting more methods never raises the verdict. */
  lemma MoreMethodsNeverHurt(m: Matrix, protocol: Option<nat>, e: Evidence, more: set<string>)
    ensures Verdict(m, protocol, Some(WithMore(e, more))).Rank() <= Verdict(m, protocol, Some(e)).Rank()
  {
    WorstShrinks(m.features, protocol, e, more);
    assert m.RequiredProbeMethods() <= e.supported ==> m.RequiredProbeMethods() <= WithMore(e, more).supported;
  }

  /** A required probe method that is not supported always makes the verdict Incompatible and is
      reported by name. */
  lemma RequiredMethodMissing(m: Matrix, protocol: Option<nat>, e: Evidence, name: string)
    requires name in m.RequiredProbeMethods() && name !in e.supported
    ensures Verdict(m, protocol, Some(e)) == Incompatible
    ensures Finding(Error, MethodMissing(name)) in RawFindings(m, protocol, Some(e))
  {
    var required := Ascending(m.RequiredProbeMethods());
    MissingFindingsAgree(required, e.supported);
    assert name in required;
    assert Finding(Error, MethodMissing(name)) in MissingFindings(required, e.supported);
    assert MissingFindings(required, e.supported) <= EndpointFindings(m, e);
    assert Finding(Error, MethodMissing(name)) in EndpointFindings(m, e);
  }
}
