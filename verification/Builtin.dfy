/** The capability matrix that ships with StarForge. */
module Builtin {
  import opened Domain
  import opened FindingRules
  import opened Prober
  import opened Probes
  import opened Verdicts
  import opened Wrappers

  const SIMULATE := "simulateTransaction"
  const SEND := "sendTransaction"
  const TRANSACTION := "getTransaction"
  const EVENTS := "getEvents"
  const ENTRIES := "getLedgerEntries"
  const TRANSACTIONS := "getTransactions"
  const LEDGERS := "getLedgers"

  const PROTOCOLS := ProtocolRange(20, 22)

  const BUILTIN: Matrix := Matrix(
    [ProtocolCapability(20, Compatible), ProtocolCapability(21, Compatible), ProtocolCapability(22, Compatible)],
    [MethodCapability(HEALTH, true), MethodCapability(NETWORK, true), MethodCapability(LATEST, true),
     MethodCapability(VERSION, false), MethodCapability(SIMULATE, false), MethodCapability(SEND, false),
     MethodCapability(TRANSACTION, false), MethodCapability(EVENTS, false), MethodCapability(ENTRIES, false),
     MethodCapability(TRANSACTIONS, false), MethodCapability(LEDGERS, false), MethodCapability(DISCOVER, false)],
    PROTOCOLS,
    [Feature("network_operations", PROTOCOLS, {NETWORK, LATEST}, {HEALTH}, true),
     Feature("contract_simulation", PROTOCOLS, {SIMULATE}, {ENTRIES}, true),
     Feature("transaction_submission", PROTOCOLS, {SEND, TRANSACTION}, {}, true),
     Feature("contract_events", PROTOCOLS, {EVENTS}, {TRANSACTIONS}, false),
     Feature("ledger_inspection", PROTOCOLS, {ENTRIES}, {LEDGERS}, false),
     Feature("upgrade_analysis", PROTOCOLS, {SIMULATE, ENTRIES}, {EVENTS}, true)])

  lemma KnownAt(m: Matrix, i: nat)
    requires i < |m.methods|
    ensures m.methods[i].name in m.KnownMethods()
    ensures m.methods[i].requiredForProbe ==> m.methods[i].name in m.RequiredProbeMethods()
  {
    assert m.methods[i] in m.methods;
  }

  lemma RequiredAt(m: Matrix, names: set<string>)
    requires forall i :: 0 <= i < |m.methods| && m.methods[i].requiredForProbe ==> m.methods[i].name in names
    ensures m.RequiredProbeMethods() <= names
  {
  }

  lemma BuiltinNotRequired(i: nat)
    requires 3 <= i < |BUILTIN.methods|
    ensures !BUILTIN.methods[i].requiredForProbe
  {
    hide DISCOVER, NETWORK, LATEST, HEALTH, VERSION, SIMULATE, SEND, TRANSACTION, EVENTS, ENTRIES, TRANSACTIONS,
      LEDGERS;
  }

  lemma BuiltinMethods()
    ensures {DISCOVER, NETWORK, LATEST, HEALTH, VERSION, SIMULATE, SEND, TRANSACTION, EVENTS, ENTRIES, TRANSACTIONS,
             LEDGERS} <= BUILTIN.KnownMethods()
  {
    hide Matrix.KnownMethods, Matrix.RequiredProbeMethods;
    hide DISCOVER, NETWORK, LATEST, HEALTH, VERSION, SIMULATE, SEND, TRANSACTION, EVENTS, ENTRIES, TRANSACTIONS,
      LEDGERS;
    forall i | 0 <= i < |BUILTIN.methods| ensures BUILTIN.methods[i].name in BUILTIN.KnownMethods() {
      KnownAt(BUILTIN, i);
    }
    var ms := BUILTIN.methods;
    assert ms[0].name == HEALTH && ms[1].name == NETWORK && ms[2].name == LATEST && ms[3].name == VERSION;
    assert ms[4].name == SIMULATE && ms[5].name == SEND && ms[6].name == TRANSACTION && ms[7].name == EVENTS;
    assert ms[8].name == ENTRIES && ms[9].name == TRANSACTIONS && ms[10].name == LEDGERS && ms[11].name == DISCOVER;
  }

  lemma BuiltinRequired()
    ensures BUILTIN.RequiredProbeMethods() == {HEALTH, NETWORK, LATEST}
  {
    hide DISCOVER, NETWORK, LATEST, HEALTH, VERSION, SIMULATE, SEND, TRANSACTION, EVENTS, ENTRIES, TRANSACTIONS,
      LEDGERS;
    var ms := BUILTIN.methods;
    assert ms[0] in ms && ms[1] in ms && ms[2] in ms;
    forall i | 0 <= i < |ms| && ms[i].requiredForProbe ensures ms[i].name in {HEALTH, NETWORK, LATEST} {
      if i >= 3 { BuiltinNotRequired(i); }
    }
    RequiredAt(BUILTIN, {HEALTH, NETWORK, LATEST});
  }

  lemma CoreSet()
    ensures CORE_SET == {DISCOVER, NETWORK, LATEST, HEALTH, VERSION}
  {
    hide DISCOVER, NETWORK, LATEST, HEALTH, VERSION, SIMULATE, SEND, TRANSACTION, EVENTS, ENTRIES, TRANSACTIONS,
      LEDGERS;
  }

  /** The built-in matrix only speaks of methods it knows, and knows the core ones. */
  lemma BuiltinConsistent()
    ensures FeaturesKnown(BUILTIN) && CORE_SET <= BUILTIN.KnownMethods()
    ensures forall protocol :: !DeclaredIncompatible(BUILTIN, protocol)
  {
    hide DISCOVER, NETWORK, LATEST, HEALTH, VERSION, SIMULATE, SEND, TRANSACTION, EVENTS, ENTRIES, TRANSACTIONS,
      LEDGERS;
    BuiltinMethods();
    CoreSet();
    hide Matrix.KnownMethods;
    var fs := BUILTIN.features;
    assert forall f :: f in fs <==> f == fs[0] || f == fs[1] || f == fs[2] || f == fs[3] || f == fs[4] || f == fs[5];
  }

  /** With the built-in matrix, an endpoint that denies any required method is Incompatible, and the
      verdict Incompatible always comes with an error to show for it. */
  lemma BuiltinVerdict(p: Probe, name: string)
    requires p.Classified() && p.m == BUILTIN
    ensures Verdict(BUILTIN, p.e.protocolVersion, Some(p.e)) == Incompatible
      <==> HasError(RawFindings(BUILTIN, p.e.protocolVersion, Some(p.e)))
    ensures name in BUILTIN.RequiredProbeMethods() && name in p.e.missing ==>
        Verdict(BUILTIN, p.e.protocolVersion, Some(p.e)) == Incompatible
    ensures p.e.supported !! p.e.missing + p.e.vendor
  {
    hide Probed, RawFindings, Verdict;
    BuiltinConsistent();
    ProbeDisjoint(p);
    VerdictAgreesWithFindings(BUILTIN, p.e.protocolVersion, Some(p.e));
    if name in BUILTIN.RequiredProbeMethods() && name in p.e.missing {
      RequiredMethodMissing(BUILTIN, p.e.protocolVersion, p.e, name);
    }
  }

  /** The gate of a shipped soft feature, when the endpoint names no protocol: with no method at all it
      is Degraded, with all of them it is Unknown, which ranks higher. */
  lemma EventsGateWorsens(e: Evidence)
    ensures var f := BUILTIN.features[3];
      var none := Gate(f, None, Some(e.(supported := {})));
      var all := Gate(f, None, Some(WithMore(e, BUILTIN.KnownMethods())));
      && f.name == "contract_events"
      && none.level == Degraded && all.level == Unknown && none.level.Rank() < all.level.Rank()
  {
    hide DISCOVER, NETWORK, LATEST, HEALTH, VERSION, SIMULATE, SEND, TRANSACTION, EVENTS, ENTRIES, TRANSACTIONS,
      LEDGERS;
    BuiltinMethods();
    hide Matrix.KnownMethods;
    var f := BUILTIN.features[3];
    assert f == Feature("contract_events", PROTOCOLS, {EVENTS}, {TRANSACTIONS}, false);
    assert EVENTS in f.required - {};
    var supported := WithMore(e, BUILTIN.KnownMethods()).supported;
    assert f.required - supported == {} && f.optional - supported == {};
  }

  /** With the shipped matrix, a probe without optional methods is Incompatible unless discovery lists all
      of what the hard features require beyond the core methods; if discovery lists nothing, it always is. */
  lemma CoreOnlyProbe(p: Probe)
    requires p.Classified() && p.m == BUILTIN && !p.options.probeOptionalMethods
    ensures !({SIMULATE, SEND, TRANSACTION, ENTRIES} <= p.Discovered()) ==>
        Verdict(BUILTIN, p.e.protocolVersion, Some(p.e)) == Incompatible
    ensures p.Discovered() == {} ==> Verdict(BUILTIN, p.e.protocolVersion, Some(p.e)) == Incompatible
  {
    NotCore();
    hide Planned, Sorts, Listed, Verdict, CORE_SET;
    hide DISCOVER, NETWORK, LATEST, HEALTH, VERSION, SIMULATE, SEND, TRANSACTION, EVENTS, ENTRIES, TRANSACTIONS,
      LEDGERS;
    var fs := BUILTIN.features;
    assert fs[1] in fs && fs[2] in fs && fs[5] in fs;
    if !({SIMULATE, SEND, TRANSACTION, ENTRIES} <= p.Discovered()) {
      var n :| n in {SIMULATE, SEND, TRANSACTION, ENTRIES} && n !in p.Discovered();
      var f := if n == SIMULATE then fs[1] else if n == ENTRIES then fs[5] else fs[2];
      assert n in f.required && f.hard && n !in CORE_SET + p.Discovered();
      UnaskedHardFeature(p, f);
    }
    if p.Discovered() == {} { assert SIMULATE !in p.Discovered(); }
  }

  lemma NotCore()
    ensures {SIMULATE, SEND, TRANSACTION, ENTRIES} !! CORE_SET
  {
    CoreSet();
    assert |SIMULATE| == 19 && |SEND| == 15 && |TRANSACTION| == 14 && |ENTRIES| == 16;
    assert |DISCOVER| == 12 && |NETWORK| == 10 && |LATEST| == 15 && |HEALTH| == 9 && |VERSION| == 14;
    assert SEND[0] != LATEST[0] && TRANSACTION[3] != VERSION[3];
  }

  /** The methods by their names on the wire. */
  lemma NamesOnTheWire()
    ensures HEALTH == "getHealth" && NETWORK == "getNetwork" && LATEST == "getLatestLedger"
    ensures VERSION == "getVersionInfo" && DISCOVER == "rpc.discover" && LEDGERS == "getLedgers"
    ensures SIMULATE == "simulateTransaction" && SEND == "sendTransaction" && TRANSACTION == "getTransaction"
    ensures EVENTS == "getEvents" && ENTRIES == "getLedgerEntries" && TRANSACTIONS == "getTransactions"
  {
  }

  lemma KnownByUse()
    ensures BUILTIN.KnownMethods() == VITAL + USEFUL + SPARE
  {
    BuiltinMethods();
    hide DISCOVER, NETWORK, LATEST, HEALTH, VERSION, SIMULATE, SEND, TRANSACTION, EVENTS, ENTRIES, TRANSACTIONS,
      LEDGERS;
    forall n | n in BUILTIN.KnownMethods() ensures n in VITAL + USEFUL + SPARE { OnlyKnown(n); }
  }

  const VITAL: set<string> := {HEALTH, NETWORK, LATEST, SIMULATE, SEND, TRANSACTION, ENTRIES}
  const USEFUL: set<string> := {EVENTS, TRANSACTIONS, LEDGERS}
  const SPARE: set<string> := {VERSION, DISCOVER}

  lemma NamesDistinct()
    ensures VITAL !! USEFUL && VITAL + USEFUL !! SPARE
    ensures DISCOVER !in {NETWORK, LATEST, HEALTH, VERSION, SIMULATE, SEND, TRANSACTION, EVENTS, ENTRIES}
    ensures DISCOVER !in {TRANSACTIONS, LEDGERS} && VERSION !in {EVENTS, ENTRIES, TRANSACTIONS, LEDGERS}
    ensures VERSION !in {NETWORK, LATEST, HEALTH, SIMULATE, SEND, TRANSACTION}
    ensures {EVENTS, TRANSACTIONS, LEDGERS} !! {HEALTH, NETWORK, LATEST, SIMULATE, SEND, TRANSACTION, ENTRIES}
  {
    assert |DISCOVER| == 12 && |NETWORK| == 10 && |LATEST| == 15 && |HEALTH| == 9 && |VERSION| == 14;
    assert |SIMULATE| == 19 && |SEND| == 15 && |TRANSACTION| == 14 && |ENTRIES| == 16;
    assert |EVENTS| == 9 && |TRANSACTIONS| == 15 && |LEDGERS| == 10;
    assert VERSION[3] != TRANSACTION[3] && EVENTS[3] != HEALTH[3] && LEDGERS[3] != NETWORK[3];
    assert TRANSACTIONS[3] != LATEST[3] && TRANSACTIONS[0] != SEND[0];
  }

  predicate HealthyEvidence(e: Evidence) {
    e.horizon == None && e.retentionWindow != Some(0) && e.warnings == []
  }

  /** What each method is for in the shipped matrix: on a healthy endpoint that supports all methods but
      one, the verdict is Incompatible for seven of them, Degraded for three, and Compatible for the two
      that no feature speaks of. */
  lemma OneMethodMissing(v: nat, e: Evidence, n: string)
    requires 20 <= v <= 22 && HealthyEvidence(e) && n in BUILTIN.KnownMethods()
    requires e.supported == BUILTIN.KnownMethods() - {n}
    ensures var verdict := Verdict(BUILTIN, Some(v), Some(e));
      && (verdict == Incompatible <==> n in VITAL)
      && (verdict == Degraded <==> n in USEFUL)
      && (verdict == Compatible <==> n in SPARE)
  {
    hide VITAL, USEFUL, SPARE, BUILTIN, Verdict;
    BuiltinHealthy(v, e);
    BuiltinConsistent();
    OneMissing(BUILTIN, v, e, n);
    VitalMethods(n);
    UsedMethods(n);
    OnlyKnown(n);
    NamesDistinct();
  }

  /** In any matrix: what the lack of one method does. */
  lemma OneMissing(m: Matrix, v: nat, e: Evidence, n: string)
    requires OtherwiseHealthy(m, v, e) && FeaturesKnown(m)
    requires n in m.KnownMethods() && e.supported == m.KnownMethods() - {n}
    ensures var verdict := Verdict(m, Some(v), Some(e));
      && (verdict == Incompatible <==>
            n in m.RequiredProbeMethods() || exists f :: f in m.features && f.hard && n in f.required)
      && (verdict == Compatible <==>
            n !in m.RequiredProbeMethods() && forall f | f in m.features :: n !in f.required && n !in f.optional)
      && verdict != Unknown
  {
    MethodsDecide(m, v, e);
    forall name ensures Denied(m, e, name) <==> name == n && n in m.RequiredProbeMethods() {
      RequiredIff(m, name);
    }
    forall f | f in m.features
      ensures Lacks(f.required, e) <==> n in f.required
      ensures Lacks(f.optional, e) <==> n in f.optional
    {
      assert f.required + f.optional <= m.KnownMethods();
      LacksOne(f.required, m.KnownMethods(), n, e);
      LacksOne(f.optional, m.KnownMethods(), n, e);
    }
    hide Verdict, Denied, Lacks, Matrix.KnownMethods, Matrix.RequiredProbeMethods, OtherwiseHealthy;
    assert forall f | f in m.features :: NeededBy(f, e) <==> f.hard && n in f.required;
  }

  /** What the six features of the shipped matrix speak of. */
  lemma FeatureMethods()
    ensures var fs := BUILTIN.features;
      && |fs| == 6
      && fs[0].hard && fs[0].required == {NETWORK, LATEST} && fs[0].optional == {HEALTH}
      && fs[1].hard && fs[1].required == {SIMULATE} && fs[1].optional == {ENTRIES}
      && fs[2].hard && fs[2].required == {SEND, TRANSACTION} && fs[2].optional == {}
      && !fs[3].hard && fs[3].required == {EVENTS} && fs[3].optional == {TRANSACTIONS}
      && !fs[4].hard && fs[4].required == {ENTRIES} && fs[4].optional == {LEDGERS}
      && fs[5].hard && fs[5].required == {SIMULATE, ENTRIES} && fs[5].optional == {EVENTS}
  {
  }

  lemma VitalMethods(n: string)
    ensures n in BUILTIN.RequiredProbeMethods() || (exists f :: f in BUILTIN.features && f.hard && n in f.required)
      <==> n in VITAL
  {
    hide DISCOVER, NETWORK, LATEST, HEALTH, VERSION, SIMULATE, SEND, TRANSACTION, EVENTS, ENTRIES, TRANSACTIONS,
      LEDGERS;
    BuiltinRequired();
    FeatureMethods();
    hide BUILTIN;
    var fs := BUILTIN.features;
    forall i | 0 <= i < 6 && fs[i].hard && n in fs[i].required ensures n in VITAL {
    }
    if n in {NETWORK, LATEST} { assert fs[0] in fs; }
    if n == SIMULATE { assert fs[1] in fs; }
    if n in {SEND, TRANSACTION} { assert fs[2] in fs; }
    if n == ENTRIES { assert fs[5] in fs; }
  }

  lemma UsedMethods(n: string)
    ensures n in BUILTIN.RequiredProbeMethods()
            || (exists f :: f in BUILTIN.features && (n in f.required || n in f.optional))
      <==> n in VITAL + USEFUL
  {
    hide DISCOVER, NETWORK, LATEST, HEALTH, VERSION, SIMULATE, SEND, TRANSACTION, EVENTS, ENTRIES, TRANSACTIONS,
      LEDGERS;
    VitalMethods(n);
    FeatureMethods();
    hide BUILTIN;
    var fs := BUILTIN.features;
    forall i | 0 <= i < 6 && (n in fs[i].required || n in fs[i].optional) ensures n in VITAL + USEFUL {
    }
    if n in {EVENTS, TRANSACTIONS} { assert fs[3] in fs; }
    if n == LEDGERS { assert fs[4] in fs; }
  }

  lemma LacksOne(methods: set<string>, known: set<string>, n: string, e: Evidence)
    requires methods <= known && e.supported == known - {n}
    ensures Lacks(methods, e) <==> n in methods
  {
  }

  lemma OnlyKnown(n: string)
    requires n in BUILTIN.KnownMethods()
    ensures n in VITAL || n in USEFUL || n in SPARE
  {
    hide DISCOVER, NETWORK, LATEST, HEALTH, VERSION, SIMULATE, SEND, TRANSACTION, EVENTS, ENTRIES, TRANSACTIONS,
      LEDGERS;
  }

  lemma BuiltinHealthy(v: nat, e: Evidence)
    requires HealthyEvidence(e)
    ensures OtherwiseHealthy(BUILTIN, v, e) <==> 20 <= v <= 22
  {
    hide DISCOVER, NETWORK, LATEST, HEALTH, VERSION, SIMULATE, SEND, TRANSACTION, EVENTS, ENTRIES, TRANSACTIONS,
      LEDGERS;
    StatusRules(BUILTIN, v);
    if 20 <= v <= 22 {
      assert FirstEntry(BUILTIN.protocols, v, v - 20);
    }
  }

  /** With all methods the verdict is Compatible for protocols 20 to 22, and Incompatible for any other. */
  lemma AllMethodsSupported(v: nat, e: Evidence)
    requires HealthyEvidence(e) && BUILTIN.KnownMethods() <= e.supported
    ensures Verdict(BUILTIN, Some(v), Some(e)) == if 20 <= v <= 22 then Compatible else Incompatible
  {
    BuiltinConsistent();
    BuiltinHealthy(v, e);
    VerdictIsWorst(BUILTIN, Some(v), e);
    ProtocolRules(BUILTIN, Some(v), v);
    if 20 <= v <= 22 {
      MethodsDecide(BUILTIN, v, e);
      forall n ensures !Denied(BUILTIN, e, n) { RequiredIff(BUILTIN, n); }
      hide Matrix.KnownMethods;
      forall f | f in BUILTIN.features ensures !Lacks(f.required, e) && !Lacks(f.optional, e) {
        assert f.required + f.optional <= BUILTIN.KnownMethods();
      }
    }
  }
}
