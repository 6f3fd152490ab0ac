/** What every successful probe says about the endpoint, whatever the endpoint answered. */
module Probes {
  import opened Domain
  import opened Json
  import opened Prober
  import opened Strings
  import opened Transport
  import opened Verdicts
  import opened Wrappers

  /** A successful probe: its inputs, the calls it made, and the evidence it returned. What the probe
      ensures about them falls into four parts, and each lemma names the parts it needs. */
  datatype Probe = Probe(
    m: Matrix,
    options: ProbeOptions,
    rpc: string,
    horizon: Option<string>,
    digest: string -> string,
    posts: seq<Exchange>,
    gets: seq<Exchange>,
    e: Evidence)
  {
    ghost predicate Succeeded() {
      Probed(m, options, rpc, horizon, digest, posts, gets, e)
    }

    ghost predicate Asks() {
      Planned(m, options, rpc, posts)
    }

    ghost predicate Classified() {
      Asks() && Sorts(m, options, posts, e)
    }

    /** What discovery listed. */
    ghost function Discovered(): set<string>
      requires Asks()
    {
      Listed(posts[0])
    }

    /** The core methods are always asked; the other known ones only if discovery lists nothing. */
    ghost function Asked(): set<string>
      requires Asks()
    {
      CORE_SET + if options.probeOptionalMethods && Discovered() == {} then m.KnownMethods() else {}
    }

    /** The methods the evidence says anything about. Without optional probing, a known method that is
        neither core nor discovered is not among them. */
    ghost function Decided(): set<string>
      requires Asks()
    {
      CORE_SET + if options.probeOptionalMethods then m.KnownMethods() else Discovered() * m.KnownMethods()
    }
  }

  /** A successful probe has all of them. */
  lemma SuccessfulProbe(p: Probe)
    requires p.Succeeded()
    ensures p.Classified()
    ensures Carries(p.digest, p.posts, p.e)
    ensures Warns(p.options, p.horizon, p.digest, p.posts, p.gets, p.e)
  {
  }

  lemma CoreNamesDistinct()
    ensures |CORE| == 5
    ensures forall i, j :: 0 <= i < j < |CORE| ==> CORE[i] != CORE[j]
    ensures forall i :: 0 <= i < |CORE| ==> CORE[i] in CORE_SET
  {
    assert |CORE[0]| == 12 && |CORE[1]| == 10 && |CORE[2]| == 15 && |CORE[3]| == 9 && |CORE[4]| == 14;
  }

  /** The names in a plan: the core ones, then the others. */
  lemma PlanNames(m: Matrix, options: ProbeOptions, rpc: string, listed: set<string>)
    ensures var plan, optional := Plan(m, options, rpc, listed), OptionalMethods(m);
      && (forall i :: 0 <= i < |plan| ==> plan[i].Post?)
      && (forall i :: 0 <= i < |CORE| <= |plan| ==> plan[i].name == CORE[i] && plan[i].id == i + 1)
      && (forall i :: |CORE| <= i < |plan| ==>
            i - |CORE| < |optional| && plan[i].name == optional[i - |CORE|] && plan[i].id == 100 + i - |CORE|)
      && |plan| == |CORE| + if options.probeOptionalMethods && listed == {} then |optional| else 0
  {
    hide SafeProbeParams, Ascending, OptionalMethods, CORE;
    var plan, optional := Plan(m, options, rpc, listed), OptionalMethods(m);
    assert plan[..|CORE|] == CorePlan(rpc);
    forall i | |CORE| <= i < |plan|
      ensures i - |CORE| < |optional| && plan[i] == OptionalRequest(rpc, optional[i - |CORE|], i - |CORE|)
    {
    }
  }

  /** No method is asked twice, and no request identifier is used twice. */
  lemma PlanDistinct(m: Matrix, options: ProbeOptions, rpc: string, listed: set<string>)
    ensures var plan := Plan(m, options, rpc, listed);
      && (forall i :: 0 <= i < |plan| ==> plan[i].Post?)
      && (forall i, j :: 0 <= i < j < |plan| ==> plan[i].name != plan[j].name && plan[i].id != plan[j].id)
  {
    PlanNames(m, options, rpc, listed);
    CoreNamesDistinct();
    AscendingAscends(m.KnownMethods() - CORE_SET);
    OptionalMembers(m);
    var plan, optional := Plan(m, options, rpc, listed), OptionalMethods(m);
    assert StrictlyAscending(optional);
    hide Plan, OptionalMethods, CORE, CORE_SET;
    forall i, j | 0 <= i < j < |plan| ensures plan[i].name != plan[j].name && plan[i].id != plan[j].id {
      if |CORE| <= j {
        assert optional[j - |CORE|] in optional;
      }
    }
  }

  /** The only direct answer about a method is the last one. */
  lemma {:induction false} OnlyAnswer(posts: seq<Exchange>, i: nat)
    requires AllAnswered(posts) && i < |posts|
    requires forall j :: i < j < |posts| ==> posts[j].request.name != posts[i].request.name
    ensures AnswerTo(posts, posts[i].request.name) == Some(ReplyOf(posts[i]).value.support)
  {
    if i < |posts| - 1 {
      OnlyAnswer(posts[..|posts| - 1], i);
    }
  }

  /** A method that was asked is classified by the reply to its own question, whatever discovery lists. */
  lemma AskedByDirectReply(p: Probe, i: nat)
    requires p.Classified() && i < |p.posts|
    ensures p.posts[i].request.name in p.e.supported <==> ReplyOf(p.posts[i]).value.support == Supported
    ensures p.posts[i].request.name in p.e.missing <==> ReplyOf(p.posts[i]).value.support == Missing
  {
    hide WarningsOf, ReplyOf, Listed, Ascending, Plan;
    var plan := Plan(p.m, p.options, p.rpc, p.Discovered());
    PlanDistinct(p.m, p.options, p.rpc, p.Discovered());
    assert forall j :: 0 <= j < |p.posts| ==> p.posts[j].request == plan[j];
    OnlyAnswer(p.posts, i);
  }

  /** The core methods are asked first, so each is classified by its own reply. */
  lemma CoreByDirectReply(p: Probe, i: nat)
    requires p.Classified() && i < |CORE|
    ensures p.posts[i].request.name == CORE[i]
    ensures CORE[i] in p.e.supported <==> ReplyOf(p.posts[i]).value.support == Supported
    ensures CORE[i] in p.e.missing <==> ReplyOf(p.posts[i]).value.support == Missing
  {
    hide WarningsOf, ReplyOf, Listed, Ascending, Plan, Classifies;
    var plan := Plan(p.m, p.options, p.rpc, p.Discovered());
    PlanNames(p.m, p.options, p.rpc, p.Discovered());
    assert Requests(p.posts)[i] == plan[i];
    AskedByDirectReply(p, i);
  }

  /** A known method that was not asked is supported when discovery lists it, and missing when optional
      probing met a discovery that lists other methods only. */
  lemma UnaskedByDiscovery(p: Probe, n: string)
    requires p.Classified() && n in p.m.KnownMethods() && n !in p.Asked()
    ensures n in p.e.supported <==> n in p.Discovered()
    ensures n in p.e.missing <==> n !in p.Discovered() && p.options.probeOptionalMethods
  {
    hide WarningsOf, ReplyOf, Listed, Ascending, Plan;
    AskedIff(p, n);
  }

  /** What is asked, by the names on the wire: the five core methods with identifiers 1 to 5 and without
      parameters, and after them nothing but the known methods, with identifiers from 100 on. */
  lemma CoreOnTheWire(p: Probe, i: nat)
    requires p.Asks() && i < |p.posts|
    ensures i == 0 ==> p.posts[i].request == Post(p.rpc, "rpc.discover", Object([]), 1)
    ensures i == 1 ==> p.posts[i].request == Post(p.rpc, "getNetwork", Object([]), 2)
    ensures i == 2 ==> p.posts[i].request == Post(p.rpc, "getLatestLedger", Object([]), 3)
    ensures i == 3 ==> p.posts[i].request == Post(p.rpc, "getHealth", Object([]), 4)
    ensures i == 4 ==> p.posts[i].request == Post(p.rpc, "getVersionInfo", Object([]), 5)
    ensures i >= 5 ==>
      var q := p.posts[i].request;
      q.name in p.m.KnownMethods() && q == Post(p.rpc, q.name, SafeProbeParams(q.name), 95 + i)
  {
    hide Ascending, SafeProbeParams, ReplyOf, Listed;
    var plan, optional := Plan(p.m, p.options, p.rpc, p.Discovered()), OptionalMethods(p.m);
    OptionalMembers(p.m);
    assert Requests(p.posts)[i] == plan[i];
    if i < 5 {
      assert plan[i] == CorePlan(p.rpc)[i];
    } else {
      assert plan[i] == OptionalPlan(p.rpc, optional)[i - 5];
      assert optional[i - 5] in optional;
    }
  }

  lemma AskedIff(p: Probe, n: string)
    requires p.Asks()
    ensures AnswerTo(p.posts, n).Some? <==> n in p.Asked()
  {
    hide WarningsOf, ReplyOf, Listed, Ascending, Plan, OptionalMethods;
    var posts, optional := p.posts, OptionalMethods(p.m);
    var plan := Plan(p.m, p.options, p.rpc, p.Discovered());
    PlanNames(p.m, p.options, p.rpc, p.Discovered());
    AnsweredIffAsked(posts, n);
    OptionalMembers(p.m);
    assert forall j :: 0 <= j < |posts| ==> posts[j].request == plan[j];
    if n in CORE_SET {
      var j :| 0 <= j < |CORE| && CORE[j] == n;
      assert posts[j].request.name == n;
    } else if n in p.Asked() {
      assert n in optional;
      var j :| 0 <= j < |optional| && optional[j] == n;
      assert posts[|CORE| + j].request.name == n;
    }
  }

  /** A method is never both supported and missing, and the vendor extensions are exactly what
      discovery lists beyond the matrix. */
  lemma ProbeDisjoint(p: Probe)
    requires p.Classified()
    ensures p.e.supported !! p.e.missing
    ensures p.e.vendor == p.Discovered() - p.m.KnownMethods()
    ensures CORE_SET <= p.m.KnownMethods() ==> p.e.vendor !! p.e.supported + p.e.missing
  {
    hide WarningsOf, ReplyOf, Ascending, Plan, Listed;
    forall n
      ensures n in p.e.supported <==> Classify(p.m, p.options, p.Discovered(), p.posts, n) == Some(Supported)
      ensures n in p.e.missing <==> Classify(p.m, p.options, p.Discovered(), p.posts, n) == Some(Missing)
      ensures AnswerTo(p.posts, n).Some? <==> n in p.Asked()
    {
      AskedIff(p, n);
    }
  }

  /** With optional methods probed, the known and the core methods are classified, and nothing else;
      otherwise only the core methods and what discovery lists. */
  lemma ProbeCovers(p: Probe)
    requires p.Classified()
    ensures p.e.supported + p.e.missing == p.Decided()
  {
    forall n ensures n in p.e.supported + p.e.missing <==> n in p.Decided() {
      ClassifiedIff(p, n);
    }
  }

  lemma ClassifiedIff(p: Probe, n: string)
    requires p.Classified()
    ensures n in p.e.supported || n in p.e.missing <==>
      || n in CORE_SET
      || (n in p.m.KnownMethods() && (p.options.probeOptionalMethods || n in p.Discovered()))
  {
    hide WarningsOf, ReplyOf, Listed, Ascending, Plan;
    AskedIff(p, n);
    var verdict := Classify(p.m, p.options, p.Discovered(), p.posts, n);
    assert n in p.e.supported <==> verdict == Some(Supported);
    assert n in p.e.missing <==> verdict == Some(Missing);
    if verdict.Some? {
      assert verdict.value.Supported? || verdict.value.Missing?;
    }
  }

  /** "Method not found" for a required core method always ends in the verdict Incompatible, even if
      discovery lists the method. */
  lemma NotFoundIsIncompatible(p: Probe, i: nat)
    requires p.Classified() && i < |CORE| && CORE[i] in p.m.RequiredProbeMethods()
    requires p.posts[i].response.Success?
    requires var error := p.posts[i].response.value.Get("error"); error.Some? && SaysMethodNotFound(error.value)
    ensures Verdict(p.m, p.e.protocolVersion, Some(p.e)) == Incompatible
    ensures Finding(Error, MethodMissing(CORE[i])) in RawFindings(p.m, p.e.protocolVersion, Some(p.e))
  {
    hide WarningsOf, Listed, Ascending, Plan, SaysMethodNotFound, Verdict, RawFindings;
    assert p.posts[i] in p.posts;
    CoreByDirectReply(p, i);
    RequiredMethodMissing(p.m, p.e.protocolVersion, p.e, CORE[i]);
  }

  ghost predicate Denies(response: Result<Value, ProbeError>) {
    response.Success?
    && var error := response.value.Get("error");
    error.Some? && SaysMethodNotFound(error.value)
  }

  /** In terms of the endpoint: one that denies a required core method, whatever was said before, always
      ends up Incompatible. */
  lemma DenyingEndpointIsIncompatible(p: Probe, respond: (seq<Exchange>, Request) -> Result<Value, ProbeError>,
                                      before: seq<Exchange>, i: nat)
    requires p.Classified() && AnswersFrom(respond, before, p.posts + p.gets)
    requires i < |CORE| && CORE[i] in p.m.RequiredProbeMethods()
    requires forall log :: Denies(respond(log, CoreRequest(p.rpc, i)))
    ensures Verdict(p.m, p.e.protocolVersion, Some(p.e)) == Incompatible
  {
    hide WarningsOf, ReplyOf, Listed, Ascending, SaysMethodNotFound, Verdict, RawFindings, OptionalPlan, Classifies,
      CoreRequest, CORE;
    var xs := p.posts + p.gets;
    assert Requests(p.posts)[i] == CorePlan(p.rpc)[i] == CoreRequest(p.rpc, i);
    assert xs[i] == p.posts[i] && xs[i].response == respond(before + xs[..i], xs[i].request);
    assert Denies(respond(before + xs[..i], CoreRequest(p.rpc, i)));
    NotFoundIsIncompatible(p, i);
  }

  lemma WarningsAscend(p: Probe)
    requires p.Asks() && Warns(p.options, p.horizon, p.digest, p.posts, p.gets, p.e)
    ensures StrictlyAscending(p.e.warnings)
    ensures forall w :: w in WarningsOf(p.posts) ==> w in p.e.warnings
  {
    hide ReplyOf, Listed, Plan, Ascending, HorizonAdds, WarningsOf, StrictlyAscending;
    var warning :| HorizonAdds(p.gets, p.digest, p.e.horizon, warning)
      && p.e.warnings == Ascending(set w | w in WarningsOf(p.posts) + warning);
    AscendingAscends(set w | w in WarningsOf(p.posts) + warning);
  }

  lemma WarnedNotCompatible(m: Matrix, protocol: Option<nat>, e: Evidence)
    requires e.warnings != []
    ensures Verdict(m, protocol, Some(e)) != Compatible
  {
    hide IdentityMismatch, ProtocolMismatch, Matrix.RequiredProbeMethods, Worst, ProtocolLevel;
  }

  /** Every warning a reply carries is reported, the reports ascend without repetition, and any one
      of them keeps the verdict from being Compatible. */
  lemma WarningsReported(p: Probe, i: nat)
    requires p.Asks() && Warns(p.options, p.horizon, p.digest, p.posts, p.gets, p.e)
    requires i < |p.posts| && ReplyOf(p.posts[i]).value.warning.Some?
    ensures ReplyOf(p.posts[i]).value.warning.value in p.e.warnings
    ensures StrictlyAscending(p.e.warnings)
    ensures Verdict(p.m, p.e.protocolVersion, Some(p.e)) != Compatible
  {
    hide ReplyOf, Listed, Plan, Ascending, HorizonAdds, WarningsOf, StrictlyAscending, Verdict;
    WarningIn(p.posts, i);
    WarningsAscend(p);
    WarnedNotCompatible(p.m, p.e.protocolVersion, p.e);
  }

  lemma {:induction false} WarningFrom(posts: seq<Exchange>, w: string) returns (i: nat)
    requires AllAnswered(posts) && w in WarningsOf(posts)
    ensures i < |posts| && ReplyOf(posts[i]).value.warning == Some(w)
  {
    hide ReplyOf;
    if ReplyOf(posts[|posts| - 1]).value.warning == Some(w) {
      i := |posts| - 1;
    } else {
      i := WarningFrom(posts[..|posts| - 1], w);
    }
  }

  /** And nothing else is reported but one warning when the Horizon call fails. */
  lemma WarningsExplained(p: Probe, w: string)
    requires p.Asks() && Warns(p.options, p.horizon, p.digest, p.posts, p.gets, p.e)
    requires w in p.e.warnings
    ensures (exists i :: 0 <= i < |p.posts| && ReplyOf(p.posts[i]).value.warning == Some(w))
      || (p.e.horizon == None && exists error :: w == HorizonWarning(error))
  {
    hide ReplyOf, Listed, Plan, Ascending, WarningsOf, HorizonWarning, HorizonFrom;
    var warning :| HorizonAdds(p.gets, p.digest, p.e.horizon, warning)
      && p.e.warnings == Ascending(set w | w in WarningsOf(p.posts) + warning);
    if w in WarningsOf(p.posts) {
      var i := WarningFrom(p.posts, w);
    } else {
      assert w in warning;
    }
  }

  lemma {:induction false} WarningIn(posts: seq<Exchange>, i: nat)
    requires AllAnswered(posts) && i < |posts| && ReplyOf(posts[i]).value.warning.Some?
    ensures ReplyOf(posts[i]).value.warning.value in WarningsOf(posts)
  {
    if i < |posts| - 1 {
      WarningIn(posts[..|posts| - 1], i);
    }
  }

  /** A retention window worked out from the ledger numbers is never zero: only an endpoint that itself
      reports zero is found to keep nothing. */
  lemma NoRetentionIffReported(p: Probe)
    requires p.Asks() && Carries(p.digest, p.posts, p.e)
    ensures p.e.retentionWindow == Some(0) <==> NumberOf(ResultOf(p.posts[3]), RETENTION_FIELDS) == Some(0)
  {
    hide ReplyOf, Listed, Plan, Ascending, NumberOf, StringOf, LimitsIn;
    assert FieldsOf(p.e).retentionWindow == p.e.retentionWindow;
    if ResultOf(p.posts[3]).None? {
      assert NumberOf(None, RETENTION_FIELDS) == None by { NothingHasNoNumber(RETENTION_FIELDS); }
    }
  }

  lemma NothingHasNoNumber(names: seq<string>)
    ensures NumberOf(None, names) == None
  {
  }

  /** `validate`, as far as methods go: features only speak of known methods. */
  predicate FeaturesKnown(m: Matrix) {
    forall f :: f in m.features ==> f.required + f.optional <= m.KnownMethods()
  }

  /** What a feature gate finds missing is what the probe found missing exactly when the probe decided
      about every method of the feature; a method nobody asked about counts as missing too. In a matrix
      whose features speak of known methods only, a full probe decides about all of them, and another
      one about the core methods and what discovery lists. */
  lemma GateMissesWhatTheProbeMissedIff(p: Probe, f: Feature)
    requires p.Classified()
    ensures var d := Gate(f, p.e.protocolVersion, Some(p.e));
      && (d.missingRequired == f.required * p.e.missing <==> f.required <= p.Decided())
      && (d.missingOptional == f.optional * p.e.missing <==> f.optional <= p.Decided())
    ensures FeaturesKnown(p.m) && f in p.m.features ==>
      && (f.required <= p.Decided() <==> p.options.probeOptionalMethods || f.required <= CORE_SET + p.Discovered())
      && (f.optional <= p.Decided() <==> p.options.probeOptionalMethods || f.optional <= CORE_SET + p.Discovered())
  {
    ProbeCovers(p);
    ProbeDisjoint(p);
    hide Planned, Sorts, Listed, CORE_SET;
    GateMissing(f, p.e.protocolVersion, p.e);
    UndecidedIsMissing(f.required, p.e.supported, p.e.missing);
    UndecidedIsMissing(f.optional, p.e.supported, p.e.missing);
    if FeaturesKnown(p.m) && f in p.m.features {
      assert f.required + f.optional <= p.m.KnownMethods();
      assert f.required <= p.m.KnownMethods() && f.optional <= p.m.KnownMethods();
    }
  }

  lemma GateMissing(f: Feature, protocol: Option<nat>, e: Evidence)
    ensures var d := Gate(f, protocol, Some(e));
      d.missingRequired == f.required - e.supported && d.missingOptional == f.optional - e.supported
  {
  }

  lemma UndecidedIsMissing(methods: set<string>, supported: set<string>, missing: set<string>)
    requires supported !! missing
    ensures methods - supported == methods * missing <==> methods <= supported + missing
  {
    if methods - supported == methods * missing {
      forall n | n in methods ensures n in supported + missing {
        if n !in supported { assert n in methods - supported; }
      }
    }
  }

  lemma {:induction false} WorstIsAtLeast(ds: seq<Decision>, i: nat)
    requires i < |ds|
    ensures Worst(ds).Rank() >= ds[i].level.Rank()
  {
    if i < |ds| - 1 { WorstIsAtLeast(ds[..|ds| - 1], i); }
  }

  /** A probe that leaves out the optional methods makes a hard feature fail by not asking: the verdict is
      Incompatible whatever the endpoint supports. */
  lemma UnaskedHardFeature(p: Probe, f: Feature)
    requires p.Classified() && !p.options.probeOptionalMethods
    requires f in p.m.features && f.hard && !(f.required <= CORE_SET + p.Discovered())
    ensures Verdict(p.m, p.e.protocolVersion, Some(p.e)) == Incompatible
  {
    ProbeCovers(p);
    hide Planned, Sorts, Listed, CORE_SET, EndpointLevel, ProtocolLevel, Worst;
    var ds := Decisions(p.m.features, p.e.protocolVersion, Some(p.e));
    var i :| 0 <= i < |ds| && p.m.features[i] == f;
    var n :| n in f.required && n !in CORE_SET + p.Discovered();
    assert n !in p.Decided() && n in f.required - p.e.supported;
    assert ds[i] == Gate(f, p.e.protocolVersion, Some(p.e)) && ds[i].level == Incompatible;
    WorstIsAtLeast(ds, i);
  }
}
