/** What the audit reports, keeps apart, merges and counts, in terms of the files' names and contents. */
module AuditRules {
  import opened Audit
  import opened Domain
  import FindingRules
  import opened Json
  import JsonTree
  import opened Sorting
  import opened Strings
  import opened Verdicts
  import opened Wrappers

  // ---------------------------------------------------------------- what is kept apart

  /** One finding says what the other says, and is not milder. */
  ghost predicate Says(g: Finding, f: Finding) {
    && g.topic.Code() == f.topic.Code() && g.topic.Component() == f.topic.Component()
    && g.topic.Summary() == f.topic.Summary() && g.topic.Facts() == f.topic.Facts()
    && (f.severity == Error ==> g.severity == Error) && (f.severity == Warning ==> g.severity != Info)
  }

  /** Nothing a finding says is lost: code, component, summary and evidence are all in the report. */
  lemma NothingSaidIsLost(fs: seq<Finding>, f: Finding)
    requires f in fs
    ensures exists g :: g in Tidy(fs) && Says(g, f)
  {
    hide Tidy, Topic.Code, Topic.Component, Topic.Summary, Topic.Facts;
    TidyKeepsLevel(fs);
    assert KeptIn(f, Tidy(fs));
    var g :| g in Tidy(fs) && Repeats(f, g) && g.severity.Rank() >= f.severity.Rank();
    assert Says(g, f);
  }

  /** Each missing method and each warning of the probe stays a finding of its own. */
  lemma NamesStayApart(fs: seq<Finding>, a: string, b: string)
    requires a != b
    ensures Finding(Error, MethodMissing(a)) in fs && Finding(Error, MethodMissing(b)) in fs ==>
      exists g, h :: g in Tidy(fs) && h in Tidy(fs) && g != h
        && g.topic.Facts() == map["method" := a] && h.topic.Facts() == map["method" := b]
    ensures Finding(Warning, ProbeWarning(a)) in fs && Finding(Warning, ProbeWarning(b)) in fs ==>
      exists g, h :: g in Tidy(fs) && h in Tidy(fs) && g != h && g.topic.Summary() == a && h.topic.Summary() == b
  {
    hide Tidy, Topic.Summary, Topic.Facts;
    TextsOf(a);
    TextsOf(b);
    if Finding(Error, MethodMissing(a)) in fs && Finding(Error, MethodMissing(b)) in fs {
      var g := SaidFacts(fs, Finding(Error, MethodMissing(a)));
      var h := SaidFacts(fs, Finding(Error, MethodMissing(b)));
      assert map["method" := a]["method"] != map["method" := b]["method"];
    }
    if Finding(Warning, ProbeWarning(a)) in fs && Finding(Warning, ProbeWarning(b)) in fs {
      var g := SaidFacts(fs, Finding(Warning, ProbeWarning(a)));
      var h := SaidFacts(fs, Finding(Warning, ProbeWarning(b)));
    }
  }

  lemma TextsOf(name: string)
    ensures MethodMissing(name).Facts() == map["method" := name] && ProbeWarning(name).Summary() == name
  {
  }

  lemma SaidFacts(fs: seq<Finding>, f: Finding) returns (g: Finding)
    requires f in fs
    ensures g in Tidy(fs) && g.topic.Facts() == f.topic.Facts() && g.topic.Summary() == f.topic.Summary()
  {
    hide Tidy, Topic.Code, Topic.Component, Topic.Summary, Topic.Facts;
    NothingSaidIsLost(fs, f);
    g :| g in Tidy(fs) && Says(g, f);
  }

  /** No finding stands next to one that says the same, whatever their severities. */
  lemma NeighboursDiffer(fs: seq<Finding>, i: nat)
    requires i + 1 < |Tidy(fs)|
    ensures var a, b := Tidy(fs)[i].topic, Tidy(fs)[i + 1].topic;
      a.Code() != b.Code() || a.Component() != b.Component() || a.Summary() != b.Summary() || a.Facts() != b.Facts()
  {
    hide Tidy, Topic.Code, Topic.Component, Topic.Summary, Topic.Facts;
    TidyKeepsLevel(fs);
    var j := i + 1;
    assert !Repeats(Tidy(fs)[j], Tidy(fs)[i]);
  }

  /** Of two findings on one topic the worse is reported, in whichever order they come. */
  lemma WorseOfTwo(topic: Topic, a: Severity, b: Severity)
    requires a == Error || (a == Warning && b != Error) || b == Info
    ensures Tidy([Finding(a, topic), Finding(b, topic)]) == [Finding(a, topic)]
    ensures Tidy([Finding(b, topic), Finding(a, topic)]) == [Finding(a, topic)]
  {
    hide Topic.Code, Topic.Component, Topic.Summary, Topic.Facts, Tidy;
    OneIsKept([Finding(a, topic), Finding(b, topic)], topic, a);
    OneIsKept([Finding(b, topic), Finding(a, topic)], topic, a);
  }

  lemma OneIsKept(fs: seq<Finding>, topic: Topic, worst: Severity)
    requires |fs| == 2 && fs[0].topic == fs[1].topic == topic
    requires Finding(worst, topic) in fs && forall f :: f in fs ==> f.severity.Rank() <= worst.Rank()
    ensures Tidy(fs) == [Finding(worst, topic)]
  {
    hide Topic.Code, Topic.Component, Topic.Summary, Topic.Facts, Tidy;
    var tidy := Tidy(fs);
    TidyInvents(fs);
    if |tidy| == 2 {
      assert tidy[0] in tidy && tidy[1] in tidy;
      NeighboursDiffer(fs, 0);
    }
    NothingSaidIsLost(fs, Finding(worst, topic));
    assert tidy != [] && tidy[0] in tidy;
  }

  lemma TidyInvents(fs: seq<Finding>)
    ensures |Tidy(fs)| <= |fs| && forall g :: g in Tidy(fs) ==> g in fs
  {
    hide AuditOrder, Repeats;
    TidyKeepsLevel(fs);
  }

  // ---------------------------------------------------------------- the order of the report

  lemma {:induction false} DedupKeepsOrder<T>(le: (T, T) -> bool, same: (T, T) -> bool, s: seq<T>)
    requires Sorted(le, s)
    ensures Sorted(le, Dedup(same, s))
  {
    if |s| > 1 {
      var init, last := s[..|s| - 1], s[|s| - 1];
      var kept := Dedup(same, init);
      DedupKeepsOrder(le, same, init);
      forall i | 0 <= i < |kept| ensures le(kept[i], last) {
        assert kept[i] in init;
      }
    }
  }

  /** Errors come first, then warnings, then the rest; among equals the codes ascend, and for one code the
      summaries. */
  lemma TidyIsOrdered(fs: seq<Finding>, i: nat, j: nat)
    requires i < j < |Tidy(fs)|
    ensures var a, b := Tidy(fs)[i], Tidy(fs)[j];
      && (b.severity == Error ==> a.severity == Error)
      && (a.severity == Info ==> b.severity == Info)
      && (a.severity == b.severity ==> AtMost(a.topic.Code(), b.topic.Code()))
      && (a.severity == b.severity && a.topic.Code() == b.topic.Code() ==> AtMost(a.topic.Summary(), b.topic.Summary()))
  {
    var a, b := Tidy(fs)[i], Tidy(fs)[j];
    assert AuditOrder(a, b) by {
      hide AuditOrder, Topic.Code, Topic.Summary, Repeats;
      AuditOrderTotal();
      StableSortSorted(AuditOrder, fs);
      DedupKeepsOrder(AuditOrder, Repeats, StableSort(AuditOrder, fs));
    }
    AtMostReflexive(a.topic.Code());
    hide Topic.Code, Topic.Summary, AtMost, Tidy;
  }

  // ---------------------------------------------------------------- which files are looked at

  /** A file name with something in front of the ending. */
  ghost predicate EndsIn(name: string, ending: string) {
    exists stem :: stem != "" && name == stem + "." + ending
  }

  lemma HasExtensionIff(name: string, ending: string)
    requires '.' !in ending
    ensures HasExtension(name, ending) <==> EndsIn(name, ending)
  {
    if HasExtension(name, ending) {
      var stem := name[..|name| - |ending| - 1];
      assert name == stem + [name[|stem|]] + name[|stem| + 1..];
    }
    if stem :| stem != "" && name == stem + "." + ending {
      AfterLastStartsAt(stem + ".", ending, '.');
    }
  }

  /** The file is a JSON file whose absolute path, letter case aside, speaks of a transaction. */
  ghost predicate SpeaksOfTransaction(f: ScannedFile) {
    && EndsIn(f.Name(), "json")
    && var lower := AsciiLower(Join(f.path, "/"));
    Occurs(lower, "transaction") || Occurs(lower, "/tx_") || Occurs(lower, "/tx-")
  }

  lemma IsFixtureIff(f: ScannedFile)
    ensures f.IsFixture() <==> SpeaksOfTransaction(f)
    ensures f.IsWasm() <==> EndsIn(f.Name(), "wasm")
  {
    HasExtensionIff(f.Name(), "json");
    HasExtensionIff(f.Name(), "wasm");
    hide HasExtension, EndsIn, Contains, Occurs, AsciiLower, Join;
    var lower := AsciiLower(Join(f.path, "/"));
    ContainsIff(lower, "transaction");
    ContainsIff(lower, "/tx_");
    ContainsIff(lower, "/tx-");
  }

  /** One more file counts under its name: everywhere it belongs, once. */
  lemma InventoryGrows(files: seq<ScannedFile>, f: ScannedFile)
    ensures InventoryOf([]) == Inventory(0, 0, 0, 0, 0, 0)
    ensures var before, after := InventoryOf(files), InventoryOf(files + [f]);
      && after.files == before.files + 1
      && after.cargo - before.cargo == (if f.Name() == "Cargo.toml" then 1 else 0)
      && after.wasm - before.wasm == (if EndsIn(f.Name(), "wasm") then 1 else 0)
      && after.fixtures - before.fixtures == (if SpeaksOfTransaction(f) then 1 else 0)
      && after.plugins - before.plugins == (if f.Name() == "starforge-plugin.toml" then 1 else 0)
      && after.manifests - before.manifests == (if f.Name() == "starforge.compatibility.toml" then 1 else 0)
  {
    hide ScannedFile.IsFixture, ScannedFile.IsWasm, EndsIn, SpeaksOfTransaction, ScannedFile.Name;
    IsFixtureIff(f);
    assert (files + [f])[..|files|] == files;
  }

  lemma {:induction false} NoneCounted(files: seq<ScannedFile>)
    ensures InventoryOf(files).cargo == 0 <==> forall f :: f in files ==> f.Name() != "Cargo.toml"
    ensures InventoryOf(files).wasm == 0 <==> forall f :: f in files ==> !EndsIn(f.Name(), "wasm")
  {
    hide InventoryOf, EndsIn, ScannedFile.Name;
    if files == [] {
      InventoryGrows(files, ScannedFile([], "", [], [], [], [], None));
    } else {
      var init, last := files[..|files| - 1], files[|files| - 1];
      NoneCounted(init);
      InventoryGrows(init, last);
      assert files == init + [last];
      assert forall f :: f in files <==> f in init || f == last;
    }
  }

  // ---------------------------------------------------------------- what is found

  /** A file is inspected under every name test it meets. */
  ghost predicate FoundIn(m: Matrix, f: ScannedFile, x: Finding) {
    || (f.Name() == "Cargo.toml" && x in f.cargo)
    || (f.Name() == "starforge-plugin.toml" && x in f.plugin)
    || (f.Name() == "starforge.compatibility.toml" && x in f.manifest)
    || (EndsIn(f.Name(), "wasm") && x in f.wasm)
    || (SpeaksOfTransaction(f) && f.json == None && x == MalformedOf(f))
    || (SpeaksOfTransaction(f) && f.json.Some? && exists v: nat ::
         Targets(m, f.json.value, v) && x == Unfit(f, v))
  }

  function MalformedOf(f: ScannedFile): Finding {
    Finding(Error, Inspection("fixture.transaction_malformed", "fixture",
                              "A transaction fixture is not valid JSON.", map["path" := f.relative]))
  }

  function Unfit(f: ScannedFile, v: nat): Finding {
    Finding(Error, Inspection("fixture.protocol_incompatible", "fixture",
                              "A transaction fixture targets incompatible protocol " + Decimal(v) + ".",
                              map["path" := f.relative]))
  }

  /** The first version in the tree is one that the matrix rules out: outside its range, declared
      incompatible, or outside the range of a hard feature. */
  ghost predicate Targets(m: Matrix, json: Value, v: nat) {
    && JsonTree.FindProtocolVersion(json) == Some(v)
    && (!(m.xdr.minimum <= v <= m.xdr.maximum) || m.StatusOf(v) == Incompatible
        || exists f :: f in m.features && f.hard && !(f.protocol.minimum <= v <= f.protocol.maximum))
  }

  /** The verdict on a protocol alone. */
  lemma ProtocolVerdict(m: Matrix, v: nat)
    ensures Verdict(m, Some(v), None) == Incompatible <==>
      !(m.xdr.minimum <= v <= m.xdr.maximum) || m.StatusOf(v) == Incompatible
      || exists f :: f in m.features && f.hard && !(f.protocol.minimum <= v <= f.protocol.maximum)
  {
    var ds := Decisions(m.features, Some(v), None);
    FindingRules.ProtocolRules(m, Some(v), v);
    FindingRules.WorstIsReached(ds);
    forall i | 0 <= i < |ds|
      ensures ds[i].level == Incompatible
        <==> m.features[i].hard && !(m.features[i].protocol.minimum <= v <= m.features[i].protocol.maximum)
    {
      FindingRules.GateWithoutEvidence(m.features[i], Some(v));
    }
    if f :| f in m.features && f.hard && !(f.protocol.minimum <= v <= f.protocol.maximum) {
      var i :| 0 <= i < |m.features| && m.features[i] == f;
      assert ds[i].level == Incompatible;
    }
    hide Matrix.StatusOf, Worst;
  }

  lemma FixtureFindingsIff(m: Matrix, f: ScannedFile, x: Finding)
    ensures x in FixtureFindings(m, f.relative, f.json) <==>
      || (f.json == None && x == MalformedOf(f))
      || (f.json.Some? && exists v: nat :: Targets(m, f.json.value, v) && x == Unfit(f, v))
  {
    hide Verdict, JsonTree.FindProtocolVersion, Matrix.StatusOf, Unfit, FixtureIncompatible;
    if f.json.Some? {
      var version := JsonTree.FindProtocolVersion(f.json.value);
      if version.Some? {
        var v := version.value;
        ProtocolVerdict(m, v);
        assert Targets(m, f.json.value, v) <==> Verdict(m, version, None) == Incompatible;
        UnfitIs(f, v);
        hide Targets;
        forall w: nat | Targets(m, f.json.value, w) ensures w == v { TargetsFound(m, f.json.value, w); }
      } else {
        forall w: nat ensures !Targets(m, f.json.value, w) { }
      }
    }
  }

  lemma UnfitIs(f: ScannedFile, v: nat)
    ensures Unfit(f, v) == Finding(Error, FixtureIncompatible(f.relative, v))
  {
  }

  lemma TargetsFound(m: Matrix, json: Value, v: nat)
    requires Targets(m, json, v)
    ensures JsonTree.FindProtocolVersion(json) == Some(v)
  {
  }

  lemma FileFindingsIff(m: Matrix, f: ScannedFile, x: Finding)
    ensures x in FileFindings(m, f) <==> FoundIn(m, f, x)
  {
    IsFixtureIff(f);
    FixtureFindingsIff(m, f, x);
    hide ScannedFile.IsFixture, ScannedFile.IsWasm, EndsIn, SpeaksOfTransaction, ScannedFile.Name, FixtureFindings,
      Targets, MalformedOf, Unfit;
  }

  lemma {:induction false} AllFileFindingsIff(m: Matrix, files: seq<ScannedFile>, x: Finding)
    ensures x in AllFileFindings(m, files) <==> exists f :: f in files && FoundIn(m, f, x)
  {
    hide FoundIn, FileFindings;
    if files != [] {
      var init, last := files[..|files| - 1], files[|files| - 1];
      AllFileFindingsIff(m, init, x);
      FileFindingsIff(m, last, x);
      assert files == init + [last];
      assert forall f :: f in files <==> f in init || f == last;
    }
  }

  /** The audit finds what its files give, what is missing among them, and what the evaluator finds in the
      endpoint evidence or, without any, that there is none. */
  lemma AuditFindingsIff(m: Matrix, files: seq<ScannedFile>, endpoint: Option<Evidence>, x: Finding)
    ensures x in AuditFindings(m, files, endpoint) <==>
      || (exists f :: f in files && FoundIn(m, f, x))
      || (x == Finding(Warning, CargoManifestMissing) && forall f :: f in files ==> f.Name() != "Cargo.toml")
      || (x == Finding(Info, WasmMissing) && forall f :: f in files ==> !EndsIn(f.Name(), "wasm"))
      || (endpoint.Some? && x in RawFindings(m, endpoint.value.protocolVersion, endpoint))
      || (endpoint == None && x == Finding(Warning, EvidenceMissing))
  {
    hide AllFileFindings, InventoryOf, EndpointReport, RawFindings, FoundIn, EndsIn, ScannedFile.Name;
    var own, inventory := AllFileFindings(m, files), InventoryOf(files);
    var cargo := if inventory.cargo == 0 then [Finding(Warning, CargoManifestMissing)] else [];
    var wasm := if inventory.wasm == 0 then [Finding(Info, WasmMissing)] else [];
    var last := if endpoint.Some? then EndpointReport(m, endpoint.value) else [Finding(Warning, EvidenceMissing)];
    assert x in AuditFindings(m, files, endpoint) <==> x in own || x in cargo || x in wasm || x in last;
    AllFileFindingsIff(m, files, x);
    NoneCounted(files);
    if endpoint.Some? { EndpointReportMembers(m, endpoint.value); }
  }
}
