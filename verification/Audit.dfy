/** The compatibility audit: findings of the project files, of the inventory and of the endpoint
    evaluation are sorted, freed of repetitions and folded into a level. */
module Audit {
  import opened Domain
  import opened Json
  import JsonTree
  import opened Sorting
  import opened Strings
  import opened Verdicts
  import opened Wrappers

  /** One project file: the components of its absolute path (the first one is empty), its path below
      the audited root, and what each inspection would report of its contents. A JSON fixture is
      inspected from the value it parses to, if it parses. */
  datatype ScannedFile = ScannedFile(
    path: seq<string>,
    relative: string,
    cargo: seq<Finding>,
    plugin: seq<Finding>,
    manifest: seq<Finding>,
    wasm: seq<Finding>,
    json: Option<Value>)
  {
    function Name(): string {
      if path == [] then "" else path[|path| - 1]
    }

    predicate IsCargoManifest() { Name() == "Cargo.toml" }

    predicate IsPluginManifest() { Name() == "starforge-plugin.toml" }

    predicate IsCompatibilityManifest() { Name() == "starforge.compatibility.toml" }

    predicate IsWasm() { HasExtension(Name(), "wasm") }

    predicate IsFixture() {
      && HasExtension(Name(), "json")
      && var lower := AsciiLower(Join(path, "/"));
      Contains(lower, "transaction") || Contains(lower, "/tx_") || Contains(lower, "/tx-")
    }
  }

  /** `Path::extension`: what follows the last dot, unless that dot starts the name. */
  predicate HasExtension(name: string, extension: string) {
    var last := AfterLast(name, '.');
    last == extension && |last| + 1 < |name|
  }

  datatype Inventory = Inventory(files: nat, cargo: nat, wasm: nat, fixtures: nat, plugins: nat, manifests: nat)

  datatype AuditReport = AuditReport(
    level: Level,
    inventory: Inventory,
    endpointStatus: Option<Status>,
    findings: seq<Finding>)

  datatype Threshold = Never | AtIncompatible | AtDegraded

  predicate ShouldFail(report: AuditReport, threshold: Threshold) {
    match threshold
    case Never => false
    case AtIncompatible => report.level == Incompatible
    case AtDegraded => report.level != Compatible
  }

  // ---------------------------------------------------------------- the findings of one file

  function MalformedFixture(relative: string): Topic {
    Inspection("fixture.transaction_malformed", "fixture",
               "A transaction fixture is not valid JSON.", map["path" := relative])
  }

  function FixtureIncompatible(relative: string, protocol: nat): Topic {
    Inspection("fixture.protocol_incompatible", "fixture",
               "A transaction fixture targets incompatible protocol " + Decimal(protocol) + ".",
               map["path" := relative])
  }

  /** A fixture is an error when it is no JSON, or when the protocol it targets evaluates to
      Incompatible on its own. */
  function FixtureFindings(m: Matrix, relative: string, json: Option<Value>): seq<Finding> {
    if json.None? then [Finding(Error, MalformedFixture(relative))] else
      var protocol := JsonTree.FindProtocolVersion(json.value);
      if protocol.Some? && Verdict(m, protocol, None) == Incompatible
      then [Finding(Error, FixtureIncompatible(relative, protocol.value))] else []
  }

  function FileFindings(m: Matrix, f: ScannedFile): seq<Finding> {
    (if f.IsCargoManifest() then f.cargo else [])
    + (if f.IsPluginManifest() then f.plugin else [])
    + (if f.IsCompatibilityManifest() then f.manifest else [])
    + (if f.IsWasm() then f.wasm else [])
    + (if f.IsFixture() then FixtureFindings(m, f.relative, f.json) else [])
  }

  function AllFileFindings(m: Matrix, files: seq<ScannedFile>): seq<Finding> {
    if files == [] then []
    else AllFileFindings(m, files[..|files| - 1]) + FileFindings(m, files[|files| - 1])
  }

  function One(b: bool): nat { if b then 1 else 0 }

  function Counted(i: Inventory, f: ScannedFile): Inventory {
    Inventory(i.files + 1, i.cargo + One(f.IsCargoManifest()), i.wasm + One(f.IsWasm()),
              i.fixtures + One(f.IsFixture()), i.plugins + One(f.IsPluginManifest()),
              i.manifests + One(f.IsCompatibilityManifest()))
  }

  function InventoryOf(files: seq<ScannedFile>): Inventory {
    if files == [] then Inventory(0, 0, 0, 0, 0, 0)
    else Counted(InventoryOf(files[..|files| - 1]), files[|files| - 1])
  }

  /** Everything the audit finds, before sorting. */
  function AuditFindings(m: Matrix, files: seq<ScannedFile>, endpoint: Option<Evidence>): seq<Finding> {
    AllFileFindings(m, files)
    + (if InventoryOf(files).cargo == 0 then [Finding(Warning, CargoManifestMissing)] else [])
    + (if InventoryOf(files).wasm == 0 then [Finding(Info, WasmMissing)] else [])
    + (if endpoint.Some? then EndpointReport(m, endpoint.value) else [Finding(Warning, EvidenceMissing)])
  }

  function EndpointReport(m: Matrix, e: Evidence): seq<Finding> {
    StableSort(ReportOrder, RawFindings(m, e.protocolVersion, Some(e)))
  }

  // ---------------------------------------------------------------- sorting, repetitions, level

  predicate AuditOrder(a: Finding, b: Finding) {
    || a.severity.Rank() > b.severity.Rank()
    || (a.severity == b.severity && a.topic.Code() != b.topic.Code() && AtMost(a.topic.Code(), b.topic.Code()))
    || (a.severity == b.severity && a.topic.Code() == b.topic.Code() && AtMost(a.topic.Summary(), b.topic.Summary()))
  }

  /** Two findings are repetitions of each other whatever their severities are. */
  predicate Repeats(a: Finding, b: Finding) {
    && a.topic.Code() == b.topic.Code()
    && a.topic.Component() == b.topic.Component()
    && a.topic.Summary() == b.topic.Summary()
    && a.topic.Facts() == b.topic.Facts()
  }

  function Tidy(fs: seq<Finding>): seq<Finding> {
    Dedup(Repeats, StableSort(AuditOrder, fs))
  }

  function SeverityLevel(s: Severity): Level {
    match s
    case Error => Incompatible
    case Warning => Degraded
    case Info => Compatible
  }

  function FoldLevel(fs: seq<Finding>): Level {
    if fs == [] then Compatible
    else FoldLevel(fs[..|fs| - 1]).Merge(SeverityLevel(fs[|fs| - 1].severity))
  }

  ghost predicate HasWarning(fs: seq<Finding>) {
    exists f :: f in fs && f.severity == Warning
  }

  lemma {:induction false} FoldLevelMeaning(fs: seq<Finding>)
    ensures FoldLevel(fs) == if HasError(fs) then Incompatible else if HasWarning(fs) then Degraded else Compatible
  {
    if fs != [] {
      var init, last := fs[..|fs| - 1], fs[|fs| - 1];
      FoldLevelMeaning(init);
      assert fs == init + [last];
      assert forall f :: f in fs <==> f in init || f == last;
    }
  }

  lemma AuditOrderTotal()
    ensures TotalPreorder(AuditOrder)
  {
    hide Topic.Code, Topic.Summary;
    forall x, y ensures AuditOrder(x, y) || AuditOrder(y, x) {
      AtMostTotal(x.topic.Code(), y.topic.Code());
      AtMostTotal(x.topic.Summary(), y.topic.Summary());
    }
    forall x, y, z | AuditOrder(x, y) && AuditOrder(y, z) ensures AuditOrder(x, z) {
      AuditOrderTransitive(x, y, z);
    }
  }

  lemma AuditOrderTransitive(x: Finding, y: Finding, z: Finding)
    requires AuditOrder(x, y) && AuditOrder(y, z)
    ensures AuditOrder(x, z)
  {
    hide Topic.Code, Topic.Summary;
    var a, b, c := x.topic.Code(), y.topic.Code(), z.topic.Code();
    if x.severity == y.severity == z.severity {
      if a == b == c {
        AtMostTransitive(x.topic.Summary(), y.topic.Summary(), z.topic.Summary());
      } else if a != b && b != c {
        AtMostTransitive(a, b, c);
        if a == c { AtMostAntisymmetric(a, b); }
      }
    }
  }

  /** A finding is kept, as itself or as a repetition that is at least as severe. */
  ghost predicate KeptIn(f: Finding, kept: seq<Finding>) {
    exists g :: g in kept && Repeats(f, g) && g.severity.Rank() >= f.severity.Rank()
  }

  ghost predicate AllKeptIn(fs: seq<Finding>, kept: seq<Finding>) {
    forall f {:trigger KeptIn(f, kept)} :: f in fs ==> KeptIn(f, kept)
  }

  lemma KeptInMore(fs: seq<Finding>, kept: seq<Finding>, more: Finding)
    requires AllKeptIn(fs, kept)
    ensures AllKeptIn(fs, kept + [more])
  {
    forall f | f in fs ensures KeptIn(f, kept + [more]) {
      assert KeptIn(f, kept);
      var g :| g in kept && Repeats(f, g) && g.severity.Rank() >= f.severity.Rank();
      assert g in kept + [more];
    }
  }

  lemma SeveritySorted(a: Finding, b: Finding)
    requires AuditOrder(a, b)
    ensures a.severity.Rank() >= b.severity.Rank()
  {
  }

  lemma SortedPrefix(s: seq<Finding>)
    requires Sorted(AuditOrder, s) && |s| > 1
    ensures Sorted(AuditOrder, s[..|s| - 1])
    ensures s[|s| - 2].severity.Rank() >= s[|s| - 1].severity.Rank()
  {
    SeveritySorted(s[|s| - 2], s[|s| - 1]);
  }

  lemma KeepsItself(f: Finding, kept: seq<Finding>)
    requires kept != [] && Repeats(f, kept[|kept| - 1]) && kept[|kept| - 1].severity.Rank() >= f.severity.Rank()
    ensures KeptIn(f, kept)
  {
    assert kept[|kept| - 1] in kept;
  }

  /** In a sorted list every finding survives, as itself or as an earlier repetition that is at least
      as severe. */
  lemma {:induction false} DedupKeeps(s: seq<Finding>)
    requires Sorted(AuditOrder, s)
    ensures s != [] ==> AllKeptIn(s, Dedup(Repeats, s))
    ensures s != [] ==>
        var r := Dedup(Repeats, s); r != [] && s[|s| - 1].severity.Rank() <= r[|r| - 1].severity.Rank()
  {
    hide AllKeptIn, KeptIn, Repeats, Sorted, AuditOrder;
    if |s| == 1 {
      RepeatsItself(s[0]);
      KeepsItself(s[0], s);
      AllKept(s);
    } else if |s| > 1 {
      var init, last := s[..|s| - 1], s[|s| - 1];
      var kept := Dedup(Repeats, init);
      SortedPrefix(s);
      DedupKeeps(init);
      if Repeats(last, kept[|kept| - 1]) {
        KeepsItself(last, kept);
        KeptInSplit(init, last, kept);
      } else {
        KeptInMore(init, kept, last);
        RepeatsItself(last);
        KeepsItself(last, kept + [last]);
        KeptInSplit(init, last, kept + [last]);
      }
      assert init + [last] == s;
    }
  }

  lemma AllKept(s: seq<Finding>)
    requires |s| == 1 && KeptIn(s[0], s)
    ensures AllKeptIn(s, s)
  {
  }

  lemma RepeatsItself(f: Finding)
    ensures Repeats(f, f)
  {
  }

  lemma KeptInSplit(init: seq<Finding>, last: Finding, kept: seq<Finding>)
    requires AllKeptIn(init, kept) && KeptIn(last, kept)
    ensures AllKeptIn(init + [last], kept)
  {
  }

  /** Sorting and dropping repetitions changes the list but not the level, loses no finding without
      keeping one at least as severe, and invents none. */
  lemma TidyKeepsLevel(fs: seq<Finding>)
    ensures FoldLevel(Tidy(fs)) == FoldLevel(fs) != Unknown
    ensures forall g :: g in Tidy(fs) ==> g in fs
    ensures AllKeptIn(fs, Tidy(fs))
    ensures NoRepetition(Repeats, Tidy(fs))
  {
    hide AuditOrder, Repeats, Dedup, StableSort, FoldLevel, KeptIn, NoRepetition;
    var s := StableSort(AuditOrder, fs);
    AuditOrderTotal();
    StableSortSorted(AuditOrder, fs);
    DedupHasNoRepetition(Repeats, s);
    forall f ensures f in s <==> f in fs {
      assert f in multiset(s) <==> f in multiset(fs);
    }
    DedupKeeps(s);
    FoldLevelMeaning(fs);
    FoldLevelMeaning(Tidy(fs));
    SameLevel(fs, Tidy(fs));
  }

  /** Lists with the same worst severities have the same level. */
  lemma SameLevel(fs: seq<Finding>, gs: seq<Finding>)
    requires forall g :: g in gs ==> g in fs
    requires AllKeptIn(fs, gs)
    ensures HasError(gs) == HasError(fs)
    ensures HasError(fs) || HasWarning(gs) == HasWarning(fs)
  {
    hide Repeats;
    if f :| f in fs && f.severity == Error {
      assert KeptIn(f, gs);
    }
    if f :| f in fs && f.severity == Warning {
      assert KeptIn(f, gs);
    }
  }

  // ---------------------------------------------------------------- the audit

  method AuditAt(m: Matrix, files: seq<ScannedFile>, endpoint: Option<Evidence>) returns (report: AuditReport)
    ensures report.findings == Tidy(AuditFindings(m, files, endpoint))
    ensures report.level == FoldLevel(report.findings)
    ensures report.inventory == InventoryOf(files)
    ensures report.endpointStatus.Some? <==> endpoint.Some?
    ensures endpoint.Some? ==> var protocol := endpoint.value.protocolVersion;
      report.endpointStatus.value == Status(Verdict(m, protocol, endpoint), protocol, endpoint,
                                            Decisions(m.features, protocol, endpoint),
                                            EndpointReport(m, endpoint.value))
  {
    hide AllFileFindings, InventoryOf, Verdict, RawFindings, StableSort, Dedup, AuditOrder, Repeats, FoldLevel,
      Decisions, ReportOrder;
    var inventory, findings := ScanFiles(m, files);
    ghost var own := findings;
    if inventory.cargo == 0 {
      findings := findings + [Finding(Warning, CargoManifestMissing)];
    }
    assert findings == own + (if inventory.cargo == 0 then [Finding(Warning, CargoManifestMissing)] else []);
    own := findings;
    if inventory.wasm == 0 {
      findings := findings + [Finding(Info, WasmMissing)];
    }
    assert findings == own + (if inventory.wasm == 0 then [Finding(Info, WasmMissing)] else []);
    var status: Option<Status> := None;
    if endpoint.Some? {
      var evaluated := Evaluate(m, endpoint.value.protocolVersion, endpoint);
      status := Some(evaluated);
      findings := findings + evaluated.findings;
    } else {
      findings := findings + [Finding(Warning, EvidenceMissing)];
    }
    findings := Tidy(findings);
    report := AuditReport(FoldLevel(findings), inventory, status, findings);
  }

  method ScanFiles(m: Matrix, files: seq<ScannedFile>) returns (inventory: Inventory, findings: seq<Finding>)
    ensures inventory == InventoryOf(files)
    ensures findings == AllFileFindings(m, files)
  {
    hide ScannedFile.IsCargoManifest, ScannedFile.IsPluginManifest, ScannedFile.IsCompatibilityManifest,
      ScannedFile.IsWasm, ScannedFile.IsFixture, FileFindings;
    inventory, findings := Inventory(0, 0, 0, 0, 0, 0), [];
    for i := 0 to |files|
      invariant inventory == InventoryOf(files[..i])
      invariant findings == AllFileFindings(m, files[..i])
    {
      assert files[..i + 1][..i] == files[..i];
      inventory, findings := InspectFile(m, files[i], inventory, findings);
    }
    assert files[..|files|] == files;
  }

  /** One round of the loop over the project files. */
  method InspectFile(m: Matrix, f: ScannedFile, inventory0: Inventory, findings0: seq<Finding>)
    returns (inventory: Inventory, findings: seq<Finding>)
    ensures inventory == Counted(inventory0, f)
    ensures findings == findings0 + FileFindings(m, f)
  {
    hide ScannedFile.IsCargoManifest, ScannedFile.IsPluginManifest, ScannedFile.IsCompatibilityManifest,
      ScannedFile.IsWasm, ScannedFile.IsFixture, FixtureFindings;
    inventory := inventory0.(files := inventory0.files + 1);
    var own: seq<Finding> := [];
    if f.IsCargoManifest() {
      inventory := inventory.(cargo := inventory.cargo + 1);
      own := f.cargo;
    }
    if f.IsPluginManifest() {
      inventory := inventory.(plugins := inventory.plugins + 1);
      own := own + f.plugin;
    } else {
      assert own == own + [];
    }
    if f.IsCompatibilityManifest() {
      inventory := inventory.(manifests := inventory.manifests + 1);
      own := own + f.manifest;
    } else {
      assert own == own + [];
    }
    if f.IsWasm() {
      inventory := inventory.(wasm := inventory.wasm + 1);
      own := own + f.wasm;
    } else {
      assert own == own + [];
    }
    if f.IsFixture() {
      inventory := inventory.(fixtures := inventory.fixtures + 1);
      own := own + FixtureFindings(m, f.relative, f.json);
    } else {
      assert own == own + [];
    }
    findings := findings0 + own;
  }

  /** A level Compatible is earned: every file finding is informational, a Cargo manifest was found,
      and endpoint evidence was given that itself evaluates to Compatible. Nothing less suffices. */
  lemma CompatibleAudit(m: Matrix, files: seq<ScannedFile>, endpoint: Option<Evidence>)
    ensures FoldLevel(Tidy(AuditFindings(m, files, endpoint))) == Compatible <==>
      && (forall f :: f in AllFileFindings(m, files) ==> f.severity == Info)
      && InventoryOf(files).cargo > 0
      && endpoint.Some?
      && Verdict(m, endpoint.value.protocolVersion, endpoint) == Compatible
  {
    hide Verdict, RawFindings, StableSort, AllFileFindings, InventoryOf, FoldLevel, Tidy, ReportOrder, Sorted, Repeats;
    var fs, own := AuditFindings(m, files, endpoint), AllFileFindings(m, files);
    TidyKeepsLevel(fs);
    FoldLevelMeaning(fs);
    var cargo := if InventoryOf(files).cargo == 0 then [Finding(Warning, CargoManifestMissing)] else [];
    var wasm := if InventoryOf(files).wasm == 0 then [Finding(Info, WasmMissing)] else [];
    var last := if endpoint.Some? then EndpointReport(m, endpoint.value) else [Finding(Warning, EvidenceMissing)];
    if endpoint.Some? {
      ReportAgreesWithVerdict(m, endpoint.value.protocolVersion, endpoint);
    }
    AuditParts(own, cargo, wasm, last);
  }

  lemma AuditParts(own: seq<Finding>, cargo: seq<Finding>, wasm: seq<Finding>, last: seq<Finding>)
    requires forall f :: f in wasm ==> f.severity == Info
    requires forall f :: f in cargo + last ==> f.severity != Info
    ensures !HasError(own + cargo + wasm + last) && !HasWarning(own + cargo + wasm + last) <==>
      (forall f :: f in own ==> f.severity == Info) && cargo == [] && last == []
  {
    var all := own + cargo + wasm + last;
    assert forall f :: f in all <==> f in own || f in cargo || f in wasm || f in last;
    if cargo != [] { assert cargo[0] in cargo + last && cargo[0] in all; }
    if last != [] { assert last[0] in last && last[0] in cargo + last && last[0] in all; }
  }

  lemma EndpointReportMembers(m: Matrix, e: Evidence)
    ensures forall f :: f in EndpointReport(m, e) <==> f in RawFindings(m, e.protocolVersion, Some(e))
  {
    hide RawFindings, ReportOrder;
    var fs := RawFindings(m, e.protocolVersion, Some(e));
    ReportOrderTotal();
    StableSortSorted(ReportOrder, fs);
    forall f ensures f in EndpointReport(m, e) <==> f in fs {
      assert f in multiset(EndpointReport(m, e)) <==> f in multiset(fs);
    }
  }

  /** An audit is Incompatible exactly when a file or the endpoint has an error finding. */
  lemma IncompatibleAudit(m: Matrix, files: seq<ScannedFile>, endpoint: Option<Evidence>)
    ensures FoldLevel(Tidy(AuditFindings(m, files, endpoint))) == Incompatible <==>
      || HasError(AllFileFindings(m, files))
      || (endpoint.Some? && HasError(RawFindings(m, endpoint.value.protocolVersion, endpoint)))
  {
    hide RawFindings, AllFileFindings, InventoryOf, FoldLevel, Tidy, EndpointReport;
    var fs, own := AuditFindings(m, files, endpoint), AllFileFindings(m, files);
    TidyKeepsLevel(fs);
    FoldLevelMeaning(fs);
    var inventory := InventoryFindings(InventoryOf(files));
    var last := if endpoint.Some? then EndpointReport(m, endpoint.value) else [Finding(Warning, EvidenceMissing)];
    assert fs == own + inventory + last;
    if endpoint.Some? {
      EndpointReportMembers(m, endpoint.value);
    }
    ErrorParts(own, inventory, last);
  }

  function InventoryFindings(i: Inventory): seq<Finding> {
    (if i.cargo == 0 then [Finding(Warning, CargoManifestMissing)] else [])
    + (if i.wasm == 0 then [Finding(Info, WasmMissing)] else [])
  }

  lemma ErrorParts(own: seq<Finding>, inventory: seq<Finding>, last: seq<Finding>)
    requires !HasError(inventory)
    ensures HasError(own + inventory + last) <==> HasError(own) || HasError(last)
  {
    var all := own + inventory + last;
    assert forall f :: f in all <==> f in own || f in inventory || f in last;
  }

  /** The audit can be milder than the verdict on its own endpoint: exactly when no finding is an error
      and the verdict rests on the protocol alone, undecided or declared incompatible by the matrix. */
  lemma AuditMilderThanVerdictIff(m: Matrix, files: seq<ScannedFile>, e: Evidence)
    ensures FoldLevel(Tidy(AuditFindings(m, files, Some(e)))).Rank() < Verdict(m, e.protocolVersion, Some(e)).Rank()
      <==>
      && !HasError(AllFileFindings(m, files))
      && !HasError(RawFindings(m, e.protocolVersion, Some(e)))
      && (ProtocolUndecided(m, e.protocolVersion) || DeclaredIncompatible(m, e.protocolVersion))
  {
    hide Verdict, RawFindings, AllFileFindings, AuditFindings, FoldLevel, Tidy, ProtocolUndecided, DeclaredIncompatible;
    TidyKeepsLevel(AuditFindings(m, files, Some(e)));
    IncompatibleAudit(m, files, Some(e));
    CompatibleAudit(m, files, Some(e));
    VerdictAgreesWithFindings(m, e.protocolVersion, Some(e));
  }

  /** An endpoint that names no protocol, and a matrix without features: the verdict is Unknown, the audit
      of an empty project is Degraded. */
  lemma MilderAuditExample()
    ensures var m := Matrix([], [], ProtocolRange(20, 22), []);
      var e := Evidence(SCHEMA_VERSION, "", "", 0, None, None, None, None, None, None, {}, {}, {}, map[], None, []);
      Verdict(m, None, Some(e)) == Unknown && FoldLevel(Tidy(AuditFindings(m, [], Some(e)))) == Degraded
  {
    var m := Matrix([], [], ProtocolRange(20, 22), []);
    var e := Evidence(SCHEMA_VERSION, "", "", 0, None, None, None, None, None, None, {}, {}, {}, map[], None, []);
    assert m.RequiredProbeMethods() == {};
    assert EndpointLevel(m, e) == Compatible;
    assert Verdict(m, None, Some(e)) == Unknown;
    hide Verdict, RawFindings, AuditFindings, FoldLevel, Tidy;
    TidyKeepsLevel(AuditFindings(m, [], Some(e)));
    AuditMilderThanVerdictIff(m, [], e);
    VerdictAgreesWithFindings(m, None, Some(e));
    CompatibleAudit(m, [], Some(e));
  }

  /** The exit code: a stricter threshold fails whenever a laxer one does, and each fails exactly on
      the severities it names among the raw findings. */
  lemma ThresholdsNest(fs: seq<Finding>, report: AuditReport)
    requires report.level == FoldLevel(Tidy(fs))
    ensures !ShouldFail(report, Never)
    ensures ShouldFail(report, AtIncompatible) ==> ShouldFail(report, AtDegraded)
    ensures ShouldFail(report, AtIncompatible) <==> HasError(fs)
    ensures ShouldFail(report, AtDegraded) <==> HasError(fs) || HasWarning(fs)
  {
    hide Tidy, FoldLevel;
    TidyKeepsLevel(fs);
    FoldLevelMeaning(fs);
  }
}
