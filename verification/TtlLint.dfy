/** The lint that scans flattened WebAssembly function bodies for storage reads: which functions it
    flags, in terms of the nested structure of WebAssembly (Core Specification 2.0, section 5.4.1). */
module TtlLint {
  import opened Strings

  // ---------------------------------------------------------------- imports

  datatype Import = Import(name: string, isFunction: bool)

  predicate IsStorageGetName(name: string) {
    || Contains(name, "storage_get") || Contains(name, "storage.get")
    || Contains(name, "map_get") || Contains(name, "map.get")
  }

  predicate IsExtendTtlName(name: string) {
    Contains(name, "extend_ttl") || Contains(name, "storage.extend_ttl") || Contains(name, "storage_extend_ttl")
  }

  /** The positions of the imports whose name satisfies `p`. */
  ghost predicate PositionsOf(s: set<nat>, imports: seq<Import>, p: string -> bool) {
    forall i: nat :: i in s <==> i < |imports| && p(imports[i].name)
  }

  class ImportIndexMap {
    var count: nat
    var gets: set<nat>
    var extends_: set<nat>

    constructor ()
      ensures count == 0 && gets == extends_ == {}
    {
      count, gets, extends_ := 0, {}, {};
    }

    ghost predicate Reflects(imports: seq<Import>)
      reads this
    {
      && count == |imports|
      && PositionsOf(gets, imports, IsStorageGetName)
      && PositionsOf(extends_, imports, IsExtendTtlName)
    }

    /** Every import advances the index, of whatever kind it is. */
    method ProcessImport(i: Import, ghost before: seq<Import>)
      requires Reflects(before)
      modifies this
      ensures Reflects(before + [i])
    {
      hide IsStorageGetName, IsExtendTtlName;
      var index := count;
      if IsStorageGetName(i.name) {
        gets := gets + {index};
      }
      if IsExtendTtlName(i.name) {
        extends_ := extends_ + {index};
      }
      count := count + 1;
    }
  }

  method CollectImports(imports: seq<Import>) returns (m: ImportIndexMap)
    requires |imports| <= U32_MAX
    ensures fresh(m) && m.Reflects(imports)
  {
    hide IsStorageGetName, IsExtendTtlName;
    m := new ImportIndexMap();
    for k := 0 to |imports|
      invariant fresh(m) && m.Reflects(imports[..k])
    {
      m.ProcessImport(imports[k], imports[..k]);
      assert imports[..k] + [imports[k]] == imports[..k + 1];
    }
    assert imports[..|imports|] == imports;
  }

  /** The index by which a module's code calls an imported function: functions only are counted. */
  function FunctionIndex(imports: seq<Import>, k: nat): nat
    requires k <= |imports|
  {
    if k == 0 then 0 else FunctionIndex(imports, k - 1) + if imports[k - 1].isFunction then 1 else 0
  }

  /** The position recorded for an import is the index its callers use exactly when every import
      before it is a function. */
  lemma {:induction false} RecordedIndexIsFunctionIndexIff(imports: seq<Import>, k: nat)
    requires k <= |imports|
    ensures FunctionIndex(imports, k) <= k
    ensures FunctionIndex(imports, k) == k <==> forall j :: 0 <= j < k ==> imports[j].isFunction
  {
    if k > 0 { RecordedIndexIsFunctionIndexIff(imports, k - 1); }
  }

  /** The indices by which a module's code calls the imported functions whose name satisfies `p`. */
  ghost function CallIndices(imports: seq<Import>, p: string -> bool): set<nat> {
    set k: nat | k < |imports| && imports[k].isFunction && p(imports[k].name) :: FunctionIndex(imports, k)
  }

  /** Every import with a matching name, and every import before it, is a function. */
  predicate MatchesFollowFunctions(imports: seq<Import>, p: string -> bool) {
    forall k | 0 <= k < |imports| && p(imports[k].name) :: AllFunctions(imports, k + 1)
  }

  predicate AllFunctions(imports: seq<Import>, n: nat) {
    forall j | 0 <= j < n && j < |imports| :: imports[j].isFunction
  }

  lemma {:induction false} LargestMatch(imports: seq<Import>, p: string -> bool, k: nat) returns (last: nat)
    requires k < |imports| && p(imports[k].name)
    ensures k <= last < |imports| && p(imports[last].name)
    ensures forall j | last < j < |imports| :: !p(imports[j].name)
    decreases |imports| - k
  {
    if j: nat :| k < j < |imports| && p(imports[j].name) {
      last := LargestMatch(imports, p, j);
    } else {
      last := k;
    }
  }

  lemma CalledByPosition(imports: seq<Import>, k: nat)
    requires k < |imports| && AllFunctions(imports, k + 1)
    ensures imports[k].isFunction && FunctionIndex(imports, k) == k
  {
    RecordedIndexIsFunctionIndexIff(imports, k);
  }

  /** If code calls a matching import by the last matching position, every import up to there is a
      function: the indices do not run ahead of the positions. */
  lemma LastMatchFollowsFunctions(imports: seq<Import>, p: string -> bool, last: nat)
    requires last < |imports| && last in CallIndices(imports, p)
    requires forall j | last < j < |imports| :: !p(imports[j].name)
    ensures AllFunctions(imports, last + 1)
  {
    var j: nat :| j < |imports| && imports[j].isFunction && p(imports[j].name) && FunctionIndex(imports, j) == last;
    RecordedIndexIsFunctionIndexIff(imports, j);
  }

  /** The recorded positions are the indices the code calls by exactly when every matching import and
      every import before it is a function. */
  lemma RecordedSetIsCallIndicesIff(s: set<nat>, imports: seq<Import>, p: string -> bool)
    requires PositionsOf(s, imports, p)
    ensures s == CallIndices(imports, p) <==> MatchesFollowFunctions(imports, p)
  {
    hide FunctionIndex;
    if s == CallIndices(imports, p) {
      hide CallIndices;
      forall k | 0 <= k < |imports| && p(imports[k].name) ensures AllFunctions(imports, k + 1) {
        var last := LargestMatch(imports, p, k);
        assert last in s;
        LastMatchFollowsFunctions(imports, p, last);
      }
    }
    if MatchesFollowFunctions(imports, p) {
      PositionsAreCalled(s, imports, p);
    }
  }

  lemma PositionsAreCalled(s: set<nat>, imports: seq<Import>, p: string -> bool)
    requires PositionsOf(s, imports, p) && MatchesFollowFunctions(imports, p)
    ensures s == CallIndices(imports, p)
  {
    hide FunctionIndex, AllFunctions;
    forall k: nat | k < |imports| && p(imports[k].name)
      ensures FunctionIndex(imports, k) == k && imports[k].isFunction
    {
      CalledByPosition(imports, k);
    }
    forall f: nat | f in s ensures f in CallIndices(imports, p) {
      assert FunctionIndex(imports, f) == f;
    }
  }

  lemma {:induction false} ContainedIsShorter(s: string, pattern: string)
    requires Contains(s, pattern)
    ensures |pattern| <= |s|
  {
    if !(pattern <= s) { ContainedIsShorter(s[1..], pattern); }
  }

  /** Two imports, a memory and then a function that reads storage, and a body that calls it: the scan
      looks for another index and sees no read. */
  lemma MemoryImportHidesRead(gets: set<nat>)
    requires PositionsOf(gets, [Import("memory", false), Import("storage_get", true)], IsStorageGetName)
    ensures CallIndices([Import("memory", false), Import("storage_get", true)], IsStorageGetName) == {0}
    ensures gets == {1} && !SomeRead([Call(0), End], gets)
  {
    assert !IsStorageGetName("memory") by {
      if Contains("memory", "storage_get") { ContainedIsShorter("memory", "storage_get"); }
      if Contains("memory", "storage.get") { ContainedIsShorter("memory", "storage.get"); }
      if Contains("memory", "map_get") { ContainedIsShorter("memory", "map_get"); }
      if Contains("memory", "map.get") { ContainedIsShorter("memory", "map.get"); }
    }
    assert IsStorageGetName("storage_get");
    TwoImports(gets, Import("memory", false), Import("storage_get", true), IsStorageGetName);
  }

  lemma TwoImports(gets: set<nat>, i: Import, j: Import, p: string -> bool)
    requires !i.isFunction && !p(i.name) && j.isFunction && p(j.name) && PositionsOf(gets, [i, j], p)
    ensures gets == {1} && CallIndices([i, j], p) == {0}
  {
    var imports := [i, j];
    assert FunctionIndex(imports, 1) == 0;
    assert forall k: nat :: k in gets <==> k == 1;
    assert imports[1] == j && FunctionIndex(imports, 1) in CallIndices(imports, p);
  }

  // ---------------------------------------------------------------- the scan

  datatype Operator = Call(index: nat) | Block | Loop | If | Else | End | Other

  datatype Analysis = Analysis(hasGet: bool, hasExtend: bool, callsInLoop: bool)

  const NOTHING := Analysis(false, false, false)

  /** One operator's effect on the counter, which never falls below zero. */
  function Step(op: Operator, depth: nat): nat {
    match op
    case Block => depth + 1
    case Loop => depth + 1
    case If => depth + 1
    case End => if depth > 0 then depth - 1 else 0
    case _ => depth
  }

  /** The counter after `ops` when it starts at `start`. */
  function Counter(ops: seq<Operator>, start: nat): nat {
    if ops == [] then start else Step(ops[|ops| - 1], Counter(ops[..|ops| - 1], start))
  }

  predicate IsRead(op: Operator, gets: set<nat>) {
    op.Call? && op.index in gets
  }

  predicate SomeRead(ops: seq<Operator>, gets: set<nat>) {
    exists i :: 0 <= i < |ops| && IsRead(ops[i], gets)
  }

  predicate ReadBelow(ops: seq<Operator>, gets: set<nat>, i: nat) {
    i < |ops| && IsRead(ops[i], gets) && Counter(ops[..i], 0) > 0
  }

  predicate SomeReadBelow(ops: seq<Operator>, gets: set<nat>) {
    exists i: nat | i < |ops| :: ReadBelow(ops, gets, i)
  }

  method AnalyzeBody(ops: seq<Operator>, gets: set<nat>, extends_: set<nat>) returns (a: Analysis)
    ensures a.hasGet <==> SomeRead(ops, gets)
    ensures a.hasExtend <==> SomeRead(ops, extends_)
    ensures a.callsInLoop <==> SomeReadBelow(ops, gets)
  {
    a := NOTHING;
    var loopDepth := 0;
    for i := 0 to |ops|
      invariant loopDepth == Counter(ops[..i], 0)
      invariant a.hasGet <==> exists j :: 0 <= j < i && IsRead(ops[j], gets)
      invariant a.hasExtend <==> exists j :: 0 <= j < i && IsRead(ops[j], extends_)
      invariant a.callsInLoop <==> exists j: nat :: j < i && ReadBelow(ops, gets, j)
    {
      assert ops[..i + 1][..i] == ops[..i];
      assert ReadBelow(ops, gets, i) <==> IsRead(ops[i], gets) && loopDepth > 0;
      match ops[i] {
        case Call(index) =>
          if index in gets {
            assert IsRead(ops[i], gets);
            a := a.(hasGet := true);
            if loopDepth > 0 {
              a := a.(callsInLoop := true);
            }
          }
          if index in extends_ {
            assert IsRead(ops[i], extends_);
            a := a.(hasExtend := true);
          }
        case Loop => loopDepth := loopDepth + 1;
        case Block => loopDepth := loopDepth + 1;
        case If => loopDepth := loopDepth + 1;
        case End =>
          if loopDepth > 0 {
            loopDepth := loopDepth - 1;
          }
        case _ =>
      }
    }
  }

  // ---------------------------------------------------------------- nested bodies

  datatype Instruction =
    | Invoke(index: nat)
    | Plain
    | BlockOf(body: seq<Instruction>)
    | LoopOf(body: seq<Instruction>)
    | IfOf(body: seq<Instruction>)
    | IfElseOf(yes: seq<Instruction>, no: seq<Instruction>)

  datatype Kind = InBlock | InLoop | InIf

  function FlattenOne(i: Instruction): seq<Operator>
    decreases i, 0
  {
    match i
    case Invoke(index) => [Call(index)]
    case Plain => [Other]
    case BlockOf(body) => [Block] + Flatten(body) + [End]
    case LoopOf(body) => [Loop] + Flatten(body) + [End]
    case IfOf(body) => [If] + Flatten(body) + [End]
    case IfElseOf(yes, no) => [If] + Flatten(yes) + [Else] + Flatten(no) + [End]
  }

  /** The operators of a sequence of instructions, in the order of the binary format. */
  function Flatten(body: seq<Instruction>): seq<Operator>
    decreases body, 1
  {
    if body == [] then [] else FlattenOne(body[0]) + Flatten(body[1..])
  }

  /** A whole function body ends with one more End. */
  function Encode(body: seq<Instruction>): seq<Operator> {
    Flatten(body) + [End]
  }

  function ContextsOne(i: Instruction, calls: set<nat>, around: seq<Kind>): seq<seq<Kind>>
    decreases i, 0
  {
    match i
    case Invoke(index) => if index in calls then [around] else []
    case Plain => []
    case BlockOf(body) => Contexts(body, calls, around + [InBlock])
    case LoopOf(body) => Contexts(body, calls, around + [InLoop])
    case IfOf(body) => Contexts(body, calls, around + [InIf])
    case IfElseOf(yes, no) => Contexts(yes, calls, around + [InIf]) + Contexts(no, calls, around + [InIf])
  }

  /** For each call of one of `calls`, in order, the structures around it, outermost first. */
  function Contexts(body: seq<Instruction>, calls: set<nat>, around: seq<Kind>): seq<seq<Kind>>
    decreases body, 1
  {
    if body == [] then [] else ContextsOne(body[0], calls, around) + Contexts(body[1..], calls, around)
  }

  /** The counter at each call of one of `calls`, in order, when it starts at `start`. */
  function Depths(ops: seq<Operator>, calls: set<nat>, start: nat): seq<nat> {
    if ops == [] then [] else
      var before := ops[..|ops| - 1];
      Depths(before, calls, start) + if IsRead(ops[|ops| - 1], calls) then [Counter(before, start)] else []
  }

  function Lengths(contexts: seq<seq<Kind>>): seq<nat> {
    seq(|contexts|, i requires 0 <= i < |contexts| => |contexts[i]|)
  }

  /** A scan can be cut in two. */
  lemma {:induction false} ScanConcatenates(a: seq<Operator>, b: seq<Operator>, calls: set<nat>, start: nat)
    ensures Counter(a + b, start) == Counter(b, Counter(a, start))
    ensures Depths(a + b, calls, start) == Depths(a, calls, start) + Depths(b, calls, Counter(a, start))
  {
    if b == [] {
      assert a + b == a;
    } else {
      var before := b[..|b| - 1];
      assert (a + b)[..|a + b| - 1] == a + before;
      ScanConcatenates(a, before, calls, start);
    }
  }

  lemma SingleScan(op: Operator, calls: set<nat>, start: nat)
    ensures Counter([op], start) == Step(op, start)
    ensures Depths([op], calls, start) == if IsRead(op, calls) then [start] else []
  {
    assert [op][..0] == [];
  }

  /** A structure's End undoes its opening. */
  lemma EnclosedScan(opening: Operator, inner: seq<Operator>, calls: set<nat>, start: nat)
    requires opening in {Block, Loop, If}
    requires Counter(inner, start + 1) == start + 1
    ensures Counter([opening] + inner + [End], start) == start
    ensures Depths([opening] + inner + [End], calls, start) == Depths(inner, calls, start + 1)
  {
    hide Counter, Depths;
    ScanConcatenates([opening] + inner, [End], calls, start);
    ScanConcatenates([opening], inner, calls, start);
    SingleScan(opening, calls, start);
    SingleScan(End, calls, start + 1);
  }

  /** The two arms of an if are scanned at the same depth. */
  lemma ArmsScan(yes: seq<Operator>, no: seq<Operator>, calls: set<nat>, depth: nat)
    requires Counter(yes, depth) == Counter(no, depth) == depth
    ensures Counter(yes + [Else] + no, depth) == depth
    ensures Depths(yes + [Else] + no, calls, depth) == Depths(yes, calls, depth) + Depths(no, calls, depth)
  {
    hide Counter, Depths;
    ScanConcatenates(yes + [Else], no, calls, depth);
    ScanConcatenates(yes, [Else], calls, depth);
    SingleScan(Else, calls, depth);
  }

  lemma LengthsConcatenate(a: seq<seq<Kind>>, b: seq<seq<Kind>>)
    ensures Lengths(a + b) == Lengths(a) + Lengths(b)
  {
  }

  lemma {:induction false} InstructionScan(i: Instruction, calls: set<nat>, around: seq<Kind>)
    ensures Counter(FlattenOne(i), |around|) == |around|
    ensures Depths(FlattenOne(i), calls, |around|) == Lengths(ContextsOne(i, calls, around))
    decreases i, 0
  {
    hide Counter, Depths, Flatten, Contexts;
    match i
    case Invoke(index) => SingleScan(Call(index), calls, |around|);
    case Plain => SingleScan(Other, calls, |around|);
    case BlockOf(body) =>
      BodyScan(body, calls, around + [InBlock]);
      EnclosedScan(Block, Flatten(body), calls, |around|);
    case LoopOf(body) =>
      BodyScan(body, calls, around + [InLoop]);
      EnclosedScan(Loop, Flatten(body), calls, |around|);
    case IfOf(body) =>
      BodyScan(body, calls, around + [InIf]);
      EnclosedScan(If, Flatten(body), calls, |around|);
    case IfElseOf(yes, no) =>
      var inside := around + [InIf];
      BodyScan(yes, calls, inside);
      BodyScan(no, calls, inside);
      ArmsScan(Flatten(yes), Flatten(no), calls, |inside|);
      var arms := Flatten(yes) + [Else] + Flatten(no);
      EnclosedScan(If, arms, calls, |around|);
      assert FlattenOne(i) == [If] + arms + [End];
      LengthsConcatenate(Contexts(yes, calls, inside), Contexts(no, calls, inside));
  }

  /** The counter of the scan is the nesting depth: at every call it is the number of structures around
      the call, and the body as a whole leaves it unchanged. */
  lemma {:induction false} BodyScan(body: seq<Instruction>, calls: set<nat>, around: seq<Kind>)
    ensures Counter(Flatten(body), |around|) == |around|
    ensures Depths(Flatten(body), calls, |around|) == Lengths(Contexts(body, calls, around))
    decreases body, 1
  {
    hide FlattenOne, ContextsOne;
    if body != [] {
      InstructionScan(body[0], calls, around);
      BodyScan(body[1..], calls, around);
      ScanConcatenates(FlattenOne(body[0]), Flatten(body[1..]), calls, |around|);
      LengthsConcatenate(ContextsOne(body[0], calls, around), Contexts(body[1..], calls, around));
    }
  }

  // ---------------------------------------------------------------- what the lint flags

  ghost predicate Positive(depths: seq<nat>) {
    exists n :: n in depths && n > 0
  }

  lemma PositiveConcatenates(a: seq<nat>, b: seq<nat>)
    ensures Positive(a + b) <==> Positive(a) || Positive(b)
  {
    if n :| n in a && n > 0 {
      assert n in a + b;
    } else if n :| n in b && n > 0 {
      assert n in a + b;
    }
  }

  lemma {:induction false} DepthsSeeReads(ops: seq<Operator>, calls: set<nat>)
    ensures SomeRead(ops, calls) <==> Depths(ops, calls, 0) != []
    ensures SomeReadBelow(ops, calls) <==> Positive(Depths(ops, calls, 0))
  {
    if ops != [] {
      var before := ops[..|ops| - 1];
      var last := |ops| - 1;
      DepthsSeeReads(before, calls);
      PositiveConcatenates(Depths(before, calls, 0), if IsRead(ops[last], calls) then [Counter(before, 0)] else []);
      assert SomeRead(ops, calls) <==> SomeRead(before, calls) || IsRead(ops[last], calls) by {
        if i :| 0 <= i < |before| && IsRead(before[i], calls) { assert IsRead(ops[i], calls); }
      }
      forall i: nat | i < |before| ensures ReadBelow(before, calls, i) == ReadBelow(ops, calls, i) {
        assert before[..i] == ops[..i];
      }
      assert SomeReadBelow(ops, calls) <==> SomeReadBelow(before, calls) || ReadBelow(ops, calls, last);
      assert Positive([Counter(before, 0)]) <==> Counter(before, 0) > 0 by {
        assert Counter(before, 0) in [Counter(before, 0)];
      }
    }
  }

  ghost predicate ReadInside(contexts: seq<seq<Kind>>) {
    exists c :: c in contexts && c != []
  }

  ghost predicate ReadInLoop(contexts: seq<seq<Kind>>) {
    exists c :: c in contexts && InLoop in c
  }

  lemma PositiveLengths(contexts: seq<seq<Kind>>)
    ensures Lengths(contexts) == [] <==> contexts == []
    ensures Positive(Lengths(contexts)) <==> ReadInside(contexts)
  {
    var lengths := Lengths(contexts);
    if c :| c in contexts && c != [] {
      var i :| 0 <= i < |contexts| && contexts[i] == c;
      assert lengths[i] in lengths && lengths[i] > 0;
    }
    if n :| n in lengths && n > 0 {
      var i :| 0 <= i < |contexts| && lengths[i] == n;
      assert contexts[i] in contexts && contexts[i] != [];
    }
  }

  /** On every nested body the flags of the scan are properties of the nesting: a read or an extension
      exists anywhere, and some read is inside at least one block, loop or if. */
  lemma ScanMeaning(body: seq<Instruction>, gets: set<nat>)
    ensures SomeRead(Encode(body), gets) <==> Contexts(body, gets, []) != []
    ensures SomeReadBelow(Encode(body), gets) <==> ReadInside(Contexts(body, gets, []))
    ensures ReadInLoop(Contexts(body, gets, [])) ==> SomeReadBelow(Encode(body), gets)
  {
    hide Counter, Depths, Flatten, Contexts, Positive, SomeRead, SomeReadBelow, Lengths;
    BodyScan(body, gets, []);
    ScanConcatenates(Flatten(body), [End], gets, 0);
    SingleScan(End, gets, 0);
    assert Depths(Encode(body), gets, 0) == Lengths(Contexts(body, gets, []));
    DepthsSeeReads(Encode(body), gets);
    PositiveLengths(Contexts(body, gets, []));
    if c :| c in Contexts(body, gets, []) && InLoop in c {
      assert c != [];
    }
  }

  /** The loop flag overshoots exactly when reads are inside blocks or ifs but none is inside a loop. */
  lemma LoopFlagExactIff(body: seq<Instruction>, gets: set<nat>)
    ensures (SomeReadBelow(Encode(body), gets) <==> ReadInLoop(Contexts(body, gets, [])))
      <==> (ReadInside(Contexts(body, gets, [])) ==> ReadInLoop(Contexts(body, gets, [])))
  {
    ScanMeaning(body, gets);
  }

  /** The smallest overshoot: a read in a block. */
  lemma BlockFlaggedAsLoop()
    ensures SomeReadBelow(Encode([BlockOf([Invoke(0)])]), {0})
    ensures !ReadInLoop(Contexts([BlockOf([Invoke(0)])], {0}, []))
  {
    var body := [BlockOf([Invoke(0)])];
    assert Contexts([Invoke(0)], {0}, [InBlock]) == ContextsOne(Invoke(0), {0}, [InBlock]);
    assert body[1..] == [] && [] + [InBlock] == [InBlock];
    assert Contexts(body, {0}, []) == ContextsOne(body[0], {0}, []);
    assert [InBlock] in Contexts(body, {0}, []);
    ScanMeaning(body, {0});
  }

  datatype Check = TtlExpiry | StorageLoop

  datatype LintFinding = LintFinding(line: nat, check: Check, fixAvailable: bool)

  ghost predicate Flagged(ops: seq<Operator>, gets: set<nat>, extends_: set<nat>, check: Check) {
    match check
    case TtlExpiry => SomeRead(ops, gets) && !SomeRead(ops, extends_)
    case StorageLoop => SomeReadBelow(ops, gets)
  }

  /** By function, and for one function the missing extension before the loop. */
  predicate Before(f: LintFinding, g: LintFinding) {
    f.line < g.line || (f.line == g.line && f.check == TtlExpiry && g.check == StorageLoop)
  }

  predicate InOrder(findings: seq<LintFinding>) {
    forall i, j | 0 <= i < j < |findings| :: Before(findings[i], findings[j])
  }

  /** The findings are exactly one per flagged function and check, in order, reported at the function's
      position after the imports. */
  method AnalyzeTtlExpiry(bodies: seq<seq<Operator>>, m: ImportIndexMap) returns (findings: seq<LintFinding>)
    ensures forall f :: f in findings <==>
      && f.fixAvailable == (f.check == TtlExpiry && m.extends_ != {})
      && m.count + 1 <= f.line <= m.count + |bodies|
      && Flagged(bodies[f.line - m.count - 1], m.gets, m.extends_, f.check)
    ensures InOrder(findings)
  {
    hide SomeRead, SomeReadBelow;
    findings := [];
    var line := m.count + 1;
    for k := 0 to |bodies|
      invariant line == m.count + 1 + k
      invariant forall f :: f in findings <==>
        && f.fixAvailable == (f.check == TtlExpiry && m.extends_ != {})
        && m.count + 1 <= f.line <= m.count + k
        && Flagged(bodies[f.line - m.count - 1], m.gets, m.extends_, f.check)
      invariant InOrder(findings)
    {
      var a := AnalyzeBody(bodies[k], m.gets, m.extends_);
      if a.hasGet && !a.hasExtend {
        findings := findings + [LintFinding(line, TtlExpiry, m.extends_ != {})];
      }
      if a.callsInLoop {
        findings := findings + [LintFinding(line, StorageLoop, false)];
      }
      line := line + 1;
    }
  }

  /** For a module of nested bodies: which function the lint flags, and that it misses no read that is
      truly inside a loop. */
  lemma LintMeaning(body: seq<Instruction>, gets: set<nat>, extends_: set<nat>)
    ensures Flagged(Encode(body), gets, extends_, TtlExpiry)
      <==> Contexts(body, gets, []) != [] && Contexts(body, extends_, []) == []
    ensures Flagged(Encode(body), gets, extends_, StorageLoop) <==> ReadInside(Contexts(body, gets, []))
    ensures ReadInLoop(Contexts(body, gets, [])) ==> Flagged(Encode(body), gets, extends_, StorageLoop)
  {
    ScanMeaning(body, gets);
    ScanMeaning(body, extends_);
  }

  /** The lint of a module, from its import section and its code section. */
  method LintModule(imports: seq<Import>, bodies: seq<seq<Operator>>)
    returns (findings: seq<LintFinding>, ghost gets: set<nat>, ghost extends_: set<nat>)
    requires |imports| <= U32_MAX
    ensures PositionsOf(gets, imports, IsStorageGetName) && PositionsOf(extends_, imports, IsExtendTtlName)
    ensures forall f :: f in findings <==>
      && f.fixAvailable == (f.check == TtlExpiry && extends_ != {})
      && |imports| + 1 <= f.line <= |imports| + |bodies|
      && Flagged(bodies[f.line - |imports| - 1], gets, extends_, f.check)
    ensures InOrder(findings)
  {
    hide IsStorageGetName, IsExtendTtlName, Flagged, InOrder;
    var m := CollectImports(imports);
    findings := AnalyzeTtlExpiry(bodies, m);
    gets, extends_ := m.gets, m.extends_;
  }

  /** For which modules the scan of every body, with the recorded positions, sees exactly the calls of
      the matching imports: those in which every matching import follows functions only. */
  lemma ReadsSeenIff(s: set<nat>, imports: seq<Import>, p: string -> bool)
    requires PositionsOf(s, imports, p)
    ensures (forall body :: SomeRead(Encode(body), s) <==> Contexts(body, CallIndices(imports, p), []) != [])
      <==> MatchesFollowFunctions(imports, p)
  {
    hide Encode, SomeRead, PositionsOf, MatchesFollowFunctions, CallIndices;
    var calls := CallIndices(imports, p);
    RecordedSetIsCallIndicesIff(s, imports, p);
    if s == calls {
      forall body ensures SomeRead(Encode(body), s) <==> Contexts(body, calls, []) != [] {
        ScanMeaning(body, s);
      }
    } else if forall body :: SomeRead(Encode(body), s) <==> Contexts(body, calls, []) != [] {
      forall i: nat ensures i in s <==> i in calls {
        var body := [Invoke(i)];
        ScanMeaning(body, s);
        assert SomeRead(Encode(body), s) <==> Contexts(body, calls, []) != [];
        SingleCall(i, s);
        SingleCall(i, calls);
      }
    }
  }

  lemma SingleCall(i: nat, calls: set<nat>)
    ensures Contexts([Invoke(i)], calls, []) != [] <==> i in calls
  {
    assert [Invoke(i)][1..] == [];
  }

  /** What the lint finds in a module whose storage imports follow functions only, in terms of the
      functions its nested bodies call. */
  lemma ModuleLintMeaning(imports: seq<Import>, gets: set<nat>, extends_: set<nat>, body: seq<Instruction>)
    requires PositionsOf(gets, imports, IsStorageGetName) && PositionsOf(extends_, imports, IsExtendTtlName)
    requires MatchesFollowFunctions(imports, IsStorageGetName) && MatchesFollowFunctions(imports, IsExtendTtlName)
    ensures var gotten := Contexts(body, CallIndices(imports, IsStorageGetName), []);
      var extended := Contexts(body, CallIndices(imports, IsExtendTtlName), []);
      && (Flagged(Encode(body), gets, extends_, TtlExpiry) <==> gotten != [] && extended == [])
      && (Flagged(Encode(body), gets, extends_, StorageLoop) <==> ReadInside(gotten))
      && (ReadInLoop(gotten) ==> Flagged(Encode(body), gets, extends_, StorageLoop))
  {
    hide IsStorageGetName, IsExtendTtlName, PositionsOf, MatchesFollowFunctions, CallIndices, Flagged, Encode, Contexts;
    RecordedSetIsCallIndicesIff(gets, imports, IsStorageGetName);
    RecordedSetIsCallIndicesIff(extends_, imports, IsExtendTtlName);
    LintMeaning(body, gets, extends_);
  }

  // ---------------------------------------------------------------- names and nesting, spelled out

  /** Which import names count. The two longer patterns for an extension add nothing to the short one. */
  lemma NameRules(name: string)
    ensures IsStorageGetName(name) <==>
      Occurs(name, "storage_get") || Occurs(name, "storage.get") || Occurs(name, "map_get") || Occurs(name, "map.get")
    ensures IsExtendTtlName(name) <==> Occurs(name, "extend_ttl")
  {
    hide Contains, Occurs;
    ContainsIff(name, "storage_get");
    ContainsIff(name, "storage.get");
    ContainsIff(name, "map_get");
    ContainsIff(name, "map.get");
    ContainsIff(name, "extend_ttl");
    LongerPattern(name, "storage.", "extend_ttl");
    LongerPattern(name, "storage_", "extend_ttl");
    assert "storage." + "extend_ttl" == "storage.extend_ttl" && "storage_" + "extend_ttl" == "storage_extend_ttl";
  }

  lemma LongerPattern(s: string, front: string, pattern: string)
    ensures Contains(s, front + pattern) ==> Contains(s, pattern)
  {
    ContainsIff(s, front + pattern);
    ContainsIff(s, pattern);
    if before, after :| s == before + (front + pattern) + after {
      assert s == (before + front) + pattern + after;
    }
  }

  /** Each call, one structure further in. */
  function Wrapped(kind: Kind, contexts: seq<seq<Kind>>): seq<seq<Kind>> {
    seq(|contexts|, i requires 0 <= i < |contexts| => [kind] + contexts[i])
  }

  lemma WrappedConcatenates(kind: Kind, a: seq<seq<Kind>>, b: seq<seq<Kind>>)
    ensures Wrapped(kind, a + b) == Wrapped(kind, a) + Wrapped(kind, b)
  {
  }

  lemma {:induction false} ContextsOneInside(i: Instruction, calls: set<nat>, kind: Kind, around: seq<Kind>)
    ensures ContextsOne(i, calls, [kind] + around) == Wrapped(kind, ContextsOne(i, calls, around))
    decreases i, 0
  {
    hide Contexts;
    match i
    case Invoke(_) =>
    case Plain =>
    case BlockOf(body) => Deeper(body, calls, kind, around, InBlock);
    case LoopOf(body) => Deeper(body, calls, kind, around, InLoop);
    case IfOf(body) => Deeper(body, calls, kind, around, InIf);
    case IfElseOf(yes, no) =>
      Deeper(yes, calls, kind, around, InIf);
      Deeper(no, calls, kind, around, InIf);
      WrappedConcatenates(kind, Contexts(yes, calls, around + [InIf]), Contexts(no, calls, around + [InIf]));
  }

  lemma {:induction false} Deeper(body: seq<Instruction>, calls: set<nat>, kind: Kind, around: seq<Kind>, inner: Kind)
    ensures Contexts(body, calls, [kind] + around + [inner]) == Wrapped(kind, Contexts(body, calls, around + [inner]))
    decreases body, 2
  {
    assert [kind] + around + [inner] == [kind] + (around + [inner]);
    ContextsInside(body, calls, kind, around + [inner]);
  }

  lemma {:induction false} ContextsInside(body: seq<Instruction>, calls: set<nat>, kind: Kind, around: seq<Kind>)
    ensures Contexts(body, calls, [kind] + around) == Wrapped(kind, Contexts(body, calls, around))
    decreases body, 1
  {
    hide ContextsOne;
    if body != [] {
      ContextsOneInside(body[0], calls, kind, around);
      ContextsInside(body[1..], calls, kind, around);
      WrappedConcatenates(kind, ContextsOne(body[0], calls, around), Contexts(body[1..], calls, around));
    }
  }

  /** What is around the calls of a body: nothing around a call itself, one structure more around those inside
      one, and for each part its own. */
  lemma {:induction false} ContextRules(a: seq<Instruction>, b: seq<Instruction>, calls: set<nat>, index: nat)
    ensures Contexts([Invoke(index)], calls, []) == if index in calls then [[]] else []
    ensures Contexts([Plain], calls, []) == Contexts([], calls, []) == []
    ensures Contexts([BlockOf(a)], calls, []) == Wrapped(InBlock, Contexts(a, calls, []))
    ensures Contexts([LoopOf(a)], calls, []) == Wrapped(InLoop, Contexts(a, calls, []))
    ensures Contexts([IfOf(a)], calls, []) == Wrapped(InIf, Contexts(a, calls, []))
    ensures Contexts([IfElseOf(a, b)], calls, [])
         == Wrapped(InIf, Contexts(a, calls, [])) + Wrapped(InIf, Contexts(b, calls, []))
    ensures Contexts(a + b, calls, []) == Contexts(a, calls, []) + Contexts(b, calls, [])
  {
    hide Wrapped;
    forall i: Instruction ensures Contexts([i], calls, []) == ContextsOne(i, calls, []) { OneContext(i, calls); }
    forall kind: Kind ensures [] + [kind] == [kind] + [] { }
    ContextsInside(a, calls, InBlock, []);
    ContextsInside(a, calls, InLoop, []);
    ContextsInside(a, calls, InIf, []);
    ContextsInside(b, calls, InIf, []);
    ContextsConcatenate(a, b, calls);
    hide Contexts;
  }

  lemma OneContext(i: Instruction, calls: set<nat>)
    ensures Contexts([i], calls, []) == ContextsOne(i, calls, [])
  {
    assert [i][1..] == [];
  }

  lemma {:induction false} ContextsConcatenate(a: seq<Instruction>, b: seq<Instruction>, calls: set<nat>)
    ensures Contexts(a + b, calls, []) == Contexts(a, calls, []) + Contexts(b, calls, [])
  {
    if a == [] {
      assert a + b == b;
    } else {
      assert (a + b)[1..] == a[1..] + b;
      ContextsConcatenate(a[1..], b, calls);
    }
  }

  /** How nested bodies look in the binary format. */
  lemma EncodingRules(a: seq<Instruction>, b: seq<Instruction>, index: nat)
    ensures Encode([Invoke(index), Plain]) == [Call(index), Other, End]
    ensures Encode([BlockOf(a)]) == [Block] + Encode(a) + [End]
    ensures Encode([LoopOf(a)]) == [Loop] + Encode(a) + [End]
    ensures Encode([IfOf(a)]) == [If] + Encode(a) + [End]
    ensures Encode([IfElseOf(a, b)]) == [If] + Flatten(a) + [Else] + Encode(b) + [End]
  {
    assert [Invoke(index), Plain][1..] == [Plain];
    OneFlat(Plain);
    OneFlat(BlockOf(a));
    OneFlat(LoopOf(a));
    OneFlat(IfOf(a));
    OneFlat(IfElseOf(a, b));
    assert Encode([Invoke(index), Plain]) == FlattenOne(Invoke(index)) + Flatten([Plain]) + [End];
    hide Flatten;
  }

  lemma OneFlat(i: Instruction)
    ensures Flatten([i]) == FlattenOne(i)
  {
    assert [i][1..] == [];
  }

  /** The last End of a body finds the counter at zero and leaves it there. */
  lemma BodyEndsAtZero(body: seq<Instruction>)
    ensures Counter(Flatten(body), 0) == Counter(Encode(body), 0) == 0
  {
    hide Flatten, Counter, Contexts, Depths;
    BodyScan(body, {}, []);
    ScanConcatenates(Flatten(body), [End], {}, 0);
    SingleScan(End, {}, 0);
  }
}
