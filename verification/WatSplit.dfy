/** Two ways in which the lint cuts WebAssembly text into functions by counting parentheses: the
    streaming scan of the storage-iteration and missing-auth checks, and the index loop of the fixer. */
module WatSplit {
  import opened Strings
  import opened Wrappers

  // ---------------------------------------------------------------- lines

  /** Unicode White_Space, which `trim_start` removes. */
  predicate IsWhitespace(c: char) {
    var code := c as int;
    || 9 <= code <= 13 || 0x2000 <= code <= 0x200A
    || code in {0x20, 0x85, 0xA0, 0x1680, 0x2028, 0x2029, 0x202F, 0x205F, 0x3000}
  }

  /** Spaces, tabs and line ends are whitespace; no printable ASCII character is. */
  lemma WhitespaceInAscii(c: char)
    requires c as int < 128
    ensures IsWhitespace(c) <==> c in {' ', '\t', '\n', '\r', 11 as char, 12 as char}
  {
  }

  function TrimStart(s: string): string {
    if s != "" && IsWhitespace(s[0]) then TrimStart(s[1..]) else s
  }

  predicate IsHeader(line: string) {
    "(func" <= TrimStart(line)
  }

  ghost predicate IsBlank(s: string) {
    forall i | 0 <= i < |s| :: IsWhitespace(s[i])
  }

  /** A header is "(func" after nothing but whitespace. */
  lemma IsHeaderIff(line: string)
    ensures IsHeader(line) <==> exists blank, rest :: IsBlank(blank) && line == blank + "(func" + rest
  {
    hide IsWhitespace;
    var blank := TrimSplit(line);
    var trimmed := TrimStart(line);
    if IsHeader(line) {
      assert line == blank + "(func" + trimmed[5..];
    }
    if blank, rest :| IsBlank(blank) && line == blank + "(func" + rest {
      assert !IsWhitespace('(') by { WhitespaceInAscii('('); }
      TrimBlank(blank, "(func" + rest);
      assert line == blank + ("(func" + rest);
      assert ("(func" + rest)[..5] == "(func";
    }
  }

  lemma {:induction false} TrimSplit(s: string) returns (blank: string)
    ensures IsBlank(blank) && s == blank + TrimStart(s)
  {
    if s != "" && IsWhitespace(s[0]) {
      var more := TrimSplit(s[1..]);
      blank := [s[0]] + more;
    } else {
      blank := "";
    }
  }

  lemma {:induction false} TrimBlank(blank: string, rest: string)
    requires IsBlank(blank) && rest != "" && !IsWhitespace(rest[0])
    ensures TrimStart(blank + rest) == rest
  {
    if blank == "" {
      assert blank + rest == rest;
    } else {
      TrimBlank(blank[1..], rest);
      assert (blank + rest)[1..] == blank[1..] + rest;
    }
  }

  /** `line.chars().filter(|&x| x == c).count()` */
  function CountOf(line: string, c: char): nat {
    if line == "" then 0 else (if line[0] == c then 1 else 0) + CountOf(line[1..], c)
  }

  /** Every occurrence counts. */
  lemma {:induction false} CountOfIsMultiplicity(line: string, c: char)
    ensures CountOf(line, c) == multiset(line)[c]
  {
    if line != "" {
      CountOfIsMultiplicity(line[1..], c);
      assert line == [line[0]] + line[1..];
    }
  }

  /** By how much a line opens more parentheses than it closes. */
  function Delta(line: string): int {
    CountOf(line, '(') - CountOf(line, ')')
  }

  function Balance(lines: seq<string>, from: nat, to: nat): int
    requires from <= to <= |lines|
  {
    if from == to then 0 else Balance(lines, from, to - 1) + Delta(lines[to - 1])
  }

  /** What was opened since line `i` is closed after line `k`. */
  predicate Closes(lines: seq<string>, i: nat, k: nat) {
    i <= k < |lines| && Balance(lines, i, k + 1) <= 0
  }

  /** The first line at or after `from` that closes line `i`. */
  function FirstClose(lines: seq<string>, i: nat, from: nat): (r: Option<nat>)
    requires i <= from <= |lines|
    ensures r.Some? ==> from <= r.value < |lines| && Closes(lines, i, r.value)
    ensures forall k :: from <= k < (if r.Some? then r.value else |lines|) ==> !Closes(lines, i, k)
    decreases |lines| - from
  {
    if from == |lines| then None
    else if Closes(lines, i, from) then Some(from)
    else FirstClose(lines, i, from + 1)
  }

  /** The lines of a function, each with its newline. */
  function Text(lines: seq<string>): string {
    if lines == [] then "" else Text(lines[..|lines| - 1]) + lines[|lines| - 1] + "\n"
  }

  function Times(text: string, c: char): nat {
    multiset(text)[c]
  }

  /** The balance of some lines is how many more opening than closing parentheses their text holds. */
  lemma {:induction false} BalanceOfText(lines: seq<string>, i: nat, k: nat)
    requires i <= k <= |lines|
    ensures Balance(lines, i, k) == Times(Text(lines[i..k]), '(') - Times(Text(lines[i..k]), ')')
  {
    hide CountOf, Balance, Text, Times;
    if i < k {
      BalanceOfText(lines, i, k - 1);
      TakeLine(lines, i, k - 1);
      LineAdds(Text(lines[i..k - 1]), lines[k - 1], '(');
      LineAdds(Text(lines[i..k - 1]), lines[k - 1], ')');
    } else {
      NoLines(lines, i);
      assert Times("", '(') == Times("", ')') == 0 by { NotAtAll(); }
    }
  }

  lemma NotAtAll()
    ensures Times("", '(') == Times("", ')') == 0
  {
  }

  lemma LineAdds(text: string, line: string, c: char)
    requires c != '\n'
    ensures Times(text + line + "\n", c) == Times(text, c) + CountOf(line, c)
  {
    CountOfIsMultiplicity(line, c);
    hide CountOf;
    assert multiset("\n")[c] == 0;
  }

  /** The text of some lines is each of them with a newline after it, in order. */
  lemma TextInOrder(line: string, rest: seq<string>)
    ensures Text([]) == "" && Text([line]) == line + "\n"
    ensures Text([line] + rest) == line + "\n" + Text(rest)
  {
    assert [line][..0] == [];
    assert Text([line]) == "" + line + "\n";
    TextSplits([line], rest);
  }

  lemma NoLines(lines: seq<string>, i: nat)
    requires i <= |lines|
    ensures Balance(lines, i, i) == 0 && Text(lines[i..i]) == ""
  {
  }

  /** One more line of the function that starts at line `i`. */
  lemma TakeLine(lines: seq<string>, i: nat, k: nat)
    requires i <= k < |lines|
    ensures Balance(lines, i, k + 1) == Balance(lines, i, k) + Delta(lines[k])
    ensures Text(lines[i..k + 1]) == Text(lines[i..k]) + lines[k] + "\n"
    ensures Closes(lines, i, k) <==> Balance(lines, i, k + 1) <= 0
    ensures FirstClose(lines, i, k) == if Closes(lines, i, k) then Some(k) else FirstClose(lines, i, k + 1)
  {
    hide Delta;
    assert lines[i..k + 1][..k - i] == lines[i..k];
  }

  /** A function found in the text: lines `first` to `last`, both included. */
  datatype Range = Range(first: nat, last: nat)

  predicate Within(lines: seq<string>, r: Range) {
    r.first <= r.last < |lines|
  }

  function TextOf(lines: seq<string>, r: Range): string
    requires Within(lines, r)
  {
    Text(lines[r.first..r.last + 1])
  }

  // ---------------------------------------------------------------- the streaming scan

  /** The streaming scan does not look at the balance of a header line by itself, and what an unclosed
      header swallows is lost. */
  function Streamed(lines: seq<string>, i: nat): (ranges: seq<Range>)
    requires i <= |lines|
    ensures forall r :: r in ranges ==> Within(lines, r)
    decreases |lines| - i
  {
    if i == |lines| then []
    else if !IsHeader(lines[i]) then Streamed(lines, i + 1)
    else
      match FirstClose(lines, i, i + 1)
      case None => []
      case Some(k) => [Range(i, k)] + Streamed(lines, k + 1)
  }

  /** The 1-based start lines of the functions whose text fails a check. */
  function FlaggedLines(lines: seq<string>, ranges: seq<Range>, check: string -> bool): seq<nat>
    requires forall r :: r in ranges ==> Within(lines, r)
  {
    if ranges == [] then [] else
      var r := ranges[|ranges| - 1];
      FlaggedLines(lines, ranges[..|ranges| - 1], check) + if check(TextOf(lines, r)) then [r.first + 1] else []
  }

  lemma StreamStep(lines: seq<string>, i: nat)
    requires i < |lines|
    ensures Streamed(lines, i) ==
      if !IsHeader(lines[i]) then Streamed(lines, i + 1)
      else match FirstClose(lines, i, i + 1)
        case None => []
        case Some(k) => [Range(i, k)] + Streamed(lines, k + 1)
  {
  }

  /** The scan has dealt with the functions `done` and goes on from line `next`. */
  ghost predicate Scanned(lines: seq<string>, check: string -> bool, done: seq<Range>, findings: seq<nat>, next: nat) {
    && next <= |lines|
    && (forall r :: r in done ==> Within(lines, r))
    && findings == FlaggedLines(lines, done, check)
    && Streamed(lines, 0) == done + Streamed(lines, next)
  }

  /** The scan is inside the function that starts at line `start`, before line `i`. */
  ghost predicate Reading(lines: seq<string>, start: nat, i: nat, text: string, depth: int) {
    && start < i <= |lines|
    && IsHeader(lines[start])
    && depth == Balance(lines, start, i)
    && text == Text(lines[start..i])
    && FirstClose(lines, start, start + 1) == FirstClose(lines, start, i)
  }

  lemma ReadHeader(lines: seq<string>, i: nat)
    requires i < |lines| && IsHeader(lines[i])
    ensures Reading(lines, i, i + 1, lines[i] + "\n", Delta(lines[i]))
  {
    hide IsHeader, Delta, FirstClose, Closes;
    NoLines(lines, i);
    TakeLine(lines, i, i);
    assert "" + lines[i] + "\n" == lines[i] + "\n";
  }

  /** Reading a line either goes on or closes the function. */
  lemma ReadLine(lines: seq<string>, start: nat, i: nat, text: string, depth: int)
    requires i < |lines| && Reading(lines, start, i, text, depth)
    ensures IsHeader(lines[start]) && text + lines[i] + "\n" == TextOf(lines, Range(start, i))
    ensures depth + Delta(lines[i]) > 0 ==>
      Reading(lines, start, i + 1, text + lines[i] + "\n", depth + Delta(lines[i]))
    ensures depth + Delta(lines[i]) <= 0 ==> FirstClose(lines, start, start + 1) == Some(i)
  {
    hide IsHeader, Delta, FirstClose, Closes, Text, Balance;
    TakeLine(lines, start, i);
  }

  lemma ScannedAdds(lines: seq<string>, check: string -> bool, done: seq<Range>, findings: seq<nat>, r: Range)
    requires Scanned(lines, check, done, findings, r.first)
    requires Within(lines, r) && IsHeader(lines[r.first]) && FirstClose(lines, r.first, r.first + 1) == Some(r.last)
    ensures var flagged := if check(TextOf(lines, r)) then [r.first + 1] else [];
      Scanned(lines, check, done + [r], findings + flagged, r.last + 1)
  {
    hide IsHeader, FirstClose, Streamed, Text;
    StreamStep(lines, r.first);
    assert (done + [r])[..|done|] == done;
    assert done + ([r] + Streamed(lines, r.last + 1)) == (done + [r]) + Streamed(lines, r.last + 1);
  }

  lemma ScannedSkips(lines: seq<string>, check: string -> bool, done: seq<Range>, findings: seq<nat>, i: nat)
    requires i < |lines| && !IsHeader(lines[i]) && Scanned(lines, check, done, findings, i)
    ensures Scanned(lines, check, done, findings, i + 1)
  {
  }

  /** At the end of the text an open function is lost. */
  lemma ScannedEnds(lines: seq<string>, check: string -> bool, done: seq<Range>, findings: seq<nat>, next: nat)
    requires Scanned(lines, check, done, findings, next)
    requires next == |lines| || exists text, depth :: Reading(lines, next, |lines|, text, depth)
    ensures findings == FlaggedLines(lines, Streamed(lines, 0), check)
  {
    hide IsHeader, Text, Balance;
    assert Streamed(lines, next) == [];
    assert done + [] == done;
  }

  method ScanStream(lines: seq<string>, check: string -> bool) returns (findings: seq<nat>)
    ensures findings == FlaggedLines(lines, Streamed(lines, 0), check)
  {
    hide IsHeader, Delta, Reading, Text;
    findings := [];
    var inFunc := false;
    var currentFunction := "";
    var start := 0;
    var depth := 0;
    ghost var done: seq<Range> := [];
    assert Scanned(lines, check, done, findings, 0);
    hide Scanned, FirstClose;
    for i := 0 to |lines|
      invariant start <= i
      invariant Scanned(lines, check, done, findings, if inFunc then start else i)
      invariant inFunc ==> Reading(lines, start, i, currentFunction, depth)
    {
      var line := lines[i];
      if !inFunc {
        if IsHeader(line) {
          inFunc := true;
          start := i;
          currentFunction := line + "\n";
          depth := Delta(line);
          ReadHeader(lines, i);
        } else {
          ScannedSkips(lines, check, done, findings, i);
        }
      } else {
        ReadLine(lines, start, i, currentFunction, depth);
        currentFunction := currentFunction + line + "\n";
        depth := depth + Delta(line);
        if depth <= 0 {
          ScannedAdds(lines, check, done, findings, Range(start, i));
          done := done + [Range(start, i)];
          if check(currentFunction) {
            findings := findings + [start + 1];
          }
          inFunc := false;
        }
      }
    }
    ScannedEnds(lines, check, done, findings, if inFunc then start else |lines|);
  }

  /** A line is reported exactly when a function starts there whose text fails the check. */
  lemma {:induction false} FlaggedIff(lines: seq<string>, ranges: seq<Range>, check: string -> bool, n: nat)
    requires forall r :: r in ranges ==> Within(lines, r)
    ensures n in FlaggedLines(lines, ranges, check) <==>
      exists r :: r in ranges && n == r.first + 1 && check(TextOf(lines, r))
  {
    hide Text;
    if ranges != [] {
      var before, last := ranges[..|ranges| - 1], ranges[|ranges| - 1];
      FlaggedIff(lines, before, check, n);
      assert ranges == before + [last];
      assert forall r :: r in ranges <==> r in before || r == last;
    }
  }

  predicate Ascends(ns: seq<nat>, most: nat) {
    && (forall i, j | 0 <= i < j < |ns| :: ns[i] < ns[j])
    && (forall i | 0 <= i < |ns| :: ns[i] <= most)
  }

  /** And the reports come in the order of the functions, one each at most. */
  lemma {:induction false} FlaggedAscend(lines: seq<string>, ranges: seq<Range>, check: string -> bool)
    requires forall r :: r in ranges ==> Within(lines, r)
    requires forall i, j | 0 <= i < j < |ranges| :: ranges[i].last < ranges[j].first
    ensures Ascends(FlaggedLines(lines, ranges, check), if ranges == [] then 0 else ranges[|ranges| - 1].first + 1)
  {
    hide Text;
    if ranges != [] {
      var before, last := ranges[..|ranges| - 1], ranges[|ranges| - 1];
      FlaggedAscend(lines, before, check);
      var ns := FlaggedLines(lines, before, check);
      if before != [] {
        var previous := ranges[|ranges| - 2];
        assert previous in ranges && Within(lines, previous) && previous == before[|before| - 1];
        assert previous.first <= previous.last < last.first;
      }
      assert Ascends(ns, last.first);
    }
  }

  predicate LoopedRead(text: string) {
    Contains(text, "loop")
    && (Contains(text, "storage.get") || Contains(text, "storage_get")
        || Contains(text, "map.get") || Contains(text, "map_get"))
  }

  predicate UnguardedInvoke(text: string) {
    Contains(text, "invoke_contract") && !Contains(text, "require_auth")
  }

  /** What the two checks look for in a function's text. */
  lemma ChecksIff(text: string)
    ensures LoopedRead(text) <==>
      && Occurs(text, "loop")
      && (Occurs(text, "storage.get") || Occurs(text, "storage_get")
          || Occurs(text, "map.get") || Occurs(text, "map_get"))
    ensures UnguardedInvoke(text) <==> Occurs(text, "invoke_contract") && !Occurs(text, "require_auth")
  {
    hide Contains, Occurs;
    ContainsIff(text, "loop");
    ContainsIff(text, "storage.get");
    ContainsIff(text, "storage_get");
    ContainsIff(text, "map.get");
    ContainsIff(text, "map_get");
    ContainsIff(text, "invoke_contract");
    ContainsIff(text, "require_auth");
  }

  method AnalyzeVecIteration(lines: seq<string>) returns (findings: seq<nat>)
    ensures findings == FlaggedLines(lines, Streamed(lines, 0), LoopedRead)
  {
    findings := ScanStream(lines, LoopedRead);
  }

  method AnalyzeMissingAuth(lines: seq<string>) returns (findings: seq<nat>)
    ensures findings == FlaggedLines(lines, Streamed(lines, 0), UnguardedInvoke)
  {
    findings := ScanStream(lines, UnguardedInvoke);
  }

  // ---------------------------------------------------------------- the index loop

  /** The index loop may close a function on its header line, and goes on after an unclosed one. */
  function Indexed(lines: seq<string>, i: nat): (ranges: seq<Range>)
    requires i <= |lines|
    ensures forall r :: r in ranges ==> Within(lines, r)
    decreases |lines| - i
  {
    if i == |lines| then []
    else if !IsHeader(lines[i]) then Indexed(lines, i + 1)
    else
      match FirstClose(lines, i, i)
      case None => Indexed(lines, i + 1)
      case Some(k) => [Range(i, k)] + Indexed(lines, k + 1)
  }

  /** A function's header line, its other lines, and its 1-based start line. */
  datatype Part = Part(prefix: string, suffix: string, line: nat)

  function PartOf(lines: seq<string>, r: Range): Part
    requires Within(lines, r)
  {
    Part(lines[r.first] + "\n", Text(lines[r.first + 1..r.last + 1]), r.first + 1)
  }

  function Parts(lines: seq<string>, ranges: seq<Range>): seq<Part>
    requires forall r :: r in ranges ==> Within(lines, r)
  {
    seq(|ranges|, i requires 0 <= i < |ranges| => PartOf(lines, ranges[i]))
  }

  lemma IndexStep(lines: seq<string>, i: nat)
    requires i < |lines|
    ensures Indexed(lines, i) ==
      if !IsHeader(lines[i]) then Indexed(lines, i + 1)
      else match FirstClose(lines, i, i)
        case None => Indexed(lines, i + 1)
        case Some(k) => [Range(i, k)] + Indexed(lines, k + 1)
  {
  }

  lemma NextPart(lines: seq<string>, done: seq<Range>, r: Range)
    requires Within(lines, r) && forall q :: q in done ==> Within(lines, q)
    ensures Parts(lines, done + [r]) == Parts(lines, done) + [PartOf(lines, r)]
  {
  }

  lemma NothingCloses(lines: seq<string>, i: nat)
    requires i <= |lines|
    ensures FirstClose(lines, i, |lines|) == None
  {
  }

  lemma NoParts(lines: seq<string>)
    ensures Parts(lines, []) == []
  {
  }

  lemma IndexEnd(lines: seq<string>)
    ensures Indexed(lines, |lines|) == []
  {
  }

  method SplitWatFunctions(lines: seq<string>) returns (functions: seq<Part>)
    ensures functions == Parts(lines, Indexed(lines, 0))
  {
    hide IsHeader, Delta, Balance, Text, Closes, FirstClose, Indexed, Parts;
    functions := [];
    ghost var done: seq<Range> := [];
    assert Parts(lines, done) == [] by { NoParts(lines); }
    var i := 0;
    while i < |lines|
      invariant 0 <= i <= |lines|
      invariant forall r :: r in done ==> Within(lines, r)
      invariant functions == Parts(lines, done)
      invariant Indexed(lines, 0) == done + Indexed(lines, i)
    {
      var first := i;
      IndexStep(lines, first);
      if IsHeader(lines[i]) {
        var depth := 0;
        var prefix, suffix, started := "", "", false;
        NoLines(lines, first);
        NoLines(lines, first + 1);
        NothingCloses(lines, first);
        for j := first to |lines|
          invariant i == first
          invariant depth == Balance(lines, first, j)
          invariant started <==> j > first
          invariant !started ==> prefix == suffix == ""
          invariant started ==> prefix == lines[first] + "\n" && suffix == Text(lines[first + 1..j])
          invariant FirstClose(lines, first, first) == FirstClose(lines, first, j)
        {
          var row := lines[j];
          depth := depth + Delta(row);
          TakeLine(lines, first, j);
          if !started {
            prefix := prefix + row + "\n";
            assert prefix == row + "\n";
            started := true;
          } else {
            suffix := suffix + row + "\n";
            TakeLine(lines, first + 1, j);
          }
          if started && depth <= 0 {
            var r := Range(first, j);
            functions := functions + [Part(prefix, suffix, i + 1)];
            NextPart(lines, done, r);
            assert done + ([r] + Indexed(lines, j + 1)) == (done + [r]) + Indexed(lines, j + 1);
            done := done + [r];
            i := j;
            break;
          }
        }
      }
      i := i + 1;
    }
    IndexEnd(lines);
    assert Indexed(lines, 0) == done;
  }

  lemma {:induction false} TextSplits(a: seq<string>, b: seq<string>)
    ensures Text(a + b) == Text(a) + Text(b)
  {
    if b == [] {
      assert a + b == a;
    } else {
      assert (a + b)[..|a + b| - 1] == a + b[..|b| - 1];
      TextSplits(a, b[..|b| - 1]);
    }
  }

  /** The two parts of a function are its text. */
  lemma PartIsText(lines: seq<string>, r: Range)
    requires Within(lines, r)
    ensures PartOf(lines, r).prefix + PartOf(lines, r).suffix == TextOf(lines, r)
  {
    var header := lines[r.first..r.first + 1];
    assert lines[r.first..r.last + 1] == header + lines[r.first + 1..r.last + 1];
    TextSplits(header, lines[r.first + 1..r.last + 1]);
    assert header == [lines[r.first]] && header[..0] == [];
    assert Text(header) == "" + lines[r.first] + "\n";
  }

  // ---------------------------------------------------------------- what the cuts are

  /** `r` starts at a header and ends at the first line that closes it, not looking at the first
      `blind` lines. */
  ghost predicate IsFunction(lines: seq<string>, r: Range, blind: nat) {
    && r.first + blind <= r.last
    && Within(lines, r)
    && IsHeader(lines[r.first])
    && Closes(lines, r.first, r.last)
    && forall k :: r.first + blind <= k < r.last ==> !Closes(lines, r.first, k)
  }

  /** Functions from line `from` on, one after the other. */
  ghost predicate AreFunctions(lines: seq<string>, ranges: seq<Range>, blind: nat, from: nat) {
    && (forall i | 0 <= i < |ranges| :: from <= ranges[i].first && IsFunction(lines, ranges[i], blind))
    && (forall i, j | 0 <= i < j < |ranges| :: ranges[i].last < ranges[j].first)
  }

  ghost predicate Covers(ranges: seq<Range>, h: nat) {
    exists i :: 0 <= i < |ranges| && ranges[i].first <= h <= ranges[i].last
  }

  ghost predicate NeverCloses(lines: seq<string>, h: nat, blind: nat) {
    forall k :: h + blind <= k < |lines| ==> !Closes(lines, h, k)
  }

  /** What the index loop finds: functions that cover every header that closes. */
  ghost predicate IsIndexedSplit(lines: seq<string>, ranges: seq<Range>, from: nat) {
    && AreFunctions(lines, ranges, 0, from)
    && forall h :: from <= h < |lines| && IsHeader(lines[h]) ==> Covers(ranges, h) || NeverCloses(lines, h, 0)
  }

  /** Where the streaming scan gets stuck. */
  ghost predicate StuckAt(lines: seq<string>, ranges: seq<Range>, u: nat, from: nat) {
    && from <= u < |lines| && IsHeader(lines[u]) && NeverCloses(lines, u, 1)
    && forall i | 0 <= i < |ranges| :: ranges[i].last < u
  }

  ghost predicate StuckBy(lines: seq<string>, ranges: seq<Range>, h: nat, from: nat) {
    exists u: nat | u <= h :: StuckAt(lines, ranges, u, from)
  }

  /** What the streaming scan finds: functions that cover every header up to where it gets stuck. */
  ghost predicate IsStreamedSplit(lines: seq<string>, ranges: seq<Range>, from: nat) {
    && AreFunctions(lines, ranges, 1, from)
    && forall h :: from <= h < |lines| && IsHeader(lines[h]) ==>
      Covers(ranges, h) || StuckBy(lines, ranges, h, from)
  }

  lemma AddFirst(lines: seq<string>, r: Range, rest: seq<Range>, blind: nat)
    requires IsFunction(lines, r, blind)
    requires AreFunctions(lines, rest, blind, r.last + 1)
    ensures AreFunctions(lines, [r] + rest, blind, r.first)
    ensures forall h: nat :: Covers([r] + rest, h) <==> r.first <= h <= r.last || Covers(rest, h)
  {
    hide Closes, IsHeader;
    var all := [r] + rest;
    assert forall i | 0 < i < |all| :: all[i] == rest[i - 1];
    forall h: nat ensures Covers(all, h) <==> r.first <= h <= r.last || Covers(rest, h) {
      if r.first <= h <= r.last { assert all[0].first <= h <= all[0].last; }
      if Covers(rest, h) {
        var i :| 0 <= i < |rest| && rest[i].first <= h <= rest[i].last;
        assert all[i + 1] == rest[i];
      }
    }
  }

  lemma IndexedIsSplitSkips(lines: seq<string>, ranges: seq<Range>, i: nat)
    requires i < |lines|
    requires IsIndexedSplit(lines, ranges, i + 1)
    requires !IsHeader(lines[i]) || NeverCloses(lines, i, 0)
    ensures IsIndexedSplit(lines, ranges, i)
  {
    hide IsHeader, Closes, Covers, NeverCloses, IsFunction;
  }

  lemma IndexedIsSplitAdds(lines: seq<string>, r: Range, rest: seq<Range>)
    requires IsFunction(lines, r, 0)
    requires IsIndexedSplit(lines, rest, r.last + 1)
    ensures IsIndexedSplit(lines, [r] + rest, r.first)
  {
    hide IsHeader, Closes, Covers, NeverCloses, AreFunctions;
    AddFirst(lines, r, rest, 0);
  }

  /** The index loop cuts the text into such functions: consecutive, disjoint, each ending at the first
      line where its parentheses balance. */
  lemma {:induction false} IndexedIsSplit(lines: seq<string>, i: nat)
    requires i <= |lines|
    ensures IsIndexedSplit(lines, Indexed(lines, i), i)
    decreases |lines| - i
  {
    hide IsHeader, Closes, Covers;
    if i < |lines| {
      hide IsIndexedSplit;
      if !IsHeader(lines[i]) || FirstClose(lines, i, i).None? {
        IndexedIsSplit(lines, i + 1);
        IndexedIsSplitSkips(lines, Indexed(lines, i + 1), i);
      } else {
        var k := FirstClose(lines, i, i).value;
        IndexedIsSplit(lines, k + 1);
        IndexedIsSplitAdds(lines, Range(i, k), Indexed(lines, k + 1));
      }
    }
  }

  lemma StreamedIsSplitSkips(lines: seq<string>, ranges: seq<Range>, i: nat)
    requires i < |lines|
    requires IsStreamedSplit(lines, ranges, i + 1)
    requires !IsHeader(lines[i])
    ensures IsStreamedSplit(lines, ranges, i)
  {
    hide IsHeader, Closes, Covers, NeverCloses, IsFunction;
    forall h: nat | i <= h < |lines| && IsHeader(lines[h])
      ensures Covers(ranges, h) || StuckBy(lines, ranges, h, i)
    {
      if !Covers(ranges, h) {
        var u: nat :| u <= h && StuckAt(lines, ranges, u, i + 1);
        assert StuckAt(lines, ranges, u, i);
      }
    }
  }

  lemma StreamedIsSplitAdds(lines: seq<string>, r: Range, rest: seq<Range>)
    requires IsFunction(lines, r, 1)
    requires IsStreamedSplit(lines, rest, r.last + 1)
    ensures IsStreamedSplit(lines, [r] + rest, r.first)
  {
    hide IsHeader, Closes, Covers, NeverCloses, AreFunctions;
    AddFirst(lines, r, rest, 1);
    forall h: nat | r.first <= h < |lines| && IsHeader(lines[h])
      ensures Covers([r] + rest, h) || StuckBy(lines, [r] + rest, h, r.first)
    {
      if !Covers([r] + rest, h) {
        var u: nat :| u <= h && StuckAt(lines, rest, u, r.last + 1);
        assert StuckAt(lines, [r] + rest, u, r.first);
      }
    }
  }

  /** The streaming scan cuts the text in the same way, but never closes a function on its header line,
      and finds nothing more once a header is never closed. */
  lemma {:induction false} StreamedIsSplit(lines: seq<string>, i: nat)
    requires i <= |lines|
    ensures IsStreamedSplit(lines, Streamed(lines, i), i)
    decreases |lines| - i
  {
    hide IsHeader, Closes, Covers;
    if i < |lines| {
      if !IsHeader(lines[i]) {
        hide IsStreamedSplit;
        StreamedIsSplit(lines, i + 1);
        StreamedIsSplitSkips(lines, Streamed(lines, i + 1), i);
      } else if FirstClose(lines, i, i + 1).None? {
        assert StuckAt(lines, [], i, i);
      } else {
        hide IsStreamedSplit;
        var k := FirstClose(lines, i, i + 1).value;
        StreamedIsSplit(lines, k + 1);
        StreamedIsSplitAdds(lines, Range(i, k), Streamed(lines, k + 1));
      }
    }
  }

  /** A list of functions that covers the first line starts there. */
  lemma FirstStartsAt(lines: seq<string>, ranges: seq<Range>, blind: nat, i: nat, k: nat)
    requires AreFunctions(lines, ranges, blind, i) && Covers(ranges, i)
    requires IsFunction(lines, Range(i, k), blind)
    ensures ranges != [] && ranges[0] == Range(i, k)
    ensures AreFunctions(lines, ranges[1..], blind, k + 1)
    ensures forall h: nat | k < h :: Covers(ranges, h) ==> Covers(ranges[1..], h)
  {
    hide IsHeader;
    var j :| 0 <= j < |ranges| && ranges[j].first <= i <= ranges[j].last;
    assert IsFunction(lines, ranges[j], blind);
    assert IsFunction(lines, ranges[0], blind);
    var rest := ranges[1..];
    forall h: nat | k < h && Covers(ranges, h) ensures Covers(rest, h) {
      var m :| 0 <= m < |ranges| && ranges[m].first <= h <= ranges[m].last;
      assert rest[m - 1] == ranges[m];
    }
  }

  lemma NothingStartsAt(lines: seq<string>, ranges: seq<Range>, blind: nat, i: nat)
    requires i < |lines| && AreFunctions(lines, ranges, blind, i)
    requires !IsHeader(lines[i]) || NeverCloses(lines, i, blind)
    ensures AreFunctions(lines, ranges, blind, i + 1)
  {
    hide IsHeader, Closes;
    forall j | 0 <= j < |ranges| ensures ranges[j].first != i {
      assert IsFunction(lines, ranges[j], blind);
    }
  }

  lemma FirstWithin(lines: seq<string>, ranges: seq<Range>, blind: nat, from: nat)
    requires AreFunctions(lines, ranges, blind, from)
    ensures ranges != [] ==> from <= ranges[0].first <= ranges[0].last < |lines|
  {
    if ranges != [] { assert IsFunction(lines, ranges[0], blind); }
  }

  /** There is only one such cut: the index loop computes it. */
  lemma {:induction false} IndexedIsTheSplit(lines: seq<string>, ranges: seq<Range>, i: nat)
    requires i <= |lines|
    ensures IsIndexedSplit(lines, ranges, i) <==> ranges == Indexed(lines, i)
    decreases |lines| - i
  {
    hide IsHeader, Closes, Covers;
    IndexedIsSplit(lines, i);
    if IsIndexedSplit(lines, ranges, i) {
      FirstWithin(lines, ranges, 0, i);
      if i == |lines| {
        assert ranges == [];
      } else if !IsHeader(lines[i]) || FirstClose(lines, i, i).None? {
        NothingStartsAt(lines, ranges, 0, i);
        IndexedIsTheSplit(lines, ranges, i + 1);
      } else {
        var k := FirstClose(lines, i, i).value;
        FirstStartsAt(lines, ranges, 0, i, k);
        IndexedIsTheSplit(lines, ranges[1..], k + 1);
      }
    }
  }

  /** And the streaming scan computes the only cut of its kind. */
  lemma {:induction false} StreamedIsTheSplit(lines: seq<string>, ranges: seq<Range>, i: nat)
    requires i <= |lines|
    ensures IsStreamedSplit(lines, ranges, i) <==> ranges == Streamed(lines, i)
    decreases |lines| - i
  {
    hide IsHeader, Closes, Covers;
    StreamedIsSplit(lines, i);
    if IsStreamedSplit(lines, ranges, i) {
      FirstWithin(lines, ranges, 1, i);
      if i == |lines| {
        assert ranges == [];
      } else if !IsHeader(lines[i]) {
        NothingStartsAt(lines, ranges, 1, i);
        StreamedOnlySkips(lines, ranges, i);
        StreamedIsTheSplit(lines, ranges, i + 1);
      } else if FirstClose(lines, i, i + 1).None? {
        NothingStartsAt(lines, ranges, 1, i);
        NotCovered(ranges, i);
        assert StuckAt(lines, ranges, i, i);
        assert ranges == [];
      } else {
        var k := FirstClose(lines, i, i + 1).value;
        StreamedOnlyAdds(lines, ranges, i, k);
        StreamedIsTheSplit(lines, ranges[1..], k + 1);
      }
    }
  }

  lemma NotCovered(ranges: seq<Range>, i: nat)
    requires forall j | 0 <= j < |ranges| :: i < ranges[j].first
    ensures !Covers(ranges, i)
  {
  }

  lemma StreamedOnlySkips(lines: seq<string>, ranges: seq<Range>, i: nat)
    requires i < |lines| && !IsHeader(lines[i])
    requires IsStreamedSplit(lines, ranges, i) && AreFunctions(lines, ranges, 1, i + 1)
    ensures IsStreamedSplit(lines, ranges, i + 1)
  {
    hide IsHeader, Closes, Covers, NeverCloses, AreFunctions;
    forall h: nat | i < h < |lines| && IsHeader(lines[h])
      ensures Covers(ranges, h) || StuckBy(lines, ranges, h, i + 1)
    {
      if !Covers(ranges, h) {
        var u: nat :| u <= h && StuckAt(lines, ranges, u, i);
        assert StuckAt(lines, ranges, u, i + 1);
      }
    }
  }

  lemma StreamedOnlyAdds(lines: seq<string>, ranges: seq<Range>, i: nat, k: nat)
    requires IsFunction(lines, Range(i, k), 1) && IsStreamedSplit(lines, ranges, i)
    ensures ranges != [] && ranges[0] == Range(i, k)
    ensures IsStreamedSplit(lines, ranges[1..], k + 1)
  {
    hide IsHeader, Closes, Covers, AreFunctions;
    assert !StuckBy(lines, ranges, i, i);
    FirstStartsAt(lines, ranges, 1, i, k);
    var rest := ranges[1..];
    forall h: nat | k < h < |lines| && IsHeader(lines[h])
      ensures Covers(rest, h) || StuckBy(lines, rest, h, k + 1)
    {
      if !Covers(rest, h) {
        var u: nat :| u <= h && StuckAt(lines, ranges, u, i);
        assert ranges[0].last < u;
        assert StuckAt(lines, rest, u, k + 1);
      }
    }
  }

  // ---------------------------------------------------------------- where the two cuts agree

  /** No header from line `i` on ever closes. */
  ghost predicate NoneCloses(lines: seq<string>, i: nat) {
    forall h: nat | i <= h < |lines| && IsHeader(lines[h]) :: NeverCloses(lines, h, 0)
  }

  /** Every header the scan meets opens more parentheses than it closes, and either its function closes,
      or nothing closes any more. */
  ghost predicate Regular(lines: seq<string>, i: nat)
    requires i <= |lines|
    decreases |lines| - i
  {
    if i == |lines| then true
    else if !IsHeader(lines[i]) then Regular(lines, i + 1)
    else
      && Delta(lines[i]) > 0
      && match FirstClose(lines, i, i + 1)
         case None => NoneCloses(lines, i + 1)
         case Some(k) => Regular(lines, k + 1)
  }

  /** A header that opens more than it closes is not closed on its own line. */
  lemma HeaderCloses(lines: seq<string>, i: nat)
    requires i < |lines|
    ensures Closes(lines, i, i) <==> Delta(lines[i]) <= 0
    ensures Delta(lines[i]) > 0 ==> FirstClose(lines, i, i) == FirstClose(lines, i, i + 1)
    ensures Delta(lines[i]) <= 0 ==> FirstClose(lines, i, i) == Some(i)
  {
    hide Delta;
    NoLines(lines, i);
    TakeLine(lines, i, i);
  }

  /** The index loop finds nothing exactly when no header closes. */
  lemma IndexedFindsNothingIff(lines: seq<string>, i: nat)
    requires i <= |lines|
    ensures Indexed(lines, i) == [] <==> NoneCloses(lines, i)
  {
    hide IsHeader, Closes, Indexed, NeverCloses;
    IndexedIsTheSplit(lines, [], i);
  }

  lemma Heads(r: Range, a: seq<Range>, s: Range, b: seq<Range>)
    ensures [r] + a == [s] + b <==> r == s && a == b
  {
    assert ([r] + a)[1..] == a && ([s] + b)[1..] == b;
    assert ([r] + a)[0] == r && ([s] + b)[0] == s;
  }

  lemma HeaderAgreesIff(lines: seq<string>, i: nat, s: Option<nat>)
    requires i < |lines| && IsHeader(lines[i]) && s == FirstClose(lines, i, i + 1)
    requires s.Some? ==> (Streamed(lines, s.value + 1) == Indexed(lines, s.value + 1) <==> Regular(lines, s.value + 1))
    ensures Streamed(lines, i) == Indexed(lines, i) <==> Regular(lines, i)
  {
    hide IsHeader, Closes, Delta, Streamed, Indexed, FirstClose, NoneCloses;
    StreamStep(lines, i);
    IndexStep(lines, i);
    HeaderCloses(lines, i);
    if Delta(lines[i]) <= 0 {
      if s.Some? {
        Heads(Range(i, s.value), Streamed(lines, s.value + 1), Range(i, i), Indexed(lines, i + 1));
      }
    } else if s.None? {
      IndexedFindsNothingIff(lines, i + 1);
    } else {
      Heads(Range(i, s.value), Streamed(lines, s.value + 1), Range(i, s.value), Indexed(lines, s.value + 1));
    }
  }

  /** Exactly on regular texts the two cuts are the same. */
  lemma {:induction false} CutsAgreeIff(lines: seq<string>, i: nat)
    requires i <= |lines|
    ensures Streamed(lines, i) == Indexed(lines, i) <==> Regular(lines, i)
    decreases |lines| - i
  {
    if i < |lines| {
      hide IsHeader, Closes, FirstClose, NoneCloses;
      if IsHeader(lines[i]) {
        var s := FirstClose(lines, i, i + 1);
        if s.Some? { CutsAgreeIff(lines, s.value + 1); }
        hide Streamed, Indexed, Regular;
        HeaderAgreesIff(lines, i, s);
      } else {
        CutsAgreeIff(lines, i + 1);
      }
    }
  }

  lemma RegularWhenAllClose(lines: seq<string>, i: nat)
    requires i <= |lines|
    requires forall h: nat | i <= h < |lines| && IsHeader(lines[h]) ::
      Delta(lines[h]) > 0 && FirstClose(lines, h, h + 1).Some?
    ensures Regular(lines, i)
    decreases |lines| - i
  {
    hide IsHeader, Closes, Delta;
    if i < |lines| {
      if IsHeader(lines[i]) {
        RegularWhenAllClose(lines, FirstClose(lines, i, i + 1).value + 1);
      } else {
        RegularWhenAllClose(lines, i + 1);
      }
    }
  }

  lemma {:induction false} TextTellsLength(lines: seq<string>, r: Range, s: Range)
    requires Within(lines, r) && Within(lines, s) && r.first == s.first && r.last < s.last
    ensures |TextOf(lines, r)| < |TextOf(lines, s)|
  {
    var more := lines[r.last + 1..s.last + 1];
    assert lines[s.first..s.last + 1] == lines[r.first..r.last + 1] + more;
    TextSplits(lines[r.first..r.last + 1], more);
    assert Text(more) == Text(more[..|more| - 1]) + more[|more| - 1] + "\n";
  }

  /** What a reader of the results sees: the text and the start line of each function, in order. */
  predicate SameFunctions(lines: seq<string>, a: seq<Range>, b: seq<Range>)
    requires forall r :: r in a || r in b ==> Within(lines, r)
  {
    |a| == |b| && forall i | 0 <= i < |a| ::
      assert a[i] in a && b[i] in b;
      a[i].first == b[i].first && TextOf(lines, a[i]) == TextOf(lines, b[i])
  }

  lemma SameTextsSameRanges(lines: seq<string>, a: seq<Range>, b: seq<Range>)
    requires forall r :: r in a || r in b ==> Within(lines, r)
    ensures SameFunctions(lines, a, b) <==> a == b
  {
    hide Text;
    if SameFunctions(lines, a, b) {
      forall i | 0 <= i < |a| ensures a[i] == b[i] {
        assert a[i] in a && b[i] in b;
        if a[i].last < b[i].last {
          TextTellsLength(lines, a[i], b[i]);
        } else if b[i].last < a[i].last {
          TextTellsLength(lines, b[i], a[i]);
        }
      }
    }
  }

  /** The scan of the checks and the loop of the fixer give the same function texts and start lines on
      exactly the regular texts. */
  lemma ResultsAgreeIff(lines: seq<string>)
    ensures SameFunctions(lines, Streamed(lines, 0), Indexed(lines, 0)) <==> Regular(lines, 0)
  {
    hide SameFunctions, Streamed, Indexed, Regular, Within;
    CutsAgreeIff(lines, 0);
    SameTextsSameRanges(lines, Streamed(lines, 0), Indexed(lines, 0));
  }

  /** When every header line opens more than it closes and every function closes, the checks and the
      fixer see the same functions, texts and start lines. */
  lemma RegularTextsAgree(lines: seq<string>)
    requires forall h: nat | h < |lines| && IsHeader(lines[h]) ::
      Delta(lines[h]) > 0 && FirstClose(lines, h, h + 1).Some?
    ensures Streamed(lines, 0) == Indexed(lines, 0)
    ensures SameFunctions(lines, Streamed(lines, 0), Indexed(lines, 0))
  {
    hide IsHeader, Delta, FirstClose, Streamed, Indexed, SameFunctions, Within, Regular;
    RegularWhenAllClose(lines, 0);
    CutsAgreeIff(lines, 0);
    ResultsAgreeIff(lines);
  }

  /** The smallest text on which they differ: one function of one line, which the streaming scan loses. */
  lemma OneLineFunctionLost(line: string)
    requires IsHeader(line) && Delta(line) == 0
    ensures Streamed([line], 0) == []
    ensures Indexed([line], 0) == [Range(0, 0)]
  {
    hide IsHeader, Delta;
    HeaderCloses([line], 0);
    assert Indexed([line], 1) == [];
  }

  /** Of two functions of one line each the streaming scan makes one. */
  lemma OneLineFunctionsMerge(line: string)
    requires IsHeader(line) && Delta(line) == 0
    ensures Streamed([line, line], 0) == [Range(0, 1)]
    ensures Indexed([line, line], 0) == [Range(0, 0), Range(1, 1)]
  {
    hide IsHeader, Delta;
    var lines := [line, line];
    HeaderCloses(lines, 0);
    HeaderCloses(lines, 1);
    assert Balance(lines, 0, 2) == Balance(lines, 0, 1) + 0 == 0;
    assert FirstClose(lines, 0, 1) == Some(1);
    assert Streamed(lines, 2) == [] && Indexed(lines, 2) == [];
    assert Indexed(lines, 1) == [Range(1, 1)];
  }

  lemma OneLineFunctionExists()
    ensures IsHeader("(func)") && Delta("(func)") == 0
  {
    var line := "(func)";
    assert line[1..] == "func)" && "func)"[1..] == "unc)" && "unc)"[1..] == "nc)";
    assert "nc)"[1..] == "c)" && "c)"[1..] == ")";
  }

  /** A header with a parameter, or anything else in parentheses, and the line that closes it: both cuts
      find one function of two lines. */
  lemma HeaderWithParameter(a: string, b: string)
    requires '(' !in a + b && ')' !in a + b
    ensures var lines := ["(func" + a + "(" + b + ")", ")"];
      Streamed(lines, 0) == [Range(0, 1)] && Indexed(lines, 0) == [Range(0, 1)]
  {
    var header := "(func" + a + "(" + b + ")";
    assert IsHeader(header) by {
      IsHeaderIff(header);
      assert IsBlank("") && header == "" + "(func" + (a + "(" + b + ")");
    }
    HeaderDelta(a, b);
    ParenDeltas();
    hide IsHeader, Delta;
    TwoLines(header, ")");
  }

  lemma {:induction false} DeltaConcatenates(a: string, b: string)
    ensures Delta(a + b) == Delta(a) + Delta(b)
  {
    CountOfIsMultiplicity(a, '(');
    CountOfIsMultiplicity(a, ')');
    CountOfIsMultiplicity(b, '(');
    CountOfIsMultiplicity(b, ')');
    CountOfIsMultiplicity(a + b, '(');
    CountOfIsMultiplicity(a + b, ')');
    hide CountOf;
  }

  lemma ParenDeltas()
    ensures Delta("(") == 1 && Delta(")") == -1
  {
    assert "("[1..] == "" && ")"[1..] == "";
  }

  lemma PlainDelta(s: string)
    requires '(' !in s && ')' !in s
    ensures Delta(s) == 0
  {
    CountOfIsMultiplicity(s, '(');
    CountOfIsMultiplicity(s, ')');
    hide CountOf;
  }

  lemma HeaderDelta(a: string, b: string)
    requires '(' !in a + b && ')' !in a + b
    ensures Delta("(func" + a + "(" + b + ")") == 1
  {
    assert forall c :: c in a || c in b ==> c in a + b;
    PlainDelta("func");
    PlainDelta(a);
    PlainDelta(b);
    ParenDeltas();
    hide Delta;
    assert "(func" == "(" + "func";
    DeltaConcatenates("(func" + a + "(" + b, ")");
    DeltaConcatenates("(func" + a + "(", b);
    DeltaConcatenates("(func" + a, "(");
    DeltaConcatenates("(func", a);
    DeltaConcatenates("(", "func");
  }

  lemma TwoLines(header: string, end: string)
    requires IsHeader(header) && Delta(header) == 1 && Delta(end) == -1
    ensures Streamed([header, end], 0) == [Range(0, 1)] && Indexed([header, end], 0) == [Range(0, 1)]
  {
    hide IsHeader, Delta;
    var lines := [header, end];
    HeaderCloses(lines, 0);
    assert Balance(lines, 0, 2) == Balance(lines, 0, 1) + Delta(end) == 0;
    assert FirstClose(lines, 0, 1) == Some(1);
    assert Streamed(lines, 2) == [] && Indexed(lines, 2) == [];
  }
}
