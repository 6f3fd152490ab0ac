/** The bounded, recursive file collection of the auditor. */
module FileTree {
  import opened Wrappers

  /** What reading a directory yields. `Unreadable` is an entry, or a directory, that fails to read. */
  datatype Entry =
    | File(name: string)
    | Directory(name: string, entries: seq<Entry>)
    | Symlink(name: string)
    | Special(name: string)
    | Unreadable(name: string)

  type Path = seq<string>

  datatype CollectError = ReadFailed | TooManyFiles

  const IGNORED: set<string> := {".git", "target", "node_modules", ".starforge"}

  method CollectFiles(entries: seq<Entry>, directory: Path, maxFiles: nat, files0: seq<Path>)
    returns (r: Result<seq<Path>, CollectError>)
    requires |files0| <= maxFiles
    ensures r.Success? <==> Readable(entries) && |files0| + |FilesUnder(entries, directory)| <= maxFiles
    ensures r.Success? ==> r.value == files0 + FilesUnder(entries, directory)
    ensures r.Failure? ==>
      r.error == if |files0| + FilesBeforeFailure(entries) > maxFiles then TooManyFiles else ReadFailed
    decreases entries
  {
    hide FilesUnder, Readable, FilesBeforeFailure, IGNORED;
    var files := files0;
    NoEntries(entries, directory);
    for i := 0 to |entries|
      invariant Readable(entries[..i])
      invariant files == files0 + FilesUnder(entries[..i], directory)
      invariant |files| <= maxFiles
    {
      TakeEntry(entries, i, directory);
      var entry := entries[i];
      match entry {
        case Symlink(_) =>
        case Special(_) =>
        case Unreadable(_) => return Failure(ReadFailed);
        case Directory(name, inner) =>
          if name !in IGNORED {
            ReadableFiles(inner, directory + [name]);
            var collected := CollectFiles(inner, directory + [name], maxFiles, files);
            if collected.Failure? { return Failure(collected.error); }
            files := collected.value;
          }
        case File(name) =>
          if |files| >= maxFiles { return Failure(TooManyFiles); }
          files := files + [directory + [name]];
      }
    }
    assert entries[..|entries|] == entries;
    r := Success(files);
  }

  lemma NoEntries(entries: seq<Entry>, directory: Path)
    ensures Readable(entries[..0]) && FilesUnder(entries[..0], directory) == []
  {
  }

  /** One more entry of a directory. */
  lemma TakeEntry(entries: seq<Entry>, i: nat, directory: Path)
    requires i < |entries| && Readable(entries[..i])
    ensures FilesUnder(entries[..i + 1], directory)
         == FilesUnder(entries[..i], directory) + FilesOf(entries[i], directory)
    ensures Readable(entries[..i + 1]) == ReadableEntry(entries[i])
    ensures var visited := |FilesUnder(entries[..i], directory)| + FilesBeforeFailureIn(entries[i]);
      && visited <= FilesBeforeFailure(entries)
      && (!ReadableEntry(entries[i]) ==> visited == FilesBeforeFailure(entries))
    ensures Readable(entries) ==> ReadableEntry(entries[i])
    ensures |FilesUnder(entries[..i], directory) + FilesOf(entries[i], directory)| <= |FilesUnder(entries, directory)|
  {
    assert entries[..i + 1][..i] == entries[..i];
    Monotone(entries, i + 1, directory);
    ReadableFiles(entries[..i], directory);
  }

  function FilesOf(entry: Entry, directory: Path): seq<Path>
    decreases entry, 0
  {
    match entry
    case File(name) => [directory + [name]]
    case Directory(name, inner) => if name in IGNORED then [] else FilesUnder(inner, directory + [name])
    case _ => []
  }

  /** The regular files below a directory, outside symbolic links and ignored directories. */
  function FilesUnder(entries: seq<Entry>, directory: Path): seq<Path>
    decreases entries, 1
  {
    if entries == [] then []
    else FilesUnder(entries[..|entries| - 1], directory) + FilesOf(entries[|entries| - 1], directory)
  }

  function FilesBeforeFailureIn(entry: Entry): nat
    decreases entry, 0
  {
    match entry
    case File(_) => 1
    case Directory(name, inner) => if name in IGNORED then 0 else FilesBeforeFailure(inner)
    case _ => 0
  }

  /** How many regular files the walk comes to before something fails to read, if anything does. */
  function FilesBeforeFailure(entries: seq<Entry>): nat
    decreases entries, 1
  {
    if entries == [] then 0 else
      var before := entries[..|entries| - 1];
      FilesBeforeFailure(before) + if Readable(before) then FilesBeforeFailureIn(entries[|entries| - 1]) else 0
  }

  lemma {:induction false} ReadableFilesIn(entry: Entry, directory: Path)
    requires ReadableEntry(entry)
    ensures FilesBeforeFailureIn(entry) == |FilesOf(entry, directory)|
    decreases entry, 0
  {
    match entry
    case Directory(name, inner) =>
      if name !in IGNORED { ReadableFiles(inner, directory + [name]); }
    case _ =>
  }

  /** Where nothing fails to read, these are all files. */
  lemma {:induction false} ReadableFiles(entries: seq<Entry>, directory: Path)
    ensures Readable(entries) ==> FilesBeforeFailure(entries) == |FilesUnder(entries, directory)|
    decreases entries, 1
  {
    if entries != [] && Readable(entries) {
      ReadableFiles(entries[..|entries| - 1], directory);
      ReadableFilesIn(entries[|entries| - 1], directory);
    }
  }

  predicate ReadableEntry(entry: Entry)
    decreases entry, 0
  {
    match entry
    case Unreadable(_) => false
    case Directory(name, inner) => name in IGNORED || Readable(inner)
    case _ => true
  }

  /** Nothing the walk visits fails to read. */
  predicate Readable(entries: seq<Entry>)
    decreases entries, 1
  {
    entries == [] || (Readable(entries[..|entries| - 1]) && ReadableEntry(entries[|entries| - 1]))
  }

  /** A prefix of a readable listing is readable and holds no more files. */
  lemma {:induction false} Monotone(entries: seq<Entry>, k: nat, directory: Path)
    requires k <= |entries|
    ensures Readable(entries) ==> Readable(entries[..k])
    ensures |FilesUnder(entries[..k], directory)| <= |FilesUnder(entries, directory)|
    ensures FilesBeforeFailure(entries[..k]) <= FilesBeforeFailure(entries)
    ensures !Readable(entries[..k]) ==> FilesBeforeFailure(entries[..k]) == FilesBeforeFailure(entries)
  {
    if k < |entries| {
      Monotone(entries[..|entries| - 1], k, directory);
      assert entries[..|entries| - 1][..k] == entries[..k];
    } else {
      assert entries[..k] == entries;
    }
  }

  // ---------------------------------------------------------------- each file exactly once

  /** Following names from a directory listing leads to a regular file, through no symbolic link and
      no ignored directory. */
  predicate LeadsToFile(entries: seq<Entry>, names: Path)
    decreases |names|, 1
  {
    exists entry :: entry in entries && LeadsVia(entry, names)
  }

  predicate LeadsVia(entry: Entry, names: Path)
    decreases |names|, 0
  {
    && names != [] && entry.name == names[0]
    && match entry
       case File(_) => |names| == 1
       case Directory(name, inner) => name !in IGNORED && LeadsToFile(inner, names[1..])
       case _ => false
  }

  /** As a file system guarantees: no two entries of one directory share a name. */
  ghost predicate WellFormed(entries: seq<Entry>)
    decreases entries, 1
  {
    && (forall i, j :: 0 <= i < j < |entries| ==> entries[i].name != entries[j].name)
    && forall entry :: entry in entries && entry.Directory? ==> WellFormed(entry.entries)
  }

  lemma {:induction false} FilesUnderExact(entries: seq<Entry>, directory: Path, p: Path)
    ensures p in FilesUnder(entries, directory) <==> directory <= p && LeadsToFile(entries, p[|directory|..])
    decreases entries, 1
  {
    if entries != [] {
      var init, last := entries[..|entries| - 1], entries[|entries| - 1];
      FilesUnderExact(init, directory, p);
      FilesOfExact(last, directory, p);
      assert entries == init + [last];
    }
  }

  lemma {:induction false} FilesOfExact(entry: Entry, directory: Path, p: Path)
    ensures p in FilesOf(entry, directory) <==> directory <= p && LeadsVia(entry, p[|directory|..])
    decreases entry, 0
  {
    match entry
    case File(name) =>
      if directory <= p && LeadsVia(entry, p[|directory|..]) {
        assert p == directory + p[|directory|..];
        assert p[|directory|..] == [name];
      }
    case Directory(name, inner) =>
      var deeper := directory + [name];
      FilesUnderExact(inner, deeper, p);
      if directory <= p && |p| > |directory| && p[|directory|] == name {
        assert p == directory + p[|directory|..];
        assert deeper <= p && p[|directory|..][1..] == p[|deeper|..];
      }
    case _ =>
  }

  ghost predicate Distinct(ps: seq<Path>) {
    forall i, j :: 0 <= i < j < |ps| ==> ps[i] != ps[j]
  }

  /** No file is listed twice. */
  lemma {:induction false} FilesUnderDistinct(entries: seq<Entry>, directory: Path)
    requires WellFormed(entries)
    ensures Distinct(FilesUnder(entries, directory))
    decreases entries
  {
    if entries != [] {
      var init, last := entries[..|entries| - 1], entries[|entries| - 1];
      FilesUnderDistinct(init, directory);
      assert last in entries;
      if last.Directory? { FilesUnderDistinct(last.entries, directory + [last.name]); }
      var before, after := FilesUnder(init, directory), FilesOf(last, directory);
      forall i, j | 0 <= i < |before| && 0 <= j < |after| ensures before[i] != after[j] {
        assert before[i] in before && after[j] in after;
        FilesUnderExact(init, directory, before[i]);
        FilesOfExact(last, directory, after[j]);
        var e :| e in init && LeadsVia(e, before[i][|directory|..]);
        assert e.name != last.name;
      }
    }
  }

  // ---------------------------------------------------------------- what the walk visits

  lemma IgnoredAre(name: string)
    ensures name in IGNORED <==> name == ".git" || name == "target" || name == "node_modules" || name == ".starforge"
  {
  }

  /** Following positions in directory listings, through no ignored directory, leads to something that
      fails to read. */
  ghost predicate FailsAt(entries: seq<Entry>, path: seq<nat>)
    decreases |path|, 0
  {
    path != [] && path[0] < |entries| && FailsIn(entries[path[0]], path[1..])
  }

  ghost predicate FailsIn(entry: Entry, path: seq<nat>)
    decreases |path|, 1
  {
    match entry
    case Unreadable(_) => path == []
    case Directory(name, inner) => name !in IGNORED && FailsAt(inner, path)
    case _ => false
  }

  ghost predicate SomethingFails(entries: seq<Entry>) {
    exists path :: FailsAt(entries, path)
  }

  ghost predicate SomethingFailsIn(entry: Entry) {
    exists path :: FailsIn(entry, path)
  }

  lemma FailsSteps(entries: seq<Entry>)
    requires entries != []
    ensures SomethingFails(entries) <==>
      SomethingFails(entries[..|entries| - 1]) || SomethingFailsIn(entries[|entries| - 1])
  {
    hide FailsIn;
    var last := |entries| - 1;
    if path :| FailsAt(entries, path) {
      if path[0] < last {
        assert FailsAt(entries[..last], path);
      } else {
        assert FailsIn(entries[last], path[1..]);
      }
    }
    if path :| FailsAt(entries[..last], path) {
      assert FailsAt(entries, path);
    }
    if rest :| FailsIn(entries[last], rest) {
      assert ([last] + rest)[1..] == rest;
      assert FailsAt(entries, [last] + rest);
    }
  }

  lemma FailsInSteps(entry: Entry)
    ensures SomethingFailsIn(entry) <==>
      entry.Unreadable? || (entry.Directory? && entry.name !in IGNORED && SomethingFails(entry.entries))
  {
    hide IGNORED, FailsAt;
    match entry
    case Unreadable(_) => assert FailsIn(entry, []);
    case Directory(name, inner) =>
      if path :| FailsIn(entry, path) {
        assert FailsAt(inner, path);
      }
      if path :| name !in IGNORED && FailsAt(inner, path) {
        assert FailsIn(entry, path);
      }
    case _ =>
  }

  /** A listing is readable exactly when no path leads to a failure. */
  lemma {:induction false} ReadableIff(entries: seq<Entry>)
    ensures Readable(entries) <==> !SomethingFails(entries)
    decreases entries
  {
    hide SomethingFailsIn, IGNORED;
    if entries != [] {
      hide SomethingFails;
      var last := entries[|entries| - 1];
      ReadableIff(entries[..|entries| - 1]);
      FailsSteps(entries);
      FailsInSteps(last);
      if last.Directory? {
        assert last in entries;
        ReadableIff(last.entries);
      }
    }
  }
}
