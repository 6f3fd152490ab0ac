/** How the approved capabilities and the arguments of a plugin cross a command line: printed for the
    plugin subprocess, and parsed there. */
module PluginCapabilities {
  import opened Strings
  import opened Wrappers

  datatype Capability = NetworkAccess | FileSystem | Config {
    function Name(): string {
      match this
      case NetworkAccess => "NetworkAccess"
      case FileSystem => "FileSystem"
      case Config => "Config"
    }
  }

  const NO_CAPABILITIES := "none"

  function FromName(name: string): Option<Capability> {
    match name
    case "NetworkAccess" => Some(NetworkAccess)
    case "FileSystem" => Some(FileSystem)
    case "Config" => Some(Config)
    case _ => None
  }

  function Names(capabilities: seq<Capability>): seq<string> {
    seq(|capabilities|, i requires 0 <= i < |capabilities| => capabilities[i].Name())
  }

  function Printed(capabilities: seq<Capability>): string {
    if capabilities == [] then NO_CAPABILITIES else Join(Names(capabilities), ",")
  }

  /** The capabilities named by `parts`; anything else is skipped. */
  function Recognized(parts: seq<string>): seq<Capability> {
    if parts == [] then [] else
      Recognized(parts[..|parts| - 1]) +
      match FromName(parts[|parts| - 1])
      case Some(c) => [c]
      case None => []
  }

  function Approved(s: string): seq<Capability> {
    if s == NO_CAPABILITIES then [] else Recognized(Split(s, ','))
  }

  method ParseCapabilities(approved: string) returns (capabilities: seq<Capability>)
    ensures capabilities == Approved(approved)
  {
    hide FromName;
    capabilities := [];
    if approved != NO_CAPABILITIES {
      var parts := Split(approved, ',');
      for i := 0 to |parts|
        invariant capabilities == Recognized(parts[..i])
      {
        assert parts[..i + 1][..i] == parts[..i];
        match FromName(parts[i]) {
          case Some(c) => capabilities := capabilities + [c];
          case None =>
        }
      }
      assert parts[..|parts|] == parts;
    }
  }

  // ---------------------------------------------------------------- names

  lemma FromNameOfName(c: Capability)
    ensures FromName(c.Name()) == Some(c)
  {
  }

  lemma NameOfFromName(name: string)
    ensures FromName(name).Some? ==> FromName(name).value.Name() == name
  {
  }

  lemma NamesAreClean(c: Capability)
    ensures ',' !in c.Name() && c.Name() != NO_CAPABILITIES
  {
  }

  lemma MarkerIsClean()
    ensures ',' !in NO_CAPABILITIES && FromName(NO_CAPABILITIES) == None
  {
  }

  predicate AllKnown(parts: seq<string>) {
    forall i | 0 <= i < |parts| :: FromName(parts[i]).Some?
  }

  lemma {:induction false} RecognizedNames(capabilities: seq<Capability>)
    ensures Recognized(Names(capabilities)) == capabilities
  {
    hide FromName, Capability.Name;
    if capabilities != [] {
      var before := capabilities[..|capabilities| - 1];
      assert Names(capabilities)[..|capabilities| - 1] == Names(before);
      RecognizedNames(before);
      FromNameOfName(capabilities[|capabilities| - 1]);
    }
  }

  lemma {:induction false} NamesRecognizedIff(parts: seq<string>)
    ensures |Recognized(parts)| <= |parts|
    ensures |Recognized(parts)| == |parts| <==> AllKnown(parts)
    ensures AllKnown(parts) ==> Names(Recognized(parts)) == parts
  {
    hide FromName, Capability.Name;
    if parts != [] {
      var before, last := parts[..|parts| - 1], parts[|parts| - 1];
      NamesRecognizedIff(before);
      NameOfFromName(last);
      assert AllKnown(parts) <==> AllKnown(before) && FromName(last).Some?;
    }
  }

  lemma JoinedNames(capabilities: seq<Capability>)
    requires capabilities != []
    ensures Split(Printed(capabilities), ',') == Names(capabilities)
    ensures Printed(capabilities) != NO_CAPABILITIES
  {
    hide Split, Join, Capability.Name, NO_CAPABILITIES;
    var names := Names(capabilities);
    forall p | p in names ensures ',' !in p {
      var i :| 0 <= i < |names| && names[i] == p;
      NamesAreClean(capabilities[i]);
    }
    SplitJoin(names, ',');
    assert Printed(capabilities) == Join(names, [',']);
    if Printed(capabilities) == NO_CAPABILITIES {
      MarkerIsClean();
      SplitClean(NO_CAPABILITIES, ',');
      assert names[0] == capabilities[0].Name();
      NamesAreClean(capabilities[0]);
    }
  }

  lemma SplitClean(s: string, separator: char)
    requires separator !in s
    ensures Split(s, separator) == [s]
  {
  }

  // ---------------------------------------------------------------- the round trips

  /** Every list of capabilities arrives as it was, in order and with its repetitions. */
  lemma ParsePrinted(capabilities: seq<Capability>)
    ensures Approved(Printed(capabilities)) == capabilities
  {
    hide Split, Join, Names, Recognized, NO_CAPABILITIES;
    if capabilities != [] {
      JoinedNames(capabilities);
      RecognizedNames(capabilities);
    }
  }

  /** Printing what was parsed gives the string back exactly when the string is the marker of the empty
      list or names capabilities only. */
  lemma PrintParsedIff(s: string)
    ensures Printed(Approved(s)) == s <==> s == NO_CAPABILITIES || AllKnown(Split(s, ','))
  {
    hide Split, Join, Names, Recognized, AllKnown, NO_CAPABILITIES;
    if s != NO_CAPABILITIES {
      var parts := Split(s, ',');
      NamesRecognizedIff(parts);
      if Recognized(parts) != [] {
        JoinedNames(Recognized(parts));
        NamesLength(Recognized(parts));
        JoinSplit(s, ',');
        assert [','] == ",";
      }
    }
  }

  lemma NamesLength(capabilities: seq<Capability>)
    ensures |Names(capabilities)| == |capabilities|
  {
  }

  /** A capability is approved exactly when its name is one of the parts. */
  lemma {:induction false} RecognizedIff(parts: seq<string>, c: Capability)
    ensures c in Recognized(parts) <==> c.Name() in parts
  {
    hide FromName, Capability.Name;
    if parts != [] {
      var last := parts[|parts| - 1];
      RecognizedIff(parts[..|parts| - 1], c);
      FromNameOfName(c);
      NameOfFromName(last);
      assert parts == parts[..|parts| - 1] + [last];
    }
  }

  // ---------------------------------------------------------------- the subprocess's command line

  const SEPARATOR := "--"

  /** What the subprocess is given after the name of its internal command. */
  function CommandLine(library: string, plugin: string, capabilities: seq<Capability>, args: seq<string>): seq<string> {
    [library, plugin, Printed(capabilities), SEPARATOR] + args
  }

  datatype Invocation = Invocation(library: string, plugin: string, approved: seq<Capability>, args: seq<string>)

  method RunPluginLibrary(args: seq<string>) returns (r: Option<Invocation>)
    ensures r == Received(args)
  {
    if |args| < 3 {
      return None;
    }
    var pluginArgs := if |args| > 4 && args[3] == SEPARATOR then args[4..] else if |args| > 3 then args[3..] else [];
    var approved := ParseCapabilities(args[2]);
    r := Some(Invocation(args[0], args[1], approved, pluginArgs));
  }

  function Received(args: seq<string>): Option<Invocation> {
    if |args| < 3 then None else
      Some(Invocation(args[0], args[1], Approved(args[2]), ReceivedArgs(args[3..])))
  }

  /** The separator is dropped only when something follows it. */
  function ReceivedArgs(rest: seq<string>): seq<string> {
    if |rest| > 1 && rest[0] == SEPARATOR then rest[1..] else rest
  }

  /** The plugin runs with the library, name and capabilities it was approved with; its arguments arrive
      exactly when there are any, and otherwise the separator arrives in their place. */
  lemma CommandLineArrives(library: string, plugin: string, capabilities: seq<Capability>, args: seq<string>)
    ensures var sent := CommandLine(library, plugin, capabilities, args);
      && (Received(sent) == Some(Invocation(library, plugin, capabilities, args)) <==> args != [])
      && (args == [] ==> Received(sent) == Some(Invocation(library, plugin, capabilities, [SEPARATOR])))
  {
    hide Printed, Approved, SEPARATOR;
    var sent := CommandLine(library, plugin, capabilities, args);
    ParsePrinted(capabilities);
    assert sent[3..] == [SEPARATOR] + args;
    assert sent[3..][1..] == args;
    if args == [] { assert sent[3..] == [SEPARATOR]; }
  }

  // ---------------------------------------------------------------- on the wire

  /** The words that cross the command line. */
  lemma Words()
    ensures Printed([]) == "none"
    ensures Printed([NetworkAccess]) == "NetworkAccess"
    ensures Printed([FileSystem, Config]) == "FileSystem" + "," + "Config"
    ensures SEPARATOR == "--"
  {
    var two := Names([FileSystem, Config]);
    assert two == ["FileSystem", "Config"];
    assert two[1..] == ["Config"];
    assert Names([NetworkAccess]) == ["NetworkAccess"];
  }

  /** Fewer than three arguments are refused. After the first three come the plugin's own, except that a
      separator in front of them is dropped when something follows it. */
  lemma ReceivedRules(args: seq<string>, library: string, plugin: string, approved: string, own: seq<string>)
    ensures Received(args) == None <==> |args| < 3
    ensures own == [] || own[0] != SEPARATOR || |own| == 1 ==>
        Received([library, plugin, approved] + own) == Some(Invocation(library, plugin, Approved(approved), own))
    ensures own != [] ==>
        Received([library, plugin, approved, SEPARATOR] + own)
          == Some(Invocation(library, plugin, Approved(approved), own))
  {
    hide Approved, SEPARATOR;
    assert ([library, plugin, approved] + own)[3..] == own;
    assert ([library, plugin, approved, SEPARATOR] + own)[3..] == [SEPARATOR] + own;
    assert ([SEPARATOR] + own)[1..] == own;
  }
}
