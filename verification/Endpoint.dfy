/** Endpoint URLs: what a report shows of one, and which ones a probe accepts. */
module Endpoint {
  import opened Strings
  import opened Wrappers

  const DELIMITERS: set<char> := {'/', '?', '#'}

  /** `s.split_once(separator)`: the texts before and after its first occurrence. */
  function SplitOnce(s: string, separator: string): (r: Option<(string, string)>)
    ensures r.Some? ==> s == r.value.0 + separator + r.value.1
  {
    if separator <= s then Some(("", s[|separator|..]))
    else if s == "" then None
    else
      var rest := SplitOnce(s[1..], separator);
      if rest.None? then None else
        assert s == [s[0]] + s[1..];
        Some(([s[0]] + rest.value.0, rest.value.1))
  }

  /** The host shown for the text after "://": neither user information nor path. */
  function HostOf(rest: string): string {
    AfterLast(UpTo(rest, DELIMITERS), '@')
  }

  function Shown(host: string): string {
    if host == "" then "<redacted>" else host
  }

  function DisplayEndpoint(endpoint: string): string {
    match SplitOnce(endpoint, "://")
    case None => "<invalid-endpoint>"
    case Some((scheme, rest)) => scheme + "://" + Shown(HostOf(rest))
  }

  predicate ValidateEndpoint(endpoint: string) {
    var split := SplitOnce(endpoint, "://");
    var authority := UpTo(if split.Some? then split.value.1 else "", DELIMITERS);
    && ("https://" <= endpoint || "http://" <= endpoint)
    && authority != ""
    && authority[|authority| - 1] != '@'
  }

  /** Where the first separator is does not depend on what follows it. */
  lemma {:induction false} SplitStable(before: string, separator: string, tail: string, other: string)
    requires SplitOnce(before + separator + tail, separator) == Some((before, tail))
    ensures SplitOnce(before + separator + other, separator) == Some((before, other))
  {
    var s, t := before + separator + tail, before + separator + other;
    if before == "" {
      assert t[|separator|..] == other;
    } else {
      assert s[1..] == before[1..] + separator + tail && t[1..] == before[1..] + separator + other;
      assert s[..|separator|] == t[..|separator|];
      assert separator <= s <==> s[..|separator|] == separator;
      assert separator <= t <==> t[..|separator|] == separator;
      SplitStable(before[1..], separator, tail, other);
    }
  }

  /** A text that does not contain the separator's first character is before the first separator. */
  lemma {:induction false} SplitAfter(before: string, separator: string, tail: string)
    requires separator != "" && separator[0] !in before
    ensures SplitOnce(before + separator + tail, separator) == Some((before, tail))
  {
    var s := before + separator + tail;
    if before == "" {
      assert s[|separator|..] == tail;
    } else {
      assert s[0] == before[0] && before[0] in before && s[0] != separator[0];
      assert s[1..] == before[1..] + separator + tail;
      SplitAfter(before[1..], separator, tail);
      assert before == [before[0]] + before[1..];
    }
  }

  lemma {:induction false} SplitNone(s: string, separator: string)
    requires separator != "" && separator[0] !in s
    ensures SplitOnce(s, separator) == None
  {
    if s != "" {
      assert s[0] in s;
      SplitNone(s[1..], separator);
    }
  }

  lemma HostIsClean(rest: string)
    ensures forall c :: c in HostOf(rest) ==> c !in DELIMITERS && c != '@'
  {
    var authority := UpTo(rest, DELIMITERS);
    var host := HostOf(rest);
    forall c | c in host ensures c in authority {
      assert c in authority[|authority| - |host|..];
    }
  }

  /** What is shown for a host is shown as it is. */
  lemma ShownHostIsFixed(host: string)
    requires forall c :: c in host ==> c !in DELIMITERS && c != '@'
    ensures HostOf(host) == host
  {
    assert host + "" == host && "" + host == host;
    UpToStopsAt(host, "", DELIMITERS);
    AfterLastStartsAt("", host, '@');
  }

  lemma ShownIsClean(host: string)
    requires forall c :: c in host ==> c !in DELIMITERS && c != '@'
    ensures Shown(host) != "" && forall c :: c in Shown(host) ==> c !in DELIMITERS && c != '@'
  {
  }

  lemma DisplayOf(endpoint: string, scheme: string, host: string)
    requires SplitOnce(endpoint, "://") == Some((scheme, host))
    requires host != "" && HostOf(host) == host
    ensures DisplayEndpoint(endpoint) == endpoint
  {
  }

  /** Redacting twice shows the same as redacting once, for every string. */
  lemma DisplayIdempotent(endpoint: string)
    ensures DisplayEndpoint(DisplayEndpoint(endpoint)) == DisplayEndpoint(endpoint)
  {
    var split := SplitOnce(endpoint, "://");
    if split.Some? {
      var (scheme, rest) := split.value;
      var shown := Shown(HostOf(rest));
      HostIsClean(rest);
      ShownIsClean(HostOf(rest));
      ShownHostIsFixed(shown);
      SplitStable(scheme, "://", rest, shown);
      DisplayOf(scheme + "://" + shown, scheme, shown);
    } else {
      SplitNone("<invalid-endpoint>", "://");
    }
  }

  /** What is shown depends on scheme and host alone: user information and everything from the
      first '/', '?' or '#' on leave no trace. RFC 3986, section 3.2. */
  lemma DisplayShowsSchemeAndHost(scheme: string, user: string, host: string, tail: string)
    requires ':' !in scheme
    requires forall c :: c in user ==> c !in DELIMITERS
    requires forall c :: c in host ==> c !in DELIMITERS && c != '@'
    requires user == "" || user[|user| - 1] == '@'
    requires tail == "" || tail[0] in DELIMITERS
    requires host != ""
    ensures DisplayEndpoint(scheme + "://" + (user + host + tail)) == scheme + "://" + host
  {
    SplitAfter(scheme, "://", user + host + tail);
    UpToStopsAt(user + host, tail, DELIMITERS);
    AfterLastStartsAt(user, host, '@');
  }

  ghost predicate HttpWithHost(endpoint: string, scheme: string, rest: string) {
    scheme in {"http", "https"} && endpoint == scheme + "://" + rest && HostOf(rest) != ""
  }

  lemma AcceptedWithScheme(endpoint: string, scheme: string, rest: string)
    requires SplitOnce(endpoint, "://") == Some((scheme, rest))
    requires "https://" <= endpoint || "http://" <= endpoint
    ensures ValidateEndpoint(endpoint) <==> HostOf(rest) != ""
    ensures HostOf(rest) != "" ==> DisplayEndpoint(endpoint) == scheme + "://" + HostOf(rest)
  {
  }

  /** An endpoint is accepted exactly when it is HTTP(S) and its host is not empty; the host is
      then what is shown. */
  lemma AcceptedIffHostShown(endpoint: string)
    ensures ValidateEndpoint(endpoint) <==> exists scheme, rest :: HttpWithHost(endpoint, scheme, rest)
    ensures forall scheme, rest ::
        HttpWithHost(endpoint, scheme, rest) ==> DisplayEndpoint(endpoint) == scheme + "://" + HostOf(rest)
  {
    forall scheme, rest | HttpWithHost(endpoint, scheme, rest)
      ensures ValidateEndpoint(endpoint)
      ensures DisplayEndpoint(endpoint) == scheme + "://" + HostOf(rest)
    {
      SplitAfter(scheme, "://", rest);
      SchemePrefix(endpoint, scheme);
      AcceptedWithScheme(endpoint, scheme, rest);
    }
    if ValidateEndpoint(endpoint) {
      AcceptedHasHost(endpoint);
    }
  }

  lemma AcceptedHasHost(endpoint: string)
    requires ValidateEndpoint(endpoint)
    ensures exists scheme, rest :: HttpWithHost(endpoint, scheme, rest)
  {
    var scheme := if "https://" <= endpoint then "https" else "http";
    SchemePrefix(endpoint, scheme);
    var rest := endpoint[|scheme| + 3..];
    SplitAfter(scheme, "://", rest);
    AcceptedWithScheme(endpoint, scheme, rest);
    assert HttpWithHost(endpoint, scheme, rest);
  }

  lemma SchemePrefix(endpoint: string, scheme: string)
    requires scheme == "http" || scheme == "https"
    ensures scheme + "://" <= endpoint
      <==> (scheme == "http" && "http://" <= endpoint) || (scheme == "https" && "https://" <= endpoint)
    ensures scheme + "://" <= endpoint ==> endpoint == scheme + "://" + endpoint[|scheme| + 3..]
  {
    assert "http" + "://" == "http://" && "https" + "://" == "https://";
  }

  ghost predicate SplitsAt(s: string, separator: string, before: string, after: string) {
    s == before + separator + after
  }

  lemma NextSplit(s: string, separator: string, before: string, after: string)
    requires SplitsAt(s, separator, before, after) && !(separator <= s)
    ensures before != "" && SplitsAt(s[1..], separator, before[1..], after)
  {
    assert s[|before|..|before| + |separator|] == separator;
    assert s[1..] == before[1..] + separator + after;
  }

  lemma EarlierSplit(s: string, separator: string, before: string, after: string)
    requires s != "" && SplitsAt(s[1..], separator, before, after)
    ensures SplitsAt(s, separator, [s[0]] + before, after)
  {
    assert s == [s[0]] + s[1..];
    assert [s[0]] + (before + separator + after) == ([s[0]] + before) + separator + after;
  }

  /** There is a split exactly when the separator stands somewhere, and it is at its first place. */
  lemma {:induction false} SplitOnceIff(s: string, separator: string)
    ensures SplitOnce(s, separator).Some? <==> exists before, after :: SplitsAt(s, separator, before, after)
    ensures SplitOnce(s, separator).Some? ==> forall before, after | SplitsAt(s, separator, before, after) ::
        |SplitOnce(s, separator).value.0| <= |before|
  {
    if separator <= s {
      assert SplitsAt(s, separator, "", s[|separator|..]);
    } else {
      hide SplitsAt;
      forall before, after | SplitsAt(s, separator, before, after)
        ensures before != "" && SplitsAt(s[1..], separator, before[1..], after)
      {
        NextSplit(s, separator, before, after);
      }
      if s != "" {
        SplitOnceIff(s[1..], separator);
        if before, after :| SplitsAt(s[1..], separator, before, after) {
          EarlierSplit(s, separator, before, after);
        }
      } else {
        forall before, after ensures !SplitsAt(s, separator, before, after) {
          SplitIsLonger(s, separator, before, after);
        }
      }
    }
  }

  lemma SplitIsLonger(s: string, separator: string, before: string, after: string)
    ensures SplitsAt(s, separator, before, after) ==> |before| + |separator| <= |s|
  {
  }

  /** A text without a scheme is not shown at all, and an empty host is shown as redacted. */
  lemma DisplayWithoutHost(endpoint: string, scheme: string, user: string, tail: string)
    requires ':' !in scheme
    requires forall c :: c in user ==> c !in DELIMITERS
    requires user == "" || user[|user| - 1] == '@'
    requires tail == "" || tail[0] in DELIMITERS
    ensures (forall before, after :: !SplitsAt(endpoint, "://", before, after)) ==>
        DisplayEndpoint(endpoint) == "<invalid-endpoint>"
    ensures DisplayEndpoint(scheme + "://" + (user + tail)) == scheme + "://" + "<redacted>"
  {
    SplitOnceIff(endpoint, "://");
    SplitAfter(scheme, "://", user + tail);
    UpToStopsAt(user, tail, DELIMITERS);
    AfterLastStartsAt(user, "", '@');
    assert user + "" == user;
  }

  lemma DelimitersAre(c: char)
    ensures c in DELIMITERS <==> c == '/' || c == '?' || c == '#'
  {
  }
}
