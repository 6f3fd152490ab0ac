/** String operations of the Rust sources, and the order in which a BTreeSet<String> iterates. */
module Strings {
  import opened Wrappers

  const U64_MAX: nat := 0xFFFF_FFFF_FFFF_FFFF
  const U32_MAX: nat := 0xFFFF_FFFF

  /** `s.contains(pattern)` */
  predicate Contains(s: string, pattern: string) {
    pattern <= s || (s != "" && Contains(s[1..], pattern))
  }

  /** The pattern stands somewhere in `s`, between two other texts. */
  ghost predicate Occurs(s: string, pattern: string) {
    exists before, after :: s == before + pattern + after
  }

  lemma {:induction false} ContainsIff(s: string, pattern: string)
    ensures Contains(s, pattern) <==> Occurs(s, pattern)
  {
    if Occurs(s, pattern) {
      var before, after :| s == before + pattern + after;
      assert |pattern| <= |s|;
      if before == "" {
        assert s[..|pattern|] == pattern;
      } else {
        assert s[1..] == before[1..] + pattern + after;
      }
    }
    if pattern <= s {
      assert s == "" + pattern + s[|pattern|..];
    } else if s != "" {
      ContainsIff(s[1..], pattern);
      if Contains(s[1..], pattern) {
        var before, after :| s[1..] == before + pattern + after;
        assert s == ([s[0]] + before) + pattern + after;
      }
    }
  }

  function AsciiLower(s: string): (r: string)
    ensures |r| == |s|
  {
    seq(|s|, i requires 0 <= i < |s| => if 'A' <= s[i] <= 'Z' then s[i] + 'a' - 'A' else s[i])
  }

  /** A capital letter goes 32 code points up; everything else, other alphabets included, stays. */
  lemma AsciiLowerAt(s: string, i: nat)
    requires i < |s|
    ensures 65 <= s[i] as int <= 90 ==> AsciiLower(s)[i] as int == s[i] as int + 32
    ensures !(65 <= s[i] as int <= 90) ==> AsciiLower(s)[i] == s[i]
  {
  }

  /** The first part of `s.split(stops)`: everything before the first character in `stops`. */
  function UpTo(s: string, stops: set<char>): (r: string)
    ensures r <= s
    ensures forall c :: c in r ==> c !in stops
    ensures |r| < |s| ==> s[|r|] in stops
  {
    if s == "" || s[0] in stops then "" else [s[0]] + UpTo(s[1..], stops)
  }

  /** The first part of `s.rsplit(c)`: everything after the last `c`, or all of `s`. */
  function AfterLast(s: string, c: char): (r: string)
    ensures |r| <= |s| && s[|s| - |r|..] == r
    ensures c !in r
    ensures |r| < |s| ==> s[|s| - |r| - 1] == c
  {
    if s == "" || s[|s| - 1] == c then "" else AfterLast(s[..|s| - 1], c) + [s[|s| - 1]]
  }

  /** Decimal digits of a number, as `to_string` prints them. */
  function Decimal(n: nat): (r: string)
    ensures r != ""
  {
    if n < 10 then [('0' as int + n) as char] else Decimal(n / 10) + [('0' as int + n % 10) as char]
  }

  predicate IsDigit(c: char) {
    '0' <= c <= '9'
  }

  function DigitsValue(s: string): nat
    requires forall c :: c in s ==> IsDigit(c)
  {
    if s == "" then 0 else
      var last := s[|s| - 1];
      assert last in s && IsDigit(last);
      10 * DigitsValue(s[..|s| - 1]) + (last as int - '0' as int)
  }

  /** `s.parse::<u64>().ok()`: an optional plus sign, at least one digit, in range. */
  function ParseU64(s: string): (r: Option<nat>)
    ensures r.Some? ==> r.value <= U64_MAX
  {
    var digits := if "+" <= s then s[1..] else s;
    if digits == "" || !(forall c :: c in digits ==> IsDigit(c)) then None
    else if DigitsValue(digits) <= U64_MAX then Some(DigitsValue(digits))
    else None
  }

  function Zeros(n: nat): string {
    seq(n, _ => '0')
  }

  lemma {:induction false} DecimalDigits(n: nat)
    ensures forall c :: c in Decimal(n) ==> IsDigit(c)
    ensures DigitsValue(Decimal(n)) == n
    ensures n > 0 ==> Decimal(n)[0] != '0'
  {
    if n >= 10 {
      DecimalDigits(n / 10);
      assert Decimal(n)[..|Decimal(n)| - 1] == Decimal(n / 10);
    } else {
      assert Decimal(n)[..0] == [];
    }
  }

  lemma DecimalStep(v: nat, c: char)
    requires v > 0 && IsDigit(c)
    ensures Decimal(10 * v + (c as int - '0' as int)) == Decimal(v) + [c]
  {
    var d := c as int - '0' as int;
    assert (10 * v + d) / 10 == v && (10 * v + d) % 10 == d;
  }

  lemma DigitDecimal(c: char)
    requires IsDigit(c)
    ensures DigitsValue([c]) == c as int - '0' as int && Decimal(DigitsValue([c])) == [c]
  {
    assert [c][..0] == [];
  }

  /** A text of digits is its value in decimal, with some zeros in front. */
  lemma {:induction false} DigitsAreDecimal(s: string) returns (k: nat)
    requires s != "" && forall c :: c in s ==> IsDigit(c)
    ensures s == Zeros(k) + Decimal(DigitsValue(s))
  {
    hide Decimal;
    var before, last := s[..|s| - 1], s[|s| - 1];
    assert last in s && s == before + [last];
    DigitDecimal(last);
    if before == "" {
      k := 0;
    } else {
      k := DigitsAreDecimal(before);
      var v := DigitsValue(before);
      if v == 0 {
        assert Decimal(0) == "0" by { DigitDecimal('0'); }
        k := k + 1;
        assert before == Zeros(k);
      } else {
        DecimalStep(v, last);
      }
    }
  }

  lemma {:induction false} ZerosCountForNothing(k: nat, s: string)
    requires forall c :: c in s ==> IsDigit(c)
    ensures forall c :: c in Zeros(k) + s ==> IsDigit(c)
    ensures DigitsValue(Zeros(k) + s) == DigitsValue(s)
  {
    if s != "" {
      ZerosCountForNothing(k, s[..|s| - 1]);
      assert (Zeros(k) + s)[..k + |s| - 1] == Zeros(k) + s[..|s| - 1];
    } else if k > 0 {
      ZerosCountForNothing(k - 1, "");
      assert Zeros(k) + "" == Zeros(k) && Zeros(k)[..k - 1] == Zeros(k - 1) + "";
    }
  }

  /** What reads as a number: an optional plus sign, any zeros, and the number's decimal digits. */
  lemma ParseU64Iff(s: string, n: nat)
    ensures ParseU64(s) == Some(n) <==>
      n <= U64_MAX && exists k :: s == Zeros(k) + Decimal(n) || s == "+" + (Zeros(k) + Decimal(n))
  {
    var digits := if "+" <= s then s[1..] else s;
    DecimalDigits(n);
    if ParseU64(s) == Some(n) {
      var k := DigitsAreDecimal(digits);
      assert s == digits || s == "+" + digits;
    }
    if k :| s == Zeros(k) + Decimal(n) || s == "+" + (Zeros(k) + Decimal(n)) {
      ZerosCountForNothing(k, Decimal(n));
      var number := Zeros(k) + Decimal(n);
      assert number[0] in number && IsDigit(number[0]);
      assert digits == number;
    }
  }

  /** Lexicographic order by code point, which is Rust's order on strings. */
  predicate AtMost(a: string, b: string) {
    a == "" || (b != "" && (a[0] < b[0] || (a[0] == b[0] && AtMost(a[1..], b[1..]))))
  }

  /** Where two strings first differ, the smaller character decides; a prefix comes first. */
  ghost predicate DiffersBelow(a: string, b: string, k: nat) {
    k < |a| && k < |b| && a[..k] == b[..k] && a[k] < b[k]
  }

  lemma {:induction false} AtMostIff(a: string, b: string)
    ensures AtMost(a, b) <==> a <= b || exists k: nat :: DiffersBelow(a, b, k)
  {
    if a != "" && b != "" {
      forall k: nat | DiffersBelow(a, b, k) ensures a[0] <= b[0] {
        if k > 0 { assert a[..k][0] == b[..k][0]; }
      }
      if a[0] == b[0] {
        AtMostIff(a[1..], b[1..]);
        assert a == [a[0]] + a[1..] && b == [b[0]] + b[1..];
        if k: nat :| DiffersBelow(a[1..], b[1..], k) {
          assert a[..k + 1] == [a[0]] + a[1..][..k] && b[..k + 1] == [b[0]] + b[1..][..k];
          assert DiffersBelow(a, b, k + 1);
        }
        if k: nat :| DiffersBelow(a, b, k) {
          assert a[1..][..k - 1] == a[..k][1..] && b[1..][..k - 1] == b[..k][1..];
          assert DiffersBelow(a[1..], b[1..], k - 1);
        }
      } else if a[0] < b[0] {
        assert DiffersBelow(a, b, 0);
      }
    }
  }

  lemma AtMostTotal(a: string, b: string)
    ensures AtMost(a, b) || AtMost(b, a)
  {
  }

  lemma AtMostReflexive(a: string)
    ensures AtMost(a, a)
  {
  }

  lemma {:induction false} AtMostAntisymmetric(a: string, b: string)
    requires AtMost(a, b) && AtMost(b, a)
    ensures a == b
  {
    if a != "" && b != "" {
      AtMostAntisymmetric(a[1..], b[1..]);
      assert a == [a[0]] + a[1..] && b == [b[0]] + b[1..];
    }
  }

  lemma {:induction false} AtMostTransitive(a: string, b: string, c: string)
    requires AtMost(a, b) && AtMost(b, c)
    ensures AtMost(a, c)
  {
    if a != "" && a[0] == b[0] == c[0] {
      AtMostTransitive(a[1..], b[1..], c[1..]);
    }
  }

  ghost predicate IsLeast(m: string, s: set<string>) {
    m in s && forall x :: x in s ==> AtMost(m, x)
  }

  lemma LeastExists(s: set<string>)
    requires s != {}
    ensures exists m :: IsLeast(m, s)
  {
    var x :| x in s;
    AtMostReflexive(x);
    if s == {x} {
      assert IsLeast(x, s);
    } else {
      LeastExists(s - {x});
      var m :| IsLeast(m, s - {x});
      AtMostTotal(m, x);
      AtMostReflexive(x);
      if AtMost(m, x) {
        assert IsLeast(m, s);
      } else {
        forall y | y in s ensures AtMost(x, y) {
          if y != x { AtMostTransitive(x, m, y); }
        }
        assert IsLeast(x, s);
      }
    }
  }

  function Least(s: set<string>): (m: string)
    requires s != {}
    ensures IsLeast(m, s)
  {
    LeastExists(s);
    assert forall m, n :: m in s && n in s && AtMost(m, n) && AtMost(n, m) ==> m == n by {
      forall m, n | m in s && n in s && AtMost(m, n) && AtMost(n, m) ensures m == n {
        AtMostAntisymmetric(m, n);
      }
    }
    var m :| m in s && forall x :: x in s ==> AtMost(m, x);
    m
  }

  ghost predicate StrictlyAscending(s: seq<string>) {
    forall i, j :: 0 <= i < j < |s| ==> AtMost(s[i], s[j]) && s[i] != s[j]
  }

  /** The iteration order of a BTreeSet<String>. */
  function Ascending(s: set<string>): (r: seq<string>)
    ensures |r| == |s|
    ensures forall x :: x in r <==> x in s
  {
    if s == {} then [] else
      var m := Least(s);
      [m] + Ascending(s - {m})
  }

  lemma FrontAscends(m: string, rest: seq<string>)
    requires StrictlyAscending(rest)
    requires forall x :: x in rest ==> AtMost(m, x) && m != x
    ensures StrictlyAscending([m] + rest)
  {
    hide AtMost;
    var all := [m] + rest;
    forall i, j | 0 <= i < j < |all| ensures AtMost(all[i], all[j]) && all[i] != all[j] {
      assert all[j] == rest[j - 1] && rest[j - 1] in rest;
      if i > 0 { assert all[i] == rest[i - 1]; }
    }
  }

  lemma {:induction false} AscendingAscends(s: set<string>)
    ensures StrictlyAscending(Ascending(s))
  {
    if s != {} {
      hide AtMost, StrictlyAscending;
      var m := Least(s);
      AscendingAscends(s - {m});
      FrontAscends(m, Ascending(s - {m}));
    } else {
      assert StrictlyAscending([]);
    }
  }

  /** A strictly ascending list is determined by its elements. */
  lemma {:induction false} AscendingUnique(r: seq<string>, s: set<string>)
    requires StrictlyAscending(r)
    requires forall x :: x in r <==> x in s
    ensures r == Ascending(s)
  {
    if r != [] {
      assert r[0] in s;
      var m := Least(s);
      var k :| 0 <= k < |r| && r[k] == m;
      AtMostReflexive(m);
      assert AtMost(r[0], m);
      AtMostAntisymmetric(m, r[0]);
      assert r == [m] + r[1..];
      forall x ensures x in r[1..] <==> x in s - {m} {
        if x in r[1..] {
          var j :| 0 <= j < |r[1..]| && r[1..][j] == x;
          assert r[j + 1] == x && r[0] != r[j + 1];
        }
      }
      AscendingUnique(r[1..], s - {m});
    }
  }

  /** `parts.join(separator)` */
  function Join(parts: seq<string>, separator: string): string {
    if parts == [] then ""
    else if |parts| == 1 then parts[0]
    else parts[0] + separator + Join(parts[1..], separator)
  }

  /** `s.split(separator)`: always at least one part. */
  function Split(s: string, separator: char): (r: seq<string>)
    ensures r != []
    ensures forall p :: p in r ==> separator !in p
  {
    var first := UpTo(s, {separator});
    if |first| == |s| then [s] else [first] + Split(s[|first| + 1..], separator)
  }

  lemma {:induction false} UpToStopsAt(clean: string, rest: string, stops: set<char>)
    requires forall c :: c in clean ==> c !in stops
    requires rest == "" || rest[0] in stops
    ensures UpTo(clean + rest, stops) == clean
  {
    if clean == "" {
      assert clean + rest == rest;
    } else {
      assert (clean + rest)[1..] == clean[1..] + rest;
      UpToStopsAt(clean[1..], rest, stops);
    }
  }

  lemma {:induction false} AfterLastStartsAt(before: string, clean: string, c: char)
    requires c !in clean
    requires before == "" || before[|before| - 1] == c
    ensures AfterLast(before + clean, c) == clean
  {
    if clean == "" {
      assert before + clean == before;
    } else {
      assert (before + clean)[..|before + clean| - 1] == before + clean[..|clean| - 1];
      AfterLastStartsAt(before, clean[..|clean| - 1], c);
    }
  }

  /** Splitting undoes joining when no part contains the separator. */
  lemma {:induction false} SplitJoin(parts: seq<string>, separator: char)
    requires parts != []
    requires forall p :: p in parts ==> separator !in p
    ensures Split(Join(parts, [separator]), separator) == parts
  {
    if |parts| == 1 {
      UpToStopsAt(parts[0], "", {separator});
      assert parts[0] + "" == parts[0];
    } else {
      var rest := Join(parts[1..], [separator]);
      UpToStopsAt(parts[0], [separator] + rest, {separator});
      assert Join(parts, [separator]) == parts[0] + ([separator] + rest);
      assert Join(parts, [separator])[|parts[0]| + 1..] == rest;
      SplitJoin(parts[1..], separator);
    }
  }

  lemma JoinFront(first: string, rest: seq<string>, separator: string)
    requires rest != []
    ensures Join([first] + rest, separator) == first + separator + Join(rest, separator)
  {
    assert ([first] + rest)[1..] == rest;
  }

  lemma SplitStep(s: string, separator: char)
    ensures var first := UpTo(s, {separator});
      Split(s, separator) == if |first| == |s| then [s] else [first] + Split(s[|first| + 1..], separator)
  {
  }

  /** Joining undoes splitting on every string. */
  lemma {:induction false} JoinSplit(s: string, separator: char)
    ensures Join(Split(s, separator), [separator]) == s
    decreases |s|
  {
    var first := UpTo(s, {separator});
    SplitStep(s, separator);
    hide Split, UpTo;
    if |first| == |s| {
      assert first == s && Join([s], [separator]) == s;
    } else {
      hide Join;
      var rest := s[|first| + 1..];
      JoinSplit(rest, separator);
      JoinFront(first, Split(rest, separator), [separator]);
      assert s == first + [separator] + rest;
    }
  }
}
