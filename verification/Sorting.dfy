/** What Rust's `sort_by` and `dedup_by` promise of a vector: sorted, stable, and with
    consecutive repetitions removed. */
module Sorting {
  import opened Strings

  ghost predicate TotalPreorder<T(!new)>(le: (T, T) -> bool) {
    && (forall x, y :: le(x, y) || le(y, x))
    && (forall x, y, z :: le(x, y) && le(y, z) ==> le(x, z))
  }

  ghost predicate Sorted<T>(le: (T, T) -> bool, s: seq<T>) {
    forall i, j :: 0 <= i < j < |s| ==> le(s[i], s[j])
  }

  function Insert<T>(le: (T, T) -> bool, x: T, s: seq<T>): (r: seq<T>)
    ensures multiset(r) == multiset{x} + multiset(s)
  {
    if s == [] || le(x, s[0]) then [x] + s
    else
      assert s == [s[0]] + s[1..];
      [s[0]] + Insert(le, x, s[1..])
  }

  /** The stable sort: equal elements keep their order. */
  function StableSort<T>(le: (T, T) -> bool, s: seq<T>): (r: seq<T>)
    ensures multiset(r) == multiset(s)
    ensures |r| == |s|
  {
    if s == [] then [] else
      assert s == [s[0]] + s[1..];
      var r := Insert(le, s[0], StableSort(le, s[1..]));
      assert |multiset(r)| == |r| && |multiset(s)| == |s|;
      r
  }

  lemma {:induction false} InsertSorted<T(!new)>(le: (T, T) -> bool, x: T, s: seq<T>)
    requires TotalPreorder(le) && Sorted(le, s)
    ensures Sorted(le, Insert(le, x, s))
  {
    if s != [] && !le(x, s[0]) {
      InsertSorted(le, x, s[1..]);
      var rest := Insert(le, x, s[1..]);
      forall y | y in rest ensures le(s[0], y) {
        assert y in multiset(rest);
        if y != x {
          assert y in s[1..];
        }
      }
    }
  }

  lemma {:induction false} StableSortSorted<T(!new)>(le: (T, T) -> bool, s: seq<T>)
    requires TotalPreorder(le)
    ensures Sorted(le, StableSort(le, s))
  {
    if s != [] {
      StableSortSorted(le, s[1..]);
      InsertSorted(le, s[0], StableSort(le, s[1..]));
    }
  }

  /** The elements of `s` that the order does not tell apart from `x`, in their order. */
  function Class<T>(le: (T, T) -> bool, x: T, s: seq<T>): seq<T> {
    if s == [] then []
    else (if le(x, s[0]) && le(s[0], x) then [s[0]] else []) + Class(le, x, s[1..])
  }

  lemma {:induction false} InsertStable<T(!new)>(le: (T, T) -> bool, x: T, s: seq<T>, k: T)
    requires TotalPreorder(le)
    ensures Class(le, k, Insert(le, x, s)) == Class(le, k, [x] + s)
  {
    assert ([x] + s)[1..] == s;
    if s != [] && !le(x, s[0]) {
      var rest := Insert(le, x, s[1..]);
      InsertStable(le, x, s[1..], k);
      assert ([s[0]] + rest)[1..] == rest;
      assert ([x] + s[1..])[1..] == s[1..];
    }
  }

  lemma {:induction false} StableSortStable<T(!new)>(le: (T, T) -> bool, s: seq<T>, k: T)
    requires TotalPreorder(le)
    ensures Class(le, k, StableSort(le, s)) == Class(le, k, s)
  {
    if s != [] {
      var rest := StableSort(le, s[1..]);
      StableSortStable(le, s[1..], k);
      InsertStable(le, s[0], rest, k);
      assert ([s[0]] + rest)[1..] == rest;
    }
  }

  /** `dedup_by`: drop an element that is the same as the last one kept. */
  function Dedup<T>(same: (T, T) -> bool, s: seq<T>): (r: seq<T>)
    ensures s != [] ==> r != [] && r[0] == s[0]
    ensures forall x :: x in r ==> x in s
    ensures |r| <= |s|
  {
    if |s| <= 1 then s else
      var kept := Dedup(same, s[..|s| - 1]);
      if same(s[|s| - 1], kept[|kept| - 1]) then kept else kept + [s[|s| - 1]]
  }

  ghost predicate NoRepetition<T>(same: (T, T) -> bool, s: seq<T>) {
    forall i, j :: 0 <= i < |s| && j == i + 1 < |s| ==> !same(s[j], s[i])
  }

  lemma {:induction false} DedupHasNoRepetition<T>(same: (T, T) -> bool, s: seq<T>)
    ensures NoRepetition(same, Dedup(same, s))
  {
    if |s| > 1 {
      DedupHasNoRepetition(same, s[..|s| - 1]);
    }
  }

  /** Sorting strings and dropping consecutive repetitions lists their set in ascending order. */
  lemma SortDedupAscending(s: seq<string>)
    ensures Dedup((x, y) => x == y, StableSort(AtMost, s)) == Ascending(set x | x in s)
  {
    AtMostTotalPreorder();
    StableSortSorted(AtMost, s);
    var sorted := StableSort(AtMost, s);
    forall x ensures x in sorted <==> x in s {
      assert x in multiset(sorted) <==> x in multiset(s);
    }
    DedupStrictlyAscending(sorted);
    AscendingUnique(Dedup((x, y) => x == y, sorted), set x | x in s);
  }

  lemma AtMostTotalPreorder()
    ensures TotalPreorder(AtMost)
  {
    forall x, y ensures AtMost(x, y) || AtMost(y, x) { AtMostTotal(x, y); }
    forall x, y, z | AtMost(x, y) && AtMost(y, z) ensures AtMost(x, z) { AtMostTransitive(x, y, z); }
  }

  lemma {:induction false} DedupStrictlyAscending(s: seq<string>)
    requires Sorted(AtMost, s)
    ensures StrictlyAscending(Dedup((x, y) => x == y, s))
    ensures forall x :: x in Dedup((x, y) => x == y, s) <==> x in s
    ensures s != [] ==> Dedup((x, y) => x == y, s)[|Dedup((x, y) => x == y, s)| - 1] == s[|s| - 1]
  {
    if |s| > 1 {
      var last := s[|s| - 1];
      DedupStrictlyAscending(s[..|s| - 1]);
      var kept := Dedup((x, y) => x == y, s[..|s| - 1]);
      assert s == s[..|s| - 1] + [last];
      if last != s[|s| - 2] {
        forall i | 0 <= i < |kept| ensures AtMost(kept[i], last) && kept[i] != last {
          assert kept[i] in s[..|s| - 1];
          if i < |kept| - 1 {
            assert AtMost(kept[i], s[|s| - 2]) && AtMost(s[|s| - 2], last);
            if kept[i] == last { AtMostAntisymmetric(last, s[|s| - 2]); }
          }
        }
      }
    }
  }

  /** A class is picked out element by element. */
  lemma {:induction false} ClassConcatenates<T(!new)>(le: (T, T) -> bool, k: T, a: seq<T>, b: seq<T>, x: T)
    ensures Class(le, k, a + b) == Class(le, k, a) + Class(le, k, b)
    ensures le(k, x) && le(x, k) ==> Class(le, k, [x]) == [x]
    ensures !(le(k, x) && le(x, k)) ==> Class(le, k, [x]) == []
  {
    if a == [] {
      assert a + b == b;
    } else {
      assert (a + b)[1..] == a[1..] + b;
      ClassConcatenates(le, k, a[1..], b, x);
    }
  }
}
