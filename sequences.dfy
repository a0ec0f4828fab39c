/** Ordering and distinctness of integer sequences, and the numeric sort used on each combination. */
module Sequences {

  /** Each element is at most every later one (the order `sort((a, b) => a - b)` gives). */
  predicate Ascending(s: seq<int>) {
    forall a, b :: 0 <= a < b < |s| ==> s[a] <= s[b]
  }

  predicate StrictlyAscending(s: seq<int>) {
    forall a, b :: 0 <= a < b < |s| ==> s[a] < s[b]
  }

  /** No value occurs twice. */
  predicate Distinct(s: seq<int>) {
    forall a, b :: 0 <= a < b < |s| ==> s[a] != s[b]
  }

  /** The set of values a sequence holds. */
  function Values(s: seq<int>): set<int> {
    set x | x in s
  }

  /** A sequence without repeats holds every value at most once. */
  lemma {:induction false} DistinctCountsAtMostOne(s: seq<int>, x: int)
    requires Distinct(s)
    ensures multiset(s)[x] <= 1
  {
    if s != [] {
      assert s == [s[0]] + s[1..];
      assert Distinct(s[1..]) by {
        forall a, b | 0 <= a < b < |s[1..]| ensures s[1..][a] != s[1..][b] {
          assert s[1..][a] == s[a + 1] && s[1..][b] == s[b + 1];
        }
      }
      DistinctCountsAtMostOne(s[1..], x);
      if x == s[0] {
        assert x !in s[1..];
      }
    }
  }

  /** A value found at two positions is counted at least twice. */
  lemma RepeatedValueCountsTwice(s: seq<int>, a: int, b: int)
    requires 0 <= a < b < |s|
    ensures s[a] == s[b] ==> multiset(s)[s[a]] >= 2
  {
    assert s == s[..a] + [s[a]] + s[a + 1..b] + [s[b]] + s[b + 1..];
  }

  /** Taking some of the elements of a sequence without repeats (a sub-multiset) gives no repeats. */
  lemma SubMultisetKeepsDistinct(t: seq<int>, s: seq<int>)
    requires Distinct(s)
    requires multiset(t) <= multiset(s)
    ensures Distinct(t)
  {
    forall a, b | 0 <= a < b < |t| ensures t[a] != t[b] {
      DistinctCountsAtMostOne(s, t[a]);
      RepeatedValueCountsTwice(t, a, b);
    }
  }

  /** Every element of a sub-multiset is an element of the whole. */
  lemma SubMultisetMembers(t: seq<int>, s: seq<int>)
    requires multiset(t) <= multiset(s)
    ensures forall x :: x in t ==> x in s
  {
    forall x | x in t ensures x in s {
      assert x in multiset(t);
    }
  }

  /** A sequence without repeats has as many distinct values as elements. */
  lemma {:induction false} DistinctValuesCount(s: seq<int>)
    requires Distinct(s)
    ensures |Values(s)| == |s|
  {
    if s != [] {
      var rest := s[1..];
      assert Distinct(rest) by {
        forall a, b | 0 <= a < b < |rest| ensures rest[a] != rest[b] {
          assert rest[a] == s[a + 1] && rest[b] == s[b + 1];
        }
      }
      DistinctValuesCount(rest);
      assert s[0] !in Values(rest);
      assert Values(s) == Values(rest) + {s[0]};
    }
  }

  /** Any sequence has at most as many distinct values as elements. */
  lemma {:induction false} ValuesCountAtMost(s: seq<int>)
    ensures |Values(s)| <= |s|
  {
    if s != [] {
      var rest := s[1..];
      ValuesCountAtMost(rest);
      assert Values(s) == Values(rest) + {s[0]};
      if s[0] in Values(rest) {
        assert Values(s) == Values(rest);
      }
    }
  }

  /** Inserts x into an ascending sequence before the first element not smaller than it. */
  function Insert(x: int, s: seq<int>): (r: seq<int>)
    requires Ascending(s)
    ensures |r| == |s| + 1
    ensures r[0] == if s == [] || x <= s[0] then x else s[0]
    ensures Ascending(r)
    ensures multiset(r) == multiset(s) + multiset{x}
    decreases |s|
  {
    if s == [] || x <= s[0] then
      [x] + s
    else
      var rest := Insert(x, s[1..]);
      assert s == [s[0]] + s[1..];
      assert s[0] <= rest[0];
      [s[0]] + rest
  }

  /** The numeric ascending sort of the library, as a function: sorted and a permutation of its input. */
  function SortAscending(s: seq<int>): (r: seq<int>)
    ensures Ascending(r)
    ensures multiset(r) == multiset(s)
  {
    if s == [] then
      []
    else
      assert s == [s[0]] + s[1..];
      Insert(s[0], SortAscending(s[1..]))
  }

  /** Sorting a sequence without repeats gives a strictly ascending sequence of the same values. */
  lemma SortDistinctIsStrict(s: seq<int>)
    requires Distinct(s)
    ensures StrictlyAscending(SortAscending(s))
    ensures |SortAscending(s)| == |s|
    ensures forall x :: x in SortAscending(s) <==> x in s
  {
    var r := SortAscending(s);
    SubMultisetKeepsDistinct(r, s);
    assert |r| == |multiset(r)| == |multiset(s)| == |s|;
    forall x ensures x in r <==> x in s {
      assert x in r <==> x in multiset(r);
      assert x in s <==> x in multiset(s);
    }
  }
}
