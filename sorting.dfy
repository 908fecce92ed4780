/**
 * Ordering for the ORDER BY clauses of the repositories and for the sort of
 * the schedule page: a comparison that is a total preorder, insertion into a
 * sorted sequence, and sorting a finite set of rows.
 */
module Sorting {

  /** le is reflexive-total and transitive: every pair of values is comparable. */
  ghost predicate TotalPreorder<T(!new)>(le: (T, T) -> bool) {
    && (forall a, b :: le(a, b) || le(b, a))
    && (forall a, b, c :: le(a, b) && le(b, c) ==> le(a, c))
  }

  predicate Sorted<T>(s: seq<T>, le: (T, T) -> bool) {
    forall i, j :: 0 <= i < j < |s| ==> le(s[i], s[j])
  }

  /**
   * Inserts x after every element that is not greater than it, so that
   * inserting elements in turn keeps equal elements in their order of arrival.
   */
  function Insert<T(!new)>(s: seq<T>, x: T, le: (T, T) -> bool): (r: seq<T>)
    requires TotalPreorder(le) && Sorted(s, le)
    ensures Sorted(r, le)
    ensures multiset(r) == multiset(s) + multiset{x}
    ensures |r| == |s| + 1
  {
    if s == [] then [x]
    else if !le(s[0], x) then [x] + s
    else
      var rest := Insert(s[1..], x, le);
      assert s == [s[0]] + s[1..];
      HeadBelowAll(s, x, le, rest);
      [s[0]] + rest
  }

  /** The head of a sorted s is below every element of s[1..] with x, when it is below x. */
  lemma HeadBelowAll<T(!new)>(s: seq<T>, x: T, le: (T, T) -> bool, rest: seq<T>)
    requires TotalPreorder(le) && Sorted(s, le) && s != [] && le(s[0], x)
    requires multiset(rest) == multiset(s[1..]) + multiset{x}
    ensures forall j :: 0 <= j < |rest| ==> le(s[0], rest[j])
  {
    forall j | 0 <= j < |rest| ensures le(s[0], rest[j]) {
      var y := rest[j];
      assert y in multiset(rest);
      if y != x {
        assert y in multiset(s[1..]);
        var k :| 0 <= k < |s[1..]| && s[1..][k] == y;
        assert s[k + 1] == y;
      }
    }
  }

  lemma SortedAppend<T>(s: seq<T>, x: T, le: (T, T) -> bool)
    requires Sorted(s, le)
    requires forall i :: 0 <= i < |s| ==> le(s[i], x)
    ensures Sorted(s + [x], le)
  {
  }

  /** Insertion sort of a sequence; equal elements keep their order. */
  function SortSeq<T(!new)>(s: seq<T>, le: (T, T) -> bool): (r: seq<T>)
    requires TotalPreorder(le)
    ensures Sorted(r, le)
    ensures multiset(r) == multiset(s)
    ensures |r| == |s|
  {
    if s == [] then []
    else
      assert s == s[..|s| - 1] + [s[|s| - 1]];
      Insert(SortSeq(s[..|s| - 1], le), s[|s| - 1], le)
  }

  /**
   * The rows of a finite set in an order that respects le, each exactly
   * once; rows that compare equal come out in an unspecified order, as the
   * database returns them.
   */
  method SortSet<T(!new)>(items: set<T>, le: (T, T) -> bool) returns (s: seq<T>)
    requires TotalPreorder(le)
    ensures Sorted(s, le)
    ensures multiset(s) == multiset(items)
  {
    s := [];
    var rest := items;
    while rest != {}
      invariant Sorted(s, le)
      invariant rest <= items
      invariant multiset(s) + multiset(rest) == multiset(items)
      decreases |rest|
    {
      var x :| x in rest;
      s := Insert(s, x, le);
      assert multiset(rest) == multiset(rest - {x}) + multiset{x};
      rest := rest - {x};
    }
  }

  /** The rows of a finite set in whatever order they are picked, each exactly once. */
  method ListSet<T>(items: set<T>) returns (s: seq<T>)
    ensures multiset(s) == multiset(items)
  {
    s := [];
    var rest := items;
    while rest != {}
      invariant rest <= items
      invariant multiset(s) + multiset(rest) == multiset(items)
      decreases |rest|
    {
      var x :| x in rest;
      s := s + [x];
      assert multiset(rest) == multiset(rest - {x}) + multiset{x};
      rest := rest - {x};
    }
  }

  /** A sequence whose multiset is a set's holds each element of the set once. */
  lemma MultisetOfSet<T>(s: seq<T>, items: set<T>)
    requires multiset(s) == multiset(items)
    ensures forall x :: x in s <==> x in items
    ensures forall i, j :: 0 <= i < j < |s| ==> s[i] != s[j]
  {
    forall x ensures x in s <==> x in items {
      assert x in s <==> x in multiset(s);
    }
    forall i, j | 0 <= i < j < |s| ensures s[i] != s[j] {
      var v := s[j];
      assert s == s[..j] + [v] + s[j + 1..];
      assert multiset(s)[v] == multiset(s[..j])[v] + 1 + multiset(s[j + 1..])[v];
      assert multiset(s)[v] <= 1;
      assert v !in multiset(s[..j]);
      assert s[..j][i] == s[i];
    }
  }

  // ---------------------------------------------------------------- text order

  /** Code-point lexicographic order of text. */
  predicate TextLe(a: string, b: string) {
    a == [] || (b != [] && (a[0] < b[0] || (a[0] == b[0] && TextLe(a[1..], b[1..]))))
  }

  lemma {:induction false} TextLeTotal(a: string, b: string)
    ensures TextLe(a, b) || TextLe(b, a)
    decreases |a|
  {
    if a != [] && b != [] && a[0] == b[0] {
      TextLeTotal(a[1..], b[1..]);
    }
  }

  lemma {:induction false} TextLeTransitive(a: string, b: string, c: string)
    requires TextLe(a, b) && TextLe(b, c)
    ensures TextLe(a, c)
    decreases |a|
  {
    if a != [] && a[0] == b[0] && b[0] == c[0] {
      TextLeTransitive(a[1..], b[1..], c[1..]);
    }
  }

  lemma {:induction false} TextLeAntisymmetric(a: string, b: string)
    requires TextLe(a, b) && TextLe(b, a)
    ensures a == b
    decreases |a|
  {
    if a != [] {
      TextLeAntisymmetric(a[1..], b[1..]);
      assert a == [a[0]] + a[1..] && b == [b[0]] + b[1..];
    }
  }

  // ---------------------------------------------------------------- comparisons by key

  /** Ascending order of an integer key. */
  function ByIntKey<T>(key: T -> int): (T, T) -> bool {
    (x: T, y: T) => key(x) <= key(y)
  }

  /** Ascending order of a text key. */
  function ByTextKey<T>(key: T -> string): (T, T) -> bool {
    (x: T, y: T) => TextLe(key(x), key(y))
  }

  lemma IntKeyPreorder<T(!new)>(key: T -> int)
    ensures TotalPreorder(ByIntKey(key))
  {
  }

  lemma TextKeyPreorder<T(!new)>(key: T -> string)
    ensures TotalPreorder(ByTextKey(key))
  {
    var le := ByTextKey(key);
    forall a: T, b: T ensures le(a, b) || le(b, a) {
      TextLeTotal(key(a), key(b));
    }
    forall a: T, b: T, c: T | le(a, b) && le(b, c) ensures le(a, c) {
      TextLeTransitive(key(a), key(b), key(c));
    }
  }

  // ---------------------------------------------------------------- filtering

  predicate Distinct<T(==)>(s: seq<T>) {
    forall i, j :: 0 <= i < j < |s| ==> s[i] != s[j]
  }

  /** The elements of s that satisfy p, in their order in s. */
  function Filter<T(!new)>(s: seq<T>, p: T -> bool): (r: seq<T>)
    ensures forall x :: x in r <==> x in s && p(x)
    ensures |r| <= |s|
    ensures forall i :: 0 <= i < |r| ==> p(r[i])
  {
    if s == [] then []
    else
      var init := Filter(s[..|s| - 1], p);
      assert forall x :: x in s <==> x in s[..|s| - 1] || x == s[|s| - 1] by {
        assert s == s[..|s| - 1] + [s[|s| - 1]];
      }
      if p(s[|s| - 1]) then init + [s[|s| - 1]] else init
  }
}
