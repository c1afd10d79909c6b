/** Sequences without repetition, and sequences counted without regard to order. */
module Multisets {
  function Map<T, U>(f: T -> U, s: seq<T>): (r: seq<U>)
    ensures |r| == |s| && forall i :: 0 <= i < |s| ==> r[i] == f(s[i])
  {
    seq(|s|, i requires 0 <= i < |s| => f(s[i]))
  }

  predicate Distinct<T(==)>(s: seq<T>) {
    forall i, j :: 0 <= i < j < |s| ==> s[i] != s[j]
  }

  lemma {:induction false} DistinctCount<T>(s: seq<T>)
    requires Distinct(s)
    ensures |set x | x in s| == |s|
  {
    if s != [] {
      DistinctCount(s[1..]);
      assert s == [s[0]] + s[1..] && s[0] !in s[1..];
      assert (set x | x in s) == {s[0]} + set x | x in s[1..];
    }
  }

  lemma SubsetSmaller<T>(a: set<T>, b: set<T>, x: T)
    requires a <= b && x in b && x !in a
    ensures |a| < |b|
  {
    assert b == (b - a) + a && x in b - a;
  }

  /** `list` holds the members once each, in whatever order a query, a hash map or a loop yields. */
  ghost predicate Lists(list: seq<int>, members: set<int>) {
    Distinct(list) && forall x :: x in list <==> x in members
  }

  lemma ListCounts(list: seq<int>, members: set<int>)
    requires Lists(list, members)
    ensures |list| == |members|
  {
    DistinctCount(list);
    var all := set x | x in list;
    forall x: int ensures x in members <==> x in all {
      assert x in list <==> x in members;
    }
    assert members == all;
  }

  lemma MapConcat<T, U>(f: T -> U, a: seq<T>, b: seq<T>)
    ensures Map(f, a + b) == Map(f, a) + Map(f, b)
  {
  }

  lemma MoveToFront<T>(s: seq<T>, i: nat)
    requires i < |s|
    ensures multiset(s) == multiset{s[i]} + multiset(s[..i] + s[i + 1..])
  {
    assert s == s[..i] + [s[i]] + s[i + 1..];
  }

  lemma MapMovesToFront<T, U>(f: T -> U, s: seq<T>, i: nat)
    requires i < |s|
    ensures multiset(Map(f, s)) == multiset{f(s[i])} + multiset(Map(f, s[..i] + s[i + 1..]))
  {
    MapConcat(f, s[..i], s[i + 1..]);
    MapConcat(f, s[..i] + [s[i]], s[i + 1..]);
    MapConcat(f, s[..i], [s[i]]);
    assert s == s[..i] + [s[i]] + s[i + 1..];
    assert Map(f, [s[i]]) == [f(s[i])];
  }

  lemma MapFirst<T, U>(f: T -> U, s: seq<T>)
    requires s != []
    ensures multiset(Map(f, s)) == multiset{f(s[0])} + multiset(Map(f, s[1..]))
  {
    MapMovesToFront(f, s, 0);
    assert s[..0] + s[0 + 1..] == s[1..];
  }

  lemma RemoveSame<T>(a: seq<T>, b: seq<T>, i: nat)
    requires multiset(a) == multiset(b) && a != [] && i < |b| && b[i] == a[0]
    ensures multiset(a[1..]) == multiset(b[..i] + b[i + 1..])
  {
    MoveToFront(b, i);
    assert a == [a[0]] + a[1..];
    assert multiset(a[1..]) == multiset(a) - multiset{a[0]};
    assert multiset(b[..i] + b[i + 1..]) == multiset(b) - multiset{a[0]};
  }

  /** Mapping two orders of the same elements gives two orders of the same images. */
  lemma {:induction false} MapPermutes<T, U>(f: T -> U, a: seq<T>, b: seq<T>)
    requires multiset(a) == multiset(b)
    ensures multiset(Map(f, a)) == multiset(Map(f, b))
  {
    if a == [] {
      assert |multiset(b)| == |b|;
    } else {
      assert a[0] in multiset(b);
      var i :| 0 <= i < |b| && b[i] == a[0];
      RemoveSame(a, b, i);
      MapPermutes(f, a[1..], b[..i] + b[i + 1..]);
      MapMovesToFront(f, b, i);
      MapFirst(f, a);
    }
  }

  /** Two lists of the same distinct elements are orders of each other. */
  lemma SameMembersPermute<T>(a: seq<T>, b: seq<T>)
    requires Distinct(a) && Distinct(b) && forall x :: x in a <==> x in b
    ensures multiset(a) == multiset(b)
  {
    forall x ensures multiset(a)[x] == multiset(b)[x] {
      CountDistinct(a, x);
      CountDistinct(b, x);
    }
  }

  lemma {:induction false} CountDistinct<T>(s: seq<T>, x: T)
    requires Distinct(s)
    ensures multiset(s)[x] == if x in s then 1 else 0
  {
    if s != [] {
      CountDistinct(s[1..], x);
      assert s == [s[0]] + s[1..];
      assert s[0] !in s[1..];
    }
  }
}
