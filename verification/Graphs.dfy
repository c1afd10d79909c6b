/**
 Directed graphs given by their set of edges: paths, reachability and cycles.
 The reset planner, the module entitlements and the team query share these notions.
 */
module Graphs {
  import opened Multisets

  /** `p` walks along edges of `E`; a single vertex is a path. */
  ghost predicate Path<T(!new)>(E: set<(T, T)>, p: seq<T>) {
    && |p| > 0
    && forall i :: 0 <= i < |p| - 1 ==> (p[i], p[i + 1]) in E
  }

  ghost predicate PathBetween<T(!new)>(E: set<(T, T)>, p: seq<T>, a: T, b: T) {
    Path(E, p) && p[0] == a && p[|p| - 1] == b
  }

  ghost predicate Reach<T(!new)>(E: set<(T, T)>, a: T, b: T) {
    exists p :: PathBetween(E, p, a, b)
  }

  /** A closed walk with at least one edge. */
  ghost predicate IsCycle<T(!new)>(E: set<(T, T)>, p: seq<T>) {
    Path(E, p) && |p| >= 2 && p[0] == p[|p| - 1]
  }

  ghost predicate Cyclic<T(!new)>(E: set<(T, T)>) {
    exists p :: IsCycle(E, p)
  }

  lemma ReachRefl<T(!new)>(E: set<(T, T)>, a: T)
    ensures Reach(E, a, a)
  {
    assert PathBetween(E, [a], a, a);
  }

  lemma ReachStep<T(!new)>(E: set<(T, T)>, a: T, b: T, c: T)
    requires Reach(E, a, b) && (b, c) in E
    ensures Reach(E, a, c)
  {
    var p :| PathBetween(E, p, a, b);
    assert PathBetween(E, p + [c], a, c);
  }

  lemma ReachPrepend<T(!new)>(E: set<(T, T)>, a: T, b: T, c: T)
    requires (a, b) in E && Reach(E, b, c)
    ensures Reach(E, a, c)
  {
    var p :| PathBetween(E, p, b, c);
    assert PathBetween(E, [a] + p, a, c);
  }

  lemma ReachTransitive<T(!new)>(E: set<(T, T)>, a: T, b: T, c: T)
    requires Reach(E, a, b) && Reach(E, b, c)
    ensures Reach(E, a, c)
  {
    var p :| PathBetween(E, p, a, b);
    var q :| PathBetween(E, q, b, c);
    assert PathBetween(E, p + q[1..], a, c);
  }

  lemma ReachMonotone<T(!new)>(E: set<(T, T)>, F: set<(T, T)>, a: T, b: T)
    requires E <= F && Reach(E, a, b)
    ensures Reach(F, a, b)
  {
    var p :| PathBetween(E, p, a, b);
    assert PathBetween(F, p, a, b);
  }

  lemma CyclicMonotone<T(!new)>(E: set<(T, T)>, F: set<(T, T)>)
    requires E <= F && Cyclic(E)
    ensures Cyclic(F)
  {
    var p :| IsCycle(E, p);
    assert IsCycle(F, p);
  }

  /** Reachability splits off its first edge. */
  lemma ReachUnfold<T(!new)>(E: set<(T, T)>, a: T, c: T)
    requires Reach(E, a, c) && a != c
    ensures exists b :: (a, b) in E && Reach(E, b, c)
  {
    var p :| PathBetween(E, p, a, c);
    assert PathBetween(E, p[1..], p[1], c);
  }

  /** A set closed under edges holds everything reachable from its members. */
  lemma {:induction false} ClosedHoldsPath<T(!new)>(E: set<(T, T)>, S: set<T>, p: seq<T>)
    requires Path(E, p) && p[0] in S
    requires forall e :: e in E && e.0 in S ==> e.1 in S
    ensures p[|p| - 1] in S
  {
    if |p| > 1 {
      assert Path(E, p[1..]) && (p[0], p[1]) in E;
      ClosedHoldsPath(E, S, p[1..]);
    }
  }

  lemma ClosedHoldsReach<T(!new)>(E: set<(T, T)>, S: set<T>, a: T, b: T)
    requires a in S && Reach(E, a, b)
    requires forall e :: e in E && e.0 in S ==> e.1 in S
    ensures b in S
  {
    var p :| PathBetween(E, p, a, b);
    ClosedHoldsPath(E, S, p);
  }

  /** An edge whose head reaches its tail lies on a cycle, and only then. */
  lemma EdgeOnCycle<T(!new)>(E: set<(T, T)>, a: T, b: T)
    requires (a, b) in E && Reach(E, b, a)
    ensures Cyclic(E)
  {
    var p :| PathBetween(E, p, b, a);
    assert IsCycle(E, [a] + p);
  }

  /** On a cycle, the head of every edge reaches the tail of that edge. */
  lemma CycleEdgeReturns<T(!new)>(E: set<(T, T)>, p: seq<T>, i: nat)
    requires IsCycle(E, p) && i < |p| - 1
    ensures Reach(E, p[i + 1], p[i])
  {
    assert PathBetween(E, p[i + 1..], p[i + 1], p[0]);
    assert PathBetween(E, p[..i + 1], p[0], p[i]);
    ReachTransitive(E, p[i + 1], p[0], p[i]);
  }

  /** Members of a duplicate-free sequence over a finite set are no more than the set has. */
  lemma {:induction false} DistinctWithin<T(!new)>(p: seq<T>, S: set<T>)
    requires Distinct(p) && forall x :: x in p ==> x in S
    ensures |p| <= |S|
  {
    if p != [] {
      var rest := p[1..];
      forall x | x in rest ensures x in S - {p[0]} {
        var k :| 0 <= k < |rest| && rest[k] == x;
        assert p[k + 1] == x;
      }
      DistinctWithin(rest, S - {p[0]});
    }
  }

  ghost predicate HasPredecessor<T(!new)>(E: set<(T, T)>, S: set<T>, x: T) {
    exists y :: y in S && (y, x) in E
  }

  /** If every member of a non-empty finite set has a predecessor in the set, there is a cycle. */
  lemma EveryoneHasPredecessor<T(!new)>(E: set<(T, T)>, S: set<T>)
    requires S != {}
    requires forall x {:trigger HasPredecessor(E, S, x)} :: x in S ==> HasPredecessor(E, S, x)
    ensures Cyclic(E)
  {
    var x0 :| x0 in S;
    PredecessorWalk(E, S, [x0]);
  }

  lemma {:induction false} PredecessorWalk<T(!new)>(E: set<(T, T)>, S: set<T>, p: seq<T>)
    requires Path(E, p) && Distinct(p) && forall x :: x in p ==> x in S
    requires forall x {:trigger HasPredecessor(E, S, x)} :: x in S ==> HasPredecessor(E, S, x)
    ensures Cyclic(E)
    decreases |S| - |p|
  {
    DistinctWithin(p, S);
    assert p[0] in S && HasPredecessor(E, S, p[0]);
    var y :| y in S && (y, p[0]) in E;
    var q := [y] + p;
    if y in p {
      var k :| 0 <= k < |p| && p[k] == y;
      assert IsCycle(E, q[..k + 2]);
    } else {
      assert Distinct(q);
      DistinctWithin(q, S);
      PredecessorWalk(E, S, q);
    }
  }

  /** Every path can be shortened to a simple one with the same ends over the same vertices. */
  lemma {:induction false} SimplePathExists<T(!new)>(E: set<(T, T)>, p: seq<T>, a: T, b: T) returns (q: seq<T>)
    requires PathBetween(E, p, a, b)
    ensures PathBetween(E, q, a, b) && Distinct(q)
    decreases |p|
  {
    if Distinct(p) {
      q := p;
    } else {
      var i, j :| 0 <= i < j < |p| && p[i] == p[j];
      var shorter := p[..i] + p[j..];
      assert PathBetween(E, shorter, a, b);
      q := SimplePathExists(E, shorter, a, b);
    }
  }
}
