/** The deletion planner: an order for the reset tables, clearing nullable links only on cycles. */
module ResetOrder {
  import opened Outcomes
  import opened Graphs
  import opened Multisets
  import opened Names

  datatype ClearLink = ClearLink(
    child: string, parent: string,
    childColumns: seq<string>, parentColumns: seq<string>, clearColumns: seq<string>, rows: int)

  datatype Dependency = Dependency(child: string, parent: string, clear: Option<ClearLink>)

  datatype PlanError = CycleRequiresReview

  datatype DeletionPlan = DeletionPlan(order: seq<string>, clears: seq<ClearLink>)

  // ---------------------------------------------------------------- ordering

  function Members(names: seq<string>): set<string> {
    set n | n in names
  }

  /** The pairs that constrain an order of the tables `T`: child before parent, self pairs aside. */
  ghost function Among(T: set<string>, pairs: set<(string, string)>): set<(string, string)> {
    set d | d in pairs && d.0 != d.1 && d.0 in T && d.1 in T
  }

  ghost predicate ValidOrder(T: set<string>, pairs: set<(string, string)>, order: seq<string>) {
    && Distinct(order)
    && Members(order) == T
    && forall i, j :: 0 <= i < |order| && 0 <= j < |order| && (order[i], order[j]) in Among(T, pairs) ==> i < j
  }

  /** Some table still waiting must go before `candidate`. */
  ghost predicate Blocked(pairs: set<(string, string)>, waiting: set<string>, candidate: string) {
    exists d :: d in Among(waiting, pairs) && d.1 == candidate
  }

  /** Every step took the smallest table that nothing waiting blocked. */
  ghost predicate Greedy(T: set<string>, pairs: set<(string, string)>, order: seq<string>) {
    forall k :: 0 <= k < |order| ==> GreedyAt(T - Members(order[..k]), pairs, order[k])
  }

  ghost predicate GreedyAt(waiting: set<string>, pairs: set<(string, string)>, chosen: string) {
    && chosen in waiting
    && !Blocked(pairs, waiting, chosen)
    && forall t :: t in waiting && !Blocked(pairs, waiting, t) ==> t == chosen || Before(chosen, t)
  }

  /** A greedy order over all tables is valid and comes first among all valid orders. */
  lemma GreedyIsLeastValid(T: set<string>, pairs: set<(string, string)>, order: seq<string>)
    requires Greedy(T, pairs, order) && Members(order) == T
    ensures ValidOrder(T, pairs, order)
    ensures forall other :: ValidOrder(T, pairs, other) ==> ListAtMost(order, other)
  {
    forall i, j | 0 <= i < j < |order| ensures order[i] != order[j] {
      assert order[i] in Members(order[..j]) by { assert order[..j][i] == order[i]; }
      assert GreedyAt(T - Members(order[..j]), pairs, order[j]);
    }
    forall i, j | 0 <= i < |order| && 0 <= j < |order| && (order[i], order[j]) in Among(T, pairs)
      ensures i < j
    {
      var waiting := T - Members(order[..j]);
      assert GreedyAt(waiting, pairs, order[j]);
      assert (order[i], order[j]) !in Among(waiting, pairs);
      assert order[i] in order[..j];
    }
    forall other | ValidOrder(T, pairs, other) ensures ListAtMost(order, other) {
      SameMembersSameLength(order, other);
      GreedyBeats(T, pairs, order, other, 0);
    }
  }

  lemma SameMembersSameLength(a: seq<string>, b: seq<string>)
    requires Distinct(a) && Distinct(b) && Members(a) == Members(b)
    ensures |a| == |b|
  {
    DistinctCount(a);
    DistinctCount(b);
  }

  lemma {:induction false} GreedyBeats(T: set<string>, pairs: set<(string, string)>,
                                       order: seq<string>, other: seq<string>, k: nat)
    requires Greedy(T, pairs, order) && Members(order) == T
    requires ValidOrder(T, pairs, other) && |order| == |other|
    requires k <= |order| && order[..k] == other[..k]
    ensures ListAtMost(order, other)
    decreases |order| - k
  {
    if k == |order| {
      assert order == order[..k] && other == other[..k];
    } else if order[k] == other[k] {
      assert order[..k + 1] == order[..k] + [order[k]] && other[..k + 1] == other[..k] + [other[k]];
      GreedyBeats(T, pairs, order, other, k + 1);
    } else {
      var waiting := T - Members(order[..k]);
      assert GreedyAt(waiting, pairs, order[k]);
      assert other[k] in waiting by { assert other[k] in other && other[k] !in other[..k]; }
      HeadUnblocked(T, pairs, other, k);
    }
  }

  /** In a valid order nothing still waiting blocks the next table. */
  lemma HeadUnblocked(T: set<string>, pairs: set<(string, string)>, order: seq<string>, k: nat)
    requires ValidOrder(T, pairs, order) && k < |order|
    ensures !Blocked(pairs, T - Members(order[..k]), order[k])
  {
    forall d | d in Among(T - Members(order[..k]), pairs) ensures d.1 != order[k] {
      assert d in Among(T, pairs) && d == (d.0, d.1);
      var i :| 0 <= i < |order| && order[i] == d.0;
      assert i >= k by { assert d.0 !in order[..k]; }
    }
  }

  /** A cycle among the tables leaves no valid order. */
  lemma CycleForbidsOrder(T: set<string>, pairs: set<(string, string)>, order: seq<string>)
    requires Cyclic(Among(T, pairs))
    ensures !ValidOrder(T, pairs, order)
  {
    if ValidOrder(T, pairs, order) {
      var p :| IsCycle(Among(T, pairs), p);
      var at := seq(|p|, i requires 0 <= i < |p| => PositionOf(T, pairs, order, p, i));
      CycleRises(T, pairs, order, p, at, |p| - 1);
    }
  }

  ghost function PositionOf(
      T: set<string>, pairs: set<(string, string)>, order: seq<string>, p: seq<string>, i: nat): (k: nat)
    requires ValidOrder(T, pairs, order) && Path(Among(T, pairs), p) && |p| >= 2 && i < |p|
    ensures k < |order| && order[k] == p[i]
  {
    assert p[i] in Members(order) by {
      if i < |p| - 1 {
        assert (p[i], p[i + 1]) in Among(T, pairs);
      } else {
        assert (p[i - 1], p[i - 1 + 1]) in Among(T, pairs);
      }
    }
    var k :| 0 <= k < |order| && order[k] == p[i];
    k
  }

  lemma {:induction false} CycleRises(
      T: set<string>, pairs: set<(string, string)>, order: seq<string>, p: seq<string>, at: seq<nat>, i: nat)
    requires ValidOrder(T, pairs, order) && Path(Among(T, pairs), p) && |p| >= 2
    requires |at| == |p| && forall k :: 0 <= k < |p| ==> at[k] < |order| && order[at[k]] == p[k]
    requires 0 < i < |p|
    ensures at[0] < at[i]
  {
    if i > 1 {
      CycleRises(T, pairs, order, p, at, i - 1);
    }
    assert (p[i - 1], p[i - 1 + 1]) in Among(T, pairs);
  }

  /** The scan over the waiting tables for the first one no waiting child refers to. */
  method FirstUnblocked(pending: seq<string>, dependencies: seq<(string, string)>) returns (next: Option<string>)
    requires Ascending(pending)
    ensures next.Some? ==> GreedyAt(Members(pending), PairSet(dependencies), next.value)
    ensures next.None? ==> forall t :: t in pending ==> Blocked(PairSet(dependencies), Members(pending), t)
  {
    ghost var pairs := PairSet(dependencies);
    for i := 0 to |pending|
      invariant forall k :: 0 <= k < i ==> Blocked(pairs, Members(pending), pending[k])
    {
      var blocked := false;
      for j := 0 to |dependencies|
        invariant blocked ==> Blocked(pairs, Members(pending), pending[i])
        invariant !blocked ==> forall k ::
          0 <= k < j ==> dependencies[k] in Among(Members(pending), pairs) ==> dependencies[k].1 != pending[i]
      {
        var (child, parent) := dependencies[j];
        if child != parent && parent == pending[i] && child in pending {
          assert dependencies[j] in Among(Members(pending), pairs);
          blocked := true;
        }
      }
      if !blocked {
        return Some(pending[i]);
      }
    }
    next := None;
  }

  ghost function PairSet(pairs: seq<(string, string)>): set<(string, string)> {
    set d | d in pairs
  }

  /**
   Repeatedly takes the smallest unblocked table. Succeeds exactly on acyclic dependencies, and then
   with the lexicographically first of all child-before-parent orders.
   */
  method DeletionOrder(tables: seq<string>, dependencies: seq<(string, string)>)
    returns (r: Result<seq<string>, PlanError>)
    ensures r.Ok? <==> !Cyclic(Among(Members(tables), PairSet(dependencies)))
    ensures r.Ok? ==> ValidOrder(Members(tables), PairSet(dependencies), r.value)
    ensures r.Ok? ==> forall other :: ValidOrder(Members(tables), PairSet(dependencies), other) ==>
      ListAtMost(r.value, other)
  {
    ghost var T, pairs := Members(tables), PairSet(dependencies);
    var pending := OrderedSet(tables);
    var output := [];
    while pending != []
      invariant Ascending(pending)
      invariant Members(pending) == T - Members(output)
      invariant Members(output) <= T
      invariant Greedy(T, pairs, output)
      decreases |pending|
    {
      var next := FirstUnblocked(pending, dependencies);
      if next.None? {
        assert pending[0] in Members(pending);
        EveryoneHasWaitingChild(T, pairs, Members(pending));
        return Err(CycleRequiresReview);
      }
      pending := Without(pending, next.value);
      assert output == (output + [next.value])[..|output|];
      forall k | 0 <= k < |output| ensures GreedyAt(T - Members((output + [next.value])[..k]), pairs, output[k]) {
        assert (output + [next.value])[..k] == output[..k];
      }
      output := output + [next.value];
    }
    assert T <= Members(output) by {
      forall t | t in T ensures t in Members(output) { assert t !in Members(pending); }
    }
    GreedyIsLeastValid(T, pairs, output);
    if Cyclic(Among(T, pairs)) {
      CycleForbidsOrder(T, pairs, output);
    }
    r := Ok(output);
  }

  lemma EveryoneHasWaitingChild(T: set<string>, pairs: set<(string, string)>, waiting: set<string>)
    requires waiting != {} && waiting <= T
    requires forall t {:trigger Blocked(pairs, waiting, t)} :: t in waiting ==> Blocked(pairs, waiting, t)
    ensures Cyclic(Among(T, pairs))
  {
    var E := Among(waiting, pairs);
    assert E <= Among(T, pairs);
    forall t | t in waiting ensures HasPredecessor(E, waiting, t) {
      assert Blocked(pairs, waiting, t);
      var d :| d in E && d.1 == t;
      assert (d.0, t) in E;
    }
    EveryoneHasPredecessor(E, waiting);
    CyclicMonotone(E, Among(T, pairs));
  }

  /** Removal from an ordered set. */
  function Without(s: seq<string>, x: string): (r: seq<string>)
    requires Ascending(s) && x in s
    ensures Ascending(r) && |r| == |s| - 1
    ensures Members(r) == Members(s) - {x}
  {
    assert s == [s[0]] + s[1..];
    if s[0] == x then
      assert forall j :: 0 < j < |s| ==> Before(s[0], s[j]);
      BeforeIrreflexive(x);
      s[1..]
    else
      var rest := Without(s[1..], x);
      forall y | y in rest ensures Before(s[0], y) {
        assert y in Members(rest);
        assert y in s[1..];
      }
      PrependAscending(s[0], rest);
      assert Members([s[0]] + rest) == {s[0]} + Members(rest);
      assert Members(s) == {s[0]} + Members(s[1..]);
      BeforeIrreflexive(s[0]);
      [s[0]] + rest
  }

  // ---------------------------------------------------------------- planning

  /** Depth-first search from `start` along child-to-parent links. */
  method Reaches(edges: seq<Dependency>, start: string, target: string) returns (found: bool)
    ensures found <==> Reach(Links(edges), start, target)
  {
    ghost var E := Links(edges);
    ghost var universe := {start} + set e | e in edges :: e.parent;
    var pending := [start];
    var seen: set<string> := {};
    ReachRefl(E, start);
    while pending != []
      invariant forall n :: n in pending ==> n in universe && Reach(E, start, n)
      invariant seen <= universe && target !in seen
      invariant start in seen || start in pending
      invariant forall u, v :: u in seen && (u, v) in E ==> v in seen || v in pending
      decreases |universe - seen|, |pending|
    {
      var node := pending[|pending| - 1];
      ghost var before := pending;
      pending := pending[..|pending| - 1];
      assert before == pending + [node];
      if node == target {
        return true;
      }
      if node !in seen {
        var parents := Parents(edges, node);
        forall v | v in parents ensures v in universe && Reach(E, start, v) {
          assert (node, v) in E;
          var e :| e in edges && e.child == node && e.parent == v;
          ReachStep(E, start, node, v);
        }
        assert universe - (seen + {node}) < universe - seen;
        SubsetSmaller(universe - (seen + {node}), universe - seen, node);
        seen := seen + {node};
        pending := pending + parents;
      }
    }
    if Reach(E, start, target) {
      ClosedHoldsReach(E, seen, start, target);
    }
    found := false;
  }

  /** The parents of the links leaving `node`, in link order. */
  function Parents(edges: seq<Dependency>, node: string): (r: seq<string>)
    ensures forall v :: v in r <==> (node, v) in Links(edges)
  {
    if edges == [] then []
    else
      assert edges == [edges[0]] + edges[1..];
      assert Links(edges) == {(edges[0].child, edges[0].parent)} + Links(edges[1..]);
      (if edges[0].child == node then [edges[0].parent] else []) + Parents(edges[1..], node)
  }

  ghost function Links(edges: seq<Dependency>): set<(string, string)> {
    set e | e in edges :: (e.child, e.parent)
  }

  /** The links at the positions `at`. */
  ghost function LinksAt(edges: seq<Dependency>, at: set<nat>): set<(string, string)> {
    set j | j in at && j < |edges| :: (edges[j].child, edges[j].parent)
  }

  /** Positions still in place once those in `gone` have been cleared. */
  ghost function Left(edges: seq<Dependency>, gone: seq<nat>): set<nat> {
    (set j | 0 <= j < |edges| && j !in gone)
  }

  function NonSelf(edges: seq<Dependency>): (r: seq<Dependency>)
    ensures forall e :: e in r <==> e in edges && e.child != e.parent
  {
    if edges == [] then []
    else
      assert edges == [edges[0]] + edges[1..];
      (if edges[0].child != edges[0].parent then [edges[0]] else []) + NonSelf(edges[1..])
  }

  /** Dependency `j` can be cleared and lies on a cycle of the dependencies left. */
  ghost predicate Clearable(edges: seq<Dependency>, gone: seq<nat>, j: nat) {
    && j in Left(edges, gone)
    && edges[j].clear.Some?
    && Reach(LinksAt(edges, Left(edges, gone)), edges[j].parent, edges[j].child)
  }

  ghost predicate Orderable(tables: seq<string>, edges: seq<Dependency>, gone: seq<nat>) {
    !Cyclic(Among(Members(tables), LinksAt(edges, Left(edges, gone))))
  }

  /** `gone` lists, in turn, the first clearable dependency of each state that had no order. */
  ghost predicate ClearedInTurn(tables: seq<string>, edges: seq<Dependency>, gone: seq<nat>) {
    forall i :: 0 <= i < |gone| ==>
      && !Orderable(tables, edges, gone[..i])
      && Clearable(edges, gone[..i], gone[i])
      && forall j :: 0 <= j < gone[i] ==> !Clearable(edges, gone[..i], j)
  }

  /** Positions that carry no clearable link. */
  ghost function Rigid(edges: seq<Dependency>): set<nat> {
    set j | 0 <= j < |edges| && edges[j].clear.None?
  }

  lemma SameLinks(es: seq<Dependency>, edges: seq<Dependency>, pos: seq<nat>, at: set<nat>)
    requires |pos| == |edges|
    requires forall k :: 0 <= k < |pos| ==> pos[k] < |es| && edges[k] == es[pos[k]]
    requires forall j :: j in at <==> j in pos
    ensures Links(edges) == LinksAt(es, at)
  {
    forall e | e in Links(edges) ensures e in LinksAt(es, at) {
      var k :| 0 <= k < |edges| && (edges[k].child, edges[k].parent) == e;
      assert pos[k] in at;
    }
    forall e | e in LinksAt(es, at) ensures e in Links(edges) {
      var j :| j in at && j < |es| && (es[j].child, es[j].parent) == e;
      var k :| 0 <= k < |pos| && pos[k] == j;
      assert edges[k] in edges;
    }
  }

  lemma PairsAreLinks(edges: seq<Dependency>, pairs: seq<(string, string)>)
    requires |pairs| == |edges|
    requires forall i :: 0 <= i < |edges| ==> pairs[i] == (edges[i].child, edges[i].parent)
    ensures PairSet(pairs) == Links(edges)
  {
    forall e | e in Links(edges) ensures e in PairSet(pairs) {
      var i :| 0 <= i < |edges| && (edges[i].child, edges[i].parent) == e;
      assert pairs[i] in pairs;
    }
  }

  lemma AllLeft(es: seq<Dependency>)
    ensures LinksAt(es, Left(es, [])) == Links(es)
  {
    var pos := seq(|es|, j => j);
    assert forall j :: j in Left(es, []) ==> pos[j] == j;
    SameLinks(es, es, pos, Left(es, []));
  }

  /** Clearing never touches a dependency without a clearable link. */
  lemma RigidStays(tables: seq<string>, es: seq<Dependency>, gone: seq<nat>)
    requires ClearedInTurn(tables, es, gone)
    ensures Rigid(es) <= Left(es, gone)
    ensures LinksAt(es, Rigid(es)) <= LinksAt(es, Left(es, gone))
  {
    forall j | j in Rigid(es) ensures j !in gone {
      assert forall i :: 0 <= i < |gone| ==> Clearable(es, gone[..i], gone[i]);
    }
  }

  lemma OrderableMeansRigidAcyclic(tables: seq<string>, es: seq<Dependency>, gone: seq<nat>)
    requires ClearedInTurn(tables, es, gone) && Orderable(tables, es, gone)
    ensures !Cyclic(Among(Members(tables), LinksAt(es, Rigid(es))))
  {
    RigidStays(tables, es, gone);
    var T := Members(tables);
    if Cyclic(Among(T, LinksAt(es, Rigid(es)))) {
      CyclicMonotone(Among(T, LinksAt(es, Rigid(es))), Among(T, LinksAt(es, Left(es, gone))));
    }
  }

  lemma AcyclicClearsNothing(tables: seq<string>, es: seq<Dependency>, gone: seq<nat>)
    requires ClearedInTurn(tables, es, gone)
    ensures !Cyclic(Links(es)) ==> gone == []
  {
    if gone != [] {
      assert gone[..0] == [];
      AllLeft(es);
      assert Clearable(es, [], gone[0]);
      EdgeOnCycle(Links(es), es[gone[0]].child, es[gone[0]].parent);
    }
  }

  lemma AcyclicIsOrderable(tables: seq<string>, es: seq<Dependency>, gone: seq<nat>)
    ensures !Cyclic(Links(es)) ==> Orderable(tables, es, gone)
  {
    var E := Among(Members(tables), LinksAt(es, Left(es, gone)));
    assert E <= Links(es);
    if Cyclic(E) {
      CyclicMonotone(E, Links(es));
    }
  }

  /** Without an order and without a clearable link on a cycle, the rigid links alone form a cycle. */
  lemma StuckMeansRigidCycle(tables: seq<string>, es: seq<Dependency>, gone: seq<nat>)
    requires !Orderable(tables, es, gone)
    requires forall j :: j in Left(es, gone) ==> !Clearable(es, gone, j)
    ensures Cyclic(Among(Members(tables), LinksAt(es, Rigid(es))))
  {
    var T := Members(tables);
    var all := LinksAt(es, Left(es, gone));
    var p :| IsCycle(Among(T, all), p);
    forall i | 0 <= i < |p| - 1 ensures (p[i], p[i + 1]) in Among(T, LinksAt(es, Rigid(es))) {
      assert (p[i], p[i + 1]) in Among(T, all);
      var j :| j in Left(es, gone) && j < |es| && (es[j].child, es[j].parent) == (p[i], p[i + 1]);
      CycleEdgeReturns(Among(T, all), p, i);
      ReachMonotone(Among(T, all), all, p[i + 1], p[i]);
      assert !Clearable(es, gone, j);
      assert j in Rigid(es);
    }
    assert IsCycle(Among(T, LinksAt(es, Rigid(es))), p);
  }

  /** `pos` lists the positions left, in order, and `edges` the dependencies at them. */
  ghost predicate Tracks(es: seq<Dependency>, gone: seq<nat>, edges: seq<Dependency>, pos: seq<nat>) {
    && |pos| == |edges|
    && (forall k :: 0 <= k < |pos| ==> pos[k] < |es| && edges[k] == es[pos[k]])
    && (forall k, l :: 0 <= k < l < |pos| ==> pos[k] < pos[l])
    && (forall j :: j in Left(es, gone) <==> j in pos)
  }

  lemma FirstInEdgesIsFirstLeft(es: seq<Dependency>, gone: seq<nat>, edges: seq<Dependency>, pos: seq<nat>, at: nat)
    requires Tracks(es, gone, edges, pos) && Links(edges) == LinksAt(es, Left(es, gone))
    requires at < |edges| && OnCycle(edges, at) && forall k :: 0 <= k < at ==> !OnCycle(edges, k)
    ensures Clearable(es, gone, pos[at]) && forall j :: 0 <= j < pos[at] ==> !Clearable(es, gone, j)
  {
    assert pos[at] in pos;
    forall j | 0 <= j < pos[at] && j in Left(es, gone) ensures !Clearable(es, gone, j) {
      var k :| 0 <= k < |pos| && pos[k] == j;
      assert !OnCycle(edges, k);
    }
  }

  lemma LeftAfterClear(es: seq<Dependency>, gone: seq<nat>, edges: seq<Dependency>, pos: seq<nat>, at: nat, j: nat)
    requires Tracks(es, gone, edges, pos) && at < |pos|
    ensures j in Left(es, gone + [pos[at]]) <==> j in pos[..at] + pos[at + 1..]
  {
    WithoutAt(pos, at, j);
    assert j in Left(es, gone + [pos[at]]) <==> j in Left(es, gone) && j != pos[at];
  }

  lemma WithoutAt(pos: seq<nat>, at: nat, j: nat)
    requires at < |pos| && forall k, l :: 0 <= k < l < |pos| ==> pos[k] < pos[l]
    ensures j in pos[..at] + pos[at + 1..] <==> j in pos && j != pos[at]
  {
    var rest := pos[..at] + pos[at + 1..];
    if j in pos && j != pos[at] {
      var k :| 0 <= k < |pos| && pos[k] == j;
      assert rest[if k < at then k else k - 1] == j;
    }
    if j in rest {
      var k :| 0 <= k < |rest| && rest[k] == j;
      assert pos[if k < at then k else k + 1] == j;
    }
  }

  /** One round of clearing keeps the bookkeeping between `edges` and the original positions. */
  lemma ClearOne(
      tables: seq<string>, es: seq<Dependency>, gone: seq<nat>, edges: seq<Dependency>, pos: seq<nat>, at: nat)
    requires Tracks(es, gone, edges, pos) && at < |edges|
    requires ClearedInTurn(tables, es, gone) && !Orderable(tables, es, gone)
    requires OnCycle(edges, at) && forall k :: 0 <= k < at ==> !OnCycle(edges, k)
    ensures ClearedInTurn(tables, es, gone + [pos[at]])
    ensures Tracks(es, gone + [pos[at]], edges[..at] + edges[at + 1..], pos[..at] + pos[at + 1..])
  {
    SameLinks(es, edges, pos, Left(es, gone));
    FirstInEdgesIsFirstLeft(es, gone, edges, pos, at);
    ClearedOneMore(tables, es, gone, pos[at]);
    RemoveAt(es, edges, pos, at);
    forall j: nat ensures j in Left(es, gone + [pos[at]]) <==> j in pos[..at] + pos[at + 1..] {
      LeftAfterClear(es, gone, edges, pos, at, j);
    }
  }

  lemma ClearedOneMore(tables: seq<string>, es: seq<Dependency>, gone: seq<nat>, j: nat)
    requires ClearedInTurn(tables, es, gone) && !Orderable(tables, es, gone)
    requires Clearable(es, gone, j) && forall k :: 0 <= k < j ==> !Clearable(es, gone, k)
    ensures ClearedInTurn(tables, es, gone + [j])
  {
    var next := gone + [j];
    assert next[..|gone|] == gone && forall i :: 0 <= i < |gone| ==> next[..i] == gone[..i];
  }

  lemma RemoveAt(es: seq<Dependency>, edges: seq<Dependency>, pos: seq<nat>, at: nat)
    requires |pos| == |edges| && at < |edges|
    requires forall k :: 0 <= k < |pos| ==> pos[k] < |es| && edges[k] == es[pos[k]]
    requires forall k, l :: 0 <= k < l < |pos| ==> pos[k] < pos[l]
    ensures var left, rest := edges[..at] + edges[at + 1..], pos[..at] + pos[at + 1..];
      && |rest| == |left|
      && (forall k :: 0 <= k < |rest| ==> 0 <= rest[k] < |es| && left[k] == es[rest[k]])
      && forall k, l :: 0 <= k < l < |rest| ==> rest[k] < rest[l]
  {
    var left, rest := edges[..at] + edges[at + 1..], pos[..at] + pos[at + 1..];
    assert forall k :: 0 <= k < |rest| ==>
      rest[k] == pos[if k < at then k else k + 1] && left[k] == edges[if k < at then k else k + 1];
  }

  /** The positions below `n`, in order. */
  ghost function Positions(n: nat): (pos: seq<nat>)
    ensures |pos| == n && forall j :: 0 <= j < n ==> pos[j] == j && j in pos
  {
    if n == 0 then [] else Positions(n - 1) + [n - 1]
  }

  lemma NothingClearable(es: seq<Dependency>, gone: seq<nat>, edges: seq<Dependency>, pos: seq<nat>)
    requires Tracks(es, gone, edges, pos)
    requires Links(edges) == LinksAt(es, Left(es, gone)) && forall k :: 0 <= k < |edges| ==> !OnCycle(edges, k)
    ensures forall j :: j in Left(es, gone) ==> !Clearable(es, gone, j)
  {
    forall j | j in Left(es, gone) ensures !Clearable(es, gone, j) {
      var k :| 0 <= k < |pos| && pos[k] == j;
      assert !OnCycle(edges, k);
    }
  }

  /** `clears` are the links of the dependencies at the positions `gone`. */
  ghost predicate ClearsAt(es: seq<Dependency>, gone: seq<nat>, clears: seq<ClearLink>) {
    && |clears| == |gone|
    && forall i :: 0 <= i < |gone| ==> gone[i] < |es| && es[gone[i]].clear == Some(clears[i])
  }

  lemma ClearsAtOneMore(es: seq<Dependency>, gone: seq<nat>, clears: seq<ClearLink>, j: nat, link: ClearLink)
    requires ClearsAt(es, gone, clears) && j < |es| && es[j].clear == Some(link)
    ensures ClearsAt(es, gone + [j], clears + [link])
  {
  }

  lemma PlanFound(tables: seq<string>, es: seq<Dependency>, gone: seq<nat>)
    requires ClearedInTurn(tables, es, gone) && Orderable(tables, es, gone)
    ensures !Cyclic(Among(Members(tables), LinksAt(es, Rigid(es))))
    ensures !Cyclic(Links(es)) ==> gone == []
  {
    OrderableMeansRigidAcyclic(tables, es, gone);
    AcyclicClearsNothing(tables, es, gone);
  }

  lemma PlanStuck(tables: seq<string>, es: seq<Dependency>, gone: seq<nat>, edges: seq<Dependency>, pos: seq<nat>)
    requires Tracks(es, gone, edges, pos) && Links(edges) == LinksAt(es, Left(es, gone))
    requires !Orderable(tables, es, gone) && forall k :: 0 <= k < |edges| ==> !OnCycle(edges, k)
    ensures Cyclic(Among(Members(tables), LinksAt(es, Rigid(es)))) && Cyclic(Links(es))
  {
    NothingClearable(es, gone, edges, pos);
    StuckMeansRigidCycle(tables, es, gone);
    AcyclicIsOrderable(tables, es, gone);
  }

  /**
   Clears nullable links on cycles until the tables can be ordered. `gone` names the dependencies
   cleared, by position among the non-self ones.
   */
  method Plan(tables: seq<string>, dependencies: seq<Dependency>)
    returns (r: Result<DeletionPlan, PlanError>, ghost gone: seq<nat>)
    ensures r.Ok? <==> !Cyclic(Among(Members(tables), LinksAt(NonSelf(dependencies), Rigid(NonSelf(dependencies)))))
    ensures ClearedInTurn(tables, NonSelf(dependencies), gone)
    ensures r.Ok? ==> ClearsAt(NonSelf(dependencies), gone, r.value.clears)
    ensures r.Ok? ==>
      var kept := LinksAt(NonSelf(dependencies), Left(NonSelf(dependencies), gone));
      && ValidOrder(Members(tables), kept, r.value.order)
      && forall other :: ValidOrder(Members(tables), kept, other) ==> ListAtMost(r.value.order, other)
    ensures !Cyclic(Links(NonSelf(dependencies))) ==> r.Ok? && r.value.clears == []
  {
    var edges := NonSelf(dependencies);
    ghost var es := edges;
    ghost var T := Members(tables);
    ghost var pos := Positions(|es|);
    var clears := [];
    gone := [];
    while true
      invariant Tracks(es, gone, edges, pos)
      invariant ClearedInTurn(tables, es, gone)
      invariant ClearsAt(es, gone, clears)
      decreases |edges|
    {
      var pairs := seq(|edges|, i requires 0 <= i < |edges| => (edges[i].child, edges[i].parent));
      SameLinks(es, edges, pos, Left(es, gone));
      PairsAreLinks(edges, pairs);
      var order := DeletionOrder(tables, pairs);
      if order.Ok? {
        PlanFound(tables, es, gone);
        return Ok(DeletionPlan(order.value, clears)), gone;
      }
      var index := FirstClearable(edges);
      if index.None? {
        PlanStuck(tables, es, gone, edges, pos);
        return Err(CycleRequiresReview), gone;
      }
      var at := index.value;
      ClearOne(tables, es, gone, edges, pos, at);
      ClearsAtOneMore(es, gone, clears, pos[at], edges[at].clear.value);
      clears := clears + [edges[at].clear.value];
      gone := gone + [pos[at]];
      edges := edges[..at] + edges[at + 1..];
      pos := pos[..at] + pos[at + 1..];
    }
  }

  /** `position` of the first clearable dependency whose parent reaches its child. */
  method FirstClearable(edges: seq<Dependency>) returns (index: Option<nat>)
    ensures index.Some? ==> index.value < |edges| && OnCycle(edges, index.value)
    ensures index.Some? ==> forall k :: 0 <= k < index.value && k < |edges| ==> !OnCycle(edges, k)
    ensures index.None? ==> forall k :: 0 <= k < |edges| ==> !OnCycle(edges, k)
  {
    for i := 0 to |edges|
      invariant forall k :: 0 <= k < i ==> !OnCycle(edges, k)
    {
      if edges[i].clear.Some? {
        var back := Reaches(edges, edges[i].parent, edges[i].child);
        if back {
          return Some(i);
        }
      }
    }
    index := None;
  }

  ghost predicate OnCycle(edges: seq<Dependency>, k: nat)
    requires k < |edges|
  {
    edges[k].clear.Some? && Reach(Links(edges), edges[k].parent, edges[k].child)
  }
}
