/** Module entitlements: a depth-first search with a path set, against a least fixpoint. */
module Entitlements {
  import opened Outcomes
  import opened Graphs
  import opened Multisets

  datatype Subscription = Subscription(active: bool, starts: Option<int>, expires: Option<int>)

  datatype ModuleAccess = ModuleAccess(id: int, active: bool, core: bool, disabled: bool,
    subscription: Option<Subscription>)

  /** One request's view of the control plane. Dates are day numbers. */
  datatype Snapshot = Snapshot(today: int, modules: map<string, ModuleAccess>, dependencies: map<int, seq<int>>)

  /** Module ids are primary keys. */
  ghost predicate UniqueIds(s: Snapshot) {
    forall c, d :: c in s.modules && d in s.modules && s.modules[c].id == s.modules[d].id ==> c == d
  }

  // ---------------------------------------------------------------- meaning

  ghost function Ids(s: Snapshot): set<int> {
    set c | c in s.modules :: s.modules[c].id
  }

  function Dependencies(s: Snapshot, id: int): seq<int> {
    if id in s.dependencies then s.dependencies[id] else []
  }

  ghost function Edges(s: Snapshot): set<(int, int)> {
    set m, d | m in s.dependencies && d in s.dependencies[m] :: (m, d)
  }

  /** Core, or subscribed on a day inside a non-empty half-open period. */
  predicate Subscribed(s: Snapshot, m: ModuleAccess) {
    || m.core
    || (m.subscription.Some?
        && var sub := m.subscription.value;
           && sub.active
           && (sub.starts.Some? ==> sub.starts.value <= s.today)
           && (sub.expires.Some? ==> s.today < sub.expires.value)
           && !(sub.starts.Some? && sub.expires.Some? && sub.starts.value >= sub.expires.value))
  }

  /** The module exists and is usable as far as it alone is concerned. */
  ghost predicate Good(s: Snapshot, id: int) {
    exists c :: c in s.modules && s.modules[c].id == id
      && s.modules[c].active && !s.modules[c].disabled && Subscribed(s, s.modules[c])
  }

  ghost predicate OnCycle(E: set<(int, int)>, n: int) {
    exists y :: (n, y) in E && Reach(E, y, n)
  }

  /** Everything `id` transitively needs is good, off the path, and on no dependency cycle. */
  ghost predicate Open(s: Snapshot, id: int, path: set<int>) {
    forall n :: Reach(Edges(s), id, n) ==> Good(s, n) && n !in path && !OnCycle(Edges(s), n)
  }

  /** The meaning of "the tenant may use the module called `code`". */
  ghost predicate Entitled(s: Snapshot, code: string) {
    code in s.modules && Open(s, s.modules[code].id, {})
  }

  // ---------------------------------------------------------------- the search

  /** The scan over the module values for one with the given id, in no particular order. */
  method FindModule(s: Snapshot, id: int) returns (m: Option<ModuleAccess>)
    ensures m.Some? ==> m.value.id == id && exists c :: c in s.modules && s.modules[c] == m.value
    ensures m.None? ==> id !in Ids(s)
  {
    var left := s.modules.Keys;
    while left != {}
      invariant left <= s.modules.Keys
      invariant forall c :: c in s.modules && c !in left ==> s.modules[c].id != id
      decreases left
    {
      var c :| c in left;
      if s.modules[c].id == id {
        return Some(s.modules[c]);
      }
      left := left - {c};
    }
    m := None;
  }

  /** `path` comes back as it was; the answer is that `module` is open off the path. */
  method AllowsModule(s: Snapshot, m: ModuleAccess, path: set<int>) returns (allowed: bool, after: set<int>)
    requires UniqueIds(s) && path <= Ids(s)
    requires exists c :: c in s.modules && s.modules[c] == m
    ensures allowed <==> Open(s, m.id, path)
    ensures after == path
    decreases |Ids(s) - path|, 0
  {
    OpenUnfolds(s, m.id, path);
    GoodIsOwn(s, m);
    if !m.active || m.disabled || m.id in path {
      return false, path;
    }
    after := path + {m.id};
    SubsetSmaller(Ids(s) - after, Ids(s) - path, m.id);
    var subscribed := Subscribed(s, m);
    var available;
    available, after := AllAllowed(s, Dependencies(s, m.id), after);
    after := after - {m.id};
    allowed := subscribed && available;
  }

  /** The short-circuiting pass over one module's dependencies. */
  method AllAllowed(s: Snapshot, ids: seq<int>, path: set<int>) returns (available: bool, after: set<int>)
    requires UniqueIds(s) && path <= Ids(s)
    ensures available <==> forall k :: 0 <= k < |ids| ==> Open(s, ids[k], path)
    ensures after == path
    decreases |Ids(s) - path|, 1
  {
    after := path;
    for i := 0 to |ids|
      invariant after == path
      invariant forall k :: 0 <= k < i ==> Open(s, ids[k], path)
    {
      var dependency := FindModule(s, ids[i]);
      var open := false;
      if dependency.Some? {
        open, after := AllowsModule(s, dependency.value, after);
      } else {
        OpenUnfolds(s, ids[i], path);
      }
      if !open {
        return false, after;
      }
    }
    available := true;
  }

  /** With unique ids, a module is good exactly by its own record. */
  lemma GoodIsOwn(s: Snapshot, m: ModuleAccess)
    requires UniqueIds(s) && exists c :: c in s.modules && s.modules[c] == m
    ensures m.id in Ids(s)
    ensures Good(s, m.id) <==> m.active && !m.disabled && Subscribed(s, m)
  {
  }

  /** One level of the search: the module itself, and its dependencies with it on the path. */
  lemma OpenUnfolds(s: Snapshot, id: int, path: set<int>)
    ensures Open(s, id, path) <==>
      Good(s, id) && id !in path && forall k :: 0 <= k < |Dependencies(s, id)| ==>
        Open(s, Dependencies(s, id)[k], path + {id})
  {
    var E := Edges(s);
    var ids := Dependencies(s, id);
    ReachRefl(E, id);
    if Open(s, id, path) {
      forall k, n | 0 <= k < |ids| && Reach(E, ids[k], n)
        ensures Good(s, n) && n !in path + {id} && !OnCycle(E, n)
      {
        assert (id, ids[k]) in E;
        ReachPrepend(E, id, ids[k], n);
        assert !OnCycle(E, id);
      }
    }
    if Good(s, id) && id !in path && forall k :: 0 <= k < |ids| ==> Open(s, ids[k], path + {id}) {
      forall y | (id, y) in E ensures !Reach(E, y, id) && Open(s, y, path + {id}) {
        var k :| 0 <= k < |ids| && ids[k] == y;
        assert Open(s, ids[k], path + {id});
      }
      forall n | Reach(E, id, n) ensures Good(s, n) && n !in path && !OnCycle(E, n) {
        if n != id {
          ReachUnfold(E, id, n);
        }
      }
    }
  }

  method Allows(s: Snapshot, code: string) returns (allowed: bool)
    requires UniqueIds(s)
    ensures allowed <==> Entitled(s, code)
    ensures allowed <==>
      && code in s.modules
      && forall n :: Reach(Edges(s), s.modules[code].id, n) ==>
        && (exists c :: c in s.modules && s.modules[c].id == n && InForce(s.modules[c], s.today))
        && !exists d :: n in s.dependencies && d in s.dependencies[n] && Reach(Edges(s), d, n)
  {
    EntitledMeans(s, code);
    if code !in s.modules {
      return false;
    }
    var after;
    allowed, after := AllowsModule(s, s.modules[code], {});
  }

  // ---------------------------------------------------------------- subscriptions over time

  /** In use on `day`: switched on, and core or paid for from its start up to the day before it expires. */
  ghost predicate InForce(m: ModuleAccess, day: int) {
    && m.active && !m.disabled
    && (!m.core ==>
          && m.subscription.Some? && m.subscription.value.active
          && (forall start :: m.subscription.value.starts == Some(start) ==> day >= start)
          && (forall end :: m.subscription.value.expires == Some(end) ==> day <= end - 1))
  }

  lemma EntitledMeans(s: Snapshot, code: string)
    ensures Entitled(s, code) <==>
      && code in s.modules
      && forall n :: Reach(Edges(s), s.modules[code].id, n) ==>
        && (exists c :: c in s.modules && s.modules[c].id == n && InForce(s.modules[c], s.today))
        && !exists d :: n in s.dependencies && d in s.dependencies[n] && Reach(Edges(s), d, n)
  {
    forall n ensures Good(s, n) <==>
      exists c :: c in s.modules && s.modules[c].id == n && InForce(s.modules[c], s.today) {
      GoodIsInForce(s, n);
    }
    forall n ensures OnCycle(Edges(s), n) <==>
      exists d :: n in s.dependencies && d in s.dependencies[n] && Reach(Edges(s), d, n)
    {
      assert forall d :: (n, d) in Edges(s) <==> n in s.dependencies && d in s.dependencies[n];
    }
  }

  lemma GoodIsInForce(s: Snapshot, n: int)
    ensures Good(s, n) <==> exists c :: c in s.modules && s.modules[c].id == n && InForce(s.modules[c], s.today)
  {
    forall c | c in s.modules
      ensures InForce(s.modules[c], s.today) <==>
        s.modules[c].active && !s.modules[c].disabled && Subscribed(s, s.modules[c])
    {
    }
  }

  /** A module without dependencies, paid for from `start` up to `end`, is open on exactly those days. */
  lemma OpenWhilePaid(s: Snapshot, code: string, start: int, end: int, day: int)
    requires UniqueIds(s) && code in s.modules && s.modules[code].active && !s.modules[code].disabled
    requires !s.modules[code].core && s.modules[code].subscription == Some(Subscription(true, Some(start), Some(end)))
    requires Dependencies(s, s.modules[code].id) == []
    ensures Entitled(s.(today := day), code) <==> start <= day < end
  {
    var t, id := s.(today := day), s.modules[code].id;
    OpenUnfolds(t, id, {});
    GoodIsOwn(t, t.modules[code]);
  }

  /**
   Once the subscription of a module has expired, and before it starts, the module and everything that
   depends on it stay closed, on every such day.
   */
  lemma ClosedOutsidePeriod(s: Snapshot, code: string, other: string, day: int)
    requires UniqueIds(s) && code in s.modules && !s.modules[code].core && s.modules[code].subscription.Some?
    requires other in s.modules && Reach(Edges(s), s.modules[other].id, s.modules[code].id)
    ensures var paid := s.modules[code].subscription.value;
      && (paid.expires.Some? && day >= paid.expires.value ==> !Entitled(s.(today := day), other))
      && (paid.starts.Some? && day < paid.starts.value ==> !Entitled(s.(today := day), other))
  {
    var t := s.(today := day);
    assert Edges(t) == Edges(s);
    GoodIsOwn(t, t.modules[code]);
  }

  // ---------------------------------------------------------------- least fixpoint

  /** The rule: good, and all dependencies already in. */
  ghost predicate Admits(s: Snapshot, X: set<int>, id: int) {
    Good(s, id) && forall d :: d in Dependencies(s, id) ==> d in X
  }

  ghost function Stage(s: Snapshot, k: nat): set<int> {
    if k == 0 then {} else set id | id in Ids(s) && Admits(s, Stage(s, k - 1), id)
  }

  lemma {:induction false} StageGrows(s: Snapshot, k: nat)
    ensures Stage(s, k) <= Stage(s, k + 1)
  {
    if k > 0 {
      StageGrows(s, k - 1);
    }
  }

  lemma StageClosed(s: Snapshot, k: nat, a: int, b: int)
    requires a in Stage(s, k) && Reach(Edges(s), a, b)
    ensures b in Stage(s, k)
  {
    forall e | e in Edges(s) && e.0 in Stage(s, k) ensures e.1 in Stage(s, k) {
      assert k > 0 && e.1 in Dependencies(s, e.0) && e.1 in Stage(s, k - 1);
      StageGrows(s, k - 1);
    }
    ClosedHoldsReach(Edges(s), Stage(s, k), a, b);
  }

  lemma {:induction false} StageOffCycles(s: Snapshot, k: nat, n: int)
    requires n in Stage(s, k)
    ensures !OnCycle(Edges(s), n)
  {
    forall y | (n, y) in Edges(s) ensures !Reach(Edges(s), y, n) {
      if Reach(Edges(s), y, n) {
        assert y in Dependencies(s, n);
        StageClosed(s, k - 1, y, n);
        StageOffCycles(s, k - 1, n);
      }
    }
  }

  /** Open modules enter within as many rounds as there are modules off the path. */
  lemma {:induction false} OpenIsStaged(s: Snapshot, id: int, path: set<int>)
    requires Open(s, id, path) && path <= Ids(s)
    ensures id in Stage(s, |Ids(s) - path|)
    decreases |Ids(s) - path|
  {
    OpenUnfolds(s, id, path);
    assert id in Ids(s) && id !in path;
    var next := path + {id};
    assert Ids(s) - path == (Ids(s) - next) + {id};
    forall d | d in Dependencies(s, id) ensures d in Stage(s, |Ids(s) - next|) {
      var k :| 0 <= k < |Dependencies(s, id)| && Dependencies(s, id)[k] == d;
      OpenIsStaged(s, d, next);
    }
  }

  lemma {:induction false} StageWithin(s: Snapshot, X: set<int>, k: nat)
    requires forall id :: Admits(s, X, id) ==> id in X
    ensures Stage(s, k) <= X
  {
    if k > 0 {
      StageWithin(s, X, k - 1);
      forall id | id in Stage(s, k) ensures id in X {
        assert Admits(s, X, id);
      }
    }
  }

  /** The open modules are the least set that satisfies the rule. */
  lemma EntitledIsLeastFixpoint(s: Snapshot)
    ensures var open := set id | id in Ids(s) && Open(s, id, {});
      && (forall id :: id in open <==> Admits(s, open, id))
      && (forall X :: (forall id :: Admits(s, X, id) ==> id in X) ==> open <= X)
      && open == Stage(s, |Ids(s)|)
  {
    var n := |Ids(s)|;
    var open := set id | id in Ids(s) && Open(s, id, {});
    assert Ids(s) - {} == Ids(s);
    forall id | id in open ensures id in Stage(s, n) {
      OpenIsStaged(s, id, {});
    }
    forall id | id in Stage(s, n) ensures Open(s, id, {}) {
      forall m | Reach(Edges(s), id, m) ensures Good(s, m) && !OnCycle(Edges(s), m) {
        StageClosed(s, n, id, m);
        StageOffCycles(s, n, m);
      }
    }
    forall id ensures id in open <==> Admits(s, open, id) {
      OpenRule(s, id);
      OpenIsGood(s, open);
    }
    forall X: set<int> | forall id :: Admits(s, X, id) ==> id in X ensures open <= X {
      StageWithin(s, X, n);
    }
  }

  lemma OpenIsGood(s: Snapshot, open: set<int>)
    requires open == set id | id in Ids(s) && Open(s, id, {})
    ensures forall id :: Open(s, id, {}) ==> id in open
  {
    forall id | Open(s, id, {}) ensures id in open {
      OpenUnfolds(s, id, {});
    }
  }

  lemma OpenRule(s: Snapshot, id: int)
    ensures Open(s, id, {}) <==> Good(s, id) && forall d :: d in Dependencies(s, id) ==> Open(s, d, {})
  {
    var E := Edges(s);
    ReachRefl(E, id);
    if Open(s, id, {}) {
      forall d | d in Dependencies(s, id) ensures Open(s, d, {}) {
        assert (id, d) in E;
        forall n | Reach(E, d, n) ensures Good(s, n) && !OnCycle(E, n) {
          ReachPrepend(E, id, d, n);
        }
      }
    }
    if Good(s, id) && forall d :: d in Dependencies(s, id) ==> Open(s, d, {}) {
      forall y | (id, y) in E ensures Open(s, y, {}) && !Reach(E, y, id) {
        assert y in Dependencies(s, id);
        if Reach(E, y, id) {
          assert OnCycle(E, id);
        }
      }
      forall n | Reach(E, id, n) ensures Good(s, n) && !OnCycle(E, n) {
        if n != id {
          ReachUnfold(E, id, n);
        }
      }
    }
  }

  // ---------------------------------------------------------------- revocation

  /** Fewer good modules and more dependencies never open anything. */
  lemma RestrictingNeverOpens(before: Snapshot, after: Snapshot, id: int)
    requires forall n :: Good(after, n) ==> Good(before, n)
    requires Edges(before) <= Edges(after)
    requires Open(after, id, {})
    ensures Open(before, id, {})
  {
    forall n | Reach(Edges(before), id, n) ensures Good(before, n) && !OnCycle(Edges(before), n) {
      ReachMonotone(Edges(before), Edges(after), id, n);
      forall y | (n, y) in Edges(before) ensures !Reach(Edges(before), y, n) {
        if Reach(Edges(before), y, n) {
          ReachMonotone(Edges(before), Edges(after), y, n);
        }
      }
    }
  }

  function Disable(s: Snapshot, code: string): Snapshot
    requires code in s.modules
  {
    s.(modules := s.modules[code := s.modules[code].(disabled := true)])
  }

  function EndSubscription(s: Snapshot, code: string): Snapshot
    requires code in s.modules
  {
    s.(modules := s.modules[code := s.modules[code].(subscription := None)])
  }

  function AddDependency(s: Snapshot, id: int, needs: int): Snapshot {
    s.(dependencies := s.dependencies[id := Dependencies(s, id) + [needs]])
  }

  /** Disabling a module, ending a subscription and adding a dependency only ever take access away. */
  lemma RevocationNeverEnables(s: Snapshot, code: string, id: int, needs: int, other: string)
    requires code in s.modules
    ensures Entitled(Disable(s, code), other) ==> Entitled(s, other)
    ensures UniqueIds(s) ==> !Entitled(Disable(s, code), code)
    ensures Entitled(EndSubscription(s, code), other) ==> Entitled(s, other)
    ensures Entitled(AddDependency(s, id, needs), other) ==> Entitled(s, other)
  {
    if Entitled(Disable(s, code), other) {
      GoodShrinks(Disable(s, code), s, code);
      RestrictingNeverOpens(s, Disable(s, code), s.modules[other].id);
    }
    if Entitled(Disable(s, code), code) {
      ReachRefl(Edges(Disable(s, code)), s.modules[code].id);
    }
    if Entitled(EndSubscription(s, code), other) {
      GoodShrinks(EndSubscription(s, code), s, code);
      RestrictingNeverOpens(s, EndSubscription(s, code), s.modules[other].id);
    }
    if Entitled(AddDependency(s, id, needs), other) {
      RestrictingNeverOpens(s, AddDependency(s, id, needs), s.modules[other].id);
    }
  }

  lemma GoodShrinks(after: Snapshot, before: Snapshot, code: string)
    requires code in before.modules && (after == Disable(before, code) || after == EndSubscription(before, code))
    ensures forall n :: Good(after, n) ==> Good(before, n)
  {
  }
}
