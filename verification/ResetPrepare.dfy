/** The review before a reset: which manifests it accepts, and what acceptance guarantees. */
module ResetPrepare {
  import opened Outcomes
  import opened Graphs
  import opened Multisets
  import opened ResetOrder
  import opened ResetDatabase
  import opened ResetApply

  datatype Options = Options(
    schemaName: string, tenantId: int,
    deleteTables: seq<string>, retainTables: seq<string>, truncateTables: seq<string>)

  datatype PreservedUser = PreservedUser(id: int, employeeId: Option<int>)

  /**
   What the catalogue queries return besides the foreign keys inside the schema: the parents referred
   to from other schemas, tables with an enabled delete trigger, tables in an inheritance hierarchy,
   tables with a tenant column.
   */
  datatype Catalogue = Catalogue(
    names: seq<string>, outsideParents: seq<string>, triggers: seq<string>,
    inherited: seq<string>, owned: seq<string>)

  function EmployeeIds(users: seq<PreservedUser>): (r: seq<int>)
    ensures forall e :: e in r <==> exists u :: u in users && u.employeeId == Some(e)
  {
    if users == [] then []
    else
      assert users == [users[0]] + users[1..];
      (if users[0].employeeId.Some? then [users[0].employeeId.value] else []) + EmployeeIds(users[1..])
  }

  function UserIds(users: seq<PreservedUser>): seq<int> {
    seq(|users|, i requires 0 <= i < |users| => users[i].id)
  }

  function KeepOf(users: seq<PreservedUser>): Keep {
    Keep(set u | u in UserIds(users), set e | e in EmployeeIds(users))
  }

  // ---------------------------------------------------------------- table lists

  predicate RequiredDeletes(deletes: seq<string>) {
    forall n :: n in ["user", "employee", "user_role", "user_session"] ==> n in deletes
  }

  predicate ManifestValid(o: Options, names: seq<string>) {
    && Distinct(o.deleteTables) && Distinct(o.truncateTables) && Distinct(o.retainTables)
    && (forall n :: n in o.deleteTables + o.truncateTables ==> n !in o.retainTables)
    && (forall n :: n in o.deleteTables ==> n !in o.truncateTables)
    && (forall n :: n in o.deleteTables + o.truncateTables ==>
          SafeIdentifier(n) && n in names && !Foundational(n, o.schemaName))
    && (forall n :: n in o.retainTables ==> n in names)
  }

  predicate AllClassified(o: Options, names: seq<string>) {
    forall n :: n in names ==>
      n in o.deleteTables + o.truncateTables || n in o.retainTables || Foundational(n, o.schemaName)
  }

  /** The truncate group holds no identities and is closed under incoming references. */
  predicate TruncateGroupTables(o: Options) {
    forall t :: t in o.truncateTables ==> !Foundational(t, o.schemaName) && !HoldsIdentities(t)
  }

  predicate TruncateGroupClosed(o: Options, keys: seq<ForeignKey>, outsideParents: seq<string>) {
    && (forall fk :: fk in keys && fk.parent in o.truncateTables ==> fk.child in o.truncateTables)
    && (forall p :: p in outsideParents ==> p !in o.truncateTables)
  }

  // ---------------------------------------------------------------- one foreign key

  /** The foreign keys the review has to look at: into a delete table, from a table not truncated, both populated. */
  predicate Relevant(tables: Tables, o: Options, fk: ForeignKey)
    requires fk.child in tables && fk.parent in tables
  {
    && fk.parent in o.deleteTables && fk.child !in o.truncateTables
    && |tables[fk.child]| != 0 && |tables[fk.parent]| != 0
  }

  predicate ColumnsSafe(fk: ForeignKey) {
    forall c :: c in fk.childColumns + fk.parentColumns ==> SafeIdentifier(c)
  }

  /** A row that stays refers to a row that goes. */
  predicate KeptReference(tables: Tables, o: Options, keep: Keep, fk: ForeignKey)
    requires WellFormed(fk) && fk.child in tables && fk.parent in tables
  {
    exists c: nat, p: nat :: c in tables[fk.child] && p in tables[fk.parent] && KeptPair(tables, o, keep, fk, c, p)
  }

  predicate KeptPair(tables: Tables, o: Options, keep: Keep, fk: ForeignKey, c: nat, p: nat)
    requires WellFormed(fk) && fk.child in tables && fk.parent in tables
    requires c in tables[fk.child] && p in tables[fk.parent]
  {
    && (fk.child in o.deleteTables ==> Kept(keep, fk.child, tables[fk.child][c]))
    && Doomed(keep, fk.parent, tables[fk.parent][p])
    && References(fk, tables[fk.child][c], tables[fk.parent][p])
  }

  predicate KeptChecked(o: Options, fk: ForeignKey) {
    fk.child !in o.deleteTables || HoldsIdentities(fk.child)
  }

  function DoomedPairs(tables: Tables, keep: Keep, fk: ForeignKey): set<(nat, nat)>
    requires WellFormed(fk) && fk.child in tables && fk.parent in tables
  {
    set c, p | c in tables[fk.child] && p in tables[fk.parent] && DoomedPair(tables, keep, fk, c, p) :: (c, p)
  }

  function LinkOf(fk: ForeignKey, rows: int): Option<ClearLink> {
    if fk.nullable != [] && (fk.matching == MatchSimple || |fk.nullable| == |fk.childColumns|)
    then Some(ClearLink(fk.child, fk.parent, fk.childColumns, fk.parentColumns, fk.nullable, rows))
    else None
  }

  /** `fk` links rows that both go, so it constrains the deletion order. */
  predicate Constrains(tables: Tables, o: Options, keep: Keep, fk: ForeignKey)
    requires WellFormed(fk) && fk.child in tables && fk.parent in tables
  {
    Relevant(tables, o, fk) && fk.child in o.deleteTables && DoomedPairs(tables, keep, fk) != {}
  }

  predicate KeyAccepted(tables: Tables, o: Options, keep: Keep, fk: ForeignKey)
    requires WellFormed(fk) && fk.child in tables && fk.parent in tables
  {
    Relevant(tables, o, fk) ==> ColumnsSafe(fk) && (KeptChecked(o, fk) ==> !KeptReference(tables, o, keep, fk))
  }

  function DependencyOf(tables: Tables, keep: Keep, fk: ForeignKey): Dependency
    requires WellFormed(fk) && fk.child in tables && fk.parent in tables
  {
    Dependency(fk.child, fk.parent, LinkOf(fk, |DoomedPairs(tables, keep, fk)|))
  }

  /** The dependencies the review hands to the planner, in catalogue order. */
  function Dependencies(tables: Tables, o: Options, keep: Keep, keys: seq<ForeignKey>): seq<Dependency>
    requires Catalogued(tables, keys)
  {
    if keys == [] then []
    else
      var last := keys[|keys| - 1];
      Dependencies(tables, o, keep, keys[..|keys| - 1])
      + (if Constrains(tables, o, keep, last) then [DependencyOf(tables, keep, last)] else [])
  }

  /** Every constraining foreign key contributes its dependency, and nothing else does. */
  lemma {:induction false} DependenciesAre(tables: Tables, o: Options, keep: Keep, keys: seq<ForeignKey>)
    requires Catalogued(tables, keys)
    ensures forall fk :: fk in keys && Constrains(tables, o, keep, fk) ==>
      DependencyOf(tables, keep, fk) in Dependencies(tables, o, keep, keys)
    ensures forall d :: d in Dependencies(tables, o, keep, keys) ==>
      exists fk :: fk in keys && Constrains(tables, o, keep, fk) && d == DependencyOf(tables, keep, fk)
  {
    if keys != [] {
      var init, last := keys[..|keys| - 1], keys[|keys| - 1];
      assert keys == init + [last];
      DependenciesAre(tables, o, keep, init);
    }
  }

  lemma AppendDependency(tables: Tables, o: Options, keep: Keep, init: seq<ForeignKey>, last: ForeignKey)
    requires Catalogued(tables, init) && Catalogued(tables, [last]) && Catalogued(tables, init + [last])
    requires WellFormed(last) && last.child in tables && last.parent in tables
    ensures Dependencies(tables, o, keep, init + [last]) == Dependencies(tables, o, keep, init)
      + (if Constrains(tables, o, keep, last) then [DependencyOf(tables, keep, last)] else [])
  {
    assert (init + [last])[..|init|] == init;
  }

  predicate ForeignRows(tables: Tables, o: Options, t: string) {
    t in tables && exists id | id in tables[t] ::
      "tenant_id" in tables[t][id] && tables[t][id]["tenant_id"] != o.tenantId
  }

  /** A table with a tenant column: its name can be quoted and it holds this tenant's rows only. */
  predicate OwnedAccepted(tables: Tables, o: Options, t: string) {
    SafeIdentifier(t) && !ForeignRows(tables, o, t)
  }

  // ---------------------------------------------------------------- acceptance

  /** Every check of the review other than the planner's. */
  ghost predicate Acceptable(
      tables: Tables, keys: seq<ForeignKey>, cat: Catalogue, o: Options, users: seq<PreservedUser>)
    requires Catalogued(tables, keys)
  {
    && RequiredDeletes(o.deleteTables)
    && ManifestValid(o, cat.names)
    && AllClassified(o, cat.names)
    && TruncateGroupTables(o)
    && TruncateGroupClosed(o, keys, cat.outsideParents)
    && (forall t :: t in cat.triggers && t in o.deleteTables && t in tables ==> |tables[t]| == 0)
    && (forall t :: t in cat.inherited ==> t !in o.truncateTables)
    && cat.outsideParents == []
    && (forall fk :: fk in keys ==> KeyAccepted(tables, o, KeepOf(users), fk))
    && (forall t :: t in cat.owned ==> OwnedAccepted(tables, o, t))
  }

  /** The checks of the table lists, in order. */
  function ListObjection(keys: seq<ForeignKey>, cat: Catalogue, o: Options): Option<ResetError> {
    if !RequiredDeletes(o.deleteTables) then Some(ExplicitTableManifestRequired)
    else if !ManifestValid(o, cat.names) then Some(TableManifestInvalid)
    else if !AllClassified(o, cat.names) then Some(UnclassifiedTable)
    else if !TruncateGroupTables(o) then Some(TruncatePreservedTable)
    else if !TruncateGroupClosed(o, keys, cat.outsideParents) then Some(TruncateReferenceOutsideGroup)
    else None
  }

  /** The checks made before any foreign key is looked at, in order. */
  function FirstObjection(tables: Tables, keys: seq<ForeignKey>, cat: Catalogue, o: Options): Option<ResetError> {
    if ListObjection(keys, cat, o).Some? then ListObjection(keys, cat, o)
    else if exists t :: t in cat.triggers && t in o.deleteTables && t in tables && |tables[t]| > 0 then
      Some(DeleteTriggerRequiresReview)
    else if o.truncateTables != [] && exists t :: t in cat.inherited && t in o.truncateTables then
      Some(TruncateInheritanceRequiresReview)
    else if cat.outsideParents != [] then Some(ExternalForeignKey)
    else None
  }

  /** The dependencies that carry no clearable link leave an order. */
  ghost predicate Plannable(tables: Tables, keys: seq<ForeignKey>, o: Options, users: seq<PreservedUser>)
    requires Catalogued(tables, keys)
  {
    var es := NonSelf(Dependencies(tables, o, KeepOf(users), keys));
    !Cyclic(Among(Members(o.deleteTables), LinksAt(es, Rigid(es))))
  }

  /** What the planner guarantees of its order and clears. */
  ghost predicate Planned(tables: seq<string>, dependencies: seq<Dependency>, plan: DeletionPlan, gone: seq<nat>) {
    var es := NonSelf(dependencies);
    && ClearedInTurn(tables, es, gone)
    && ClearsAt(es, gone, plan.clears)
    && ValidOrder(Members(tables), LinksAt(es, Left(es, gone)), plan.order)
  }

  /** `clears` are the links the planner clears for this state. */
  ghost predicate PlannedClears(
      tables: Tables, keys: seq<ForeignKey>, o: Options, users: seq<PreservedUser>, clears: seq<ClearLink>)
    requires Catalogued(tables, keys)
  {
    exists order, gone ::
      Planned(o.deleteTables, Dependencies(tables, o, KeepOf(users), keys), DeletionPlan(order, clears), gone)
  }

  /** Clearing in turn until an order exists takes the same positions every time. */
  lemma {:induction false} SameClears(tables: seq<string>, es: seq<Dependency>, a: seq<nat>, b: seq<nat>, n: nat)
    requires ClearedInTurn(tables, es, a) && ClearedInTurn(tables, es, b)
    requires Orderable(tables, es, a) && Orderable(tables, es, b)
    requires n <= |a| && n <= |b|
    ensures a[..n] == b[..n]
    ensures n == |a| ==> |b| == n
  {
    if n > 0 {
      SameClears(tables, es, a, b, n - 1);
      assert a[..n] == a[..n - 1] + [a[n - 1]] && b[..n] == b[..n - 1] + [b[n - 1]];
      assert Clearable(es, a[..n - 1], a[n - 1]) && Clearable(es, b[..n - 1], b[n - 1]);
    }
    assert n == |a| ==> a[..n] == a;
    OrderEndsClearing(tables, es, b, n);
  }

  lemma OrderEndsClearing(tables: seq<string>, es: seq<Dependency>, gone: seq<nat>, n: nat)
    requires ClearedInTurn(tables, es, gone) && n <= |gone|
    ensures Orderable(tables, es, gone[..n]) ==> n == |gone|
  {
  }

  lemma PlannedIsOrderable(tables: seq<string>, dependencies: seq<Dependency>, plan: DeletionPlan, gone: seq<nat>)
    requires Planned(tables, dependencies, plan, gone)
    ensures Orderable(tables, NonSelf(dependencies), gone)
  {
    var kept := LinksAt(NonSelf(dependencies), Left(NonSelf(dependencies), gone));
    if Cyclic(Among(Members(tables), kept)) {
      CycleForbidsOrder(Members(tables), kept, plan.order);
    }
  }

  /** All plans for a state clear the same links in the same turn. */
  lemma PlansClearAlike(
      tables: seq<string>, dependencies: seq<Dependency>, p: DeletionPlan, q: DeletionPlan, a: seq<nat>, b: seq<nat>)
    requires Planned(tables, dependencies, p, a) && Planned(tables, dependencies, q, b)
    ensures p.clears == q.clears
  {
    var es := NonSelf(dependencies);
    PlannedIsOrderable(tables, dependencies, p, a);
    PlannedIsOrderable(tables, dependencies, q, b);
    if |a| <= |b| {
      SameClears(tables, es, a, b, |a|);
    } else {
      SameClears(tables, es, b, a, |b|);
    }
    assert a == a[..|a|] && b == b[..|b|] && a == b;
    forall i | 0 <= i < |a| ensures p.clears[i] == q.clears[i] {
      assert es[a[i]].clear == Some(p.clears[i]) && es[b[i]].clear == Some(q.clears[i]);
    }
  }

  lemma ClearsAreUnique(
      tables: Tables, keys: seq<ForeignKey>, o: Options, users: seq<PreservedUser>, c: seq<ClearLink>,
      d: seq<ClearLink>)
    requires Catalogued(tables, keys)
    requires PlannedClears(tables, keys, o, users, c) && PlannedClears(tables, keys, o, users, d)
    ensures c == d
  {
    var deps := Dependencies(tables, o, KeepOf(users), keys);
    var order, gone :| Planned(o.deleteTables, deps, DeletionPlan(order, c), gone);
    var order', gone' :| Planned(o.deleteTables, deps, DeletionPlan(order', d), gone');
    PlansClearAlike(o.deleteTables, deps, DeletionPlan(order, c), DeletionPlan(order', d), gone, gone');
  }

  /** An accepted state with its plan is exactly what the executor relies on. */
  lemma AcceptedIsReviewed(tables: Tables, keys: seq<ForeignKey>, cat: Catalogue, o: Options, users: seq<PreservedUser>,
                           m: Manifest, gone: seq<nat>)
    requires Catalogued(tables, keys) && IdentitiesSet(tables) && ValidSchema(o.schemaName)
    requires forall t :: t in cat.names <==> t in tables
    requires Acceptable(tables, keys, cat, o, users)
    requires Planned(o.deleteTables, Dependencies(tables, o, KeepOf(users), keys),
      DeletionPlan(m.deleteOrder, m.clears), gone)
    requires m.truncateTables == o.truncateTables && m.Keeps() == KeepOf(users)
    requires forall t :: t in m.retainedTables ==> t !in o.deleteTables + o.truncateTables
    ensures Reviewed(tables, keys, o.schemaName, m)
  {
    assert forall t :: t in m.deleteOrder <==> t in Members(m.deleteOrder);
    assert forall t :: t in o.deleteTables <==> t in Members(o.deleteTables);
    forall fk | fk in keys && fk.parent in m.deleteOrder && fk.child !in m.truncateTables
      ensures !StayingLink(tables, m, fk)
    {
      NothingStays(tables, o, users, m, fk);
    }
    forall fk | fk in keys && fk.parent in m.deleteOrder && fk.child in m.deleteOrder && fk.child != fk.parent
                && DoomedLink(tables, m.Keeps(), fk)
      ensures
        || OrderedBefore(m.deleteOrder, fk.child, fk.parent)
        || exists i :: 0 <= i < |m.clears| && ClearsKey(m.clears[i], fk)
    {
      ConstrainedIsOrderedOrCleared(tables, keys, o, users, m, gone, fk);
    }
    forall i | 0 <= i < |m.clears| ensures LinkReviewed(keys, m, m.clears[i]) {
      ClearIsReviewed(tables, keys, cat, o, users, m, gone, i);
    }
  }

  lemma NothingStays(tables: Tables, o: Options, users: seq<PreservedUser>, m: Manifest, fk: ForeignKey)
    requires WellFormed(fk) && fk.child in tables && fk.parent in tables && IdentitiesSet(tables)
    requires KeyAccepted(tables, o, KeepOf(users), fk) && m.Keeps() == KeepOf(users)
    requires forall t :: t in m.deleteOrder <==> t in o.deleteTables
    requires fk.parent in o.deleteTables && fk.child !in o.truncateTables
    ensures !StayingLink(tables, m, fk)
  {
    forall c, p ensures !StayingPair(tables, m, fk, c, p) {
      if c in tables[fk.child] && p in tables[fk.parent] {
        assert |tables[fk.child]| != 0 && |tables[fk.parent]| != 0;
        var keep := m.Keeps();
        if fk.child in o.deleteTables && !Doomed(keep, fk.child, tables[fk.child][c]) {
          assert HoldsIdentities(fk.child) && Kept(keep, fk.child, tables[fk.child][c]);
        }
      }
    }
  }

  lemma ConstrainedIsOrderedOrCleared(tables: Tables, keys: seq<ForeignKey>, o: Options, users: seq<PreservedUser>,
                                      m: Manifest, gone: seq<nat>, fk: ForeignKey)
    requires Catalogued(tables, keys) && fk in keys
    requires Planned(o.deleteTables, Dependencies(tables, o, KeepOf(users), keys),
      DeletionPlan(m.deleteOrder, m.clears), gone)
    requires m.Keeps() == KeepOf(users)
    requires fk.parent in o.deleteTables && fk.child in o.deleteTables && fk.child != fk.parent
    requires fk.child !in o.truncateTables
    requires DoomedLink(tables, m.Keeps(), fk)
    ensures
      || OrderedBefore(m.deleteOrder, fk.child, fk.parent)
      || exists i :: 0 <= i < |m.clears| && ClearsKey(m.clears[i], fk)
  {
    var keep := KeepOf(users);
    var d := DependencyOf(tables, keep, fk);
    var es := NonSelf(Dependencies(tables, o, keep, keys));
    DoomedLinkConstrains(tables, o, keep, fk);
    DependenciesAre(tables, o, keep, keys);
    assert d in es;
    var j :| 0 <= j < |es| && es[j] == d;
    if j in gone {
      var i :| 0 <= i < |gone| && gone[i] == j;
      assert ClearsKey(m.clears[i], fk);
    } else {
      LeftIsOrdered(o.deleteTables, es, gone, m.deleteOrder, j);
    }
  }

  lemma DoomedLinkConstrains(tables: Tables, o: Options, keep: Keep, fk: ForeignKey)
    requires WellFormed(fk) && fk.child in tables && fk.parent in tables
    requires fk.parent in o.deleteTables && fk.child in o.deleteTables && fk.child !in o.truncateTables
    requires DoomedLink(tables, keep, fk)
    ensures Constrains(tables, o, keep, fk)
  {
    var c: nat, p: nat :| DoomedPair(tables, keep, fk, c, p);
    assert (c, p) in DoomedPairs(tables, keep, fk);
    assert |tables[fk.child]| != 0 && |tables[fk.parent]| != 0;
  }

  /** A dependency that was not cleared is respected by the order. */
  lemma LeftIsOrdered(tables: seq<string>, es: seq<Dependency>, gone: seq<nat>, order: seq<string>, j: nat)
    requires j < |es| && j !in gone && es[j].child in tables && es[j].parent in tables && es[j].child != es[j].parent
    requires ValidOrder(Members(tables), LinksAt(es, Left(es, gone)), order)
    ensures OrderedBefore(order, es[j].child, es[j].parent)
  {
    var kept := LinksAt(es, Left(es, gone));
    assert j in Left(es, gone);
    assert (es[j].child, es[j].parent) in kept;
    assert (es[j].child, es[j].parent) in Among(Members(tables), kept);
  }

  lemma ClearIsReviewed(tables: Tables, keys: seq<ForeignKey>, cat: Catalogue, o: Options, users: seq<PreservedUser>,
                        m: Manifest, gone: seq<nat>, i: nat)
    requires Catalogued(tables, keys) && Acceptable(tables, keys, cat, o, users)
    requires Planned(o.deleteTables, Dependencies(tables, o, KeepOf(users), keys),
      DeletionPlan(m.deleteOrder, m.clears), gone)
    requires forall t :: t in m.deleteOrder <==> t in o.deleteTables
    requires i < |m.clears|
    ensures LinkReviewed(keys, m, m.clears[i])
  {
    var keep := KeepOf(users);
    var deps := Dependencies(tables, o, keep, keys);
    var d := NonSelf(deps)[gone[i]];
    assert d in NonSelf(deps) && d in deps;
    DependenciesAre(tables, o, keep, keys);
    var fk :| fk in keys && Constrains(tables, o, keep, fk) && d == DependencyOf(tables, keep, fk);
    assert ClearsKey(m.clears[i], fk);
    assert KeyAccepted(tables, o, keep, fk);
  }

  ghost predicate FirstRefused(tables: Tables, keys: seq<ForeignKey>, o: Options, keep: Keep, k: nat)
    requires Catalogued(tables, keys) && k < |keys|
  {
    !KeyAccepted(tables, o, keep, keys[k]) && forall j :: 0 <= j < k ==> KeyAccepted(tables, o, keep, keys[j])
  }

  function KeyError(fk: ForeignKey): ResetError {
    if ColumnsSafe(fk) then RetainedRowReferencesDeletedData else ForeignKeyUnsupported
  }

  lemma NextDependency(tables: Tables, o: Options, keep: Keep, keys: seq<ForeignKey>, i: nat)
    requires Catalogued(tables, keys) && i < |keys|
    ensures keys[i] in keys && Catalogued(tables, keys[..i]) && Catalogued(tables, keys[..i + 1])
    ensures Dependencies(tables, o, keep, keys[..i + 1]) == Dependencies(tables, o, keep, keys[..i])
      + (if Constrains(tables, o, keep, keys[i]) then [DependencyOf(tables, keep, keys[i])] else [])
  {
    assert keys[..i + 1][..i] == keys[..i];
  }

  /** One foreign key: refused, without a say in the order, or a dependency. */
  method CheckKey(tables: Tables, o: Options, keep: Keep, fk: ForeignKey)
    returns (r: Result<Option<Dependency>, ResetError>)
    requires WellFormed(fk) && fk.child in tables && fk.parent in tables
    ensures r.Ok? <==> KeyAccepted(tables, o, keep, fk)
    ensures r.Err? ==> r.error == KeyError(fk)
    ensures r.Ok? ==>
      r.value == if Constrains(tables, o, keep, fk) then Some(DependencyOf(tables, keep, fk)) else None
  {
    if fk.parent !in o.deleteTables || fk.child in o.truncateTables {
      return Ok(None);
    }
    if |tables[fk.child]| == 0 || |tables[fk.parent]| == 0 {
      return Ok(None);
    }
    if !ColumnsSafe(fk) {
      return Err(ForeignKeyUnsupported);
    }
    if KeptChecked(o, fk) && KeptReference(tables, o, keep, fk) {
      return Err(RetainedRowReferencesDeletedData);
    }
    if fk.child !in o.deleteTables {
      return Ok(None);
    }
    var count := |DoomedPairs(tables, keep, fk)|;
    if count == 0 {
      return Ok(None);
    }
    r := Ok(Some(Dependency(fk.child, fk.parent, LinkOf(fk, count))));
  }

  /** The pass over the foreign keys: the first refusal, or the dependencies of the plan. */
  method CollectDependencies(tables: Tables, keys: seq<ForeignKey>, o: Options, keep: Keep)
    returns (r: Result<seq<Dependency>, ResetError>)
    requires Catalogued(tables, keys)
    ensures r.Ok? <==> forall fk :: fk in keys ==> KeyAccepted(tables, o, keep, fk)
    ensures r.Ok? ==> r.value == Dependencies(tables, o, keep, keys)
    ensures r.Err? ==> exists k ::
      0 <= k < |keys| && FirstRefused(tables, keys, o, keep, k) && r.error == KeyError(keys[k])
  {
    var dependencies := [];
    for i := 0 to |keys|
      invariant forall k :: 0 <= k < i ==> KeyAccepted(tables, o, keep, keys[k])
      invariant dependencies == Dependencies(tables, o, keep, keys[..i])
    {
      assert keys[i] in keys;
      var found := CheckKey(tables, o, keep, keys[i]);
      if found.Err? {
        assert FirstRefused(tables, keys, o, keep, i);
        return Err(found.error);
      }
      NextDependency(tables, o, keep, keys, i);
      if found.value.Some? {
        dependencies := dependencies + [found.value.value];
      }
    }
    assert keys[..|keys|] == keys;
    r := Ok(dependencies);
  }

  ghost predicate FirstOwnedRefused(tables: Tables, owned: seq<string>, o: Options, k: nat)
    requires k < |owned|
  {
    !OwnedAccepted(tables, o, owned[k]) && forall j :: 0 <= j < k ==> OwnedAccepted(tables, o, owned[j])
  }

  function OwnedError(t: string): ResetError {
    if SafeIdentifier(t) then SchemaContainsForeignTenantRows else TableIdentifierUnsupported
  }

  /** The pass over the tables with a tenant column; an unsafe name is refused even for an empty table. */
  method CheckOwned(tables: Tables, owned: seq<string>, o: Options) returns (r: Result<(), ResetError>)
    ensures r.Ok? <==> forall t :: t in owned ==> OwnedAccepted(tables, o, t)
    ensures r.Err? ==> exists k ::
      0 <= k < |owned| && FirstOwnedRefused(tables, owned, o, k) && r.error == OwnedError(owned[k])
  {
    for i := 0 to |owned|
      invariant forall j :: 0 <= j < i ==> OwnedAccepted(tables, o, owned[j])
    {
      var t := owned[i];
      assert t in owned;
      if !SafeIdentifier(t) {
        assert FirstOwnedRefused(tables, owned, o, i);
        return Err(TableIdentifierUnsupported);
      }
      if t in tables && |tables[t]| == 0 {
        continue;
      }
      if ForeignRows(tables, o, t) {
        assert FirstOwnedRefused(tables, owned, o, i);
        return Err(SchemaContainsForeignTenantRows);
      }
    }
    r := Ok(());
  }

  /** The tables of a manifest are each listed once, can be quoted, exist, and are none of the kept ones. */
  ghost predicate ListsFit(cat: Catalogue, o: Options) {
    && Distinct(o.deleteTables) && Distinct(o.truncateTables) && Distinct(o.retainTables)
    && (forall t :: t in o.deleteTables ==> t !in o.truncateTables)
    && (forall t :: t in o.deleteTables || t in o.truncateTables ==>
          t !in o.retainTables && t in cat.names && SafeIdentifier(t) && !Foundational(t, o.schemaName))
    && (forall t :: t in o.retainTables ==> t in cat.names)
  }

  /** Check number `k` passes, counted from zero in the order they are made. */
  ghost predicate Passes(
      tables: Tables, keys: seq<ForeignKey>, cat: Catalogue, o: Options, users: seq<PreservedUser>, k: nat)
    requires Catalogued(tables, keys)
  {
    if k == 0 then RequiredDeletes(o.deleteTables)
    else if k == 1 then ManifestValid(o, cat.names)
    else if k == 2 then AllClassified(o, cat.names)
    else if k == 3 then TruncateGroupTables(o)
    else if k == 4 then TruncateGroupClosed(o, keys, cat.outsideParents)
    else if k == 5 then forall t :: t in cat.triggers && t in o.deleteTables && t in tables ==> |tables[t]| == 0
    else if k == 6 then forall t :: t in cat.inherited ==> t !in o.truncateTables
    else if k == 7 then cat.outsideParents == []
    else if k == 8 then forall fk :: fk in keys ==> KeyAccepted(tables, o, KeepOf(users), fk)
    else forall t :: t in cat.owned ==> OwnedAccepted(tables, o, t)
  }

  /** The first `k` checks pass. */
  ghost predicate PassFirst(
      tables: Tables, keys: seq<ForeignKey>, cat: Catalogue, o: Options, users: seq<PreservedUser>, k: nat)
    requires Catalogued(tables, keys)
  {
    k > 0 ==> PassFirst(tables, keys, cat, o, users, k - 1) && Passes(tables, keys, cat, o, users, k - 1)
  }

  /** Check number `k` is the first that fails. */
  ghost predicate FailsAt(
      tables: Tables, keys: seq<ForeignKey>, cat: Catalogue, o: Options, users: seq<PreservedUser>, k: nat)
    requires Catalogued(tables, keys)
  {
    PassFirst(tables, keys, cat, o, users, k) && !Passes(tables, keys, cat, o, users, k)
  }

  /** The check that each error belongs to; the planner comes after all of them. */
  function CheckOf(error: ResetError): nat {
    match error
    case ExplicitTableManifestRequired => 0
    case TableManifestInvalid => 1
    case UnclassifiedTable => 2
    case TruncatePreservedTable => 3
    case TruncateReferenceOutsideGroup => 4
    case DeleteTriggerRequiresReview => 5
    case TruncateInheritanceRequiresReview => 6
    case ExternalForeignKey => 7
    case ForeignKeyUnsupported => 8
    case RetainedRowReferencesDeletedData => 8
    case TableIdentifierUnsupported => 9
    case SchemaContainsForeignTenantRows => 9
    case _ => 10
  }

  /** The error names the first check that fails, and for a foreign key or an owned table the first of them. */
  ghost predicate Refuses(
      tables: Tables, keys: seq<ForeignKey>, cat: Catalogue, o: Options, users: seq<PreservedUser>,
      error: ResetError)
    requires Catalogued(tables, keys)
  {
    if CheckOf(error) < 10 then
      && FailsAt(tables, keys, cat, o, users, CheckOf(error))
      && (CheckOf(error) == 8 ==> exists k ::
            0 <= k < |keys| && FirstRefused(tables, keys, o, KeepOf(users), k)
            && (error == ForeignKeyUnsupported <==> !ColumnsSafe(keys[k])))
      && (CheckOf(error) == 9 ==> exists k ::
            0 <= k < |cat.owned| && FirstOwnedRefused(tables, cat.owned, o, k)
            && (error == TableIdentifierUnsupported <==> !SafeIdentifier(cat.owned[k])))
    else
      && error == CycleRequiresReviewFirst
      && PassFirst(tables, keys, cat, o, users, 10) && !Plannable(tables, keys, o, users)
  }

  /** The checks of the lists, spelled out. */
  lemma ListChecks(tables: Tables, keys: seq<ForeignKey>, cat: Catalogue, o: Options)
    requires Catalogued(tables, keys)
    ensures RequiredDeletes(o.deleteTables) <==>
      && "user" in o.deleteTables && "employee" in o.deleteTables
      && "user_role" in o.deleteTables && "user_session" in o.deleteTables
    ensures ManifestValid(o, cat.names) <==> ListsFit(cat, o)
    ensures AllClassified(o, cat.names) <==> forall t :: t in cat.names ==>
      t in o.deleteTables || t in o.truncateTables || t in o.retainTables || Foundational(t, o.schemaName)
  {
    if RequiredDeletes(o.deleteTables) {
      RequiredAreListed(o.deleteTables);
    }
    assert forall t :: t in o.deleteTables + o.truncateTables <==> t in o.deleteTables || t in o.truncateTables;
  }

  /** The checks of the truncate group and of the tables with a tenant column, spelled out. */
  lemma TableChecks(tables: Tables, keys: seq<ForeignKey>, cat: Catalogue, o: Options)
    requires Catalogued(tables, keys)
    ensures TruncateGroupTables(o) <==> forall t :: t in o.truncateTables ==>
      !Foundational(t, o.schemaName) && t != "user" && t != "employee" && t != "user_role"
    ensures TruncateGroupClosed(o, keys, cat.outsideParents) <==>
      && (forall fk :: fk in keys ==> fk.child in o.truncateTables || fk.parent !in o.truncateTables)
      && (forall p :: p in cat.outsideParents ==> p !in o.truncateTables)
    ensures forall t :: OwnedAccepted(tables, o, t) <==>
      && SafeIdentifier(t)
      && (t in tables ==> forall id :: id in tables[t] && "tenant_id" in tables[t][id] ==>
            tables[t][id]["tenant_id"] == o.tenantId)
  {
  }

  lemma ListObjectionFails(
      tables: Tables, keys: seq<ForeignKey>, cat: Catalogue, o: Options, users: seq<PreservedUser>)
    requires Catalogued(tables, keys)
    ensures ListObjection(keys, cat, o).Some? ==>
      var error := ListObjection(keys, cat, o).value;
      CheckOf(error) < 5 && FailsAt(tables, keys, cat, o, users, CheckOf(error))
    ensures ListObjection(keys, cat, o).None? ==> PassFirst(tables, keys, cat, o, users, 5)
  {
    assert PassFirst(tables, keys, cat, o, users, 0);
    if Passes(tables, keys, cat, o, users, 0) {
      assert PassFirst(tables, keys, cat, o, users, 1);
      if Passes(tables, keys, cat, o, users, 1) {
        assert PassFirst(tables, keys, cat, o, users, 2);
        if Passes(tables, keys, cat, o, users, 2) {
          assert PassFirst(tables, keys, cat, o, users, 3);
          if Passes(tables, keys, cat, o, users, 3) {
            assert PassFirst(tables, keys, cat, o, users, 4);
          }
        }
      }
    }
  }

  lemma ObjectionRefuses(
      tables: Tables, keys: seq<ForeignKey>, cat: Catalogue, o: Options, users: seq<PreservedUser>)
    requires Catalogued(tables, keys)
    ensures FirstObjection(tables, keys, cat, o).Some? ==>
      Refuses(tables, keys, cat, o, users, FirstObjection(tables, keys, cat, o).value)
    ensures FirstObjection(tables, keys, cat, o).None? ==> PassFirst(tables, keys, cat, o, users, 8)
  {
    ListObjectionFails(tables, keys, cat, o, users);
    if ListObjection(keys, cat, o).None? {
      LateObjectionFails(tables, keys, cat, o, users);
    }
  }

  lemma LateObjectionFails(
      tables: Tables, keys: seq<ForeignKey>, cat: Catalogue, o: Options, users: seq<PreservedUser>)
    requires Catalogued(tables, keys) && ListObjection(keys, cat, o).None?
    requires PassFirst(tables, keys, cat, o, users, 5)
    ensures FirstObjection(tables, keys, cat, o).Some? ==>
      var error := FirstObjection(tables, keys, cat, o).value;
      CheckOf(error) < 8 && FailsAt(tables, keys, cat, o, users, CheckOf(error))
    ensures FirstObjection(tables, keys, cat, o).None? ==> PassFirst(tables, keys, cat, o, users, 8)
  {
    if Passes(tables, keys, cat, o, users, 5) {
      assert PassFirst(tables, keys, cat, o, users, 6);
      if Passes(tables, keys, cat, o, users, 6) {
        assert PassFirst(tables, keys, cat, o, users, 7);
      }
    }
  }

  lemma KeyRefuses(
      tables: Tables, keys: seq<ForeignKey>, cat: Catalogue, o: Options, users: seq<PreservedUser>, k: nat)
    requires Catalogued(tables, keys) && PassFirst(tables, keys, cat, o, users, 8)
    requires k < |keys| && FirstRefused(tables, keys, o, KeepOf(users), k)
    ensures Refuses(tables, keys, cat, o, users, KeyError(keys[k]))
  {
    assert keys[k] in keys;
    assert !Passes(tables, keys, cat, o, users, 8);
  }

  lemma OwnedRefuses(
      tables: Tables, keys: seq<ForeignKey>, cat: Catalogue, o: Options, users: seq<PreservedUser>, k: nat)
    requires Catalogued(tables, keys) && PassFirst(tables, keys, cat, o, users, 9)
    requires k < |cat.owned| && FirstOwnedRefused(tables, cat.owned, o, k)
    ensures Refuses(tables, keys, cat, o, users, OwnedError(cat.owned[k]))
  {
    assert cat.owned[k] in cat.owned;
    assert !Passes(tables, keys, cat, o, users, 9);
  }

  lemma {:induction false} PassedEach(
      tables: Tables, keys: seq<ForeignKey>, cat: Catalogue, o: Options, users: seq<PreservedUser>, k: nat)
    requires Catalogued(tables, keys)
    ensures PassFirst(tables, keys, cat, o, users, k) <==>
      forall j :: 0 <= j < k ==> Passes(tables, keys, cat, o, users, j)
  {
    if k > 0 {
      PassedEach(tables, keys, cat, o, users, k - 1);
    }
  }

  /** All checks pass exactly when the review has nothing against the state. */
  lemma PassAllIsAcceptable(
      tables: Tables, keys: seq<ForeignKey>, cat: Catalogue, o: Options, users: seq<PreservedUser>)
    requires Catalogued(tables, keys)
    ensures Acceptable(tables, keys, cat, o, users) <==> PassFirst(tables, keys, cat, o, users, 10)
  {
    PassedEach(tables, keys, cat, o, users, 10);
    EachOfTen(tables, keys, cat, o, users);
  }

  lemma EachOfTen(tables: Tables, keys: seq<ForeignKey>, cat: Catalogue, o: Options, users: seq<PreservedUser>)
    requires Catalogued(tables, keys)
    ensures (forall j :: 0 <= j < 10 ==> Passes(tables, keys, cat, o, users, j)) <==>
      && Passes(tables, keys, cat, o, users, 0) && Passes(tables, keys, cat, o, users, 1)
      && Passes(tables, keys, cat, o, users, 2) && Passes(tables, keys, cat, o, users, 3)
      && Passes(tables, keys, cat, o, users, 4) && Passes(tables, keys, cat, o, users, 5)
      && Passes(tables, keys, cat, o, users, 6) && Passes(tables, keys, cat, o, users, 7)
      && Passes(tables, keys, cat, o, users, 8) && Passes(tables, keys, cat, o, users, 9)
  {
  }

  /** The two passes in between: once through the keys and the owned tables, the next check has passed too. */
  lemma NextPass(tables: Tables, keys: seq<ForeignKey>, cat: Catalogue, o: Options, users: seq<PreservedUser>)
    requires Catalogued(tables, keys)
    ensures (forall fk :: fk in keys ==> KeyAccepted(tables, o, KeepOf(users), fk)) <==>
      Passes(tables, keys, cat, o, users, 8)
    ensures (forall t :: t in cat.owned ==> OwnedAccepted(tables, o, t)) <==> Passes(tables, keys, cat, o, users, 9)
    ensures PassFirst(tables, keys, cat, o, users, 8) && Passes(tables, keys, cat, o, users, 8) <==>
      PassFirst(tables, keys, cat, o, users, 9)
    ensures PassFirst(tables, keys, cat, o, users, 9) && Passes(tables, keys, cat, o, users, 9) <==>
      PassFirst(tables, keys, cat, o, users, 10)
  {
  }

  /** The checks in order, then the plan. */
  method PlanReset(tables: Tables, keys: seq<ForeignKey>, cat: Catalogue, o: Options, users: seq<PreservedUser>)
    returns (r: Result<DeletionPlan, ResetError>, ghost gone: seq<nat>)
    requires Catalogued(tables, keys)
    ensures r.Ok? <==> Acceptable(tables, keys, cat, o, users) && Plannable(tables, keys, o, users)
    ensures r.Ok? ==> Planned(o.deleteTables, Dependencies(tables, o, KeepOf(users), keys), r.value, gone)
    ensures r.Err? ==> Refuses(tables, keys, cat, o, users, r.error)
  {
    PassAllIsAcceptable(tables, keys, cat, o, users);
    PassedEach(tables, keys, cat, o, users, 10);
    var checked := CheckAll(tables, keys, cat, o, users);
    if checked.Err? {
      return Err(checked.error), [];
    }
    var plan;
    plan, gone := Plan(o.deleteTables, checked.value);
    r := if plan.Err? then Err(CycleRequiresReviewFirst) else Ok(plan.value);
  }

  method CheckAll(tables: Tables, keys: seq<ForeignKey>, cat: Catalogue, o: Options, users: seq<PreservedUser>)
    returns (r: Result<seq<Dependency>, ResetError>)
    requires Catalogued(tables, keys)
    ensures r.Ok? ==> PassFirst(tables, keys, cat, o, users, 10)
    ensures r.Ok? ==> r.value == Dependencies(tables, o, KeepOf(users), keys)
    ensures r.Err? ==> CheckOf(r.error) < 10 && Refuses(tables, keys, cat, o, users, r.error)
  {
    ObjectionRefuses(tables, keys, cat, o, users);
    NextPass(tables, keys, cat, o, users);
    var objection := FirstObjection(tables, keys, cat, o);
    if objection.Some? {
      return Err(objection.value);
    }
    r := CollectDependencies(tables, keys, o, KeepOf(users));
    if r.Err? {
      ghost var k: nat :| k < |keys| && FirstRefused(tables, keys, o, KeepOf(users), k) && r.error == KeyError(keys[k]);
      KeyRefuses(tables, keys, cat, o, users, k);
      return;
    }
    var owned := CheckOwned(tables, cat.owned, o);
    if owned.Err? {
      ghost var k: nat :| k < |cat.owned| && FirstOwnedRefused(tables, cat.owned, o, k)
        && owned.error == OwnedError(cat.owned[k]);
      OwnedRefuses(tables, keys, cat, o, users, k);
      return Err(owned.error);
    }
  }

  /**
   The review. It accepts exactly when every check passes and the rigid dependencies leave an order,
   and what it accepts is reviewed in the executor's sense.
   */
  method Prepare(tables: Tables, keys: seq<ForeignKey>, cat: Catalogue, o: Options, users: seq<PreservedUser>)
    returns (r: Result<Manifest, ResetError>)
    requires Catalogued(tables, keys) && IdentitiesSet(tables) && ValidSchema(o.schemaName)
    requires forall t :: t in cat.names <==> t in tables
    ensures r.Ok? <==> Acceptable(tables, keys, cat, o, users) && Plannable(tables, keys, o, users)
    ensures r.Ok? ==> Reviewed(tables, keys, o.schemaName, r.value)
    ensures r.Ok? ==> r.value.truncateTables == o.truncateTables && r.value.Keeps() == KeepOf(users)
    ensures r.Ok? ==> Members(r.value.deleteOrder) == Members(o.deleteTables)
    ensures r.Ok? ==> PlannedClears(tables, keys, o, users, r.value.clears)
    ensures r.Err? ==> Refuses(tables, keys, cat, o, users, r.error)
  {
    var plan, gone := PlanReset(tables, keys, cat, o, users);
    if plan.Err? {
      return Err(plan.error);
    }
    var m := Manifest(plan.value.order, o.truncateTables, Retained(cat.names, o), UserIds(users), EmployeeIds(users),
      plan.value.clears);
    assert plan.value == DeletionPlan(m.deleteOrder, m.clears);
    AcceptedIsReviewed(tables, keys, cat, o, users, m, gone);
    r := Ok(m);
  }

  function Retained(names: seq<string>, o: Options): (r: seq<string>)
    ensures forall t :: t in r <==> t in names && t !in o.deleteTables + o.truncateTables
  {
    if names == [] then []
    else
      assert names == [names[0]] + names[1..];
      (if names[0] !in o.deleteTables + o.truncateTables then [names[0]] else []) + Retained(names[1..], o)
  }

  /** Every nullable link of the catalogue could be cleared on any state. */
  ghost predicate ClearableSafely(keys: seq<ForeignKey>) {
    forall fk, link :: fk in keys && ClearsKey(link, fk) ==> SchemaSafe(keys, link)
  }

  /** Every check passes and the rigid dependencies leave an order. */
  ghost predicate Accepted(tables: Tables, keys: seq<ForeignKey>, cat: Catalogue, o: Options, users: seq<PreservedUser>)
    requires Catalogued(tables, keys)
  {
    Acceptable(tables, keys, cat, o, users) && Plannable(tables, keys, o, users)
  }

  // ---------------------------------------------------------------- what a reset leaves

  function Accounts(users: seq<PreservedUser>): set<int> {
    set u | u in users :: u.id
  }

  function Staff(users: seq<PreservedUser>): set<int> {
    set u | u in users && u.employeeId.Some? :: u.employeeId.value
  }

  /** Of `table`, exactly the rows with one of `ids` in `column` are left, as they were. */
  ghost predicate OnlyRowsWith(before: Tables, after: Tables, table: string, column: string, ids: set<int>) {
    && table in before && table in after
    && (forall row :: row in after[table] <==>
          row in before[table] && column in before[table][row] && before[table][row][column] in ids)
    && forall row :: row in after[table] ==> after[table][row] == before[table][row]
  }

  /** The rows of `table` with one of `ids` in `column` are there as they were. */
  ghost predicate RowsStay(before: Tables, after: Tables, table: string, column: string, ids: set<int>) {
    table in before ==>
      && table in after
      && forall row :: row in before[table] && column in before[table][row] && before[table][row][column] in ids ==>
        row in after[table] && after[table][row] == before[table][row]
  }

  ghost predicate TableStays(before: Tables, after: Tables, table: string) {
    table in before ==> table in after && after[table] == before[table]
  }

  /**
   Whatever the answer of a reset: the preserved accounts, their employees and roles, and the tables
   that hold permissions, import history and migrations are what they were.
   */
  ghost predicate Preserved(before: Tables, after: Tables, schema: string, users: seq<PreservedUser>) {
    && RowsStay(before, after, "user", "id", Accounts(users))
    && RowsStay(before, after, "employee", "id", Staff(users))
    && RowsStay(before, after, "user_role", "user_id", Accounts(users))
    && TableStays(before, after, "role") && TableStays(before, after, "permission")
    && TableStays(before, after, "role_permission") && TableStays(before, after, "permission_scope")
    && TableStays(before, after, "tenant_import_run") && TableStays(before, after, "tenant_import_record")
    && TableStays(before, after, schema + "_databasechangelog")
    && TableStays(before, after, schema + "_databasechangeloglock")
    && TableStays(before, after, "databasechangelog") && TableStays(before, after, "databasechangeloglock")
  }

  /** After a success: the preserved identities alone, nothing in the other listed tables, the rest as it was. */
  ghost predicate Replaced(before: Tables, after: Tables, o: Options, users: seq<PreservedUser>) {
    && OnlyRowsWith(before, after, "user", "id", Accounts(users))
    && OnlyRowsWith(before, after, "employee", "id", Staff(users))
    && OnlyRowsWith(before, after, "user_role", "user_id", Accounts(users))
    && (forall t :: t in o.deleteTables && t != "user" && t != "employee" && t != "user_role" ==>
          t in after && after[t] == map[])
    && (forall t :: t in o.truncateTables ==> t in after && after[t] == map[])
    && (forall t :: t in before && t !in o.deleteTables && t !in o.truncateTables ==>
          t in after && after[t] == before[t])
  }

  lemma KeepsAccountsAndStaff(users: seq<PreservedUser>)
    ensures KeepOf(users).users == Accounts(users) && KeepOf(users).employees == Staff(users)
  {
    forall i | 0 <= i < |users| ensures UserIds(users)[i] in Accounts(users) {
      assert users[i] in users;
    }
    forall x: int ensures x in KeepOf(users).users <==> x in Accounts(users) {
      if x in Accounts(users) {
        var u :| u in users && u.id == x;
        var i :| 0 <= i < |users| && users[i] == u;
        assert UserIds(users)[i] == x;
      }
    }
    forall x: int ensures x in KeepOf(users).employees <==> x in Staff(users) {
    }
  }

  lemma SparedPreserves(before: Tables, after: Tables, schema: string, m: Manifest, users: seq<PreservedUser>)
    requires Spared(before, after, schema, m) && m.Keeps() == KeepOf(users)
    ensures Preserved(before, after, schema, users)
  {
    KeepsAccountsAndStaff(users);
    SparedRows(before, after, schema, m, "user");
    SparedRows(before, after, schema, m, "employee");
    SparedRows(before, after, schema, m, "user_role");
  }

  lemma SparedRows(before: Tables, after: Tables, schema: string, m: Manifest, table: string)
    requires Spared(before, after, schema, m) && IdentityColumn(table).Some?
    ensures RowsStay(before, after, table, IdentityColumn(table).value, KeptIds(m.Keeps(), table))
  {
    if table in before {
      var column, ids := IdentityColumn(table).value, KeptIds(m.Keeps(), table);
      forall row | row in before[table] && column in before[table][row] && before[table][row][column] in ids
        ensures row in after[table] && after[table][row] == before[table][row]
      {
        assert Kept(m.Keeps(), table, before[table][row]);
      }
    }
  }

  /** The intended tables, told from the options and the preserved users alone. */
  lemma IntendedReplaces(before: Tables, keys: seq<ForeignKey>, m: Manifest, o: Options, users: seq<PreservedUser>)
    requires Catalogued(before, keys) && Reviewed(before, keys, o.schemaName, m) && IdentitiesSet(before)
    requires m.Keeps() == KeepOf(users) && m.truncateTables == o.truncateTables
    requires forall t :: t in m.deleteOrder <==> t in o.deleteTables
    requires RequiredDeletes(o.deleteTables)
    ensures Replaced(before, Intended(before, m), o, users)
  {
    KeepsAccountsAndStaff(users);
    RequiredAreListed(o.deleteTables);
    forall t | t in m.deleteOrder ensures t in before {
      assert t in m.truncateTables + m.deleteOrder;
    }
    IdentityTableReduced(before, m, "user");
    IdentityTableReduced(before, m, "employee");
    IdentityTableReduced(before, m, "user_role");
    forall t | t in o.deleteTables && t != "user" && t != "employee" && t != "user_role"
      ensures t in before && Intended(before, m)[t] == map[]
    {
      assert IdentityColumn(t).None? && t !in m.truncateTables;
    }
  }

  lemma RequiredAreListed(deletes: seq<string>)
    requires RequiredDeletes(deletes)
    ensures "user" in deletes && "employee" in deletes && "user_role" in deletes && "user_session" in deletes
  {
    var required := ["user", "employee", "user_role", "user_session"];
    assert required[0] in required && required[1] in required && required[2] in required && required[3] in required;
  }

  lemma IdentityTableReduced(before: Tables, m: Manifest, table: string)
    requires table in before && table in m.deleteOrder && table !in m.truncateTables
    requires IdentitiesSet(before) && IdentityColumn(table).Some?
    ensures OnlyRowsWith(before, Intended(before, m), table, IdentityColumn(table).value, KeptIds(m.Keeps(), table))
  {
  }

  /**
   Review and execution on the same locked state. Nothing dangles; the reset is refused before its
   first write unless the review accepts; an accepted reset succeeds exactly when the planner's clears
   are safe in turn, and then ends in the intended tables. `clears` are the planner's.
   */
  method ReplaceTenant(db: Database, cat: Catalogue, o: Options, users: seq<PreservedUser>)
    returns (r: Result<Manifest, ResetError>, ghost clears: seq<ClearLink>)
    requires db.Valid() && ValidSchema(o.schemaName)
    requires forall t :: t in cat.names <==> t in db.tables
    modifies db
    ensures db.Valid()
    ensures old(!Accepted(db.tables, db.keys, cat, o, users)) ==> r.Err? && db.tables == old(db.tables)
    ensures old(Accepted(db.tables, db.keys, cat, o, users)) ==>
      && old(PlannedClears(db.tables, db.keys, o, users, clears))
      && (r.Ok? <==> old(ClearsGoThrough(Emptied(db.tables, o.truncateTables), db.keys, KeepOf(users), clears)))
    ensures old(Accepted(db.tables, db.keys, cat, o, users)) && ClearableSafely(db.keys) ==> r.Ok?
    ensures r.Ok? ==> db.tables == old(Intended(db.tables, r.value))
    ensures r.Ok? ==> r.value.truncateTables == o.truncateTables && r.value.Keeps() == KeepOf(users)
    ensures r.Ok? ==> Members(r.value.deleteOrder) == Members(o.deleteTables) && r.value.clears == clears
    ensures r.Ok? ==> Replaced(old(db.tables), db.tables, o, users)
    ensures Preserved(old(db.tables), db.tables, o.schemaName, users)
  {
    var reviewed := Prepare(db.tables, db.keys, cat, o, users);
    if reviewed.Err? {
      return Err(reviewed.error), [];
    }
    var m := reviewed.value;
    OrderListsDeletes(m, o);
    IntendedReplaces(db.tables, db.keys, m, o, users);
    var applied := ApplyReviewed(db, o.schemaName, m, users);
    r, clears := if applied.Err? then Err(applied.error) else Ok(m), m.clears;
  }

  lemma OrderListsDeletes(m: Manifest, o: Options)
    requires Members(m.deleteOrder) == Members(o.deleteTables)
    ensures forall t :: t in m.deleteOrder <==> t in o.deleteTables
  {
    forall t: string ensures t in m.deleteOrder <==> t in o.deleteTables {
      assert t in m.deleteOrder <==> t in Members(m.deleteOrder);
      assert t in o.deleteTables <==> t in Members(o.deleteTables);
    }
  }

  method ApplyReviewed(db: Database, schema: string, m: Manifest, ghost users: seq<PreservedUser>)
    returns (r: Result<(), ResetError>)
    requires db.Valid() && Reviewed(db.tables, db.keys, schema, m) && m.Keeps() == KeepOf(users)
    modifies db
    ensures db.Valid()
    ensures r.Ok? <==> old(ClearsGoThrough(Emptied(db.tables, m.truncateTables), db.keys, m.Keeps(), m.clears))
    ensures ClearableSafely(db.keys) ==> r.Ok?
    ensures r.Ok? ==> db.tables == old(Intended(db.tables, m))
    ensures Preserved(old(db.tables), db.tables, schema, users)
  {
    ghost var before := db.tables;
    r := Apply(db, schema, m);
    SparedPreserves(before, db.tables, schema, m, users);
    ReviewedClears(before, db.keys, schema, m);
  }

  /** The clears of a reviewed manifest name existing tables, and are safe where the catalogue makes them so. */
  lemma ReviewedClears(tables: Tables, keys: seq<ForeignKey>, schema: string, m: Manifest)
    requires Catalogued(tables, keys) && Intact(tables, keys) && Reviewed(tables, keys, schema, m)
    ensures ClearableSafely(keys) ==> ClearsGoThrough(Emptied(tables, m.truncateTables), keys, m.Keeps(), m.clears)
  {
    forall i | 0 <= i < |m.clears| ensures m.clears[i].child in tables && m.clears[i].parent in tables {
      assert LinkReviewed(keys, m, m.clears[i]);
    }
    if ClearableSafely(keys) {
      SchemaSafeClears(Emptied(tables, m.truncateTables), keys, m.Keeps(), m.clears);
    }
  }
}
