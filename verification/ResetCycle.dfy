/**
 A small tenant schema with a cycle: `team.head` is a nullable link to `office`, whose `owner` links
 back. Every plan clears `team.head`. What that does to a third foreign key is left open here.
 */
module ResetCycle {
  import opened Outcomes
  import opened Graphs
  import opened Multisets
  import opened ResetOrder
  import opened ResetDatabase
  import opened ResetApply
  import opened ResetPrepare

  const HEAD := ForeignKey("team", "office", ["head"], ["id"], MatchSimple, ["head"])
  const OWNER := ForeignKey("office", "team", ["owner"], ["id"], MatchSimple, [])
  const NAMES: seq<string> :=
    ["badge", "employee", "office", "team", "user", "user_role", "user_session", "venue"]
  const CATALOGUE := Catalogue(NAMES, [], [], [], [])
  const OPTIONS := Options("tenant_x", 1, NAMES, [], [])

  function Keys(third: ForeignKey): seq<ForeignKey> {
    [HEAD, OWNER, third]
  }

  /** One team and its office refer to each other; `badge` and `venue` are the third key's. */
  function TablesOf(team: Row, badge: map<nat, Row>, venue: map<nat, Row>): Tables {
    map[
      "user" := map[0 := map["id" := 9]], "employee" := map[], "user_role" := map[], "user_session" := map[],
      "team" := map[0 := team], "office" := map[0 := map["id" := 7, "owner" := 1]],
      "badge" := badge, "venue" := venue]
  }

  /** The account that runs the reset; it must be among the preserved ones. */
  const USERS: seq<PreservedUser> := [PreservedUser(9, None)]

  function ActorKept(): Keep { KeepOf(USERS) }

  /** Every foreign key joins row 0 of its child to row 0 of its parent, and there are no other rows there. */
  predicate RowsJoin(tables: Tables, keys: seq<ForeignKey>) {
    Catalogued(tables, keys) && forall fk :: fk in keys ==> RowJoins(tables, fk)
  }

  predicate RowJoins(tables: Tables, fk: ForeignKey)
    requires WellFormed(fk) && fk.child in tables && fk.parent in tables
  {
    && tables[fk.child].Keys == {0} && tables[fk.parent].Keys == {0}
    && References(fk, tables[fk.child][0], tables[fk.parent][0])
  }

  /** The third key follows the order of the names and can be reviewed. */
  predicate Ordinary(third: ForeignKey) {
    && (exists i, j :: 0 <= i < j < |NAMES| && third.child == NAMES[i] && third.parent == NAMES[j])
    && ColumnsSafe(third) && !KeptChecked(OPTIONS, third)
    && IdentityColumn(third.child).None? && IdentityColumn(third.parent).None?
  }

  /** The preserved accounts are in the table `user`, as the caller of a reset has looked up. */
  predicate AccountsExist(tables: Tables, users: seq<PreservedUser>) {
    && users != [] && "user" in tables
    && forall u :: u in users ==> exists id :: id in tables["user"] && IsAccount(tables["user"][id], u)
  }

  predicate IsAccount(row: Row, u: PreservedUser) {
    "id" in row && row["id"] == u.id
  }

  predicate Witness(tables: Tables, third: ForeignKey) {
    && RowsJoin(tables, Keys(third)) && Ordinary(third) && IdentitiesSet(tables)
    && third.child != third.parent && AccountsExist(tables, USERS)
  }

  lemma CycleJoins(team: Row, badge: map<nat, Row>, venue: map<nat, Row>)
    requires "id" in team && team["id"] == 1 && "head" in team && team["head"] == 7
    ensures var tables := TablesOf(team, badge, venue);
      Joinable(tables, HEAD) && Joinable(tables, OWNER) && IdentitiesSet(tables)
  {
  }

  lemma ActorExists(team: Row, badge: map<nat, Row>, venue: map<nat, Row>)
    ensures AccountsExist(TablesOf(team, badge, venue), USERS)
  {
    assert IsAccount(TablesOf(team, badge, venue)["user"][0], USERS[0]);
  }

  lemma ThreeJoin(tables: Tables, a: ForeignKey, b: ForeignKey, c: ForeignKey)
    requires Joinable(tables, a) && Joinable(tables, b) && Joinable(tables, c)
    ensures RowsJoin(tables, [a, b, c])
  {
    forall fk | fk in [a, b, c] ensures Joinable(tables, fk) {
      assert fk == a || fk == b || fk == c;
    }
  }

  predicate Joinable(tables: Tables, fk: ForeignKey) {
    WellFormed(fk) && fk.child in tables && fk.parent in tables && RowJoins(tables, fk)
  }

  lemma JoinedRowsSound(tables: Tables, keys: seq<ForeignKey>)
    requires RowsJoin(tables, keys)
    ensures Intact(tables, keys) && KeysUnique(tables, keys)
  {
    forall fk, id | fk in keys && id in tables[fk.child] ensures Satisfied(tables, fk, tables[fk.child][id]) {
      assert RowJoins(tables, fk) && id == 0;
      assert HasParent(tables, fk, tables[fk.child][0]);
    }
    forall fk, i, j |
      fk in keys && i in tables[fk.parent] && j in tables[fk.parent]
      && SameKey(fk, tables[fk.parent][i], tables[fk.parent][j])
      ensures i == j
    {
      assert RowJoins(tables, fk);
    }
  }

  lemma NoIdentitiesInvolved(third: ForeignKey)
    requires Ordinary(third)
    ensures IdentitiesFixed(Keys(third))
  {
    forall fk | fk in Keys(third) ensures IdentityColumn(fk.child).None? {
    }
  }

  // ---------------------------------------------------------------- the review accepts

  lemma NamesDistinct()
    ensures Distinct(NAMES)
  {
    assert NAMES[4] != NAMES[5] && NAMES[4] != NAMES[6] && NAMES[5] != NAMES[6] by {
      assert |NAMES[4]| == 4 && |NAMES[5]| == 9 && |NAMES[6]| == 12;
    }
    assert forall i :: 0 <= i < 4 ==> NAMES[i][0] == ['b', 'e', 'o', 't'][i];
    assert forall i :: 4 <= i < 7 ==> NAMES[i][0] == 'u';
    assert NAMES[7][0] == 'v';
  }

  lemma NamesSafe()
    ensures forall n :: n in NAMES ==> SafeIdentifier(n)
  {
  }

  lemma NameNotFoundational(n: string)
    requires n in NAMES
    ensures !Foundational(n, OPTIONS.schemaName)
  {
    assert |n| < |OPTIONS.schemaName + "_databasechangelog"| < |OPTIONS.schemaName + "_databasechangeloglock"|;
  }

  lemma KeysAccepted(tables: Tables, third: ForeignKey)
    requires Catalogued(tables, Keys(third)) && Ordinary(third)
    ensures forall fk :: fk in Keys(third) ==> KeyAccepted(tables, OPTIONS, ActorKept(), fk)
  {
    CycleKeysReviewable();
    forall fk | fk in Keys(third) ensures KeyAccepted(tables, OPTIONS, ActorKept(), fk) {
      assert ColumnsSafe(fk) && !KeptChecked(OPTIONS, fk);
    }
  }

  lemma CycleKeysReviewable()
    ensures ColumnsSafe(HEAD) && !KeptChecked(OPTIONS, HEAD) && ColumnsSafe(OWNER) && !KeptChecked(OPTIONS, OWNER)
  {
    assert NAMES[3] == "team" && NAMES[2] == "office";
  }

  lemma ReviewAccepts(tables: Tables, third: ForeignKey)
    requires Catalogued(tables, Keys(third)) && Ordinary(third)
    ensures Acceptable(tables, Keys(third), CATALOGUE, OPTIONS, USERS)
  {
    NamesDistinct();
    NamesSafe();
    forall n | n in NAMES ensures !Foundational(n, OPTIONS.schemaName) {
      NameNotFoundational(n);
    }
    KeysAccepted(tables, third);
  }

  // ---------------------------------------------------------------- every plan clears `team.head`

  lemma KeyConstrains(tables: Tables, third: ForeignKey, fk: ForeignKey)
    requires RowsJoin(tables, Keys(third)) && Ordinary(third) && IdentitiesSet(tables) && fk in Keys(third)
    ensures Constrains(tables, OPTIONS, ActorKept(), fk)
  {
    assert IdentityColumn(fk.child).None? && IdentityColumn(fk.parent).None? && RowJoins(tables, fk);
    assert (0, 0) in DoomedPairs(tables, ActorKept(), fk);
  }

  lemma DependenciesFound(tables: Tables, third: ForeignKey)
    requires RowsJoin(tables, Keys(third)) && Ordinary(third) && IdentitiesSet(tables)
    ensures Catalogued(tables, Keys(third)) && HEAD in Keys(third) && OWNER in Keys(third) && third in Keys(third)
    ensures Dependencies(tables, OPTIONS, ActorKept(), Keys(third))
         == [DependencyOf(tables, ActorKept(), HEAD), DependencyOf(tables, ActorKept(), OWNER),
             DependencyOf(tables, ActorKept(), third)]
  {
    KeyConstrains(tables, third, HEAD);
    KeyConstrains(tables, third, OWNER);
    KeyConstrains(tables, third, third);
    SubListsCatalogued(tables, HEAD, OWNER, third);
    DependenciesOfThree(tables, OPTIONS, ActorKept(), HEAD, OWNER, third);
  }

  lemma SubListsCatalogued(tables: Tables, a: ForeignKey, b: ForeignKey, c: ForeignKey)
    requires Catalogued(tables, [a, b, c])
    ensures Catalogued(tables, [a]) && Catalogued(tables, [b]) && Catalogued(tables, [c]) && Catalogued(tables, [a, b])
    ensures a in [a] && b in [b] && c in [c]
  {
    assert a in [a, b, c] && b in [a, b, c] && c in [a, b, c];
  }

  lemma DependenciesOfThree(tables: Tables, o: Options, keep: Keep, a: ForeignKey, b: ForeignKey, c: ForeignKey)
    requires Catalogued(tables, [a]) && Catalogued(tables, [b]) && Catalogued(tables, [c])
    requires Catalogued(tables, [a, b]) && Catalogued(tables, [a, b, c]) && a in [a] && b in [b] && c in [c]
    requires Constrains(tables, o, keep, a) && Constrains(tables, o, keep, b) && Constrains(tables, o, keep, c)
    ensures Dependencies(tables, o, keep, [a, b, c])
         == [DependencyOf(tables, keep, a), DependencyOf(tables, keep, b), DependencyOf(tables, keep, c)]
  {
    DependencyAfter(tables, o, keep, [], a, [a]);
    DependencyAfter(tables, o, keep, [a], b, [a, b]);
    DependencyAfter(tables, o, keep, [a, b], c, [a, b, c]);
  }

  lemma DependencyAfter(
      tables: Tables, o: Options, keep: Keep, init: seq<ForeignKey>, last: ForeignKey, all: seq<ForeignKey>)
    requires Catalogued(tables, init) && Catalogued(tables, [last]) && Catalogued(tables, all) && last in [last]
    requires |all| == |init| + 1 && all[..|init|] == init && all[|init|] == last && Constrains(tables, o, keep, last)
    ensures Dependencies(tables, o, keep, all)
      == Dependencies(tables, o, keep, init) + [DependencyOf(tables, keep, last)]
  {
    assert all == init + [last];
    AppendDependency(tables, o, keep, init, last);
  }

  lemma NoneIsSelf(a: Dependency, b: Dependency, c: Dependency)
    requires a.child != a.parent && b.child != b.parent && c.child != c.parent
    ensures NonSelf([a, b, c]) == [a, b, c]
  {
    assert [a, b, c][1..] == [b, c] && [b, c][1..] == [c] && [c][1..] == [];
    assert NonSelf([c]) == [c];
    assert NonSelf([b, c]) == [b, c];
  }

  predicate Depends(d: Dependency, fk: ForeignKey) {
    d.child == fk.child && d.parent == fk.parent
  }

  /** The dependencies of the three keys. */
  predicate Three(es: seq<Dependency>, third: ForeignKey) {
    |es| == 3 && Depends(es[0], HEAD) && Depends(es[1], OWNER) && Depends(es[2], third)
  }

  lemma CycleAtFirst(es: seq<Dependency>, third: ForeignKey)
    requires Three(es, third) && es[0].clear.Some?
    ensures ClearedInTurn(NAMES, es, [0])
  {
    assert [0][..0] == [];
    var E := LinksAt(es, Left(es, []));
    assert {0, 1, 2} == Left(es, []);
    assert ("team", "office") in E && ("office", "team") in E;
    assert PathBetween(E, ["office", "team"], "office", "team");
    assert "team" == NAMES[3] && "office" == NAMES[2];
    assert ("team", "office") in Among(Members(NAMES), E) && ("office", "team") in Among(Members(NAMES), E);
    assert IsCycle(Among(Members(NAMES), E), ["office", "team", "office"]);
  }

  lemma OrderAfterClear(es: seq<Dependency>, third: ForeignKey)
    requires Three(es, third) && Ordinary(third)
    ensures ValidOrder(Members(NAMES), LinksAt(es, Left(es, [0])), NAMES)
  {
    NamesDistinct();
    var E := LinksAt(es, Left(es, [0]));
    forall d | d in E ensures d == (NAMES[2], NAMES[3]) || d == (third.child, third.parent) {
    }
  }

  lemma PlannedFrom(es: seq<Dependency>, link: ClearLink)
    requires |es| == 3 && NonSelf(es) == es && es[0].clear == Some(link)
    requires ClearedInTurn(NAMES, es, [0]) && ValidOrder(Members(NAMES), LinksAt(es, Left(es, [0])), NAMES)
    ensures Planned(NAMES, es, DeletionPlan(NAMES, [link]), [0])
  {
  }

  lemma PlanOf(es: seq<Dependency>, third: ForeignKey, link: ClearLink)
    requires Three(es, third) && Ordinary(third) && third.child != third.parent && es[0].clear == Some(link)
    ensures Planned(NAMES, es, DeletionPlan(NAMES, [link]), [0])
  {
    assert es == [es[0], es[1], es[2]];
    NoneIsSelf(es[0], es[1], es[2]);
    CycleAtFirst(es, third);
    OrderAfterClear(es, third);
    PlannedFrom(es, link);
  }

  lemma PlannedMeansPlannable(
      tables: Tables, keys: seq<ForeignKey>, o: Options, users: seq<PreservedUser>, clears: seq<ClearLink>)
    requires Catalogued(tables, keys) && PlannedClears(tables, keys, o, users, clears)
    ensures Plannable(tables, keys, o, users)
  {
    var deps := Dependencies(tables, o, KeepOf(users), keys);
    var order, gone :| Planned(o.deleteTables, deps, DeletionPlan(order, clears), gone);
    PlannedIsOrderable(o.deleteTables, deps, DeletionPlan(order, clears), gone);
    OrderableMeansRigidAcyclic(o.deleteTables, NonSelf(deps), gone);
  }

  /** The cycle between team and office is broken at `team.head`, whatever the plan. */
  lemma PlansClearHead(tables: Tables, third: ForeignKey) returns (link: ClearLink)
    requires Witness(tables, third)
    ensures ClearsKey(link, HEAD) && PlannedClears(tables, Keys(third), OPTIONS, USERS, [link])
  {
    DependenciesFound(tables, third);
    link := PlanFor(tables, third, Dependencies(tables, OPTIONS, ActorKept(), Keys(third)));
  }

  lemma PlanFor(tables: Tables, third: ForeignKey, es: seq<Dependency>) returns (link: ClearLink)
    requires Catalogued(tables, [HEAD, OWNER, third]) && HEAD in Keys(third) && OWNER in Keys(third)
      && third in Keys(third)
    requires Ordinary(third) && third.child != third.parent
    requires es == Dependencies(tables, OPTIONS, ActorKept(), Keys(third))
    requires es == [DependencyOf(tables, ActorKept(), HEAD), DependencyOf(tables, ActorKept(), OWNER),
                    DependencyOf(tables, ActorKept(), third)]
    ensures ClearsKey(link, HEAD) && PlannedClears(tables, Keys(third), OPTIONS, USERS, [link])
  {
    link := es[0].clear.value;
    PlanOf(es, third, link);
    PlanGivesClears(tables, Keys(third), OPTIONS, es, DeletionPlan(NAMES, [link]), [0]);
  }

  lemma PlanGivesClears(
      tables: Tables, keys: seq<ForeignKey>, o: Options, es: seq<Dependency>, plan: DeletionPlan, gone: seq<nat>)
    requires Catalogued(tables, keys) && es == Dependencies(tables, o, ActorKept(), keys)
    requires Planned(o.deleteTables, es, plan, gone)
    ensures PlannedClears(tables, keys, o, USERS, plan.clears)
  {
    assert plan == DeletionPlan(plan.order, plan.clears);
  }

  /** If the link every plan clears is unsafe, no plan's clears go through. */
  lemma UnsafeClearRefused(
      tables: Tables, keys: seq<ForeignKey>, o: Options, users: seq<PreservedUser>, link: ClearLink)
    requires Catalogued(tables, keys) && PlannedClears(tables, keys, o, users, [link])
    requires link.child in tables && link.parent in tables ==> !ClearSafe(tables, keys, KeepOf(users), link)
    ensures forall clears :: PlannedClears(tables, keys, o, users, clears) ==>
      !ClearsGoThrough(tables, keys, KeepOf(users), clears)
  {
    forall clears | PlannedClears(tables, keys, o, users, clears)
      ensures !ClearsGoThrough(tables, keys, KeepOf(users), clears)
    {
      ClearsAreUnique(tables, keys, o, users, clears, [link]);
    }
  }

  ghost predicate HeadUnsafe(tables: Tables, keys: seq<ForeignKey>)
    requires Catalogued(tables, keys)
  {
    forall link {:trigger ClearsKey(link, HEAD)} :: ClearsKey(link, HEAD) ==>
      link.child in tables && link.parent in tables && !ClearSafe(tables, keys, ActorKept(), link)
  }

  /** A sound database, preserved accounts included, passes every check; the clears of every plan fail. */
  ghost predicate AcceptedNeverRuns(
      tables: Tables, keys: seq<ForeignKey>, cat: Catalogue, o: Options, users: seq<PreservedUser>)
  {
    && SoundState(tables, keys) && IdentitiesFixed(keys) && ValidSchema(o.schemaName)
    && (forall t :: t in cat.names <==> t in tables) && AccountsExist(tables, users)
    && Accepted(tables, keys, cat, o, users)
    && Catalogued(Emptied(tables, o.truncateTables), keys)
    && forall clears :: PlannedClears(tables, keys, o, users, clears) ==>
      !ClearsGoThrough(Emptied(tables, o.truncateTables), keys, KeepOf(users), clears)
  }

  /** Whatever the state, a reset of this kind fails. */
  method Attempt(tables: Tables, keys: seq<ForeignKey>, cat: Catalogue, o: Options, users: seq<PreservedUser>)
    returns (r: Result<Manifest, ResetError>)
    requires AcceptedNeverRuns(tables, keys, cat, o, users)
    ensures r.Err?
  {
    var db := new Database(keys, tables);
    ghost var clears;
    r, clears := ReplaceTenant(db, cat, o, users);
  }

  lemma SchemaFits()
    ensures ValidSchema(OPTIONS.schemaName)
  {
  }

  lemma UnsafeHeadNeverRuns(tables: Tables, third: ForeignKey)
    requires Witness(tables, third) && HeadUnsafe(tables, Keys(third))
    requires forall t :: t in NAMES <==> t in tables
    ensures AcceptedNeverRuns(tables, Keys(third), CATALOGUE, OPTIONS, USERS)
  {
    SchemaFits();
    JoinedRowsSound(tables, Keys(third));
    NoIdentitiesInvolved(third);
    var link := HeadCleared(tables, third);
    UnsafeLinkNeverRuns(tables, Keys(third), CATALOGUE, OPTIONS, USERS, link);
  }

  lemma HeadCleared(tables: Tables, third: ForeignKey) returns (link: ClearLink)
    requires Witness(tables, third)
    ensures ClearsKey(link, HEAD) && PlannedClears(tables, Keys(third), OPTIONS, USERS, [link])
    ensures Accepted(tables, Keys(third), CATALOGUE, OPTIONS, USERS)
  {
    ReviewAccepts(tables, third);
    link := PlansClearHead(tables, third);
    PlannedMeansPlannable(tables, Keys(third), OPTIONS, USERS, [link]);
  }

  lemma UnsafeLinkNeverRuns(
      tables: Tables, keys: seq<ForeignKey>, cat: Catalogue, o: Options, users: seq<PreservedUser>, link: ClearLink)
    requires SoundState(tables, keys) && IdentitiesFixed(keys) && ValidSchema(o.schemaName)
    requires (forall t :: t in cat.names <==> t in tables) && AccountsExist(tables, users)
    requires Accepted(tables, keys, cat, o, users) && PlannedClears(tables, keys, o, users, [link])
    requires o.truncateTables == []
    requires link.child in tables && link.parent in tables && !ClearSafe(tables, keys, KeepOf(users), link)
    ensures AcceptedNeverRuns(tables, keys, cat, o, users)
  {
    NothingEmptied(tables);
    UnsafeClearRefused(tables, keys, o, users, link);
  }
}
