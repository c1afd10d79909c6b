/**
 The tenant schema as the reset sees it: rows with nullable columns, composite foreign keys with
 their match type, and the three statements the reset issues. A statement that would leave a foreign
 key unsatisfied is refused by the database and changes nothing.
 */
module ResetDatabase {
  import opened Outcomes
  import opened ResetOrder

  /** A column that is absent is NULL. */
  type Row = map<string, int>
  type Tables = map<string, map<nat, Row>>

  datatype Match = MatchSimple | MatchFull

  /** `nullable` lists the child columns that may be set to NULL: no NOT NULL, tenant or CHECK column. */
  datatype ForeignKey = ForeignKey(
    child: string, parent: string,
    childColumns: seq<string>, parentColumns: seq<string>,
    matching: Match, nullable: seq<string>)

  /** The identities the reset preserves. */
  datatype Keep = Keep(users: set<int>, employees: set<int>)

  // ---------------------------------------------------------------- foreign keys

  predicate WellFormed(fk: ForeignKey) {
    && |fk.childColumns| == |fk.parentColumns| > 0
    && forall c :: c in fk.nullable ==> c in fk.childColumns
  }

  /** The columns agree and none of them is NULL. */
  predicate References(fk: ForeignKey, child: Row, parent: Row)
    requires WellFormed(fk)
  {
    forall k :: 0 <= k < |fk.childColumns| ==>
      && fk.childColumns[k] in child
      && fk.parentColumns[k] in parent
      && child[fk.childColumns[k]] == parent[fk.parentColumns[k]]
  }

  predicate AnyNull(columns: seq<string>, row: Row) {
    exists k :: 0 <= k < |columns| && columns[k] !in row
  }

  predicate AllNull(columns: seq<string>, row: Row) {
    forall k :: 0 <= k < |columns| ==> columns[k] !in row
  }

  predicate HasParent(tables: Tables, fk: ForeignKey, child: Row)
    requires WellFormed(fk) && fk.parent in tables
  {
    exists id :: id in tables[fk.parent] && References(fk, child, tables[fk.parent][id])
  }

  predicate Satisfied(tables: Tables, fk: ForeignKey, child: Row)
    requires WellFormed(fk) && fk.parent in tables
  {
    || HasParent(tables, fk, child)
    || (fk.matching == MatchSimple && AnyNull(fk.childColumns, child))
    || (fk.matching == MatchFull && AllNull(fk.childColumns, child))
  }

  predicate Catalogued(tables: Tables, keys: seq<ForeignKey>) {
    forall fk :: fk in keys ==> WellFormed(fk) && fk.child in tables && fk.parent in tables
  }

  /** No foreign key dangles. */
  predicate Intact(tables: Tables, keys: seq<ForeignKey>)
    requires Catalogued(tables, keys)
  {
    forall fk :: fk in keys ==> forall id :: id in tables[fk.child] ==> Satisfied(tables, fk, tables[fk.child][id])
  }

  ghost predicate SameKey(fk: ForeignKey, a: Row, b: Row) {
    forall c :: c in fk.parentColumns ==> c in a && c in b && a[c] == b[c]
  }

  /** Referenced columns carry a unique constraint. */
  ghost predicate KeysUnique(tables: Tables, keys: seq<ForeignKey>)
    requires Catalogued(tables, keys)
  {
    forall fk, i, j ::
      && fk in keys && i in tables[fk.parent] && j in tables[fk.parent]
      && SameKey(fk, tables[fk.parent][i], tables[fk.parent][j])
      ==> i == j
  }

  // ---------------------------------------------------------------- row selectors

  /** The column that ties a row of an identity table to a preserved identity. */
  function IdentityColumn(table: string): Option<string> {
    if table == "user" || table == "employee" then Some("id")
    else if table == "user_role" then Some("user_id")
    else None
  }

  function KeptIds(keep: Keep, table: string): set<int> {
    if table == "employee" then keep.employees else keep.users
  }

  /** The DELETE selector holds: NULL identities make it unknown, hence not selected. */
  predicate Doomed(keep: Keep, table: string, row: Row) {
    match IdentityColumn(table)
    case None => true
    case Some(c) => c in row && row[c] !in KeptIds(keep, table)
  }

  /** The negated DELETE selector holds. */
  predicate Kept(keep: Keep, table: string, row: Row) {
    match IdentityColumn(table)
    case None => false
    case Some(c) => c in row && row[c] in KeptIds(keep, table)
  }

  /** Identity columns carry a NOT NULL constraint. */
  predicate IdentitiesSet(tables: Tables) {
    forall t | t in tables :: IdentityColumn(t).Some? ==>
      forall id | id in tables[t] :: IdentityColumn(t).value in tables[t][id]
  }

  /** The catalogue never reports a NOT NULL column as clearable. */
  ghost predicate IdentitiesFixed(keys: seq<ForeignKey>) {
    forall fk :: fk in keys && IdentityColumn(fk.child).Some? ==> IdentityColumn(fk.child).value !in fk.nullable
  }

  // ---------------------------------------------------------------- statements as functions

  function Emptied(tables: Tables, names: seq<string>): Tables {
    map t | t in tables :: if t in names then map[] else tables[t]
  }

  predicate Joined(link: ClearLink, child: Row, parent: Row) {
    && |link.childColumns| == |link.parentColumns|
    && forall k :: 0 <= k < |link.childColumns| ==>
      && link.childColumns[k] in child
      && link.parentColumns[k] in parent
      && child[link.childColumns[k]] == parent[link.parentColumns[k]]
  }

  /** The UPDATE touches a doomed child row that joins a doomed parent row. */
  predicate Hit(tables: Tables, keep: Keep, link: ClearLink, row: Row)
    requires link.parent in tables
  {
    && Doomed(keep, link.child, row)
    && exists p ::
      && p in tables[link.parent] && Doomed(keep, link.parent, tables[link.parent][p])
      && Joined(link, row, tables[link.parent][p])
  }

  function Cleared(tables: Tables, keep: Keep, link: ClearLink): (r: Tables)
    requires link.child in tables && link.parent in tables
    ensures r.Keys == tables.Keys
  {
    tables[link.child := map id | id in tables[link.child] ::
      if Hit(tables, keep, link, tables[link.child][id])
      then tables[link.child][id] - Members(link.clearColumns)
      else tables[link.child][id]]
  }

  function Survivors(keep: Keep, table: string, rows: map<nat, Row>): map<nat, Row> {
    map id | id in rows && !Doomed(keep, table, rows[id]) :: rows[id]
  }

  function DeletedFrom(tables: Tables, keep: Keep, table: string): (r: Tables)
    requires table in tables
    ensures r.Keys == tables.Keys
  {
    tables[table := Survivors(keep, table, tables[table])]
  }

  // ---------------------------------------------------------------- the live database

  class Database {
    const keys: seq<ForeignKey>
    var tables: Tables

    ghost predicate Valid()
      reads this
    {
      Catalogued(tables, keys) && Intact(tables, keys) && KeysUnique(tables, keys)
      && IdentitiesSet(tables) && IdentitiesFixed(keys)
    }

    constructor (keys: seq<ForeignKey>, tables: Tables)
      ensures this.keys == keys && this.tables == tables
    {
      this.keys := keys;
      this.tables := tables;
    }

    /** TRUNCATE ... RESTRICT: refused when a table outside the list refers to one inside, whatever its rows. */
    method Truncate(names: seq<string>) returns (ok: bool)
      requires Valid()
      modifies this
      ensures Valid()
      ensures ok <==>
        && (forall n :: n in names ==> n in tables)
        && forall fk :: fk in keys && fk.parent in names ==> fk.child in names
      ensures tables == if ok then Emptied(old(tables), names) else old(tables)
    {
      ok :=
        && (forall n | n in names :: n in tables)
        && forall fk | fk in keys :: fk.parent in names ==> fk.child in names;
      if ok {
        EmptiedIntact(tables, keys, names);
        tables := Emptied(tables, names);
      }
    }

    /** UPDATE child SET columns = NULL FROM parent, on doomed rows of both. */
    method ClearLinks(link: ClearLink, keep: Keep) returns (ok: bool)
      requires Valid()
      modifies this
      ensures Valid()
      ensures ok <==> old(link.child in tables && link.parent in tables
        && Intact(Cleared(tables, keep, link), keys) && IdentitiesSet(Cleared(tables, keep, link)))
      ensures tables == if ok then Cleared(old(tables), keep, link) else old(tables)
    {
      ok := link.child in tables && link.parent in tables
        && Intact(Cleared(tables, keep, link), keys) && IdentitiesSet(Cleared(tables, keep, link));
      if ok {
        tables := Cleared(tables, keep, link);
      }
    }

    /** DELETE of the doomed rows of one table. */
    method DeleteRows(table: string, keep: Keep) returns (ok: bool)
      requires Valid()
      modifies this
      ensures Valid()
      ensures ok <==> old(table in tables && Intact(DeletedFrom(tables, keep, table), keys))
      ensures tables == if ok then DeletedFrom(old(tables), keep, table) else old(tables)
    {
      ok := table in tables && Intact(DeletedFrom(tables, keep, table), keys);
      if ok {
        tables := DeletedFrom(tables, keep, table);
      }
    }
  }

  /** A group closed under incoming references can be emptied without dangling anything. */
  lemma EmptiedIntact(tables: Tables, keys: seq<ForeignKey>, names: seq<string>)
    requires Catalogued(tables, keys) && Intact(tables, keys)
    requires forall fk :: fk in keys && fk.parent in names ==> fk.child in names
    ensures Catalogued(Emptied(tables, names), keys) && Intact(Emptied(tables, names), keys)
  {
    var next := Emptied(tables, names);
    forall fk, id | fk in keys && id in next[fk.child] ensures Satisfied(next, fk, next[fk.child][id]) {
      assert Satisfied(tables, fk, tables[fk.child][id]);
      assert fk.parent !in names && next[fk.parent] == tables[fk.parent];
      if HasParent(tables, fk, tables[fk.child][id]) {
        assert HasParent(next, fk, next[fk.child][id]);
      }
    }
  }
}
