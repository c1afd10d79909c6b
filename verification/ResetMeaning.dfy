/**
 What the review and the executor decide, told from the options, the preserved users and the rows
 themselves, without the selectors and checks they are built from.
 */
module ResetMeaning {
  import opened Outcomes
  import opened Multisets
  import opened ResetOrder
  import opened ResetDatabase
  import opened ResetApply
  import opened ResetPrepare

  // ---------------------------------------------------------------- rows

  /** The row belongs to a preserved account, or to its employee. */
  ghost predicate Belongs(users: seq<PreservedUser>, table: string, row: Row) {
    || (table == "user" && "id" in row && row["id"] in Accounts(users))
    || (table == "employee" && "id" in row && row["id"] in Staff(users))
    || (table == "user_role" && "user_id" in row && row["user_id"] in Accounts(users))
  }

  /** The selector of a DELETE takes exactly the rows that belong to nobody preserved. */
  lemma DoomedIsNotBelonging(tables: Tables, users: seq<PreservedUser>, table: string, id: nat)
    requires IdentitiesSet(tables) && table in tables && id in tables[table]
    ensures Doomed(KeepOf(users), table, tables[table][id]) <==> !Belongs(users, table, tables[table][id])
    ensures Kept(KeepOf(users), table, tables[table][id]) <==> Belongs(users, table, tables[table][id])
  {
    KeepsAccountsAndStaff(users);
  }

  /** All the columns are set, and equal pairwise. */
  ghost predicate Matches(childColumns: seq<string>, parentColumns: seq<string>, child: Row, parent: Row) {
    && |childColumns| == |parentColumns|
    && forall k :: 0 <= k < |childColumns| ==>
      childColumns[k] in child.Keys && parentColumns[k] in parent.Keys
      && child[childColumns[k]] == parent[parentColumns[k]]
  }

  /**
   The foreign keys of a database are satisfied exactly when every row with all columns set has a
   parent row with equal values, and every other row may be as its match type says: any for MATCH
   SIMPLE, all columns NULL for MATCH FULL.
   */
  lemma IntactMeans(tables: Tables, keys: seq<ForeignKey>)
    requires Catalogued(tables, keys)
    ensures Intact(tables, keys) <==> forall fk, id :: fk in keys && id in tables[fk.child] ==>
      var row := tables[fk.child][id];
      if forall c :: c in fk.childColumns ==> c in row
      then exists p :: p in tables[fk.parent] && Matches(fk.childColumns, fk.parentColumns, row, tables[fk.parent][p])
      else fk.matching == MatchFull ==> forall c :: c in fk.childColumns ==> c !in row
  {
    forall fk, id | fk in keys && id in tables[fk.child]
      ensures Satisfied(tables, fk, tables[fk.child][id]) <==>
        var row := tables[fk.child][id];
        if forall c :: c in fk.childColumns ==> c in row
        then exists p :: p in tables[fk.parent] && Matches(fk.childColumns, fk.parentColumns, row, tables[fk.parent][p])
        else fk.matching == MatchFull ==> forall c :: c in fk.childColumns ==> c !in row
    {
      SatisfiedMeans(tables, fk, tables[fk.child][id]);
    }
  }

  lemma SatisfiedMeans(tables: Tables, fk: ForeignKey, row: Row)
    requires WellFormed(fk) && fk.parent in tables
    ensures Satisfied(tables, fk, row) <==>
      if forall c :: c in fk.childColumns ==> c in row
      then exists p :: p in tables[fk.parent] && Matches(fk.childColumns, fk.parentColumns, row, tables[fk.parent][p])
      else fk.matching == MatchFull ==> forall c :: c in fk.childColumns ==> c !in row
  {
    forall p | p in tables[fk.parent]
      ensures References(fk, row, tables[fk.parent][p])
         <==> Matches(fk.childColumns, fk.parentColumns, row, tables[fk.parent][p])
    {
    }
    assert fk.childColumns[0] in fk.childColumns;
    if forall c :: c in fk.childColumns ==> c in row {
      assert !AnyNull(fk.childColumns, row) && !AllNull(fk.childColumns, row);
    } else {
      var c :| c in fk.childColumns && c !in row;
      var k :| 0 <= k < |fk.childColumns| && fk.childColumns[k] == c;
      assert AnyNull(fk.childColumns, row) && !HasParent(tables, fk, row);
    }
  }

  /**
   A clear sets its columns to NULL in exactly the rows of the child table that belong to nobody
   preserved and match a parent row that belongs to nobody preserved; every other row stays.
   */
  lemma ClearedMeans(tables: Tables, users: seq<PreservedUser>, link: ClearLink, id: nat)
    requires IdentitiesSet(tables) && link.child in tables && link.parent in tables && id in tables[link.child]
    ensures var after := Cleared(tables, KeepOf(users), link);
      var row := tables[link.child][id];
      var hit := !Belongs(users, link.child, row) && exists p ::
        && p in tables[link.parent] && !Belongs(users, link.parent, tables[link.parent][p])
        && Matches(link.childColumns, link.parentColumns, row, tables[link.parent][p]);
      && id in after[link.child]
      && (forall c :: c in after[link.child][id] <==> c in row && !(hit && c in link.clearColumns))
      && (forall c :: c in after[link.child][id] ==> after[link.child][id][c] == row[c])
    ensures var after := Cleared(tables, KeepOf(users), link);
      && after[link.child].Keys == tables[link.child].Keys
      && forall t :: t in tables && t != link.child ==> after[t] == tables[t]
  {
    var row := tables[link.child][id];
    DoomedIsNotBelonging(tables, users, link.child, id);
    forall p | p in tables[link.parent]
      ensures Doomed(KeepOf(users), link.parent, tables[link.parent][p]) <==>
        !Belongs(users, link.parent, tables[link.parent][p])
      ensures Joined(link, row, tables[link.parent][p]) <==>
        Matches(link.childColumns, link.parentColumns, row, tables[link.parent][p])
    {
      DoomedIsNotBelonging(tables, users, link.parent, p);
    }
  }

  /** The executor makes a clear only between listed tables, never in a kept one, and only with names it can quote. */
  lemma AllowedClears(schema: string, m: Manifest, link: ClearLink)
    ensures LinkAccepted(schema, m, link) <==>
      && link.child in m.deleteOrder && link.parent in m.deleteOrder && !KeptTable(link.child, schema)
      && SafeIdentifier(link.child) && SafeIdentifier(link.parent)
      && (forall c :: c in link.childColumns ==> SafeIdentifier(c))
      && (forall c :: c in link.parentColumns ==> SafeIdentifier(c))
      && (forall c :: c in link.clearColumns ==> SafeIdentifier(c))
  {
    FoundationalIs(link.child, schema);
    var all := link.clearColumns + link.childColumns + link.parentColumns;
    assert forall c :: c in all <==> c in link.clearColumns || c in link.childColumns || c in link.parentColumns;
  }

  // ---------------------------------------------------------------- what the review accepts

  /** A retained row refers to one that a reset would delete. */
  ghost predicate HeldBack(
      tables: Tables, o: Options, users: seq<PreservedUser>, fk: ForeignKey, c: nat, p: nat)
    requires fk.child in tables && fk.parent in tables
  {
    && c in tables[fk.child] && p in tables[fk.parent]
    && (fk.child in o.deleteTables ==> Belongs(users, fk.child, tables[fk.child][c]))
    && !Belongs(users, fk.parent, tables[fk.parent][p])
    && Matches(fk.childColumns, fk.parentColumns, tables[fk.child][c], tables[fk.parent][p])
  }

  /**
   A foreign key is refused exactly when it leads into a listed table from one that is not truncated,
   both hold rows, and either a column name cannot be quoted or a row that stays refers to a row that
   goes.
   */
  lemma KeyRefusedIff(tables: Tables, o: Options, users: seq<PreservedUser>, fk: ForeignKey)
    requires WellFormed(fk) && fk.child in tables && fk.parent in tables && IdentitiesSet(tables)
    ensures !KeyAccepted(tables, o, KeepOf(users), fk) <==>
      && fk.parent in o.deleteTables && fk.child !in o.truncateTables
      && tables[fk.child] != map[] && tables[fk.parent] != map[]
      && ((exists c :: c in fk.childColumns + fk.parentColumns && !SafeIdentifier(c))
          || exists c, p :: HeldBack(tables, o, users, fk, c, p))
  {
    forall c, p | c in tables[fk.child] && p in tables[fk.parent]
      ensures KeptPair(tables, o, KeepOf(users), fk, c, p) <==> HeldBack(tables, o, users, fk, c, p)
    {
      DoomedIsNotBelonging(tables, users, fk.child, c);
      DoomedIsNotBelonging(tables, users, fk.parent, p);
    }
    if fk.child in o.deleteTables && !HoldsIdentities(fk.child) {
      forall c, p ensures !HeldBack(tables, o, users, fk, c, p) {
      }
    }
    if KeptReference(tables, o, KeepOf(users), fk) {
      var c: nat, p: nat :| c in tables[fk.child] && p in tables[fk.parent]
        && KeptPair(tables, o, KeepOf(users), fk, c, p);
      assert HeldBack(tables, o, users, fk, c, p);
    }
  }

  /** Names that can be quoted: one to 63 ASCII letters, digits and underscores, so never a quote or a space. */
  lemma SafeNames(name: string)
    ensures SafeIdentifier(name) <==> 1 <= |name| <= 63 && forall i :: 0 <= i < |name| ==>
      var n := name[i] as int;
      48 <= n <= 57 || 65 <= n <= 90 || n == 95 || 97 <= n <= 122
    ensures SafeIdentifier(name) ==> '"' !in name && ' ' !in name && '.' !in name && ';' !in name && '\\' !in name
  {
    assert forall i :: 0 <= i < |name| ==> name[i] in name;
  }

  /** A tenant schema: `tenant_`, then up to 56 letters, digits and underscores, at least one. */
  lemma SchemaNames(schema: string)
    ensures ValidSchema(schema) <==>
      && 8 <= |schema| <= 63
      && schema[0] == 't' && schema[1] == 'e' && schema[2] == 'n' && schema[3] == 'a'
      && schema[4] == 'n' && schema[5] == 't' && schema[6] == '_'
      && forall i :: 0 <= i < |schema| ==>
        var n := schema[i] as int;
        48 <= n <= 57 || 65 <= n <= 90 || n == 95 || 97 <= n <= 122
  {
    assert forall i :: 0 <= i < |schema| ==> schema[i] in schema;
    if |schema| >= 7 {
      assert schema[..7] == "tenant_" <==>
        [schema[0], schema[1], schema[2], schema[3], schema[4], schema[5], schema[6]] == "tenant_";
    }
  }

  ghost predicate KeptTable(t: string, schema: string) {
    || t == "role" || t == "permission" || t == "role_permission" || t == "permission_scope"
    || t == "tenant_import_run" || t == "tenant_import_record"
    || t == "databasechangelog" || t == "databasechangeloglock"
    || t == schema + "_databasechangelog" || t == schema + "_databasechangeloglock"
  }

  lemma FoundationalIs(t: string, schema: string)
    ensures Foundational(t, schema) <==> KeptTable(t, schema)
  {
  }

  /**
   An accepted reset names every table of the catalogue once: deleted, truncated, retained or one that
   holds permissions, import history or migrations; the four account tables are deleted from; what is
   emptied has a name that can be quoted and no foreign row refers into a truncated table.
   */
  lemma AcceptedNamesEveryTable(
      tables: Tables, keys: seq<ForeignKey>, cat: Catalogue, o: Options, users: seq<PreservedUser>, t: string)
    requires Catalogued(tables, keys) && Acceptable(tables, keys, cat, o, users)
    ensures t in cat.names ==>
      t in o.deleteTables || t in o.truncateTables || t in o.retainTables || KeptTable(t, o.schemaName)
    ensures t in o.deleteTables || t in o.truncateTables ==>
      && SafeIdentifier(t) && t in cat.names && !KeptTable(t, o.schemaName) && t !in o.retainTables
    ensures t in o.retainTables ==> t in cat.names
    ensures !(t in o.deleteTables && t in o.truncateTables)
    ensures "user" in o.deleteTables && "employee" in o.deleteTables
    ensures "user_role" in o.deleteTables && "user_session" in o.deleteTables
    ensures Distinct(o.deleteTables) && Distinct(o.truncateTables) && Distinct(o.retainTables)
    ensures forall fk :: fk in keys && fk.parent in o.truncateTables ==> fk.child in o.truncateTables
    ensures cat.outsideParents == []
    ensures t in cat.triggers && t in o.deleteTables && t in tables ==> tables[t] == map[]
    ensures t in cat.inherited ==> t !in o.truncateTables
    ensures t in cat.owned ==> SafeIdentifier(t) && OwnRowsOnly(tables, o.tenantId, t)
  {
    FoundationalIs(t, o.schemaName);
    RequiredAreListed(o.deleteTables);
    if t in o.deleteTables || t in o.truncateTables {
      assert t in o.deleteTables + o.truncateTables;
    }
    if t in o.deleteTables + o.truncateTables {
      assert SafeIdentifier(t);
    }
    if t in cat.owned {
      assert OwnedAccepted(tables, o, t);
    }
  }

  /** No row carries another tenant's id. */
  ghost predicate OwnRowsOnly(tables: Tables, tenant: int, t: string) {
    t in tables ==> forall id :: id in tables[t] && "tenant_id" in tables[t][id] ==>
      tables[t][id]["tenant_id"] == tenant
  }

  /**
   Every clear of a plan sets to NULL exactly the nullable columns of a key between listed tables that
   some row to be deleted uses towards a row to be deleted; a MATCH FULL key is cleared whole or not at
   all.
   */
  lemma PlannedClearsAre(
      tables: Tables, keys: seq<ForeignKey>, o: Options, users: seq<PreservedUser>, clears: seq<ClearLink>, i: nat)
    requires Catalogued(tables, keys) && IdentitiesSet(tables)
    requires PlannedClears(tables, keys, o, users, clears) && i < |clears|
    ensures exists fk :: fk in keys && ClearOf(tables, o, users, fk, clears[i])
  {
    var deps := Dependencies(tables, o, KeepOf(users), keys);
    var order, gone :| Planned(o.deleteTables, deps, DeletionPlan(order, clears), gone);
    var d := NonSelf(deps)[gone[i]];
    assert d in NonSelf(deps) && d in deps && d.clear == Some(clears[i]);
    DependenciesAre(tables, o, KeepOf(users), keys);
    var fk :| fk in keys && Constrains(tables, o, KeepOf(users), fk) && d == DependencyOf(tables, KeepOf(users), fk);
    DependencyClears(tables, o, users, fk, clears[i]);
  }

  lemma DependencyClears(
      tables: Tables, o: Options, users: seq<PreservedUser>, fk: ForeignKey, link: ClearLink)
    requires WellFormed(fk) && fk.child in tables && fk.parent in tables && IdentitiesSet(tables)
    requires Constrains(tables, o, KeepOf(users), fk) && fk.child != fk.parent
    requires DependencyOf(tables, KeepOf(users), fk).clear == Some(link)
    ensures ClearOf(tables, o, users, fk, link)
  {
    var pair :| pair in DoomedPairs(tables, KeepOf(users), fk);
    DoomedIsNotBelonging(tables, users, fk.child, pair.0);
    DoomedIsNotBelonging(tables, users, fk.parent, pair.1);
    assert GoingPair(tables, users, fk, pair.0, pair.1);
  }

  ghost predicate GoingPair(tables: Tables, users: seq<PreservedUser>, fk: ForeignKey, c: nat, p: nat)
    requires fk.child in tables && fk.parent in tables
  {
    && c in tables[fk.child] && p in tables[fk.parent]
    && !Belongs(users, fk.child, tables[fk.child][c]) && !Belongs(users, fk.parent, tables[fk.parent][p])
    && Matches(fk.childColumns, fk.parentColumns, tables[fk.child][c], tables[fk.parent][p])
  }

  ghost predicate ClearOf(tables: Tables, o: Options, users: seq<PreservedUser>, fk: ForeignKey, link: ClearLink)
    requires fk.child in tables && fk.parent in tables
  {
    && fk.child != fk.parent && fk.child in o.deleteTables && fk.parent in o.deleteTables
    && link.child == fk.child && link.parent == fk.parent
    && link.childColumns == fk.childColumns && link.parentColumns == fk.parentColumns
    && link.clearColumns == fk.nullable && fk.nullable != []
    && (fk.matching == MatchFull ==> |fk.nullable| == |fk.childColumns|)
    && exists c, p :: GoingPair(tables, users, fk, c, p)
  }
}
