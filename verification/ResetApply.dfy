/**
 Executing a reviewed reset: truncate, clear nullable links, delete in order. For a manifest the
 review accepted, the only statements the database can refuse are the clears, and those go through
 exactly when they erase no key still referred to and leave no MATCH FULL reference half NULL.
 */
module ResetApply {
  import opened Outcomes
  import opened Graphs
  import opened Multisets
  import opened ResetOrder
  import opened ResetDatabase

  datatype ResetError =
    | SchemaInvalid
    | TruncatePreservedTable
    | NullableLinkInvalid
    | TableManifestInvalid
    | ExplicitTableManifestRequired
    | UnclassifiedTable
    | TruncateReferenceOutsideGroup
    | DeleteTriggerRequiresReview
    | TruncateInheritanceRequiresReview
    | ExternalForeignKey
    | ForeignKeyUnsupported
    | RetainedRowReferencesDeletedData
    | TableIdentifierUnsupported
    | SchemaContainsForeignTenantRows
    | CycleRequiresReviewFirst
    | StatementRefused

  datatype Manifest = Manifest(
    deleteOrder: seq<string>, truncateTables: seq<string>, retainedTables: seq<string>,
    preservedUserIds: seq<int>, preservedEmployeeIds: seq<int>, clears: seq<ClearLink>)
  {
    function Keeps(): Keep {
      Keep(set u | u in preservedUserIds, set e | e in preservedEmployeeIds)
    }
  }

  // ---------------------------------------------------------------- names

  predicate PlainCharacter(c: char) {
    'a' <= c <= 'z' || 'A' <= c <= 'Z' || '0' <= c <= '9' || c == '_'
  }

  predicate SafeIdentifier(name: string) {
    0 < |name| <= 63 && forall c :: c in name ==> PlainCharacter(c)
  }

  predicate ValidSchema(schema: string) {
    "tenant_" <= schema && 7 < |schema| <= 63 && forall c :: c in schema ==> PlainCharacter(c)
  }

  predicate Foundational(table: string, schema: string) {
    || table in ["role", "permission", "role_permission", "permission_scope", "tenant_import_run",
        "tenant_import_record"]
    || table == schema + "_databasechangelog"
    || table == schema + "_databasechangeloglock"
    || table in ["databasechangelog", "databasechangeloglock"]
  }

  predicate HoldsIdentities(table: string) {
    table in ["user", "employee", "user_role"]
  }

  // ---------------------------------------------------------------- what the review establishes

  /** The UPDATE that clears foreign key `fk`. */
  ghost predicate ClearsKey(link: ClearLink, fk: ForeignKey) {
    && link.child == fk.child && link.parent == fk.parent
    && link.childColumns == fk.childColumns && link.parentColumns == fk.parentColumns
    && link.clearColumns == fk.nullable != []
    && (fk.matching == MatchSimple || |fk.nullable| == |fk.childColumns|)
  }

  /** Some doomed child row refers to a doomed parent row through `fk`. */
  ghost predicate DoomedLink(tables: Tables, keep: Keep, fk: ForeignKey)
    requires WellFormed(fk) && fk.child in tables && fk.parent in tables
  {
    exists c, p :: DoomedPair(tables, keep, fk, c, p)
  }

  predicate DoomedPair(tables: Tables, keep: Keep, fk: ForeignKey, c: nat, p: nat)
    requires WellFormed(fk) && fk.child in tables && fk.parent in tables
  {
    && c in tables[fk.child] && p in tables[fk.parent]
    && Doomed(keep, fk.child, tables[fk.child][c]) && Doomed(keep, fk.parent, tables[fk.parent][p])
    && References(fk, tables[fk.child][c], tables[fk.parent][p])
  }

  /** Some row that stays refers to a doomed parent row through `fk`. */
  ghost predicate StayingLink(tables: Tables, m: Manifest, fk: ForeignKey)
    requires WellFormed(fk) && fk.child in tables && fk.parent in tables
  {
    exists c, p :: StayingPair(tables, m, fk, c, p)
  }

  ghost predicate StayingPair(tables: Tables, m: Manifest, fk: ForeignKey, c: nat, p: nat)
    requires WellFormed(fk) && fk.child in tables && fk.parent in tables
  {
    && c in tables[fk.child] && p in tables[fk.parent]
    && (fk.child !in m.deleteOrder || !Doomed(m.Keeps(), fk.child, tables[fk.child][c]))
    && Doomed(m.Keeps(), fk.parent, tables[fk.parent][p])
    && References(fk, tables[fk.child][c], tables[fk.parent][p])
  }

  ghost predicate OrderedBefore(order: seq<string>, child: string, parent: string) {
    forall i, j :: 0 <= i < |order| && 0 <= j < |order| && order[i] == child && order[j] == parent ==> i < j
  }

  /** The facts a successful review pins down about a database state and its manifest. */
  ghost predicate Reviewed(tables: Tables, keys: seq<ForeignKey>, schema: string, m: Manifest)
    requires Catalogued(tables, keys)
  {
    && ValidSchema(schema)
    && (forall t :: t in m.truncateTables + m.deleteOrder ==>
          SafeIdentifier(t) && !Foundational(t, schema) && t in tables)
    && (forall t :: t in m.truncateTables ==> !HoldsIdentities(t) && t !in m.deleteOrder && t !in m.retainedTables)
    && Distinct(m.deleteOrder)
    && (forall fk :: fk in keys && fk.parent in m.truncateTables ==> fk.child in m.truncateTables)
    && (forall fk :: fk in keys && fk.parent in m.deleteOrder && fk.child !in m.truncateTables ==>
          !StayingLink(tables, m, fk))
    && (forall fk ::
          && fk in keys && fk.parent in m.deleteOrder && fk.child in m.deleteOrder && fk.child != fk.parent
          && DoomedLink(tables, m.Keeps(), fk) ==>
          || OrderedBefore(m.deleteOrder, fk.child, fk.parent)
          || exists i :: 0 <= i < |m.clears| && ClearsKey(m.clears[i], fk))
    && (forall i :: 0 <= i < |m.clears| ==> LinkReviewed(keys, m, m.clears[i]))
  }

  ghost predicate LinkReviewed(keys: seq<ForeignKey>, m: Manifest, link: ClearLink) {
    && link.child in m.deleteOrder && link.parent in m.deleteOrder
    && (forall c :: c in link.clearColumns + link.childColumns + link.parentColumns ==> SafeIdentifier(c))
    && exists fk :: fk in keys && ClearsKey(link, fk)
  }

  // ---------------------------------------------------------------- what may go wrong with a clear

  /** No reference of MATCH FULL is left with some columns NULL and others not. */
  ghost predicate NoHalfNull(tables: Tables, keys: seq<ForeignKey>, keep: Keep, link: ClearLink)
    requires link.child in tables && link.parent in tables
  {
    forall fk, id ::
      fk in keys && fk.child == link.child && fk.matching == MatchFull
      && id in tables[link.child] && Hit(tables, keep, link, tables[link.child][id])
      && AnyNull(fk.childColumns, tables[link.child][id] - Members(link.clearColumns))
      ==> AllNull(fk.childColumns, tables[link.child][id] - Members(link.clearColumns))
  }

  /** No row still refers to a key of which the clear erases a column. */
  ghost predicate NoErasedKey(tables: Tables, keys: seq<ForeignKey>, keep: Keep, link: ClearLink)
    requires Catalogued(tables, keys) && link.child in tables && link.parent in tables
  {
    forall fk, id, c ::
      fk in keys && fk.parent == link.child && (exists col :: col in fk.parentColumns && col in link.clearColumns)
      && id in tables[link.child] && Hit(tables, keep, link, tables[link.child][id])
      && c in Cleared(tables, keep, link)[fk.child]
      ==> !References(fk, Cleared(tables, keep, link)[fk.child][c], tables[link.child][id])
  }

  ghost predicate ClearSafe(tables: Tables, keys: seq<ForeignKey>, keep: Keep, link: ClearLink)
    requires Catalogued(tables, keys) && link.child in tables && link.parent in tables
  {
    NoHalfNull(tables, keys, keep, link) && NoErasedKey(tables, keys, keep, link)
  }

  /** Every clear is safe on the state its predecessors leave. */
  ghost predicate ClearsSafe(tables: Tables, keys: seq<ForeignKey>, keep: Keep, links: seq<ClearLink>)
    requires Catalogued(tables, keys)
    requires forall i :: 0 <= i < |links| ==> links[i].child in tables && links[i].parent in tables
    decreases |links|
  {
    links != [] ==>
      && ClearSafe(tables, keys, keep, links[0])
      && ClearsSafe(Cleared(tables, keep, links[0]), keys, keep, links[1..])
  }

  /** The tables the clears name exist, and every clear is safe on the state its predecessors leave. */
  ghost predicate ClearsGoThrough(tables: Tables, keys: seq<ForeignKey>, keep: Keep, clears: seq<ClearLink>) {
    && Catalogued(tables, keys)
    && (forall i :: 0 <= i < |clears| ==> clears[i].child in tables && clears[i].parent in tables)
    && ClearsSafe(tables, keys, keep, clears)
  }

  function AllCleared(tables: Tables, keep: Keep, links: seq<ClearLink>): (r: Tables)
    requires forall i :: 0 <= i < |links| ==> links[i].child in tables && links[i].parent in tables
    ensures r.Keys == tables.Keys
    decreases |links|
  {
    if links == [] then tables else AllCleared(Cleared(tables, keep, links[0]), keep, links[1..])
  }

  /** A fact about the catalogue alone under which `link` is safe on every state. */
  ghost predicate SchemaSafe(keys: seq<ForeignKey>, link: ClearLink) {
    && (forall fk :: fk in keys && fk.child == link.child && fk.matching == MatchFull ==>
          || (forall c :: c in fk.childColumns ==> c in link.clearColumns)
          || (forall c :: c in fk.childColumns ==> c !in link.clearColumns))
    && (forall fk :: fk in keys && fk.parent == link.child ==>
          forall c :: c in fk.parentColumns ==> c !in link.clearColumns)
  }

  // ---------------------------------------------------------------- the state a reset must end in

  function Intended(tables: Tables, m: Manifest): Tables {
    map t | t in tables ::
      if t in m.truncateTables then map[]
      else if t in m.deleteOrder then Survivors(m.Keeps(), t, tables[t])
      else tables[t]
  }

  /** What holding `Intended` means, table by table. */
  lemma IntendedMeans(tables: Tables, keys: seq<ForeignKey>, schema: string, m: Manifest, t: string)
    requires Catalogued(tables, keys) && Reviewed(tables, keys, schema, m) && IdentitiesSet(tables)
    requires t in tables
    ensures t in m.truncateTables ==> Intended(tables, m)[t] == map[]
    ensures t in m.deleteOrder && !HoldsIdentities(t) ==> Intended(tables, m)[t] == map[]
    ensures t in m.deleteOrder && HoldsIdentities(t) ==>
      Intended(tables, m)[t] == map id | id in tables[t] && Kept(m.Keeps(), t, tables[t][id]) :: tables[t][id]
    ensures t !in m.deleteOrder && t !in m.truncateTables ==> Intended(tables, m)[t] == tables[t]
  {
  }

  // ---------------------------------------------------------------- one clear

  /** A clear goes through exactly when it is safe. */
  lemma ClearIntactIffSafe(tables: Tables, keys: seq<ForeignKey>, keep: Keep, link: ClearLink)
    requires Catalogued(tables, keys) && Intact(tables, keys) && KeysUnique(tables, keys)
    requires link.child in tables && link.parent in tables
    ensures Intact(Cleared(tables, keep, link), keys) <==> ClearSafe(tables, keys, keep, link)
  {
    if ClearSafe(tables, keys, keep, link) {
      SafeClearIntact(tables, keys, keep, link);
    }
    if Intact(Cleared(tables, keep, link), keys) {
      IntactClearSafe(tables, keys, keep, link);
    }
  }

  lemma SafeClearIntact(tables: Tables, keys: seq<ForeignKey>, keep: Keep, link: ClearLink)
    requires Catalogued(tables, keys) && Intact(tables, keys)
    requires link.child in tables && link.parent in tables
    requires ClearSafe(tables, keys, keep, link)
    ensures Intact(Cleared(tables, keep, link), keys)
  {
    var next := Cleared(tables, keep, link);
    forall fk, id | fk in keys && id in next[fk.child] ensures Satisfied(next, fk, next[fk.child][id]) {
      SafeClearSatisfied(tables, keys, keep, link, fk, id);
    }
  }

  lemma SafeClearSatisfied(tables: Tables, keys: seq<ForeignKey>, keep: Keep, link: ClearLink, fk: ForeignKey, id: nat)
    requires Catalogued(tables, keys) && link.child in tables && link.parent in tables
    requires ClearSafe(tables, keys, keep, link)
    requires fk in keys && id in tables[fk.child] && Satisfied(tables, fk, tables[fk.child][id])
    ensures Satisfied(Cleared(tables, keep, link), fk, Cleared(tables, keep, link)[fk.child][id])
  {
    var next := Cleared(tables, keep, link);
    var row, row' := tables[fk.child][id], next[fk.child][id];
    if !AnyNull(fk.childColumns, row') {
      assert fk.childColumns[0] in row';
      assert !AnyNull(fk.childColumns, row) && !AllNull(fk.childColumns, row);
      var p :| p in tables[fk.parent] && References(fk, row, tables[fk.parent][p]);
      assert References(fk, row', tables[fk.parent][p]);
      ParentKeyStays(tables, keys, keep, link, fk, id, p);
    } else if fk.matching == MatchFull && row' == row {
      var k :| 0 <= k < |fk.childColumns| && fk.childColumns[k] !in row;
      assert !HasParent(tables, fk, row);
    }
  }

  lemma ParentKeyStays(
      tables: Tables, keys: seq<ForeignKey>, keep: Keep, link: ClearLink, fk: ForeignKey, id: nat, p: nat)
    requires Catalogued(tables, keys) && link.child in tables && link.parent in tables
    requires NoErasedKey(tables, keys, keep, link)
    requires fk in keys && id in tables[fk.child] && p in tables[fk.parent]
    requires References(fk, Cleared(tables, keep, link)[fk.child][id], tables[fk.parent][p])
    ensures References(fk, Cleared(tables, keep, link)[fk.child][id], Cleared(tables, keep, link)[fk.parent][p])
  {
  }

  lemma IntactClearSafe(tables: Tables, keys: seq<ForeignKey>, keep: Keep, link: ClearLink)
    requires Catalogued(tables, keys) && KeysUnique(tables, keys)
    requires link.child in tables && link.parent in tables
    requires Intact(Cleared(tables, keep, link), keys)
    ensures ClearSafe(tables, keys, keep, link)
  {
    IntactNoHalfNull(tables, keys, keep, link);
    var next := Cleared(tables, keep, link);
    forall fk, id, c |
      fk in keys && fk.parent == link.child && (exists col :: col in fk.parentColumns && col in link.clearColumns)
      && id in tables[link.child] && Hit(tables, keep, link, tables[link.child][id])
      && c in next[fk.child]
      ensures !References(fk, next[fk.child][c], tables[link.child][id])
    {
      ErasedKeyUnmatched(tables, keep, link, fk, id, next[fk.child][c]);
      ParentIsAnother(tables, keys, keep, link, fk, id, c);
    }
  }

  lemma IntactNoHalfNull(tables: Tables, keys: seq<ForeignKey>, keep: Keep, link: ClearLink)
    requires Catalogued(tables, keys) && link.child in tables && link.parent in tables
    requires Intact(Cleared(tables, keep, link), keys)
    ensures NoHalfNull(tables, keys, keep, link)
  {
    var next := Cleared(tables, keep, link);
    forall fk, id |
      fk in keys && fk.child == link.child && fk.matching == MatchFull
      && id in tables[link.child] && Hit(tables, keep, link, tables[link.child][id])
      && AnyNull(fk.childColumns, tables[link.child][id] - Members(link.clearColumns))
      ensures AllNull(fk.childColumns, tables[link.child][id] - Members(link.clearColumns))
    {
      assert Satisfied(next, fk, next[fk.child][id]);
    }
  }

  /** If a child still referred to the old key, its parent would hold that key too, against uniqueness. */
  lemma ParentIsAnother(
      tables: Tables, keys: seq<ForeignKey>, keep: Keep, link: ClearLink, fk: ForeignKey, id: nat, c: nat)
    requires Catalogued(tables, keys) && KeysUnique(tables, keys) && link.child in tables && link.parent in tables
    requires Intact(Cleared(tables, keep, link), keys) && fk in keys && fk.parent == link.child
      && id in tables[fk.parent]
    requires c in Cleared(tables, keep, link)[fk.child]
    requires !References(fk, Cleared(tables, keep, link)[fk.child][c], Cleared(tables, keep, link)[fk.parent][id])
    ensures !References(fk, Cleared(tables, keep, link)[fk.child][c], tables[fk.parent][id])
  {
    var next := Cleared(tables, keep, link);
    var child := next[fk.child][c];
    assert Satisfied(next, fk, child);
    forall q | q in next[fk.parent] ensures Sub(next[fk.parent][q], tables[fk.parent][q]) {
    }
    if HasParent(next, fk, child) {
      SameKeySameParent(fk, child, tables[fk.parent], next[fk.parent], id);
    }
  }

  /** Rows lost columns but no row lost its key to another: a child of a shrunk row was that row's child only. */
  lemma SameKeySameParent(fk: ForeignKey, child: Row, before: map<nat, Row>, after: map<nat, Row>, id: nat)
    requires WellFormed(fk) && id in before && before.Keys == after.Keys
    requires forall q :: q in after ==> Sub(after[q], before[q])
    requires forall i, j :: i in before && j in before && SameKey(fk, before[i], before[j]) ==> i == j
    requires exists q :: q in after && References(fk, child, after[q])
    requires !References(fk, child, after[id])
    ensures !References(fk, child, before[id])
  {
    var q :| q in after && References(fk, child, after[q]);
    ReferencesGrow(fk, child, after[q], child, before[q]);
    if References(fk, child, before[id]) {
      SameReferenceSameKey(fk, child, before[id], before[q]);
    }
  }

  /** A row whose key lost a column is nobody's parent through that key. */
  lemma ErasedKeyUnmatched(tables: Tables, keep: Keep, link: ClearLink, fk: ForeignKey, id: nat, child: Row)
    requires WellFormed(fk) && link.child in tables && link.parent in tables
    requires fk.parent == link.child && (exists col :: col in fk.parentColumns && col in link.clearColumns)
    requires id in tables[link.child] && Hit(tables, keep, link, tables[link.child][id])
    ensures !References(fk, child, Cleared(tables, keep, link)[fk.parent][id])
  {
    var col :| col in fk.parentColumns && col in link.clearColumns;
    var k :| 0 <= k < |fk.parentColumns| && fk.parentColumns[k] == col;
    assert col in Members(link.clearColumns);
  }

  lemma SameReferenceSameKey(fk: ForeignKey, c: Row, p: Row, q: Row)
    requires WellFormed(fk) && References(fk, c, p) && References(fk, c, q)
    ensures SameKey(fk, p, q)
  {
  }

  /** A clear whose columns overlap no key and no MATCH FULL reference partially is safe on every state. */
  lemma SchemaSafeSuffices(tables: Tables, keys: seq<ForeignKey>, keep: Keep, link: ClearLink)
    requires Catalogued(tables, keys) && Intact(tables, keys)
    requires link.child in tables && link.parent in tables
    requires SchemaSafe(keys, link)
    ensures ClearSafe(tables, keys, keep, link)
  {
    forall fk, id |
      fk in keys && fk.child == link.child && fk.matching == MatchFull
      && id in tables[link.child] && Hit(tables, keep, link, tables[link.child][id])
      && AnyNull(fk.childColumns, tables[link.child][id] - Members(link.clearColumns))
      ensures AllNull(fk.childColumns, tables[link.child][id] - Members(link.clearColumns))
    {
      assert Satisfied(tables, fk, tables[fk.child][id]);
    }
  }

  lemma {:induction false} SchemaSafeClears(tables: Tables, keys: seq<ForeignKey>, keep: Keep, links: seq<ClearLink>)
    requires Catalogued(tables, keys) && Intact(tables, keys)
    requires forall i :: 0 <= i < |links| ==>
      links[i].child in tables && links[i].parent in tables && SchemaSafe(keys, links[i])
    ensures ClearsSafe(tables, keys, keep, links)
    decreases |links|
  {
    if links != [] {
      SchemaSafeSuffices(tables, keys, keep, links[0]);
      SafeClearIntact(tables, keys, keep, links[0]);
      SchemaSafeClears(Cleared(tables, keep, links[0]), keys, keep, links[1..]);
    }
  }

  // ---------------------------------------------------------------- clears only shrink doomed rows

  ghost predicate Sub(small: Row, big: Row) {
    forall c :: c in small ==> c in big && small[c] == big[c]
  }

  ghost predicate RowShrunk(m: Manifest, t: string, before: Row, after: Row) {
    && Sub(after, before)
    && (after == before || (t in m.deleteOrder && Doomed(m.Keeps(), t, before)))
    && (Doomed(m.Keeps(), t, after) <==> Doomed(m.Keeps(), t, before))
  }

  ghost predicate Shrunk(m: Manifest, before: Tables, after: Tables) {
    && after.Keys == before.Keys
    && (forall t :: t in before ==> after[t].Keys == before[t].Keys)
    && (forall t, id :: t in before && id in before[t] ==> RowShrunk(m, t, before[t][id], after[t][id]))
  }

  lemma ReferencesGrow(fk: ForeignKey, c: Row, p: Row, c': Row, p': Row)
    requires WellFormed(fk) && References(fk, c, p) && Sub(c, c') && Sub(p, p')
    ensures References(fk, c', p')
  {
  }

  lemma ClearShrinks(tables: Tables, m: Manifest, link: ClearLink)
    requires link.child in tables && link.parent in tables && link.child in m.deleteOrder
    requires forall t :: IdentityColumn(link.child) == Some(t) ==> t !in link.clearColumns
    ensures Shrunk(m, tables, Cleared(tables, m.Keeps(), link))
  {
  }

  lemma ShrunkTransitive(m: Manifest, a: Tables, b: Tables, c: Tables)
    requires Shrunk(m, a, b) && Shrunk(m, b, c)
    ensures Shrunk(m, a, c)
  {
    forall t, id | t in a && id in a[t] ensures RowShrunk(m, t, a[t][id], c[t][id]) {
      assert RowShrunk(m, t, a[t][id], b[t][id]) && RowShrunk(m, t, b[t][id], c[t][id]);
    }
  }

  lemma DoomedLinkShrinks(m: Manifest, before: Tables, after: Tables, fk: ForeignKey)
    requires Shrunk(m, before, after) && WellFormed(fk) && fk.child in before && fk.parent in before
    requires DoomedLink(after, m.Keeps(), fk)
    ensures DoomedLink(before, m.Keeps(), fk)
  {
    var c, p :| DoomedPair(after, m.Keeps(), fk, c, p);
    assert RowShrunk(m, fk.child, before[fk.child][c], after[fk.child][c]);
    assert RowShrunk(m, fk.parent, before[fk.parent][p], after[fk.parent][p]);
    ReferencesGrow(fk, after[fk.child][c], after[fk.parent][p], before[fk.child][c], before[fk.parent][p]);
    assert DoomedPair(before, m.Keeps(), fk, c, p);
  }

  lemma StayingLinkShrinks(m: Manifest, before: Tables, after: Tables, fk: ForeignKey)
    requires Shrunk(m, before, after) && WellFormed(fk) && fk.child in before && fk.parent in before
    requires StayingLink(after, m, fk)
    ensures StayingLink(before, m, fk)
  {
    var c, p :| StayingPair(after, m, fk, c, p);
    assert RowShrunk(m, fk.child, before[fk.child][c], after[fk.child][c]);
    assert RowShrunk(m, fk.parent, before[fk.parent][p], after[fk.parent][p]);
    ReferencesGrow(fk, after[fk.child][c], after[fk.parent][p], before[fk.child][c], before[fk.parent][p]);
    assert StayingPair(before, m, fk, c, p);
  }

  /** Once cleared, a foreign key links no doomed rows any more. */
  lemma ClearRemovesLink(tables: Tables, m: Manifest, link: ClearLink, fk: ForeignKey)
    requires WellFormed(fk) && fk.child in tables && fk.parent in tables && link.child in m.deleteOrder
    requires ClearsKey(link, fk)
    requires forall t :: IdentityColumn(link.child) == Some(t) ==> t !in link.clearColumns
    ensures !DoomedLink(Cleared(tables, m.Keeps(), link), m.Keeps(), fk)
  {
    var keep := m.Keeps();
    var next := Cleared(tables, keep, link);
    ClearShrinks(tables, m, link);
    forall c, p | c in tables[fk.child] && p in tables[fk.parent] ensures !DoomedPair(next, keep, fk, c, p) {
      assert RowShrunk(m, fk.child, tables[fk.child][c], next[fk.child][c]);
      assert RowShrunk(m, fk.parent, tables[fk.parent][p], next[fk.parent][p]);
      if Hit(tables, keep, link, tables[fk.child][c]) {
        var col := fk.nullable[0];
        assert col in fk.nullable && col in Members(link.clearColumns);
        var k :| 0 <= k < |fk.childColumns| && fk.childColumns[k] == col;
        assert fk.childColumns[k] !in next[fk.child][c];
      } else if DoomedPair(next, keep, fk, c, p) {
        ReferencesGrow(fk, next[fk.child][c], next[fk.parent][p], tables[fk.child][c], tables[fk.parent][p]);
      }
    }
  }

  // ---------------------------------------------------------------- the deletions

  /** Doomed rows of the tables in `done` are gone. */
  function DeletedAll(tables: Tables, keep: Keep, done: seq<string>): Tables {
    map t | t in tables :: if t in done then Survivors(keep, t, tables[t]) else tables[t]
  }

  /** What makes every deletion in the order harmless. */
  ghost predicate Deletable(tables: Tables, keys: seq<ForeignKey>, m: Manifest)
    requires Catalogued(tables, keys)
  {
    && Distinct(m.deleteOrder)
    && (forall fk :: fk in keys && fk.parent in m.deleteOrder ==> !StayingLink(tables, m, fk))
    && (forall fk :: fk in keys && fk.parent in m.deleteOrder && fk.child in m.deleteOrder && fk.child != fk.parent
          && DoomedLink(tables, m.Keeps(), fk)
          ==> OrderedBefore(m.deleteOrder, fk.child, fk.parent))
  }

  /** After any number of deletions in the order no foreign key dangles. */
  lemma DeletionsIntact(tables: Tables, keys: seq<ForeignKey>, m: Manifest, j: nat)
    requires Catalogued(tables, keys) && Intact(tables, keys) && Deletable(tables, keys, m)
    requires j <= |m.deleteOrder|
    ensures Catalogued(DeletedAll(tables, m.Keeps(), m.deleteOrder[..j]), keys)
    ensures Intact(DeletedAll(tables, m.Keeps(), m.deleteOrder[..j]), keys)
  {
    var done := m.deleteOrder[..j];
    var next := DeletedAll(tables, m.Keeps(), done);
    forall fk, id | fk in keys && id in next[fk.child] ensures Satisfied(next, fk, next[fk.child][id]) {
      var row := tables[fk.child][id];
      assert Satisfied(tables, fk, row);
      if HasParent(tables, fk, row) {
        var p :| p in tables[fk.parent] && References(fk, row, tables[fk.parent][p]);
        if fk.parent in done && Doomed(m.Keeps(), fk.parent, tables[fk.parent][p]) {
          DeletedParentHasNoChild(tables, keys, m, j, fk, id, p);
        }
        assert p in next[fk.parent] && next[fk.parent][p] == tables[fk.parent][p];
        assert HasParent(next, fk, row);
      }
    }
  }

  lemma DeletedParentHasNoChild(
      tables: Tables, keys: seq<ForeignKey>, m: Manifest, j: nat, fk: ForeignKey, c: nat, p: nat)
    requires Catalogued(tables, keys) && Deletable(tables, keys, m) && j <= |m.deleteOrder|
    requires fk in keys && fk.parent in m.deleteOrder[..j]
    requires c in DeletedAll(tables, m.Keeps(), m.deleteOrder[..j])[fk.child]
    requires p in tables[fk.parent] && Doomed(m.Keeps(), fk.parent, tables[fk.parent][p])
    ensures !References(fk, tables[fk.child][c], tables[fk.parent][p])
  {
    assert !StayingPair(tables, m, fk, c, p);
    if fk.child in m.deleteOrder && Doomed(m.Keeps(), fk.child, tables[fk.child][c]) {
      assert fk.child !in m.deleteOrder[..j];
      assert !OrderedBefore(m.deleteOrder, fk.child, fk.parent) by {
        var i :| 0 <= i < j && m.deleteOrder[i] == fk.parent;
        var k :| 0 <= k < |m.deleteOrder| && m.deleteOrder[k] == fk.child;
        assert k >= j;
      }
      assert !DoomedPair(tables, m.Keeps(), fk, c, p);
    }
  }

  // ---------------------------------------------------------------- the executor

  /** The review survives the truncation, and every remaining row still refers as before. */
  lemma ReviewedAfterTruncate(tables: Tables, keys: seq<ForeignKey>, schema: string, m: Manifest)
    requires Catalogued(tables, keys) && Reviewed(tables, keys, schema, m)
    ensures var t1 := Emptied(tables, m.truncateTables);
      forall fk :: fk in keys && fk.parent in m.deleteOrder ==>
        && !StayingLink(t1, m, fk)
        && (DoomedLink(t1, m.Keeps(), fk) ==> DoomedLink(tables, m.Keeps(), fk))
  {
    var t1 := Emptied(tables, m.truncateTables);
    forall fk | fk in keys && fk.parent in m.deleteOrder
      ensures !StayingLink(t1, m, fk) && (DoomedLink(t1, m.Keeps(), fk) ==> DoomedLink(tables, m.Keeps(), fk))
    {
      if fk.child !in m.truncateTables {
        forall c, p ensures !StayingPair(t1, m, fk, c, p) {
          assert !StayingPair(tables, m, fk, c, p);
        }
        if DoomedLink(t1, m.Keeps(), fk) {
          var c, p :| DoomedPair(t1, m.Keeps(), fk, c, p);
          assert DoomedPair(tables, m.Keeps(), fk, c, p);
        }
      }
    }
  }

  /** After every clear the deletions can follow the order. */
  lemma DeletableAfterClears(
      tables: Tables, t1: Tables, now: Tables, keys: seq<ForeignKey>, schema: string, m: Manifest)
    requires Catalogued(tables, keys) && Reviewed(tables, keys, schema, m) && t1 == Emptied(tables, m.truncateTables)
    requires Shrunk(m, t1, now)
    requires forall k, fk :: 0 <= k < |m.clears| && fk in keys && ClearsKey(m.clears[k], fk) ==>
      !DoomedLink(now, m.Keeps(), fk)
    ensures Deletable(now, keys, m)
  {
    ReviewedAfterTruncate(tables, keys, schema, m);
    forall fk | fk in keys && fk.parent in m.deleteOrder ensures !StayingLink(now, m, fk) {
      if StayingLink(now, m, fk) {
        StayingLinkShrinks(m, t1, now, fk);
      }
    }
    forall fk | fk in keys && fk.parent in m.deleteOrder && fk.child in m.deleteOrder && fk.child != fk.parent
                && DoomedLink(now, m.Keeps(), fk)
      ensures OrderedBefore(m.deleteOrder, fk.child, fk.parent)
    {
      DoomedLinkShrinks(m, t1, now, fk);
    }
  }

  /** Deleting along the whole order from a shrunk state ends in the intended tables. */
  lemma DeletionsEndAsIntended(
      tables: Tables, t1: Tables, now: Tables, keys: seq<ForeignKey>, schema: string, m: Manifest)
    requires Catalogued(tables, keys) && Reviewed(tables, keys, schema, m) && t1 == Emptied(tables, m.truncateTables)
    requires Shrunk(m, t1, now)
    ensures DeletedAll(now, m.Keeps(), m.deleteOrder) == Intended(tables, m)
  {
    forall t | t in tables ensures DeletedAll(now, m.Keeps(), m.deleteOrder)[t] == Intended(tables, m)[t] {
      TableEndsAsIntended(tables, t1, now, m, t);
    }
  }

  lemma TableEndsAsIntended(tables: Tables, t1: Tables, now: Tables, m: Manifest, t: string)
    requires t1 == Emptied(tables, m.truncateTables) && Shrunk(m, t1, now) && t in tables
    requires forall n :: n in m.truncateTables ==> n !in m.deleteOrder
    ensures DeletedAll(now, m.Keeps(), m.deleteOrder)[t] == Intended(tables, m)[t]
  {
    var keep := m.Keeps();
    assert forall id :: id in t1[t] ==> RowShrunk(m, t, t1[t][id], now[t][id]);
    assert now[t].Keys == t1[t].Keys;
    if t in m.deleteOrder {
      assert Survivors(keep, t, now[t]) == Survivors(keep, t, t1[t]);
    }
  }

  lemma IdentityKept(keys: seq<ForeignKey>, m: Manifest, link: ClearLink)
    requires IdentitiesFixed(keys) && LinkReviewed(keys, m, link)
    ensures forall c :: IdentityColumn(link.child) == Some(c) ==> c !in link.clearColumns
  {
  }

  lemma ClearedIdentitiesSet(tables: Tables, keep: Keep, link: ClearLink)
    requires link.child in tables && link.parent in tables && IdentitiesSet(tables)
    requires forall c :: IdentityColumn(link.child) == Some(c) ==> c !in link.clearColumns
    ensures IdentitiesSet(Cleared(tables, keep, link))
  {
  }

  predicate Truncatable(schema: string, m: Manifest, table: string) {
    SafeIdentifier(table) && !Foundational(table, schema) && !HoldsIdentities(table) && table !in m.deleteOrder
      && table !in m.retainedTables
  }

  ghost predicate GroupAccepted(tables: Tables, keys: seq<ForeignKey>, schema: string, m: Manifest) {
    && (forall t :: t in m.truncateTables ==> Truncatable(schema, m, t) && t in tables)
    && forall fk :: fk in keys && fk.parent in m.truncateTables ==> fk.child in m.truncateTables
  }

  /**
   What no manifest can touch, reviewed or not: foundational tables, tables it does not list, and the
   rows of the identities it preserves.
   */
  ghost predicate Spared(before: Tables, after: Tables, schema: string, m: Manifest) {
    && before.Keys == after.Keys
    && (forall t :: t in before && (Foundational(t, schema) || t !in m.truncateTables + m.deleteOrder) ==>
          after[t] == before[t])
    && (forall t, id :: t in before && id in before[t] && Kept(m.Keeps(), t, before[t][id]) ==>
          id in after[t] && after[t][id] == before[t][id])
  }

  lemma SparedTransitive(a: Tables, b: Tables, c: Tables, schema: string, m: Manifest)
    requires Spared(a, b, schema, m) && Spared(b, c, schema, m)
    ensures Spared(a, c, schema, m)
  {
  }

  lemma ClearSpares(tables: Tables, schema: string, m: Manifest, link: ClearLink)
    requires link.child in tables && link.parent in tables && link.child in m.deleteOrder
      && !Foundational(link.child, schema)
    ensures Spared(tables, Cleared(tables, m.Keeps(), link), schema, m)
  {
  }

  lemma DeletionSpares(tables: Tables, schema: string, m: Manifest, table: string)
    requires table in tables && table in m.deleteOrder && !Foundational(table, schema)
    ensures Spared(tables, DeletedFrom(tables, m.Keeps(), table), schema, m)
  {
  }

  method TruncateGroup(db: Database, schema: string, m: Manifest) returns (r: Result<(), ResetError>)
    requires db.Valid()
    modifies db
    ensures db.Valid()
    ensures r.Ok? <==> old(GroupAccepted(db.tables, db.keys, schema, m))
    ensures db.tables == if r.Ok? then Emptied(old(db.tables), m.truncateTables) else old(db.tables)
    ensures Spared(old(db.tables), db.tables, schema, m)
  {
    if m.truncateTables != [] {
      r := CheckGroup(schema, m);
      if r.Err? {
        return;
      }
      ghost var before := db.tables;
      var ok := db.Truncate(m.truncateTables);
      if !ok {
        return Err(StatementRefused);
      }
      EmptiedSpares(before, schema, m);
    } else {
      NothingEmptied(db.tables);
    }
    r := Ok(());
  }

  lemma NothingEmptied(tables: Tables)
    ensures Emptied(tables, []) == tables
  {
  }

  lemma EmptiedSpares(tables: Tables, schema: string, m: Manifest)
    requires forall t :: t in m.truncateTables ==> Truncatable(schema, m, t)
    ensures Spared(tables, Emptied(tables, m.truncateTables), schema, m)
  {
  }

  method CheckGroup(schema: string, m: Manifest) returns (r: Result<(), ResetError>)
    ensures r.Ok? <==> forall t :: t in m.truncateTables ==> Truncatable(schema, m, t)
    ensures r.Err? ==> r.error == TruncatePreservedTable
  {
    for i := 0 to |m.truncateTables|
      invariant forall k :: 0 <= k < i ==> Truncatable(schema, m, m.truncateTables[k])
    {
      var table := m.truncateTables[i];
      if !SafeIdentifier(table) || Foundational(table, schema) || HoldsIdentities(table)
        || table in m.deleteOrder || table in m.retainedTables {
        assert !Truncatable(schema, m, table);
        return Err(TruncatePreservedTable);
      }
    }
    r := Ok(());
  }

  predicate LinkAccepted(schema: string, m: Manifest, link: ClearLink) {
    && link.child in m.deleteOrder && link.parent in m.deleteOrder
    && !Foundational(link.child, schema) && SafeIdentifier(link.child) && SafeIdentifier(link.parent)
    && forall c :: c in link.clearColumns + link.childColumns + link.parentColumns ==> SafeIdentifier(c)
  }

  lemma ReviewedLinkAccepted(tables: Tables, keys: seq<ForeignKey>, schema: string, m: Manifest, link: ClearLink)
    requires Catalogued(tables, keys) && Reviewed(tables, keys, schema, m) && link in m.clears
    ensures LinkAccepted(schema, m, link) && link.child in tables && link.parent in tables
  {
    assert LinkReviewed(keys, m, link);
    assert link.child in m.truncateTables + m.deleteOrder && link.parent in m.truncateTables + m.deleteOrder;
  }

  /** One link of the manifest: checked, then cleared unless the database refuses. */
  method ClearOneLink(db: Database, schema: string, m: Manifest, link: ClearLink) returns (r: Result<(), ResetError>)
    requires db.Valid()
    modifies db
    ensures db.Valid() && Spared(old(db.tables), db.tables, schema, m)
    ensures r.Ok? <==> LinkAccepted(schema, m, link) && old(link.child in db.tables && link.parent in db.tables
      && Intact(Cleared(db.tables, m.Keeps(), link), db.keys) && IdentitiesSet(Cleared(db.tables, m.Keeps(), link)))
    ensures r.Err? ==> db.tables == old(db.tables) && r.error == if LinkAccepted(schema, m, link) then StatementRefused
      else NullableLinkInvalid
    ensures r.Ok? ==> db.tables == Cleared(old(db.tables), m.Keeps(), link)
  {
    if !LinkAccepted(schema, m, link) {
      return Err(NullableLinkInvalid);
    }
    ghost var before := db.tables;
    var ok := db.ClearLinks(link, m.Keeps());
    if !ok {
      return Err(StatementRefused);
    }
    ClearSpares(before, schema, m, link);
    r := Ok(());
  }

  /** The tables after the first `n` clears; a link between unknown tables changes nothing. */
  ghost function AfterClears(tables: Tables, keep: Keep, links: seq<ClearLink>, n: nat): (r: Tables)
    requires n <= |links|
    ensures r.Keys == tables.Keys
  {
    if n == 0 then tables else ClearedIfThere(AfterClears(tables, keep, links, n - 1), keep, links[n - 1])
  }

  ghost function ClearedIfThere(tables: Tables, keep: Keep, link: ClearLink): (r: Tables)
    ensures r.Keys == tables.Keys
  {
    if link.child in tables && link.parent in tables then Cleared(tables, keep, link) else tables
  }

  ghost predicate SoundState(tables: Tables, keys: seq<ForeignKey>) {
    Catalogued(tables, keys) && Intact(tables, keys) && KeysUnique(tables, keys) && IdentitiesSet(tables)
  }

  /** Every state the first `n` clears pass through is sound. */
  ghost predicate AllSound(tables: Tables, keys: seq<ForeignKey>, m: Manifest, n: nat)
    requires n <= |m.clears|
  {
    SoundState(AfterClears(tables, m.Keeps(), m.clears, n), keys) && (n > 0 ==> AllSound(tables, keys, m, n - 1))
  }

  /** The clear is allowed by the manifest and accepted by the database. */
  ghost predicate ClearPasses(tables: Tables, keys: seq<ForeignKey>, schema: string, m: Manifest, link: ClearLink)
    requires Catalogued(tables, keys)
  {
    LinkAccepted(schema, m, link) && link.child in tables && link.parent in tables
    && Intact(Cleared(tables, m.Keeps(), link), keys) && IdentitiesSet(Cleared(tables, m.Keeps(), link))
  }

  /** Clears the links one after another up to the first refusal; `done` counts the clears made. */
  method ClearAll(db: Database, schema: string, m: Manifest) returns (r: Result<(), ResetError>, ghost done: nat)
    requires db.Valid()
    modifies db
    ensures db.Valid()
    ensures done <= |m.clears| && db.tables == AfterClears(old(db.tables), m.Keeps(), m.clears, done)
    ensures AcceptedUpTo(schema, m, done)
    ensures AllSound(old(db.tables), db.keys, m, done)
    ensures r.Ok? ==> done == |m.clears|
    ensures r.Err? ==> done < |m.clears| && !ClearPasses(db.tables, db.keys, schema, m, m.clears[done])
  {
    ghost var start := db.tables;
    done := 0;
    for i := 0 to |m.clears|
      invariant db.Valid() && done == i && AcceptedUpTo(schema, m, i)
      invariant db.tables == AfterClears(start, m.Keeps(), m.clears, i)
      invariant AllSound(start, db.keys, m, i)
    {
      r := ClearOneLink(db, schema, m, m.clears[i]);
      if r.Err? {
        return;
      }
      done := done + 1;
    }
    r := Ok(());
  }

  ghost predicate AcceptedUpTo(schema: string, m: Manifest, i: nat)
    requires i <= |m.clears|
  {
    i > 0 ==> AcceptedUpTo(schema, m, i - 1) && LinkAccepted(schema, m, m.clears[i - 1])
  }

  /** What the clears need of a review: allowed links over existing tables, each for a key of the catalogue. */
  ghost predicate ClearsReviewed(t1: Tables, keys: seq<ForeignKey>, schema: string, m: Manifest) {
    && Catalogued(t1, keys) && IdentitiesFixed(keys)
    && forall k :: 0 <= k < |m.clears| ==>
      && LinkReviewed(keys, m, m.clears[k]) && LinkAccepted(schema, m, m.clears[k])
      && m.clears[k].child in t1 && m.clears[k].parent in t1
  }

  ghost predicate Progress(t1: Tables, now: Tables, keys: seq<ForeignKey>, schema: string, m: Manifest, i: nat)
    requires i <= |m.clears|
  {
    ClearsReviewed(t1, keys, schema, m) && ClearProgress(t1, now, keys, m, i)
  }

  /** One clear of a reviewed manifest: it is allowed, and goes through unless the clears are unsafe. */
  lemma ReviewedStep(t1: Tables, before: Tables, keys: seq<ForeignKey>, schema: string, m: Manifest, i: nat)
    requires i < |m.clears| && Progress(t1, before, keys, schema, m, i) && SoundState(before, keys)
    ensures LinkAccepted(schema, m, m.clears[i]) && m.clears[i].child in before && m.clears[i].parent in before
    ensures var after := Cleared(before, m.Keeps(), m.clears[i]);
      if Intact(after, keys) && IdentitiesSet(after) then Progress(t1, after, keys, schema, m, i + 1)
      else !ClearsGoThrough(t1, keys, m.Keeps(), m.clears)
  {
    ClearStep(t1, before, keys, m, i);
  }

  lemma AllClearsDone(t0: Tables, t1: Tables, now: Tables, keys: seq<ForeignKey>, schema: string, m: Manifest)
    requires ReviewedStart(t1, keys, schema, m, t0) && Progress(t1, now, keys, schema, m, |m.clears|)
    ensures Shrunk(m, t1, now) && Deletable(now, keys, m) && ClearsGoThrough(t1, keys, m.Keeps(), m.clears)
  {
    assert m.clears[|m.clears|..] == [];
    DeletableAfterClears(t0, t1, now, keys, schema, m);
  }

  /** Where a reviewed manifest's clears stop: past the last one exactly when they are safe. */
  lemma ClearsStop(t0: Tables, t1: Tables, keys: seq<ForeignKey>, schema: string, m: Manifest, done: nat)
    requires done <= |m.clears| && ReviewedStart(t1, keys, schema, m, t0) && SoundState(t1, keys)
    requires AllSound(t1, keys, m, done)
    requires done < |m.clears| ==>
      !ClearPasses(AfterClears(t1, m.Keeps(), m.clears, done), keys, schema, m, m.clears[done])
    ensures done == |m.clears| <==> ClearsGoThrough(t1, keys, m.Keeps(), m.clears)
    ensures done == |m.clears| ==>
      Shrunk(m, t1, AfterClears(t1, m.Keeps(), m.clears, done))
        && Deletable(AfterClears(t1, m.Keeps(), m.clears, done), keys, m)
  {
    ProgressStarts(t0, t1, keys, schema, m);
    SoundProgress(t1, keys, schema, m, done);
    var now := AfterClears(t1, m.Keeps(), m.clears, done);
    if done < |m.clears| {
      ReviewedStep(t1, now, keys, schema, m, done);
    } else {
      AllClearsDone(t0, t1, now, keys, schema, m);
    }
  }

  lemma SoundProgress(t1: Tables, keys: seq<ForeignKey>, schema: string, m: Manifest, n: nat)
    requires n <= |m.clears| && Progress(t1, t1, keys, schema, m, 0) && AllSound(t1, keys, m, n)
    ensures Progress(t1, AfterClears(t1, m.Keeps(), m.clears, n), keys, schema, m, n)
  {
    var P := (now: Tables, i: nat) => i <= |m.clears| && Progress(t1, now, keys, schema, m, i);
    forall before: Tables, i: nat |
      i < |m.clears| && P(before, i)
      && SoundState(before, keys) && SoundState(ClearedIfThere(before, m.Keeps(), m.clears[i]), keys)
      ensures P(ClearedIfThere(before, m.Keeps(), m.clears[i]), i + 1)
    {
      SoundStep(t1, before, keys, schema, m, i);
    }
    SoundClearsKeep(P, t1, keys, m, n);
  }

  /** Whatever every sound clear keeps holds after any number of sound clears. */
  lemma {:induction false} SoundClearsKeep(
      P: (Tables, nat) -> bool, tables: Tables, keys: seq<ForeignKey>, m: Manifest, n: nat)
    requires n <= |m.clears| && P(tables, 0) && AllSound(tables, keys, m, n)
    requires forall before: Tables, i: nat ::
      i < |m.clears| && P(before, i)
      && SoundState(before, keys) && SoundState(ClearedIfThere(before, m.Keeps(), m.clears[i]), keys) ==>
      P(ClearedIfThere(before, m.Keeps(), m.clears[i]), i + 1)
    ensures P(AfterClears(tables, m.Keeps(), m.clears, n), n)
  {
    if n > 0 {
      SoundClearsKeep(P, tables, keys, m, n - 1);
      var before := AfterClears(tables, m.Keeps(), m.clears, n - 1);
      assert P(before, n - 1) && SoundState(before, keys);
    }
  }

  lemma ProgressStarts(t0: Tables, t1: Tables, keys: seq<ForeignKey>, schema: string, m: Manifest)
    requires ReviewedStart(t1, keys, schema, m, t0)
    ensures Progress(t1, t1, keys, schema, m, 0)
  {
    assert m.clears[0..] == m.clears;
    forall k | 0 <= k < |m.clears|
      ensures LinkReviewed(keys, m, m.clears[k]) && LinkAccepted(schema, m, m.clears[k])
      ensures m.clears[k].child in t1 && m.clears[k].parent in t1
    {
      ReviewedLinkAccepted(t0, keys, schema, m, m.clears[k]);
    }
  }

  lemma SoundStep(t1: Tables, before: Tables, keys: seq<ForeignKey>, schema: string, m: Manifest, i: nat)
    requires i < |m.clears| && Progress(t1, before, keys, schema, m, i)
    requires SoundState(before, keys) && SoundState(ClearedIfThere(before, m.Keeps(), m.clears[i]), keys)
    ensures Progress(t1, ClearedIfThere(before, m.Keeps(), m.clears[i]), keys, schema, m, i + 1)
  {
    assert LinkReviewed(keys, m, m.clears[i]) && m.clears[i].child in before && m.clears[i].parent in before;
    ClearStep(t1, before, keys, m, i);
  }

  lemma {:induction false} ClearsSpare(tables: Tables, schema: string, m: Manifest, n: nat)
    requires n <= |m.clears| && AcceptedUpTo(schema, m, n)
    ensures Spared(tables, AfterClears(tables, m.Keeps(), m.clears, n), schema, m)
  {
    if n > 0 {
      ClearsSpare(tables, schema, m, n - 1);
      var before, link := AfterClears(tables, m.Keeps(), m.clears, n - 1), m.clears[n - 1];
      if link.child in before && link.parent in before {
        ClearSpares(before, schema, m, link);
        SparedTransitive(tables, before, Cleared(before, m.Keeps(), link), schema, m);
      }
    }
  }

  ghost predicate ReviewedStart(t1: Tables, keys: seq<ForeignKey>, schema: string, m: Manifest, t0: Tables)
  {
    && Catalogued(t0, keys) && IdentitiesFixed(keys) && t1 == Emptied(t0, m.truncateTables)
    && Reviewed(t0, keys, schema, m)
  }

  /** What holds before clear `i`: rows only shrank, earlier keys are clear, the rest decides. */
  ghost predicate ClearProgress(t1: Tables, now: Tables, keys: seq<ForeignKey>, m: Manifest, i: nat)
    requires i <= |m.clears|
    requires Catalogued(t1, keys) && forall k :: 0 <= k < |m.clears| ==>
      m.clears[k].child in t1 && m.clears[k].parent in t1
  {
    && Shrunk(m, t1, now)
    && (forall k, fk :: 0 <= k < i && fk in keys && ClearsKey(m.clears[k], fk) ==> !DoomedLink(now, m.Keeps(), fk))
    && (ClearsSafe(t1, keys, m.Keeps(), m.clears) <==> ClearsSafe(now, keys, m.Keeps(), m.clears[i..]))
  }

  lemma ClearStep(t1: Tables, before: Tables, keys: seq<ForeignKey>, m: Manifest, i: nat)
    requires i < |m.clears| && Catalogued(t1, keys) && IdentitiesFixed(keys)
    requires forall k :: 0 <= k < |m.clears| ==> m.clears[k].child in t1 && m.clears[k].parent in t1
    requires forall k :: 0 <= k < |m.clears| ==> LinkReviewed(keys, m, m.clears[k])
    requires ClearProgress(t1, before, keys, m, i)
    requires Intact(before, keys) && KeysUnique(before, keys) && IdentitiesSet(before)
    ensures var after := Cleared(before, m.Keeps(), m.clears[i]);
      var passes := Intact(after, keys) && IdentitiesSet(after);
      && (passes ==> ClearProgress(t1, after, keys, m, i + 1))
      && (!passes ==> !ClearsSafe(t1, keys, m.Keeps(), m.clears))
  {
    var link := m.clears[i];
    assert m.clears[i..][0] == link && m.clears[i..][1..] == m.clears[i + 1..];
    IdentityKept(keys, m, link);
    ClearedIdentitiesSet(before, m.Keeps(), link);
    ClearIntactIffSafe(before, keys, m.Keeps(), link);
    NextClear(t1, before, keys, m, i);
  }

  method DeleteOneTable(db: Database, schema: string, m: Manifest, table: string) returns (r: Result<(), ResetError>)
    requires db.Valid() && table in m.deleteOrder
    modifies db
    ensures db.Valid() && Spared(old(db.tables), db.tables, schema, m)
    ensures r.Ok? <==> old(DeleteAccepted(db.tables, schema, table)
      && Intact(DeletedFrom(db.tables, m.Keeps(), table), db.keys))
    ensures r.Ok? ==> db.tables == DeletedFrom(old(db.tables), m.Keeps(), table)
    ensures r.Err? ==> db.tables == old(db.tables)
  {
    if !SafeIdentifier(table) || Foundational(table, schema) {
      return Err(TableManifestInvalid);
    }
    ghost var before := db.tables;
    var ok := db.DeleteRows(table, m.Keeps());
    if !ok {
      return Err(StatementRefused);
    }
    DeletionSpares(before, schema, m, table);
    r := Ok(());
  }

  /** The tables after the first `n` deletions of the order. */
  ghost function AfterDeletes(tables: Tables, keep: Keep, order: seq<string>, n: nat): (r: Tables)
    requires n <= |order|
    ensures r.Keys == tables.Keys
  {
    if n == 0 then tables
    else
      var before := AfterDeletes(tables, keep, order, n - 1);
      if order[n - 1] in before then DeletedFrom(before, keep, order[n - 1]) else before
  }

  ghost predicate DeletePasses(tables: Tables, keys: seq<ForeignKey>, schema: string, m: Manifest, table: string)
    requires Catalogued(tables, keys)
  {
    DeleteAccepted(tables, schema, table) && Intact(DeletedFrom(tables, m.Keeps(), table), keys)
  }

  /** Deletes along the order up to the first refusal; `done` counts the tables handled. */
  method DeleteAll(db: Database, schema: string, m: Manifest) returns (r: Result<(), ResetError>, ghost done: nat)
    requires db.Valid()
    modifies db
    ensures db.Valid()
    ensures done <= |m.deleteOrder| && db.tables == AfterDeletes(old(db.tables), m.Keeps(), m.deleteOrder, done)
    ensures DeletesAccepted(old(db.tables), schema, m, done)
    ensures r.Ok? ==> done == |m.deleteOrder|
    ensures r.Err? ==>
      done < |m.deleteOrder| && !DeletePasses(db.tables, db.keys, schema, m, m.deleteOrder[done])
  {
    ghost var start := db.tables;
    done := 0;
    for i := 0 to |m.deleteOrder|
      invariant db.Valid() && done == i && DeletesAccepted(start, schema, m, i)
      invariant db.tables == AfterDeletes(start, m.Keeps(), m.deleteOrder, i)
    {
      r := DeleteOneTable(db, schema, m, m.deleteOrder[i]);
      if r.Err? {
        return;
      }
      done := done + 1;
    }
    r := Ok(());
  }

  ghost predicate DeletesAccepted(tables: Tables, schema: string, m: Manifest, n: nat)
    requires n <= |m.deleteOrder|
  {
    n > 0 ==> DeletesAccepted(tables, schema, m, n - 1) && DeleteAccepted(tables, schema, m.deleteOrder[n - 1])
  }

  lemma {:induction false} DeletesSpare(tables: Tables, schema: string, m: Manifest, n: nat)
    requires n <= |m.deleteOrder| && DeletesAccepted(tables, schema, m, n)
    ensures Spared(tables, AfterDeletes(tables, m.Keeps(), m.deleteOrder, n), schema, m)
  {
    if n > 0 {
      DeletesSpare(tables, schema, m, n - 1);
      var before, table := AfterDeletes(tables, m.Keeps(), m.deleteOrder, n - 1), m.deleteOrder[n - 1];
      DeletionSpares(before, schema, m, table);
      SparedTransitive(tables, before, DeletedFrom(before, m.Keeps(), table), schema, m);
    }
  }

  lemma {:induction false} DeletesAreDeletedAll(tables: Tables, keep: Keep, order: seq<string>, n: nat)
    requires n <= |order| && Distinct(order) && forall t :: t in order ==> t in tables
    ensures AfterDeletes(tables, keep, order, n) == DeletedAll(tables, keep, order[..n])
  {
    if n == 0 {
      NothingDeleted(tables, keep);
    } else {
      DeletesAreDeletedAll(tables, keep, order, n - 1);
      OneMoreDeleted(tables, keep, order, n, AfterDeletes(tables, keep, order, n - 1));
    }
  }

  lemma OneMoreDeleted(tables: Tables, keep: Keep, order: seq<string>, n: nat, before: Tables)
    requires 0 < n <= |order| && Distinct(order) && order[n - 1] in tables
    requires before == DeletedAll(tables, keep, order[..n - 1])
    ensures DeletedFrom(before, keep, order[n - 1]) == DeletedAll(tables, keep, order[..n])
  {
    NextDeletion(tables, keep, order, n - 1);
  }

  lemma NothingDeleted(tables: Tables, keep: Keep)
    ensures DeletedAll(tables, keep, []) == tables
  {
  }

  /** On a deletable state with an allowed order no deletion is ever refused. */
  lemma DeletesPass(tables: Tables, keys: seq<ForeignKey>, schema: string, m: Manifest, n: nat)
    requires Catalogued(tables, keys) && Intact(tables, keys) && Deletable(tables, keys, m)
      && OrderAccepted(tables, schema, m)
    requires n < |m.deleteOrder|
    ensures DeletePasses(AfterDeletes(tables, m.Keeps(), m.deleteOrder, n), keys, schema, m, m.deleteOrder[n])
  {
    assert DeleteAccepted(tables, schema, m.deleteOrder[n]);
    forall t | t in m.deleteOrder ensures t in tables {
      assert DeleteAccepted(tables, schema, t);
    }
    DeletesAreDeletedAll(tables, m.Keeps(), m.deleteOrder, n);
    NextDeletion(tables, m.Keeps(), m.deleteOrder, n);
    DeletionsIntact(tables, keys, m, n + 1);
  }

  predicate DeleteAccepted(tables: Tables, schema: string, table: string) {
    table in tables && SafeIdentifier(table) && !Foundational(table, schema)
  }

  predicate OrderAccepted(tables: Tables, schema: string, m: Manifest) {
    forall t :: t in m.deleteOrder ==> DeleteAccepted(tables, schema, t)
  }

  /**
   Runs a manifest. Whatever the manifest, no foreign key ever dangles and foundational tables,
   unlisted tables and preserved identities are spared. For a reviewed one the run succeeds exactly
   when its clears are safe, and it then ends in exactly the intended tables.
   */
  method Apply(db: Database, schema: string, m: Manifest) returns (r: Result<(), ResetError>)
    requires db.Valid()
    modifies db
    ensures db.Valid()
    ensures old(Reviewed(db.tables, db.keys, schema, m)) ==>
      (r.Ok? <==> old(ClearsGoThrough(Emptied(db.tables, m.truncateTables), db.keys, m.Keeps(), m.clears)))
    ensures old(Reviewed(db.tables, db.keys, schema, m)) && r.Ok? ==> db.tables == old(Intended(db.tables, m))
    ensures Spared(old(db.tables), db.tables, schema, m)
    ensures r.Ok? ==> ValidSchema(schema) && old(GroupAccepted(db.tables, db.keys, schema, m))
    ensures r.Ok? ==> AcceptedUpTo(schema, m, |m.clears|) && DeletesAccepted(old(db.tables), schema, m, |m.deleteOrder|)
  {
    ghost var t0, keys := db.tables, db.keys;
    if !ValidSchema(schema) {
      return Err(SchemaInvalid);
    }
    r := TruncateGroup(db, schema, m);
    if r.Err? {
      return;
    }
    ghost var t1 := db.tables;
    ghost var cleared, deleted;
    r, cleared := ClearAll(db, schema, m);
    ghost var t2 := db.tables;
    ClearPhase(t0, t1, t2, keys, schema, m, cleared);
    if r.Err? {
      return;
    }
    r, deleted := DeleteAll(db, schema, m);
    DeletePhase(t0, t1, t2, db.tables, keys, schema, m, deleted);
  }

  lemma ClearPhase(t0: Tables, t1: Tables, t2: Tables, keys: seq<ForeignKey>, schema: string, m: Manifest, done: nat)
    requires Catalogued(t0, keys) && IdentitiesFixed(keys) && t1 == Emptied(t0, m.truncateTables)
      && Spared(t0, t1, schema, m)
    requires done <= |m.clears| && AcceptedUpTo(schema, m, done) && AllSound(t1, keys, m, done) && SoundState(t1, keys)
    requires t2 == AfterClears(t1, m.Keeps(), m.clears, done)
    requires done < |m.clears| ==> !ClearPasses(t2, keys, schema, m, m.clears[done])
    ensures Spared(t0, t2, schema, m)
    ensures Reviewed(t0, keys, schema, m) ==> (done == |m.clears| <==> ClearsGoThrough(t1, keys, m.Keeps(), m.clears))
    ensures Reviewed(t0, keys, schema, m) && done == |m.clears| ==> Shrunk(m, t1, t2) && Deletable(t2, keys, m)
  {
    ClearsSpare(t1, schema, m, done);
    SparedTransitive(t0, t1, t2, schema, m);
    if Reviewed(t0, keys, schema, m) {
      ClearsStop(t0, t1, keys, schema, m, done);
    }
  }

  /** After the clears of a reviewed manifest every deletion passes and the last one leaves the intended tables. */
  lemma DeletePhase(
      t0: Tables, t1: Tables, t2: Tables, t3: Tables, keys: seq<ForeignKey>, schema: string, m: Manifest, done: nat)
    requires Catalogued(t0, keys) && IdentitiesFixed(keys) && t1 == Emptied(t0, m.truncateTables)
      && Spared(t0, t2, schema, m)
    requires Catalogued(t2, keys) && Intact(t2, keys)
    requires Reviewed(t0, keys, schema, m) ==> Shrunk(m, t1, t2) && Deletable(t2, keys, m)
    requires done <= |m.deleteOrder| && DeletesAccepted(t2, schema, m, done)
      && t3 == AfterDeletes(t2, m.Keeps(), m.deleteOrder, done)
    requires Catalogued(t3, keys)
      && (done < |m.deleteOrder| ==> !DeletePasses(t3, keys, schema, m, m.deleteOrder[done]))
    ensures Spared(t0, t3, schema, m) && DeletesAccepted(t0, schema, m, done)
    ensures Reviewed(t0, keys, schema, m) ==> done == |m.deleteOrder| && t3 == Intended(t0, m)
  {
    DeletesSpare(t2, schema, m, done);
    SparedTransitive(t0, t2, t3, schema, m);
    SameAccepted(t0, t2, schema, m, done);
    if Reviewed(t0, keys, schema, m) {
      ReviewedDeletes(t0, t1, t2, keys, schema, m, done);
    }
  }

  lemma {:induction false} SameAccepted(a: Tables, b: Tables, schema: string, m: Manifest, n: nat)
    requires a.Keys == b.Keys && n <= |m.deleteOrder| && DeletesAccepted(b, schema, m, n)
    ensures DeletesAccepted(a, schema, m, n)
  {
    if n > 0 {
      SameAccepted(a, b, schema, m, n - 1);
    }
  }

  lemma ReviewedDeletes(
      t0: Tables, t1: Tables, t2: Tables, keys: seq<ForeignKey>, schema: string, m: Manifest, done: nat)
    requires ReviewedStart(t1, keys, schema, m, t0) && Shrunk(m, t1, t2)
    requires Catalogued(t2, keys) && Intact(t2, keys) && Deletable(t2, keys, m) && done <= |m.deleteOrder|
    ensures done < |m.deleteOrder| ==>
      DeletePasses(AfterDeletes(t2, m.Keeps(), m.deleteOrder, done), keys, schema, m, m.deleteOrder[done])
    ensures AfterDeletes(t2, m.Keeps(), m.deleteOrder, |m.deleteOrder|) == Intended(t0, m)
  {
    forall t | t in m.deleteOrder ensures DeleteAccepted(t2, schema, t) {
      assert t in m.truncateTables + m.deleteOrder;
    }
    if done < |m.deleteOrder| {
      DeletesPass(t2, keys, schema, m, done);
    }
    AllDeleted(t2, m.Keeps(), m.deleteOrder);
    DeletionsEndAsIntended(t0, t1, t2, keys, schema, m);
  }

  lemma AllDeleted(tables: Tables, keep: Keep, order: seq<string>)
    requires Distinct(order) && forall t :: t in order ==> t in tables
    ensures AfterDeletes(tables, keep, order, |order|) == DeletedAll(tables, keep, order)
  {
    DeletesAreDeletedAll(tables, keep, order, |order|);
    assert order[..|order|] == order;
  }

  lemma NextDeletion(tables: Tables, keep: Keep, order: seq<string>, j: nat)
    requires j < |order| && Distinct(order) && order[j] in tables
    ensures DeletedFrom(DeletedAll(tables, keep, order[..j]), keep, order[j])
      == DeletedAll(tables, keep, order[..j + 1])
  {
    assert order[..j + 1] == order[..j] + [order[j]];
    assert order[j] !in order[..j];
  }

  lemma NextClear(t1: Tables, before: Tables, keys: seq<ForeignKey>, m: Manifest, i: nat)
    requires Catalogued(before, keys) && IdentitiesFixed(keys)
    requires i < |m.clears| && LinkReviewed(keys, m, m.clears[i])
    requires m.clears[i].child in before && m.clears[i].parent in before
    requires Shrunk(m, t1, before)
    requires forall k, fk :: 0 <= k < i && fk in keys && ClearsKey(m.clears[k], fk) ==>
      !DoomedLink(before, m.Keeps(), fk)
    ensures var after := Cleared(before, m.Keeps(), m.clears[i]);
      && Shrunk(m, t1, after)
      && forall k, fk :: 0 <= k <= i && fk in keys && ClearsKey(m.clears[k], fk) ==> !DoomedLink(after, m.Keeps(), fk)
  {
    var after := Cleared(before, m.Keeps(), m.clears[i]);
    IdentityKept(keys, m, m.clears[i]);
    ClearShrinks(before, m, m.clears[i]);
    ShrunkTransitive(m, t1, before, after);
    forall k, fk | 0 <= k <= i && fk in keys && ClearsKey(m.clears[k], fk) ensures !DoomedLink(after, m.Keeps(), fk) {
      if k == i {
        ClearRemovesLink(before, m, m.clears[i], fk);
      } else if DoomedLink(after, m.Keeps(), fk) {
        DoomedLinkShrinks(m, before, after, fk);
      }
    }
  }
}
