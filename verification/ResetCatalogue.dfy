/**
 How far the catalogue decides whether a clear can go wrong. A clear that the catalogue does not make
 safe goes wrong on some sound state: the one with a single row per table and one value everywhere.
 */
module ResetCatalogue {
  import opened Sums
  import opened ResetOrder
  import opened ResetDatabase
  import opened ResetApply

  /** Some of the columns of a MATCH FULL reference are cleared, and some are not. */
  ghost predicate HalfNulls(fk: ForeignKey, link: ClearLink) {
    && fk.child == link.child && fk.matching == MatchFull
    && (exists c :: c in fk.childColumns && c in link.clearColumns)
    && (exists c :: c in fk.childColumns && c !in link.clearColumns)
  }

  /** A column that `fk` refers to is cleared. */
  ghost predicate Erases(fk: ForeignKey, link: ClearLink) {
    fk.parent == link.child && exists c :: c in fk.parentColumns && c in link.clearColumns
  }

  /** The clear also takes columns `fk` refers from: its own rows may lose key and reference together. */
  ghost predicate ErasesItself(fk: ForeignKey, link: ClearLink) {
    Erases(fk, link) && fk.child == link.child && exists c :: c in fk.childColumns && c in link.clearColumns
  }

  lemma SchemaSafeIs(keys: seq<ForeignKey>, link: ClearLink)
    ensures SchemaSafe(keys, link) <==> forall fk :: fk in keys ==> !HalfNulls(fk, link) && !Erases(fk, link)
  {
  }

  // ---------------------------------------------------------------- the uniform state

  function ColumnsOf(keys: seq<ForeignKey>): set<string> {
    {"id", "user_id"} + set fk, c | fk in keys && c in fk.childColumns + fk.parentColumns :: c
  }

  function UniformRow(keys: seq<ForeignKey>, v: int): Row {
    map c | c in ColumnsOf(keys) :: v
  }

  /** One row per table, with the value `v` in every column that any key or identity uses. */
  function Uniform(names: set<string>, keys: seq<ForeignKey>, v: int): Tables {
    map t | t in names :: map[0 := UniformRow(keys, v)]
  }

  predicate KeysOver(names: set<string>, keys: seq<ForeignKey>) {
    forall fk :: fk in keys ==> WellFormed(fk) && fk.child in names && fk.parent in names
  }

  lemma UniformReferences(keys: seq<ForeignKey>, v: int, fk: ForeignKey)
    requires fk in keys && WellFormed(fk)
    ensures forall c :: c in fk.childColumns + fk.parentColumns ==> c in UniformRow(keys, v)
    ensures References(fk, UniformRow(keys, v), UniformRow(keys, v))
  {
    forall c | c in fk.childColumns + fk.parentColumns ensures c in ColumnsOf(keys) {
    }
    forall k | 0 <= k < |fk.childColumns|
      ensures fk.childColumns[k] in ColumnsOf(keys) && fk.parentColumns[k] in ColumnsOf(keys)
    {
      assert fk.childColumns[k] in fk.childColumns + fk.parentColumns;
      assert fk.parentColumns[k] in fk.childColumns + fk.parentColumns;
    }
  }

  lemma UniformSound(names: set<string>, keys: seq<ForeignKey>, v: int)
    requires KeysOver(names, keys)
    ensures SoundState(Uniform(names, keys, v), keys)
  {
    var tables := Uniform(names, keys, v);
    forall fk, id | fk in keys && id in tables[fk.child] ensures Satisfied(tables, fk, tables[fk.child][id]) {
      UniformReferences(keys, v, fk);
      assert References(fk, tables[fk.child][id], tables[fk.parent][0]);
    }
  }

  lemma UniformHit(names: set<string>, keys: seq<ForeignKey>, v: int, keep: Keep, fk: ForeignKey, link: ClearLink)
    requires KeysOver(names, keys) && fk in keys && ClearsKey(link, fk)
    requires v !in keep.users && v !in keep.employees
    ensures Hit(Uniform(names, keys, v), keep, link, UniformRow(keys, v))
  {
    UniformReferences(keys, v, fk);
    var tables := Uniform(names, keys, v);
    assert Joined(link, UniformRow(keys, v), tables[link.parent][0]);
  }

  // ---------------------------------------------------------------- the converse

  lemma HalfOfRowIsNull(keys: seq<ForeignKey>, v: int, link: ClearLink, fk: ForeignKey)
    requires fk in keys && WellFormed(fk) && HalfNulls(fk, link)
    ensures var left := UniformRow(keys, v) - Members(link.clearColumns);
      AnyNull(fk.childColumns, left) && !AllNull(fk.childColumns, left)
  {
    UniformReferences(keys, v, fk);
    var left := UniformRow(keys, v) - Members(link.clearColumns);
    var c :| c in fk.childColumns && c in link.clearColumns;
    var d :| d in fk.childColumns && d !in link.clearColumns;
    var i :| 0 <= i < |fk.childColumns| && fk.childColumns[i] == c;
    var j :| 0 <= j < |fk.childColumns| && fk.childColumns[j] == d;
    assert d in fk.childColumns + fk.parentColumns;
    assert fk.childColumns[i] !in left && fk.childColumns[j] in left;
  }

  lemma HalfNullsSomewhere(
      names: set<string>, keys: seq<ForeignKey>, v: int, keep: Keep, link: ClearLink, fk: ForeignKey)
    requires KeysOver(names, keys) && fk in keys && HalfNulls(fk, link) && link.parent in names
    requires Hit(Uniform(names, keys, v), keep, link, UniformRow(keys, v))
    ensures !NoHalfNull(Uniform(names, keys, v), keys, keep, link)
  {
    HalfOfRowIsNull(keys, v, link, fk);
    assert Uniform(names, keys, v)[link.child][0] == UniformRow(keys, v);
  }

  lemma ErasesSomewhere(
      names: set<string>, keys: seq<ForeignKey>, v: int, keep: Keep, link: ClearLink, fk: ForeignKey)
    requires KeysOver(names, keys) && fk in keys && Erases(fk, link) && !ErasesItself(fk, link) && link.parent in names
    requires Hit(Uniform(names, keys, v), keep, link, UniformRow(keys, v))
    ensures Catalogued(Uniform(names, keys, v), keys) && !NoErasedKey(Uniform(names, keys, v), keys, keep, link)
  {
    UniformReferences(keys, v, fk);
    var tables := Uniform(names, keys, v);
    var next := Cleared(tables, keep, link);
    assert tables[link.child][0] == UniformRow(keys, v);
    assert 0 in next[fk.child];
    assert References(fk, next[fk.child][0], tables[link.child][0]);
  }

  ghost predicate UnsafeOn(
      tables: Tables, names: set<string>, keys: seq<ForeignKey>, keep: Keep, link: ClearLink)
  {
    && tables.Keys == names && SoundState(tables, keys) && link.child in tables && link.parent in tables
    && !ClearSafe(tables, keys, keep, link)
  }

  /** Whatever is preserved, every sound state over the catalogue lets the clear through. */
  ghost predicate SafeEverywhere(names: set<string>, keys: seq<ForeignKey>, keep: Keep, link: ClearLink) {
    forall tables :: !UnsafeOn(tables, names, keys, keep, link)
  }

  lemma UnsafeSomewhere(
      names: set<string>, keys: seq<ForeignKey>, keep: Keep, cleared: ForeignKey, link: ClearLink, fk: ForeignKey)
    requires KeysOver(names, keys) && cleared in keys && ClearsKey(link, cleared) && fk in keys
    requires HalfNulls(fk, link) || (Erases(fk, link) && !ErasesItself(fk, link))
    ensures !SafeEverywhere(names, keys, keep, link)
  {
    var v := NewIdExists(keep.users + keep.employees);
    UniformHit(names, keys, v, keep, cleared, link);
    if HalfNulls(fk, link) {
      HalfNullsSomewhere(names, keys, v, keep, link, fk);
    } else {
      ErasesSomewhere(names, keys, v, keep, link, fk);
    }
    UniformIsUnsafe(names, keys, v, keep, link);
  }

  lemma UniformIsUnsafe(names: set<string>, keys: seq<ForeignKey>, v: int, keep: Keep, link: ClearLink)
    requires KeysOver(names, keys) && link.child in names && link.parent in names
    requires Catalogued(Uniform(names, keys, v), keys) ==> !ClearSafe(Uniform(names, keys, v), keys, keep, link)
    ensures !SafeEverywhere(names, keys, keep, link)
  {
    UniformSound(names, keys, v);
    assert UnsafeOn(Uniform(names, keys, v), names, keys, keep, link);
  }

  /**
   The catalogue decides. For a catalogue without keys that a clear erases together with what refers to
   them, a clear is safe on every sound state exactly when it is `SchemaSafe`; with such keys, it still
   must not half-null any reference nor erase any other key.
   */
  lemma CatalogueDecides(names: set<string>, keys: seq<ForeignKey>, keep: Keep, cleared: ForeignKey, link: ClearLink)
    requires KeysOver(names, keys) && cleared in keys && ClearsKey(link, cleared)
    ensures SchemaSafe(keys, link) ==> SafeEverywhere(names, keys, keep, link)
    ensures SafeEverywhere(names, keys, keep, link) ==>
      forall fk :: fk in keys ==> !HalfNulls(fk, link) && (Erases(fk, link) ==> ErasesItself(fk, link))
    ensures (forall fk :: fk in keys ==> !ErasesItself(fk, link)) ==>
      (SchemaSafe(keys, link) <==> SafeEverywhere(names, keys, keep, link))
  {
    SchemaSafeIs(keys, link);
    if SchemaSafe(keys, link) {
      forall tables | SoundState(tables, keys) && link.child in tables && link.parent in tables
        ensures ClearSafe(tables, keys, keep, link)
      {
        SchemaSafeSuffices(tables, keys, keep, link);
      }
    }
    if fk :| fk in keys && (HalfNulls(fk, link) || (Erases(fk, link) && !ErasesItself(fk, link))) {
      UnsafeSomewhere(names, keys, keep, cleared, link, fk);
    }
  }

  /** Keys of the third kind differ: one from columns to the same columns loses both at once, so nothing dangles. */
  lemma SameColumnsNeverDangle(tables: Tables, keys: seq<ForeignKey>, keep: Keep, link: ClearLink, fk: ForeignKey,
                               id: nat, c: nat)
    requires SoundState(tables, keys) && fk in keys && Erases(fk, link) && link.parent in tables
    requires fk.child == fk.parent && fk.childColumns == fk.parentColumns
    requires id in tables[fk.child] && Hit(tables, keep, link, tables[fk.child][id]) && c in tables[fk.child]
    ensures !References(fk, Cleared(tables, keep, link)[fk.child][c], tables[fk.child][id])
  {
    var next := Cleared(tables, keep, link);
    if c == id {
      var col :| col in fk.parentColumns && col in link.clearColumns;
      var k :| 0 <= k < |fk.childColumns| && fk.childColumns[k] == col;
      assert fk.childColumns[k] !in next[fk.child][id];
    } else {
      OtherRowDiffers(tables, keys, fk, id, c);
    }
  }

  lemma OtherRowDiffers(tables: Tables, keys: seq<ForeignKey>, fk: ForeignKey, id: nat, c: nat)
    requires Catalogued(tables, keys) && KeysUnique(tables, keys) && fk in keys && fk.child == fk.parent
    requires fk.childColumns == fk.parentColumns && id in tables[fk.child] && c in tables[fk.child] && c != id
    ensures exists k ::
      0 <= k < |fk.childColumns| && !SameAt(tables[fk.child][c], tables[fk.child][id], fk.childColumns[k])
  {
    assert !SameKey(fk, tables[fk.child][c], tables[fk.child][id]);
    var col :| col in fk.parentColumns && !SameAt(tables[fk.child][c], tables[fk.child][id], col);
    var k :| 0 <= k < |fk.childColumns| && fk.childColumns[k] == col;
  }

  predicate SameAt(a: Row, b: Row, c: string) {
    c in a && c in b && a[c] == b[c]
  }
}
