/**
 Asset lifecycle: categories, assets, allocations and return logs, changed by transactions that lock
 rows one after another, check what they read under each lock and commit at the end. Any number of
 them interleave lock by lock.
 */
module Assets {
  import opened Graphs
  import opened Outcomes
  import opened Sums

  datatype Status = Available | Assigned | Retired

  datatype Category = Category(name: string, active: bool)

  datatype Asset = Asset(category: int, name: string, location: Option<int>, status: Status)

  datatype Allocation = Allocation(asset: int, employee: int, active: bool, allocatedOn: int)

  datatype ReturnLog = ReturnLog(allocation: int, returnedOn: int)

  /** `locations` and `employees` say whether the row may be selected: not deleted, and for employees ACTIVE. */
  datatype Db = Db(
    categories: map<int, Category>, locations: map<int, bool>, assets: map<int, Asset>,
    allocations: map<int, Allocation>, logs: map<int, ReturnLog>, employees: map<int, bool>)

  datatype Op =
    | SaveCategory(editing: Option<int>, name: string)
    | RetireCategory(category: int)
    | SaveAsset(editing: Option<int>, category: int, name: string, location: Option<int>)
    | RetireAsset(asset: int)
    | Assign(asset: int, employee: int, on: int)
    | Return(allocation: int, on: int)

  // ---------------------------------------------------------------- locks

  datatype Lock =
    | CategoryRow(id: int)
    | LocationRow(id: int)
    | AllocationRow(id: int)
    | AssetRow(id: int)
    | EmployeeRow(id: int)

  /**
   `read` is the allocation a return found under its first lock; `counted` says a retirement counted
   nothing in its way.
   */
  datatype Txn = Txn(op: Op, held: seq<Lock>, read: Option<Allocation>, counted: bool)

  function Optional(row: int -> Lock, id: Option<int>): seq<Lock> {
    if id.Some? then [row(id.value)] else []
  }

  /** The locks of a transaction, in the order it requests them. */
  function Plan(t: Txn): seq<Lock> {
    match t.op
    case SaveCategory(editing, _) => Optional(c => CategoryRow(c), editing)
    case RetireCategory(c) => [CategoryRow(c)]
    case SaveAsset(editing, c, _, location) =>
      [CategoryRow(c)] + Optional(l => LocationRow(l), location) + Optional(a => AssetRow(a), editing)
    case RetireAsset(a) => [AssetRow(a)]
    case Assign(a, e, _) => [AssetRow(a), EmployeeRow(e)]
    case Return(x, _) => [AllocationRow(x)] + if t.read.Some? then [AssetRow(t.read.value.asset)] else []
  }

  function Wanted(t: Txn): Option<Lock> {
    if |t.held| < |Plan(t)| then Some(Plan(t)[|t.held|]) else None
  }

  predicate Shared(l: Lock) {
    l.LocationRow? || l.EmployeeRow?
  }

  predicate Conflict(a: Lock, b: Lock) {
    a == b && !Shared(a)
  }

  function Rank(l: Lock): nat {
    match l
    case CategoryRow(_) => 0
    case LocationRow(_) => 1
    case AllocationRow(_) => 2
    case AssetRow(_) => 3
    case EmployeeRow(_) => 4
  }

  // ---------------------------------------------------------------- checks and writes

  /** What a transaction checks of a row it has just locked. */
  predicate Passes(db: Db, op: Op, l: Lock) {
    match l
    case CategoryRow(c) => c in db.categories && db.categories[c].active
    case LocationRow(x) => x in db.locations && db.locations[x]
    case AllocationRow(x) => x in db.allocations && db.allocations[x].active && op.Return?
      && db.allocations[x].allocatedOn <= op.on
    case AssetRow(a) => a in db.assets && (op.Return? || db.assets[a].status.Available?)
    case EmployeeRow(e) => e in db.employees && db.employees[e]
  }

  /** The count of a retirement is zero; nothing else counts. */
  predicate Clear(db: Db, op: Op) {
    match op
    case RetireCategory(c) => forall a :: a in db.assets && db.assets[a].category == c ==> db.assets[a].status.Retired?
    case RetireAsset(a) => forall x :: x in db.allocations && db.allocations[x].active ==> db.allocations[x].asset != a
    case _ => true
  }

  predicate Counts(op: Op) {
    op.RetireCategory? || op.RetireAsset?
  }

  /** The rows a commit updates still exist, and the ids it inserts are new. */
  predicate Writable(db: Db, t: Txn, newId: int) {
    match t.op
    case SaveCategory(editing, _) => if editing.Some? then editing.value in db.categories else newId !in db.categories
    case RetireCategory(c) => c in db.categories
    case SaveAsset(editing, _, _, _) => if editing.Some? then editing.value in db.assets else newId !in db.assets
    case RetireAsset(a) => a in db.assets
    case Assign(a, _, _) => a in db.assets && newId !in db.allocations
    case Return(x, _) => x in db.allocations && newId !in db.logs && t.read.Some? && t.read.value.asset in db.assets
  }

  function Committed(db: Db, t: Txn, newId: int): Db
    requires Writable(db, t, newId)
  {
    match t.op
    case SaveCategory(editing, name) =>
      db.(categories := if editing.Some?
        then db.categories[editing.value := db.categories[editing.value].(name := name)]
                        else db.categories[newId := Category(name, true)])
    case RetireCategory(c) => db.(categories := db.categories[c := db.categories[c].(active := false)])
    case SaveAsset(editing, c, name, location) =>
      db.(assets := if editing.Some?
        then db.assets[editing.value := db.assets[editing.value].(category := c, name := name, location := location)]
                    else db.assets[newId := Asset(c, name, location, Available)])
    case RetireAsset(a) => WithStatus(db, a, Retired)
    case Assign(a, e, on) => Assigning(db, a, e, on, newId)
    case Return(x, on) =>
      WithStatus(db.(logs := db.logs[newId := ReturnLog(x, on)],
                     allocations := db.allocations[x := t.read.value.(active := false)]), t.read.value.asset, Available)
  }

  function Assigning(db: Db, a: int, e: int, on: int, newId: int): Db
    requires a in db.assets
  {
    WithStatus(db.(allocations := db.allocations[newId := Allocation(a, e, true, on)]), a, Assigned)
  }

  function WithStatus(db: Db, a: int, status: Status): Db
    requires a in db.assets
  {
    db.(assets := db.assets[a := db.assets[a].(status := status)])
  }

  // ---------------------------------------------------------------- interleaved transactions

  datatype System = System(db: Db, txns: map<int, Txn>)

  datatype Step =
    | Begin(t: int, op: Op)
    | Acquire(t: int)
    | Count(t: int)
    | Commit(t: int, newId: int)
    | End(t: int)
    | LocationTo(location: int, selectable: bool)
    | EmployeeTo(employee: int, selectable: bool)

  predicate Holds(s: System, t: int, l: Lock) {
    t in s.txns && l in s.txns[t].held
  }

  ghost predicate WaitsFor(s: System, t: int, u: int) {
    && t in s.txns && u in s.txns && t != u && Wanted(s.txns[t]).Some?
    && exists l :: l in s.txns[u].held && Conflict(l, Wanted(s.txns[t]).value)
  }

  ghost predicate Blocked(s: System, t: int) {
    exists u :: WaitsFor(s, t, u)
  }

  /** `End` is a failed check, an error, a lost client, or a retirement that finds its work already done. */
  ghost predicate CanStep(s: System, step: Step) {
    match step
    case Begin(t, _) => t !in s.txns
    case Acquire(t) => t in s.txns && Wanted(s.txns[t]).Some? && !Blocked(s, t)
      && Passes(s.db, s.txns[t].op, Wanted(s.txns[t]).value)
    case Count(t) => t in s.txns && Wanted(s.txns[t]).None? && Counts(s.txns[t].op) && Clear(s.db, s.txns[t].op)
    case Commit(t, newId) =>
      t in s.txns && Wanted(s.txns[t]).None? && (Counts(s.txns[t].op) ==> s.txns[t].counted)
        && Writable(s.db, s.txns[t], newId)
    case End(t) => t in s.txns
    case LocationTo(x, _) => forall t :: t in s.txns ==> !Holds(s, t, LocationRow(x))
    case EmployeeTo(e, _) => forall t :: t in s.txns ==> !Holds(s, t, EmployeeRow(e))
  }

  function Acquired(db: Db, t: Txn): Txn
    requires Wanted(t).Some? && Passes(db, t.op, Wanted(t).value)
  {
    var l := Wanted(t).value;
    t.(held := t.held + [l], read := if l.AllocationRow? then Some(db.allocations[l.id]) else t.read)
  }

  ghost function Do(s: System, step: Step): System
    requires CanStep(s, step)
  {
    match step
    case Begin(t, op) => s.(txns := s.txns[t := Txn(op, [], None, false)])
    case Acquire(t) => s.(txns := s.txns[t := Acquired(s.db, s.txns[t])])
    case Count(t) => s.(txns := s.txns[t := s.txns[t].(counted := true)])
    case Commit(t, newId) => System(Committed(s.db, s.txns[t], newId), s.txns - {t})
    case End(t) => s.(txns := s.txns - {t})
    case LocationTo(x, selectable) => s.(db := s.db.(locations := s.db.locations[x := selectable]))
    case EmployeeTo(e, selectable) => s.(db := s.db.(employees := s.db.employees[e := selectable]))
  }

  // ---------------------------------------------------------------- what every run keeps

  predicate ActiveOn(db: Db, a: int, x: int) {
    x in db.allocations && db.allocations[x].active && db.allocations[x].asset == a
  }

  predicate LogOf(db: Db, x: int, k: int) {
    k in db.logs && db.logs[k].allocation == x
  }

  /** An asset is ASSIGNED exactly while one active allocation names it, and never two. */
  ghost predicate AllocationsFit(db: Db) {
    && (forall x :: x in db.allocations ==> db.allocations[x].asset in db.assets)
    && (forall a :: a in db.assets ==> (db.assets[a].status.Assigned? <==> exists x :: ActiveOn(db, a, x)))
    && (forall a, x, y :: ActiveOn(db, a, x) && ActiveOn(db, a, y) ==> x == y)
  }

  /** A retired category holds retired assets only. */
  ghost predicate CategoriesFit(db: Db) {
    forall a :: a in db.assets ==> CategoryFits(db, a)
  }

  predicate CategoryFits(db: Db, a: int)
    requires a in db.assets
  {
    && db.assets[a].category in db.categories
    && (!db.categories[db.assets[a].category].active ==> db.assets[a].status.Retired?)
  }

  /** Returned allocations and return logs correspond one to one, with dates in order. */
  ghost predicate LogsFit(db: Db) {
    && (forall x :: x in db.allocations ==> (!db.allocations[x].active <==> exists k :: LogOf(db, x, k)))
    && (forall k :: k in db.logs ==>
          && db.logs[k].allocation in db.allocations
          && db.allocations[db.logs[k].allocation].allocatedOn <= db.logs[k].returnedOn)
    && (forall x, j, k :: LogOf(db, x, j) && LogOf(db, x, k) ==> j == k)
  }

  ghost predicate Consistent(db: Db) {
    AllocationsFit(db) && CategoriesFit(db) && LogsFit(db)
  }

  /** What a transaction checked under its locks is still true. */
  ghost predicate Sound(db: Db, t: Txn) {
    && t.held <= Plan(t)
    && (forall l :: l in t.held ==> Passes(db, t.op, l))
    && (t.read.Some? <==> t.op.Return? && t.held != [])
    && (t.read.Some? ==> t.op.allocation in db.allocations && t.read.value == db.allocations[t.op.allocation])
    && (t.counted ==> Wanted(t).None? && Clear(db, t.op))
  }

  ghost predicate Exclusive(s: System) {
    forall t, u, l :: Holds(s, t, l) && Holds(s, u, l) && !Shared(l) ==> t == u
  }

  ghost predicate Inv(s: System) {
    && Consistent(s.db)
    && Exclusive(s)
    && forall t :: t in s.txns ==> Sound(s.db, s.txns[t])
  }

  /** The transaction has passed every check and may write. */
  ghost predicate Ready(db: Db, t: Txn, newId: int) {
    Sound(db, t) && Wanted(t).None? && (Counts(t.op) ==> t.counted) && Writable(db, t, newId)
  }

  lemma HoldsItsPlan(db: Db, t: Txn, k: nat)
    requires Sound(db, t) && Wanted(t).None? && k < |Plan(t)|
    ensures Plan(t)[k] in t.held && Passes(db, t.op, Plan(t)[k])
  {
    assert t.held == Plan(t);
  }

  /** What the held locks guarantee of the rows about to be written. */
  lemma Locked(db: Db, t: Txn)
    requires Consistent(db) && Sound(db, t) && Wanted(t).None?
    ensures t.op.SaveCategory? && t.op.editing.Some? ==>
      t.op.editing.value in db.categories && db.categories[t.op.editing.value].active
    ensures t.op.RetireCategory? ==> t.op.category in db.categories && db.categories[t.op.category].active
    ensures t.op.SaveAsset? ==> t.op.category in db.categories && db.categories[t.op.category].active
    ensures t.op.SaveAsset? && t.op.location.Some? ==>
      t.op.location.value in db.locations && db.locations[t.op.location.value]
    ensures t.op.SaveAsset? && t.op.editing.Some? ==>
      t.op.editing.value in db.assets && db.assets[t.op.editing.value].status.Available?
    ensures t.op.RetireAsset? || t.op.Assign? ==> t.op.asset in db.assets && db.assets[t.op.asset].status.Available?
    ensures t.op.Assign? ==> t.op.employee in db.employees && db.employees[t.op.employee]
    ensures t.op.Return? ==>
      t.read.Some? && ActiveOn(db, t.read.value.asset, t.op.allocation) && t.read.value.allocatedOn <= t.op.on
    ensures t.op.Return? ==> t.read.value.asset in db.assets && db.assets[t.read.value.asset].status.Assigned?
  {
    forall k | 0 <= k < |Plan(t)| ensures Passes(db, t.op, Plan(t)[k]) { HoldsItsPlan(db, t, k); }
    if |Plan(t)| > 0 { assert Passes(db, t.op, Plan(t)[0]); }
    if |Plan(t)| > 1 { assert Passes(db, t.op, Plan(t)[1]); }
    if |Plan(t)| > 2 { assert Passes(db, t.op, Plan(t)[2]); }
    if t.op.Return? {
      assert ActiveOn(db, t.read.value.asset, t.op.allocation);
    }
  }

  /** What the held locks and the count guarantee of the rows about to be written. */
  predicate Granted(db: Db, t: Txn) {
    match t.op
    case SaveCategory(editing, _) =>
      editing.Some? ==> editing.value in db.categories && db.categories[editing.value].active
    case RetireCategory(c) => c in db.categories && db.categories[c].active && Clear(db, t.op)
    case SaveAsset(editing, c, _, location) =>
      && c in db.categories && db.categories[c].active
      && (location.Some? ==> location.value in db.locations && db.locations[location.value])
      && (editing.Some? ==> editing.value in db.assets && db.assets[editing.value].status.Available?)
    case RetireAsset(a) => a in db.assets && db.assets[a].status.Available? && Clear(db, t.op)
    case Assign(a, e, _) =>
      a in db.assets && db.assets[a].status.Available? && e in db.employees && db.employees[e]
    case Return(x, on) =>
      && t.read.Some? && ActiveOn(db, t.read.value.asset, x) && t.read.value.allocatedOn <= on
      && t.read.value == db.allocations[x]
      && t.read.value.asset in db.assets && db.assets[t.read.value.asset].status.Assigned?
  }

  lemma ReadyIsGranted(db: Db, t: Txn, newId: int)
    requires Consistent(db) && Ready(db, t, newId)
    ensures Granted(db, t) && Writable(db, t, newId)
  {
    Locked(db, t);
  }

  lemma AssignKeepsAllocations(db: Db, a: int, e: int, on: int, newId: int)
    requires AllocationsFit(db) && a in db.assets && db.assets[a].status.Available? && newId !in db.allocations
    ensures AllocationsFit(Assigning(db, a, e, on, newId))
  {
    var after := Assigning(db, a, e, on, newId);
    assert ActiveOn(after, a, newId);
    forall b, x ensures ActiveOn(after, b, x) <==> ActiveOn(db, b, x) || (b == a && x == newId) {
    }
    forall b | b in after.assets && b != a ensures after.assets[b] == db.assets[b] {
    }
    forall b, x | ActiveOn(db, b, x) ensures ActiveOn(after, b, x) && b != a {
      assert db.assets[b].status.Assigned?;
    }
  }

  /** A return that read the allocation as it is. */
  ghost function Returning(db: Db, x: int, on: int, newId: int): Db
    requires x in db.allocations && db.allocations[x].asset in db.assets
  {
    WithStatus(db.(logs := db.logs[newId := ReturnLog(x, on)],
                   allocations := db.allocations[x := db.allocations[x].(active := false)]),
               db.allocations[x].asset, Available)
  }

  lemma ReturnKeepsAllocations(db: Db, x: int, on: int, newId: int)
    requires AllocationsFit(db) && x in db.allocations && db.allocations[x].active
    ensures db.allocations[x].asset in db.assets && AllocationsFit(Returning(db, x, on, newId))
  {
    var after, a := Returning(db, x, on, newId), db.allocations[x].asset;
    assert ActiveOn(db, a, x);
    forall b, y ensures ActiveOn(after, b, y) <==> ActiveOn(db, b, y) && y != x {
    }
    forall b, y | ActiveOn(db, b, y) && y != x ensures ActiveOn(after, b, y) && b != a {
    }
  }

  /** An asset written without touching an allocation, neither before nor after ASSIGNED. */
  lemma AssetKeepsAllocations(db: Db, a: int, asset: Asset)
    requires AllocationsFit(db) && !asset.status.Assigned? && (a in db.assets ==> !db.assets[a].status.Assigned?)
    ensures AllocationsFit(db.(assets := db.assets[a := asset]))
  {
    var after := db.(assets := db.assets[a := asset]);
    forall b, x ensures ActiveOn(after, b, x) <==> ActiveOn(db, b, x) {
    }
  }

  lemma CommitKeepsAllocations(db: Db, t: Txn, newId: int)
    requires AllocationsFit(db) && Granted(db, t) && Writable(db, t, newId)
    ensures AllocationsFit(Committed(db, t, newId))
  {
    var after := Committed(db, t, newId);
    match t.op
    case SaveCategory(_, _) => SameAllocations(db, after);
    case RetireCategory(_) => SameAllocations(db, after);
    case SaveAsset(editing, _, _, _) =>
      var a := if editing.Some? then editing.value else newId;
      AssetKeepsAllocations(db, a, after.assets[a]);
    case RetireAsset(a) => AssetKeepsAllocations(db, a, after.assets[a]);
    case Assign(a, e, on) => AssignKeepsAllocations(db, a, e, on, newId);
    case Return(x, on) => ReturnKeepsAllocations(db, x, on, newId);
  }

  lemma SameAllocations(db: Db, after: Db)
    requires AllocationsFit(db) && after.assets == db.assets && after.allocations == db.allocations
    ensures AllocationsFit(after)
  {
    forall b, x ensures ActiveOn(after, b, x) <==> ActiveOn(db, b, x) {
    }
  }

  /** An asset written under an active category, or as RETIRED under its own. */
  lemma AssetKeepsCategories(db: Db, a: int, asset: Asset)
    requires CategoriesFit(db) && asset.category in db.categories
    requires db.categories[asset.category].active || asset.status.Retired?
    ensures CategoriesFit(db.(assets := db.assets[a := asset]))
  {
    var after := db.(assets := db.assets[a := asset]);
    forall b | b in after.assets ensures CategoryFits(after, b) {
      if b != a { assert CategoryFits(db, b); }
    }
  }

  lemma CategoryKeepsCategories(db: Db, c: int, category: Category)
    requires CategoriesFit(db)
    requires !category.active ==>
      forall a :: a in db.assets && db.assets[a].category == c ==> db.assets[a].status.Retired?
    ensures CategoriesFit(db.(categories := db.categories[c := category]))
  {
    var after := db.(categories := db.categories[c := category]);
    forall b | b in after.assets ensures CategoryFits(after, b) {
      assert CategoryFits(db, b);
    }
  }

  lemma SameCategories(db: Db, after: Db)
    requires CategoriesFit(db) && after.assets == db.assets && after.categories == db.categories
    ensures CategoriesFit(after)
  {
    forall b | b in after.assets ensures CategoryFits(after, b) {
      assert CategoryFits(db, b);
    }
  }

  lemma CommitKeepsCategories(db: Db, t: Txn, newId: int)
    requires CategoriesFit(db) && Granted(db, t) && Writable(db, t, newId)
    ensures CategoriesFit(Committed(db, t, newId))
  {
    var after := Committed(db, t, newId);
    match t.op
    case SaveCategory(editing, _) =>
      var c := if editing.Some? then editing.value else newId;
      CategoryKeepsCategories(db, c, after.categories[c]);
    case RetireCategory(c) => CategoryKeepsCategories(db, c, after.categories[c]);
    case SaveAsset(editing, _, _, _) =>
      var a := if editing.Some? then editing.value else newId;
      AssetKeepsCategories(db, a, after.assets[a]);
    case RetireAsset(a) => StatusKeepsCategories(db, after, a);
    case Assign(a, _, _) => StatusKeepsCategories(db, after, a);
    case Return(_, _) => StatusKeepsCategories(db, after, t.read.value.asset);
  }

  /** Only the status of `a` changes, from one that is not RETIRED. */
  lemma StatusKeepsCategories(db: Db, after: Db, a: int)
    requires CategoriesFit(db) && a in db.assets && !db.assets[a].status.Retired? && after.categories == db.categories
    requires a in after.assets && after.assets == db.assets[a := db.assets[a].(status := after.assets[a].status)]
    ensures CategoriesFit(after)
  {
    assert CategoryFits(db, a);
    AssetKeepsCategories(db, a, after.assets[a]);
    SameCategories(db.(assets := after.assets), after);
  }

  lemma SameLogs(db: Db, after: Db)
    requires LogsFit(db) && after.allocations == db.allocations && after.logs == db.logs
    ensures LogsFit(after)
  {
    forall x, k ensures LogOf(after, x, k) <==> LogOf(db, x, k) {
    }
  }

  lemma AssignKeepsLogs(db: Db, after: Db, newId: int)
    requires LogsFit(db) && newId !in db.allocations && newId in after.allocations && after.allocations[newId].active
    requires after.allocations == db.allocations[newId := after.allocations[newId]] && after.logs == db.logs
    ensures LogsFit(after)
  {
    forall x, k ensures LogOf(after, x, k) <==> LogOf(db, x, k) {
    }
  }

  lemma ReturnKeepsLogs(db: Db, after: Db, x: int, on: int, newId: int)
    requires LogsFit(db) && x in db.allocations && db.allocations[x].active && newId !in db.logs
    requires db.allocations[x].allocatedOn <= on && after.logs == db.logs[newId := ReturnLog(x, on)]
    requires after.allocations == db.allocations[x := db.allocations[x].(active := false)]
    ensures LogsFit(after)
  {
    assert LogOf(after, x, newId);
    forall y, k ensures LogOf(after, y, k) <==> LogOf(db, y, k) || (y == x && k == newId) {
    }
    assert forall k :: !LogOf(db, x, k);
  }

  lemma CommitKeepsLogs(db: Db, t: Txn, newId: int)
    requires LogsFit(db) && Granted(db, t) && Writable(db, t, newId)
    ensures LogsFit(Committed(db, t, newId))
  {
    var after := Committed(db, t, newId);
    match t.op
    case Assign(_, _, _) => AssignKeepsLogs(db, after, newId);
    case Return(x, on) => ReturnKeepsLogs(db, after, x, on, newId);
    case _ => SameLogs(db, after);
  }

  lemma CommitKeepsConsistent(db: Db, t: Txn, newId: int)
    requires Consistent(db) && Ready(db, t, newId)
    ensures Consistent(Committed(db, t, newId))
  {
    ReadyIsGranted(db, t, newId);
    CommitKeepsAllocations(db, t, newId);
    CommitKeepsCategories(db, t, newId);
    CommitKeepsLogs(db, t, newId);
  }

  /** A commit does not disturb a transaction that holds other locks. */
  lemma CommitKeepsOthers(s: System, t: int, u: int, newId: int)
    requires Inv(s) && t in s.txns && u in s.txns && t != u && CanStep(s, Commit(t, newId))
    ensures Sound(Committed(s.db, s.txns[t], newId), s.txns[u])
  {
    var after := Committed(s.db, s.txns[t], newId);
    Locked(s.db, s.txns[t]);
    forall l | l in s.txns[u].held ensures Passes(after, s.txns[u].op, l) {
      NotMine(s, t, u, l);
    }
    if s.txns[u].read.Some? {
      assert AllocationRow(s.txns[u].op.allocation) == s.txns[u].held[0];
      NotMine(s, t, u, s.txns[u].held[0]);
    }
    if s.txns[u].counted {
      assert s.txns[u].held == Plan(s.txns[u]);
      if Counts(s.txns[u].op) {
        NotMine(s, t, u, s.txns[u].held[0]);
        CommitKeepsClear(s, t, u, newId);
      }
    }
  }

  lemma NotMine(s: System, t: int, u: int, l: Lock)
    requires Inv(s) && t in s.txns && u in s.txns && t != u && Wanted(s.txns[t]).None? && l in s.txns[u].held
    ensures l in Plan(s.txns[t]) ==> Shared(l)
  {
    if l in Plan(s.txns[t]) {
      assert s.txns[t].held == Plan(s.txns[t]);
      assert Holds(s, t, l) && Holds(s, u, l);
    }
  }

  lemma CommitKeepsClear(s: System, t: int, u: int, newId: int)
    requires Inv(s) && t in s.txns && u in s.txns && t != u && CanStep(s, Commit(t, newId))
    requires Counts(s.txns[u].op) && s.txns[u].counted
    ensures Clear(Committed(s.db, s.txns[t], newId), s.txns[u].op)
  {
    Locked(s.db, s.txns[t]);
    assert s.txns[u].held == Plan(s.txns[u]);
    NotMine(s, t, u, s.txns[u].held[0]);
  }

  lemma CommitKeepsInv(s: System, t: int, newId: int)
    requires Inv(s) && CanStep(s, Commit(t, newId))
    ensures Inv(Do(s, Commit(t, newId)))
  {
    CommitKeepsConsistent(s.db, s.txns[t], newId);
    var after := Do(s, Commit(t, newId));
    forall u | u in after.txns ensures Sound(after.db, after.txns[u]) {
      CommitKeepsOthers(s, t, u, newId);
    }
    forall u, v, l | Holds(after, u, l) && Holds(after, v, l) && !Shared(l) ensures u == v {
      assert Holds(s, u, l) && Holds(s, v, l);
    }
  }

  lemma AcquireKeepsInv(s: System, t: int)
    requires Inv(s) && CanStep(s, Acquire(t))
    ensures Inv(Do(s, Acquire(t)))
  {
    var after := Do(s, Acquire(t));
    var l := Wanted(s.txns[t]).value;
    assert after.txns[t].held <= Plan(after.txns[t]) by {
      assert Plan(s.txns[t]) <= Plan(after.txns[t]);
    }
    forall u, v, k | Holds(after, u, k) && Holds(after, v, k) && !Shared(k) ensures u == v {
      OnlyNewLock(s, t, u, k);
      OnlyNewLock(s, t, v, k);
    }
  }

  lemma OnlyNewLock(s: System, t: int, u: int, k: Lock)
    requires Inv(s) && CanStep(s, Acquire(t)) && Holds(Do(s, Acquire(t)), u, k) && !Shared(k)
    ensures Holds(s, u, k) || (u == t && k == Wanted(s.txns[t]).value)
    ensures k == Wanted(s.txns[t]).value ==> u == t
  {
    if u != t {
      NoConflictHeld(s, t, u, k);
    }
  }

  lemma NoConflictHeld(s: System, t: int, u: int, k: Lock)
    requires CanStep(s, Acquire(t)) && u != t && Holds(s, u, k)
    ensures !Conflict(k, Wanted(s.txns[t]).value)
  {
    assert !WaitsFor(s, t, u);
  }

  lemma StepKeepsInv(s: System, step: Step)
    requires Inv(s) && CanStep(s, step)
    ensures Inv(Do(s, step))
  {
    match step
    case Commit(t, newId) => CommitKeepsInv(s, t, newId);
    case Acquire(t) => AcquireKeepsInv(s, t);
    case _ => OtherStepsKeepInv(s, step);
  }

  lemma OtherStepsKeepInv(s: System, step: Step)
    requires Inv(s) && CanStep(s, step) && !step.Commit? && !step.Acquire?
    ensures Inv(Do(s, step))
  {
    var after := Do(s, step);
    forall u, v, l | Holds(after, u, l) && Holds(after, v, l) && !Shared(l) ensures u == v {
      assert Holds(s, u, l) && Holds(s, v, l);
    }
    forall u | u in after.txns ensures Sound(after.db, after.txns[u]) {
      forall l | l in after.txns[u].held ensures Passes(after.db, after.txns[u].op, l) {
        assert Holds(s, u, l);
      }
    }
    assert AllocationsFit(after.db) by {
      assert forall a, x :: ActiveOn(after.db, a, x) <==> ActiveOn(s.db, a, x);
    }
    assert LogsFit(after.db) by {
      assert forall x, k :: LogOf(after.db, x, k) <==> LogOf(s.db, x, k);
    }
  }

  // ---------------------------------------------------------------- whole runs

  ghost predicate Follows(s: System, t: System) {
    exists step :: CanStep(s, step) && t == Do(s, step)
  }

  ghost predicate Run(run: seq<System>) {
    && |run| > 0
    && Consistent(run[0].db) && run[0].txns == map[]
    && forall i :: 0 <= i < |run| - 1 ==> Follows(run[i], run[i + 1])
  }

  lemma {:induction false} RunKeepsInv(run: seq<System>, i: nat)
    requires Run(run) && i < |run|
    ensures Inv(run[i])
  {
    if i > 0 {
      RunKeepsInv(run, i - 1);
      assert Follows(run[i - 1], run[i - 1 + 1]);
      var step :| CanStep(run[i - 1], step) && run[i] == Do(run[i - 1], step);
      StepKeepsInv(run[i - 1], step);
    }
  }

  /** Nothing a run does brings back a retired asset or category, a returned allocation or a written log. */
  ghost predicate KeepsFinal(before: Db, after: Db) {
    && (forall a :: a in before.assets && before.assets[a].status.Retired? ==>
          a in after.assets && after.assets[a] == before.assets[a])
    && (forall c :: c in before.categories && !before.categories[c].active ==>
          c in after.categories && after.categories[c] == before.categories[c])
    && (forall x :: x in before.allocations && !before.allocations[x].active ==>
          x in after.allocations && after.allocations[x] == before.allocations[x])
    && (forall k :: k in before.logs ==> k in after.logs && after.logs[k] == before.logs[k])
  }

  lemma StepKeepsFinal(s: System, step: Step)
    requires Inv(s) && CanStep(s, step)
    ensures KeepsFinal(s.db, Do(s, step).db)
  {
    if step.Commit? {
      Locked(s.db, s.txns[step.t]);
    }
  }

  lemma FinalTransitive(a: Db, b: Db, c: Db)
    requires KeepsFinal(a, b) && KeepsFinal(b, c)
    ensures KeepsFinal(a, c)
  {
  }

  lemma {:induction false} FinalStatesStay(run: seq<System>, i: nat, j: nat)
    requires Run(run) && i <= j < |run|
    ensures KeepsFinal(run[i].db, run[j].db)
  {
    if i < j {
      FinalStatesStay(run, i, j - 1);
      RunKeepsInv(run, j - 1);
      assert Follows(run[j - 1], run[j - 1 + 1]);
      var step :| CanStep(run[j - 1], step) && run[j] == Do(run[j - 1], step);
      StepKeepsFinal(run[j - 1], step);
      FinalTransitive(run[i].db, run[j - 1].db, run[j].db);
    }
  }

  /** The four tables agree in every state of every run. */
  lemma TablesAgree(run: seq<System>, i: nat, a: int, x: int)
    requires Run(run) && i < |run|
    ensures var db := run[i].db;
      && (a in db.assets ==> (db.assets[a].status.Assigned? <==> exists y :: ActiveOn(db, a, y)))
      && (forall y, z :: ActiveOn(db, a, y) && ActiveOn(db, a, z) ==> y == z)
      && (a in db.assets ==>
            && db.assets[a].category in db.categories
            && (!db.categories[db.assets[a].category].active ==> db.assets[a].status.Retired?))
      && (x in db.allocations ==> (db.allocations[x].active <==> !exists k :: LogOf(db, x, k)))
      && (forall j, k :: LogOf(db, x, j) && LogOf(db, x, k) ==> j == k)
      && (forall k :: LogOf(db, x, k) ==> x in db.allocations && db.allocations[x].allocatedOn <= db.logs[k].returnedOn)
  {
    RunKeepsInv(run, i);
    var db := run[i].db;
    if x in db.allocations {
      assert !db.allocations[x].active <==> exists k :: LogOf(db, x, k);
    }
  }

  /**
   The employee and the location a commit relies on are still selectable when it commits, although
   they were checked earlier: the shared locks keep other writers out.
   */
  lemma CommitsOnCurrentRows(run: seq<System>, i: nat, t: int, newId: int)
    requires Run(run) && i < |run| && CanStep(run[i], Commit(t, newId))
    ensures var op, db := run[i].txns[t].op, run[i].db;
      && (op.Assign? ==>
            op.employee in db.employees && db.employees[op.employee] && db.assets[op.asset].status.Available?)
      && (op.SaveAsset? ==> op.category in db.categories && db.categories[op.category].active)
      && (op.SaveAsset? && op.location.Some? ==> op.location.value in db.locations && db.locations[op.location.value])
  {
    RunKeepsInv(run, i);
    Locked(run[i].db, run[i].txns[t]);
  }

  // ---------------------------------------------------------------- no deadlock

  lemma PlanAscends(t: Txn, j: nat, k: nat)
    requires j < k < |Plan(t)|
    ensures Rank(Plan(t)[j]) < Rank(Plan(t)[k])
  {
  }

  /** Whoever is waited for holds a lock of the wanted rank, and so can only want a higher one. */
  lemma WaitsRaiseRank(s: System, t: int, u: int)
    requires Inv(s) && WaitsFor(s, t, u) && Wanted(s.txns[u]).Some?
    ensures Rank(Wanted(s.txns[t]).value) < Rank(Wanted(s.txns[u]).value)
  {
    var l :| l in s.txns[u].held && Conflict(l, Wanted(s.txns[t]).value);
    var k :| 0 <= k < |s.txns[u].held| && s.txns[u].held[k] == l;
    PlanAscends(s.txns[u], k, |s.txns[u].held|);
  }

  ghost function WaitGraph(s: System): set<(int, int)> {
    set t, u | t in s.txns && u in s.txns && WaitsFor(s, t, u) :: (t, u)
  }

  lemma {:induction false} WalkRaisesRank(s: System, p: seq<int>, k: nat)
    requires Inv(s) && Path(WaitGraph(s), p) && 0 < k < |p| - 1
    ensures p[0] in s.txns && p[k] in s.txns && Wanted(s.txns[p[0]]).Some? && Wanted(s.txns[p[k]]).Some?
    ensures Rank(Wanted(s.txns[p[0]]).value) < Rank(Wanted(s.txns[p[k]]).value)
  {
    assert (p[k - 1], p[k - 1 + 1]) in WaitGraph(s) && (p[k], p[k + 1]) in WaitGraph(s)
      && (p[0], p[0 + 1]) in WaitGraph(s);
    WaitsRaiseRank(s, p[k - 1], p[k]);
    if k > 1 {
      WalkRaisesRank(s, p, k - 1);
    }
  }

  /** No transactions ever wait for one another in a circle. */
  lemma NoDeadlock(run: seq<System>, i: nat)
    requires Run(run) && i < |run|
    ensures !Cyclic(WaitGraph(run[i]))
  {
    RunKeepsInv(run, i);
    var s := run[i];
    forall p | IsCycle(WaitGraph(s), p) ensures false {
      var last := |p| - 2;
      assert (p[last], p[last + 1]) in WaitGraph(s) && (p[0], p[0 + 1]) in WaitGraph(s);
      WaitsRaiseRank(s, p[last], p[0]);
      if last > 0 {
        WalkRaisesRank(s, p, last);
      }
    }
  }

  /** Following the waits from any transaction ends at one that nothing blocks. */
  lemma {:induction false} SomeoneIsFree(s: System, t: int)
    requires Inv(s) && t in s.txns
    ensures exists u :: u in s.txns && !Blocked(s, u) && Reach(WaitGraph(s), t, u)
    decreases if Wanted(s.txns[t]).Some? then 5 - Rank(Wanted(s.txns[t]).value) else 0
  {
    if !Blocked(s, t) {
      ReachRefl(WaitGraph(s), t);
    } else {
      var u :| WaitsFor(s, t, u);
      assert (t, u) in WaitGraph(s);
      if !Blocked(s, u) {
        ReachRefl(WaitGraph(s), u);
        ReachPrepend(WaitGraph(s), t, u, u);
      } else {
        var v :| WaitsFor(s, u, v);
        WaitsRaiseRank(s, t, u);
        SomeoneIsFree(s, u);
        var w :| w in s.txns && !Blocked(s, w) && Reach(WaitGraph(s), u, w);
        ReachPrepend(WaitGraph(s), t, u, w);
      }
    }
  }

  /** A transaction with every lock and its count done can always write: the rows are there. */
  lemma CommitFindsItsRows(run: seq<System>, i: nat, t: int, newId: int)
    requires Run(run) && i < |run| && t in run[i].txns && Wanted(run[i].txns[t]).None?
    requires newId !in run[i].db.categories && newId !in run[i].db.assets && newId !in run[i].db.allocations
      && newId !in run[i].db.logs
    ensures Writable(run[i].db, run[i].txns[t], newId)
  {
    RunKeepsInv(run, i);
    Locked(run[i].db, run[i].txns[t]);
  }

  // ---------------------------------------------------------------- one transaction from start to end

  datatype Refusal = NotFound | StateConflict | NotEmpty | ActiveAllocation | AlreadyReturned | Invalid

  /** `after` is what some transaction for `op`, holding all its locks on `before`, commits. */
  ghost predicate CommitsTo(before: Db, op: Op, newId: int, after: Db) {
    exists t: Txn :: t.op == op && Ready(before, t, newId) && after == Committed(before, t, newId)
  }

  ghost predicate CanCommit(db: Db, op: Op, newId: int) {
    exists t: Txn :: t.op == op && Ready(db, t, newId)
  }

  lemma ReadyCommits(db: Db, t: Txn, newId: int)
    requires Ready(db, t, newId)
    ensures CommitsTo(db, t.op, newId, Committed(db, t, newId))
    ensures Consistent(db) ==> Consistent(Committed(db, t, newId))
  {
    if Consistent(db) {
      CommitKeepsConsistent(db, t, newId);
    }
  }

  /** The first row an operation locks must pass its check, and a retirement's count must be zero. */
  lemma CommitNeeds(db: Db, op: Op, newId: int)
    requires CanCommit(db, op, newId)
    ensures op.SaveCategory? && op.editing.Some? ==> Passes(db, op, CategoryRow(op.editing.value))
    ensures op.RetireCategory? || op.SaveAsset? ==> Passes(db, op, CategoryRow(op.category))
    ensures op.SaveAsset? && op.location.Some? ==> Passes(db, op, LocationRow(op.location.value))
    ensures op.SaveAsset? && op.editing.Some? ==> Passes(db, op, AssetRow(op.editing.value))
    ensures op.RetireAsset? || op.Assign? ==> Passes(db, op, AssetRow(op.asset))
    ensures op.Assign? ==> Passes(db, op, EmployeeRow(op.employee))
    ensures op.Return? ==>
      Passes(db, op, AllocationRow(op.allocation)) && Passes(db, op, AssetRow(db.allocations[op.allocation].asset))
    ensures Clear(db, op)
  {
    var t: Txn :| t.op == op && Ready(db, t, newId);
    forall k | 0 <= k < |Plan(t)| ensures Passes(db, t.op, Plan(t)[k]) { HoldsItsPlan(db, t, k); }
    if |Plan(t)| > 0 { assert Passes(db, t.op, Plan(t)[0]); }
    if |Plan(t)| > 1 { assert Passes(db, t.op, Plan(t)[1]); }
    if |Plan(t)| > 2 { assert Passes(db, t.op, Plan(t)[2]); }
    assert t.held == Plan(t);
  }

  /** What a commit of each operation requires of the rows, and the whole state it leaves. */
  lemma CommitMeans(before: Db, op: Op, newId: int, after: Db)
    requires CommitsTo(before, op, newId, after)
    ensures match op
      case SaveCategory(editing, name) =>
        && (editing.Some? ==> editing.value in before.categories && before.categories[editing.value].active)
        && after == before.(categories :=
             before.categories[(if editing.Some? then editing.value else newId) := Category(name, true)])
      case RetireCategory(c) =>
        && c in before.categories && before.categories[c].active
        && (forall a :: a in before.assets && before.assets[a].category == c ==> before.assets[a].status == Retired)
        && after == before.(categories := before.categories[c := Category(before.categories[c].name, false)])
      case SaveAsset(editing, c, name, location) =>
        && c in before.categories && before.categories[c].active
        && (location.Some? ==> location.value in before.locations && before.locations[location.value])
        && (editing.Some? ==> editing.value in before.assets && before.assets[editing.value].status == Available)
        && after == before.(assets := before.assets[
             (if editing.Some? then editing.value else newId) := Asset(c, name, location, Available)])
      case RetireAsset(a) =>
        && a in before.assets && before.assets[a].status == Available
        && (forall x :: x in before.allocations && before.allocations[x].asset == a ==> !before.allocations[x].active)
        && after == before.(assets := before.assets[a := before.assets[a].(status := Retired)])
      case Assign(a, e, on) =>
        && a in before.assets && before.assets[a].status == Available
        && e in before.employees && before.employees[e]
        && after == before.(allocations := before.allocations[newId := Allocation(a, e, true, on)],
                            assets := before.assets[a := before.assets[a].(status := Assigned)])
      case Return(x, on) =>
        && x in before.allocations && before.allocations[x].active && before.allocations[x].allocatedOn <= on
        && var row := before.allocations[x];
        && row.asset in before.assets
        && after == before.(logs := before.logs[newId := ReturnLog(x, on)],
                            allocations := before.allocations[x := row.(active := false)],
                            assets := before.assets[row.asset := before.assets[row.asset].(status := Available)])
  {
    var t: Txn :| t.op == op && Ready(before, t, newId) && after == Committed(before, t, newId);
    CommitNeeds(before, op, newId);
  }

  /** An asset that was returned can be assigned again at once, to any active employee. */
  lemma ReturnedIsAssignable(before: Db, x: int, on: int, newId: int, after: Db, e: int, day: int, next: int)
    requires CommitsTo(before, Return(x, on), newId, after)
    requires e in after.employees && after.employees[e] && next !in after.allocations
    ensures x in before.allocations && CanCommit(after, Assign(before.allocations[x].asset, e, day), next)
  {
    CommitMeans(before, Return(x, on), newId, after);
    var a := before.allocations[x].asset;
    var t := Txn(Assign(a, e, day), [AssetRow(a), EmployeeRow(e)], None, false);
    assert Ready(after, t, next);
  }

  /**
   The tables with each transaction run alone. A success is exactly a commit of the interleaved
   protocol, a refusal changes nothing and happens only when no such commit is possible.
   */
  class AssetStore {
    var categories: map<int, Category>
    var locations: map<int, bool>
    var assets: map<int, Asset>
    var allocations: map<int, Allocation>
    var logs: map<int, ReturnLog>
    var employees: map<int, bool>

    ghost function Contents(): Db
      reads this
    {
      Db(categories, locations, assets, allocations, logs, employees)
    }

    constructor (db: Db)
      ensures Contents() == db
    {
      categories, locations, assets := db.categories, db.locations, db.assets;
      allocations, logs, employees := db.allocations, db.logs, db.employees;
    }

    method UpsertAssetCategory(editing: Option<int>, name: string, newId: int) returns (r: Result<Category, Refusal>)
      requires newId !in categories
      modifies this`categories
      ensures var op := SaveCategory(editing, name);
        if r.Ok? then CommitsTo(old(Contents()), op, newId, Contents()) && r.value.name == name
        else Contents() == old(Contents()) && !CanCommit(old(Contents()), op, newId)
      ensures r.Err? ==>
        editing.Some? && r.error == if editing.value in old(categories) then StateConflict else NotFound
      ensures r.Ok? <==> editing.Some? ==> editing.value in old(categories) && old(categories)[editing.value].active
      ensures r.Ok? ==> r.value == Category(name, true)
      ensures r.Ok? ==>
        categories == old(categories)[(if editing.Some? then editing.value else newId) := Category(name, true)]
      ensures old(Consistent(Contents())) ==> Consistent(Contents())
    {
      ghost var before := Contents();
      ghost var op := SaveCategory(editing, name);
      if editing.Some? {
        var id := editing.value;
        if id !in categories {
          if CanCommit(before, op, newId) { CommitNeeds(before, op, newId); }
          return Err(NotFound);
        }
        if !categories[id].active {
          if CanCommit(before, op, newId) { CommitNeeds(before, op, newId); }
          return Err(StateConflict);
        }
        categories := categories[id := categories[id].(name := name)];
        r := Ok(categories[id]);
      } else {
        categories := categories[newId := Category(name, true)];
        r := Ok(categories[newId]);
      }
      ReadyCommits(before, Txn(op, Optional(c => CategoryRow(c), editing), None, false), newId);
    }

    method RetireAssetCategory(id: int) returns (r: Result<Category, Refusal>)
      modifies this`categories
      ensures r.Ok? ==> id in categories && r.value == categories[id] && !r.value.active
      ensures var op := RetireCategory(id);
        if r.Ok? && id in old(categories) && old(categories)[id].active
        then CommitsTo(old(Contents()), op, 0, Contents())
        else Contents() == old(Contents()) && !CanCommit(old(Contents()), op, 0)
      ensures r.Err? ==> r.error == if id in old(categories) then NotEmpty else NotFound
      ensures r.Ok? <==>
        && id in old(categories)
        && (old(categories)[id].active ==>
              forall a :: a in assets && assets[a].category == id ==> assets[a].status == Retired)
      ensures r.Ok? ==> categories == old(categories)[id := Category(old(categories)[id].name, false)]
      ensures old(Consistent(Contents())) ==> Consistent(Contents())
    {
      ghost var before := Contents();
      ghost var op := RetireCategory(id);
      if CanCommit(before, op, 0) { CommitNeeds(before, op, 0); }
      if id !in categories {
        return Err(NotFound);
      }
      if !categories[id].active {
        return Ok(categories[id]);
      }
      var remaining := set a | a in assets && assets[a].category == id && !assets[a].status.Retired?;
      if |remaining| > 0 {
        SomeMember(remaining);
        assert !Clear(before, op);
        return Err(NotEmpty);
      }
      assert Clear(before, op) by {
        forall a | a in assets && assets[a].category == id ensures assets[a].status.Retired? {
          assert a !in remaining;
        }
      }
      categories := categories[id := categories[id].(active := false)];
      ReadyCommits(before, Txn(op, [CategoryRow(id)], None, true), 0);
      r := Ok(categories[id]);
    }

    method UpsertAsset(editing: Option<int>, category: int, name: string, location: Option<int>, newId: int)
      returns (r: Result<Asset, Refusal>)
      requires newId !in assets
      modifies this`assets
      ensures var op := SaveAsset(editing, category, name, location);
        if r.Ok? then CommitsTo(old(Contents()), op, newId, Contents())
          && r.value == Asset(category, name, location, Available)
        else Contents() == old(Contents()) && !CanCommit(old(Contents()), op, newId)
      ensures r.Err? ==>
        r.error ==
          if !(category in categories && categories[category].active) then Invalid
          else if location.Some? && !(location.value in locations && locations[location.value]) then Invalid
          else if editing.Some? && editing.value in old(assets) then StateConflict else NotFound
      ensures r.Ok? <==>
        && category in categories && categories[category].active
        && (location.Some? ==> location.value in locations && locations[location.value])
        && (editing.Some? ==> editing.value in old(assets) && old(assets)[editing.value].status == Available)
      ensures r.Ok? ==>
        assets == old(assets)[
          (if editing.Some? then editing.value else newId) := Asset(category, name, location, Available)]
      ensures old(Consistent(Contents())) ==> Consistent(Contents())
    {
      ghost var before := Contents();
      ghost var op := SaveAsset(editing, category, name, location);
      if CanCommit(before, op, newId) { CommitNeeds(before, op, newId); }
      if !(category in categories && categories[category].active) {
        return Err(Invalid);
      }
      if location.Some? && !(location.value in locations && locations[location.value]) {
        return Err(Invalid);
      }
      if editing.Some? {
        var id := editing.value;
        if id !in assets {
          return Err(NotFound);
        }
        if assets[id].status != Available {
          return Err(StateConflict);
        }
        assets := assets[id := assets[id].(category := category, name := name, location := location)];
        r := Ok(assets[id]);
      } else {
        assets := assets[newId := Asset(category, name, location, Available)];
        r := Ok(assets[newId]);
      }
      ghost var t := Txn(op, [], None, false);
      ReadyCommits(before, t.(held := Plan(t)), newId);
    }

    method RetireAsset(id: int) returns (r: Result<Asset, Refusal>)
      modifies this`assets
      ensures r.Ok? ==> id in assets && r.value == assets[id] && r.value.status.Retired?
      ensures var op := Op.RetireAsset(id);
        if r.Ok? && id in old(assets) && !old(assets)[id].status.Retired?
        then CommitsTo(old(Contents()), op, 0, Contents())
        else Contents() == old(Contents()) && !CanCommit(old(Contents()), op, 0)
      ensures r.Err? ==>
        r.error ==
          if id !in old(assets) then NotFound
          else if old(assets)[id].status.Assigned? then StateConflict
          else ActiveAllocation
      ensures r.Ok? <==>
        && id in old(assets) && old(assets)[id].status != Assigned
        && (old(assets)[id].status == Available ==>
              forall x :: x in allocations && allocations[x].asset == id ==> !allocations[x].active)
      ensures r.Ok? ==> assets == old(assets)[id := old(assets)[id].(status := Retired)]
      ensures old(Consistent(Contents())) ==> Consistent(Contents())
    {
      ghost var before := Contents();
      ghost var op := Op.RetireAsset(id);
      if CanCommit(before, op, 0) { CommitNeeds(before, op, 0); }
      if id !in assets {
        return Err(NotFound);
      }
      if assets[id].status == Retired {
        return Ok(assets[id]);
      }
      if assets[id].status != Available {
        return Err(StateConflict);
      }
      var active := set x | x in allocations && allocations[x].asset == id && allocations[x].active;
      if |active| > 0 {
        SomeMember(active);
        assert !Clear(before, op);
        return Err(ActiveAllocation);
      }
      assert Clear(before, op) by {
        forall x | x in allocations && allocations[x].active ensures allocations[x].asset != id {
          assert x !in active;
        }
      }
      assets := assets[id := assets[id].(status := Retired)];
      ReadyCommits(before, Txn(op, [AssetRow(id)], None, true), 0);
      r := Ok(assets[id]);
    }

    method AssignAsset(asset: int, employee: int, on: int, expected: Option<int>, newId: int)
      returns (r: Result<Allocation, Refusal>)
      requires newId !in allocations
      modifies this`assets, this`allocations
      ensures var op := Assign(asset, employee, on);
        if r.Ok? then CommitsTo(old(Contents()), op, newId, Contents())
          && r.value == Allocation(asset, employee, true, on)
        else
          && Contents() == old(Contents())
          && ((expected.Some? && expected.value < on) || !CanCommit(old(Contents()), op, newId))
      ensures r.Ok? && expected.Some? ==> on <= expected.value
      ensures r.Err? ==>
        r.error ==
          if expected.Some? && expected.value < on then Invalid
          else if asset !in old(assets) then NotFound
          else if !old(assets)[asset].status.Available? then StateConflict else Invalid
      ensures r.Ok? <==>
        && (expected.Some? ==> on <= expected.value)
        && asset in old(assets) && old(assets)[asset].status == Available
        && employee in employees && employees[employee]
      ensures r.Ok? ==> allocations == old(allocations)[newId := Allocation(asset, employee, true, on)]
      ensures r.Ok? ==> assets == old(assets)[asset := old(assets)[asset].(status := Assigned)]
      ensures old(Consistent(Contents())) ==> Consistent(Contents())
    {
      ghost var before := Contents();
      ghost var op := Assign(asset, employee, on);
      if CanCommit(before, op, newId) { CommitNeeds(before, op, newId); }
      if expected.Some? && expected.value < on {
        return Err(Invalid);
      }
      if asset !in assets {
        return Err(NotFound);
      }
      if assets[asset].status != Available {
        return Err(StateConflict);
      }
      if !(employee in employees && employees[employee]) {
        return Err(Invalid);
      }
      allocations := allocations[newId := Allocation(asset, employee, true, on)];
      assets := assets[asset := assets[asset].(status := Assigned)];
      ReadyCommits(before, Txn(op, [AssetRow(asset), EmployeeRow(employee)], None, false), newId);
      r := Ok(allocations[newId]);
    }

    method ReturnAsset(allocation: int, on: int, newId: int) returns (r: Result<Allocation, Refusal>)
      requires newId !in logs
      modifies this`assets, this`allocations, this`logs
      ensures var op := Return(allocation, on);
        if r.Ok? then CommitsTo(old(Contents()), op, newId, Contents()) && allocation in allocations
          && r.value == allocations[allocation]
        else Contents() == old(Contents()) && !CanCommit(old(Contents()), op, newId)
      ensures r.Err? ==>
        r.error ==
          if allocation !in old(allocations) then NotFound
          else if !old(allocations)[allocation].active then AlreadyReturned
          else if on < old(allocations)[allocation].allocatedOn then Invalid else NotFound
      ensures r.Ok? <==>
        && allocation in old(allocations) && old(allocations)[allocation].active
        && old(allocations)[allocation].allocatedOn <= on && old(allocations)[allocation].asset in old(assets)
      ensures r.Ok? ==>
        var row := old(allocations)[allocation];
        && logs == old(logs)[newId := ReturnLog(allocation, on)]
        && allocations == old(allocations)[allocation := Allocation(row.asset, row.employee, false, row.allocatedOn)]
        && assets == old(assets)[row.asset := old(assets)[row.asset].(status := Available)]
      ensures old(Consistent(Contents())) ==> Consistent(Contents())
    {
      ghost var before := Contents();
      ghost var op := Return(allocation, on);
      if CanCommit(before, op, newId) { CommitNeeds(before, op, newId); }
      if allocation !in allocations {
        return Err(NotFound);
      }
      var row := allocations[allocation];
      if !row.active {
        return Err(AlreadyReturned);
      }
      if on < row.allocatedOn {
        return Err(Invalid);
      }
      if row.asset !in assets {
        return Err(NotFound);
      }
      logs := logs[newId := ReturnLog(allocation, on)];
      allocations := allocations[allocation := row.(active := false)];
      assets := assets[row.asset := assets[row.asset].(status := Available)];
      ReadyCommits(before, Txn(op, [AllocationRow(allocation), AssetRow(row.asset)], Some(row), false), newId);
      r := Ok(allocations[allocation]);
    }
  }
}
