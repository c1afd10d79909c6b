/** Employee scopes: the recursive team query as an iteration over traversal paths. */
module TeamScope {
  import opened Outcomes
  import opened Graphs
  import opened Multisets

  datatype Status = Active | Probation | Inactive

  datatype Employee = Employee(tenant: int, manager: Option<int>, department: Option<int>, deleted: bool,
    status: Status)

  type Staff = map<int, Employee>

  predicate Eligible(staff: Staff, tenant: int, id: int) {
    id in staff && staff[id].tenant == tenant && !staff[id].deleted && staff[id].status in {Active, Probation}
  }

  /** Reporting lines from a manager to an eligible employee of the tenant. */
  ghost function Lines(staff: Staff, tenant: int): set<(int, int)> {
    set e | e in staff && Eligible(staff, tenant, e) && staff[e].manager.Some? :: (staff[e].manager.value, e)
  }

  // ---------------------------------------------------------------- the query

  /** The non-recursive term: the manager, when eligible. Each row is its traversal path. */
  function Root(staff: Staff, tenant: int, manager: int): (r: set<seq<int>>)
    ensures WorkingTable(staff, r, 1)
  {
    if Eligible(staff, tenant, manager) then {[manager]} else {}
  }

  /** The recursive term: eligible reports of the rows' last employees, off their own path. */
  function Extended(staff: Staff, tenant: int, rows: set<seq<int>>): set<seq<int>> {
    set p, e | p in rows && p != [] && e in staff && Eligible(staff, tenant, e)
               && staff[e].manager == Some(p[|p| - 1]) && e !in p :: p + [e]
  }

  ghost predicate WorkingTable(staff: Staff, rows: set<seq<int>>, k: nat) {
    forall p :: p in rows ==> |p| == k && Distinct(p) && forall e :: e in p ==> e in staff
  }

  /** UNION ALL until the working table is empty. */
  function TeamRows(staff: Staff, tenant: int, working: set<seq<int>>, ghost k: nat): set<seq<int>>
    requires WorkingTable(staff, working, k)
    decreases |staff.Keys| + 1 - k
  {
    if working == {} then {}
    else
      WorkingTableBound(staff, working, k);
      ExtendedWorkingTable(staff, tenant, working, k);
      working + TeamRows(staff, tenant, Extended(staff, tenant, working), k + 1)
  }

  lemma WorkingTableBound(staff: Staff, rows: set<seq<int>>, k: nat)
    requires WorkingTable(staff, rows, k) && rows != {}
    ensures k <= |staff.Keys|
  {
    var p :| p in rows;
    assert forall x :: x in p ==> x in staff;
    DistinctWithin(p, staff.Keys);
  }

  lemma ExtendedWorkingTable(staff: Staff, tenant: int, rows: set<seq<int>>, k: nat)
    requires WorkingTable(staff, rows, k)
    ensures WorkingTable(staff, Extended(staff, tenant, rows), k + 1)
  {
  }

  /** SELECT DISTINCT of the last employee of every row. */
  function TeamIds(staff: Staff, tenant: int, manager: int): set<int> {
    set p | p in TeamRows(staff, tenant, Root(staff, tenant, manager), 1) && p != [] :: p[|p| - 1]
  }

  // ---------------------------------------------------------------- what it computes

  /** A simple chain of reporting lines down from the manager. */
  ghost predicate Chain(staff: Staff, tenant: int, manager: int, p: seq<int>) {
    Eligible(staff, tenant, manager) && Path(Lines(staff, tenant), p) && p[0] == manager && Distinct(p)
  }

  lemma ExtendedAreChains(staff: Staff, tenant: int, manager: int, rows: set<seq<int>>, k: nat)
    requires k >= 1 && forall p :: p in rows <==> Chain(staff, tenant, manager, p) && |p| == k
    ensures forall p :: p in Extended(staff, tenant, rows) <==> Chain(staff, tenant, manager, p) && |p| == k + 1
  {
    var L := Lines(staff, tenant);
    forall q | q in Extended(staff, tenant, rows) ensures Chain(staff, tenant, manager, q) && |q| == k + 1 {
      var p, e :| p in rows && p != [] && e in staff && Eligible(staff, tenant, e)
        && staff[e].manager == Some(p[|p| - 1]) && e !in p && q == p + [e];
      assert (p[|p| - 1], e) in L;
    }
    forall q | Chain(staff, tenant, manager, q) && |q| == k + 1 ensures q in Extended(staff, tenant, rows) {
      var p, e := q[..k], q[k];
      assert Chain(staff, tenant, manager, p) && p in rows;
      assert (q[k - 1], q[k - 1 + 1]) in L;
      assert q == p + [e];
    }
  }

  lemma {:induction false} RowsAreChains(staff: Staff, tenant: int, manager: int, working: set<seq<int>>, k: nat)
    requires k >= 1 && WorkingTable(staff, working, k)
    requires forall p :: p in working <==> Chain(staff, tenant, manager, p) && |p| == k
    ensures forall p :: p in TeamRows(staff, tenant, working, k) <==> Chain(staff, tenant, manager, p) && |p| >= k
    decreases |staff.Keys| + 1 - k
  {
    if working == {} {
      forall p | Chain(staff, tenant, manager, p) ensures |p| < k {
        if |p| >= k {
          assert Chain(staff, tenant, manager, p[..k]);
        }
      }
    } else {
      WorkingTableBound(staff, working, k);
      ExtendedWorkingTable(staff, tenant, working, k);
      ExtendedAreChains(staff, tenant, manager, working, k);
      RowsAreChains(staff, tenant, manager, Extended(staff, tenant, working), k + 1);
    }
  }

  /**
   The query stops on every reporting structure, cyclic ones included, and returns exactly the
   employees reachable from an eligible manager along lines to eligible employees.
   */
  lemma TeamIsReachable(staff: Staff, tenant: int, manager: int, e: int)
    ensures e in TeamIds(staff, tenant, manager) <==>
      Eligible(staff, tenant, manager) && Reach(Lines(staff, tenant), manager, e)
  {
    TeamRowsAreChains(staff, tenant, manager);
    var rows := TeamRows(staff, tenant, Root(staff, tenant, manager), 1);
    if e in TeamIds(staff, tenant, manager) {
      var p :| p in rows && p != [] && p[|p| - 1] == e;
      assert PathBetween(Lines(staff, tenant), p, manager, e);
    }
    if Eligible(staff, tenant, manager) && Reach(Lines(staff, tenant), manager, e) {
      var p :| PathBetween(Lines(staff, tenant), p, manager, e);
      var q := SimplePathExists(Lines(staff, tenant), p, manager, e);
      assert Chain(staff, tenant, manager, q) && q in rows;
    }
  }

  lemma TeamRowsAreChains(staff: Staff, tenant: int, manager: int)
    ensures WorkingTable(staff, Root(staff, tenant, manager), 1)
    ensures forall p :: p in TeamRows(staff, tenant, Root(staff, tenant, manager), 1) <==>
      Chain(staff, tenant, manager, p)
  {
    forall p | Chain(staff, tenant, manager, p) && |p| == 1 ensures p == [manager] {
    }
    RowsAreChains(staff, tenant, manager, Root(staff, tenant, manager), 1);
  }

  /** Every member found is an eligible employee of the tenant. */
  lemma TeamIsEligible(staff: Staff, tenant: int, manager: int, e: int)
    requires e in TeamIds(staff, tenant, manager)
    ensures Eligible(staff, tenant, e)
  {
    TeamIsReachable(staff, tenant, manager, e);
    var S := set x | x in staff && Eligible(staff, tenant, x);
    ClosedHoldsReach(Lines(staff, tenant), S, manager, e);
  }

  /** One manager each: no employee is found along two paths. */
  lemma {:induction false} OnePathEach(staff: Staff, tenant: int, manager: int, p: seq<int>, q: seq<int>)
    requires Chain(staff, tenant, manager, p) && Chain(staff, tenant, manager, q)
    requires p[|p| - 1] == q[|q| - 1]
    ensures p == q
  {
    var L := Lines(staff, tenant);
    if |p| > 1 && |q| > 1 {
      assert (p[|p| - 2], p[|p| - 2 + 1]) in L && (q[|q| - 2], q[|q| - 2 + 1]) in L;
      OnePathEach(staff, tenant, manager, p[..|p| - 1], q[..|q| - 1]);
      assert p == p[..|p| - 1] + [p[|p| - 1]] && q == q[..|q| - 1] + [q[|q| - 1]];
    }
  }

  // ---------------------------------------------------------------- scope filters

  datatype ScopeType = SelfScope | TeamScope | DepartmentScope | AllScope

  datatype Viewer = Viewer(employeeId: int, department: Option<int>)

  datatype Filter = Unrestricted | Empty | EmployeeIds(ids: set<int>)
  {
    predicate Allows(e: int) {
      match this
      case Unrestricted => true
      case Empty => false
      case EmployeeIds(ids) => e in ids
    }
  }

  function Resolve(staff: Staff, tenant: int, scope: ScopeType, viewer: Option<Viewer>): Filter {
    if scope.AllScope? then Unrestricted
    else if viewer.None? then Empty
    else
      match scope
      case SelfScope => EmployeeIds({viewer.value.employeeId})
      case TeamScope => EmployeeIds(TeamIds(staff, tenant, viewer.value.employeeId))
      case DepartmentScope =>
        if viewer.value.department.None? then EmployeeIds({viewer.value.employeeId})
        else EmployeeIds(set e | e in staff && staff[e].tenant == tenant && !staff[e].deleted
                                 && staff[e].department == viewer.value.department)
  }

  /** A team scope covers the viewer exactly when the viewer is eligible; otherwise it covers nobody. */
  lemma TeamCoversSelfIffEligible(staff: Staff, tenant: int, v: Viewer)
    ensures var team := Resolve(staff, tenant, TeamScope, Some(v));
      && (team.Allows(v.employeeId) <==> Eligible(staff, tenant, v.employeeId))
      && (!Eligible(staff, tenant, v.employeeId) ==> forall e :: !team.Allows(e))
  {
    TeamIsReachable(staff, tenant, v.employeeId, v.employeeId);
    ReachRefl(Lines(staff, tenant), v.employeeId);
    forall e ensures e in TeamIds(staff, tenant, v.employeeId) ==> Eligible(staff, tenant, v.employeeId) {
      TeamIsReachable(staff, tenant, v.employeeId, e);
    }
  }

  // ---------------------------------------------------------------- the scopes in plain terms

  /** A current employee of the tenant, active or on probation. */
  predicate Works(staff: Staff, tenant: int, e: int) {
    && e in staff && staff[e].tenant == tenant && staff[e].deleted == false
    && (staff[e].status == Active || staff[e].status == Probation)
  }

  /** `p` leads from `top` down to `e`, everyone working and reporting to the one before. */
  ghost predicate ReportsDown(staff: Staff, tenant: int, top: int, e: int, p: seq<int>) {
    && p != [] && p[0] == top && p[|p| - 1] == e
    && (forall i :: 0 <= i < |p| ==> Works(staff, tenant, p[i]))
    && forall i :: 0 < i < |p| ==> staff[p[i]].manager == Some(p[i - 1])
  }

  lemma TeamReportsDown(staff: Staff, tenant: int, top: int, e: int)
    ensures e in TeamIds(staff, tenant, top) <==> exists p :: ReportsDown(staff, tenant, top, e, p)
  {
    TeamIsReachable(staff, tenant, top, e);
    var L := Lines(staff, tenant);
    if e in TeamIds(staff, tenant, top) {
      var p :| PathBetween(L, p, top, e);
      forall i | 0 < i < |p| ensures Works(staff, tenant, p[i]) && staff[p[i]].manager == Some(p[i - 1]) {
        assert (p[i - 1], p[i - 1 + 1]) in L;
      }
      assert ReportsDown(staff, tenant, top, e, p);
    }
    if p :| ReportsDown(staff, tenant, top, e, p) {
      forall i | 0 <= i < |p| - 1 ensures (p[i], p[i + 1]) in L {
        assert Works(staff, tenant, p[i + 1]) && staff[p[i + 1]].manager == Some(p[i + 1 - 1]);
      }
      assert Works(staff, tenant, p[0]) && PathBetween(L, p, top, e);
    }
  }

  /**
   Whom a viewer sees: everyone, nobody without an employee record, only oneself, oneself and everyone
   below, or the department, which for a viewer without one is only oneself.
   */
  lemma ScopeShows(staff: Staff, tenant: int, scope: ScopeType, viewer: Option<Viewer>, e: int)
    ensures Resolve(staff, tenant, scope, viewer).Allows(e) <==>
      || scope == AllScope
      || (viewer.Some? && scope == SelfScope && e == viewer.value.employeeId)
      || (viewer.Some? && scope == TeamScope
          && exists p :: ReportsDown(staff, tenant, viewer.value.employeeId, e, p))
      || (viewer.Some? && scope == DepartmentScope && viewer.value.department.None? && e == viewer.value.employeeId)
      || (viewer.Some? && scope == DepartmentScope && viewer.value.department.Some?
          && e in staff && staff[e].tenant == tenant && !staff[e].deleted
          && staff[e].department == viewer.value.department)
  {
    if viewer.Some? {
      TeamReportsDown(staff, tenant, viewer.value.employeeId, e);
    }
  }
}
