/**
 Attendance expiry: open days whose window has ended are shown, and by a sweep persisted, as
 incomplete. Windows are a given function of the date; other writers may act between transactions and
 between a transaction's reads and its writes.
 */
module Attendance {
  import opened Multisets
  import opened Outcomes
  import opened Sums

  datatype Status = Open | Incomplete | Other

  datatype Reason = MissedPunchOut | Reason(text: string)

  datatype Row = Row(
    tenant: int, employee: int, workDate: int, status: Status, reason: Option<Reason>,
    checkOutAt: Option<int>, checkOutTime: Option<int>, updatedAt: int)

  datatype Window = Window(workDate: int, endsAt: int)

  /** An EXPIRE audit row with the reason found before and the window applied. */
  datatype Audit = Audit(row: int, priorReason: Option<Reason>, workDate: int, endsAt: int, at: int)

  /** The window of a date; `None` stands for a lookup or freeze that fails. */
  type Windows = int -> Option<Window>

  type Table = map<int, Row>

  datatype Problem = Forbidden | Failed

  // ---------------------------------------------------------------- what is due

  predicate OpenRow(row: Row) {
    row.status.Open? && row.checkOutAt.None? && row.checkOutTime.None?
  }

  /** The window of the row's own date is known and over. */
  predicate PastWindow(row: Row, windows: Windows, now: int) {
    var w := windows(row.workDate);
    w.Some? && w.value.workDate == row.workDate && w.value.endsAt <= now
  }

  predicate Due(row: Row, windows: Windows, now: int) {
    OpenRow(row) && PastWindow(row, windows, now)
  }

  /** The row as shown; the persisted row also gets a new `updatedAt`. */
  function Shown(row: Row, windows: Windows, now: int): Row {
    if Due(row, windows, now) then row.(status := Incomplete, reason := Some(MissedPunchOut)) else row
  }

  function Persisted(row: Row, now: int): Row {
    row.(status := Incomplete, reason := Some(MissedPunchOut), updatedAt := now)
  }

  method DeriveExpiry(row: Row, window: Window, now: int) returns (changed: bool, after: Row)
    ensures changed <==> OpenRow(row) && window.workDate == row.workDate && window.endsAt <= now
    ensures after == if changed then row.(status := Incomplete, reason := Some(MissedPunchOut)) else row
  {
    if row.workDate != window.workDate || now < window.endsAt || row.status != Open || row.checkOutAt.Some?
      || row.checkOutTime.Some? {
      return false, row;
    }
    return true, row.(status := Incomplete, reason := Some(MissedPunchOut));
  }

  /** What is shown once stays shown: a second derivation at a later instant is the later one alone. */
  lemma ShowingIsStable(row: Row, windows: Windows, now: int, later: int)
    requires now <= later
    ensures Shown(Shown(row, windows, now), windows, later) == Shown(row, windows, later)
    ensures Due(row, windows, now) ==> Due(row, windows, later) && !Due(Shown(row, windows, now), windows, later)
    ensures Shown(row, windows, now).checkOutAt == row.checkOutAt
      && Shown(row, windows, now).checkOutTime == row.checkOutTime
  {
  }

  /** Nobody punched out, and the day's own window is known and has ended. */
  predicate Overdue(row: Row, windows: Windows, now: int) {
    && row.status == Open && row.checkOutAt == None && row.checkOutTime == None
    && match windows(row.workDate)
       case None => false
       case Some(w) => w.workDate == row.workDate && !(now < w.endsAt)
  }

  // ---------------------------------------------------------------- projection

  predicate Projectable(row: Row, tenant: int, windows: Windows) {
    row.status.Open? ==> row.tenant == tenant && windows(row.workDate).Some?
  }

  /** The rows before the `k`-th are shown, the `k`-th may not be, and from there nothing changed. */
  ghost predicate StoppedAt(before: seq<Row>, after: seq<Row>, k: nat, tenant: int, windows: Windows, now: int)
    requires k < |before| == |after|
  {
    && !Projectable(before[k], tenant, windows)
    && (forall i :: 0 <= i < k ==> after[i] == Shown(before[i], windows, now))
    && after[k..] == before[k..]
  }

  /** All rows are shown, or those before the first that may not be. */
  ghost predicate ProjectEffect(
      before: seq<Row>, after: seq<Row>, tenant: int, windows: Windows, now: int, r: Result<(), Problem>)
  {
    && |after| == |before|
    && (r.Ok? <==> forall i :: 0 <= i < |before| ==> Projectable(before[i], tenant, windows))
    && (r.Ok? ==> forall i :: 0 <= i < |before| ==> after[i] == Shown(before[i], windows, now))
    && (r.Err? ==>
          exists k :: 0 <= k < |before| && StoppedAt(before, after, k, tenant, windows, now)
                      && (r.error.Forbidden? <==> before[k].tenant != tenant))
  }

  /** Shows every row in place, looking each date's window up once; stops at the first row it may not show. */
  method ProjectRows(rows: array<Row>, tenant: int, windows: Windows, now: int) returns (r: Result<(), Problem>)
    modifies rows
    ensures ProjectEffect(old(rows[..]), rows[..], tenant, windows, now, r)
    ensures r.Ok? ==> forall i :: 0 <= i < rows.Length ==> Overdue(old(rows[i]), windows, now) ==>
      rows[i] == old(rows[i]).(status := Incomplete, reason := Some(MissedPunchOut))
    ensures r.Ok? ==> forall i :: 0 <= i < rows.Length ==> !Overdue(old(rows[i]), windows, now) ==>
      rows[i] == old(rows[i])
    ensures r.Ok? <==> forall i :: 0 <= i < rows.Length && old(rows[i]).status == Open ==>
      old(rows[i]).tenant == tenant && windows(old(rows[i]).workDate) != None
  {
    assert forall i :: 0 <= i < rows.Length ==> old(rows[..])[i] == rows[i];
    var known: map<int, Window> := map[];
    var i := 0;
    while i < rows.Length
      invariant 0 <= i <= rows.Length
      invariant forall k :: 0 <= k < i ==>
        Projectable(old(rows[k]), tenant, windows) && rows[k] == Shown(old(rows[k]), windows, now)
      invariant forall k :: i <= k < rows.Length ==> rows[k] == old(rows[k])
      invariant forall d :: d in known ==> windows(d) == Some(known[d])
    {
      var row := rows[i];
      if row.status == Open {
        if row.tenant != tenant {
          assert StoppedAt(old(rows[..]), rows[..], i, tenant, windows, now);
          return Err(Forbidden);
        }
        if row.workDate !in known {
          var w := windows(row.workDate);
          if w.None? {
            assert StoppedAt(old(rows[..]), rows[..], i, tenant, windows, now);
            return Err(Failed);
          }
          known := known[row.workDate := w.value];
        }
        var changed, after := DeriveExpiry(row, known[row.workDate], now);
        rows[i] := after;
      }
      i := i + 1;
    }
    r := Ok(());
  }

  // ---------------------------------------------------------------- one employee's transaction

  predicate OpenFor(row: Row, tenant: int, employee: int) {
    row.tenant == tenant && row.employee == employee && OpenRow(row)
  }

  /** The rows an expiry at `now` moves: open and over when read, and still open when written. */
  predicate Moves(rows: Table, others: Table, tenant: int, employee: int, windows: Windows, now: int, id: int) {
    && id in rows && OpenFor(rows[id], tenant, employee) && PastWindow(rows[id], windows, now)
    && OpenFor(if id in others then others[id] else rows[id], tenant, employee)
  }

  function Moved(rows: Table, others: Table, tenant: int, employee: int, windows: Windows, now: int): set<int> {
    set id | id in rows && Moves(rows, others, tenant, employee, windows, now, id)
  }

  function WithPersisted(rows: Table, ids: seq<int>, now: int): Table {
    map id | id in rows :: if id in ids then Persisted(rows[id], now) else rows[id]
  }

  function AuditOf(id: int, row: Row, windows: Windows, now: int): Audit {
    var w := windows(row.workDate);
    Audit(id, row.reason, row.workDate, if w.Some? then w.value.endsAt else 0, now)
  }

  function ReadOf(read: Table, id: int): Row {
    if id in read then read[id] else Row(0, 0, 0, Other, None, None, None, 0)
  }

  /** One audit row for each id, in order, with what was read of it. */
  function AuditTrail(ids: seq<int>, read: Table, windows: Windows, now: int): seq<Audit> {
    if ids == [] then []
    else
      var last := ids[|ids| - 1];
      AuditTrail(ids[..|ids| - 1], read, windows, now) + [AuditOf(last, ReadOf(read, last), windows, now)]
  }

  function OpenRows(rows: Table, tenant: int, employee: int): Table {
    map id | id in rows && OpenFor(rows[id], tenant, employee) :: rows[id]
  }

  /** Every open row of the employee has a window. */
  ghost predicate AllKnown(rows: Table, tenant: int, employee: int, windows: Windows) {
    forall id :: id in OpenRows(rows, tenant, employee) ==> windows(rows[id].workDate).Some?
  }

  lemma SameMoves(rows: Table, others: Table, tenant: int, employee: int, windows: Windows, now: int)
    ensures Moved(OpenRows(rows, tenant, employee), others, tenant, employee, windows, now)
         == Moved(rows, others, tenant, employee, windows, now)
  {
  }

  /** `view` holds the rows read, open and of the employee, or what others have since made of them. */
  ghost predicate Viewed(read: Table, others: Table, tenant: int, employee: int, view: Table) {
    forall id :: id in read ==>
      && OpenFor(read[id], tenant, employee)
      && id in view && view[id] == if id in others then others[id] else read[id]
  }

  /** The table and the audit once the rows `moved` are persisted. */
  ghost predicate Passed(
      read: Table, moved: seq<int>, windows: Windows, now: int, view: Table, rows: Table, was: seq<Audit>,
      audit: seq<Audit>)
  {
    rows == WithPersisted(view, moved, now) && audit == was + AuditTrail(moved, read, windows, now)
  }

  /** Taking the next row off `waiting` either adds it to the moved ones or leaves them. */
  lemma NextRow(
      read: Table, others: Table, tenant: int, employee: int, windows: Windows, now: int,
      waiting: set<int>, moved: seq<int>, id: int, view: Table)
    requires id in waiting && waiting <= read.Keys && Viewed(read, others, tenant, employee, view)
    requires Lists(moved, Moved(read, others, tenant, employee, windows, now) - waiting)
    ensures id !in moved
    ensures var moves := Due(read[id], windows, now) && OpenFor(view[id], tenant, employee);
      var all := Moved(read, others, tenant, employee, windows, now);
      Lists(if moves then moved + [id] else moved, all - (waiting - {id}))
  {
  }

  /** Persisting and recording one more row. */
  lemma PassOneMore(
      read: Table, moved: seq<int>, windows: Windows, now: int, view: Table, rows: Table, was: seq<Audit>,
      audit: seq<Audit>, id: int)
    requires Passed(read, moved, windows, now, view, rows, was, audit) && id in read && id in view && id !in moved
    ensures id in rows && rows[id] == view[id]
    ensures Passed(read, moved + [id], windows, now, view, rows[id := Persisted(rows[id], now)],
                   was, audit + [AuditOf(id, read[id], windows, now)])
  {
    PersistOneMore(view, moved, id, now);
    TrailOneMore(moved, id, read, windows, now);
  }

  lemma {:induction false} TrailReads(ids: seq<int>, a: Table, b: Table, windows: Windows, now: int)
    requires forall id :: id in ids ==> ReadOf(a, id) == ReadOf(b, id)
    ensures AuditTrail(ids, a, windows, now) == AuditTrail(ids, b, windows, now)
  {
    if ids != [] {
      TrailReads(ids[..|ids| - 1], a, b, windows, now);
    }
  }

  lemma PersistOneMore(rows: Table, ids: seq<int>, id: int, now: int)
    requires id in rows && id !in ids
    ensures WithPersisted(rows, ids + [id], now) == WithPersisted(rows, ids, now)[id := Persisted(rows[id], now)]
  {
  }

  lemma TrailOneMore(ids: seq<int>, id: int, read: Table, windows: Windows, now: int)
    requires id in read
    ensures AuditTrail(ids + [id], read, windows, now)
      == AuditTrail(ids, read, windows, now) + [AuditOf(id, read[id], windows, now)]
  {
    assert (ids + [id])[..|ids|] == ids;
  }

  /** What an expiry of one employee does to the table, `r` being its answer and `moved` the rows it moved. */
  ghost predicate ExpireEffect(
      before: Table, others: Table, tenant: int, employee: int, windows: Windows, now: int, broken: bool,
      r: Result<nat, Problem>, moved: seq<int>, after: Table)
  {
    && (r.Ok? <==> !broken && AllKnown(before, tenant, employee, windows))
    && (r.Ok? ==> r.value == |moved| && Lists(moved, Moved(before, others, tenant, employee, windows, now)))
    && after == if r.Ok? then WithPersisted(before + others, moved, now) else before + others
  }

  /**
   Every overdue row of the employee that others have left open is incomplete for the missed punch-out,
   and every other row is what others have made of it.
   */
  ghost predicate Expired(
      before: Table, others: Table, tenant: int, employee: int, windows: Windows, now: int, after: Table)
  {
    forall id :: id in before ==>
      var was := if id in others then others[id] else before[id];
      && id in after
      && after[id] ==
        if before[id].tenant == tenant && before[id].employee == employee && Overdue(before[id], windows, now)
           && was.tenant == tenant && was.employee == employee
           && was.status == Open && was.checkOutAt == None && was.checkOutTime == None
        then Row(tenant, employee, was.workDate, Incomplete, Some(MissedPunchOut), None, None, now)
        else was
  }

  /** One entry per row moved: the reason it had before, its date, and when that date's window ended. */
  ghost predicate Tells(trail: seq<Audit>, moved: seq<int>, before: Table, windows: Windows, now: int) {
    && |trail| == |moved|
    && forall k :: 0 <= k < |moved| ==>
      && moved[k] in before && windows(before[moved[k]].workDate).Some?
      && trail[k] == Audit(moved[k], before[moved[k]].reason, before[moved[k]].workDate,
                           windows(before[moved[k]].workDate).value.endsAt, now)
  }

  /** The rows an expiry leaves and the entries it writes, in terms of what was read and what others made of it. */
  lemma MovedMeans(
      before: Table, others: Table, tenant: int, employee: int, windows: Windows, now: int, moved: seq<int>)
    requires Lists(moved, Moved(before, others, tenant, employee, windows, now))
    ensures Expired(before, others, tenant, employee, windows, now, WithPersisted(before + others, moved, now))
    ensures Tells(AuditTrail(moved, before, windows, now), moved, before, windows, now)
  {
    forall id | id in before
      ensures id in moved <==> Moves(before, others, tenant, employee, windows, now, id)
    {
    }
    TrailAt(moved, before, windows, now);
    forall k | 0 <= k < |moved| ensures moved[k] in before && Due(before[moved[k]], windows, now) {
      assert moved[k] in moved;
    }
  }

  lemma {:induction false} TrailAt(ids: seq<int>, read: Table, windows: Windows, now: int)
    ensures |AuditTrail(ids, read, windows, now)| == |ids|
    ensures forall k :: 0 <= k < |ids| ==>
      AuditTrail(ids, read, windows, now)[k] == AuditOf(ids[k], ReadOf(read, ids[k]), windows, now)
  {
    if ids != [] {
      TrailAt(ids[..|ids| - 1], read, windows, now);
    }
  }

  class AttendanceTable {
    var rows: Table
    var audit: seq<Audit>

    constructor (rows: Table)
      ensures this.rows == rows && audit == []
    {
      this.rows, audit := rows, [];
    }

    /**
     Expires one employee's open rows. `others` are the rows other writers commit after the read;
     `broken` stands for a database error. An error undoes this transaction's writes only.
     */
    method ExpireEmployee(tenant: int, employee: int, windows: Windows, now: int, others: Table, broken: bool)
      returns (r: Result<nat, Problem>, ghost moved: seq<int>)
      modifies this
      ensures ExpireEffect(old(rows), others, tenant, employee, windows, now, broken, r, moved, rows)
      ensures audit == old(audit) + if r.Ok? then AuditTrail(moved, old(rows), windows, now) else []
      ensures r.Ok? ==> Expired(old(rows), others, tenant, employee, windows, now, rows)
      ensures r.Ok? ==> exists trail :: audit == old(audit) + trail && Tells(trail, moved, old(rows), windows, now)
    {
      var read := OpenRows(rows, tenant, employee);
      rows := rows + others;
      var savedRows, savedAudit := rows, audit;
      r, moved := ExpireRead(tenant, employee, windows, now, read, others);
      if broken {
        r := Err(Failed);
      }
      if r.Err? {
        rows, audit := savedRows, savedAudit;
      } else {
        SameMoves(old(rows), others, tenant, employee, windows, now);
        TrailReads(moved, read, old(rows), windows, now);
        MovedMeans(old(rows), others, tenant, employee, windows, now, moved);
      }
    }

    /** The pass over the rows as read, stopping at the first whose window cannot be had. */
    method ExpireRead(tenant: int, employee: int, windows: Windows, now: int, read: Table, ghost others: Table)
      returns (r: Result<nat, Problem>, ghost moved: seq<int>)
      requires Viewed(read, others, tenant, employee, rows)
      modifies this
      ensures r.Ok? <==> forall id :: id in read ==> windows(read[id].workDate).Some?
      ensures r.Ok? ==> r.value == |moved| && Lists(moved, Moved(read, others, tenant, employee, windows, now))
      ensures r.Ok? ==> rows == WithPersisted(old(rows), moved, now)
      ensures r.Ok? ==> audit == old(audit) + AuditTrail(moved, read, windows, now)
    {
      ghost var view, was, all := rows, audit, Moved(read, others, tenant, employee, windows, now);
      var waiting := read.Keys;
      var expired := 0;
      moved := [];
      while waiting != {}
        invariant waiting <= read.Keys && expired == |moved| && Lists(moved, all - waiting)
        invariant Passed(read, moved, windows, now, view, rows, was, audit)
        invariant forall id :: id in read && id !in waiting ==> windows(read[id].workDate).Some?
        decreases waiting
      {
        SomeMember(waiting);
        var id: int :| id in waiting;
        var done := ExpireNext(tenant, employee, windows, now, read, id, others, waiting, moved, view, was);
        if done.Err? {
          return Err(Failed), [];
        }
        waiting := waiting - {id};
        if done.value {
          expired := expired + 1;
          moved := moved + [id];
        }
      }
      r := Ok(expired);
    }

    method ExpireNext(
        tenant: int, employee: int, windows: Windows, now: int, read: Table, id: int,
        ghost others: Table, ghost waiting: set<int>, ghost moved: seq<int>, ghost view: Table, ghost was: seq<Audit>)
      returns (done: Result<bool, Problem>)
      requires id in waiting && waiting <= read.Keys && Viewed(read, others, tenant, employee, view)
      requires Lists(moved, Moved(read, others, tenant, employee, windows, now) - waiting)
      requires Passed(read, moved, windows, now, view, rows, was, audit)
      modifies this
      ensures done.Err? <==> windows(read[id].workDate).None?
      ensures done.Ok? ==>
        var more := if done.value then moved + [id] else moved;
        && Lists(more, Moved(read, others, tenant, employee, windows, now) - (waiting - {id}))
        && Passed(read, more, windows, now, view, rows, was, audit)
    {
      NextRow(read, others, tenant, employee, windows, now, waiting, moved, id, view);
      PassOneMore(read, moved, windows, now, view, rows, was, audit, id);
      done := ExpireRow(tenant, employee, id, read[id], windows, now);
    }

    /** One row of the pass: the conditional UPDATE of a due row and, when it hits, its audit row. */
    method ExpireRow(tenant: int, employee: int, id: int, read: Row, windows: Windows, now: int)
      returns (r: Result<bool, Problem>)
      requires id in rows
      modifies this
      ensures r.Err? <==> windows(read.workDate).None?
      ensures r.Ok? ==> (r.value <==> Due(read, windows, now) && OpenFor(old(rows)[id], tenant, employee))
      ensures rows == if r == Ok(true) then old(rows)[id := Persisted(old(rows)[id], now)] else old(rows)
      ensures audit == if r == Ok(true) then old(audit) + [AuditOf(id, read, windows, now)] else old(audit)
      ensures r == Ok(true) <==>
        && Overdue(read, windows, now)
        && old(rows)[id].tenant == tenant && old(rows)[id].employee == employee && old(rows)[id].status == Open
        && old(rows)[id].checkOutAt == None && old(rows)[id].checkOutTime == None
      ensures r == Ok(true) ==>
        var was, w := old(rows)[id], windows(read.workDate).value;
        && rows == old(rows)[id := Row(was.tenant, was.employee, was.workDate, Incomplete, Some(MissedPunchOut),
                                       was.checkOutAt, was.checkOutTime, now)]
        && audit == old(audit) + [Audit(id, read.reason, read.workDate, w.endsAt, now)]
      ensures r != Ok(true) ==> rows == old(rows) && audit == old(audit)
    {
      var w := windows(read.workDate);
      if w.None? {
        return Err(Failed);
      }
      var changed, after := DeriveExpiry(read, w.value, now);
      if !changed || !OpenFor(rows[id], tenant, employee) {
        return Ok(false);
      }
      rows := rows[id := rows[id].(status := Incomplete, reason := Some(MissedPunchOut), updatedAt := now)];
      audit := audit + [Audit(id, read.reason, read.workDate, w.value.endsAt, now)];
      r := Ok(true);
    }

    /**
     A bounded sweep: one transaction per candidate, a failed one rolled back and counted. Other
     writers may commit before each transaction and inside it; `log` says what each round did.
     */
    method Sweep(tenant: int, candidates: seq<int>, windows: Windows, rounds: seq<Round>)
      returns (expired: nat, failed: nat, ghost log: seq<Done>)
      requires |rounds| == |candidates| <= 100
      requires forall c :: c in candidates ==> c in rows && rows[c].tenant == tenant && OpenRow(rows[c])
      modifies this
      ensures Swept(old(rows), log, tenant, EmployeesOf(old(rows), candidates), windows, rounds)
      ensures |log| == |candidates| && rows == RowsAfter(old(rows), log)
      ensures Tally(log, expired, failed, old(audit), audit, windows)
      ensures forall k :: 0 <= k < |candidates| ==>
        RoundAt(old(rows), log, k, tenant, old(rows)[candidates[k]].employee, windows, rounds[k])
    {
      var employees := EmployeesOf(rows, candidates);
      ghost var start, was := rows, audit;
      expired, failed, log := 0, 0, [];
      var k := 0;
      while k < |candidates|
        invariant 0 <= k == |log| <= |candidates| && rows == RowsAfter(start, log)
        invariant Swept(start, log, tenant, employees, windows, rounds)
        invariant Tally(log, expired, failed, was, audit, windows)
      {
        expired, failed, log := NextRound(tenant, employees, windows, rounds, k, expired, failed, start, was, log);
        k := k + 1;
      }
      forall i | 0 <= i < |candidates|
        ensures RoundAt(start, log, i, tenant, start[candidates[i]].employee, windows, rounds[i])
      {
        SweptAt(start, log, tenant, employees, windows, rounds, i);
      }
    }

    /** One more round of a sweep, counted. */
    method NextRound(
        tenant: int, employees: seq<int>, windows: Windows, rounds: seq<Round>, k: nat, expired: nat, failed: nat,
        ghost start: Table, ghost was: seq<Audit>, ghost log: seq<Done>)
      returns (expired': nat, failed': nat, ghost log': seq<Done>)
      requires k == |log| < |employees| == |rounds| && rows == RowsAfter(start, log)
      requires Swept(start, log, tenant, employees, windows, rounds) && Tally(log, expired, failed, was, audit, windows)
      modifies this
      ensures |log'| == |log| + 1 && log'[..|log|] == log && rows == RowsAfter(start, log')
      ensures Swept(start, log', tenant, employees, windows, rounds)
        && Tally(log', expired', failed', was, audit, windows)
    {
      var count, done := Attempt(tenant, employees[k], windows, rounds[k]);
      RoundLogged(start, log, done, tenant, employees, windows, rounds, expired, failed, was);
      log' := log + [done];
      expired', failed' := expired, failed;
      if count.Ok? {
        expired' := expired + count.value;
      } else {
        failed' := failed + 1;
      }
    }

    /** One candidate's transaction, after whatever others committed before it. */
    method Attempt(tenant: int, employee: int, windows: Windows, round: Round)
      returns (count: Result<nat, Problem>, ghost done: Done)
      modifies this
      ensures done.count == count && done.rows == rows && RoundEffect(old(rows), done, tenant, employee, windows, round)
      ensures audit == old(audit) + AuditsOf(done.moves, windows)
    {
      rows := rows + round.before;
      ghost var read, moved := rows, [];
      count, moved := ExpireEmployee(tenant, employee, windows, round.now, round.others, round.broken);
      ghost var moves := [];
      if count.Ok? {
        moves := MovesOf(moved, read, round.now);
        TrailIsAudits(moved, read, windows, round.now);
        assert Ids(moves) == moved;
      }
      done := Done(rows, count, moves);
    }
  }

  // ---------------------------------------------------------------- what a sweep did

  /** What others commit before a round and inside it, its clock reading, and whether the database fails. */
  datatype Round = Round(before: Table, now: int, others: Table, broken: bool)

  /** A row as it was read when it was found due. */
  datatype Move = Move(id: int, row: Row, at: int)

  /** A finished round: the table, what the transaction answered, and the rows it moved. */
  datatype Done = Done(rows: Table, count: Result<nat, Problem>, moves: seq<Move>)

  function EmployeesOf(rows: Table, candidates: seq<int>): seq<int> {
    seq(|candidates|, i requires 0 <= i < |candidates| => ReadOf(rows, candidates[i]).employee)
  }

  /** The round moved exactly what its employee's expiry moves, or failed and left only others' writes. */
  ghost predicate RoundEffect(before: Table, done: Done, tenant: int, employee: int, windows: Windows, round: Round) {
    var read := before + round.before;
    && ExpireEffect(read, round.others, tenant, employee, windows, round.now, round.broken, done.count,
        Ids(done.moves), done.rows)
    && done.moves == if done.count.Ok? then MovesOf(Ids(done.moves), read, round.now) else []
  }

  ghost function RowsAfter(start: Table, log: seq<Done>): Table {
    if log == [] then start else log[|log| - 1].rows
  }

  ghost function MovesIn(log: seq<Done>): seq<Move> {
    if log == [] then [] else MovesIn(log[..|log| - 1]) + log[|log| - 1].moves
  }

  ghost function FailuresIn(log: seq<Done>): nat {
    if log == [] then 0 else FailuresIn(log[..|log| - 1]) + if log[|log| - 1].count.Err? then 1 else 0
  }

  /** The counts are those of the log, and every move has its audit row, in order. */
  ghost predicate Tally(
      log: seq<Done>, expired: nat, failed: nat, before: seq<Audit>, after: seq<Audit>, windows: Windows) {
    expired == |MovesIn(log)| && failed == FailuresIn(log) && after == before + AuditsOf(MovesIn(log), windows)
  }

  lemma TallyOneMore(log: seq<Done>, done: Done, expired: nat, failed: nat, was: seq<Audit>, windows: Windows)
    requires Tally(log, expired, failed, was, was + AuditsOf(MovesIn(log), windows), windows)
    requires if done.count.Ok? then done.count.value == |done.moves| else done.moves == []
    ensures Tally(log + [done], if done.count.Ok? then expired + done.count.value else expired,
                  if done.count.Ok? then failed else failed + 1, was,
                  was + AuditsOf(MovesIn(log), windows) + AuditsOf(done.moves, windows), windows)
  {
    LogOneMore(log, done);
    AuditsConcat(MovesIn(log), done.moves, windows);
    var a, b := AuditsOf(MovesIn(log), windows), AuditsOf(done.moves, windows);
    assert was + a + b == was + (a + b);
  }

  lemma LogOneMore(log: seq<Done>, done: Done)
    ensures MovesIn(log + [done]) == MovesIn(log) + done.moves
    ensures FailuresIn(log + [done]) == FailuresIn(log) + if done.count.Err? then 1 else 0
  {
    assert (log + [done])[..|log|] == log;
  }

  /** The rounds logged so far have their effects, one after another. */
  ghost predicate Swept(
      start: Table, log: seq<Done>, tenant: int, employees: seq<int>, windows: Windows, rounds: seq<Round>)
    decreases |log|
  {
    && |log| <= |employees| == |rounds|
    && (log != [] ==>
          var n := |log| - 1;
          && Swept(start, log[..n], tenant, employees, windows, rounds)
          && RoundEffect(RowsAfter(start, log[..n]), log[n], tenant, employees[n], windows, rounds[n]))
  }

  /** Whatever others do, every row a sweep moves and records was due when read. */
  lemma {:induction false} SweptMovesAreDue(
      start: Table, log: seq<Done>, tenant: int, employees: seq<int>, windows: Windows, rounds: seq<Round>)
    requires Swept(start, log, tenant, employees, windows, rounds)
    ensures AllDue(MovesIn(log), tenant, windows)
    decreases |log|
  {
    if log != [] {
      var n := |log| - 1;
      SweptMovesAreDue(start, log[..n], tenant, employees, windows, rounds);
      if log[n].count.Ok? {
        var read := RowsAfter(start, log[..n]) + rounds[n].before;
        MovesAreDue(Ids(log[n].moves), read, rounds[n].others, tenant, employees[n], windows, rounds[n].now);
      }
    }
  }

  lemma SweptOneMore(
      start: Table, log: seq<Done>, done: Done, tenant: int, employees: seq<int>, windows: Windows, rounds: seq<Round>)
    requires |log| < |employees| == |rounds|
    requires Swept(start, log, tenant, employees, windows, rounds)
    requires RoundEffect(RowsAfter(start, log), done, tenant, employees[|log|], windows, rounds[|log|])
    ensures Swept(start, log + [done], tenant, employees, windows, rounds)
  {
    assert (log + [done])[..|log|] == log;
  }

  /** One more round, on plain values. */
  lemma RoundLogged(
      start: Table, log: seq<Done>, done: Done, tenant: int, employees: seq<int>, windows: Windows, rounds: seq<Round>,
      expired: nat, failed: nat, was: seq<Audit>)
    requires |log| < |employees| == |rounds| && Swept(start, log, tenant, employees, windows, rounds)
    requires RoundEffect(RowsAfter(start, log), done, tenant, employees[|log|], windows, rounds[|log|])
    requires Tally(log, expired, failed, was, was + AuditsOf(MovesIn(log), windows), windows)
    ensures Swept(start, log + [done], tenant, employees, windows, rounds)
    ensures Tally(log + [done], if done.count.Ok? then expired + done.count.value else expired,
                  if done.count.Ok? then failed else failed + 1, was,
                  was + AuditsOf(MovesIn(log), windows) + AuditsOf(done.moves, windows), windows)
    ensures RowsAfter(start, log + [done]) == done.rows
  {
    SweptOneMore(start, log, done, tenant, employees, windows, rounds);
    TallyOneMore(log, done, expired, failed, was, windows);
  }

  /** Every round of a sweep has its effect on what the ones before left. */
  ghost predicate RoundAt(
      start: Table, log: seq<Done>, k: nat, tenant: int, employee: int, windows: Windows, round: Round)
    requires k < |log|
  {
    RoundEffect(RowsAfter(start, log[..k]), log[k], tenant, employee, windows, round)
  }

  lemma {:induction false} SweptAt(
      start: Table, log: seq<Done>, tenant: int, employees: seq<int>, windows: Windows, rounds: seq<Round>, k: nat)
    requires Swept(start, log, tenant, employees, windows, rounds) && k < |log|
    ensures RoundAt(start, log, k, tenant, employees[k], windows, rounds[k])
    decreases |log|
  {
    var init := log[..|log| - 1];
    if k < |init| {
      SweptAt(start, init, tenant, employees, windows, rounds, k);
      SameRound(start, init, log, k, tenant, employees[k], windows, rounds[k]);
    }
  }

  lemma SameRound(
      start: Table, a: seq<Done>, b: seq<Done>, k: nat, tenant: int, employee: int, windows: Windows, round: Round)
    requires k < |a| < |b| && a == b[..|a|]
    ensures RoundAt(start, a, k, tenant, employee, windows, round) ==
      RoundAt(start, b, k, tenant, employee, windows, round)
  {
    assert a[..k] == b[..k] && a[k] == b[k];
  }

  ghost predicate Quiet(rounds: seq<Round>) {
    forall k :: 0 <= k < |rounds| ==> rounds[k].before == map[] && rounds[k].others == map[]
  }

  ghost function Ids(moves: seq<Move>): (ids: seq<int>)
    ensures |ids| == |moves| && forall i :: 0 <= i < |ids| ==> ids[i] == moves[i].id
  {
    seq(|moves|, i requires 0 <= i < |moves| => moves[i].id)
  }

  ghost function AuditsOf(moves: seq<Move>, windows: Windows): (entries: seq<Audit>)
    ensures |entries| == |moves| && forall i :: 0 <= i < |entries| ==>
      entries[i] == AuditOf(moves[i].id, moves[i].row, windows, moves[i].at)
  {
    seq(|moves|, i requires 0 <= i < |moves| => AuditOf(moves[i].id, moves[i].row, windows, moves[i].at))
  }

  ghost function MovesOf(ids: seq<int>, read: Table, now: int): (moves: seq<Move>)
    ensures |moves| == |ids| && forall i :: 0 <= i < |ids| ==> moves[i] == Move(ids[i], ReadOf(read, ids[i]), now)
  {
    seq(|ids|, i requires 0 <= i < |ids| => Move(ids[i], ReadOf(read, ids[i]), now))
  }

  lemma {:induction false} TrailIsAudits(ids: seq<int>, read: Table, windows: Windows, now: int)
    ensures AuditTrail(ids, read, windows, now) == AuditsOf(MovesOf(ids, read, now), windows)
  {
    if ids != [] {
      TrailIsAudits(ids[..|ids| - 1], read, windows, now);
    }
  }

  lemma MovesAreDue(ids: seq<int>, read: Table, others: Table, tenant: int, employee: int, windows: Windows, now: int)
    requires Lists(ids, Moved(read, others, tenant, employee, windows, now))
    ensures forall m :: m in MovesOf(ids, read, now) ==> m.row.tenant == tenant && Due(m.row, windows, m.at)
  {
    forall m | m in MovesOf(ids, read, now) ensures m.row.tenant == tenant && Due(m.row, windows, m.at) {
      assert m.id in ids && Moves(read, others, tenant, employee, windows, now, m.id);
    }
  }

  ghost predicate AllDue(moves: seq<Move>, tenant: int, windows: Windows) {
    forall m :: m in moves ==> m.row.tenant == tenant && Due(m.row, windows, m.at)
  }

  ghost predicate QuietEffect(start: Table, rows: Table, moves: seq<Move>) {
    Distinct(Ids(moves)) && OnlyMoved(start, rows, Ids(moves))
  }

  lemma AuditsConcat(a: seq<Move>, b: seq<Move>, windows: Windows)
    ensures AuditsOf(a + b, windows) == AuditsOf(a, windows) + AuditsOf(b, windows)
  {
  }

  /** The listed rows went from open without checkout to incomplete, and no other row changed at all. */
  ghost predicate OnlyMoved(before: Table, after: Table, ids: seq<int>) {
    && before.Keys == after.Keys
    && (forall id :: id in ids ==> id in before)
    && forall id :: id in before ==>
         if id in ids then OpenRow(before[id]) && after[id] == Persisted(before[id], after[id].updatedAt)
         else after[id] == before[id]
  }

  /** With nobody else writing, the rounds together move each row at most once and touch nothing else. */
  lemma {:induction false} QuietSweep(
      start: Table, log: seq<Done>, tenant: int, employees: seq<int>, windows: Windows, rounds: seq<Round>)
    requires Swept(start, log, tenant, employees, windows, rounds) && Quiet(rounds)
    ensures QuietEffect(start, RowsAfter(start, log), MovesIn(log))
    decreases |log|
  {
    if log != [] {
      var n := |log| - 1;
      var before := RowsAfter(start, log[..n]);
      QuietSweep(start, log[..n], tenant, employees, windows, rounds);
      assert rounds[n].before == map[] && rounds[n].others == map[] && before + map[] == before;
      if log[n].count.Ok? {
        QuietRound(before, log[n].rows, Ids(log[n].moves), tenant, employees[n], windows, rounds[n].now);
      }
      QuietEffectsCompose(start, before, log[n].rows, MovesIn(log[..n]), log[n].moves);
    }
  }

  lemma QuietRound(start: Table, after: Table, moved: seq<int>, tenant: int, employee: int, windows: Windows, now: int)
    requires Lists(moved, Moved(start, map[], tenant, employee, windows, now))
    requires after == WithPersisted(start + map[], moved, now)
    ensures QuietEffect(start, after, MovesOf(moved, start, now))
  {
    assert start + map[] == start;
    assert Ids(MovesOf(moved, start, now)) == moved;
  }

  /** A row once moved is no longer open, so two quiet transactions never move the same row. */
  lemma QuietEffectsCompose(start: Table, middle: Table, after: Table, moves: seq<Move>, more: seq<Move>)
    requires QuietEffect(start, middle, moves) && QuietEffect(middle, after, more)
    ensures QuietEffect(start, after, moves + more)
  {
    var first, second := Ids(moves), Ids(more);
    assert Ids(moves + more) == first + second;
    forall id: int | id in second ensures id !in first {
      assert OpenRow(middle[id]);
    }
    assert Distinct(first + second) by {
      forall i, j | 0 <= i < j < |first + second| ensures (first + second)[i] != (first + second)[j] {
        if i < |first| <= j { assert second[j - |first|] in second && first[i] in first; }
      }
    }
    forall id: int | id in start
      ensures
        if id in first + second then OpenRow(start[id]) && after[id] == Persisted(start[id], after[id].updatedAt)
        else after[id] == start[id]
    {
      assert id in first + second <==> id in first || id in second;
    }
  }

  /**
   With nobody else writing, `expired` is the number of rows that went from open to incomplete, also
   when one employee was a candidate several times; every other row is untouched.
   */
  lemma ExpiredCountsChanges(
      start: Table, log: seq<Done>, tenant: int, employees: seq<int>, windows: Windows, rounds: seq<Round>)
    requires Swept(start, log, tenant, employees, windows, rounds) && Quiet(rounds)
    ensures var end := RowsAfter(start, log);
      && start.Keys == end.Keys
      && |MovesIn(log)| == |set id | id in start && start[id].status.Open? && end[id].status.Incomplete?|
      && (forall id :: id in start && end[id] != start[id] ==> OpenRow(start[id]) && end[id].status.Incomplete?)
      && (forall id :: id in start ==>
            end[id].checkOutAt == start[id].checkOutAt && end[id].checkOutTime == start[id].checkOutTime)
  {
    QuietSweep(start, log, tenant, employees, windows, rounds);
    CountChanges(start, RowsAfter(start, log), MovesIn(log));
  }

  lemma CountChanges(before: Table, after: Table, moves: seq<Move>)
    requires QuietEffect(before, after, moves)
    ensures |moves| == |set id | id in before && before[id].status.Open? && after[id].status.Incomplete?|
  {
    var changed := set id | id in before && before[id].status.Open? && after[id].status.Incomplete?;
    assert Lists(Ids(moves), changed);
    ListCounts(Ids(moves), changed);
  }

  /**
   However others interfere, an expiry changes only rows that were past their window when read and
   are open without checkout when written, and it writes no checkout.
   */
  lemma ExpiryTouchesDueRowsOnly(
      rows: Table, others: Table, moved: seq<int>, tenant: int, employee: int, windows: Windows, now: int, id: int)
    requires Lists(moved, Moved(rows, others, tenant, employee, windows, now)) && id in rows
    ensures var view, after := (rows + others)[id], WithPersisted(rows + others, moved, now)[id];
      && (after != view ==>
            PastWindow(rows[id], windows, now) && OpenFor(view, tenant, employee) && after.status.Incomplete?)
      && after.checkOutAt == view.checkOutAt && after.checkOutTime == view.checkOutTime
      && after.workDate == view.workDate
  {
    if id in moved {
      assert Moves(rows, others, tenant, employee, windows, now, id);
    }
  }

  /**
   With nobody else writing, expiring an employee persists a row as incomplete exactly when the row is
   shown so at that instant and the expiry as a whole goes through: every open row of the employee has
   a window and the database does not fail. It then persists what is shown.
   */
  lemma PersistedIffShown(
      rows: Table, windows: Windows, now: int, broken: bool, r: Result<nat, Problem>, moved: seq<int>, after: Table,
      id: int)
    requires id in rows
    requires ExpireEffect(rows, map[], rows[id].tenant, rows[id].employee, windows, now, broken, r, moved, after)
    ensures id in after
    ensures rows[id].status.Open? && after[id].status.Incomplete? <==>
      && Shown(rows[id], windows, now) != rows[id]
      && AllKnown(rows, rows[id].tenant, rows[id].employee, windows) && !broken
    ensures after[id] != rows[id] ==> Shown(rows[id], windows, now) == after[id].(updatedAt := rows[id].updatedAt)
  {
    assert rows + map[] == rows;
    if r.Ok? {
      var x: int := id;
      assert x in moved <==> x in Moved(rows, map[], rows[id].tenant, rows[id].employee, windows, now);
    }
  }

  function FirstDateOnly(date: int): Option<Window> {
    if date == 1 then Some(Window(1, 5)) else None
  }

  /**
   A row can be shown as incomplete and not be persisted so: another open day of the same employee has
   no window, which ends the employee's whole transaction.
   */
  lemma ShownButNotPersisted(
      shown: seq<Row>, p: Result<(), Problem>, r: Result<nat, Problem>, moved: seq<int>, after: Table)
    ensures var first, second := Row(1, 10, 1, Open, None, None, None, 0), Row(1, 10, 2, Open, None, None, None, 0);
      var rows := map[1 := first, 2 := second];
      && (ProjectEffect([first], shown, 1, FirstDateOnly, 5, p) ==> p.Ok? && shown[0].status.Incomplete?)
      && (ExpireEffect(rows, map[], 1, 10, FirstDateOnly, 5, false, r, moved, after) ==> r.Err? && after == rows)
  {
    var first, second := Row(1, 10, 1, Open, None, None, None, 0), Row(1, 10, 2, Open, None, None, None, 0);
    var rows := map[1 := first, 2 := second];
    assert 2 in OpenRows(rows, 1, 10) && FirstDateOnly(rows[2].workDate).None?;
    assert rows + map[] == rows;
    assert Projectable([first][0], 1, FirstDateOnly) && Due(first, FirstDateOnly, 5);
  }
}
