/**
 Due offboarding: a conditional update of the separation row decides one winner, whose transaction
 deactivates the account and writes the event. Sweeps count their wins.
 */
module Offboarding {
  import opened Outcomes
  import opened Sums

  datatype Separation = Separation(employee: int, approved: bool, lastDay: int, offboardedAt: Option<int>,
    eventId: Option<int>)

  datatype Employee = Employee(user: Option<int>, inactive: bool, deleted: bool)

  datatype User = User(active: bool, deleted: bool)

  /** `sessions` maps a session to its user, `events` an offboarding event to its separation. */
  datatype Db = Db(
    separations: map<int, Separation>, employees: map<int, Employee>, users: map<int, User>,
    sessions: map<int, int>, events: map<int, int>)

  datatype Outcome = Won | NotDue | EmployeeMissing

  predicate DueSeparation(db: Db, id: int, day: int) {
    id in db.separations && db.separations[id].approved && db.separations[id].lastDay <= day
    && db.separations[id].offboardedAt.None?
  }

  function OutcomeOf(db: Db, id: int, day: int): Outcome {
    if !DueSeparation(db, id, day) then NotDue
    else
      var e := db.separations[id].employee;
      if e !in db.employees || db.employees[e].deleted then EmployeeMissing else Won
  }

  /** The winner's writes. */
  function Offboarded(db: Db, id: int, at: int, event: int): Db
    requires id in db.separations && db.separations[id].employee in db.employees
  {
    var sep := db.separations[id];
    var emp := db.employees[sep.employee];
    var marked := db.(
      separations := db.separations[id := sep.(offboardedAt := Some(at), eventId := Some(event))],
      employees := db.employees[sep.employee := emp.(inactive := true)],
      events := db.events[event := id]);
    match emp.user
    case None => marked
    case Some(u) =>
      marked.(
        users := if u in db.users && !db.users[u].deleted then db.users[u := db.users[u].(active := false)]
          else db.users,
        sessions := map k | k in db.sessions && db.sessions[k] != u :: db.sessions[k])
  }

  function AfterCall(db: Db, id: int, day: int, at: int, event: int): Db {
    if OutcomeOf(db, id, day) == Won then Offboarded(db, id, at, event) else db
  }

  /** The tenant database with its transaction, statement by statement; a missing employee rolls back. */
  class TenantDatabase {
    var separations: map<int, Separation>
    var employees: map<int, Employee>
    var users: map<int, User>
    var sessions: map<int, int>
    var events: map<int, int>

    ghost function Contents(): Db
      reads this
    {
      Db(separations, employees, users, sessions, events)
    }

    constructor (db: Db)
      ensures Contents() == db
    {
      separations, employees, users, sessions, events := db.separations, db.employees, db.users, db.sessions, db.events;
    }

    method OffboardApprovedSeparation(id: int, day: int, at: int, event: int) returns (r: Result<bool, ()>)
      modifies this
      ensures Contents() == old(AfterCall(Contents(), id, day, at, event))
      ensures r == match old(OutcomeOf(Contents(), id, day))
        case Won => Ok(true)
        case NotDue => Ok(false)
        case EmployeeMissing => Err(())
      ensures r == Ok(true) || r.Err? <==>
        && id in old(separations) && old(separations)[id].approved && old(separations)[id].lastDay <= day
        && old(separations)[id].offboardedAt == None
      ensures r.Err? ==>
        var e := old(separations)[id].employee;
        e in old(employees) ==> old(employees)[e].deleted
      ensures r != Ok(true) ==>
        && separations == old(separations) && employees == old(employees) && users == old(users)
        && sessions == old(sessions) && events == old(events)
      ensures r == Ok(true) ==>
        var sep := old(separations)[id];
        && sep.employee in old(employees) && !old(employees)[sep.employee].deleted
        && var emp := old(employees)[sep.employee];
        && separations == old(separations)[id := Separation(sep.employee, true, sep.lastDay, Some(at), Some(event))]
        && employees == old(employees)[sep.employee := Employee(emp.user, true, false)]
        && events == old(events)[event := id]
        && (emp.user.None? ==> users == old(users) && sessions == old(sessions))
        && (emp.user.Some? ==>
              && users.Keys == old(users).Keys
              && (forall u :: u in users ==>
                    && users[u].deleted == old(users)[u].deleted
                    && users[u].active == (old(users)[u].active && (u != emp.user.value || old(users)[u].deleted)))
              && (forall k :: k in sessions <==> k in old(sessions) && old(sessions)[k] != emp.user.value)
              && (forall k :: k in sessions ==> sessions[k] == old(sessions)[k]))
    {
      if !(id in separations && separations[id].approved && separations[id].lastDay <= day
        && separations[id].offboardedAt.None?) {
        return Ok(false);
      }
      var before := separations;
      var employee := separations[id].employee;
      separations := separations[id := separations[id].(offboardedAt := Some(at), eventId := Some(event))];
      if employee !in employees || employees[employee].deleted {
        separations := before;
        return Err(());
      }
      var user := employees[employee].user;
      employees := employees[employee := employees[employee].(inactive := true)];
      if user.Some? {
        var u := user.value;
        if u in users && !users[u].deleted {
          users := users[u := users[u].(active := false)];
        }
        sessions := map k | k in sessions && sessions[k] != u :: sessions[k];
      }
      events := events[event := id];
      r := Ok(true);
    }

    /**
     A sweep nobody disturbs over the scanned separations, each in its own transaction, up to the
     first one whose employee is missing. What was committed before that stays; its count is lost.
     */
    method ProcessDueSeparations(ids: seq<int>, day: int, clock: seq<int>, newEvents: seq<int>)
      returns (r: Result<nat, ()>, ghost done: nat)
      requires |clock| == |newEvents| == |ids|
      modifies this
      ensures done <= |ids| && Contents() == AfterCalls(old(Contents()), ids, day, clock, newEvents, done)
      ensures r.Ok? <==> forall k :: 0 <= k < |ids| ==> OutcomeOf(old(Contents()), ids[k], day) != EmployeeMissing
      ensures r.Ok? ==> done == |ids| && r.value == WinsOf(old(Contents()), ids, day, clock, newEvents, done)
      ensures r.Err? ==> FirstMissing(old(Contents()), ids, day, done)
      ensures forall k ::
        && 0 <= k < done && ids[k] in old(separations) && old(separations)[ids[k]].approved
        && old(separations)[ids[k]].lastDay <= day ==>
        ids[k] in separations && separations[ids[k]].offboardedAt.Some?
    {
      ghost var start := Contents();
      var processed := 0;
      done := 0;
      for i := 0 to |ids|
        invariant done == i && Contents() == AfterCalls(start, ids, day, clock, newEvents, i)
        invariant processed == WinsOf(start, ids, day, clock, newEvents, i)
        invariant forall k :: 0 <= k < i ==> OutcomeOf(start, ids[k], day) != EmployeeMissing
      {
        CallsKeepMissing(start, ids, day, clock, newEvents, i, ids[i]);
        var didProcess := OffboardApprovedSeparation(ids[i], day, clock[i], newEvents[i]);
        if didProcess.Err? {
          DueOnesOffboarded(start, ids, day, clock, newEvents, done);
          return Err(()), done;
        }
        processed := processed + if didProcess.value then 1 else 0;
        done := done + 1;
      }
      DueOnesOffboarded(start, ids, day, clock, newEvents, done);
      r := Ok(processed);
    }
  }

  /** Every due separation among the first `n`, none of which lacks a live employee, is offboarded. */
  lemma DueOnesOffboarded(db: Db, ids: seq<int>, day: int, clock: seq<int>, newEvents: seq<int>, n: nat)
    requires n <= |ids| == |clock| == |newEvents|
    requires forall k :: 0 <= k < n ==> OutcomeOf(db, ids[k], day) != EmployeeMissing
    ensures forall k ::
      && 0 <= k < n && ids[k] in db.separations && db.separations[ids[k]].approved
      && db.separations[ids[k]].lastDay <= day ==>
      OffboardedIn(AfterCalls(db, ids, day, clock, newEvents, n), ids[k])
  {
    forall k | 0 <= k < n && ids[k] in db.separations && db.separations[ids[k]].approved
      && db.separations[ids[k]].lastDay <= day
      ensures OffboardedIn(AfterCalls(db, ids, day, clock, newEvents, n), ids[k])
    {
      CallsOffboard(db, ids, day, clock, newEvents, n, ids[k]);
      assert ids[..n][k] == ids[k];
    }
  }

  /** `ids[n]` is the first scanned separation that is due without a live employee. */
  predicate FirstMissing(db: Db, ids: seq<int>, day: int, n: nat) {
    && n < |ids| && OutcomeOf(db, ids[n], day) == EmployeeMissing
    && forall k :: 0 <= k < n ==> OutcomeOf(db, ids[k], day) != EmployeeMissing
  }

  /** The database after the first `n` calls, one after another. */
  function AfterCalls(db: Db, ids: seq<int>, day: int, clock: seq<int>, newEvents: seq<int>, n: nat): Db
    requires n <= |ids| == |clock| == |newEvents|
  {
    if n == 0 then db
    else AfterCall(AfterCalls(db, ids, day, clock, newEvents, n - 1), ids[n - 1], day, clock[n - 1], newEvents[n - 1])
  }

  function WinsOf(db: Db, ids: seq<int>, day: int, clock: seq<int>, newEvents: seq<int>, n: nat): nat
    requires n <= |ids| == |clock| == |newEvents|
  {
    if n == 0 then 0
    else
      WinsOf(db, ids, day, clock, newEvents, n - 1)
      + WinCount(AfterCalls(db, ids, day, clock, newEvents, n - 1), ids[n - 1], day)
  }

  lemma {:induction false} EventComesFrom(
      db: Db, ids: seq<int>, day: int, clock: seq<int>, newEvents: seq<int>, n: nat, e: int)
    requires n <= |ids| == |clock| == |newEvents|
    requires e in AfterCalls(db, ids, day, clock, newEvents, n).events
    ensures e in db.events || e in newEvents[..n]
  {
    if n > 0 {
      assert newEvents[..n] == newEvents[..n - 1] + [newEvents[n - 1]];
      if e != newEvents[n - 1] {
        EventComesFrom(db, ids, day, clock, newEvents, n - 1, e);
      }
    }
  }

  /** The first `n` calls kept separations and events matched and added one event per win. */
  /** Separations and events are matched, and there are `wins` more events than before. */
  ghost predicate Grown(before: Db, after: Db, wins: int) {
    Matched(after) && |after.events| == |before.events| + wins
  }

  /** Fresh ids for the first `n` events. */
  ghost predicate Fresh(db: Db, newEvents: seq<int>, n: nat)
    requires n <= |newEvents|
  {
    && (forall k :: 0 <= k < n ==> newEvents[k] !in db.events)
    && forall j, k :: 0 <= j < k < n ==> newEvents[j] != newEvents[k]
  }

  /** The calls of a sweep with fresh event ids add exactly one event per win. */
  lemma WinsAreNewEvents(db: Db, ids: seq<int>, day: int, clock: seq<int>, newEvents: seq<int>, n: nat)
    requires n <= |ids| == |clock| == |newEvents| && Matched(db) && Fresh(db, newEvents, n)
    ensures Grown(db, AfterCalls(db, ids, day, clock, newEvents, n), WinsOf(db, ids, day, clock, newEvents, n))
  {
    var G := (after: Db, wins: int) => Grown(db, after, wins);
    forall before: Db, wins: int, id: int, at: int, event: int | G(before, wins) && event !in before.events
      ensures G(AfterCall(before, id, day, at, event), wins + WinCount(before, id, day))
    {
      NextCall(db, before, wins, id, day, at, event);
    }
    CallsKeep(G, db, ids, day, clock, newEvents, n);
  }

  function WinCount(db: Db, id: int, day: int): nat {
    if OutcomeOf(db, id, day) == Won then 1 else 0
  }

  ghost predicate KeptByCalls(G: (Db, int) -> bool, day: int) {
    forall before: Db, wins: int, id: int, at: int, event: int ::
      G(before, wins) && event !in before.events ==>
      G(AfterCall(before, id, day, at, event), wins + WinCount(before, id, day))
  }

  lemma KeptByCall(G: (Db, int) -> bool, before: Db, wins: int, id: int, day: int, at: int, event: int)
    requires KeptByCalls(G, day) && G(before, wins) && event !in before.events
    ensures G(AfterCall(before, id, day, at, event), wins + WinCount(before, id, day))
  {
  }

  /** What every call with a fresh event keeps, counting the wins, holds after any number of calls. */
  lemma {:induction false} CallsKeep(
      G: (Db, int) -> bool, db: Db, ids: seq<int>, day: int, clock: seq<int>, newEvents: seq<int>, n: nat)
    requires n <= |ids| == |clock| == |newEvents| && Fresh(db, newEvents, n) && G(db, 0) && KeptByCalls(G, day)
    ensures G(AfterCalls(db, ids, day, clock, newEvents, n), WinsOf(db, ids, day, clock, newEvents, n))
  {
    if n > 0 {
      CallsKeep(G, db, ids, day, clock, newEvents, n - 1);
      EventStillNew(db, ids, day, clock, newEvents, n);
      KeptByCall(G, AfterCalls(db, ids, day, clock, newEvents, n - 1), WinsOf(db, ids, day, clock, newEvents, n - 1),
        ids[n - 1], day, clock[n - 1], newEvents[n - 1]);
    }
  }

  lemma NextCall(db: Db, before: Db, wins: int, id: int, day: int, at: int, event: int)
    requires Grown(db, before, wins) && event !in before.events
    ensures Grown(db, AfterCall(before, id, day, at, event), wins + WinCount(before, id, day))
  {
    CallKeepsMatched(before, id, day, at, event);
  }

  lemma EventStillNew(db: Db, ids: seq<int>, day: int, clock: seq<int>, newEvents: seq<int>, n: nat)
    requires 0 < n <= |ids| == |clock| == |newEvents| && Fresh(db, newEvents, n)
    ensures newEvents[n - 1] !in AfterCalls(db, ids, day, clock, newEvents, n - 1).events
  {
    if newEvents[n - 1] in AfterCalls(db, ids, day, clock, newEvents, n - 1).events {
      EventComesFrom(db, ids, day, clock, newEvents, n - 1, newEvents[n - 1]);
    }
  }

  /** The user cannot sign in and only that user's sessions are gone. */
  ghost predicate SignedOut(before: Db, after: Db, u: int) {
    && (u in after.users && !after.users[u].deleted ==> !after.users[u].active)
    && (forall k :: k in after.sessions <==> k in before.sessions && before.sessions[k] != u)
    && (forall k :: k in after.sessions ==> after.sessions[k] == before.sessions[k])
  }

  /** Calls neither cure nor cause a missing employee. */
  lemma {:induction false} CallsKeepMissing(
      db: Db, ids: seq<int>, day: int, clock: seq<int>, newEvents: seq<int>, n: nat, id: int)
    requires n <= |ids| == |clock| == |newEvents|
    ensures OutcomeOf(AfterCalls(db, ids, day, clock, newEvents, n), id, day) == EmployeeMissing <==>
            OutcomeOf(db, id, day) == EmployeeMissing
  {
    if n > 0 {
      CallsKeepMissing(db, ids, day, clock, newEvents, n - 1, id);
    }
  }

  predicate OffboardedIn(db: Db, id: int) {
    id in db.separations && db.separations[id].offboardedAt.Some?
  }

  /** Which separations the first `n` calls offboard, told from the database before them. */
  lemma {:induction false} CallsOffboard(
      db: Db, ids: seq<int>, day: int, clock: seq<int>, newEvents: seq<int>, n: nat, id: int)
    requires n <= |ids| == |clock| == |newEvents|
    ensures var after := AfterCalls(db, ids, day, clock, newEvents, n);
      && (OffboardedIn(after, id) <==> OffboardedIn(db, id) || (OutcomeOf(db, id, day) == Won && id in ids[..n]))
      && (!OffboardedIn(after, id) ==> OutcomeOf(after, id, day) == OutcomeOf(db, id, day))
  {
    if n > 0 {
      CallsOffboard(db, ids, day, clock, newEvents, n - 1, id);
      assert ids[..n] == ids[..n - 1] + [ids[n - 1]];
    }
  }

  /** A separation that was open before is offboarded afterwards. */
  ghost predicate WinBetween(before: Db, after: Db) {
    exists id :: !OffboardedIn(before, id) && OffboardedIn(after, id)
  }

  /**
   A sweep that ends in an error hides a win exactly when some separation scanned before the first one
   without a live employee was due with a live one.
   */
  lemma ErrorHidesWinIff(db: Db, ids: seq<int>, day: int, clock: seq<int>, newEvents: seq<int>, done: nat)
    requires |ids| == |clock| == |newEvents| && FirstMissing(db, ids, day, done)
    ensures WinBetween(db, AfterCalls(db, ids, day, clock, newEvents, done)) <==>
            exists k :: 0 <= k < done && OutcomeOf(db, ids[k], day) == Won
  {
    var after := AfterCalls(db, ids, day, clock, newEvents, done);
    if WinBetween(db, after) {
      var id :| !OffboardedIn(db, id) && OffboardedIn(after, id);
      CallsOffboard(db, ids, day, clock, newEvents, done, id);
      var k :| 0 <= k < done && ids[..done][k] == id;
      assert ids[k] == id;
    }
    if k :| 0 <= k < done && OutcomeOf(db, ids[k], day) == Won {
      CallsOffboard(db, ids, day, clock, newEvents, done, ids[k]);
      assert ids[..done][k] == ids[k];
      assert !OffboardedIn(db, ids[k]) && OffboardedIn(after, ids[k]);
    }
  }

  /** Winning ends the account: the employee is inactive, the user cannot sign in and has no session. */
  lemma WinnerDeactivates(db: Db, id: int, day: int, at: int, event: int)
    requires OutcomeOf(db, id, day) == Won
    ensures var t := AfterCall(db, id, day, at, event);
      var e := db.separations[id].employee;
      && t.employees[e].inactive && !DueSeparation(t, id, day)
      && (forall u :: db.employees[e].user == Some(u) ==> SignedOut(db, t, u))
      && (forall i :: i in db.separations && i != id ==> t.separations[i] == db.separations[i])
  {
  }

  // ---------------------------------------------------------------- concurrent callers

  datatype Sweep = Sweep(left: seq<int>, day: int, processed: nat)

  /** `direct` and `reported` are the wins callers were told about; `lost` those of sweeps that never returned. */
  datatype System = System(db: Db, sweeps: map<int, Sweep>, direct: nat, reported: nat, lost: nat)

  datatype Step =
    | Direct(id: int, day: int, at: int, event: int)
    | Start(w: int, day: int, ids: seq<int>)
    | Next(w: int, at: int, event: int)
    | Finish(w: int)
    | Crash(w: int)
    | Elsewhere(db: Db)

  /** Other writers never touch the offboarding columns or events of existing separations. */
  ghost predicate OthersMay(before: Db, after: Db) {
    && after.events == before.events
    && (forall i :: i in before.separations ==>
          && i in after.separations
          && after.separations[i].offboardedAt == before.separations[i].offboardedAt
          && after.separations[i].eventId == before.separations[i].eventId)
    && (forall i :: i in after.separations && i !in before.separations ==>
          after.separations[i].offboardedAt.None? && after.separations[i].eventId.None?)
  }

  ghost predicate CanStep(s: System, step: Step) {
    match step
    case Direct(_, _, _, event) => event !in s.db.events
    case Start(w, day, ids) => w !in s.sweeps && forall i :: i in ids ==> DueSeparation(s.db, i, day)
    case Next(w, _, event) => w in s.sweeps && s.sweeps[w].left != [] && event !in s.db.events
    case Finish(w) => w in s.sweeps && s.sweeps[w].left == []
    case Crash(w) => w in s.sweeps
    case Elsewhere(db) => OthersMay(s.db, db)
  }

  ghost function Do(s: System, step: Step): System
    requires CanStep(s, step)
  {
    match step
    case Direct(id, day, at, event) =>
      s.(db := AfterCall(s.db, id, day, at, event),
         direct := s.direct + if OutcomeOf(s.db, id, day) == Won then 1 else 0)
    case Start(w, day, ids) => s.(sweeps := s.sweeps[w := Sweep(ids, day, 0)])
    case Next(w, at, event) =>
      var sweep := s.sweeps[w];
      var id := sweep.left[0];
      match OutcomeOf(s.db, id, sweep.day) {
        case Won => s.(db := AfterCall(s.db, id, sweep.day, at, event),
                       sweeps := s.sweeps[w := Sweep(sweep.left[1..], sweep.day, sweep.processed + 1)])
        case NotDue => s.(sweeps := s.sweeps[w := sweep.(left := sweep.left[1..])])
        case EmployeeMissing => s.(sweeps := s.sweeps - {w}, lost := s.lost + sweep.processed)
      }
    case Finish(w) => s.(sweeps := s.sweeps - {w}, reported := s.reported + s.sweeps[w].processed)
    case Crash(w) => s.(sweeps := s.sweeps - {w}, lost := s.lost + s.sweeps[w].processed)
    case Elsewhere(db) => s.(db := db)
  }

  function Processed(sweeps: map<int, Sweep>): map<int, nat> {
    map w | w in sweeps :: sweeps[w].processed
  }

  // ---------------------------------------------------------------- what every run keeps

  /** Offboarded separations and events correspond one to one. */
  ghost predicate Matched(db: Db) {
    Paired(db.separations, db.events)
  }

  ghost predicate Paired(separations: map<int, Separation>, events: map<int, int>) {
    && (forall i :: i in separations ==> (separations[i].offboardedAt.Some? <==> separations[i].eventId.Some?))
    && (forall i :: i in separations && separations[i].eventId.Some? ==>
          separations[i].eventId.value in events && events[separations[i].eventId.value] == i)
    && (forall e :: e in events ==> events[e] in separations && separations[events[e]].eventId == Some(e))
  }

  /** Every event beyond the first `base` is some caller's win. */
  ghost predicate Accounted(s: System, base: nat) {
    |s.db.events| == base + s.direct + s.reported + s.lost + Total(Processed(s.sweeps))
  }

  ghost predicate Inv(s: System, base: nat) {
    Matched(s.db) && Accounted(s, base)
  }

  lemma CallKeepsMatched(db: Db, id: int, day: int, at: int, event: int)
    requires Matched(db) && event !in db.events
    ensures Matched(AfterCall(db, id, day, at, event))
    ensures |AfterCall(db, id, day, at, event).events| == |db.events| + WinCount(db, id, day)
  {
    if OutcomeOf(db, id, day) == Won {
      OnePairMore(db.separations, db.events, id, at, event);
    }
  }

  lemma OnePairMore(separations: map<int, Separation>, events: map<int, int>, id: int, at: int, event: int)
    requires Paired(separations, events) && event !in events
    requires id in separations && separations[id].offboardedAt.None?
    ensures Paired(
      separations[id := separations[id].(offboardedAt := Some(at), eventId := Some(event))], events[event := id])
    ensures |events[event := id]| == |events| + 1
  {
  }

  lemma SweepEnds(sweeps: map<int, Sweep>, w: int)
    requires w in sweeps
    ensures Total(Processed(sweeps - {w})) + sweeps[w].processed == Total(Processed(sweeps))
  {
    var rest := Processed(sweeps - {w});
    TotalUpdate(rest, w, sweeps[w].processed);
    assert rest[w := sweeps[w].processed] == Processed(sweeps);
  }

  lemma SweepChanges(sweeps: map<int, Sweep>, w: int, sweep: Sweep)
    ensures Total(Processed(sweeps[w := sweep])) + (if w in sweeps then sweeps[w].processed else 0)
      == Total(Processed(sweeps)) + sweep.processed
  {
    TotalUpdate(Processed(sweeps), w, sweep.processed);
    assert Processed(sweeps)[w := sweep.processed] == Processed(sweeps[w := sweep]);
  }

  lemma NextKeepsInv(s: System, w: int, at: int, event: int, base: nat)
    requires Inv(s, base) && CanStep(s, Next(w, at, event))
    ensures Inv(Do(s, Next(w, at, event)), base)
  {
    var sweep := s.sweeps[w];
    CallKeepsMatched(s.db, sweep.left[0], sweep.day, at, event);
    match OutcomeOf(s.db, sweep.left[0], sweep.day)
    case Won => SweepChanges(s.sweeps, w, Sweep(sweep.left[1..], sweep.day, sweep.processed + 1));
    case NotDue => SweepChanges(s.sweeps, w, sweep.(left := sweep.left[1..]));
    case EmployeeMissing => SweepEnds(s.sweeps, w);
  }

  lemma StepKeepsInv(s: System, step: Step, base: nat)
    requires Inv(s, base) && CanStep(s, step)
    ensures Inv(Do(s, step), base)
  {
    match step
    case Direct(id, day, at, event) => CallKeepsMatched(s.db, id, day, at, event);
    case Start(w, day, ids) => SweepChanges(s.sweeps, w, Sweep(ids, day, 0));
    case Next(w, at, event) => NextKeepsInv(s, w, at, event, base);
    case Finish(w) => SweepEnds(s.sweeps, w);
    case Crash(w) => SweepEnds(s.sweeps, w);
    case Elsewhere(db) => OthersKeepMatched(s.db, db);
  }

  lemma OthersKeepMatched(before: Db, after: Db)
    requires Matched(before) && OthersMay(before, after)
    ensures Matched(after)
  {
    forall i | i in after.separations && after.separations[i].eventId.Some?
      ensures after.separations[i].eventId.value in after.events
        && after.events[after.separations[i].eventId.value] == i
    {
      assert i in before.separations;
    }
    forall e | e in after.events
      ensures after.events[e] in after.separations && after.separations[after.events[e]].eventId == Some(e)
    {
      var i := before.events[e];
      assert i in before.separations && before.separations[i].eventId == Some(e);
      assert i in after.separations && after.separations[i].eventId == before.separations[i].eventId;
    }
  }

  ghost predicate Taken(s: System, step: Step, t: System) {
    CanStep(s, step) && t == Do(s, step)
  }

  /** `steps` leads through the states of `run`, from any consistent database with nothing under way. */
  ghost predicate Run(run: seq<System>, steps: seq<Step>) {
    && |run| == |steps| + 1
    && Matched(run[0].db)
    && run[0].sweeps == map[] && run[0].direct == run[0].reported == run[0].lost == 0
    && forall i :: 0 <= i < |steps| ==> Taken(run[i], steps[i], run[i + 1])
  }

  lemma TakenKeepsInv(run: seq<System>, steps: seq<Step>, i: nat, base: nat)
    requires Run(run, steps) && i < |steps| && Inv(run[i], base)
    ensures Inv(run[i + 1], base)
  {
    assert Taken(run[i], steps[i], run[i + 1]);
    StepKeepsInv(run[i], steps[i], base);
  }

  lemma {:induction false} RunKeepsInv(run: seq<System>, steps: seq<Step>, i: nat)
    requires Run(run, steps) && i <= |steps|
    ensures Inv(run[i], |run[0].db.events|)
  {
    if i > 0 {
      RunKeepsInv(run, steps, i - 1);
      TakenKeepsInv(run, steps, i - 1, |run[0].db.events|);
    } else {
      RunStarts(run, steps);
    }
  }

  lemma RunStarts(run: seq<System>, steps: seq<Step>)
    requires Run(run, steps)
    ensures Inv(run[0], |run[0].db.events|)
  {
    assert Processed(run[0].sweeps) == map[];
  }

  /** In every run a separation is offboarded exactly when one event of it exists, the recorded one. */
  lemma OffboardedIffOneEvent(run: seq<System>, steps: seq<Step>, i: nat, id: int)
    requires Run(run, steps) && i <= |steps| && id in run[i].db.separations
    ensures var db := run[i].db;
      && (db.separations[id].offboardedAt.Some? <==> exists e :: e in db.events && db.events[e] == id)
      && (forall e :: e in db.events && db.events[e] == id ==> db.separations[id].eventId == Some(e))
  {
    RunKeepsInv(run, steps, i);
    var db := run[i].db;
    if db.separations[id].offboardedAt.Some? {
      var e := db.separations[id].eventId.value;
      assert e in db.events && db.events[e] == id;
    }
    forall e | e in db.events && db.events[e] == id ensures db.separations[id].eventId == Some(e) {
      assert db.separations[db.events[e]].eventId == Some(e);
    }
  }

  // ---------------------------------------------------------------- which wins are reported

  /** Every approved separation still open has an employee that exists and is not deleted. */
  ghost predicate OpenOnesHaveEmployees(db: Db) {
    forall i :: i in db.separations && db.separations[i].approved && db.separations[i].offboardedAt.None? ==>
      db.separations[i].employee in db.employees && !db.employees[db.separations[i].employee].deleted
  }

  /**
   If no sweep crashes and every open separation keeps a live employee, no win is ever hidden: once no
   sweep is running, the new events are exactly the wins callers were told about.
   */
  lemma EveryWinIsReported(run: seq<System>, steps: seq<Step>, i: nat)
    requires Run(run, steps) && i <= |steps|
    requires forall k :: 0 <= k < i ==> !steps[k].Crash? && OpenOnesHaveEmployees(run[k].db)
    ensures run[i].lost == 0
    ensures run[i].sweeps == map[] ==> |run[i].db.events| == |run[0].db.events| + run[i].direct + run[i].reported
  {
    RunKeepsInv(run, steps, i);
    NothingLost(run, steps, i);
    if run[i].sweeps == map[] {
      assert Processed(run[i].sweeps) == map[];
    }
  }

  lemma {:induction false} NothingLost(run: seq<System>, steps: seq<Step>, i: nat)
    requires Run(run, steps) && i <= |steps|
    requires forall k :: 0 <= k < i ==> !steps[k].Crash? && OpenOnesHaveEmployees(run[k].db)
    ensures run[i].lost == 0
  {
    if i > 0 {
      NothingLost(run, steps, i - 1);
      assert Taken(run[i - 1], steps[i - 1], run[i - 1 + 1]);
      assert OpenOnesHaveEmployees(run[i - 1].db);
    }
  }

  /** The step ends, by a crash or at a missing employee, a sweep that has already won. */
  ghost predicate HidesWins(s: System, step: Step) {
    match step
    case Crash(w) => w in s.sweeps && s.sweeps[w].processed > 0
    case Next(w, _, _) =>
      && w in s.sweeps && s.sweeps[w].left != [] && s.sweeps[w].processed > 0
      && OutcomeOf(s.db, s.sweeps[w].left[0], s.sweeps[w].day) == EmployeeMissing
    case _ => false
  }

  /** With no sweep running, the events exceed the wins callers were told about exactly when such a step was taken. */
  lemma WinsHiddenIff(run: seq<System>, steps: seq<Step>, i: nat)
    requires Run(run, steps) && i <= |steps| && run[i].sweeps == map[]
    ensures |run[i].db.events| > |run[0].db.events| + run[i].direct + run[i].reported <==>
            exists k :: 0 <= k < i && HidesWins(run[k], steps[k])
  {
    RunKeepsInv(run, steps, i);
    LostIff(run, steps, i);
    assert Processed(run[i].sweeps) == map[];
  }

  lemma {:induction false} LostIff(run: seq<System>, steps: seq<Step>, i: nat)
    requires Run(run, steps) && i <= |steps|
    ensures run[i].lost > 0 <==> exists k :: 0 <= k < i && HidesWins(run[k], steps[k])
  {
    if i > 0 {
      LostIff(run, steps, i - 1);
      assert Taken(run[i - 1], steps[i - 1], run[i - 1 + 1]);
      assert run[i].lost > 0 <==> run[i - 1].lost > 0 || HidesWins(run[i - 1], steps[i - 1]);
    }
  }

  const TWO_DUE := Db(
    map[1 := Separation(10, true, 5, None, None), 2 := Separation(20, true, 5, None, None)],
    map[10 := Employee(None, false, false)], map[], map[], map[])

  lemma SweepWinsThenStops() returns (s1: System, s2: System, s3: System)
    ensures Taken(System(TWO_DUE, map[], 0, 0, 0), Start(7, 5, [1, 2]), s1)
    ensures Taken(s1, Next(7, 100, 900), s2) && Taken(s2, Next(7, 101, 901), s3)
    ensures s3.sweeps == map[] && s3.db.events == map[900 := 1] && s3.direct == s3.reported == 0
  {
    s1 := Do(System(TWO_DUE, map[], 0, 0, 0), Start(7, 5, [1, 2]));
    assert OutcomeOf(s1.db, 1, 5) == Won;
    s2 := Do(s1, Next(7, 100, 900));
    assert s2.sweeps[7] == Sweep([2], 5, 1) by { assert [1, 2][1..] == [2]; }
    assert s2.db.separations[2] == TWO_DUE.separations[2] && OutcomeOf(s2.db, 2, 5) == EmployeeMissing;
    s3 := Do(s2, Next(7, 101, 901));
    assert s3.sweeps == map[];
  }

  /** A sweep can hide a win: one separation is offboarded, the next one's employee is gone. */
  lemma FailedSweepLosesWin()
    ensures exists run: seq<System>, steps: seq<Step> ::
      && Run(run, steps) && run[|steps|].sweeps == map[]
      && |run[|steps|].db.events| == 1 && run[0].db.events == map[]
      && run[|steps|].direct + run[|steps|].reported == 0
  {
    var s1, s2, s3 := SweepWinsThenStops();
    var run := [System(TWO_DUE, map[], 0, 0, 0), s1, s2, s3];
    var steps := [Start(7, 5, [1, 2]), Next(7, 100, 900), Next(7, 101, 901)];
    assert Run(run, steps);
  }
}
