/**
 The outbox of one tenant. Workers claim events, deliver them, then mark them by reading the row and
 writing it back in two separate statements; nothing fences a worker whose claim was reclaimed.
 */
module OutboxQueue {
  import opened Outcomes
  import opened Sums

  datatype Status = Pending | Processing | Processed | Failed

  datatype Event = Event(
    aggregate: string, createdAt: int, status: Status,
    retryCount: int, claimedAt: Option<int>, processedAt: Option<int>)

  type Rows = map<int, Event>

  // ---------------------------------------------------------------- row changes

  function Inserted(aggregate: string, now: int): Event {
    Event(aggregate, now, Pending, 0, None, None)
  }

  function ClaimedAt(e: Event, now: int): Event {
    e.(status := Processing, claimedAt := Some(now))
  }

  function MarkedProcessed(e: Event, now: int): Event {
    e.(status := Processed, processedAt := Some(now), claimedAt := None)
  }

  /** The new count comes from the worker's own claim, not from the row. */
  function MarkedFailed(e: Event, previousRetry: int, cap: int, now: int): Event {
    var next := previousRetry + 1;
    if next >= cap then e.(status := Failed, retryCount := next, processedAt := Some(now), claimedAt := None)
    else e.(status := Pending, retryCount := next, processedAt := None, claimedAt := None)
  }

  predicate Reclaimable(e: Event, staleLine: int, legacyLine: int) {
    && e.status == Processing
    && if e.claimedAt.Some? then e.claimedAt.value < staleLine else e.createdAt < legacyLine
  }

  function Reclaimed(rows: Rows, staleLine: int, legacyLine: int): Rows {
    map id | id in rows ::
      if Reclaimable(rows[id], staleLine, legacyLine) then rows[id].(status := Pending, claimedAt := None) else rows[id]
  }

  predicate Requeueable(e: Event) {
    e.status in {Failed, Processing}
  }

  function Requeued(e: Event): Event {
    e.(status := Pending, processedAt := None, claimedAt := None)
  }

  ghost predicate RowWellKept(e: Event) {
    && (e.claimedAt.Some? ==> e.status == Processing)
    && (e.processedAt.Some? <==> e.status in {Processed, Failed})
    && e.retryCount >= 0
  }

  ghost predicate WellKept(rows: Rows) {
    forall id :: id in rows ==> RowWellKept(rows[id])
  }

  /** Marking reads the row and writes it only if it reads as claimed. */
  function AfterMark(rows: Rows, id: int, ok: bool, previousRetry: int, cap: int, now: int): Rows {
    if id in rows && rows[id].status == Processing
    then rows[id := if ok then MarkedProcessed(rows[id], now) else MarkedFailed(rows[id], previousRetry, cap, now)]
    else rows
  }

  // ---------------------------------------------------------------- the table, statement by statement

  function Claimable(rows: Rows, allowed: seq<string>, locked: set<int>): set<int> {
    set id | id in rows && id !in locked && rows[id].status == Pending && rows[id].aggregate in allowed
  }

  class OutboxTable {
    var rows: Rows

    constructor ()
      ensures rows == map[]
    {
      rows := map[];
    }

    /** The oldest unlocked pending event of an entitled domain, or none when there is none. */
    method ClaimNextPending(allowed: seq<string>, locked: set<int>, now: int) returns (picked: Option<int>)
      modifies this
      ensures picked.None? ==> Claimable(old(rows), allowed, locked) == {} && rows == old(rows)
      ensures picked.Some? ==>
        && picked.value in Claimable(old(rows), allowed, locked)
        && (forall id :: id in Claimable(old(rows), allowed, locked) ==>
              old(rows)[picked.value].createdAt <= old(rows)[id].createdAt)
        && rows == old(rows)[picked.value := ClaimedAt(old(rows)[picked.value], now)]
      ensures picked.None? ==>
        forall id :: id in rows && id !in locked && rows[id].aggregate in allowed ==> rows[id].status != Pending
      ensures picked.Some? ==> picked.value in old(rows) && var e := old(rows)[picked.value];
        && e.status == Pending && e.aggregate in allowed && picked.value !in locked
        && rows == old(rows)[picked.value :=
            Event(e.aggregate, e.createdAt, Processing, e.retryCount, Some(now), e.processedAt)]
    {
      picked := None;
      var all := Claimable(rows, allowed, locked);
      var left := all;
      while left != {}
        invariant left <= all && rows == old(rows) && all == Claimable(rows, allowed, locked)
        invariant picked.None? ==> left == all
        invariant picked.Some? ==> picked.value in all
        invariant picked.Some? ==>
          forall id :: id in all && id !in left ==> rows[picked.value].createdAt <= rows[id].createdAt
        decreases left
      {
        SomeMember(left);
        var id :| id in left;
        left := left - {id};
        if picked.None? || rows[id].createdAt < rows[picked.value].createdAt {
          picked := Some(id);
        }
      }
      if picked.Some? {
        rows := rows[picked.value := ClaimedAt(rows[picked.value], now)];
      } else {
        assert forall id :: id in rows ==> id !in Claimable(rows, allowed, locked);
      }
    }

    method MarkProcessed(id: int, now: int)
      modifies this
      ensures rows == AfterMark(old(rows), id, true, 0, 1, now)
      ensures if id in old(rows) && old(rows)[id].status == Processing
        then var e := old(rows)[id];
          rows == old(rows)[id := Event(e.aggregate, e.createdAt, Processed, e.retryCount, None, Some(now))]
        else rows == old(rows)
      ensures old(WellKept(rows)) ==> WellKept(rows)
    {
      if id !in rows || rows[id].status != Processing {
        return;
      }
      rows := rows[id := MarkedProcessed(rows[id], now)];
    }

    method MarkFailure(id: int, previousRetry: int, cap: int, now: int)
      modifies this
      ensures rows == AfterMark(old(rows), id, false, previousRetry, cap, now)
      ensures if id in old(rows) && old(rows)[id].status == Processing
        then var e := old(rows)[id];
          rows == old(rows)[id :=
            if previousRetry + 1 < cap then Event(e.aggregate, e.createdAt, Pending, previousRetry + 1, None, None)
            else Event(e.aggregate, e.createdAt, Failed, previousRetry + 1, None, Some(now))]
        else rows == old(rows)
      ensures old(WellKept(rows)) && previousRetry >= 0 ==> WellKept(rows)
    {
      if id !in rows || rows[id].status != Processing {
        return;
      }
      rows := rows[id := MarkedFailed(rows[id], previousRetry, cap, now)];
    }

    /**
     Takes back the claims made before `staleLine`, and claims without a time of events created before
     `legacyLine`; every other row stays. The answer is the number of events that changed.
     */
    method ReclaimStaleProcessing(staleLine: int, legacyLine: int) returns (affected: nat)
      modifies this
      ensures rows.Keys == old(rows).Keys
      ensures forall id, c ::
        id in old(rows) && old(rows)[id].status == Processing && old(rows)[id].claimedAt == Some(c) && c < staleLine ==>
        rows[id] == old(rows)[id].(status := Pending, claimedAt := None)
      ensures forall id ::
        && id in old(rows) && old(rows)[id].status == Processing && old(rows)[id].claimedAt.None?
        && old(rows)[id].createdAt < legacyLine ==>
        rows[id] == old(rows)[id].(status := Pending, claimedAt := None)
      ensures forall id :: id in old(rows) && old(rows)[id].status != Processing ==> rows[id] == old(rows)[id]
      ensures forall id, c :: id in old(rows) && old(rows)[id].claimedAt == Some(c) && c >= staleLine ==>
        rows[id] == old(rows)[id]
      ensures forall id :: id in old(rows) && old(rows)[id].claimedAt.None? && old(rows)[id].createdAt >= legacyLine ==>
        rows[id] == old(rows)[id]
      ensures rows == Reclaimed(old(rows), staleLine, legacyLine)
      ensures forall id :: id in rows ==> !Reclaimable(rows[id], staleLine, legacyLine)
      ensures affected == |set id | id in rows && rows[id] != old(rows)[id]|
      ensures old(WellKept(rows)) ==> WellKept(rows)
    {
      affected := |set id | id in rows && Reclaimable(rows[id], staleLine, legacyLine)|;
      ghost var before := rows;
      rows := Reclaimed(rows, staleLine, legacyLine);
      assert (set id | id in before && Reclaimable(before[id], staleLine, legacyLine))
          == (set id | id in rows && rows[id] != before[id]);
    }

    method RequeueOutboxEvent(id: int) returns (ok: bool)
      modifies this
      ensures ok <==> id in old(rows) && Requeueable(old(rows)[id])
      ensures ok <==> id in old(rows) && (old(rows)[id].status == Failed || old(rows)[id].status == Processing)
      ensures ok ==> var e := old(rows)[id];
        rows == old(rows)[id := Event(e.aggregate, e.createdAt, Pending, e.retryCount, None, None)]
      ensures rows == if ok then old(rows)[id := Requeued(old(rows)[id])] else old(rows)
      ensures old(WellKept(rows)) ==> WellKept(rows)
    {
      ok := id in rows && Requeueable(rows[id]);
      if ok {
        rows := rows[id := Requeued(rows[id])];
      }
    }

    /** Claims the next event, delivers it with the given outcome and marks it. */
    method TryNext(allowed: seq<string>, cap: int, now: int, ok: bool) returns (picked: Option<int>)
      modifies this
      ensures picked.None? ==> Claimable(rows, allowed, {}) == {} && rows == old(rows)
      ensures picked.Some? ==>
        OldestClaimable(old(rows), allowed, picked.value) && rows == Attempted(old(rows), picked.value, ok, cap, now)
    {
      picked := ClaimNextPending(allowed, {}, now);
      if picked.Some? {
        if ok {
          MarkProcessed(picked.value, now);
        } else {
          MarkFailure(picked.value, rows[picked.value].retryCount, cap, now);
        }
      }
    }

    /**
     One tenant sweep without interference: it ends, because every failed delivery uses up one retry,
     and when it ends nothing claimable is left. The entitled domains are read again before every
     delivery; `log` names the events in the order they were tried.
     */
    method ProcessTenant(
        allowed: nat -> seq<string>, cap: int, staleLine: int, legacyLine: int, now: int, delivered: nat -> bool)
      returns (n: nat, ghost log: seq<int>)
      requires cap >= 1
      modifies this
      ensures Claimable(rows, allowed(n), {}) == {}
      ensures n == |log| <= Effort(Reclaimed(old(rows), staleLine, legacyLine), cap)
      ensures Attempts(Reclaimed(old(rows), staleLine, legacyLine), log, allowed, cap, now, delivered)
      ensures rows == Replay(Reclaimed(old(rows), staleLine, legacyLine), log, cap, now, delivered)
      ensures forall id :: id in old(rows) ==>
        id in rows && SweptTo(old(rows)[id], rows[id], allowed(n), staleLine, legacyLine)
    {
      ghost var before := rows;
      var reclaimed := ReclaimStaleProcessing(staleLine, legacyLine);
      ghost var start := rows;
      n, log := 0, [];
      while true
        invariant n == |log| && n + Effort(rows, cap) <= Effort(start, cap)
        invariant Attempts(start, log, allowed, cap, now, delivered) && rows == Replay(start, log, cap, now, delivered)
        decreases Effort(rows, cap)
      {
        ghost var current := rows;
        var picked := TryNext(allowed(n), cap, now, delivered(n));
        if picked.None? {
          SweepLeavesNothing(before, log, allowed, cap, staleLine, legacyLine, now, delivered);
          return;
        }
        ReplayOneMore(start, log, allowed, cap, now, delivered, picked.value);
        AttemptDrops(current, picked.value, delivered(n), cap, now);
        log := log + [picked.value];
        n := n + 1;
      }
    }
  }

  ghost predicate OldestClaimable(rows: Rows, allowed: seq<string>, id: int) {
    && id in Claimable(rows, allowed, {})
    && forall j :: j in Claimable(rows, allowed, {}) ==> rows[id].createdAt <= rows[j].createdAt
  }

  /** One claim, delivery and mark. */
  function Attempted(rows: Rows, id: int, ok: bool, cap: int, now: int): Rows {
    if id !in rows then rows
    else
      var claimed := ClaimedAt(rows[id], now);
      rows[id := if ok then MarkedProcessed(claimed, now) else MarkedFailed(claimed, claimed.retryCount, cap, now)]
  }

  /** The rows after trying the events of `log`; the `k`-th delivery answers `delivered(k)`. */
  ghost function Replay(rows: Rows, log: seq<int>, cap: int, now: int, delivered: nat -> bool): Rows
    decreases |log|
  {
    if log == [] then rows
    else Attempted(Replay(rows, log[..|log| - 1], cap, now, delivered), log[|log| - 1], delivered(|log| - 1), cap, now)
  }

  /** Every event tried was then an oldest claimable one. */
  ghost predicate Attempts(
      rows: Rows, log: seq<int>, allowed: nat -> seq<string>, cap: int, now: int, delivered: nat -> bool)
    decreases |log|
  {
    log != [] ==>
      && Attempts(rows, log[..|log| - 1], allowed, cap, now, delivered)
      && OldestClaimable(Replay(rows, log[..|log| - 1], cap, now, delivered), allowed(|log| - 1), log[|log| - 1])
  }

  lemma ReplayOneMore(
      rows: Rows, log: seq<int>, allowed: nat -> seq<string>, cap: int, now: int, delivered: nat -> bool, id: int)
    ensures Replay(rows, log + [id], cap, now, delivered)
      == Attempted(Replay(rows, log, cap, now, delivered), id, delivered(|log|), cap, now)
    ensures Attempts(rows, log + [id], allowed, cap, now, delivered) <==>
              && Attempts(rows, log, allowed, cap, now, delivered)
              && OldestClaimable(Replay(rows, log, cap, now, delivered), allowed(|log|), id)
  {
    assert (log + [id])[..|log|] == log;
  }

  ghost predicate DeliveredIn(log: seq<int>, delivered: nat -> bool, id: int) {
    exists k :: 0 <= k < |log| && log[k] == id && delivered(k)
  }

  function Tries(log: seq<int>, id: int): nat {
    if log == [] then 0 else Tries(log[..|log| - 1], id) + if log[|log| - 1] == id then 1 else 0
  }

  lemma DeliveredOneMore(log: seq<int>, last: int, delivered: nat -> bool, id: int)
    ensures DeliveredIn(log + [last], delivered, id) <==>
      DeliveredIn(log, delivered, id) || (last == id && delivered(|log|))
  {
    var all := log + [last];
    if DeliveredIn(log, delivered, id) {
      var k :| 0 <= k < |log| && log[k] == id && delivered(k);
      assert all[k] == id;
    }
    if last == id && delivered(|log|) {
      assert all[|log|] == id;
    }
  }

  /**
   What a sweep makes of each event: nothing if never tried, PROCESSED if a delivery succeeded, and
   otherwise one retry more per try, FAILED once they reach the cap.
   */
  lemma {:induction false} SweepSettles(
      rows: Rows, log: seq<int>, allowed: nat -> seq<string>, cap: int, now: int, delivered: nat -> bool, id: int)
    requires Attempts(rows, log, allowed, cap, now, delivered) && id in rows
    ensures var end := Replay(rows, log, cap, now, delivered);
      && id in end
      && (id !in log ==> end[id] == rows[id] && Tries(log, id) == 0)
      && (id in log ==> rows[id].status == Pending)
      && (id in log ==> (end[id].status == Processed <==> DeliveredIn(log, delivered, id)))
      && (id in log && end[id].status != Processed ==> end[id].retryCount == rows[id].retryCount + Tries(log, id))
      && (id in log && end[id].status != Processed ==>
            end[id].status == if end[id].retryCount >= cap then Failed else Pending)
    decreases |log|
  {
    if log != [] {
      var init, last := log[..|log| - 1], log[|log| - 1];
      assert log == init + [last];
      SweepSettles(rows, init, allowed, cap, now, delivered, id);
      DeliveredOneMore(init, last, delivered, id);
      assert last in Claimable(Replay(rows, init, cap, now, delivered), allowed(|init|), {});
    }
  }

  /**
   What a sweep without interference owes an event: pending ones of an entitled domain and ones whose
   worker is gone are settled, a claim still running and a settled event are left alone.
   */
  ghost predicate SweptTo(before: Event, after: Event, allowed: seq<string>, staleLine: int, legacyLine: int) {
    var abandoned := before.status == Processing &&
      ((before.claimedAt.Some? && before.claimedAt.value < staleLine)
       || (before.claimedAt.None? && before.createdAt < legacyLine));
    && after.aggregate == before.aggregate && after.createdAt == before.createdAt
    && (abandoned || before.status == Pending ==>
          if before.aggregate in allowed then after.status == Processed || after.status == Failed
          else after.status == Pending || after.status == Processed || after.status == Failed)
    && (before.status == Processing && !abandoned ==> after == before)
    && (before.status == Processed || before.status == Failed ==> after == before)
  }

  lemma SweepLeavesNothing(
      before: Rows, log: seq<int>, allowed: nat -> seq<string>, cap: int, staleLine: int, legacyLine: int, now: int,
      delivered: nat -> bool)
    requires Attempts(Reclaimed(before, staleLine, legacyLine), log, allowed, cap, now, delivered)
    requires Claimable(Replay(Reclaimed(before, staleLine, legacyLine), log, cap, now, delivered), allowed(|log|), {})
      == {}
    ensures forall id :: id in before ==>
      var end := Replay(Reclaimed(before, staleLine, legacyLine), log, cap, now, delivered);
      id in end && SweptTo(before[id], end[id], allowed(|log|), staleLine, legacyLine)
  {
    var start := Reclaimed(before, staleLine, legacyLine);
    var end := Replay(start, log, cap, now, delivered);
    forall id | id in before ensures id in end && SweptTo(before[id], end[id], allowed(|log|), staleLine, legacyLine) {
      SweepSettles(start, log, allowed, cap, now, delivered, id);
      SweepKeepsKind(start, log, cap, now, delivered, id);
      assert id !in Claimable(end, allowed(|log|), {});
    }
  }

  lemma {:induction false} SweepKeepsKind(
      rows: Rows, log: seq<int>, cap: int, now: int, delivered: nat -> bool, id: int)
    requires id in rows
    ensures var end := Replay(rows, log, cap, now, delivered);
      id in end && end[id].aggregate == rows[id].aggregate && end[id].createdAt == rows[id].createdAt
    decreases |log|
  {
    if log != [] {
      SweepKeepsKind(rows, log[..|log| - 1], cap, now, delivered, id);
    }
  }

  /** Deliveries an event can still cost before it settles. */
  function Remaining(e: Event, cap: int): nat {
    if e.status != Pending then 0
    else if e.retryCount + 1 >= cap then 1
    else cap - e.retryCount
  }

  ghost function Effort(rows: Rows, cap: int): nat {
    Total(map id | id in rows :: Remaining(rows[id], cap))
  }

  lemma AttemptDrops(before: Rows, id: int, ok: bool, cap: int, now: int)
    requires id in before && before[id].status == Pending
    ensures Effort(Attempted(before, id, ok, cap, now), cap) < Effort(before, cap)
  {
    var after := Attempted(before, id, ok, cap, now);
    TotalDrops(map j | j in before :: Remaining(before[j], cap), map j | j in after :: Remaining(after[j], cap), id);
  }

  // ---------------------------------------------------------------- actors

  /**
   A worker between its statements, or a person requeueing between read and write. `Checked` has read
   the row as PROCESSING and has yet to write.
   */
  datatype Actor =
    | Idle
    | Delivering(id: int, previousRetry: int)
    | Delivered(id: int, previousRetry: int, ok: bool)
    | Checked(id: int, previousRetry: int, ok: bool)
    | Requeueing(id: int)

  /** Rows, actors, and history: failed deliveries per event and events delivered completely. */
  datatype System = System(cap: int, rows: Rows, actors: map<int, Actor>, failures: map<int, nat>, successes: set<int>)

  datatype Step =
    | Insert(id: int, aggregate: string, now: int)
    | Claim(a: int, id: int, now: int)
    | Deliver(a: int, ok: bool)
    | Check(a: int)
    | Write(a: int, now: int)
    | Reclaim(staleLine: int, legacyLine: int)
    | ReadRequeue(a: int, id: int)
    | WriteRequeue(a: int)
    | Crash(a: int)

  function ActorOf(s: System, a: int): Actor {
    if a in s.actors then s.actors[a] else Idle
  }

  function Failures(s: System, id: int): nat {
    if id in s.failures then s.failures[id] else 0
  }

  predicate CanStep(s: System, step: Step) {
    match step
    case Insert(id, _, _) => id !in s.rows
    case Claim(a, id, _) => ActorOf(s, a).Idle? && id in s.rows && s.rows[id].status == Pending
    case Deliver(a, _) => ActorOf(s, a).Delivering?
    case Check(a) => ActorOf(s, a).Delivered?
    case Write(a, _) => ActorOf(s, a).Checked? && ActorOf(s, a).id in s.rows
    case Reclaim(_, _) => true
    case ReadRequeue(a, id) => ActorOf(s, a).Idle? && id in s.rows && Requeueable(s.rows[id])
    case WriteRequeue(a) => ActorOf(s, a).Requeueing? && ActorOf(s, a).id in s.rows
    case Crash(_) => true
  }

  function Do(s: System, step: Step): System
    requires CanStep(s, step)
  {
    match step
    case Insert(id, aggregate, now) => s.(rows := s.rows[id := Inserted(aggregate, now)])
    case Claim(a, id, now) =>
      s.(rows := s.rows[id := ClaimedAt(s.rows[id], now)],
         actors := s.actors[a := Delivering(id, s.rows[id].retryCount)])
    case Deliver(a, ok) =>
      var d := ActorOf(s, a);
      s.(actors := s.actors[a := Delivered(d.id, d.previousRetry, ok)],
         failures := if ok then s.failures else s.failures[d.id := Failures(s, d.id) + 1],
         successes := if ok then s.successes + {d.id} else s.successes)
    case Check(a) =>
      var d := ActorOf(s, a);
      s.(actors := s.actors[a := if d.id in s.rows && s.rows[d.id].status == Processing
                                 then Checked(d.id, d.previousRetry, d.ok) else Idle])
    case Write(a, now) =>
      var c := ActorOf(s, a);
      s.(actors := s.actors[a := Idle],
         rows := s.rows[c.id := if c.ok then MarkedProcessed(s.rows[c.id], now)
                                else MarkedFailed(s.rows[c.id], c.previousRetry, s.cap, now)])
    case Reclaim(staleLine, legacyLine) => s.(rows := Reclaimed(s.rows, staleLine, legacyLine))
    case ReadRequeue(a, id) => s.(actors := s.actors[a := Requeueing(id)])
    case WriteRequeue(a) =>
      var r := ActorOf(s, a);
      s.(actors := s.actors[a := Idle], rows := s.rows[r.id := Requeued(s.rows[r.id])])
    case Crash(a) => s.(actors := s.actors[a := Idle])
  }

  ghost predicate Feasible(s: System, steps: seq<Step>)
    decreases |steps|
  {
    steps != [] ==> CanStep(s, steps[0]) && Feasible(Do(s, steps[0]), steps[1..])
  }

  ghost function Exec(s: System, steps: seq<Step>): System
    requires Feasible(s, steps)
    decreases |steps|
  {
    if steps == [] then s else Exec(Do(s, steps[0]), steps[1..])
  }

  function Start(cap: int): System {
    System(cap, map[], map[], map[], {})
  }

  // ---------------------------------------------------------------- what every run keeps

  ghost predicate RowFits(s: System, id: int)
    requires id in s.rows
  {
    var e := s.rows[id];
    && RowWellKept(e)
    && e.retryCount <= Failures(s, id)
    && (e.status == Failed ==> e.retryCount >= s.cap)
    && (e.status == Processed ==> id in s.successes)
  }

  ghost predicate ActorFits(s: System, actor: Actor) {
    match actor
    case Idle => true
    case Delivering(id, prev) => id in s.rows && 0 <= prev <= Failures(s, id)
    case Delivered(id, prev, ok) => id in s.rows && 0 <= prev
      && if ok then id in s.successes else prev + 1 <= Failures(s, id)
    case Checked(id, prev, ok) => id in s.rows && 0 <= prev
      && if ok then id in s.successes else prev + 1 <= Failures(s, id)
    case Requeueing(id) => id in s.rows
  }

  ghost predicate Inv(s: System) {
    && s.cap >= 1
    && (forall id :: id in s.rows ==> RowFits(s, id))
    && (forall a :: a in s.actors ==> ActorFits(s, s.actors[a]))
  }

  lemma StepKeepsInv(s: System, step: Step)
    requires Inv(s) && CanStep(s, step)
    ensures Inv(Do(s, step))
  {
    var t := Do(s, step);
    forall id | id in t.rows ensures RowFits(t, id) {
      StepKeepsRow(s, step, id);
    }
    forall a | a in t.actors ensures ActorFits(t, t.actors[a]) {
      StepKeepsActor(s, step, a);
    }
  }

  lemma StepKeepsRow(s: System, step: Step, id: int)
    requires Inv(s) && CanStep(s, step) && id in Do(s, step).rows
    ensures RowFits(Do(s, step), id)
  {
    if id in s.rows { assert RowFits(s, id); }
    if step.Write? { assert ActorFits(s, ActorOf(s, step.a)); }
  }

  lemma StepKeepsActor(s: System, step: Step, a: int)
    requires Inv(s) && CanStep(s, step) && a in Do(s, step).actors
    ensures ActorFits(Do(s, step), Do(s, step).actors[a])
  {
    if a in s.actors { assert ActorFits(s, s.actors[a]); }
    if step.Claim? { assert RowFits(s, step.id); }
  }

  /** Every state of every run, whatever workers, reclaims and requeues interleave. */
  lemma {:induction false} RunKeepsInv(s: System, steps: seq<Step>)
    requires Inv(s) && Feasible(s, steps)
    ensures Inv(Exec(s, steps))
    decreases |steps|
  {
    if steps != [] {
      StepKeepsInv(s, steps[0]);
      RunKeepsInv(Do(s, steps[0]), steps[1..]);
    }
  }

  /** How often the steps deliver the event without success. */
  ghost function FailedDeliveries(s: System, steps: seq<Step>, id: int): nat
    requires Feasible(s, steps)
    decreases |steps|
  {
    if steps == [] then 0
    else
      (if steps[0].Deliver? && !steps[0].ok && ActorOf(s, steps[0].a).id == id then 1 else 0)
      + FailedDeliveries(Do(s, steps[0]), steps[1..], id)
  }

  /** Some step delivers the event completely. */
  ghost predicate WasDelivered(s: System, steps: seq<Step>, id: int)
    requires Feasible(s, steps)
    decreases |steps|
  {
    && steps != []
    && ((steps[0].Deliver? && steps[0].ok && ActorOf(s, steps[0].a).id == id)
        || WasDelivered(Do(s, steps[0]), steps[1..], id))
  }

  lemma {:induction false} HistoryIsOfSteps(s: System, steps: seq<Step>, id: int)
    requires Feasible(s, steps)
    ensures Failures(Exec(s, steps), id) == Failures(s, id) + FailedDeliveries(s, steps, id)
    ensures id in Exec(s, steps).successes <==> id in s.successes || WasDelivered(s, steps, id)
    decreases |steps|
  {
    if steps != [] {
      HistoryIsOfSteps(Do(s, steps[0]), steps[1..], id);
    }
  }

  /** A FAILED event failed at least `cap` times, a PROCESSED one was delivered completely at least once. */
  lemma VerdictsAreEarned(cap: int, steps: seq<Step>, id: int)
    requires cap >= 1 && Feasible(Start(cap), steps) && id in Exec(Start(cap), steps).rows
    ensures var s := Exec(Start(cap), steps);
      && 0 <= s.rows[id].retryCount <= Failures(s, id)
      && (s.rows[id].status == Failed ==> Failures(s, id) >= s.cap == cap)
      && (s.rows[id].status == Processed ==> id in s.successes)
      && (s.rows[id].claimedAt.Some? ==> s.rows[id].status == Processing)
      && (s.rows[id].processedAt.Some? <==> s.rows[id].status in {Processed, Failed})
      && s.rows[id].retryCount <= FailedDeliveries(Start(cap), steps, id)
      && (s.rows[id].status == Failed ==> FailedDeliveries(Start(cap), steps, id) >= cap)
      && (s.rows[id].status == Processed ==> WasDelivered(Start(cap), steps, id))
  {
    RunKeepsInv(Start(cap), steps);
    CapIsFixed(Start(cap), steps);
    HistoryIsOfSteps(Start(cap), steps, id);
    assert RowFits(Exec(Start(cap), steps), id);
  }

  lemma {:induction false} CapIsFixed(s: System, steps: seq<Step>)
    requires Feasible(s, steps)
    ensures Exec(s, steps).cap == s.cap
    decreases |steps|
  {
    if steps != [] {
      CapIsFixed(Do(s, steps[0]), steps[1..]);
    }
  }

  // ---------------------------------------------------------------- tables against steps

  /** With nobody in between, a delivered worker's read and write are the table's mark. */
  lemma MarkIsTwoSteps(s: System, a: int, now: int)
    requires ActorOf(s, a).Delivered?
    ensures var d, checked := ActorOf(s, a), Do(s, Check(a));
      var marked := AfterMark(s.rows, d.id, d.ok, d.previousRetry, s.cap, now);
      && checked.rows == s.rows
      && (ActorOf(checked, a).Idle? ==> marked == s.rows)
      && (!ActorOf(checked, a).Idle? ==>
            CanStep(checked, Write(a, now)) && Do(checked, Write(a, now)).rows == marked
              && ActorOf(Do(checked, Write(a, now)), a).Idle?)
  {
  }

  /** A reclaim empties only stale claims, keeps counts, and a second one with the same limits changes nothing. */
  lemma ReclaimSettles(rows: Rows, staleLine: int, legacyLine: int, id: int)
    requires id in rows
    ensures var after := Reclaimed(rows, staleLine, legacyLine);
      && id in after && after[id].retryCount == rows[id].retryCount
      && (after[id].status == Processing ==>
            if after[id].claimedAt.Some? then after[id].claimedAt.value >= staleLine
            else after[id].createdAt >= legacyLine)
      && (rows[id].claimedAt.Some? && rows[id].claimedAt.value >= staleLine ==> after[id] == rows[id])
      && (after[id] != rows[id] ==>
            rows[id].status == Processing && after[id].status == Pending && after[id].claimedAt.None?)
      && Reclaimed(after, staleLine, legacyLine) == after
      && (WellKept(rows) ==> WellKept(after))
  {
  }

  /** A new event waits with its creation time and no retries, and changes no other event. */
  lemma NewEventWaits(s: System, id: int, aggregate: string, now: int, allowed: seq<string>)
    requires CanStep(s, Insert(id, aggregate, now))
    ensures var t := Do(s, Insert(id, aggregate, now));
      && t.rows == s.rows[id := Event(aggregate, now, Pending, 0, None, None)] && t.actors == s.actors
      && (aggregate in allowed ==> id in Claimable(t.rows, allowed, {}))
  {
  }

  /** A worker that has delivered keeps its claim through a reclaim exactly when it is not older than the line. */
  lemma ReclaimKeepsFreshClaims(s: System, a: int, staleLine: int, legacyLine: int, claimed: int)
    requires ActorOf(s, a).Delivered? && ActorOf(s, a).id in s.rows
    requires s.rows[ActorOf(s, a).id].status == Processing && s.rows[ActorOf(s, a).id].claimedAt == Some(claimed)
    ensures var id, after := ActorOf(s, a).id, Do(s, Reclaim(staleLine, legacyLine));
      && id in after.rows
      && (claimed >= staleLine <==> ActorOf(Do(after, Check(a)), a).Checked?)
      && (claimed >= staleLine ==> after.rows[id] == s.rows[id])
      && (claimed < staleLine ==> after.rows[id].status == Pending && ActorOf(Do(after, Check(a)), a).Idle?)
  {
  }

  /** With nobody in between, reading and writing a requeue makes the event claimable with its count kept. */
  lemma RequeueIsTwoSteps(s: System, a: int, id: int, allowed: seq<string>)
    requires CanStep(s, ReadRequeue(a, id))
    ensures var read := Do(s, ReadRequeue(a, id));
      && CanStep(read, WriteRequeue(a)) && Do(read, WriteRequeue(a)).rows == s.rows[id := Requeued(s.rows[id])]
      && Do(read, WriteRequeue(a)).rows[id].retryCount == s.rows[id].retryCount
      && (s.rows[id].aggregate in allowed ==> id in Claimable(Do(read, WriteRequeue(a)).rows, allowed, {}))
  {
  }

  /** Requeueing keeps the count, so an event that failed for good fails again on its next failure. */
  lemma RequeuedFailsAtOnce(e: Event, cap: int, claimed: int, now: int)
    requires e.status == Failed && e.retryCount >= cap
    ensures var again := ClaimedAt(Requeued(e), claimed);
      MarkedFailed(again, again.retryCount, cap, now).status == Failed
  {
  }

  // ---------------------------------------------------------------- disciplined runs

  /** The actor works on event `id` under a claim. */
  predicate Works(actor: Actor, id: int) {
    (actor.Delivering? || actor.Delivered? || actor.Checked?) && actor.id == id
  }

  ghost predicate WorkedOn(s: System, id: int) {
    exists a :: a in s.actors && Works(s.actors[a], id)
  }

  /** What a deployment sees to: when it reclaims, and what a requeue may overwrite. */
  datatype Discipline = Discipline(reclaims: bool, requeues: bool)

  const FULL := Discipline(true, true)

  /**
   With careful reclaims, only events nobody works on any more are reclaimed; with careful requeues,
   only a row that is FAILED when it is written is requeued.
   */
  ghost predicate Careful(s: System, step: Step, d: Discipline)
    requires CanStep(s, step)
  {
    match step
    case Reclaim(staleLine, legacyLine) =>
      d.reclaims ==> forall id :: id in s.rows && Reclaimable(s.rows[id], staleLine, legacyLine) ==> !WorkedOn(s, id)
    case WriteRequeue(a) => d.requeues ==> s.rows[ActorOf(s, a).id].status == Failed
    case _ => true
  }

  ghost predicate CarefulRun(s: System, steps: seq<Step>, d: Discipline)
    decreases |steps|
  {
    steps != [] ==> CanStep(s, steps[0]) && Careful(s, steps[0], d) && CarefulRun(Do(s, steps[0]), steps[1..], d)
  }

  lemma {:induction false} CarefulIsFeasible(s: System, steps: seq<Step>, d: Discipline)
    requires CarefulRun(s, steps, d)
    ensures Feasible(s, steps)
    decreases |steps|
  {
    if steps != [] {
      CarefulIsFeasible(Do(s, steps[0]), steps[1..], d);
    }
  }

  /** A worked-on event is claimed, its count is the one the worker read, and nobody else works on it. */
  ghost predicate Claimed(s: System, a: int)
    requires a in s.actors
  {
    forall id :: Works(s.actors[a], id) ==>
      && id in s.rows && s.rows[id].status == Processing && s.rows[id].retryCount == s.actors[a].previousRetry
      && forall b :: b in s.actors && Works(s.actors[b], id) ==> b == a
  }

  ghost predicate OneWorkerEach(s: System) {
    forall a :: a in s.actors ==> Claimed(s, a)
  }

  lemma CarefulStepKeeps(s: System, step: Step)
    requires OneWorkerEach(s) && CanStep(s, step) && Careful(s, step, FULL)
    ensures OneWorkerEach(Do(s, step))
    ensures forall id :: id in s.rows ==>
      id in Do(s, step).rows && s.rows[id].retryCount <= Do(s, step).rows[id].retryCount
    ensures forall id :: id in s.rows && s.rows[id].status == Processed ==> Do(s, step).rows[id] == s.rows[id]
  {
    var t := Do(s, step);
    forall id | id in s.rows && WorkedOn(s, id) ensures s.rows[id].status == Processing {
      var a :| a in s.actors && Works(s.actors[a], id);
      assert Claimed(s, a);
    }
    if step.Write? {
      assert Claimed(s, step.a);
    }
    forall a | a in t.actors ensures Claimed(t, a) {
      if a in s.actors { assert Claimed(s, a); }
    }
  }

  lemma {:induction false} CarefulRunKeeps(s: System, steps: seq<Step>)
    requires OneWorkerEach(s) && CarefulRun(s, steps, FULL)
    ensures Feasible(s, steps) && OneWorkerEach(Exec(s, steps))
    decreases |steps|
  {
    CarefulIsFeasible(s, steps, FULL);
    if steps != [] {
      CarefulStepKeeps(s, steps[0]);
      CarefulRunKeeps(Do(s, steps[0]), steps[1..]);
    }
  }

  /**
   In a careful run every event has at most one worker, a stored count never drops, and PROCESSED is
   final: `more` is any careful continuation of any careful run.
   */
  lemma CarefulRunsAreSafe(cap: int, steps: seq<Step>, more: seq<Step>, a: int, b: int, id: int)
    requires CarefulRun(Start(cap), steps, FULL) && Feasible(Start(cap), steps)
    requires CarefulRun(Exec(Start(cap), steps), more, FULL) && Feasible(Exec(Start(cap), steps), more)
    ensures var s, t := Exec(Start(cap), steps), Exec(Exec(Start(cap), steps), more);
      && (a in s.actors && b in s.actors && Works(s.actors[a], id) && Works(s.actors[b], id) ==> a == b)
      && (id in s.rows ==> id in t.rows && s.rows[id].retryCount <= t.rows[id].retryCount)
      && (id in s.rows && s.rows[id].status == Processed ==> t.rows[id] == s.rows[id])
  {
    CarefulRunKeeps(Start(cap), steps);
    var s := Exec(Start(cap), steps);
    if a in s.actors { assert Claimed(s, a); }
    CarefulRunGrows(s, more, id);
  }

  lemma {:induction false} CarefulRunGrows(s: System, more: seq<Step>, id: int)
    requires OneWorkerEach(s) && CarefulRun(s, more, FULL) && Feasible(s, more)
    ensures id in s.rows ==> id in Exec(s, more).rows && s.rows[id].retryCount <= Exec(s, more).rows[id].retryCount
    ensures id in s.rows && s.rows[id].status == Processed ==> Exec(s, more).rows[id] == s.rows[id]
    decreases |more|
  {
    if more != [] {
      CarefulStepKeeps(s, more[0]);
      CarefulRunGrows(Do(s, more[0]), more[1..], id);
    }
  }

  // ---------------------------------------------------------------- when a count drops

  /** The step writes a failure for `id` whose claim read a count more than one below the stored one. */
  ghost predicate StaleFailure(s: System, step: Step, id: int)
    requires CanStep(s, step)
  {
    && step.Write? && ActorOf(s, step.a).id == id && !ActorOf(s, step.a).ok
    && id in s.rows && ActorOf(s, step.a).previousRetry + 1 < s.rows[id].retryCount
  }

  lemma CountDropsIffStale(s: System, step: Step, id: int)
    requires CanStep(s, step) && id in s.rows
    ensures id in Do(s, step).rows
    ensures Do(s, step).rows[id].retryCount < s.rows[id].retryCount <==> StaleFailure(s, step, id)
  {
  }

  /** No step of the run is a stale failure for `id`. */
  ghost predicate NoStaleFailure(s: System, steps: seq<Step>, id: int)
    requires Feasible(s, steps)
    decreases |steps|
  {
    steps != [] ==> !StaleFailure(s, steps[0], id) && NoStaleFailure(Do(s, steps[0]), steps[1..], id)
  }

  lemma {:induction false} PrefixFeasible(s: System, steps: seq<Step>, k: nat)
    requires Feasible(s, steps) && k <= |steps|
    ensures Feasible(s, steps[..k]) && Feasible(Exec(s, steps[..k]), steps[k..])
    ensures Exec(Exec(s, steps[..k]), steps[k..]) == Exec(s, steps)
    decreases |steps|
  {
    if k == 0 {
      assert steps[..0] == [] && steps[0..] == steps;
    } else {
      assert steps[..k][1..] == steps[1..][..k - 1] && steps[k..] == steps[1..][k - 1..];
      PrefixFeasible(Do(s, steps[0]), steps[1..], k - 1);
    }
  }

  /** The count of `id` after the first `k` steps, 0 before the event exists. */
  ghost function CountAfter(s: System, steps: seq<Step>, k: nat, id: int): int
    requires Feasible(s, steps) && k <= |steps|
  {
    PrefixFeasible(s, steps, k);
    var t := Exec(s, steps[..k]);
    if id in t.rows then t.rows[id].retryCount else 0
  }

  lemma CountAfterFirst(s: System, steps: seq<Step>, k: nat, id: int)
    requires Feasible(s, steps) && steps != [] && k < |steps|
    ensures CountAfter(s, steps, k + 1, id) == CountAfter(Do(s, steps[0]), steps[1..], k, id)
  {
    PrefixFeasible(s, steps, k + 1);
    PrefixFeasible(Do(s, steps[0]), steps[1..], k);
    assert steps[..k + 1][1..] == steps[1..][..k];
  }

  lemma CountAtStart(s: System, steps: seq<Step>, id: int)
    requires Feasible(s, steps)
    ensures CountAfter(s, steps, 0, id) == if id in s.rows then s.rows[id].retryCount else 0
  {
    assert steps[..0] == [];
  }

  ghost predicate DropsAt(s: System, steps: seq<Step>, k: nat, id: int)
    requires Feasible(s, steps) && k < |steps|
  {
    CountAfter(s, steps, k + 1, id) < CountAfter(s, steps, k, id)
  }

  /** Over a whole run the stored count never goes down exactly when no failure is written stale. */
  lemma {:induction false} RetryCountDropsIff(s: System, steps: seq<Step>, id: int)
    requires Inv(s) && Feasible(s, steps)
    ensures NoStaleFailure(s, steps, id) <==> forall k :: 0 <= k < |steps| ==> !DropsAt(s, steps, k, id)
    decreases |steps|
  {
    if steps != [] {
      var t, rest := Do(s, steps[0]), steps[1..];
      StepKeepsInv(s, steps[0]);
      RetryCountDropsIff(t, rest, id);
      FirstStepCount(s, steps, id);
      forall k | 0 <= k < |rest| ensures DropsAt(s, steps, k + 1, id) <==> DropsAt(t, rest, k, id) {
        CountAfterFirst(s, steps, k, id);
        CountAfterFirst(s, steps, k + 1, id);
      }
      forall j | 0 < j < |steps| ensures DropsAt(s, steps, j, id) <==> DropsAt(t, rest, j - 1, id) {
        assert DropsAt(s, steps, j - 1 + 1, id) <==> DropsAt(t, rest, j - 1, id);
      }
    }
  }

  lemma FirstStepCount(s: System, steps: seq<Step>, id: int)
    requires Inv(s) && Feasible(s, steps) && steps != []
    ensures DropsAt(s, steps, 0, id) <==> StaleFailure(s, steps[0], id)
  {
    CountAtStart(s, steps, id);
    CountAfterFirst(s, steps, 0, id);
    CountAtStart(Do(s, steps[0]), steps[1..], id);
    StepKeepsInv(s, steps[0]);
    if id in s.rows {
      CountDropsIffStale(s, steps[0], id);
    } else if id in Do(s, steps[0]).rows {
      assert RowFits(Do(s, steps[0]), id);
    }
  }

  // ---------------------------------------------------------------- what carelessness costs

  ghost predicate Reachable(s: System, d: Discipline) {
    exists steps :: LeadsTo(s, steps, d)
  }

  ghost predicate LeadsTo(s: System, steps: seq<Step>, d: Discipline) {
    var start := Start(s.cap);
    CarefulRun(start, steps, d) && Feasible(start, steps) && Exec(start, steps) == s
  }

  lemma StartIsReachable(cap: int, d: Discipline)
    ensures Reachable(Start(cap), d)
  {
    assert LeadsTo(Start(cap), [], d);
  }

  lemma StepIsReachable(s: System, step: Step, d: Discipline)
    requires Reachable(s, d) && CanStep(s, step) && Careful(s, step, d)
    ensures Reachable(Do(s, step), d)
  {
    var steps :| LeadsTo(s, steps, d);
    ExecAppend(Start(s.cap), steps, step, d);
    assert LeadsTo(Do(s, step), steps + [step], d);
  }

  lemma {:induction false} ExecAppend(s: System, steps: seq<Step>, last: Step, d: Discipline)
    requires CarefulRun(s, steps, d) && Feasible(s, steps)
    requires CanStep(Exec(s, steps), last) && Careful(Exec(s, steps), last, d)
    ensures CarefulRun(s, steps + [last], d)
    ensures Feasible(s, steps + [last]) && Exec(s, steps + [last]) == Do(Exec(s, steps), last)
    decreases |steps|
  {
    if steps == [] {
      assert [last][1..] == [] && steps + [last] == [last];
      assert Feasible(Do(s, last), []) && CarefulRun(Do(s, last), [], d);
    } else {
      assert (steps + [last])[1..] == steps[1..] + [last];
      ExecAppend(Do(s, steps[0]), steps[1..], last, d);
    }
  }

  /** Event 1, claimed by worker 1, which has the given outcome of its delivery. */
  lemma FirstDelivers(aggregate: string, ok: bool, d: Discipline) returns (s: System)
    ensures Reachable(s, d) && s.cap == 5
    ensures s.rows == map[1 := Event(aggregate, 0, Processing, 0, Some(0), None)]
    ensures s.actors == map[1 := Delivered(1, 0, ok)]
  {
    s := Start(5);
    StartIsReachable(5, d);
    StepIsReachable(s, Insert(1, aggregate, 0), d);
    s := Do(s, Insert(1, aggregate, 0));
    StepIsReachable(s, Claim(1, 1, 0), d);
    s := Do(s, Claim(1, 1, 0));
    StepIsReachable(s, Deliver(1, ok), d);
    s := Do(s, Deliver(1, ok));
  }

  /** Worker 1 stalls before it writes a failure; a careless reclaim or requeue frees its event. */
  lemma FirstStalls(aggregate: string, d: Discipline) returns (s: System)
    requires d != FULL
    ensures Reachable(s, d) && s.cap == 5 && s.rows == map[1 := Event(aggregate, 0, Pending, 0, None, None)]
    ensures ActorOf(s, 1) == Checked(1, 0, false) && ActorOf(s, 2) == Idle
  {
    s := FirstDelivers(aggregate, false, d);
    StepIsReachable(s, Check(1), d);
    s := Do(s, Check(1));
    if d.reclaims {
      s := FreedByRequeue(s, d);
    } else {
      StepIsReachable(s, Reclaim(200, 0), d);
      s := Do(s, Reclaim(200, 0));
    }
  }

  lemma FreedByRequeue(s: System, d: Discipline) returns (t: System)
    requires Reachable(s, d) && !d.requeues && 1 in s.rows && s.rows[1].status == Processing && ActorOf(s, 3).Idle?
    ensures Reachable(t, d) && t.cap == s.cap && t.rows == s.rows[1 := Requeued(s.rows[1])]
    ensures forall a :: a != 3 ==> ActorOf(t, a) == ActorOf(s, a)
  {
    StepIsReachable(s, ReadRequeue(3, 1), d);
    t := Do(s, ReadRequeue(3, 1));
    StepIsReachable(t, WriteRequeue(3), d);
    t := Do(t, WriteRequeue(3));
  }

  /** Worker 2 then claims the event, delivers with the given outcome and checks. */
  lemma SecondChecks(s: System, aggregate: string, retry: int, ok: bool, d: Discipline) returns (t: System)
    requires Reachable(s, d) && s.cap == 5 && s.rows == map[1 := Event(aggregate, 0, Pending, retry, None, None)]
    requires ActorOf(s, 1) == Checked(1, 0, false) && ActorOf(s, 2) == Idle
    ensures Reachable(t, d) && t.cap == 5
    ensures t.rows == map[1 := Event(aggregate, 0, Processing, retry, Some(200), None)]
    ensures ActorOf(t, 1) == Checked(1, 0, false) && ActorOf(t, 2) == Checked(1, retry, ok)
  {
    StepIsReachable(s, Claim(2, 1, 200), d);
    t := Do(s, Claim(2, 1, 200));
    StepIsReachable(t, Deliver(2, ok), d);
    t := Do(t, Deliver(2, ok));
    StepIsReachable(t, Check(2), d);
    t := Do(t, Check(2));
  }

  lemma SecondFails(s: System, aggregate: string, retry: int, d: Discipline) returns (t: System)
    requires Reachable(s, d) && s.cap == 5 && s.rows == map[1 := Event(aggregate, 0, Pending, retry, None, None)]
    requires ActorOf(s, 1) == Checked(1, 0, false) && ActorOf(s, 2) == Idle && retry < 4
    ensures Reachable(t, d) && t.cap == 5 && t.rows == map[1 := Event(aggregate, 0, Pending, retry + 1, None, None)]
    ensures ActorOf(t, 1) == Checked(1, 0, false) && ActorOf(t, 2) == Idle
  {
    t := SecondChecks(s, aggregate, retry, false, d);
    StepIsReachable(t, Write(2, 210), d);
    t := Do(t, Write(2, 210));
  }

  /** Unless both are careful, some run takes a stored count from two back to one, for events of any kind. */
  lemma RetryCountCanDrop(aggregate: string, d: Discipline)
    requires d != FULL
    ensures exists s, late, id ::
      && Reachable(s, d) && CanStep(s, late) && Careful(s, late, d) && id in s.rows && s.rows[id].aggregate == aggregate
      && s.rows[id].retryCount == 2 && Do(s, late).rows[id].retryCount == 1
  {
    var s := FirstStalls(aggregate, d);
    s := SecondFails(s, aggregate, 0, d);
    s := SecondFails(s, aggregate, 1, d);
    var late := Write(1, 240);
    assert CanStep(s, late) && Careful(s, late, d) && Do(s, late).rows[1].retryCount == 1;
  }

  // ---------------------------------------------------------------- when PROCESSED is final

  /** Some actor has read the row and is about to write something other than PROCESSED. */
  ghost predicate Undermined(s: System, id: int) {
    exists a :: a in s.actors && Threatens(s.actors[a], id)
  }

  predicate Threatens(actor: Actor, id: int) {
    actor == Requeueing(id) || (actor.Checked? && actor.id == id && !actor.ok)
  }

  ghost predicate StaysProcessed(s: System, id: int) {
    forall steps :: Feasible(s, steps) ==> id in Exec(s, steps).rows && Exec(s, steps).rows[id].status == Processed
  }

  /** PROCESSED lasts through every continuation exactly when no write read before is still to come. */
  lemma ProcessedFinalIffNotUndermined(s: System, id: int)
    requires id in s.rows && s.rows[id].status == Processed
    ensures StaysProcessed(s, id) <==> !Undermined(s, id)
  {
    if Undermined(s, id) {
      var a :| a in s.actors && Threatens(s.actors[a], id);
      var step := if s.actors[a].Requeueing? then WriteRequeue(a) else Write(a, 0);
      assert [step][1..] == [] && Feasible(Do(s, step), []);
      assert Feasible(s, [step]);
      assert Exec(s, [step]) == Do(s, step);
    } else {
      forall steps | Feasible(s, steps)
        ensures id in Exec(s, steps).rows && Exec(s, steps).rows[id].status == Processed
      {
        ProcessedLasts(s, steps, id);
      }
    }
  }

  lemma {:induction false} ProcessedLasts(s: System, steps: seq<Step>, id: int)
    requires Feasible(s, steps) && id in s.rows && s.rows[id].status == Processed && !Undermined(s, id)
    ensures id in Exec(s, steps).rows && Exec(s, steps).rows[id].status == Processed
    decreases |steps|
  {
    if steps != [] {
      var t := Do(s, steps[0]);
      forall a | a in t.actors ensures !Threatens(t.actors[a], id) {
        if a in s.actors { assert !Threatens(s.actors[a], id); }
      }
      assert forall a :: a in s.actors ==> !Threatens(s.actors[a], id);
      ProcessedLasts(t, steps[1..], id);
    }
  }

  /**
   Unless both are careful, some run takes a delivered event back to PENDING, for events of any kind: a
   late failure after a careless reclaim, or a late requeue that read the event while it was claimed.
   */
  lemma ProcessedCanBeUndone(aggregate: string, d: Discipline)
    requires d != FULL
    ensures exists s, late, id ::
      && Reachable(s, d) && CanStep(s, late) && Careful(s, late, d) && id in s.rows && s.rows[id].aggregate == aggregate
      && s.rows[id].status == Processed && Do(s, late).rows[id].status == Pending
  {
    if d.reclaims {
      var s := LateRequeue(aggregate, d);
      var late := WriteRequeue(3);
      assert CanStep(s, late) && Careful(s, late, d) && Do(s, late).rows[1].status == Pending;
    } else {
      var s := FirstStalls(aggregate, d);
      s := SecondChecks(s, aggregate, 0, true, d);
      StepIsReachable(s, Write(2, 210), d);
      s := Do(s, Write(2, 210));
      var late := Write(1, 220);
      assert s.rows[1].status == Processed && CanStep(s, late) && Careful(s, late, d);
      assert Do(s, late).rows[1].status == Pending;
    }
  }

  /** Someone reads the event for a requeue, its worker completes, and the requeue is still to be written. */
  lemma LateRequeue(aggregate: string, d: Discipline) returns (s: System)
    ensures Reachable(s, d) && 1 in s.rows && s.rows[1].status == Processed && s.rows[1].aggregate == aggregate
    ensures ActorOf(s, 3) == Requeueing(1)
  {
    s := FirstDelivers(aggregate, true, d);
    StepIsReachable(s, ReadRequeue(3, 1), d);
    s := Do(s, ReadRequeue(3, 1));
    StepIsReachable(s, Check(1), d);
    s := Do(s, Check(1));
    StepIsReachable(s, Write(1, 10), d);
    s := Do(s, Write(1, 10));
  }

  ghost predicate ProcessedFinal(d: Discipline) {
    forall s, step, id ::
      Reachable(s, d) && CanStep(s, step) && Careful(s, step, d) && id in s.rows && s.rows[id].status == Processed ==>
      id in Do(s, step).rows && Do(s, step).rows[id].status == Processed
  }

  ghost predicate CountsGrow(d: Discipline) {
    forall s, step, id ::
      Reachable(s, d) && CanStep(s, step) && Careful(s, step, d) && id in s.rows ==>
      id in Do(s, step).rows && s.rows[id].retryCount <= Do(s, step).rows[id].retryCount
  }

  /** PROCESSED is final in all runs, and counts never drop in them, exactly when both kinds of care are taken. */
  lemma BothCaresAreNeeded(d: Discipline)
    ensures ProcessedFinal(d) <==> d == FULL
    ensures CountsGrow(d) <==> d == FULL
  {
    if d == FULL {
      forall s, step | Reachable(s, d) && CanStep(s, step) && Careful(s, step, d) ensures OneWorkerEach(s) {
        var steps :| LeadsTo(s, steps, d);
        CarefulRunKeeps(Start(s.cap), steps);
      }
      forall s, step | Reachable(s, d) && CanStep(s, step) && Careful(s, step, d) ensures CareKept(s, step) {
        CarefulStepKeeps(s, step);
      }
    } else {
      ProcessedCanBeUndone("leave_request", d);
      RetryCountCanDrop("leave_request", d);
    }
  }

  ghost predicate CareKept(s: System, step: Step)
    requires CanStep(s, step)
  {
    forall id :: id in s.rows ==>
      && id in Do(s, step).rows && s.rows[id].retryCount <= Do(s, step).rows[id].retryCount
      && (s.rows[id].status == Processed ==> Do(s, step).rows[id].status == Processed)
  }
}
