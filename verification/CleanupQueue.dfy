/**
 The private-file cleanup queue of one tenant: tombstones claimed under fresh tokens, stale claims
 released, outcomes recorded only by the holder of the current token.
 */
module CleanupQueue {
  import opened Outcomes
  import opened Sums

  datatype Status = Pending | Processing | Failed | Completed

  datatype ErrorClass = InvalidStorageMetadata | LocalIo | StorageConfiguration | ObjectStore | UnsupportedProvider

  /** Times are seconds; tokens and ids stand for UUIDs. */
  datatype Task = Task(
    key: string, provider: string, bucket: Option<string>, storagePath: Option<string>, localRoot: Option<string>,
    status: Status, attempts: int, nextAttempt: int, claimedAt: Option<int>, token: Option<int>,
    error: Option<ErrorClass>, completedAt: Option<int>, createdAt: int)

  type Tasks = map<int, Task>

  const MAX_ATTEMPTS := 0x7fff_ffff
  const STALE_SECONDS := 300

  // ---------------------------------------------------------------- backoff

  function Clamp(x: int, low: int, high: int): int
    requires low <= high
  {
    if x < low then low else if x > high then high else x
  }

  function PowerOfTwo(e: nat): nat {
    if e == 0 then 1 else 2 * PowerOfTwo(e - 1)
  }

  function RetryDelay(attempts: int): int {
    var wait := 5 * PowerOfTwo(Clamp(attempts, 1, 10));
    if wait < 3600 then wait else 3600
  }

  lemma {:induction false} PowerGrows(d: nat, e: nat)
    requires d <= e
    ensures PowerOfTwo(d) <= PowerOfTwo(e)
  {
    if d < e {
      PowerGrows(d, e - 1);
    }
  }

  /** Between ten seconds and an hour, doubling up to the cap, never shorter after more attempts. */
  lemma BackoffGrows(a: int, b: int)
    requires a <= b
    ensures 10 <= RetryDelay(a) <= RetryDelay(b) <= 3600
    ensures 1 <= a < 9 ==> RetryDelay(a + 1) == 2 * RetryDelay(a)
    ensures a <= 1 ==> RetryDelay(a) == 10
    ensures a >= 10 ==> RetryDelay(a) == 3600
  {
    PowerGrows(1, Clamp(a, 1, 10));
    PowerGrows(Clamp(a, 1, 10), Clamp(b, 1, 10));
    assert PowerOfTwo(1) == 2;
    if 1 <= a < 9 {
      PowerGrows(a + 1, 9);
    }
    assert PowerOfTwo(9) == 512 by {
      assert PowerOfTwo(3) == 8;
      assert PowerOfTwo(6) == 64 by { assert PowerOfTwo(4) == 16; assert PowerOfTwo(5) == 32; }
      assert PowerOfTwo(8) == 256 by { assert PowerOfTwo(7) == 128; }
    }
    assert PowerOfTwo(10) == 1024;
  }

  // ---------------------------------------------------------------- row changes

  function SaturatingIncrement(n: int): int {
    if n < MAX_ATTEMPTS then n + 1 else MAX_ATTEMPTS
  }

  function Enqueued(
      key: string, provider: string, bucket: Option<string>, path: string, root: Option<string>, now: int): Task {
    Task(key, provider, bucket, Some(path), root, Pending, 0, now, None, None, None, None, now)
  }

  predicate Stale(t: Task, now: int) {
    t.status == Processing && t.claimedAt.Some? && t.claimedAt.value < now - STALE_SECONDS
  }

  predicate Due(t: Task, now: int) {
    t.status in {Pending, Failed} && t.nextAttempt <= now
  }

  predicate KnownKey(tasks: Tasks, key: string) {
    exists j :: j in tasks && tasks[j].key == key
  }

  /** A crashed worker's claim is taken back; the attempt is not counted. */
  function Released(t: Task, now: int): Task {
    t.(status := Failed, claimedAt := None, token := None, error := Some(ObjectStore), nextAttempt := now)
  }

  function Claimed(t: Task, now: int, token: int): Task {
    t.(status := Processing, claimedAt := Some(now), token := Some(token))
  }

  /** Outcomes are computed from the worker's copy of the row. */
  function Recorded(t: Task, copy: Task, outcome: Option<ErrorClass>, now: int): Task {
    var attempts := SaturatingIncrement(copy.attempts);
    match outcome
    case None =>
      t.(status := Completed, attempts := attempts, bucket := None, storagePath := None, localRoot := None,
         claimedAt := None, token := None, error := None, completedAt := Some(now))
    case Some(cause) =>
      t.(status := Failed, attempts := attempts, nextAttempt := now + RetryDelay(attempts),
         claimedAt := None, token := None, error := Some(cause))
  }

  /** The row still carries the claim under which `copy` was read. */
  predicate Holds(tasks: Tasks, id: int, copy: Task) {
    id in tasks && tasks[id].status == Processing && copy.token.Some? && tasks[id].token == copy.token
  }

  function Updated(tasks: Tasks, id: int, copy: Task, outcome: Option<ErrorClass>, now: int): Tasks {
    if Holds(tasks, id, copy) then tasks[id := Recorded(tasks[id], copy, outcome, now)] else tasks
  }

  // ---------------------------------------------------------------- selection in order

  function StaleIds(tasks: Tasks, now: int, locked: set<int>): set<int> {
    set id | id in tasks && id !in locked && Stale(tasks[id], now)
  }

  function DueIds(tasks: Tasks, now: int, locked: set<int>): set<int> {
    set id | id in tasks && id !in locked && Due(tasks[id], now)
  }

  predicate AtMost(a: (int, int), b: (int, int)) {
    a.0 < b.0 || (a.0 == b.0 && a.1 <= b.1)
  }

  function StaleRank(t: Task): (int, int) {
    (if t.claimedAt.Some? then t.claimedAt.value else 0, 0)
  }

  function DueRank(t: Task): (int, int) {
    (t.nextAttempt, t.createdAt)
  }

  function StaleRanks(tasks: Tasks, now: int, locked: set<int>): map<int, (int, int)> {
    map id | id in StaleIds(tasks, now, locked) :: StaleRank(tasks[id])
  }

  function DueRanks(tasks: Tasks, now: int, locked: set<int>): map<int, (int, int)> {
    map id | id in DueIds(tasks, now, locked) :: DueRank(tasks[id])
  }

  /** ORDER BY rank LIMIT 1. */
  method First(ranks: map<int, (int, int)>) returns (first: Option<int>)
    ensures first.None? <==> ranks.Keys == {}
    ensures first.Some? ==> first.value in ranks && forall id :: id in ranks ==> AtMost(ranks[first.value], ranks[id])
  {
    first := None;
    var left := ranks.Keys;
    while left != {}
      invariant left <= ranks.Keys
      invariant SmallestOutside(ranks, left, first)
      decreases left
    {
      SomeMember(left);
      var id :| id in left;
      left := left - {id};
      if first.None? || !AtMost(ranks[first.value], ranks[id]) {
        first := Some(id);
      }
    }
  }

  ghost predicate SmallestOutside(ranks: map<int, (int, int)>, left: set<int>, first: Option<int>) {
    match first
    case None => left == ranks.Keys
    case Some(f) => f in ranks && forall id :: id in ranks && id !in left ==> AtMost(ranks[f], ranks[id])
  }

  /** At most one stale claim, the oldest not locked, is released. */
  ghost predicate ReleasesOldest(before: Tasks, now: int, locked: set<int>, after: Tasks) {
    || (StaleIds(before, now, locked) == {} && after == before)
    || exists id :: id in StaleIds(before, now, locked) && after == before[id := Released(before[id], now)]
         && forall j :: j in StaleIds(before, now, locked) ==> AtMost(StaleRank(before[id]), StaleRank(before[j]))
  }

  lemma FirstIsOldest(before: Tasks, now: int, locked: set<int>, id: int)
    requires var ranks := StaleRanks(before, now, locked);
      id in ranks && forall j :: j in ranks ==> AtMost(ranks[id], ranks[j])
    ensures id in before && Stale(before[id], now)
    ensures ReleasesOldest(before, now, locked, before[id := Released(before[id], now)])
  {
    var ranks := StaleRanks(before, now, locked);
    assert id in StaleIds(before, now, locked);
    forall j | j in StaleIds(before, now, locked) ensures AtMost(StaleRank(before[id]), StaleRank(before[j])) {
      assert j in ranks;
    }
  }

  ghost predicate ClaimsFirst(
      before: Tasks, now: int, token: int, locked: set<int>, after: Tasks, claimed: Option<(int, Task)>) {
    match claimed
    case None => DueIds(before, now, locked) == {} && after == before
    case Some((id, copy)) =>
      && id in DueIds(before, now, locked)
      && copy == Claimed(before[id], now, token) && after == before[id := copy]
      && forall j :: j in DueIds(before, now, locked) ==> AtMost(DueRank(before[id]), DueRank(before[j]))
  }

  lemma NothingStale(tasks: Tasks, now: int, locked: set<int>)
    requires StaleRanks(tasks, now, locked).Keys == {}
    ensures ReleasesOldest(tasks, now, locked, tasks)
  {
    assert StaleRanks(tasks, now, locked).Keys == StaleIds(tasks, now, locked);
  }

  lemma NothingDue(tasks: Tasks, now: int, token: int, locked: set<int>)
    requires DueRanks(tasks, now, locked).Keys == {}
    ensures ClaimsFirst(tasks, now, token, locked, tasks, None)
  {
    assert DueRanks(tasks, now, locked).Keys == DueIds(tasks, now, locked);
  }

  lemma FirstIsClaimed(before: Tasks, now: int, token: int, locked: set<int>, id: int)
    requires var ranks := DueRanks(before, now, locked);
      id in ranks && forall j :: j in ranks ==> AtMost(ranks[id], ranks[j])
    ensures id in before && Due(before[id], now)
    ensures var copy := Claimed(before[id], now, token);
      ClaimsFirst(before, now, token, locked, before[id := copy], Some((id, copy)))
  {
    forall j | j in DueIds(before, now, locked) ensures AtMost(DueRank(before[id]), DueRank(before[j])) {
      assert j in DueRanks(before, now, locked);
    }
  }

  // ---------------------------------------------------------------- what a claim means

  /** Claimed more than 300 seconds ago, by a worker that has not come back. */
  predicate OverdueSince(t: Task, now: int, claimed: int) {
    t.status == Processing && t.claimedAt == Some(claimed) && claimed + 300 < now
  }

  /** No unlocked claim is older than 300 seconds; or the oldest such claim is given up, to be retried now. */
  ghost predicate OldestOverdueReleased(before: Tasks, now: int, locked: set<int>, after: Tasks) {
    || (after == before && forall j, d :: j in before && j !in locked ==> !OverdueSince(before[j], now, d))
    || exists id, c ::
         && id in before && id !in locked && OverdueSince(before[id], now, c)
         && (forall j, d :: j in before && j !in locked && OverdueSince(before[j], now, d) ==> c <= d)
         && after == before[id := before[id].(
              status := Failed, claimedAt := None, token := None, error := Some(ObjectStore), nextAttempt := now)]
  }

  /** The limit of a batch: at least one task and at most a hundred. */
  function AtMost100(limit: int): nat {
    if limit <= 0 then 1 else if limit <= 100 then limit else 100
  }

  predicate NobodyWaits(tasks: Tasks, now: int) {
    forall j :: j in tasks ==> !Waiting(tasks[j], now)
  }

  /** Waiting for its first or next attempt, whose time has come. */
  predicate Waiting(t: Task, now: int) {
    (t.status == Pending || t.status == Failed) && now >= t.nextAttempt
  }

  /**
   No unlocked task has been waiting, and nothing changes; or the one that has waited longest, and of
   those the one enqueued first, is now claimed under the token.
   */
  ghost predicate FirstWaitingTaken(
      before: Tasks, now: int, token: int, locked: set<int>, after: Tasks, claimed: Option<(int, Task)>) {
    match claimed
    case None => after == before && forall j :: j in before && j !in locked ==> !Waiting(before[j], now)
    case Some((id, copy)) =>
      && id in before && id !in locked && Waiting(before[id], now)
      && copy == before[id].(status := Processing, claimedAt := Some(now), token := Some(token))
      && after == before[id := copy]
      && forall j :: j in before && j !in locked && Waiting(before[j], now) ==>
        || before[id].nextAttempt < before[j].nextAttempt
        || (before[id].nextAttempt == before[j].nextAttempt && before[id].createdAt <= before[j].createdAt)
  }

  lemma ReleaseMeans(before: Tasks, now: int, locked: set<int>, after: Tasks)
    requires ReleasesOldest(before, now, locked, after)
    ensures OldestOverdueReleased(before, now, locked, after)
  {
    if StaleIds(before, now, locked) == {} && after == before {
      assert forall j :: j in before && j !in locked ==> j !in StaleIds(before, now, locked);
    } else {
      var id :| id in StaleIds(before, now, locked) && after == before[id := Released(before[id], now)]
        && forall j :: j in StaleIds(before, now, locked) ==> AtMost(StaleRank(before[id]), StaleRank(before[j]));
      assert OverdueSince(before[id], now, before[id].claimedAt.value);
      forall j, d | j in before && j !in locked && OverdueSince(before[j], now, d)
        ensures before[id].claimedAt.value <= d
      {
        assert j in StaleIds(before, now, locked);
      }
    }
  }

  lemma ClaimMeans(
      before: Tasks, now: int, token: int, locked: set<int>, after: Tasks, claimed: Option<(int, Task)>)
    requires ClaimsFirst(before, now, token, locked, after, claimed)
    ensures FirstWaitingTaken(before, now, token, locked, after, claimed)
  {
    forall j | j in before && j !in locked ensures Waiting(before[j], now) <==> j in DueIds(before, now, locked) {
    }
  }

  // ---------------------------------------------------------------- the table

  /** Claim columns go with PROCESSING, coordinates with everything but COMPLETED; one row per key. */
  ghost predicate WellKept(tasks: Tasks) {
    && (forall id :: id in tasks ==> RowWellKept(tasks[id]))
    && (forall i, j :: i in tasks && j in tasks && tasks[i].key == tasks[j].key ==> i == j)
  }

  ghost predicate RowWellKept(t: Task) {
    && (t.token.Some? <==> t.status == Processing)
    && (t.claimedAt.Some? <==> t.status == Processing)
    && (t.storagePath.None? <==> t.status == Completed)
    && (t.status == Completed ==> t.bucket.None? && t.localRoot.None?)
    && (t.completedAt.Some? <==> t.status == Completed)
    && 0 <= t.attempts <= MAX_ATTEMPTS
  }

  class CleanupStore {
    var tasks: Tasks

    constructor ()
      ensures tasks == map[]
    {
      tasks := map[];
    }

    /** INSERT ... ON CONFLICT (tenant, key) DO NOTHING. */
    method Enqueue(
        id: int, key: string, provider: string, bucket: Option<string>, path: string, root: Option<string>, now: int)
      requires id !in tasks && WellKept(tasks)
      modifies this
      ensures WellKept(tasks)
      ensures tasks == if KnownKey(old(tasks), key) then old(tasks)
                       else old(tasks)[id := Enqueued(key, provider, bucket, path, root, now)]
      ensures (exists j :: j in old(tasks) && old(tasks)[j].key == key) ==> tasks == old(tasks)
      ensures (forall j :: j in old(tasks) ==> old(tasks)[j].key != key) ==>
        tasks == old(tasks)[id :=
          Task(key, provider, bucket, Some(path), root, Pending, 0, now, None, None, None, None, now)]
    {
      if !KnownKey(tasks, key) {
        tasks := tasks[id := Enqueued(key, provider, bucket, path, root, now)];
      }
    }

    /** One transaction: release the oldest stale claim, then claim the first due task. */
    method ClaimDueTask(now: int, token: int, locked: set<int>)
      returns (claimed: Option<(int, Task)>, ghost middle: Tasks)
      requires WellKept(tasks)
      modifies this
      ensures WellKept(tasks)
      ensures ReleasesOldest(old(tasks), now, locked, middle)
      ensures ClaimsFirst(middle, now, token, locked, tasks, claimed)
      ensures OldestOverdueReleased(old(tasks), now, locked, middle)
      ensures FirstWaitingTaken(middle, now, token, locked, tasks, claimed)
    {
      ghost var before := tasks;
      ReleaseOldest(now, locked);
      middle := tasks;
      ReleaseMeans(before, now, locked, middle);
      var due := First(DueRanks(tasks, now, locked));
      if due.None? {
        NothingDue(middle, now, token, locked);
        ClaimMeans(middle, now, token, locked, tasks, None);
        return None, middle;
      }
      FirstIsClaimed(middle, now, token, locked, due.value);
      var copy := Claimed(tasks[due.value], now, token);
      tasks := tasks[due.value := copy];
      claimed := Some((due.value, copy));
      ClaimMeans(middle, now, token, locked, tasks, claimed);
    }

    method ReleaseOldest(now: int, locked: set<int>)
      requires WellKept(tasks)
      modifies this
      ensures WellKept(tasks)
      ensures ReleasesOldest(old(tasks), now, locked, tasks)
    {
      var stale := First(StaleRanks(tasks, now, locked));
      if stale.Some? {
        FirstIsOldest(tasks, now, locked, stale.value);
        tasks := tasks[stale.value := Released(tasks[stale.value], now)];
      } else {
        NothingStale(tasks, now, locked);
      }
    }

    /** The fenced update; a copy without a token is an internal error. */
    method Record(id: int, copy: Task, outcome: Option<ErrorClass>, now: int) returns (r: Result<bool, ()>)
      requires WellKept(tasks) && 0 <= copy.attempts <= MAX_ATTEMPTS
      modifies this
      ensures WellKept(tasks)
      ensures r.Err? <==> copy.token.None?
      ensures r.Ok? ==> r.value == old(Holds(tasks, id, copy))
      ensures tasks == Updated(old(tasks), id, copy, outcome, now)
      ensures
        && id in old(tasks) && old(tasks)[id].status == Processing && copy.token.Some?
        && old(tasks)[id].token == copy.token ==>
        var t, attempts := old(tasks)[id], if copy.attempts + 1 < 0x7fff_ffff then copy.attempts + 1 else 0x7fff_ffff;
        tasks == old(tasks)[id :=
          match outcome
          case None => Task(t.key, t.provider, None, None, None, Completed, attempts, t.nextAttempt, None, None,
                            None, Some(now), t.createdAt)
          case Some(cause) => Task(t.key, t.provider, t.bucket, t.storagePath, t.localRoot, Failed, attempts,
                                   now + RetryDelay(attempts), None, None, Some(cause), t.completedAt, t.createdAt)]
      ensures
        || id !in old(tasks) || old(tasks)[id].status != Processing || copy.token.None?
        || old(tasks)[id].token != copy.token ==>
        tasks == old(tasks)
    {
      if copy.token.None? {
        return Err(());
      }
      var applied := Holds(tasks, id, copy);
      tasks := Updated(tasks, id, copy, outcome, now);
      r := Ok(applied);
    }

    /**
     A worker's batch. `outcomes` are the results of the physical deletions, `clock` and `tokens` the
     times and fresh identifiers it draws. Undisturbed, each round claims the first due task and
     records its outcome; `states` are the table's states between the rounds.
     */
    method ProcessBatch(limit: int, clock: seq<int>, tokens: seq<int>, outcomes: seq<Option<ErrorClass>>)
      returns (processed: nat, ghost states: seq<Tasks>)
      requires WellKept(tasks)
      requires |clock| >= 100 && |tokens| >= 100 && |outcomes| >= 100
      modifies this
      ensures WellKept(tasks)
      ensures processed <= Clamp(limit, 1, 100) && |states| == processed + 1 && states[0] == old(tasks)
      ensures forall k :: 0 <= k < processed ==> Round(states[k], states[k + 1], clock[k], tokens[k], outcomes[k])
      ensures processed <= AtMost100(limit)
      ensures processed < AtMost100(limit) ==> NobodyWaits(tasks, clock[processed])
      ensures if processed == Clamp(limit, 1, 100) then tasks == states[processed]
              else
                && ReleasesOldest(states[processed], clock[processed], {}, tasks)
                && DueIds(tasks, clock[processed], {}) == {}
    {
      processed := 0;
      states := [tasks];
      for i := 0 to Clamp(limit, 1, 100)
        invariant processed == i && |states| == i + 1 && states[0] == old(tasks) && states[i] == tasks
        invariant forall k :: 0 <= k < i ==> Round(states[k], states[k + 1], clock[k], tokens[k], outcomes[k])
        invariant WellKept(tasks)
      {
        var did := ProcessOne(clock[i], tokens[i], outcomes[i]);
        if !did {
          return;
        }
        processed := processed + 1;
        states := states + [tasks];
      }
    }

    /** One round: a claim, the delete with its outcome, and the record. */
    method ProcessOne(now: int, token: int, outcome: Option<ErrorClass>) returns (did: bool)
      requires WellKept(tasks)
      modifies this
      ensures WellKept(tasks)
      ensures did ==> Round(old(tasks), tasks, now, token, outcome)
      ensures !did ==> ReleasesOldest(old(tasks), now, {}, tasks) && DueIds(tasks, now, {}) == {}
      ensures !did ==> NobodyWaits(tasks, now)
    {
      ghost var before := tasks;
      var claimed, middle := ClaimDueTask(now, token, {});
      if claimed.None? {
        return false;
      }
      ghost var current := tasks;
      var applied := Record(claimed.value.0, claimed.value.1, outcome, now);
      RoundIsDone(before, middle, current, claimed.value.0, claimed.value.1, now, token, outcome);
      did := true;
    }
  }

  lemma RoundIsDone(
      before: Tasks, middle: Tasks, current: Tasks, id: int, copy: Task, now: int, token: int,
      outcome: Option<ErrorClass>)
    requires ReleasesOldest(before, now, {}, middle) && ClaimsFirst(middle, now, token, {}, current, Some((id, copy)))
    ensures Round(before, Updated(current, id, copy, outcome, now), now, token, outcome)
  {
    assert RoundBy(
      before, middle, current, Updated(current, id, copy, outcome, now), id, copy, now, token, outcome);
  }

  /** Claim and record with nobody in between. */
  ghost predicate RoundBy(
      before: Tasks, middle: Tasks, current: Tasks, after: Tasks, id: int, copy: Task, now: int, token: int,
      outcome: Option<ErrorClass>)
  {
    && ReleasesOldest(before, now, {}, middle) && ClaimsFirst(middle, now, token, {}, current, Some((id, copy)))
    && after == middle[id := Recorded(copy, copy, outcome, now)]
  }

  ghost predicate Round(before: Tasks, after: Tasks, now: int, token: int, outcome: Option<ErrorClass>) {
    exists middle, current, id, copy :: RoundBy(before, middle, current, after, id, copy, now, token, outcome)
  }

  /** A key is covered by a live tombstone after enqueuing exactly when it was never completed before. */
  lemma EnqueueCoversIff(before: Tasks, id: int, t: Task, after: Tasks)
    requires WellKept(before) && id !in before && t.status == Pending
    requires after == if KnownKey(before, t.key) then before else before[id := t]
    ensures (exists j :: j in after && after[j].key == t.key && after[j].status != Completed)
      <==> !exists j :: j in before && before[j].key == t.key && before[j].status == Completed
  {
    if !KnownKey(before, t.key) {
      assert after[id].key == t.key;
    }
  }

  // ---------------------------------------------------------------- workers

  datatype Worker = Idle | Deleting(id: int, copy: Task) | Recording(id: int, copy: Task, outcome: Option<ErrorClass>)

  /**
   Rows, workers, and history: the tokens ever issued, the tokens under which the physical object was
   deleted, how many outcomes each task has recorded, and the token that completed it.
   */
  datatype System = System(
    tasks: Tasks, workers: map<int, Worker>,
    issued: set<int>, deleted: set<int>, outcomes: map<int, nat>, finisher: map<int, int>)

  datatype Step =
    | Enqueue(id: int, task: Task)
    | Claim(w: int, now: int, token: int, stale: Option<int>, picked: Option<int>)
    | Delete(w: int, result: Option<ErrorClass>)
    | Record(w: int, now: int)
    | Crash(w: int)

  function OutcomeCount(s: System, id: int): nat {
    if id in s.outcomes then s.outcomes[id] else 0
  }

  function WorkerOf(s: System, w: int): Worker {
    if w in s.workers then s.workers[w] else Idle
  }

  /** Any unlocked stale row may be released and any unlocked due row claimed: other claims hold the rest. */
  predicate CanStep(s: System, step: Step) {
    match step
    case Enqueue(id, t) =>
      && id !in s.tasks && t.storagePath.Some?
      && t == Enqueued(t.key, t.provider, t.bucket, t.storagePath.value, t.localRoot, t.createdAt)
    case Claim(w, now, token, stale, picked) =>
      && WorkerOf(s, w).Idle? && token !in s.issued
      && (stale.Some? ==> stale.value in s.tasks && Stale(s.tasks[stale.value], now))
      && (picked.Some? ==> picked.value in s.tasks && Due(AfterRelease(s.tasks, stale, now)[picked.value], now))
    case Delete(w, _) => WorkerOf(s, w).Deleting?
    case Record(w, _) => WorkerOf(s, w).Recording?
    case Crash(w) => true
  }

  function AfterRelease(tasks: Tasks, stale: Option<int>, now: int): (r: Tasks)
    ensures r.Keys >= tasks.Keys
  {
    if stale.Some? && stale.value in tasks then tasks[stale.value := Released(tasks[stale.value], now)] else tasks
  }

  function Do(s: System, step: Step): System
    requires CanStep(s, step)
  {
    match step
    case Enqueue(id, t) => if KnownKey(s.tasks, t.key) then s else s.(tasks := s.tasks[id := t])
    case Claim(w, now, token, stale, picked) =>
      var middle := AfterRelease(s.tasks, stale, now);
      if picked.None? then s.(tasks := middle)
      else
        var copy := Claimed(middle[picked.value], now, token);
        s.(tasks := middle[picked.value := copy], workers := s.workers[w := Deleting(picked.value, copy)],
           issued := s.issued + {token})
    case Delete(w, result) =>
      var c := WorkerOf(s, w);
      s.(workers := s.workers[w := Recording(c.id, c.copy, result)],
         deleted := if result.None? && c.copy.token.Some? then s.deleted + {c.copy.token.value} else s.deleted)
    case Record(w, now) =>
      var c := WorkerOf(s, w);
      var freed := s.workers[w := Idle];
      if Holds(s.tasks, c.id, c.copy) then
        s.(tasks := Updated(s.tasks, c.id, c.copy, c.outcome, now), workers := freed,
           outcomes := s.outcomes[c.id := OutcomeCount(s, c.id) + 1],
           finisher := if c.outcome.None? then s.finisher[c.id := c.copy.token.value] else s.finisher)
      else s.(workers := freed)
    case Crash(w) => s.(workers := s.workers[w := Idle])
  }

  ghost predicate Run(run: seq<System>) {
    && |run| > 0
    && run[0] == System(map[], map[], {}, {}, map[], map[])
    && forall i :: 0 <= i < |run| - 1 ==> FollowsAt(run, i)
  }

  ghost predicate FollowsAt(run: seq<System>, i: nat)
    requires i + 1 < |run|
  {
    Follows(run[i], run[i + 1])
  }

  ghost predicate Follows(s: System, t: System) {
    exists step :: CanStep(s, step) && t == Do(s, step)
  }

  // ---------------------------------------------------------------- what every run keeps

  /** A busy worker's copy: claimed under an issued token, and current exactly when unchanged since. */
  ghost predicate CopyFits(s: System, w: int) {
    var c := WorkerOf(s, w);
    !c.Idle? ==>
      && c.copy.status == Processing && c.copy.token.Some? && c.copy.token.value in s.issued
      && c.id in s.tasks
      && (forall id :: id in s.tasks && s.tasks[id].token == c.copy.token ==> id == c.id && s.tasks[id] == c.copy)
      && (forall v :: v in s.workers && v != w && !s.workers[v].Idle? ==> s.workers[v].copy.token != c.copy.token)
      && (c.Recording? && c.outcome.None? ==> c.copy.token.value in s.deleted)
  }

  ghost predicate HistoryFits(s: System, id: int)
    requires id in s.tasks
  {
    var t := s.tasks[id];
    && t.attempts == (if OutcomeCount(s, id) < MAX_ATTEMPTS then OutcomeCount(s, id) else MAX_ATTEMPTS)
    && (t.status == Completed ==> id in s.finisher && s.finisher[id] in s.deleted)
    && (t.token.Some? ==> t.token.value in s.issued)
  }

  ghost predicate Inv(s: System) {
    && WellKept(s.tasks)
    && (forall id :: id in s.tasks ==> HistoryFits(s, id))
    && (forall i, j ::
          i in s.tasks && j in s.tasks && s.tasks[i].token.Some? && s.tasks[i].token == s.tasks[j].token ==> i == j)
    && (forall w :: w in s.workers ==> CopyFits(s, w))
    && (forall id :: id in s.outcomes ==> id in s.tasks)
  }

  lemma StepKeepsInv(s: System, step: Step)
    requires Inv(s) && CanStep(s, step)
    ensures Inv(Do(s, step))
  {
    match step
    case Enqueue(id, t) => EnqueueKeeps(s, id, t);
    case Claim(w, now, token, stale, picked) => ClaimKeeps(s, w, now, token, stale, picked);
    case Delete(w, result) => WorkerStepKeeps(s, step);
    case Record(w, now) => RecordKeeps(s, w, now);
    case Crash(w) => WorkerStepKeeps(s, step);
  }

  lemma WorkerStepKeeps(s: System, step: Step)
    requires Inv(s) && CanStep(s, step) && (step.Delete? || step.Crash?)
    ensures Inv(Do(s, step))
  {
    forall i | i in s.tasks ensures HistoryFits(Do(s, step), i) {
      assert HistoryFits(s, i);
    }
    forall v | v in Do(s, step).workers ensures CopyFits(Do(s, step), v) {
      assert CopyFits(s, v);
    }
  }

  lemma EnqueueKeeps(s: System, id: int, t: Task)
    requires Inv(s) && CanStep(s, Enqueue(id, t))
    ensures Inv(Do(s, Enqueue(id, t)))
  {
    if !KnownKey(s.tasks, t.key) {
      InsertKeeps(s, id, t);
    }
  }

  lemma InsertKeeps(s: System, id: int, t: Task)
    requires Inv(s) && CanStep(s, Enqueue(id, t)) && !KnownKey(s.tasks, t.key)
    ensures Inv(s.(tasks := s.tasks[id := t]))
  {
    var s' := s.(tasks := s.tasks[id := t]);
    forall i | i in s'.tasks ensures HistoryFits(s', i) {
      if i != id { assert HistoryFits(s, i); }
    }
    forall w | w in s'.workers ensures CopyFits(s', w) {
      assert CopyFits(s, w);
    }
  }

  lemma ReleaseKeeps(s: System, stale: Option<int>, now: int)
    requires Inv(s) && (stale.Some? ==> stale.value in s.tasks && Stale(s.tasks[stale.value], now))
    ensures Inv(s.(tasks := AfterRelease(s.tasks, stale, now)))
  {
    var s' := s.(tasks := AfterRelease(s.tasks, stale, now));
    forall i | i in s'.tasks ensures HistoryFits(s', i) {
      assert HistoryFits(s, i);
    }
    forall w | w in s'.workers ensures CopyFits(s', w) {
      assert CopyFits(s, w);
    }
  }

  lemma ClaimKeeps(s: System, w: int, now: int, token: int, stale: Option<int>, picked: Option<int>)
    requires Inv(s) && CanStep(s, Claim(w, now, token, stale, picked))
    ensures Inv(Do(s, Claim(w, now, token, stale, picked)))
  {
    ReleaseKeeps(s, stale, now);
    var m := s.(tasks := AfterRelease(s.tasks, stale, now));
    if picked.Some? {
      FreshClaimKeeps(m, w, now, token, picked.value);
    }
  }

  lemma FreshClaimKeeps(m: System, w: int, now: int, token: int, id: int)
    requires Inv(m) && WorkerOf(m, w).Idle? && token !in m.issued && id in m.tasks && Due(m.tasks[id], now)
    ensures var copy := Claimed(m.tasks[id], now, token);
      Inv(m.(tasks := m.tasks[id := copy], workers := m.workers[w := Deleting(id, copy)], issued := m.issued + {token}))
  {
    var copy := Claimed(m.tasks[id], now, token);
    var s' := m.(tasks := m.tasks[id := copy], workers := m.workers[w := Deleting(id, copy)],
                 issued := m.issued + {token});
    forall i | i in m.tasks ensures HistoryFits(s', i) && m.tasks[i].token != Some(token) {
      assert HistoryFits(m, i);
    }
    forall v | v in s'.workers ensures CopyFits(s', v) {
      FreshClaimKeepsCopies(m, w, now, token, id, v);
    }
  }

  lemma FreshClaimKeepsCopies(m: System, w: int, now: int, token: int, id: int, v: int)
    requires Inv(m) && WorkerOf(m, w).Idle? && token !in m.issued && id in m.tasks && Due(m.tasks[id], now)
    requires v in m.workers || v == w
    ensures var copy := Claimed(m.tasks[id], now, token);
      CopyFits(m.(tasks := m.tasks[id := copy], workers := m.workers[w := Deleting(id, copy)],
                  issued := m.issued + {token}), v)
  {
    forall u | u in m.workers && u != w && !m.workers[u].Idle? ensures m.workers[u].copy.token != Some(token) {
      assert CopyFits(m, u);
    }
    forall i | i in m.tasks ensures m.tasks[i].token != Some(token) {
      assert HistoryFits(m, i);
    }
    assert v != w ==> CopyFits(m, v);
  }

  lemma RecordKeeps(s: System, w: int, now: int)
    requires Inv(s) && CanStep(s, Record(w, now))
    ensures Inv(Do(s, Record(w, now)))
  {
    var s' := Do(s, Record(w, now));
    RecordKeepsRows(s, w, now);
    forall v | v in s'.workers ensures CopyFits(s', v) {
      RecordKeepsCopies(s, w, now, v);
    }
  }

  lemma RecordKeepsRows(s: System, w: int, now: int)
    requires Inv(s) && CanStep(s, Record(w, now))
    ensures var t := Do(s, Record(w, now));
      && WellKept(t.tasks) && (forall id :: id in t.tasks ==> HistoryFits(t, id))
      && (forall i, j ::
            i in t.tasks && j in t.tasks && t.tasks[i].token.Some? && t.tasks[i].token == t.tasks[j].token ==> i == j)
      && (forall id :: id in t.outcomes ==> id in t.tasks)
  {
    var t := Do(s, Record(w, now));
    assert CopyFits(s, w);
    forall i | i in t.tasks ensures HistoryFits(t, i) {
      RecordKeepsHistory(s, w, now, i);
    }
  }

  lemma RecordKeepsHistory(s: System, w: int, now: int, i: int)
    requires Inv(s) && CanStep(s, Record(w, now)) && i in s.tasks
    ensures i in Do(s, Record(w, now)).tasks && HistoryFits(Do(s, Record(w, now)), i)
  {
    assert CopyFits(s, w) && HistoryFits(s, i);
  }

  lemma RecordKeepsCopies(s: System, w: int, now: int, v: int)
    requires Inv(s) && CanStep(s, Record(w, now)) && v in Do(s, Record(w, now)).workers
    ensures CopyFits(Do(s, Record(w, now)), v)
  {
    assert CopyFits(s, w) && CopyFits(s, v);
  }

  /** Every state of every run, with any number of workers, crashes and takeovers. */
  lemma {:induction false} RunKeepsInv(run: seq<System>, i: nat)
    requires Run(run) && i < |run|
    ensures Inv(run[i])
  {
    if i > 0 {
      RunKeepsInv(run, i - 1);
      assert FollowsAt(run, i - 1);
      var step :| CanStep(run[i - 1], step) && run[i] == Do(run[i - 1], step);
      StepKeepsInv(run[i - 1], step);
    }
  }

  /** Claim columns, coordinates and the attempt count of every row of every run. */
  lemma EveryRow(run: seq<System>, i: nat, id: int)
    requires Run(run) && i < |run| && id in run[i].tasks
    ensures var t := run[i].tasks[id];
      && (t.token.Some? <==> t.status == Processing) && (t.claimedAt.Some? <==> t.status == Processing)
      && (t.storagePath.None? <==> t.status == Completed)
      && (OutcomeCount(run[i], id) <= MAX_ATTEMPTS ==> t.attempts == OutcomeCount(run[i], id))
      && (OutcomeCount(run[i], id) > MAX_ATTEMPTS ==> t.attempts == MAX_ATTEMPTS)
  {
    RunKeepsInv(run, i);
    assert HistoryFits(run[i], id) && RowWellKept(run[i].tasks[id]);
  }

  /** A worker whose claim was taken over changes no row and records nothing. */
  lemma FencedWorkerChangesNothing(run: seq<System>, i: nat, w: int, now: int)
    requires Run(run) && i < |run| && WorkerOf(run[i], w).Recording?
    requires var c := WorkerOf(run[i], w); c.id !in run[i].tasks || run[i].tasks[c.id] != c.copy
    ensures var t := Do(run[i], Record(w, now)); t.tasks == run[i].tasks && t.outcomes == run[i].outcomes
  {
    RunKeepsInv(run, i);
    assert CopyFits(run[i], w);
  }

  /** The holder's record counts one attempt; a failure is retried after the backoff, a success ends the task. */
  lemma HolderRecordsOnce(run: seq<System>, i: nat, w: int, now: int)
    requires Run(run) && i < |run| && WorkerOf(run[i], w).Recording?
    requires var c := WorkerOf(run[i], w); c.id in run[i].tasks && run[i].tasks[c.id] == c.copy
    ensures var s, c := run[i], WorkerOf(run[i], w);
      var t := Do(s, Record(w, now));
      && OutcomeCount(t, c.id) == OutcomeCount(s, c.id) + 1
      && t.tasks[c.id].attempts == SaturatingIncrement(s.tasks[c.id].attempts)
      && (c.outcome.Some? ==>
            t.tasks[c.id].status == Failed && t.tasks[c.id].nextAttempt == now + RetryDelay(t.tasks[c.id].attempts))
      && (c.outcome.None? ==> t.tasks[c.id].status == Completed && c.copy.token.value in t.deleted)
      && forall id :: id in s.tasks && id != c.id ==> id in t.tasks && t.tasks[id] == s.tasks[id]
  {
    RunKeepsInv(run, i);
    assert CopyFits(run[i], w);
  }

  /** COMPLETED rows never change again. */
  lemma {:induction false} CompletedIsFinal(run: seq<System>, i: nat, j: nat, id: int)
    requires Run(run) && i <= j < |run|
    requires id in run[i].tasks && run[i].tasks[id].status == Completed
    ensures id in run[j].tasks && run[j].tasks[id] == run[i].tasks[id]
  {
    if i < j {
      CompletedIsFinal(run, i, j - 1, id);
      assert FollowsAt(run, j - 1);
      CompletedStays(run[j - 1], run[j], id);
    }
  }

  // ---------------------------------------------------------------- the backoff holds

  /** From `due` on the task may be tried again; until then nobody has claimed it. */
  predicate NotBefore(t: Task, due: int) {
    || t.status == Completed
    || ((t.status == Pending || t.status == Failed) && due <= t.nextAttempt)
    || (t.status == Processing && t.claimedAt.Some? && due <= t.claimedAt.value)
  }

  lemma StepHoldsBack(s: System, t: System, id: int, due: int)
    requires Follows(s, t) && id in s.tasks && NotBefore(s.tasks[id], due)
    requires OutcomeCount(t, id) == OutcomeCount(s, id)
    ensures id in t.tasks && NotBefore(t.tasks[id], due)
  {
    var step :| CanStep(s, step) && t == Do(s, step);
    if step.Claim? {
      ClaimHoldsBack(s, step.w, step.now, step.token, step.stale, step.picked, id, due);
    } else if step.Record? {
      RecordTouchesCounted(s, step.w, step.now, id);
    } else {
      OthersTouchNothing(s, step, id);
    }
  }

  lemma OthersTouchNothing(s: System, step: Step, id: int)
    requires CanStep(s, step) && !step.Claim? && !step.Record? && id in s.tasks
    ensures id in Do(s, step).tasks && Do(s, step).tasks[id] == s.tasks[id]
  {
  }

  /** A release comes more than 300 seconds after a claim, so it is no earlier than the claim was. */
  lemma ClaimHoldsBack(
      s: System, w: int, now: int, token: int, stale: Option<int>, picked: Option<int>, id: int, due: int)
    requires CanStep(s, Claim(w, now, token, stale, picked)) && id in s.tasks && NotBefore(s.tasks[id], due)
    ensures var t := Do(s, Claim(w, now, token, stale, picked));
      id in t.tasks && NotBefore(t.tasks[id], due)
  {
    var middle := AfterRelease(s.tasks, stale, now);
    assert NotBefore(middle[id], due);
  }

  lemma RecordTouchesCounted(s: System, w: int, now: int, id: int)
    requires CanStep(s, Record(w, now)) && id in s.tasks
    ensures var t := Do(s, Record(w, now));
      id in t.tasks && (OutcomeCount(t, id) == OutcomeCount(s, id) ==> t.tasks[id] == s.tasks[id])
  {
  }

  /**
   In every run, whatever the clocks read: from a state where a task's next attempt is due at `due`, and
   until another outcome of it is recorded, no step claims it at an earlier time.
   */
  lemma {:induction false} HeldBackUntilDue(run: seq<System>, i: nat, j: nat, id: int, due: int)
    requires Run(run) && i <= j < |run| && id in run[i].tasks
    requires run[i].tasks[id].status == Failed && run[i].tasks[id].nextAttempt == due
    requires OutcomeCount(run[j], id) == OutcomeCount(run[i], id)
    ensures id in run[j].tasks && NotBefore(run[j].tasks[id], due)
  {
    if i < j {
      assert FollowsAt(run, j - 1);
      OutcomesNeverFall(run, i, j - 1, id);
      OutcomesGrow(run[j - 1], run[j], id);
      HeldBackUntilDue(run, i, j - 1, id, due);
      StepHoldsBack(run[j - 1], run[j], id, due);
    }
  }

  lemma {:induction false} OutcomesNeverFall(run: seq<System>, i: nat, j: nat, id: int)
    requires Run(run) && i <= j < |run|
    ensures OutcomeCount(run[i], id) <= OutcomeCount(run[j], id)
  {
    if i < j {
      OutcomesNeverFall(run, i, j - 1, id);
      assert FollowsAt(run, j - 1);
      OutcomesGrow(run[j - 1], run[j], id);
    }
  }

  /**
   A failure recorded at time `n` as the `k`-th attempt holds the task back: no later step claims it
   before `n` plus the delay for `k`, unless another outcome was recorded in between.
   */
  lemma BackoffHolds(
      run: seq<System>, i: nat, w: int, n: int, j: nat, v: int, now: int, token: int, stale: Option<int>, id: int)
    requires Run(run) && i < j < |run| && CanStep(run[i], Record(w, n)) && run[i + 1] == Do(run[i], Record(w, n))
    requires WorkerOf(run[i], w).id == id && WorkerOf(run[i], w).outcome.Some?
    requires OutcomeCount(run[i + 1], id) == OutcomeCount(run[i], id) + 1
    requires OutcomeCount(run[j], id) == OutcomeCount(run[i + 1], id)
    requires CanStep(run[j], Claim(v, now, token, stale, Some(id)))
    ensures id in run[i + 1].tasks && run[i + 1].tasks[id].status == Failed
    ensures n + RetryDelay(run[i + 1].tasks[id].attempts) <= now
  {
    RunKeepsInv(run, i);
    assert CopyFits(run[i], w);
    HolderRecordsOnce(run, i, w, n);
    HeldBackUntilDue(run, i + 1, j, id, n + RetryDelay(run[i + 1].tasks[id].attempts));
  }

  lemma CompletedStays(s: System, t: System, id: int)
    requires Follows(s, t) && id in s.tasks && s.tasks[id].status == Completed
    ensures id in t.tasks && t.tasks[id] == s.tasks[id]
  {
  }

  lemma CompletesWithOutcome(s: System, t: System, id: int)
    requires Follows(s, t) && id in t.tasks && t.tasks[id].status == Completed
    requires !(id in s.tasks && s.tasks[id].status == Completed)
    ensures OutcomeCount(t, id) >= 1
  {
  }

  lemma OutcomesGrow(s: System, t: System, id: int)
    requires Follows(s, t)
    ensures OutcomeCount(s, id) <= OutcomeCount(t, id)
  {
  }

  /** Step `k` of the run is a worker's delete under `token`, and it went through. */
  ghost predicate DeletedAt(run: seq<System>, k: nat, w: int, token: int)
    requires k + 1 < |run|
  {
    && CanStep(run[k], Delete(w, None)) && run[k + 1] == Do(run[k], Delete(w, None))
    && WorkerOf(run[k], w).copy.token == Some(token)
  }

  /** Every token in the history of deletes is there for a delete that went through. */
  lemma {:induction false} DeletedBySomeStep(run: seq<System>, i: nat, token: int)
    requires Run(run) && i < |run| && token in run[i].deleted
    ensures exists k: nat, w :: k < i && DeletedAt(run, k, w, token)
  {
    if i > 0 && token in run[i - 1].deleted {
      DeletedBySomeStep(run, i - 1, token);
    } else if i > 0 {
      assert FollowsAt(run, i - 1);
      var w := NewlyDeleted(run[i - 1], run[i], token);
      assert DeletedAt(run, i - 1, w, token);
    }
  }

  lemma NewlyDeleted(s: System, t: System, token: int) returns (w: int)
    requires Follows(s, t) && token in t.deleted && token !in s.deleted
    ensures CanStep(s, Delete(w, None)) && t == Do(s, Delete(w, None)) && WorkerOf(s, w).copy.token == Some(token)
  {
    var step :| CanStep(s, step) && t == Do(s, step);
    w := step.w;
  }

  /** A completed task was physically deleted under the claim that completed it. */
  lemma CompletedWasDeleted(run: seq<System>, i: nat, id: int)
    requires Run(run) && i < |run| && id in run[i].tasks && run[i].tasks[id].status == Completed
    ensures id in run[i].finisher && run[i].finisher[id] in run[i].deleted
    ensures exists k: nat, w :: k < i && DeletedAt(run, k, w, run[i].finisher[id])
    ensures run[i].tasks[id].storagePath.None? && run[i].tasks[id].attempts >= 1
  {
    RunKeepsInv(run, i);
    CompletedHasOutcome(run, i, id);
    assert HistoryFits(run[i], id);
    DeletedBySomeStep(run, i, run[i].finisher[id]);
  }

  lemma {:induction false} CompletedHasOutcome(run: seq<System>, i: nat, id: int)
    requires Run(run) && i < |run| && id in run[i].tasks && run[i].tasks[id].status == Completed
    ensures OutcomeCount(run[i], id) >= 1
  {
    if i > 0 {
      assert FollowsAt(run, i - 1);
      if id in run[i - 1].tasks && run[i - 1].tasks[id].status == Completed {
        CompletedHasOutcome(run, i - 1, id);
        OutcomesGrow(run[i - 1], run[i], id);
      } else {
        CompletesWithOutcome(run[i - 1], run[i], id);
      }
    }
  }

  /** A task keeps its coordinates, exactly as enqueued, until it completes. */
  lemma {:induction false} CoordinatesLastUntilCompletion(run: seq<System>, i: nat, j: nat, id: int)
    requires Run(run) && i <= j < |run| && id in run[i].tasks
    ensures id in run[j].tasks && SameCoordinates(run[i].tasks[id], run[j].tasks[id])
  {
    if i < j {
      CoordinatesLastUntilCompletion(run, i, j - 1, id);
      assert FollowsAt(run, j - 1);
      FollowerKeepsCoordinates(run[j - 1], run[j], id);
      CoordinatesTransitive(run[i].tasks[id], run[j - 1].tasks[id], run[j].tasks[id]);
    }
  }

  lemma CoordinatesTransitive(a: Task, b: Task, c: Task)
    requires SameCoordinates(a, b) && SameCoordinates(b, c)
    ensures SameCoordinates(a, c)
  {
  }

  ghost predicate SameCoordinates(t: Task, u: Task) {
    && u.key == t.key && u.provider == t.provider
    && (u.status != Completed ==>
          t.status != Completed && u.storagePath == t.storagePath && u.bucket == t.bucket && u.localRoot == t.localRoot)
  }

  lemma FollowerKeepsCoordinates(s: System, t: System, id: int)
    requires Follows(s, t) && id in s.tasks
    ensures id in t.tasks && SameCoordinates(s.tasks[id], t.tasks[id])
  {
    var step :| CanStep(s, step) && t == Do(s, step);
    StepKeepsCoordinates(s, step, id);
  }

  lemma StepKeepsCoordinates(s: System, step: Step, id: int)
    requires CanStep(s, step) && id in s.tasks
    ensures id in Do(s, step).tasks && SameCoordinates(s.tasks[id], Do(s, step).tasks[id])
  {
  }

  /** What the table's claim transaction does is a claim step of the system. */
  lemma ClaimRefinesStep(
      s: System, w: int, now: int, token: int, locked: set<int>, middle: Tasks, after: Tasks,
      claimed: Option<(int, Task)>)
    requires Inv(s) && WorkerOf(s, w).Idle? && token !in s.issued
    requires ReleasesOldest(s.tasks, now, locked, middle) && ClaimsFirst(middle, now, token, locked, after, claimed)
    ensures exists step ::
      && CanStep(s, step) && Do(s, step).tasks == after
      && (claimed.Some? ==> WorkerOf(Do(s, step), w) == Deleting(claimed.value.0, claimed.value.1))
  {
    var picked := if claimed.Some? then Some(claimed.value.0) else None;
    if StaleIds(s.tasks, now, locked) == {} && middle == s.tasks {
      assert CanStep(s, Claim(w, now, token, None, picked));
    } else {
      var id :| id in StaleIds(s.tasks, now, locked) && middle == s.tasks[id := Released(s.tasks[id], now)];
      assert AfterRelease(s.tasks, Some(id), now) == middle;
      assert CanStep(s, Claim(w, now, token, Some(id), picked));
    }
  }

  lemma RunGoesOn(run: seq<System>, step: Step) returns (longer: seq<System>)
    requires Run(run) && CanStep(run[|run| - 1], step)
    ensures Run(longer) && longer == run + [Do(run[|run| - 1], step)]
  {
    longer := run + [Do(run[|run| - 1], step)];
    assert Follows(run[|run| - 1], Do(run[|run| - 1], step));
    forall i | 0 <= i < |longer| - 1 ensures FollowsAt(longer, i) {
      assert i < |run| - 1 ==> FollowsAt(run, i);
    }
  }

  /** A run that enqueues coordinates, deletes their object and completes the task. */
  lemma CompletingRun(t: Task) returns (run: seq<System>)
    requires t.storagePath.Some?
    requires t == Enqueued(t.key, t.provider, t.bucket, t.storagePath.value, t.localRoot, 0)
    ensures Run(run) && var s := run[|run| - 1];
      1 in s.tasks && s.tasks.Keys == {1} && s.tasks[1].key == t.key && s.tasks[1].status == Completed
  {
    var s0 := System(map[], map[], {}, {}, map[], map[]);
    run := RunGoesOn([s0], Enqueue(1, t));
    run := RunGoesOn(run, Claim(7, 0, 70, None, Some(1)));
    var claimed := Claimed(t, 0, 70);
    assert run[|run| - 1].workers[7] == Deleting(1, claimed);
    run := RunGoesOn(run, Delete(7, None));
    run := RunGoesOn(run, Record(7, 0));
  }

  ghost predicate Reached(s: System) {
    exists run :: Run(run) && s == run[|run| - 1]
  }

  predicate AllCompleted(tasks: Tasks) {
    forall id :: id in tasks ==> tasks[id].status == Completed
  }

  /** Whatever the coordinates, enqueueing them again after their task completed leaves nothing to cover them. */
  lemma CompletedKeyStaysUncovered(
      key: string, provider: string, bucket: Option<string>, path: string, root: Option<string>)
    ensures exists s, id ::
      var t := Enqueued(key, provider, bucket, path, root, 0);
      && Reached(s) && CanStep(s, Enqueue(id, t)) && KnownKey(s.tasks, t.key)
      && AllCompleted(Do(s, Enqueue(id, t)).tasks)
  {
    var t := Enqueued(key, provider, bucket, path, root, 0);
    var run := CompletingRun(t);
    var s := run[|run| - 1];
    assert Reached(s) && KnownKey(s.tasks, t.key);
    assert CanStep(s, Enqueue(2, t)) && Do(s, Enqueue(2, t)) == s;
  }
}
