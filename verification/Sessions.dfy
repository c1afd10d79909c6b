/**
 Refresh-token rotation. A refresh looks the session up, checks expiry and user, then consumes the
 session by deleting it; only the request whose delete affected one row may issue the successor. The
 operator and the client plane follow the same steps.
 */
module Sessions {
  import opened Outcomes
  import opened Sums

  /** `lineage` names the login a session descends from. Ids and lineages stand for fresh UUIDs. */
  datatype Session = Session(user: int, lineage: int, expiresAt: int)

  type Table = map<int, Session>

  /** A request between its statements. `Issuing` has consumed its session or passed a login. */
  datatype Request = Idle | Found(sid: int, copy: Session) | Vetted(sid: int, copy: Session)
    | Issuing(user: int, lineage: int)

  datatype System = System(
    sessions: Table, requests: map<int, Request>,
    everSession: set<int>, everLineage: set<int>, exchanged: seq<int>)

  datatype Step =
    | Login(r: int, user: int, lineage: int)
    | Lookup(r: int, sid: int)
    | Vet(r: int, now: int, userActive: bool)
    | Consume(r: int)
    | Issue(r: int, sid: int, expiresAt: int)
    | Fail(r: int)
    | Logout(sid: int)
    | RevokeUser(user: int)

  // ---------------------------------------------------------------- the table

  class SessionTable {
    var sessions: Table

    constructor ()
      ensures sessions == map[]
    {
      sessions := map[];
    }

    /** DELETE by id with its affected-row count. */
    method DeleteById(sid: int) returns (affected: nat)
      modifies this
      ensures affected == if sid in old(sessions) then 1 else 0
      ensures sessions == old(sessions) - {sid}
    {
      affected := if sid in sessions then 1 else 0;
      sessions := sessions - {sid};
    }

    method DeleteByUser(user: int)
      modifies this
      ensures sessions == WithoutUser(old(sessions), user)
      ensures forall sid :: sid in sessions <==> sid in old(sessions) && old(sessions)[sid].user != user
      ensures forall sid :: sid in sessions ==> sessions[sid] == old(sessions)[sid]
    {
      sessions := WithoutUser(sessions, user);
    }

    /**
     A refresh that nobody disturbs: it succeeds exactly for a live, unexpired session of an active
     user, and then trades that session for one successor of the same user and lineage.
     */
    method Refresh(sid: int, now: int, userActive: bool, successor: int, expiresAt: int) returns (r: Result<int, ()>)
      requires successor !in sessions
      modifies this
      ensures r == if Exchanges(old(sessions), sid, now, userActive) then Ok(successor) else Err(())
      ensures sessions == AfterRefresh(old(sessions), sid, now, userActive, successor, expiresAt)
      ensures r.Ok? <==> sid in old(sessions) && userActive && old(sessions)[sid].expiresAt >= now
      ensures r.Ok? ==> r.value == successor
      ensures r.Ok? ==>
        sessions == (old(sessions) - {sid})[
          successor := Session(old(sessions)[sid].user, old(sessions)[sid].lineage, expiresAt)]
      ensures r.Err? ==>
        sessions == if sid in old(sessions) && old(sessions)[sid].expiresAt < now then old(sessions) - {sid}
          else old(sessions)
    {
      if sid !in sessions {
        return Err(());
      }
      var session := sessions[sid];
      if session.expiresAt < now {
        var ignored := DeleteById(sid);
        return Err(());
      }
      if !userActive {
        return Err(());
      }
      var consumed := DeleteById(sid);
      if consumed != 1 {
        return Err(());
      }
      sessions := sessions[successor := Session(session.user, session.lineage, expiresAt)];
      r := Ok(successor);
    }
  }

  predicate Exchanges(sessions: Table, sid: int, now: int, userActive: bool) {
    sid in sessions && now <= sessions[sid].expiresAt && userActive
  }

  /** An exchange trades the session for its successor, an expired session goes, anything else stays. */
  function AfterRefresh(sessions: Table, sid: int, now: int, userActive: bool, successor: int, expiresAt: int): Table {
    if Exchanges(sessions, sid, now, userActive)
    then (sessions - {sid})[successor := sessions[sid].(expiresAt := expiresAt)]
    else if sid in sessions && sessions[sid].expiresAt < now then sessions - {sid}
    else sessions
  }

  function WithoutUser(sessions: Table, user: int): Table {
    map sid | sid in sessions && sessions[sid].user != user :: sessions[sid]
  }

  // ---------------------------------------------------------------- interleaved requests

  function RequestOf(s: System, r: int): Request {
    if r in s.requests then s.requests[r] else Idle
  }

  predicate CanStep(s: System, step: Step) {
    match step
    case Login(r, _, lineage) => RequestOf(s, r).Idle? && lineage !in s.everLineage
    case Lookup(r, sid) => RequestOf(s, r).Idle? && sid in s.sessions
    case Vet(r, _, _) => RequestOf(s, r).Found?
    case Consume(r) => RequestOf(s, r).Vetted?
    case Issue(r, sid, _) => RequestOf(s, r).Issuing? && sid !in s.everSession
    case Fail(_) => true
    case Logout(_) => true
    case RevokeUser(_) => true
  }

  function Do(s: System, step: Step): System
    requires CanStep(s, step)
  {
    match step
    case Login(r, user, lineage) =>
      s.(requests := s.requests[r := Issuing(user, lineage)], everLineage := s.everLineage + {lineage})
    case Lookup(r, sid) => s.(requests := s.requests[r := Found(sid, s.sessions[sid])])
    case Vet(r, now, userActive) =>
      var q := RequestOf(s, r);
      if q.copy.expiresAt < now then s.(sessions := s.sessions - {q.sid}, requests := s.requests[r := Idle])
      else s.(requests := s.requests[r := if userActive then Vetted(q.sid, q.copy) else Idle])
    case Consume(r) =>
      var q := RequestOf(s, r);
      if q.sid in s.sessions then
        s.(sessions := s.sessions - {q.sid}, exchanged := s.exchanged + [q.sid],
           requests := s.requests[r := Issuing(q.copy.user, q.copy.lineage)])
      else s.(requests := s.requests[r := Idle])
    case Issue(r, sid, expiresAt) =>
      var q := RequestOf(s, r);
      s.(sessions := s.sessions[sid := Session(q.user, q.lineage, expiresAt)], everSession := s.everSession + {sid},
         requests := s.requests[r := Idle])
    case Fail(r) => s.(requests := s.requests[r := Idle])
    case Logout(sid) => s.(sessions := s.sessions - {sid})
    case RevokeUser(user) => s.(sessions := WithoutUser(s.sessions, user))
  }

  // ---------------------------------------------------------------- what every run keeps

  /** Whatever can still become, or already is, a usable session of a lineage. */
  datatype Carrier = Live(sid: int) | InFlight(r: int)

  predicate Carries(s: System, c: Carrier, lineage: int) {
    match c
    case Live(sid) => sid in s.sessions && s.sessions[sid].lineage == lineage
    case InFlight(r) => RequestOf(s, r).Issuing? && RequestOf(s, r).lineage == lineage
  }

  ghost predicate OneCarrierEach(s: System) {
    forall c, d, lineage :: Carries(s, c, lineage) && Carries(s, d, lineage) ==> c == d
  }

  ghost predicate CopyFits(s: System, q: Request) {
    (q.Found? || q.Vetted?) ==>
      && q.sid in s.everSession
      && (q.sid in s.sessions ==> s.sessions[q.sid].lineage == q.copy.lineage)
      && (q.sid in s.sessions ==> s.sessions[q.sid].user == q.copy.user)
  }

  ghost predicate Inv(s: System) {
    && OneCarrierEach(s)
    && s.sessions.Keys <= s.everSession
    && (forall c, lineage :: Carries(s, c, lineage) ==> lineage in s.everLineage)
    && (forall r :: r in s.requests ==> CopyFits(s, s.requests[r]))
    && (forall k :: 0 <= k < |s.exchanged| ==> s.exchanged[k] in s.everSession && s.exchanged[k] !in s.sessions)
    && (forall j, k :: 0 <= j < k < |s.exchanged| ==> s.exchanged[j] != s.exchanged[k])
  }

  /** Every carrier after a step is an old one, a fresh login, or the heir of the one carrier that vanished. */
  function Heir(s: System, step: Step, c: Carrier): Carrier {
    match step
    case Consume(r) => if c == InFlight(r) && RequestOf(s, r).Vetted? then Live(RequestOf(s, r).sid) else c
    case Issue(r, sid, _) => if c == Live(sid) then InFlight(r) else c
    case _ => c
  }

  lemma CarrierComesFrom(s: System, step: Step, c: Carrier, lineage: int)
    requires Inv(s) && CanStep(s, step) && Carries(Do(s, step), c, lineage)
    ensures (step.Login? && c == InFlight(step.r) && lineage == step.lineage) || Carries(s, Heir(s, step, c), lineage)
  {
  }

  lemma StepKeepsCarriers(s: System, step: Step)
    requires Inv(s) && CanStep(s, step)
    ensures OneCarrierEach(Do(s, step))
    ensures forall c, lineage :: Carries(Do(s, step), c, lineage) ==> lineage in Do(s, step).everLineage
  {
    var t := Do(s, step);
    forall c, lineage | Carries(t, c, lineage) ensures lineage in t.everLineage {
      CarrierComesFrom(s, step, c, lineage);
    }
    forall c, d, lineage | Carries(t, c, lineage) && Carries(t, d, lineage) ensures c == d {
      CarrierComesFrom(s, step, c, lineage);
      CarrierComesFrom(s, step, d, lineage);
      HeirsAreDistinct(s, step, c, d, lineage);
    }
  }

  lemma HeirsAreDistinct(s: System, step: Step, c: Carrier, d: Carrier, lineage: int)
    requires Inv(s) && CanStep(s, step)
    requires Carries(Do(s, step), c, lineage) && Carries(Do(s, step), d, lineage)
    requires Heir(s, step, c) == Heir(s, step, d)
    ensures c == d
  {
  }

  lemma StepKeepsInv(s: System, step: Step)
    requires Inv(s) && CanStep(s, step)
    ensures Inv(Do(s, step))
  {
    StepKeepsCarriers(s, step);
    var t := Do(s, step);
    forall r | r in t.requests ensures CopyFits(t, t.requests[r]) {
      if r in s.requests { assert CopyFits(s, s.requests[r]); }
    }
  }

  ghost predicate Run(run: seq<System>) {
    && |run| > 0
    && run[0] == System(map[], map[], {}, {}, [])
    && forall i :: 0 <= i < |run| - 1 ==> Follows(run[i], run[i + 1])
  }

  ghost predicate Follows(s: System, t: System) {
    exists step :: CanStep(s, step) && t == Do(s, step)
  }

  lemma {:induction false} RunKeepsInv(run: seq<System>, i: nat)
    requires Run(run) && i < |run|
    ensures Inv(run[i])
  {
    if i > 0 {
      RunKeepsInv(run, i - 1);
      assert Follows(run[i - 1], run[i - 1 + 1]);
      var step :| CanStep(run[i - 1], step) && run[i] == Do(run[i - 1], step);
      StepKeepsInv(run[i - 1], step);
    }
  }

  /** However refreshes, logouts and revocations interleave, a session is exchanged at most once and never returns. */
  lemma ExchangedAtMostOnce(run: seq<System>, i: nat, j: nat, k: nat)
    requires Run(run) && i < |run| && j < |run[i].exchanged| && k < |run[i].exchanged|
    ensures run[i].exchanged[j] == run[i].exchanged[k] ==> j == k
    ensures run[i].exchanged[j] !in run[i].sessions
  {
    RunKeepsInv(run, i);
  }

  /** Live sessions and exchanges in flight that descend from one login never number more than one. */
  lemma AtMostOneSuccessor(run: seq<System>, i: nat, lineage: int, carriers: set<Carrier>)
    requires Run(run) && i < |run|
    requires forall c :: c in carriers ==> Carries(run[i], c, lineage)
    ensures |carriers| <= 1
  {
    RunKeepsInv(run, i);
    if carriers != {} {
      var c :| c in carriers;
      assert carriers == {c};
    }
  }

  /** Of two requests that both vetted the same session, only the first to consume it goes on. */
  lemma SecondConsumerIsRefused(s: System, first: int, second: int)
    requires CanStep(s, Consume(first)) && first != second
    requires RequestOf(s, second).Vetted? && RequestOf(s, second).sid == RequestOf(s, first).sid
    ensures var t := Do(s, Consume(first));
      CanStep(t, Consume(second)) && RequestOf(Do(t, Consume(second)), second) == Idle
        && Do(t, Consume(second)).exchanged == t.exchanged
  {
  }

  /** With nobody in between, the steps of one request do to the table what the whole refresh does. */
  lemma RefreshIsSteps(s: System, r: int, sid: int, now: int, userActive: bool, successor: int, expiresAt: int)
    requires CanStep(s, Lookup(r, sid)) && successor !in s.everSession && sid != successor
    ensures var vetted := Do(Do(s, Lookup(r, sid)), Vet(r, now, userActive));
      && CanStep(Do(s, Lookup(r, sid)), Vet(r, now, userActive))
      && (Exchanges(s.sessions, sid, now, userActive) <==> CanStep(vetted, Consume(r)))
      && (!CanStep(vetted, Consume(r)) ==>
            && RequestOf(vetted, r).Idle?
            && vetted.sessions == AfterRefresh(s.sessions, sid, now, userActive, successor, expiresAt))
      && (CanStep(vetted, Consume(r)) ==>
            var consumed := Do(vetted, Consume(r));
            && CanStep(consumed, Issue(r, successor, expiresAt)) && consumed.exchanged == s.exchanged + [sid]
            && Do(consumed, Issue(r, successor, expiresAt)).sessions
               == AfterRefresh(s.sessions, sid, now, userActive, successor, expiresAt))
  {
  }

  /** A login ends in one new session of that user, and a logout in the loss of that one session. */
  lemma LoginAndLogout(s: System, r: int, user: int, lineage: int, sid: int, expiresAt: int)
    requires CanStep(s, Login(r, user, lineage)) && sid !in s.everSession
    ensures var asked := Do(s, Login(r, user, lineage));
      && CanStep(asked, Issue(r, sid, expiresAt)) && asked.sessions == s.sessions
      && Do(asked, Issue(r, sid, expiresAt)).sessions == s.sessions[sid := Session(user, lineage, expiresAt)]
    ensures forall gone :: Do(s, Logout(gone)).sessions == s.sessions - {gone}
    ensures forall gone :: Do(s, Logout(gone)).requests == s.requests
  {
  }

  /** A session that was logged out is never live again and never exchanged, whoever had already checked it. */
  lemma {:induction false} LoggedOutIsGone(run: seq<System>, i: nat, j: nat, sid: int)
    requires Run(run) && i < j < |run| && sid in run[i].sessions && run[i + 1] == Do(run[i], Logout(sid))
    ensures sid !in run[j].sessions && sid in run[j].everSession
    ensures forall k :: 0 <= k < |run[j].exchanged| && run[j].exchanged[k] == sid ==>
      k < |run[i].exchanged| && run[i].exchanged[k] == sid
    decreases j
  {
    RunKeepsInv(run, i);
    if j > i + 1 {
      LoggedOutIsGone(run, i, j - 1, sid);
      assert Follows(run[j - 1], run[j - 1 + 1]);
      GoneStaysGone(run[j - 1], run[j], sid);
    }
  }

  lemma GoneStaysGone(s: System, t: System, sid: int)
    requires Follows(s, t) && sid !in s.sessions && sid in s.everSession
    ensures sid !in t.sessions && sid in t.everSession && |s.exchanged| <= |t.exchanged|
    ensures forall k :: 0 <= k < |t.exchanged| && t.exchanged[k] == sid ==>
      k < |s.exchanged| && s.exchanged[k] == sid
  {
  }

  // ---------------------------------------------------------------- how long a revocation lasts

  ghost predicate NoSessionOf(s: System, user: int) {
    forall sid :: sid in s.sessions ==> s.sessions[sid].user != user
  }

  ghost predicate BeingIssued(s: System, user: int) {
    exists r :: r in s.requests && s.requests[r].Issuing? && s.requests[r].user == user
  }

  /** The steps can be taken one after another, and none of them is a login of the user. */
  ghost predicate WithoutLogin(s: System, steps: seq<Step>, user: int)
    decreases |steps|
  {
    steps != [] ==>
      && CanStep(s, steps[0]) && (steps[0].Login? ==> steps[0].user != user)
      && WithoutLogin(Do(s, steps[0]), steps[1..], user)
  }

  ghost function Exec(s: System, steps: seq<Step>, user: int): System
    requires WithoutLogin(s, steps, user)
    decreases |steps|
  {
    if steps == [] then s else Exec(Do(s, steps[0]), steps[1..], user)
  }

  ghost predicate StaysOut(s: System, user: int) {
    forall steps :: WithoutLogin(s, steps, user) ==> NoSessionOf(Exec(s, steps, user), user)
  }

  lemma OutStepKeeps(s: System, step: Step, user: int)
    requires Inv(s) && NoSessionOf(s, user) && !BeingIssued(s, user)
    requires CanStep(s, step) && (step.Login? ==> step.user != user)
    ensures NoSessionOf(Do(s, step), user) && !BeingIssued(Do(s, step), user)
  {
    var t := Do(s, step);
    if step.Consume? {
      assert CopyFits(s, s.requests[step.r]);
    }
    forall r | r in t.requests && t.requests[r].Issuing? ensures t.requests[r].user != user {
      if r in s.requests && s.requests[r] == t.requests[r] {
        assert !BeingIssued(s, user);
      }
    }
  }

  lemma {:induction false} OutLasts(s: System, steps: seq<Step>, user: int)
    requires Inv(s) && NoSessionOf(s, user) && !BeingIssued(s, user) && WithoutLogin(s, steps, user)
    ensures NoSessionOf(Exec(s, steps, user), user)
    decreases |steps|
  {
    if steps != [] {
      OutStepKeeps(s, steps[0], user);
      StepKeepsInv(s, steps[0]);
      OutLasts(Do(s, steps[0]), steps[1..], user);
    }
  }

  /**
   Revoking a user's sessions lasts until the next login exactly when no request that has already
   passed its check is about to issue a session for that user.
   */
  lemma RevocationLastsIff(run: seq<System>, i: nat, user: int)
    requires Run(run) && i < |run|
    ensures NoSessionOf(Do(run[i], RevokeUser(user)), user)
    ensures StaysOut(Do(run[i], RevokeUser(user)), user) <==> !BeingIssued(run[i], user)
  {
    RunKeepsInv(run, i);
    var s := Do(run[i], RevokeUser(user));
    StepKeepsInv(run[i], RevokeUser(user));
    if BeingIssued(run[i], user) {
      var r :| r in s.requests && s.requests[r].Issuing? && s.requests[r].user == user;
      var sid := NewIdExists(s.everSession);
      var step := Issue(r, sid, 0);
      assert [step][1..] == [] && WithoutLogin(Do(s, step), [], user);
      assert WithoutLogin(s, [step], user) && Exec(s, [step], user) == Do(s, step);
      assert Do(s, step).sessions[sid].user == user;
    } else {
      forall steps | WithoutLogin(s, steps, user) ensures NoSessionOf(Exec(s, steps, user), user) {
        OutLasts(s, steps, user);
      }
    }
  }
}
