/**
 A reset the review accepts and the database refuses. `team.head` is a nullable link on a cycle and
 also the key `badge.slot` refers to; clearing it leaves the badge without its team.
 */
module ResetErasedKey {
  import opened Outcomes
  import opened ResetOrder
  import opened ResetDatabase
  import opened ResetApply
  import opened ResetPrepare
  import opened ResetCycle

  const SLOT := ForeignKey("badge", "team", ["slot"], ["head"], MatchSimple, [])
  const TEAM: Row := map["id" := 1, "head" := 7]
  const BADGE: Row := map["slot" := 7]

  function TABLES(): Tables { TablesOf(TEAM, map[0 := BADGE], map[]) }

  lemma SlotJoins()
    ensures Joinable(TABLES(), SLOT)
  {
  }

  lemma SlotOrdinary()
    ensures Ordinary(SLOT)
  {
    assert NAMES[0] == "badge" && NAMES[3] == "team";
  }

  /** The badge keeps its slot, but no team carries that head any more. */
  lemma ClearErasesKey(link: ClearLink)
    requires Catalogued(TABLES(), Keys(SLOT)) && ClearsKey(link, HEAD)
    ensures !NoErasedKey(TABLES(), Keys(SLOT), ActorKept(), link)
  {
    var next := Cleared(TABLES(), ActorKept(), link);
    assert Joined(link, TEAM, TABLES()["office"][0]);
    assert Hit(TABLES(), ActorKept(), link, TEAM);
    assert next["badge"][0] == BADGE;
    assert References(SLOT, next["badge"][0], TABLES()["team"][0]);
    assert SLOT in Keys(SLOT) && "head" in SLOT.parentColumns && "head" in link.clearColumns;
  }

  lemma EveryClearUnsafe()
    requires Catalogued(TABLES(), Keys(SLOT))
    ensures HeadUnsafe(TABLES(), Keys(SLOT))
  {
    forall link {:trigger ClearsKey(link, HEAD)} | ClearsKey(link, HEAD)
      ensures link.child in TABLES() && link.parent in TABLES() && !ClearSafe(TABLES(), Keys(SLOT), ActorKept(), link)
    {
      ClearErasesKey(link);
    }
  }

  lemma SlotIsWitness()
    ensures Witness(TABLES(), SLOT)
  {
    CycleJoins(TEAM, map[0 := BADGE], map[]);
    ActorExists(TEAM, map[0 := BADGE], map[]);
    SlotJoins();
    SlotOrdinary();
    ThreeJoin(TABLES(), HEAD, OWNER, SLOT);
  }

  /** A sound database that passes every check; every plan erases the key a badge still uses. */
  lemma AcceptedButRefused()
    ensures AcceptedNeverRuns(TABLES(), Keys(SLOT), CATALOGUE, OPTIONS, USERS)
    ensures forall link {:trigger ClearsKey(link, HEAD)} :: ClearsKey(link, HEAD) ==>
      link.child in TABLES() && link.parent in TABLES() && !NoErasedKey(TABLES(), Keys(SLOT), ActorKept(), link)
  {
    SlotIsWitness();
    EveryClearUnsafe();
    UnsafeHeadNeverRuns(TABLES(), SLOT);
    forall link {:trigger ClearsKey(link, HEAD)} | ClearsKey(link, HEAD)
      ensures !NoErasedKey(TABLES(), Keys(SLOT), ActorKept(), link)
    {
      ClearErasesKey(link);
    }
  }

  method RefusedReset() returns (r: Result<Manifest, ResetError>)
    ensures r.Err?
  {
    AcceptedButRefused();
    r := Attempt(TABLES(), Keys(SLOT), CATALOGUE, OPTIONS, USERS);
  }
}
