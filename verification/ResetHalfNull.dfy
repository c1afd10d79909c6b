/**
 A second reset the review accepts and the database refuses. `team.head` is a nullable link on a cycle
 and also half of a MATCH FULL reference to `venue`; clearing it leaves that reference half NULL.
 */
module ResetHalfNull {
  import opened Outcomes
  import opened ResetOrder
  import opened ResetDatabase
  import opened ResetApply
  import opened ResetPrepare
  import opened ResetCycle

  const PLACE := ForeignKey("team", "venue", ["head", "floor"], ["head", "floor"], MatchFull, ["head"])
  const TEAM: Row := map["id" := 1, "head" := 7, "floor" := 2]
  const VENUE: Row := map["head" := 7, "floor" := 2]

  function TABLES(): Tables { TablesOf(TEAM, map[], map[0 := VENUE]) }

  lemma PlaceJoins()
    ensures Joinable(TABLES(), PLACE)
  {
  }

  lemma PlaceOrdinary()
    ensures Ordinary(PLACE)
  {
    assert NAMES[3] == "team" && NAMES[7] == "venue";
  }

  lemma PlaceIsWitness()
    ensures Witness(TABLES(), PLACE)
  {
    CycleJoins(TEAM, map[], map[0 := VENUE]);
    ActorExists(TEAM, map[], map[0 := VENUE]);
    PlaceJoins();
    PlaceOrdinary();
    ThreeJoin(TABLES(), HEAD, OWNER, PLACE);
  }

  lemma HeadIsHit(link: ClearLink)
    requires Catalogued(TABLES(), Keys(PLACE)) && ClearsKey(link, HEAD)
    ensures Hit(TABLES(), ActorKept(), link, TEAM)
  {
    assert Joined(link, TEAM, TABLES()["office"][0]);
  }

  lemma HalfIsNull(link: ClearLink)
    requires ClearsKey(link, HEAD)
    ensures AnyNull(PLACE.childColumns, TEAM - Members(link.clearColumns))
    ensures !AllNull(PLACE.childColumns, TEAM - Members(link.clearColumns))
  {
    assert PLACE.childColumns[0] in Members(link.clearColumns);
    assert PLACE.childColumns[1] in TEAM - Members(link.clearColumns);
  }

  /** The team keeps its floor but loses its head. */
  lemma ClearHalvesReference(link: ClearLink)
    requires Catalogued(TABLES(), Keys(PLACE)) && ClearsKey(link, HEAD)
    ensures !NoHalfNull(TABLES(), Keys(PLACE), ActorKept(), link)
  {
    HeadIsHit(link);
    HalfIsNull(link);
    assert PLACE in Keys(PLACE) && TABLES()["team"][0] == TEAM;
  }

  lemma EveryClearUnsafe()
    requires Catalogued(TABLES(), Keys(PLACE))
    ensures HeadUnsafe(TABLES(), Keys(PLACE))
  {
    forall link {:trigger ClearsKey(link, HEAD)} | ClearsKey(link, HEAD)
      ensures link.child in TABLES() && link.parent in TABLES() && !ClearSafe(TABLES(), Keys(PLACE), ActorKept(), link)
    {
      ClearHalvesReference(link);
    }
  }

  /** A sound database that passes every check; every plan leaves a MATCH FULL reference half NULL. */
  lemma AcceptedButRefused()
    ensures AcceptedNeverRuns(TABLES(), Keys(PLACE), CATALOGUE, OPTIONS, USERS)
    ensures forall link {:trigger ClearsKey(link, HEAD)} :: ClearsKey(link, HEAD) ==>
      && link.child in TABLES() && link.parent in TABLES()
      && !NoHalfNull(TABLES(), Keys(PLACE), ActorKept(), link) && NoErasedKey(TABLES(), Keys(PLACE), ActorKept(), link)
  {
    PlaceIsWitness();
    EveryClearUnsafe();
    UnsafeHeadNeverRuns(TABLES(), PLACE);
    forall link {:trigger ClearsKey(link, HEAD)} | ClearsKey(link, HEAD)
      ensures !NoHalfNull(TABLES(), Keys(PLACE), ActorKept(), link)
      ensures NoErasedKey(TABLES(), Keys(PLACE), ActorKept(), link)
    {
      ClearHalvesReference(link);
      NoKeyErased(link);
    }
  }

  lemma NoKeyErased(link: ClearLink)
    requires Catalogued(TABLES(), Keys(PLACE)) && ClearsKey(link, HEAD)
    ensures NoErasedKey(TABLES(), Keys(PLACE), ActorKept(), link)
  {
    forall fk, col | fk in Keys(PLACE) && fk.parent == link.child && col in fk.parentColumns
      ensures col !in link.clearColumns
    {
      assert fk == OWNER;
    }
  }

  method RefusedReset() returns (r: Result<Manifest, ResetError>)
    ensures r.Err?
  {
    AcceptedButRefused();
    r := Attempt(TABLES(), Keys(PLACE), CATALOGUE, OPTIONS, USERS);
  }
}
