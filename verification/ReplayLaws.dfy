/** What a replay of the journal makes of it, told of the events themselves. */
module ReplayLaws {
  import opened Basics
  import opened Journal
  import opened Replay

  /** Names the owner of a key in force. */
  predicate NamesOwner(e: Event, id: string)
  {
    && (e.name == KeyConfirmed || (e.name == CredentialRegistered && Text(e, Statut) == Some("active")))
    && Text(e, CredentialId) == Some(id) && Text(e, Operateur).Some?
  }

  predicate Revokes(e: Event, id: string)
  {
    e.name == KeyRevoked && Text(e, CredentialId) == Some(id)
  }

  /** Acknowledges that the key is missing. */
  predicate Acknowledges(e: Event, id: string)
  {
    e.name == Reconciled && Text(e, Resultat) == Some("acknowledged_missing") && Text(e, CredentialId) == Some(id)
  }

  function RoleGiven(e: Event): Option<string>
  {
    if e.name == Invited then Text(e, RoleField) else if e.name == RoleChanged then Text(e, NouveauRole) else None
  }

  predicate GivesRole(e: Event, name: string)
  {
    Text(e, Operateur) == Some(name) && RoleGiven(e).Some?
  }

  predicate MakesAdmin(e: Event, name: string)
  {
    (e.name == BootstrapAdminInvited || e.name == AdminRecovery) && Text(e, Operateur) == Some(name)
  }

  ghost predicate EverNamed(events: seq<Event>, id: string)
  {
    exists e | e in events :: NamesOwner(e, id)
  }

  ghost predicate EverRevoked(events: seq<Event>, id: string)
  {
    exists e | e in events :: Revokes(e, id)
  }

  ghost predicate EverAcknowledged(events: seq<Event>, id: string)
  {
    exists e | e in events :: Acknowledges(e, id)
  }

  /** Some event about the key names this operator. */
  ghost predicate EverOwned(events: seq<Event>, id: string, operator: string)
  {
    exists e | e in events :: (NamesOwner(e, id) || Revokes(e, id)) && Text(e, Operateur) == Some(operator)
  }

  ghost predicate EverGiven(events: seq<Event>, name: string)
  {
    exists e | e in events :: GivesRole(e, name)
  }

  ghost predicate EverMadeAdmin(events: seq<Event>, name: string)
  {
    exists e | e in events :: MakesAdmin(e, name)
  }

  ghost predicate LastNaming(events: seq<Event>, id: string, i: nat)
  {
    i < |events| && NamesOwner(events[i], id) && forall j | i < j < |events| :: !NamesOwner(events[j], id)
  }

  ghost predicate LastGiving(events: seq<Event>, name: string, i: nat)
  {
    i < |events| && GivesRole(events[i], name) && forall j | i < j < |events| :: !GivesRole(events[j], name)
  }

  /** A key is known once it is in force or revoked, and revoked once it ever was; its owner is
      the last one named for it, or one named in some event about it. */
  ghost predicate KeyTold(events: seq<Event>, f: Facts, id: string)
  {
    && (id in f.keys <==> EverNamed(events, id) || EverRevoked(events, id))
    && (id in f.keys ==> (f.keys[id].revoked <==> EverRevoked(events, id)))
    && (id in f.keys && f.keys[id].operator != "" ==> EverOwned(events, id, f.keys[id].operator))
  }

  ghost predicate OwnerTold(events: seq<Event>, f: Facts, id: string)
  {
    forall i: nat | LastNaming(events, id, i) && Text(events[i], Operateur) != Some("") ::
      id in f.keys && Text(events[i], Operateur) == Some(f.keys[id].operator)
  }

  /** An operator has the last role given to him, whatever local invitations came since; one
      only ever invited locally is an administrator. */
  ghost predicate RoleTold(events: seq<Event>, f: Facts, name: string)
  {
    && (name in f.roles <==> EverGiven(events, name) || EverMadeAdmin(events, name))
    && (name in f.roles && !EverGiven(events, name) ==> f.roles[name] == "admin")
  }

  ghost predicate GivenTold(events: seq<Event>, f: Facts, name: string)
  {
    forall i: nat | LastGiving(events, name, i) :: name in f.roles && RoleGiven(events[i]) == Some(f.roles[name])
  }

  lemma OneMoreOnKey(front: seq<Event>, e: Event, id: string, operator: string)
    ensures EverNamed(front + [e], id) <==> EverNamed(front, id) || NamesOwner(e, id)
    ensures EverRevoked(front + [e], id) <==> EverRevoked(front, id) || Revokes(e, id)
    ensures EverAcknowledged(front + [e], id) <==> EverAcknowledged(front, id) || Acknowledges(e, id)
    ensures EverOwned(front + [e], id, operator) <==>
            || EverOwned(front, id, operator)
            || ((NamesOwner(e, id) || Revokes(e, id)) && Text(e, Operateur) == Some(operator))
  {
    assert (front + [e])[|front|] == e;
  }

  lemma OneMoreOnRole(front: seq<Event>, e: Event, name: string)
    ensures EverGiven(front + [e], name) <==> EverGiven(front, name) || GivesRole(e, name)
    ensures EverMadeAdmin(front + [e], name) <==> EverMadeAdmin(front, name) || MakesAdmin(e, name)
  {
    assert (front + [e])[|front|] == e;
  }

  /** One event, seen from one key. */
  lemma AbsorbOnKey(f: Facts, e: Event, id: string)
    ensures id in Absorb(f, e).keys <==> id in f.keys || NamesOwner(e, id) || Revokes(e, id)
    ensures NamesOwner(e, id) ==>
              Absorb(f, e).keys[id] == KeyFacts(Text(e, Operateur).value, id in f.keys && f.keys[id].revoked)
    ensures Revokes(e, id) ==>
              Absorb(f, e).keys[id] == KeyFacts(if id in f.keys && f.keys[id].operator != "" then f.keys[id].operator
                                                else OrEmpty(Text(e, Operateur)), true)
    ensures id in f.keys && !NamesOwner(e, id) && !Revokes(e, id) ==> Absorb(f, e).keys[id] == f.keys[id]
  {
  }

  lemma KeyToldOn(front: seq<Event>, e: Event, f: Facts, id: string)
    requires KeyTold(front, f, id)
    ensures KeyTold(front + [e], Absorb(f, e), id)
  {
    AbsorbOnKey(f, e, id);
    OneMoreOnKey(front, e, id, if id in Absorb(f, e).keys then Absorb(f, e).keys[id].operator else "");
  }

  lemma AcknowledgedOn(front: seq<Event>, e: Event, f: Facts, id: string)
    requires id in f.acknowledged <==> EverAcknowledged(front, id)
    ensures id in Absorb(f, e).acknowledged <==> EverAcknowledged(front + [e], id)
  {
    OneMoreOnKey(front, e, id, "");
  }

  lemma OwnerToldOn(front: seq<Event>, e: Event, f: Facts, id: string)
    requires OwnerTold(front, f, id)
    ensures OwnerTold(front + [e], Absorb(f, e), id)
  {
    forall i: nat | LastNaming(front + [e], id, i) && Text((front + [e])[i], Operateur) != Some("")
      ensures id in Absorb(f, e).keys && Text((front + [e])[i], Operateur) == Some(Absorb(f, e).keys[id].operator)
    {
      if i < |front| {
        assert !NamesOwner((front + [e])[|front|], id);
        assert LastNaming(front, id, i) by {
          forall j | i < j < |front|
            ensures !NamesOwner(front[j], id)
          {
            assert (front + [e])[j] == front[j];
          }
        }
      }
    }
  }

  lemma RoleToldOn(front: seq<Event>, e: Event, f: Facts, name: string)
    requires RoleTold(front, f, name)
    ensures RoleTold(front + [e], Absorb(f, e), name)
  {
    OneMoreOnRole(front, e, name);
  }

  lemma GivenToldOn(front: seq<Event>, e: Event, f: Facts, name: string)
    requires GivenTold(front, f, name)
    ensures GivenTold(front + [e], Absorb(f, e), name)
  {
    forall i: nat | LastGiving(front + [e], name, i)
      ensures name in Absorb(f, e).roles && RoleGiven((front + [e])[i]) == Some(Absorb(f, e).roles[name])
    {
      if i < |front| {
        assert !GivesRole((front + [e])[|front|], name);
        assert LastGiving(front, name, i) by {
          forall j | i < j < |front|
            ensures !GivesRole(front[j], name)
          {
            assert (front + [e])[j] == front[j];
          }
        }
      }
    }
  }

  /** Whatever the journal holds, that is what its replay attests of each key and operator. */
  lemma {:induction false} FactsAre(events: seq<Event>, id: string, name: string)
    ensures KeyTold(events, FromEvents(events), id) && OwnerTold(events, FromEvents(events), id)
    ensures RoleTold(events, FromEvents(events), name) && GivenTold(events, FromEvents(events), name)
    ensures id in FromEvents(events).acknowledged <==> EverAcknowledged(events, id)
    decreases |events|
  {
    if events != [] {
      var front, e, f := Front(events), Last(events), FromEvents(Front(events));
      FactsAre(front, id, name);
      SplitLast(events);
      OneMoreEvent(front, e);
      KeyToldOn(front, e, f, id);
      OwnerToldOn(front, e, f, id);
      RoleToldOn(front, e, f, name);
      GivenToldOn(front, e, f, name);
      AcknowledgedOn(front, e, f, id);
    }
  }
}
