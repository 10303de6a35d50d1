/** When a reconciliation is refused, how far it gets, and what exactly it writes: in the
    database, and in the journal, one event for each divergence it resolves. */
module ReconcileLaws {
  import opened Basics
  import opened Actions
  import opened Journal
  import opened Registry
  import opened Replay
  import opened Reconcile
  import RegistryLaws

  /** Asked without a reason, or to acknowledge what is not reported missing. */
  ghost predicate IllAsked(ds: seq<Divergence>, reason: string, ack: seq<string>)
  {
    RegistryLaws.Blank(reason) || exists id | id in ack :: forall d | d in ds :: d.MissingKey? ==> d.id != id
  }

  lemma IllAskedIff(w: World, f: Facts, reason: string, ack: seq<string>, dry: bool, writes: nat)
    ensures var out := Reconciliation(w, f, reason, ack, dry, writes);
            if IllAsked(Divergences(f, w.db), reason, ack) then out == Outcome(w, [], [], Some(BadRequest))
            else out == ResolveAll(w, Divergences(f, w.db), ack, dry, writes)
  {
    RegistryLaws.BlankIff(reason);
    var ds := Divergences(f, w.db);
    forall id | id in ack
      ensures Missing(ds, id) <==> !forall d | d in ds :: d.MissingKey? ==> d.id != id
    {
    }
  }

  /** The journal's role is none that the table takes. */
  predicate NoRole(role: string)
  {
    role !in {"auditeur", "ra_operateur", "ca_operateur", "admin"}
  }

  lemma NoRoleIff(role: string)
    ensures ParseRole(role).None? <==> NoRole(role)
  {
  }

  // ---- What is written ----

  /** The event that records how `d` was resolved. */
  predicate Records(e: Event, d: Divergence)
  {
    && e.name == Reconciled
    && match d
       case RevokedInJournal(id, operator) =>
         && Text(e, Resultat) == Some("reapplied_revocation") && Text(e, CredentialId) == Some(id)
         && Text(e, Operateur) == Some(operator)
       case RoleDiffers(name, role, _) =>
         && Text(e, Resultat) == Some("reapplied_role") && Text(e, Operateur) == Some(name)
         && Text(e, RoleField) == Some(role)
       case MissingKey(id, operator) =>
         && Text(e, Resultat) == Some("acknowledged_missing") && Text(e, CredentialId) == Some(id)
         && Text(e, Operateur) == Some(operator)
  }

  /** One event for each, in order. */
  ghost predicate AllRecorded(events: seq<Event>, ds: seq<Divergence>)
  {
    |events| == |ds| && forall i | 0 <= i < |ds| :: Records(events[i], ds[i])
  }

  ghost predicate Reapplied(ds: seq<Divergence>, id: string)
  {
    exists d | d in ds :: d.RevokedInJournal? && d.id == id
  }

  ghost predicate RoleReapplied(ds: seq<Divergence>, name: string, role: string)
  {
    exists d | d in ds :: d.RoleDiffers? && d.name == name && d.journalRole == role
  }

  /** Nothing but the revocations and the roles of `ds`. */
  ghost predicate KeysBecome(db: Db, ds: seq<Divergence>, db': Db)
  {
    && db'.keys.Keys == db.keys.Keys
    && forall id | id in db.keys :: db'.keys[id] == db.keys[id].(revoked := db.keys[id].revoked || Reapplied(ds, id))
  }

  ghost predicate RolesBecome(db: Db, ds: seq<Divergence>, db': Db)
  {
    && db'.operators.Keys == db.operators.Keys
    && forall name | name in db.operators ::
         && db'.operators[name] == db.operators[name].(role := db'.operators[name].role)
         && (RoleReapplied(ds, name, db'.operators[name].role)
             || (db'.operators[name] == db.operators[name] && forall role :: !RoleReapplied(ds, name, role)))
  }

  ghost predicate Writes(w: World, ds: seq<Divergence>, w': World)
  {
    && KeysBecome(w.db, ds, w'.db) && RolesBecome(w.db, ds, w'.db)
    && w'.db.invites == w.db.invites && w'.db.pending == w.db.pending
    && w.journal <= w'.journal && AllRecorded(w'.journal[|w.journal|..], ds)
  }

  lemma StepKeys(w: World, d: Divergence, rest: seq<Divergence>, db': Db)
    requires KeysBecome(Step(w, d).db, rest, db')
    ensures KeysBecome(w.db, [d] + rest, db')
  {
    forall id
      ensures Reapplied([d] + rest, id) <==> Reapplied(rest, id) || (d.RevokedInJournal? && d.id == id)
    {
      assert d in [d] + rest;
    }
  }

  lemma StepRoles(w: World, d: Divergence, rest: seq<Divergence>, db': Db)
    requires RolesBecome(Step(w, d).db, rest, db')
    ensures RolesBecome(w.db, [d] + rest, db')
  {
    forall name, role
      ensures RoleReapplied([d] + rest, name, role)
              <==> RoleReapplied(rest, name, role) || (d.RoleDiffers? && d.name == name && d.journalRole == role)
    {
      assert d in [d] + rest;
    }
  }

  lemma StepWrites(w: World, d: Divergence, rest: seq<Divergence>, w': World)
    requires Writes(Step(w, d), rest, w')
    ensures Writes(w, [d] + rest, w')
  {
    StepKeys(w, d, rest, w'.db);
    StepRoles(w, d, rest, w'.db);
    assert w'.journal[|w.journal|..] == [EventFor(d)] + w'.journal[|w.journal| + 1..];
  }

  lemma NothingWritten(w: World)
    ensures Writes(w, [], w)
  {
  }

  lemma {:induction false} ResolvingWrites(w: World, ds: seq<Divergence>, ack: seq<string>, writes: nat)
    ensures var out := ResolveAll(w, ds, ack, false, writes); Writes(w, out.resolved, out.world)
    decreases |ds|
  {
    NothingWritten(w);
    if ds != [] {
      if Left(ds[0], ack) {
        ResolvingWrites(w, ds[1..], ack, writes);
      } else if !Unacceptable(w.db, ds[0]) && writes > 0 {
        ResolvingWrites(Step(w, ds[0]), ds[1..], ack, writes - 1);
        var rest := ResolveAll(Step(w, ds[0]), ds[1..], ack, false, writes - 1);
        StepWrites(w, ds[0], rest.resolved, rest.world);
      }
    }
  }

  // ---- How far it gets ----

  /** What a dry run announces as resolved. */
  function Announced(ds: seq<Divergence>, ack: seq<string>): seq<Divergence>
  {
    if ds == [] then []
    else if ds[0].MissingKey? && ds[0].id !in ack then Announced(ds[1..], ack) else [ds[0]] + Announced(ds[1..], ack)
  }

  lemma {:induction false} DryAnnouncesAll(w: World, ds: seq<Divergence>, ack: seq<string>, writes: nat)
    ensures ResolveAll(w, ds, ack, true, writes).resolved == Announced(ds, ack)
    decreases |ds|
  {
    if ds != [] {
      DryAnnouncesAll(w, ds[1..], ack, writes);
    }
  }

  /** A role to apply on an operator of `db`, and that the table refuses. */
  predicate Inapplicable(db: Db, d: Divergence)
  {
    d.RoleDiffers? && d.name in db.operators && NoRole(d.journalRole)
  }

  ghost predicate AllApplicable(db: Db, ds: seq<Divergence>)
  {
    forall d | d in ds :: !Inapplicable(db, d)
  }

  lemma AllOfMore(db: Db, d: Divergence, rest: seq<Divergence>)
    ensures AllApplicable(db, [d] + rest) <==> !Inapplicable(db, d) && AllApplicable(db, rest)
  {
    assert d in [d] + rest;
  }

  lemma {:induction false} GetsThrough(w: World, ds: seq<Divergence>, ack: seq<string>, writes: nat)
    ensures var out, all := ResolveAll(w, ds, ack, false, writes), Announced(ds, ack);
            && (out.error.None? <==> AllApplicable(w.db, all) && |all| <= writes)
            && out.resolved <= all && (out.error.None? ==> out.resolved == all)
            && (out.error.Some? ==>
                  && |out.resolved| < |all|
                  && out.error == Some(if Inapplicable(w.db, all[|out.resolved|]) then Database else JournalDown)
                  && (out.error == Some(JournalDown) ==> |out.resolved| == writes))
    decreases |ds|
  {
    if ds != [] {
      var d, all := ds[0], Announced(ds[1..], ack);
      if Left(d, ack) {
        GetsThrough(w, ds[1..], ack, writes);
      } else {
        if d.RoleDiffers? {
          NoRoleIff(d.journalRole);
        }
        assert Announced(ds, ack) == [d] + all;
        AllOfMore(w.db, d, all);
        if !Unacceptable(w.db, d) && writes > 0 {
          GetsThrough(Step(w, d), ds[1..], ack, writes - 1);
          assert Step(w, d).db.operators.Keys == w.db.operators.Keys;
        }
      }
    }
  }

  /** A reconciliation is refused exactly when it is ill-asked, and then does nothing. Else it
      resolves, in order, what its dry run announces, as long as the journal takes an event for
      each and the table takes each role; it writes those repairs and those events and no
      others, and its error names the first obstacle. */
  lemma ReconciliationIs(w: World, f: Facts, reason: string, ack: seq<string>, writes: nat)
    ensures var ds, out := Divergences(f, w.db), Reconciliation(w, f, reason, ack, false, writes);
            if IllAsked(ds, reason, ack) then out == Outcome(w, [], [], Some(BadRequest))
            else
              var all := Reconciliation(w, f, reason, ack, true, writes).resolved;
              && (forall d :: d in all <==> d in ds && (d.MissingKey? ==> d.id in ack))
              && out.resolved <= all && Writes(w, out.resolved, out.world)
              && (out.error.None? <==> AllApplicable(w.db, all) && |all| <= writes)
              && (out.error.None? ==> out.resolved == all)
              && (out.error.Some? ==>
                    && |out.resolved| < |all|
                    && out.error == Some(if Inapplicable(w.db, all[|out.resolved|]) then Database else JournalDown)
                    && (out.error == Some(JournalDown) ==> |out.resolved| == writes))
  {
    var ds := Divergences(f, w.db);
    IllAskedIff(w, f, reason, ack, false, writes);
    IllAskedIff(w, f, reason, ack, true, writes);
    DryAnnouncesAll(w, ds, ack, writes);
    ResolvingWrites(w, ds, ack, writes);
    GetsThrough(w, ds, ack, writes);
    AnnouncedAre(ds, ack);
  }

  lemma {:induction false} AnnouncedAre(ds: seq<Divergence>, ack: seq<string>)
    ensures forall d :: d in Announced(ds, ack) <==> d in ds && (d.MissingKey? ==> d.id in ack)
    decreases |ds|
  {
    if ds != [] {
      AnnouncedAre(ds[1..], ack);
      assert ds == [ds[0]] + ds[1..];
    }
  }
}
