/** Whole histories of a registry whose database can be lost: calls, crashes between the
    journal's write and the commit, restorations of any earlier database, reconciliations
    that succeed, are refused, or stop half-way. The journal is never taken back. */
module RestoreRuns {
  import opened Basics
  import opened Actions
  import opened Journal
  import opened Marks
  import opened Registry
  import opened Replay
  import opened Reconcile
  import opened ReplayRuns

  /** Now, and every database there has been. */
  datatype State = State(world: World, snapshots: seq<Db>)

  const BEGINNING: State := State(START, [EMPTY])

  datatype Step =
    | Play(call: Call)
    | Crash(call: Call)
    | Restore(snapshot: nat)
    | Mend(reason: string, ack: seq<string>, writes: nat)

  predicate Enabled(st: State, s: Step)
  {
    s.Restore? ==> s.snapshot < |st.snapshots|
  }

  /** A crash loses the commit, not the event before it; a restoration, all since. */
  function After(st: State, s: Step): World
    requires Enabled(st, s)
  {
    match s
    case Play(c) => ReplayRuns.Next(st.world, c)
    case Crash(c) => st.world.(journal := ReplayRuns.Next(st.world, c).journal)
    case Restore(i) => st.world.(db := st.snapshots[i])
    case Mend(reason, ack, writes) => ReconcileHere(st.world, reason, ack, writes).world
  }

  function Next(st: State, s: Step): State
    requires Enabled(st, s)
  {
    State(After(st, s), st.snapshots + [After(st, s).db])
  }

  predicate StepsTo(st: State, s: Step, st': State)
  {
    Enabled(st, s) && st' == Next(st, s)
  }

  /** `st` is reached from an empty system by the steps `steps`, in that order. */
  ghost predicate Reaches(steps: seq<Step>, st: State)
  {
    if steps == [] then st == BEGINNING
    else exists before :: StepsTo(before, Last(steps), st) && Reaches(Front(steps), before)
  }

  // ---- The invariant ----

  predicate JournalRolesKnown(f: Facts)
  {
    forall name | name in f.roles :: ParseRole(f.roles[name]).Some?
  }

  /** Whatever the database has been, the journal knew it all, and still does. */
  ghost predicate Inv(st: State)
  {
    && st.world.db in st.snapshots
    && (forall db | db in st.snapshots :: Recorded(FromEvents(st.world.journal), db))
    && JournalRolesKnown(FromEvents(st.world.journal))
  }

  /** No key, operator or revocation leaves the journal's account. */
  ghost predicate AccountGrows(f: Facts, f': Facts)
  {
    && (forall id | id in f.keys :: id in f'.keys && (f.keys[id].revoked ==> f'.keys[id].revoked))
    && (forall name | name in f.roles :: name in f'.roles)
  }

  lemma AbsorbGrows(f: Facts, e: Event)
    ensures AccountGrows(f, Absorb(f, e))
  {
  }

  lemma StillRecorded(f: Facts, f': Facts, snapshots: seq<Db>)
    requires AccountGrows(f, f') && forall db | db in snapshots :: Recorded(f, db)
    ensures forall db | db in snapshots :: Recorded(f', db)
  {
    forall db | db in snapshots
      ensures Recorded(f', db)
    {
      assert Recorded(f, db);
    }
  }

  lemma ActionRecorded(f: Facts, db: Db, a: Action, actor: string, quorum: nat, draw: Draw)
    requires Recorded(f, db) && PlayAction(db, a, actor, quorum, draw).Ok?
    ensures var p := PlayAction(db, a, actor, quorum, draw).value; Recorded(Absorb(f, p.event), p.db)
  {
  }

  lemma RegisterRecorded(f: Facts, db: Db, inv: LiveInvite, id: string, fingerprint: string, now: int)
    requires Recorded(f, db) && PlayRegister(db, inv, id, fingerprint, now).Ok?
    ensures var p := PlayRegister(db, inv, id, fingerprint, now).value; Recorded(Absorb(f, p.event), p.db)
  {
    StatusesDiffer(inv.createdBy);
  }

  /** What a transaction puts in the database, its event puts in the account. */
  lemma PlayedRecorded(f: Facts, db: Db, c: Call)
    requires Recorded(f, db) && PlayOf(db, c).Ok?
    ensures Recorded(Absorb(f, PlayOf(db, c).value.event), PlayOf(db, c).value.db)
  {
    match c
    case BootstrapCall(name, ttl, draw, up) =>
      LocalNotes(f, db, name, BOOTSTRAP, BootstrapAdminInvited, ttl, draw);
    case RecoverCall(name, reason, ttl, draw, up) =>
      LocalNotes(f, db, name, RECOVERY, AdminRecovery, ttl, draw);
    case RegisterCall(inv, id, fingerprint, now, up) =>
      RegisterRecorded(f, db, inv, id, fingerprint, now);
    case ActionCall(a, actor, quorum, draw, up) =>
      ActionRecorded(f, db, a, actor, quorum, draw);
  }

  lemma ActionRolesJournalled(f: Facts, db: Db, a: Action, actor: string, quorum: nat, draw: Draw)
    requires JournalRolesKnown(f) && PlayAction(db, a, actor, quorum, draw).Ok?
    ensures JournalRolesKnown(Absorb(f, PlayAction(db, a, actor, quorum, draw).value.event))
  {
    if a.InviteOperator? || a.SetRole? {
      RoleRoundTrip(a.role, "");
    }
  }

  lemma PlayedRolesJournalled(f: Facts, db: Db, c: Call)
    requires JournalRolesKnown(f) && PlayOf(db, c).Ok?
    ensures JournalRolesKnown(Absorb(f, PlayOf(db, c).value.event))
  {
    RoleRoundTrip(Admin, "");
    match c
    case BootstrapCall(name, ttl, draw, up) =>
      LocalNotes(f, db, name, BOOTSTRAP, BootstrapAdminInvited, ttl, draw);
    case RecoverCall(name, reason, ttl, draw, up) =>
      LocalNotes(f, db, name, RECOVERY, AdminRecovery, ttl, draw);
    case RegisterCall(inv, id, fingerprint, now, up) =>
    case ActionCall(a, actor, quorum, draw, up) =>
      ActionRolesJournalled(f, db, a, actor, quorum, draw);
  }

  lemma CallKeeps(st: State, s: Step)
    requires Inv(st) && (s.Play? || s.Crash?)
    ensures Inv(Next(st, s))
  {
    var w := st.world;
    NextIsPlayed(w, s.call);
    var f := FromEvents(w.journal);
    if PlayOf(w.db, s.call).Ok? {
      AbsorbGrows(f, PlayOf(w.db, s.call).value.event);
      PlayedRecorded(f, w.db, s.call);
      PlayedRolesJournalled(f, w.db, s.call);
    }
    StillRecorded(f, FromEvents(After(st, s).journal), st.snapshots);
  }

  lemma MendKeeps(st: State, s: Step)
    requires Inv(st) && s.Mend?
    ensures Inv(Next(st, s))
  {
    var w, f := st.world, FromEvents(st.world.journal);
    ReconcileStaysRecorded(w, s.reason, s.ack, s.writes);
    AccountKept(w, Divergences(f, w.db), s.ack, s.writes);
    assert Account(FromEvents(After(st, s).journal)) == Account(f);
    StillRecorded(f, FromEvents(After(st, s).journal), st.snapshots);
  }

  lemma NextKeeps(st: State, s: Step)
    requires Inv(st) && Enabled(st, s)
    ensures Inv(Next(st, s))
  {
    match s
    case Play(_) => CallKeeps(st, s);
    case Crash(_) => CallKeeps(st, s);
    case Restore(i) =>
    case Mend(_, _, _) => MendKeeps(st, s);
  }

  lemma {:induction false} RunKeeps(steps: seq<Step>, st: State)
    requires Reaches(steps, st)
    ensures Inv(st)
    decreases |steps|
  {
    if steps != [] {
      var before :| StepsTo(before, Last(steps), st) && Reaches(Front(steps), before);
      RunKeeps(Front(steps), before);
      NextKeeps(before, Last(steps));
    }
  }

  // ---- The results ----

  /** Whatever was lost and mended before: the database holds nothing the journal does not
      know, and a replay finds nothing exactly when the two are together. */
  lemma AnyHistory(steps: seq<Step>, st: State)
    requires Reaches(steps, st)
    ensures Recorded(FromEvents(st.world.journal), st.world.db)
    ensures Divergences(FromEvents(st.world.journal), st.world.db) == []
       <==> Together(FromEvents(st.world.journal), st.world.db)
  {
    RunKeeps(steps, st);
    TogetherIff(FromEvents(st.world.journal), st.world.db);
  }

  /** And from wherever such a history has led, acknowledging exactly the missing keys, with
      a written reason and a journal that takes the events, brings the two together. */
  lemma AlwaysMendable(steps: seq<Step>, st: State, reason: string, ack: seq<string>, writes: nat)
    requires Reaches(steps, st) && Trim(reason) != ""
    requires var ds := Divergences(FromEvents(st.world.journal), st.world.db);
             (forall id :: id in ack <==> Missing(ds, id)) && writes >= |ds|
    ensures var out := ReconcileHere(st.world, reason, ack, writes);
            out.error.None? && out.unresolved == [] && Together(FromEvents(out.world.journal), out.world.db)
  {
    RunKeeps(steps, st);
    var f := FromEvents(st.world.journal);
    forall d | d in Divergences(f, st.world.db)
      ensures d.RoleDiffers? ==> ParseRole(d.journalRole).Some?
    {
      DivergenceIff(f, st.world.db, d);
    }
    ExactAcknowledgementSucceeds(st.world, reason, ack, writes);
    ReconciledAgain(st.world, reason, ack, writes);
  }

  /** A crash between the write and the commit is a rollback of the one call it lost. */
  lemma CrashIsRollback(st: State, c: Call, d: Divergence)
    requires var now := ReplayRuns.Next(st.world, c); Covers(FromEvents(now.journal), now.db)
    ensures var crashed, now := After(st, Crash(c)), ReplayRuns.Next(st.world, c);
            var f := FromEvents(crashed.journal);
            d in Divergences(f, crashed.db) <==> Lost(st.world.db, now.db, f.acknowledged, d)
  {
    assert Front([c]) == [];
    assert RunFrom(st.world, [c]) == ReplayRuns.Next(st.world, c);
    RollbackFindsExactly(st.world, [c], d);
  }

  // ---- Where a call parts them again ----

  lemma OneStep(steps: seq<Step>, st: State, s: Step)
    requires Reaches(steps, st) && Enabled(st, s)
    ensures Reaches(steps + [s], Next(st, s))
  {
    assert Front(steps + [s]) == steps && Last(steps + [s]) == s;
    assert StepsTo(st, s, Next(st, s));
  }

  /** Two calls, then the database from before them. */
  lemma LostSince(steps: seq<Step>, st: State, c: Call, d: Call) returns (steps': seq<Step>, st': State)
    requires Reaches(steps, st) && st.world.db in st.snapshots
    ensures Reaches(steps', st')
    ensures st'.world == st.world.(journal := ReplayRuns.Next(ReplayRuns.Next(st.world, c), d).journal)
  {
    var home :| 0 <= home < |st.snapshots| && st.snapshots[home] == st.world.db;
    OneStep(steps, st, Play(c));
    steps', st' := steps + [Play(c)], Next(st, Play(c));
    OneStep(steps', st', Play(d));
    steps', st' := steps' + [Play(d)], Next(st', Play(d));
    OneStep(steps', st', Restore(home));
    steps', st' := steps' + [Restore(home)], Next(st', Restore(home));
  }

  function Reinvite(name: string, draw: Draw): Call
  {
    RecoverCall(name, "lost", MIN_INVITE_TTL, draw, true)
  }

  lemma ReinviteNotes(w: World, name: string, draw: Draw)
    requires ValidName(name) && name !in w.db.operators && draw.drawn !in w.db.invites
    ensures var f, w' := FromEvents(w.journal), ReplayRuns.Next(w, Reinvite(name, draw));
            && FromEvents(w'.journal) == (if name in f.roles then f else f.(roles := f.roles[name := ADMIN]))
            && w'.db.operators == w.db.operators[name := OperatorRow(ADMIN, false)]
  {
    var reason := "lost";
    assert Trim(reason) == reason by {
      assert reason[0] == 'l' && reason[3] == 't';
    }
    var p := PlayRecover(w.db, name, reason, MIN_INVITE_TTL, draw);
    OneMoreEvent(w.journal, p.value.event);
    LocalNotes(FromEvents(w.journal), w.db, name, RECOVERY, AdminRecovery, MIN_INVITE_TTL, draw);
  }

  function Demote(name: string, actor: string, draw: Draw): Call
  {
    ActionCall(SetRole(name, Auditeur), actor, QUORUM, draw, true)
  }

  lemma DemoteNotes(w: World, name: string, actor: string, draw: Draw)
    requires name in w.db.operators && w.db.operators[name] == OperatorRow(ADMIN, false) && actor != name
    ensures var f := FromEvents(w.journal);
            FromEvents(ReplayRuns.Next(w, Demote(name, actor, draw)).journal)
            == f.(roles := f.roles[name := AsStr(Auditeur)])
  {
    RoleRoundTrip(Admin, "");
    RoleRoundTrip(Auditeur, "");
    OneMoreEvent(w.journal, PlaySetRole(w.db, name, Auditeur, actor, QUORUM).value.event);
  }

  /** The database as it was, under the journal that has seen `name` invited and demoted. */
  function TakenBack(w: World, name: string, actor: string, draw: Draw): World
  {
    w.(journal := ReplayRuns.Next(ReplayRuns.Next(w, Reinvite(name, draw)), Demote(name, actor, draw)).journal)
  }

  lemma TakenBackDiverges(w: World, name: string, actor: string, draw: Draw)
    requires Covers(FromEvents(w.journal), w.db) && draw.drawn !in w.db.invites
    requires ValidName(name) && name !in FromEvents(w.journal).roles && name != actor
    ensures var back := TakenBack(w, name, actor, draw);
            var f, after := FromEvents(back.journal), ReplayRuns.Next(back, Reinvite(name, draw));
            && Covers(f, back.db) && !Clean(f, back.db, Reinvite(name, draw))
            && RoleDiffers(name, AsStr(Auditeur), ADMIN) in Divergences(FromEvents(after.journal), after.db)
  {
    RoleRoundTrip(Admin, "");
    RoleRoundTrip(Auditeur, "");
    ReinviteNotes(w, name, draw);
    DemoteNotes(ReplayRuns.Next(w, Reinvite(name, draw)), name, actor, draw);
    var back := TakenBack(w, name, actor, draw);
    ReinviteNotes(back, name, draw);
    var after := ReplayRuns.Next(back, Reinvite(name, draw));
    DivergenceIff(FromEvents(after.journal), after.db, RoleDiffers(name, AsStr(Auditeur), ADMIN));
  }

  /** From any history, by an operator neither side knows: he is invited as an administrator
      and demoted, the database from before is restored, and he is invited again. The replay
      finds nothing before that last call, and a wrong role after it, because the journal
      keeps the role it knows where the database starts afresh. */
  lemma RecreatedOperatorDiverges(steps: seq<Step>, st: State, name: string, actor: string, draw: Draw)
    returns (steps': seq<Step>, st': State)
    requires Reaches(steps, st) && Covers(FromEvents(st.world.journal), st.world.db)
    requires ValidName(name) && name !in FromEvents(st.world.journal).roles && name != actor
    requires draw.drawn !in st.world.db.invites
    ensures Reaches(steps', st')
    ensures var f, after := FromEvents(st'.world.journal), ReplayRuns.Next(st'.world, Reinvite(name, draw));
            && Covers(f, st'.world.db) && !Clean(f, st'.world.db, Reinvite(name, draw))
            && RoleDiffers(name, AsStr(Auditeur), ADMIN) in Divergences(FromEvents(after.journal), after.db)
  {
    RunKeeps(steps, st);
    TakenBackDiverges(st.world, name, actor, draw);
    steps', st' := LostSince(steps, st, Reinvite(name, draw), Demote(name, actor, draw));
  }
}
