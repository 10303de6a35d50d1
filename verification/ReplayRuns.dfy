/** The journal's account and the database, over whole runs of the registry's transactions:
    they agree as long as both are kept, and a restored older database diverges from the
    journal in exactly the ways that were lost. */
module ReplayRuns {
  import opened Basics
  import opened Actions
  import opened Journal
  import opened Marks
  import opened Registry
  import opened Replay
  import opened Reconcile

  /** One call, whatever its outcome; `up` says whether the journal takes its event. */
  datatype Call =
    | BootstrapCall(name: string, ttl: int, draw: Draw, up: bool)
    | RecoverCall(name: string, reason: string, ttl: int, draw: Draw, up: bool)
    | RegisterCall(inv: LiveInvite, id: string, fingerprint: string, now: int, up: bool)
    | ActionCall(a: Action, actor: string, quorum: nat, draw: Draw, up: bool)

  function Next(w: World, c: Call): World
  {
    match c
    case BootstrapCall(name, ttl, draw, up) => Bootstrapped(w, name, ttl, draw, up).0
    case RecoverCall(name, reason, ttl, draw, up) => Commit(w, PlayRecover(w.db, name, reason, ttl, draw), up).0
    case RegisterCall(inv, id, fingerprint, now, up) => Commit(w, PlayRegister(w.db, inv, id, fingerprint, now), up).0
    case ActionCall(a, actor, quorum, draw, up) => Commit(w, PlayAction(w.db, a, actor, quorum, draw), up).0
  }

  function RunFrom(w: World, calls: seq<Call>): World
  {
    if calls == [] then w else Next(RunFrom(w, calls[..|calls| - 1]), calls[|calls| - 1])
  }

  const START: World := World(EMPTY, [])

  /** The journal's account is the database's: same keys, owners and revocations, same
      operators and roles. */
  ghost predicate Agree(f: Facts, db: Db)
  {
    && f.keys.Keys == db.keys.Keys
    && (forall id | id in db.keys :: f.keys[id] == KeyFacts(db.keys[id].owner, db.keys[id].revoked))
    && f.roles.Keys == db.operators.Keys
    && (forall name | name in db.operators :: f.roles[name] == db.operators[name].role)
  }

  lemma StatusesDiffer(createdBy: string)
    ensures Status(createdBy) == "active" <==> Direct(createdBy)
  {
    assert "active"[0] != "pending_confirmation"[0];
  }

  lemma KeyActionAgrees(f: Facts, db: Db, a: Action, actor: string, quorum: nat, draw: Draw)
    requires Agree(f, db) && PlayAction(db, a, actor, quorum, draw).Ok? && (a.ConfirmKey? || a.RevokeKey?)
    ensures var p := PlayAction(db, a, actor, quorum, draw).value; Agree(Absorb(f, p.event), p.db)
  {
  }

  lemma RoleActionAgrees(f: Facts, db: Db, a: Action, actor: string, quorum: nat, draw: Draw)
    requires Agree(f, db) && PlayAction(db, a, actor, quorum, draw).Ok? && (a.InviteOperator? || a.SetRole?)
    ensures var p := PlayAction(db, a, actor, quorum, draw).value; Agree(Absorb(f, p.event), p.db)
  {
  }

  lemma RegisterAgrees(f: Facts, db: Db, inv: LiveInvite, id: string, fingerprint: string, now: int)
    requires Agree(f, db) && PlayRegister(db, inv, id, fingerprint, now).Ok?
    ensures var p := PlayRegister(db, inv, id, fingerprint, now).value; Agree(Absorb(f, p.event), p.db)
  {
    StatusesDiffer(inv.createdBy);
  }

  lemma LocalAgrees(f: Facts, db: Db, name: string, mark: string, kind: EventName, ttl: int, draw: Draw)
    requires Agree(f, db) && PlayLocal(db, name, mark, kind, ttl, draw).Ok?
    requires kind == BootstrapAdminInvited || kind == AdminRecovery
    ensures var p := PlayLocal(db, name, mark, kind, ttl, draw).value; Agree(Absorb(f, p.event), p.db)
  {
  }

  /** The transaction a call plays. */
  function PlayOf(db: Db, c: Call): Play
  {
    match c
    case BootstrapCall(name, ttl, draw, _) => PlayBootstrap(db, name, ttl, draw)
    case RecoverCall(name, reason, ttl, draw, _) => PlayRecover(db, name, reason, ttl, draw)
    case RegisterCall(inv, id, fingerprint, now, _) => PlayRegister(db, inv, id, fingerprint, now)
    case ActionCall(a, actor, quorum, draw, _) => PlayAction(db, a, actor, quorum, draw)
  }

  /** The tables and the journal's account after one event. */
  ghost predicate Took(w: World, p: Play, w': World)
  {
    p.Ok? && w'.db == p.value.db && FromEvents(w'.journal) == Absorb(FromEvents(w.journal), p.value.event)
  }

  ghost predicate Untouched(w: World, w': World)
  {
    w'.db == w.db && FromEvents(w'.journal) == FromEvents(w.journal)
  }

  lemma CommitTakes(w: World, p: Play, up: bool)
    ensures Untouched(w, Commit(w, p, up).0) || Took(w, p, Commit(w, p, up).0)
  {
    if p.Ok? {
      OneMoreEvent(w.journal, p.value.event);
    }
  }

  /** A call commits what it plays, or changes no table and writes nothing replayed. */
  lemma NextIsPlayed(w: World, c: Call)
    ensures Untouched(w, Next(w, c)) || Took(w, PlayOf(w.db, c), Next(w, c))
  {
    CommitTakes(w, PlayOf(w.db, c), c.up);
    OneMoreEvent(w.journal, BOOTSTRAP_REFUSED);
  }

  lemma PlayedAgrees(f: Facts, db: Db, c: Call)
    requires Agree(f, db) && PlayOf(db, c).Ok?
    ensures Agree(Absorb(f, PlayOf(db, c).value.event), PlayOf(db, c).value.db)
  {
    match c
    case BootstrapCall(name, ttl, draw, up) =>
      LocalAgrees(f, db, name, BOOTSTRAP, BootstrapAdminInvited, ttl, draw);
    case RecoverCall(name, reason, ttl, draw, up) =>
      LocalAgrees(f, db, name, RECOVERY, AdminRecovery, ttl, draw);
    case RegisterCall(inv, id, fingerprint, now, up) =>
      RegisterAgrees(f, db, inv, id, fingerprint, now);
    case ActionCall(a, actor, quorum, draw, up) =>
      if a.ConfirmKey? || a.RevokeKey? {
        KeyActionAgrees(f, db, a, actor, quorum, draw);
      } else {
        RoleActionAgrees(f, db, a, actor, quorum, draw);
      }
  }

  ghost predicate SameOwners(f: Facts, db: Db)
  {
    forall id | id in db.keys :: id in f.keys && f.keys[id].operator == db.keys[id].owner
  }

  /** The database holds no key and no operator that the journal does not know, and no
      revocation it does not attest. */
  ghost predicate Recorded(f: Facts, db: Db)
  {
    && (forall id | id in db.keys :: id in f.keys && (db.keys[id].revoked ==> f.keys[id].revoked))
    && (forall name | name in db.operators :: name in f.roles)
  }

  /** Same revocations and roles; keys the database lacks are revoked or given up. */
  ghost predicate Together(f: Facts, db: Db)
  {
    && (forall id | id in db.keys :: id in f.keys && f.keys[id].revoked == db.keys[id].revoked)
    && (forall id | id in f.keys && id !in db.keys :: f.keys[id].revoked || id in f.acknowledged)
    && (forall name | name in db.operators :: name in f.roles && f.roles[name] == db.operators[name].role)
  }

  ghost predicate Covers(f: Facts, db: Db)
  {
    Together(f, db) && SameOwners(f, db)
  }

  /** The database may be behind the journal, never ahead of it. */
  ghost predicate Behind(f: Facts, db: Db)
  {
    Recorded(f, db) && SameOwners(f, db)
  }

  ghost predicate InStep(w: World)
  {
    Agree(FromEvents(w.journal), w.db)
  }

  /** Whatever is called, whether or not the journal takes the events, journal and database
      go on agreeing. */
  lemma {:induction false} RunAgrees(w: World, calls: seq<Call>)
    requires InStep(w)
    ensures InStep(RunFrom(w, calls))
    decreases |calls|
  {
    if calls != [] {
      var before := RunFrom(w, calls[..|calls| - 1]);
      RunAgrees(w, calls[..|calls| - 1]);
      NextIsPlayed(before, calls[|calls| - 1]);
      if PlayOf(before.db, calls[|calls| - 1]).Ok? {
        PlayedAgrees(FromEvents(before.journal), before.db, calls[|calls| - 1]);
      }
    }
  }

  /** Hence no run of the registry's transactions, from an empty system, ever diverges. */
  lemma RunNeverDiverges(calls: seq<Call>)
    ensures InStep(RunFrom(START, calls))
    ensures Divergences(FromEvents(RunFrom(START, calls).journal), RunFrom(START, calls).db) == []
  {
    RunAgrees(START, calls);
    var w := RunFrom(START, calls);
    NoneStands(FromEvents(w.journal), w.db);
  }

  lemma NoneStands(f: Facts, db: Db)
    requires Together(f, db)
    ensures Divergences(f, db) == []
  {
    if Divergences(f, db) != [] {
      var d := Divergences(f, db)[0];
      DivergenceIff(f, db, d);
    }
  }

  // ---- An older database under a newer journal ----

  /** Rows are never removed, owners never change, a revocation is final. */
  ghost predicate Grows(db: Db, db': Db)
  {
    && (forall id | id in db.keys ::
          id in db'.keys && db'.keys[id].owner == db.keys[id].owner && (db.keys[id].revoked ==> db'.keys[id].revoked))
    && (forall name | name in db.operators :: name in db'.operators)
  }

  lemma PlayedGrows(db: Db, c: Call)
    requires PlayOf(db, c).Ok?
    ensures Grows(db, PlayOf(db, c).value.db)
  {
  }

  lemma {:induction false} RunGrows(w: World, calls: seq<Call>)
    ensures Grows(w.db, RunFrom(w, calls).db)
    decreases |calls|
  {
    if calls != [] {
      var before := RunFrom(w, calls[..|calls| - 1]);
      RunGrows(w, calls[..|calls| - 1]);
      NextIsPlayed(before, calls[|calls| - 1]);
      if PlayOf(before.db, calls[|calls| - 1]).Ok? {
        PlayedGrows(before.db, calls[|calls| - 1]);
      }
    }
  }

  /** What was lost when `older` took the place of `now`. */
  predicate Lost(older: Db, now: Db, acknowledged: set<string>, d: Divergence)
  {
    match d
    case RevokedInJournal(id, operator) =>
      && id in older.keys && !older.keys[id].revoked
      && id in now.keys && now.keys[id].revoked && operator == now.keys[id].owner
    case MissingKey(id, operator) =>
      && id !in older.keys && id !in acknowledged
      && id in now.keys && !now.keys[id].revoked && operator == now.keys[id].owner
    case RoleDiffers(name, journalRole, dbRole) =>
      && name in older.operators && older.operators[name].role == dbRole
      && name in now.operators && now.operators[name].role == journalRole
      && journalRole != dbRole
  }

  /** With the database put back as it was before `since`, the divergences are exactly the
      keys revoked since, the live keys added since, and the roles changed since: whenever
      journal and database were together before the loss, first rollback or not. */
  lemma RollbackFindsExactly(w: World, since: seq<Call>, d: Divergence)
    requires var now := RunFrom(w, since); Covers(FromEvents(now.journal), now.db)
    ensures var now := RunFrom(w, since);
            var f := FromEvents(now.journal);
            d in Divergences(f, w.db) <==> Lost(w.db, now.db, f.acknowledged, d)
  {
    RunGrows(w, since);
    DivergenceIff(FromEvents(RunFrom(w, since).journal), w.db, d);
  }

  lemma NothingOn(f: Facts, db: Db, s: Subject)
    requires Divergences(f, db) == []
    ensures On(f, db, s).None?
  {
    if On(f, db, s).Some? {
      DivergenceIff(f, db, On(f, db, s).value);
    }
  }

  lemma TogetherIff(f: Facts, db: Db)
    requires Recorded(f, db)
    ensures Together(f, db) <==> Divergences(f, db) == []
  {
    if Divergences(f, db) == [] {
      forall id | id in f.keys
        ensures OnKey(f, db, id).None?
      {
        NothingOn(f, db, OfKey(id));
      }
      forall name | name in f.roles
        ensures OnRole(f, db, name).None?
      {
        NothingOn(f, db, OfRole(name));
      }
    } else {
      DivergenceIff(f, db, Divergences(f, db)[0]);
    }
  }

  lemma RolledBackIsBehind(w: World, since: seq<Call>)
    requires var now := RunFrom(w, since); Covers(FromEvents(now.journal), now.db)
    ensures Behind(FromEvents(RunFrom(w, since).journal), w.db)
  {
    RunGrows(w, since);
  }

  /** A revocation is re-applied only where the journal attests it. */
  predicate Attested(f: Facts, ds: seq<Divergence>)
  {
    forall d | d in ds :: d.RevokedInJournal? ==> d.id in f.keys && f.keys[d.id].revoked
  }

  lemma {:induction false} ResolvingStaysRecorded(w: World, ds: seq<Divergence>, ack: seq<string>, writes: nat)
    requires Recorded(FromEvents(w.journal), w.db) && Attested(FromEvents(w.journal), ds)
    ensures var out := ResolveAll(w, ds, ack, false, writes).world; Recorded(FromEvents(out.journal), out.db)
    decreases |ds|
  {
    if ds != [] {
      if Left(ds[0], ack) {
        ResolvingStaysRecorded(w, ds[1..], ack, writes);
      } else if !Unacceptable(w.db, ds[0]) && writes > 0 {
        assert ds[0] in ds;
        StepNotes(w, ds[0]);
        ResolvingStaysRecorded(Step(w, ds[0]), ds[1..], ack, writes - 1);
      }
    }
  }

  lemma {:induction false} ResolvingKeepsOwners(w: World, ds: seq<Divergence>, ack: seq<string>, writes: nat)
    requires SameOwners(FromEvents(w.journal), w.db)
    ensures var out := ResolveAll(w, ds, ack, false, writes).world; SameOwners(FromEvents(out.journal), out.db)
    decreases |ds|
  {
    if ds != [] {
      if Left(ds[0], ack) {
        ResolvingKeepsOwners(w, ds[1..], ack, writes);
      } else if !Unacceptable(w.db, ds[0]) && writes > 0 {
        StepNotes(w, ds[0]);
        ResolvingKeepsOwners(Step(w, ds[0]), ds[1..], ack, writes - 1);
      }
    }
  }

  lemma FoundIsAttested(f: Facts, db: Db)
    ensures Attested(f, Divergences(f, db))
  {
    forall d | d in Divergences(f, db)
      ensures d.RevokedInJournal? ==> d.id in f.keys && f.keys[d.id].revoked
    {
      DivergenceIff(f, db, d);
    }
  }

  function ReconcileHere(w: World, reason: string, ack: seq<string>, writes: nat): Outcome
  {
    Reconciliation(w, FromEvents(w.journal), reason, ack, false, writes)
  }

  lemma ReconcileStaysRecorded(w: World, reason: string, ack: seq<string>, writes: nat)
    requires Recorded(FromEvents(w.journal), w.db)
    ensures var out := ReconcileHere(w, reason, ack, writes).world; Recorded(FromEvents(out.journal), out.db)
  {
    FoundIsAttested(FromEvents(w.journal), w.db);
    ResolvingStaysRecorded(w, Divergences(FromEvents(w.journal), w.db), ack, writes);
  }

  lemma ReconcileEnds(w: World, reason: string, ack: seq<string>, writes: nat)
    requires ReconcileHere(w, reason, ack, writes).error.None? && ReconcileHere(w, reason, ack, writes).unresolved == []
    ensures var out := ReconcileHere(w, reason, ack, writes).world; Divergences(FromEvents(out.journal), out.db) == []
  {
    ReconcileLeavesExactly(w, reason, ack, writes);
  }

  /** A reconciliation that leaves nothing unresolved brings journal and database back
      together, wherever the database was behind. */
  lemma ReconciledAgain(w: World, reason: string, ack: seq<string>, writes: nat)
    requires Recorded(FromEvents(w.journal), w.db)
    requires ReconcileHere(w, reason, ack, writes).error.None? && ReconcileHere(w, reason, ack, writes).unresolved == []
    ensures var out := ReconcileHere(w, reason, ack, writes).world; Together(FromEvents(out.journal), out.db)
  {
    ReconcileStaysRecorded(w, reason, ack, writes);
    ReconcileEnds(w, reason, ack, writes);
    var out := ReconcileHere(w, reason, ack, writes).world;
    TogetherIff(FromEvents(out.journal), out.db);
  }

  /** So it does after a rollback. */
  lemma RollbackIsRepaired(w: World, since: seq<Call>, reason: string, ack: seq<string>, writes: nat)
    requires var now := RunFrom(w, since); Covers(FromEvents(now.journal), now.db)
    requires var out := ReconcileHere(World(w.db, RunFrom(w, since).journal), reason, ack, writes);
             out.error.None? && out.unresolved == []
    ensures var out := ReconcileHere(World(w.db, RunFrom(w, since).journal), reason, ack, writes).world;
            Covers(FromEvents(out.journal), out.db)
  {
    RolledBackIsBehind(w, since);
    var rolled := World(w.db, RunFrom(w, since).journal);
    ReconciledAgain(rolled, reason, ack, writes);
    ResolvingKeepsOwners(rolled, Divergences(FromEvents(rolled.journal), rolled.db), ack, writes);
  }

  // ---- Going on afterwards ----

  /** The call brings back no key the journal holds revoked and the database lost, and
      recreates no lost operator whose journal role is not administrator. */
  predicate Clean(f: Facts, db: Db, c: Call)
  {
    match c
    case BootstrapCall(name, _, _, _) => name in db.operators || name !in f.roles || f.roles[name] == ADMIN
    case RecoverCall(name, _, _, _, _) => name in db.operators || name !in f.roles || f.roles[name] == ADMIN
    case RegisterCall(inv, id, _, _, _) => Direct(inv.createdBy) ==> id in f.keys ==> !f.keys[id].revoked
    case ActionCall(a, _, _, _, _) => a.ConfirmKey? ==> a.credentialId in f.keys ==> !f.keys[a.credentialId].revoked
  }

  lemma LocalNotes(f: Facts, db: Db, name: string, mark: string, kind: EventName, ttl: int, draw: Draw)
    requires PlayLocal(db, name, mark, kind, ttl, draw).Ok?
    requires kind == BootstrapAdminInvited || kind == AdminRecovery
    ensures var p := PlayLocal(db, name, mark, kind, ttl, draw).value;
            && Absorb(f, p.event) == (if name in f.roles then f else f.(roles := f.roles[name := ADMIN]))
            && p.db.keys == db.keys
            && p.db.operators == db.operators[name := OperatorRow(ADMIN, false)]
  {
  }

  lemma LocalCoversIff(f: Facts, db: Db, name: string, mark: string, kind: EventName, ttl: int, draw: Draw)
    requires Covers(f, db) && PlayLocal(db, name, mark, kind, ttl, draw).Ok?
    requires kind == BootstrapAdminInvited || kind == AdminRecovery
    ensures var p := PlayLocal(db, name, mark, kind, ttl, draw).value;
            Covers(Absorb(f, p.event), p.db) <==> name in db.operators || name !in f.roles || f.roles[name] == ADMIN
  {
    LocalNotes(f, db, name, mark, kind, ttl, draw);
    var p := PlayLocal(db, name, mark, kind, ttl, draw).value;
    RolesOnly(f, Absorb(f, p.event), db, p.db, name);
  }

  /** A change to the one operator `name` leaves the rest together. */
  lemma RolesOnly(f: Facts, f': Facts, db: Db, db': Db, name: string)
    requires Covers(f, db) && f'.keys == f.keys && f'.acknowledged == f.acknowledged && db'.keys == db.keys
    requires f'.roles - {name} == f.roles - {name} && db'.operators - {name} == db.operators - {name}
    requires name in db'.operators
    ensures Covers(f', db') <==> name in f'.roles && f'.roles[name] == db'.operators[name].role
  {
    forall other | other in db'.operators && other != name
      ensures other in f'.roles && f'.roles[other] == db'.operators[other].role
    {
      assert other in db'.operators - {name} && other in f.roles - {name};
    }
  }

  lemma RegisterCoversIff(f: Facts, db: Db, inv: LiveInvite, id: string, fingerprint: string, now: int)
    requires Covers(f, db) && PlayRegister(db, inv, id, fingerprint, now).Ok?
    ensures var p := PlayRegister(db, inv, id, fingerprint, now).value;
            Covers(Absorb(f, p.event), p.db) <==> (Direct(inv.createdBy) ==> id in f.keys ==> !f.keys[id].revoked)
  {
    StatusesDiffer(inv.createdBy);
    var p := PlayRegister(db, inv, id, fingerprint, now).value;
    assert Direct(inv.createdBy) ==> id in p.db.keys && !p.db.keys[id].revoked;
  }

  lemma ConfirmCoversIff(f: Facts, db: Db, id: string, fingerprint: string, actor: string, now: int)
    requires Covers(f, db) && PlayConfirm(db, id, fingerprint, actor, now).Ok?
    ensures var p := PlayConfirm(db, id, fingerprint, actor, now).value;
            Covers(Absorb(f, p.event), p.db) <==> (id in f.keys ==> !f.keys[id].revoked)
  {
    var p := PlayConfirm(db, id, fingerprint, actor, now).value;
    assert id in p.db.keys && !p.db.keys[id].revoked;
  }

  lemma RevokeCovers(f: Facts, db: Db, id: string, reason: string)
    requires Covers(f, db) && PlayRevoke(db, id, reason).Ok?
    ensures var p := PlayRevoke(db, id, reason).value; Covers(Absorb(f, p.event), p.db)
  {
  }

  lemma RoleActionCovers(f: Facts, db: Db, a: Action, actor: string, quorum: nat, draw: Draw)
    requires Covers(f, db) && PlayAction(db, a, actor, quorum, draw).Ok? && (a.InviteOperator? || a.SetRole?)
    ensures var p := PlayAction(db, a, actor, quorum, draw).value; Covers(Absorb(f, p.event), p.db)
  {
  }

  /** A committed transaction keeps journal and database together precisely when it is
      clean. */
  lemma PlayedCoversIff(f: Facts, db: Db, c: Call)
    requires Covers(f, db) && PlayOf(db, c).Ok?
    ensures Covers(Absorb(f, PlayOf(db, c).value.event), PlayOf(db, c).value.db) <==> Clean(f, db, c)
  {
    match c
    case BootstrapCall(name, ttl, draw, up) =>
      LocalCoversIff(f, db, name, BOOTSTRAP, BootstrapAdminInvited, ttl, draw);
    case RecoverCall(name, reason, ttl, draw, up) =>
      LocalCoversIff(f, db, name, RECOVERY, AdminRecovery, ttl, draw);
    case RegisterCall(inv, id, fingerprint, now, up) =>
      RegisterCoversIff(f, db, inv, id, fingerprint, now);
    case ActionCall(a, actor, quorum, draw, up) =>
      if a.ConfirmKey? {
        ConfirmCoversIff(f, db, a.credentialId, a.keyFingerprint, actor, draw.now);
      } else if a.RevokeKey? {
        RevokeCovers(f, db, a.credentialId, a.reason);
      } else {
        RoleActionCovers(f, db, a, actor, quorum, draw);
      }
  }

  /** Every call of `calls`, made in turn from `w`, is clean. */
  predicate AllClean(w: World, calls: seq<Call>)
  {
    calls == [] ||
    var before := RunFrom(w, Front(calls));
    AllClean(w, Front(calls)) && Clean(FromEvents(before.journal), before.db, Last(calls))
  }

  /** Hence clean calls keep them together, after a repair as before it, and so the next loss
      finds them as the last one did. */
  lemma {:induction false} CleanRunCovers(w: World, calls: seq<Call>)
    requires Covers(FromEvents(w.journal), w.db) && AllClean(w, calls)
    ensures var now := RunFrom(w, calls); Covers(FromEvents(now.journal), now.db)
    decreases |calls|
  {
    if calls != [] {
      var before := RunFrom(w, Front(calls));
      CleanRunCovers(w, Front(calls));
      NextIsPlayed(before, Last(calls));
      if PlayOf(before.db, Last(calls)).Ok? {
        PlayedCoversIff(FromEvents(before.journal), before.db, Last(calls));
      }
    }
  }

  // ---- Reconciling after a rollback can always succeed ----

  predicate RolesKnown(db: Db)
  {
    forall name | name in db.operators :: ParseRole(db.operators[name].role).Some?
  }

  lemma PlayedRolesKnown(db: Db, c: Call)
    requires RolesKnown(db) && PlayOf(db, c).Ok?
    ensures RolesKnown(PlayOf(db, c).value.db)
  {
    RoleRoundTrip(Admin, "");
    if c.ActionCall? && c.a.InviteOperator? {
      RoleRoundTrip(c.a.role, "");
    } else if c.ActionCall? && c.a.SetRole? {
      RoleRoundTrip(c.a.role, "");
    }
  }

  lemma {:induction false} RunRolesKnown(w: World, calls: seq<Call>)
    requires RolesKnown(w.db)
    ensures RolesKnown(RunFrom(w, calls).db)
    decreases |calls|
  {
    if calls != [] {
      var before := RunFrom(w, calls[..|calls| - 1]);
      RunRolesKnown(w, calls[..|calls| - 1]);
      NextIsPlayed(before, calls[|calls| - 1]);
      if PlayOf(before.db, calls[|calls| - 1]).Ok? {
        PlayedRolesKnown(before.db, calls[|calls| - 1]);
      }
    }
  }

  predicate RolesAcceptable(ds: seq<Divergence>)
  {
    forall d | d in ds :: d.RoleDiffers? ==> ParseRole(d.journalRole).Some?
  }

  lemma {:induction false} EnoughWrites(w: World, ds: seq<Divergence>, ack: seq<string>, writes: nat)
    requires RolesAcceptable(ds) && writes >= |ds|
    ensures ResolveAll(w, ds, ack, false, writes).error.None?
    decreases |ds|
  {
    if ds != [] {
      assert ds[0] in ds;
      if Left(ds[0], ack) {
        EnoughWrites(w, ds[1..], ack, writes);
      } else {
        EnoughWrites(Step(w, ds[0]), ds[1..], ack, writes - 1);
      }
    }
  }

  lemma LostRolesAcceptable(w: World, since: seq<Call>)
    requires RolesKnown(w.db)
    requires var now := RunFrom(w, since); Covers(FromEvents(now.journal), now.db)
    ensures RolesAcceptable(Divergences(FromEvents(RunFrom(w, since).journal), w.db))
  {
    var now := RunFrom(w, since);
    RunRolesKnown(w, since);
    forall d | d in Divergences(FromEvents(now.journal), w.db)
      ensures d.RoleDiffers? ==> ParseRole(d.journalRole).Some?
    {
      RollbackFindsExactly(w, since, d);
    }
  }

  /** Acknowledging exactly the missing keys, with a written reason and a journal that takes
      the events, leaves nothing unresolved, as long as the journal's roles are roles. */
  lemma ExactAcknowledgementSucceeds(w: World, reason: string, ack: seq<string>, writes: nat)
    requires RolesAcceptable(Divergences(FromEvents(w.journal), w.db)) && Trim(reason) != ""
    requires var ds := Divergences(FromEvents(w.journal), w.db);
             (forall id :: id in ack <==> Missing(ds, id)) && writes >= |ds|
    ensures var out := ReconcileHere(w, reason, ack, writes); out.error.None? && out.unresolved == []
  {
    var ds := Divergences(FromEvents(w.journal), w.db);
    EnoughWrites(w, ds, ack, writes);
    var out := ResolveAll(w, ds, ack, false, writes);
    forall d | d in ds
      ensures !Left(d, ack)
    {
      assert d.MissingKey? ==> Missing(ds, d.id);
    }
    if out.unresolved != [] {
      UnresolvedIff(w, ds, ack, false, writes, out.unresolved[0]);
    }
  }

  /** So every divergence a rollback caused can be ended. */
  lemma RollbackCanBeRepaired(w: World, since: seq<Call>, reason: string, ack: seq<string>, writes: nat)
    requires RolesKnown(w.db) && Trim(reason) != ""
    requires var now := RunFrom(w, since); Covers(FromEvents(now.journal), now.db)
    requires var ds := Divergences(FromEvents(RunFrom(w, since).journal), w.db);
             (forall id :: id in ack <==> Missing(ds, id)) && writes >= |ds|
    ensures var out := ReconcileHere(World(w.db, RunFrom(w, since).journal), reason, ack, writes);
            out.error.None? && out.unresolved == [] && Covers(FromEvents(out.world.journal), out.world.db)
  {
    LostRolesAcceptable(w, since);
    ExactAcknowledgementSucceeds(World(w.db, RunFrom(w, since).journal), reason, ack, writes);
    RollbackIsRepaired(w, since, reason, ack, writes);
  }
}
