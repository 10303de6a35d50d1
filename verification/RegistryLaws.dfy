/** What each transaction of the registry demands and changes, told of the tables and of texts
    alone, and what follows over whole runs: bootstrapping means nothing once an administrator
    is active, and an operator never has two live invitations. */
module RegistryLaws {
  import opened Basics
  import opened Actions
  import opened Journal
  import opened Registry
  import opened ReplayRuns

  // ---- Texts ----

  predicate Blank(s: string)
  {
    forall i | 0 <= i < |s| :: IsSpace(s[i])
  }

  /** At most a hundred characters, none a control, the first and the last not spaces. */
  predicate WellNamed(name: string)
  {
    && 1 <= |name| <= 100 && (forall i | 0 <= i < |name| :: !IsControl(name[i]))
    && !IsSpace(name[0]) && !IsSpace(name[|name| - 1])
  }

  /** Something is written, and a thousand characters hold it. */
  predicate Reasoned(reason: string)
  {
    && !Blank(reason)
    && forall i, j | 0 <= i <= j < |reason| && !IsSpace(reason[i]) && !IsSpace(reason[j]) :: j - i < 1000
  }

  lemma {:induction false} TrimStartIs(s: string) returns (i: nat)
    ensures i <= |s| && TrimStart(s) == s[i..] && Blank(s[..i]) && (i < |s| ==> !IsSpace(s[i]))
    decreases |s|
  {
    i := 0;
    if s != "" && IsSpace(s[0]) {
      var rest := TrimStartIs(s[1..]);
      i := rest + 1;
      assert s[1..][rest..] == s[i..];
      assert s[..i] == [s[0]] + s[1..][..rest];
    }
  }

  lemma {:induction false} TrimEndIs(s: string) returns (j: nat)
    ensures j <= |s| && TrimEnd(s) == s[..j] && Blank(s[j..]) && (j > 0 ==> !IsSpace(s[j - 1]))
    decreases |s|
  {
    j := |s|;
    if s != "" && IsSpace(s[|s| - 1]) {
      var front := s[..|s| - 1];
      j := TrimEndIs(front);
      assert front[..j] == s[..j];
      assert s[j..] == front[j..] + [s[|s| - 1]];
    }
  }

  /** Trimming cuts before the first and after the last character that is not a space. */
  lemma TrimIs(s: string) returns (i: nat, j: nat)
    ensures i <= j <= |s| && Trim(s) == s[i..j]
    ensures forall k | 0 <= k < |s| && (k < i || j <= k) :: IsSpace(s[k])
    ensures i < j ==> !IsSpace(s[i]) && !IsSpace(s[j - 1])
  {
    i := TrimStartIs(s);
    var n := TrimEndIs(s[i..]);
    j := i + n;
    assert s[i..][..n] == s[i..j];
    forall k | 0 <= k < |s| && (k < i || j <= k)
      ensures IsSpace(s[k])
    {
      if k < i {
        assert s[..i][k] == s[k];
      } else {
        assert s[i..][n..][k - j] == s[k];
      }
    }
  }

  lemma BlankIff(s: string)
    ensures Trim(s) == "" <==> Blank(s)
  {
    var i, j := TrimIs(s);
  }

  lemma ValidNameIff(name: string)
    ensures ValidName(name) <==> WellNamed(name)
  {
    var i, j := TrimIs(name);
    if name != "" && !IsSpace(name[0]) && !IsSpace(name[|name| - 1]) {
      assert i == 0 && j == |name| && name[i..j] == name;
    }
  }

  lemma ReasonedIff(reason: string)
    ensures Trim(reason) != "" && |Trim(reason)| <= 1000 <==> Reasoned(reason)
  {
    var i, j := TrimIs(reason);
    BlankIff(reason);
    if i < j && j - i <= 1000 {
      forall p, q | 0 <= p <= q < |reason| && !IsSpace(reason[p]) && !IsSpace(reason[q])
        ensures q - p < 1000
      {
        assert i <= p && q < j;
      }
    }
  }

  // ---- What a call demands ----

  ghost predicate NoActiveAdmin(db: Db)
  {
    forall id | id in db.keys ::
      || db.keys[id].revoked || db.keys[id].owner !in db.operators || db.operators[db.keys[id].owner].disabled
      || db.operators[db.keys[id].owner].role != "admin"
  }

  lemma NoneActiveIff(db: Db)
    ensures ActiveAdminKeys(db) == {} <==> NoActiveAdmin(db)
  {
    if !NoActiveAdmin(db) {
      var id :| id in db.keys && !db.keys[id].revoked && db.keys[id].owner in db.operators
                && !db.operators[db.keys[id].owner].disabled && db.operators[db.keys[id].owner].role == "admin";
      assert id in ActiveAdminKeys(db);
    }
  }

  /** From a minute to a day. */
  predicate GoodTtl(seconds: int)
  {
    60 <= seconds <= 86400
  }

  /** The name is that of someone who is no administrator, or is disabled. */
  predicate Taken(db: Db, name: string)
  {
    name in db.operators && db.operators[name] != OperatorRow("admin", false)
  }

  predicate IsLive(row: InviteRow, now: int)
  {
    !row.consumed && now < row.expiresAt
  }

  predicate WellFormed(c: Call)
  {
    match c
    case BootstrapCall(name, ttl, _, _) => WellNamed(name) && GoodTtl(ttl)
    case RecoverCall(name, reason, ttl, _, _) => WellNamed(name) && Reasoned(reason) && GoodTtl(ttl)
    case RegisterCall(_, _, _, _, _) => true
    case ActionCall(a, _, _, _, _) =>
      match a
      case InviteOperator(name, _, ttl) => WellNamed(name) && GoodTtl(60 * ttl)
      case RevokeKey(_, reason) => !Blank(reason)
      case _ => a.OnRegistry()
  }

  ghost predicate Lawful(db: Db, a: Action, actor: string, quorum: nat, now: int)
  {
    match a
    case InviteOperator(name, role, _) => name !in db.operators && (role == Admin ==> quorum >= 2)
    case ConfirmKey(id, fingerprint) =>
      && id in db.pending && db.pending[id].invite in db.invites && now < db.pending[id].expiresAt
      && db.pending[id].operator in db.operators && !db.operators[db.pending[id].operator].disabled
      && db.pending[id].operator != actor && db.pending[id].fingerprint == fingerprint
    case RevokeKey(id, _) =>
      && id in db.keys && !db.keys[id].revoked && db.keys[id].owner in db.operators
      && (db.operators[db.keys[id].owner].role == "admin" ==> !NoActiveAdmin(db.(keys := db.keys - {id})))
    case SetRole(operator, role) =>
      && operator in db.operators && !db.operators[operator].disabled && operator != actor
      && db.operators[operator].role != AsStr(role)
      && (role == Admin || db.operators[operator].role == "admin" ==> quorum >= 2)
    case _ => false
  }

  /** The identifier the call draws, or brings, is free. */
  predicate Free(db: Db, c: Call)
  {
    match c
    case BootstrapCall(_, _, draw, _) => draw.drawn !in db.invites
    case RecoverCall(_, _, _, draw, _) => draw.drawn !in db.invites
    case RegisterCall(inv, id, _, _, _) => if Marked(inv.createdBy) then id !in db.keys else id !in db.pending
    case ActionCall(a, _, _, draw, _) =>
      (a.InviteOperator? ==> draw.drawn !in db.invites) && (a.ConfirmKey? ==> a.credentialId !in db.keys)
  }

  predicate Marked(createdBy: string)
  {
    createdBy == "bootstrap-admin" || createdBy == "recover-admin"
  }

  ghost predicate Permitted(db: Db, c: Call)
  {
    match c
    case BootstrapCall(name, _, _, _) => NoActiveAdmin(db) && !Taken(db, name)
    case RecoverCall(name, _, _, _, _) => !Taken(db, name)
    case RegisterCall(inv, _, _, now, _) =>
      && (inv.createdBy == "bootstrap-admin" ==> NoActiveAdmin(db))
      && inv.id in db.invites && IsLive(db.invites[inv.id], now) && inv.operator in db.operators
    case ActionCall(a, actor, quorum, draw, _) => Lawful(db, a, actor, quorum, draw.now)
  }

  // ---- What it changes ----

  /** The others invited as `name` end at `now` if they were live. */
  ghost predicate InvitedLocally(db: Db, name: string, mark: string, ttl: int, draw: Draw, db': Db)
  {
    && db'.keys == db.keys && db'.pending == db.pending
    && db'.operators == db.operators[name := OperatorRow("admin", false)]
    && db'.invites.Keys == db.invites.Keys + {draw.drawn}
    && db'.invites[draw.drawn] == InviteRow(name, mark, draw.now + ttl, false)
    && forall i | i in db.invites ::
         db'.invites[i] == if db.invites[i].operator == name && IsLive(db.invites[i], draw.now)
                           then InviteRow(name, db.invites[i].createdBy, draw.now, false) else db.invites[i]
  }

  ghost predicate Becomes(db: Db, c: Call, db': Db)
  {
    match c
    case BootstrapCall(name, ttl, draw, _) => InvitedLocally(db, name, "bootstrap-admin", ttl, draw, db')
    case RecoverCall(name, _, ttl, draw, _) => InvitedLocally(db, name, "recover-admin", ttl, draw, db')
    case RegisterCall(inv, id, fingerprint, now, _) =>
      && db'.operators == db.operators && inv.id in db.invites
      && db'.invites == db.invites[inv.id := db.invites[inv.id].(consumed := true)]
      && (if Marked(inv.createdBy)
          then db'.pending == db.pending
               && db'.keys == db.keys[id := KeyRow(inv.operator, inv.createdBy,
                                                   if inv.createdBy == "recover-admin" then Some("recover-admin")
                                                     else None,
                                                   fingerprint, false)]
          else db'.keys == db.keys
               && db'.pending == db.pending[id := PendingRow(inv.operator, inv.id, now + 3 * 86400, fingerprint)])
    case ActionCall(a, actor, _, draw, _) => Performed(db, a, actor, draw, db')
  }

  ghost predicate Performed(db: Db, a: Action, actor: string, draw: Draw, db': Db)
  {
    match a
    case InviteOperator(name, role, ttl) =>
      && db'.keys == db.keys && db'.pending == db.pending
      && db'.operators == db.operators[name := OperatorRow(AsStr(role), false)]
      && db'.invites == db.invites[draw.drawn := InviteRow(name, actor, draw.now + 60 * ttl, false)]
    case ConfirmKey(id, fingerprint) =>
      && db'.operators == db.operators && db'.invites == db.invites && db'.pending == db.pending - {id}
      && id in db.pending && db.pending[id].invite in db.invites
      && db'.keys == db.keys[id := KeyRow(db.pending[id].operator, db.invites[db.pending[id].invite].createdBy,
                                          Some(actor), fingerprint, false)]
    case RevokeKey(id, _) =>
      && db'.operators == db.operators && db'.invites == db.invites && db'.pending == db.pending
      && id in db.keys && db'.keys == db.keys[id := db.keys[id].(revoked := true)]
    case SetRole(operator, role) =>
      && db'.keys == db.keys && db'.invites == db.invites && db'.pending == db.pending
      && operator in db.operators
      && db'.operators == db.operators[operator := db.operators[operator].(role := AsStr(role))]
    case _ => false
  }

  /** The event in the journal names the operator and what was changed. */
  predicate Notes(db: Db, c: Call, e: Event)
  {
    match c
    case BootstrapCall(name, _, draw, _) =>
      e == Event(BootstrapAdminInvited, map[Operateur := name, InviteId := draw.drawn])
    case RecoverCall(name, _, _, draw, _) => e == Event(AdminRecovery, map[Operateur := name, InviteId := draw.drawn])
    case RegisterCall(inv, id, _, _, _) =>
      && e.name == CredentialRegistered && Text(e, Operateur) == Some(inv.operator) && Text(e, CredentialId) == Some(id)
      && Text(e, InviteId) == Some(inv.id)
      && Text(e, Statut) == Some(if Marked(inv.createdBy) then "active" else "pending_confirmation")
    case ActionCall(a, _, _, draw, _) =>
      match a
      case InviteOperator(name, role, _) =>
        e == Event(Invited, map[Operateur := name, RoleField := AsStr(role), InviteId := draw.drawn])
      case ConfirmKey(id, _) =>
        id in db.pending && e == Event(KeyConfirmed, map[Operateur := db.pending[id].operator, CredentialId := id])
      case RevokeKey(id, _) =>
        id in db.keys && e == Event(KeyRevoked, map[Operateur := db.keys[id].owner, CredentialId := id])
      case SetRole(operator, role) => e == Event(RoleChanged, map[Operateur := operator, NouveauRole := AsStr(role)])
      case _ => false
  }

  function Answer(w: World, c: Call): Option<Refusal>
  {
    match c
    case BootstrapCall(name, ttl, draw, up) => Bootstrapped(w, name, ttl, draw, up).1
    case _ => Commit(w, PlayOf(w.db, c), c.up).1
  }

  lemma LocalIff(db: Db, name: string, mark: string, kind: EventName, ttl: int, draw: Draw)
    ensures var p := PlayLocal(db, name, mark, kind, ttl, draw);
            && (Taken(db, name) ==> p == Err(BadRequest))
            && (!Taken(db, name) && draw.drawn in db.invites ==> p == Err(Database))
            && (!Taken(db, name) && draw.drawn !in db.invites ==>
                  && p.Ok? && InvitedLocally(db, name, mark, ttl, draw, p.value.db)
                  && p.value.event == Event(kind, map[Operateur := name, InviteId := draw.drawn]))
  {
    if name in db.operators && !Taken(db, name) {
      assert db.operators == db.operators[name := OperatorRow("admin", false)];
    }
  }

  lemma OthersActive(db: Db, id: string)
    ensures ActiveAdminKeys(db) - {id} == {} <==> NoActiveAdmin(db.(keys := db.keys - {id}))
  {
    NoneActiveIff(db.(keys := db.keys - {id}));
    var rest := db.(keys := db.keys - {id});
    assert ActiveAdminKeys(db) - {id} == ActiveAdminKeys(rest);
  }

  /** The caller's fault: ill-formed, or asking for what cannot be or already is. */
  ghost predicate IllPosed(db: Db, c: Call)
  {
    match c
    case BootstrapCall(name, _, _, _) => !WellFormed(c) || (NoActiveAdmin(db) && Taken(db, name))
    case RecoverCall(name, _, _, _, _) => !WellFormed(c) || Taken(db, name)
    case RegisterCall(_, _, _, _, _) => false
    case ActionCall(a, actor, quorum, _, _) =>
      match a
      case InviteOperator(name, role, ttl) =>
        !WellNamed(name) || ((role == Admin ==> quorum >= 2) && (!GoodTtl(60 * ttl) || name in db.operators))
      case SetRole(operator, role) =>
        && operator in db.operators && !db.operators[operator].disabled && operator != actor
        && (role == Admin || db.operators[operator].role == "admin" ==> quorum >= 2)
        && db.operators[operator].role == AsStr(role)
      case _ => !WellFormed(c)
  }

  /** The tables refuse it: an identifier drawn twice, or an operator that is not there. */
  ghost predicate Clashes(db: Db, c: Call)
  {
    match c
    case RegisterCall(inv, _, _, now, _) =>
      && (inv.createdBy == "bootstrap-admin" ==> NoActiveAdmin(db))
      && inv.id in db.invites && IsLive(db.invites[inv.id], now) && inv.operator !in db.operators
    case _ => WellFormed(c) && Permitted(db, c) && !Free(db, c)
  }

  ghost predicate Passes(db: Db, c: Call)
  {
    WellFormed(c) && Permitted(db, c) && Free(db, c)
  }

  /** A transaction played: what it leaves and notes, or why it is refused. */
  ghost predicate PlaysRight(db: Db, c: Call, p: Play)
  {
    && (p.Ok? <==> Passes(db, c))
    && (p.Ok? ==> Becomes(db, c, p.value.db) && Notes(db, c, p.value.event))
    && (p == Err(BadRequest) <==> IllPosed(db, c))
    && (p == Err(Database) <==> Clashes(db, c))
    && (p.Ok? || p.error in {BadRequest, Database, Denied})
  }

  lemma ActionIff(db: Db, a: Action, actor: string, quorum: nat, draw: Draw, up: bool)
    ensures PlaysRight(db, ActionCall(a, actor, quorum, draw, up), PlayAction(db, a, actor, quorum, draw))
  {
    match a
    case InviteOperator(name, _, _) => ValidNameIff(name);
    case RevokeKey(id, reason) =>
      BlankIff(reason);
      OthersActive(db, id);
    case _ =>
  }

  lemma LocalPlayIff(db: Db, c: Call)
    requires c.BootstrapCall? || c.RecoverCall?
    ensures PlaysRight(db, c, PlayOf(db, c))
  {
    ValidNameIff(c.name);
    if c.BootstrapCall? {
      NoneActiveIff(db);
      LocalIff(db, c.name, "bootstrap-admin", BootstrapAdminInvited, c.ttl, c.draw);
    } else {
      ReasonedIff(c.reason);
      LocalIff(db, c.name, "recover-admin", AdminRecovery, c.ttl, c.draw);
    }
  }

  lemma PlayIff(db: Db, c: Call)
    ensures PlaysRight(db, c, PlayOf(db, c))
  {
    if c.RegisterCall? {
      NoneActiveIff(db);
    } else if c.ActionCall? {
      ActionIff(db, c.a, c.actor, c.quorum, c.draw, c.up);
    } else {
      LocalPlayIff(db, c);
    }
  }

  /** A well-formed bootstrap while an administrator is active. */
  ghost predicate RefusedAtStart(db: Db, c: Call)
  {
    c.BootstrapCall? && WellFormed(c) && !NoActiveAdmin(db)
  }

  /** A call succeeds exactly when it is well-formed, permitted, draws what is free, and the
      journal takes its event; then the tables are changed so and that event is added. A
      refusal changes no table and writes nothing, except that bootstrapping a system with an
      active administrator leaves its trace. */
  lemma CallIff(w: World, c: Call)
    ensures var w' := Next(w, c);
            && (Answer(w, c).None? <==> c.up && Passes(w.db, c))
            && (Answer(w, c).None? ==>
                  Becomes(w.db, c, w'.db) && exists e :: Notes(w.db, c, e) && w'.journal == w.journal + [e])
            && (Answer(w, c).Some? ==>
                  && w'.db == w.db
                  && w'.journal == if RefusedAtStart(w.db, c) && c.up then w.journal + [BOOTSTRAP_REFUSED]
                     else w.journal)
            && (RefusedAtStart(w.db, c) ==> Answer(w, c) == Some(Denied))
  {
    PlayIff(w.db, c);
    if c.BootstrapCall? {
      NoneActiveIff(w.db);
      ValidNameIff(c.name);
    }
  }

  /** Each refusal has its own cause. */
  lemma RefusalIff(w: World, c: Call)
    ensures Answer(w, c) == Some(BadRequest) <==> IllPosed(w.db, c)
    ensures Answer(w, c) == Some(Database) <==> Clashes(w.db, c)
    ensures Answer(w, c) == Some(JournalDown) <==> Passes(w.db, c) && !c.up
    ensures Answer(w, c).Some? ==> Answer(w, c).value in {BadRequest, Database, JournalDown, Denied}
  {
    PlayIff(w.db, c);
  }

  // ---- Bootstrapping ----

  function WithoutBootstraps(calls: seq<Call>): seq<Call>
  {
    if calls == [] then []
    else if Last(calls).BootstrapCall? then WithoutBootstraps(Front(calls))
    else WithoutBootstraps(Front(calls)) + [Last(calls)]
  }

  /** Each bootstrap of the run comes while an administrator is active. */
  ghost predicate Late(w: World, calls: seq<Call>)
  {
    calls != [] ==>
      Late(w, Front(calls)) && (Last(calls).BootstrapCall? ==> ActiveAdminKeys(RunFrom(w, Front(calls)).db) != {})
  }

  lemma SameTables(w: World, v: World, c: Call)
    requires w.db == v.db && !c.BootstrapCall?
    ensures Next(w, c).db == Next(v, c).db
  {
  }

  /** Once an administrator is active, bootstrapping changes nothing, now or later: the tables
      of any run are those of the run without its late bootstraps, each of which was refused. */
  lemma {:induction false} BootstrapsNeverMatter(w: World, calls: seq<Call>)
    requires Late(w, calls)
    ensures RunFrom(w, calls).db == RunFrom(w, WithoutBootstraps(calls)).db
    ensures calls != [] && Last(calls).BootstrapCall? ==> Answer(RunFrom(w, Front(calls)), Last(calls)).Some?
    decreases |calls|
  {
    if calls != [] {
      var before, c := RunFrom(w, Front(calls)), Last(calls);
      BootstrapsNeverMatter(w, Front(calls));
      if c.BootstrapCall? {
        NoneActiveIff(before.db);
        CallIff(before, c);
      } else {
        var rest := WithoutBootstraps(Front(calls));
        assert Front(rest + [c]) == rest && Last(rest + [c]) == c;
        SameTables(before, RunFrom(w, rest), c);
      }
    }
  }

  // ---- Invitations ----

  function At(c: Call): int
  {
    if c.RegisterCall? then c.now else c.draw.now
  }

  /** At `t`, no operator has two live invitations. */
  ghost predicate OneLive(db: Db, t: int)
  {
    && (forall i | i in db.invites :: db.invites[i].operator in db.operators)
    && (forall i, j | i in db.invites && j in db.invites && i != j
        && db.invites[i].operator == db.invites[j].operator ::
          !(IsLive(db.invites[i], t) && IsLive(db.invites[j], t)))
  }

  lemma LocalKeepsOne(db: Db, name: string, mark: string, ttl: int, draw: Draw, db': Db, t: int)
    requires OneLive(db, t) && InvitedLocally(db, name, mark, ttl, draw, db') && draw.drawn !in db.invites
             && draw.now <= t
    ensures OneLive(db', t)
  {
    forall i, j | i in db'.invites && j in db'.invites && i != j && db'.invites[i].operator == db'.invites[j].operator
      ensures !(IsLive(db'.invites[i], t) && IsLive(db'.invites[j], t))
    {
      if i in db.invites && j in db.invites {
        assert !(IsLive(db.invites[i], t) && IsLive(db.invites[j], t));
      }
    }
  }

  lemma NextKeepsOne(w: World, c: Call, t: int)
    requires OneLive(w.db, t) && At(c) <= t
    ensures OneLive(Next(w, c).db, t)
  {
    CallIff(w, c);
    if Answer(w, c).None? {
      var db' := Next(w, c).db;
      match c
      case BootstrapCall(name, ttl, draw, _) => LocalKeepsOne(w.db, name, "bootstrap-admin", ttl, draw, db', t);
      case RecoverCall(name, _, ttl, draw, _) => LocalKeepsOne(w.db, name, "recover-admin", ttl, draw, db', t);
      case RegisterCall(_, _, _, _, _) =>
      case ActionCall(_, _, _, _, _) =>
    }
  }

  /** Whatever is called, and in whatever order the clock stamps it: from the latest of those
      instants on, an operator has one live invitation at most. */
  lemma {:induction false} OneLiveInvitation(calls: seq<Call>, t: int)
    requires forall c | c in calls :: At(c) <= t
    ensures OneLive(RunFrom(START, calls).db, t)
    decreases |calls|
  {
    if calls != [] {
      OneLiveInvitation(Front(calls), t);
      NextKeepsOne(RunFrom(START, Front(calls)), Last(calls), t);
    }
  }
}
