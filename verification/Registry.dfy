/** The operator registry: its tables, and every transaction that changes them, each with
    the journal event it writes before it commits. An operator is identified by its name,
    which is unique, never changed and never deleted. */
module Registry {
  import opened Basics
  import opened Actions
  import opened Journal
  import opened Marks

  datatype OperatorRow = OperatorRow(role: string, disabled: bool)

  datatype KeyRow = KeyRow(owner: string, initiatedBy: string, confirmedBy: Option<string>, fingerprint: string,
                           revoked: bool)

  datatype InviteRow = InviteRow(operator: string, createdBy: string, expiresAt: int, consumed: bool)

  datatype PendingRow = PendingRow(operator: string, invite: string, expiresAt: int, fingerprint: string)

  datatype Db = Db(operators: map<string, OperatorRow>, keys: map<string, KeyRow>,
                   invites: map<string, InviteRow>, pending: map<string, PendingRow>)

  const EMPTY: Db := Db(map[], map[], map[], map[])

  const MINUTE := 60
  const MIN_INVITE_TTL := MINUTE
  const MAX_INVITE_TTL := 24 * 60 * MINUTE
  const PENDING_TTL := 72 * 60 * MINUTE
  const CHALLENGE_TTL := 5 * MINUTE

  /** Signatures required by actions under dual control. */
  const QUORUM := 2

  const ADMIN := AsStr(Admin)

  // ---- Texts ----

  /** The Unicode property White_Space. */
  predicate IsSpace(c: char)
  {
    || 9 <= c as int <= 13 || c as int in {0x20, 0x85, 0xA0, 0x1680, 0x2028, 0x2029, 0x202F, 0x205F, 0x3000}
    || 0x2000 <= c as int <= 0x200A
  }

  predicate IsControl(c: char)
  {
    c as int < 0x20 || 0x7F <= c as int <= 0x9F
  }

  function TrimStart(s: string): string
  {
    if s != "" && IsSpace(s[0]) then TrimStart(s[1..]) else s
  }

  function TrimEnd(s: string): string
  {
    if s != "" && IsSpace(s[|s| - 1]) then TrimEnd(s[..|s| - 1]) else s
  }

  function Trim(s: string): string
  {
    TrimEnd(TrimStart(s))
  }

  predicate ValidName(name: string)
  {
    var n := Trim(name);
    n != "" && |n| <= 100 && (forall i | 0 <= i < |n| :: !IsControl(n[i])) && n == name
  }

  // ---- Queries ----

  predicate ActiveAdmin(db: Db, id: string)
  {
    && id in db.keys && !db.keys[id].revoked
    && db.keys[id].owner in db.operators
    && db.operators[db.keys[id].owner].role == ADMIN
    && !db.operators[db.keys[id].owner].disabled
  }

  /** Unrevoked keys of administrators that are not disabled. */
  function ActiveAdminKeys(db: Db): set<string>
  {
    set id | id in db.keys && ActiveAdmin(db, id)
  }

  // ---- Transactions ----

  /** What a transaction would leave, and the event it writes first. */
  datatype Played = Played(db: Db, event: Event)

  type Play = Result<Played, Refusal>

  function PlayInvite(db: Db, name: string, role: Role, ttlMinutes: int, actor: string, now: int, quorum: nat,
                      invite: string): Play
  {
    if !ValidName(name) then Err(BadRequest)
    else if role == Admin && quorum < QUORUM then Err(Denied)
    else if !(MIN_INVITE_TTL <= ttlMinutes * MINUTE <= MAX_INVITE_TTL) then Err(BadRequest)
    else if name in db.operators then Err(BadRequest)
    else if invite in db.invites then Err(Database)
    else Ok(Played(
              db.(operators := db.operators[name := OperatorRow(AsStr(role), false)],
                  invites := db.invites[invite := InviteRow(name, actor, now + ttlMinutes * MINUTE, false)]),
              Event(Invited, map[Operateur := name, RoleField := AsStr(role), InviteId := invite])))
  }

  function PlayConfirm(db: Db, id: string, fingerprint: string, actor: string, now: int): Play
  {
    if id !in db.pending || db.pending[id].invite !in db.invites || db.pending[id].operator !in db.operators
    then Err(Denied)
    else
      var p := db.pending[id];
      if p.expiresAt <= now || db.operators[p.operator].disabled then Err(Denied)
      else if p.operator == actor || p.fingerprint != fingerprint then Err(Denied)
      else if id in db.keys then Err(Database)
      else var row := KeyRow(p.operator, db.invites[p.invite].createdBy, Some(actor), p.fingerprint, false);
        Ok(Played(
             db.(keys := db.keys[id := row], pending := db.pending - {id}),
             Event(KeyConfirmed, map[Operateur := p.operator, CredentialId := id])))
  }

  /** Never leaves the system without an active administrator. */
  function PlayRevoke(db: Db, id: string, reason: string): Play
  {
    if Trim(reason) == "" then Err(BadRequest)
    else if id !in db.keys || db.keys[id].owner !in db.operators then Err(Denied)
    else if db.keys[id].revoked then Err(Denied)
    else if db.operators[db.keys[id].owner].role == ADMIN && ActiveAdminKeys(db) - {id} == {} then Err(Denied)
    else Ok(Played(
              db.(keys := db.keys[id := db.keys[id].(revoked := true)]),
              Event(KeyRevoked, map[Operateur := db.keys[id].owner, CredentialId := id])))
  }

  function PlaySetRole(db: Db, operator: string, role: Role, actor: string, quorum: nat): Play
  {
    if role == Admin && quorum < QUORUM then Err(Denied)
    else if operator !in db.operators then Err(Denied)
    else if db.operators[operator].disabled || operator == actor then Err(Denied)
    else if db.operators[operator].role == ADMIN && quorum < QUORUM then Err(Denied)
    else if db.operators[operator].role == AsStr(role) then Err(BadRequest)
    else Ok(Played(
              db.(operators := db.operators[operator := db.operators[operator].(role := AsStr(role))]),
              Event(RoleChanged, map[Operateur := operator, NouveauRole := AsStr(role)])))
  }

  /** The identifier and the instant drawn for one call. */
  datatype Draw = Draw(drawn: string, now: int)

  function PlayAction(db: Db, a: Action, actor: string, quorum: nat, draw: Draw): Play
  {
    match a
    case InviteOperator(name, role, ttl) => PlayInvite(db, name, role, ttl, actor, draw.now, quorum, draw.drawn)
    case ConfirmKey(id, fingerprint) => PlayConfirm(db, id, fingerprint, actor, draw.now)
    case RevokeKey(id, reason) => PlayRevoke(db, id, reason)
    case SetRole(operator, role) => PlaySetRole(db, operator, role, actor, quorum)
    case _ => Err(BadRequest)
  }

  /** Earlier live invitations of `name` end now. */
  function EndInvites(invites: map<string, InviteRow>, name: string, now: int): map<string, InviteRow>
  {
    map i | i in invites ::
      if invites[i].operator == name && !invites[i].consumed && invites[i].expiresAt > now
      then invites[i].(expiresAt := now) else invites[i]
  }

  /** Creates or re-invites an administrator, under the mark `mark`. */
  function PlayLocal(db: Db, name: string, mark: string, event: EventName, ttl: int, draw: Draw): Play
  {
    if name in db.operators && (db.operators[name].role != ADMIN || db.operators[name].disabled) then Err(BadRequest)
    else if draw.drawn in db.invites then Err(Database)
    else Ok(Played(
              db.(operators := if name in db.operators then db.operators
                               else db.operators[name := OperatorRow(ADMIN, false)],
                  invites := EndInvites(db.invites, name, draw.now)
                             [draw.drawn := InviteRow(name, mark, draw.now + ttl, false)]),
              Event(event, map[Operateur := name, InviteId := draw.drawn])))
  }

  function PlayBootstrap(db: Db, name: string, ttl: int, draw: Draw): Play
  {
    if !ValidName(name) || ttl < MIN_INVITE_TTL || ttl > MAX_INVITE_TTL then Err(BadRequest)
    else if ActiveAdminKeys(db) != {} then Err(Denied)
    else PlayLocal(db, name, BOOTSTRAP, BootstrapAdminInvited, ttl, draw)
  }

  function PlayRecover(db: Db, name: string, reason: string, ttl: int, draw: Draw): Play
  {
    if !ValidName(name) || Trim(reason) == "" || |Trim(reason)| > 1000 then Err(BadRequest)
    else if ttl < MIN_INVITE_TTL || ttl > MAX_INVITE_TTL then Err(BadRequest)
    else PlayLocal(db, name, RECOVERY, AdminRecovery, ttl, draw)
  }

  /** An invitation as `live_invite` reads it; the database row may have moved since. */
  datatype LiveInvite = LiveInvite(id: string, operator: string, createdBy: string)

  function Status(createdBy: string): string
  {
    if Direct(createdBy) then "active" else "pending_confirmation"
  }

  /** The closing transaction of a registration: the invitation is consumed and the key
      stored together. */
  function PlayRegister(db: Db, inv: LiveInvite, id: string, fingerprint: string, now: int): Play
  {
    if inv.createdBy == BOOTSTRAP && ActiveAdminKeys(db) != {} then Err(Denied)
    else if inv.id !in db.invites || db.invites[inv.id].consumed || db.invites[inv.id].expiresAt <= now then Err(Denied)
    else if inv.operator !in db.operators then Err(Database)
    else if (if Direct(inv.createdBy) then id in db.keys else id in db.pending) then Err(Denied)
    else
      var invites := db.invites[inv.id := db.invites[inv.id].(consumed := true)];
      var event := Event(CredentialRegistered,
                         map[Operateur := inv.operator, InviteId := inv.id, CredentialId := id,
                             Statut := Status(inv.createdBy)]);
      if Direct(inv.createdBy) then
        var confirmer := if inv.createdBy == RECOVERY then Some(RECOVERY) else None;
        var row := KeyRow(inv.operator, inv.createdBy, confirmer, fingerprint, false);
        Ok(Played(db.(invites := invites, keys := db.keys[id := row]), event))
      else
        Ok(Played(
             db.(invites := invites,
                 pending := db.pending[id := PendingRow(inv.operator, inv.id, now + PENDING_TTL, fingerprint)]),
             event))
  }

  /** The registry and the journal it answers to. */
  datatype World = World(db: Db, journal: seq<Event>)

  /** The event is written before the commit; if it cannot be, nothing changes. */
  function Commit(w: World, p: Play, journalUp: bool): (World, Option<Refusal>)
  {
    if p.Err? then (w, Some(p.error))
    else if !journalUp then (w, Some(JournalDown))
    else (World(p.value.db, w.journal + [p.value.event]), None)
  }

  const BOOTSTRAP_REFUSED: Event := Event(OtherEvent, map[])

  /** A refused bootstrap on a system with an active administrator leaves a trace, if it can. */
  function Bootstrapped(w: World, name: string, ttl: int, draw: Draw, journalUp: bool): (World, Option<Refusal>)
  {
    if PlayBootstrap(w.db, name, ttl, draw) == Err(Denied)
    then (if journalUp then w.(journal := w.journal + [BOOTSTRAP_REFUSED]) else w, Some(Denied))
    else Commit(w, PlayBootstrap(w.db, name, ttl, draw), journalUp)
  }

  class Store {
    var operators: map<string, OperatorRow>
    var keys: map<string, KeyRow>
    var invites: map<string, InviteRow>
    var pending: map<string, PendingRow>
    var journal: seq<Event>

    function Tables(): Db
      reads this
    {
      Db(operators, keys, invites, pending)
    }

    function Contents(): World
      reads this
    {
      World(Tables(), journal)
    }

    constructor ()
      ensures Contents() == World(EMPTY, [])
    {
      operators, keys, invites, pending, journal := map[], map[], map[], map[], [];
    }

    method Write(event: Event, journalUp: bool) returns (r: Option<Refusal>)
      modifies this`journal
      ensures r == if journalUp then None else Some(JournalDown)
      ensures journal == if journalUp then old(journal) + [event] else old(journal)
    {
      if !journalUp {
        return Some(JournalDown);
      }
      journal := journal + [event];
      r := None;
    }

    method AnotherActiveAdminKey(id: string) returns (found: bool)
      ensures found <==> ActiveAdminKeys(Tables()) - {id} != {}
    {
      var left := keys.Keys - {id};
      found := false;
      while left != {} && !found
        invariant left <= keys.Keys - {id}
        invariant !found ==> forall k | k in keys.Keys - {id} - left :: !ActiveAdmin(Tables(), k)
        invariant found ==> exists k | k in keys.Keys - {id} :: ActiveAdmin(Tables(), k)
        decreases left, !found
      {
        var k :| k in left;
        left := left - {k};
        found := ActiveAdmin(Tables(), k);
      }
      if found {
        var k :| k in keys.Keys - {id} && ActiveAdmin(Tables(), k);
        assert k in ActiveAdminKeys(Tables()) - {id};
      }
    }

    /** One path for the check and the execution: played in a transaction, then committed
        (`apply`) or rolled back. */
    method RunRegistryAction(a: Action, actor: string, quorum: nat, draw: Draw, apply: bool, journalUp: bool)
      returns (r: Option<Refusal>)
      modifies this
      ensures !apply ==>
                Contents() == old(Contents())
                && r == Commit(old(Contents()), PlayAction(old(Tables()), a, actor, quorum, draw), true).1
      ensures apply ==>
                (Contents(), r) == Commit(old(Contents()), PlayAction(old(Tables()), a, actor, quorum, draw), journalUp)
    {
      var txOperators, txKeys, txInvites, txPending := operators, keys, invites, pending;
      var event: Event;
      match a {
        case InviteOperator(name, role, ttlMinutes) =>
          if !ValidName(name) {
            return Some(BadRequest);
          }
          if role == Admin && quorum < QUORUM {
            return Some(Denied);
          }
          var ttl := ttlMinutes * MINUTE;
          if !(MIN_INVITE_TTL <= ttl <= MAX_INVITE_TTL) || name in operators {
            return Some(BadRequest);
          }
          txOperators := txOperators[name := OperatorRow(AsStr(role), false)];
          if draw.drawn in invites {
            return Some(Database);
          }
          txInvites := txInvites[draw.drawn := InviteRow(name, actor, draw.now + ttl, false)];
          event := Event(Invited, map[Operateur := name, RoleField := AsStr(role), InviteId := draw.drawn]);
        case ConfirmKey(id, fingerprint) =>
          if id !in pending || pending[id].invite !in invites || pending[id].operator !in operators {
            return Some(Denied);
          }
          var p := pending[id];
          if p.expiresAt <= draw.now || operators[p.operator].disabled {
            return Some(Denied);
          }
          if p.operator == actor || p.fingerprint != fingerprint {
            return Some(Denied);
          }
          if id in keys {
            return Some(Database);
          }
          txKeys := txKeys[id := KeyRow(p.operator, invites[p.invite].createdBy, Some(actor), p.fingerprint, false)];
          txPending := txPending - {id};
          event := Event(KeyConfirmed, map[Operateur := p.operator, CredentialId := id]);
        case RevokeKey(id, reason) =>
          if Trim(reason) == "" {
            return Some(BadRequest);
          }
          if id !in keys || keys[id].owner !in operators || keys[id].revoked {
            return Some(Denied);
          }
          if operators[keys[id].owner].role == ADMIN {
            var other := AnotherActiveAdminKey(id);
            if !other {
              return Some(Denied);
            }
          }
          txKeys := txKeys[id := txKeys[id].(revoked := true)];
          event := Event(KeyRevoked, map[Operateur := keys[id].owner, CredentialId := id]);
        case SetRole(operator, role) =>
          if role == Admin && quorum < QUORUM {
            return Some(Denied);
          }
          if operator !in operators || operators[operator].disabled || operator == actor {
            return Some(Denied);
          }
          if operators[operator].role == ADMIN && quorum < QUORUM {
            return Some(Denied);
          }
          if operators[operator].role == AsStr(role) {
            return Some(BadRequest);
          }
          txOperators := txOperators[operator := txOperators[operator].(role := AsStr(role))];
          event := Event(RoleChanged, map[Operateur := operator, NouveauRole := AsStr(role)]);
        case _ =>
          return Some(BadRequest);
      }
      if apply {
        r := Write(event, journalUp);
        if r.Some? {
          return;
        }
        operators, keys, invites, pending := txOperators, txKeys, txInvites, txPending;
      }
      r := None;
    }

    /** Creates or re-invites an administrator; one live invitation at most stays. */
    method InviteLocally(name: string, mark: string, kind: EventName, ttl: int, draw: Draw, journalUp: bool)
      returns (r: Option<Refusal>)
      modifies this
      ensures (Contents(), r) == Commit(old(Contents()), PlayLocal(old(Tables()), name, mark, kind, ttl, draw),
                                        journalUp)
    {
      var txOperators := operators;
      if name in operators {
        if operators[name].role != ADMIN || operators[name].disabled {
          return Some(BadRequest);
        }
      } else {
        txOperators := txOperators[name := OperatorRow(ADMIN, false)];
      }
      var txInvites := EndInvites(invites, name, draw.now);
      if draw.drawn in invites {
        return Some(Database);
      }
      txInvites := txInvites[draw.drawn := InviteRow(name, mark, draw.now + ttl, false)];
      r := Write(Event(kind, map[Operateur := name, InviteId := draw.drawn]), journalUp);
      if r.None? {
        operators, invites := txOperators, txInvites;
      }
    }

    method BootstrapAdmin(name: string, ttl: int, draw: Draw, journalUp: bool) returns (r: Option<Refusal>)
      modifies this
      ensures (Contents(), r) == Bootstrapped(old(Contents()), name, ttl, draw, journalUp)
    {
      if !ValidName(name) || ttl < MIN_INVITE_TTL || ttl > MAX_INVITE_TTL {
        return Some(BadRequest);
      }
      if ActiveAdminKeys(Tables()) != {} {
        var _ := Write(BOOTSTRAP_REFUSED, journalUp);
        return Some(Denied);
      }
      r := InviteLocally(name, BOOTSTRAP, BootstrapAdminInvited, ttl, draw, journalUp);
    }

    method RecoverAdmin(name: string, reason: string, ttl: int, draw: Draw, journalUp: bool)
      returns (r: Option<Refusal>)
      modifies this
      ensures (Contents(), r) == Commit(old(Contents()), PlayRecover(old(Tables()), name, reason, ttl, draw), journalUp)
    {
      if !ValidName(name) {
        return Some(BadRequest);
      }
      var written := Trim(reason);
      if written == "" || |written| > 1000 || ttl < MIN_INVITE_TTL || ttl > MAX_INVITE_TTL {
        return Some(BadRequest);
      }
      r := InviteLocally(name, RECOVERY, AdminRecovery, ttl, draw, journalUp);
    }

    /** The closing transaction of a registration. */
    method StoreKey(inv: LiveInvite, id: string, fingerprint: string, now: int, journalUp: bool)
      returns (r: Option<Refusal>)
      modifies this
      ensures (Contents(), r) == Commit(old(Contents()), PlayRegister(old(Tables()), inv, id, fingerprint, now),
                                        journalUp)
    {
      var bootstrap, recovery := inv.createdBy == BOOTSTRAP, inv.createdBy == RECOVERY;
      var direct := bootstrap || recovery;
      if bootstrap && ActiveAdminKeys(Tables()) != {} {
        return Some(Denied);
      }
      if inv.id !in invites || invites[inv.id].consumed || invites[inv.id].expiresAt <= now {
        return Some(Denied);
      }
      var txInvites := invites[inv.id := invites[inv.id].(consumed := true)];
      var txKeys, txPending := keys, pending;
      if inv.operator !in operators {
        return Some(Database);
      }
      if direct {
        if id in keys {
          return Some(Denied);
        }
        var confirmer := if recovery then Some(RECOVERY) else None;
        txKeys := keys[id := KeyRow(inv.operator, inv.createdBy, confirmer, fingerprint, false)];
      } else {
        if id in pending {
          return Some(Denied);
        }
        txPending := pending[id := PendingRow(inv.operator, inv.id, now + PENDING_TTL, fingerprint)];
      }
      r := Write(Event(CredentialRegistered,
                       map[Operateur := inv.operator, InviteId := inv.id, CredentialId := id,
                           Statut := if direct then "active" else "pending_confirmation"]), journalUp);
      if r.None? {
        invites, keys, pending := txInvites, txKeys, txPending;
      }
    }
  }
}
