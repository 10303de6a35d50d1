/** The signed-action protocol: a body is frozen, challenges are issued on it, signatures
    accumulate, and at the threshold it is executed. Each function here is one atomic stretch
    of a call: reads, or one database transaction, or one journal write, or the effect.
    Signature verification and the state of certificate requests are answers given to it. */
module SignedActions {
  import opened Basics
  import opened Actions
  import opened Journal
  import opened Registry

  const QUORUM_WINDOW := 24 * 60 * MINUTE

  /** `hash` is the digest of the body, as it was computed when the body was frozen. */
  datatype ActionRow = ActionRow(body: Action, hash: string, expiresAt: int, required: nat, executed: bool)

  datatype ChallengeRow = ChallengeRow(action: string, hint: string, expiresAt: int, consumed: bool)

  datatype Evidence = Evidence(challenge: string, action: string, operator: string, credential: string)

  datatype Tables = Tables(registry: Db, actions: map<string, ActionRow>, challenges: map<string, ChallengeRow>,
                           evidence: seq<Evidence>)

  // ---- Policy ----

  /** Signatures of distinct operators that the action requires now; `twoPerson` says whether
      the request it approves has a profile under dual control. */
  function RequiredSignatures(db: Db, a: Action, twoPerson: bool): nat
  {
    match a
    case RevokeCertificate(_, _, _) => QUORUM
    case ApproveRequest(_, _, _) => if twoPerson then QUORUM else 1
    case InviteOperator(_, role, _) => if role == Admin then QUORUM else 1
    case SetRole(operator, role) =>
      if role == Admin then QUORUM
      else if operator in db.operators && db.operators[operator].role == ADMIN then QUORUM
      else 1
    case _ => 1
  }

  predicate Allowed(a: Action, role: string)
  {
    ParseRole(role).Some? && ParseRole(role).value in a.AllowedRoles()
  }

  predicate HasActiveKey(db: Db, name: string)
  {
    exists id | id in db.keys :: db.keys[id].owner == name && !db.keys[id].revoked
  }

  /** Those who could sign: not disabled, in the role, with an unrevoked key. */
  function Holders(db: Db, a: Action): set<string>
  {
    set name | name in db.operators && Allowed(a, db.operators[name].role) && !db.operators[name].disabled
               && HasActiveKey(db, name)
  }

  predicate Eligible(db: Db, name: string, a: Action)
  {
    name in db.operators && !db.operators[name].disabled && Allowed(a, db.operators[name].role)
  }

  /** The state of the target now: for the registry, the action itself, played dry. */
  function CheckAction(db: Db, a: Action, actor: string, required: nat, draw: Draw, target: Option<Refusal>)
    : Option<Refusal>
  {
    if !a.OnRegistry() then target
    else if PlayAction(db, a, actor, required, draw).Err? then Some(PlayAction(db, a, actor, required, draw).error)
    else None
  }

  // ---- Issuing ----

  /** What `issue_challenge` reads before it writes: the signatures to freeze on the action. */
  function IssueChecks(db: Db, a: Action, hint: string, twoPerson: bool, draw: Draw, target: Option<Refusal>)
    : Result<nat, Refusal>
  {
    var required := RequiredSignatures(db, a, twoPerson);
    if !Eligible(db, hint, a) then Err(Denied)
    else if required > 1 && |Holders(db, a)| < required then Err(Denied)
    else if CheckAction(db, a, hint, required, draw, target).Some?
    then Err(CheckAction(db, a, hint, required, draw, target).value)
    else if !HasActiveKey(db, hint) then Err(Denied)
    else Ok(required)
  }

  function Window(required: nat): int
  {
    if required > 1 then QUORUM_WINDOW else CHALLENGE_TTL
  }

  function IssuedEvent(action: string, challenge: string, hash: string): Event
  {
    Event(ActionChallengeIssued, map[ActionId := action, ChallengeId := challenge, BodyHash := hash])
  }

  function Frozen(t: Tables, a: Action, hash: string, hint: string, required: nat, now: int,
                  action: string, challenge: string): Tables
  {
    var expires := now + Window(required);
    t.(actions := t.actions[action := ActionRow(a, hash, expires, required, false)],
       challenges := t.challenges[challenge := ChallengeRow(action, hint, Min(now + CHALLENGE_TTL, expires), false)])
  }

  /** What `issue_challenge_for` reads: the action is frozen, alive, and not yet signed by
      this operator. */
  function CosignChecks(t: Tables, action: string, hint: string, draw: Draw, target: Option<Refusal>): Option<Refusal>
  {
    if action !in t.actions then Some(NotFound)
    else if t.actions[action].executed then Some(AlreadyUsed)
    else if draw.now > t.actions[action].expiresAt then Some(Expired)
    else if !Eligible(t.registry, hint, t.actions[action].body) then Some(Denied)
    else if exists e | e in t.evidence :: e.action == action && e.operator == hint then Some(Denied)
    else if CheckAction(t.registry, t.actions[action].body, hint, t.actions[action].required, draw, target).Some?
    then CheckAction(t.registry, t.actions[action].body, hint, t.actions[action].required, draw, target)
    else if !HasActiveKey(t.registry, hint) then Some(Denied)
    else None
  }

  function Cosigned(t: Tables, action: string, hint: string, now: int, challenge: string): Tables
    requires action in t.actions
  {
    var expires := Min(now + CHALLENGE_TTL, t.actions[action].expiresAt);
    t.(challenges := t.challenges[challenge := ChallengeRow(action, hint, expires, false)])
  }

  // ---- Executing ----

  /** A ceremony taken out of memory, with the frozen action its challenge was issued for. */
  datatype Held = Held(challenge: string, action: string, body: Action, required: nat, now: int)

  /** Before anything is consumed: the challenge is alive and the body is the expected one. */
  function TakeChecks(t: Tables, ceremonies: set<string>, challenge: string, wanted: Option<Expect>, now: int)
    : Result<Held, Refusal>
  {
    if challenge !in t.challenges || t.challenges[challenge].action !in t.actions then Err(NotFound)
    else
      var c, a := t.challenges[challenge], t.actions[t.challenges[challenge].action];
      if c.consumed || a.executed then Err(AlreadyUsed)
      else if now > c.expiresAt || now > a.expiresAt then Err(Expired)
      else if wanted.Some? && wanted.value.Check(a.body, c.action).Some?
      then Err(wanted.value.Check(a.body, c.action).value)
      else if challenge !in ceremonies then Err(StateLost)
      else Ok(Held(challenge, c.action, a.body, a.required, now))
  }

  /** A verified assertion: the operator is the owner of the key that signed. */
  datatype Checked = Checked(held: Held, operator: string, credential: string)

  function SignerChecks(db: Db, h: Held, credential: string, valid: bool, draw: Draw, target: Option<Refusal>)
    : Result<Checked, Refusal>
  {
    if credential !in db.keys || db.keys[credential].revoked then Err(Denied)
    else
      var operator := db.keys[credential].owner;
      if !Eligible(db, operator, h.body) then Err(Denied)
      else if !valid then Err(BadSignature)
      else if CheckAction(db, h.body, operator, h.required, draw, target).Some?
      then Err(CheckAction(db, h.body, operator, h.required, draw, target).value)
      else Ok(Checked(h, operator, credential))
  }

  /** A signer still entitled: enabled, with an unrevoked key and an allowed role. */
  predicate Entitled(db: Db, a: Action, e: Evidence)
  {
    && e.operator in db.operators && !db.operators[e.operator].disabled && Allowed(a, db.operators[e.operator].role)
    && e.credential in db.keys && !db.keys[e.credential].revoked
  }

  /** The evidence on one action whose operator and key are in the registry. */
  function SignersOf(db: Db, evidence: seq<Evidence>, action: string): seq<Evidence>
  {
    if evidence == [] then []
    else
      var e := evidence[|evidence| - 1];
      SignersOf(db, evidence[..|evidence| - 1], action)
      + (if e.action == action && e.operator in db.operators && e.credential in db.keys then [e] else [])
  }

  datatype Verdict = Refused(why: Refusal) | Signed(signatures: nat) | Reached(signers: seq<Evidence>)

  datatype Transacted = Transacted(tables: Tables, journal: seq<Event>, verdict: Verdict)

  function SignedEvent(k: Checked): Event
  {
    Event(ActionSigned, map[ActionId := k.held.action, ChallengeId := k.held.challenge, Operateur := k.operator,
                            CredentialId := k.credential])
  }

  function ExecutedEvent(k: Checked): Event
  {
    Event(ActionExecuted, map[ActionId := k.held.action, ChallengeId := k.held.challenge, Operateur := k.operator,
                              CredentialId := k.credential])
  }

  function EvidenceOf(k: Checked): Evidence
  {
    Evidence(k.held.challenge, k.held.action, k.operator, k.credential)
  }

  /** The evidence table refuses the row: its challenge, or its operator on that action, is
      already there. */
  predicate Duplicate(evidence: seq<Evidence>, e: Evidence)
  {
    exists f | f in evidence :: f.challenge == e.challenge || (f.action == e.action && f.operator == e.operator)
  }

  /** The challenge consumed and the evidence added. */
  function Consumed(t: Tables, k: Checked): Tables
    requires k.held.challenge in t.challenges
  {
    t.(challenges := t.challenges[k.held.challenge := t.challenges[k.held.challenge].(consumed := true)],
       evidence := t.evidence + [EvidenceOf(k)])
  }

  function MarkExecuted(t: Tables, action: string): Tables
    requires action in t.actions
  {
    t.(actions := t.actions[action := t.actions[action].(executed := true)])
  }

  /** The locked transaction: signatures of one action come one at a time. */
  function Transact(t: Tables, journal: seq<Event>, k: Checked, up: bool): Transacted
  {
    var h, e := k.held, EvidenceOf(k);
    if h.action !in t.actions || t.actions[h.action].executed then Transacted(t, journal, Refused(AlreadyUsed))
    else if h.challenge !in t.challenges || t.challenges[h.challenge].consumed
    then Transacted(t, journal, Refused(AlreadyUsed))
    else if Duplicate(t.evidence, e) then Transacted(t, journal, Refused(Denied))
    else if e.operator !in t.registry.operators || e.credential !in t.registry.keys
    then Transacted(t, journal, Refused(Database))
    else
      var next := Consumed(t, k);
      var signers := SignersOf(t.registry, next.evidence, h.action);
      if |signers| < h.required then
        if !up then Transacted(t, journal, Refused(JournalDown))
        else Transacted(next, journal + [SignedEvent(k)], Signed(|signers|))
      else if exists s | s in signers :: !Entitled(t.registry, h.body, s)
      then Transacted(t, journal, Refused(Denied))
      else Transacted(MarkExecuted(next, h.action), journal, Reached(signers))
  }

  /** The effect: the frozen body, run against the registry of that moment; for an action
      outside the registry the answer comes from the certificate side. */
  function Effect(db: Db, journal: seq<Event>, k: Checked, drawn: string, up: bool, target: Option<Refusal>)
    : (World, Option<Refusal>)
  {
    if k.held.body.OnRegistry()
    then Commit(World(db, journal), PlayAction(db, k.held.body, k.operator, k.held.required, Draw(drawn, k.held.now)),
                up)
    else (World(db, journal), target)
  }
}
