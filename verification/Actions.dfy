/** The closed list of actions an operator can sign, who may sign each, and the caller's
    expectation that a challenge is checked against. */
module Actions {
  import opened Basics

  datatype Role = Auditeur | RaOperateur | CaOperateur | Admin

  function AsStr(r: Role): string
  {
    match r
    case Auditeur => "auditeur"
    case RaOperateur => "ra_operateur"
    case CaOperateur => "ca_operateur"
    case Admin => "admin"
  }

  function ParseRole(s: string): Option<Role>
  {
    if s == "auditeur" then Some(Auditeur)
    else if s == "ra_operateur" then Some(RaOperateur)
    else if s == "ca_operateur" then Some(CaOperateur)
    else if s == "admin" then Some(Admin)
    else None
  }

  lemma RoleRoundTrip(r: Role, s: string)
    ensures ParseRole(AsStr(r)) == Some(r)
    ensures ParseRole(s).Some? ==> AsStr(ParseRole(s).value) == s
  {
    assert AsStr(Admin)[1] == 'd' && AsStr(Auditeur)[1] == 'u';
    assert AsStr(RaOperateur)[0] == 'r' && AsStr(CaOperateur)[0] == 'c';
  }

  datatype Action =
    | ApproveRequest(transactionId: string, csrFingerprint: Option<string>, comment: string)
    | RejectRequest(transactionId: string, comment: string)
    | InviteOperator(name: string, role: Role, ttlMinutes: int)
    | ConfirmKey(credentialId: string, keyFingerprint: string)
    | RevokeKey(credentialId: string, reason: string)
    | SetRole(operator: string, role: Role)
    | RevokeCertificate(serial: string, code: int, comment: string)
  {
    predicate OnRegistry()
    {
      InviteOperator? || ConfirmKey? || RevokeKey? || SetRole?
    }

    /** `admin` runs the registry and has no right on certificates. */
    function AllowedRoles(): set<Role>
    {
      if OnRegistry() then {Admin}
      else if RevokeCertificate? then {CaOperateur}
      else {RaOperateur, CaOperateur}
    }

    function Kind(): string
    {
      match this
      case ApproveRequest(_, _, _) => "approve_request"
      case RejectRequest(_, _) => "reject_request"
      case InviteOperator(_, _, _) => "invite_operator"
      case ConfirmKey(_, _) => "confirm_key"
      case RevokeKey(_, _) => "revoke_key"
      case SetRole(_, _) => "set_role"
      case RevokeCertificate(_, _, _) => "revoke_certificate"
    }

    /** The frozen target, with the expectation field that names it; an invitation has none. */
    function Target(): Option<(TargetField, string)>
    {
      match this
      case ApproveRequest(id, _, _) => Some((OfTransaction, id))
      case RejectRequest(id, _) => Some((OfTransaction, id))
      case RevokeCertificate(serial, _, _) => Some((OfSerial, serial))
      case ConfirmKey(id, _) => Some((OfCredential, id))
      case RevokeKey(id, _) => Some((OfCredential, id))
      case SetRole(operator, _) => Some((OfOperator, operator))
      case InviteOperator(_, _, _) => None
    }
  }

  datatype TargetField = OfTransaction | OfSerial | OfCredential | OfOperator

  const TARGET_FIELDS: seq<TargetField> := [OfTransaction, OfSerial, OfCredential, OfOperator]

  datatype Refusal =
    | Denied
    | BadRequest
    | NotFound
    | Expired
    | AlreadyUsed
    | StateLost
    | JournalDown
    | BadSignature
    | Database
    | EffectFailed
    | Mismatch

  /** What the caller believes it is having executed. */
  datatype Expect = Expect(action: string, actionId: Option<string>, targets: map<TargetField, string>) {
    /** Any other expectation field must stay empty. */
    predicate Foreign(a: Action)
    {
      exists f | f in TARGET_FIELDS :: f in targets && (a.Target().None? || a.Target().value.0 != f)
    }

    function Check(a: Action, id: string): Option<Refusal>
    {
      if actionId.Some? && actionId.value != id then Some(Mismatch)
      else if action != a.Kind() then Some(Mismatch)
      else if Foreign(a) then Some(BadRequest)
      else if a.Target().None? then None
      else if a.Target().value.0 !in targets then Some(BadRequest)
      else if targets[a.Target().value.0] == a.Target().value.1 then None
      else Some(Mismatch)
    }
  }

  /** The one field an expectation fills for this body. */
  function TargetMap(a: Action): map<TargetField, string>
  {
    match a
    case ApproveRequest(id, _, _) => map[OfTransaction := id]
    case RejectRequest(id, _) => map[OfTransaction := id]
    case RevokeCertificate(serial, _, _) => map[OfSerial := serial]
    case ConfirmKey(id, _) => map[OfCredential := id]
    case RevokeKey(id, _) => map[OfCredential := id]
    case SetRole(operator, _) => map[OfOperator := operator]
    case InviteOperator(_, _, _) => map[]
  }

  /** An expectation lets a body through exactly when it names the body's kind, its target
      in the right field, nothing in the others, and no other action. It is ill-formed exactly
      when, for this kind and action, it fills other fields than the target's. */
  lemma ExpectIsExact(e: Expect, a: Action, id: string)
    ensures var aims := e.action == a.Kind() && (e.actionId.Some? ==> e.actionId.value == id);
            && (e.Check(a, id).None? <==> aims && e.targets == TargetMap(a))
            && (e.Check(a, id) == Some(BadRequest) <==> aims && e.targets.Keys != TargetMap(a).Keys)
            && (e.Check(a, id).Some? ==> e.Check(a, id).value in {BadRequest, Mismatch})
  {
    forall f: TargetField
      ensures f in TARGET_FIELDS
    {
      assert f == TARGET_FIELDS[0] || f == TARGET_FIELDS[1] || f == TARGET_FIELDS[2] || f == TARGET_FIELDS[3];
    }
    if e.Check(a, id).None? {
      assert e.targets.Keys == TargetMap(a).Keys;
    }
  }

  /** Length and first letter tell the kinds apart. */
  lemma KindsDiffer(a: Action, b: Action)
    requires a.Kind() == b.Kind()
    ensures a.ApproveRequest? == b.ApproveRequest? && a.RejectRequest? == b.RejectRequest?
    ensures a.InviteOperator? == b.InviteOperator? && a.ConfirmKey? == b.ConfirmKey? && a.RevokeKey? == b.RevokeKey?
    ensures a.SetRole? == b.SetRole? && a.RevokeCertificate? == b.RevokeCertificate?
  {
    assert a.Kind()[0] == b.Kind()[0] && |a.Kind()| == |b.Kind()|;
  }

  /** No expectation lets two bodies through that differ in kind or in target. */
  lemma ExpectPinsTarget(e: Expect, a: Action, b: Action, i: string, j: string)
    requires e.Check(a, i).None? && e.Check(b, j).None?
    ensures a.Kind() == b.Kind() && TargetMap(a) == TargetMap(b) && (e.actionId.Some? ==> i == j)
    ensures a.ApproveRequest? ==> b.ApproveRequest? && b.transactionId == a.transactionId
    ensures a.RejectRequest? ==> b.RejectRequest? && b.transactionId == a.transactionId
    ensures a.RevokeCertificate? ==> b.RevokeCertificate? && b.serial == a.serial
    ensures a.ConfirmKey? ==> b.ConfirmKey? && b.credentialId == a.credentialId
    ensures a.RevokeKey? ==> b.RevokeKey? && b.credentialId == a.credentialId
    ensures a.SetRole? ==> b.SetRole? && b.operator == a.operator
  {
    ExpectIsExact(e, a, i);
    ExpectIsExact(e, b, j);
    KindsDiffer(a, b);
    if !a.InviteOperator? {
      var f :| f in TargetMap(a);
      assert TargetMap(a)[f] == TargetMap(b)[f];
    }
  }
}
