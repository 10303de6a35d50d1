/** The registry audit: every active key must reach, through signed confirmations,
    an anchor that the chained journal attests. `ChainSpec` defines the memoised
    search as a function and `ChainAudit` runs it with its stack and its memo in place. */
module ChainSpec {
  import opened Basics
  import opened Marks

  type KeyId = string

  /** A registry key. `fingerprint` is `None` when the stored key cannot be read. */
  datatype Cred = Cred(operator: string, initiatedBy: string, confirmedBy: Option<string>,
                       fingerprint: Option<string>, revoked: bool)

  /** A stored signature. `verified` is the outcome of re-checking it against the
      signer's key, `bound` whether its challenge derives from the action's body. */
  datatype Evidence = Evidence(key: KeyId, operator: string, verified: bool, bound: bool)

  datatype Body = Unreadable | OtherAction | ConfirmKey(target: KeyId, fingerprint: string)

  /** An executed confirmation. `intact`: the body still matches the stored hash. */
  datatype Confirmation = Confirmation(actionId: string, body: Body, intact: bool, bodyHash: string,
                                       required: nat, evidence: seq<Evidence>)

  /** What the chained journal attests. */
  datatype JournalView = JournalView(registeredActive: set<KeyId>, confirmed: set<KeyId>, issued: map<string, string>)

  datatype Registry = Registry(creds: map<KeyId, Cred>, confirmations: map<KeyId, seq<Confirmation>>,
                               journal: JournalView)

  datatype Reason =
    | Cycle
    | UnknownKey
    | UnattestedAnchor
    | NoConfirmation
    | NoCandidate
    | UnreadableBody
    | AlteredBody
    | NotAConfirmation
    | UnreadableKey
    | WrongFingerprint
    | TooFewSigners
    | UnknownSigner
    | WrongOwner
    | SelfConfirmed
    | BadSignature
    | NoChain(operator: string, because: Reason)
    | DiffersFromJournal
    | NotInJournal
    | Unbound
    | ConfirmerDidNotSign
    | ConfirmationNotInJournal

  type Verdict = Result<nat, Reason>
  type Memo = map<KeyId, Verdict>

  predicate AnchorMark(cred: Cred)
  {
    Direct(cred.initiatedBy)
  }

  function Signers(c: Confirmation): set<string>
  {
    set e | e in c.evidence :: e.operator
  }

  // ---- What a chain is ----

  /** A finite proof that a key belongs in the registry. */
  datatype Derivation =
    | Anchor(key: KeyId)
    | Chained(key: KeyId, step: Confirmation, signers: seq<Derivation>)

  /** A confirmation that commits to this very key, with enough distinct operators other
      than its owner, each signature verified, all of it attested by the journal. */
  ghost predicate Admissible(g: Registry, id: KeyId, c: Confirmation)
  {
    && id in g.creds
    && c.intact && c.body.ConfirmKey? && c.body.target == id && Some(c.body.fingerprint) == g.creds[id].fingerprint
    && c.evidence != [] && c.required <= |Signers(c)|
    && (forall e | e in c.evidence ::
          && e.key in g.creds && g.creds[e.key].operator == e.operator
          && e.operator != g.creds[id].operator && e.verified && e.bound)
    && c.actionId in g.journal.issued && g.journal.issued[c.actionId] == c.bodyHash
    && g.creds[id].confirmedBy.Some? && g.creds[id].confirmedBy.value in Signers(c)
    && id in g.journal.confirmed
  }

  ghost predicate Valid(g: Registry, t: Derivation)
  {
    && t.key in g.creds
    && match t
       case Anchor(key) => AnchorMark(g.creds[key]) && key in g.journal.registeredActive
       case Chained(key, c, signers) =>
         && !AnchorMark(g.creds[key])
         && key in g.confirmations && c in g.confirmations[key] && Admissible(g, key, c)
         && |signers| == |c.evidence|
         && forall i | 0 <= i < |signers| :: signers[i].key == c.evidence[i].key && Valid(g, signers[i])
  }

  function Max(a: nat, b: nat): nat { if a < b then b else a }

  function Height(t: Derivation): nat
  {
    match t
    case Anchor(_) => 0
    case Chained(_, _, signers) => 1 + MaxHeight(signers)
  }

  function MaxHeight(ts: seq<Derivation>): nat
  {
    if ts == [] then 0 else Max(MaxHeight(ts[..|ts| - 1]), Height(ts[|ts| - 1]))
  }

  ghost predicate Derivable(g: Registry, id: KeyId, depth: nat)
  {
    exists t :: Valid(g, t) && t.key == id && Height(t) == depth
  }

  // ---- The memoised depth-first search ----

  function Unvisited(g: Registry, visiting: seq<KeyId>): nat
  {
    |g.creds.Keys - set k | k in visiting|
  }

  function Check(g: Registry, id: KeyId, visiting: seq<KeyId>, memo: Memo): (Verdict, Memo)
    decreases Unvisited(g, visiting), 2
  {
    if id in memo then (memo[id], memo)
    else if id in visiting then (Err(Cycle), memo)
    else
      var (v, m) := CheckUncached(g, id, visiting, memo);
      (v, m[id := v])
  }

  function CheckUncached(g: Registry, id: KeyId, visiting: seq<KeyId>, memo: Memo): (Verdict, Memo)
    requires id !in visiting
    decreases Unvisited(g, visiting), 1
  {
    if id !in g.creds then (Err(UnknownKey), memo)
    else if AnchorMark(g.creds[id]) then
      (if id in g.journal.registeredActive then Ok(0) else Err(UnattestedAnchor), memo)
    else if id !in g.confirmations then (Err(NoConfirmation), memo)
    else
      Descends(g, id, visiting);
      CheckCandidates(g, id, g.confirmations[id], visiting + [id], memo, NoCandidate)
  }

  lemma Descends(g: Registry, id: KeyId, visiting: seq<KeyId>)
    requires id in g.creds && id !in visiting
    ensures Unvisited(g, visiting + [id]) < Unvisited(g, visiting)
  {
    var before := g.creds.Keys - set k | k in visiting;
    assert g.creds.Keys - (set k | k in visiting + [id]) == before - {id};
    assert id in before;
  }

  /** The first candidate that stands; otherwise the last reason met. */
  function CheckCandidates(g: Registry, id: KeyId, cs: seq<Confirmation>, visiting: seq<KeyId>, memo: Memo,
                           last: Reason)
    : (Verdict, Memo)
    requires id in g.creds
    decreases Unvisited(g, visiting), 4, |cs|
  {
    if cs == [] then (Err(last), memo)
    else
      var (v, m) := CheckConfirmation(g, id, cs[0], visiting, memo);
      if v.Ok? then (v, m) else CheckCandidates(g, id, cs[1..], visiting, m, v.error)
  }

  /** The checks made before any signer is looked at. */
  function Preliminary(g: Registry, id: KeyId, c: Confirmation): Option<Reason>
    requires id in g.creds
  {
    if c.body.Unreadable? then Some(UnreadableBody)
    else if !c.intact then Some(AlteredBody)
    else if !c.body.ConfirmKey? then Some(NotAConfirmation)
    else if g.creds[id].fingerprint.None? then Some(UnreadableKey)
    else if c.body.target != id || c.body.fingerprint != g.creds[id].fingerprint.value then Some(WrongFingerprint)
    else if Signers(c) == {} || |Signers(c)| < c.required then Some(TooFewSigners)
    else None
  }

  /** The checks on one signature, short of the signer's own chain. */
  function SignatureFault(g: Registry, id: KeyId, e: Evidence): Option<Reason>
    requires id in g.creds
  {
    if e.key !in g.creds then Some(UnknownSigner)
    else if g.creds[e.key].operator != e.operator then Some(WrongOwner)
    else if g.creds[e.key].operator == g.creds[id].operator then Some(SelfConfirmed)
    else if !e.verified then Some(BadSignature)
    else None
  }

  /** The checks made once every signer has a chain. */
  function Conclude(g: Registry, id: KeyId, c: Confirmation, depth: nat, unbound: bool, signers: seq<string>): Verdict
    requires id in g.creds
  {
    if c.actionId !in g.journal.issued then Err(NotInJournal)
    else if g.journal.issued[c.actionId] != c.bodyHash then Err(DiffersFromJournal)
    else if unbound then Err(Unbound)
    else if g.creds[id].confirmedBy.None? || g.creds[id].confirmedBy.value !in signers then Err(ConfirmerDidNotSign)
    else if id !in g.journal.confirmed then Err(ConfirmationNotInJournal)
    else Ok(depth + 1)
  }

  function CheckConfirmation(g: Registry, id: KeyId, c: Confirmation, visiting: seq<KeyId>, memo: Memo): (Verdict, Memo)
    requires id in g.creds
    decreases Unvisited(g, visiting), 3, |c.evidence| + 1
  {
    if Preliminary(g, id, c).Some? then (Err(Preliminary(g, id, c).value), memo)
    else CheckEvidence(g, id, c, visiting, memo, 0, 0, false, [])
  }

  function CheckEvidence(g: Registry, id: KeyId, c: Confirmation, visiting: seq<KeyId>, memo: Memo,
                         i: nat, depth: nat, unbound: bool, signers: seq<string>): (Verdict, Memo)
    requires id in g.creds && i <= |c.evidence|
    decreases Unvisited(g, visiting), 3, |c.evidence| - i
  {
    if i == |c.evidence| then (Conclude(g, id, c, depth, unbound, signers), memo)
    else
      var e := c.evidence[i];
      if SignatureFault(g, id, e).Some? then (Err(SignatureFault(g, id, e).value), memo)
      else
        var (v, m) := Check(g, e.key, visiting, memo);
        if v.Err? then (Err(NoChain(e.operator, v.error)), m)
        else CheckEvidence(g, id, c, visiting, m, i + 1, Max(depth, v.value), unbound || !e.bound,
                           signers + [e.operator])
  }

  /** The whole audit, in the order given: revoked keys are skipped, the memo carried along. */
  function Audit(g: Registry, order: seq<KeyId>, memo: Memo): seq<(KeyId, Verdict)>
    requires forall id | id in order :: id in g.creds
  {
    if order == [] then []
    else if g.creds[order[0]].revoked then Audit(g, order[1..], memo)
    else
      var (v, m) := Check(g, order[0], [], memo);
      [(order[0], v)] + Audit(g, order[1..], m)
  }
}
