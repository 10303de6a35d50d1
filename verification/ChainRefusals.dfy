/** What the audit says of a key it refuses is true of the registry, down through the signers
    it blames; and it reports on the keys in force, each in its turn, whatever it found before. */
module ChainRefusals {
  import opened ChainSpec
  import Basics
  import ChainExactness

  /** The reason is true of the key: what it is said to lack it lacks, or some confirmation of
      it has that flaw. A cycle is one of confirmations. */
  ghost predicate Rightly(g: Registry, id: KeyId, reason: Reason)
    decreases reason, 1
  {
    match reason
    case Cycle => ChainExactness.Leads(g, id, id)
    case UnknownKey => id !in g.creds
    case UnattestedAnchor => id in g.creds && AnchorMark(g.creds[id]) && id !in g.journal.registeredActive
    case NoConfirmation => id in g.creds && !AnchorMark(g.creds[id]) && id !in g.confirmations
    case NoCandidate => id in g.confirmations && g.confirmations[id] == []
    case _ =>
      && id in g.creds && !AnchorMark(g.creds[id]) && id in g.confirmations
      && exists c | c in g.confirmations[id] :: Flawed(g, id, c, reason)
  }

  ghost predicate Flawed(g: Registry, id: KeyId, c: Confirmation, reason: Reason)
    requires id in g.creds
    decreases reason, 0
  {
    match reason
    case UnreadableBody => c.body.Unreadable?
    case AlteredBody => !c.body.Unreadable? && !c.intact
    case NotAConfirmation => c.body.OtherAction?
    case UnreadableKey => g.creds[id].fingerprint.None?
    case WrongFingerprint =>
      c.body.ConfirmKey? && (c.body.target != id || g.creds[id].fingerprint != Basics.Some(c.body.fingerprint))
    case TooFewSigners => c.evidence == [] || |Signers(c)| < c.required
    case UnknownSigner => exists e | e in c.evidence :: e.key !in g.creds
    case WrongOwner => exists e | e in c.evidence :: e.key in g.creds && g.creds[e.key].operator != e.operator
    case SelfConfirmed =>
      exists e | e in c.evidence :: e.key in g.creds && g.creds[e.key].operator == g.creds[id].operator
    case BadSignature => exists e | e in c.evidence :: !e.verified
    case NoChain(operator, because) =>
      exists e | e in c.evidence :: e.operator == operator && Rightly(g, e.key, because)
    case NotInJournal => c.actionId !in g.journal.issued
    case DiffersFromJournal => c.actionId in g.journal.issued && g.journal.issued[c.actionId] != c.bodyHash
    case Unbound => exists e | e in c.evidence :: !e.bound
    case ConfirmerDidNotSign => g.creds[id].confirmedBy.None? || g.creds[id].confirmedBy.value !in Signers(c)
    case ConfirmationNotInJournal => id !in g.journal.confirmed
    case _ => false
  }

  ghost predicate Told(g: Registry, id: KeyId, v: Verdict)
  {
    v.Err? ==> Rightly(g, id, v.error)
  }

  ghost predicate AllTold(g: Registry, memo: Memo)
  {
    forall id | id in memo :: Told(g, id, memo[id])
  }

  /** The stack while the confirmations of `id` are examined. */
  ghost predicate Examining(g: Registry, id: KeyId, visiting: seq<KeyId>)
  {
    && id in g.creds && !AnchorMark(g.creds[id]) && id in g.confirmations
    && |visiting| > 0 && visiting[|visiting| - 1] == id && ChainExactness.Stacked(g, visiting[..|visiting| - 1], id)
  }

  lemma {:induction false} CheckTold(g: Registry, id: KeyId, visiting: seq<KeyId>, memo: Memo)
    requires AllTold(g, memo) && ChainExactness.Stacked(g, visiting, id)
    ensures var r := Check(g, id, visiting, memo); Told(g, id, r.0) && AllTold(g, r.1)
    decreases Unvisited(g, visiting), 2, 0
  {
    if id !in memo {
      if id in visiting {
        var i :| 0 <= i < |visiting| && visiting[i] == id;
        ChainExactness.StackLeads(g, visiting, id, i);
      } else {
        CheckUncachedTold(g, id, visiting, memo);
      }
    }
  }

  lemma {:induction false} CheckUncachedTold(g: Registry, id: KeyId, visiting: seq<KeyId>, memo: Memo)
    requires AllTold(g, memo) && ChainExactness.Stacked(g, visiting, id) && id !in visiting
    ensures var r := CheckUncached(g, id, visiting, memo); Told(g, id, r.0) && AllTold(g, r.1)
    decreases Unvisited(g, visiting), 1
  {
    if id in g.creds && !AnchorMark(g.creds[id]) && id in g.confirmations {
      Descends(g, id, visiting);
      assert (visiting + [id])[..|visiting|] == visiting;
      CandidatesTold(g, id, g.confirmations[id], visiting + [id], memo, NoCandidate);
    }
  }

  /** The last reason is of a confirmation already seen, if any was. */
  lemma {:induction false} CandidatesTold(g: Registry, id: KeyId, cs: seq<Confirmation>, visiting: seq<KeyId>,
                                          memo: Memo, last: Reason)
    requires Examining(g, id, visiting) && AllTold(g, memo) && forall c | c in cs :: c in g.confirmations[id]
    requires if last == NoCandidate then cs == g.confirmations[id] else Rightly(g, id, last)
    ensures var r := CheckCandidates(g, id, cs, visiting, memo, last); Told(g, id, r.0) && AllTold(g, r.1)
    decreases Unvisited(g, visiting), 4, |cs|
  {
    if cs != [] {
      ConfirmationTold(g, id, cs[0], visiting, memo);
      var (v, m) := CheckConfirmation(g, id, cs[0], visiting, memo);
      if v.Err? {
        FlawIsRight(g, id, cs[0], v.error);
        CandidatesTold(g, id, cs[1..], visiting, m, v.error);
      }
    }
  }

  lemma FlawIsRight(g: Registry, id: KeyId, c: Confirmation, reason: Reason)
    requires id in g.creds && !AnchorMark(g.creds[id]) && id in g.confirmations && c in g.confirmations[id]
    requires Flawed(g, id, c, reason)
    ensures Rightly(g, id, reason) && reason != NoCandidate
  {
  }

  lemma {:induction false} ConfirmationTold(g: Registry, id: KeyId, c: Confirmation, visiting: seq<KeyId>, memo: Memo)
    requires Examining(g, id, visiting) && AllTold(g, memo) && c in g.confirmations[id]
    ensures var r := CheckConfirmation(g, id, c, visiting, memo);
            (r.0.Err? ==> Flawed(g, id, c, r.0.error)) && AllTold(g, r.1)
    decreases Unvisited(g, visiting), 3, |c.evidence| + 1
  {
    PreliminaryTold(g, id, c);
    if Preliminary(g, id, c).None? {
      EvidenceTold(g, id, c, visiting, memo, 0, 0, false, []);
    }
  }

  lemma PreliminaryTold(g: Registry, id: KeyId, c: Confirmation)
    requires id in g.creds
    ensures Preliminary(g, id, c).Some? ==> Flawed(g, id, c, Preliminary(g, id, c).value)
  {
    if c.evidence != [] {
      assert c.evidence[0].operator in Signers(c);
    }
  }

  lemma FaultTold(g: Registry, id: KeyId, c: Confirmation, e: Evidence)
    requires id in g.creds && e in c.evidence
    ensures SignatureFault(g, id, e).Some? ==> Flawed(g, id, c, SignatureFault(g, id, e).value)
  {
  }

  /** The signers seen so far, and whether one of them was unbound. */
  ghost predicate SeenSo(c: Confirmation, i: nat, unbound: bool, signers: seq<string>)
  {
    && i <= |c.evidence| && |signers| == i && (forall j | 0 <= j < i :: signers[j] == c.evidence[j].operator)
    && (unbound ==> exists e | e in c.evidence :: !e.bound)
  }

  lemma SeenOn(c: Confirmation, i: nat, unbound: bool, signers: seq<string>)
    requires SeenSo(c, i, unbound, signers) && i < |c.evidence|
    ensures SeenSo(c, i + 1, unbound || !c.evidence[i].bound, signers + [c.evidence[i].operator])
  {
    assert c.evidence[i] in c.evidence;
  }

  lemma {:induction false} SignerTold(g: Registry, id: KeyId, c: Confirmation, visiting: seq<KeyId>, memo: Memo,
                                      e: Evidence)
    requires Examining(g, id, visiting) && AllTold(g, memo) && c in g.confirmations[id] && e in c.evidence
    ensures var r := Check(g, e.key, visiting, memo);
            (r.0.Err? ==> Flawed(g, id, c, NoChain(e.operator, r.0.error))) && AllTold(g, r.1)
    decreases Unvisited(g, visiting), 2, 1
  {
    assert ChainExactness.Calls(g, id, e.key);
    ChainExactness.StackedPush(g, visiting, id, e.key);
    CheckTold(g, e.key, visiting, memo);
  }

  lemma {:induction false} EvidenceTold(g: Registry, id: KeyId, c: Confirmation, visiting: seq<KeyId>, memo: Memo,
                                        i: nat, depth: nat, unbound: bool, signers: seq<string>)
    requires Examining(g, id, visiting) && AllTold(g, memo) && c in g.confirmations[id]
    requires SeenSo(c, i, unbound, signers)
    ensures var r := CheckEvidence(g, id, c, visiting, memo, i, depth, unbound, signers);
            (r.0.Err? ==> Flawed(g, id, c, r.0.error)) && AllTold(g, r.1)
    decreases Unvisited(g, visiting), 3, |c.evidence| - i
  {
    if i == |c.evidence| {
      ConcludeTold(g, id, c, depth, unbound, signers);
    } else {
      var e := c.evidence[i];
      assert e in c.evidence;
      FaultTold(g, id, c, e);
      if SignatureFault(g, id, e).None? {
        SignerTold(g, id, c, visiting, memo, e);
        var (v, m) := Check(g, e.key, visiting, memo);
        if v.Ok? {
          SeenOn(c, i, unbound, signers);
          EvidenceTold(g, id, c, visiting, m, i + 1, Max(depth, v.value), unbound || !e.bound, signers + [e.operator]);
        }
      }
    }
  }

  lemma ConcludeTold(g: Registry, id: KeyId, c: Confirmation, depth: nat, unbound: bool, signers: seq<string>)
    requires id in g.creds && SeenSo(c, |c.evidence|, unbound, signers)
    ensures var v := Conclude(g, id, c, depth, unbound, signers); v.Err? ==> Flawed(g, id, c, v.error)
  {
    forall s | s in Signers(c)
      ensures s in signers
    {
      var e :| e in c.evidence && e.operator == s;
      var j :| 0 <= j < |c.evidence| && c.evidence[j] == e;
      assert signers[j] == s;
    }
  }

  // ---- The whole audit ----

  function InForce(g: Registry, order: seq<KeyId>): seq<KeyId>
    requires forall id | id in order :: id in g.creds
  {
    if order == [] then []
    else (if g.creds[order[0]].revoked then [] else [order[0]]) + InForce(g, order[1..])
  }

  function Audited(reports: seq<(KeyId, Verdict)>): seq<KeyId>
  {
    if reports == [] then [] else [reports[0].0] + Audited(reports[1..])
  }

  /** In any order, and whatever was found before: each key in force is reported, none else,
      and a refusal is for a reason that is true of the key. */
  lemma {:induction false} RefusesRightly(g: Registry, order: seq<KeyId>, memo: Memo)
    requires AllTold(g, memo) && forall id | id in order :: id in g.creds
    ensures Audited(Audit(g, order, memo)) == InForce(g, order)
    ensures forall r | r in Audit(g, order, memo) :: r.1.Err? ==> Rightly(g, r.0, r.1.error)
    decreases |order|
  {
    if order != [] {
      if g.creds[order[0]].revoked {
        RefusesRightly(g, order[1..], memo);
      } else {
        CheckTold(g, order[0], [], memo);
        var (v, m) := Check(g, order[0], [], memo);
        RefusesRightly(g, order[1..], m);
        assert Audit(g, order, memo)[1..] == Audit(g, order[1..], m);
      }
    }
  }
}
