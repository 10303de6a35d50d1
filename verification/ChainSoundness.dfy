/** Whatever the traversal order and the memo, an accepted key has a finite chain. */
module ChainSoundness {
  import opened ChainSpec

  /** Every accepted key of the memo has a chain of the recorded depth. */
  ghost predicate Sound(g: Registry, memo: Memo)
  {
    forall id | id in memo && memo[id].Ok? :: Derivable(g, id, memo[id].value)
  }

  ghost predicate Outcome(g: Registry, id: KeyId, r: (Verdict, Memo))
  {
    && Sound(g, r.1)
    && (r.0.Ok? ==> Derivable(g, id, r.0.value))
  }

  /** The state of the evidence loop: the signatures already seen have chains of height
      at most `depth`, one of them reaching it. */
  ghost predicate Progress(g: Registry, id: KeyId, c: Confirmation, i: nat, depth: nat, unbound: bool,
                           signers: seq<string>, subs: seq<Derivation>)
  {
    && id in g.creds && i <= |c.evidence| && |signers| == i && |subs| == i && MaxHeight(subs) == depth
    && (forall j | 0 <= j < i :: subs[j].key == c.evidence[j].key && Valid(g, subs[j]))
    && (forall j | 0 <= j < i ::
          && SignatureFault(g, id, c.evidence[j]).None?
          && signers[j] == c.evidence[j].operator
          && (!unbound ==> c.evidence[j].bound))
  }

  lemma {:induction false} CheckSound(g: Registry, id: KeyId, visiting: seq<KeyId>, memo: Memo)
    requires Sound(g, memo)
    ensures Outcome(g, id, Check(g, id, visiting, memo))
    decreases Unvisited(g, visiting), 2
  {
    if id !in memo && id !in visiting {
      CheckUncachedSound(g, id, visiting, memo);
    }
  }

  lemma {:induction false} CheckUncachedSound(g: Registry, id: KeyId, visiting: seq<KeyId>, memo: Memo)
    requires Sound(g, memo) && id !in visiting
    ensures Outcome(g, id, CheckUncached(g, id, visiting, memo))
    decreases Unvisited(g, visiting), 1
  {
    if id !in g.creds {
    } else if AnchorMark(g.creds[id]) {
      if id in g.journal.registeredActive {
        var t := Anchor(id);
        assert Valid(g, t) && t.key == id && Height(t) == 0;
      }
    } else if id in g.confirmations {
      Descends(g, id, visiting);
      CandidatesSound(g, id, g.confirmations[id], visiting + [id], memo, NoCandidate);
    }
  }

  lemma {:induction false} CandidatesSound(g: Registry, id: KeyId, cs: seq<Confirmation>, visiting: seq<KeyId>,
                                           memo: Memo, last: Reason)
    requires Sound(g, memo) && id in g.creds && !AnchorMark(g.creds[id]) && id in g.confirmations
    requires forall c | c in cs :: c in g.confirmations[id]
    ensures Outcome(g, id, CheckCandidates(g, id, cs, visiting, memo, last))
    decreases Unvisited(g, visiting), 4, |cs|
  {
    if cs != [] {
      ConfirmationSound(g, id, cs[0], visiting, memo);
      var (v, m) := CheckConfirmation(g, id, cs[0], visiting, memo);
      if v.Err? {
        CandidatesSound(g, id, cs[1..], visiting, m, v.error);
      }
    }
  }

  lemma {:induction false} ConfirmationSound(g: Registry, id: KeyId, c: Confirmation, visiting: seq<KeyId>, memo: Memo)
    requires Sound(g, memo) && id in g.creds && !AnchorMark(g.creds[id])
    requires id in g.confirmations && c in g.confirmations[id]
    ensures Outcome(g, id, CheckConfirmation(g, id, c, visiting, memo))
    decreases Unvisited(g, visiting), 3, |c.evidence| + 1
  {
    if Preliminary(g, id, c).None? {
      EvidenceSound(g, id, c, visiting, memo, 0, 0, false, [], []);
    }
  }

  /** One more signature, whose key has the derivation `sub`. */
  lemma ProgressOn(g: Registry, id: KeyId, c: Confirmation, i: nat, depth: nat, unbound: bool, signers: seq<string>,
                   subs: seq<Derivation>, sub: Derivation)
    requires Progress(g, id, c, i, depth, unbound, signers, subs) && i < |c.evidence|
    requires SignatureFault(g, id, c.evidence[i]).None? && Valid(g, sub) && sub.key == c.evidence[i].key
    ensures Progress(g, id, c, i + 1, Max(depth, Height(sub)), unbound || !c.evidence[i].bound,
                     signers + [c.evidence[i].operator], subs + [sub])
  {
    assert (subs + [sub])[..i] == subs;
  }

  lemma {:induction false} EvidenceSound(g: Registry, id: KeyId, c: Confirmation, visiting: seq<KeyId>, memo: Memo,
                                         i: nat, depth: nat, unbound: bool, signers: seq<string>, subs: seq<Derivation>)
    requires Sound(g, memo) && id in g.creds && !AnchorMark(g.creds[id])
    requires id in g.confirmations && c in g.confirmations[id] && Preliminary(g, id, c).None?
    requires Progress(g, id, c, i, depth, unbound, signers, subs)
    ensures Outcome(g, id, CheckEvidence(g, id, c, visiting, memo, i, depth, unbound, signers))
    decreases Unvisited(g, visiting), 3, |c.evidence| - i
  {
    if i == |c.evidence| {
      ConcludeSound(g, id, c, depth, unbound, signers, subs);
    } else {
      var e := c.evidence[i];
      if SignatureFault(g, id, e).None? {
        CheckSound(g, e.key, visiting, memo);
        var (v, m) := Check(g, e.key, visiting, memo);
        if v.Ok? {
          var sub: Derivation :| Valid(g, sub) && sub.key == e.key && Height(sub) == v.value;
          ProgressOn(g, id, c, i, depth, unbound, signers, subs, sub);
          EvidenceSound(g, id, c, visiting, m, i + 1, Max(depth, v.value), unbound || !e.bound,
                        signers + [e.operator], subs + [sub]);
        }
      }
    }
  }

  lemma SignersOf(c: Confirmation, signers: seq<string>)
    requires |signers| == |c.evidence| && forall j | 0 <= j < |signers| :: signers[j] == c.evidence[j].operator
    ensures forall s :: s in signers <==> s in Signers(c)
  {
    forall s | s in Signers(c)
      ensures s in signers
    {
      var e :| e in c.evidence && e.operator == s;
      var j :| 0 <= j < |c.evidence| && c.evidence[j] == e;
      assert signers[j] == s;
    }
  }

  lemma ConcludeSound(g: Registry, id: KeyId, c: Confirmation, depth: nat, unbound: bool, signers: seq<string>,
                      subs: seq<Derivation>)
    requires id in g.creds && !AnchorMark(g.creds[id])
    requires id in g.confirmations && c in g.confirmations[id] && Preliminary(g, id, c).None?
    requires Progress(g, id, c, |c.evidence|, depth, unbound, signers, subs)
    ensures Conclude(g, id, c, depth, unbound, signers).Ok? ==> Derivable(g, id, depth + 1)
  {
    if Conclude(g, id, c, depth, unbound, signers).Ok? {
      SignersOf(c, signers);
      var t := Chained(id, c, subs);
      assert c.evidence != [];
      assert forall e | e in c.evidence :: SignatureFault(g, id, e).None? && e.bound;
      assert Admissible(g, id, c);
      assert Valid(g, t) && Height(t) == depth + 1;
    }
  }

  /** Soundness: starting from an empty memo, in any order, each accepted key has a finite
      chain of the reported depth, down to anchors of the journal. */
  lemma {:induction false} AuditSound(g: Registry, order: seq<KeyId>, memo: Memo)
    requires Sound(g, memo) && forall id | id in order :: id in g.creds
    ensures forall r | r in Audit(g, order, memo) :: r.1.Ok? ==> Derivable(g, r.0, r.1.value)
    decreases |order|
  {
    if order != [] {
      if g.creds[order[0]].revoked {
        AuditSound(g, order[1..], memo);
      } else {
        CheckSound(g, order[0], [], memo);
        AuditSound(g, order[1..], Check(g, order[0], [], memo).1);
      }
    }
  }
}
