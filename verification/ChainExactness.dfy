/** The search is exact, in any order, as long as no key with two executed confirmations
    lies on a cycle of confirmations; with such a key it need not be. */
module ChainExactness {
  import opened Basics
  import opened ChainSpec
  import opened Marks
  import ChainSoundness

  ghost predicate SingleConfirmations(g: Registry)
  {
    forall id | id in g.confirmations :: |g.confirmations[id]| <= 1
  }

  ghost predicate HasChain(g: Registry, id: KeyId)
  {
    exists t :: Valid(g, t) && t.key == id
  }

  /** The verdict says exactly whether the key has a chain, and how deep it is. */
  ghost predicate Exact(g: Registry, id: KeyId, v: Verdict)
  {
    match v
    case Ok(depth) => Derivable(g, id, depth)
    case Err(_) => !HasChain(g, id)
  }

  ghost predicate ExactMemo(g: Registry, memo: Memo)
  {
    forall id | id in memo :: Exact(g, id, memo[id])
  }

  /** `b` signed a confirmation of `a`. */
  ghost predicate Calls(g: Registry, a: KeyId, b: KeyId)
  {
    && a in g.creds && !AnchorMark(g.creds[a]) && a in g.confirmations
    && exists c, e :: c in g.confirmations[a] && e in c.evidence && e.key == b
  }

  /** `b` signed the only confirmation that can bring `a` in. */
  ghost predicate Needs(g: Registry, a: KeyId, b: KeyId)
  {
    Calls(g, a, b) && |g.confirmations[a]| == 1
  }

  ghost predicate PathStep(g: Registry, p: seq<KeyId>, i: nat)
    requires i + 1 < |p|
  {
    Calls(g, p[i], p[i + 1])
  }

  ghost predicate Path(g: Registry, p: seq<KeyId>)
  {
    |p| >= 2 && forall i | 0 <= i < |p| - 1 :: PathStep(g, p, i)
  }

  ghost predicate Leads(g: Registry, a: KeyId, b: KeyId)
  {
    exists p :: Path(g, p) && p[0] == a && p[|p| - 1] == b
  }

  /** No key with two confirmations lies on a cycle of confirmations. */
  ghost predicate CyclesAreSingle(g: Registry)
  {
    forall a | a in g.confirmations && Leads(g, a, a) :: |g.confirmations[a]| <= 1
  }

  lemma OneCallLeads(g: Registry, a: KeyId, b: KeyId)
    requires Calls(g, a, b)
    ensures Leads(g, a, b)
  {
    var p := [a, b];
    assert PathStep(g, p, 0);
    assert Path(g, p) && p[0] == a && p[|p| - 1] == b;
  }

  lemma LeadsOn(g: Registry, a: KeyId, b: KeyId, c: KeyId)
    requires Leads(g, a, b) && Leads(g, b, c)
    ensures Leads(g, a, c)
  {
    var p :| Path(g, p) && p[0] == a && p[|p| - 1] == b;
    var q :| Path(g, q) && q[0] == b && q[|q| - 1] == c;
    var r := p + q[1..];
    forall i | 0 <= i < |r| - 1
      ensures PathStep(g, r, i)
    {
      if i < |p| - 1 {
        assert PathStep(g, p, i);
      } else {
        assert PathStep(g, q, i - (|p| - 1));
      }
    }
    assert Path(g, r) && r[0] == a && r[|r| - 1] == c;
  }

  /** What stands above position `i` of the stack, `id` being about to be pushed. */
  function Above(visiting: seq<KeyId>, i: nat, id: KeyId): KeyId
    requires i < |visiting|
  {
    if i + 1 < |visiting| then visiting[i + 1] else id
  }

  ghost predicate StackStep(g: Registry, visiting: seq<KeyId>, i: nat, id: KeyId)
    requires i < |visiting|
  {
    Calls(g, visiting[i], Above(visiting, i, id))
  }

  /** The stack is a chain of calls, ending with the call for `id`. */
  ghost predicate Stacked(g: Registry, visiting: seq<KeyId>, id: KeyId)
  {
    forall i | 0 <= i < |visiting| :: StackStep(g, visiting, i, id)
  }

  lemma {:induction false} StackLeads(g: Registry, visiting: seq<KeyId>, id: KeyId, i: nat)
    requires Stacked(g, visiting, id) && i < |visiting|
    ensures Leads(g, visiting[i], id)
    decreases |visiting| - i
  {
    assert StackStep(g, visiting, i, id);
    OneCallLeads(g, visiting[i], Above(visiting, i, id));
    if i + 1 < |visiting| {
      StackLeads(g, visiting, id, i + 1);
      LeadsOn(g, visiting[i], visiting[i + 1], id);
    }
  }

  lemma {:induction false} StackLeadsUp(g: Registry, visiting: seq<KeyId>, id: KeyId, i: nat, j: nat)
    requires Stacked(g, visiting, id) && i < j < |visiting|
    ensures Leads(g, visiting[i], visiting[j])
    decreases j - i
  {
    assert StackStep(g, visiting, i, id);
    OneCallLeads(g, visiting[i], Above(visiting, i, id));
    if i + 1 < j {
      StackLeadsUp(g, visiting, id, i + 1, j);
      LeadsOn(g, visiting[i], visiting[i + 1], visiting[j]);
    }
  }

  /** When `id` is met again, every key above its place on the stack is on a cycle. */
  lemma StackedOnCycle(g: Registry, visiting: seq<KeyId>, id: KeyId, i: nat, j: nat)
    requires Stacked(g, visiting, id) && i <= j < |visiting| && visiting[i] == id
    ensures Leads(g, visiting[j], visiting[j])
  {
    StackLeads(g, visiting, id, j);
    if i < j {
      StackLeadsUp(g, visiting, id, i, j);
      LeadsOn(g, visiting[j], id, visiting[j]);
    }
  }

  lemma CycleNeeds(g: Registry, a: KeyId, b: KeyId)
    requires CyclesAreSingle(g) && Calls(g, a, b) && Leads(g, a, a)
    ensures Needs(g, a, b)
  {
  }

  lemma {:induction false} BelowMaxHeight(ts: seq<Derivation>, i: nat)
    requires i < |ts|
    ensures Height(ts[i]) <= MaxHeight(ts)
    decreases |ts|
  {
    if i < |ts| - 1 {
      BelowMaxHeight(ts[..|ts| - 1], i);
    }
  }

  lemma NeededChain(g: Registry, a: KeyId, b: KeyId, t: Derivation) returns (s: Derivation)
    requires Needs(g, a, b) && Valid(g, t) && t.key == a
    ensures Valid(g, s) && s.key == b && Height(s) < Height(t)
  {
    var c, e :| c in g.confirmations[a] && e in c.evidence && e.key == b;
    assert c == g.confirmations[a][0] == t.step;
    s := SignerChain(g, t, e);
  }

  lemma SignerChain(g: Registry, t: Derivation, e: Evidence) returns (s: Derivation)
    requires Valid(g, t) && t.Chained? && e in t.step.evidence
    ensures Valid(g, s) && s.key == e.key && Height(s) < Height(t)
  {
    var j :| 0 <= j < |t.step.evidence| && t.step.evidence[j] == e;
    s := t.signers[j];
    BelowMaxHeight(t.signers, j);
  }

  lemma {:induction false} DownTheStack(g: Registry, visiting: seq<KeyId>, id: KeyId, i: nat, j: nat, t: Derivation)
    returns (s: Derivation)
    requires CyclesAreSingle(g) && Stacked(g, visiting, id) && i <= j < |visiting| && visiting[i] == id
    requires Valid(g, t) && t.key == visiting[j]
    ensures Valid(g, s) && s.key == id && Height(s) < Height(t)
    decreases |visiting| - j
  {
    StackedOnCycle(g, visiting, id, i, j);
    assert StackStep(g, visiting, j, id);
    CycleNeeds(g, visiting[j], Above(visiting, j, id));
    if j + 1 < |visiting| {
      var next := NeededChain(g, visiting[j], visiting[j + 1], t);
      s := DownTheStack(g, visiting, id, i, j + 1, next);
    } else {
      s := NeededChain(g, visiting[j], id, t);
    }
  }

  /** A key that its own chain would need has none: by infinite descent. */
  lemma {:induction false} NoChainOnCycle(g: Registry, visiting: seq<KeyId>, id: KeyId, t: Derivation)
    requires CyclesAreSingle(g) && Stacked(g, visiting, id) && id in visiting
    ensures !(Valid(g, t) && t.key == id)
    decreases Height(t)
  {
    if Valid(g, t) && t.key == id {
      var i :| 0 <= i < |visiting| && visiting[i] == id;
      var s := DownTheStack(g, visiting, id, i, i, t);
      NoChainOnCycle(g, visiting, id, s);
    }
  }

  lemma {:induction false} CheckExact(g: Registry, id: KeyId, visiting: seq<KeyId>, memo: Memo)
    requires CyclesAreSingle(g) && ExactMemo(g, memo) && Stacked(g, visiting, id)
    ensures Exact(g, id, Check(g, id, visiting, memo).0) && ExactMemo(g, Check(g, id, visiting, memo).1)
    decreases Unvisited(g, visiting), 2
  {
    if id in memo {
    } else if id in visiting {
      forall t
        ensures !(Valid(g, t) && t.key == id)
      {
        NoChainOnCycle(g, visiting, id, t);
      }
    } else {
      CheckUncachedExact(g, id, visiting, memo);
    }
  }

  lemma {:induction false} CheckUncachedExact(g: Registry, id: KeyId, visiting: seq<KeyId>, memo: Memo)
    requires CyclesAreSingle(g) && ExactMemo(g, memo) && Stacked(g, visiting, id) && id !in visiting
    ensures Exact(g, id, CheckUncached(g, id, visiting, memo).0) && ExactMemo(g, CheckUncached(g, id, visiting, memo).1)
    decreases Unvisited(g, visiting), 1
  {
    if id !in g.creds {
    } else if AnchorMark(g.creds[id]) {
      if id in g.journal.registeredActive {
        var t := Anchor(id);
        assert Valid(g, t) && t.key == id && Height(t) == 0;
      }
    } else if id in g.confirmations {
      Descends(g, id, visiting);
      assert (visiting + [id])[..|visiting|] == visiting;
      CandidatesExact(g, id, g.confirmations[id], visiting + [id], memo, NoCandidate);
    }
  }

  lemma StackedPush(g: Registry, visiting: seq<KeyId>, id: KeyId, next: KeyId)
    requires |visiting| > 0 && visiting[|visiting| - 1] == id && Stacked(g, visiting[..|visiting| - 1], id)
    requires Calls(g, id, next)
    ensures Stacked(g, visiting, next)
  {
    var below := visiting[..|visiting| - 1];
    forall i | 0 <= i < |visiting|
      ensures StackStep(g, visiting, i, next)
    {
      if i + 1 < |visiting| {
        assert StackStep(g, below, i, id);
      }
    }
  }

  /** The stack as it stands while `id`'s confirmations are examined. */
  ghost predicate Examining(g: Registry, id: KeyId, visiting: seq<KeyId>)
  {
    && CyclesAreSingle(g) && id in g.creds && !AnchorMark(g.creds[id]) && id in g.confirmations
    && |visiting| > 0 && visiting[|visiting| - 1] == id && Stacked(g, visiting[..|visiting| - 1], id)
  }

  /** The key has a chain that ends with this confirmation. */
  ghost predicate ChainVia(g: Registry, id: KeyId, c: Confirmation)
  {
    exists t :: Valid(g, t) && t.key == id && t.Chained? && t.step == c
  }

  /** The verdict on one confirmation: a chain of that depth, or none that ends with it. */
  ghost predicate ExactVia(g: Registry, id: KeyId, c: Confirmation, v: Verdict)
  {
    match v
    case Ok(depth) => Derivable(g, id, depth)
    case Err(_) => !ChainVia(g, id, c)
  }

  /** The verdict on several. */
  ghost predicate ExactAmong(g: Registry, id: KeyId, cs: seq<Confirmation>, v: Verdict)
  {
    match v
    case Ok(depth) => Derivable(g, id, depth)
    case Err(_) => forall c | c in cs :: !ChainVia(g, id, c)
  }

  lemma {:induction false} CandidatesExact(g: Registry, id: KeyId, cs: seq<Confirmation>, visiting: seq<KeyId>,
                                           memo: Memo,
                                           last: Reason)
    requires Examining(g, id, visiting) && ExactMemo(g, memo) && forall c | c in cs :: c in g.confirmations[id]
    ensures var r := CheckCandidates(g, id, cs, visiting, memo, last); ExactAmong(g, id, cs, r.0) && ExactMemo(g, r.1)
    decreases Unvisited(g, visiting), 4, |cs|
  {
    if cs != [] {
      ConfirmationExact(g, id, cs[0], visiting, memo);
      var (v, m) := CheckConfirmation(g, id, cs[0], visiting, memo);
      if v.Err? {
        CandidatesExact(g, id, cs[1..], visiting, m, v.error);
      }
    }
  }

  lemma {:induction false} ConfirmationExact(g: Registry, id: KeyId, c: Confirmation, visiting: seq<KeyId>, memo: Memo)
    requires Examining(g, id, visiting) && ExactMemo(g, memo) && c in g.confirmations[id]
    ensures var r := CheckConfirmation(g, id, c, visiting, memo); ExactVia(g, id, c, r.0) && ExactMemo(g, r.1)
    decreases Unvisited(g, visiting), 3, |c.evidence| + 1
  {
    if Preliminary(g, id, c).None? {
      EvidenceExact(g, id, c, visiting, memo, 0, 0, false, [], []);
    }
  }

  lemma ViaNeedsSigner(g: Registry, id: KeyId, c: Confirmation, e: Evidence)
    requires e in c.evidence
    ensures ChainVia(g, id, c) ==> HasChain(g, e.key)
  {
    if ChainVia(g, id, c) {
      var t :| Valid(g, t) && t.key == id && t.Chained? && t.step == c;
      var s := SignerChain(g, t, e);
    }
  }

  /** A faulty signature spoils every chain that ends with its confirmation. */
  lemma FaultMeansNoChain(g: Registry, id: KeyId, c: Confirmation, e: Evidence)
    requires id in g.creds && e in c.evidence && SignatureFault(g, id, e).Some?
    ensures !ChainVia(g, id, c)
  {
  }

  lemma {:induction false} EvidenceExact(g: Registry, id: KeyId, c: Confirmation, visiting: seq<KeyId>, memo: Memo,
                                         i: nat, depth: nat, unbound: bool, signers: seq<string>, subs: seq<Derivation>)
    requires Examining(g, id, visiting) && ExactMemo(g, memo) && c in g.confirmations[id]
    requires Preliminary(g, id, c).None?
    requires ChainSoundness.Progress(g, id, c, i, depth, unbound, signers, subs)
    requires unbound ==> exists e :: e in c.evidence && !e.bound
    ensures var r := CheckEvidence(g, id, c, visiting, memo, i, depth, unbound, signers);
            ExactVia(g, id, c, r.0) && ExactMemo(g, r.1)
    decreases Unvisited(g, visiting), 3, |c.evidence| - i
  {
    if i == |c.evidence| {
      ConcludeExact(g, id, c, depth, unbound, signers, subs);
    } else {
      var e := c.evidence[i];
      assert e in c.evidence;
      if SignatureFault(g, id, e).Some? {
        FaultMeansNoChain(g, id, c, e);
      } else {
        assert Calls(g, id, e.key);
        StackedPush(g, visiting, id, e.key);
        CheckExact(g, e.key, visiting, memo);
        ViaNeedsSigner(g, id, c, e);
        var (v, m) := Check(g, e.key, visiting, memo);
        if v.Ok? {
          var sub: Derivation :| Valid(g, sub) && sub.key == e.key && Height(sub) == v.value;
          ChainSoundness.ProgressOn(g, id, c, i, depth, unbound, signers, subs, sub);
          EvidenceExact(g, id, c, visiting, m, i + 1, Max(depth, v.value), unbound || !e.bound, signers + [e.operator],
                        subs + [sub]);
        }
      }
    }
  }

  lemma ConcludeExact(g: Registry, id: KeyId, c: Confirmation, depth: nat, unbound: bool, signers: seq<string>,
                      subs: seq<Derivation>)
    requires id in g.creds && !AnchorMark(g.creds[id]) && id in g.confirmations && c in g.confirmations[id]
    requires Preliminary(g, id, c).None?
    requires ChainSoundness.Progress(g, id, c, |c.evidence|, depth, unbound, signers, subs)
    requires unbound ==> exists e :: e in c.evidence && !e.bound
    ensures ExactVia(g, id, c, Conclude(g, id, c, depth, unbound, signers))
  {
    ChainSoundness.ConcludeSound(g, id, c, depth, unbound, signers, subs);
    ChainSoundness.SignersOf(c, signers);
  }

  /** Exactness, whatever the order in which the keys are audited. */
  lemma {:induction false} AuditExact(g: Registry, order: seq<KeyId>, memo: Memo)
    requires CyclesAreSingle(g) && ExactMemo(g, memo) && forall id | id in order :: id in g.creds
    ensures forall r | r in Audit(g, order, memo) :: Exact(g, r.0, r.1)
    ensures forall id | id in order && !g.creds[id].revoked :: exists r | r in Audit(g, order, memo) :: r.0 == id
    decreases |order|
  {
    if order != [] {
      if g.creds[order[0]].revoked {
        AuditExact(g, order[1..], memo);
      } else {
        CheckExact(g, order[0], [], memo);
        var (v, m) := Check(g, order[0], [], memo);
        AuditExact(g, order[1..], m);
        assert Audit(g, order, memo) == [(order[0], v)] + Audit(g, order[1..], m);
        assert (order[0], v) in Audit(g, order, memo);
      }
    }
  }

  /** A key has one chain only, so its depth is no accident of the traversal. */
  lemma {:induction false} OneChain(g: Registry, t: Derivation, u: Derivation)
    requires SingleConfirmations(g) && Valid(g, t) && Valid(g, u) && t.key == u.key
    ensures t == u
    decreases t
  {
    if t.Chained? {
      assert g.confirmations[t.key] == [t.step] == [u.step];
      forall i | 0 <= i < |t.signers|
        ensures t.signers[i] == u.signers[i]
      {
        OneChain(g, t.signers[i], u.signers[i]);
      }
      assert t.signers == u.signers;
    }
  }

  /** Two audits of the same registry agree on every key they share, in whatever orders. */
  lemma SameAnswer(g: Registry, order1: seq<KeyId>, order2: seq<KeyId>, r1: (KeyId, Verdict), r2: (KeyId, Verdict))
    requires CyclesAreSingle(g)
    requires (forall id | id in order1 :: id in g.creds) && (forall id | id in order2 :: id in g.creds)
    requires r1 in Audit(g, order1, map[]) && r2 in Audit(g, order2, map[]) && r1.0 == r2.0
    ensures r1.1.Ok? <==> r2.1.Ok?
  {
    AuditExact(g, order1, map[]);
    AuditExact(g, order2, map[]);
  }

  /** ...and with at most one confirmation per key, neither does the depth. */
  lemma OrderIndependent(g: Registry, order1: seq<KeyId>, order2: seq<KeyId>, r1: (KeyId, Verdict),
                         r2: (KeyId, Verdict))
    requires SingleConfirmations(g)
    requires (forall id | id in order1 :: id in g.creds) && (forall id | id in order2 :: id in g.creds)
    requires r1 in Audit(g, order1, map[]) && r2 in Audit(g, order2, map[]) && r1.0 == r2.0
    ensures r1.1.Ok? <==> r2.1.Ok?
    ensures r1.1.Ok? ==> r1.1.value == r2.1.value
  {
    AuditExact(g, order1, map[]);
    AuditExact(g, order2, map[]);
    if r1.1.Ok? && r2.1.Ok? {
      var t :| Valid(g, t) && t.key == r1.0 && Height(t) == r1.1.value;
      var u :| Valid(g, u) && u.key == r1.0 && Height(u) == r2.1.value;
      OneChain(g, t, u);
    }
  }

  // ---- The declarative side: least fixed point and longest path ----

  /** `S` holds every attested anchor, and every key that signers in `S` confirmed. */
  ghost predicate ClosedUnderConfirmation(g: Registry, S: set<KeyId>)
  {
    forall id | id in g.creds ::
      && (AnchorMark(g.creds[id]) && id in g.journal.registeredActive ==> id in S)
      && (!AnchorMark(g.creds[id]) && id in g.confirmations ==>
            forall c | c in g.confirmations[id] && Admissible(g, id, c) && (forall e | e in c.evidence :: e.key in S) ::
              id in S)
  }

  lemma {:induction false} ChainsAreLeast(g: Registry, S: set<KeyId>, t: Derivation)
    requires ClosedUnderConfirmation(g, S) && Valid(g, t)
    ensures t.key in S
    decreases t
  {
    if t.Chained? {
      forall e | e in t.step.evidence
        ensures e.key in S
      {
        var i :| 0 <= i < |t.step.evidence| && t.step.evidence[i] == e;
        ChainsAreLeast(g, S, t.signers[i]);
      }
    }
  }

  lemma {:induction false} ChooseChains(g: Registry, evidence: seq<Evidence>) returns (ts: seq<Derivation>)
    requires forall e | e in evidence :: HasChain(g, e.key)
    ensures |ts| == |evidence| && forall i | 0 <= i < |ts| :: ts[i].key == evidence[i].key && Valid(g, ts[i])
    decreases |evidence|
  {
    if evidence == [] {
      ts := [];
    } else {
      assert evidence[0] in evidence;
      var t :| Valid(g, t) && t.key == evidence[0].key;
      var rest := ChooseChains(g, evidence[1..]);
      ts := [t] + rest;
    }
  }

  /** The keys with a chain are the least set closed under confirmation. */
  lemma LeastFixedPoint(g: Registry, S: set<KeyId>)
    requires forall id :: id in S <==> HasChain(g, id)
    ensures ClosedUnderConfirmation(g, S)
    ensures forall T: set<KeyId> | ClosedUnderConfirmation(g, T) :: S <= T
  {
    forall id | id in g.creds && AnchorMark(g.creds[id]) && id in g.journal.registeredActive
      ensures id in S
    {
      assert Valid(g, Anchor(id));
    }
    forall id, c | id in g.creds && !AnchorMark(g.creds[id]) && id in g.confirmations && c in g.confirmations[id]
                   && Admissible(g, id, c) && (forall e | e in c.evidence :: e.key in S)
      ensures id in S
    {
      var ts := ChooseChains(g, c.evidence);
      assert Valid(g, Chained(id, c, ts));
    }
    forall T: set<KeyId>, id | ClosedUnderConfirmation(g, T) && id in S
      ensures id in T
    {
      var t :| Valid(g, t) && t.key == id;
      ChainsAreLeast(g, T, t);
    }
  }

  ghost predicate NeedStep(g: Registry, p: seq<KeyId>, i: nat)
    requires i + 1 < |p|
  {
    Needs(g, p[i], p[i + 1])
  }

  /** A path of confirmations from `p[0]` down to an anchor. */
  ghost predicate PathToAnchor(g: Registry, p: seq<KeyId>)
  {
    && p != []
    && (forall i | 0 <= i < |p| - 1 :: NeedStep(g, p, i))
    && var last := p[|p| - 1]; last in g.creds && AnchorMark(g.creds[last])
  }

  lemma PathGrows(g: Registry, a: KeyId, q: seq<KeyId>)
    requires PathToAnchor(g, q) && Needs(g, a, q[0])
    ensures PathToAnchor(g, [a] + q)
  {
    var p := [a] + q;
    forall j | 0 <= j < |p| - 1
      ensures NeedStep(g, p, j)
    {
      assert j > 0 ==> NeedStep(g, q, j - 1);
    }
  }

  lemma PathShrinks(g: Registry, p: seq<KeyId>)
    requires PathToAnchor(g, p) && |p| > 1
    ensures PathToAnchor(g, p[1..])
  {
    var q := p[1..];
    forall j | 0 <= j < |q| - 1
      ensures NeedStep(g, q, j)
    {
      assert NeedStep(g, p, j + 1);
    }
  }

  lemma {:induction false} DeepestSigner(ts: seq<Derivation>) returns (i: nat)
    requires ts != []
    ensures i < |ts| && Height(ts[i]) == MaxHeight(ts)
    decreases |ts|
  {
    i := |ts| - 1;
    if |ts| > 1 && Height(ts[|ts| - 1]) < MaxHeight(ts[..|ts| - 1]) {
      i := DeepestSigner(ts[..|ts| - 1]);
    }
  }

  /** The reported depth is the length of the longest path to an anchor: some path attains it... */
  lemma {:induction false} DepthIsAttained(g: Registry, t: Derivation) returns (p: seq<KeyId>)
    requires SingleConfirmations(g) && Valid(g, t)
    ensures PathToAnchor(g, p) && p[0] == t.key && |p| - 1 == Height(t)
    decreases t
  {
    if t.Anchor? {
      p := [t.key];
    } else {
      assert g.confirmations[t.key] == [t.step];
      var i := DeepestSigner(t.signers);
      var q := DepthIsAttained(g, t.signers[i]);
      assert t.step.evidence[i] in t.step.evidence;
      assert Needs(g, t.key, q[0]);
      PathGrows(g, t.key, q);
      p := [t.key] + q;
    }
  }

  /** ...and none is longer. */
  lemma {:induction false} DepthIsLongest(g: Registry, t: Derivation, p: seq<KeyId>)
    requires Valid(g, t) && PathToAnchor(g, p) && p[0] == t.key
    ensures |p| - 1 <= Height(t)
    decreases |p|
  {
    if |p| > 1 {
      assert NeedStep(g, p, 0);
      var s := NeededChain(g, p[0], p[1], t);
      PathShrinks(g, p);
      DepthIsLongest(g, s, p[1..]);
    }
  }

  // ---- Why the hypothesis is needed ----

  /** A confirmation of `target` signed by one key. */
  function SignedBy(actionId: string, target: KeyId, key: KeyId, operator: string): Confirmation
  {
    Confirmation(actionId, ConfirmKey(target, "fp"), true, "h", 1, [Evidence(key, operator, true, true)])
  }

  /** A tampered registry, such as no run of the protocol makes: `b` has one confirmation, by
      `a`, and `a` has two, one by `b` and one by the anchor `r`. */
  function TwiceConfirmed(): Registry
  {
    Registry(
      map["r" := Cred("R", BOOTSTRAP, None, Some("fp"), false),
          "a" := Cred("A", "R", Some("R"), Some("fp"), false),
          "b" := Cred("B", "R", Some("A"), Some("fp"), false)],
      map["a" := [SignedBy("1", "a", "b", "B"), SignedBy("2", "a", "r", "R")],
          "b" := [SignedBy("3", "b", "a", "A")]],
      JournalView({"r"}, {"a", "b"}, map["1" := "h", "2" := "h", "3" := "h"]))
  }

  lemma SignersSignedBy(actionId: string, target: KeyId, key: KeyId, operator: string)
    ensures Signers(SignedBy(actionId, target, key, operator)) == {operator}
  {
    var c := SignedBy(actionId, target, key, operator);
    assert c.evidence[0] in c.evidence;
  }

  lemma ChainOfB()
    ensures HasChain(TwiceConfirmed(), "b")
  {
    var g := TwiceConfirmed();
    SignersSignedBy("2", "a", "r", "R");
    SignersSignedBy("3", "b", "a", "A");
    var a := Chained("a", SignedBy("2", "a", "r", "R"), [Anchor("r")]);
    assert g.confirmations["a"][1] == a.step;
    assert Valid(g, Anchor("r"));
    assert Valid(g, a);
    var b := Chained("b", SignedBy("3", "b", "a", "A"), [a]);
    assert g.confirmations["b"][0] == b.step;
    assert Valid(g, b);
  }

  /** `b`, reached from `a`, meets `a` on the stack, and that refusal is remembered. */
  lemma RefusedWhileOnStack(memo: Memo)
    requires "a" !in memo && "b" !in memo
    ensures var g := TwiceConfirmed();
            Check(g, "b", ["a"], memo) == (Err(NoChain("A", Cycle)), memo["b" := Err(NoChain("A", Cycle))])
  {
    var g := TwiceConfirmed();
    var c := SignedBy("3", "b", "a", "A");
    SignersSignedBy("3", "b", "a", "A");
    var stack := ["a"] + ["b"];
    assert Check(g, "a", stack, memo) == (Err(Cycle), memo);
    assert CheckEvidence(g, "b", c, stack, memo, 0, 0, false, []) == (Err(NoChain("A", Cycle)), memo);
    assert CheckConfirmation(g, "b", c, stack, memo) == (Err(NoChain("A", Cycle)), memo);
    assert CheckCandidates(g, "b", [c][1..], stack, memo, NoChain("A", Cycle)) == (Err(NoChain("A", Cycle)), memo);
    assert CheckCandidates(g, "b", [c], stack, memo, NoCandidate) == (Err(NoChain("A", Cycle)), memo);
  }

  /** With two confirmations of one key, the audit in the order `a`, `b` refuses `b`
      although it has a chain. */
  lemma TwoConfirmationsLoseAKey()
    ensures HasChain(TwiceConfirmed(), "b")
    ensures !SingleConfirmations(TwiceConfirmed()) && !CyclesAreSingle(TwiceConfirmed())
    ensures exists r | r in Audit(TwiceConfirmed(), ["a", "b"], map[]) :: r.0 == "b" && r.1.Err?
  {
    var g := TwiceConfirmed();
    ChainOfB();
    assert |g.confirmations["a"]| == 2;
    var refused: Verdict := Err(NoChain("A", Cycle));
    RefusedWhileOnStack(map[]);
    var m := Check(g, "a", [], map[]).1;
    assert "b" in m && m["b"] == refused by {
      RefusalSurvives();
    }
    assert Check(g, "b", [], m) == (refused, m);
    assert Audit(g, ["b"], m) == [("b", refused)] + Audit(g, ["b"][1..], Check(g, "b", [], m).1);
    assert ["a", "b"][1..] == ["b"];
    assert ("b", refused) in Audit(g, ["a", "b"], map[]);
    if CyclesAreSingle(g) {
      AuditExact(g, ["a", "b"], map[]);
    }
  }

  lemma RefusalSurvives()
    ensures var m := Check(TwiceConfirmed(), "a", [], map[]).1;
            "b" in m && m["b"] == Err(NoChain("A", Cycle))
  {
    var g := TwiceConfirmed();
    var c1, c2 := SignedBy("1", "a", "b", "B"), SignedBy("2", "a", "r", "R");
    var refused: Verdict := Err(NoChain("A", Cycle));
    var m1: Memo := map["b" := refused];
    SignersSignedBy("1", "a", "b", "B");
    RefusedWhileOnStack(map[]);
    var stack := [] + ["a"];
    assert stack == ["a"];
    assert CheckEvidence(g, "a", c1, stack, map[], 0, 0, false, []) == (Err(NoChain("B", NoChain("A", Cycle))), m1);
    assert CheckConfirmation(g, "a", c1, stack, map[]) == (Err(NoChain("B", NoChain("A", Cycle))), m1);
    assert g.confirmations["a"][1..] == [c2];
    var (v, m2) := CheckConfirmation(g, "a", c2, stack, m1);
    SecondCandidateKeeps(m1);
    assert CheckCandidates(g, "a", [c2][1..], stack, m2, NoCandidate).1 == m2;
    assert CheckUncached(g, "a", [], map[]).1 == m2;
  }

  lemma SecondCandidateKeeps(memo: Memo)
    requires "r" !in memo
    ensures var (v, m) := CheckConfirmation(TwiceConfirmed(), "a", SignedBy("2", "a", "r", "R"), ["a"], memo);
            v == Ok(1) && m == memo["r" := Ok(0)]
  {
    var g := TwiceConfirmed();
    var c := SignedBy("2", "a", "r", "R");
    SignersSignedBy("2", "a", "r", "R");
    assert Check(g, "r", ["a"], memo) == (Ok(0), memo["r" := Ok(0)]);
    assert CheckEvidence(g, "a", c, ["a"], memo["r" := Ok(0)], 1, 0, false, [] + ["R"]) == (Ok(1), memo["r" := Ok(0)]);
    assert CheckEvidence(g, "a", c, ["a"], memo, 0, 0, false, []) == (Ok(1), memo["r" := Ok(0)]);
  }
}
