/** The audit as the registry runs it: a view of the journal built by one pass over its
    events, then a depth-first search whose stack and memo are updated in place. */
module ChainAudit {
  import opened Basics
  import opened Journal
  import opened ChainSpec
  import ChainSoundness
  import ChainExactness

  /** An event that enters key `id` directly into the registry. */
  predicate RegistersActive(e: Event, id: string)
  {
    e.name == CredentialRegistered && Text(e, Statut) == Some("active") && Text(e, CredentialId) == Some(id)
  }

  predicate Confirms(e: Event, id: string)
  {
    e.name == KeyConfirmed && Text(e, CredentialId) == Some(id)
  }

  /** An event that logs a body hash for `action` before its challenge is signed. */
  predicate LogsBody(e: Event, action: string)
  {
    e.name == ActionChallengeIssued && Text(e, ActionId) == Some(action) && Text(e, BodyHash).Some?
  }

  ghost predicate Registered(events: seq<Event>, id: string)
  {
    exists e | e in events :: RegistersActive(e, id)
  }

  ghost predicate Confirmed(events: seq<Event>, id: string)
  {
    exists e | e in events :: Confirms(e, id)
  }

  ghost predicate Logged(events: seq<Event>, action: string)
  {
    exists e | e in events :: LogsBody(e, action)
  }

  lemma OneMore(events: seq<Event>, e: Event, x: string)
    ensures Registered(events + [e], x) <==> Registered(events, x) || RegistersActive(e, x)
    ensures Confirmed(events + [e], x) <==> Confirmed(events, x) || Confirms(e, x)
    ensures Logged(events + [e], x) <==> Logged(events, x) || LogsBody(e, x)
  {
    assert forall o :: o in events + [e] <==> o in events || o == e;
  }

  /** The first event that logs `action` decides its hash. */
  ghost predicate FirstLogged(events: seq<Event>, action: string, hash: string)
  {
    exists i | 0 <= i < |events| ::
      && LogsBody(events[i], action) && Text(events[i], BodyHash) == Some(hash)
      && forall j | 0 <= j < i :: !LogsBody(events[j], action)
  }

  method ViewOf(events: seq<Event>) returns (view: JournalView)
    ensures forall id :: id in view.registeredActive <==> Registered(events, id)
    ensures forall id :: id in view.confirmed <==> Confirmed(events, id)
    ensures forall action :: action in view.issued <==> Logged(events, action)
    ensures forall action | action in view.issued :: FirstLogged(events, action, view.issued[action])
  {
    view := JournalView({}, {}, map[]);
    for i := 0 to |events|
      invariant forall id :: id in view.registeredActive <==> Registered(events[..i], id)
      invariant forall id :: id in view.confirmed <==> Confirmed(events[..i], id)
      invariant forall action :: action in view.issued <==> Logged(events[..i], action)
      invariant forall action | action in view.issued :: FirstLogged(events, action, view.issued[action])
    {
      var e := events[i];
      assert events[..i + 1] == events[..i] + [e];
      forall x {
        OneMore(events[..i], e, x);
      }
      if e.name == ActionChallengeIssued {
        if Text(e, ActionId).Some? && Text(e, BodyHash).Some? {
          var action := e.data[ActionId];
          if action !in view.issued {
            assert forall j | 0 <= j < i :: !LogsBody(events[j], action) by {
              assert forall j | 0 <= j < i :: events[j] in events[..i];
            }
            view := view.(issued := view.issued[action := e.data[BodyHash]]);
          }
        }
      } else if Text(e, CredentialId).Some? {
        var id := e.data[CredentialId];
        if e.name == CredentialRegistered && Text(e, Statut) == Some("active") {
          view := view.(registeredActive := view.registeredActive + {id});
        } else if e.name == KeyConfirmed {
          view := view.(confirmed := view.confirmed + {id});
        }
      }
    }
    assert events[..|events|] == events;
  }

  class Auditor {
    const g: Registry
    var visiting: seq<KeyId>
    var memo: Memo

    constructor (g: Registry)
      ensures this.g == g && visiting == [] && memo == map[]
    {
      this.g := g;
      visiting, memo := [], map[];
    }

    method Check(id: KeyId) returns (v: Verdict)
      modifies this
      ensures visiting == old(visiting)
      ensures (v, memo) == ChainSpec.Check(g, id, visiting, old(memo))
      decreases Unvisited(g, visiting), 2
    {
      if id in memo {
        return memo[id];
      }
      if id in visiting {
        return Err(Cycle);
      }
      v := CheckUncached(id);
      memo := memo[id := v];
    }

    /** Runs with `id` pushed on the stack, and pops it. */
    method CheckUncached(id: KeyId) returns (v: Verdict)
      requires id !in visiting
      modifies this
      ensures visiting == old(visiting)
      ensures (v, memo) == ChainSpec.CheckUncached(g, id, visiting, old(memo))
      decreases Unvisited(g, visiting), 1
    {
      if id !in g.creds {
        return Err(UnknownKey);
      }
      if AnchorMark(g.creds[id]) {
        return if id in g.journal.registeredActive then Ok(0) else Err(UnattestedAnchor);
      }
      if id !in g.confirmations {
        return Err(NoConfirmation);
      }
      Descends(g, id, visiting);
      ghost var below := visiting;
      visiting := visiting + [id];
      v := CheckCandidates(id);
      visiting := visiting[..|visiting| - 1];
      assert visiting == below;
    }

    method CheckCandidates(id: KeyId) returns (v: Verdict)
      requires id in g.creds && id in g.confirmations
      modifies this
      ensures visiting == old(visiting)
      ensures (v, memo) == ChainSpec.CheckCandidates(g, id, g.confirmations[id], visiting, old(memo), NoCandidate)
      decreases Unvisited(g, visiting), 4
    {
      var cs := g.confirmations[id];
      var last := NoCandidate;
      var i := 0;
      assert cs[0..] == cs;
      while i < |cs|
        invariant i <= |cs| && visiting == old(visiting)
        invariant ChainSpec.CheckCandidates(g, id, cs[i..], visiting, memo, last)
               == ChainSpec.CheckCandidates(g, id, cs, visiting, old(memo), NoCandidate)
      {
        v := CheckConfirmation(id, cs[i]);
        if v.Ok? {
          return;
        }
        last := v.error;
        assert cs[i..][1..] == cs[i + 1..];
        i := i + 1;
      }
      v := Err(last);
    }

    method CheckConfirmation(id: KeyId, c: Confirmation) returns (v: Verdict)
      requires id in g.creds
      modifies this
      ensures visiting == old(visiting)
      ensures (v, memo) == ChainSpec.CheckConfirmation(g, id, c, visiting, old(memo))
      decreases Unvisited(g, visiting), 3
    {
      var fault := Preliminary(g, id, c);
      if fault.Some? {
        return Err(fault.value);
      }
      var depth, unbound, signers := 0, false, [];
      var i := 0;
      while i < |c.evidence|
        invariant i <= |c.evidence| && visiting == old(visiting)
        invariant CheckEvidence(g, id, c, visiting, memo, i, depth, unbound, signers)
               == CheckEvidence(g, id, c, visiting, old(memo), 0, 0, false, [])
      {
        var e := c.evidence[i];
        var wrong := SignatureFault(g, id, e);
        if wrong.Some? {
          return Err(wrong.value);
        }
        v := Check(e.key);
        if v.Err? {
          return Err(NoChain(e.operator, v.error));
        }
        depth := Max(depth, v.value);
        unbound := unbound || !e.bound;
        signers := signers + [e.operator];
        i := i + 1;
      }
      v := Conclude(g, id, c, depth, unbound, signers);
    }
  }

  /** Audits the active keys in the order the registry lists them. */
  method AuditRegistry(g: Registry, order: seq<KeyId>) returns (reports: seq<(KeyId, Verdict)>)
    requires forall id | id in order :: id in g.creds
    ensures reports == Audit(g, order, map[])
    ensures forall r | r in reports && r.1.Ok? :: Derivable(g, r.0, r.1.value)
    ensures ChainExactness.CyclesAreSingle(g) ==> forall r | r in reports :: ChainExactness.Exact(g, r.0, r.1)
  {
    var auditor := new Auditor(g);
    reports := [];
    assert order[0..] == order;
    var i := 0;
    while i < |order|
      invariant i <= |order| && auditor.g == g && auditor.visiting == []
      invariant reports + Audit(g, order[i..], auditor.memo) == Audit(g, order, map[])
    {
      assert order[i..][1..] == order[i + 1..];
      ghost var done, rest := reports, order[i..];
      if !g.creds[order[i]].revoked {
        var v := auditor.Check(order[i]);
        reports := reports + [(order[i], v)];
        Regrouped(done, [(order[i], v)], Audit(g, order[i + 1..], auditor.memo));
      }
      i := i + 1;
    }
    ChainSoundness.AuditSound(g, order, map[]);
    if ChainExactness.CyclesAreSingle(g) {
      ChainExactness.AuditExact(g, order, map[]);
    }
  }
}
