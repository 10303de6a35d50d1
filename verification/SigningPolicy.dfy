/** The number of signatures that policy freezes on an action, against what executing it asks. */
module SigningPolicy {
  import opened Basics
  import opened Actions
  import opened Registry
  import opened SignedActions
  import opened SignedRuns

  /** On an unmoved registry the frozen number is the one the execution asks for: more
      signatures change nothing, and where it is two, one is not enough. */
  lemma PolicyMatchesExecution(db: Db, a: Action, twoPerson: bool, actor: string, draw: Draw, quorum: nat)
    requires a.OnRegistry() && quorum >= 1
    ensures var required := RequiredSignatures(db, a, twoPerson);
            && (quorum >= required ==>
                  PlayAction(db, a, actor, quorum, draw) == PlayAction(db, a, actor, required, draw))
            && (quorum < required && PlayAction(db, a, actor, required, draw).Ok? ==>
                  PlayAction(db, a, actor, quorum, draw) == Err(Denied))
  {
    RoleRoundTrip(Admin, "");
    if a.SetRole? {
      RoleRoundTrip(a.role, "");
    }
  }

  lemma {:induction false} Pigeonhole(signers: seq<Evidence>, names: set<string>)
    requires forall i, j | 0 <= i < j < |signers| :: signers[i].operator != signers[j].operator
    requires forall e | e in signers :: e.operator in names
    ensures |signers| <= |names|
    decreases |signers|
  {
    if signers != [] {
      var before, last := signers[..|signers| - 1], signers[|signers| - 1];
      forall e | e in before
        ensures e.operator in names - {last.operator}
      {
        var i :| 0 <= i < |before| && before[i] == e;
        assert signers[i].operator != last.operator;
      }
      Pigeonhole(before, names - {last.operator});
    }
  }

  /** An action refused for want of holders could not gather its signatures: distinct entitled
      signers, each with a key of his own, are never more than the holders counted. */
  lemma NoMoreSignersThanHolders(db: Db, a: Action, signers: seq<Evidence>, action: string)
    requires SignedRuns.Distinct(signers)
    requires forall e | e in signers ::
               && e.action == action && Entitled(db, a, e) && db.keys[e.credential].owner == e.operator
    ensures |signers| <= |Holders(db, a)|
  {
    DistinctMeans(signers, action);
    forall e | e in signers
      ensures e.operator in Holders(db, a)
    {
      assert Entitled(db, a, e) && HasActiveKey(db, e.operator);
    }
    Pigeonhole(signers, Holders(db, a));
  }

  /** What policy never lowers: two signatures to revoke a certificate or to make an
      administrator, one at least for anything. */
  predicate Minimum(a: Action, required: nat)
  {
    && required >= 1
    && (a.RevokeCertificate? || (a.InviteOperator? && a.role == Admin) || (a.SetRole? && a.role == Admin) ==>
        required >= 2)
  }

  ghost predicate PolicyKept(st: State)
  {
    && (forall a | a in st.tables.actions :: Minimum(st.tables.actions[a].body, st.tables.actions[a].required))
    && (forall n | n in st.calls && st.calls[n].Issuing? :: Minimum(st.calls[n].body, st.calls[n].required))
  }

  /** Only freezing adds an action, and nothing changes a frozen body or number. */
  lemma OnlyFreezingAdds(st: State, s: Step, a: string)
    requires Enabled(st, s) && a in Next(st, s).tables.actions
    ensures || (a in st.tables.actions && Next(st, s).tables.actions[a].body == st.tables.actions[a].body
                && Next(st, s).tables.actions[a].required == st.tables.actions[a].required)
            || (s.Freeze? && Next(st, s).tables.actions[a].body == st.calls[s.call].body
                && Next(st, s).tables.actions[a].required == st.calls[s.call].required)
  {
  }

  lemma NextKeepsPolicy(st: State, s: Step)
    requires PolicyKept(st) && Enabled(st, s)
    ensures PolicyKept(Next(st, s))
  {
    var st' := Next(st, s);
    forall a | a in st'.tables.actions
      ensures Minimum(st'.tables.actions[a].body, st'.tables.actions[a].required)
    {
      OnlyFreezingAdds(st, s, a);
    }
    forall n | n in st'.calls && st'.calls[n].Issuing?
      ensures Minimum(st'.calls[n].body, st'.calls[n].required)
    {
      if s.Begin? && n == s.call {
        BegunIsPolicy(st, s);
      } else {
        assert n in st.calls && st.calls[n] == st'.calls[n];
      }
    }
  }

  lemma BegunIsPolicy(st: State, s: Step)
    requires s.Begin? && Enabled(st, s) && Next(st, s).calls[s.call].Issuing?
    ensures Minimum(Next(st, s).calls[s.call].body, Next(st, s).calls[s.call].required)
  {
  }

  lemma {:induction false} RunKeepsPolicy(steps: seq<Step>, st: State)
    requires Reaches(steps, st)
    ensures PolicyKept(st)
    decreases |steps|
  {
    if steps != [] {
      var before :| StepsTo(before, Last(steps), st) && Reaches(Front(steps), before);
      RunKeepsPolicy(Front(steps), before);
      NextKeepsPolicy(before, Last(steps));
    }
  }

  /** In every interleaving, a certificate is revoked, or an administrator invited or made,
      only on the signatures of two distinct operators or more. */
  lemma GraveActionsAreDual(steps: seq<Step>, st: State, r: Ran)
    requires Reaches(steps, st) && r in st.effects
    requires var a := r.checked.held.body;
             a.RevokeCertificate? || (a.InviteOperator? && a.role == Admin) || (a.SetRole? && a.role == Admin)
    ensures ProperlySigned(st, r) && |st.thresholds[r.checked.held.action].signers| >= 2
  {
    AnyInterleaving(steps, st);
    RunKeepsPolicy(steps, st);
  }

  /** In every interleaving, an effect that changed the registry had the signatures it needed
      and no fewer would have done: where policy still asks on that registry for what was
      frozen, the same action with any other number goes through exactly if it is not less. */
  lemma NoFewerWouldDo(steps: seq<Step>, st: State, r: Ran, quorum: nat)
    requires Reaches(steps, st) && r in st.effects && r.after != r.before && r.checked.held.body.OnRegistry()
    requires RequiredSignatures(r.before, r.checked.held.body, false) == r.checked.held.required && quorum >= 1
    ensures ProperlySigned(st, r)
    ensures |st.thresholds[r.checked.held.action].signers| >= r.checked.held.required
    ensures PlayAction(r.before, r.checked.held.body, r.checked.operator, quorum, r.draw).Ok?
       <==> quorum >= r.checked.held.required
  {
    RunKeeps(steps, st);
    RunIsFaithful(steps, st);
    AnyInterleaving(steps, st);
    assert RanOk(st, r) && Faithful(r);
    PolicyMatchesExecution(r.before, r.checked.held.body, false, r.checked.operator, r.draw, quorum);
  }
}
