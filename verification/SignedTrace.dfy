/** Where each signature comes from: a challenge taken in time and an assertion that verified,
    told of the steps of a run and of the states it passed through; and what it takes for
    signatures to reach the threshold. */
module SignedTrace {
  import opened Basics
  import opened Actions
  import opened Journal
  import opened Registry
  import opened SignedActions
  import opened SignedRuns

  // ---- The states of a run ----

  /** The run `steps` to `st` was in `mid` after its first `k` steps. */
  ghost predicate Passes(steps: seq<Step>, st: State, k: nat, mid: State)
  {
    if k >= |steps| then k == |steps| && mid == st && Reaches(steps, st)
    else exists before :: StepsTo(before, Last(steps), st) && Passes(Front(steps), before, k, mid)
  }

  lemma PassesOn(steps: seq<Step>, before: State, s: Step, st: State, k: nat, mid: State)
    requires Passes(steps, before, k, mid) && StepsTo(before, s, st)
    ensures k <= |steps| && Passes(steps + [s], st, k, mid)
  {
    assert Front(steps + [s]) == steps && Last(steps + [s]) == s;
    PassesInside(steps, before, k, mid);
  }

  lemma {:induction false} PassesInside(steps: seq<Step>, st: State, k: nat, mid: State)
    requires Passes(steps, st, k, mid)
    ensures k <= |steps| && Reaches(steps, st)
    decreases |steps|
  {
    if k < |steps| {
      var before :| StepsTo(before, Last(steps), st) && Passes(Front(steps), before, k, mid);
      PassesInside(Front(steps), before, k, mid);
    }
  }

  // ---- Who may sign what ----

  /** The registry is run by administrators, certificates are revoked by the operators of the
      authority, requests decided by them or by those of registration; an auditor signs nothing. */
  predicate RoleFits(a: Action, role: string)
  {
    if a.InviteOperator? || a.ConfirmKey? || a.RevokeKey? || a.SetRole? then role == "admin"
    else if a.RevokeCertificate? then role == "ca_operateur"
    else role == "ra_operateur" || role == "ca_operateur"
  }

  lemma AllowedIsFit(a: Action, role: string)
    ensures Allowed(a, role) <==> RoleFits(a, role)
  {
    RoleRoundTrip(Admin, role);
    RoleRoundTrip(CaOperateur, role);
    RoleRoundTrip(RaOperateur, role);
    RoleRoundTrip(Auditeur, role);
  }

  /** Enabled, in a role that fits. */
  predicate MaySign(db: Db, a: Action, name: string)
  {
    name in db.operators && !db.operators[name].disabled && RoleFits(a, db.operators[name].role)
  }

  predicate HoldsKey(db: Db, name: string, key: string)
  {
    key in db.keys && !db.keys[key].revoked && db.keys[key].owner == name
  }

  /** The target allows the action now: played dry, or as the certificate side answers. */
  predicate Possible(db: Db, a: Action, actor: string, required: nat, draw: Draw, target: Option<Refusal>)
  {
    if a.OnRegistry() then PlayAction(db, a, actor, required, draw).Ok? else target.None?
  }

  // ---- Signatures ----

  /** The call that signed: when it took its challenge and when its assertion verified, and what
      the state was at each. */
  datatype Signing = Signing(call: nat, took: nat, taken: State, verified: nat, at: State)

  /** The caller's expectation names the body, its target, and the action if any. */
  predicate Names(wanted: Expect, a: Action, id: string)
  {
    wanted.action == a.Kind() && wanted.targets == TargetMap(a)
      && (wanted.actionId.Some? ==> wanted.actionId.value == id)
  }

  /** A challenge in time, not used, of a frozen action in time, not executed, whose ceremony is
      in memory, and which is what the caller expects. */
  predicate TakenInTime(st: State, s: Step, challenge: string, action: string, body: Action)
  {
    && s.Take? && s.challenge == challenge && challenge in st.ceremonies
    && challenge in st.tables.challenges && st.tables.challenges[challenge].action == action
    && !st.tables.challenges[challenge].consumed && s.now <= st.tables.challenges[challenge].expiresAt
    && action in st.tables.actions && !st.tables.actions[action].executed
       && s.now <= st.tables.actions[action].expiresAt
    && st.tables.actions[action].body == body && (s.wanted.Some? ==> Names(s.wanted.value, body, action))
  }

  /** An assertion that verified, by a key in force of an operator who may sign, for an action
      still possible. */
  predicate VerifiedRightly(st: State, s: Step, key: string, operator: string, body: Action, required: nat)
  {
    && s.Verify? && s.valid && s.credential == key
    && HoldsKey(st.tables.registry, operator, key) && MaySign(st.tables.registry, body, operator)
    && Possible(st.tables.registry, body, operator, required, s.draw, s.target)
  }

  ghost predicate Took(steps: seq<Step>, st: State, n: nat, h: Held, g: Signing)
  {
    && g.call == n && g.took < |steps| && steps[g.took].Take? && steps[g.took].call == n
    && Passes(steps, st, g.took, g.taken) && TakenInTime(g.taken, steps[g.took], h.challenge, h.action, h.body)
    && steps[g.took].now == h.now
  }

  ghost predicate SignedBy(steps: seq<Step>, st: State, k: Checked, g: Signing)
  {
    && Took(steps, st, g.call, k.held, g) && g.took < g.verified < |steps|
    && steps[g.verified].Verify? && steps[g.verified].call == g.call && Passes(steps, st, g.verified, g.at)
    && VerifiedRightly(g.at, steps[g.verified], k.credential, k.operator, k.held.body, k.held.required)
  }

  ghost predicate CallTraced(steps: seq<Step>, st: State, n: nat, p: Phase)
  {
    match p
    case Holding(h) => exists g :: Took(steps, st, n, h, g)
    case Ready(k) => exists g :: SignedBy(steps, st, k, g)
    case _ => true
  }

  /** The row of evidence is what such a call left. */
  ghost predicate EvidenceTraced(steps: seq<Step>, st: State, e: Evidence)
  {
    exists k, g :: SignedBy(steps, st, k, g) && EvidenceOf(k) == e && HeldOk(st.tables, k.held)
  }

  ghost predicate Traced(steps: seq<Step>, st: State)
  {
    && (forall n | n in st.calls :: CallTraced(steps, st, n, st.calls[n]))
    && (forall e | e in st.tables.evidence :: EvidenceTraced(steps, st, e))
  }

  lemma TookOn(steps: seq<Step>, before: State, s: Step, st: State, n: nat, h: Held, g: Signing)
    requires Took(steps, before, n, h, g) && StepsTo(before, s, st)
    ensures Took(steps + [s], st, n, h, g)
  {
    PassesOn(steps, before, s, st, g.took, g.taken);
  }

  lemma SignedOn(steps: seq<Step>, before: State, s: Step, st: State, k: Checked, g: Signing)
    requires SignedBy(steps, before, k, g) && StepsTo(before, s, st)
    ensures SignedBy(steps + [s], st, k, g)
  {
    TookOn(steps, before, s, st, g.call, k.held, g);
    PassesOn(steps, before, s, st, g.verified, g.at);
  }

  lemma CallTracedOn(steps: seq<Step>, before: State, s: Step, st: State, n: nat, p: Phase)
    requires CallTraced(steps, before, n, p) && StepsTo(before, s, st)
    ensures CallTraced(steps + [s], st, n, p)
  {
    if p.Holding? {
      var g :| Took(steps, before, n, p.held, g);
      TookOn(steps, before, s, st, n, p.held, g);
    } else if p.Ready? {
      var g :| SignedBy(steps, before, p.checked, g);
      SignedOn(steps, before, s, st, p.checked, g);
    }
  }

  lemma EvidenceTracedOn(steps: seq<Step>, before: State, s: Step, st: State, e: Evidence)
    requires EvidenceTraced(steps, before, e) && StepsTo(before, s, st) && Grows(before.tables, st.tables)
    ensures EvidenceTraced(steps + [s], st, e)
  {
    var k, g :| SignedBy(steps, before, k, g) && EvidenceOf(k) == e && HeldOk(before.tables, k.held);
    SignedOn(steps, before, s, st, k, g);
  }

  // ---- What the checks mean ----

  /** A ceremony is taken exactly in time and as expected; each refusal has its own cause. */
  lemma TakeMeans(st: State, s: Step)
    requires s.Take?
    ensures var r := TakeChecks(st.tables, st.ceremonies, s.challenge, s.wanted, s.now);
            && (r.Ok? ==>
                  && r.value.challenge == s.challenge && r.value.now == s.now && HeldOk(st.tables, r.value)
                  && TakenInTime(st, s, s.challenge, r.value.action, r.value.body))
            && ((exists a, b :: TakenInTime(st, s, s.challenge, a, b)) ==> r.Ok?)
            && (if Issued(st.tables, s.challenge)
                then var c := st.tables.challenges[s.challenge];
                     var a := st.tables.actions[c.action];
                     && (r == Err(AlreadyUsed) <==> c.consumed || a.executed)
                     && (r == Err(Expired)
                         <==> !c.consumed && !a.executed && (s.now > c.expiresAt || s.now > a.expiresAt))
                     && (r == Err(StateLost) ==> s.challenge !in st.ceremonies)
                     && (r.Err? ==> r.error in {AlreadyUsed, Expired, StateLost, Mismatch, BadRequest})
                     && (r == Err(Mismatch) || r == Err(BadRequest) ==>
                           s.wanted.Some? && !Names(s.wanted.value, a.body, c.action))
                else r == Err(NotFound))
  {
    if Issued(st.tables, s.challenge) {
      var id := st.tables.challenges[s.challenge].action;
      if s.wanted.Some? {
        ExpectIsExact(s.wanted.value, st.tables.actions[id].body, id);
      }
    }
  }

  predicate Issued(t: Tables, challenge: string)
  {
    challenge in t.challenges && t.challenges[challenge].action in t.actions
  }

  /** The key is in force, and of an operator who may sign. */
  ghost predicate MaySignWith(db: Db, a: Action, key: string)
  {
    exists name :: HoldsKey(db, name, key) && MaySign(db, a, name)
  }

  lemma VerifyMeans(st: State, s: Step, h: Held)
    requires s.Verify?
    ensures var r := SignerChecks(st.tables.registry, h, s.credential, s.valid, s.draw, s.target);
            && (r.Ok? ==>
                  && r.value.held == h && r.value.credential == s.credential
                  && VerifiedRightly(st, s, s.credential, r.value.operator, h.body, h.required))
            && ((exists name :: VerifiedRightly(st, s, s.credential, name, h.body, h.required)) ==> r.Ok?)
            && (if MaySignWith(st.tables.registry, h.body, s.credential) then !s.valid ==> r == Err(BadSignature)
                else r == Err(Denied))
  {
    var db := st.tables.registry;
    if s.credential in db.keys {
      var name := db.keys[s.credential].owner;
      if name in db.operators {
        AllowedIsFit(h.body, db.operators[name].role);
      }
      if !db.keys[s.credential].revoked && Eligible(db, name, h.body) {
        assert HoldsKey(db, name, s.credential) && MaySign(db, h.body, name);
      }
    }
  }

  // ---- Every signature is traced ----

  lemma SettleGrows(t: Tables, journal: seq<Event>, k: Checked, up: bool)
    ensures Grows(t, Transact(t, journal, k, up).tables)
  {
    var r := Transact(t, journal, k, up);
    assert r.tables != t ==> k.held.challenge in t.challenges && k.held.action in t.actions;
    assert r.tables == t || r.tables == Consumed(t, k) || r.tables == MarkExecuted(Consumed(t, k), k.held.action);
  }

  lemma NextGrows(st: State, s: Step)
    requires Enabled(st, s)
    ensures Grows(st.tables, Next(st, s).tables)
  {
    if s.Settle? {
      SettleGrows(st.tables, st.journal, st.calls[s.call].checked, s.up);
    } else if s.Freeze? {
      FreezeGrows(st, s);
    } else if s.FreezeCosign? {
      CosignGrows(st, s);
    }
  }

  lemma FreezeGrows(st: State, s: Step)
    requires Enabled(st, s) && s.Freeze?
    ensures Grows(st.tables, Next(st, s).tables)
  {
  }

  lemma CosignGrows(st: State, s: Step)
    requires Enabled(st, s) && s.FreezeCosign?
    ensures Grows(st.tables, Next(st, s).tables)
  {
  }

  /** Only a taken challenge is held, and only a verified assertion is ready. */
  lemma NewPhase(st: State, s: Step, n: nat)
    requires Enabled(st, s) && n in Next(st, s).calls
    ensures var p := Next(st, s).calls[n];
            || (n in st.calls && p == st.calls[n])
            || (!p.Holding? && !p.Ready?)
            || (p.Holding? && s.Take? && s.call == n
                && TakeChecks(st.tables, st.ceremonies, s.challenge, s.wanted, s.now) == Ok(p.held))
            || (p.Ready? && s.Verify? && s.call == n && n in st.calls && st.calls[n].Holding?
                && SignerChecks(st.tables.registry, st.calls[n].held, s.credential, s.valid, s.draw, s.target)
                   == Ok(p.checked))
  {
  }

  lemma TakeTraced(steps: seq<Step>, before: State, s: Step, st: State, h: Held)
    requires Reaches(steps, before) && StepsTo(before, s, st) && s.Take?
    requires TakeChecks(before.tables, before.ceremonies, s.challenge, s.wanted, s.now) == Ok(h)
    ensures CallTraced(steps + [s], st, s.call, Holding(h))
  {
    TakeMeans(before, s);
    PassesOn(steps, before, s, st, |steps|, before);
    var g := Signing(s.call, |steps|, before, 0, before);
    assert Took(steps + [s], st, s.call, h, g);
  }

  lemma VerifyTraced(steps: seq<Step>, before: State, s: Step, st: State, k: Checked)
    requires Reaches(steps, before) && StepsTo(before, s, st) && s.Verify?
    requires CallTraced(steps, before, s.call, before.calls[s.call])
    requires SignerChecks(before.tables.registry, before.calls[s.call].held, s.credential, s.valid, s.draw, s.target)
             == Ok(k)
    ensures CallTraced(steps + [s], st, s.call, Ready(k))
  {
    var h := before.calls[s.call].held;
    VerifyMeans(before, s, h);
    var g0 :| Took(steps, before, s.call, h, g0);
    TookOn(steps, before, s, st, s.call, h, g0);
    PassesOn(steps, before, s, st, |steps|, before);
    var g := g0.(verified := |steps|, at := before);
    assert SignedBy(steps + [s], st, k, g);
  }

  lemma NextCallTraced(steps: seq<Step>, before: State, s: Step, st: State, n: nat)
    requires Reaches(steps, before) && StepsTo(before, s, st) && Traced(steps, before) && n in st.calls
    ensures CallTraced(steps + [s], st, n, st.calls[n])
  {
    NewPhase(before, s, n);
    var p := st.calls[n];
    if n in before.calls && p == before.calls[n] {
      CallTracedOn(steps, before, s, st, n, p);
    } else if p.Holding? {
      TakeTraced(steps, before, s, st, p.held);
    } else if p.Ready? {
      assert CallTraced(steps, before, n, before.calls[n]);
      VerifyTraced(steps, before, s, st, p.checked);
    }
  }

  lemma NewEvidence(st: State, s: Step, e: Evidence)
    requires Enabled(st, s) && e in Next(st, s).tables.evidence
    ensures e in st.tables.evidence || (s.Settle? && e == EvidenceOf(st.calls[s.call].checked))
  {
  }

  lemma NextEvidenceTraced(steps: seq<Step>, before: State, s: Step, st: State, e: Evidence)
    requires StepsTo(before, s, st) && Traced(steps, before) && Inv(before) && e in st.tables.evidence
    ensures EvidenceTraced(steps + [s], st, e)
  {
    NextGrows(before, s);
    NewEvidence(before, s, e);
    if e in before.tables.evidence {
      EvidenceTracedOn(steps, before, s, st, e);
    } else {
      var k := before.calls[s.call].checked;
      assert CallTraced(steps, before, s.call, before.calls[s.call]) && CallOk(before, s.call, before.calls[s.call]);
      var g :| SignedBy(steps, before, k, g);
      SignedOn(steps, before, s, st, k, g);
    }
  }

  lemma {:induction false} RunTraced(steps: seq<Step>, st: State)
    requires Reaches(steps, st)
    ensures Traced(steps, st)
    decreases |steps|
  {
    if steps != [] {
      var before :| StepsTo(before, Last(steps), st) && Reaches(Front(steps), before);
      RunTraced(Front(steps), before);
      RunKeeps(Front(steps), before);
      SplitLast(steps);
      forall n | n in st.calls
        ensures CallTraced(steps, st, n, st.calls[n])
      {
        NextCallTraced(Front(steps), before, Last(steps), st, n);
      }
      forall e | e in st.tables.evidence
        ensures EvidenceTraced(steps, st, e)
      {
        NextEvidenceTraced(Front(steps), before, Last(steps), st, e);
      }
    }
  }

  /** Behind every effect, each signer at the threshold signed that action: one call took his
      challenge for its frozen body, in time, unused, with what the caller expected, and then,
      in the same call, his assertion verified, by a key of his own then in force, in a role
      that fits and while the action was possible. */
  lemma SignersVerified(steps: seq<Step>, st: State, r: Ran, e: Evidence)
    requires Reaches(steps, st) && r in st.effects
    requires r.checked.held.action in st.thresholds && e in st.thresholds[r.checked.held.action].signers
    ensures exists k, g :: SignedBy(steps, st, k, g) && EvidenceOf(k) == e
                           && k.held.action == r.checked.held.action && k.held.body == r.checked.held.body
    ensures MaySign(st.thresholds[r.checked.held.action].registry, r.checked.held.body, e.operator)
  {
    RunKeeps(steps, st);
    RunTraced(steps, st);
    var a := r.checked.held.action;
    assert RanOk(st, r) && ThresholdOk(st.tables, a, st.thresholds[a]) && Grounded(st.tables, e);
    var k, g :| SignedBy(steps, st, k, g) && EvidenceOf(k) == e && HeldOk(st.tables, k.held);
    assert Entitled(st.thresholds[a].registry, r.checked.held.body, e);
    AllowedIsFit(r.checked.held.body, st.thresholds[a].registry.operators[e.operator].role);
  }

  // ---- The threshold ----

  predicate Known(db: Db, e: Evidence)
  {
    e.operator in db.operators && e.credential in db.keys
  }

  /** Those on record as having signed, and still in the registry. */
  function Signatories(db: Db, evidence: seq<Evidence>, a: string): set<string>
  {
    set e | e in evidence && e.action == a && Known(db, e) :: e.operator
  }

  lemma {:induction false} SignersAre(db: Db, evidence: seq<Evidence>, a: string)
    ensures forall e :: e in SignersOf(db, evidence, a) <==> e in evidence && e.action == a && Known(db, e)
    decreases |evidence|
  {
    if evidence != [] {
      SignersAre(db, Front(evidence), a);
      SplitLast(evidence);
    }
  }

  lemma {:induction false} SignersCounted(db: Db, evidence: seq<Evidence>, a: string)
    requires Distinct(evidence)
    ensures |SignersOf(db, evidence, a)| == |Signatories(db, evidence, a)|
    decreases |evidence|
  {
    if evidence == [] {
      assert Signatories(db, evidence, a) == {};
    } else {
      var front, e := Front(evidence), Last(evidence);
      SignersCounted(db, front, a);
      SplitLast(evidence);
      if e.action == a && Known(db, e) {
        assert e.operator !in Signatories(db, front, a) by {
          forall i | 0 <= i < |front|
            ensures !Duplicate([front[i]], e)
          {
            assert !Duplicate([evidence[i]], evidence[|front|]);
          }
          SameOperator(front, e);
        }
        assert Signatories(db, evidence, a) == Signatories(db, front, a) + {e.operator};
      } else {
        assert Signatories(db, evidence, a) == Signatories(db, front, a);
      }
    }
  }

  lemma SameOperator(evidence: seq<Evidence>, e: Evidence)
    requires forall i | 0 <= i < |evidence| :: !Duplicate([evidence[i]], e)
    ensures forall f | f in evidence :: !(f.action == e.action && f.operator == e.operator)
  {
    forall f | f in evidence
      ensures !(f.action == e.action && f.operator == e.operator)
    {
      var i :| 0 <= i < |evidence| && evidence[i] == f;
      assert !Duplicate([evidence[i]], e) && f in [f];
    }
  }

  /** The signature can be taken: its action and challenge are unused, its operator has not
      signed yet, and both he and his key are in the registry. */
  ghost predicate Admissible(t: Tables, k: Checked)
  {
    && k.held.action in t.actions && !t.actions[k.held.action].executed
    && k.held.challenge in t.challenges && !t.challenges[k.held.challenge].consumed
    && (forall e | e in t.evidence && e.action == k.held.action :: e.operator != k.operator)
    && Known(t.registry, EvidenceOf(k))
  }

  /** Signatories with this one. */
  function Count(t: Tables, k: Checked): nat
  {
    |Signatories(t.registry, t.evidence, k.held.action) + {k.operator}|
  }

  predicate Stands(db: Db, body: Action, e: Evidence)
  {
    MaySign(db, body, e.operator) && e.credential in db.keys && !db.keys[e.credential].revoked
  }

  /** Every signature on record for the action stands, and so does this one. */
  ghost predicate AllStand(t: Tables, k: Checked)
  {
    && Stands(t.registry, k.held.body, EvidenceOf(k))
    && forall e | e in t.evidence && e.action == k.held.action && Known(t.registry, e) ::
       Stands(t.registry, k.held.body, e)
  }

  lemma StandsIff(db: Db, body: Action, e: Evidence)
    ensures Entitled(db, body, e) <==> Stands(db, body, e)
  {
    if e.operator in db.operators {
      AllowedIsFit(body, db.operators[e.operator].role);
    }
  }

  lemma AdmissibleIff(t: Tables, k: Checked)
    requires EvidenceOk(t) && HeldOk(t, k.held) && !t.challenges[k.held.challenge].consumed
    ensures Duplicate(t.evidence, EvidenceOf(k))
            <==> exists e :: e in t.evidence && e.action == k.held.action && e.operator == k.operator
  {
    forall e | e in t.evidence
      ensures e.challenge != k.held.challenge
    {
      assert Grounded(t, e);
    }
  }

  lemma ConsumedCounts(t: Tables, k: Checked)
    requires EvidenceOk(t) && HeldOk(t, k.held) && Admissible(t, k)
    ensures var signers := SignersOf(t.registry, Consumed(t, k).evidence, k.held.action);
            && |signers| == Count(t, k)
            && ((forall s | s in signers :: Entitled(t.registry, k.held.body, s)) <==> AllStand(t, k))
  {
    var db, next, e := t.registry, Consumed(t, k).evidence, EvidenceOf(k);
    AdmissibleIff(t, k);
    NewDistinct(t.evidence, e);
    SignersCounted(db, next, k.held.action);
    SignersAre(db, next, k.held.action);
    assert Signatories(db, next, k.held.action) == Signatories(db, t.evidence, k.held.action) + {k.operator} by {
      assert next[|t.evidence|] == e;
    }
    forall s | s in SignersOf(db, next, k.held.action)
      ensures Entitled(db, k.held.body, s) <==> Stands(db, k.held.body, s)
    {
      StandsIff(db, k.held.body, s);
    }
    assert e in next;
  }

  lemma NewDistinct(evidence: seq<Evidence>, e: Evidence)
    requires Distinct(evidence) && !Duplicate(evidence, e)
    ensures Distinct(evidence + [e])
  {
  }

  /** The signature that reaches the frozen number executes the action, no sooner and no later:
      exactly when it is admissible, those on record with it are enough distinct operators, and
      all of them still stand. One below the number is kept exactly when the journal takes it;
      anything else leaves no trace. */
  lemma SettleIff(t: Tables, journal: seq<Event>, k: Checked, up: bool)
    requires EvidenceOk(t) && HeldOk(t, k.held)
    ensures var r := Transact(t, journal, k, up);
            && (r.verdict.Reached? <==> Admissible(t, k) && Count(t, k) >= k.held.required && AllStand(t, k))
            && (r.verdict.Signed? <==> Admissible(t, k) && Count(t, k) < k.held.required && up)
            && (r.verdict.Reached? ==> r.tables == MarkExecuted(Consumed(t, k), k.held.action))
            && (r.verdict.Signed? ==> r.verdict.signatures == Count(t, k) && r.tables == Consumed(t, k))
            && (r.verdict.Refused? ==> r.tables == t && r.journal == journal)
  {
    if k.held.challenge in t.challenges && !t.challenges[k.held.challenge].consumed {
      AdmissibleIff(t, k);
      if Admissible(t, k) {
        ConsumedCounts(t, k);
      }
    }
  }

  lemma ReadyIsHeld(steps: seq<Step>, st: State, n: nat)
    requires Reaches(steps, st) && n in st.calls && st.calls[n].Ready?
    ensures EvidenceOk(st.tables) && HeldOk(st.tables, st.calls[n].checked.held)
  {
    RunKeeps(steps, st);
    assert CallOk(st, n, st.calls[n]);
  }

  lemma SettleIs(st: State, n: nat, up: bool)
    requires Enabled(st, Settle(n, up))
    ensures var k, st' := st.calls[n].checked, Next(st, Settle(n, up));
            var r := Transact(st.tables, st.journal, k, up);
            st'.tables == r.tables && st'.calls[n] == if r.verdict.Reached? then Marked(k) else Over
  {
  }

  /** In any interleaving: a call goes on to execute exactly when its signature is admissible
      and reaches the frozen number with signatories who all still stand. */
  lemma ThresholdIff(steps: seq<Step>, st: State, n: nat, up: bool)
    requires Reaches(steps, st) && Enabled(st, Settle(n, up))
    ensures var k, st' := st.calls[n].checked, Next(st, Settle(n, up));
            if Admissible(st.tables, k) && Count(st.tables, k) >= k.held.required && AllStand(st.tables, k)
            then st'.calls[n] == Marked(k) && st'.tables == MarkExecuted(Consumed(st.tables, k), k.held.action)
            else st'.calls[n].Over?
                 && st'.tables == if Admissible(st.tables, k) && Count(st.tables, k) < k.held.required && up
                                  then Consumed(st.tables, k) else st.tables
  {
    ReadyIsHeld(steps, st, n);
    SettleIs(st, n, up);
    SettleIff(st.tables, st.journal, st.calls[n].checked, up);
  }
}
