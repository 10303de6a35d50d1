/** Any interleaving of issuing, co-signing and executing, by any callers, with restarts,
    journal failures, failing effects, and a registry that others change meanwhile. */
module SignedRuns {
  import opened Basics
  import opened Actions
  import opened Journal
  import opened Registry
  import opened SignedActions

  /** How far a call has got. */
  datatype Phase =
    | Issuing(body: Action, hint: string, required: nat, now: int)
    | Cosigning(action: string, hint: string, now: int)
    | Holding(held: Held)
    | Ready(checked: Checked)
    | Marked(checked: Checked)
    | Announced(checked: Checked)
    | Over

  /** For the record: the call that reached an action's threshold, whose signatures it found,
      and the registry it found them in. */
  datatype Threshold = Threshold(call: nat, signers: seq<Evidence>, registry: Db)

  /** For the record: an effect that was run, and how much of the journal came before it. */
  datatype Ran = Ran(call: nat, checked: Checked, draw: Draw, announced: nat, before: Db, after: Db)

  datatype State = State(tables: Tables, ceremonies: set<string>, journal: seq<Event>, calls: map<nat, Phase>,
                         thresholds: map<string, Threshold>, effects: seq<Ran>)

  datatype Step =
    | Begin(call: nat, body: Action, hint: string, twoPerson: bool, draw: Draw, target: Option<Refusal>)
    | Freeze(call: nat, action: string, hash: string, challenge: string, up: bool)
    | BeginCosign(call: nat, action: string, hint: string, draw: Draw, target: Option<Refusal>)
    | FreezeCosign(call: nat, challenge: string, up: bool)
    | Take(call: nat, challenge: string, wanted: Option<Expect>, now: int)
    | Verify(call: nat, credential: string, valid: bool, draw: Draw, target: Option<Refusal>)
    | Settle(call: nat, up: bool)
    | Announce(call: nat, up: bool)
    | Perform(call: nat, drawn: string, up: bool, target: Option<Refusal>)
    | Restart
    | Outside(registry: Db, written: seq<Event>)

  predicate Enabled(st: State, s: Step)
  {
    match s
    case Begin(n, _, _, _, _, _) => n !in st.calls
    case BeginCosign(n, _, _, _, _) => n !in st.calls
    case Take(n, _, _, _) => n !in st.calls
    case Freeze(n, _, _, _, _) => n in st.calls && st.calls[n].Issuing?
    case FreezeCosign(n, _, _) => n in st.calls && st.calls[n].Cosigning? && st.calls[n].action in st.tables.actions
    case Verify(n, _, _, _, _) => n in st.calls && st.calls[n].Holding?
    case Settle(n, _) => n in st.calls && st.calls[n].Ready?
    case Announce(n, _) => n in st.calls && st.calls[n].Marked?
    case Perform(n, _, _, _) => n in st.calls && st.calls[n].Announced?
    case Restart => true
    case Outside(_, _) => true
  }

  function To(st: State, n: nat, p: Phase): State
  {
    st.(calls := st.calls[n := p])
  }

  function AfterFreeze(st: State, n: nat, action: string, hash: string, challenge: string, up: bool): State
    requires n in st.calls && st.calls[n].Issuing?
  {
    var p := st.calls[n];
    if !up then To(st, n, Over)
    else
      var noted := To(st, n, Over).(journal := st.journal + [IssuedEvent(action, challenge, hash)]);
      if action in st.tables.actions || challenge in st.tables.challenges then noted
      else noted.(tables := Frozen(st.tables, p.body, hash, p.hint, p.required, p.now, action, challenge),
                  ceremonies := st.ceremonies + {challenge})
  }

  function AfterCosign(st: State, n: nat, challenge: string, up: bool): State
    requires n in st.calls && st.calls[n].Cosigning? && st.calls[n].action in st.tables.actions
  {
    var p := st.calls[n];
    if !up then To(st, n, Over)
    else
      var noted := To(st, n, Over).(journal := st.journal
                                    + [IssuedEvent(p.action, challenge, st.tables.actions[p.action].hash)]);
      if challenge in st.tables.challenges then noted
      else noted.(tables := Cosigned(st.tables, p.action, p.hint, p.now, challenge),
                  ceremonies := st.ceremonies + {challenge})
  }

  function AfterSettle(st: State, n: nat, up: bool): State
    requires n in st.calls && st.calls[n].Ready?
  {
    var k := st.calls[n].checked;
    var r := Transact(st.tables, st.journal, k, up);
    if !r.verdict.Reached? then To(st, n, Over).(tables := r.tables, journal := r.journal)
    else To(st, n, Marked(k)).(tables := r.tables, journal := r.journal,
                               thresholds := st.thresholds[k.held.action := Threshold(n, r.verdict.signers,
                                                                                      st.tables.registry)])
  }

  function AfterPerform(st: State, n: nat, drawn: string, up: bool, target: Option<Refusal>): State
    requires n in st.calls && st.calls[n].Announced?
  {
    var k := st.calls[n].checked;
    var w := Effect(st.tables.registry, st.journal, k, drawn, up, target).0;
    To(st, n, Over).(tables := st.tables.(registry := w.db), journal := w.journal,
                     effects := st.effects + [Ran(n, k, Draw(drawn, k.held.now), |st.journal|, st.tables.registry,
                                                  w.db)])
  }

  function Next(st: State, s: Step): State
    requires Enabled(st, s)
  {
    match s
    case Begin(n, body, hint, twoPerson, draw, target) =>
      var r := IssueChecks(st.tables.registry, body, hint, twoPerson, draw, target);
      To(st, n, if r.Ok? then Issuing(body, hint, r.value, draw.now) else Over)
    case Freeze(n, action, hash, challenge, up) => AfterFreeze(st, n, action, hash, challenge, up)
    case BeginCosign(n, action, hint, draw, target) =>
      To(st, n, if CosignChecks(st.tables, action, hint, draw, target).None? then Cosigning(action, hint, draw.now)
         else Over)
    case FreezeCosign(n, challenge, up) => AfterCosign(st, n, challenge, up)
    case Take(n, challenge, wanted, now) =>
      var r := TakeChecks(st.tables, st.ceremonies, challenge, wanted, now);
      if r.Err? then To(st, n, Over)
      else To(st, n, Holding(r.value)).(ceremonies := st.ceremonies - {challenge})
    case Verify(n, credential, valid, draw, target) =>
      var r := SignerChecks(st.tables.registry, st.calls[n].held, credential, valid, draw, target);
      To(st, n, if r.Ok? then Ready(r.value) else Over)
    case Settle(n, up) => AfterSettle(st, n, up)
    case Announce(n, up) =>
      var k := st.calls[n].checked;
      if up then To(st, n, Announced(k)).(journal := st.journal + [ExecutedEvent(k)]) else To(st, n, Over)
    case Perform(n, drawn, up, target) => AfterPerform(st, n, drawn, up, target)
    case Restart => st.(ceremonies := {}, calls := map n | n in st.calls :: Over)
    case Outside(registry, written) => st.(tables := st.tables.(registry := registry), journal := st.journal + written)
  }

  // ---- The invariant ----

  /** No one signs an action whose target is himself. */
  predicate NotTarget(a: Action, operator: string)
  {
    (a.SetRole? ==> a.operator != operator) && (a.InviteOperator? ==> a.name != operator)
  }

  ghost predicate ChallengesOk(t: Tables)
  {
    forall c | c in t.challenges :: t.challenges[c].action in t.actions
  }

  /** The evidence row rests on its own consumed challenge, issued for its action. */
  predicate Grounded(t: Tables, e: Evidence)
  {
    && e.challenge in t.challenges && t.challenges[e.challenge].consumed && t.challenges[e.challenge].action == e.action
    && e.action in t.actions && NotTarget(t.actions[e.action].body, e.operator)
  }

  predicate Distinct(evidence: seq<Evidence>)
  {
    forall i, j | 0 <= i < j < |evidence| :: !Duplicate([evidence[i]], evidence[j])
  }

  ghost predicate EvidenceOk(t: Tables)
  {
    (forall e | e in t.evidence :: Grounded(t, e)) && Distinct(t.evidence)
  }

  predicate HeldOk(t: Tables, h: Held)
  {
    && h.challenge in t.challenges && t.challenges[h.challenge].action == h.action
    && h.action in t.actions && t.actions[h.action].body == h.body && t.actions[h.action].required == h.required
  }

  predicate Announces(e: Event, action: string)
  {
    e.name == ActionExecuted && Text(e, ActionId) == Some(action)
  }

  ghost predicate Written(journal: seq<Event>, action: string)
  {
    exists e | e in journal :: Announces(e, action)
  }

  ghost predicate CallOk(st: State, n: nat, p: Phase)
  {
    match p
    case Cosigning(action, _, _) => action in st.tables.actions
    case Holding(h) => HeldOk(st.tables, h)
    case Ready(k) => HeldOk(st.tables, k.held) && NotTarget(k.held.body, k.operator)
    case Marked(k) => HeldOk(st.tables, k.held) && Owns(st, n, k)
    case Announced(k) => HeldOk(st.tables, k.held) && Owns(st, n, k) && Written(st.journal, k.held.action)
    case _ => true
  }

  /** The call is the one that reached the threshold of its action. */
  predicate Owns(st: State, n: nat, k: Checked)
  {
    k.held.action in st.thresholds && st.thresholds[k.held.action].call == n
  }

  /** Enough distinct operators, each with its own consumed challenge for the action, each
      entitled in `registry`, none the target. */
  ghost predicate Qualified(t: Tables, a: string, registry: Db, signers: seq<Evidence>)
    requires a in t.actions
  {
    && |signers| >= t.actions[a].required && signers != []
    && Distinct(signers)
    && (forall e | e in signers ::
          e in t.evidence && e.action == a && Grounded(t, e) && Entitled(registry, t.actions[a].body, e))
  }

  ghost predicate ThresholdOk(t: Tables, a: string, th: Threshold)
  {
    a in t.actions && t.actions[a].executed && Qualified(t, a, th.registry, th.signers)
  }

  /** What the effect did to the registry: nothing, or the frozen action with the frozen
      number of signatures. */
  predicate Faithful(r: Ran)
  {
    || r.after == r.before
    || (&& PlayAction(r.before, r.checked.held.body, r.checked.operator, r.checked.held.required, r.draw).Ok?
        && r.after == PlayAction(r.before, r.checked.held.body, r.checked.operator, r.checked.held.required,
                                 r.draw).value.db)
  }

  ghost predicate RanOk(st: State, r: Ran)
  {
    && HeldOk(st.tables, r.checked.held)
    && Owns(st, r.call, r.checked)
    && r.call in st.calls && st.calls[r.call].Over?
    && r.announced <= |st.journal| && Written(st.journal[..r.announced], r.checked.held.action)
  }

  ghost predicate Inv(st: State)
  {
    && ChallengesOk(st.tables)
    && EvidenceOk(st.tables)
    && (forall n | n in st.calls :: CallOk(st, n, st.calls[n]))
    && (forall a | a in st.thresholds :: ThresholdOk(st.tables, a, st.thresholds[a]))
    && (forall a | a in st.tables.actions :: st.tables.actions[a].executed ==> a in st.thresholds)
    && EffectsOk(st)
  }

  ghost predicate EffectsOk(st: State)
  {
    && (forall r | r in st.effects :: RanOk(st, r))
    && (forall i, j | 0 <= i < j < |st.effects| ::
          st.effects[i].checked.held.action != st.effects[j].checked.held.action)
  }

  // ---- Everything kept only grows ----

  ghost predicate Grows(t: Tables, t': Tables)
  {
    && (forall a | a in t.actions ::
          && a in t'.actions && t'.actions[a].body == t.actions[a].body
             && t'.actions[a].required == t.actions[a].required
          && (t.actions[a].executed ==> t'.actions[a].executed))
    && (forall c | c in t.challenges ::
          && c in t'.challenges && t'.challenges[c].action == t.challenges[c].action
          && (t.challenges[c].consumed ==> t'.challenges[c].consumed))
    && (forall e | e in t.evidence :: e in t'.evidence)
  }

  /** `st'` keeps all that `st` has, apart from what its calls are doing. */
  ghost predicate Keeps(st: State, st': State)
  {
    && Grows(st.tables, st'.tables)
    && st.journal <= st'.journal
    && (forall a | a in st.thresholds :: a in st'.thresholds && st'.thresholds[a] == st.thresholds[a])
  }

  lemma WrittenKept(journal: seq<Event>, journal': seq<Event>, action: string)
    requires journal <= journal' && Written(journal, action)
    ensures Written(journal', action)
  {
    var e :| e in journal && Announces(e, action);
    var i :| 0 <= i < |journal| && journal[i] == e;
    assert journal'[i] == e;
  }

  lemma CallKept(st: State, st': State, n: nat, p: Phase)
    requires Keeps(st, st') && CallOk(st, n, p)
    ensures CallOk(st', n, p)
  {
    if p.Announced? {
      WrittenKept(st.journal, st'.journal, p.checked.held.action);
    }
  }

  lemma ThresholdKept(t: Tables, t': Tables, a: string, th: Threshold)
    requires Grows(t, t') && ThresholdOk(t, a, th)
    ensures ThresholdOk(t', a, th)
  {
    forall e | e in th.signers
      ensures e in t'.evidence && e.action == a && Grounded(t', e) && Entitled(th.registry, t'.actions[a].body, e)
    {
      assert Grounded(t, e);
    }
  }

  lemma RanKept(st: State, st': State, r: Ran)
    requires Keeps(st, st') && RanOk(st, r) && r.call in st'.calls && st'.calls[r.call].Over?
    ensures RanOk(st', r)
  {
    assert st'.journal[..r.announced] == st.journal[..r.announced];
  }

  /** What is left to show of a step that adds no evidence, threshold or effect: the phase of
      the one call it moves. */
  lemma StepKeeps(st: State, st': State, n: nat, p: Phase)
    requires Inv(st) && Keeps(st, st')
    requires st'.calls == st.calls[n := p] && CallOk(st', n, p)
    requires n !in st.calls || !st.calls[n].Over?
    requires st'.tables.evidence == st.tables.evidence && ChallengesOk(st'.tables)
    requires forall a | a in st'.tables.actions :: st'.tables.actions[a].executed ==>
             a in st.tables.actions && st.tables.actions[a].executed
    requires st'.thresholds == st.thresholds && st'.effects == st.effects
    ensures Inv(st')
  {
    CallsKept(st, st', n, p);
    RestKept(st, st');
    EvidenceKept(st.tables, st'.tables);
    forall r | r in st'.effects
      ensures RanOk(st', r)
    {
      RanKept(st, st', r);
    }
  }

  lemma CallsKept(st: State, st': State, n: nat, p: Phase)
    requires Keeps(st, st') && st'.calls == st.calls[n := p] && CallOk(st', n, p)
    requires forall m | m in st.calls :: CallOk(st, m, st.calls[m])
    ensures forall m | m in st'.calls :: CallOk(st', m, st'.calls[m])
  {
    forall m | m in st'.calls
      ensures CallOk(st', m, st'.calls[m])
    {
      if m != n {
        CallKept(st, st', m, st.calls[m]);
      }
    }
  }

  lemma RestKept(st: State, st': State)
    requires Grows(st.tables, st'.tables)
    requires forall a | a in st.thresholds :: ThresholdOk(st.tables, a, st.thresholds[a])
    ensures forall a | a in st.thresholds :: ThresholdOk(st'.tables, a, st.thresholds[a])
  {
    forall a | a in st.thresholds
      ensures ThresholdOk(st'.tables, a, st.thresholds[a])
    {
      ThresholdKept(st.tables, st'.tables, a, st.thresholds[a]);
    }
  }

  lemma EvidenceKept(t: Tables, t': Tables)
    requires Grows(t, t') && EvidenceOk(t) && t'.evidence == t.evidence
    ensures EvidenceOk(t')
  {
    forall e | e in t'.evidence
      ensures Grounded(t', e)
    {
      assert Grounded(t, e);
    }
  }

  lemma RansKept(st: State, st': State)
    requires Keeps(st, st')
    requires forall r | r in st.effects :: RanOk(st, r) && r.call in st'.calls && st'.calls[r.call].Over?
    ensures forall r | r in st.effects :: RanOk(st', r)
  {
    forall r | r in st.effects
      ensures RanOk(st', r)
    {
      RanKept(st, st', r);
    }
  }

  // ---- Each step ----

  lemma VerifiedIsNoTarget(db: Db, h: Held, credential: string, valid: bool, draw: Draw, target: Option<Refusal>)
    requires SignerChecks(db, h, credential, valid, draw, target).Ok?
    ensures var k := SignerChecks(db, h, credential, valid, draw, target).value;
            k.held == h && NotTarget(h.body, k.operator)
  {
  }

  /** Such a step moves one call, and what the call then holds is what the tables say. */
  lemma CallStepIs(st: State, s: Step)
    requires Inv(st) && Enabled(st, s)
    requires s.Begin? || s.BeginCosign? || s.Take?
    ensures var st' := Next(st, s);
            && s.call !in st.calls && s.call in st'.calls && CallOk(st, s.call, st'.calls[s.call])
            && st' == st.(calls := st.calls[s.call := st'.calls[s.call]], ceremonies := st'.ceremonies)
  {
  }

  lemma CallStepKeeps(st: State, s: Step)
    requires Inv(st) && Enabled(st, s)
    requires s.Begin? || s.BeginCosign? || s.Take?
    ensures Inv(Next(st, s))
  {
    var st' := Next(st, s);
    CallStepIs(st, s);
    CallKept(st, st', s.call, st'.calls[s.call]);
    StepKeeps(st, st', s.call, st'.calls[s.call]);
  }

  lemma VerifyKeeps(st: State, s: Step)
    requires Inv(st) && Enabled(st, s) && s.Verify?
    ensures Inv(Next(st, s))
  {
    var st' := Next(st, s);
    if SignerChecks(st.tables.registry, st.calls[s.call].held, s.credential, s.valid, s.draw, s.target).Ok? {
      VerifiedIsNoTarget(st.tables.registry, st.calls[s.call].held, s.credential, s.valid, s.draw, s.target);
    }
    StepKeeps(st, st', s.call, st'.calls[s.call]);
  }

  lemma AnnounceKeeps(st: State, s: Step)
    requires Inv(st) && Enabled(st, s) && s.Announce?
    ensures Inv(Next(st, s))
  {
    var st' := Next(st, s);
    if s.up {
      var e := ExecutedEvent(st.calls[s.call].checked);
      assert Announces(e, st.calls[s.call].checked.held.action) && st'.journal[|st.journal|] == e;
    }
    StepKeeps(st, st', s.call, st'.calls[s.call]);
  }

  lemma FrozenGrows(t: Tables, a: Action, hash: string, hint: string, required: nat, now: int, action: string,
                    challenge: string)
    requires action !in t.actions && challenge !in t.challenges && ChallengesOk(t)
    ensures var t' := Frozen(t, a, hash, hint, required, now, action, challenge);
            && Grows(t, t') && ChallengesOk(t') && t'.evidence == t.evidence
            && (forall b | b in t'.actions :: t'.actions[b].executed ==> b in t.actions && t.actions[b].executed)
  {
  }

  lemma FreezeKeeps(st: State, n: nat, action: string, hash: string, challenge: string, up: bool)
    requires Inv(st) && Enabled(st, Freeze(n, action, hash, challenge, up))
    ensures Inv(AfterFreeze(st, n, action, hash, challenge, up))
  {
    var p := st.calls[n];
    if action !in st.tables.actions && challenge !in st.tables.challenges {
      FrozenGrows(st.tables, p.body, hash, p.hint, p.required, p.now, action, challenge);
    }
    StepKeeps(st, AfterFreeze(st, n, action, hash, challenge, up), n, Over);
  }

  lemma CosignKeeps(st: State, n: nat, challenge: string, up: bool)
    requires Inv(st) && Enabled(st, FreezeCosign(n, challenge, up))
    ensures Inv(AfterCosign(st, n, challenge, up))
  {
    StepKeeps(st, AfterCosign(st, n, challenge, up), n, Over);
  }

  lemma OutsideKeeps(st: State, s: Step)
    requires Inv(st) && (s.Restart? || s.Outside?)
    ensures Inv(Next(st, s))
  {
    var st' := Next(st, s);
    forall n | n in st'.calls
      ensures CallOk(st', n, st'.calls[n])
    {
      if s.Outside? {
        CallKept(st, st', n, st.calls[n]);
      }
    }
    RestKept(st, st');
    EvidenceKept(st.tables, st'.tables);
    RansKept(st, st');
  }

  lemma NewEvidence(t: Tables, t': Tables, e: Evidence)
    requires Grows(t, t') && EvidenceOk(t) && t'.evidence == t.evidence + [e]
    requires Grounded(t', e) && !Duplicate(t.evidence, e)
    ensures EvidenceOk(t')
  {
    forall f | f in t'.evidence
      ensures Grounded(t', f)
    {
      if f in t.evidence {
        assert Grounded(t, f);
      }
    }
    forall i, j | 0 <= i < j < |t'.evidence|
      ensures !Duplicate([t'.evidence[i]], t'.evidence[j])
    {
      assert t'.evidence[i] in t.evidence;
      if j < |t.evidence| {
        assert !Duplicate([t.evidence[i]], t.evidence[j]);
      }
    }
  }

  /** Consuming the challenge of a verified assertion adds sound evidence. */
  lemma ConsumedIsGrounded(t: Tables, k: Checked)
    requires HeldOk(t, k.held) && NotTarget(k.held.body, k.operator)
    ensures Grows(t, Consumed(t, k)) && Grounded(Consumed(t, k), EvidenceOf(k))
  {
  }

  lemma MarkedGrows(t: Tables, a: string)
    requires a in t.actions
    ensures Grows(t, MarkExecuted(t, a))
  {
  }

  lemma {:induction false} SignersAreEvidence(db: Db, evidence: seq<Evidence>, a: string)
    requires Distinct(evidence)
    ensures forall e | e in SignersOf(db, evidence, a) :: e in evidence && e.action == a
    ensures Distinct(SignersOf(db, evidence, a))
  {
    if evidence != [] {
      var n := |evidence| - 1;
      var before := SignersOf(db, evidence[..n], a);
      SignersAreEvidence(db, evidence[..n], a);
      forall e | e in before
        ensures e in evidence && !Duplicate([e], evidence[n])
      {
        var i :| 0 <= i < n && evidence[..n][i] == e;
        assert !Duplicate([evidence[i]], evidence[n]);
      }
    }
  }

  /** What the locked transaction does short of the threshold. */
  lemma SignedIsConsumed(t: Tables, journal: seq<Event>, k: Checked, up: bool)
    requires !Transact(t, journal, k, up).verdict.Reached?
    ensures var r := Transact(t, journal, k, up);
            || (r.tables == t && r.journal == journal)
            || (k.held.challenge in t.challenges && r.tables == Consumed(t, k) && journal <= r.journal
                && !Duplicate(t.evidence, EvidenceOf(k)))
  {
  }

  /** A signature below the threshold. */
  lemma SignedKeeps(st: State, n: nat, up: bool)
    requires Inv(st) && Enabled(st, Settle(n, up))
    requires !Transact(st.tables, st.journal, st.calls[n].checked, up).verdict.Reached?
    ensures Inv(AfterSettle(st, n, up))
  {
    var st' := AfterSettle(st, n, up);
    SignedIsConsumed(st.tables, st.journal, st.calls[n].checked, up);
    if st'.tables == st.tables {
      StepKeeps(st, st', n, Over);
    } else {
      ConsumedKeeps(st, st', n, st.calls[n].checked);
    }
  }

  lemma ConsumedKeeps(st: State, st': State, n: nat, k: Checked)
    requires Inv(st) && n in st.calls && st.calls[n] == Ready(k) && k.held.challenge in st.tables.challenges
    requires st' == To(st, n, Over).(tables := Consumed(st.tables, k), journal := st'.journal)
    requires st.journal <= st'.journal && !Duplicate(st.tables.evidence, EvidenceOf(k))
    ensures Inv(st')
  {
    assert CallOk(st, n, st.calls[n]);
    ConsumedIsGrounded(st.tables, k);
    NewEvidence(st.tables, st'.tables, EvidenceOf(k));
    CallsKept(st, st', n, Over);
    RestKept(st, st');
    RansKept(st, st');
  }

  /** The tables once the threshold is reached: the signers are qualified. */
  lemma ReachedIsQualified(t: Tables, journal: seq<Event>, k: Checked, up: bool)
    requires EvidenceOk(t) && HeldOk(t, k.held) && NotTarget(k.held.body, k.operator)
    requires Transact(t, journal, k, up).verdict.Reached?
    ensures var r := Transact(t, journal, k, up);
            && Grows(t, r.tables) && EvidenceOk(r.tables) && !t.actions[k.held.action].executed
            && ThresholdOk(r.tables, k.held.action, Threshold(0, r.verdict.signers, t.registry))
            && r.journal == journal
            && r.tables.actions == t.actions[k.held.action := t.actions[k.held.action].(executed := true)]
            && r.tables.challenges == Consumed(t, k).challenges
  {
    var a := k.held.action;
    var next := Consumed(t, k);
    ConsumedIsGrounded(t, k);
    NewEvidence(t, next, EvidenceOf(k));
    MarkedGrows(next, a);
    EvidenceKept(next, MarkExecuted(next, a));
    SignersAreEvidence(t.registry, next.evidence, a);
    assert next.evidence[|next.evidence| - 1] == EvidenceOf(k);
  }

  /** The signature that reaches the threshold. */
  lemma ReachedKeeps(st: State, n: nat, up: bool)
    requires Inv(st) && Enabled(st, Settle(n, up))
    requires Transact(st.tables, st.journal, st.calls[n].checked, up).verdict.Reached?
    ensures Inv(AfterSettle(st, n, up))
  {
    var k := st.calls[n].checked;
    var a := k.held.action;
    var st' := AfterSettle(st, n, up);
    ReachedIsQualified(st.tables, st.journal, k, up);
    assert a !in st.thresholds;
    assert ThresholdOk(st'.tables, a, st'.thresholds[a]);
    CallsKept(st, st', n, Marked(k));
    RestKept(st, st');
    RansKept(st, st');
  }

  lemma EffectOnlyAppends(db: Db, journal: seq<Event>, k: Checked, drawn: string, up: bool, target: Option<Refusal>)
    ensures journal <= Effect(db, journal, k, drawn, up, target).0.journal
  {
  }

  lemma NewRan(st: State, st': State, r: Ran)
    requires CallOk(st, r.call, Announced(r.checked)) && Keeps(st, st') && r.call in st.calls
             && st.calls[r.call] == Announced(r.checked)
    requires st'.calls == st.calls[r.call := Over] && r.announced == |st.journal|
    ensures RanOk(st', r)
  {
    assert st'.journal[..|st.journal|] == st.journal;
  }

  lemma EffectAdded(st: State, st': State, r: Ran)
    requires EffectsOk(st) && Keeps(st, st') && CallOk(st, r.call, Announced(r.checked))
    requires r.call in st.calls && st.calls[r.call] == Announced(r.checked)
    requires st'.calls == st.calls[r.call := Over] && st'.effects == st.effects + [r]
    requires r.announced == |st.journal|
    ensures EffectsOk(st')
  {
    RansKept(st, st');
    NewRan(st, st', r);
    FirstEffect(st, r.call, r.checked);
  }

  lemma NewEffectKeeps(st: State, st': State, r: Ran)
    requires Inv(st) && st.journal <= st'.journal && st'.thresholds == st.thresholds
    requires st'.tables == st.tables.(registry := st'.tables.registry)
    requires r.call in st.calls && st.calls[r.call] == Announced(r.checked)
    requires st'.calls == st.calls[r.call := Over] && st'.effects == st.effects + [r]
    requires r.announced == |st.journal|
    ensures Inv(st')
  {
    CallsKept(st, st', r.call, Over);
    RestKept(st, st');
    EvidenceKept(st.tables, st'.tables);
    EffectAdded(st, st', r);
  }

  lemma PerformKeeps(st: State, n: nat, drawn: string, up: bool, target: Option<Refusal>)
    requires Inv(st) && Enabled(st, Perform(n, drawn, up, target))
    ensures Inv(AfterPerform(st, n, drawn, up, target))
  {
    var st' := AfterPerform(st, n, drawn, up, target);
    EffectOnlyAppends(st.tables.registry, st.journal, st.calls[n].checked, drawn, up, target);
    NewEffectKeeps(st, st', st'.effects[|st.effects|]);
  }

  /** The call that owns an action's threshold has not run its effect yet. */
  lemma FirstEffect(st: State, n: nat, k: Checked)
    requires n in st.calls && !st.calls[n].Over? && Owns(st, n, k)
    requires forall r | r in st.effects :: RanOk(st, r)
    ensures forall r | r in st.effects :: r.checked.held.action != k.held.action
  {
    forall r | r in st.effects
      ensures r.checked.held.action != k.held.action
    {
      assert RanOk(st, r);
    }
  }

  lemma NextKeeps(st: State, s: Step)
    requires Inv(st) && Enabled(st, s)
    ensures Inv(Next(st, s))
  {
    if s.Restart? || s.Outside? {
      OutsideKeeps(st, s);
    } else if s.Freeze? {
      FreezeKeeps(st, s.call, s.action, s.hash, s.challenge, s.up);
    } else if s.FreezeCosign? {
      CosignKeeps(st, s.call, s.challenge, s.up);
    } else if s.Verify? {
      VerifyKeeps(st, s);
    } else if s.Announce? {
      AnnounceKeeps(st, s);
    } else if s.Perform? {
      PerformKeeps(st, s.call, s.drawn, s.up, s.target);
    } else if s.Settle? {
      if Transact(st.tables, st.journal, st.calls[s.call].checked, s.up).verdict.Reached? {
        ReachedKeeps(st, s.call, s.up);
      } else {
        SignedKeeps(st, s.call, s.up);
      }
    } else {
      CallStepKeeps(st, s);
    }
  }

  // ---- Whole runs ----

  /** Nothing issued yet, whatever the registry and the journal hold. */
  predicate Starts(st: State)
  {
    && st.tables.actions == map[] && st.tables.challenges == map[] && st.tables.evidence == []
    && st.ceremonies == {} && st.calls == map[] && st.thresholds == map[] && st.effects == []
  }

  predicate StepsTo(st: State, s: Step, st': State)
  {
    Enabled(st, s) && st' == Next(st, s)
  }

  /** `st` is reached by the steps `steps`, in that order. */
  ghost predicate Reaches(steps: seq<Step>, st: State)
  {
    if steps == [] then Starts(st)
    else exists before :: StepsTo(before, Last(steps), st) && Reaches(Front(steps), before)
  }

  lemma OneStep(steps: seq<Step>, st: State, s: Step)
    requires Reaches(steps, st) && Enabled(st, s)
    ensures Reaches(steps + [s], Next(st, s))
  {
    assert Front(steps + [s]) == steps && Last(steps + [s]) == s;
    assert StepsTo(st, s, Next(st, s));
  }

  lemma {:induction false} RunKeeps(steps: seq<Step>, st: State)
    requires Reaches(steps, st)
    ensures Inv(st)
    decreases |steps|
  {
    if steps != [] {
      var before :| StepsTo(before, Last(steps), st) && Reaches(Front(steps), before);
      RunKeeps(Front(steps), before);
      NextKeeps(before, Last(steps));
    }
  }

  ghost predicate AllFaithful(st: State)
  {
    forall r | r in st.effects :: Faithful(r)
  }

  /** An effect plays the frozen action, or changes nothing. */
  lemma EffectIsFaithful(db: Db, journal: seq<Event>, k: Checked, drawn: string, up: bool, target: Option<Refusal>,
                         n: nat)
    ensures Faithful(Ran(n, k, Draw(drawn, k.held.now), |journal|, db, Effect(db, journal, k, drawn, up, target).0.db))
  {
  }

  lemma NextIsFaithful(st: State, s: Step)
    requires AllFaithful(st) && Enabled(st, s)
    ensures AllFaithful(Next(st, s))
  {
    if s.Perform? {
      EffectIsFaithful(st.tables.registry, st.journal, st.calls[s.call].checked, s.drawn, s.up, s.target, s.call);
    }
  }

  lemma {:induction false} RunIsFaithful(steps: seq<Step>, st: State)
    requires Reaches(steps, st)
    ensures AllFaithful(st)
    decreases |steps|
  {
    if steps != [] {
      var before :| StepsTo(before, Last(steps), st) && Reaches(Front(steps), before);
      RunIsFaithful(Front(steps), before);
      NextIsFaithful(before, Last(steps));
    }
  }

  /** The signers behind an effect: enough distinct operators, each with a challenge of his
      own that was issued for the action and is consumed, each enabled, with an unrevoked key
      and an allowed role when the threshold was reached. */
  ghost predicate ProperlySigned(st: State, r: Ran)
  {
    var a := r.checked.held.action;
    && a in st.thresholds && st.thresholds[a].call == r.call
    && a in st.tables.actions && st.tables.actions[a].body == r.checked.held.body
    && var th := st.thresholds[a];
       && |th.signers| >= st.tables.actions[a].required
       && (forall i, j | 0 <= i < j < |th.signers| ::
             th.signers[i].operator != th.signers[j].operator && th.signers[i].challenge != th.signers[j].challenge)
       && (forall e | e in th.signers ::
             && e.challenge in st.tables.challenges && st.tables.challenges[e.challenge].consumed
             && st.tables.challenges[e.challenge].action == a
             && Entitled(th.registry, r.checked.held.body, e))
  }

  lemma DistinctMeans(signers: seq<Evidence>, a: string)
    requires Distinct(signers) && forall e | e in signers :: e.action == a
    ensures forall i, j | 0 <= i < j < |signers| ::
              signers[i].operator != signers[j].operator && signers[i].challenge != signers[j].challenge
  {
    forall i, j | 0 <= i < j < |signers|
      ensures signers[i].operator != signers[j].operator && signers[i].challenge != signers[j].challenge
    {
      assert signers[i] in signers && signers[j] in signers && !Duplicate([signers[i]], signers[j]);
      assert signers[i] in [signers[i]];
    }
  }

  /** In every interleaving: an action's effect runs at most once, after its record in the
      journal, and only when properly signed. */
  lemma AnyInterleaving(steps: seq<Step>, st: State)
    requires Reaches(steps, st)
    ensures forall i, j | 0 <= i < j < |st.effects| ::
              st.effects[i].checked.held.action != st.effects[j].checked.held.action
    ensures forall r | r in st.effects ::
              && r.announced <= |st.journal| && Written(st.journal[..r.announced], r.checked.held.action)
              && ProperlySigned(st, r)
  {
    RunKeeps(steps, st);
    forall r | r in st.effects
      ensures ProperlySigned(st, r)
    {
      var a := r.checked.held.action;
      assert RanOk(st, r) && ThresholdOk(st.tables, a, st.thresholds[a]);
      DistinctMeans(st.thresholds[a].signers, a);
    }
  }

  // ---- Administrators ----

  predicate IsAdmin(db: Db, name: string)
  {
    name in db.operators && db.operators[name].role == ADMIN
  }

  lemma AdminChangeNeedsQuorum(db: Db, a: Action, actor: string, required: nat, draw: Draw, name: string)
    requires PlayAction(db, a, actor, required, draw).Ok?
    requires IsAdmin(db, name) != IsAdmin(PlayAction(db, a, actor, required, draw).value.db, name)
    ensures required >= QUORUM
    ensures (a.SetRole? && a.operator == name) || (a.InviteOperator? && a.name == name)
  {
    if a.InviteOperator? {
      RoleRoundTrip(a.role, "");
      RoleRoundTrip(Admin, "");
    }
    if a.SetRole? {
      RoleRoundTrip(a.role, "");
      RoleRoundTrip(Admin, "");
    }
  }

  lemma AllowedIsAdmin(a: Action, role: string)
    requires a.OnRegistry() && Allowed(a, role)
    ensures role == ADMIN
  {
    RoleRoundTrip(Admin, role);
  }

  /** Every effect that gives or takes the administrator role of anyone rests on two distinct
      signers or more, each an enabled administrator with an unrevoked key when the threshold
      was reached, none the one whose role changes: whatever happened to roles meanwhile. */
  lemma AdminChangesAreDual(steps: seq<Step>, st: State, r: Ran, name: string)
    requires Reaches(steps, st) && r in st.effects
    requires IsAdmin(r.before, name) != IsAdmin(r.after, name)
    ensures r.checked.held.action in st.thresholds
    ensures var th := st.thresholds[r.checked.held.action];
            && |th.signers| >= 2 && ProperlySigned(st, r)
            && forall e | e in th.signers ::
                 && e.operator != name && IsAdmin(th.registry, e.operator)
                    && !th.registry.operators[e.operator].disabled
                 && e.credential in th.registry.keys && !th.registry.keys[e.credential].revoked
  {
    RunKeeps(steps, st);
    RunIsFaithful(steps, st);
    AnyInterleaving(steps, st);
    var k := r.checked;
    var th := st.thresholds[k.held.action];
    assert RanOk(st, r) && ThresholdOk(st.tables, k.held.action, th);
    AdminChangeNeedsQuorum(r.before, k.held.body, k.operator, k.held.required, r.draw, name);
    forall e | e in th.signers
      ensures e.operator != name && IsAdmin(th.registry, e.operator)
    {
      assert Grounded(st.tables, e) && Entitled(th.registry, k.held.body, e);
      AllowedIsAdmin(k.held.body, th.registry.operators[e.operator].role);
    }
  }
}
