/** What can happen when executions overlap: the threshold of an action and its effect are
    two transactions, and three properly signed actions between them can leave no
    administrator. */
module Overlap {
  import opened Basics
  import opened Actions
  import opened Journal
  import opened Marks
  import opened Registry
  import opened SignedActions
  import opened SignedRuns
  import opened LastAdmin

  const NOW: Draw := Draw("", 0)

  // ---- The stretches of a call, one after the other ----

  /** The call `n` moves to `p`; nothing is announced, performed or brought to a threshold. */
  predicate Moves(st: State, n: nat, p: Phase, st': State)
  {
    st'.calls == st.calls[n := p] && st'.thresholds == st.thresholds && st'.effects == st.effects
  }

  lemma Checks(steps: seq<Step>, st: State, n: nat, body: Action, hint: string, required: nat)
    returns (steps': seq<Step>, st': State)
    requires Reaches(steps, st) && n !in st.calls
    requires IssueChecks(st.tables.registry, body, hint, false, NOW, None) == Ok(required)
    ensures Reaches(steps', st') && st' == To(st, n, Issuing(body, hint, required, 0))
  {
    OneStep(steps, st, Begin(n, body, hint, false, NOW, None));
    steps', st' := steps + [Begin(n, body, hint, false, NOW, None)], Next(st, Begin(n, body, hint, false, NOW, None));
  }

  lemma Freezes(steps: seq<Step>, st: State, n: nat, action: string, challenge: string)
    returns (steps': seq<Step>, st': State)
    requires Reaches(steps, st) && n in st.calls && st.calls[n].Issuing?
    requires action !in st.tables.actions && challenge !in st.tables.challenges
    ensures Reaches(steps', st') && Moves(st, n, Over, st') && st'.ceremonies == st.ceremonies + {challenge}
    ensures var p := st.calls[n]; st'.tables == Frozen(st.tables, p.body, "h", p.hint, p.required, p.now, action,
                                                       challenge)
  {
    OneStep(steps, st, Freeze(n, action, "h", challenge, true));
    steps', st' := steps + [Freeze(n, action, "h", challenge, true)], Next(st, Freeze(n, action, "h", challenge, true));
  }

  lemma Issues(steps: seq<Step>, st: State, n: nat, body: Action, hint: string, required: nat,
               action: string, challenge: string)
    returns (steps': seq<Step>, st': State)
    requires Reaches(steps, st) && n !in st.calls && action !in st.tables.actions && challenge !in st.tables.challenges
    requires IssueChecks(st.tables.registry, body, hint, false, NOW, None) == Ok(required)
    ensures Reaches(steps', st') && Moves(st, n, Over, st')
    ensures st'.tables == Frozen(st.tables, body, "h", hint, required, 0, action, challenge)
    ensures st'.ceremonies == st.ceremonies + {challenge}
  {
    var steps1, st1 := Checks(steps, st, n, body, hint, required);
    steps', st' := Freezes(steps1, st1, n, action, challenge);
    assert st1.calls[n := Over] == st.calls[n := Over];
  }

  lemma Cosigns(steps: seq<Step>, st: State, n: nat, action: string, hint: string, challenge: string)
    returns (steps': seq<Step>, st': State)
    requires Reaches(steps, st) && n !in st.calls && action in st.tables.actions && challenge !in st.tables.challenges
    requires CosignChecks(st.tables, action, hint, NOW, None).None?
    ensures Reaches(steps', st') && Moves(st, n, Over, st')
    ensures st'.tables == Cosigned(st.tables, action, hint, 0, challenge)
    ensures st'.ceremonies == st.ceremonies + {challenge}
  {
    var s1, s2 := BeginCosign(n, action, hint, NOW, None), FreezeCosign(n, challenge, true);
    OneStep(steps, st, s1);
    OneStep(steps + [s1], Next(st, s1), s2);
    steps', st' := steps + [s1] + [s2], Next(Next(st, s1), s2);
  }

  lemma TakeIs(st: State, n: nat, challenge: string, h: Held)
    requires n !in st.calls && TakeChecks(st.tables, st.ceremonies, challenge, None, 0) == Ok(h)
    ensures Next(st, Take(n, challenge, None, 0)) == To(st, n, Holding(h)).(ceremonies := st.ceremonies - {challenge})
  {
    var r := TakeChecks(st.tables, st.ceremonies, challenge, None, 0);
    assert r.Ok? && r.value == h;
  }

  lemma Takes(steps: seq<Step>, st: State, n: nat, h: Held) returns (steps': seq<Step>, st': State)
    requires Reaches(steps, st) && n !in st.calls
    requires TakeChecks(st.tables, st.ceremonies, h.challenge, None, 0) == Ok(h)
    ensures Reaches(steps', st') && st' == To(st, n, Holding(h)).(ceremonies := st.ceremonies - {h.challenge})
  {
    var s := Take(n, h.challenge, None, 0);
    TakeIs(st, n, h.challenge, h);
    OneStep(steps, st, s);
    steps', st' := steps + [s], Next(st, s);
  }

  lemma Verifies(steps: seq<Step>, st: State, n: nat, k: Checked) returns (steps': seq<Step>, st': State)
    requires Reaches(steps, st) && n !in st.calls
    requires TakeChecks(st.tables, st.ceremonies, k.held.challenge, None, 0) == Ok(k.held)
    requires SignerChecks(st.tables.registry, k.held, k.credential, true, NOW, None) == Ok(k)
    ensures Reaches(steps', st') && Moves(st, n, Ready(k), st')
    ensures st'.tables == st.tables && st'.ceremonies == st.ceremonies - {k.held.challenge} && st'.journal == st.journal
  {
    var steps1, st1 := Takes(steps, st, n, k.held);
    var s := SignedRuns.Verify(n, k.credential, true, NOW, None);
    OneStep(steps1, st1, s);
    steps', st' := steps1 + [s], Next(st1, s);
  }

  lemma SignsBelow(steps: seq<Step>, st: State, n: nat, k: Checked) returns (steps': seq<Step>, st': State)
    requires Reaches(steps, st) && n in st.calls && st.calls[n] == Ready(k)
    requires Transact(st.tables, st.journal, k, true).verdict.Signed? && k.held.challenge in st.tables.challenges
    ensures Reaches(steps', st') && Moves(st, n, Over, st')
    ensures st'.tables == Consumed(st.tables, k) && st'.ceremonies == st.ceremonies
  {
    OneStep(steps, st, Settle(n, true));
    steps', st' := steps + [Settle(n, true)], Next(st, Settle(n, true));
  }

  lemma Crosses(steps: seq<Step>, st: State, n: nat, k: Checked) returns (steps': seq<Step>, st': State)
    requires Reaches(steps, st) && n in st.calls && st.calls[n] == Ready(k)
    requires Transact(st.tables, st.journal, k, true).verdict.Reached?
    requires k.held.challenge in st.tables.challenges && k.held.action in st.tables.actions
    ensures Reaches(steps', st') && st'.calls == st.calls[n := Marked(k)] && st'.effects == st.effects
    ensures st'.tables == MarkExecuted(Consumed(st.tables, k), k.held.action)
  {
    OneStep(steps, st, Settle(n, true));
    steps', st' := steps + [Settle(n, true)], Next(st, Settle(n, true));
  }

  lemma Records(steps: seq<Step>, st: State, n: nat, k: Checked) returns (steps': seq<Step>, st': State)
    requires Reaches(steps, st) && n in st.calls && st.calls[n] == Marked(k)
    ensures Reaches(steps', st') && st'.calls == st.calls[n := Announced(k)]
    ensures st'.tables == st.tables && st'.effects == st.effects
  {
    OneStep(steps, st, Announce(n, true));
    steps', st' := steps + [Announce(n, true)], Next(st, Announce(n, true));
  }

  lemma Concludes(steps: seq<Step>, st: State, n: nat, k: Checked) returns (steps': seq<Step>, st': State)
    requires Reaches(steps, st) && n in st.calls && st.calls[n] == Ready(k)
    requires Transact(st.tables, st.journal, k, true).verdict.Reached?
    requires k.held.challenge in st.tables.challenges && k.held.action in st.tables.actions
    ensures Reaches(steps', st') && st'.calls == st.calls[n := Announced(k)] && st'.effects == st.effects
    ensures st'.tables.registry == st.tables.registry && st'.tables.actions.Keys == st.tables.actions.Keys
    ensures st'.tables.challenges.Keys == st.tables.challenges.Keys
  {
    var steps1, st1 := Crosses(steps, st, n, k);
    steps', st' := Records(steps1, st1, n, k);
  }

  // ---- What a signature adds up to ----

  /** `hint` can sign `body` with `key`, were `required` signatures frozen on it. */
  predicate Able(db: Db, body: Action, required: nat, hint: string, key: string)
  {
    && Eligible(db, hint, body) && OwnedBy(db, key, hint) && !db.keys[key].revoked
    && CheckAction(db, body, hint, required, NOW, None).None?
  }

  lemma AbleHolds(db: Db, body: Action, required: nat, hint: string, key: string)
    requires Able(db, body, required, hint, key)
    ensures hint in Holders(db, body) && HasActiveKey(db, hint)
    ensures forall e: Evidence | e.operator == hint && e.credential == key :: Entitled(db, body, e)
  {
  }

  lemma {:induction false} NoSigners(db: Db, evidence: seq<Evidence>, action: string)
    requires forall e | e in evidence :: e.action != action
    ensures SignersOf(db, evidence, action) == []
    decreases |evidence|
  {
    if evidence != [] {
      NoSigners(db, Front(evidence), action);
    }
  }

  lemma OneMoreSigner(db: Db, evidence: seq<Evidence>, e: Evidence, action: string)
    requires e.action == action && e.operator in db.operators && e.credential in db.keys
    ensures SignersOf(db, evidence + [e], action) == SignersOf(db, evidence, action) + [e]
  {
    assert (evidence + [e])[..|evidence|] == evidence;
  }

  /** On an action with no evidence yet. */
  predicate Unsigned(t: Tables, action: string, challenges: set<string>)
  {
    forall e | e in t.evidence :: e.action != action && e.challenge !in challenges
  }

  lemma FreshIsUnsigned(t: Tables, action: string, challenges: set<string>)
    requires EvidenceOk(t) && action !in t.actions && challenges !! t.challenges.Keys
    ensures Unsigned(t, action, challenges)
  {
    forall e | e in t.evidence
      ensures e.action != action && e.challenge !in challenges
    {
      assert Grounded(t, e);
    }
  }

  predicate Waiting(t: Tables, h: Held)
  {
    && h.action in t.actions && t.actions[h.action].body == h.body && t.actions[h.action].required == h.required
    && !t.actions[h.action].executed && t.actions[h.action].expiresAt >= 0
    && h.challenge in t.challenges && !t.challenges[h.challenge].consumed && t.challenges[h.challenge].expiresAt >= 0
    && t.challenges[h.challenge].action == h.action && h.now == 0
  }

  /** The first of one signature, or of two. */
  lemma FirstSignature(t: Tables, journal: seq<Event>, k: Checked)
    requires Waiting(t, k.held) && Unsigned(t, k.held.action, {k.held.challenge})
    requires Able(t.registry, k.held.body, k.held.required, k.operator, k.credential)
    ensures var v := Transact(t, journal, k, true).verdict; if k.held.required <= 1 then v.Reached? else v.Signed?
    ensures SignersOf(t.registry, Consumed(t, k).evidence, k.held.action) == [EvidenceOf(k)]
  {
    AbleHolds(t.registry, k.held.body, k.held.required, k.operator, k.credential);
    NoSigners(t.registry, t.evidence, k.held.action);
    OneMoreSigner(t.registry, t.evidence, EvidenceOf(k), k.held.action);
    assert !Duplicate(t.evidence, EvidenceOf(k));
  }

  /** The second of two. */
  lemma SecondSignature(t: Tables, journal: seq<Event>, k: Checked, first: Evidence)
    requires Waiting(t, k.held) && k.held.required == 2 && !Duplicate(t.evidence, EvidenceOf(k))
    requires Able(t.registry, k.held.body, 2, k.operator, k.credential)
    requires SignersOf(t.registry, t.evidence, k.held.action) == [first] && Entitled(t.registry, k.held.body, first)
    ensures Transact(t, journal, k, true).verdict.Reached?
  {
    AbleHolds(t.registry, k.held.body, 2, k.operator, k.credential);
    OneMoreSigner(t.registry, t.evidence, EvidenceOf(k), k.held.action);
  }

  // ---- From nothing to an announced action ----

  /** Of the tables, the registry is as it was, and `action` and `challenges` are new. */
  predicate Adds(t: Tables, action: string, challenges: set<string>, t': Tables)
  {
    && t'.registry == t.registry && t'.actions.Keys == t.actions.Keys + {action}
    && t'.challenges.Keys == t.challenges.Keys + challenges
  }

  function HeldFor(challenge: string, action: string, body: Action, required: nat): Held
  {
    Held(challenge, action, body, required, 0)
  }

  lemma IssuedWaits(t: Tables, body: Action, hint: string, required: nat, action: string, challenge: string)
    ensures Waiting(Frozen(t, body, "h", hint, required, 0, action, challenge),
                    HeldFor(challenge, action, body, required))
  {
  }

  lemma CosignedWaits(t: Tables, h: Held, hint: string, challenge: string)
    requires Waiting(t, h) && challenge !in t.challenges
    ensures Waiting(Cosigned(t, h.action, hint, 0, challenge), h)
    ensures Waiting(Cosigned(t, h.action, hint, 0, challenge), h.(challenge := challenge))
  {
  }

  lemma OthersWait(t: Tables, k: Checked, h: Held)
    requires Waiting(t, h) && k.held.challenge in t.challenges && h.challenge != k.held.challenge
    ensures Waiting(Consumed(t, k), h)
  {
  }

  lemma WaitingVerifies(t: Tables, ceremonies: set<string>, h: Held, operator: string, key: string)
    requires Waiting(t, h) && h.challenge in ceremonies && Able(t.registry, h.body, h.required, operator, key)
    ensures TakeChecks(t, ceremonies, h.challenge, None, 0) == Ok(h)
    ensures SignerChecks(t.registry, h, key, true, NOW, None) == Ok(Checked(h, operator, key))
  {
  }

  lemma AbleIssues(db: Db, body: Action, required: nat, hint: string, key: string, other: string)
    requires Able(db, body, required, hint, key) && required == RequiredSignatures(db, body, false)
    requires required == 1 || (required == 2 && other != hint && other in Holders(db, body))
    ensures IssueChecks(db, body, hint, false, NOW, None) == Ok(required)
  {
    AbleHolds(db, body, required, hint, key);
    if required == 2 {
      Two(Holders(db, body), hint, other);
    }
  }

  lemma Two(s: set<string>, x: string, y: string)
    requires x in s && y in s && x != y
    ensures |s| >= 2
  {
    assert |s| == |s - {x}| + 1 && y in s - {x};
  }

  lemma FrozenAdds(t: Tables, body: Action, hint: string, required: nat, action: string, challenge: string)
    requires Unsigned(t, action, {challenge})
    ensures var t' := Frozen(t, body, "h", hint, required, 0, action, challenge);
            Adds(t, action, {challenge}, t') && Unsigned(t', action, {challenge}) && t'.evidence == t.evidence
  {
  }

  /** A challenge that waits for its signer. */
  predicate Open(st: State, h: Held)
  {
    Waiting(st.tables, h) && h.challenge in st.ceremonies
  }

  lemma IssuesOpen(steps: seq<Step>, st: State, n: nat, h: Held, hint: string, key: string, other: string)
    returns (steps': seq<Step>, st': State)
    requires Reaches(steps, st) && n !in st.calls && h.now == 0
    requires h.action !in st.tables.actions && h.challenge !in st.tables.challenges
    requires h.required == RequiredSignatures(st.tables.registry, h.body, false)
    requires Able(st.tables.registry, h.body, h.required, hint, key)
    requires h.required == 1 || (h.required == 2 && other != hint && other in Holders(st.tables.registry, h.body))
    ensures Reaches(steps', st') && Moves(st, n, Over, st') && Open(st', h)
    ensures Adds(st.tables, h.action, {h.challenge}, st'.tables) && Unsigned(st'.tables, h.action, {h.challenge})
    ensures st'.tables.evidence == st.tables.evidence
  {
    RunKeeps(steps, st);
    FreshIsUnsigned(st.tables, h.action, {h.challenge});
    AbleIssues(st.tables.registry, h.body, h.required, hint, key, other);
    IssuedWaits(st.tables, h.body, hint, h.required, h.action, h.challenge);
    FrozenAdds(st.tables, h.body, hint, h.required, h.action, h.challenge);
    steps', st' := Issues(steps, st, n, h.body, hint, h.required, h.action, h.challenge);
  }

  lemma Presents(steps: seq<Step>, st: State, n: nat, k: Checked) returns (steps': seq<Step>, st': State)
    requires Reaches(steps, st) && n !in st.calls && Open(st, k.held)
    requires Able(st.tables.registry, k.held.body, k.held.required, k.operator, k.credential)
    ensures Reaches(steps', st') && Moves(st, n, Ready(k), st')
    ensures k.held.challenge in st.tables.challenges && k.held.action in st.tables.actions
    ensures st'.tables == st.tables && st'.ceremonies == st.ceremonies - {k.held.challenge} && st'.journal == st.journal
  {
    WaitingVerifies(st.tables, st.ceremonies, k.held, k.operator, k.credential);
    steps', st' := Verifies(steps, st, n, k);
  }

  lemma Finishes(steps: seq<Step>, st: State, n: nat, k: Checked) returns (steps': seq<Step>, st': State)
    requires Reaches(steps, st) && n !in st.calls && Open(st, k.held)
    requires Able(st.tables.registry, k.held.body, k.held.required, k.operator, k.credential)
    requires Transact(st.tables, st.journal, k, true).verdict.Reached?
    ensures Reaches(steps', st') && st'.calls == st.calls[n := Announced(k)] && st'.effects == st.effects
    ensures st'.tables.registry == st.tables.registry && st'.tables.actions.Keys == st.tables.actions.Keys
    ensures st'.tables.challenges.Keys == st.tables.challenges.Keys
  {
    var steps1, st1 := Presents(steps, st, n, k);
    steps', st' := Concludes(steps1, st1, n, k);
    assert st1.calls[n := Announced(k)] == st.calls[n := Announced(k)];
  }

  /** An action that one signature decides. */
  lemma AnnouncesOne(steps: seq<Step>, st: State, n: nat, k: Checked)
    returns (steps': seq<Step>, st': State)
    requires Reaches(steps, st) && n !in st.calls && n + 1 !in st.calls && k.held.now == 0
    requires k.held.action !in st.tables.actions && k.held.challenge !in st.tables.challenges
    requires RequiredSignatures(st.tables.registry, k.held.body, false) == 1 == k.held.required
    requires Able(st.tables.registry, k.held.body, 1, k.operator, k.credential)
    ensures Reaches(steps', st') && st'.calls == st.calls[n := Over][n + 1 := Announced(k)]
    ensures Adds(st.tables, k.held.action, {k.held.challenge}, st'.tables) && st'.effects == st.effects
  {
    var steps1, st1 := IssuesOpen(steps, st, n, k.held, k.operator, k.credential, k.operator);
    FirstSignature(st1.tables, st1.journal, k);
    steps', st' := Finishes(steps1, st1, n + 1, k);
  }

  /** One that two decide. */
  lemma SignsFirst(steps: seq<Step>, st: State, n: nat, k: Checked) returns (steps': seq<Step>, st': State)
    requires Reaches(steps, st) && n !in st.calls && Open(st, k.held)
    requires Able(st.tables.registry, k.held.body, k.held.required, k.operator, k.credential)
    requires Transact(st.tables, st.journal, k, true).verdict.Signed?
    ensures Reaches(steps', st') && Moves(st, n, Over, st') && k.held.challenge in st.tables.challenges
    ensures st'.tables == Consumed(st.tables, k) && st'.ceremonies == st.ceremonies - {k.held.challenge}
  {
    var steps1, st1 := Presents(steps, st, n, k);
    steps', st' := SignsBelow(steps1, st1, n, k);
  }

  lemma CosignsOpen(steps: seq<Step>, st: State, n: nat, h: Held, hint: string, key: string, challenge: string)
    returns (steps': seq<Step>, st': State)
    requires Reaches(steps, st) && n !in st.calls && Open(st, h) && challenge !in st.tables.challenges
    requires Unsigned(st.tables, h.action, {h.challenge}) && Able(st.tables.registry, h.body, h.required, hint, key)
    ensures Reaches(steps', st') && Moves(st, n, Over, st') && Open(st', h) && Open(st', h.(challenge := challenge))
    ensures st'.tables.registry == st.tables.registry && st'.tables.actions == st.tables.actions
    ensures st'.tables.challenges.Keys == st.tables.challenges.Keys + {challenge}
    ensures st'.tables.evidence == st.tables.evidence && Unsigned(st'.tables, h.action, {h.challenge, challenge})
  {
    RunKeeps(steps, st);
    assert forall e | e in st.tables.evidence :: Grounded(st.tables, e) && e.challenge != challenge;
    AbleHolds(st.tables.registry, h.body, h.required, hint, key);
    CosignedWaits(st.tables, h, hint, challenge);
    steps', st' := Cosigns(steps, st, n, h.action, hint, challenge);
  }

  lemma TwoOpen(steps: seq<Step>, st: State, n: nat, k: Checked, hint: string, key: string, challenge: string)
    returns (steps': seq<Step>, st': State)
    requires Reaches(steps, st) && n !in st.calls && n + 1 !in st.calls
    requires k.held.now == 0 && challenge != k.held.challenge && hint != k.operator
    requires k.held.action !in st.tables.actions && {challenge, k.held.challenge} !! st.tables.challenges.Keys
    requires RequiredSignatures(st.tables.registry, k.held.body, false) == 2 == k.held.required
    requires Able(st.tables.registry, k.held.body, 2, k.operator, k.credential)
    requires Able(st.tables.registry, k.held.body, 2, hint, key)
    ensures Reaches(steps', st') && Open(st', k.held) && Open(st', k.held.(challenge := challenge))
    ensures st'.calls == st.calls[n := Over][n + 1 := Over] && st'.effects == st.effects
    ensures Adds(st.tables, k.held.action, {k.held.challenge, challenge}, st'.tables)
    ensures Unsigned(st'.tables, k.held.action, {k.held.challenge, challenge})
  {
    AbleHolds(st.tables.registry, k.held.body, 2, hint, key);
    var steps1, st1 := IssuesOpen(steps, st, n, k.held, k.operator, k.credential, hint);
    steps', st' := CosignsOpen(steps1, st1, n + 1, k.held, hint, key, challenge);
  }

  lemma NotTwice(t: Tables, k: Checked, k': Checked)
    requires Unsigned(t, k'.held.action, {k'.held.challenge}) && k.held.challenge in t.challenges
    requires k.held.challenge != k'.held.challenge && k.operator != k'.operator
    ensures !Duplicate(Consumed(t, k).evidence, EvidenceOf(k'))
  {
  }

  lemma TwoSign(steps: seq<Step>, st: State, n: nat, k: Checked, k': Checked)
    returns (steps': seq<Step>, st': State)
    requires Reaches(steps, st) && n !in st.calls && n + 1 !in st.calls && Open(st, k.held) && Open(st, k'.held)
    requires k'.held == k.held.(challenge := k'.held.challenge) && k'.held.challenge != k.held.challenge
    requires k'.operator != k.operator && k.held.required == 2
    requires Unsigned(st.tables, k.held.action, {k.held.challenge, k'.held.challenge})
    requires Able(st.tables.registry, k.held.body, 2, k.operator, k.credential)
    requires Able(st.tables.registry, k.held.body, 2, k'.operator, k'.credential)
    ensures Reaches(steps', st') && st'.calls == st.calls[n := Over][n + 1 := Announced(k')]
    ensures st'.tables.registry == st.tables.registry && st'.tables.actions.Keys == st.tables.actions.Keys
    ensures st'.tables.challenges.Keys == st.tables.challenges.Keys && st'.effects == st.effects
  {
    AbleHolds(st.tables.registry, k.held.body, 2, k.operator, k.credential);
    FirstSignature(st.tables, st.journal, k);
    var steps1, st1 := SignsFirst(steps, st, n, k);
    OthersWait(st.tables, k, k'.held);
    NotTwice(st.tables, k, k');
    SecondSignature(st1.tables, st1.journal, k', EvidenceOf(k));
    steps', st' := Finishes(steps1, st1, n + 1, k');
  }

  lemma AnnouncesTwo(steps: seq<Step>, st: State, n: nat, k: Checked, k': Checked)
    returns (steps': seq<Step>, st': State)
    requires Reaches(steps, st) && forall m | m in st.calls :: m < n
    requires k'.held == k.held.(challenge := k'.held.challenge) && k'.held.challenge != k.held.challenge
    requires k'.operator != k.operator && k.held.now == 0
    requires k.held.action !in st.tables.actions && {k'.held.challenge, k.held.challenge} !! st.tables.challenges.Keys
    requires RequiredSignatures(st.tables.registry, k.held.body, false) == 2 == k.held.required
    requires Able(st.tables.registry, k.held.body, 2, k.operator, k.credential)
    requires Able(st.tables.registry, k.held.body, 2, k'.operator, k'.credential)
    ensures Reaches(steps', st')
    ensures st'.calls == st.calls[n := Over][n + 1 := Over][n + 2 := Over][n + 3 := Announced(k')]
    ensures Adds(st.tables, k.held.action, {k.held.challenge, k'.held.challenge}, st'.tables)
            && st'.effects == st.effects
  {
    var steps1, st1 := TwoOpen(steps, st, n, k, k'.operator, k'.credential, k'.held.challenge);
    steps', st' := TwoSign(steps1, st1, n + 2, k, k');
  }

  lemma Performs(steps: seq<Step>, st: State, n: nat, k: Checked, after: Db) returns (steps': seq<Step>, st': State)
    requires Reaches(steps, st) && n in st.calls && st.calls[n] == Announced(k)
    requires k.held.body.OnRegistry() && k.held.now == 0
    requires var p := PlayAction(st.tables.registry, k.held.body, k.operator, k.held.required, NOW);
             p.Ok? && p.value.db == after
    ensures Reaches(steps', st') && st'.calls == st.calls[n := Over] && st'.tables.registry == after
    ensures st.effects <= st'.effects && |st'.effects| == |st.effects| + 1
  {
    OneStep(steps, st, Perform(n, "", true, None));
    steps', st' := steps + [Perform(n, "", true, None)], Next(st, Perform(n, "", true, None));
  }

  // ---- Three administrators ----

  predicate Administers(db: Db, name: string, key: string)
  {
    && name in db.operators && db.operators[name] == OperatorRow(ADMIN, false)
    && OwnedBy(db, key, name) && !db.keys[key].revoked
  }

  /** Three administrators with one key each, and no other. */
  datatype Trio = Trio(a: string, b: string, c: string, ka: string, kb: string, kc: string) {
    predicate In(db: Db)
    {
      && a != b && b != c && a != c
      && Administers(db, a, ka) && Administers(db, b, kb) && Administers(db, c, kc)
      && ActiveAdminKeys(db) == {ka, kb, kc}
    }
  }

  const REASON := "lost"

  lemma ReasonIsWritten()
    ensures Trim(REASON) == REASON
  {
    assert REASON[0] == 'l' && REASON[3] == 't';
  }

  lemma CanRevoke(db: Db, key: string, other: string, hint: string, own: string)
    requires Administers(db, hint, own) && key in ActiveAdminKeys(db) && other in ActiveAdminKeys(db) && other != key
    ensures Able(db, RevokeKey(key, REASON), 1, hint, own) && PlayRevoke(db, key, REASON).Ok?
  {
    ReasonIsWritten();
    RoleRoundTrip(Admin, "");
    assert other in ActiveAdminKeys(db) - {key};
  }

  lemma CanDemote(db: Db, name: string, hint: string, own: string)
    requires Administers(db, hint, own) && name in db.operators && db.operators[name] == OperatorRow(ADMIN, false)
    requires name != hint
    ensures Able(db, SetRole(name, Auditeur), 2, hint, own)
    ensures RequiredSignatures(db, SetRole(name, Auditeur), false) == 2
  {
    RoleRoundTrip(Admin, "");
    RoleRoundTrip(Auditeur, "");
  }

  /** Demoting the one administrator who still holds a key. */
  lemma LastDemoted(db: Db, name: string, key: string, actor: string) returns (after: Db)
    requires Administers(db, name, key) && ActiveAdminKeys(db) == {key} && actor != name
    ensures var p := PlayAction(db, SetRole(name, Auditeur), actor, 2, NOW); p.Ok? && p.value.db == after
    ensures ActiveAdminKeys(after) == {}
  {
    RoleRoundTrip(Admin, "");
    RoleRoundTrip(Auditeur, "");
    SetRoleEmptiesIff(db, name, Auditeur, actor, 2);
    after := PlaySetRole(db, name, Auditeur, actor, 2).value.db;
  }

  /** The three effects, one after the other, each on what the one before left. */
  lemma NoneLeft(db: Db, t: Trio) returns (one: Db, two: Db, three: Db)
    requires t.In(db)
    ensures var p := PlayAction(db, RevokeKey(t.ka, REASON), t.c, 1, NOW); p.Ok? && p.value.db == one
    ensures var p := PlayAction(one, RevokeKey(t.kb, REASON), t.c, 1, NOW); p.Ok? && p.value.db == two
    ensures var p := PlayAction(two, SetRole(t.c, Auditeur), t.b, 2, NOW); p.Ok? && p.value.db == three
    ensures ActiveAdminKeys(three) == {}
  {
    CanRevoke(db, t.ka, t.kb, t.c, t.kc);
    one := PlayRevoke(db, t.ka, REASON).value.db;
    assert ActiveAdmin(one, t.kb) && ActiveAdmin(one, t.kc);
    CanRevoke(one, t.kb, t.kc, t.c, t.kc);
    two := PlayRevoke(one, t.kb, REASON).value.db;
    assert ActiveAdmin(two, t.kc);
    forall k | k in ActiveAdminKeys(two)
      ensures k == t.kc
    {
      assert k in ActiveAdminKeys(db);
    }
    three := LastDemoted(two, t.c, t.kc, t.b);
  }

  // ---- The overlap ----

  /** The names a run still has to give: calls from `n` on, three actions, four challenges. */
  datatype Names = Names(n: nat, x: string, y: string, z: string, c1: string, c2: string, c3: string, c4: string) {
    ghost predicate NewIn(st: State)
    {
      && (forall m | m in st.calls :: m < n)
      && x != y && y != z && x != z && c1 != c2 && c1 != c3 && c1 != c4 && c2 != c3 && c2 != c4 && c3 != c4
      && x !in st.tables.actions && y !in st.tables.actions && z !in st.tables.actions
      && c1 !in st.tables.challenges && c2 !in st.tables.challenges
      && c3 !in st.tables.challenges && c4 !in st.tables.challenges
    }
  }

  function FirstRevocation(t: Trio, x: Names): Checked
  {
    Checked(HeldFor(x.c1, x.x, RevokeKey(t.ka, REASON), 1), t.c, t.kc)
  }

  function SecondRevocation(t: Trio, x: Names): Checked
  {
    Checked(HeldFor(x.c2, x.y, RevokeKey(t.kb, REASON), 1), t.c, t.kc)
  }

  function Demotion(t: Trio, x: Names): Checked
  {
    Checked(HeldFor(x.c4, x.z, SetRole(t.c, Auditeur), 2), t.b, t.kb)
  }

  /** The calls of `st` go on where they are, and `n`, the last of the new, has announced `k`. */
  predicate HasAnnounced(st: State, n: nat, k: Checked, st': State)
  {
    && (forall m | m in st.calls :: m in st'.calls && st'.calls[m] == st.calls[m])
    && n in st'.calls && st'.calls[n] == Announced(k)
    && (forall m | m in st'.calls :: m in st.calls || m <= n)
  }

  lemma AfterTwo(st: State, n: nat, k: Checked, st': State)
    requires forall m | m in st.calls :: m < n
    requires st'.calls == st.calls[n := Over][n + 1 := Announced(k)]
    ensures HasAnnounced(st, n + 1, k, st')
  {
  }

  lemma AfterFour(st: State, n: nat, k: Checked, st': State)
    requires forall m | m in st.calls :: m < n
    requires st'.calls == st.calls[n := Over][n + 1 := Over][n + 2 := Over][n + 3 := Announced(k)]
    ensures HasAnnounced(st, n + 3, k, st')
  {
  }

  lemma RevokersAble(db: Db, t: Trio, body: Action)
    requires t.In(db) && (body == RevokeKey(t.ka, REASON) || body == RevokeKey(t.kb, REASON))
    ensures Able(db, body, 1, t.c, t.kc) && RequiredSignatures(db, body, false) == 1
  {
    CanRevoke(db, t.ka, t.kb, t.c, t.kc);
    CanRevoke(db, t.kb, t.ka, t.c, t.kc);
  }

  lemma RevocationAnnounced(steps: seq<Step>, st: State, n: nat, t: Trio, k: Checked)
    returns (steps': seq<Step>, st': State)
    requires Reaches(steps, st) && t.In(st.tables.registry) && forall m | m in st.calls :: m < n
    requires k.operator == t.c && k.credential == t.kc
    requires k.held.body == RevokeKey(t.ka, REASON) || k.held.body == RevokeKey(t.kb, REASON)
    requires k.held.required == 1 && k.held.now == 0
    requires k.held.action !in st.tables.actions && k.held.challenge !in st.tables.challenges
    ensures Reaches(steps', st') && HasAnnounced(st, n + 1, k, st')
    ensures st'.tables.registry == st.tables.registry && st'.effects == st.effects
    ensures forall a :: a !in st.tables.actions && a != k.held.action ==> a !in st'.tables.actions
    ensures forall c :: c !in st.tables.challenges && c != k.held.challenge ==> c !in st'.tables.challenges
  {
    RevokersAble(st.tables.registry, t, k.held.body);
    steps', st' := AnnouncesOne(steps, st, n, k);
    AfterTwo(st, n, k, st');
  }

  lemma RevocationsAnnounced(steps: seq<Step>, st: State, t: Trio, x: Names) returns (steps': seq<Step>, st': State)
    requires Reaches(steps, st) && t.In(st.tables.registry) && x.NewIn(st)
    ensures Reaches(steps', st') && st'.tables.registry == st.tables.registry && st'.effects == st.effects
    ensures x.n + 1 in st'.calls && st'.calls[x.n + 1] == Announced(FirstRevocation(t, x))
    ensures x.n + 3 in st'.calls && st'.calls[x.n + 3] == Announced(SecondRevocation(t, x))
    ensures forall m | m in st'.calls :: m < x.n + 4
    ensures x.z !in st'.tables.actions && x.c3 !in st'.tables.challenges && x.c4 !in st'.tables.challenges
  {
    var steps1, st1 := RevocationAnnounced(steps, st, x.n, t, FirstRevocation(t, x));
    steps', st' := RevocationAnnounced(steps1, st1, x.n + 2, t, SecondRevocation(t, x));
  }

  lemma DemotersAble(db: Db, t: Trio)
    requires t.In(db)
    ensures Able(db, SetRole(t.c, Auditeur), 2, t.a, t.ka) && Able(db, SetRole(t.c, Auditeur), 2, t.b, t.kb)
    ensures RequiredSignatures(db, SetRole(t.c, Auditeur), false) == 2
  {
    CanDemote(db, t.c, t.a, t.ka);
    CanDemote(db, t.c, t.b, t.kb);
  }

  lemma DemotionAnnounced(steps: seq<Step>, st: State, t: Trio, x: Names) returns (steps': seq<Step>, st': State)
    requires Reaches(steps, st) && t.In(st.tables.registry) && forall m | m in st.calls :: m < x.n + 4
    requires x.z !in st.tables.actions && x.c3 !in st.tables.challenges && x.c4 !in st.tables.challenges
    requires x.c3 != x.c4
    ensures Reaches(steps', st') && st'.tables.registry == st.tables.registry && st'.effects == st.effects
    ensures HasAnnounced(st, x.n + 7, Demotion(t, x), st')
  {
    DemotersAble(st.tables.registry, t);
    var first := Checked(HeldFor(x.c3, x.z, SetRole(t.c, Auditeur), 2), t.a, t.ka);
    steps', st' := AnnouncesTwo(steps, st, x.n + 4, first, Demotion(t, x));
    AfterFour(st, x.n + 4, Demotion(t, x), st');
  }

  /** All three get through to their announcement before any effect. */
  lemma AllAnnounced(steps: seq<Step>, st: State, t: Trio, x: Names) returns (steps': seq<Step>, st': State)
    requires Reaches(steps, st) && t.In(st.tables.registry) && x.NewIn(st)
    ensures Reaches(steps', st') && st'.tables.registry == st.tables.registry && st'.effects == st.effects
    ensures {x.n + 1, x.n + 3, x.n + 7} <= st'.calls.Keys
    ensures st'.calls[x.n + 1] == Announced(FirstRevocation(t, x))
    ensures st'.calls[x.n + 3] == Announced(SecondRevocation(t, x))
    ensures st'.calls[x.n + 7] == Announced(Demotion(t, x))
  {
    var steps1, st1 := RevocationsAnnounced(steps, st, t, x);
    steps', st' := DemotionAnnounced(steps1, st1, t, x);
  }

  /** From any reachable state of the protocol in which three administrators hold one key
      each: c's signature revokes a's key and b's key, those of a and b demote c, each of the
      three properly signed, each effect passes its own checks, and no administrator is left. */
  lemma OverlapCanEmpty(steps: seq<Step>, st: State, t: Trio, x: Names) returns (steps': seq<Step>, st': State)
    requires Reaches(steps, st) && t.In(st.tables.registry) && x.NewIn(st)
    ensures Reaches(steps', st') && ActiveAdminKeys(st'.tables.registry) == {}
    ensures st.effects <= st'.effects && |st'.effects| == |st.effects| + 3
    ensures forall r | r in st'.effects :: ProperlySigned(st', r)
  {
    var one, two, three := NoneLeft(st.tables.registry, t);
    var steps1, st1 := AllAnnounced(steps, st, t, x);
    var steps2, st2 := Performs(steps1, st1, x.n + 1, FirstRevocation(t, x), one);
    var steps3, st3 := Performs(steps2, st2, x.n + 3, SecondRevocation(t, x), two);
    steps', st' := Performs(steps3, st3, x.n + 7, Demotion(t, x), three);
    AnyInterleaving(steps', st');
  }

  const ONE_KEY_EACH: Db := Db(
    map["a" := OperatorRow(ADMIN, false), "b" := OperatorRow(ADMIN, false), "c" := OperatorRow(ADMIN, false)],
    map["ka" := KeyRow("a", BOOTSTRAP, None, "fp", false), "kb" := KeyRow("b", BOOTSTRAP, None, "fp", false),
        "kc" := KeyRow("c", BOOTSTRAP, None, "fp", false)],
    map[], map[])

  /** Such a state exists, before anything is issued. */
  lemma OverlapFromTheStart() returns (steps: seq<Step>, st: State)
    ensures Reaches(steps, st) && ActiveAdminKeys(st.tables.registry) == {} && |st.effects| == 3
  {
    var t := Trio("a", "b", "c", "ka", "kb", "kc");
    var start := State(Tables(ONE_KEY_EACH, map[], map[], []), {}, [], map[], map[], []);
    var x := Names(0, "x", "y", "z", "1", "2", "3", "4");
    assert t.In(ONE_KEY_EACH);
    steps, st := OverlapCanEmpty([], start, t, x);
  }
}
