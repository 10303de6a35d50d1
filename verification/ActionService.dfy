/** The service itself, over the mutable tables: each call, from its first read to its effect,
    is proved to take exactly the steps of the protocol, so that what holds of every run holds
    of the service after any calls, whatever others did to the registry in between. */
module ActionService {
  import opened Basics
  import opened Actions
  import opened Registry
  import opened SignedActions
  import opened SignedRuns
  import opened LastAdmin
  import WholeCalls

  lemma SettledIs(st: State, x: Whole)
    ensures var s := Verified(st, x);
            Settled(st, x)
            == if x.call in s.calls && s.calls[x.call].Ready? then AfterSettle(s, x.call, x.signUp) else s
  {
  }

  /** All that one issuance is given. */
  datatype Issue = Issue(call: nat, body: Action, hint: string, twoPerson: bool, draw: Draw, target: Option<Refusal>,
                         action: string, hash: string, challenge: string, up: bool)

  function Begun(st: State, x: Issue): State
  {
    Try(st, Begin(x.call, x.body, x.hint, x.twoPerson, x.draw, x.target))
  }

  function Issued(st: State, x: Issue): State
  {
    Try(Begun(st, x), Freeze(x.call, x.action, x.hash, x.challenge, x.up))
  }

  /** All that one more signer is given. */
  datatype Cosign = Cosign(call: nat, action: string, hint: string, draw: Draw, target: Option<Refusal>,
                           challenge: string, up: bool)

  function CosignBegun(st: State, x: Cosign): State
  {
    Try(st, BeginCosign(x.call, x.action, x.hint, x.draw, x.target))
  }

  function CosignIssued(st: State, x: Cosign): State
  {
    Try(CosignBegun(st, x), FreezeCosign(x.call, x.challenge, x.up))
  }

  lemma CosignBegunIs(st: State, x: Cosign)
    requires x.call !in st.calls
    ensures var b := CosignBegun(st, x);
            && b.tables == st.tables && b.ceremonies == st.ceremonies && b.journal == st.journal && x.call in b.calls
            && (if CosignChecks(st.tables, x.action, x.hint, x.draw, x.target).Some?
                then b.calls[x.call] == Over && CosignIssued(st, x) == b
                else b.calls[x.call] == Cosigning(x.action, x.hint, x.draw.now)
                     && CosignIssued(st, x) == AfterCosign(b, x.call, x.challenge, x.up))
  {
  }

  lemma StepReaches(steps: seq<Step>, st: State, s: Step) returns (steps': seq<Step>)
    requires Reaches(steps, st)
    ensures Reaches(steps', Try(st, s))
  {
    steps' := steps;
    if Enabled(st, s) {
      OneStep(steps, st, s);
      steps' := steps + [s];
    }
  }

  lemma IssuedReaches(steps: seq<Step>, st: State, x: Issue) returns (steps': seq<Step>)
    requires Reaches(steps, st)
    ensures Reaches(steps', Issued(st, x))
  {
    steps' := StepReaches(steps, st, Begin(x.call, x.body, x.hint, x.twoPerson, x.draw, x.target));
    steps' := StepReaches(steps', Begun(st, x), Freeze(x.call, x.action, x.hash, x.challenge, x.up));
  }

  lemma CosignReaches(steps: seq<Step>, st: State, x: Cosign) returns (steps': seq<Step>)
    requires Reaches(steps, st)
    ensures Reaches(steps', CosignIssued(st, x))
  {
    steps' := StepReaches(steps, st, BeginCosign(x.call, x.action, x.hint, x.draw, x.target));
    steps' := StepReaches(steps', CosignBegun(st, x), FreezeCosign(x.call, x.challenge, x.up));
  }

  lemma ExecutedReaches(steps: seq<Step>, st: State, x: Whole) returns (steps': seq<Step>)
    requires Reaches(steps, st)
    ensures Reaches(steps', Executed(st, x))
  {
    steps' := StepReaches(steps, st, Take(x.call, x.challenge, x.wanted, x.now));
    steps' := StepReaches(steps', Taken(st, x), SignedRuns.Verify(x.call, x.credential, x.valid, x.draw, x.target));
    steps' := StepReaches(steps', Verified(st, x), Settle(x.call, x.signUp));
    steps' := StepReaches(steps', Settled(st, x), Announce(x.call, x.announceUp));
    steps' := StepReaches(steps', Recorded(st, x), Perform(x.call, x.drawn, x.effectUp, x.outcome));
  }

  class Service {
    const store: Store
    var actions: map<string, ActionRow>
    var challenges: map<string, ChallengeRow>
    var evidence: seq<Evidence>
    var ceremonies: set<string>

    /** For the record: the run of the protocol that the calls so far make up. */
    ghost var run: State
    ghost var steps: seq<Step>

    function AllTables(): Tables
      reads this, store
    {
      Tables(store.Tables(), actions, challenges, evidence)
    }

    /** The tables, the ceremonies and the journal are those of `st`. */
    ghost predicate Shows(st: State)
      reads this, store
    {
      AllTables() == st.tables && ceremonies == st.ceremonies && store.journal == st.journal
    }

    /** The service is where its run is, but for what others did since to the registry and
        the journal, which only grows. */
    ghost predicate Valid()
      reads this, store
    {
      && Reaches(steps, run)
      && AllTables() == run.tables.(registry := store.Tables()) && ceremonies == run.ceremonies
      && run.journal <= store.journal
    }

    /** The run, brought up to date with what others did. */
    ghost function Now(): (st: State)
      requires Valid()
      reads this, store
      ensures Shows(st) && st.calls == run.calls && st.effects == run.effects
    {
      Next(run, Outside(store.Tables(), store.journal[|run.journal|..]))
    }

    lemma NowReaches() returns (steps': seq<Step>)
      requires Valid()
      ensures Reaches(steps', Now())
    {
      steps' := StepReaches(steps, run, Outside(store.Tables(), store.journal[|run.journal|..]));
    }

    constructor (store: Store)
      ensures this.store == store && actions == map[] && challenges == map[] && evidence == [] && ceremonies == {}
      ensures Valid() && Starts(run)
    {
      this.store := store;
      actions, challenges, evidence, ceremonies := map[], map[], [], {};
      run := State(Tables(store.Tables(), map[], map[], []), {}, store.journal, map[], map[], []);
      steps := [];
    }

    /** Writes the frozen action and its first challenge: journal first, tables after. */
    method FreezeAction(body: Action, hash: string, hint: string, required: nat, now: int, action: string,
                        challenge: string, up: bool, ghost st: State, ghost n: nat)
      returns (r: Option<Refusal>)
      requires Shows(st) && n in st.calls && st.calls[n] == Issuing(body, hint, required, now)
      modifies this`actions, this`challenges, this`ceremonies, store`journal
      ensures Shows(AfterFreeze(st, n, action, hash, challenge, up))
      ensures r == if !up then Some(JournalDown)
                   else if action in old(actions) || challenge in old(challenges) then Some(Database) else None
    {
      r := store.Write(IssuedEvent(action, challenge, hash), up);
      if r.Some? {
        return;
      }
      if action in actions || challenge in challenges {
        return Some(Database);
      }
      var expires := now + (if required > 1 then QUORUM_WINDOW else CHALLENGE_TTL);
      actions := actions[action := ActionRow(body, hash, expires, required, false)];
      challenges := challenges[challenge := ChallengeRow(action, hint, Min(now + CHALLENGE_TTL, expires), false)];
      ceremonies := ceremonies + {challenge};
    }

    /** Freezes an action and issues its first challenge, if the policy and the target allow. */
    method IssueChallenge(x: Issue) returns (r: Option<Refusal>)
      requires Valid() && x.call !in run.calls
      modifies this, store`journal
      ensures Valid() && run == Issued(old(Now()), x) && Shows(run)
      ensures var checks := IssueChecks(old(store.Tables()), x.body, x.hint, x.twoPerson, x.draw, x.target);
              r == if checks.Err? then Some(checks.error) else if !x.up then Some(JournalDown)
                   else if x.action in old(actions) || x.challenge in old(challenges) then Some(Database) else None
    {
      ghost var st := Now();
      ghost var reached := NowReaches();
      reached := IssuedReaches(reached, st, x);
      var checks := IssueChecks(store.Tables(), x.body, x.hint, x.twoPerson, x.draw, x.target);
      if checks.Err? {
        run, steps := Issued(st, x), reached;
        return Some(checks.error);
      }
      r := FreezeAction(x.body, x.hash, x.hint, checks.value, x.draw.now, x.action, x.challenge, x.up, Begun(st, x),
                        x.call);
      run, steps := Issued(st, x), reached;
    }

    /** Writes one more challenge on a frozen action. */
    method FreezeCosignature(action: string, hint: string, now: int, challenge: string, up: bool,
                             ghost st: State, ghost n: nat)
      returns (r: Option<Refusal>)
      requires Shows(st) && n in st.calls && st.calls[n] == Cosigning(action, hint, now) && action in actions
      modifies this`challenges, this`ceremonies, store`journal
      ensures Shows(AfterCosign(st, n, challenge, up))
      ensures r == if !up then Some(JournalDown) else if challenge in old(challenges) then Some(Database) else None
    {
      r := store.Write(IssuedEvent(action, challenge, actions[action].hash), up);
      if r.Some? {
        return;
      }
      if challenge in challenges {
        return Some(Database);
      }
      var expires := Min(now + CHALLENGE_TTL, actions[action].expiresAt);
      challenges := challenges[challenge := ChallengeRow(action, hint, expires, false)];
      ceremonies := ceremonies + {challenge};
    }

    /** Issues a challenge to one more signer of an action already frozen. */
    method IssueChallengeFor(x: Cosign) returns (r: Option<Refusal>)
      requires Valid() && x.call !in run.calls
      modifies this, store`journal
      ensures Valid() && run == CosignIssued(old(Now()), x) && Shows(run)
      ensures var checks := CosignChecks(old(AllTables()), x.action, x.hint, x.draw, x.target);
              r == if checks.Some? then checks else if !x.up then Some(JournalDown)
                   else if x.challenge in old(challenges) then Some(Database) else None
    {
      ghost var st := Now();
      ghost var reached := NowReaches();
      reached := CosignReaches(reached, st, x);
      CosignBegunIs(st, x);
      r := CosignChecks(AllTables(), x.action, x.hint, x.draw, x.target);
      if r.Some? {
        run, steps := CosignIssued(st, x), reached;
        return;
      }
      r := FreezeCosignature(x.action, x.hint, x.draw.now, x.challenge, x.up, CosignBegun(st, x), x.call);
      run, steps := CosignIssued(st, x), reached;
    }

    /** One attempt per ceremony: it leaves the memory whatever happens next. */
    method TakeCeremony(challenge: string, wanted: Option<Expect>, now: int) returns (r: Result<Held, Refusal>)
      modifies this`ceremonies
      ensures r == TakeChecks(AllTables(), old(ceremonies), challenge, wanted, now)
      ensures ceremonies == if r.Ok? then old(ceremonies) - {challenge} else old(ceremonies)
    {
      if challenge !in challenges || challenges[challenge].action !in actions {
        return Err(NotFound);
      }
      var id := challenges[challenge].action;
      if challenges[challenge].consumed || actions[id].executed {
        return Err(AlreadyUsed);
      }
      if now > challenges[challenge].expiresAt || now > actions[id].expiresAt {
        return Err(Expired);
      }
      if wanted.Some? {
        var refusal := wanted.value.Check(actions[id].body, id);
        if refusal.Some? {
          return Err(refusal.value);
        }
      }
      if challenge !in ceremonies {
        return Err(StateLost);
      }
      ceremonies := ceremonies - {challenge};
      r := Ok(Held(challenge, id, actions[id].body, actions[id].required, now));
    }

    method CollectSigners(rows: seq<Evidence>, action: string) returns (signers: seq<Evidence>)
      ensures signers == SignersOf(store.Tables(), rows, action)
    {
      signers := [];
      for i := 0 to |rows|
        invariant signers == SignersOf(store.Tables(), rows[..i], action)
      {
        var e := rows[i];
        assert rows[..i + 1][..i] == rows[..i];
        if e.action == action && e.operator in store.operators && e.credential in store.keys {
          signers := signers + [e];
        }
      }
      assert rows[..|rows|] == rows;
    }

    method AllEntitled(body: Action, signers: seq<Evidence>) returns (ok: bool)
      ensures ok <==> forall s | s in signers :: Entitled(store.Tables(), body, s)
    {
      for i := 0 to |signers|
        invariant forall j | 0 <= j < i :: Entitled(store.Tables(), body, signers[j])
      {
        if !Entitled(store.Tables(), body, signers[i]) {
          return false;
        }
      }
      ok := true;
    }

    /** The transaction under the action's lock; nothing is kept of a refused one. */
    method LockedTransaction(k: Checked, up: bool) returns (verdict: Verdict)
      modifies this`actions, this`challenges, this`evidence, store`journal
      ensures Transacted(AllTables(), store.journal, verdict) == Transact(old(AllTables()), old(store.journal), k, up)
    {
      var id, challenge := k.held.action, k.held.challenge;
      if id !in actions || actions[id].executed || challenge !in challenges || challenges[challenge].consumed {
        return Refused(AlreadyUsed);
      }
      var txChallenges := challenges[challenge := challenges[challenge].(consumed := true)];
      if Duplicate(evidence, EvidenceOf(k)) {
        return Refused(Denied);
      }
      if k.operator !in store.operators || k.credential !in store.keys {
        return Refused(Database);
      }
      var txEvidence := evidence + [EvidenceOf(k)];
      var signers := CollectSigners(txEvidence, id);
      if |signers| < k.held.required {
        var refusal := store.Write(SignedEvent(k), up);
        if refusal.Some? {
          return Refused(JournalDown);
        }
        challenges, evidence := txChallenges, txEvidence;
        return Signed(|signers|);
      }
      var entitled := AllEntitled(k.held.body, signers);
      if !entitled {
        return Refused(Denied);
      }
      actions := actions[id := actions[id].(executed := true)];
      challenges, evidence := txChallenges, txEvidence;
      verdict := Reached(signers);
    }

    /** From the first read to the verified assertion. */
    method VerifyAssertion(x: Whole, ghost st: State) returns (k: Option<Checked>)
      requires Shows(st) && x.call !in st.calls
      modifies this`ceremonies
      ensures Shows(Verified(st, x)) && Verified(st, x).effects == st.effects
      ensures x.call in Verified(st, x).calls
      ensures Verified(st, x).calls[x.call] == if k.Some? then Ready(k.value) else Over
    {
      var held := TakeCeremony(x.challenge, x.wanted, x.now);
      if held.Err? {
        return None;
      }
      assert Taken(st, x).calls[x.call] == Holding(held.value);
      var checked := SignerChecks(store.Tables(), held.value, x.credential, x.valid, x.draw, x.target);
      k := if checked.Ok? then Some(checked.value) else None;
    }

    /** The locked transaction of a call that verified its assertion. */
    method SettleCall(k: Checked, n: nat, up: bool, ghost st: State) returns (reached: bool)
      requires Shows(st) && n in st.calls && st.calls[n] == Ready(k)
      modifies this`actions, this`challenges, this`evidence, store`journal
      ensures var done := AfterSettle(st, n, up);
              && Shows(done) && n in done.calls && done.calls[n] == (if reached then Marked(k) else Over)
              && done.effects == st.effects
    {
      var verdict := LockedTransaction(k, up);
      reached := verdict.Reached?;
    }

    /** From the first read to the end of the locked transaction. */
    method Sign(x: Whole, ghost st: State) returns (k: Option<Checked>)
      requires Shows(st) && x.call !in st.calls
      modifies this`actions, this`challenges, this`evidence, this`ceremonies, store`journal
      ensures var done := Settled(st, x);
              && Shows(done) && done.effects == st.effects && x.call in done.calls
              && done.calls[x.call] == if k.Some? then Marked(k.value) else Over
    {
      k := VerifyAssertion(x, st);
      SettledIs(st, x);
      if k.Some? {
        var reached := SettleCall(k.value, x.call, x.signUp, Verified(st, x));
        if !reached {
          k := None;
        }
      }
    }

    /** From the record in the journal to the end of the effect. */
    method Finish(k: Checked, x: Whole, ghost st: State) returns (ran: bool)
      requires Shows(st) && x.call in st.calls && st.calls[x.call] == Marked(k)
      modifies store
      ensures var recorded := Try(st, Announce(x.call, x.announceUp));
              var done := Try(recorded, Perform(x.call, x.drawn, x.effectUp, x.outcome));
              Shows(done) && |done.effects| == |st.effects| + (if ran then 1 else 0)
    {
      var refusal := store.Write(ExecutedEvent(k), x.announceUp);
      if refusal.Some? {
        return false;
      }
      ghost var recorded := Try(st, Announce(x.call, x.announceUp));
      assert recorded.calls[x.call] == Announced(k) && Shows(recorded);
      if k.held.body.OnRegistry() {
        var draw := Draw(x.drawn, k.held.now);
        var _ := store.RunRegistryAction(k.held.body, k.operator, k.held.required, draw, true, x.effectUp);
      }
      ran := true;
    }

    method SignAndFinish(x: Whole, ghost st: State) returns (ran: bool)
      requires Shows(st) && x.call !in st.calls
      modifies this`actions, this`challenges, this`evidence, this`ceremonies, store
      ensures Shows(Executed(st, x)) && |Executed(st, x).effects| == |st.effects| + if ran then 1 else 0
    {
      var k := Sign(x, st);
      ran := false;
      if k.Some? {
        ran := Finish(k.value, x, Settled(st, x));
      }
    }

    /** A whole call; `ran` says whether the effect was run: exactly when the call signs rightly
        and reaches the threshold, and the journal takes the announcement. */
    method Execute(x: Whole) returns (ran: bool)
      requires Valid() && x.call !in run.calls
      modifies this, store
      ensures Valid() && run == Executed(old(Now()), x) && Shows(run)
      ensures |run.effects| == |old(run.effects)| + if ran then 1 else 0
      ensures ran <==> WholeCalls.Runs(old(Now()), x)
    {
      ghost var st := Now();
      ghost var reached := NowReaches();
      WholeCalls.RunsIff(reached, st, x);
      reached := ExecutedReaches(reached, st, x);
      ran := SignAndFinish(x, st);
      run, steps := Executed(st, x), reached;
    }

    /** So, after any calls: an effect runs at most once per action, after its record in the
        journal, and only when properly signed. */
    lemma AlwaysSigned()
      requires Valid()
      ensures forall i, j | 0 <= i < j < |run.effects| ::
                run.effects[i].checked.held.action != run.effects[j].checked.held.action
      ensures forall r | r in run.effects ::
                Written(store.journal, r.checked.held.action) && ProperlySigned(Now(), r)
    {
      var reached := NowReaches();
      AnyInterleaving(reached, Now());
      forall r | r in run.effects
        ensures Written(store.journal, r.checked.held.action)
      {
        assert store.journal[..r.announced] <= store.journal;
        WrittenKept(store.journal[..r.announced], store.journal, r.checked.held.action);
      }
    }
  }
}
