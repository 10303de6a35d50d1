/** Signed actions never take the last active administrator key away, as long as each
    execution runs from its reads to its effect without another in between. */
module LastAdmin {
  import opened Basics
  import opened Actions
  import opened Journal
  import ReplayRuns
  import opened Registry
  import opened SignedActions
  import opened SignedRuns

  lemma ConfirmKeepsActive(db: Db, id: string, fingerprint: string, actor: string, now: int)
    requires PlayConfirm(db, id, fingerprint, actor, now).Ok?
    ensures ActiveAdminKeys(db) <= ActiveAdminKeys(PlayConfirm(db, id, fingerprint, actor, now).value.db)
  {
  }

  lemma InviteKeepsActive(db: Db, name: string, role: Role, ttl: int, actor: string, now: int, quorum: nat,
                          invite: string)
    requires PlayInvite(db, name, role, ttl, actor, now, quorum, invite).Ok?
    ensures ActiveAdminKeys(db) <= ActiveAdminKeys(PlayInvite(db, name, role, ttl, actor, now, quorum, invite).value.db)
  {
  }

  lemma RevokeLeavesOne(db: Db, id: string, reason: string)
    requires PlayRevoke(db, id, reason).Ok? && ActiveAdminKeys(db) != {}
    ensures ActiveAdminKeys(PlayRevoke(db, id, reason).value.db) != {}
  {
    var after := PlayRevoke(db, id, reason).value.db;
    var j :| j in ActiveAdminKeys(db);
    assert ActiveAdminKeys(db) - {id} != {} by {
      if j != id {
        assert j in ActiveAdminKeys(db) - {id};
      }
    }
    var k :| k in ActiveAdminKeys(db) - {id};
    assert k in ActiveAdminKeys(after);
  }

  predicate AllOwnedBy(db: Db, name: string)
  {
    forall k | k in ActiveAdminKeys(db) :: db.keys[k].owner == name
  }

  lemma SetRoleEmptiesIff(db: Db, operator: string, role: Role, actor: string, quorum: nat)
    requires PlaySetRole(db, operator, role, actor, quorum).Ok? && ActiveAdminKeys(db) != {}
    ensures ActiveAdminKeys(PlaySetRole(db, operator, role, actor, quorum).value.db) == {}
       <==> role != Admin && AllOwnedBy(db, operator)
  {
    var after := PlaySetRole(db, operator, role, actor, quorum).value.db;
    RoleRoundTrip(role, "");
    RoleRoundTrip(Admin, "");
    if role == Admin || !AllOwnedBy(db, operator) {
      var k :| k in ActiveAdminKeys(db) && (role == Admin || db.keys[k].owner != operator);
      assert k in ActiveAdminKeys(after);
    } else {
      forall k
        ensures !ActiveAdmin(after, k)
      {
        assert ActiveAdmin(after, k) ==> k in ActiveAdminKeys(db);
      }
    }
  }

  /** A registry action that goes through takes the last active administrator key away
      precisely when it demotes the owner of all of them. */
  lemma ActionEmptiesIff(db: Db, a: Action, actor: string, quorum: nat, draw: Draw)
    requires PlayAction(db, a, actor, quorum, draw).Ok? && ActiveAdminKeys(db) != {}
    ensures ActiveAdminKeys(PlayAction(db, a, actor, quorum, draw).value.db) == {}
       <==> a.SetRole? && a.role != Admin && AllOwnedBy(db, a.operator)
  {
    match a
    case InviteOperator(name, role, ttl) => InviteKeepsActive(db, name, role, ttl, actor, draw.now, quorum, draw.drawn);
    case ConfirmKey(id, fingerprint) => ConfirmKeepsActive(db, id, fingerprint, actor, draw.now);
    case RevokeKey(id, reason) => RevokeLeavesOne(db, id, reason);
    case SetRole(operator, role) => SetRoleEmptiesIff(db, operator, role, actor, quorum);
    case _ =>
  }

  // ---- Executions in one piece ----

  /** The step if the call has got that far; else nothing. */
  function Try(st: State, s: Step): State
  {
    if Enabled(st, s) then Next(st, s) else st
  }

  /** All that one execution is given. */
  datatype Whole = Whole(call: nat, challenge: string, wanted: Option<Expect>, now: int,
                         credential: string, valid: bool, draw: Draw, target: Option<Refusal>,
                         signUp: bool, announceUp: bool, drawn: string, effectUp: bool, outcome: Option<Refusal>)

  function Taken(st: State, x: Whole): State
  {
    Try(st, Take(x.call, x.challenge, x.wanted, x.now))
  }

  function Verified(st: State, x: Whole): State
  {
    Try(Taken(st, x), SignedRuns.Verify(x.call, x.credential, x.valid, x.draw, x.target))
  }

  function Settled(st: State, x: Whole): State
  {
    Try(Verified(st, x), Settle(x.call, x.signUp))
  }

  function Recorded(st: State, x: Whole): State
  {
    Try(Settled(st, x), Announce(x.call, x.announceUp))
  }

  /** A whole execution, nothing else in between. */
  function Executed(st: State, x: Whole): State
  {
    Try(Recorded(st, x), Perform(x.call, x.drawn, x.effectUp, x.outcome))
  }

  predicate OwnedBy(db: Db, credential: string, operator: string)
  {
    credential in db.keys && db.keys[credential].owner == operator
  }

  /** What is signed, or about to be, is signed by the present owner of the key. */
  ghost predicate OwnersHold(st: State)
  {
    && (forall e | e in st.tables.evidence :: OwnedBy(st.tables.registry, e.credential, e.operator))
    && (forall n | n in st.calls && st.calls[n].Ready? ::
          OwnedBy(st.tables.registry, st.calls[n].checked.credential, st.calls[n].checked.operator))
  }

  ghost predicate Sound(st: State)
  {
    Inv(st) && OwnersHold(st)
  }

  predicate KeepsOwners(db: Db, db': Db)
  {
    forall id | id in db.keys :: id in db'.keys && db'.keys[id].owner == db.keys[id].owner
  }

  lemma ActionKeepsOwners(db: Db, a: Action, actor: string, quorum: nat, draw: Draw)
    requires PlayAction(db, a, actor, quorum, draw).Ok?
    ensures KeepsOwners(db, PlayAction(db, a, actor, quorum, draw).value.db)
  {
  }

  lemma EffectKeepsOwners(db: Db, journal: seq<Event>, k: Checked, drawn: string, up: bool, target: Option<Refusal>)
    ensures KeepsOwners(db, Effect(db, journal, k, drawn, up, target).0.db)
  {
    var draw := Draw(drawn, k.held.now);
    if PlayAction(db, k.held.body, k.operator, k.held.required, draw).Ok? {
      ActionKeepsOwners(db, k.held.body, k.operator, k.held.required, draw);
    }
  }

  lemma SettleKeepsOwners(st: State, n: nat, up: bool)
    requires OwnersHold(st) && Enabled(st, Settle(n, up))
    ensures OwnersHold(AfterSettle(st, n, up)) && AfterSettle(st, n, up).tables.registry == st.tables.registry
  {
    var k := st.calls[n].checked;
    assert AfterSettle(st, n, up).tables.evidence == st.tables.evidence
        || AfterSettle(st, n, up).tables.evidence == st.tables.evidence + [EvidenceOf(k)];
  }

  lemma PerformKeepsOwners(st: State, n: nat, drawn: string, up: bool, target: Option<Refusal>)
    requires OwnersHold(st) && Enabled(st, Perform(n, drawn, up, target))
    ensures OwnersHold(AfterPerform(st, n, drawn, up, target))
  {
    EffectKeepsOwners(st.tables.registry, st.journal, st.calls[n].checked, drawn, up, target);
  }

  /** Only an effect, or someone outside, changes the registry. */
  lemma NextKeepsRegistry(st: State, s: Step)
    requires Enabled(st, s) && !s.Outside? && !s.Perform?
    ensures Next(st, s).tables.registry == st.tables.registry
  {
  }

  lemma CallStepKeepsOwners(st: State, s: Step)
    requires OwnersHold(st) && Enabled(st, s) && !s.Outside? && !s.Perform? && !s.Settle?
    ensures OwnersHold(Next(st, s))
  {
  }

  /** Within the service, no step breaks this. */
  lemma NextIsSound(st: State, s: Step)
    requires Sound(st) && Enabled(st, s) && !s.Outside?
    ensures Sound(Next(st, s))
  {
    NextKeeps(st, s);
    if s.Settle? {
      SettleKeepsOwners(st, s.call, s.up);
    } else if s.Perform? {
      PerformKeepsOwners(st, s.call, s.drawn, s.up, s.target);
    } else {
      CallStepKeepsOwners(st, s);
    }
  }

  lemma TryIsSound(st: State, s: Step)
    requires Sound(st) && !s.Outside?
    ensures Sound(Try(st, s))
    ensures !s.Perform? ==> Try(st, s).tables.registry == st.tables.registry
  {
    if Enabled(st, s) {
      NextIsSound(st, s);
      if !s.Perform? {
        NextKeepsRegistry(st, s);
      }
    }
  }

  /** The call `n`, if it is under way, has reached its threshold in the registry `db`. */
  ghost predicate ReachedIn(st: State, n: nat, db: Db)
  {
    n in st.calls && (st.calls[n].Marked? || st.calls[n].Announced?) ==>
      && st.calls[n].checked.held.action in st.thresholds
      && st.thresholds[st.calls[n].checked.held.action].registry == db
  }

  lemma SettleReaches(st: State, n: nat, up: bool)
    requires n in st.calls && (st.calls[n].Over? || st.calls[n].Holding? || st.calls[n].Ready?)
    ensures ReachedIn(Try(st, Settle(n, up)), n, st.tables.registry)
  {
  }

  lemma AnnounceStays(st: State, n: nat, up: bool, db: Db)
    requires ReachedIn(st, n, db)
    ensures ReachedIn(Try(st, Announce(n, up)), n, db)
  {
  }

  lemma VerifyStays(st: State, x: Whole)
    requires x.call !in st.calls
    ensures x.call in Verified(st, x).calls
    ensures var p := Verified(st, x).calls[x.call]; p.Over? || p.Holding? || p.Ready?
  {
    var s := Taken(st, x);
    assert x.call in s.calls && (s.calls[x.call].Over? || s.calls[x.call].Holding?);
  }

  lemma RecordedIsSound(st: State, x: Whole)
    requires Sound(st) && x.call !in st.calls
    ensures Sound(Recorded(st, x)) && Recorded(st, x).tables.registry == st.tables.registry
    ensures ReachedIn(Recorded(st, x), x.call, st.tables.registry)
  {
    TryIsSound(st, Take(x.call, x.challenge, x.wanted, x.now));
    TryIsSound(Taken(st, x), SignedRuns.Verify(x.call, x.credential, x.valid, x.draw, x.target));
    TryIsSound(Verified(st, x), Settle(x.call, x.signUp));
    TryIsSound(Settled(st, x), Announce(x.call, x.announceUp));
    VerifyStays(st, x);
    SettleReaches(Verified(st, x), x.call, x.signUp);
    AnnounceStays(Settled(st, x), x.call, x.announceUp, st.tables.registry);
  }

  /** A signer who is entitled at the moment of the effect holds an active administrator key
      that the effect leaves alone. */
  lemma SignerRemains(db: Db, a: Action, actor: string, quorum: nat, draw: Draw, e: Evidence)
    requires PlayAction(db, a, actor, quorum, draw).Ok? && ActiveAdminKeys(db) != {}
    requires Entitled(db, a, e) && NotTarget(a, e.operator) && OwnedBy(db, e.credential, e.operator)
    ensures ActiveAdminKeys(PlayAction(db, a, actor, quorum, draw).value.db) != {}
  {
    ActionEmptiesIff(db, a, actor, quorum, draw);
    if a.SetRole? {
      AllowedIsAdmin(a, db.operators[e.operator].role);
      assert e.credential in ActiveAdminKeys(db);
    }
  }

  /** A threshold is never reached without a signer. */
  lemma OneSigner(st: State, n: nat) returns (e: Evidence)
    requires Sound(st) && n in st.calls && st.calls[n].Announced?
    requires ReachedIn(st, n, st.tables.registry)
    ensures var k := st.calls[n].checked;
            && Entitled(st.tables.registry, k.held.body, e) && NotTarget(k.held.body, e.operator)
            && OwnedBy(st.tables.registry, e.credential, e.operator)
  {
    var k := st.calls[n].checked;
    var th := st.thresholds[k.held.action];
    assert CallOk(st, n, st.calls[n]) && ThresholdOk(st.tables, k.held.action, th);
    e := th.signers[0];
    assert e in th.signers;
  }

  lemma EffectKeepsAdmin(db: Db, journal: seq<Event>, k: Checked, drawn: string, up: bool, target: Option<Refusal>,
                         e: Evidence)
    requires Entitled(db, k.held.body, e) && NotTarget(k.held.body, e.operator) && OwnedBy(db, e.credential, e.operator)
    requires ActiveAdminKeys(db) != {}
    ensures ActiveAdminKeys(Effect(db, journal, k, drawn, up, target).0.db) != {}
  {
    var draw := Draw(drawn, k.held.now);
    if PlayAction(db, k.held.body, k.operator, k.held.required, draw).Ok? {
      SignerRemains(db, k.held.body, k.operator, k.held.required, draw, e);
    }
  }

  lemma PerformKeepsAdmin(st: State, n: nat, drawn: string, up: bool, target: Option<Refusal>)
    requires Sound(st) && n in st.calls && st.calls[n].Announced? && ReachedIn(st, n, st.tables.registry)
    requires ActiveAdminKeys(st.tables.registry) != {}
    ensures ActiveAdminKeys(AfterPerform(st, n, drawn, up, target).tables.registry) != {}
  {
    var e := OneSigner(st, n);
    EffectKeepsAdmin(st.tables.registry, st.journal, st.calls[n].checked, drawn, up, target, e);
  }

  lemma FinishKeepsAdmin(st: State, n: nat, drawn: string, up: bool, target: Option<Refusal>)
    requires Sound(st) && ReachedIn(st, n, st.tables.registry)
    ensures Sound(Try(st, Perform(n, drawn, up, target)))
    ensures ActiveAdminKeys(st.tables.registry) != {} ==>
              ActiveAdminKeys(Try(st, Perform(n, drawn, up, target)).tables.registry) != {}
  {
    TryIsSound(st, Perform(n, drawn, up, target));
    if Enabled(st, Perform(n, drawn, up, target)) && ActiveAdminKeys(st.tables.registry) != {} {
      PerformKeepsAdmin(st, n, drawn, up, target);
    }
  }

  lemma ExecutedKeepsAdmin(st: State, x: Whole)
    requires Sound(st) && x.call !in st.calls
    ensures Sound(Executed(st, x))
    ensures ActiveAdminKeys(st.tables.registry) != {} ==> ActiveAdminKeys(Executed(st, x).tables.registry) != {}
  {
    RecordedIsSound(st, x);
    FinishKeepsAdmin(Recorded(st, x), x.call, x.drawn, x.effectUp, x.outcome);
  }

  // ---- Whole runs ----

  /** One piece of a run: a whole execution, a step of issuing, a restart, or a bootstrap, a
      recovery or a registration by the rest of the system. */
  datatype Piece = Execution(whole: Whole) | Issuance(step: Step) | Onboarding(call: ReplayRuns.Call)

  predicate Possible(st: State, p: Piece)
  {
    match p
    case Execution(x) => x.call !in st.calls
    case Issuance(s) => Enabled(st, s) && (s.Begin? || s.Freeze? || s.BeginCosign? || s.FreezeCosign? || s.Restart?)
    case Onboarding(c) => !c.ActionCall?
  }

  /** A call of the rest of the system, as the protocol sees it: the registry and the journal
      are not what they were. */
  function Changing(st: State, c: ReplayRuns.Call): Step
  {
    var w := World(st.tables.registry, st.journal);
    CallAppends(w, c);
    Outside(ReplayRuns.Next(w, c).db, ReplayRuns.Next(w, c).journal[|st.journal|..])
  }

  lemma CallAppends(w: World, c: ReplayRuns.Call)
    ensures w.journal <= ReplayRuns.Next(w, c).journal
  {
  }

  function Go(st: State, p: Piece): State
    requires Possible(st, p)
  {
    match p
    case Execution(x) => Executed(st, x)
    case Issuance(s) => Next(st, s)
    case Onboarding(c) => Next(st, Changing(st, c))
  }

  function Run(st: State, pieces: seq<Piece>): State
  {
    if pieces == [] then st
    else
      var before := Run(st, Front(pieces));
      if Possible(before, Last(pieces)) then Go(before, Last(pieces)) else before
  }

  /** Onboarding takes nothing away: no operator, role or key, and no key changes hands. */
  lemma OnboardingKeeps(db: Db, c: ReplayRuns.Call)
    requires !c.ActionCall? && ReplayRuns.PlayOf(db, c).Ok?
    ensures var db' := ReplayRuns.PlayOf(db, c).value.db;
            KeepsOwners(db, db') && ActiveAdminKeys(db) <= ActiveAdminKeys(db')
  {
  }

  lemma CallKeeps(w: World, c: ReplayRuns.Call)
    requires !c.ActionCall?
    ensures var db' := ReplayRuns.Next(w, c).db;
            KeepsOwners(w.db, db') && ActiveAdminKeys(w.db) <= ActiveAdminKeys(db')
  {
    ReplayRuns.NextIsPlayed(w, c);
    if ReplayRuns.PlayOf(w.db, c).Ok? {
      OnboardingKeeps(w.db, c);
    }
  }

  lemma OutsideKeepsOwners(st: State, s: Step)
    requires OwnersHold(st) && s.Outside? && KeepsOwners(st.tables.registry, s.registry)
    ensures OwnersHold(Next(st, s))
  {
  }

  lemma OnboardingIsSound(st: State, c: ReplayRuns.Call)
    requires Sound(st) && !c.ActionCall?
    ensures Sound(Next(st, Changing(st, c)))
    ensures ActiveAdminKeys(st.tables.registry) <= ActiveAdminKeys(Next(st, Changing(st, c)).tables.registry)
  {
    CallKeeps(World(st.tables.registry, st.journal), c);
    OutsideKeeps(st, Changing(st, c));
    OutsideKeepsOwners(st, Changing(st, c));
  }

  lemma GoKeepsAdmin(st: State, p: Piece)
    requires Sound(st) && Possible(st, p)
    ensures Sound(Go(st, p))
    ensures ActiveAdminKeys(st.tables.registry) != {} ==> ActiveAdminKeys(Go(st, p).tables.registry) != {}
  {
    match p
    case Execution(x) => ExecutedKeepsAdmin(st, x);
    case Issuance(s) =>
      NextIsSound(st, s);
      NextKeepsRegistry(st, s);
    case Onboarding(c) => OnboardingIsSound(st, c);
  }

  lemma {:induction false} RunKeepsAdmin(st: State, pieces: seq<Piece>)
    requires Sound(st)
    ensures Sound(Run(st, pieces))
    ensures ActiveAdminKeys(st.tables.registry) != {} ==> ActiveAdminKeys(Run(st, pieces).tables.registry) != {}
    decreases |pieces|
  {
    if pieces != [] {
      RunKeepsAdmin(st, Front(pieces));
      if Possible(Run(st, Front(pieces)), Last(pieces)) {
        GoKeepsAdmin(Run(st, Front(pieces)), Last(pieces));
      }
    }
  }

  lemma {:induction false} RunSplits(st: State, a: seq<Piece>, b: seq<Piece>)
    ensures Run(st, a + b) == Run(Run(st, a), b)
    decreases |b|
  {
    if b == [] {
      assert a + b == a;
    } else {
      RunSplits(st, a, Front(b));
      assert Front(a + b) == a + Front(b) && Last(a + b) == Last(b);
    }
  }

  /** With executions in one piece, whatever else is issued and whoever else is bootstrapped,
      recovered or registered in between: once the system has an active administrator key, at
      whatever point of a run from any registry, it always has one. */
  lemma NeverTheLastAdmin(st: State, before: seq<Piece>, since: seq<Piece>)
    requires Starts(st) && ActiveAdminKeys(Run(st, before).tables.registry) != {}
    ensures ActiveAdminKeys(Run(st, before + since).tables.registry) != {}
  {
    RunKeepsAdmin(st, before);
    RunSplits(st, before, since);
    RunKeepsAdmin(Run(st, before), since);
  }
}
