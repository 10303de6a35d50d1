/** Where frozen actions and challenges come from: the steps that issued them, and what held in
    the state of the run when they did. */
module IssueTrace {
  import opened Basics
  import opened Actions
  import opened Journal
  import opened Registry
  import opened SignedActions
  import opened SignedRuns
  import opened SignedTrace
  import RegistryLaws
  import ReplayRuns

  const FIVE_MINUTES := 300
  const ONE_DAY := 86400

  /** Two signatures: to revoke a certificate, to approve a request under a profile for two, and
      to make, invite or change an administrator. One for anything else. */
  predicate AsksTwo(db: Db, a: Action, twoPerson: bool)
  {
    || a.RevokeCertificate?
    || (a.ApproveRequest? && twoPerson)
    || (a.InviteOperator? && a.role == Admin)
    || (a.SetRole? && (a.role == Admin || (a.operator in db.operators && db.operators[a.operator].role == "admin")))
  }

  /** May sign, and has a key to sign with. */
  ghost predicate CouldSign(db: Db, a: Action, name: string)
  {
    MaySign(db, a, name) && exists key :: HoldsKey(db, name, key)
  }

  /** An action is issued to someone who could sign it, while it is possible, and where two are
      asked for, while two could sign. */
  ghost predicate BegunRightly(st: State, s: Step, required: nat)
  {
    && s.Begin? && CouldSign(st.tables.registry, s.body, s.hint)
    && required == (if AsksTwo(st.tables.registry, s.body, s.twoPerson) then 2 else 1)
    && (required == 2 ==> exists p, q :: p != q && CouldSign(st.tables.registry, s.body, p)
                                         && CouldSign(st.tables.registry, s.body, q))
    && Possible(st.tables.registry, s.body, s.hint, required, s.draw, s.target)
  }

  /** A further challenge is issued to someone who could sign too and has not, while the action
      waits, in time and still possible. */
  ghost predicate CosignedRightly(st: State, s: Step)
  {
    && s.BeginCosign? && s.action in st.tables.actions && !st.tables.actions[s.action].executed
    && s.draw.now <= st.tables.actions[s.action].expiresAt
    && CouldSign(st.tables.registry, st.tables.actions[s.action].body, s.hint)
    && (forall e | e in st.tables.evidence && e.action == s.action :: e.operator != s.hint)
    && Possible(st.tables.registry, st.tables.actions[s.action].body, s.hint, st.tables.actions[s.action].required,
                s.draw, s.target)
  }

  /** One issuance: its call, when it began, and when it froze what it issued. */
  datatype Issuance = Issuance(call: nat, began: nat, at: State, froze: nat, frozen: State)

  ghost predicate Began(steps: seq<Step>, st: State, n: nat, g: Issuance)
  {
    && g.call == n && g.began < |steps| && Passes(steps, st, g.began, g.at)
    && match steps[g.began]
       case Begin(m, _, _, _, _, _) => m == n
       case BeginCosign(m, _, _, _, _) => m == n && CosignedRightly(g.at, steps[g.began])
       case _ => false
  }

  ghost predicate Issues(steps: seq<Step>, st: State, n: nat, body: Action, hint: string, required: nat, now: int,
                           g: Issuance)
  {
    && Began(steps, st, n, g) && steps[g.began].Begin? && BegunRightly(g.at, steps[g.began], required)
    && steps[g.began].body == body && steps[g.began].hint == hint && steps[g.began].draw.now == now
  }

  ghost predicate Cosigns(steps: seq<Step>, st: State, n: nat, action: string, hint: string, now: int, g: Issuance)
  {
    && Began(steps, st, n, g) && steps[g.began].BeginCosign?
    && steps[g.began].action == action && steps[g.began].hint == hint && steps[g.began].draw.now == now
  }

  /** The later step of the same call that wrote it, when it was new. */
  ghost predicate Froze(steps: seq<Step>, st: State, g: Issuance)
  {
    g.began < g.froze < |steps| && Passes(steps, st, g.froze, g.frozen)
  }

  /** The row of a frozen action. */
  ghost predicate ActionFrom(steps: seq<Step>, st: State, a: string, row: ActionRow, g: Issuance)
  {
    && Froze(steps, st, g) && g.began < |steps| && steps[g.began].Begin?
    && Issues(steps, st, g.call, row.body, steps[g.began].hint, row.required, steps[g.began].draw.now, g)
    && steps[g.froze].Freeze? && steps[g.froze].call == g.call && steps[g.froze].up
    && steps[g.froze].action == a && steps[g.froze].hash == row.hash && a !in g.frozen.tables.actions
    && row.expiresAt == steps[g.began].draw.now + (if row.required == 2 then ONE_DAY else FIVE_MINUTES)
  }

  ghost predicate FirstChallenge(steps: seq<Step>, st: State, c: string, row: ChallengeRow, g: Issuance)
  {
    && Froze(steps, st, g) && g.began < |steps| && steps[g.began].Begin? && Began(steps, st, g.call, g)
    && steps[g.froze].Freeze? && steps[g.froze].call == g.call && steps[g.froze].up
    && steps[g.froze].challenge == c && steps[g.froze].action == row.action && c !in g.frozen.tables.challenges
    && row.hint == steps[g.began].hint && row.expiresAt == steps[g.began].draw.now + FIVE_MINUTES
  }

  ghost predicate FurtherChallenge(steps: seq<Step>, st: State, c: string, row: ChallengeRow, g: Issuance)
  {
    && Froze(steps, st, g) && g.began < |steps| && steps[g.began].BeginCosign?
    && Cosigns(steps, st, g.call, row.action, row.hint, steps[g.began].draw.now, g)
    && steps[g.froze].FreezeCosign? && steps[g.froze].call == g.call && steps[g.froze].up
    && steps[g.froze].challenge == c && c !in g.frozen.tables.challenges
    && row.action in g.at.tables.actions
    && row.expiresAt <= steps[g.began].draw.now + FIVE_MINUTES
       && row.expiresAt <= g.at.tables.actions[row.action].expiresAt
    && (|| row.expiresAt == steps[g.began].draw.now + FIVE_MINUTES
        || row.expiresAt == g.at.tables.actions[row.action].expiresAt)
  }

  ghost predicate ActionTraced(steps: seq<Step>, st: State, a: string, row: ActionRow)
  {
    exists g :: ActionFrom(steps, st, a, row, g)
  }

  ghost predicate ChallengeTraced(steps: seq<Step>, st: State, c: string, row: ChallengeRow)
  {
    exists g :: FirstChallenge(steps, st, c, row, g) || FurtherChallenge(steps, st, c, row, g)
  }

  ghost predicate PhaseTraced(steps: seq<Step>, st: State, n: nat, p: Phase)
  {
    match p
    case Issuing(body, hint, required, now) => exists g :: Issues(steps, st, n, body, hint, required, now, g)
    case Cosigning(action, hint, now) =>
      exists g :: Cosigns(steps, st, n, action, hint, now, g) && action in g.at.tables.actions
                  && action in st.tables.actions
                  && g.at.tables.actions[action].expiresAt == st.tables.actions[action].expiresAt
    case _ => true
  }

  ghost predicate IssueTraced(steps: seq<Step>, st: State)
  {
    && (forall n | n in st.calls :: PhaseTraced(steps, st, n, st.calls[n]))
    && (forall a | a in st.tables.actions :: ActionTraced(steps, st, a, st.tables.actions[a]))
    && (forall c | c in st.tables.challenges :: ChallengeTraced(steps, st, c, st.tables.challenges[c]))
  }

  // ---- What the checks mean ----

  lemma TwoOf(s: set<string>) returns (p: string, q: string)
    requires |s| >= 2
    ensures p in s && q in s && p != q
  {
    p :| p in s;
    assert |s - {p}| >= 1;
    q :| q in s - {p};
  }

  lemma HolderCould(db: Db, a: Action, name: string)
    ensures name in Holders(db, a) <==> CouldSign(db, a, name)
    ensures HasActiveKey(db, name) <==> exists key :: HoldsKey(db, name, key)
  {
    if name in db.operators {
      AllowedIsFit(a, db.operators[name].role);
    }
    if HasActiveKey(db, name) {
      var id :| id in db.keys && db.keys[id].owner == name && !db.keys[id].revoked;
      assert HoldsKey(db, name, id);
    }
  }

  lemma RequiredMeans(db: Db, a: Action, twoPerson: bool)
    ensures RequiredSignatures(db, a, twoPerson) == if AsksTwo(db, a, twoPerson) then 2 else 1
  {
  }

  lemma BeginMeans(st: State, s: Step)
    requires s.Begin?
    ensures var r := IssueChecks(st.tables.registry, s.body, s.hint, s.twoPerson, s.draw, s.target);
            r.Ok? ==> BegunRightly(st, s, r.value)
  {
    var db := st.tables.registry;
    var r := IssueChecks(db, s.body, s.hint, s.twoPerson, s.draw, s.target);
    RequiredMeans(db, s.body, s.twoPerson);
    if r.Ok? {
      HolderCould(db, s.body, s.hint);
      AllowedIsFit(s.body, db.operators[s.hint].role);
      if r.value == 2 {
        var p, q := TwoOf(Holders(db, s.body));
        HolderCould(db, s.body, p);
        HolderCould(db, s.body, q);
      }
    }
  }

  /** Nothing else refuses an issuance. */
  lemma BeginSucceeds(st: State, s: Step, required: nat)
    requires s.Begin? && BegunRightly(st, s, required)
    ensures IssueChecks(st.tables.registry, s.body, s.hint, s.twoPerson, s.draw, s.target) == Ok(required)
  {
    var db := st.tables.registry;
    RequiredMeans(db, s.body, s.twoPerson);
    HolderCould(db, s.body, s.hint);
    AllowedIsFit(s.body, db.operators[s.hint].role);
    if required == 2 {
      var p, q :| p != q && CouldSign(db, s.body, p) && CouldSign(db, s.body, q);
      HolderCould(db, s.body, p);
      HolderCould(db, s.body, q);
      var others := Holders(db, s.body) - {p};
      assert q in others && |Holders(db, s.body)| == |others| + 1;
    }
  }

  lemma CosignMeans(st: State, s: Step)
    requires s.BeginCosign?
    ensures CosignChecks(st.tables, s.action, s.hint, s.draw, s.target).None? <==> CosignedRightly(st, s)
  {
    if s.action in st.tables.actions {
      var body := st.tables.actions[s.action].body;
      HolderCould(st.tables.registry, body, s.hint);
      if s.hint in st.tables.registry.operators {
        AllowedIsFit(body, st.tables.registry.operators[s.hint].role);
      }
    }
  }

  /** In any state: a call goes on from its reads exactly when they were right. */
  lemma GoesOnIff(st: State, s: Step)
    requires Enabled(st, s)
    ensures s.Begin? ==> (Next(st, s).calls[s.call].Issuing? <==> exists required :: BegunRightly(st, s, required))
    ensures s.BeginCosign? ==> (Next(st, s).calls[s.call].Cosigning? <==> CosignedRightly(st, s))
    ensures s.Take? ==> (Next(st, s).calls[s.call].Holding? <==> exists a, b :: TakenInTime(st, s, s.challenge, a, b))
    ensures s.Verify? ==>
              (Next(st, s).calls[s.call].Ready?
               <==> exists name :: VerifiedRightly(st, s, s.credential, name, st.calls[s.call].held.body,
                                                   st.calls[s.call].held.required))
  {
    match s
    case Begin(_, _, _, _, _, _) =>
      BeginMeans(st, s);
      if required :| BegunRightly(st, s, required) {
        BeginSucceeds(st, s, required);
      }
    case BeginCosign(_, _, _, _, _) => CosignMeans(st, s);
    case Take(_, _, _, _) => TakeMeans(st, s);
    case Verify(n, _, _, _, _) => VerifyMeans(st, s, st.calls[n].held);
    case _ =>
  }

  // ---- One more step ----

  lemma BeganOn(steps: seq<Step>, before: State, s: Step, st: State, n: nat, g: Issuance)
    requires Began(steps, before, n, g) && StepsTo(before, s, st)
    ensures Began(steps + [s], st, n, g)
  {
    PassesOn(steps, before, s, st, g.began, g.at);
  }

  lemma FrozeOn(steps: seq<Step>, before: State, s: Step, st: State, g: Issuance)
    requires Froze(steps, before, g) && StepsTo(before, s, st)
    ensures Froze(steps + [s], st, g)
  {
    PassesOn(steps, before, s, st, g.froze, g.frozen);
  }

  lemma ActionOn(steps: seq<Step>, before: State, s: Step, st: State, a: string, row: ActionRow, row': ActionRow)
    requires ActionTraced(steps, before, a, row) && StepsTo(before, s, st) && row' == row.(executed := row'.executed)
    ensures ActionTraced(steps + [s], st, a, row')
  {
    var g :| ActionFrom(steps, before, a, row, g);
    BeganOn(steps, before, s, st, g.call, g);
    FrozeOn(steps, before, s, st, g);
    assert ActionFrom(steps + [s], st, a, row', g);
  }

  lemma FirstOn(steps: seq<Step>, before: State, s: Step, st: State, c: string, row: ChallengeRow, row': ChallengeRow,
                g: Issuance)
    requires FirstChallenge(steps, before, c, row, g) && StepsTo(before, s, st)
             && row' == row.(consumed := row'.consumed)
    ensures FirstChallenge(steps + [s], st, c, row', g)
  {
    BeganOn(steps, before, s, st, g.call, g);
    FrozeOn(steps, before, s, st, g);
  }

  lemma FurtherOn(steps: seq<Step>, before: State, s: Step, st: State, c: string, row: ChallengeRow, row': ChallengeRow,
                  g: Issuance)
    requires FurtherChallenge(steps, before, c, row, g) && StepsTo(before, s, st)
             && row' == row.(consumed := row'.consumed)
    ensures FurtherChallenge(steps + [s], st, c, row', g)
  {
    BeganOn(steps, before, s, st, g.call, g);
    FrozeOn(steps, before, s, st, g);
  }

  lemma ChallengeOn(steps: seq<Step>, before: State, s: Step, st: State, c: string, row: ChallengeRow,
                    row': ChallengeRow)
    requires ChallengeTraced(steps, before, c, row) && StepsTo(before, s, st)
    requires row' == row.(consumed := row'.consumed)
    ensures ChallengeTraced(steps + [s], st, c, row')
  {
    var g :| FirstChallenge(steps, before, c, row, g) || FurtherChallenge(steps, before, c, row, g);
    if FirstChallenge(steps, before, c, row, g) {
      FirstOn(steps, before, s, st, c, row, row', g);
    } else {
      FurtherOn(steps, before, s, st, c, row, row', g);
    }
  }

  /** Rows are only marked. */
  ghost predicate OnlyMarks(t: Tables, t': Tables)
  {
    && (forall a | a in t.actions ::
          a in t'.actions && t'.actions[a] == t.actions[a].(executed := t'.actions[a].executed))
    && (forall c | c in t.challenges ::
          c in t'.challenges && t'.challenges[c] == t.challenges[c].(consumed := t'.challenges[c].consumed))
  }

  lemma TransactMarks(t: Tables, journal: seq<Event>, k: Checked, up: bool)
    ensures OnlyMarks(t, Transact(t, journal, k, up).tables)
  {
    var r := Transact(t, journal, k, up);
    assert r.tables != t ==> k.held.challenge in t.challenges && k.held.action in t.actions;
    assert r.tables == t || r.tables == Consumed(t, k) || r.tables == MarkExecuted(Consumed(t, k), k.held.action);
  }

  lemma FreezeMarks(st: State, s: Step)
    requires Enabled(st, s) && (s.Freeze? || s.FreezeCosign?)
    ensures OnlyMarks(st.tables, Next(st, s).tables)
  {
  }

  lemma RowsStay(st: State, s: Step)
    requires Enabled(st, s)
    ensures OnlyMarks(st.tables, Next(st, s).tables)
  {
    if s.Settle? {
      TransactMarks(st.tables, st.journal, st.calls[s.call].checked, s.up);
    } else if s.Freeze? || s.FreezeCosign? {
      FreezeMarks(st, s);
    }
  }

  lemma TransactAdds(t: Tables, journal: seq<Event>, k: Checked, up: bool)
    ensures var t' := Transact(t, journal, k, up).tables;
            t'.actions.Keys == t.actions.Keys && t'.challenges.Keys == t.challenges.Keys
  {
    var r := Transact(t, journal, k, up);
    assert r.tables != t ==> k.held.challenge in t.challenges && k.held.action in t.actions;
    assert r.tables == t || r.tables == Consumed(t, k) || r.tables == MarkExecuted(Consumed(t, k), k.held.action);
  }

  /** Only these two steps add rows, with what their call holds. */
  lemma OnlyIssuingAdds(st: State, s: Step)
    requires Enabled(st, s) && !s.Freeze? && !s.FreezeCosign?
    ensures var t, t' := st.tables, Next(st, s).tables;
            t'.actions.Keys == t.actions.Keys && t'.challenges.Keys == t.challenges.Keys
  {
    if s.Settle? {
      TransactAdds(st.tables, st.journal, st.calls[s.call].checked, s.up);
    }
  }

  lemma FrozenRows(st: State, s: Step)
    requires Enabled(st, s) && s.Freeze?
    ensures var t, t', p := st.tables, Next(st, s).tables, st.calls[s.call];
            || (t'.actions == t.actions && t'.challenges == t.challenges)
            || (&& s.up && s.action !in t.actions && s.challenge !in t.challenges
                && t'.actions == t.actions[s.action := ActionRow(p.body, s.hash, p.now + Window(p.required), p.required,
                                                                 false)]
                && t'.challenges == t.challenges[s.challenge := ChallengeRow(s.action, p.hint, p.now + FIVE_MINUTES,
                                                                             false)])
  {
  }

  lemma CosignedRows(st: State, s: Step)
    requires Enabled(st, s) && s.FreezeCosign?
    ensures var t, t', p := st.tables, Next(st, s).tables, st.calls[s.call];
            && t'.actions == t.actions
            && (|| t'.challenges == t.challenges
                || (&& s.up && s.challenge !in t.challenges
                    && t'.challenges == t.challenges[s.challenge := ChallengeRow(
                                                       p.action, p.hint,
                                                       Min(p.now + FIVE_MINUTES,
                                                           t.actions[p.action].expiresAt), false)]))
  {
  }

  lemma NewIssuing(st: State, s: Step, n: nat)
    requires Enabled(st, s) && n in Next(st, s).calls
    ensures var p := Next(st, s).calls[n];
            || (n in st.calls && p == st.calls[n])
            || (!p.Issuing? && !p.Cosigning?)
            || (p.Issuing? && s.Begin? && s.call == n && p.body == s.body && p.hint == s.hint && p.now == s.draw.now
                && IssueChecks(st.tables.registry, s.body, s.hint, s.twoPerson, s.draw, s.target) == Ok(p.required))
            || (p.Cosigning? && s.BeginCosign? && s.call == n && p.action == s.action && p.hint == s.hint
                && p.now == s.draw.now && CosignChecks(st.tables, s.action, s.hint, s.draw, s.target).None?)
  {
  }

  lemma PhaseOn(steps: seq<Step>, before: State, s: Step, st: State, n: nat, p: Phase)
    requires PhaseTraced(steps, before, n, p) && StepsTo(before, s, st)
    ensures PhaseTraced(steps + [s], st, n, p)
  {
    RowsStay(before, s);
    if p.Issuing? {
      var g :| Issues(steps, before, n, p.body, p.hint, p.required, p.now, g);
      BeganOn(steps, before, s, st, n, g);
      assert Issues(steps + [s], st, n, p.body, p.hint, p.required, p.now, g);
    } else if p.Cosigning? {
      var g :| Cosigns(steps, before, n, p.action, p.hint, p.now, g) && p.action in g.at.tables.actions
               && p.action in before.tables.actions
               && g.at.tables.actions[p.action].expiresAt == before.tables.actions[p.action].expiresAt;
      BeganOn(steps, before, s, st, n, g);
      assert Cosigns(steps + [s], st, n, p.action, p.hint, p.now, g);
    }
  }

  lemma NextPhaseTraced(steps: seq<Step>, before: State, s: Step, st: State, n: nat)
    requires Reaches(steps, before) && StepsTo(before, s, st) && IssueTraced(steps, before) && n in st.calls
    ensures PhaseTraced(steps + [s], st, n, st.calls[n])
  {
    NewIssuing(before, s, n);
    RowsStay(before, s);
    var p := st.calls[n];
    PassesOn(steps, before, s, st, |steps|, before);
    var g := Issuance(n, |steps|, before, 0, before);
    if n in before.calls && p == before.calls[n] {
      PhaseOn(steps, before, s, st, n, p);
    } else if p.Issuing? {
      BeginMeans(before, s);
      assert Issues(steps + [s], st, n, p.body, p.hint, p.required, p.now, g);
    } else if p.Cosigning? {
      CosignMeans(before, s);
      assert Cosigns(steps + [s], st, n, p.action, p.hint, p.now, g);
    }
  }

  lemma NewActionTraced(steps: seq<Step>, before: State, s: Step, st: State, a: string)
    requires Reaches(steps, before) && StepsTo(before, s, st) && IssueTraced(steps, before)
    requires a in st.tables.actions && a !in before.tables.actions
    ensures ActionTraced(steps + [s], st, a, st.tables.actions[a])
  {
    if !s.Freeze? && !s.FreezeCosign? {
      OnlyIssuingAdds(before, s);
    } else if s.FreezeCosign? {
      CosignedRows(before, s);
    } else {
      FrozenActionTraced(steps, before, s, st, a);
    }
  }

  lemma FrozenActionTraced(steps: seq<Step>, before: State, s: Step, st: State, a: string)
    requires Reaches(steps, before) && StepsTo(before, s, st) && IssueTraced(steps, before) && s.Freeze?
    requires a in st.tables.actions && a !in before.tables.actions
    ensures ActionTraced(steps + [s], st, a, st.tables.actions[a])
  {
    FrozenRows(before, s);
    var p := before.calls[s.call];
    assert PhaseTraced(steps, before, s.call, p);
    var g0 :| Issues(steps, before, s.call, p.body, p.hint, p.required, p.now, g0);
    BeganOn(steps, before, s, st, s.call, g0);
    PassesOn(steps, before, s, st, |steps|, before);
    var g := g0.(froze := |steps|, frozen := before);
    assert Began(steps + [s], st, s.call, g);
    assert ActionFrom(steps + [s], st, a, st.tables.actions[a], g);
  }

  lemma FirstTraced(steps: seq<Step>, before: State, s: Step, st: State, c: string)
    requires Reaches(steps, before) && StepsTo(before, s, st) && IssueTraced(steps, before) && s.Freeze?
    requires c in st.tables.challenges && c !in before.tables.challenges
    ensures ChallengeTraced(steps + [s], st, c, st.tables.challenges[c])
  {
    FrozenRows(before, s);
    var p := before.calls[s.call];
    assert PhaseTraced(steps, before, s.call, p);
    PassesOn(steps, before, s, st, |steps|, before);
    var g0 :| Issues(steps, before, s.call, p.body, p.hint, p.required, p.now, g0);
    BeganOn(steps, before, s, st, s.call, g0);
    var g := g0.(froze := |steps|, frozen := before);
    assert Began(steps + [s], st, s.call, g);
    assert FirstChallenge(steps + [s], st, c, st.tables.challenges[c], g);
  }

  lemma FurtherTraced(steps: seq<Step>, before: State, s: Step, st: State, c: string)
    requires Reaches(steps, before) && StepsTo(before, s, st) && IssueTraced(steps, before) && s.FreezeCosign?
    requires c in st.tables.challenges && c !in before.tables.challenges
    ensures ChallengeTraced(steps + [s], st, c, st.tables.challenges[c])
  {
    CosignedRows(before, s);
    var p := before.calls[s.call];
    assert PhaseTraced(steps, before, s.call, p);
    PassesOn(steps, before, s, st, |steps|, before);
    var g0 :| Cosigns(steps, before, s.call, p.action, p.hint, p.now, g0) && p.action in g0.at.tables.actions
              && g0.at.tables.actions[p.action].expiresAt == before.tables.actions[p.action].expiresAt;
    BeganOn(steps, before, s, st, s.call, g0);
    var g := g0.(froze := |steps|, frozen := before);
    assert Began(steps + [s], st, s.call, g);
    assert FurtherChallenge(steps + [s], st, c, st.tables.challenges[c], g);
  }

  lemma NewChallengeTraced(steps: seq<Step>, before: State, s: Step, st: State, c: string)
    requires Reaches(steps, before) && StepsTo(before, s, st) && IssueTraced(steps, before)
    requires c in st.tables.challenges && c !in before.tables.challenges
    ensures ChallengeTraced(steps + [s], st, c, st.tables.challenges[c])
  {
    if !s.Freeze? && !s.FreezeCosign? {
      OnlyIssuingAdds(before, s);
    } else if s.Freeze? {
      FirstTraced(steps, before, s, st, c);
    } else {
      FurtherTraced(steps, before, s, st, c);
    }
  }

  lemma {:induction false} RunIssueTraced(steps: seq<Step>, st: State)
    requires Reaches(steps, st)
    ensures IssueTraced(steps, st)
    decreases |steps|
  {
    if steps != [] {
      var before :| StepsTo(before, Last(steps), st) && Reaches(Front(steps), before);
      var s := Last(steps);
      RunIssueTraced(Front(steps), before);
      RowsStay(before, s);
      SplitLast(steps);
      forall n | n in st.calls
        ensures PhaseTraced(steps, st, n, st.calls[n])
      {
        NextPhaseTraced(Front(steps), before, s, st, n);
      }
      forall a | a in st.tables.actions
        ensures ActionTraced(steps, st, a, st.tables.actions[a])
      {
        if a in before.tables.actions {
          ActionOn(Front(steps), before, s, st, a, before.tables.actions[a], st.tables.actions[a]);
        } else {
          NewActionTraced(Front(steps), before, s, st, a);
        }
      }
      forall c | c in st.tables.challenges
        ensures ChallengeTraced(steps, st, c, st.tables.challenges[c])
      {
        if c in before.tables.challenges {
          ChallengeOn(Front(steps), before, s, st, c, before.tables.challenges[c], st.tables.challenges[c]);
        } else {
          NewChallengeTraced(Front(steps), before, s, st, c);
        }
      }
    }
  }

  // ---- The results ----

  /** Behind every effect, the action was frozen by a call that began while its body was
      possible, for someone who could sign it, with as many signatures as the body, the profile
      and the registry then asked for; two of them mean that two could sign. The threshold has
      that many distinct signers. */
  lemma EffectsAreIssued(steps: seq<Step>, st: State, r: Ran)
    requires Reaches(steps, st) && r in st.effects
    ensures var a := r.checked.held.action;
            && a in st.tables.actions && ProperlySigned(st, r)
            && exists g :: && ActionFrom(steps, st, a, st.tables.actions[a], g)
                           && steps[g.began].body == r.checked.held.body
                           && |st.thresholds[a].signers|
                              >= if AsksTwo(g.at.tables.registry, r.checked.held.body, steps[g.began].twoPerson) then 2
                                else 1
  {
    AnyInterleaving(steps, st);
    RunIssueTraced(steps, st);
    var a := r.checked.held.action;
    assert ActionTraced(steps, st, a, st.tables.actions[a]);
    var g :| ActionFrom(steps, st, a, st.tables.actions[a], g);
  }

  /** In particular an approval begun under a profile for two has two distinct signers, whatever
      happened since. */
  lemma ApprovalsAreDual(steps: seq<Step>, st: State, r: Ran)
    requires Reaches(steps, st) && r in st.effects && r.checked.held.body.ApproveRequest?
    ensures var a := r.checked.held.action;
            && a in st.tables.actions && a in st.thresholds
            && exists g :: && ActionFrom(steps, st, a, st.tables.actions[a], g)
                           && (if steps[g.began].twoPerson
                               then st.tables.actions[a].required == 2 && |st.thresholds[a].signers| >= 2
                                    && st.thresholds[a].signers[0].operator != st.thresholds[a].signers[1].operator
                               else st.tables.actions[a].required == 1)
  {
    EffectsAreIssued(steps, st, r);
    var a := r.checked.held.action;
    var g :| && ActionFrom(steps, st, a, st.tables.actions[a], g)
             && steps[g.began].body == r.checked.held.body
             && |st.thresholds[a].signers|
                >= if AsksTwo(g.at.tables.registry, r.checked.held.body, steps[g.began].twoPerson) then 2 else 1;
  }

  // ---- Effects ----

  /** The frozen body can be run on the registry of this moment. */
  ghost predicate Runs(db: Db, k: Checked, draw: Draw, up: bool)
  {
    RegistryLaws.Passes(db, ReplayRuns.ActionCall(k.held.body, k.operator, k.held.required, draw, up))
  }

  lemma EffectIs(db: Db, journal: seq<Event>, k: Checked, drawn: string, up: bool, target: Option<Refusal>)
    ensures var w, draw := Effect(db, journal, k, drawn, up, target).0, Draw(drawn, k.held.now);
            if k.held.body.OnRegistry() && Runs(db, k, draw, up) && up
            then RegistryLaws.Performed(db, k.held.body, k.operator, draw, w.db)
            else w == World(db, journal)
  {
    var draw := Draw(drawn, k.held.now);
    RegistryLaws.ActionIff(db, k.held.body, k.operator, k.held.required, draw, up);
  }

  /** An announced action is performed on the registry exactly when the registry of that moment
      allows it and the journal takes its event, and then it makes the change it names; else
      the registry stays. Either way it is over. */
  lemma PerformIff(st: State, s: Step)
    requires Enabled(st, s) && s.Perform?
    ensures var k, st', draw := st.calls[s.call].checked, Next(st, s), Draw(s.drawn, st.calls[s.call].checked.held.now);
            && st'.calls[s.call].Over?
            && st'.effects == st.effects + [Ran(s.call, k, draw, |st.journal|, st.tables.registry, st'.tables.registry)]
            && if k.held.body.OnRegistry() && Runs(st.tables.registry, k, draw, s.up) && s.up
               then RegistryLaws.Performed(st.tables.registry, k.held.body, k.operator, draw, st'.tables.registry)
               else st'.tables == st.tables && st'.journal == st.journal
  {
    EffectIs(st.tables.registry, st.journal, st.calls[s.call].checked, s.drawn, s.up, s.target);
  }

  /** In any interleaving, every effect is that change, or none. */
  lemma EffectsAreLawful(steps: seq<Step>, st: State, r: Ran)
    requires Reaches(steps, st) && r in st.effects
    ensures || r.after == r.before
            || (&& Runs(r.before, r.checked, r.draw, true)
                && RegistryLaws.Performed(r.before, r.checked.held.body, r.checked.operator, r.draw, r.after))
  {
    RunIsFaithful(steps, st);
    assert Faithful(r);
    RegistryLaws.ActionIff(r.before, r.checked.held.body, r.checked.operator, r.checked.held.required, r.draw, true);
  }

  // ---- The journal ----

  /** The event names the action and the challenge. */
  predicate About(e: Event, name: EventName, action: string, challenge: string)
  {
    e.name == name && Text(e, ActionId) == Some(action) && Text(e, ChallengeId) == Some(challenge)
  }

  /** And who signed, with which key. */
  predicate SignedAs(e: Event, name: EventName, k: Checked)
  {
    && About(e, name, k.held.action, k.held.challenge)
    && Text(e, Operateur) == Some(k.operator) && Text(e, CredentialId) == Some(k.credential)
  }

  /** The event a step writes, if it writes: a challenge issued on the frozen digest, a signature
      kept below the threshold, an execution announced. */
  ghost predicate Notes(st: State, s: Step, e: Event)
  {
    match s
    case Freeze(_, action, hash, challenge, up) =>
      up && About(e, ActionChallengeIssued, action, challenge) && Text(e, BodyHash) == Some(hash)
    case FreezeCosign(n, challenge, up) =>
      && up && n in st.calls && st.calls[n].Cosigning? && st.calls[n].action in st.tables.actions
      && About(e, ActionChallengeIssued, st.calls[n].action, challenge)
      && Text(e, BodyHash) == Some(st.tables.actions[st.calls[n].action].hash)
    case Settle(n, up) => up && n in st.calls && st.calls[n].Ready? && SignedAs(e, ActionSigned, st.calls[n].checked)
    case Announce(n, up) =>
      up && n in st.calls && st.calls[n].Marked? && SignedAs(e, ActionExecuted, st.calls[n].checked)
    case _ => false
  }

  /** Whether the step writes. */
  predicate Writes(st: State, s: Step)
    requires Enabled(st, s)
  {
    match s
    case Freeze(_, _, _, _, up) => up
    case FreezeCosign(_, _, up) => up
    case Settle(n, up) => Next(st, s).tables.actions == st.tables.actions && Next(st, s).tables != st.tables
    case Announce(_, up) => up
    case _ => false
  }

  lemma TransactWrites(t: Tables, journal: seq<Event>, k: Checked, up: bool)
    requires HeldOk(t, k.held)
    ensures var r := Transact(t, journal, k, up);
            if r.verdict.Signed? then up && r.journal == journal + [SignedEvent(k)] && r.tables == Consumed(t, k)
            else r.journal == journal && (r.tables == t || r.tables == MarkExecuted(Consumed(t, k), k.held.action))
    ensures Transact(t, journal, k, up).verdict.Reached? ==> !t.actions[k.held.action].executed
    ensures Transact(t, journal, k, up).verdict.Refused? ==> Transact(t, journal, k, up).tables == t
  {
  }

  lemma ChangesShow(t: Tables, k: Checked)
    requires HeldOk(t, k.held)
    ensures Consumed(t, k) != t && Consumed(t, k).actions == t.actions
    ensures !t.actions[k.held.action].executed ==> MarkExecuted(Consumed(t, k), k.held.action).actions != t.actions
  {
    assert |Consumed(t, k).evidence| == |t.evidence| + 1;
    assert MarkExecuted(Consumed(t, k), k.held.action).actions[k.held.action].executed;
  }

  /** The step writes the event it should, or nothing. */
  ghost predicate NotesRight(st: State, s: Step)
    requires Enabled(st, s)
  {
    if Writes(st, s) then exists e :: Notes(st, s, e) && Next(st, s).journal == st.journal + [e]
    else Next(st, s).journal == st.journal
  }

  lemma SettleNotes(st: State, n: nat, up: bool)
    requires Enabled(st, Settle(n, up)) && HeldOk(st.tables, st.calls[n].checked.held)
    ensures NotesRight(st, Settle(n, up))
  {
    var k := st.calls[n].checked;
    TransactWrites(st.tables, st.journal, k, up);
    ChangesShow(st.tables, k);
    assert up ==> Notes(st, Settle(n, up), SignedEvent(k));
  }

  lemma FreezeNotes(st: State, s: Step)
    requires Enabled(st, s) && s.Freeze?
    ensures NotesRight(st, s)
  {
    assert s.up ==> Notes(st, s, IssuedEvent(s.action, s.challenge, s.hash));
  }

  lemma CosignNotes(st: State, s: Step)
    requires Enabled(st, s) && s.FreezeCosign?
    ensures NotesRight(st, s)
  {
    var a := st.calls[s.call].action;
    assert s.up ==> Notes(st, s, IssuedEvent(a, s.challenge, st.tables.actions[a].hash));
  }

  lemma AnnounceNotes(st: State, s: Step)
    requires Enabled(st, s) && s.Announce?
    ensures NotesRight(st, s)
  {
    assert s.up ==> Notes(st, s, ExecutedEvent(st.calls[s.call].checked));
  }

  lemma QuietStep(st: State, s: Step)
    requires Enabled(st, s) && (s.Begin? || s.BeginCosign? || s.Take? || s.Verify? || s.Restart?)
    ensures NotesRight(st, s)
  {
  }

  /** In any interleaving, a step of a call adds to the journal exactly the event of what it
      does, or nothing; what an effect on the registry adds, `PerformIff` and the laws of the
      registry say. */
  lemma StepNotes(steps: seq<Step>, st: State, s: Step)
    requires Reaches(steps, st) && Enabled(st, s) && !s.Outside? && !s.Perform?
    ensures NotesRight(st, s)
  {
    if s.Freeze? {
      FreezeNotes(st, s);
    } else if s.FreezeCosign? {
      CosignNotes(st, s);
    } else if s.Settle? {
      ReadyIsHeld(steps, st, s.call);
      SettleNotes(st, s.call, s.up);
    } else if s.Announce? {
      AnnounceNotes(st, s);
    } else {
      QuietStep(st, s);
    }
  }
}
