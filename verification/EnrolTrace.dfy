/** Where every registered key comes from: the steps of the two calls that opened and closed
    its ceremony, and what held in the registry at each. */
module EnrolTrace {
  import opened Basics
  import opened Journal
  import opened Registry
  import opened Enrollment
  import RegistryLaws
  import ReplayRuns

  // ---- The states of a run ----

  /** The run `steps` to `st` was in `mid` after its first `k` steps. */
  ghost predicate Passes(steps: seq<Step>, st: State, k: nat, mid: State)
  {
    if k >= |steps| then k == |steps| && mid == st && Reaches(steps, st)
    else exists before :: StepsTo(before, Last(steps), st) && Passes(Front(steps), before, k, mid)
  }

  lemma PassesOn(steps: seq<Step>, before: State, s: Step, st: State, k: nat, mid: State)
    requires Passes(steps, before, k, mid) && StepsTo(before, s, st)
    ensures k <= |steps| && Passes(steps + [s], st, k, mid)
  {
    assert Front(steps + [s]) == steps && Last(steps + [s]) == s;
    PassesInside(steps, before, k, mid);
  }

  lemma {:induction false} PassesInside(steps: seq<Step>, st: State, k: nat, mid: State)
    requires Passes(steps, st, k, mid)
    ensures k <= |steps| && Reaches(steps, st)
    decreases |steps|
  {
    if k < |steps| {
      var before :| StepsTo(before, Last(steps), st) && Passes(Front(steps), before, k, mid);
      PassesInside(Front(steps), before, k, mid);
    }
  }

  // ---- What each stretch of a call rests on ----

  /** The invitation is neither used nor over, and is for this operator, who is enabled. */
  predicate Usable(db: Db, inv: LiveInvite, now: int)
  {
    && inv.id in db.invites && RegistryLaws.IsLive(db.invites[inv.id], now)
    && db.invites[inv.id].operator == inv.operator && db.invites[inv.id].createdBy == inv.createdBy
    && inv.operator in db.operators && !db.operators[inv.operator].disabled
  }

  /** When a ceremony was opened: its call read the invitation, then put it in memory. */
  datatype Begun = Begun(call: nat, read: nat, at: State, put: nat)

  /** When it was closed: its call took the ceremony, read the invitation again, and stored
      the key. */
  datatype Finished = Finished(call: nat, took: nat, reread: nat, at: State, stored: nat, last: State)

  ghost predicate ReadBy(steps: seq<Step>, st: State, n: nat, inv: LiveInvite, now: int, g: Begun)
  {
    && g.call == n && g.read < |steps| && steps[g.read] == ReadInvite(n, inv.id, now)
    && Passes(steps, st, g.read, g.at) && Usable(g.at.world.db, inv, now)
  }

  ghost predicate OpenedBy(steps: seq<Step>, st: State, c: string, held: Ceremony, now: int, inv: LiveInvite, g: Begun)
  {
    && ReadBy(steps, st, g.call, inv, now, g) && g.read < g.put < |steps| && steps[g.put] == Open(g.call, c)
    && held.invite == inv.id && held.operator == inv.operator && inv.id in g.at.world.db.invites
    && held.expiresAt == Min(now + 300, g.at.world.db.invites[inv.id].expiresAt)
  }

  ghost predicate CeremonyTraced(steps: seq<Step>, st: State, c: string, held: Ceremony)
  {
    exists now, inv, g :: OpenedBy(steps, st, c, held, now, inv, g)
  }

  /** Taken once, while it is in time. */
  ghost predicate TakenBy(steps: seq<Step>, st: State, n: nat, held: Ceremony, now: int, c: string, k: nat)
  {
    && k < |steps| && steps[k] == TakeUp(n, c, now) && now <= held.expiresAt && CeremonyTraced(steps, st, c, held)
  }

  /** Read again, with a verified attestation, for the operator it was opened for. */
  ghost predicate RereadBy(steps: seq<Step>, st: State, n: nat, inv: LiveInvite, key: Attested, now: int, c: string,
                           held: Ceremony, g: Finished)
  {
    && g.call == n && TakenBy(steps, st, n, held, now, c, g.took)
    && held.invite == inv.id && held.operator == inv.operator
    && g.took < g.reread < |steps| && steps[g.reread] == Reread(n, Some(key))
    && Passes(steps, st, g.reread, g.at) && Usable(g.at.world.db, inv, now)
  }

  ghost predicate ReadTraced(steps: seq<Step>, st: State, n: nat, inv: LiveInvite, expires: int, now: int)
  {
    exists g :: ReadBy(steps, st, n, inv, now, g) && inv.id in g.at.world.db.invites
                && expires == g.at.world.db.invites[inv.id].expiresAt
  }

  ghost predicate TakenTraced(steps: seq<Step>, st: State, n: nat, held: Ceremony, now: int)
  {
    exists c, k :: TakenBy(steps, st, n, held, now, c, k)
  }

  ghost predicate RereadTraced(steps: seq<Step>, st: State, n: nat, inv: LiveInvite, key: Attested, now: int)
  {
    exists c, held, g :: RereadBy(steps, st, n, inv, key, now, c, held, g)
  }

  ghost predicate PhaseTraced(steps: seq<Step>, st: State, n: nat, p: Phase)
  {
    match p
    case Opening(inv, expires, now) => ReadTraced(steps, st, n, inv, expires, now)
    case Closing(held, now) => TakenTraced(steps, st, n, held, now)
    case Storing(inv, key, now) => RereadTraced(steps, st, n, inv, key, now)
    case Over => true
  }

  /** Stored, in a registry that permits it. */
  ghost predicate StoredBy(steps: seq<Step>, st: State, e: Event, inv: LiveInvite, key: Attested, now: int, c: string,
                           held: Ceremony, g: Finished)
  {
    && RereadBy(steps, st, g.call, inv, key, now, c, held, g)
    && g.reread < g.stored < |steps| && steps[g.stored] == StoreIt(g.call, true) && Passes(steps, st, g.stored, g.last)
    && var call := ReplayRuns.RegisterCall(inv, key.id, key.fingerprint, now, true);
       RegistryLaws.Passes(g.last.world.db, call) && RegistryLaws.Notes(g.last.world.db, call, e)
  }

  ghost predicate EventTraced(steps: seq<Step>, st: State, e: Event)
  {
    exists inv, key, now, c, held, g :: StoredBy(steps, st, e, inv, key, now, c, held, g)
  }

  ghost predicate Traced(steps: seq<Step>, st: State)
  {
    && (forall n | n in st.calls :: PhaseTraced(steps, st, n, st.calls[n]))
    && (forall c | c in st.ceremonies :: CeremonyTraced(steps, st, c, st.ceremonies[c]))
    && (forall e | e in st.world.journal && e.name == CredentialRegistered :: EventTraced(steps, st, e))
  }

  // ---- One more step keeps what is traced ----

  lemma ReadOn(steps: seq<Step>, before: State, s: Step, st: State, n: nat, inv: LiveInvite, now: int, g: Begun)
    requires ReadBy(steps, before, n, inv, now, g) && StepsTo(before, s, st)
    ensures ReadBy(steps + [s], st, n, inv, now, g)
  {
    PassesOn(steps, before, s, st, g.read, g.at);
  }

  lemma CeremonyOn(steps: seq<Step>, before: State, s: Step, st: State, c: string, held: Ceremony)
    requires CeremonyTraced(steps, before, c, held) && StepsTo(before, s, st)
    ensures CeremonyTraced(steps + [s], st, c, held)
  {
    var now, inv, g :| OpenedBy(steps, before, c, held, now, inv, g);
    ReadOn(steps, before, s, st, g.call, inv, now, g);
    assert OpenedBy(steps + [s], st, c, held, now, inv, g);
  }

  lemma TakenOn(steps: seq<Step>, before: State, s: Step, st: State, n: nat, held: Ceremony, now: int, c: string,
                k: nat)
    requires TakenBy(steps, before, n, held, now, c, k) && StepsTo(before, s, st)
    ensures TakenBy(steps + [s], st, n, held, now, c, k)
  {
    CeremonyOn(steps, before, s, st, c, held);
  }

  lemma RereadOn(steps: seq<Step>, before: State, s: Step, st: State, n: nat, inv: LiveInvite, key: Attested, now: int,
                 c: string, held: Ceremony, g: Finished)
    requires RereadBy(steps, before, n, inv, key, now, c, held, g) && StepsTo(before, s, st)
    ensures RereadBy(steps + [s], st, n, inv, key, now, c, held, g)
  {
    TakenOn(steps, before, s, st, n, held, now, c, g.took);
    PassesOn(steps, before, s, st, g.reread, g.at);
  }

  lemma PhaseOn(steps: seq<Step>, before: State, s: Step, st: State, n: nat, p: Phase)
    requires PhaseTraced(steps, before, n, p) && StepsTo(before, s, st)
    ensures PhaseTraced(steps + [s], st, n, p)
  {
    match p
    case Opening(inv, expires, now) =>
      var g :| ReadBy(steps, before, n, inv, now, g) && inv.id in g.at.world.db.invites
               && expires == g.at.world.db.invites[inv.id].expiresAt;
      ReadOn(steps, before, s, st, n, inv, now, g);
    case Closing(held, now) =>
      var c, k :| TakenBy(steps, before, n, held, now, c, k);
      TakenOn(steps, before, s, st, n, held, now, c, k);
    case Storing(inv, key, now) =>
      var c, held, g :| RereadBy(steps, before, n, inv, key, now, c, held, g);
      RereadOn(steps, before, s, st, n, inv, key, now, c, held, g);
    case Over =>
  }

  lemma EventOn(steps: seq<Step>, before: State, s: Step, st: State, e: Event)
    requires EventTraced(steps, before, e) && StepsTo(before, s, st)
    ensures EventTraced(steps + [s], st, e)
  {
    var inv, key, now, c, held, g :| StoredBy(steps, before, e, inv, key, now, c, held, g);
    RereadOn(steps, before, s, st, g.call, inv, key, now, c, held, g);
    PassesOn(steps, before, s, st, g.stored, g.last);
    assert StoredBy(steps + [s], st, e, inv, key, now, c, held, g);
  }

  // ---- What one more step adds ----

  lemma LiveIs(db: Db, invite: string, now: int)
    ensures Live(db, invite, now) <==> exists inv: LiveInvite :: inv.id == invite && Usable(db, inv, now)
    ensures Live(db, invite, now) ==> Usable(db, Read(db, invite), now)
  {
    if Live(db, invite, now) {
      assert Usable(db, Read(db, invite), now);
    }
  }

  /** In any state, a stretch of a call goes on exactly when: the invitation can be used; the
      ceremony is in memory and in time; the invitation can still be used, by the operator the
      ceremony is for, and the attestation verified. */
  lemma GoesOnIff(st: State, s: Step)
    requires Enabled(st, s)
    ensures s.ReadInvite? ==>
              (Next(st, s).calls[s.call].Opening?
               <==> exists inv: LiveInvite :: inv.id == s.invite && Usable(st.world.db, inv, s.now))
    ensures s.TakeUp? ==>
              && (Next(st, s).calls[s.call].Closing?
                  <==> s.ceremony in st.ceremonies && s.now <= st.ceremonies[s.ceremony].expiresAt)
              && s.ceremony !in Next(st, s).ceremonies
    ensures s.Reread? ==>
              (Next(st, s).calls[s.call].Storing?
               <==> && s.attested.Some?
                    && exists inv: LiveInvite :: && inv.id == st.calls[s.call].ceremony.invite
                                     && inv.operator == st.calls[s.call].ceremony.operator
                                     && Usable(st.world.db, inv, st.calls[s.call].now))
    ensures s.StoreIt? ==>
              var p := st.calls[s.call];
              var call := ReplayRuns.RegisterCall(p.inv, p.attested.id, p.attested.fingerprint, p.now, s.up);
              if s.up && RegistryLaws.Passes(st.world.db, call)
              then RegistryLaws.Becomes(st.world.db, call, Next(st, s).world.db)
              else Next(st, s).world == st.world
  {
    match s
    case ReadInvite(_, invite, now) => LiveIs(st.world.db, invite, now);
    case Reread(n, _) => LiveIs(st.world.db, st.calls[n].ceremony.invite, st.calls[n].now);
    case StoreIt(n, up) =>
      var p := st.calls[n];
      RegistryLaws.PlayIff(st.world.db, ReplayRuns.RegisterCall(p.inv, p.attested.id, p.attested.fingerprint, p.now,
                                                                up));
    case _ =>
  }

  lemma NewPhase(st: State, s: Step, n: nat)
    requires Enabled(st, s) && n in Next(st, s).calls
    ensures var p := Next(st, s).calls[n];
            || (n in st.calls && p == st.calls[n]) || p.Over?
            || (p.Opening? && s == ReadInvite(n, p.inv.id, p.now) && Usable(st.world.db, p.inv, p.now)
                && p.expires == st.world.db.invites[p.inv.id].expiresAt)
            || (p.Closing? && s.TakeUp? && s.call == n && s.now == p.now && s.ceremony in st.ceremonies
                && p.ceremony == st.ceremonies[s.ceremony] && p.now <= p.ceremony.expiresAt)
            || (p.Storing? && s == Reread(n, Some(p.attested)) && n in st.calls && st.calls[n].Closing?
                && Usable(st.world.db, p.inv, p.now) && p.now == st.calls[n].now
                && p.inv.id == st.calls[n].ceremony.invite && p.inv.operator == st.calls[n].ceremony.operator)
  {
  }

  lemma ReadTracedNow(steps: seq<Step>, before: State, s: Step, st: State, n: nat, p: Phase)
    requires Reaches(steps, before) && StepsTo(before, s, st) && p.Opening? && s == ReadInvite(n, p.inv.id, p.now)
    requires Usable(before.world.db, p.inv, p.now) && p.expires == before.world.db.invites[p.inv.id].expiresAt
    ensures PhaseTraced(steps + [s], st, n, p)
  {
    PassesOn(steps, before, s, st, |steps|, before);
    assert ReadBy(steps + [s], st, n, p.inv, p.now, Begun(n, |steps|, before, 0));
  }

  lemma TakenTracedNow(steps: seq<Step>, before: State, s: Step, st: State, n: nat, p: Phase)
    requires StepsTo(before, s, st) && Traced(steps, before) && p.Closing? && s.TakeUp? && s.call == n && s.now == p.now
    requires s.ceremony in before.ceremonies && p.ceremony == before.ceremonies[s.ceremony]
    requires p.now <= p.ceremony.expiresAt
    ensures PhaseTraced(steps + [s], st, n, p)
  {
    CeremonyOn(steps, before, s, st, s.ceremony, p.ceremony);
    assert TakenBy(steps + [s], st, n, p.ceremony, p.now, s.ceremony, |steps|);
  }

  lemma RereadTracedNow(steps: seq<Step>, before: State, s: Step, st: State, n: nat, p: Phase)
    requires Reaches(steps, before) && StepsTo(before, s, st) && Traced(steps, before)
    requires p.Storing? && s == Reread(n, Some(p.attested)) && n in before.calls && before.calls[n].Closing?
    requires Usable(before.world.db, p.inv, p.now) && p.now == before.calls[n].now
    requires p.inv.id == before.calls[n].ceremony.invite && p.inv.operator == before.calls[n].ceremony.operator
    ensures PhaseTraced(steps + [s], st, n, p)
  {
    var held := before.calls[n].ceremony;
    assert PhaseTraced(steps, before, n, before.calls[n]);
    var c, k :| TakenBy(steps, before, n, held, p.now, c, k);
    TakenOn(steps, before, s, st, n, held, p.now, c, k);
    PassesOn(steps, before, s, st, |steps|, before);
    assert RereadBy(steps + [s], st, n, p.inv, p.attested, p.now, c, held, Finished(n, k, |steps|, before, 0, before));
  }

  lemma NextPhaseTraced(steps: seq<Step>, before: State, s: Step, st: State, n: nat)
    requires Reaches(steps, before) && StepsTo(before, s, st) && Traced(steps, before) && n in st.calls
    ensures PhaseTraced(steps + [s], st, n, st.calls[n])
  {
    NewPhase(before, s, n);
    var p := st.calls[n];
    if n in before.calls && p == before.calls[n] {
      PhaseOn(steps, before, s, st, n, p);
    } else if p.Opening? {
      ReadTracedNow(steps, before, s, st, n, p);
    } else if p.Closing? {
      TakenTracedNow(steps, before, s, st, n, p);
    } else if p.Storing? {
      RereadTracedNow(steps, before, s, st, n, p);
    }
  }

  lemma NewCeremony(st: State, s: Step, c: string)
    requires Enabled(st, s) && c in Next(st, s).ceremonies
    ensures var held := Next(st, s).ceremonies[c];
            || (c in st.ceremonies && held == st.ceremonies[c])
            || (s.Open? && c == s.ceremony
                && var p := st.calls[s.call];
                   held == Ceremony(p.inv.id, p.inv.operator, Min(p.now + 300, p.expires)))
  {
  }

  lemma OpenTracedNow(steps: seq<Step>, before: State, s: Step, st: State, inv: LiveInvite, expires: int, now: int)
    requires StepsTo(before, s, st) && s.Open? && ReadTraced(steps, before, s.call, inv, expires, now)
    ensures CeremonyTraced(steps + [s], st, s.ceremony, Ceremony(inv.id, inv.operator, Min(now + 300, expires)))
  {
    var g0 :| ReadBy(steps, before, s.call, inv, now, g0) && inv.id in g0.at.world.db.invites
              && expires == g0.at.world.db.invites[inv.id].expiresAt;
    var g := g0.(put := |steps|);
    ReadOn(steps, before, s, st, s.call, inv, now, g0);
    assert ReadBy(steps + [s], st, s.call, inv, now, g);
    assert OpenedBy(steps + [s], st, s.ceremony, Ceremony(inv.id, inv.operator, Min(now + 300, expires)), now,
                    inv, g);
  }

  lemma PutTracedNow(steps: seq<Step>, before: State, s: Step, st: State)
    requires StepsTo(before, s, st) && s.Open? && PhaseTraced(steps, before, s.call, before.calls[s.call])
    ensures var p := before.calls[s.call];
            CeremonyTraced(steps + [s], st, s.ceremony, Ceremony(p.inv.id, p.inv.operator, Min(p.now + 300, p.expires)))
  {
    var p := before.calls[s.call];
    OpenTracedNow(steps, before, s, st, p.inv, p.expires, p.now);
  }

  lemma NextCeremonyTraced(steps: seq<Step>, before: State, s: Step, st: State, c: string)
    requires StepsTo(before, s, st) && Traced(steps, before) && c in st.ceremonies
    ensures CeremonyTraced(steps + [s], st, c, st.ceremonies[c])
  {
    NewCeremony(before, s, c);
    if s.Open? {
      assert PhaseTraced(steps, before, s.call, before.calls[s.call]);
      PutTracedNow(steps, before, s, st);
    }
    if c in before.ceremonies {
      CeremonyOn(steps, before, s, st, c, before.ceremonies[c]);
    }
  }

  /** Only a stored key is noted as registered. */
  lemma NewEvent(st: State, s: Step, e: Event)
    requires Enabled(st, s) && e in Next(st, s).world.journal && e.name == CredentialRegistered
    ensures || e in st.world.journal
            || (s.StoreIt? && s.up
                && var p := st.calls[s.call];
                   var call := ReplayRuns.RegisterCall(p.inv, p.attested.id, p.attested.fingerprint, p.now, true);
                   RegistryLaws.Passes(st.world.db, call) && RegistryLaws.Notes(st.world.db, call, e))
  {
    if s.StoreIt? {
      var p := st.calls[s.call];
      RegistryLaws.PlayIff(st.world.db,
                           ReplayRuns.RegisterCall(p.inv, p.attested.id, p.attested.fingerprint, p.now, true));
    } else if s.Elsewhere? {
      RegistryLaws.CallIff(st.world, s.change);
    }
  }

  lemma NextEventTraced(steps: seq<Step>, before: State, s: Step, st: State, e: Event)
    requires Reaches(steps, before) && StepsTo(before, s, st) && Traced(steps, before)
    requires e in st.world.journal && e.name == CredentialRegistered
    ensures EventTraced(steps + [s], st, e)
  {
    NewEvent(before, s, e);
    if e in before.world.journal {
      EventOn(steps, before, s, st, e);
    } else {
      var p := before.calls[s.call];
      assert PhaseTraced(steps, before, s.call, p);
      var c, held, g :| RereadBy(steps, before, s.call, p.inv, p.attested, p.now, c, held, g);
      RereadOn(steps, before, s, st, s.call, p.inv, p.attested, p.now, c, held, g);
      PassesOn(steps, before, s, st, |steps|, before);
      assert StoredBy(steps + [s], st, e, p.inv, p.attested, p.now, c, held, g.(stored := |steps|, last := before));
    }
  }

  lemma {:induction false} RunTraced(steps: seq<Step>, st: State)
    requires Reaches(steps, st)
    ensures Traced(steps, st)
    decreases |steps|
  {
    if steps != [] {
      var before :| StepsTo(before, Last(steps), st) && Reaches(Front(steps), before);
      var s := Last(steps);
      RunTraced(Front(steps), before);
      SplitLast(steps);
      forall n | n in st.calls
        ensures PhaseTraced(steps, st, n, st.calls[n])
      {
        NextPhaseTraced(Front(steps), before, s, st, n);
      }
      forall c | c in st.ceremonies
        ensures CeremonyTraced(steps, st, c, st.ceremonies[c])
      {
        NextCeremonyTraced(Front(steps), before, s, st, c);
      }
      forall e | e in st.world.journal && e.name == CredentialRegistered
        ensures EventTraced(steps, st, e)
      {
        NextEventTraced(Front(steps), before, s, st, e);
      }
    }
  }

  /** In every run, racing calls and restarts included: behind each registered key, one call
      read an invitation its operator could use and opened a ceremony; then another took that
      ceremony within five minutes, read the invitation again while it could still be used,
      had a verified attestation of that key, and stored it in a registry that permitted it. */
  lemma RegistrationsTraced(steps: seq<Step>, st: State, e: Event)
    requires Reaches(steps, st) && e in st.world.journal && e.name == CredentialRegistered
    ensures exists inv, key, now, c, held, g ::
              && StoredBy(steps, st, e, inv, key, now, c, held, g)
              && Text(e, InviteId) == Some(inv.id) && Text(e, Operateur) == Some(inv.operator)
              && Text(e, CredentialId) == Some(key.id)
              && exists begun, inv', o :: OpenedBy(steps, st, c, held, begun, inv', o) && now <= begun + 300
  {
    RunTraced(steps, st);
    var inv, key, now, c, held, g :| StoredBy(steps, st, e, inv, key, now, c, held, g);
    var begun, inv', o :| OpenedBy(steps, st, c, held, begun, inv', o);
  }
}
