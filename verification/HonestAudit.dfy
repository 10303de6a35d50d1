/** The registry audit passes on a system nobody tampered with: every key in force has its
    chain, no chain of confirmations turns in a circle, and the audit says so in any order. */
module HonestAudit {
  import opened Basics
  import opened Journal
  import opened Marks
  import opened SignedActions
  import opened HonestRuns
  import Actions
  import Registry
  import SignedRuns
  import SignedTrace
  import SigningPolicy
  import LastAdmin
  import ChainSpec
  import ChainAudit
  import ChainExactness

  // ---- What the audit reads ----

  function CredOf(k: Registry.KeyRow): ChainSpec.Cred
  {
    ChainSpec.Cred(k.owner, k.initiatedBy, k.confirmedBy, Some(k.fingerprint), k.revoked)
  }

  /** Whether a stored assertion verifies when it is checked again. */
  type Recheck = Evidence -> bool

  /** A stored signature, checked again; its challenge was derived from the frozen body. */
  function EvidenceRead(recheck: Recheck, e: Evidence): ChainSpec.Evidence
  {
    ChainSpec.Evidence(e.credential, e.operator, recheck(e), true)
  }

  /** `c` is the executed confirmation `a`, with its evidence in some order. */
  ghost predicate ReadFrom(digest: Actions.Action -> string, recheck: Recheck, t: Tables, a: string,
                           c: ChainSpec.Confirmation)
  {
    && a in t.actions && t.actions[a].executed && t.actions[a].body.ConfirmKey?
    && c.actionId == a && c.required == t.actions[a].required && c.bodyHash == t.actions[a].hash
    && c.body == ChainSpec.ConfirmKey(t.actions[a].body.credentialId, t.actions[a].body.keyFingerprint)
    && c.intact == (digest(t.actions[a].body) == t.actions[a].hash)
    && (forall e | e in t.evidence && e.action == a :: EvidenceRead(recheck, e) in c.evidence)
    && (forall f | f in c.evidence :: exists e | e in t.evidence :: e.action == a && f == EvidenceRead(recheck, e))
  }

  /** The journal's view, as one pass over its events builds it. */
  ghost predicate ViewRead(journal: seq<Event>, v: ChainSpec.JournalView)
  {
    && (forall id :: id in v.registeredActive <==> ChainAudit.Registered(journal, id))
    && (forall id :: id in v.confirmed <==> ChainAudit.Confirmed(journal, id))
    && (forall a :: a in v.issued <==> ChainAudit.Logged(journal, a))
    && (forall a | a in v.issued :: ChainAudit.FirstLogged(journal, a, v.issued[a]))
  }

  predicate ConfirmsKey(t: Tables, a: string)
  {
    a in t.actions && t.actions[a].executed && t.actions[a].body.ConfirmKey?
  }

  /** The executed confirmations among `done` are in `read`, and nothing else is. */
  ghost predicate Gathered(digest: Actions.Action -> string, recheck: Recheck, t: Tables, done: set<string>,
                           read: map<string, seq<ChainSpec.Confirmation>>)
  {
    && (forall id, c | id in read && c in read[id] ::
          exists a :: ReadFrom(digest, recheck, t, a, c) && t.actions[a].body.credentialId == id)
    && (forall a | a in done && ConfirmsKey(t, a) ::
          && t.actions[a].body.credentialId in read
          && exists c | c in read[t.actions[a].body.credentialId] :: ReadFrom(digest, recheck, t, a, c))
  }

  /** Each signature on record verifies again. */
  ghost predicate AllRecheck(recheck: Recheck, t: Tables)
  {
    forall e | e in t.evidence :: recheck(e)
  }

  /** `g` is what the audit reads from these tables and this journal: all keys, and for each
      target the executed confirmations of it, in some order. */
  ghost predicate ReadAs(digest: Actions.Action -> string, recheck: Recheck, t: Tables, journal: seq<Event>,
                         g: ChainSpec.Registry)
  {
    && g.creds == (map id | id in t.registry.keys :: CredOf(t.registry.keys[id]))
    && Gathered(digest, recheck, t, t.actions.Keys, g.confirmations)
    && ViewRead(journal, g.journal)
  }

  method EvidenceOn(recheck: Recheck, rows: seq<Evidence>, a: string) returns (read: seq<ChainSpec.Evidence>)
    ensures forall e | e in rows && e.action == a :: EvidenceRead(recheck, e) in read
    ensures forall f | f in read :: exists e | e in rows :: e.action == a && f == EvidenceRead(recheck, e)
  {
    read := [];
    for i := 0 to |rows|
      invariant forall j | 0 <= j < i && rows[j].action == a :: EvidenceRead(recheck, rows[j]) in read
      invariant forall f | f in read :: exists e | e in rows :: e.action == a && f == EvidenceRead(recheck, e)
    {
      if rows[i].action == a {
        assert rows[i] in rows;
        read := read + [EvidenceRead(recheck, rows[i])];
      }
    }
  }

  lemma GathersOneMore(digest: Actions.Action -> string, recheck: Recheck, t: Tables, done: set<string>,
                       read: map<string, seq<ChainSpec.Confirmation>>, a: string, c: ChainSpec.Confirmation)
    requires Gathered(digest, recheck, t, done, read) && ReadFrom(digest, recheck, t, a, c)
    ensures var id := t.actions[a].body.credentialId;
            Gathered(digest, recheck, t, done + {a}, read[id := (if id in read then read[id] else []) + [c]])
  {
    var id := t.actions[a].body.credentialId;
    var read' := read[id := (if id in read then read[id] else []) + [c]];
    assert c in read'[id];
    forall b | b in done + {a} && ConfirmsKey(t, b)
      ensures t.actions[b].body.credentialId in read'
      ensures exists d | d in read'[t.actions[b].body.credentialId] :: ReadFrom(digest, recheck, t, b, d)
    {
      if b != a {
        var d :| d in read[t.actions[b].body.credentialId] && ReadFrom(digest, recheck, t, b, d);
        assert d in read'[t.actions[b].body.credentialId];
      }
    }
  }

  /** Reads the keys, and the executed confirmations with their signatures, grouped by the key
      they confirm. */
  method ReadRegistry(t: Tables, journal: seq<Event>, digest: Actions.Action -> string, recheck: Recheck)
    returns (g: ChainSpec.Registry)
    ensures ReadAs(digest, recheck, t, journal, g)
  {
    var view := ChainAudit.ViewOf(journal);
    var confirmations: map<string, seq<ChainSpec.Confirmation>> := map[];
    var left := t.actions.Keys;
    while left != {}
      invariant left <= t.actions.Keys && Gathered(digest, recheck, t, t.actions.Keys - left, confirmations)
      decreases left
    {
      var a :| a in left;
      ghost var done := t.actions.Keys - left;
      var row := t.actions[a];
      if row.executed && row.body.ConfirmKey? {
        var id := row.body.credentialId;
        var evidence := EvidenceOn(recheck, t.evidence, a);
        var c := ChainSpec.Confirmation(a, ChainSpec.ConfirmKey(id, row.body.keyFingerprint),
                                        digest(row.body) == row.hash,
                                        row.hash, row.required, evidence);
        GathersOneMore(digest, recheck, t, done, confirmations, a, c);
        confirmations := confirmations[id := (if id in confirmations then confirmations[id] else []) + [c]];
      }
      left := left - {a};
      assert t.actions.Keys - left == done + {a};
    }
    assert t.actions.Keys - left == t.actions.Keys;
    var creds := map id | id in t.registry.keys :: CredOf(t.registry.keys[id]);
    g := ChainSpec.Registry(creds, confirmations, view);
  }

  // ---- No circle ----

  lemma CallsIsEarlier(digest: Actions.Action -> string, recheck: Recheck, entries: Entries, clock: nat,
                       st: SignedRuns.State,
                       g: ChainSpec.Registry,
                       a: string, b: string)
    requires Right(digest, entries, clock, st) && ReadAs(digest, recheck, st.tables, st.journal, g)
    requires ChainExactness.Calls(g, a, b)
    ensures a in entries && b in entries && entries[b] < entries[a]
  {
    var c, f :| c in g.confirmations[a] && f in c.evidence && f.key == b;
    var action :| ReadFrom(digest, recheck, st.tables, action, c) && st.tables.actions[action].body.credentialId == a;
    var e :| e in st.tables.evidence && e.action == action && f == EvidenceRead(recheck, e);
    assert SignsRightly(entries, st.tables.registry, st.tables.actions[action].body, e.operator, e.credential);
  }

  /** Whoever signs a confirmation entered the registry before the key confirmed. */
  ghost predicate Descends(g: ChainSpec.Registry, entries: Entries)
  {
    forall a, b | ChainExactness.Calls(g, a, b) :: a in entries && b in entries && entries[b] < entries[a]
  }

  lemma ReadDescends(digest: Actions.Action -> string, recheck: Recheck, entries: Entries, clock: nat,
                     st: SignedRuns.State,
                     g: ChainSpec.Registry)
    requires Right(digest, entries, clock, st) && ReadAs(digest, recheck, st.tables, st.journal, g)
    ensures Descends(g, entries)
  {
    forall a, b | ChainExactness.Calls(g, a, b)
      ensures a in entries && b in entries && entries[b] < entries[a]
    {
      CallsIsEarlier(digest, recheck, entries, clock, st, g, a, b);
    }
  }

  lemma {:induction false} PathGoesBack(g: ChainSpec.Registry, entries: Entries, p: seq<string>, i: nat)
    requires Descends(g, entries) && ChainExactness.Path(g, p) && 1 <= i < |p|
    ensures p[0] in entries && p[i] in entries && entries[p[i]] < entries[p[0]]
    decreases i
  {
    assert ChainExactness.PathStep(g, p, i - 1);
    if i > 1 {
      PathGoesBack(g, entries, p, i - 1);
    }
  }

  lemma NoneLeadsBack(g: ChainSpec.Registry, entries: Entries, a: string)
    requires Descends(g, entries)
    ensures !ChainExactness.Leads(g, a, a)
  {
    if ChainExactness.Leads(g, a, a) {
      var p :| ChainExactness.Path(g, p) && p[0] == a && p[|p| - 1] == a;
      PathGoesBack(g, entries, p, |p| - 1);
    }
  }

  lemma NoneIsOnCycle(g: ChainSpec.Registry, entries: Entries)
    requires Descends(g, entries)
    ensures ChainExactness.CyclesAreSingle(g)
  {
    forall a: string
      ensures !ChainExactness.Leads(g, a, a)
    {
      NoneLeadsBack(g, entries, a);
    }
  }

  /** What the tables owe to the audit, a longer journal gives too. */
  lemma LaterRight(digest: Actions.Action -> string, entries: Entries, clock: nat, st: SignedRuns.State,
                   later: seq<Event>)
    requires Right(digest, entries, clock, st)
    ensures Right(digest, entries, clock, st.(journal := st.journal + later))
  {
    var s := SignedRuns.Outside(st.tables.registry, later);
    SignedRuns.OutsideKeeps(st, s);
    assert SignedRuns.Next(st, s) == st.(journal := st.journal + later);
    GrownJournal(digest, entries, st.tables, st.journal, st.journal + later);
  }

  /** No key is reached from itself through the signers of its confirmations. */
  lemma NoCircle(digest: Actions.Action -> string, recheck: Recheck, moves: seq<Move>, st: SignedRuns.State,
                 later: seq<Event>,
                 g: ChainSpec.Registry, a: string)
    requires Reaches(digest, moves, st) && ReadAs(digest, recheck, st.tables, st.journal + later, g)
    ensures !ChainExactness.Leads(g, a, a)
  {
    var entries := RunKeeps(digest, moves, st);
    LaterRight(digest, entries, |moves|, st, later);
    ReadDescends(digest, recheck, entries, |moves|, st.(journal := st.journal + later), g);
    NoneLeadsBack(g, entries, a);
  }

  // ---- Every key has its chain ----

  lemma FirstIsOne(journal: seq<Event>, a: string, hash: string, hash': string)
    requires ChainAudit.FirstLogged(journal, a, hash) && ChainAudit.FirstLogged(journal, a, hash')
    ensures hash == hash' && ChainAudit.Logged(journal, a)
  {
    var i :| && 0 <= i < |journal| && ChainAudit.LogsBody(journal[i], a) && Text(journal[i], BodyHash) == Some(hash)
             && forall j | 0 <= j < i :: !ChainAudit.LogsBody(journal[j], a);
    var k :| && 0 <= k < |journal| && ChainAudit.LogsBody(journal[k], a) && Text(journal[k], BodyHash) == Some(hash')
             && forall j | 0 <= j < k :: !ChainAudit.LogsBody(journal[j], a);
    assert i == k;
  }

  /** The journal logged the digest that the action carries. */
  lemma IssuedAsSigned(digest: Actions.Action -> string, t: Tables, journal: seq<Event>, v: ChainSpec.JournalView,
                       a: string)
    requires HashesLogged(digest, t, journal) && ViewRead(journal, v) && a in t.actions
    ensures a in v.issued && v.issued[a] == t.actions[a].hash && t.actions[a].hash == digest(t.actions[a].body)
  {
    FirstIsOne(journal, a, t.actions[a].hash, t.actions[a].hash);
    FirstIsOne(journal, a, t.actions[a].hash, v.issued[a]);
  }

  /** An executed action has as many distinct signers as it requires, in its evidence. */
  lemma EnoughSigners(st: SignedRuns.State, a: string, operators: set<string>)
    requires SignedRuns.Inv(st) && a in st.tables.actions && st.tables.actions[a].executed
    requires forall e | e in st.tables.evidence && e.action == a :: e.operator in operators
    ensures st.tables.actions[a].required <= |operators| && operators != {}
  {
    var th := st.thresholds[a];
    assert SignedRuns.ThresholdOk(st.tables, a, th);
    SignedRuns.DistinctMeans(th.signers, a);
    SigningPolicy.Pigeonhole(th.signers, operators);
    assert th.signers[0] in th.signers;
  }

  lemma SignerIsRight(entries: Entries, st: SignedRuns.State, a: string, id: string, e: Evidence)
    requires EvidenceRight(entries, st.tables) && LastAdmin.OwnersHold(st) && e in st.tables.evidence && e.action == a
    requires a in st.tables.actions && st.tables.actions[a].body.ConfirmKey?
    requires id == st.tables.actions[a].body.credentialId
    requires id in st.tables.registry.keys && !Direct(st.tables.registry.keys[id].initiatedBy)
    ensures e.credential in st.tables.registry.keys && st.tables.registry.keys[e.credential].owner == e.operator
    ensures e.operator != st.tables.registry.keys[id].owner
  {
    assert SignsRightly(entries, st.tables.registry, st.tables.actions[a].body, e.operator, e.credential);
    assert LastAdmin.OwnedBy(st.tables.registry, e.credential, e.operator);
  }

  lemma EvidenceIsRight(digest: Actions.Action -> string, recheck: Recheck, entries: Entries, st: SignedRuns.State,
                        g: ChainSpec.Registry,
                        id: string, a: string, c: ChainSpec.Confirmation)
    requires EvidenceRight(entries, st.tables) && LastAdmin.OwnersHold(st) && AllRecheck(recheck, st.tables)
    requires g.creds == map i | i in st.tables.registry.keys :: CredOf(st.tables.registry.keys[i])
    requires ReadFrom(digest, recheck, st.tables, a, c) && id == st.tables.actions[a].body.credentialId
    requires id in st.tables.registry.keys && !Direct(st.tables.registry.keys[id].initiatedBy)
    ensures forall f | f in c.evidence ::
              && f.key in g.creds && g.creds[f.key].operator == f.operator && f.operator != g.creds[id].operator
              && f.verified && f.bound
  {
    forall f | f in c.evidence
      ensures f.key in g.creds && g.creds[f.key].operator == f.operator && f.operator != g.creds[id].operator
      ensures f.verified && f.bound
    {
      var e :| e in st.tables.evidence && e.action == a && f == EvidenceRead(recheck, e);
      SignerIsRight(entries, st, a, id, e);
    }
  }

  lemma SignersAreEnough(digest: Actions.Action -> string, recheck: Recheck, st: SignedRuns.State, a: string,
                         c: ChainSpec.Confirmation)
    requires SignedRuns.Inv(st) && ReadFrom(digest, recheck, st.tables, a, c)
    ensures c.required <= |ChainSpec.Signers(c)| && c.evidence != []
    ensures forall e | e in st.tables.evidence && e.action == a :: e.operator in ChainSpec.Signers(c)
  {
    forall e | e in st.tables.evidence && e.action == a
      ensures e.operator in ChainSpec.Signers(c)
    {
      assert EvidenceRead(recheck, e) in c.evidence;
    }
    EnoughSigners(st, a, ChainSpec.Signers(c));
  }

  lemma ConfirmationAdmissible(digest: Actions.Action -> string, recheck: Recheck, entries: Entries, clock: nat,
                               st: SignedRuns.State,
                               g: ChainSpec.Registry, id: string, a: string, c: ChainSpec.Confirmation)
    requires AllRecheck(recheck, st.tables)
    requires Right(digest, entries, clock, st) && ReadAs(digest, recheck, st.tables, st.journal, g)
    requires id in st.tables.registry.keys && !Direct(st.tables.registry.keys[id].initiatedBy)
    requires ChainAudit.Confirmed(st.journal, id) && ConfirmedIt(st.tables, id, st.tables.registry.keys[id], a)
    requires ReadFrom(digest, recheck, st.tables, a, c)
    ensures ChainSpec.Admissible(g, id, c)
  {
    IssuedAsSigned(digest, st.tables, st.journal, g.journal, a);
    SignersAreEnough(digest, recheck, st, a, c);
    EvidenceIsRight(digest, recheck, entries, st, g, id, a, c);
  }

  lemma AnchorHasChain(g: ChainSpec.Registry, id: string)
    requires id in g.creds && ChainSpec.AnchorMark(g.creds[id]) && id in g.journal.registeredActive
    ensures ChainExactness.HasChain(g, id)
  {
    assert ChainSpec.Valid(g, ChainSpec.Anchor(id));
  }

  lemma ConfirmedHasChain(g: ChainSpec.Registry, id: string, c: ChainSpec.Confirmation)
    requires id in g.creds && !ChainSpec.AnchorMark(g.creds[id]) && id in g.confirmations && c in g.confirmations[id]
    requires ChainSpec.Admissible(g, id, c) && forall f | f in c.evidence :: ChainExactness.HasChain(g, f.key)
    ensures ChainExactness.HasChain(g, id)
  {
    var ts := ChainExactness.ChooseChains(g, c.evidence);
    assert ChainSpec.Valid(g, ChainSpec.Chained(id, c, ts));
  }

  /** A key that was confirmed has an admissible confirmation. */
  lemma HasAdmissible(digest: Actions.Action -> string, recheck: Recheck, entries: Entries, clock: nat,
                      st: SignedRuns.State,
                      g: ChainSpec.Registry, id: string)
    returns (c: ChainSpec.Confirmation)
    requires AllRecheck(recheck, st.tables)
    requires Right(digest, entries, clock, st) && ReadAs(digest, recheck, st.tables, st.journal, g)
    requires id in st.tables.registry.keys && !Direct(st.tables.registry.keys[id].initiatedBy)
    ensures id in g.confirmations && c in g.confirmations[id] && ChainSpec.Admissible(g, id, c)
  {
    var k := st.tables.registry.keys[id];
    assert KeyRight(st.tables, st.journal, id, k);
    var a :| ConfirmedIt(st.tables, id, k, a);
    assert ConfirmsKey(st.tables, a);
    c :| c in g.confirmations[id] && ReadFrom(digest, recheck, st.tables, a, c);
    ConfirmationAdmissible(digest, recheck, entries, clock, st, g, id, a, c);
  }

  lemma AnchorsAttested(t: Tables, journal: seq<Event>, v: ChainSpec.JournalView, id: string)
    requires KeysRight(t, journal) && ViewRead(journal, v)
    requires id in t.registry.keys && Direct(t.registry.keys[id].initiatedBy)
    ensures id in v.registeredActive
  {
    assert KeyRight(t, journal, id, t.registry.keys[id]);
  }

  lemma {:induction false} EveryKeyHasChain(digest: Actions.Action -> string, recheck: Recheck, entries: Entries,
                                            clock: nat,
                                            st: SignedRuns.State, g: ChainSpec.Registry, id: string)
    requires AllRecheck(recheck, st.tables)
    requires Right(digest, entries, clock, st) && ReadAs(digest, recheck, st.tables, st.journal, g)
             && Descends(g, entries)
    requires id in st.tables.registry.keys
    ensures ChainExactness.HasChain(g, id)
    decreases entries[id]
  {
    if Direct(st.tables.registry.keys[id].initiatedBy) {
      AnchorsAttested(st.tables, st.journal, g.journal, id);
      AnchorHasChain(g, id);
    } else {
      var c := HasAdmissible(digest, recheck, entries, clock, st, g, id);
      forall f | f in c.evidence
        ensures ChainExactness.HasChain(g, f.key)
      {
        assert ChainExactness.Calls(g, id, f.key);
        EveryKeyHasChain(digest, recheck, entries, clock, st, g, f.key);
      }
      ConfirmedHasChain(g, id, c);
    }
  }

  // ---- The result ----

  /** The moves of a run, as steps of the protocol. */
  lemma {:induction false} MovesAreSteps(digest: Actions.Action -> string, moves: seq<Move>, st: SignedRuns.State)
    returns (steps: seq<SignedRuns.Step>)
    requires Reaches(digest, moves, st)
    ensures SignedRuns.Reaches(steps, st)
    decreases |moves|
  {
    if moves == [] {
      steps := [];
    } else {
      var before :| StepsTo(digest, before, Last(moves), st) && Reaches(digest, Front(moves), before);
      var earlier := MovesAreSteps(digest, Front(moves), before);
      var s := if Last(moves).Serve? then Last(moves).step else LastAdmin.Changing(before, Last(moves).call);
      SignedRuns.OneStep(earlier, before, s);
      steps := earlier + [s];
    }
  }

  /** An assertion that verified in the run verifies again. */
  ghost predicate VerifiesAgain(recheck: Recheck, steps: seq<SignedRuns.Step>, st: SignedRuns.State)
  {
    forall k, g | SignedTrace.SignedBy(steps, st, k, g) :: recheck(EvidenceOf(k))
  }

  lemma OnlyVerifiedIsKept(recheck: Recheck, steps: seq<SignedRuns.Step>, st: SignedRuns.State)
    requires SignedRuns.Reaches(steps, st) && VerifiesAgain(recheck, steps, st)
    ensures AllRecheck(recheck, st.tables)
  {
    SignedTrace.RunTraced(steps, st);
    forall e | e in st.tables.evidence
      ensures recheck(e)
    {
      assert SignedTrace.EvidenceTraced(steps, st, e);
      var k, g :| SignedTrace.SignedBy(steps, st, k, g) && EvidenceOf(k) == e && SignedRuns.HeldOk(st.tables, k.held);
    }
  }

  /** Whatever the run, the order of the audit, and the order in which the database gives the
      confirmations and their evidence: as long as what verified once verifies again, every key
      in the registry has a chain to an anchor of the journal, and the audit accepts each one in
      force, with its depth. So it does on a database put back as it once was, whatever the
      journal has taken since. */
  lemma AuditPasses(digest: Actions.Action -> string, recheck: Recheck, moves: seq<Move>, st: SignedRuns.State,
                    later: seq<Event>, g: ChainSpec.Registry, order: seq<string>)
    requires Reaches(digest, moves, st) && ReadAs(digest, recheck, st.tables, st.journal + later, g)
    requires forall steps | SignedRuns.Reaches(steps, st) :: VerifiesAgain(recheck, steps, st)
    requires forall id | id in order :: id in g.creds
    ensures forall id | id in g.creds :: ChainExactness.HasChain(g, id)
    ensures forall r | r in ChainSpec.Audit(g, order, map[]) :: r.1.Ok? && ChainSpec.Derivable(g, r.0, r.1.value)
    ensures forall id | id in order && !g.creds[id].revoked ::
              exists r | r in ChainSpec.Audit(g, order, map[]) :: r.0 == id
  {
    var entries := RunKeeps(digest, moves, st);
    var now := st.(journal := st.journal + later);
    var steps := MovesAreSteps(digest, moves, st);
    OnlyVerifiedIsKept(recheck, steps, st);
    LaterRight(digest, entries, |moves|, st, later);
    ReadDescends(digest, recheck, entries, |moves|, now, g);
    forall id | id in g.creds
      ensures ChainExactness.HasChain(g, id)
    {
      EveryKeyHasChain(digest, recheck, entries, |moves|, now, g, id);
    }
    NoneIsOnCycle(g, entries);
    ChainExactness.AuditExact(g, order, map[]);
    forall r | r in ChainSpec.Audit(g, order, map[])
      ensures r.1.Ok?
    {
      assert ChainExactness.Exact(g, r.0, r.1);
      Audited(g, order, map[], r);
    }
  }

  lemma {:induction false} Audited(g: ChainSpec.Registry, order: seq<string>, memo: ChainSpec.Memo,
                                   r: (string, ChainSpec.Verdict))
    requires (forall id | id in order :: id in g.creds) && r in ChainSpec.Audit(g, order, memo)
    ensures r.0 in g.creds
    decreases |order|
  {
    if order != [] {
      if g.creds[order[0]].revoked {
        Audited(g, order[1..], memo, r);
      } else {
        var (v, m) := ChainSpec.Check(g, order[0], [], memo);
        if r in ChainSpec.Audit(g, order[1..], m) {
          Audited(g, order[1..], m, r);
        }
      }
    }
  }
}
