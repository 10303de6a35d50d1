/** A system nobody tampers with, from an empty registry: signed actions, in any interleaving,
    with failures and restarts, and bootstraps, recoveries and registrations beside them. What
    its tables and its journal then hold is what the registry audit looks for. */
module HonestRuns {
  import opened Basics
  import opened Actions
  import opened Journal
  import opened Marks
  import opened Registry
  import opened SignedActions
  import opened SignedRuns
  import opened LastAdmin
  import ChainAudit
  import Enrollment
  import ReplayRuns

  datatype Move = Serve(step: Step) | Onboard(call: ReplayRuns.Call)

  ghost predicate Unlogged(journal: seq<Event>, action: string)
  {
    forall e | e in journal :: !ChainAudit.LogsBody(e, action)
  }

  /** A body is frozen with its digest, under an identifier never drawn before; a registration
      goes by an invitation as it is written. */
  ghost predicate Honest(digest: Action -> string, st: State, m: Move)
  {
    match m
    case Serve(s) =>
      && Enabled(st, s) && !s.Outside?
      && (s.Freeze? ==> s.hash == digest(st.calls[s.call].body) && Unlogged(st.journal, s.action))
    case Onboard(c) =>
      !c.ActionCall? && (c.RegisterCall? ==> Enrollment.ReadRight(st.tables.registry, c.inv))
  }

  function Go(st: State, m: Move): State
    requires m.Serve? ==> Enabled(st, m.step)
  {
    match m
    case Serve(s) => Next(st, s)
    case Onboard(c) => Next(st, Changing(st, c))
  }

  const START: State := State(Tables(EMPTY, map[], map[], []), {}, [], map[], map[], [])

  ghost predicate StepsTo(digest: Action -> string, st: State, m: Move, st': State)
  {
    Honest(digest, st, m) && st' == Go(st, m)
  }

  /** `st` is reached from an empty system by the moves `moves`, in that order. */
  ghost predicate Reaches(digest: Action -> string, moves: seq<Move>, st: State)
  {
    if moves == [] then st == START
    else exists before :: StepsTo(digest, before, Last(moves), st) && Reaches(digest, Front(moves), before)
  }

  // ---- The invariant ----

  /** Every frozen body still has the digest the journal logged first for its action. */
  ghost predicate HashesLogged(digest: Action -> string, t: Tables, journal: seq<Event>)
  {
    forall a | a in t.actions ::
      t.actions[a].hash == digest(t.actions[a].body) && ChainAudit.FirstLogged(journal, a, t.actions[a].hash)
  }

  /** When each key entered the registry. */
  type Entries = map<string, nat>

  ghost predicate EntriesOk(entries: Entries, db: Db, clock: nat)
  {
    entries.Keys == db.keys.Keys && forall id | id in entries :: entries[id] < clock
  }

  /** Whoever the key `id` belongs to, or will, it is not `operator`; a key that came by a local
      act needs no confirmation. */
  predicate NotOwner(db: Db, id: string, operator: string)
  {
    if id in db.keys then Direct(db.keys[id].initiatedBy) || db.keys[id].owner != operator
    else id in db.pending && db.pending[id].operator != operator
  }

  /** `key` entered the registry before `id` did, or will. */
  predicate Earlier(entries: Entries, key: string, id: string)
  {
    key in entries && (id in entries ==> entries[key] < entries[id])
  }

  /** Who confirms a key is another than its owner, with a key that was there before it. */
  ghost predicate SignsRightly(entries: Entries, db: Db, body: Action, operator: string, key: string)
  {
    body.ConfirmKey? ==> NotOwner(db, body.credentialId, operator) && Earlier(entries, key, body.credentialId)
  }

  ghost predicate EvidenceRight(entries: Entries, t: Tables)
  {
    forall e | e in t.evidence ::
      e.action in t.actions && SignsRightly(entries, t.registry, t.actions[e.action].body, e.operator, e.credential)
  }

  ghost predicate CallRight(entries: Entries, t: Tables, p: Phase)
  {
    match p
    case Ready(k) => SignsRightly(entries, t.registry, k.held.body, k.operator, k.credential)
    case Marked(k) => EvidenceOf(k) in t.evidence
    case Announced(k) => EvidenceOf(k) in t.evidence
    case _ => true
  }

  ghost predicate CallsRight(entries: Entries, st: State)
  {
    forall n | n in st.calls :: CallRight(entries, st.tables, st.calls[n])
  }

  /** The action confirmed the key `id`, signed by the one the key names. */
  ghost predicate ConfirmedIt(t: Tables, id: string, k: KeyRow, a: string)
  {
    && a in t.actions && t.actions[a].executed && t.actions[a].body == ConfirmKey(id, k.fingerprint)
    && exists e | e in t.evidence :: e.action == a && k.confirmedBy == Some(e.operator)
  }

  /** Each key is accounted for in the journal, and unless it came by a local act, by an executed
      confirmation. */
  ghost predicate KeyRight(t: Tables, journal: seq<Event>, id: string, k: KeyRow)
  {
    if Direct(k.initiatedBy) then ChainAudit.Registered(journal, id)
    else ChainAudit.Confirmed(journal, id) && exists a :: ConfirmedIt(t, id, k, a)
  }

  ghost predicate KeysRight(t: Tables, journal: seq<Event>)
  {
    forall id | id in t.registry.keys :: KeyRight(t, journal, id, t.registry.keys[id])
  }

  ghost predicate Right(digest: Action -> string, entries: Entries, clock: nat, st: State)
  {
    && Sound(st) && Enrollment.KeysOk(st.tables.registry)
    && HashesLogged(digest, st.tables, st.journal)
    && EntriesOk(entries, st.tables.registry, clock)
    && EvidenceRight(entries, st.tables) && CallsRight(entries, st)
    && KeysRight(st.tables, st.journal)
  }

  // ---- The journal only grows ----

  lemma LoggedOn(journal: seq<Event>, journal': seq<Event>, a: string, hash: string)
    requires journal <= journal' && ChainAudit.FirstLogged(journal, a, hash)
    ensures ChainAudit.FirstLogged(journal', a, hash)
  {
    var i :| && 0 <= i < |journal| && ChainAudit.LogsBody(journal[i], a) && Text(journal[i], BodyHash) == Some(hash)
             && forall j | 0 <= j < i :: !ChainAudit.LogsBody(journal[j], a);
    assert journal'[i] == journal[i] && forall j | 0 <= j < i :: journal'[j] == journal[j];
  }

  lemma LogsNow(journal: seq<Event>, action: string, challenge: string, hash: string)
    requires Unlogged(journal, action)
    ensures ChainAudit.FirstLogged(journal + [IssuedEvent(action, challenge, hash)], action, hash)
  {
    var all := journal + [IssuedEvent(action, challenge, hash)];
    assert ChainAudit.LogsBody(all[|journal|], action) && Text(all[|journal|], BodyHash) == Some(hash);
    forall j | 0 <= j < |journal|
      ensures !ChainAudit.LogsBody(all[j], action)
    {
      assert all[j] in journal;
    }
  }

  lemma AttestedOn(journal: seq<Event>, journal': seq<Event>, id: string)
    requires journal <= journal'
    ensures ChainAudit.Registered(journal, id) ==> ChainAudit.Registered(journal', id)
    ensures ChainAudit.Confirmed(journal, id) ==> ChainAudit.Confirmed(journal', id)
  {
    forall e | e in journal
      ensures e in journal'
    {
      var i :| 0 <= i < |journal| && journal[i] == e;
      assert journal'[i] == e;
    }
  }

  /** Rows of actions keep their body and digest, stay executed, and evidence stays. */
  ghost predicate ActionsKept(t: Tables, t': Tables)
  {
    && (forall a | a in t.actions ::
          && a in t'.actions && t'.actions[a].body == t.actions[a].body && t'.actions[a].hash == t.actions[a].hash
          && (t.actions[a].executed ==> t'.actions[a].executed))
    && (forall e | e in t.evidence :: e in t'.evidence)
  }

  lemma HashesOn(digest: Action -> string, t: Tables, t': Tables, journal: seq<Event>, journal': seq<Event>)
    requires HashesLogged(digest, t, journal) && ActionsKept(t, t') && t'.actions.Keys == t.actions.Keys
    requires journal <= journal'
    ensures HashesLogged(digest, t', journal')
  {
    forall a | a in t'.actions
      ensures ChainAudit.FirstLogged(journal', a, t'.actions[a].hash)
    {
      LoggedOn(journal, journal', a, t.actions[a].hash);
    }
  }

  lemma KeyOn(t: Tables, t': Tables, journal: seq<Event>, journal': seq<Event>, id: string, k: KeyRow, k': KeyRow)
    requires KeyRight(t, journal, id, k) && ActionsKept(t, t') && journal <= journal'
    requires k'.initiatedBy == k.initiatedBy && k'.confirmedBy == k.confirmedBy && k'.fingerprint == k.fingerprint
    ensures KeyRight(t', journal', id, k')
  {
    AttestedOn(journal, journal', id);
    if !Direct(k.initiatedBy) {
      var a :| ConfirmedIt(t, id, k, a);
      assert ConfirmedIt(t', id, k', a);
    }
  }

  // ---- A change of the registry ----

  function Entered(entries: Entries, db: Db, clock: nat): Entries
  {
    map id | id in db.keys :: if id in entries then entries[id] else clock
  }

  lemma EnteredOk(entries: Entries, db: Db, db': Db, clock: nat)
    requires EntriesOk(entries, db, clock) && KeepsOwners(db, db')
    ensures EntriesOk(Entered(entries, db', clock), db', clock + 1)
  {
  }

  /** The owner-to-be of a key does not change until it is confirmed, nor after. */
  lemma NotOwnerOn(db: Db, c: ReplayRuns.Call, id: string, operator: string)
    requires ReplayRuns.PlayOf(db, c).Ok? && NotOwner(db, id, operator)
    ensures NotOwner(ReplayRuns.PlayOf(db, c).value.db, id, operator)
  {
  }

  lemma EarlierOn(entries: Entries, db: Db, db': Db, clock: nat, key: string, id: string)
    requires EntriesOk(entries, db, clock) && KeepsOwners(db, db') && Earlier(entries, key, id)
    ensures Earlier(Entered(entries, db', clock), key, id)
  {
  }

  lemma SignsOn(entries: Entries, db: Db, c: ReplayRuns.Call, clock: nat, body: Action, operator: string, key: string)
    requires ReplayRuns.PlayOf(db, c).Ok? && EntriesOk(entries, db, clock)
    requires SignsRightly(entries, db, body, operator, key)
    ensures var db' := ReplayRuns.PlayOf(db, c).value.db;
            SignsRightly(Entered(entries, db', clock), db', body, operator, key)
  {
    if body.ConfirmKey? {
      ReplayRuns.PlayedGrows(db, c);
      NotOwnerOn(db, c, body.credentialId, operator);
      EarlierOn(entries, db, ReplayRuns.PlayOf(db, c).value.db, clock, key, body.credentialId);
    }
  }

  /** A transaction adds a key by a local act it writes down, or by a confirmation. */
  lemma NewKeys(db: Db, c: ReplayRuns.Call, journal: seq<Event>, id: string)
    requires ReplayRuns.PlayOf(db, c).Ok? && Enrollment.KeysOk(db) && id in ReplayRuns.PlayOf(db, c).value.db.keys
    requires c.RegisterCall? ==> Enrollment.ReadRight(db, c.inv)
    ensures var p := ReplayRuns.PlayOf(db, c).value;
            var k := p.db.keys[id];
            || (id in db.keys && (k == db.keys[id] || k == db.keys[id].(revoked := true)))
            || (Direct(k.initiatedBy) && ChainAudit.Registered(journal + [p.event], id))
            || (&& !Direct(k.initiatedBy) && ChainAudit.Confirmed(journal + [p.event], id)
                && c.ActionCall? && c.a == ConfirmKey(id, k.fingerprint) && k.confirmedBy == Some(c.actor))
  {
    var p := ReplayRuns.PlayOf(db, c).value;
    assert p.event in journal + [p.event];
    if c.RegisterCall? {
      ReplayRuns.StatusesDiffer(c.inv.createdBy);
      assert id in db.keys || ChainAudit.RegistersActive(p.event, id);
    } else if c.ActionCall? && c.a.ConfirmKey? {
      assert id in db.keys || ChainAudit.Confirms(p.event, id);
    }
  }

  /** The change is the effect of the executed action `a`, which its actor signed. */
  ghost predicate EffectOf(t: Tables, c: ReplayRuns.Call, a: string)
    requires c.ActionCall?
  {
    && a in t.actions && t.actions[a].executed && t.actions[a].body == c.a
    && exists e | e in t.evidence :: e.action == a && e.operator == c.actor
  }

  lemma KeysOn(t: Tables, journal: seq<Event>, c: ReplayRuns.Call)
    requires ReplayRuns.PlayOf(t.registry, c).Ok? && KeysRight(t, journal) && Enrollment.KeysOk(t.registry)
    requires c.RegisterCall? ==> Enrollment.ReadRight(t.registry, c.inv)
    requires c.ActionCall? ==> exists a :: EffectOf(t, c, a)
    ensures var p := ReplayRuns.PlayOf(t.registry, c).value; KeysRight(t.(registry := p.db), journal + [p.event])
  {
    var p := ReplayRuns.PlayOf(t.registry, c).value;
    var t' := t.(registry := p.db);
    forall id | id in p.db.keys
      ensures KeyRight(t', journal + [p.event], id, p.db.keys[id])
    {
      NewKeys(t.registry, c, journal, id);
      var k := p.db.keys[id];
      if id in t.registry.keys && (k == t.registry.keys[id] || k == t.registry.keys[id].(revoked := true)) {
        KeyOn(t, t', journal, journal + [p.event], id, t.registry.keys[id], k);
      } else if !Direct(k.initiatedBy) {
        var a :| EffectOf(t, c, a);
        assert ConfirmedIt(t', id, k, a);
      }
    }
  }

  /** What the tables and the journal owe to the audit. */
  ghost predicate TablesRight(digest: Action -> string, entries: Entries, t: Tables, journal: seq<Event>)
  {
    HashesLogged(digest, t, journal) && EvidenceRight(entries, t) && KeysRight(t, journal)
  }

  lemma ChangedTables(digest: Action -> string, entries: Entries, clock: nat, t: Tables, journal: seq<Event>,
                      c: ReplayRuns.Call)
    requires TablesRight(digest, entries, t, journal) && EntriesOk(entries, t.registry, clock)
    requires ReplayRuns.PlayOf(t.registry, c).Ok? && Enrollment.KeysOk(t.registry)
    requires c.RegisterCall? ==> Enrollment.ReadRight(t.registry, c.inv)
    requires c.ActionCall? ==> exists a :: EffectOf(t, c, a)
    ensures var p := ReplayRuns.PlayOf(t.registry, c).value;
            && TablesRight(digest, Entered(entries, p.db, clock), t.(registry := p.db), journal + [p.event])
            && EntriesOk(Entered(entries, p.db, clock), p.db, clock + 1) && Enrollment.KeysOk(p.db)
  {
    var p := ReplayRuns.PlayOf(t.registry, c).value;
    ReplayRuns.PlayedGrows(t.registry, c);
    EnteredOk(entries, t.registry, p.db, clock);
    Enrollment.PlayedKeepsKeys(t.registry, c);
    KeysOn(t, journal, c);
    HashesOn(digest, t, t.(registry := p.db), journal, journal + [p.event]);
    forall e | e in t.evidence
      ensures SignsRightly(Entered(entries, p.db, clock), p.db, t.actions[e.action].body, e.operator, e.credential)
    {
      SignsOn(entries, t.registry, c, clock, t.actions[e.action].body, e.operator, e.credential);
    }
  }

  lemma ChangedCall(entries: Entries, clock: nat, t: Tables, c: ReplayRuns.Call, p: Phase)
    requires CallRight(entries, t, p) && EntriesOk(entries, t.registry, clock) && ReplayRuns.PlayOf(t.registry, c).Ok?
    ensures var db' := ReplayRuns.PlayOf(t.registry, c).value.db;
            CallRight(Entered(entries, db', clock), t.(registry := db'), p)
  {
    if p.Ready? {
      SignsOn(entries, t.registry, c, clock, p.checked.held.body, p.checked.operator, p.checked.credential);
    }
  }

  lemma ChangedCalls(entries: Entries, clock: nat, t: Tables, c: ReplayRuns.Call, calls: map<nat, Phase>)
    requires forall n | n in calls :: CallRight(entries, t, calls[n])
    requires EntriesOk(entries, t.registry, clock) && ReplayRuns.PlayOf(t.registry, c).Ok?
    ensures var db' := ReplayRuns.PlayOf(t.registry, c).value.db;
            forall n | n in calls :: CallRight(Entered(entries, db', clock), t.(registry := db'), calls[n])
  {
    forall n | n in calls
      ensures var db' := ReplayRuns.PlayOf(t.registry, c).value.db;
              CallRight(Entered(entries, db', clock), t.(registry := db'), calls[n])
    {
      ChangedCall(entries, clock, t, c, calls[n]);
    }
  }

  lemma SameKeysRight(t: Tables, t': Tables, journal: seq<Event>, journal': seq<Event>)
    requires KeysRight(t, journal) && ActionsKept(t, t') && journal <= journal' && t'.registry == t.registry
    ensures KeysRight(t', journal')
  {
    forall id | id in t'.registry.keys
      ensures KeyRight(t', journal', id, t'.registry.keys[id])
    {
      KeyOn(t, t', journal, journal', id, t.registry.keys[id], t.registry.keys[id]);
    }
  }

  lemma GrownJournal(digest: Action -> string, entries: Entries, t: Tables, journal: seq<Event>, journal': seq<Event>)
    requires TablesRight(digest, entries, t, journal) && journal <= journal'
    ensures TablesRight(digest, entries, t, journal')
  {
    HashesOn(digest, t, t, journal, journal');
    SameKeysRight(t, t, journal, journal');
  }

  // ---- Onboarding ----

  lemma OnboardKeeps(digest: Action -> string, entries: Entries, clock: nat, st: State, c: ReplayRuns.Call)
    returns (entries': Entries)
    requires Right(digest, entries, clock, st) && Honest(digest, st, Onboard(c))
    ensures Right(digest, entries', clock + 1, Go(st, Onboard(c)))
  {
    var w, t := World(st.tables.registry, st.journal), st.tables;
    var w' := ReplayRuns.Next(w, c);
    OnboardingIsSound(st, c);
    CallAppends(w, c);
    assert st.journal + w'.journal[|st.journal|..] == w'.journal;
    if w'.db == w.db {
      entries' := entries;
      assert t.(registry := w'.db) == t;
      GrownJournal(digest, entries, t, st.journal, w'.journal);
    } else {
      var p := ReplayRuns.PlayOf(w.db, c);
      assert p.Ok? && w' == World(p.value.db, w.journal + [p.value.event]);
      entries' := Entered(entries, w'.db, clock);
      ChangedTables(digest, entries, clock, t, st.journal, c);
      ChangedCalls(entries, clock, t, c, st.calls);
    }
  }

  // ---- The steps of the service ----

  lemma AnnouncedIsEffectOf(st: State, n: nat, draw: Draw, up: bool)
    requires Sound(st) && n in st.calls && st.calls[n].Announced?
             && EvidenceOf(st.calls[n].checked) in st.tables.evidence
    ensures var k := st.calls[n].checked;
            EffectOf(st.tables, ReplayRuns.ActionCall(k.held.body, k.operator, k.held.required, draw, up),
                     k.held.action)
  {
    var k := st.calls[n].checked;
    assert CallOk(st, n, st.calls[n]);
    assert ThresholdOk(st.tables, k.held.action, st.thresholds[k.held.action]);
  }

  /** What the call does to the registry, as one of its transactions. */
  function EffectCall(k: Checked, drawn: string, up: bool): ReplayRuns.Call
  {
    ReplayRuns.ActionCall(k.held.body, k.operator, k.held.required, Draw(drawn, k.held.now), up)
  }

  lemma EffectIs(db: Db, journal: seq<Event>, k: Checked, drawn: string, up: bool, target: Option<Refusal>)
    ensures var w := Effect(db, journal, k, drawn, up, target).0;
            || (w.db == db && w.journal == journal)
            || (var p := ReplayRuns.PlayOf(db, EffectCall(k, drawn, up));
                p.Ok? && w.db == p.value.db && w.journal == journal + [p.value.event])
  {
  }

  /** One call moves to `p`. */
  lemma CallsOn(entries: Entries, t: Tables, t': Tables, calls: map<nat, Phase>, calls': map<nat, Phase>, n: nat,
                p: Phase)
    requires forall m | m in calls :: CallRight(entries, t, calls[m])
    requires t'.registry == t.registry && (forall e | e in t.evidence :: e in t'.evidence)
    requires calls' == calls[n := p] && CallRight(entries, t', p)
    ensures forall m | m in calls' :: CallRight(entries, t', calls'[m])
  {
    forall m | m in calls'
      ensures CallRight(entries, t', calls'[m])
    {
      assert m == n || CallRight(entries, t, calls[m]);
    }
  }

  lemma PerformRight(digest: Action -> string, entries: Entries, clock: nat, st: State, n: nat, drawn: string, up: bool,
                     target: Option<Refusal>)
    returns (entries': Entries)
    requires Right(digest, entries, clock, st) && Enabled(st, Perform(n, drawn, up, target))
    ensures Right(digest, entries', clock + 1, AfterPerform(st, n, drawn, up, target))
  {
    var k, t := st.calls[n].checked, st.tables;
    var st' := AfterPerform(st, n, drawn, up, target);
    NextIsSound(st, Perform(n, drawn, up, target));
    CallsOn(entries, t, t, st.calls, st.calls[n := Over], n, Over);
    EffectIs(t.registry, st.journal, k, drawn, up, target);
    if st'.tables.registry == t.registry && st'.journal == st.journal {
      entries' := entries;
      assert st'.tables == t;
    } else {
      var c := EffectCall(k, drawn, up);
      entries' := Entered(entries, st'.tables.registry, clock);
      assert CallRight(entries, t, st.calls[n]);
      AnnouncedIsEffectOf(st, n, Draw(drawn, k.held.now), up);
      ChangedTables(digest, entries, clock, t, st.journal, c);
      ChangedCalls(entries, clock, t, c, st.calls[n := Over]);
    }
  }

  /** A step that changes neither registry nor evidence, and adds no action, keeps the tables
      right. */
  lemma QuietTables(digest: Action -> string, entries: Entries, t: Tables, t': Tables, journal: seq<Event>,
                    journal': seq<Event>)
    requires TablesRight(digest, entries, t, journal) && journal <= journal' && ActionsKept(t, t')
    requires t'.registry == t.registry && t'.evidence == t.evidence && t'.actions.Keys == t.actions.Keys
    ensures TablesRight(digest, entries, t', journal')
  {
    HashesOn(digest, t, t', journal, journal');
    SameKeysRight(t, t', journal, journal');
  }

  lemma FrozenHashes(digest: Action -> string, t: Tables, journal: seq<Event>, body: Action, hint: string,
                     required: nat,
                     now: int, action: string, challenge: string)
    requires HashesLogged(digest, t, journal) && action !in t.actions && Unlogged(journal, action)
    ensures HashesLogged(digest, Frozen(t, body, digest(body), hint, required, now, action, challenge),
                         journal + [IssuedEvent(action, challenge, digest(body))])
  {
    var t' := Frozen(t, body, digest(body), hint, required, now, action, challenge);
    var journal' := journal + [IssuedEvent(action, challenge, digest(body))];
    LogsNow(journal, action, challenge, digest(body));
    forall a | a in t'.actions
      ensures ChainAudit.FirstLogged(journal', a, t'.actions[a].hash)
    {
      if a != action {
        LoggedOn(journal, journal', a, t.actions[a].hash);
      }
    }
  }

  lemma FrozenTables(digest: Action -> string, entries: Entries, t: Tables, journal: seq<Event>, body: Action,
                     hint: string,
                     required: nat, now: int, action: string, challenge: string)
    requires TablesRight(digest, entries, t, journal) && action !in t.actions && Unlogged(journal, action)
    ensures TablesRight(digest, entries, Frozen(t, body, digest(body), hint, required, now, action, challenge),
                        journal + [IssuedEvent(action, challenge, digest(body))])
  {
    FrozenHashes(digest, t, journal, body, hint, required, now, action, challenge);
    SameKeysRight(t, Frozen(t, body, digest(body), hint, required, now, action, challenge), journal,
                  journal + [IssuedEvent(action, challenge, digest(body))]);
  }

  /** One more row of evidence, by a call that was ready. */
  lemma SignedTables(digest: Action -> string, entries: Entries, t: Tables, t': Tables, journal: seq<Event>,
                     journal': seq<Event>, k: Checked)
    requires TablesRight(digest, entries, t, journal) && journal <= journal' && ActionsKept(t, t')
    requires t'.registry == t.registry && t'.actions.Keys == t.actions.Keys
             && t'.evidence == t.evidence + [EvidenceOf(k)]
    requires k.held.action in t.actions && t.actions[k.held.action].body == k.held.body
    requires SignsRightly(entries, t.registry, k.held.body, k.operator, k.credential)
    ensures TablesRight(digest, entries, t', journal')
  {
    HashesOn(digest, t, t', journal, journal');
    SameKeysRight(t, t', journal, journal');
  }

  ghost predicate AllRight(digest: Action -> string, entries: Entries, st: State)
  {
    TablesRight(digest, entries, st.tables, st.journal) && CallsRight(entries, st)
  }

  /** Such a step moves its call to a phase about which nothing is asked. */
  predicate Moved(st: State, n: nat, p: Phase, st': State)
  {
    st'.calls == st.calls[n := p] && st.journal <= st'.journal && st'.tables.registry == st.tables.registry
  }

  lemma MovedRight(digest: Action -> string, entries: Entries, st: State, n: nat, p: Phase, st': State)
    requires AllRight(digest, entries, st) && Moved(st, n, p, st')
    requires st'.tables.evidence == st.tables.evidence && st'.tables.actions == st.tables.actions
    requires CallRight(entries, st.tables, p)
    ensures AllRight(digest, entries, st')
  {
    QuietTables(digest, entries, st.tables, st'.tables, st.journal, st'.journal);
    CallsOn(entries, st.tables, st'.tables, st.calls, st'.calls, n, p);
  }

  lemma FreezeIs(st: State, s: Step)
    requires Enabled(st, s) && s.Freeze?
    ensures var st', p := Next(st, s), st.calls[s.call];
            && Moved(st, s.call, Over, st')
            && (st'.tables == st.tables
                || (&& s.action !in st.tables.actions
                    && st'.journal == st.journal + [IssuedEvent(s.action, s.challenge, s.hash)]
                    && st'.tables == Frozen(st.tables, p.body, s.hash, p.hint, p.required, p.now, s.action,
                                            s.challenge)))
  {
  }

  lemma FreezeRight(digest: Action -> string, entries: Entries, st: State, s: Step)
    requires AllRight(digest, entries, st) && Honest(digest, st, Serve(s)) && s.Freeze?
    ensures AllRight(digest, entries, Next(st, s))
  {
    var st', p := Next(st, s), st.calls[s.call];
    FreezeIs(st, s);
    if st'.tables == st.tables {
      MovedRight(digest, entries, st, s.call, Over, st');
    } else {
      CallsOn(entries, st.tables, st'.tables, st.calls, st'.calls, s.call, Over);
      FrozenTables(digest, entries, st.tables, st.journal, p.body, p.hint, p.required, p.now, s.action, s.challenge);
    }
  }

  /** The steps that add no evidence and no action. */
  lemma QuietStepIs(st: State, s: Step)
    requires Enabled(st, s) && (s.Begin? || s.BeginCosign? || s.FreezeCosign? || s.Take? || s.Announce?)
    ensures var st' := Next(st, s);
            && s.call in st'.calls && Moved(st, s.call, st'.calls[s.call], st')
            && st'.tables.evidence == st.tables.evidence && st'.tables.actions == st.tables.actions
            && var p := st'.calls[s.call];
               !p.Ready? && !p.Marked? && (p.Announced? ==> s.call in st.calls && st.calls[s.call] == Marked(p.checked))
  {
  }

  lemma QuietStepRight(digest: Action -> string, entries: Entries, st: State, s: Step)
    requires AllRight(digest, entries, st) && Enabled(st, s)
    requires s.Begin? || s.BeginCosign? || s.FreezeCosign? || s.Take? || s.Announce?
    ensures AllRight(digest, entries, Next(st, s))
  {
    QuietStepIs(st, s);
    var p := Next(st, s).calls[s.call];
    assert p.Announced? ==> CallRight(entries, st.tables, st.calls[s.call]);
    MovedRight(digest, entries, st, s.call, p, Next(st, s));
  }

  /** The dry run refuses the owner, and a key that is already in the registry. */
  lemma DryRunSignsRightly(entries: Entries, db: Db, h: Held, credential: string, valid: bool, draw: Draw,
                           target: Option<Refusal>)
    requires SignerChecks(db, h, credential, valid, draw, target).Ok? && entries.Keys == db.keys.Keys
    ensures var k := SignerChecks(db, h, credential, valid, draw, target).value;
            k.held == h && SignsRightly(entries, db, h.body, k.operator, k.credential)
  {
  }

  lemma VerifyRight(digest: Action -> string, entries: Entries, st: State, s: Step)
    requires AllRight(digest, entries, st) && Enabled(st, s) && s.Verify?
             && entries.Keys == st.tables.registry.keys.Keys
    ensures AllRight(digest, entries, Next(st, s))
  {
    var db, h := st.tables.registry, st.calls[s.call].held;
    if SignerChecks(db, h, s.credential, s.valid, s.draw, s.target).Ok? {
      DryRunSignsRightly(entries, db, h, s.credential, s.valid, s.draw, s.target);
    }
    MovedRight(digest, entries, st, s.call, Next(st, s).calls[s.call], Next(st, s));
  }

  lemma SettleIs(st: State, n: nat, up: bool)
    requires Enabled(st, Settle(n, up)) && HeldOk(st.tables, st.calls[n].checked.held)
    ensures var st', k := AfterSettle(st, n, up), st.calls[n].checked;
            || (Moved(st, n, Over, st') && st'.tables == st.tables)
            || (&& (Moved(st, n, Over, st') || Moved(st, n, Marked(k), st'))
                && ActionsKept(st.tables, st'.tables) && st'.tables.actions.Keys == st.tables.actions.Keys
                && st'.tables.evidence == st.tables.evidence + [EvidenceOf(k)])
  {
    var k := st.calls[n].checked;
    var r := Transact(st.tables, st.journal, k, up);
    if r.verdict.Reached? {
      assert r.tables == MarkExecuted(Consumed(st.tables, k), k.held.action);
    } else {
      assert r.tables == st.tables || r.tables == Consumed(st.tables, k);
    }
  }

  lemma SettleRight(digest: Action -> string, entries: Entries, st: State, s: Step)
    requires AllRight(digest, entries, st) && Enabled(st, s) && s.Settle?
             && HeldOk(st.tables, st.calls[s.call].checked.held)
    ensures AllRight(digest, entries, Next(st, s))
  {
    var st', k := Next(st, s), st.calls[s.call].checked;
    SettleIs(st, s.call, s.up);
    assert CallRight(entries, st.tables, st.calls[s.call]);
    if st'.tables == st.tables && Moved(st, s.call, Over, st') {
      MovedRight(digest, entries, st, s.call, Over, st');
    } else {
      assert EvidenceOf(k) in st'.tables.evidence;
      SignedTables(digest, entries, st.tables, st'.tables, st.journal, st'.journal, k);
      CallsOn(entries, st.tables, st'.tables, st.calls, st'.calls, s.call, st'.calls[s.call]);
    }
  }

  lemma ServeKeeps(digest: Action -> string, entries: Entries, clock: nat, st: State, s: Step)
    returns (entries': Entries)
    requires Right(digest, entries, clock, st) && Honest(digest, st, Serve(s))
    ensures Right(digest, entries', clock + 1, Next(st, s))
  {
    entries' := entries;
    NextIsSound(st, s);
    if !s.Perform? {
      NextKeepsRegistry(st, s);
    }
    match s
    case Perform(n, drawn, up, target) => entries' := PerformRight(digest, entries, clock, st, n, drawn, up, target);
    case Freeze(_, _, _, _, _) => FreezeRight(digest, entries, st, s);
    case Verify(_, _, _, _, _) => VerifyRight(digest, entries, st, s);
    case Settle(n, _) =>
      assert CallOk(st, n, st.calls[n]);
      SettleRight(digest, entries, st, s);
    case Restart =>
    case _ => QuietStepRight(digest, entries, st, s);
  }

  lemma {:induction false} RunKeeps(digest: Action -> string, moves: seq<Move>, st: State) returns (entries: Entries)
    requires Reaches(digest, moves, st)
    ensures Right(digest, entries, |moves|, st)
    decreases |moves|
  {
    if moves == [] {
      entries := map[];
    } else {
      var before :| StepsTo(digest, before, Last(moves), st) && Reaches(digest, Front(moves), before);
      var earlier := RunKeeps(digest, Front(moves), before);
      match Last(moves)
      case Serve(s) => entries := ServeKeeps(digest, earlier, |moves| - 1, before, s);
      case Onboard(c) => entries := OnboardKeeps(digest, earlier, |moves| - 1, before, c);
    }
  }
}
