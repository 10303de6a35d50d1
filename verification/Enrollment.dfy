/** Registering a key with an invitation: ceremonies held in memory, invitations that are
    read, then consumed by a conditional update, calls that race one another. */
module Enrollment {
  import opened Basics
  import opened Actions
  import opened Journal
  import opened Marks
  import opened Registry
  import opened ReplayRuns

  const MAX_CEREMONIES := 1024

  datatype Ceremony = Ceremony(invite: string, operator: string, expiresAt: int)

  /** An invitation that is not consumed, not expired, of an enabled operator. */
  predicate Live(db: Db, invite: string, now: int)
  {
    && invite in db.invites && !db.invites[invite].consumed && db.invites[invite].expiresAt > now
    && db.invites[invite].operator in db.operators && !db.operators[db.invites[invite].operator].disabled
  }

  function Read(db: Db, invite: string): LiveInvite
    requires invite in db.invites
  {
    LiveInvite(invite, db.invites[invite].operator, db.invites[invite].createdBy)
  }

  /** Expired ceremonies go, and those of the same invitation. */
  function Trimmed(ceremonies: map<string, Ceremony>, invite: string, now: int): map<string, Ceremony>
  {
    map c | c in ceremonies && ceremonies[c].expiresAt > now && ceremonies[c].invite != invite :: ceremonies[c]
  }

  function Opened(ceremonies: map<string, Ceremony>, inv: LiveInvite, expires: int, now: int, ceremony: string)
    : map<string, Ceremony>
  {
    var kept := Trimmed(ceremonies, inv.id, now);
    if |kept| >= MAX_CEREMONIES then kept
    else kept[ceremony := Ceremony(inv.id, inv.operator, Min(now + CHALLENGE_TTL, expires))]
  }

  /** The ceremonies of other invitations that are not over. */
  function OthersInTime(ceremonies: map<string, Ceremony>, invite: string, now: int): set<string>
  {
    set c | c in ceremonies && ceremonies[c].invite != invite && now < ceremonies[c].expiresAt
  }

  /** Nothing is held that is over; the others in time stay as they were; the invitation has
      the one ceremony just opened, for five minutes or until it expires, or none. */
  ghost predicate OpenedRight(ceremonies: map<string, Ceremony>, inv: LiveInvite, expires: int, now: int,
                              ceremony: string, opens: bool, after: map<string, Ceremony>)
  {
    && (forall c | c in after :: now < after[c].expiresAt)
    && (forall c | c in after && after[c].invite == inv.id :: opens && c == ceremony)
    && (forall c | c in OthersInTime(ceremonies, inv.id, now) && (opens ==> c != ceremony) ::
          c in after && after[c] == ceremonies[c])
    && (forall c | c in after && (opens ==> c != ceremony) :: c in OthersInTime(ceremonies, inv.id, now))
    && (opens ==> ceremony in after && after[ceremony] == Ceremony(inv.id, inv.operator, Min(now + 300, expires)))
  }

  lemma OpenedIs(ceremonies: map<string, Ceremony>, inv: LiveInvite, expires: int, now: int, ceremony: string)
    requires now < expires
    ensures OpenedRight(ceremonies, inv, expires, now, ceremony, |OthersInTime(ceremonies, inv.id, now)| < 1024,
                        Opened(ceremonies, inv, expires, now, ceremony))
    ensures |OthersInTime(ceremonies, inv.id, now)| == |Trimmed(ceremonies, inv.id, now)|
  {
    assert Trimmed(ceremonies, inv.id, now).Keys == OthersInTime(ceremonies, inv.id, now);
  }

  /** A verified attestation: the key's identifier and fingerprint. */
  datatype Attested = Attested(id: string, fingerprint: string)

  /** The second reading of the invitation, and the attestation, before the transaction. */
  function CloseChecks(db: Db, c: Ceremony, now: int, attested: Option<Attested>): Result<LiveInvite, Refusal>
  {
    if !Live(db, c.invite, now) then Err(Denied)
    else if db.invites[c.invite].operator != c.operator then Err(Denied)
    else if attested.None? then Err(BadSignature)
    else Ok(Read(db, c.invite))
  }

  class Desk {
    const store: Store
    var registrations: map<string, Ceremony>

    constructor (store: Store)
      ensures this.store == store && registrations == map[]
    {
      this.store := store;
      registrations := map[];
    }

    /** On a live invitation, what is over and what the invitation had open goes; then its
        ceremony opens, unless 1024 others are still in time. */
    method BeginRegistration(invite: string, now: int, ceremony: string) returns (r: Option<Refusal>)
      modifies this
      ensures !Live(store.Tables(), invite, now) ==> r == Some(Denied) && registrations == old(registrations)
      ensures Live(store.Tables(), invite, now) ==>
                && (r == None || r == Some(Denied))
                && (r == Some(Denied) <==> |OthersInTime(old(registrations), invite, now)| >= 1024)
                && OpenedRight(old(registrations), Read(store.Tables(), invite), store.invites[invite].expiresAt, now,
                               ceremony, r.None?, registrations)
                && registrations == Opened(old(registrations), Read(store.Tables(), invite),
                                           store.invites[invite].expiresAt, now, ceremony)
    {
      if Live(store.Tables(), invite, now) {
        OpenedIs(registrations, Read(store.Tables(), invite), store.invites[invite].expiresAt, now, ceremony);
      }
      if !Live(store.Tables(), invite, now) {
        return Some(Denied);
      }
      var inv := store.invites[invite];
      var expires := Min(now + CHALLENGE_TTL, inv.expiresAt);
      registrations := map c | c in registrations && registrations[c].expiresAt > now :: registrations[c];
      registrations := map c | c in registrations && registrations[c].invite != invite :: registrations[c];
      assert registrations == Trimmed(old(registrations), invite, now);
      if |registrations| >= MAX_CEREMONIES {
        return Some(Denied);
      }
      registrations := registrations[ceremony := Ceremony(invite, inv.operator, expires)];
      r := None;
    }

    /** One attempt per ceremony: it leaves the memory whatever happens next. */
    method FinishRegistration(ceremony: string, now: int, attested: Option<Attested>, journalUp: bool)
      returns (r: Option<Refusal>)
      modifies this, store
      ensures registrations == old(registrations) - {ceremony}
      ensures ceremony !in old(registrations) ==> r == Some(StateLost) && store.Contents() == old(store.Contents())
      ensures ceremony in old(registrations) && now > old(registrations)[ceremony].expiresAt ==>
                r == Some(Expired) && store.Contents() == old(store.Contents())
      ensures ceremony in old(registrations) && now <= old(registrations)[ceremony].expiresAt ==>
                var checks := CloseChecks(old(store.Tables()), old(registrations)[ceremony], now, attested);
                if checks.Err? then r == Some(checks.error) && store.Contents() == old(store.Contents())
                else
                  (store.Contents(), r)
                  == Commit(old(store.Contents()),
                            PlayRegister(old(store.Tables()), checks.value, attested.value.id,
                                         attested.value.fingerprint, now), journalUp)
    {
      if ceremony !in registrations {
        assert registrations == old(registrations) - {ceremony};
        return Some(StateLost);
      }
      var pending := registrations[ceremony];
      registrations := registrations - {ceremony};
      if now > pending.expiresAt {
        return Some(Expired);
      }
      if !Live(store.Tables(), pending.invite, now) {
        return Some(Denied);
      }
      var invite := Read(store.Tables(), pending.invite);
      if invite.operator != pending.operator {
        return Some(Denied);
      }
      if attested.None? {
        return Some(BadSignature);
      }
      r := store.StoreKey(invite, attested.value.id, attested.value.fingerprint, now, journalUp);
    }
  }

  // ---- Racing calls ----

  datatype Phase =
    | Opening(inv: LiveInvite, expires: int, now: int)
    | Closing(ceremony: Ceremony, now: int)
    | Storing(inv: LiveInvite, attested: Attested, now: int)
    | Over

  datatype State = State(world: World, ceremonies: map<string, Ceremony>, calls: map<nat, Phase>)

  const BEGINNING: State := State(START, map[], map[])

  datatype Step =
    | ReadInvite(call: nat, invite: string, now: int)
    | Open(call: nat, ceremony: string)
    | TakeUp(call: nat, ceremony: string, now: int)
    | Reread(call: nat, attested: Option<Attested>)
    | StoreIt(call: nat, up: bool)
    | Elsewhere(change: Call)
    | Restart

  /** A signed action runs under the name of an operator, the one who signed last. */
  predicate Enabled(st: State, s: Step)
  {
    match s
    case ReadInvite(n, _, _) => n !in st.calls
    case TakeUp(n, _, _) => n !in st.calls
    case Open(n, _) => n in st.calls && st.calls[n].Opening?
    case Reread(n, _) => n in st.calls && st.calls[n].Closing?
    case StoreIt(n, _) => n in st.calls && st.calls[n].Storing?
    case Elsewhere(c) => !c.RegisterCall? && (c.ActionCall? ==> c.actor in st.world.db.operators)
    case Restart => true
  }

  function Stored(st: State, n: nat, up: bool): World
    requires n in st.calls && st.calls[n].Storing?
  {
    var p := st.calls[n];
    Commit(st.world, PlayRegister(st.world.db, p.inv, p.attested.id, p.attested.fingerprint, p.now), up).0
  }

  function Next(st: State, s: Step): State
    requires Enabled(st, s)
  {
    match s
    case ReadInvite(n, invite, now) =>
      st.(calls := st.calls[n := if Live(st.world.db, invite, now)
                                 then Opening(Read(st.world.db, invite), st.world.db.invites[invite].expiresAt, now)
                                   else Over])
    case Open(n, ceremony) =>
      st.(ceremonies := Opened(st.ceremonies, st.calls[n].inv, st.calls[n].expires, st.calls[n].now, ceremony),
          calls := st.calls[n := Over])
    case TakeUp(n, ceremony, now) =>
      st.(ceremonies := st.ceremonies - {ceremony},
          calls := st.calls[n := if ceremony in st.ceremonies && now <= st.ceremonies[ceremony].expiresAt
                                 then Closing(st.ceremonies[ceremony], now) else Over])
    case Reread(n, attested) =>
      var checks := CloseChecks(st.world.db, st.calls[n].ceremony, st.calls[n].now, attested);
      st.(calls := st.calls[n := if checks.Ok? then Storing(checks.value, attested.value, st.calls[n].now) else Over])
    case StoreIt(n, up) => st.(world := Stored(st, n, up), calls := st.calls[n := Over])
    case Elsewhere(c) => st.(world := ReplayRuns.Next(st.world, c))
    case Restart => st.(ceremonies := map[], calls := map n | n in st.calls :: Over)
  }

  // ---- The invariant ----

  /** At most one ceremony per invitation, and a bounded number of them. */
  ghost predicate CeremoniesOk(ceremonies: map<string, Ceremony>)
  {
    && |ceremonies| <= MAX_CEREMONIES
    && forall c, d | c in ceremonies && d in ceremonies && c != d :: ceremonies[c].invite != ceremonies[d].invite
  }

  /** The event of a key registered with the invitation. */
  predicate Registers(e: Event, invite: string)
  {
    e.name == CredentialRegistered && Text(e, InviteId) == Some(invite)
  }

  predicate Spent(db: Db, e: Event)
  {
    e.name == CredentialRegistered ==>
      Text(e, InviteId).Some? && Text(e, InviteId).value in db.invites && db.invites[Text(e, InviteId).value].consumed
  }

  /** Each registration in the journal consumed its invitation, and no two the same. */
  ghost predicate OncePerInvite(w: World)
  {
    && (forall e | e in w.journal :: Spent(w.db, e))
    && (forall i, j, invite | 0 <= i < j < |w.journal| ::
          !(Registers(w.journal[i], invite) && Registers(w.journal[j], invite)))
  }

  /** A key that came by a local act has its consumed invitation under that mark. */
  ghost predicate Traced(db: Db, k: KeyRow)
  {
    Direct(k.initiatedBy) ==> exists i | i in db.invites :: Opens(db.invites[i], k)
  }

  predicate Opens(row: InviteRow, k: KeyRow)
  {
    row.consumed && row.createdBy == k.initiatedBy && row.operator == k.owner
  }

  ghost predicate KeysOk(db: Db)
  {
    && (forall id | id in db.keys :: Traced(db, db.keys[id]))
    && (forall id | id in db.pending ::
          db.pending[id].invite in db.invites && !Direct(db.invites[db.pending[id].invite].createdBy))
  }

  /** An invitation as it was read is as it was written. */
  predicate ReadRight(db: Db, inv: LiveInvite)
  {
    inv.id in db.invites && inv == Read(db, inv.id)
  }

  predicate PhaseOk(db: Db, p: Phase)
  {
    match p
    case Opening(inv, _, _) => ReadRight(db, inv)
    case Storing(inv, _, _) => ReadRight(db, inv)
    case _ => true
  }

  ghost predicate CallsOk(st: State)
  {
    forall n | n in st.calls :: PhaseOk(st.world.db, st.calls[n])
  }

  ghost predicate Inv(st: State)
  {
    CeremoniesOk(st.ceremonies) && OncePerInvite(st.world) && KeysOk(st.world.db) && CallsOk(st)
  }

  /** Invitations are never removed nor handed to another; consumed ones stay so. */
  ghost predicate InvitesKept(db: Db, db': Db)
  {
    forall i | i in db.invites ::
      && i in db'.invites && db'.invites[i].operator == db.invites[i].operator
      && db'.invites[i].createdBy == db.invites[i].createdBy && (db.invites[i].consumed ==> db'.invites[i].consumed)
  }

  lemma PlayedKeepsInvites(db: Db, c: Call)
    requires PlayOf(db, c).Ok?
    ensures InvitesKept(db, PlayOf(db, c).value.db)
  {
  }

  lemma PlayedKeepsKeys(db: Db, c: Call)
    requires PlayOf(db, c).Ok? && KeysOk(db)
    requires c.RegisterCall? ==> ReadRight(db, c.inv)
    ensures KeysOk(PlayOf(db, c).value.db)
  {
    var db' := PlayOf(db, c).value.db;
    PlayedKeepsInvites(db, c);
    forall id | id in db'.keys
      ensures Traced(db', db'.keys[id])
    {
      if id in db.keys && Direct(db.keys[id].initiatedBy) {
        var i :| i in db.invites && Opens(db.invites[i], db.keys[id]);
        assert Opens(db'.invites[i], db'.keys[id]);
      } else if c.RegisterCall? {
        assert id in db.keys || Opens(db'.invites[c.inv.id], db'.keys[id]);
      }
    }
  }

  lemma PhaseKept(db: Db, db': Db, p: Phase)
    requires InvitesKept(db, db') && PhaseOk(db, p)
    ensures PhaseOk(db', p)
  {
  }

  lemma CallsKept(st: State, st': State, n: nat, p: Phase)
    requires CallsOk(st) && InvitesKept(st.world.db, st'.world.db) && PhaseOk(st'.world.db, p)
    requires st'.calls == st.calls[n := p]
    ensures CallsOk(st')
  {
    forall m | m in st'.calls
      ensures PhaseOk(st'.world.db, st'.calls[m])
    {
      if m != n {
        PhaseKept(st.world.db, st'.world.db, st.calls[m]);
      }
    }
  }

  lemma InvitesSame(db: Db)
    ensures InvitesKept(db, db)
  {
  }

  lemma SpentKept(w: World, w': World)
    requires OncePerInvite(w) && InvitesKept(w.db, w'.db)
    ensures forall e | e in w.journal :: Spent(w'.db, e)
  {
    forall e | e in w.journal
      ensures Spent(w'.db, e)
    {
      assert Spent(w.db, e);
    }
  }

  /** One more event, by a transaction that keeps invitations. */
  lemma WrittenOnce(w: World, db': Db, e: Event)
    requires OncePerInvite(w) && InvitesKept(w.db, db') && Spent(db', e)
    requires e.name == CredentialRegistered ==>
               var invite := Text(e, InviteId).value; invite in w.db.invites && !w.db.invites[invite].consumed
    ensures OncePerInvite(World(db', w.journal + [e]))
  {
    var w' := World(db', w.journal + [e]);
    SpentKept(w, w');
    forall i, j, invite | 0 <= i < j < |w'.journal|
      ensures !(Registers(w'.journal[i], invite) && Registers(w'.journal[j], invite))
    {
      assert w'.journal[i] == w.journal[i] && Spent(w.db, w.journal[i]);
    }
  }

  /** What a committed transaction keeps. */
  lemma CommitKeeps(w: World, c: Call, up: bool)
    requires OncePerInvite(w) && KeysOk(w.db) && (c.RegisterCall? ==> ReadRight(w.db, c.inv))
    ensures var w' := Commit(w, PlayOf(w.db, c), up).0;
            OncePerInvite(w') && KeysOk(w'.db) && InvitesKept(w.db, w'.db)
  {
    InvitesSame(w.db);
    var p := PlayOf(w.db, c);
    if p.Ok? && up {
      PlayedKeepsInvites(w.db, c);
      PlayedKeepsKeys(w.db, c);
      WrittenOnce(w, p.value.db, p.value.event);
    }
  }

  lemma ElsewhereKeeps(w: World, c: Call)
    requires OncePerInvite(w) && KeysOk(w.db) && !c.RegisterCall?
    ensures var w' := ReplayRuns.Next(w, c); OncePerInvite(w') && KeysOk(w'.db) && InvitesKept(w.db, w'.db)
  {
    CommitKeeps(w, c, c.up);
    WrittenOnce(w, w.db, BOOTSTRAP_REFUSED);
  }

  lemma OpenedOk(ceremonies: map<string, Ceremony>, inv: LiveInvite, expires: int, now: int, ceremony: string)
    requires CeremoniesOk(ceremonies)
    ensures CeremoniesOk(Opened(ceremonies, inv, expires, now, ceremony))
  {
    var kept := Trimmed(ceremonies, inv.id, now);
    assert kept.Keys <= ceremonies.Keys;
    Fewer(kept.Keys, ceremonies.Keys);
    assert |kept| == |kept.Keys| && |ceremonies| == |ceremonies.Keys|;
    var after := Opened(ceremonies, inv, expires, now, ceremony);
    assert after == kept || after.Keys == kept.Keys + {ceremony};
    assert |after| == |after.Keys|;
  }

  lemma {:induction false} Fewer(a: set<string>, b: set<string>)
    requires a <= b
    ensures |a| <= |b|
    decreases |a|
  {
    if a != {} {
      var x :| x in a;
      Fewer(a - {x}, b - {x});
    }
  }

  lemma RemovedOk(ceremonies: map<string, Ceremony>, ceremony: string)
    requires CeremoniesOk(ceremonies)
    ensures CeremoniesOk(ceremonies - {ceremony})
  {
    var left := ceremonies - {ceremony};
    Fewer(left.Keys, ceremonies.Keys);
    assert |left| == |left.Keys| && |ceremonies| == |ceremonies.Keys|;
  }

  lemma MemoryStepKeeps(st: State, s: Step)
    requires Inv(st) && Enabled(st, s) && (s.ReadInvite? || s.Open? || s.TakeUp? || s.Reread?)
    ensures Inv(Next(st, s))
  {
    var st' := Next(st, s);
    InvitesSame(st.world.db);
    if s.Open? {
      OpenedOk(st.ceremonies, st.calls[s.call].inv, st.calls[s.call].expires, st.calls[s.call].now, s.ceremony);
    } else if s.TakeUp? {
      RemovedOk(st.ceremonies, s.ceremony);
    }
    CallsKept(st, st', s.call, st'.calls[s.call]);
  }

  lemma NextKeeps(st: State, s: Step)
    requires Inv(st) && Enabled(st, s)
    ensures Inv(Next(st, s))
  {
    var st' := Next(st, s);
    match s
    case StoreIt(n, up) =>
      var p := st.calls[n];
      CommitKeeps(st.world, RegisterCall(p.inv, p.attested.id, p.attested.fingerprint, p.now, up), up);
      CallsKept(st, st', n, Over);
    case Elsewhere(c) =>
      ElsewhereKeeps(st.world, c);
      forall m | m in st.calls
        ensures PhaseOk(st'.world.db, st.calls[m])
      {
        PhaseKept(st.world.db, st'.world.db, st.calls[m]);
      }
    case Restart =>
    case _ =>
      MemoryStepKeeps(st, s);
  }

  // ---- Whole runs ----

  predicate StepsTo(st: State, s: Step, st': State)
  {
    Enabled(st, s) && st' == Next(st, s)
  }

  /** `st` is reached from an empty system by the steps `steps`, in that order. */
  ghost predicate Reaches(steps: seq<Step>, st: State)
  {
    if steps == [] then st == BEGINNING
    else exists before :: StepsTo(before, Last(steps), st) && Reaches(Front(steps), before)
  }

  lemma {:induction false} RunKeeps(steps: seq<Step>, st: State)
    requires Reaches(steps, st)
    ensures Inv(st)
    decreases |steps|
  {
    if steps != [] {
      var before :| StepsTo(before, Last(steps), st) && Reaches(Front(steps), before);
      RunKeeps(Front(steps), before);
      NextKeeps(before, Last(steps));
    }
  }

  /** The step, taken in `db`, opens an invitation that will activate its key directly. */
  predicate GrantsDirect(s: Step, row: InviteRow)
  {
    s.Elsewhere? &&
    match s.change
    case BootstrapCall(name, _, _, _) => row.operator == name && row.createdBy == BOOTSTRAP
    case RecoverCall(name, _, _, _, _) => row.operator == name && row.createdBy == RECOVERY
    case ActionCall(a, actor, _, _, _) =>
      a.InviteOperator? && a.name == row.operator && actor == row.createdBy && Direct(actor)
    case _ => false
  }

  ghost predicate Granted(steps: seq<Step>, row: InviteRow)
  {
    exists s | s in steps :: GrantsDirect(s, row)
  }

  /** Where the invitations marked as local come from. */
  ghost predicate MarksTraced(steps: seq<Step>, db: Db)
  {
    forall i | i in db.invites :: Direct(db.invites[i].createdBy) ==> Granted(steps, db.invites[i])
  }

  /** A transaction opens a marked invitation only by a local act, or when an operator whose
      name is the mark invites. */
  lemma NewMarks(db: Db, c: Call, i: string)
    requires PlayOf(db, c).Ok? && i in PlayOf(db, c).value.db.invites
    ensures var row := PlayOf(db, c).value.db.invites[i];
            || (i in db.invites && row.operator == db.invites[i].operator && row.createdBy == db.invites[i].createdBy)
            || (Direct(row.createdBy) ==> GrantsDirect(Elsewhere(c), row))
  {
  }

  lemma GrantsAlike(s: Step, row: InviteRow, row': InviteRow)
    requires GrantsDirect(s, row) && row'.operator == row.operator && row'.createdBy == row.createdBy
    ensures GrantsDirect(s, row')
  {
  }

  lemma GrantedOn(steps: seq<Step>, s: Step, row: InviteRow, row': InviteRow)
    requires Granted(steps, row) && row'.operator == row.operator && row'.createdBy == row.createdBy
    ensures Granted(steps + [s], row')
  {
    var t :| t in steps && GrantsDirect(t, row);
    GrantsAlike(t, row, row');
    assert t in steps + [s];
  }

  lemma PlayedMarksTraced(steps: seq<Step>, s: Step, db: Db, c: Call)
    requires MarksTraced(steps, db) && PlayOf(db, c).Ok? && (s == Elsewhere(c) || c.RegisterCall?)
    ensures MarksTraced(steps + [s], PlayOf(db, c).value.db)
  {
    var db' := PlayOf(db, c).value.db;
    forall i | i in db'.invites && Direct(db'.invites[i].createdBy)
      ensures Granted(steps + [s], db'.invites[i])
    {
      NewMarks(db, c, i);
      if i in db.invites && db'.invites[i].operator == db.invites[i].operator
        && db'.invites[i].createdBy == db.invites[i].createdBy {
        GrantedOn(steps, s, db.invites[i], db'.invites[i]);
      } else {
        assert s in steps + [s];
      }
    }
  }

  lemma SameMarksTraced(steps: seq<Step>, s: Step, db: Db)
    requires MarksTraced(steps, db)
    ensures MarksTraced(steps + [s], db)
  {
    forall i | i in db.invites && Direct(db.invites[i].createdBy)
      ensures Granted(steps + [s], db.invites[i])
    {
      GrantedOn(steps, s, db.invites[i], db.invites[i]);
    }
  }

  lemma NextMarksTraced(steps: seq<Step>, st: State, s: Step)
    requires MarksTraced(steps, st.world.db) && Enabled(st, s)
    ensures MarksTraced(steps + [s], Next(st, s).world.db)
  {
    SameMarksTraced(steps, s, st.world.db);
    if s.Elsewhere? {
      NextIsPlayed(st.world, s.change);
      if PlayOf(st.world.db, s.change).Ok? {
        PlayedMarksTraced(steps, s, st.world.db, s.change);
      }
    } else if s.StoreIt? {
      var p := st.calls[s.call];
      var c := RegisterCall(p.inv, p.attested.id, p.attested.fingerprint, p.now, s.up);
      if PlayOf(st.world.db, c).Ok? {
        PlayedMarksTraced(steps, s, st.world.db, c);
      }
    }
  }

  lemma {:induction false} RunMarksTraced(steps: seq<Step>, st: State)
    requires Reaches(steps, st)
    ensures MarksTraced(steps, st.world.db)
    decreases |steps|
  {
    if steps != [] {
      var before :| StepsTo(before, Last(steps), st) && Reaches(Front(steps), before);
      RunMarksTraced(Front(steps), before);
      NextMarksTraced(Front(steps), before, Last(steps));
      SplitLast(steps);
    }
  }

  // ---- Where confirmations come from ----

  /** The step is the execution, under the name the key carries, of a confirmation of that very
      key. */
  predicate Confirms(s: Step, id: string, k: KeyRow)
  {
    && s.Elsewhere? && s.change.ActionCall? && s.change.a.ConfirmKey? && s.change.a.credentialId == id
    && s.change.a.keyFingerprint == k.fingerprint && k.confirmedBy == Some(s.change.actor)
  }

  ghost predicate Confirmed(steps: seq<Step>, db: Db, id: string, k: KeyRow)
  {
    && k.confirmedBy.Some? && k.confirmedBy.value != k.owner && k.confirmedBy.value in db.operators
    && exists s | s in steps :: Confirms(s, id, k)
  }

  ghost predicate ConfirmationsTraced(steps: seq<Step>, db: Db)
  {
    forall id | id in db.keys :: Direct(db.keys[id].initiatedBy) || Confirmed(steps, db, id, db.keys[id])
  }

  lemma ConfirmedOn(steps: seq<Step>, s: Step, db: Db, db': Db, id: string, k: KeyRow)
    requires Confirmed(steps, db, id, k) && forall name | name in db.operators :: name in db'.operators
    ensures Confirmed(steps + [s], db', id, k) && Confirmed(steps + [s], db', id, k.(revoked := true))
  {
    var t :| t in steps && Confirms(t, id, k);
    assert t in steps + [s] && Confirms(t, id, k.(revoked := true));
  }

  /** A transaction adds a key by a local act, or as a confirmation by another operator. */
  lemma NewKeys(db: Db, c: Call, id: string)
    requires PlayOf(db, c).Ok? && id in PlayOf(db, c).value.db.keys && (c.ActionCall? ==> c.actor in db.operators)
    ensures var db' := PlayOf(db, c).value.db;
            var k := db'.keys[id];
            || (id in db.keys && (k == db.keys[id] || k == db.keys[id].(revoked := true)))
            || Direct(k.initiatedBy)
            || (Confirms(Elsewhere(c), id, k) && k.confirmedBy.value != k.owner && k.confirmedBy.value in db'.operators)
  {
  }

  lemma PlayedConfirmationsTraced(steps: seq<Step>, s: Step, db: Db, c: Call)
    requires ConfirmationsTraced(steps, db) && PlayOf(db, c).Ok? && (c.ActionCall? ==> c.actor in db.operators)
    requires s == Elsewhere(c) || c.RegisterCall?
    ensures ConfirmationsTraced(steps + [s], PlayOf(db, c).value.db)
  {
    var db' := PlayOf(db, c).value.db;
    PlayedGrows(db, c);
    forall id | id in db'.keys && !Direct(db'.keys[id].initiatedBy)
      ensures Confirmed(steps + [s], db', id, db'.keys[id])
    {
      NewKeys(db, c, id);
      if id in db.keys && (db'.keys[id] == db.keys[id] || db'.keys[id] == db.keys[id].(revoked := true)) {
        ConfirmedOn(steps, s, db, db', id, db.keys[id]);
      } else {
        assert s in steps + [s];
      }
    }
  }

  lemma SameConfirmationsTraced(steps: seq<Step>, s: Step, db: Db)
    requires ConfirmationsTraced(steps, db)
    ensures ConfirmationsTraced(steps + [s], db)
  {
    forall id | id in db.keys && !Direct(db.keys[id].initiatedBy)
      ensures Confirmed(steps + [s], db, id, db.keys[id])
    {
      ConfirmedOn(steps, s, db, db, id, db.keys[id]);
    }
  }

  lemma NextConfirmationsTraced(steps: seq<Step>, st: State, s: Step)
    requires ConfirmationsTraced(steps, st.world.db) && Enabled(st, s)
    ensures ConfirmationsTraced(steps + [s], Next(st, s).world.db)
  {
    SameConfirmationsTraced(steps, s, st.world.db);
    if s.Elsewhere? {
      NextIsPlayed(st.world, s.change);
      if PlayOf(st.world.db, s.change).Ok? {
        PlayedConfirmationsTraced(steps, s, st.world.db, s.change);
      }
    } else if s.StoreIt? {
      var p := st.calls[s.call];
      var c := RegisterCall(p.inv, p.attested.id, p.attested.fingerprint, p.now, s.up);
      if PlayOf(st.world.db, c).Ok? {
        PlayedConfirmationsTraced(steps, s, st.world.db, c);
      }
    }
  }

  lemma {:induction false} RunConfirmationsTraced(steps: seq<Step>, st: State)
    requires Reaches(steps, st)
    ensures ConfirmationsTraced(steps, st.world.db)
    decreases |steps|
  {
    if steps != [] {
      var before :| StepsTo(before, Last(steps), st) && Reaches(Front(steps), before);
      RunConfirmationsTraced(Front(steps), before);
      NextConfirmationsTraced(Front(steps), before, Last(steps));
      SplitLast(steps);
    }
  }

  /** How a key came: with a consumed invitation under its mark, which a local act or an
      operator so named opened; or else by a confirmation, executed under the name of an
      operator who is not its owner. */
  ghost predicate Explained(steps: seq<Step>, db: Db, id: string, k: KeyRow)
  {
    if Direct(k.initiatedBy) then exists i | i in db.invites :: Opens(db.invites[i], k) && Granted(steps, db.invites[i])
    else Confirmed(steps, db, id, k)
  }

  /** In every run, racing calls included: at most one ceremony per invitation and 1024 in
      all; at most one key registered with an invitation; and every key is explained by
      steps of the run. */
  lemma AnyRun(steps: seq<Step>, st: State)
    requires Reaches(steps, st)
    ensures |st.ceremonies| <= 1024
    ensures forall c, d | c in st.ceremonies && d in st.ceremonies && c != d ::
              st.ceremonies[c].invite != st.ceremonies[d].invite
    ensures forall i, j, invite | 0 <= i < j < |st.world.journal| ::
              !(Registers(st.world.journal[i], invite) && Registers(st.world.journal[j], invite))
    ensures forall id | id in st.world.db.keys :: Explained(steps, st.world.db, id, st.world.db.keys[id])
  {
    RunKeeps(steps, st);
    RunMarksTraced(steps, st);
    RunConfirmationsTraced(steps, st);
    var db := st.world.db;
    forall id | id in db.keys
      ensures Explained(steps, db, id, db.keys[id])
    {
      var k := db.keys[id];
      assert Traced(db, k);
      if Direct(k.initiatedBy) {
        var i :| i in db.invites && Opens(db.invites[i], k);
        assert Granted(steps, db.invites[i]);
      }
    }
  }

  // ---- Operators named like a mark ----

  lemma NextKeepsInvites(w: World, c: Call)
    ensures InvitesKept(w.db, ReplayRuns.Next(w, c).db)
  {
    NextIsPlayed(w, c);
    InvitesSame(w.db);
    if PlayOf(w.db, c).Ok? {
      PlayedKeepsInvites(w.db, c);
    }
  }

  lemma {:induction false} RunKeepsInvites(w: World, calls: seq<Call>)
    ensures InvitesKept(w.db, RunFrom(w, calls).db)
    decreases |calls|
  {
    InvitesSame(w.db);
    if calls != [] {
      RunKeepsInvites(w, Front(calls));
      NextKeepsInvites(RunFrom(w, Front(calls)), Last(calls));
    }
  }

  predicate EntersNow(before: map<string, KeyRow>, after: map<string, KeyRow>, id: string)
  {
    id !in before && id in after && !after[id].revoked
  }

  /** A signed invitation, then whatever calls: while the invitation is open, a key registered
      with it is active at once precisely when the inviter is named like the mark of recovery,
      or like that of the bootstrap while no administrator holds a key. Under the second name
      it is refused as long as one does, and under any other it waits for a confirmation. */
  lemma InvitedIsDirectIff(w: World, invite: Call, between: seq<Call>, id: string, fingerprint: string, now: int)
    requires invite.ActionCall? && invite.a.InviteOperator? && invite.up && PlayOf(w.db, invite).Ok?
    requires Live(RunFrom(ReplayRuns.Next(w, invite), between).db, invite.draw.drawn, now)
    ensures var db := RunFrom(ReplayRuns.Next(w, invite), between).db;
            var p := PlayRegister(db, Read(db, invite.draw.drawn), id, fingerprint, now);
            && (p.Ok? && EntersNow(db.keys, p.value.db.keys, id) <==>
                  && id !in db.keys
                  && (invite.actor == RECOVERY || (invite.actor == BOOTSTRAP && ActiveAdminKeys(db) == {})))
            && (p.Ok? && id !in db.pending && id in p.value.db.pending <==> id !in db.pending && !Direct(invite.actor))
            && (invite.actor == BOOTSTRAP && ActiveAdminKeys(db) != {} ==> p == Err(Denied))
  {
    RunKeepsInvites(ReplayRuns.Next(w, invite), between);
    assert ReplayRuns.Next(w, invite).db.invites[invite.draw.drawn].createdBy == invite.actor;
  }

  lemma OneStep(steps: seq<Step>, st: State, s: Step)
    requires Reaches(steps, st) && Enabled(st, s)
    ensures Reaches(steps + [s], Next(st, s))
  {
    assert Front(steps + [s]) == steps && Last(steps + [s]) == s;
    assert StepsTo(st, s, Next(st, s));
  }

  /** No ceremony is open, and calls from `n` on are unused. */
  ghost predicate Quiet(st: State, n: nat)
  {
    st.ceremonies == map[] && forall m | m in st.calls :: m < n
  }

  ghost predicate OnlyMore(steps: seq<Step>, steps': seq<Step>)
  {
    forall s | s in steps' && s.Elsewhere? :: s in steps
  }

  lemma OpensAlone(steps: seq<Step>, st: State, n: nat, invite: string) returns (steps': seq<Step>, st': State)
    requires Reaches(steps, st) && Quiet(st, n) && Live(st.world.db, invite, 0)
    ensures Reaches(steps', st') && OnlyMore(steps, steps') && st'.world == st.world
    ensures st'.ceremonies.Keys == {"c"} && st'.ceremonies["c"].expiresAt >= 0
    ensures st'.ceremonies["c"].invite == invite && st'.ceremonies["c"].operator == st.world.db.invites[invite].operator
    ensures forall m | m in st'.calls :: m < n + 1
  {
    var s1, s2 := ReadInvite(n, invite, 0), Open(n, "c");
    var read := Next(st, s1);
    OneStep(steps, st, s1);
    OneStep(steps + [s1], read, s2);
    assert Trimmed(st.ceremonies, invite, 0) == map[];
    steps', st' := steps + [s1] + [s2], Next(read, s2);
  }

  lemma RereadsAlone(steps: seq<Step>, st: State, n: nat, invite: string, attested: Attested)
    returns (steps': seq<Step>, st': State)
    requires Reaches(steps, st) && st.ceremonies.Keys == {"c"} && st.ceremonies["c"].expiresAt >= 0
    requires Live(st.world.db, invite, 0) && st.ceremonies["c"].invite == invite
    requires st.ceremonies["c"].operator == st.world.db.invites[invite].operator
    requires forall m | m in st.calls :: m < n
    ensures Reaches(steps', st') && OnlyMore(steps, steps') && st'.world == st.world
    ensures Quiet(st', n + 1) && n in st'.calls && st'.calls[n] == Storing(Read(st.world.db, invite), attested, 0)
  {
    var s1, s2 := TakeUp(n, "c", 0), Reread(n, Some(attested));
    var taken := Next(st, s1);
    assert taken.ceremonies == map[];
    OneStep(steps, st, s1);
    OneStep(steps + [s1], taken, s2);
    steps', st' := steps + [s1] + [s2], Next(taken, s2);
  }

  function Registering(db: Db, invite: string, attested: Attested): Play
    requires invite in db.invites
  {
    PlayRegister(db, Read(db, invite), attested.id, attested.fingerprint, 0)
  }

  /** The five steps of a registration, with nothing else in between, come down to the closing
      transaction. */
  lemma RegistersAlone(steps: seq<Step>, st: State, n: nat, invite: string, attested: Attested)
    returns (steps': seq<Step>, st': State)
    requires Reaches(steps, st) && Quiet(st, n) && Live(st.world.db, invite, 0)
    ensures Reaches(steps', st') && OnlyMore(steps, steps') && Quiet(st', n + 2)
    ensures st'.world == Commit(st.world, Registering(st.world.db, invite, attested), true).0
  {
    var steps1, st1 := OpensAlone(steps, st, n, invite);
    var steps2, st2 := RereadsAlone(steps1, st1, n + 1, invite, attested);
    OneStep(steps2, st2, StoreIt(n + 1, true));
    steps', st' := steps2 + [StoreIt(n + 1, true)], Next(st2, StoreIt(n + 1, true));
  }

  lemma MarkIsAName()
    ensures ValidName(RECOVERY) && Trim("lost") == "lost"
  {
    var reason := "lost";
    assert reason[0] == 'l' && reason[3] == 't';
    assert RECOVERY[0] == 'r' && RECOVERY[12] == 'n';
    assert TrimStart(RECOVERY) == RECOVERY;
  }

  lemma Recovers(db: Db, invite: string)
    requires RECOVERY !in db.operators && invite !in db.invites
    ensures var p := PlayRecover(db, RECOVERY, "lost", MINUTE, Draw(invite, 0));
            && p.Ok? && p.value.db.keys == db.keys
            && p.value.db.operators == db.operators[RECOVERY := OperatorRow(ADMIN, false)]
            && p.value.db.invites.Keys == db.invites.Keys + {invite}
            && p.value.db.invites[invite] == InviteRow(RECOVERY, RECOVERY, MINUTE, false)
  {
    MarkIsAName();
  }

  /** Under the mark of recovery an open invitation gives an active key. */
  lemma RegistersDirectly(db: Db, invite: string, attested: Attested)
    requires Live(db, invite, 0) && db.invites[invite].createdBy == RECOVERY && attested.id !in db.keys
    ensures var p := Registering(db, invite, attested);
            && p.Ok? && p.value.db.operators == db.operators && p.value.db.invites.Keys == db.invites.Keys
            && p.value.db.keys
               == db.keys[attested.id := KeyRow(db.invites[invite].operator, RECOVERY, Some(RECOVERY),
                                                attested.fingerprint, false)]
  {
  }

  /** The mark of recovery, recovered as the name of an administrator, registers a key. */
  lemma MarkEnrols(steps: seq<Step>, st: State, n: nat, invite: string, key: Attested)
    returns (steps': seq<Step>, st': State)
    requires Reaches(steps, st) && Quiet(st, n)
    requires RECOVERY !in st.world.db.operators && invite !in st.world.db.invites && key.id !in st.world.db.keys
    ensures Reaches(steps', st') && Quiet(st', n + 2)
    ensures var db, db' := st.world.db, st'.world.db;
            && db'.operators == db.operators[RECOVERY := OperatorRow(ADMIN, false)]
            && db'.keys == db.keys[key.id := KeyRow(RECOVERY, RECOVERY, Some(RECOVERY), key.fingerprint, false)]
            && db'.invites.Keys == db.invites.Keys + {invite}
    ensures forall s | s in steps' && s.Elsewhere? && s.change.ActionCall? :: s in steps
  {
    var recover := Elsewhere(RecoverCall(RECOVERY, "lost", MINUTE, Draw(invite, 0), true));
    Recovers(st.world.db, invite);
    OneStep(steps, st, recover);
    var st1 := Next(st, recover);
    RegistersDirectly(st1.world.db, invite, key);
    steps', st' := RegistersAlone(steps + [recover], st1, n, invite, key);
  }

  /** An operator so named invites `name`, whose key is then active at once. */
  lemma MarkInvites(steps: seq<Step>, st: State, n: nat, name: string, invite: string, key: Attested)
    returns (steps': seq<Step>, st': State)
    requires Reaches(steps, st) && Quiet(st, n) && RECOVERY in st.world.db.operators
    requires ValidName(name) && name !in st.world.db.operators
    requires invite !in st.world.db.invites && key.id !in st.world.db.keys
    ensures Reaches(steps', st')
    ensures var db, db' := st.world.db, st'.world.db;
            && db'.operators == db.operators[name := OperatorRow(AsStr(Auditeur), false)]
            && db'.keys == db.keys[key.id := KeyRow(name, RECOVERY, Some(RECOVERY), key.fingerprint, false)]
    ensures forall s, k | s in steps' && Confirms(s, key.id, k) :: s in steps
  {
    var send := Elsewhere(ActionCall(InviteOperator(name, Auditeur, 1), RECOVERY, 1, Draw(invite, 0), true));
    OneStep(steps, st, send);
    var st1 := Next(st, send);
    RegistersDirectly(st1.world.db, invite, key);
    steps', st' := RegistersAlone(steps + [send], st1, n, invite, key);
  }

  /** Such an operator can exist. From any state of a run without one, in which nothing is
      under way: the mark of recovery is recovered as an administrator's name, registers a key,
      invites `name` by a signed action, and the key of `name` is active in a system that has
      administrators, though no step since then confirms it. */
  lemma NamedLikeTheMark(steps: seq<Step>, st: State, n: nat, name: string, invite: string, invite': string,
                         key: Attested, key': Attested)
    returns (steps': seq<Step>, st': State)
    requires Reaches(steps, st) && Quiet(st, n) && RECOVERY !in st.world.db.operators
    requires ValidName(name) && name != RECOVERY && name !in st.world.db.operators
    requires invite != invite' && invite !in st.world.db.invites && invite' !in st.world.db.invites
    requires key.id != key'.id && key.id !in st.world.db.keys && key'.id !in st.world.db.keys
    ensures Reaches(steps', st') && key.id in ActiveAdminKeys(st'.world.db)
    ensures key'.id in st'.world.db.keys
    ensures st'.world.db.keys[key'.id] == KeyRow(name, RECOVERY, Some(RECOVERY), key'.fingerprint, false)
    ensures forall s, k | s in steps' && Confirms(s, key'.id, k) :: s in steps
  {
    var steps1, st1 := MarkEnrols(steps, st, n, invite, key);
    steps', st' := MarkInvites(steps1, st1, n + 2, name, invite', key');
    assert ActiveAdmin(st'.world.db, key.id);
  }
}
