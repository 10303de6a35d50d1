/** Publications of revocation lists, interleaved with one another and with every other use
    of the store; each store call is one step. */
module CrlRuns {
  import opened Basics
  import opened Hex
  import opened CertStore
  import opened CertAgreement
  import opened Issuer

  /** A list in the making. For the record, when its revoked set was read and its number drawn. */
  datatype Draft = Draft(entries: seq<Certificate>, readAt: nat, number: nat, drawnAt: nat, issued: seq<Bytes>)

  datatype Phase = Reading(draft: Draft) | Numbered(draft: Draft) | Listed(draft: Draft) | Noted(draft: Draft) | Over

  /** `since` records when each serial was revoked, `drawn` when each number was drawn, `now`
      counts the steps. */
  datatype State = State(store: Book, nextCrl: nat, crls: seq<Draft>, calls: map<nat, Phase>,
                         since: map<string, nat>, drawn: map<nat, nat>, now: nat)

  const START: State := State(map[], 0, [], map[], map[], map[], 0)

  datatype Step =
    | Change(op: Op)
    | ReadRevoked(call: nat)
    | DrawNumber(call: nat)
    | ReadIssued(call: nat)
    | WriteJournal(call: nat, up: bool)
    | SaveCrl(call: nat)

  predicate Enabled(st: State, s: Step)
  {
    match s
    case Change(op) => Fresh(op)
    case ReadRevoked(n) => n !in st.calls
    case DrawNumber(n) => n in st.calls && st.calls[n].Reading?
    case ReadIssued(n) => n in st.calls && st.calls[n].Numbered?
    case WriteJournal(n, _) => n in st.calls && st.calls[n].Listed?
    case SaveCrl(n) => n in st.calls && st.calls[n].Noted?
  }

  predicate RevokedIn(m: Book, k: string)
  {
    k in m && m[k].status == Revoked
  }

  /** Serials revoked by this step enter the record. */
  function Dated(since: map<string, nat>, m: Book, now: nat): map<string, nat>
  {
    map k | k in m && m[k].status == Revoked :: if k in since then since[k] else now
  }

  function Next(st: State, s: Step): State
    requires Enabled(st, s)
  {
    match s
    case Change(op) =>
      var m := Kept(st.store, OnMemory(st.store, op));
      st.(store := m, since := Dated(st.since, m, st.now), now := st.now + 1)
    case ReadRevoked(n) =>
      st.(calls := st.calls[n := Reading(Draft(List(st.store, OnlyRevoked), st.now, 0, 0, []))], now := st.now + 1)
    case DrawNumber(n) =>
      st.(nextCrl := st.nextCrl + 1, drawn := st.drawn[st.nextCrl + 1 := st.now],
          calls := st.calls[n := Numbered(st.calls[n].draft.(number := st.nextCrl + 1, drawnAt := st.now))],
            now := st.now + 1)
    case ReadIssued(n) =>
      st.(calls := st.calls[n := Listed(st.calls[n].draft.(issued := Serials(List(st.store, EverIssued))))],
          now := st.now + 1)
    case WriteJournal(n, up) =>
      st.(calls := st.calls[n := if up then Noted(st.calls[n].draft) else Over], now := st.now + 1)
    case SaveCrl(n) =>
      st.(crls := st.crls + [st.calls[n].draft], calls := st.calls[n := Over], now := st.now + 1)
  }

  // ---- The invariant ----

  ghost predicate RecordOk(st: State)
  {
    && Keyed(st.store)
    && (forall k :: k in st.since <==> RevokedIn(st.store, k))
    && (forall k | k in st.since :: st.since[k] < st.now)
  }

  /** The entries are exactly the serials revoked before they were read, as they are for ever. */
  ghost predicate EntriesOk(st: State, d: Draft)
  {
    && d.readAt < st.now
    && forall c :: c in d.entries <==> InBy(st, c, d.readAt)
  }

  predicate InBy(st: State, c: Certificate, at: nat)
  {
    var k := Encode(c.serial);
    k in st.since && st.since[k] < at && k in st.store && st.store[k] == c
  }

  ghost predicate NumbersOk(st: State)
  {
    && (forall n | n in st.drawn :: n <= st.nextCrl && st.drawn[n] < st.now)
    && (forall n, m | n in st.drawn && m in st.drawn && n < m :: st.drawn[n] < st.drawn[m])
  }

  predicate NumberOk(st: State, d: Draft)
  {
    d.number in st.drawn && st.drawn[d.number] == d.drawnAt && d.readAt < d.drawnAt
  }

  ghost predicate Covered(d: Draft)
  {
    forall c | c in d.entries :: c.serial in d.issued
  }

  ghost predicate PhaseOk(st: State, p: Phase)
  {
    match p
    case Reading(d) => EntriesOk(st, d)
    case Numbered(d) => EntriesOk(st, d) && NumberOk(st, d)
    case Listed(d) => EntriesOk(st, d) && NumberOk(st, d) && Covered(d)
    case Noted(d) => EntriesOk(st, d) && NumberOk(st, d) && Covered(d)
    case Over => true
  }

  ghost predicate Inv(st: State)
  {
    && RecordOk(st) && NumbersOk(st)
    && (forall n | n in st.calls :: PhaseOk(st, st.calls[n]))
    && (forall d | d in st.crls :: EntriesOk(st, d) && NumberOk(st, d) && Covered(d))
  }

  /** Revoked certificates, their dates, and drawn numbers stay for ever. */
  ghost predicate Keeps(st: State, st': State)
  {
    && st.now <= st'.now
    && (forall k | k in st.since :: k in st'.since && st'.since[k] == st.since[k] && k in st.store && k in st'.store
                                    && st'.store[k] == st.store[k])
    && (forall k | k in st'.since && k !in st.since :: st'.since[k] >= st.now)
    && (forall n | n in st.drawn :: n in st'.drawn && st'.drawn[n] == st.drawn[n])
  }

  lemma EntriesKept(st: State, st': State, d: Draft)
    requires Keeps(st, st') && EntriesOk(st, d)
    ensures EntriesOk(st', d)
  {
    forall c
      ensures c in d.entries <==> InBy(st', c, d.readAt)
    {
      assert c in d.entries <==> InBy(st, c, d.readAt);
    }
  }

  lemma PhaseKept(st: State, st': State, p: Phase)
    requires Keeps(st, st') && PhaseOk(st, p)
    ensures PhaseOk(st', p)
  {
    if !p.Over? {
      EntriesKept(st, st', p.draft);
    }
  }

  lemma StepKeeps(st: State, st': State, n: nat, p: Phase)
    requires Inv(st) && Keeps(st, st') && RecordOk(st') && NumbersOk(st')
    requires st'.calls == st.calls[n := p] && PhaseOk(st', p) && st'.crls == st.crls
    ensures Inv(st')
  {
    forall m | m in st'.calls
      ensures PhaseOk(st', st'.calls[m])
    {
      if m != n {
        PhaseKept(st, st', st.calls[m]);
      }
    }
    CrlsKept(st, st');
  }

  lemma CrlsKept(st: State, st': State)
    requires Inv(st) && Keeps(st, st')
    ensures forall d | d in st.crls :: EntriesOk(st', d) && NumberOk(st', d) && Covered(d)
  {
    forall d | d in st.crls
      ensures EntriesOk(st', d) && NumberOk(st', d) && Covered(d)
    {
      EntriesKept(st, st', d);
    }
  }

  lemma ChangeKeeps(st: State, op: Op)
    requires Inv(st) && Fresh(op)
    ensures Inv(Next(st, Change(op)))
  {
    var st' := Next(st, Change(op));
    OpLivesOn(st.store, op);
    forall k | k in st.since
      ensures k in st'.since && st'.since[k] == st.since[k] && k in st'.store && st'.store[k] == st.store[k]
    {
      assert RevokedIn(st.store, k) && OneLife(st.store[k], st'.store[k]);
    }
    assert Keeps(st, st');
    forall m | m in st'.calls
      ensures PhaseOk(st', st'.calls[m])
    {
      PhaseKept(st, st', st.calls[m]);
    }
    CrlsKept(st, st');
  }

  lemma ReadKeeps(st: State, n: nat)
    requires Inv(st) && n !in st.calls
    ensures Inv(Next(st, ReadRevoked(n)))
  {
    var st' := Next(st, ReadRevoked(n));
    ListIs(st.store, OnlyRevoked);
    var d := st'.calls[n].draft;
    forall c
      ensures c in d.entries <==> InBy(st', c, d.readAt)
    {
      assert Encode(c.serial) in st.since <==> RevokedIn(st.store, Encode(c.serial));
    }
    StepKeeps(st, st', n, st'.calls[n]);
  }

  lemma DrawKeeps(st: State, n: nat)
    requires Inv(st) && Enabled(st, DrawNumber(n))
    ensures Inv(Next(st, DrawNumber(n)))
  {
    var st' := Next(st, DrawNumber(n));
    assert Keeps(st, st');
    EntriesKept(st, st', st.calls[n].draft);
    StepKeeps(st, st', n, st'.calls[n]);
  }

  lemma ListKeeps(st: State, n: nat)
    requires Inv(st) && Enabled(st, ReadIssued(n))
    ensures Inv(Next(st, ReadIssued(n)))
  {
    var st' := Next(st, ReadIssued(n));
    var d := st.calls[n].draft;
    assert Keeps(st, st');
    EntriesKept(st, st', d);
    ListIs(st.store, EverIssued);
    SerialsHold(List(st.store, EverIssued));
    forall c | c in d.entries
      ensures c.serial in st'.calls[n].draft.issued
    {
      assert InBy(st, c, d.readAt) && RevokedIn(st.store, Encode(c.serial));
      assert c in List(st.store, EverIssued);
    }
    StepKeeps(st, st', n, st'.calls[n]);
  }

  lemma SaveKeeps(st: State, n: nat)
    requires Inv(st) && Enabled(st, SaveCrl(n))
    ensures Inv(Next(st, SaveCrl(n)))
  {
    var st' := Next(st, SaveCrl(n));
    assert Keeps(st, st');
    forall m | m in st'.calls
      ensures PhaseOk(st', st'.calls[m])
    {
      PhaseKept(st, st', st.calls[m]);
    }
    CrlsKept(st, st');
    EntriesKept(st, st', st.calls[n].draft);
  }

  lemma NextKeeps(st: State, s: Step)
    requires Inv(st) && Enabled(st, s)
    ensures Inv(Next(st, s))
  {
    match s
    case Change(op) => ChangeKeeps(st, op);
    case ReadRevoked(n) => ReadKeeps(st, n);
    case DrawNumber(n) => DrawKeeps(st, n);
    case ReadIssued(n) => ListKeeps(st, n);
    case WriteJournal(n, up) =>
      var st' := Next(st, s);
      assert Keeps(st, st');
      PhaseKept(st, st', st.calls[n]);
      StepKeeps(st, st', n, st'.calls[n]);
    case SaveCrl(n) => SaveKeeps(st, n);
  }

  // ---- Whole runs ----

  predicate StepsTo(st: State, s: Step, st': State)
  {
    Enabled(st, s) && st' == Next(st, s)
  }

  /** `st` is reached from an empty store by the steps `steps`, in that order. */
  ghost predicate Reaches(steps: seq<Step>, st: State)
  {
    if steps == [] then st == START
    else exists before :: StepsTo(before, Last(steps), st) && Reaches(Front(steps), before)
  }

  lemma {:induction false} RunKeeps(steps: seq<Step>, st: State)
    requires Reaches(steps, st)
    ensures Inv(st)
    decreases |steps|
  {
    if steps != [] {
      var before :| StepsTo(before, Last(steps), st) && Reaches(Front(steps), before);
      RunKeeps(Front(steps), before);
      NextKeeps(before, Last(steps));
    }
  }

  /** In any interleaving, the revoked serials of a saved list are among its issued serials,
      and are exactly those revoked before its revoked set was read, each with the date and
      reason it still has. */
  lemma AnyInterleaving(steps: seq<Step>, st: State, d: Draft)
    requires Reaches(steps, st) && d in st.crls
    ensures forall c | c in d.entries :: c.serial in d.issued
    ensures forall k | RevokedIn(st.store, k) :: k in st.since && (st.store[k] in d.entries <==> st.since[k] < d.readAt)
    ensures forall c | c in d.entries :: RevokedIn(st.store, Encode(c.serial)) && st.store[Encode(c.serial)] == c
  {
    RunKeeps(steps, st);
    forall k | RevokedIn(st.store, k)
      ensures k in st.since && (st.store[k] in d.entries <==> st.since[k] < d.readAt)
    {
      assert k in st.since;
      assert st.store[k] in d.entries <==> InBy(st, st.store[k], d.readAt);
    }
    forall c | c in d.entries
      ensures RevokedIn(st.store, Encode(c.serial)) && st.store[Encode(c.serial)] == c
    {
      assert InBy(st, c, d.readAt);
    }
  }

  /** The serial fell between the two readings. */
  predicate Between(st: State, k: string, early: nat, to: nat)
  {
    k in st.since && early <= st.since[k] < to
  }

  /** A list keeps every entry of another, dates and reasons included, exactly when nothing
      was revoked after its own reading and before the other's. */
  lemma ContainsIff(steps: seq<Step>, st: State, a: Draft, b: Draft)
    requires Reaches(steps, st) && a in st.crls && b in st.crls
    ensures (forall c | c in a.entries :: c in b.entries) <==> (forall k :: !Between(st, k, b.readAt, a.readAt))
  {
    RunKeeps(steps, st);
    if forall c | c in a.entries :: c in b.entries {
      forall k
        ensures !Between(st, k, b.readAt, a.readAt)
      {
        if k in st.since {
          assert RevokedIn(st.store, k);
          assert st.store[k] in a.entries <==> InBy(st, st.store[k], a.readAt);
          assert st.store[k] in b.entries <==> InBy(st, st.store[k], b.readAt);
        }
      }
    }
    if forall k :: !Between(st, k, b.readAt, a.readAt) {
      forall c | c in a.entries
        ensures c in b.entries
      {
        assert InBy(st, c, a.readAt) && !Between(st, Encode(c.serial), b.readAt, a.readAt);
      }
    }
  }

  /** Publications that do not overlap: the later one has the higher number and keeps every
      earlier entry. */
  lemma LaterKeepsAll(steps: seq<Step>, st: State, a: Draft, b: Draft)
    requires Reaches(steps, st) && a in st.crls && b in st.crls && a.drawnAt <= b.readAt
    ensures a.number < b.number && forall c | c in a.entries :: c in b.entries
  {
    RunKeeps(steps, st);
    assert NumberOk(st, a) && NumberOk(st, b);
    ContainsIff(steps, st, a, b);
  }

  // ---- When publications overlap ----

  /** The rest of a publication whose number is drawn, nothing in between. */
  function Finished(st: State, n: nat): State
    requires n in st.calls && st.calls[n].Numbered?
  {
    Next(Next(Next(st, ReadIssued(n)), WriteJournal(n, true)), SaveCrl(n))
  }

  lemma FinishedKeeps(st: State, n: nat)
    requires Inv(st) && n in st.calls && st.calls[n].Numbered?
    ensures Inv(Finished(st, n))
  {
    NextKeeps(st, ReadIssued(n));
    NextKeeps(Next(st, ReadIssued(n)), WriteJournal(n, true));
    NextKeeps(Next(Next(st, ReadIssued(n)), WriteJournal(n, true)), SaveCrl(n));
  }

  /** The list that a finished publication saves. */
  function Made(st: State, n: nat): Draft
    requires n in st.calls && st.calls[n].Numbered?
  {
    st.calls[n].draft.(issued := Serials(List(st.store, EverIssued)))
  }

  lemma FinishedSaves(st: State, n: nat)
    requires n in st.calls && st.calls[n].Numbered?
    ensures var st' := Finished(st, n);
            && st'.since == st.since && st'.store == st.store && st'.calls == st.calls[n := Over]
            && st'.crls == st.crls + [Made(st, n)]
  {
  }

  /** One publication reads, a certificate is revoked, another publication reads and draws
      its number first. */
  function Raced(st: State, p: nat, q: nat, serial: Bytes, at: int, reason: int): State
    requires p !in st.calls && q !in st.calls && p != q
  {
    var read := Next(Next(Next(st, ReadRevoked(p)), Change(RevokeOp(serial, at, reason))), ReadRevoked(q));
    Next(Next(read, DrawNumber(q)), DrawNumber(p))
  }

  lemma RacedReads(st: State, p: nat, q: nat, serial: Bytes, at: int, reason: int)
    requires Inv(st) && p !in st.calls && q !in st.calls && p != q
    requires Encode(serial) in st.store && st.store[Encode(serial)].status == Issued
    ensures var st' := Raced(st, p, q, serial, at, reason);
            && Inv(st') && p in st'.calls && q in st'.calls && st'.calls[p].Numbered? && st'.calls[q].Numbered?
            && st'.calls[p].draft.readAt == st.now && st'.calls[p].draft.number == st.nextCrl + 2
            && st'.calls[q].draft.readAt == st.now + 2 && st'.calls[q].draft.number == st.nextCrl + 1
            && Between(st', Encode(serial), st.now, st.now + 2)
  {
    var s1 := Next(st, ReadRevoked(p));
    NextKeeps(st, ReadRevoked(p));
    assert Encode(serial) !in s1.since;
    var s2 := Next(s1, Change(RevokeOp(serial, at, reason)));
    NextKeeps(s1, Change(RevokeOp(serial, at, reason)));
    assert s2.since[Encode(serial)] == st.now + 1;
    var s3 := Next(s2, ReadRevoked(q));
    NextKeeps(s2, ReadRevoked(q));
    var s4 := Next(s3, DrawNumber(q));
    NextKeeps(s3, DrawNumber(q));
    NextKeeps(s4, DrawNumber(p));
  }

  lemma MissingEntry(st: State, a: Draft, b: Draft, k: string)
    requires Inv(st) && a in st.crls && b in st.crls && Between(st, k, b.readAt, a.readAt)
    ensures exists c | c in a.entries :: c !in b.entries
  {
    assert RevokedIn(st.store, k);
    var c := st.store[k];
    assert InBy(st, c, a.readAt) && !InBy(st, c, b.readAt);
    assert c in a.entries && c !in b.entries;
  }

  /** From any reachable state with a certificate in force, two publications that overlap in
      this way leave a list with a higher number and without an entry the lower one has. */
  lemma OverlapLosesAnEntry(steps: seq<Step>, st: State, p: nat, q: nat, serial: Bytes, at: int, reason: int)
    requires Reaches(steps, st) && p !in st.calls && q !in st.calls && p != q
    requires Encode(serial) in st.store && st.store[Encode(serial)].status == Issued
    ensures var raced := Raced(st, p, q, serial, at, reason);
            && q in raced.calls && raced.calls[q].Numbered?
            && p in Finished(raced, q).calls && Finished(raced, q).calls[p].Numbered?
            && exists a, b | a in Finished(Finished(raced, q), p).crls && b in Finished(Finished(raced, q), p).crls ::
                 a.number < b.number && exists c | c in a.entries :: c !in b.entries
  {
    RunKeeps(steps, st);
    RacedReads(st, p, q, serial, at, reason);
    var raced := Raced(st, p, q, serial, at, reason);
    FinishedKeeps(raced, q);
    FinishedSaves(raced, q);
    var one := Finished(raced, q);
    FinishedKeeps(one, p);
    FinishedSaves(one, p);
    MissingEntry(Finished(one, p), Made(raced, q), Made(one, p), Encode(serial));
  }
}
