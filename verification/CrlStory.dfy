/** What each published revocation list says, told of the calls that came before it read the
    store: the date and the reason of each serial's first revocation. */
module CrlStory {
  import opened Basics
  import opened CertStore
  import opened CertAgreement
  import opened CertStory
  import opened Issuer
  import opened CrlRuns

  /** The calls on the store among the first steps of a run. */
  function Ops(steps: seq<Step>): seq<Op>
  {
    if steps == [] then []
    else if Last(steps).Change? then Ops(Front(steps)) + [Last(steps).op]
    else Ops(Front(steps))
  }

  function Upto(steps: seq<Step>, n: nat): seq<Op>
    requires n <= |steps|
  {
    Ops(steps[..n])
  }

  ghost predicate ReadThen(steps: seq<Step>, d: Draft)
  {
    d.readAt < |steps| && steps[d.readAt].ReadRevoked?
    && d.entries == List(MemoryRun(Upto(steps, d.readAt)), OnlyRevoked)
  }

  /** The issued serials were read later than the revoked ones. */
  ghost predicate ListedThen(steps: seq<Step>, d: Draft)
  {
    exists n | d.readAt < n < |steps| ::
      steps[n].ReadIssued? && d.issued == Serials(List(MemoryRun(Upto(steps, n)), EverIssued))
  }

  ghost predicate PhaseTold(steps: seq<Step>, p: Phase)
  {
    match p
    case Reading(d) => ReadThen(steps, d)
    case Numbered(d) => ReadThen(steps, d)
    case Listed(d) => ReadThen(steps, d) && ListedThen(steps, d)
    case Noted(d) => ReadThen(steps, d) && ListedThen(steps, d)
    case Over => true
  }

  ghost predicate Told(steps: seq<Step>, st: State)
  {
    && st.now == |steps| && st.store == MemoryRun(Ops(steps)) && AllFresh(Ops(steps))
    && (forall n | n in st.calls :: PhaseTold(steps, st.calls[n]))
    && (forall d | d in st.crls :: ReadThen(steps, d) && ListedThen(steps, d))
  }

  lemma UptoOn(steps: seq<Step>, s: Step, n: nat)
    requires n <= |steps|
    ensures Upto(steps + [s], n) == Upto(steps, n)
  {
    assert (steps + [s])[..n] == steps[..n];
  }

  lemma UptoHere(steps: seq<Step>, s: Step)
    ensures Upto(steps + [s], |steps|) == Ops(steps)
  {
    assert (steps + [s])[..|steps|] == steps;
  }

  lemma ReadOn(steps: seq<Step>, s: Step, d: Draft)
    requires ReadThen(steps, d)
    ensures ReadThen(steps + [s], d)
  {
    UptoOn(steps, s, d.readAt);
  }

  lemma ListedOn(steps: seq<Step>, s: Step, d: Draft)
    requires ListedThen(steps, d)
    ensures ListedThen(steps + [s], d)
  {
    var n :| d.readAt < n < |steps| && steps[n].ReadIssued?
             && d.issued == Serials(List(MemoryRun(Upto(steps, n)), EverIssued));
    UptoOn(steps, s, n);
    assert (steps + [s])[n] == steps[n];
  }

  lemma PhaseOn(steps: seq<Step>, s: Step, p: Phase)
    requires PhaseTold(steps, p)
    ensures PhaseTold(steps + [s], p)
  {
    if !p.Over? {
      ReadOn(steps, s, p.draft);
    }
    if p.Listed? || p.Noted? {
      ListedOn(steps, s, p.draft);
    }
  }

  /** The store after one more step. */
  lemma StoreTold(steps: seq<Step>, st: State, s: Step)
    requires Told(steps, st) && Enabled(st, s)
    ensures Next(st, s).now == |steps + [s]| && AllFresh(Ops(steps + [s]))
    ensures Next(st, s).store == MemoryRun(Ops(steps + [s]))
  {
    assert Front(steps + [s]) == steps && Last(steps + [s]) == s;
    if s.Change? {
      var ops := Ops(steps);
      assert (ops + [s.op])[..|ops|] == ops && (ops + [s.op])[|ops|] == s.op;
    }
  }

  /** The phase that one more step leaves its call in. */
  lemma MovedTold(steps: seq<Step>, st: State, s: Step)
    requires Told(steps, st) && Enabled(st, s) && !s.Change?
    ensures s.call in Next(st, s).calls && PhaseTold(steps + [s], Next(st, s).calls[s.call])
  {
    UptoHere(steps, s);
    assert (steps + [s])[|steps|] == s;
    if !s.ReadRevoked? {
      PhaseOn(steps, s, st.calls[s.call]);
    }
  }

  lemma NextTold(steps: seq<Step>, st: State, s: Step)
    requires Told(steps, st) && Enabled(st, s)
    ensures Told(steps + [s], Next(st, s))
  {
    var st' := Next(st, s);
    StoreTold(steps, st, s);
    if !s.Change? {
      MovedTold(steps, st, s);
    }
    forall n | n in st'.calls
      ensures PhaseTold(steps + [s], st'.calls[n])
    {
      if s.Change? || n != s.call {
        PhaseOn(steps, s, st.calls[n]);
      }
    }
    forall d | d in st'.crls
      ensures ReadThen(steps + [s], d) && ListedThen(steps + [s], d)
    {
      if d in st.crls {
        ReadOn(steps, s, d);
        ListedOn(steps, s, d);
      } else {
        PhaseOn(steps, s, st.calls[s.call]);
      }
    }
  }

  lemma {:induction false} RunTold(steps: seq<Step>, st: State)
    requires Reaches(steps, st)
    ensures Told(steps, st)
    decreases |steps|
  {
    if steps != [] {
      var before :| StepsTo(before, Last(steps), st) && Reaches(Front(steps), before);
      RunTold(Front(steps), before);
      NextTold(Front(steps), before, Last(steps));
      SplitLast(steps);
    }
  }

  lemma {:induction false} OpsGrow(steps: seq<Step>, n: nat)
    requires n <= |steps|
    ensures Upto(steps, n) <= Ops(steps)
    decreases |steps|
  {
    if n == |steps| {
      assert steps[..n] == steps;
    } else {
      assert steps[..n] == Front(steps)[..n];
      OpsGrow(Front(steps), n);
    }
  }

  lemma UptoFresh(steps: seq<Step>, n: nat)
    requires n <= |steps| && AllFresh(Ops(steps))
    ensures AllFresh(Upto(steps, n))
  {
    OpsGrow(steps, n);
    forall op | op in Upto(steps, n)
      ensures Fresh(op)
    {
      var i :| 0 <= i < |Upto(steps, n)| && Upto(steps, n)[i] == op;
      assert Ops(steps)[i] == op;
    }
  }

  ghost predicate EverStood(ops: seq<Op>, s: Bytes)
  {
    exists c :: Stands(ops, s, c) || Ended(ops, s, c)
  }

  lemma IssuedAre(ops: seq<Op>, s: Bytes)
    requires AllFresh(ops)
    ensures s in Serials(List(MemoryRun(ops), EverIssued)) <==> EverStood(ops, s)
  {
    var cs := List(MemoryRun(ops), EverIssued);
    SerialsHold(cs);
    if s in Serials(cs) {
      var c :| c in cs && c.serial == s;
      ListedIff(ops, c, "", 0);
    }
    if c :| Stands(ops, s, c) || Ended(ops, s, c) {
      StatusTells(ops, s, c);
      ListedIff(ops, c, "", 0);
    }
  }

  /** In any interleaving of publications with all else, a saved list has exactly the
      certificates revoked when it read the store, each with the date and the reason of the
      first revocation that followed its issuance; and, as issued, exactly the serials issued
      when it read the store again, later. */
  lemma CrlTells(steps: seq<Step>, st: State, d: Draft)
    requires Reaches(steps, st) && d in st.crls
    ensures d.readAt < |steps| && forall c :: c in d.entries <==> Ended(Upto(steps, d.readAt), c.serial, c)
    ensures forall c | c in d.entries :: Ended(Ops(steps), c.serial, c)
    ensures exists n | d.readAt < n < |steps| :: forall s :: s in d.issued <==> EverStood(Upto(steps, n), s)
  {
    RunTold(steps, st);
    var ops := Upto(steps, d.readAt);
    OpsGrow(steps, d.readAt);
    UptoFresh(steps, d.readAt);
    forall c
      ensures c in d.entries <==> Ended(ops, c.serial, c)
    {
      ListedIff(ops, c, "", 0);
    }
    forall c | c in d.entries
      ensures Ended(Ops(steps), c.serial, c)
    {
      var i: nat, j: nat, k: nat :| EndedAs(ops, c.serial, i, j, k, c);
      EndedLater(ops, Ops(steps), c.serial, i, j, k, c);
    }
    var n :| d.readAt < n < |steps| && d.issued == Serials(List(MemoryRun(Upto(steps, n)), EverIssued));
    UptoFresh(steps, n);
    forall s
      ensures s in d.issued <==> EverStood(Upto(steps, n), s)
    {
      IssuedAre(Upto(steps, n), s);
    }
  }

  lemma EndedLater(ops: seq<Op>, later: seq<Op>, s: Bytes, i: nat, j: nat, k: nat, c: Certificate)
    requires EndedAs(ops, s, i, j, k, c) && ops <= later
    ensures EndedAs(later, s, i, j, k, c)
  {
    assert forall x | 0 <= x < |ops| :: later[x] == ops[x];
  }

  /** Published so: under its serial, with that date and that reason, whenever it is signed. */
  lemma EntryTells(ops: seq<Op>, s: Bytes, i: nat, j: nat, k: nat, c: Certificate, now: int)
    requires EndedAs(ops, s, i, j, k, c)
    ensures EntryOf(c, now).serial == s && EntryOf(c, now).date == ops[k].at
    ensures ops[k].reason in {1, 3, 4, 5, 9} ==> EntryOf(c, now).reason == Some(ops[k].reason)
    ensures ops[k].reason == 0 ==> EntryOf(c, now).reason == None
  {
  }
}
