/** What becomes of a serial number, told of the calls themselves: the first reservation, the
    first certificate saved after it, the first revocation after that. Nothing else counts. */
module CertStory {
  import opened Basics
  import opened Hex
  import opened CertStore
  import opened CertAgreement

  datatype Kind = Reserving | Saving | Revoking

  predicate Is(op: Op, kind: Kind, s: Bytes)
  {
    match kind
    case Reserving => op.ReserveOp? && op.serial == s
    case Saving => op.SaveOp? && op.c.serial == s
    case Revoking => op.RevokeOp? && op.serial == s
  }

  /** The call `i` is the first of its kind on `s`, from `start` on. */
  ghost predicate First(ops: seq<Op>, kind: Kind, s: Bytes, start: nat, i: nat)
  {
    start <= i < |ops| && Is(ops[i], kind, s) && forall x | start <= x < i :: !Is(ops[x], kind, s)
  }

  ghost predicate NoneSince(ops: seq<Op>, kind: Kind, s: Bytes, start: nat)
  {
    forall x | start <= x < |ops| :: !Is(ops[x], kind, s)
  }

  /** Only reserved. */
  ghost predicate WaitsAs(ops: seq<Op>, s: Bytes, i: nat, c: Certificate)
  {
    && First(ops, Reserving, s, 0, i) && NoneSince(ops, Saving, s, i)
    && c == Certificate(s, ops[i].profile, "", "", 0, 0, [], Reserved, None, 0, "")
  }

  /** Issued as it was first saved, and in force. */
  ghost predicate StandsAs(ops: seq<Op>, s: Bytes, i: nat, j: nat, c: Certificate)
  {
    && First(ops, Reserving, s, 0, i) && First(ops, Saving, s, i, j) && NoneSince(ops, Revoking, s, j)
    && c == ops[j].c
  }

  /** Revoked, with the date and the reason of the first revocation since it was issued. */
  ghost predicate EndedAs(ops: seq<Op>, s: Bytes, i: nat, j: nat, k: nat, c: Certificate)
  {
    && First(ops, Reserving, s, 0, i) && First(ops, Saving, s, i, j) && First(ops, Revoking, s, j, k)
    && c == ops[j].c.(status := Revoked, revokedAt := Some(ops[k].at), reason := ops[k].reason)
  }

  ghost predicate Waits(ops: seq<Op>, s: Bytes, c: Certificate)
  {
    exists i :: WaitsAs(ops, s, i, c)
  }

  ghost predicate Stands(ops: seq<Op>, s: Bytes, c: Certificate)
  {
    exists i, j :: StandsAs(ops, s, i, j, c)
  }

  ghost predicate Ended(ops: seq<Op>, s: Bytes, c: Certificate)
  {
    exists i, j, k :: EndedAs(ops, s, i, j, k, c)
  }

  function Held(m: Book, s: Bytes): Option<Certificate>
  {
    if Encode(s) in m then Some(m[Encode(s)]) else None
  }

  ghost predicate Tells(ops: seq<Op>, s: Bytes, held: Option<Certificate>)
  {
    if held.None? then NoneSince(ops, Reserving, s, 0)
    else Waits(ops, s, held.value) || Stands(ops, s, held.value) || Ended(ops, s, held.value)
  }

  predicate AllFresh(ops: seq<Op>)
  {
    forall op | op in ops :: Fresh(op)
  }

  lemma SameKey(a: Bytes, b: Bytes)
    ensures Encode(a) == Encode(b) <==> a == b
  {
    RoundTrip(a);
    RoundTrip(b);
  }

  /** One call, seen from `s`. */
  lemma OpOn(m: Book, op: Op, s: Bytes)
    ensures var m' := Kept(m, OnMemory(m, op));
            Held(m', s) == (if Is(op, Reserving, s) && Held(m, s).None?
                            then Some(Certificate(s, op.profile, "", "", 0, 0, [], Reserved, None, 0, ""))
                            else if Is(op, Saving, s) && Held(m, s).Some? && Held(m, s).value.status == Reserved
                            then Some(op.c)
                            else if Is(op, Revoking, s) && Held(m, s).Some? && Held(m, s).value.status == Issued
                            then Some(Held(m, s).value.(status := Revoked, revokedAt := Some(op.at),
                                                        reason := op.reason))
                            else Held(m, s))
  {
    match op
    case ReserveOp(serial, _) => SameKey(serial, s);
    case SaveOp(c) => SameKey(c.serial, s);
    case RevokeOp(serial, _, _) => SameKey(serial, s);
  }

  lemma FirstOn(ops: seq<Op>, op: Op, kind: Kind, s: Bytes, start: nat, i: nat)
    requires First(ops, kind, s, start, i)
    ensures First(ops + [op], kind, s, start, i)
  {
  }

  lemma FirstNow(ops: seq<Op>, op: Op, kind: Kind, s: Bytes, start: nat)
    requires NoneSince(ops, kind, s, start) && start <= |ops| && Is(op, kind, s)
    ensures First(ops + [op], kind, s, start, |ops|)
  {
  }

  lemma WaitingOn(ops: seq<Op>, op: Op, s: Bytes, i: nat, c: Certificate)
    requires WaitsAs(ops, s, i, c)
    ensures if Is(op, Saving, s) then Stands(ops + [op], s, op.c) else Waits(ops + [op], s, c)
  {
    FirstOn(ops, op, Reserving, s, 0, i);
    if Is(op, Saving, s) {
      FirstNow(ops, op, Saving, s, i);
      assert StandsAs(ops + [op], s, i, |ops|, op.c);
    } else {
      assert WaitsAs(ops + [op], s, i, c);
    }
  }

  lemma StandingOn(ops: seq<Op>, op: Op, s: Bytes, i: nat, j: nat, c: Certificate)
    requires StandsAs(ops, s, i, j, c)
    ensures if Is(op, Revoking, s)
            then Ended(ops + [op], s, c.(status := Revoked, revokedAt := Some(op.at), reason := op.reason))
            else Stands(ops + [op], s, c)
  {
    FirstOn(ops, op, Reserving, s, 0, i);
    FirstOn(ops, op, Saving, s, i, j);
    if Is(op, Revoking, s) {
      FirstNow(ops, op, Revoking, s, j);
      assert EndedAs(ops + [op], s, i, j, |ops|, c.(status := Revoked, revokedAt := Some(op.at), reason := op.reason));
    } else {
      assert StandsAs(ops + [op], s, i, j, c);
    }
  }

  lemma EndedOn(ops: seq<Op>, op: Op, s: Bytes, i: nat, j: nat, k: nat, c: Certificate)
    requires EndedAs(ops, s, i, j, k, c)
    ensures Ended(ops + [op], s, c)
  {
    FirstOn(ops, op, Reserving, s, 0, i);
    FirstOn(ops, op, Saving, s, i, j);
    FirstOn(ops, op, Revoking, s, j, k);
    assert EndedAs(ops + [op], s, i, j, k, c);
  }

  lemma AbsentOn(ops: seq<Op>, op: Op, s: Bytes)
    requires NoneSince(ops, Reserving, s, 0)
    ensures if Is(op, Reserving, s)
            then Waits(ops + [op], s, Certificate(s, op.profile, "", "", 0, 0, [], Reserved, None, 0, ""))
            else NoneSince(ops + [op], Reserving, s, 0)
  {
    if Is(op, Reserving, s) {
      FirstNow(ops, op, Reserving, s, 0);
      assert WaitsAs(ops + [op], s, |ops|, Certificate(s, op.profile, "", "", 0, 0, [], Reserved, None, 0, ""));
    }
  }

  lemma TellsOn(ops: seq<Op>, op: Op, m: Book, s: Bytes)
    requires Tells(ops, s, Held(m, s)) && AllFresh(ops)
    ensures Tells(ops + [op], s, Held(Kept(m, OnMemory(m, op)), s))
  {
    OpOn(m, op, s);
    if Held(m, s).None? {
      AbsentOn(ops, op, s);
    } else if i: nat :| WaitsAs(ops, s, i, Held(m, s).value) {
      WaitingOn(ops, op, s, i, Held(m, s).value);
    } else if i: nat, j: nat :| StandsAs(ops, s, i, j, Held(m, s).value) {
      assert Fresh(ops[j]);
      StandingOn(ops, op, s, i, j, Held(m, s).value);
    } else {
      var i: nat, j: nat, k: nat :| EndedAs(ops, s, i, j, k, Held(m, s).value);
      EndedOn(ops, op, s, i, j, k, Held(m, s).value);
    }
  }

  /** After any calls, what the store holds of a serial number is its story. */
  lemma {:induction false} StoryIs(ops: seq<Op>, s: Bytes)
    requires AllFresh(ops)
    ensures Tells(ops, s, Held(MemoryRun(ops), s))
    decreases |ops|
  {
    if ops != [] {
      StoryIs(Front(ops), s);
      TellsOn(Front(ops), Last(ops), MemoryRun(Front(ops)), s);
      SplitLast(ops);
    }
  }

  lemma FirstsAgree(ops: seq<Op>, kind: Kind, s: Bytes, start: nat, i: nat, i': nat)
    requires First(ops, kind, s, start, i) && First(ops, kind, s, start, i')
    ensures i == i'
  {
  }

  /** A serial number has one story. */
  lemma OneStory(ops: seq<Op>, s: Bytes, a: Option<Certificate>, b: Option<Certificate>)
    requires Tells(ops, s, a) && Tells(ops, s, b)
    ensures a == b
  {
    if a.Some? && b.Some? {
      var i :| First(ops, Reserving, s, 0, i);
      forall i' | First(ops, Reserving, s, 0, i')
        ensures i' == i
      {
        FirstsAgree(ops, Reserving, s, 0, i, i');
      }
      if j :| First(ops, Saving, s, i, j) {
        forall j' | First(ops, Saving, s, i, j')
          ensures j' == j
        {
          FirstsAgree(ops, Saving, s, i, j, j');
        }
        if k :| First(ops, Revoking, s, j, k) {
          forall k' | First(ops, Revoking, s, j, k')
            ensures k' == k
          {
            FirstsAgree(ops, Revoking, s, j, k, k');
          }
        }
      }
    }
  }

  /** What the tables hold, as it is read. */
  function HeldInRows(t: Table, s: Bytes): Option<Certificate>
  {
    if Encode(s) in t && FromRow(Encode(s), t[Encode(s)]).Ok? then Some(FromRow(Encode(s), t[Encode(s)]).value)
      else None
  }

  /** Both stores hold the story of each serial number. */
  lemma BothTell(ops: seq<Op>, s: Bytes)
    requires AllFresh(ops)
    ensures Tells(ops, s, Held(MemoryRun(ops), s))
    ensures HeldInRows(TableRun(ops), s) == Held(MemoryRun(ops), s)
  {
    StoryIs(ops, s);
    RunsAgree(ops);
  }

  lemma StoryIff(ops: seq<Op>, s: Bytes, c: Certificate)
    requires AllFresh(ops)
    ensures Held(MemoryRun(ops), s) == Some(c) <==> Tells(ops, s, Some(c))
  {
    StoryIs(ops, s);
    if Tells(ops, s, Some(c)) {
      OneStory(ops, s, Held(MemoryRun(ops), s), Some(c));
    }
  }

  lemma StatusTells(ops: seq<Op>, s: Bytes, c: Certificate)
    requires AllFresh(ops) && Tells(ops, s, Some(c))
    ensures c.serial == s
    ensures c.status == Reserved <==> Waits(ops, s, c)
    ensures c.status == Issued <==> Stands(ops, s, c)
    ensures c.status == Revoked <==> Ended(ops, s, c)
  {
    if i: nat, j: nat :| StandsAs(ops, s, i, j, c) {
      assert Fresh(ops[j]);
    }
  }

  lemma HoldsIff(ops: seq<Op>, f: Filter, c: Certificate)
    requires AllFresh(ops)
    ensures c in List(MemoryRun(ops), f) <==> Tells(ops, c.serial, Some(c)) && Passes(f, c)
  {
    RunsAgree(ops);
    ListIs(MemoryRun(ops), f);
    StoryIff(ops, c.serial, c);
  }

  /** Listed as revoked from its first revocation on, as issued from its first certificate on,
      as in force in between and until it expires. */
  lemma ListedIff(ops: seq<Op>, c: Certificate, subject: string, now: int)
    requires AllFresh(ops)
    ensures var m := MemoryRun(ops);
            && (c in List(m, OnlyRevoked) <==> Ended(ops, c.serial, c))
            && (c in List(m, EverIssued) <==> Stands(ops, c.serial, c) || Ended(ops, c.serial, c))
            && (c in List(m, ActiveFor(subject, now))
                <==> Stands(ops, c.serial, c) && c.subject == subject && now < c.notAfter)
  {
    HoldsIff(ops, OnlyRevoked, c);
    HoldsIff(ops, EverIssued, c);
    HoldsIff(ops, ActiveFor(subject, now), c);
    if Tells(ops, c.serial, Some(c)) {
      StatusTells(ops, c.serial, c);
    }
  }

  /** The answers too: a serial is reserved once, saved once while it waits, revoked from then
      on; each refusal says which of these it lacks. */
  lemma AnswersTell(ops: seq<Op>, op: Op, s: Bytes)
    requires AllFresh(ops) && s == if op.SaveOp? then op.c.serial else op.serial
    ensures op.ReserveOp? ==>
              if NoneSince(ops, Reserving, s, 0) then OnMemory(MemoryRun(ops), op).Ok?
              else OnMemory(MemoryRun(ops), op) == Err(SerialTaken)
    ensures op.SaveOp? ==>
              if NoneSince(ops, Reserving, s, 0) then OnMemory(MemoryRun(ops), op) == Err(NotFound)
              else if OnlyWaits(ops, s) then OnMemory(MemoryRun(ops), op).Ok?
              else OnMemory(MemoryRun(ops), op) == Err(Conflict)
    ensures op.RevokeOp? ==>
              if NoneSince(ops, Reserving, s, 0) || OnlyWaits(ops, s) then OnMemory(MemoryRun(ops), op) == Err(NotFound)
              else OnMemory(MemoryRun(ops), op).Ok?
  {
    var held := Held(MemoryRun(ops), s);
    StoryIs(ops, s);
    if held.Some? {
      StatusTells(ops, s, held.value);
    }
    forall h | Waits(ops, s, h)
      ensures held == Some(h)
    {
      OneStory(ops, s, held, Some(h));
    }
  }

  ghost predicate OnlyWaits(ops: seq<Op>, s: Bytes)
  {
    exists h :: Waits(ops, s, h)
  }
}
