/** The two certificate stores agree, call after call, and a serial number lives one life. */
module CertAgreement {
  import opened Basics
  import opened Order
  import opened Hex
  import opened CertStore

  /** Same keys, and each row reads as the certificate held in memory. */
  ghost predicate Same(m: Book, t: Table)
  {
    && m.Keys == t.Keys
    && (forall k | k in m :: k == Encode(m[k].serial) && FromRow(k, t[k]) == Ok(m[k]))
    && (forall k | k in t :: t[k].status == "reserved" || t[k].notAfter.Some?)
    && (forall k | k in t && t[k].status == "reserved" :: t[k].revokedAt.None? && t[k].reason == 0)
  }

  /** The certificate carries no revocation of its own. */
  predicate Unrevoked(c: Certificate)
  {
    c.revokedAt.None? && c.reason == 0
  }

  lemma StatusAgrees(m: Book, t: Table, k: string)
    requires Same(m, t) && k in m
    ensures t[k].status == StatusText(m[k].status)
    ensures (t[k].status == "reserved" <==> m[k].status == Reserved)
            && (t[k].status == "issued" <==> m[k].status == Issued)
    ensures t[k].status == "revoked" <==> m[k].status == Revoked
  {
    StatusRoundTrip(m[k].status, t[k].status);
    StatusRoundTrip(Reserved, "");
    StatusRoundTrip(Issued, "");
    StatusRoundTrip(Revoked, "");
  }

  lemma ReserveAgrees(m: Book, t: Table, serial: Bytes, profile: string)
    requires Same(m, t)
    ensures var a, b := Reserve(m, serial, profile), InsertReserved(t, serial, profile);
            if a.Ok? then b.Ok? && Same(a.value, b.value) else b == Err(a.error)
  {
    RoundTrip(serial);
    StatusRoundTrip(Reserved, "reserved");
  }

  lemma CompletedReads(r: Row, c: Certificate)
    ensures FromRow(Encode(c.serial), Completed(r, c)) == Ok(c.(revokedAt := r.revokedAt, reason := r.reason))
  {
    RoundTrip(c.serial);
    StatusRoundTrip(c.status, "");
  }

  /** Saving gives the same answer but for the name of the error on a serial nobody reserved;
      and leaves the stores alike exactly when the certificate brings no revocation along. */
  lemma SaveAgreesIff(m: Book, t: Table, c: Certificate)
    requires Same(m, t)
    ensures var a, b := Save(m, c), UpdateReserved(t, c);
            && (a.Ok? <==> b.Ok?)
            && (a.Err? ==> b == Err(Conflict) && a.error == if Encode(c.serial) in m then Conflict else NotFound)
            && (a.Ok? ==> (Same(a.value, b.value) <==> Unrevoked(c)))
  {
    var key := Encode(c.serial);
    if key in m {
      StatusAgrees(m, t, key);
      CompletedReads(t[key], c);
      if m[key].status == Reserved {
        var a, b := Save(m, c).value, UpdateReserved(t, c).value;
        assert b[key].revokedAt.None? && b[key].reason == 0;
        if Unrevoked(c) {
          SavedIsSame(m, t, c, a, b);
        }
      }
    }
  }

  lemma SavedIsSame(m: Book, t: Table, c: Certificate, a: Book, b: Table)
    requires Same(m, t) && Unrevoked(c) && Encode(c.serial) in m && t[Encode(c.serial)].status == "reserved"
    requires a == m[Encode(c.serial) := c] && b == t[Encode(c.serial) := Completed(t[Encode(c.serial)], c)]
    ensures Same(a, b)
  {
    CompletedReads(t[Encode(c.serial)], c);
    assert c.(revokedAt := None, reason := 0) == c;
  }

  lemma RevokeAgrees(m: Book, t: Table, serial: Bytes, at: int, reason: int)
    requires Same(m, t)
    ensures var a, b := Revoke(m, serial, at, reason), UpdateIssued(t, serial, at, reason);
            if a.Ok? then b.Ok? && Same(a.value, b.value) else b == Err(a.error)
  {
    var key := Encode(serial);
    if key in m {
      StatusAgrees(m, t, key);
      StatusRoundTrip(Revoked, "");
    }
  }

  lemma LookupAgrees(m: Book, t: Table, serial: Bytes)
    requires Same(m, t)
    ensures SelectRow(t, serial) == Lookup(m, serial)
  {
    if Encode(serial) in m {
      StatusAgrees(m, t, Encode(serial));
    }
  }

  lemma FilterAgrees(m: Book, t: Table, f: Filter, k: string)
    requires Same(m, t) && k in m
    ensures Where(f, t[k]) <==> Passes(f, m[k])
  {
    StatusAgrees(m, t, k);
  }

  lemma {:induction false} RowsAgree(m: Book, t: Table, keys: seq<string>, f: Filter)
    requires Same(m, t) && forall k | k in keys :: k in m
    ensures Rows(t, keys, f) == Ok(Collect(m, keys, f))
  {
    if keys != [] {
      var n := |keys| - 1;
      RowsAgree(m, t, keys[..n], f);
      FilterAgrees(m, t, f, keys[n]);
      assert Collect(m, keys[..n], f) + [] == Collect(m, keys[..n], f);
    }
  }

  predicate InOrder(cs: seq<Certificate>)
  {
    forall i, j | 0 <= i < j < |cs| :: BytesLeq(cs[i].serial, cs[j].serial)
  }

  /** What is collected in the order of keys is in the order of serials. */
  lemma {:induction false} CollectedInOrder(m: Book, keys: seq<string>, f: Filter)
    requires (forall k | k in keys :: k in m && k == Encode(m[k].serial)) && Sorted(keys)
    ensures InOrder(Collect(m, keys, f))
    ensures forall c | c in Collect(m, keys, f) :: Encode(c.serial) in keys && c == m[Encode(c.serial)]
  {
    if keys != [] {
      var n := |keys| - 1;
      CollectedInOrder(m, keys[..n], f);
      forall c | c in Collect(m, keys[..n], f)
        ensures BytesLeq(c.serial, m[keys[n]].serial)
      {
        var i :| 0 <= i < n && keys[i] == Encode(c.serial);
        assert Leq(keys[i], keys[n]);
        KeepsOrder(c.serial, m[keys[n]].serial);
      }
    }
  }

  lemma InsertAtEnd(c: Certificate, sorted: seq<Certificate>)
    requires sorted == [] || BytesLeq(sorted[|sorted| - 1].serial, c.serial)
    ensures Insert(c, sorted) == sorted + [c]
  {
  }

  lemma SortStep(cs: seq<Certificate>, before: seq<Certificate>, last: Certificate)
    requires cs != [] && before == cs[..|cs| - 1] && last == cs[|cs| - 1] && SortBySerial(before) == before
    ensures SortBySerial(cs) == Insert(last, before)
  {
  }

  /** A list in order is left alone by the sort. */
  lemma {:induction false} SortedIsFixed(cs: seq<Certificate>)
    requires InOrder(cs)
    ensures SortBySerial(cs) == cs
  {
    if cs != [] {
      var before, last := cs[..|cs| - 1], cs[|cs| - 1];
      SortedIsFixed(before);
      SortStep(cs, before, last);
      InsertAtEnd(last, before);
      SplitLast(cs);
    }
  }

  /** Every certificate is held under its own serial. */
  ghost predicate Keyed(m: Book)
  {
    forall k | k in m :: k == Encode(m[k].serial)
  }

  /** A list holds exactly the certificates that pass, in the order of serial numbers. */
  lemma ListIs(m: Book, f: Filter)
    requires Keyed(m)
    ensures InOrder(List(m, f)) && List(m, f) == Collect(m, Ascending(m.Keys), f)
    ensures forall c :: c in List(m, f) <==> Encode(c.serial) in m && m[Encode(c.serial)] == c && Passes(f, c)
  {
    var keys := Ascending(m.Keys);
    AscendingIsSorted(m.Keys);
    CollectedInOrder(m, keys, f);
    SortedIsFixed(Collect(m, keys, f));
    forall c
      ensures c in List(m, f) <==> Encode(c.serial) in m && m[Encode(c.serial)] == c && Passes(f, c)
    {
      CollectedIff(m, keys, f, c);
    }
  }

  /** Both stores list the same certificates in the same order. */
  lemma ListsAgree(m: Book, t: Table, f: Filter)
    requires Same(m, t)
    ensures SelectRows(t, f) == Ok(List(m, f)) && InOrder(List(m, f))
  {
    ListIs(m, f);
    RowsAgree(m, t, Ascending(m.Keys), f);
  }

  lemma {:induction false} CollectedIff(m: Book, keys: seq<string>, f: Filter, c: Certificate)
    requires forall k | k in keys :: k in m && k == Encode(m[k].serial)
    ensures c in Collect(m, keys, f) <==> Encode(c.serial) in keys && m[Encode(c.serial)] == c && Passes(f, c)
  {
    if keys != [] {
      var n := |keys| - 1;
      CollectedIff(m, keys[..n], f, c);
      assert keys == keys[..n] + [keys[n]];
    }
  }

  // ---- Runs ----

  datatype Op =
    | ReserveOp(serial: Bytes, profile: string)
    | SaveOp(c: Certificate)
    | RevokeOp(serial: Bytes, at: int, reason: int)

  /** Certificates are saved as just issued. */
  predicate Fresh(op: Op)
  {
    op.SaveOp? ==> op.c.status == Issued && Unrevoked(op.c)
  }

  function OnMemory(m: Book, op: Op): Result<Book, StoreError>
  {
    match op
    case ReserveOp(serial, profile) => Reserve(m, serial, profile)
    case SaveOp(c) => Save(m, c)
    case RevokeOp(serial, at, reason) => Revoke(m, serial, at, reason)
  }

  function OnTable(t: Table, op: Op): Result<Table, StoreError>
  {
    match op
    case ReserveOp(serial, profile) => InsertReserved(t, serial, profile)
    case SaveOp(c) => UpdateReserved(t, c)
    case RevokeOp(serial, at, reason) => UpdateIssued(t, serial, at, reason)
  }

  function Kept<S, E>(before: S, after: Result<S, E>): S
  {
    if after.Ok? then after.value else before
  }

  function MemoryRun(ops: seq<Op>): Book
  {
    if ops == [] then map[]
    else Kept(MemoryRun(ops[..|ops| - 1]), OnMemory(MemoryRun(ops[..|ops| - 1]), ops[|ops| - 1]))
  }

  function TableRun(ops: seq<Op>): Table
  {
    if ops == [] then map[]
    else Kept(TableRun(ops[..|ops| - 1]), OnTable(TableRun(ops[..|ops| - 1]), ops[|ops| - 1]))
  }

  lemma OpAgrees(m: Book, t: Table, op: Op)
    requires Same(m, t) && Fresh(op)
    ensures Same(Kept(m, OnMemory(m, op)), Kept(t, OnTable(t, op)))
    ensures OnMemory(m, op).Ok? <==> OnTable(t, op).Ok?
    ensures OnMemory(m, op).Err? && OnMemory(m, op).error != OnTable(t, op).error
       <==> op.SaveOp? && Encode(op.c.serial) !in m
  {
    match op
    case ReserveOp(serial, profile) => ReserveAgrees(m, t, serial, profile);
    case SaveOp(c) => SaveAgreesIff(m, t, c);
    case RevokeOp(serial, at, reason) => RevokeAgrees(m, t, serial, at, reason);
  }

  /** After any sequence of calls the stores hold the same. */
  lemma {:induction false} RunsAgree(ops: seq<Op>)
    requires forall op | op in ops :: Fresh(op)
    ensures Same(MemoryRun(ops), TableRun(ops))
  {
    if ops != [] {
      RunsAgree(ops[..|ops| - 1]);
      OpAgrees(MemoryRun(ops[..|ops| - 1]), TableRun(ops[..|ops| - 1]), ops[|ops| - 1]);
    }
  }

  /** Then every list is the same, every lookup, and the next call succeeds on both stores or
      on neither, with the same error unless it saves a certificate on an unreserved serial. */
  lemma CallersCannotTell(ops: seq<Op>, op: Op, f: Filter, serial: Bytes)
    requires (forall o | o in ops :: Fresh(o)) && Fresh(op)
    ensures SelectRows(TableRun(ops), f) == Ok(List(MemoryRun(ops), f))
    ensures SelectRow(TableRun(ops), serial) == Lookup(MemoryRun(ops), serial)
    ensures var a, b := OnMemory(MemoryRun(ops), op), OnTable(TableRun(ops), op);
            && (a.Ok? <==> b.Ok?)
            && (a.Err? ==> if op.SaveOp? && Encode(op.c.serial) !in MemoryRun(ops)
                           then a.error == NotFound && b.error == Conflict else a.error == b.error)
  {
    RunsAgree(ops);
    OpAgrees(MemoryRun(ops), TableRun(ops), op);
    ListsAgree(MemoryRun(ops), TableRun(ops), f);
    LookupAgrees(MemoryRun(ops), TableRun(ops), serial);
    if op.SaveOp? {
      SaveAgreesIff(MemoryRun(ops), TableRun(ops), op.c);
    }
  }

  // ---- The life of a serial number ----

  /** A serial goes from reserved to issued to revoked, and no other way; once issued its
      certificate is final, once revoked its date and reason are. */
  predicate OneLife(before: Certificate, after: Certificate)
  {
    match before.status
    case Reserved => after == before || after.status == Issued || (after.status == Revoked && after.revokedAt.Some?)
    case Issued =>
      || after == before
      || (after == before.(status := Revoked, revokedAt := after.revokedAt, reason := after.reason)
          && after.revokedAt.Some?)
    case Revoked => after == before
  }

  ghost predicate LivesOn(m: Book, m': Book)
  {
    forall k | k in m :: k in m' && OneLife(m[k], m'[k])
  }

  lemma OpLivesOn(m: Book, op: Op)
    requires Fresh(op)
    ensures LivesOn(m, Kept(m, OnMemory(m, op)))
  {
  }

  lemma LivesOnFurther(a: Book, b: Book, c: Book)
    requires LivesOn(a, b) && LivesOn(b, c)
    ensures LivesOn(a, c)
  {
    forall k | k in a
      ensures k in c && OneLife(a[k], c[k])
    {
      assert OneLife(a[k], b[k]) && OneLife(b[k], c[k]);
    }
  }

  lemma {:induction false} RunLivesOn(ops: seq<Op>, n: nat)
    requires n <= |ops| && forall op | op in ops :: Fresh(op)
    ensures LivesOn(MemoryRun(ops[..n]), MemoryRun(ops))
    decreases |ops|
  {
    if n == |ops| {
      assert ops[..n] == ops;
    } else {
      var before := ops[..|ops| - 1];
      assert before[..n] == ops[..n];
      RunLivesOn(before, n);
      OpLivesOn(MemoryRun(before), ops[|ops| - 1]);
      LivesOnFurther(MemoryRun(ops[..n]), MemoryRun(before), MemoryRun(ops));
    }
  }

  lemma SavedIsThere(ops: seq<Op>, i: nat)
    requires i < |ops| && ops[i].SaveOp? && OnMemory(MemoryRun(ops[..i]), ops[i]).Ok?
    ensures Encode(ops[i].c.serial) in MemoryRun(ops[..i + 1])
    ensures MemoryRun(ops[..i + 1])[Encode(ops[i].c.serial)] == ops[i].c
  {
    assert ops[..i + 1][..i] == ops[..i];
  }

  lemma SaveMeetsConflict(m: Book, m': Book, c: Certificate, again: Certificate)
    requires Encode(c.serial) in m && m[Encode(c.serial)] == c && c.status == Issued
    requires LivesOn(m, m') && again.serial == c.serial
    ensures Save(m', again) == Err(Conflict)
  {
    assert OneLife(m[Encode(c.serial)], m'[Encode(c.serial)]);
  }

  /** No serial is issued twice: of two saves of one serial, the second fails. */
  lemma NeverIssuedTwice(ops: seq<Op>, i: nat, j: nat)
    requires (forall op | op in ops :: Fresh(op)) && i < j < |ops|
    requires ops[i].SaveOp? && ops[j].SaveOp? && ops[i].c.serial == ops[j].c.serial
    requires OnMemory(MemoryRun(ops[..i]), ops[i]).Ok?
    ensures OnMemory(MemoryRun(ops[..j]), ops[j]) == Err(Conflict)
    ensures OnTable(TableRun(ops[..j]), ops[j]) == Err(Conflict)
  {
    var now := ops[..j];
    assert now[..i + 1] == ops[..i + 1];
    SavedIsThere(ops, i);
    assert Fresh(ops[i]) && Fresh(ops[j]);
    RunLivesOn(now, i + 1);
    SaveMeetsConflict(MemoryRun(ops[..i + 1]), MemoryRun(now), ops[i].c, ops[j].c);
    RunsAgree(now);
    SaveAgreesIff(MemoryRun(now), TableRun(now), ops[j].c);
  }
}
