/** The hash-chained journal: one JSON record a line, each carrying the hash of the one
    before. Reading a file, and resuming a reading after a verified prefix. SHA-256 and the
    JSON reader are parameters (`Codec`). */
module ChainedLog {
  import opened Basics
  import opened Json
  import opened Canonical

  const NEWLINE: byte := 0x0A

  /** The hash that stands before the first record: sixty-four '0'. */
  const GENESIS: Bytes := ZEROS + ZEROS + ZEROS + ZEROS
  const ZEROS: Bytes := [0x30, 0x30, 0x30, 0x30, 0x30, 0x30, 0x30, 0x30, 0x30, 0x30, 0x30, 0x30, 0x30, 0x30, 0x30, 0x30]

  datatype Record = Record(seqNo: nat, time: Bytes, event: Bytes, data: Option<seq<Member>>, prev: Bytes, hash: Bytes)

  // Member names, in the order they are written.
  const SEQ: Bytes := [0x73, 0x65, 0x71]
  const TIME: Bytes := [0x74, 0x69, 0x6D, 0x65]
  const EVENT: Bytes := [0x65, 0x76, 0x65, 0x6E, 0x74]
  const DATA: Bytes := [0x64, 0x61, 0x74, 0x61]
  const PREV: Bytes := [0x70, 0x72, 0x65, 0x76]
  const HASH: Bytes := [0x68, 0x61, 0x73, 0x68]

  /** `log.sealed`, the event that `Report.seals` counts. */
  const SEALED: Bytes := [0x6C, 0x6F, 0x67, 0x2E, 0x73, 0x65, 0x61, 0x6C, 0x65, 0x64]

  /** What the hash covers: every member but `hash`; an absent `data` is not written. */
  function PayloadMembers(r: Record): seq<Member>
  {
    [Member(SEQ, Int(r.seqNo)), Member(TIME, Str(r.time)), Member(EVENT, Str(r.event))]
    + (if r.data.Some? then [Member(DATA, Obj(r.data.value))] else [])
    + [Member(PREV, Str(r.prev))]
  }

  function PayloadText(r: Record): Bytes
  {
    ToJson(Obj(PayloadMembers(r)))
  }

  function LineText(r: Record): Bytes
  {
    ToJson(Obj(PayloadMembers(r) + [Member(HASH, Str(r.hash))]))
  }

  datatype Codec = Codec(digest: Bytes -> Bytes, parse: Bytes -> Option<Record>) {
    function HashOf(r: Record): Bytes
    {
      digest(PayloadText(r))
    }

    /** The digest has no collision and never yields the genesis value; the reader gives
        back what was written and refuses trailing characters after a record. */
    ghost predicate Trusted()
    {
      && (forall a, b :: digest(a) == digest(b) ==> a == b)
      && (forall a :: digest(a) != GENESIS)
      && (forall r :: parse(LineText(r)) == Some(r))
      && (forall a, b :: parse(a).Some? && b != [] && b[0] == 0x7B ==> parse(a + b).None?)
    }
  }

  // ---- Reading ----

  datatype Report = Report(records: nat, first: nat, last: nat, head: Bytes, seals: nat)

  const FRESH: Report := Report(0, 0, 0, GENESIS, 0)

  datatype ScanError =
    | UnreadableLine(line: nat)
    | BrokenChain(seqNo: nat, expected: Bytes, found: Bytes)
    | BrokenSequence(wanted: nat, got: nat)
    | TamperedRecord(seqNo: nat, expected: Bytes, found: Bytes)

  type Verdict = Result<Report, ScanError>

  /** Where the first line ends: at its newline, or at the end of the bytes. */
  function LineEnd(b: Bytes): (n: nat)
    ensures n <= |b| && (n < |b| ==> b[n] == NEWLINE)
    ensures forall i | 0 <= i < n :: b[i] != NEWLINE
  {
    EndFrom(b, 0)
  }

  function EndFrom(b: Bytes, at: nat): (n: nat)
    requires at <= |b|
    ensures at <= n <= |b| && (n < |b| ==> b[n] == NEWLINE)
    ensures forall i | at <= i < n :: b[i] != NEWLINE
    decreases |b| - at
  {
    if at == |b| || b[at] == NEWLINE then at else EndFrom(b, at + 1)
  }

  /** What follows the first line and its newline. */
  function AfterLine(b: Bytes): (rest: Bytes)
    requires b != []
    ensures |rest| < |b|
  {
    if LineEnd(b) < |b| then b[LineEnd(b) + 1..] else []
  }

  /** The lines of a file, newlines removed; blank lines stay, as empty ones. */
  function Lines(b: Bytes): seq<Bytes>
    decreases |b|
  {
    if b == [] then [] else [b[..LineEnd(b)]] + Lines(AfterLine(b))
  }

  /** The number a record must carry: the first record may carry any. */
  function Expected(rep: Report, r: Record): nat
  {
    if rep.records == 0 then r.seqNo else rep.last + 1
  }

  function Advance(rep: Report, r: Record): Report
  {
    Report(rep.records + 1, if rep.records == 0 then r.seqNo else rep.first, r.seqNo, r.hash,
           if r.event == SEALED then rep.seals + 1 else rep.seals)
  }

  /** One record against the chain read so far. */
  function Link(c: Codec, r: Record, rep: Report): Verdict
  {
    if r.prev != rep.head then Err(BrokenChain(r.seqNo, rep.head, r.prev))
    else if r.seqNo != Expected(rep, r) then Err(BrokenSequence(Expected(rep, r), r.seqNo))
    else if c.HashOf(r) != r.hash then Err(TamperedRecord(r.seqNo, c.HashOf(r), r.hash))
    else Ok(Advance(rep, r))
  }

  function Accept(c: Codec, raw: Bytes, rep: Report, line: nat): Verdict
  {
    if c.parse(raw).None? then Err(UnreadableLine(line)) else Link(c, c.parse(raw).value, rep)
  }

  /** One line after the verdict on those before it; blank lines are skipped. */
  function Fold(c: Codec, v: Verdict, raw: Bytes, line: nat): Verdict
  {
    if v.Err? || raw == [] then v else Accept(c, raw, v.value, line)
  }

  /** The verdict on `lines`, starting from the report `rep`. */
  function Scan(c: Codec, lines: seq<Bytes>, rep: Report): Verdict
  {
    if lines == [] then Ok(rep)
    else Fold(c, Scan(c, lines[..|lines| - 1], rep), lines[|lines| - 1], |lines|)
  }

  function RecordsOn(c: Codec, raw: Bytes): seq<Record>
  {
    if raw == [] || c.parse(raw).None? then [] else [c.parse(raw).value]
  }

  function Records(c: Codec, lines: seq<Bytes>): seq<Record>
  {
    if lines == [] then [] else Records(c, lines[..|lines| - 1]) + RecordsOn(c, lines[|lines| - 1])
  }

  /** The verdict on a whole file. */
  function Verify(c: Codec, file: Bytes): Verdict
  {
    Scan(c, Lines(file), FRESH)
  }

  function Shift(v: Verdict, offset: nat): Verdict
  {
    if v.Err? && v.error.UnreadableLine? then Err(UnreadableLine(offset + v.error.line)) else v
  }

  /** Reading `a` then `b`: the report goes on from one to the other, line numbers too. */
  lemma {:induction false} ScanSplits(c: Codec, a: seq<Bytes>, b: seq<Bytes>, rep: Report)
    ensures Scan(c, a + b, rep)
         == if Scan(c, a, rep).Ok? then Shift(Scan(c, b, Scan(c, a, rep).value), |a|) else Scan(c, a, rep)
  {
    if b == [] {
      assert a + b == a;
    } else {
      var n := |b| - 1;
      ScanSplits(c, a, b[..n], rep);
      assert (a + b)[..|a + b| - 1] == a + b[..n];
    }
  }

  lemma {:induction false} RecordsSplit(c: Codec, a: seq<Bytes>, b: seq<Bytes>)
    ensures Records(c, a + b) == Records(c, a) + Records(c, b)
  {
    if b == [] {
      assert a + b == a;
    } else {
      var n := |b| - 1;
      RecordsSplit(c, a, b[..n]);
      Regrouped(Records(c, a), Records(c, b[..n]), RecordsOn(c, b[n]));
      assert (a + b)[..|a + b| - 1] == a + b[..n];
    }
  }

  lemma OneMoreLine(c: Codec, seen: seq<Bytes>, rest: Bytes, rep: Report)
    requires rest != []
    ensures seen + Lines(rest) == (seen + [rest[..LineEnd(rest)]]) + Lines(AfterLine(rest))
    ensures Scan(c, seen + [rest[..LineEnd(rest)]], rep)
         == Fold(c, Scan(c, seen, rep), rest[..LineEnd(rest)], |seen| + 1)
    ensures Records(c, seen + [rest[..LineEnd(rest)]]) == Records(c, seen) + RecordsOn(c, rest[..LineEnd(rest)])
  {
    Regrouped(seen, [rest[..LineEnd(rest)]], Lines(AfterLine(rest)));
    assert (seen + [rest[..LineEnd(rest)]])[..|seen|] == seen;
  }

  /** Half-way through `b`: `seen` is read, with `rep` as its report and `sink` as its
      records, and `rest` is left. */
  ghost predicate HalfWay(c: Codec, b: Bytes, start: Report, seen: seq<Bytes>, rest: Bytes, rep: Report,
                          sink: seq<Record>)
  {
    Lines(b) == seen + Lines(rest) && Scan(c, seen, start) == Ok(rep) && sink == Records(c, seen)
  }

  lemma HalfWayOn(c: Codec, b: Bytes, start: Report, seen: seq<Bytes>, rest: Bytes, rep: Report, sink: seq<Record>,
                  v: Verdict)
    requires HalfWay(c, b, start, seen, rest, rep, sink) && rest != []
    requires v == Fold(c, Ok(rep), rest[..LineEnd(rest)], |seen| + 1)
    ensures v.Err? ==> Scan(c, Lines(b), start) == v
    ensures v.Ok? ==> HalfWay(c, b, start, seen + [rest[..LineEnd(rest)]], AfterLine(rest), v.value,
                              sink + RecordsOn(c, rest[..LineEnd(rest)]))
  {
    OneMoreLine(c, seen, rest, start);
    ScanSplits(c, seen + [rest[..LineEnd(rest)]], Lines(AfterLine(rest)), start);
  }

  lemma HalfWayEnds(c: Codec, b: Bytes, start: Report, seen: seq<Bytes>, rep: Report, sink: seq<Record>)
    ensures HalfWay(c, b, start, [], b, start, [])
    ensures HalfWay(c, b, start, seen, [], rep, sink) ==>
            Scan(c, Lines(b), start) == Ok(rep) && sink == Records(c, Lines(b))
  {
    assert [] + Lines(b) == Lines(b);
    assert seen + [] == seen;
  }

  method ScanChain(c: Codec, b: Bytes, report: Report) returns (verdict: Verdict, read: nat, sink: seq<Record>)
    ensures verdict == Scan(c, Lines(b), report)
    ensures verdict.Ok? ==> read == |b| && sink == Records(c, Lines(b))
  {
    var rep, line, rest := report, 0, b;
    sink, read := [], 0;
    ghost var seen: seq<Bytes> := [];
    HalfWayEnds(c, b, report, [], report, []);
    while rest != []
      invariant line == |seen| && read + |rest| == |b|
      invariant HalfWay(c, b, report, seen, rest, rep, sink)
      decreases |rest|
    {
      var raw := rest[..LineEnd(rest)];
      var after := AfterLine(rest);
      line := line + 1;
      read := read + |rest| - |after|;
      if raw == [] {
        HalfWayOn(c, b, report, seen, rest, rep, sink, Ok(rep));
        assert sink + [] == sink;
      } else {
        var v := Accept(c, raw, rep, line);
        HalfWayOn(c, b, report, seen, rest, rep, sink, v);
        if v.Err? {
          verdict := v;
          return;
        }
        rep := v.value;
        sink := sink + [c.parse(raw).value];
      }
      seen, rest := seen + [raw], after;
    }
    HalfWayEnds(c, b, report, seen, rep, sink);
    verdict := Ok(rep);
  }

  // ---- Resuming ----

  /** Empty, or ending with a newline. */
  predicate Terminated(b: Bytes)
  {
    b == [] || b[|b| - 1] == NEWLINE
  }

  lemma {:induction false} LineEndIs(b: Bytes, n: nat)
    requires n <= |b| && (forall i | 0 <= i < n :: b[i] != NEWLINE) && (n < |b| ==> b[n] == NEWLINE)
    ensures LineEnd(b) == n
  {
    var m := LineEnd(b);
    assert m < |b| ==> b[m] == NEWLINE;
    assert !(m < n) && !(n < m);
  }

  lemma TerminatedHasLine(a: Bytes)
    requires a != [] && Terminated(a)
    ensures LineEnd(a) < |a| && Terminated(AfterLine(a))
  {
  }

  lemma FirstLineKept(a: Bytes, b: Bytes)
    requires LineEnd(a) < |a|
    ensures LineEnd(a + b) == LineEnd(a) && (a + b)[..LineEnd(a)] == a[..LineEnd(a)]
    ensures AfterLine(a + b) == AfterLine(a) + b
  {
    LineEndIs(a + b, LineEnd(a));
  }

  /** The lines of a terminated prefix stay what they are, whatever follows. */
  lemma {:induction false} LinesSplit(a: Bytes, b: Bytes)
    requires Terminated(a)
    ensures Lines(a + b) == Lines(a) + Lines(b)
    decreases |a|
  {
    if a == [] {
      assert a + b == b;
    } else {
      TerminatedHasLine(a);
      FirstLineKept(a, b);
      LinesSplit(AfterLine(a), b);
      Regrouped([a[..LineEnd(a)]], Lines(AfterLine(a)), Lines(b));
    }
  }

  /** Two verdicts that say the same: accept with the same last number and head, or refuse
      for the same reason, line numbers aside. */
  predicate SameVerdict(v: Verdict, w: Verdict)
  {
    if v.Ok? then w.Ok? && v.value.last == w.value.last && v.value.head == w.value.head
    else w.Err? && (v.error == w.error || (v.error.UnreadableLine? && w.error.UnreadableLine?))
  }

  /** Reports from which reading goes on alike. */
  predicate Alike(v: Verdict, w: Verdict)
  {
    SameVerdict(v, w) && (v.Ok? ==> (v.value.records == 0 <==> w.value.records == 0))
  }

  lemma {:induction false} ScanAlike(c: Codec, lines: seq<Bytes>, r: Report, s: Report)
    requires Alike(Ok(r), Ok(s))
    ensures Alike(Scan(c, lines, r), Scan(c, lines, s))
  {
    if lines != [] {
      ScanAlike(c, lines[..|lines| - 1], r, s);
    }
  }

  /** The report `catch_up` starts from: the last number stands for the record count. */
  function Resumed(last: nat, head: Bytes): Report
  {
    Report(last, 0, last, head, 0)
  }

  /** Resuming after `a`, read as `rep`, decides every continuation as a scan of the whole
      file does. */
  ghost predicate ResumesExactly(c: Codec, a: Bytes, rep: Report)
  {
    forall b :: SameVerdict(Scan(c, Lines(b), Resumed(rep.last, rep.head)), Verify(c, a + b))
  }

  /** A scan that accepted no record left its report as it was; the count never shrinks. */
  lemma {:induction false} CountGrows(c: Codec, lines: seq<Bytes>, rep: Report)
    requires Scan(c, lines, rep).Ok?
    ensures Scan(c, lines, rep).value.records >= rep.records
    ensures Scan(c, lines, rep).value.records == rep.records ==> Scan(c, lines, rep).value == rep
  {
    if lines != [] {
      CountGrows(c, lines[..|lines| - 1], rep);
    }
  }

  /** The records read so far number from 1: not a lone record numbered 0. */
  predicate Countable(rep: Report)
  {
    rep.records == 0 || rep.last > 0
  }

  lemma ResumeAfter(c: Codec, a: Bytes, b: Bytes)
    requires Terminated(a) && Verify(c, a).Ok? && Countable(Verify(c, a).value)
    ensures SameVerdict(Scan(c, Lines(b), Resumed(Verify(c, a).value.last, Verify(c, a).value.head)), Verify(c, a + b))
  {
    var rep := Verify(c, a).value;
    LinesSplit(a, b);
    ScanSplits(c, Lines(a), Lines(b), FRESH);
    CountGrows(c, Lines(a), FRESH);
    ScanAlike(c, Lines(b), Resumed(rep.last, rep.head), rep);
  }

  // ---- One written line ----

  /** The record with its hash filled in. */
  function Sealed(c: Codec, r: Record): Record
  {
    r.(hash := c.HashOf(r))
  }

  function Written(r: Record): Bytes
  {
    LineText(r) + [NEWLINE]
  }

  lemma LineTextIsOneLine(r: Record)
    ensures LineText(r) != [] && LineText(r)[0] == 0x7B
    ensures forall x | x in LineText(r) :: x != NEWLINE
  {
    var v := Obj(PayloadMembers(r) + [Member(HASH, Str(r.hash))]);
    CanonicalTextIsOneSafeLine(v);
    ToJsonIsSerialize(v);
    FirstByte(v);
  }

  lemma WrittenIsOneLine(r: Record)
    ensures Terminated(Written(r)) && Lines(Written(r)) == [LineText(r)]
  {
    LineTextIsOneLine(r);
    forall i | 0 <= i < |LineText(r)|
      ensures Written(r)[i] != NEWLINE
    {
      assert LineText(r)[i] in LineText(r);
    }
    LineEndIs(Written(r), |LineText(r)|);
  }

  /** A written record is read back as that record. */
  lemma WrittenIsRead(c: Codec, r: Record, rep: Report)
    requires c.Trusted()
    ensures Records(c, Lines(Written(r))) == [r] && Scan(c, Lines(Written(r)), rep) == Link(c, r, rep)
  {
    WrittenIsOneLine(r);
    LineTextIsOneLine(r);
    assert c.parse(LineText(r)) == Some(r);
    assert [LineText(r)][..0] == [];
  }

  /** Resuming is exact precisely when the prefix is not a lone record numbered 0. */
  lemma ResumeIsExactIff(c: Codec, a: Bytes)
    requires c.Trusted() && Terminated(a) && Verify(c, a).Ok?
    ensures ResumesExactly(c, a, Verify(c, a).value) <==> Countable(Verify(c, a).value)
  {
    var rep := Verify(c, a).value;
    if Countable(rep) {
      forall b {
        ResumeAfter(c, a, b);
      }
    } else {
      // A record numbered 5: refused by the whole scan, let through by the resumed one.
      var r := Sealed(c, Record(5, [], [], None, rep.head, []));
      LinesSplit(a, Written(r));
      ScanSplits(c, Lines(a), Lines(Written(r)), FRESH);
      WrittenIsRead(c, r, rep);
      WrittenIsRead(c, r, Resumed(rep.last, rep.head));
      assert !SameVerdict(Scan(c, Lines(Written(r)), Resumed(rep.last, rep.head)), Verify(c, a + Written(r)));
    }
  }
}
