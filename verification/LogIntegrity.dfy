/** What the head of an accepted journal pins down: its whole record sequence. */
module LogIntegrity {
  import opened Basics
  import opened Json
  import opened Canonical
  import opened ChainedLog

  /** The head after `rs`, starting from the genesis value. */
  function HeadOf(rs: seq<Record>): Bytes
  {
    if rs == [] then GENESIS else rs[|rs| - 1].hash
  }

  /** Each record points at the one before, is numbered after it, and carries its own hash. */
  ghost predicate Chained(c: Codec, rs: seq<Record>)
  {
    forall i | 0 <= i < |rs| :: Follows(c, rs, i)
  }

  predicate Follows(c: Codec, rs: seq<Record>, i: nat)
    requires i < |rs|
  {
    && rs[i].prev == HeadOf(rs[..i])
    && (i > 0 ==> rs[i].seqNo == rs[i - 1].seqNo + 1)
    && rs[i].hash == c.HashOf(rs[i])
  }

  function Seals(rs: seq<Record>): nat
  {
    if rs == [] then 0 else Seals(rs[..|rs| - 1]) + (if rs[|rs| - 1].event == SEALED then 1 else 0)
  }

  function Summary(rs: seq<Record>): Report
  {
    if rs == [] then FRESH
    else Report(|rs|, rs[0].seqNo, rs[|rs| - 1].seqNo, HeadOf(rs), Seals(rs))
  }

  lemma ChainedGrows(c: Codec, rs: seq<Record>, r: Record)
    ensures Chained(c, rs + [r]) <==> Chained(c, rs) && Link(c, r, Summary(rs)).Ok?
    ensures Link(c, r, Summary(rs)).Ok? ==> Link(c, r, Summary(rs)).value == Summary(rs + [r])
  {
    var n := |rs|;
    var all := rs + [r];
    assert all[..n] == rs && all[..|all| - 1] == rs && all[n] == r;
    assert Seals(all) == Seals(rs) + (if r.event == SEALED then 1 else 0);
    assert n > 0 ==> all[0] == rs[0];
    assert forall i | 0 <= i < n :: all[..i] == rs[..i];
    if Chained(c, all) {
      forall i | 0 <= i < n
        ensures Follows(c, rs, i)
      {
        assert Follows(c, all, i);
      }
      assert Follows(c, all, n);
    }
    if Chained(c, rs) && Link(c, r, Summary(rs)).Ok? {
      forall i | 0 <= i < n + 1
        ensures Follows(c, all, i)
      {
        if i < n {
          assert Follows(c, rs, i);
        }
      }
    }
  }

  /** No line is unreadable. */
  ghost predicate Readable(c: Codec, lines: seq<Bytes>)
  {
    forall raw | raw in lines :: raw == [] || c.parse(raw).Some?
  }

  /** Scanning accepts exactly the files whose lines all read and whose records form a
      chain, and then reports on those records. */
  lemma {:induction false} ScanIsChained(c: Codec, lines: seq<Bytes>)
    ensures Scan(c, lines, FRESH).Ok? <==> Readable(c, lines) && Chained(c, Records(c, lines))
    ensures Scan(c, lines, FRESH).Ok? ==> Scan(c, lines, FRESH).value == Summary(Records(c, lines))
  {
    if lines != [] {
      var before, raw := lines[..|lines| - 1], lines[|lines| - 1];
      ScanIsChained(c, before);
      assert lines == before + [raw];
      assert Readable(c, lines) <==> Readable(c, before) && (raw == [] || c.parse(raw).Some?);
      if RecordsOn(c, raw) == [] {
        assert Records(c, lines) == Records(c, before);
      } else {
        ChainedGrows(c, Records(c, before), c.parse(raw).value);
      }
    }
  }

  /** What is wrong with the line numbered `line`, after the records `rs`: it does not read; or
      its record does not point at the last one, is not numbered after it, or does not carry
      its own hash, found in this order. */
  predicate FaultOf(c: Codec, rs: seq<Record>, raw: Bytes, line: nat, e: ScanError)
  {
    if c.parse(raw).None? then e == UnreadableLine(line)
    else
      var r := c.parse(raw).value;
      match e
      case UnreadableLine(_) => false
      case BrokenChain(seqNo, expected, found) =>
        seqNo == r.seqNo && expected == HeadOf(rs) && found == r.prev && expected != found
      case BrokenSequence(wanted, got) =>
        r.prev == HeadOf(rs) && rs != [] && wanted == rs[|rs| - 1].seqNo + 1 && got == r.seqNo && wanted != got
      case TamperedRecord(seqNo, expected, found) =>
        && r.prev == HeadOf(rs) && (rs != [] ==> r.seqNo == rs[|rs| - 1].seqNo + 1)
        && seqNo == r.seqNo && expected == c.HashOf(r) && found == r.hash && expected != found
  }

  /** The file is sound up to its `n`-th line, and that line is at fault. */
  ghost predicate FirstFault(c: Codec, lines: seq<Bytes>, n: nat, e: ScanError)
  {
    && n < |lines| && Scan(c, lines[..n], FRESH).Ok? && lines[n] != []
    && FaultOf(c, Records(c, lines[..n]), lines[n], n + 1, e)
  }

  /** A refusal names the first line at fault, and what is wrong with it. */
  lemma {:induction false} FaultIsFirst(c: Codec, lines: seq<Bytes>)
    requires Scan(c, lines, FRESH).Err?
    ensures exists n: nat :: FirstFault(c, lines, n, Scan(c, lines, FRESH).error)
    decreases |lines|
  {
    var n := |lines| - 1;
    var before, raw := lines[..n], lines[n];
    if Scan(c, before, FRESH).Err? {
      FaultIsFirst(c, before);
      var m: nat :| FirstFault(c, before, m, Scan(c, before, FRESH).error);
      assert lines[..m] == before[..m];
      assert FirstFault(c, lines, m, Scan(c, lines, FRESH).error);
    } else {
      ScanIsChained(c, before);
      assert FirstFault(c, lines, n, Scan(c, lines, FRESH).error);
    }
  }

  lemma PayloadDetermines(r: Record, s: Record)
    requires PayloadText(r) == PayloadText(s) && r.hash == s.hash
    ensures r == s
  {
    CanonicalTextIsInjective(Obj(PayloadMembers(r)), Obj(PayloadMembers(s)));
    var m, n := PayloadMembers(r), PayloadMembers(s);
    assert m[0] == n[0] && m[1] == n[1] && m[2] == n[2] && m[|m| - 1] == n[|n| - 1];
    if r.data.Some? {
      assert m[3] == n[3];
    }
  }

  lemma OnlyEmptyIsGenesis(c: Codec, rs: seq<Record>)
    requires c.Trusted() && Chained(c, rs)
    ensures HeadOf(rs) == GENESIS <==> rs == []
  {
    if rs != [] {
      assert Follows(c, rs, |rs| - 1);
      assert c.digest(PayloadText(rs[|rs| - 1])) != GENESIS;
    }
  }

  /** Two chains with the same head are the same records. */
  lemma {:induction false} HeadDetermines(c: Codec, rs: seq<Record>, ss: seq<Record>)
    requires c.Trusted() && Chained(c, rs) && Chained(c, ss) && HeadOf(rs) == HeadOf(ss)
    ensures rs == ss
    decreases |rs|
  {
    OnlyEmptyIsGenesis(c, rs);
    OnlyEmptyIsGenesis(c, ss);
    if rs != [] {
      var m, n := |rs| - 1, |ss| - 1;
      assert Follows(c, rs, m) && Follows(c, ss, n);
      PayloadDetermines(rs[m], ss[n]);
      assert rs == rs[..m] + [rs[m]] && ss == ss[..n] + [ss[n]];
      ChainedGrows(c, rs[..m], rs[m]);
      ChainedGrows(c, ss[..n], ss[n]);
      HeadDetermines(c, rs[..m], ss[..n]);
    }
  }

  /** Two accepted files with the same head hold the same records, in the same order: any
      edit, removal, insertion or reordering is refused or moves the head. */
  lemma EqualHeadsEqualRecords(c: Codec, a: Bytes, b: Bytes)
    requires c.Trusted() && Verify(c, a).Ok? && Verify(c, b).Ok?
    ensures Verify(c, a).value.head == Verify(c, b).value.head <==> Records(c, Lines(a)) == Records(c, Lines(b))
  {
    ScanIsChained(c, Lines(a));
    ScanIsChained(c, Lines(b));
    if Verify(c, a).value.head == Verify(c, b).value.head {
      HeadDetermines(c, Records(c, Lines(a)), Records(c, Lines(b)));
    }
  }

  // ---- The assumptions on the codec can be met ----

  ghost function ReadBack(b: Bytes): Option<Record>
  {
    if exists r :: LineText(r) == b then
      var r :| LineText(r) == b;
      Some(r)
    else
      None
  }

  function Marked(b: Bytes): Bytes
  {
    [0x31] + b
  }

  lemma LineDetermines(r: Record, s: Record, t: Bytes)
    requires LineText(r) + t == LineText(s) && NoDigit(t)
    ensures r == s && t == []
  {
    var v := Obj(PayloadMembers(r) + [Member(HASH, Str(r.hash))]);
    var w := Obj(PayloadMembers(s) + [Member(HASH, Str(s.hash))]);
    ToJsonIsSerialize(v);
    ToJsonIsSerialize(w);
    assert LineText(s) + [] == LineText(s);
    Determines(v, w, t, []);
    var m, n := v.members, w.members;
    assert m[|m| - 1] == n[|n| - 1];
    assert m[..|m| - 1] == PayloadMembers(r) && n[..|n| - 1] == PayloadMembers(s);
    PayloadDetermines(r, s);
  }

  /** Some codec is trusted, so nothing proved from `Trusted` is proved from nothing. */
  lemma TrustIsPossible() returns (c: Codec)
    ensures c.Trusted()
  {
    c := Codec(Marked, ReadBack);
    forall a, b | Marked(a) == Marked(b)
      ensures a == b
    {
      assert Marked(a)[1..] == a && Marked(b)[1..] == b;
    }
    forall a
      ensures Marked(a) != GENESIS
    {
      assert Marked(a)[0] == 0x31 && GENESIS[0] == 0x30;
    }
    forall r
      ensures ReadBack(LineText(r)) == Some(r)
    {
      assert LineText(r) + [] == LineText(r);
      LineDetermines(r, ReadBack(LineText(r)).value, []);
    }
    forall a, b | ReadBack(a).Some? && b != [] && b[0] == 0x7B
      ensures ReadBack(a + b).None?
    {
      if ReadBack(a + b).Some? {
        LineDetermines(ReadBack(a).value, ReadBack(a + b).value, b);
      }
    }
  }
}
