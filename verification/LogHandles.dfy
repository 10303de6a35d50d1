/** Handles on one shared journal file: open, catch up, append, head. Each method is
    proved against a function of the file and of what the handle remembers. */
module LogHandles {
  import opened Basics
  import opened Json
  import opened ChainedLog
  import opened LogIntegrity

  /** What a handle remembers: the last number, the head, how far it has read. */
  datatype Handle = Handle(last: nat, head: Bytes, offset: nat)

  function HandleOf(v: Verdict, offset: nat): Result<Handle, ScanError>
  {
    if v.Ok? then Ok(Handle(v.value.last, v.value.head, offset)) else Err(v.error)
  }

  function OpenOn(c: Codec, file: Bytes): Result<Handle, ScanError>
  {
    HandleOf(Verify(c, file), |file|)
  }

  /** What the file holds past the handle's offset: nothing, if the file was cut shorter. */
  function Unread(file: Bytes, h: Handle): Bytes
  {
    if h.offset <= |file| then file[h.offset..] else []
  }

  function CaughtUp(c: Codec, file: Bytes, h: Handle): Result<Handle, ScanError>
  {
    HandleOf(Scan(c, Lines(Unread(file, h)), Resumed(h.last, h.head)), h.offset + |Unread(file, h)|)
  }

  lemma NothingUnread(c: Codec, file: Bytes, h: Handle)
    requires h.offset >= |file|
    ensures CaughtUp(c, file, h) == Ok(h)
  {
    assert Unread(file, h) == [];
  }

  lemma UnreadIs(a: Bytes, b: Bytes, h: Handle)
    requires h.offset == |a|
    ensures Unread(a + b, h) == b
  {
  }

  lemma CaughtUpIs(c: Codec, a: Bytes, b: Bytes, h: Handle)
    requires h.offset == |a|
    ensures CaughtUp(c, a + b, h) == HandleOf(Scan(c, Lines(b), Resumed(h.last, h.head)), |a + b|)
  {
    UnreadIs(a, b, h);
  }

  /** What the caller of `append` supplies, and the clock. */
  datatype Entry = Entry(time: Bytes, event: Bytes, data: Option<seq<Member>>)

  /** The record a caught-up handle writes. */
  function NextRecord(c: Codec, h: Handle, e: Entry): Record
  {
    Sealed(c, Record(h.last + 1, e.time, e.event, e.data, h.head, []))
  }

  /** The file and the handle once a caught-up handle has written, at the end of the file. */
  function WriteAt(c: Codec, file: Bytes, h: Handle, e: Entry): (Bytes, Handle)
  {
    (file + Written(NextRecord(c, h, e)),
     Handle(h.last + 1, NextRecord(c, h, e).hash, h.offset + |Written(NextRecord(c, h, e))|))
  }

  class File {
    var bytes: Bytes

    constructor (bytes: Bytes)
      ensures this.bytes == bytes
    {
      this.bytes := bytes;
    }
  }

  class Log {
    const c: Codec
    const file: File
    var last: nat
    var head: Bytes
    var offset: nat

    function AsHandle(): Handle
      reads this
    {
      Handle(last, head, offset)
    }

    constructor (c: Codec, file: File, h: Handle)
      ensures this.c == c && this.file == file && AsHandle() == h
    {
      this.c, this.file := c, file;
      last, head, offset := h.last, h.head, h.offset;
    }

    static method Open(c: Codec, file: File) returns (r: Result<Log, ScanError>)
      ensures r.Err? ==> OpenOn(c, file.bytes) == Err(r.error)
      ensures r.Ok? ==> fresh(r.value) && r.value.c == c && r.value.file == file
      ensures r.Ok? ==> OpenOn(c, file.bytes) == Ok(r.value.AsHandle())
    {
      var v, read, _ := ScanChain(c, file.bytes, FRESH);
      if v.Err? {
        return Err(v.error);
      }
      var log := new Log(c, file, Handle(v.value.last, v.value.head, read));
      r := Ok(log);
    }

    /** Re-reads from the offset already verified. */
    method CatchUp() returns (r: Option<ScanError>)
      modifies this
      ensures r.Some? ==> CaughtUp(c, file.bytes, old(AsHandle())) == Err(r.value) && AsHandle() == old(AsHandle())
      ensures r.None? ==> CaughtUp(c, file.bytes, old(AsHandle())) == Ok(AsHandle())
    {
      var unread := if offset <= |file.bytes| then file.bytes[offset..] else [];
      assert unread == Unread(file.bytes, AsHandle());
      var v, read, _ := ScanChain(c, unread, Resumed(last, head));
      if v.Err? {
        return Some(v.error);
      }
      offset := offset + read;
      last, head := v.value.last, v.value.head;
      r := None;
    }

    method Append(e: Entry) returns (r: Option<ScanError>)
      modifies this, file
      ensures r.Some? ==>
                && CaughtUp(c, old(file.bytes), old(AsHandle())) == Err(r.value)
                && file.bytes == old(file.bytes) && AsHandle() == old(AsHandle())
      ensures r.None? ==>
                var at := CaughtUp(c, old(file.bytes), old(AsHandle()));
                at.Ok? && (file.bytes, AsHandle()) == WriteAt(c, old(file.bytes), at.value, e)
    {
      r := CatchUp();
      if r.Some? {
        return;
      }
      var record := Record(last + 1, e.time, e.event, e.data, head, []);
      record := record.(hash := c.HashOf(record));
      var line := LineText(record) + [NEWLINE];
      file.bytes := file.bytes + line;
      last, head := record.seqNo, record.hash;
      offset := offset + |line|;
    }

    method Head() returns (r: Result<(nat, Bytes), ScanError>)
      modifies this
      ensures r.Err? ==> CaughtUp(c, file.bytes, old(AsHandle())) == Err(r.error) && AsHandle() == old(AsHandle())
      ensures r.Ok? ==> CaughtUp(c, file.bytes, old(AsHandle())) == Ok(AsHandle()) && r.value == (last, head)
    {
      var e := CatchUp();
      if e.Some? {
        return Err(e.value);
      }
      r := Ok((last, head));
    }
  }

  // ---- Appending to a file that does not end with a newline ----

  lemma ReplaceLast(x: Bytes, rest: seq<Bytes>, y: Bytes)
    requires rest != []
    ensures ([x] + rest)[..|[x] + rest| - 1] + [y] == [x] + (rest[..|rest| - 1] + [y])
  {
  }

  lemma {:induction false} LinesJoin(a: Bytes, text: Bytes)
    requires !Terminated(a) && forall x | x in text :: x != NEWLINE
    ensures |Lines(a)| > 0 && Lines(a)[|Lines(a)| - 1] != []
    ensures Lines(a + (text + [NEWLINE]))
         == Lines(a)[..|Lines(a)| - 1] + [Lines(a)[|Lines(a)| - 1] + text]
    decreases |a|
  {
    var w := text + [NEWLINE];
    if LineEnd(a) == |a| {
      forall i | 0 <= i < |a + text|
        ensures (a + w)[i] != NEWLINE
      {
        if i >= |a| {
          assert text[i - |a|] in text;
        }
      }
      LineEndIs(a + w, |a + text|);
      assert (a + w)[..|a + text|] == a + text;
      assert a[..|a|] == a;
    } else {
      FirstLineKept(a, w);
      LinesJoin(AfterLine(a), text);
      ReplaceLast(a[..LineEnd(a)], Lines(AfterLine(a)), Lines(AfterLine(a))[|Lines(AfterLine(a))| - 1] + text);
    }
  }

  /** A scan goes wrong with its first bad line, whatever follows. */
  lemma LastLineRead(c: Codec, lines: seq<Bytes>, rep: Report)
    requires lines != [] && Scan(c, lines, rep).Ok? && lines[|lines| - 1] != []
    ensures c.parse(lines[|lines| - 1]).Some?
  {
  }

  lemma BadLineRefused(c: Codec, lines: seq<Bytes>, raw: Bytes, rep: Report)
    requires raw != [] && c.parse(raw).None?
    ensures Scan(c, lines + [raw], rep).Err?
  {
    assert (lines + [raw])[..|lines + [raw]| - 1] == lines;
  }

  lemma SpoilsUnterminated(c: Codec, a: Bytes, h: Handle, e: Entry)
    requires c.Trusted() && !Terminated(a) && Verify(c, a).Ok?
    ensures Verify(c, WriteAt(c, a, h, e).0).Err?
  {
    var r := NextRecord(c, h, e);
    LineTextIsOneLine(r);
    LinesJoin(a, LineText(r));
    LastLineRead(c, Lines(a), FRESH);
    BadLineRefused(c, Lines(a)[..|Lines(a)| - 1], Lines(a)[|Lines(a)| - 1] + LineText(r), FRESH);
  }

  lemma LinksIff(c: Codec, h: Handle, e: Entry, rep: Report)
    ensures Link(c, NextRecord(c, h, e), rep).Ok? <==> h.head == rep.head && (rep.records > 0 ==> h.last == rep.last)
  {
  }

  lemma AppendsAfterIff(c: Codec, a: Bytes, h: Handle, e: Entry)
    requires c.Trusted() && Terminated(a) && Verify(c, a).Ok?
    ensures Verify(c, WriteAt(c, a, h, e).0).Ok? <==>
            var rep := Verify(c, a).value; h.head == rep.head && (rep.records > 0 ==> h.last == rep.last)
  {
    var r := NextRecord(c, h, e);
    LinesSplit(a, Written(r));
    ScanSplits(c, Lines(a), Lines(Written(r)), FRESH);
    WrittenIsRead(c, r, Verify(c, a).value);
    LinksIff(c, h, e, Verify(c, a).value);
  }

  /** A handle opened on an accepted file appends a record that leaves the file accepted
      precisely when the file was empty or ended with a newline. */
  lemma AppendKeepsVerifyIff(c: Codec, a: Bytes, e: Entry)
    requires c.Trusted() && OpenOn(c, a).Ok?
    ensures CaughtUp(c, a, OpenOn(c, a).value) == OpenOn(c, a)
    ensures Verify(c, WriteAt(c, a, OpenOn(c, a).value, e).0).Ok? <==> Terminated(a)
  {
    NothingUnread(c, a, OpenOn(c, a).value);
    if Terminated(a) {
      AppendsAfterIff(c, a, OpenOn(c, a).value, e);
    } else {
      SpoilsUnterminated(c, a, OpenOn(c, a).value, e);
    }
  }

  // ---- Appending to a file that was cut ----

  lemma CutVerifies(c: Codec, a: Bytes, lost: Bytes)
    requires Terminated(a) && Verify(c, a + lost).Ok?
    ensures Verify(c, a).Ok?
  {
    LinesSplit(a, lost);
    ScanSplits(c, Lines(a), Lines(lost), FRESH);
  }

  lemma SameHeadIff(c: Codec, a: Bytes, b: Bytes)
    requires c.Trusted() && Verify(c, a).Ok? && Verify(c, b).Ok?
    ensures var r, s := Verify(c, a).value, Verify(c, b).value;
            s.head == r.head && (r.records > 0 ==> s.last == r.last) <==> Records(c, Lines(a)) == Records(c, Lines(b))
  {
    EqualHeadsEqualRecords(c, a, b);
    ScanIsChained(c, Lines(a));
    ScanIsChained(c, Lines(b));
  }

  /** A handle that has read `a + lost`, of which the file keeps only `a`, cut after a whole
      record: it notices nothing, reads nothing, and appends on the head it remembers. What it
      leaves verifies precisely when the cut took no record, and no newline after the last. */
  lemma AppendAfterCutIff(c: Codec, a: Bytes, lost: Bytes, e: Entry)
    requires c.Trusted() && OpenOn(c, a + lost).Ok? && lost != [] && (Terminated(a) || Verify(c, a).Ok?)
    ensures var h := OpenOn(c, a + lost).value;
            && CaughtUp(c, a, h) == Ok(h)
            && (Verify(c, WriteAt(c, a, h, e).0).Ok? <==>
                  Terminated(a) && Records(c, Lines(a)) == Records(c, Lines(a + lost)))
  {
    var h := OpenOn(c, a + lost).value;
    assert h.offset >= |a|;
    NothingUnread(c, a, h);
    if Terminated(a) {
      CutVerifies(c, a, lost);
      AppendsAfterIff(c, a, h, e);
      SameHeadIff(c, a, a + lost);
    } else {
      SpoilsUnterminated(c, a, h, e);
    }
  }
}
