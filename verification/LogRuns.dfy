/** Any number of handles on one initially empty journal, their calls interleaved in any
    order. Every call holds the file lock, so each is one step. */
module LogRuns {
  import opened Basics
  import opened ChainedLog
  import opened LogIntegrity
  import opened LogHandles

  datatype Step = OpenCall | AppendCall(who: nat, entry: Entry) | HeadCall(who: nat)

  /** The file, the handles opened so far, and what was appended, in order. */
  datatype State = State(file: Bytes, handles: seq<Handle>, appended: seq<Entry>)

  const START: State := State([], [], [])

  /** The call is made on a handle that exists. */
  predicate Enabled(st: State, s: Step)
  {
    s.OpenCall? || s.who < |st.handles|
  }

  function Caught(c: Codec, st: State, who: nat): Result<Handle, ScanError>
    requires who < |st.handles|
  {
    CaughtUp(c, st.file, st.handles[who])
  }

  /** The outcome of a call; an error leaves everything as it was. */
  function Next(c: Codec, st: State, s: Step): Result<State, ScanError>
    requires Enabled(st, s)
  {
    match s
    case OpenCall =>
      if OpenOn(c, st.file).Err? then Err(OpenOn(c, st.file).error)
      else Ok(st.(handles := st.handles + [OpenOn(c, st.file).value]))
    case AppendCall(who, entry) =>
      if Caught(c, st, who).Err? then Err(Caught(c, st, who).error)
      else Ok(State(WriteAt(c, st.file, Caught(c, st, who).value, entry).0,
                    st.handles[who := WriteAt(c, st.file, Caught(c, st, who).value, entry).1],
                    st.appended + [entry]))
    case HeadCall(who) =>
      if Caught(c, st, who).Err? then Err(Caught(c, st, who).error)
      else Ok(st.(handles := st.handles[who := Caught(c, st, who).value]))
  }

  /** The text of a record sequence. */
  function Journal(rs: seq<Record>): Bytes
  {
    if rs == [] then [] else Journal(rs[..|rs| - 1]) + Written(rs[|rs| - 1])
  }

  /** The handle that has read exactly the first `k` records. */
  function HandleAt(rs: seq<Record>, k: nat): Handle
    requires k <= |rs|
  {
    Handle(k, HeadOf(rs[..k]), |Journal(rs[..k])|)
  }

  predicate Carries(r: Record, e: Entry, n: nat)
  {
    r.seqNo == n && r.time == e.time && r.event == e.event && r.data == e.data
  }

  /** The file is the text of the chain `rs`; record `i + 1` is the `i`-th append; every
      handle has read exactly some prefix. */
  ghost predicate Holds(c: Codec, st: State, rs: seq<Record>)
  {
    && st.file == Journal(rs)
    && Chained(c, rs)
    && Carried(rs, st.appended)
    && Placed(rs, st.handles)
  }

  ghost predicate Carried(rs: seq<Record>, entries: seq<Entry>)
  {
    |rs| == |entries| && forall i | 0 <= i < |rs| :: Carries(rs[i], entries[i], i + 1)
  }

  ghost predicate Placed(rs: seq<Record>, handles: seq<Handle>)
  {
    forall h | h in handles :: h.last <= |rs| && h == HandleAt(rs, h.last)
  }

  lemma {:induction false} JournalSplits(a: seq<Record>, b: seq<Record>)
    ensures Journal(a + b) == Journal(a) + Journal(b)
  {
    if b == [] {
      assert a + b == a;
    } else {
      var n := |b| - 1;
      JournalSplits(a, b[..n]);
      assert (a + b)[..|a + b| - 1] == a + b[..n];
      Regrouped(Journal(a), Journal(b[..n]), Written(b[n]));
    }
  }

  /** What is read of a file, and that it ends at a line end. */
  ghost predicate Holding(c: Codec, file: Bytes, rs: seq<Record>)
  {
    Terminated(file) && Records(c, Lines(file)) == rs && Readable(c, Lines(file))
  }

  lemma OneMoreRecord(c: Codec, file: Bytes, rs: seq<Record>, r: Record)
    requires c.Trusted() && Holding(c, file, rs)
    ensures Holding(c, file + Written(r), rs + [r])
  {
    WrittenIsRead(c, r, FRESH);
    WrittenIsOneLine(r);
    LinesSplit(file, Written(r));
    RecordsSplit(c, Lines(file), Lines(Written(r)));
    assert c.parse(LineText(r)).Some?;
  }

  lemma JournalGrows(c: Codec, file: Bytes, before: seq<Record>, r: Record, rs: seq<Record>, file': Bytes)
    requires c.Trusted() && Holding(c, file, before)
    requires rs == before + [r] && file' == file + Written(r)
    ensures Holding(c, file', rs)
  {
    OneMoreRecord(c, file, before, r);
  }

  lemma {:induction false} JournalIsRead(c: Codec, rs: seq<Record>)
    requires c.Trusted()
    ensures Holding(c, Journal(rs), rs)
  {
    if rs != [] {
      var before, r := rs[..|rs| - 1], rs[|rs| - 1];
      JournalIsRead(c, before);
      SplitLast(rs);
      JournalGrows(c, Journal(before), before, r, rs, Journal(rs));
    }
  }

  /** The text of a chain is accepted, with the chain's summary. */
  lemma JournalVerifies(c: Codec, rs: seq<Record>)
    requires c.Trusted() && Chained(c, rs)
    ensures Verify(c, Journal(rs)) == Ok(Summary(rs))
  {
    JournalIsRead(c, rs);
    ScanIsChained(c, Lines(Journal(rs)));
  }

  ghost predicate Numbered(rs: seq<Record>)
  {
    forall i | 0 <= i < |rs| :: rs[i].seqNo == i + 1
  }

  lemma PrefixChained(c: Codec, rs: seq<Record>, k: nat)
    requires Chained(c, rs) && k <= |rs|
    ensures Chained(c, rs[..k])
  {
    forall i | 0 <= i < k
      ensures Follows(c, rs[..k], i)
    {
      assert Follows(c, rs, i) && rs[..k][..i] == rs[..i];
    }
  }

  lemma TakeDrop(a: Bytes, b: Bytes)
    ensures (a + b)[..|a|] == a && (a + b)[|a|..] == b
  {
  }

  lemma CatchesUpOn(c: Codec, a: Bytes, b: Bytes)
    requires Terminated(a) && Verify(c, a).Ok? && Countable(Verify(c, a).value) && Verify(c, a + b).Ok?
    ensures CaughtUp(c, a + b, OpenOn(c, a).value) == OpenOn(c, a + b)
  {
    CaughtUpIs(c, a, b, OpenOn(c, a).value);
    ResumeAfter(c, a, b);
    assert OpenOn(c, a + b) == HandleOf(Verify(c, a + b), |a + b|);
  }

  lemma JournalAt(rs: seq<Record>, k: nat)
    requires k <= |rs|
    ensures Journal(rs) == Journal(rs[..k]) + Journal(rs[k..])
  {
    SplitHere(rs, k);
    JournalSplits(rs[..k], rs[k..]);
  }

  /** A handle opened when the file held `rs`. */
  lemma OpensAt(c: Codec, rs: seq<Record>)
    requires c.Trusted() && Chained(c, rs) && Numbered(rs)
    ensures OpenOn(c, Journal(rs)) == Ok(HandleAt(rs, |rs|))
  {
    JournalVerifies(c, rs);
    assert rs[..|rs|] == rs;
  }

  lemma PrefixOpens(c: Codec, rs: seq<Record>, k: nat)
    requires c.Trusted() && Chained(c, rs) && Numbered(rs) && k <= |rs|
    ensures OpenOn(c, Journal(rs[..k])) == Ok(HandleAt(rs, k))
  {
    PrefixChained(c, rs, k);
    OpensAt(c, rs[..k]);
    assert rs[..k][..k] == rs[..k];
  }

  /** A handle that has read `k` records catches up with all of them. */
  lemma CatchesUp(c: Codec, rs: seq<Record>, k: nat)
    requires c.Trusted() && Chained(c, rs) && Numbered(rs) && k <= |rs|
    ensures HandleAt(rs, k).offset <= |Journal(rs)|
    ensures CaughtUp(c, Journal(rs), HandleAt(rs, k)) == Ok(HandleAt(rs, |rs|))
  {
    JournalAt(rs, k);
    PrefixOpens(c, rs, k);
    PrefixChained(c, rs, k);
    JournalVerifies(c, rs[..k]);
    JournalIsRead(c, rs[..k]);
    OpensAt(c, rs);
    CatchesUpOn(c, Journal(rs[..k]), Journal(rs[k..]));
  }

  lemma HandlesKept(rs: seq<Record>, r: Record, handles: seq<Handle>, who: nat)
    requires Placed(rs, handles) && who < |handles|
    ensures Placed(rs + [r], handles[who := HandleAt(rs + [r], |rs| + 1)])
  {
    var all := rs + [r];
    var now := handles[who := HandleAt(all, |rs| + 1)];
    forall h | h in now
      ensures h.last <= |all| && h == HandleAt(all, h.last)
    {
      if h in handles {
        assert all[..h.last] == rs[..h.last];
      }
    }
  }

  /** What a caught-up handle writes, and where that leaves it. */
  lemma WritesNext(c: Codec, rs: seq<Record>, e: Entry) returns (r: Record)
    requires Chained(c, rs) && Numbered(rs)
    ensures r == NextRecord(c, HandleAt(rs, |rs|), e) && Chained(c, rs + [r]) && Carries(r, e, |rs| + 1)
    ensures WriteAt(c, Journal(rs), HandleAt(rs, |rs|), e) == (Journal(rs + [r]), HandleAt(rs + [r], |rs| + 1))
  {
    r := NextRecord(c, HandleAt(rs, |rs|), e);
    var all := rs + [r];
    assert rs[..|rs|] == rs && all[..|all|] == all && all[..|all| - 1] == rs && all[|all| - 1] == r;
    ChainedGrows(c, rs, r);
  }

  /** The invariant survives an append, which never fails. */
  lemma AppendKeeps(c: Codec, st: State, rs: seq<Record>, who: nat, e: Entry) returns (rs': seq<Record>)
    requires c.Trusted() && Holds(c, st, rs) && Enabled(st, AppendCall(who, e))
    ensures Next(c, st, AppendCall(who, e)).Ok?
    ensures Holds(c, Next(c, st, AppendCall(who, e)).value, rs')
  {
    CatchesUp(c, rs, st.handles[who].last);
    var r := WritesNext(c, rs, e);
    HandlesKept(rs, r, st.handles, who);
    rs' := rs + [r];
  }

  /** No call fails, and the invariant survives it. */
  lemma StepKeeps(c: Codec, st: State, rs: seq<Record>, s: Step) returns (rs': seq<Record>)
    requires c.Trusted() && Holds(c, st, rs) && Enabled(st, s)
    ensures Next(c, st, s).Ok? && Holds(c, Next(c, st, s).value, rs')
  {
    rs' := rs;
    assert rs[..|rs|] == rs;
    match s
    case OpenCall =>
      JournalVerifies(c, rs);
    case HeadCall(who) =>
      CatchesUp(c, rs, st.handles[who].last);
    case AppendCall(who, e) =>
      rs' := AppendKeeps(c, st, rs, who, e);
  }

  /** `st` is reached from an empty file by the calls `steps`, in that order. */
  ghost predicate Reaches(c: Codec, steps: seq<Step>, st: State)
  {
    if steps == [] then st == START
    else exists before :: StepsTo(c, before, Last(steps), st) && Reaches(c, Front(steps), before)
  }

  predicate StepsTo(c: Codec, st: State, s: Step, st': State)
  {
    Enabled(st, s) && st' == if Next(c, st, s).Ok? then Next(c, st, s).value else st
  }

  lemma {:induction false} RunKeeps(c: Codec, steps: seq<Step>, st: State) returns (rs: seq<Record>)
    requires c.Trusted() && Reaches(c, steps, st)
    ensures Holds(c, st, rs)
    decreases |steps|
  {
    if steps == [] {
      rs := [];
    } else {
      var before :| StepsTo(c, before, Last(steps), st) && Reaches(c, Front(steps), before);
      var rs0 := RunKeeps(c, Front(steps), before);
      rs := StepKeeps(c, before, rs0, Last(steps));
    }
  }

  /** A handle summarises a verified prefix that ends at a line end. */
  ghost predicate SummarisesPrefix(c: Codec, file: Bytes, h: Handle)
  {
    && h.offset <= |file|
    && Terminated(file[..h.offset])
    && Verify(c, file[..h.offset]).Ok?
    && Verify(c, file[..h.offset]).value.last == h.last
    && Verify(c, file[..h.offset]).value.head == h.head
  }

  lemma PrefixSummarised(c: Codec, rs: seq<Record>, k: nat)
    requires c.Trusted() && Chained(c, rs) && Numbered(rs) && k <= |rs|
    ensures SummarisesPrefix(c, Journal(rs), HandleAt(rs, k))
  {
    JournalAt(rs, k);
    TakeDrop(Journal(rs[..k]), Journal(rs[k..]));
    PrefixOpens(c, rs, k);
    JournalIsRead(c, rs[..k]);
  }

  /** The appends a run makes. */
  function AppendsIn(steps: seq<Step>): seq<Entry>
  {
    if steps == [] then []
    else AppendsIn(Front(steps)) + (if Last(steps).AppendCall? then [Last(steps).entry] else [])
  }

  lemma {:induction false} AppendedIsAppends(c: Codec, steps: seq<Step>, st: State)
    requires c.Trusted() && Reaches(c, steps, st)
    ensures st.appended == AppendsIn(steps)
    decreases |steps|
  {
    if steps != [] {
      var before :| StepsTo(c, before, Last(steps), st) && Reaches(c, Front(steps), before);
      AppendedIsAppends(c, Front(steps), before);
      var rs := RunKeeps(c, Front(steps), before);
      var _ := StepKeeps(c, before, rs, Last(steps));
    }
  }

  /** After any interleaving: the file ends at a line end and verifies; its records are the
      appends, in order, numbered from 1; each handle summarises a verified prefix; and no
      further call on any handle can fail. */
  lemma AnyInterleaving(c: Codec, steps: seq<Step>, st: State)
    requires c.Trusted() && Reaches(c, steps, st)
    ensures st.appended == AppendsIn(steps)
    ensures Terminated(st.file) && Verify(c, st.file).Ok?
    ensures |Records(c, Lines(st.file))| == |st.appended| == Verify(c, st.file).value.records
    ensures forall i | 0 <= i < |st.appended| :: Carries(Records(c, Lines(st.file))[i], st.appended[i], i + 1)
    ensures forall h | h in st.handles :: SummarisesPrefix(c, st.file, h)
    ensures forall s | Enabled(st, s) :: Next(c, st, s).Ok?
  {
    AppendedIsAppends(c, steps, st);
    var rs := RunKeeps(c, steps, st);
    assert Numbered(rs) by {
      assert forall i | 0 <= i < |rs| :: Carries(rs[i], st.appended[i], i + 1);
    }
    JournalIsRead(c, rs);
    JournalVerifies(c, rs);
    forall h | h in st.handles
      ensures SummarisesPrefix(c, st.file, h)
    {
      PrefixSummarised(c, rs, h.last);
    }
    forall s | Enabled(st, s)
      ensures Next(c, st, s).Ok?
    {
      var _ := StepKeeps(c, st, rs, s);
    }
  }
}
