/** The review of decisions taken by the emergency command line: each must be listed to a
    person, and the reading itself leaves a record that moves the window. */
module CliReview {
  import opened Basics

  datatype Leaf = Text(s: string) | Number(n: nat) | Other

  datatype Field = Plain(leaf: Leaf) | Object(members: map<string, Leaf>)

  type Data = map<string, Field>

  datatype Record = Record(seqNo: nat, time: string, event: string, data: Option<Data>)

  const REVIEW_EVENT := "ra.cli_decisions_reviewed"

  datatype CliDecision = CliDecision(seqNo: nat, time: string, event: string, operator: string, comment: string,
                                     subject: string, host: string, posixId: Option<nat>)

  datatype Review = Review(decisions: seq<CliDecision>, acknowledgedUpTo: nat, head: nat)

  // ---- Reading fields ----

  function LeafText(l: Leaf): Option<string>
  {
    if l.Text? then Some(l.s) else None
  }

  function FieldText(d: Data, key: string): Option<string>
  {
    if key in d && d[key].Plain? then LeafText(d[key].leaf) else None
  }

  function FieldNumber(d: Data, key: string): Option<nat>
  {
    if key in d && d[key].Plain? && d[key].leaf.Number? then Some(d[key].leaf.n) else None
  }

  function Or(s: Option<string>): string
  {
    if s.Some? then s.value else ""
  }

  function Identity(d: Data): map<string, Leaf>
  {
    if "identite_systeme" in d && d["identite_systeme"].Object? then d["identite_systeme"].members else map[]
  }

  function Subject(d: Data): string
  {
    if Or(FieldText(d, "transaction")) != "" then Or(FieldText(d, "transaction")) else Or(FieldText(d, "serie"))
  }

  function DecisionOf(r: Record, d: Data): CliDecision
  {
    CliDecision(r.seqNo, r.time, r.event, Or(FieldText(d, "operateur")), Or(FieldText(d, "commentaire")), Subject(d),
                if "hote" in Identity(d) then Or(LeafText(Identity(d)["hote"])) else "",
                if "uid" in Identity(d) && Identity(d)["uid"].Number? then Some(Identity(d)["uid"].n) else None)
  }

  /** A decision of the command line, and not the record of a review. */
  predicate Decides(r: Record)
  {
    r.event != REVIEW_EVENT && r.data.Some? && FieldText(r.data.value, "authenticated_via") == Some("cli")
  }

  // ---- The review ----

  /** How far a review's record reaches; 0 when it does not say. */
  function Covers(r: Record): nat
  {
    if r.data.Some? && FieldNumber(r.data.value, "jusqu_a").Some? then FieldNumber(r.data.value, "jusqu_a").value else 0
  }

  /** The reach of the last review on record. */
  function AcknowledgedUpTo(records: seq<Record>): nat
  {
    if records == [] then 0
    else if records[|records| - 1].event == REVIEW_EVENT then Covers(records[|records| - 1])
    else AcknowledgedUpTo(records[..|records| - 1])
  }

  function Head(records: seq<Record>): nat
  {
    if records == [] then 0 else records[|records| - 1].seqNo
  }

  /** How the dates of records read as instants; a date that does not read is `None`. */
  type Clock = string -> Option<int>

  /** From the date `since`, or else after the number `upTo`. */
  predicate InWindow(r: Record, since: Option<int>, upTo: nat, at: Clock)
  {
    if since.Some? then at(r.time).Some? && at(r.time).value >= since.value else r.seqNo > upTo
  }

  /** The decisions of the window; one date that does not read, where dates are looked at,
      fails with the number of its record. */
  function DecisionsIn(records: seq<Record>, since: Option<int>, upTo: nat, at: Clock): Result<seq<CliDecision>, nat>
  {
    if records == [] then Ok([])
    else
      var before, r := DecisionsIn(records[..|records| - 1], since, upTo, at), records[|records| - 1];
      if before.Err? || !Decides(r) then before
      else if since.Some? && at(r.time).None? then Err(r.seqNo)
      else if InWindow(r, since, upTo, at) then Ok(before.value + [DecisionOf(r, r.data.value)])
      else before
  }

  function ReviewOf(records: seq<Record>, since: Option<int>, at: Clock): Result<Review, nat>
  {
    var decisions := DecisionsIn(records, since, AcknowledgedUpTo(records), at);
    if decisions.Err? then Err(decisions.error)
    else Ok(Review(decisions.value, AcknowledgedUpTo(records), Head(records)))
  }

  /** Looks back from the end for the last record of a review. */
  method LastReach(records: seq<Record>) returns (upTo: nat)
    ensures upTo == AcknowledgedUpTo(records)
  {
    var i := |records|;
    assert records[..i] == records;
    while i > 0 && records[i - 1].event != REVIEW_EVENT
      invariant 0 <= i <= |records|
      invariant AcknowledgedUpTo(records) == AcknowledgedUpTo(records[..i])
    {
      assert records[..i][..i - 1] == records[..i - 1];
      i := i - 1;
    }
    upTo := 0;
    if i > 0 {
      assert records[..i][i - 1] == records[i - 1];
      var found := records[i - 1];
      if found.data.Some? && FieldNumber(found.data.value, "jusqu_a").Some? {
        upTo := FieldNumber(found.data.value, "jusqu_a").value;
      }
    }
  }

  method ReadReview(records: seq<Record>, since: Option<int>, at: Clock) returns (review: Result<Review, nat>)
    ensures review == ReviewOf(records, since, at)
  {
    var upTo := LastReach(records);
    var decisions := [];
    for j := 0 to |records|
      invariant DecisionsIn(records[..j], since, upTo, at) == Ok(decisions)
    {
      var r := records[j];
      assert records[..j + 1][..j] == records[..j];
      if Decides(r) {
        if since.Some? && at(r.time).None? {
          FailsOn(records, j + 1, since, upTo, at);
          return Err(r.seqNo);
        }
        if InWindow(r, since, upTo, at) {
          decisions := decisions + [DecisionOf(r, r.data.value)];
        }
      }
    }
    assert records[..|records|] == records;
    review := Ok(Review(decisions, upTo, Head(records)));
  }

  /** A failure on the first records stands whatever follows. */
  lemma {:induction false} FailsOn(records: seq<Record>, k: nat, since: Option<int>, upTo: nat, at: Clock)
    requires k <= |records| && DecisionsIn(records[..k], since, upTo, at).Err?
    ensures DecisionsIn(records, since, upTo, at) == DecisionsIn(records[..k], since, upTo, at)
    decreases |records|
  {
    if k == |records| {
      assert records[..k] == records;
    } else {
      assert records[..|records| - 1][..k] == records[..k];
      FailsOn(records[..|records| - 1], k, since, upTo, at);
    }
  }

  predicate Listed(review: Review, r: Record)
  {
    r.data.Some? && DecisionOf(r, r.data.value) in review.decisions
  }

  /** A review lists exactly the command-line decisions of its window; one from a date fails
      exactly when some command-line decision has a date that does not read. */
  lemma {:induction false} ListedIff(records: seq<Record>, since: Option<int>, upTo: nat, at: Clock, d: CliDecision)
    ensures DecisionsIn(records, since, upTo, at).Err? <==>
            since.Some? && exists r | r in records :: Decides(r) && at(r.time).None?
    ensures DecisionsIn(records, since, upTo, at).Ok? ==>
              (d in DecisionsIn(records, since, upTo, at).value <==>
                 exists r | r in records :: Decides(r) && InWindow(r, since, upTo, at)
                   && d == DecisionOf(r, r.data.value))
  {
    if records != [] {
      ListedIff(records[..|records| - 1], since, upTo, at, d);
      SplitLast(records);
    }
  }

  /** What the record of a review says of its reach. */
  function Acknowledgement(review: Review, reader: string, comment: string): Data
  {
    map["relecteur" := Plain(Text(reader)), "commentaire" := Plain(Text(comment)),
        "jusqu_a" := Plain(Number(review.head)),
        "depuis" := Plain(Number(review.acknowledgedUpTo)), "decisions" := Plain(Number(|review.decisions|)),
        "authenticated_via" := Plain(Text("cli"))]
  }

  // ---- Runs ----

  /** A review that was read, and from what date, if any. */
  datatype Reading = Reading(since: Option<int>, review: Review)

  /** The journal; for the record, the reviews that were read and which were acknowledged. */
  datatype State = State(records: seq<Record>, read: seq<Reading>, acknowledged: set<nat>)

  const START: State := State([], [], {})

  datatype Step =
    | Append(time: string, event: string, data: Option<Data>)
    | Read(since: Option<int>)
    | Acknowledge(review: nat, reader: string, comment: string, time: string)

  /** Anyone appends anything but the record of a review; only a review already read is
      acknowledged, by whoever, whenever, as often as one likes. */
  predicate Enabled(st: State, s: Step)
  {
    match s
    case Append(_, event, _) => event != REVIEW_EVENT
    case Read(_) => true
    case Acknowledge(i, _, _, _) => i < |st.read|
  }

  /** Records are numbered from 1, in order. */
  function Next(at: Clock, st: State, s: Step): State
    requires Enabled(st, s)
  {
    match s
    case Append(time, event, data) =>
      st.(records := st.records + [Record(|st.records| + 1, time, event, data)])
    case Read(since) =>
      if ReviewOf(st.records, since, at).Err? then st
      else st.(read := st.read + [Reading(since, ReviewOf(st.records, since, at).value)])
    case Acknowledge(i, reader, comment, time) => Acknowledging(st, i, reader, comment, time)
  }

  function Acknowledging(st: State, i: nat, reader: string, comment: string, time: string): State
    requires i < |st.read|
  {
    var said := Acknowledgement(st.read[i].review, reader, comment);
    st.(records := st.records + [Record(|st.records| + 1, time, REVIEW_EVENT, Some(said))],
        acknowledged := st.acknowledged + {i})
  }

  ghost predicate Numbered(records: seq<Record>)
  {
    forall i | 0 <= i < |records| :: records[i].seqNo == i + 1
  }

  /** The decision was listed in a review that was acknowledged. */
  ghost predicate Reviewed(st: State, r: Record)
  {
    exists i | 0 <= i < |st.read| :: i in st.acknowledged && Listed(st.read[i].review, r)
  }

  /** Every decision up to `bound` was listed in an acknowledged review. */
  ghost predicate ReviewedUpTo(st: State, bound: nat)
  {
    forall r | r in st.records :: Decides(r) && r.seqNo <= bound ==> Reviewed(st, r)
  }

  /** Every decision the review reaches is listed in it, or in an acknowledged one. */
  ghost predicate Complete(st: State, review: Review)
  {
    && review.head <= |st.records|
    && forall r | r in st.records :: Decides(r) && r.seqNo <= review.head ==> Listed(review, r) || Reviewed(st, r)
  }

  /** What a review read from the date `since` leaves out of what it reaches: the decisions
      before that date, and no other. */
  ghost predicate FromDate(at: Clock, st: State, since: int, review: Review)
  {
    && review.head <= |st.records|
    && forall r | r in st.records && Decides(r) && r.seqNo <= review.head ::
         at(r.time).Some? && (Listed(review, r) <==> at(r.time).value >= since)
  }

  ghost predicate ReadingOk(at: Clock, st: State, reading: Reading)
  {
    if reading.since.Some? then FromDate(at, st, reading.since.value, reading.review) else Complete(st, reading.review)
  }

  ghost predicate Inv(at: Clock, st: State)
  {
    && Numbered(st.records)
    && (forall reading | reading in st.read :: ReadingOk(at, st, reading))
    && (forall r | r in st.records :: r.event == REVIEW_EVENT ==>
        Covers(r) <= |st.records| && ReviewedUpTo(st, Covers(r)))
  }

  lemma {:induction false} AcknowledgedIsCovered(at: Clock, st: State, records: seq<Record>)
    requires Inv(at, st) && (forall r | r in records :: r in st.records)
    ensures AcknowledgedUpTo(records) <= |st.records| && ReviewedUpTo(st, AcknowledgedUpTo(records))
  {
    if records != [] {
      var last := records[|records| - 1];
      assert last in records;
      if last.event != REVIEW_EVENT {
        AcknowledgedIsCovered(at, st, records[..|records| - 1]);
      }
    } else {
      forall r | r in st.records
        ensures r.seqNo > 0
      {
      }
    }
  }

  /** The decision is listed by a review without a date, read now. */
  predicate ListedNext(records: seq<Record>, at: Clock, r: Record)
  {
    ReviewOf(records, None, at).Ok? && Listed(ReviewOf(records, None, at).value, r)
  }

  lemma NextListsIff(at: Clock, st: State, r: Record)
    requires Numbered(st.records) && r in st.records && Decides(r)
    ensures ListedNext(st.records, at, r) <==> r.seqNo > AcknowledgedUpTo(st.records)
  {
    ListedIff(st.records, None, AcknowledgedUpTo(st.records), at, DecisionOf(r, r.data.value));
  }

  lemma ReviewedKept(st: State, st': State, r: Record)
    requires Reviewed(st, r) && st.read <= st'.read && st.acknowledged <= st'.acknowledged
    ensures Reviewed(st', r)
  {
    var i :| 0 <= i < |st.read| && i in st.acknowledged && Listed(st.read[i].review, r);
    assert st'.read[i] == st.read[i];
  }

  ghost predicate Older(st: State, st': State)
  {
    && st.records <= st'.records && st.read <= st'.read && st.acknowledged <= st'.acknowledged
    && forall r | r in st'.records && r !in st.records :: r.seqNo > |st.records|
  }

  lemma CompleteKept(st: State, st': State, review: Review)
    requires Complete(st, review) && Older(st, st')
    ensures Complete(st', review)
  {
    forall r | r in st'.records && Decides(r) && r.seqNo <= review.head
      ensures Listed(review, r) || Reviewed(st', r)
    {
      assert r in st.records;
      if Reviewed(st, r) {
        ReviewedKept(st, st', r);
      }
    }
  }

  lemma ReviewedUpToKept(st: State, st': State, bound: nat)
    requires ReviewedUpTo(st, bound) && Older(st, st') && bound <= |st.records|
    ensures ReviewedUpTo(st', bound)
  {
    forall r | r in st'.records && Decides(r) && r.seqNo <= bound
      ensures Reviewed(st', r)
    {
      assert r in st.records;
      ReviewedKept(st, st', r);
    }
  }

  lemma OlderKeeps(at: Clock, st: State, st': State)
    requires Inv(at, st) && Older(st, st')
    ensures forall reading | reading in st.read :: ReadingOk(at, st', reading)
    ensures forall r | r in st.records :: r.event == REVIEW_EVENT ==>
            Covers(r) <= |st.records| && ReviewedUpTo(st', Covers(r))
  {
    forall reading | reading in st.read
      ensures ReadingOk(at, st', reading)
    {
      if reading.since.None? {
        CompleteKept(st, st', reading.review);
      }
    }
    forall r | r in st.records && r.event == REVIEW_EVENT
      ensures ReviewedUpTo(st', Covers(r))
    {
      ReviewedUpToKept(st, st', Covers(r));
    }
  }

  /** Acknowledging a complete review leaves nothing unreviewed up to its head. */
  lemma AcknowledgedIsReviewed(st: State, st': State, i: nat)
    requires Older(st, st') && i < |st.read| && i in st'.acknowledged && Complete(st, st.read[i].review)
    ensures ReviewedUpTo(st', st.read[i].review.head)
  {
    CompleteKept(st, st', st.read[i].review);
    assert st'.read[i] == st.read[i];
  }

  lemma ReadIsOk(at: Clock, st: State, since: Option<int>)
    requires Inv(at, st) && ReviewOf(st.records, since, at).Ok?
    ensures ReadingOk(at, st, Reading(since, ReviewOf(st.records, since, at).value))
  {
    var review := ReviewOf(st.records, since, at).value;
    AcknowledgedIsCovered(at, st, st.records);
    forall r | r in st.records && Decides(r)
      ensures Listed(review, r) <==> InWindow(r, since, AcknowledgedUpTo(st.records), at)
      ensures since.Some? ==> at(r.time).Some?
    {
      ListedIff(st.records, since, AcknowledgedUpTo(st.records), at, DecisionOf(r, r.data.value));
    }
  }

  /** Every decision an acknowledgement is about to cover is in the review or in an
      acknowledged one. */
  ghost predicate Careful(st: State, s: Step)
  {
    s.Acknowledge? && s.review < |st.read| ==> Complete(st, st.read[s.review].review)
  }

  lemma NextKeeps(at: Clock, st: State, s: Step)
    requires Inv(at, st) && Enabled(st, s) && Careful(st, s)
    ensures Inv(at, Next(at, st, s))
  {
    var st' := Next(at, st, s);
    OlderKeeps(at, st, st');
    match s
    case Append(_, _, _) =>
    case Read(since) =>
      if ReviewOf(st.records, since, at).Ok? {
        ReadIsOk(at, st, since);
        OneMoreReading(at, st, st', Reading(since, ReviewOf(st.records, since, at).value));
      }
    case Acknowledge(i, reader, comment, time) =>
      AcknowledgedIsReviewed(st, st', i);
      assert Covers(st'.records[|st.records|]) == st.read[i].review.head;
  }

  lemma OneMoreReading(at: Clock, st: State, st': State, reading: Reading)
    requires st' == st.(read := st.read + [reading]) && ReadingOk(at, st, reading)
    ensures ReadingOk(at, st', reading)
  {
    assert Older(st, st');
    if reading.since.None? {
      CompleteKept(st, st', reading.review);
    }
  }

  predicate StepsTo(at: Clock, st: State, s: Step, st': State)
  {
    Enabled(st, s) && st' == Next(at, st, s)
  }

  /** `st` is reached from an empty journal by the steps `steps`, in that order; carefully, if
      every acknowledgement in it is. */
  ghost predicate Reaches(at: Clock, steps: seq<Step>, st: State, carefully: bool)
  {
    if steps == [] then st == START
    else exists before ::
           && StepsTo(at, before, Last(steps), st) && (carefully ==> Careful(before, Last(steps)))
           && Reaches(at, Front(steps), before, carefully)
  }

  lemma {:induction false} RunKeeps(at: Clock, steps: seq<Step>, st: State)
    requires Reaches(at, steps, st, true)
    ensures Inv(at, st)
    decreases |steps|
  {
    if steps != [] {
      var before :| && StepsTo(at, before, Last(steps), st) && Careful(before, Last(steps))
                    && Reaches(at, Front(steps), before, true);
      RunKeeps(at, Front(steps), before);
      NextKeeps(at, before, Last(steps));
    }
  }

  /** Every command-line decision is listed by the next review, or was listed in a review that
      was acknowledged. */
  ghost predicate NoneEscapes(at: Clock, st: State)
  {
    forall r | r in st.records && Decides(r) :: ListedNext(st.records, at, r) || Reviewed(st, r)
  }

  lemma InvMeansNone(at: Clock, st: State)
    requires Inv(at, st)
    ensures NoneEscapes(at, st)
  {
    AcknowledgedIsCovered(at, st, st.records);
    forall r | r in st.records && Decides(r)
      ensures ListedNext(st.records, at, r) || Reviewed(st, r)
    {
      NextListsIff(at, st, r);
    }
  }

  /** In any interleaving of careful steps, acknowledgements out of order included, no
      decision escapes. */
  lemma CarefulRunsLoseNothing(at: Clock, steps: seq<Step>, st: State)
    requires Reaches(at, steps, st, true)
    ensures NoneEscapes(at, st)
  {
    RunKeeps(at, steps, st);
    InvMeansNone(at, st);
  }

  /** What was acknowledged was read without a date. */
  predicate WholeOnly(st: State)
  {
    forall i | i in st.acknowledged :: i < |st.read| && st.read[i].since.None?
  }

  lemma {:induction false} WholeIsCareful(at: Clock, steps: seq<Step>, st: State)
    requires Reaches(at, steps, st, false) && WholeOnly(st)
    ensures Reaches(at, steps, st, true)
    decreases |steps|
  {
    if steps != [] {
      var before :| StepsTo(at, before, Last(steps), st) && Reaches(at, Front(steps), before, false);
      AcknowledgedAreRead(at, Front(steps), before);
      assert WholeOnly(before);
      WholeIsCareful(at, Front(steps), before);
      RunKeeps(at, Front(steps), before);
      if Last(steps).Acknowledge? {
        assert Last(steps).review in st.acknowledged;
        assert ReadingOk(at, before, before.read[Last(steps).review]);
      }
      assert Careful(before, Last(steps));
    }
  }

  lemma {:induction false} AcknowledgedAreRead(at: Clock, steps: seq<Step>, st: State)
    requires Reaches(at, steps, st, false)
    ensures forall i | i in st.acknowledged :: i < |st.read|
    decreases |steps|
  {
    if steps != [] {
      var before :| StepsTo(at, before, Last(steps), st) && Reaches(at, Front(steps), before, false);
      AcknowledgedAreRead(at, Front(steps), before);
    }
  }

  /** A review without a date never fails, and lists nothing but decisions. */
  lemma NextListsOnly(at: Clock, records: seq<Record>)
    ensures ReviewOf(records, None, at).Ok?
    ensures forall d | d in ReviewOf(records, None, at).value.decisions ::
              exists r | r in records :: Decides(r) && d == DecisionOf(r, r.data.value)
  {
    ListedIff(records, None, AcknowledgedUpTo(records), at, CliDecision(0, "", "", "", "", "", "", None));
    forall d | d in ReviewOf(records, None, at).value.decisions
      ensures exists r | r in records :: Decides(r) && d == DecisionOf(r, r.data.value)
    {
      ListedIff(records, None, AcknowledgedUpTo(records), at, d);
    }
  }

  /** So, whatever is read and by whom, none escapes as long as each acknowledged review was
      read without a date. */
  lemma NothingEscapes(at: Clock, steps: seq<Step>, st: State)
    requires Reaches(at, steps, st, false) && WholeOnly(st)
    ensures NoneEscapes(at, st)
    ensures ReviewOf(st.records, None, at).Ok?
    ensures forall d | d in ReviewOf(st.records, None, at).value.decisions ::
              exists r | r in st.records :: Decides(r) && d == DecisionOf(r, r.data.value)
  {
    WholeIsCareful(at, steps, st);
    CarefulRunsLoseNothing(at, steps, st);
    NextListsOnly(at, st.records);
  }

  /** Every decision before the date, among those the review reaches, was listed in an
      acknowledged one. */
  ghost predicate OldOnesReviewed(at: Clock, st: State, since: int, review: Review)
  {
    forall r | r in st.records && Decides(r) && r.seqNo <= review.head && at(r.time).Some?
      && at(r.time).value < since ::
      Reviewed(st, r)
  }

  lemma DatedKeeps(at: Clock, st: State, i: nat, reader: string, comment: string, time: string)
    requires Inv(at, st) && i < |st.read| && st.read[i].since.Some?
    requires OldOnesReviewed(at, st, st.read[i].since.value, st.read[i].review)
    ensures NoneEscapes(at, Acknowledging(st, i, reader, comment, time))
  {
    assert ReadingOk(at, st, st.read[i]);
    assert Complete(st, st.read[i].review);
    NextKeeps(at, st, Acknowledge(i, reader, comment, time));
    InvMeansNone(at, Acknowledging(st, i, reader, comment, time));
  }

  lemma StillUnreviewed(st: State, i: nat, reader: string, comment: string, time: string, r: Record)
    requires i < |st.read| && !Reviewed(st, r) && !Listed(st.read[i].review, r)
    ensures !Reviewed(Acknowledging(st, i, reader, comment, time), r)
  {
  }

  lemma DatedLoses(at: Clock, st: State, i: nat, reader: string, comment: string, time: string, r: Record)
    requires Inv(at, st) && i < |st.read| && st.read[i].since.Some? && r in st.records && Decides(r)
    requires r.seqNo <= st.read[i].review.head && at(r.time).Some? && at(r.time).value < st.read[i].since.value
    requires !Reviewed(st, r)
    ensures !NoneEscapes(at, Acknowledging(st, i, reader, comment, time))
  {
    var st' := Acknowledging(st, i, reader, comment, time);
    assert ReadingOk(at, st, st.read[i]);
    StillUnreviewed(st, i, reader, comment, time, r);
    assert AcknowledgedUpTo(st'.records) == st.read[i].review.head;
    assert Older(st, st');
    assert Numbered(st'.records) && r in st'.records;
    NextListsIff(at, st', r);
  }

  /** Acknowledging a review read from a date lets a decision escape precisely when one before
      that date had not been reviewed. */
  lemma DatedEscapesIff(at: Clock, steps: seq<Step>, st: State, i: nat, reader: string, comment: string, time: string)
    requires Reaches(at, steps, st, true) && i < |st.read| && st.read[i].since.Some?
    ensures NoneEscapes(at, Acknowledging(st, i, reader, comment, time))
       <==> OldOnesReviewed(at, st, st.read[i].since.value, st.read[i].review)
  {
    RunKeeps(at, steps, st);
    if OldOnesReviewed(at, st, st.read[i].since.value, st.read[i].review) {
      DatedKeeps(at, st, i, reader, comment, time);
    } else {
      var r :| && r in st.records && Decides(r) && r.seqNo <= st.read[i].review.head && at(r.time).Some?
               && at(r.time).value < st.read[i].since.value && !Reviewed(st, r);
      DatedLoses(at, st, i, reader, comment, time, r);
    }
  }
}
