/** By which way a decision was taken, as it is written into the journal; and that what the
    emergency command line writes there is what its reader is shown. */
module CliTrace {
  import opened Basics
  import opened CliReview

  // ---- Writing ----

  /** The identity of the process, as the system tells it; what cannot be read stays empty. */
  datatype SystemIdentity = SystemIdentity(uid: Option<nat>, user: string, host: string)

  datatype Via = WebAuthn | Cli(identity: SystemIdentity) | Automatic

  function Way(via: Via): string
  {
    match via
    case WebAuthn => "webauthn"
    case Cli(_) => "cli"
    case Automatic => "automatique"
  }

  /** The data of an event with its way, and with the identity of the process if that is the
      command line. */
  function Annotated(data: Data, via: Via): Data
  {
    var known := data["authenticated_via" := Plain(Text(Way(via)))];
    if !via.Cli? then known
    else
      known["identite_systeme" :=
      Object(map["authentifiee" := Other,
                 "uid" := if via.identity.uid.Some? then Number(via.identity.uid.value) else Other,
                 "utilisateur" := Text(via.identity.user), "hote" := Text(via.identity.host)])]
  }

  /** What the writer says of his decision. */
  datatype Said = Said(operator: string, comment: string, subject: string)

  /** The data name operator and comment, and the subject as a request or as a serial. */
  predicate Says(data: Data, said: Said)
  {
    && FieldText(data, "operateur") == Some(said.operator) && FieldText(data, "commentaire") == Some(said.comment)
    && said.subject != ""
    && (|| FieldText(data, "transaction") == Some(said.subject)
        || ((FieldText(data, "transaction").None? || FieldText(data, "transaction") == Some(""))
            && FieldText(data, "serie") == Some(said.subject)))
  }

  // ---- Reading back ----

  lemma KeysDiffer()
    ensures "authenticated_via" !in {"identite_systeme", "operateur", "commentaire", "transaction", "serie"}
    ensures "identite_systeme" !in {"operateur", "commentaire", "transaction", "serie"}
  {
    assert "authenticated_via"[0] == 'a' && "identite_systeme"[0] == 'i';
    assert "operateur"[0] == 'o' && "commentaire"[0] == 'c' && "transaction"[0] == 't' && "serie"[0] == 's';
  }

  lemma IdentityKeysDiffer()
    ensures "hote" !in {"authentifiee", "uid", "utilisateur"} && "uid" !in {"authentifiee", "utilisateur"}
    ensures "webauthn" != "cli" && "automatique" != "cli"
  {
    assert "hote"[0] == 'h' && "uid"[0] == 'u' && "authentifiee"[0] == 'a' && "utilisateur"[0] == 'u';
    assert "uid"[1] == 'i' && "utilisateur"[1] == 't';
    assert "webauthn"[0] == 'w' && "automatique"[0] == 'a' && "cli"[0] == 'c';
  }

  /** Whatever else is written with it: an event counts as a decision of the command line
      exactly when that is its way, and then the reader is shown who decided what and why, as
      he declared, and the host and user number the system told. */
  lemma ShownAsWritten(n: nat, time: string, event: string, data: Data, via: Via, said: Said)
    requires event != REVIEW_EVENT && Says(data, said)
    ensures var r := Record(n, time, event, Some(Annotated(data, via)));
            && (Decides(r) <==> via.Cli?)
            && (via.Cli? ==>
                  DecisionOf(r, r.data.value)
                  == CliDecision(n, time, event, said.operator, said.comment, said.subject, via.identity.host,
                                 via.identity.uid))
  {
    KeysDiffer();
    IdentityKeysDiffer();
    var written := Annotated(data, via);
    forall key | key in {"operateur", "commentaire", "transaction", "serie"}
      ensures FieldText(written, key) == FieldText(data, key)
    {
    }
  }

  /** The decision is in the review that comes next, or in one that was acknowledged. */
  ghost predicate Shown(at: Clock, st: State, d: CliDecision)
  {
    || (ReviewOf(st.records, None, at).Ok? && d in ReviewOf(st.records, None, at).value.decisions)
    || exists i | 0 <= i < |st.read| :: i in st.acknowledged && d in st.read[i].review.decisions
  }

  /** So, as long as each acknowledged review was read without a date, each decision written on
      the command line is shown as it was written, next or in a review that was acknowledged. */
  lemma WrittenIsShown(at: Clock, steps: seq<Step>, st: State, n: nat, time: string, event: string, data: Data,
                       identity: SystemIdentity, said: Said)
    requires Reaches(at, steps, st, false) && WholeOnly(st)
    requires event != REVIEW_EVENT && Says(data, said)
    requires Record(n, time, event, Some(Annotated(data, Cli(identity)))) in st.records
    ensures Shown(at, st, CliDecision(n, time, event, said.operator, said.comment, said.subject, identity.host,
                                      identity.uid))
  {
    NothingEscapes(at, steps, st);
    ShownAsWritten(n, time, event, data, Cli(identity), said);
    var r := Record(n, time, event, Some(Annotated(data, Cli(identity))));
    assert Decides(r);
    if Reviewed(st, r) {
      var i :| 0 <= i < |st.read| && i in st.acknowledged && Listed(st.read[i].review, r);
    }
  }

  // ---- What a review says ----

  /** The record of a review, and none after it. */
  ghost predicate LastReview(records: seq<Record>, i: nat)
  {
    && i < |records| && records[i].event == "ra.cli_decisions_reviewed"
    && forall j | i < j < |records| :: records[j].event != "ra.cli_decisions_reviewed"
  }

  lemma {:induction false} ReachIs(records: seq<Record>)
    ensures (forall r | r in records :: r.event != "ra.cli_decisions_reviewed") ==> AcknowledgedUpTo(records) == 0
    ensures forall i: nat | LastReview(records, i) :: AcknowledgedUpTo(records) == Covers(records[i])
    decreases |records|
  {
    if records != [] {
      var front := Front(records);
      ReachIs(front);
      SplitLast(records);
      forall i: nat | LastReview(records, i)
        ensures AcknowledgedUpTo(records) == Covers(records[i])
      {
        if i < |front| {
          assert LastReview(front, i);
        }
      }
    }
  }

  /** A review lists its decisions in the order of the journal, once each; it says how far the
      last review on record reached, and how far it reaches itself: to the last record. */
  lemma ReviewSays(records: seq<Record>, since: Option<int>, at: Clock)
    requires Numbered(records) && ReviewOf(records, since, at).Ok?
    ensures var review := ReviewOf(records, since, at).value;
            && review.head == |records|
            && (forall i: nat | LastReview(records, i) :: review.acknowledgedUpTo == Covers(records[i]))
            && (forall i, j | 0 <= i < j < |review.decisions| :: review.decisions[i].seqNo < review.decisions[j].seqNo)
  {
    ReachIs(records);
    ListedInOrder(records, since, AcknowledgedUpTo(records), at);
  }

  lemma {:induction false} ListedInOrder(records: seq<Record>, since: Option<int>, upTo: nat, at: Clock)
    requires Numbered(records) && DecisionsIn(records, since, upTo, at).Ok?
    ensures var ds := DecisionsIn(records, since, upTo, at).value;
            && (forall i, j | 0 <= i < j < |ds| :: ds[i].seqNo < ds[j].seqNo)
            && (forall d | d in ds :: d.seqNo <= |records|)
    decreases |records|
  {
    if records != [] {
      ListedInOrder(Front(records), since, upTo, at);
    }
  }

  /** The record an acknowledgement writes: who read, how far, from where, and how many. */
  lemma AcknowledgementSays(review: Review, reader: string, comment: string)
    ensures var said := Acknowledgement(review, reader, comment);
            && FieldText(said, "relecteur") == Some(reader) && FieldText(said, "commentaire") == Some(comment)
            && FieldNumber(said, "jusqu_a") == Some(review.head)
            && FieldNumber(said, "depuis") == Some(review.acknowledgedUpTo)
            && FieldNumber(said, "decisions") == Some(|review.decisions|)
  {
    assert "relecteur"[0] == 'r' && "commentaire"[0] == 'c' && "jusqu_a"[0] == 'j' && "authenticated_via"[0] == 'a';
    assert "depuis"[2] == 'p' && "decisions"[2] == 'c';
  }
}
