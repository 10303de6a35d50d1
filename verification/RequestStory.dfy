/** What becomes of an enrolment request, told of the calls that were accepted: the last one
    on its identifier says what it is, and earlier ones decide every answer. */
module RequestStory {
  import opened Basics
  import opened RequestStore

  ghost predicate Accepted(ops: seq<Op>, i: nat)
  {
    i < |ops| && OnMemory(MemoryRun(ops[..i]), ops[i]).Ok?
  }

  ghost predicate LastAccepted(ops: seq<Op>, id: string, i: nat)
  {
    && Accepted(ops, i) && ops[i].r.id == id
    && forall j: nat | i < j && Accepted(ops, j) :: ops[j].r.id != id
  }

  /** Some request was created under this identifier, or for this CSR. */
  ghost predicate IdTaken(ops: seq<Op>, id: string)
  {
    exists i: nat :: Accepted(ops, i) && ops[i].CreateOp? && ops[i].r.id == id
  }

  ghost predicate CsrTaken(ops: seq<Op>, fingerprint: string)
  {
    exists i: nat :: Accepted(ops, i) && ops[i].CreateOp? && ops[i].r.fingerprint == fingerprint
  }

  lemma AcceptedOn(ops: seq<Op>, op: Op, i: nat)
    ensures i < |ops| ==> (Accepted(ops + [op], i) <==> Accepted(ops, i)) && (ops + [op])[i] == ops[i]
    ensures Accepted(ops + [op], |ops|) <==> OnMemory(MemoryRun(ops), op).Ok?
  {
    if i < |ops| {
      assert (ops + [op])[..i] == ops[..i];
    }
    assert (ops + [op])[..|ops|] == ops;
  }

  lemma RunOn(ops: seq<Op>, op: Op)
    ensures var m := MemoryRun(ops);
            MemoryRun(ops + [op]) == if OnMemory(m, op).Ok? then OnMemory(m, op).value else m
  {
    assert (ops + [op])[..|ops|] == ops;
  }

  lemma TakenOn(ops: seq<Op>, op: Op, id: string, fingerprint: string)
    ensures IdTaken(ops + [op], id) <==>
            IdTaken(ops, id) || (OnMemory(MemoryRun(ops), op).Ok? && op.CreateOp? && op.r.id == id)
    ensures CsrTaken(ops + [op], fingerprint) <==>
            CsrTaken(ops, fingerprint) || (OnMemory(MemoryRun(ops), op).Ok? && op.CreateOp?
                                           && op.r.fingerprint == fingerprint)
  {
    forall i: nat {
      AcceptedOn(ops, op, i);
    }
    assert (ops + [op])[|ops|] == op;
  }

  /** The index and the requests hold what was created, and nothing else. */
  lemma {:induction false} CreatedAre(ops: seq<Op>, id: string, fingerprint: string)
    ensures id in MemoryRun(ops).requests <==> IdTaken(ops, id)
    ensures fingerprint in MemoryRun(ops).byFingerprint <==> CsrTaken(ops, fingerprint)
    decreases |ops|
  {
    if ops != [] {
      CreatedAre(Front(ops), id, fingerprint);
      SplitLast(ops);
      TakenOn(Front(ops), Last(ops), id, fingerprint);
      RunOn(Front(ops), Last(ops));
    }
  }

  ghost predicate Holds(ops: seq<Op>, m: Memory, id: string)
  {
    && (ById(m, id).Some? <==> exists i: nat :: LastAccepted(ops, id, i))
    && (forall i: nat | LastAccepted(ops, id, i) :: ById(m, id) == Some(ops[i].r))
  }

  lemma LastOn(ops: seq<Op>, op: Op, id: string, i: nat)
    ensures LastAccepted(ops + [op], id, i) <==>
            if OnMemory(MemoryRun(ops), op).Ok? && op.r.id == id then i == |ops| else LastAccepted(ops, id, i)
  {
    AcceptedOn(ops, op, |ops|);
    assert (ops + [op])[|ops|] == op;
    forall j: nat {
      AcceptedOn(ops, op, j);
    }
  }

  lemma HoldsOn(ops: seq<Op>, op: Op, id: string)
    requires Holds(ops, MemoryRun(ops), id)
    ensures Holds(ops + [op], MemoryRun(ops + [op]), id)
  {
    RunOn(ops, op);
    forall i: nat {
      LastOn(ops, op, id, i);
    }
    assert (ops + [op])[|ops|] == op;
    if OnMemory(MemoryRun(ops), op).Ok? && op.r.id == id {
      assert LastAccepted(ops + [op], id, |ops|);
    } else if i: nat :| LastAccepted(ops, id, i) {
      assert LastAccepted(ops + [op], id, i);
    }
    forall i: nat | LastAccepted(ops + [op], id, i)
      ensures ById(MemoryRun(ops + [op]), id) == Some((ops + [op])[i].r)
    {
      if i < |ops| {
        assert (ops + [op])[i] == ops[i];
      }
    }
  }

  /** After any calls, a request is what the last accepted call on it said. */
  lemma {:induction false} RequestIs(ops: seq<Op>, id: string)
    ensures Holds(ops, MemoryRun(ops), id)
    decreases |ops|
  {
    if ops != [] {
      RequestIs(Front(ops), id);
      SplitLast(ops);
      HoldsOn(Front(ops), Last(ops), id);
    }
  }

  /** A request is accepted exactly when neither its identifier nor its CSR was ever used; a
      decision exactly when the request was created and is in the state it was read in. Each
      refusal says which of these it lacks. */
  lemma AnswersTell(ops: seq<Op>, op: Op)
    ensures op.CreateOp? ==>
              if IdTaken(ops, op.r.id) || CsrTaken(ops, op.r.fingerprint)
              then OnMemory(MemoryRun(ops), op) == Err(Conflict) else OnMemory(MemoryRun(ops), op).Ok?
    ensures op.UpdateOp? && !IdTaken(ops, op.r.id) ==> OnMemory(MemoryRun(ops), op) == Err(NotFound)
    ensures op.UpdateOp? ==>
              forall i: nat | LastAccepted(ops, op.r.id, i) ::
                if ops[i].r.state == op.expected then OnMemory(MemoryRun(ops), op).Ok?
                else OnMemory(MemoryRun(ops), op) == Err(Conflict)
  {
    CreatedAre(ops, op.r.id, op.r.fingerprint);
    RequestIs(ops, op.r.id);
  }
}
