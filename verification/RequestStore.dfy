/** Enrolment requests in the two stores: created once per CSR, moved from state to state by
    compare-and-swap. The table also refuses a decision nobody answers for. */
module RequestStore {
  import opened Basics
  import Hex

  datatype RequestState = Pending | Approved | Issued | Rejected

  datatype Request = Request(id: string, fingerprint: string, csr: Bytes, profile: string, subject: string,
                             state: RequestState, createdAt: int, decidedAt: Option<int>, operator: string,
                             comment: string, issuedAt: Option<int>, serial: Option<Bytes>, requester: string)

  datatype Error = NotFound | Conflict | Refused

  // ---- In memory ----

  datatype Memory = Memory(requests: map<string, Request>, byFingerprint: map<string, string>)

  function Create(m: Memory, r: Request): Result<Memory, Error>
  {
    if r.fingerprint in m.byFingerprint || r.id in m.requests then Err(Conflict)
    else Ok(Memory(m.requests[r.id := r], m.byFingerprint[r.fingerprint := r.id]))
  }

  function Update(m: Memory, r: Request, expected: RequestState): Result<Memory, Error>
  {
    if r.id !in m.requests then Err(NotFound)
    else if m.requests[r.id].state != expected then Err(Conflict)
    else Ok(m.(requests := m.requests[r.id := r]))
  }

  function ById(m: Memory, id: string): Option<Request>
  {
    if id in m.requests then Some(m.requests[id]) else None
  }

  function ByFingerprint(m: Memory, fingerprint: string): Option<Request>
  {
    if fingerprint in m.byFingerprint then ById(m, m.byFingerprint[fingerprint]) else None
  }

  // ---- Over a table ----

  datatype Row = Row(fingerprint: string, csr: Bytes, profile: string, subject: string, state: RequestState,
                     createdAt: int,
                     decidedAt: Option<int>, operator: string, comment: string, issuedAt: Option<int>,
                     serialHex: Option<string>, requester: string)

  type Table = map<string, Row>

  /** The table's constraint `decision_imputable`. */
  predicate Imputable(r: Row)
  {
    r.state == Pending || (r.operator != "" && r.decidedAt.Some?)
  }

  predicate Known(t: Table, fingerprint: string)
  {
    exists id | id in t :: t[id].fingerprint == fingerprint
  }

  /** The row an insertion writes: the columns of a decision take their defaults. */
  function Inserted(r: Request): Row
  {
    Row(r.fingerprint, r.csr, r.profile, r.subject, r.state, r.createdAt, None, "", "", None, None, r.requester)
  }

  function Insert(t: Table, r: Request): Result<Table, Error>
  {
    if !Imputable(Inserted(r)) then Err(Refused)
    else if r.id in t || Known(t, r.fingerprint) then Err(Conflict)
    else Ok(t[r.id := Inserted(r)])
  }

  /** The row an update writes: only the columns of a decision. */
  function Decided(row: Row, r: Request): Row
  {
    row.(state := r.state, decidedAt := r.decidedAt, operator := r.operator, comment := r.comment,
         issuedAt := r.issuedAt,
         serialHex := if r.serial.Some? then Some(Hex.Encode(r.serial.value)) else None)
  }

  function UpdateWhere(t: Table, r: Request, expected: RequestState): Result<Table, Error>
  {
    if r.id in t && t[r.id].state == expected then
      (if Imputable(Decided(t[r.id], r)) then Ok(t[r.id := Decided(t[r.id], r)]) else Err(Refused))
    else if r.id in t then Err(Conflict)
    else Err(NotFound)
  }

  /** An empty serial column reads as none. */
  function FromRow(id: string, r: Row): Option<Request>
  {
    if r.serialHex.Some? && r.serialHex.value != "" && Hex.Decode(r.serialHex.value).None? then None
    else Some(Request(id, r.fingerprint, r.csr, r.profile, r.subject, r.state, r.createdAt, r.decidedAt, r.operator,
                      r.comment,
                      r.issuedAt,
                      if r.serialHex.Some? && r.serialHex.value != "" then Some(Hex.Decode(r.serialHex.value).value)
                        else None,
                      r.requester))
  }

  class MemoryRequests {
    var requests: map<string, Request>
    var byFingerprint: map<string, string>

    function Contents(): Memory
      reads this
    {
      Memory(requests, byFingerprint)
    }

    constructor ()
      ensures Contents() == Memory(map[], map[])
    {
      requests, byFingerprint := map[], map[];
    }

    method CreateRequest(r: Request) returns (e: Option<Error>)
      modifies this
      ensures var want := Create(old(Contents()), r);
              if want.Ok? then e == None && Contents() == want.value
                else e == Some(want.error) && Contents() == old(Contents())
    {
      if r.fingerprint in byFingerprint || r.id in requests {
        return Some(Conflict);
      }
      byFingerprint := byFingerprint[r.fingerprint := r.id];
      requests := requests[r.id := r];
      e := None;
    }

    method UpdateRequest(r: Request, expected: RequestState) returns (e: Option<Error>)
      modifies this
      ensures var want := Update(old(Contents()), r, expected);
              if want.Ok? then e == None && Contents() == want.value
                else e == Some(want.error) && Contents() == old(Contents())
    {
      if r.id !in requests {
        return Some(NotFound);
      }
      if requests[r.id].state != expected {
        return Some(Conflict);
      }
      requests := requests[r.id := r];
      e := None;
    }
  }

  class TableRequests {
    var rows: Table

    constructor ()
      ensures rows == map[]
    {
      rows := map[];
    }

    method CreateRequest(r: Request) returns (e: Option<Error>)
      modifies this
      ensures var want := Insert(old(rows), r);
              if want.Ok? then e == None && rows == want.value else e == Some(want.error) && rows == old(rows)
    {
      var row := Inserted(r);
      if !Imputable(row) {
        return Some(Refused);
      }
      if r.id in rows || Known(rows, r.fingerprint) {
        return Some(Conflict);
      }
      rows := rows[r.id := row];
      e := None;
    }

    method UpdateRequest(r: Request, expected: RequestState) returns (e: Option<Error>)
      modifies this
      ensures var want := UpdateWhere(old(rows), r, expected);
              if want.Ok? then e == None && rows == want.value else e == Some(want.error) && rows == old(rows)
    {
      var affected := 0;
      if r.id in rows && rows[r.id].state == expected {
        var row := Decided(rows[r.id], r);
        if !Imputable(row) {
          return Some(Refused);
        }
        rows := rows[r.id := row];
        affected := 1;
      }
      e := if affected == 1 then None else if r.id in rows then Some(Conflict) else Some(NotFound);
    }
  }

  // ---- Agreement ----

  /** Each row reads as the request held in memory, and the index is that of the rows. */
  ghost predicate Same(m: Memory, t: Table)
  {
    && m.requests.Keys == t.Keys
    && (forall id | id in t :: FromRow(id, t[id]) == Some(m.requests[id]) && m.requests[id].id == id)
    && (forall f | f in m.byFingerprint :: m.byFingerprint[f] in t && t[m.byFingerprint[f]].fingerprint == f)
    && (forall id | id in t :: t[id].fingerprint in m.byFingerprint && m.byFingerprint[t[id].fingerprint] == id)
  }

  /** A request as it is first submitted. */
  predicate Bare(r: Request)
  {
    r.decidedAt.None? && r.operator == "" && r.comment == "" && r.issuedAt.None? && r.serial.None?
  }

  lemma InsertedReads(r: Request)
    ensures FromRow(r.id, Inserted(r)) == Some(r) <==> Bare(r)
  {
  }

  /** Creating a request answers alike when it is pending, and leaves the stores alike exactly
      when it carries nothing of a decision yet. */
  lemma CreateAgreesIff(m: Memory, t: Table, r: Request)
    requires Same(m, t)
    ensures var a, b := Create(m, r), Insert(t, r);
            && (r.state == Pending ==> (a.Ok? <==> b.Ok?) && (a.Err? ==> b == Err(a.error)))
            && (r.state != Pending ==> b == Err(Refused))
            && (a.Ok? && b.Ok? ==> (Same(a.value, b.value) <==> Bare(r)))
  {
    InsertedReads(r);
    if r.fingerprint in m.byFingerprint {
      assert Known(t, r.fingerprint);
    } else if Create(m, r).Ok? && Insert(t, r).Ok? {
      CreatedIsSameIff(m, t, r, Create(m, r).value, Insert(t, r).value);
    }
  }

  lemma CreatedIsSameIff(m: Memory, t: Table, r: Request, m': Memory, t': Table)
    requires Same(m, t) && r.fingerprint !in m.byFingerprint && r.id !in t
    requires m' == Memory(m.requests[r.id := r], m.byFingerprint[r.fingerprint := r.id]) && t' == t[r.id := Inserted(r)]
    ensures Same(m', t') <==> Bare(r)
  {
    InsertedReads(r);
    assert r.id in t' && m'.requests[r.id] == r;
  }

  /** What a decision may not change. */
  predicate SameOrigin(r: Request, s: Request)
  {
    && r.id == s.id && r.fingerprint == s.fingerprint && r.csr == s.csr && r.profile == s.profile
       && r.subject == s.subject
    && r.createdAt == s.createdAt && r.requester == s.requester
  }

  predicate Answered(r: Request)
  {
    r.state == Pending || (r.operator != "" && r.decidedAt.Some?)
  }

  lemma DecidedReads(id: string, row: Row, was: Request, r: Request)
    requires FromRow(id, row) == Some(was) && r.id == id
    ensures FromRow(id, Decided(row, r)) == Some(r) <==> SameOrigin(r, was) && r.serial != Some([])
  {
    if r.serial.Some? {
      Hex.RoundTrip(r.serial.value);
      assert Hex.Encode(r.serial.value) == "" <==> r.serial.value == [];
    }
  }

  /** Deciding a request answers alike when someone answers for the decision, and otherwise
      the table refuses; it leaves the stores alike exactly when the decision changes nothing
      of the request's origin and names no empty serial. */
  lemma UpdateAgreesIff(m: Memory, t: Table, r: Request, expected: RequestState)
    requires Same(m, t)
    ensures var a, b := Update(m, r, expected), UpdateWhere(t, r, expected);
            && (a.Err? ==> b == Err(a.error))
            && (a.Ok? ==> if Answered(r) then b.Ok? else b == Err(Refused))
            && (a.Ok? && b.Ok? ==> (Same(a.value, b.value) <==>
                                    SameOrigin(r, m.requests[r.id]) && r.serial != Some([])))
  {
    var a, b := Update(m, r, expected), UpdateWhere(t, r, expected);
    if a.Ok? && b.Ok? {
      DecidedIsSameIff(m, t, r, a.value, b.value);
    }
  }

  lemma DecidedIsSameIff(m: Memory, t: Table, r: Request, m': Memory, t': Table)
    requires Same(m, t) && r.id in t && m' == m.(requests := m.requests[r.id := r])
    requires t' == t[r.id := Decided(t[r.id], r)]
    ensures Same(m', t') <==> SameOrigin(r, m.requests[r.id]) && r.serial != Some([])
  {
    DecidedReads(r.id, t[r.id], m.requests[r.id], r);
    assert r.id in t' && m'.requests[r.id] == r;
  }

  /** Both stores find the same request by its identifier and by its fingerprint. */
  lemma LookupsAgree(m: Memory, t: Table, id: string, fingerprint: string)
    requires Same(m, t)
    ensures ById(m, id) == if id in t then FromRow(id, t[id]) else None
    ensures ByFingerprint(m, fingerprint).Some? <==> Known(t, fingerprint)
    ensures forall k | k in t && t[k].fingerprint == fingerprint :: ByFingerprint(m, fingerprint) == FromRow(k, t[k])
  {
    if fingerprint in m.byFingerprint {
      assert Known(t, fingerprint);
    }
  }

  // ---- Runs ----

  datatype Op = CreateOp(r: Request) | UpdateOp(r: Request, expected: RequestState)

  /** As the enrolment flow calls: requests are created bare and pending; a decision keeps the
      origin of the request it read, moves it on, and is answered for. */
  predicate Proper(m: Memory, op: Op)
  {
    match op
    case CreateOp(r) => r.state == Pending && Bare(r)
    case UpdateOp(r, expected) =>
      && r.state != expected && Answered(r) && r.serial != Some([])
      && (r.id in m.requests ==> SameOrigin(r, m.requests[r.id]))
  }

  function OnMemory(m: Memory, op: Op): Result<Memory, Error>
  {
    match op
    case CreateOp(r) => Create(m, r)
    case UpdateOp(r, expected) => Update(m, r, expected)
  }

  function OnTable(t: Table, op: Op): Result<Table, Error>
  {
    match op
    case CreateOp(r) => Insert(t, r)
    case UpdateOp(r, expected) => UpdateWhere(t, r, expected)
  }

  function MemoryRun(ops: seq<Op>): Memory
  {
    if ops == [] then Memory(map[], map[])
    else
      var before := MemoryRun(ops[..|ops| - 1]);
      if OnMemory(before, ops[|ops| - 1]).Ok? then OnMemory(before, ops[|ops| - 1]).value else before
  }

  function TableRun(ops: seq<Op>): Table
  {
    if ops == [] then map[]
    else
      var before := TableRun(ops[..|ops| - 1]);
      if OnTable(before, ops[|ops| - 1]).Ok? then OnTable(before, ops[|ops| - 1]).value else before
  }

  ghost predicate AllProper(ops: seq<Op>)
  {
    forall i | 0 <= i < |ops| :: Proper(MemoryRun(ops[..i]), ops[i])
  }

  lemma OpAgrees(m: Memory, t: Table, op: Op)
    requires Same(m, t) && Proper(m, op)
    ensures OnMemory(m, op).Ok? <==> OnTable(t, op).Ok?
    ensures OnMemory(m, op).Err? ==> OnTable(t, op) == Err(OnMemory(m, op).error)
    ensures OnMemory(m, op).Ok? ==> Same(OnMemory(m, op).value, OnTable(t, op).value)
  {
    match op
    case CreateOp(r) => CreateAgreesIff(m, t, r);
    case UpdateOp(r, expected) => UpdateAgreesIff(m, t, r, expected);
  }

  lemma {:induction false} RunsAgree(ops: seq<Op>)
    requires AllProper(ops)
    ensures Same(MemoryRun(ops), TableRun(ops))
  {
    if ops != [] {
      var before := ops[..|ops| - 1];
      forall i | 0 <= i < |before|
        ensures Proper(MemoryRun(before[..i]), before[i])
      {
        assert before[..i] == ops[..i];
      }
      RunsAgree(before);
      OpAgrees(MemoryRun(before), TableRun(before), ops[|ops| - 1]);
    }
  }

  /** After any proper calls the stores hold the same requests, find them alike by identifier
      and by fingerprint, and answer the next call alike. */
  lemma CallersCannotTell(ops: seq<Op>, op: Op, id: string, fingerprint: string)
    requires AllProper(ops) && Proper(MemoryRun(ops), op)
    ensures Same(MemoryRun(ops), TableRun(ops))
    ensures ById(MemoryRun(ops), id) == if id in TableRun(ops) then FromRow(id, TableRun(ops)[id]) else None
    ensures ByFingerprint(MemoryRun(ops), fingerprint).Some? <==> Known(TableRun(ops), fingerprint)
    ensures forall k | k in TableRun(ops) && TableRun(ops)[k].fingerprint == fingerprint ::
              ByFingerprint(MemoryRun(ops), fingerprint) == FromRow(k, TableRun(ops)[k])
    ensures OnMemory(MemoryRun(ops), op).Ok? <==> OnTable(TableRun(ops), op).Ok?
    ensures OnMemory(MemoryRun(ops), op).Err? ==> OnTable(TableRun(ops), op) == Err(OnMemory(MemoryRun(ops), op).error)
  {
    RunsAgree(ops);
    OpAgrees(MemoryRun(ops), TableRun(ops), op);
    LookupsAgree(MemoryRun(ops), TableRun(ops), id, fingerprint);
  }

  /** Of two decisions taken on the same reading of a request, the second is a conflict in both
      stores, whatever calls came before. */
  lemma OneDecisionWins(ops: seq<Op>, first: Request, second: Request, expected: RequestState)
    requires AllProper(ops) && Proper(MemoryRun(ops), UpdateOp(first, expected)) && first.id == second.id
    requires OnMemory(MemoryRun(ops), UpdateOp(first, expected)).Ok?
    ensures var after := ops + [UpdateOp(first, expected)];
            && OnMemory(MemoryRun(after), UpdateOp(second, expected)) == Err(Conflict)
            && OnTable(TableRun(after), UpdateOp(second, expected)) == Err(Conflict)
  {
    var op := UpdateOp(first, expected);
    assert (ops + [op])[..|ops + [op]| - 1] == ops;
    RunsAgree(ops);
    OpAgrees(MemoryRun(ops), TableRun(ops), op);
  }
}
