/** The certificate store, twice: the in-memory one, keyed by hexadecimal serial, and the
    one over tables with conditional updates. The second must behave like the first. */
module CertStore {
  import opened Basics
  import opened Order
  import opened Hex

  datatype Status = Reserved | Issued | Revoked

  datatype Certificate = Certificate(serial: Bytes, profile: string, subject: string, issuer: string,
                                     notBefore: int, notAfter: int, der: Bytes, status: Status,
                                     revokedAt: Option<int>, reason: int, transaction: string)

  datatype StoreError = NotFound | Conflict | SerialTaken | Unreadable

  // ---- In memory ----

  type Book = map<string, Certificate>

  function Reservation(serial: Bytes, profile: string): Certificate
  {
    Certificate(serial, profile, "", "", 0, 0, [], Reserved, None, 0, "")
  }

  function Reserve(m: Book, serial: Bytes, profile: string): Result<Book, StoreError>
  {
    if Encode(serial) in m then Err(SerialTaken) else Ok(m[Encode(serial) := Reservation(serial, profile)])
  }

  function Save(m: Book, c: Certificate): Result<Book, StoreError>
  {
    if Encode(c.serial) !in m then Err(NotFound)
    else if m[Encode(c.serial)].status != Reserved then Err(Conflict)
    else Ok(m[Encode(c.serial) := c])
  }

  /** The first revocation stands. */
  function Revoke(m: Book, serial: Bytes, at: int, reason: int): Result<Book, StoreError>
  {
    var key := Encode(serial);
    if key !in m || m[key].status == Reserved then Err(NotFound)
    else if m[key].status == Revoked then Ok(m)
    else Ok(m[key := m[key].(status := Revoked, revokedAt := Some(at), reason := reason)])
  }

  /** A reserved serial is not seen. */
  function Lookup(m: Book, serial: Bytes): Result<Certificate, StoreError>
  {
    if Encode(serial) in m && m[Encode(serial)].status != Reserved then Ok(m[Encode(serial)]) else Err(NotFound)
  }

  datatype Filter = OnlyRevoked | EverIssued | ActiveFor(subject: string, now: int)

  predicate Passes(f: Filter, c: Certificate)
  {
    match f
    case OnlyRevoked => c.status == Revoked
    case EverIssued => c.status != Reserved
    case ActiveFor(subject, now) => c.status == Issued && c.subject == subject && now < c.notAfter
  }

  /** The rows that pass, in the order of `keys`. */
  function Collect(m: Book, keys: seq<string>, f: Filter): seq<Certificate>
    requires forall k | k in keys :: k in m
  {
    if keys == [] then []
    else
      var n := |keys| - 1;
      Collect(m, keys[..n], f) + (if Passes(f, m[keys[n]]) then [m[keys[n]]] else [])
  }

  function Insert(c: Certificate, sorted: seq<Certificate>): seq<Certificate>
  {
    if sorted != [] && !BytesLeq(sorted[|sorted| - 1].serial, c.serial)
    then Insert(c, sorted[..|sorted| - 1]) + [sorted[|sorted| - 1]] else sorted + [c]
  }

  /** Stable sort by serial. */
  function SortBySerial(cs: seq<Certificate>): seq<Certificate>
  {
    if cs == [] then [] else Insert(cs[|cs| - 1], SortBySerial(cs[..|cs| - 1]))
  }

  function List(m: Book, f: Filter): seq<Certificate>
  {
    SortBySerial(Collect(m, Ascending(m.Keys), f))
  }

  class Memory {
    var certificates: Book

    constructor ()
      ensures certificates == map[]
    {
      certificates := map[];
    }

    method ReserveSerial(serial: Bytes, profile: string) returns (r: Option<StoreError>)
      modifies this
      ensures var want := Reserve(old(certificates), serial, profile);
              if want.Ok? then r == None && certificates == want.value
              else r == Some(want.error) && certificates == old(certificates)
    {
      var key := Encode(serial);
      if key in certificates {
        return Some(SerialTaken);
      }
      certificates := certificates[key := Certificate(serial, profile, "", "", 0, 0, [], Reserved, None, 0, "")];
      r := None;
    }

    method SaveCertificate(c: Certificate) returns (r: Option<StoreError>)
      modifies this
      ensures var want := Save(old(certificates), c);
              if want.Ok? then r == None && certificates == want.value
              else r == Some(want.error) && certificates == old(certificates)
    {
      var key := Encode(c.serial);
      if key !in certificates {
        return Some(NotFound);
      }
      if certificates[key].status != Reserved {
        return Some(Conflict);
      }
      certificates := certificates[key := c];
      r := None;
    }

    method RevokeCertificate(serial: Bytes, at: int, reason: int) returns (r: Option<StoreError>)
      modifies this
      ensures var want := Revoke(old(certificates), serial, at, reason);
              if want.Ok? then r == None && certificates == want.value
              else r == Some(want.error) && certificates == old(certificates)
    {
      var key := Encode(serial);
      if key !in certificates {
        return Some(NotFound);
      }
      var c := certificates[key];
      if c.status == Reserved {
        return Some(NotFound);
      }
      if c.status == Revoked {
        return None;
      }
      certificates := certificates[key := c.(status := Revoked, revokedAt := Some(at), reason := reason)];
      r := None;
    }

    method Select(f: Filter) returns (out: seq<Certificate>)
      ensures out == List(certificates, f)
    {
      var keys := Ascending(certificates.Keys);
      out := [];
      for i := 0 to |keys|
        invariant forall k | k in keys[..i] :: k in certificates
        invariant out == Collect(certificates, keys[..i], f)
      {
        assert keys[..i + 1][..i] == keys[..i] && keys[i] in keys;
        var c := certificates[keys[i]];
        if Passes(f, c) {
          out := out + [c];
        }
      }
      assert keys[..|keys|] == keys;
      out := SortBySerial(out);
    }
  }

  // ---- Over tables ----

  /** A row; the columns a reservation does not fill may be null. */
  datatype Row = Row(profile: string, subject: string, issuer: string, notBefore: Option<int>, notAfter: Option<int>,
                     der: Option<Bytes>, status: string, revokedAt: Option<int>, reason: int, transaction: string)

  type Table = map<string, Row>

  function StatusText(s: Status): string
  {
    match s
    case Reserved => "reserved"
    case Issued => "issued"
    case Revoked => "revoked"
  }

  function StatusOf(s: string): Option<Status>
  {
    if s == "reserved" then Some(Reserved)
    else if s == "issued" then Some(Issued)
    else if s == "revoked" then Some(Revoked)
    else None
  }

  lemma StatusRoundTrip(s: Status, t: string)
    ensures StatusOf(StatusText(s)) == Some(s)
    ensures StatusOf(t).Some? ==> StatusText(StatusOf(t).value) == t
  {
    assert StatusText(Reserved)[2] == 's' && StatusText(Revoked)[2] == 'v' && StatusText(Issued)[2] == 's';
    assert StatusText(Reserved)[0] == 'r' && StatusText(Issued)[0] == 'i';
  }

  function Or<T>(o: Option<T>, default: T): T
  {
    if o.Some? then o.value else default
  }

  function FromRow(key: string, r: Row): Result<Certificate, StoreError>
  {
    if Decode(key).None? || StatusOf(r.status).None? then Err(Unreadable)
    else Ok(Certificate(Decode(key).value, r.profile, r.subject, r.issuer, Or(r.notBefore, 0), Or(r.notAfter, 0),
                        Or(r.der, []),
                        StatusOf(r.status).value, r.revokedAt, r.reason, r.transaction))
  }

  function InsertReserved(t: Table, serial: Bytes, profile: string): Result<Table, StoreError>
  {
    if Encode(serial) in t then Err(SerialTaken)
    else Ok(t[Encode(serial) := Row(profile, "", "", None, None, None, "reserved", None, 0, "")])
  }

  /** What the row becomes; the revocation columns are not written. */
  function Completed(r: Row, c: Certificate): Row
  {
    Row(c.profile, c.subject, c.issuer, Some(c.notBefore), Some(c.notAfter), Some(c.der), StatusText(c.status),
        r.revokedAt, r.reason, c.transaction)
  }

  function UpdateReserved(t: Table, c: Certificate): Result<Table, StoreError>
  {
    if Encode(c.serial) in t && t[Encode(c.serial)].status == "reserved"
    then Ok(t[Encode(c.serial) := Completed(t[Encode(c.serial)], c)]) else Err(Conflict)
  }

  function UpdateIssued(t: Table, serial: Bytes, at: int, reason: int): Result<Table, StoreError>
  {
    var key := Encode(serial);
    if key in t && t[key].status == "issued" then Ok(t[key := t[key].(status := "revoked", revokedAt := Some(at),
                                                                      reason := reason)])
    else if key !in t || t[key].status == "reserved" then Err(NotFound)
    else Ok(t)
  }

  function SelectRow(t: Table, serial: Bytes): Result<Certificate, StoreError>
  {
    if Encode(serial) in t && t[Encode(serial)].status != "reserved" then FromRow(Encode(serial), t[Encode(serial)])
    else Err(NotFound)
  }

  /** The WHERE clause; comparing a null date selects nothing. */
  predicate Where(f: Filter, r: Row)
  {
    match f
    case OnlyRevoked => r.status == "revoked"
    case EverIssued => r.status != "reserved"
    case ActiveFor(subject, now) =>
      r.status == "issued" && r.subject == subject && r.notAfter.Some? && r.notAfter.value > now
  }

  /** The rows that pass, in the order of `keys`; one unreadable row fails the call. */
  function Rows(t: Table, keys: seq<string>, f: Filter): Result<seq<Certificate>, StoreError>
    requires forall k | k in keys :: k in t
  {
    if keys == [] then Ok([])
    else
      var n := |keys| - 1;
      var before := Rows(t, keys[..n], f);
      if before.Err? || !Where(f, t[keys[n]]) then before
      else if FromRow(keys[n], t[keys[n]]).Err? then Err(Unreadable)
      else Ok(before.value + [FromRow(keys[n], t[keys[n]]).value])
  }

  /** ORDER BY the key. */
  function SelectRows(t: Table, f: Filter): Result<seq<Certificate>, StoreError>
  {
    Rows(t, Ascending(t.Keys), f)
  }

  class Postgres {
    var rows: Table

    constructor ()
      ensures rows == map[]
    {
      rows := map[];
    }

    method ReserveSerial(serial: Bytes, profile: string) returns (r: Option<StoreError>)
      modifies this
      ensures var want := InsertReserved(old(rows), serial, profile);
              if want.Ok? then r == None && rows == want.value else r == Some(want.error) && rows == old(rows)
    {
      if Encode(serial) in rows {
        return Some(SerialTaken);
      }
      rows := rows[Encode(serial) := Row(profile, "", "", None, None, None, "reserved", None, 0, "")];
      r := None;
    }

    method SaveCertificate(c: Certificate) returns (r: Option<StoreError>)
      modifies this
      ensures var want := UpdateReserved(old(rows), c);
              if want.Ok? then r == None && rows == want.value else r == Some(want.error) && rows == old(rows)
    {
      var key, affected := Encode(c.serial), 0;
      if key in rows && rows[key].status == "reserved" {
        rows := rows[key := rows[key].(profile := c.profile, subject := c.subject, issuer := c.issuer,
                                       notBefore := Some(c.notBefore), notAfter := Some(c.notAfter), der := Some(c.der),
                                       status := StatusText(c.status), transaction := c.transaction)];
        affected := 1;
      }
      r := if affected == 0 then Some(Conflict) else None;
    }

    method RevokeCertificate(serial: Bytes, at: int, reason: int) returns (r: Option<StoreError>)
      modifies this
      ensures var want := UpdateIssued(old(rows), serial, at, reason);
              if want.Ok? then r == None && rows == want.value else r == Some(want.error) && rows == old(rows)
    {
      var key, affected := Encode(serial), 0;
      if key in rows && rows[key].status == "issued" {
        rows := rows[key := rows[key].(status := "revoked", revokedAt := Some(at), reason := reason)];
        affected := 1;
      }
      if affected == 1 {
        return None;
      }
      var status := if key in rows then Some(rows[key].status) else None;
      r := if status.None? || status.value == "reserved" then Some(NotFound) else None;
    }

    method Select(f: Filter) returns (out: Result<seq<Certificate>, StoreError>)
      ensures out == SelectRows(rows, f)
    {
      var keys := Ascending(rows.Keys);
      var found := [];
      for i := 0 to |keys|
        invariant forall k | k in keys[..i] :: k in rows
        invariant Rows(rows, keys[..i], f) == Ok(found)
      {
        assert keys[..i + 1][..i] == keys[..i] && keys[i] in keys;
        if Where(f, rows[keys[i]]) {
          var c := FromRow(keys[i], rows[keys[i]]);
          if c.Err? {
            FirstErrorStays(rows, keys, i + 1, f);
            return Err(Unreadable);
          }
          found := found + [c.value];
        }
      }
      assert keys[..|keys|] == keys;
      out := Ok(found);
    }
  }

  lemma {:induction false} FirstErrorStays(t: Table, keys: seq<string>, n: nat, f: Filter)
    requires (forall k | k in keys :: k in t) && n <= |keys| && Rows(t, keys[..n], f).Err?
    ensures Rows(t, keys, f) == Rows(t, keys[..n], f)
  {
    if n == |keys| {
      assert keys[..n] == keys;
    } else {
      assert keys[..|keys| - 1][..n] == keys[..n];
      FirstErrorStays(t, keys[..|keys| - 1], n, f);
    }
  }
}
