/** The issuing authority: a serial is reserved before signing, and the journal is written
    before each durable change. Signing, profile checks and the clock are answers given. */
module Issuer {
  import opened Basics
  import opened Hex
  import opened CertStore
  import opened CertAgreement

  const SERIAL_BYTES := 16
  const ATTEMPTS := 5

  /** RFC 5280 reasons that suit an end-entity certificate and can be published. */
  const ALLOWED_REASONS: set<int> := {1, 3, 4, 5, 9}

  /** `bytes[0] |= 0x80`. */
  function ForceTop(raw: Bytes): (bytes: Bytes)
    requires raw != []
    ensures |bytes| == |raw| && bytes[0] >= 0x80 && bytes[0] % 0x80 == raw[0] % 0x80 && bytes[1..] == raw[1..]
  {
    [if raw[0] < 0x80 then raw[0] + 0x80 else raw[0]] + raw[1..]
  }

  /** The content of a DER INTEGER: a leading zero keeps it positive. */
  function AsInteger(bytes: Bytes): Bytes
    requires bytes != []
  {
    if bytes[0] >= 0x80 then [0] + bytes else bytes
  }

  /** The form tools show and the store is keyed by. */
  function CanonicalSerial(der: Bytes): Bytes
  {
    if |der| > 1 && der[0] == 0 && der[1] >= 0x80 then der[1..] else der
  }

  /** The reserved key is the drawn number itself, whole. */
  lemma CanonicalIsDrawn(raw: Bytes)
    requires raw != []
    ensures CanonicalSerial(AsInteger(ForceTop(raw))) == ForceTop(raw)
  {
    assert ([0] + ForceTop(raw))[1..] == ForceTop(raw);
  }

  datatype IssuerEvent =
    | IssuanceRefused(transaction: string)
    | CertificateIssued(serial: Bytes, transaction: string)
    | CertificateRevoked(serial: Bytes, reason: int, at: int)
    | CrlPublished(number: nat, entries: nat)

  /** An entry gives no reason when the certificate has none. */
  datatype CrlEntry = CrlEntry(serial: Bytes, date: int, reason: Option<int>)

  datatype Crl = Crl(number: nat, entries: seq<CrlEntry>, issued: seq<Bytes>)

  /** The reasons of RFC 5280, section 5.3.1; any other number is published as unspecified. */
  function ReasonCode(code: int): int
  {
    if code in {1, 2, 3, 4, 5, 6, 8, 9, 10} then code else 0
  }

  function EntryOf(c: Certificate, now: int): CrlEntry
  {
    CrlEntry(c.serial, Or(c.revokedAt, now), if c.reason != 0 then Some(ReasonCode(c.reason)) else None)
  }

  function EntriesOf(cs: seq<Certificate>, now: int): seq<CrlEntry>
  {
    if cs == [] then [] else EntriesOf(cs[..|cs| - 1], now) + [EntryOf(cs[|cs| - 1], now)]
  }

  datatype CaError =
    | InvalidName
    | AuthorityRevoked
    | Collisions
    | NotConforming
    | JournalDown
    | BadRequest
    | Store(e: StoreError)

  function Serials(cs: seq<Certificate>): seq<Bytes>
  {
    if cs == [] then [] else Serials(cs[..|cs| - 1]) + [cs[|cs| - 1].serial]
  }

  lemma {:induction false} SerialsHold(cs: seq<Certificate>)
    ensures forall c | c in cs :: c.serial in Serials(cs)
    ensures forall s | s in Serials(cs) :: exists c | c in cs :: c.serial == s
  {
    if cs != [] {
      SerialsHold(cs[..|cs| - 1]);
      SplitLast(cs);
    }
  }

  predicate Free(m: Book, raw: Bytes)
    requires raw != []
  {
    Encode(ForceTop(raw)) !in m
  }

  predicate Draws(draws: seq<Bytes>)
  {
    |draws| == ATTEMPTS && forall d | d in draws :: |d| == SERIAL_BYTES
  }

  predicate SomeFree(m: Book, draws: seq<Bytes>)
    requires Draws(draws)
  {
    exists d | d in draws :: Free(m, d)
  }

  /** The serial comes from the first drawn number that is free. */
  ghost predicate DrawnFirst(m: Book, draws: seq<Bytes>, serial: Bytes)
    requires Draws(draws)
  {
    exists i | 0 <= i < ATTEMPTS ::
      Free(m, draws[i]) && serial == ForceTop(draws[i]) && forall j | 0 <= j < i :: !Free(m, draws[j])
  }

  class Issuer {
    const store: Memory
    var nextCrl: nat
    var crls: seq<Crl>
    var journal: seq<IssuerEvent>

    constructor (store: Memory)
      ensures this.store == store && nextCrl == 0 && crls == [] && journal == []
    {
      this.store := store;
      nextCrl, crls, journal := 0, [], [];
    }

    method Record(e: IssuerEvent, up: bool) returns (ok: bool)
      modifies this`journal
      ensures ok == up && journal == if up then old(journal) + [e] else old(journal)
    {
      if up {
        journal := journal + [e];
      }
      ok := up;
    }

    /** The first drawn number that is free; after five taken ones, an error. */
    method ReserveSerial(profile: string, draws: seq<Bytes>) returns (r: Result<Bytes, CaError>)
      requires Draws(draws)
      modifies store
      ensures r.Ok? <==> SomeFree(old(store.certificates), draws)
      ensures r.Ok? ==>
                && DrawnFirst(old(store.certificates), draws, r.value)
                && |r.value| == 16 && r.value[0] >= 0x80 && Encode(r.value) !in old(store.certificates)
                && store.certificates == old(store.certificates)[Encode(r.value) := Reservation(r.value, profile)]
      ensures r.Err? ==> r.error == Collisions && store.certificates == old(store.certificates)
    {
      for i := 0 to ATTEMPTS
        invariant store.certificates == old(store.certificates)
        invariant forall j | 0 <= j < i :: !Free(old(store.certificates), draws[j])
      {
        assert draws[i] in draws;
        var serial := CanonicalSerial(AsInteger(ForceTop(draws[i])));
        CanonicalIsDrawn(draws[i]);
        var e := store.ReserveSerial(serial, profile);
        if e.None? {
          return Ok(serial);
        }
      }
      r := Err(Collisions);
    }

    /** Reserve, sign, check what was signed, write the journal, and only then the store. A
        certificate comes out exactly for a valid name, from an authority in force, with a free
        number among the drawn ones, conforming, and written in the journal. */
    method Issue(c: Certificate, validName: bool, authorityRevoked: bool, draws: seq<Bytes>, conforming: bool, up: bool)
      returns (r: Result<Certificate, CaError>)
      requires Draws(draws) && c.status == Issued && Unrevoked(c)
      modifies this`journal, store
      ensures r.Ok? <==>
              validName && !authorityRevoked && SomeFree(old(store.certificates), draws) && conforming && up
      ensures r == Err(InvalidName) <==> !validName
      ensures r == Err(AuthorityRevoked) <==> validName && authorityRevoked
      ensures r == Err(Collisions) <==> validName && !authorityRevoked && !SomeFree(old(store.certificates), draws)
      ensures r == Err(NotConforming) <==>
              validName && !authorityRevoked && SomeFree(old(store.certificates), draws) && !conforming && up
      ensures r == Err(JournalDown) <==>
              validName && !authorityRevoked && SomeFree(old(store.certificates), draws) && !up
      ensures if validName && !authorityRevoked && SomeFree(old(store.certificates), draws)
              then exists s ::
                     && DrawnFirst(old(store.certificates), draws, s)
                     && (r.Ok? ==> r.value == c.(serial := s))
                     && store.certificates
                        == old(store.certificates)[Encode(s) := if r.Ok? then r.value else Reservation(s, c.profile)]
              else store.certificates == old(store.certificates)
      ensures r.Ok? ==>
                && journal == old(journal) + [CertificateIssued(r.value.serial, c.transaction)]
                && |r.value.serial| == 16 && r.value.serial[0] >= 0x80
                   && Encode(r.value.serial) !in old(store.certificates)
      ensures r.Err? ==>
                journal == if r.error == NotConforming then old(journal) + [IssuanceRefused(c.transaction)]
                  else old(journal)
    {
      if !validName {
        return Err(InvalidName);
      }
      if authorityRevoked {
        return Err(AuthorityRevoked);
      }
      var drawn := ReserveSerial(c.profile, draws);
      if drawn.Err? {
        return Err(drawn.error);
      }
      var serial := drawn.value;
      var signed := c.(serial := serial);
      if !conforming {
        var noted := Record(IssuanceRefused(c.transaction), up);
        return Err(if noted then NotConforming else JournalDown);
      }
      var written := Record(CertificateIssued(serial, c.transaction), up);
      if !written {
        return Err(JournalDown);
      }
      var e := store.SaveCertificate(signed);
      assert store.certificates == old(store.certificates)[Encode(serial) := signed];
      r := Ok(signed);
    }

    /** The journal first; a certificate already revoked keeps its first date and reason. */
    method RevokeCertificate(serial: Bytes, reason: int, operator: string, commentOk: bool, at: int, up: bool)
      returns (r: Option<CaError>)
      modifies this`journal, store
      ensures var m, asked := old(store.certificates), operator != "" && reason in {1, 3, 4, 5, 9} && commentOk;
              var known := Encode(serial) in m && m[Encode(serial)].status != Reserved;
              && (r == None <==> asked && known && up)
              && (r == Some(BadRequest) <==> !asked)
              && (r == Some(Store(NotFound)) <==> asked && !known)
              && (r == Some(JournalDown) <==> asked && known && !up)
              && (r == None ==>
                    && journal == old(journal) + [CertificateRevoked(serial, reason, at)]
                    && store.certificates
                       == if m[Encode(serial)].status == Revoked then m
                          else m[Encode(serial) := m[Encode(serial)].(status := Revoked, revokedAt := Some(at),
                                                                      reason := reason)])
      ensures r.Some? ==> journal == old(journal) && store.certificates == old(store.certificates)
    {
      if operator == "" || reason !in ALLOWED_REASONS || !commentOk {
        return Some(BadRequest);
      }
      var known := Lookup(store.certificates, serial);
      if known.Err? {
        return Some(Store(known.error));
      }
      var written := Record(CertificateRevoked(serial, reason, at), up);
      if !written {
        return Some(JournalDown);
      }
      var _ := store.RevokeCertificate(serial, at, reason);
      r := None;
    }

    /** The revoked are read first, the number drawn after, the issued serials read last. */
    method PublishCrl(now: int, up: bool) returns (r: Result<Crl, CaError>)
      modifies this
      ensures nextCrl == old(nextCrl) + 1
      ensures r.Ok? <==> up
      ensures r.Ok? ==>
                && r.value == Crl(nextCrl, EntriesOf(List(store.certificates, OnlyRevoked), now),
                                  Serials(List(store.certificates, EverIssued)))
                && crls == old(crls) + [r.value]
                && journal == old(journal) + [CrlPublished(nextCrl, |r.value.entries|)]
      ensures r.Err? ==> crls == old(crls) && journal == old(journal)
    {
      var revoked := store.Select(OnlyRevoked);
      nextCrl := nextCrl + 1;
      var number := nextCrl;
      var issued := store.Select(EverIssued);
      var crl := Crl(number, EntriesOf(revoked, now), Serials(issued));
      var written := Record(CrlPublished(number, |crl.entries|), up);
      if !written {
        return Err(JournalDown);
      }
      crls := crls + [crl];
      r := Ok(crl);
    }
  }
}
