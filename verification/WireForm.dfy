/** The bytes and the characters themselves: base64url symbol by symbol, after the table and
    the bit groups of sections 4 and 5 of RFC 4648, and the line of a record as it stands in
    the file. */
module WireForm {
  import opened Basics
  import opened Json
  import opened Canonical
  import opened ChainedLog
  import Base64Url

  // ---- Base64url ----

  const CAPITALS := "ABCDEFGHIJKLMNOPQRSTUVWXYZ"
  const SMALLS := "abcdefghijklmnopqrstuvwxyz"
  const DIGITS := "0123456789"

  /** The URL-safe alphabet, in the order of its values. */
  const ALPHABET := CAPITALS + SMALLS + DIGITS + "-_"

  function ByteAt(raw: Bytes, i: nat): byte
  {
    if i < |raw| then raw[i] else 0
  }

  /** The bits 6k to 6k + 5 of `raw`, zeros past its end. */
  function Sextet(raw: Bytes, k: nat): int
  {
    var first := k / 4 * 3;
    if k % 4 == 0 then ByteAt(raw, first) / 4
    else if k % 4 == 1 then ByteAt(raw, first) % 4 * 16 + ByteAt(raw, first + 1) / 16
    else if k % 4 == 2 then ByteAt(raw, first + 1) % 16 * 4 + ByteAt(raw, first + 2) / 64
    else ByteAt(raw, first + 2) % 64
  }

  lemma CapitalIs(v: int)
    requires 0 <= v < 26
    ensures |CAPITALS| == 26 && CAPITALS[v] as int == 'A' as int + v
  {
    if v < 9 {
      assert v == 0 || v == 1 || v == 2 || v == 3 || v == 4 || v == 5 || v == 6 || v == 7 || v == 8;
    } else if v < 18 {
      assert v == 9 || v == 10 || v == 11 || v == 12 || v == 13 || v == 14 || v == 15 || v == 16 || v == 17;
    } else {
      assert v == 18 || v == 19 || v == 20 || v == 21 || v == 22 || v == 23 || v == 24 || v == 25;
    }
  }

  lemma SmallIs(v: int)
    requires 0 <= v < 26
    ensures |SMALLS| == 26 && SMALLS[v] as int == 'a' as int + v
  {
    if v < 9 {
      assert v == 0 || v == 1 || v == 2 || v == 3 || v == 4 || v == 5 || v == 6 || v == 7 || v == 8;
    } else if v < 18 {
      assert v == 9 || v == 10 || v == 11 || v == 12 || v == 13 || v == 14 || v == 15 || v == 16 || v == 17;
    } else {
      assert v == 18 || v == 19 || v == 20 || v == 21 || v == 22 || v == 23 || v == 24 || v == 25;
    }
  }

  lemma DigitIs(v: int)
    requires 0 <= v < 10
    ensures |DIGITS| == 10 && DIGITS[v] as int == '0' as int + v
  {
    assert v == 0 || v == 1 || v == 2 || v == 3 || v == 4 || v == 5 || v == 6 || v == 7 || v == 8 || v == 9;
  }

  lemma SymbolIs(v: Base64Url.sextet)
    ensures |ALPHABET| == 64 && Base64Url.Symbol(v) == ALPHABET[v]
  {
    if v < 26 {
      CapitalIs(v);
    } else if v < 52 {
      SmallIs(v - 26);
    } else if v < 62 {
      DigitIs(v - 52);
    }
  }

  lemma GroupSextets(a: int, b: int, c: int)
    requires 0 <= a < 256 && 0 <= b < 256 && 0 <= c < 256
    ensures var n := a * 65536 + b * 256 + c;
            && n / 262144 % 64 == a / 4 && n / 4096 % 64 == a % 4 * 16 + b / 16
            && n / 64 % 64 == b % 16 * 4 + c / 64 && n % 64 == c % 64
  {
    var n := a * 65536 + b * 256 + c;
    var a1, a0, b1, b0, c1, c0 := a / 4, a % 4, b / 16, b % 16, c / 64, c % 64;
    Base64Url.SplitJoin(a1, a0 * 16 + b1, b0 * 4 + c1, c0);
    assert n == Base64Url.Join(a1, a0 * 16 + b1, b0 * 4 + c1, c0);
  }

  lemma ChunkGroup(raw: Bytes)
    requires raw != []
    ensures Base64Url.Group(Base64Url.FirstChunk(raw)) == ByteAt(raw, 0) * 65536 + ByteAt(raw, 1) * 256 + ByteAt(raw, 2)
  {
  }

  lemma ChunkSextets(raw: Bytes, k: nat)
    requires raw != [] && k < 4
    ensures Base64Url.SixBits(Base64Url.Group(Base64Url.FirstChunk(raw)), k) == Sextet(raw, k)
  {
    ChunkGroup(raw);
    GroupSextets(ByteAt(raw, 0), ByteAt(raw, 1), ByteAt(raw, 2));
  }

  lemma ChunkSymbolsAre(raw: Bytes, k: nat)
    requires raw != [] && k < 4 && k <= |Base64Url.FirstChunk(raw)|
    ensures 0 <= Sextet(raw, k) < 64 && Base64Url.EncodeChunk(Base64Url.FirstChunk(raw))[k] == ALPHABET[Sextet(raw, k)]
  {
    ChunkSextets(raw, k);
    SymbolIs(Sextet(raw, k));
  }

  lemma LaterSextet(raw: Bytes, k: nat)
    requires |raw| >= 3 && k >= 4
    ensures Sextet(raw, k) == Sextet(raw[3..], k - 4)
  {
    assert k / 4 * 3 == (k - 4) / 4 * 3 + 3 && k % 4 == (k - 4) % 4;
    forall i: nat | i >= 3
      ensures ByteAt(raw, i) == ByteAt(raw[3..], i - 3)
    {
    }
  }

  /** The k-th symbol of an identity stands for the k-th six bits of the raw identifier. */
  lemma {:induction false} SymbolsAre(raw: Bytes, k: nat)
    requires k < |Base64Url.Encode(raw)|
    ensures 0 <= Sextet(raw, k) < 64 && Base64Url.Encode(raw)[k] == ALPHABET[Sextet(raw, k)]
    decreases |raw|
  {
    var chunk := Base64Url.FirstChunk(raw);
    if k <= |chunk| && k < 4 {
      ChunkSymbolsAre(raw, k);
    } else {
      LaterSextet(raw, k);
      SymbolsAre(raw[3..], k - 4);
    }
  }

  // ---- Records ----

  /** A text of characters below 128, as its bytes. */
  function Ascii(s: string): Bytes
  {
    seq(|s|, i requires 0 <= i < |s| => ByteOf(s[i]))
  }

  function ByteOf(c: char): byte
  {
    c as int % 256
  }

  /** Of the ways section 7 of RFC 8259 has to write a byte of a text, the shortest, with small
      letters for digits. */
  lemma ShortestEscape(b: byte, t: Bytes)
    requires DecodeBody(t).Some?
    ensures DecodeBody(EscapeByte(b) + t) == Some(([b] + DecodeBody(t).value.0, DecodeBody(t).value.1))
    ensures |EscapeByte(b)| == if b in {0x08, 0x09, 0x0A, 0x0C, 0x0D, 0x22, 0x5C} then 2 else if b < 0x20 then 6 else 1
    ensures |EscapeByte(b)| > 1 ==> forall i | 1 < i < |EscapeByte(b)| :: !(0x41 <= EscapeByte(b)[i] <= 0x5A)
  {
    DecodeEscapedByte(b, t);
  }

  predicate PlainText(s: Bytes)
  {
    forall b | b in s :: 0x20 <= b < 0x80 && b != QUOTE && b != BACKSLASH && !HtmlByte(b)
  }

  /** Such a text is written as it is, between quotes. */
  lemma {:induction false} PlainIsKept(s: Bytes)
    requires PlainText(s)
    ensures GoBody(s) == s
    decreases |s|
  {
    if s != [] {
      assert s[0] in s && forall b | b in s[1..] :: b in s;
      PlainIsKept(s[1..]);
    }
  }

  lemma PlainString(s: Bytes)
    requires PlainText(s)
    ensures GoString(s) == [QUOTE] + s + [QUOTE]
  {
    PlainIsKept(s);
  }

  /** A name, between quotes. */
  function Name(t: string): Bytes
  {
    [QUOTE] + Ascii(t) + [QUOTE]
  }

  lemma AsciiIs(s: Bytes, t: string)
    requires |s| == |t| && forall i | 0 <= i < |t| :: s[i] == t[i] as int
    ensures s == Ascii(t)
  {
  }

  lemma NameIs(s: Bytes, t: string)
    requires |s| == |t| && forall i | 0 <= i < |t| :: s[i] == t[i] as int
    requires PlainText(s)
    ensures GoString(s) == Name(t)
  {
    AsciiIs(s, t);
    PlainString(s);
  }

  lemma SeqIs()
    ensures GoString(SEQ) == Name("seq")
  {
    var s, t := SEQ, "seq";
    assert s[0] == 0x73 && s[1] == 0x65 && s[2] == 0x71;
    assert t[0] as int == 0x73 && t[1] as int == 0x65 && t[2] as int == 0x71;
    NameIs(s, t);
  }

  lemma TimeIs()
    ensures GoString(TIME) == Name("time")
  {
    var s, t := TIME, "time";
    assert s[0] == 0x74 && s[1] == 0x69 && s[2] == 0x6D && s[3] == 0x65;
    assert t[0] as int == 0x74 && t[1] as int == 0x69 && t[2] as int == 0x6D && t[3] as int == 0x65;
    NameIs(s, t);
  }

  lemma EventIs()
    ensures GoString(EVENT) == Name("event")
  {
    var s, t := EVENT, "event";
    assert s[0] == 0x65 && s[1] == 0x76 && s[2] == 0x65 && s[3] == 0x6E && s[4] == 0x74;
    assert t[0] as int == 0x65 && t[1] as int == 0x76 && t[2] as int == 0x65;
    assert t[3] as int == 0x6E && t[4] as int == 0x74;
    NameIs(s, t);
  }

  lemma DataIs()
    ensures GoString(DATA) == Name("data")
  {
    var s, t := DATA, "data";
    assert s[0] == 0x64 && s[1] == 0x61 && s[2] == 0x74 && s[3] == 0x61;
    assert t[0] as int == 0x64 && t[1] as int == 0x61 && t[2] as int == 0x74 && t[3] as int == 0x61;
    NameIs(s, t);
  }

  lemma PrevIs()
    ensures GoString(PREV) == Name("prev")
  {
    var s, t := PREV, "prev";
    assert s[0] == 0x70 && s[1] == 0x72 && s[2] == 0x65 && s[3] == 0x76;
    assert t[0] as int == 0x70 && t[1] as int == 0x72 && t[2] as int == 0x65 && t[3] as int == 0x76;
    NameIs(s, t);
  }

  lemma HashIs()
    ensures GoString(HASH) == Name("hash")
  {
    var s, t := HASH, "hash";
    assert s[0] == 0x68 && s[1] == 0x61 && s[2] == 0x73 && s[3] == 0x68;
    assert t[0] as int == 0x68 && t[1] as int == 0x61 && t[2] as int == 0x73 && t[3] as int == 0x68;
    NameIs(s, t);
  }

  function NameAndValue(name: string, value: Bytes): Bytes
  {
    Name(name) + ([COLON] + value)
  }

  /** `,"name":value`, and what comes after. */
  function Next(name: string, value: Bytes, after: Bytes): Bytes
  {
    [COMMA] + (NameAndValue(name, value) + after)
  }

  lemma MemberIs(m: Member, name: string, rest: seq<Member>)
    requires GoString(m.key) == Name(name)
    ensures Members([m] + rest, true) == Next(name, Serialize(m.value, true), Members(rest, true))
  {
    assert ([m] + rest)[1..] == rest;
  }

  /** The members of a record after the first, up to the hash; an absent `data` is left out. */
  function Middle(r: Record, after: Bytes): Bytes
  {
    var prev := Next("prev", GoString(r.prev), after);
    var data := if r.data.Some? then Next("data", ToJson(Obj(r.data.value)), prev) else prev;
    Next("time", GoString(r.time), Next("event", GoString(r.event), data))
  }

  lemma FourMembers(r: Record, rest: seq<Member>)
    ensures var prev := [Member(PREV, Str(r.prev))] + rest;
            var data := if r.data.Some? then [Member(DATA, Obj(r.data.value))] + prev else prev;
            PayloadMembers(r) + rest
            == [Member(SEQ, Int(r.seqNo))] + ([Member(TIME, Str(r.time))] + ([Member(EVENT, Str(r.event))] + data))
  {
  }

  lemma MiddleIs(r: Record, rest: seq<Member>)
    ensures Members((PayloadMembers(r) + rest)[1..], true) == Middle(r, Members(rest, true))
  {
    var time, event, prev := Member(TIME, Str(r.time)), Member(EVENT, Str(r.event)), Member(PREV, Str(r.prev));
    var data := if r.data.Some? then [Member(DATA, Obj(r.data.value))] + ([prev] + rest) else [prev] + rest;
    PrevIs();
    MemberIs(prev, "prev", rest);
    if r.data.Some? {
      DataIs();
      ToJsonIsSerialize(Obj(r.data.value));
      MemberIs(Member(DATA, Obj(r.data.value)), "data", [prev] + rest);
    }
    TimeIs();
    EventIs();
    MemberIs(event, "event", data);
    MemberIs(time, "time", [event] + data);
    FourMembers(r, rest);
    assert (PayloadMembers(r) + rest)[1..] == [time] + ([event] + data);
  }

  /** `{"seq":number`, and what comes after. */
  function Opened(r: Record, after: Bytes): Bytes
  {
    [0x7B] + (NameAndValue("seq", Decimal(r.seqNo)) + after)
  }

  lemma ObjectText(m: Member, rest: seq<Member>)
    ensures Serialize(Obj([m] + rest), true) == [0x7B] + (Pair(m, true) + Members(rest, true))
  {
    assert ([m] + rest)[1..] == rest;
  }

  lemma ObjectIs(r: Record, rest: seq<Member>)
    ensures ToJson(Obj(PayloadMembers(r) + rest)) == Opened(r, Middle(r, Members(rest, true)))
  {
    var number := Member(SEQ, Int(r.seqNo));
    var members := PayloadMembers(r) + rest;
    ToJsonIsSerialize(Obj(members));
    MiddleIs(r, rest);
    SeqIs();
    assert members == [number] + members[1..];
    ObjectText(number, members[1..]);
    assert Pair(number, true) == NameAndValue("seq", Decimal(r.seqNo));
  }

  /** The line of a record, and the part of it that the hash covers: the members in this order,
      the texts escaped, nothing else between them, and the hash last. */
  lemma LineIs(r: Record)
    ensures PayloadText(r) == Opened(r, Middle(r, [0x7D]))
    ensures LineText(r) == Opened(r, Middle(r, Next("hash", GoString(r.hash), [0x7D])))
  {
    var hash := Member(HASH, Str(r.hash));
    ObjectIs(r, []);
    ObjectIs(r, [hash]);
    assert PayloadMembers(r) + [] == PayloadMembers(r);
    HashIs();
    MemberIs(hash, "hash", []);
    assert [hash] + [] == [hash];
  }

  // ---- Values ----

  /** The number that a row of decimal digits stands for. */
  function Read(ds: Bytes): int
  {
    if ds == [] then 0 else 10 * Read(ds[..|ds| - 1]) - 0x30 + ds[|ds| - 1]
  }

  predicate AllDigits(ds: Bytes)
  {
    forall b | b in ds :: 0x30 <= b <= 0x39
  }

  lemma {:induction false} DigitsRead(n: nat)
    ensures Read(Digits(n)) == n && AllDigits(Digits(n)) && (n > 0 ==> Digits(n)[0] != 0x30)
    decreases n
  {
    if n < 10 {
      assert Digits(n)[..0] == [];
    } else {
      DigitsRead(n / 10);
      var front := Digits(n / 10);
      assert Digits(n)[..|Digits(n)| - 1] == front && Digits(n)[0] == front[0];
    }
  }

  lemma WordIs(v: Value, t: string)
    requires var s := Serialize(v, true); |s| == |t| && forall i | 0 <= i < |t| :: s[i] == t[i] as int
    ensures ToJson(v) == Ascii(t)
  {
    ToJsonIsSerialize(v);
    AsciiIs(Serialize(v, true), t);
  }

  /** The three words, and numbers as section 6 of RFC 8259 writes them: in decimal, with a minus
      sign if need be and no leading zero. */
  lemma ScalarsAre(n: int)
    ensures ToJson(Null) == Ascii("null")
    ensures ToJson(Bool(true)) == Ascii("true") && ToJson(Bool(false)) == Ascii("false")
    ensures n < 0 ==> ToJson(Int(n)) == Ascii("-") + Digits(-n)
    ensures n >= 0 ==> ToJson(Int(n)) == Digits(n)
    ensures var m := if n < 0 then -n else n;
            Read(Digits(m)) == m && AllDigits(Digits(m)) && (m > 0 ==> Digits(m)[0] != 0x30)
  {
    WordIs(Null, "null");
    WordIs(Bool(true), "true");
    WordIs(Bool(false), "false");
    ToJsonIsSerialize(Int(n));
    DigitsRead(if n < 0 then -n else n);
  }
}
