/** The key identity of the registry: unpadded base64url (section 5 of RFC 4648),
    as `credential_id` writes it and as the web client reads it back. Shifts are
    written as divisions, masks as remainders, and the disjoint `|` as sums. */
module Base64Url {
  import opened Basics

  type sextet = x: int | 0 <= x < 64

  /** The URL-safe alphabet: A-Z, a-z, 0-9, '-', '_'. */
  function Symbol(v: sextet): (c: char)
  {
    if v < 26 then ('A' as int + v) as char
    else if v < 52 then ('a' as int + (v - 26)) as char
    else if v < 62 then ('0' as int + (v - 52)) as char
    else if v == 62 then '-' else '_'
  }

  /** The value of a symbol; `None` outside the alphabet. */
  function ValueOf(c: char): (v: Option<sextet>)
  {
    if 'A' <= c <= 'Z' then Some(c as int - 'A' as int)
    else if 'a' <= c <= 'z' then Some(c as int - 'a' as int + 26)
    else if '0' <= c <= '9' then Some(c as int - '0' as int + 52)
    else if c == '-' then Some(62)
    else if c == '_' then Some(63)
    else None
  }

  /** A chunk of one to three bytes, left-aligned in 24 bits. */
  function Group(chunk: Bytes): (n: int)
    requires 1 <= |chunk| <= 3
    ensures 0 <= n < 0x100_0000
  {
    var a: int, b: int, c: int :=
      chunk[0], if |chunk| > 1 then chunk[1] else 0, if |chunk| > 2 then chunk[2] else 0;
    a * 65536 + b * 256 + c
  }

  /** `(n >> (18 - 6 * i)) & 0x3f`. */
  function SixBits(n: int, i: nat): (v: sextet)
    requires 0 <= n < 0x100_0000 && i < 4
  {
    if i == 0 then n / 262144 % 64
    else if i == 1 then n / 4096 % 64
    else if i == 2 then n / 64 % 64
    else n % 64
  }

  function SymbolAt(n: int, i: nat): char
    requires 0 <= n < 0x100_0000 && i < 4
  {
    Symbol(SixBits(n, i))
  }

  function EncodeChunk(chunk: Bytes): (s: string)
    requires 1 <= |chunk| <= 3
  {
    seq(|chunk| + 1, i requires 0 <= i < |chunk| + 1 => SymbolAt(Group(chunk), i))
  }

  /** The next chunk of three bytes, or what is left. */
  function FirstChunk(raw: Bytes): (chunk: Bytes)
    requires raw != []
    ensures 1 <= |chunk| <= 3 && chunk <= raw && (|chunk| == 3 || chunk == raw)
  {
    if |raw| < 3 then raw else raw[..3]
  }

  function Encode(raw: Bytes): (s: string)
  {
    if raw == [] then "" else EncodeChunk(FirstChunk(raw)) + Encode(raw[|FirstChunk(raw)|..])
  }

  /** Four symbol values as one 24-bit group. */
  function Join(a: int, b: int, c: int, d: int): (n: int)
    requires 0 <= a < 64 && 0 <= b < 64 && 0 <= c < 64 && 0 <= d < 64
    ensures 0 <= n < 0x100_0000
  {
    a * 262144 + b * 4096 + c * 64 + d
  }

  /** The three bytes of a 24-bit group. */
  function BytesOf(n: int): (raw: Bytes)
    requires 0 <= n < 0x100_0000
    ensures |raw| == 3
  {
    [n / 65536, n / 256 % 256, n % 256]
  }

  function DecodeChunk(s: string): (raw: Option<Bytes>)
    requires 1 <= |s| <= 4
    ensures raw.Some? ==> 2 <= |s| && |raw.value| == |s| - 1
  {
    if |s| == 1 then None
    else
      var a, b := ValueOf(s[0]), ValueOf(s[1]);
      var c := if |s| > 2 then ValueOf(s[2]) else Some(0);
      var d := if |s| > 3 then ValueOf(s[3]) else Some(0);
      if a.None? || b.None? || c.None? || d.None? then None
      else
        var n := Join(a.value, b.value, c.value, d.value);
        Some(BytesOf(n)[..|s| - 1])
  }

  /** What the client's decoder accepts: a lone trailing symbol is refused, unused
      trailing bits are ignored. */
  function Decode(s: string): (raw: Option<Bytes>)
  {
    if s == "" then Some([])
    else if |s| <= 4 then DecodeChunk(s)
    else
      var head := DecodeChunk(s[..4]);
      var tail := Decode(s[4..]);
      if head.None? || tail.None? then None else Some(head.value + tail.value)
  }

  lemma SplitJoin(a: int, b: int, c: int, d: int)
    requires 0 <= a < 64 && 0 <= b < 64 && 0 <= c < 64 && 0 <= d < 64
    ensures var n := Join(a, b, c, d);
            SixBits(n, 0) == a && SixBits(n, 1) == b && SixBits(n, 2) == c && SixBits(n, 3) == d
  {
    var n := Join(a, b, c, d);
    assert n / 262144 == a;
    assert n / 4096 == a * 64 + b;
    assert n / 64 == a * 4096 + b * 64 + c;
  }

  lemma JoinSplit(n: int)
    requires 0 <= n < 0x100_0000
    ensures n == Join(SixBits(n, 0), SixBits(n, 1), SixBits(n, 2), SixBits(n, 3))
  {
    var q1 := n / 64;
    var q2 := q1 / 64;
    var q3 := q2 / 64;
    var r1, r2, r3 := n - 64 * q1, q1 - 64 * q2, q2 - 64 * q3;
    assert n / 4096 == q2 by { assert n == 4096 * q2 + (64 * r2 + r1); }
    assert n / 262144 == q3 by { assert n == 262144 * q3 + (4096 * r3 + 64 * r2 + r1); }
  }

  lemma ValueOfSymbol(v: sextet)
    ensures ValueOf(Symbol(v)) == Some(v)
  {
  }

  lemma GroupBytes(a: int, b: int, c: int)
    requires 0 <= a < 256 && 0 <= b < 256 && 0 <= c < 256
    ensures var n := a * 65536 + b * 256 + c;
            && n / 65536 == a && n / 256 % 256 == b && n % 256 == c
            && (c == 0 ==> n % 64 == 0) && (b == c == 0 ==> n / 64 % 64 == 0)
  {
    var n := a * 65536 + b * 256 + c;
    assert n / 256 == a * 256 + b;
    assert c == 0 ==> n == 64 * (a * 1024 + b * 4);
    assert b == c == 0 ==> n / 64 == 64 * (a * 16);
  }

  lemma BytesOfGroup(chunk: Bytes)
    requires 1 <= |chunk| <= 3
    ensures var n := Group(chunk);
            BytesOf(n)[..|chunk|] == chunk
    ensures var n := Group(chunk);
            (|chunk| < 3 ==> SixBits(n, 3) == 0) && (|chunk| < 2 ==> SixBits(n, 2) == 0)
  {
    var a: int, b: int, c: int :=
      chunk[0], if |chunk| > 1 then chunk[1] else 0, if |chunk| > 2 then chunk[2] else 0;
    GroupBytes(a, b, c);
    assert [a, b, c][..|chunk|] == chunk;
  }

  lemma ChunkRoundTrip(chunk: Bytes)
    requires 1 <= |chunk| <= 3
    ensures DecodeChunk(EncodeChunk(chunk)) == Some(chunk)
  {
    var n := Group(chunk);
    var s := EncodeChunk(chunk);
    forall i | 0 <= i < |s|
      ensures ValueOf(s[i]) == Some(SixBits(n, i))
    {
      ValueOfSymbol(SixBits(n, i));
    }
    JoinSplit(n);
    BytesOfGroup(chunk);
  }

  lemma EncodeStep(chunk: Bytes, rest: Bytes)
    requires 1 <= |chunk| <= 3 && (|chunk| == 3 || rest == [])
    ensures Encode(chunk + rest) == EncodeChunk(chunk) + Encode(rest)
  {
    var raw := chunk + rest;
    assert FirstChunk(raw) == chunk;
    assert raw[|chunk|..] == rest;
  }

  lemma EncodeFrom(done: string, rest: Bytes)
    requires rest != []
    ensures done + Encode(rest)
         == (done + EncodeChunk(FirstChunk(rest))) + Encode(rest[|FirstChunk(rest)|..])
  {
  }

  method ChunkSymbols(chunk: Bytes) returns (out: string)
    requires 1 <= |chunk| <= 3
    ensures out == EncodeChunk(chunk)
  {
    var n := Group(chunk);
    out := "";
    for i := 0 to |chunk| + 1
      invariant |out| == i && forall j | 0 <= j < i :: out[j] == SymbolAt(n, j)
    {
      out := out + [SymbolAt(n, i)];
    }
  }

  /** The registry's loop over chunks of three bytes. */
  method CredentialId(raw: Bytes) returns (out: string)
    ensures out == Encode(raw)
  {
    out := "";
    var at := 0;
    while at < |raw|
      invariant at <= |raw|
      invariant Encode(raw) == out + Encode(raw[at..])
    {
      var chunk := FirstChunk(raw[at..]);
      var symbols := ChunkSymbols(chunk);
      EncodeFrom(out, raw[at..]);
      assert raw[at..][|chunk|..] == raw[at + |chunk|..];
      out := out + symbols;
      at := at + |chunk|;
    }
  }

  lemma DecodeStep(head: string, tail: string)
    requires 1 <= |head| <= 4 && (|head| == 4 || tail == "")
    requires DecodeChunk(head).Some? && Decode(tail).Some?
    ensures Decode(head + tail) == Some(DecodeChunk(head).value + Decode(tail).value)
  {
    if tail == "" {
      assert head + tail == head && DecodeChunk(head).value + [] == DecodeChunk(head).value;
    } else {
      assert (head + tail)[..4] == head && (head + tail)[4..] == tail;
    }
  }

  /** Decoding inverts the registry's encoder on every byte string. */
  lemma {:induction false} RoundTrip(raw: Bytes)
    ensures Decode(Encode(raw)) == Some(raw)
    decreases |raw|
  {
    if raw != [] {
      var chunk := FirstChunk(raw);
      var rest := raw[|chunk|..];
      ChunkRoundTrip(chunk);
      RoundTrip(rest);
      DecodeStep(EncodeChunk(chunk), Encode(rest));
      assert raw == chunk + rest;
    }
  }

  /** Four symbols for three bytes, rounded up. */
  lemma {:induction false} EncodedLength(raw: Bytes)
    ensures |Encode(raw)| == (4 * |raw| + 2) / 3
    decreases |raw|
  {
    if raw != [] {
      EncodedLength(raw[|FirstChunk(raw)|..]);
    }
  }

  /** Two different raw identifiers never share a registry identity. */
  lemma IdentityIsInjective(a: Bytes, b: Bytes)
    ensures Encode(a) == Encode(b) ==> a == b
  {
    RoundTrip(a);
    RoundTrip(b);
  }

  /** Whether the bits that a final partial group leaves unused are all zero. */
  predicate CanonicalTail(s: string)
  {
    && (|s| % 4 == 2 ==> ValueOf(s[|s| - 1]).Some? && ValueOf(s[|s| - 1]).value % 16 == 0)
    && (|s| % 4 == 3 ==> ValueOf(s[|s| - 1]).Some? && ValueOf(s[|s| - 1]).value % 4 == 0)
  }

  lemma SymbolOfValue(c: char)
    requires ValueOf(c).Some?
    ensures Symbol(ValueOf(c).value) == c
  {
  }

  /** The bytes of four joined symbols. */
  lemma BytesOfJoin(a: sextet, b: sextet, c: sextet, d: sextet)
    ensures BytesOf(Join(a, b, c, d)) == [a * 4 + b / 16, b % 16 * 16 + c / 4, c % 4 * 64 + d]
  {
    GroupBytes(a * 4 + b / 16, b % 16 * 16 + c / 4, c % 4 * 64 + d);
  }

  lemma EncodeJoined(chunk: Bytes, a: sextet, b: sextet, c: sextet, d: sextet)
    requires 1 <= |chunk| <= 3 && Group(chunk) == Join(a, b, c, d)
    ensures EncodeChunk(chunk) == [Symbol(a), Symbol(b), Symbol(c), Symbol(d)][..|chunk| + 1]
  {
    SplitJoin(a, b, c, d);
  }

  /** `v` with its low bits, those below `m`, cleared. */
  function Cleared(v: sextet, m: int): sextet
    requires m > 0
  {
    v - v % m
  }

  /** A group cut to `k` bytes keeps the symbols of those bytes, unused bits cleared. */
  lemma GroupTruncated(a: sextet, b: sextet, c: sextet, d: sextet, k: nat)
    requires 1 <= k <= 3 && (k < 3 ==> d == 0) && (k < 2 ==> c == 0)
    ensures Group(BytesOf(Join(a, b, c, d))[..k])
         == Join(a, if k == 1 then Cleared(b, 16) else b, if k == 2 then Cleared(c, 4) else c, d)
  {
    BytesOfJoin(a, b, c, d);
    var bytes := [a * 4 + b / 16, b % 16 * 16 + c / 4, c % 4 * 64 + d];
    if k == 1 {
      assert bytes[..k] == [a * 4 + b / 16];
    } else if k == 2 {
      assert bytes[..k] == [a * 4 + b / 16, b % 16 * 16 + c / 4];
    } else {
      assert bytes[..k] == bytes;
    }
  }

  /** What the encoder makes of a decoded group: its last symbol with the unused bits cleared. */
  lemma ReencodedPair(s: string, a: sextet, b: sextet)
    requires |s| == 2 && ValueOf(s[0]) == Some(a) && ValueOf(s[1]) == Some(b)
    ensures DecodeChunk(s).Some? && EncodeChunk(DecodeChunk(s).value) == [Symbol(a), Symbol(Cleared(b, 16))]
  {
    GroupTruncated(a, b, 0, 0, 1);
    EncodeJoined(DecodeChunk(s).value, a, Cleared(b, 16), 0, 0);
  }

  lemma ReencodedTriple(s: string, a: sextet, b: sextet, c: sextet)
    requires |s| == 3 && ValueOf(s[0]) == Some(a) && ValueOf(s[1]) == Some(b) && ValueOf(s[2]) == Some(c)
    ensures DecodeChunk(s).Some? && EncodeChunk(DecodeChunk(s).value) == [Symbol(a), Symbol(b), Symbol(Cleared(c, 4))]
  {
    GroupTruncated(a, b, c, 0, 2);
    EncodeJoined(DecodeChunk(s).value, a, b, Cleared(c, 4), 0);
  }

  lemma ReencodedQuad(s: string, a: sextet, b: sextet, c: sextet, d: sextet)
    requires |s| == 4 && ValueOf(s[0]) == Some(a) && ValueOf(s[1]) == Some(b)
    requires ValueOf(s[2]) == Some(c) && ValueOf(s[3]) == Some(d)
    ensures DecodeChunk(s).Some? && EncodeChunk(DecodeChunk(s).value) == [Symbol(a), Symbol(b), Symbol(c), Symbol(d)]
  {
    GroupTruncated(a, b, c, d, 3);
    EncodeJoined(DecodeChunk(s).value, a, b, c, d);
  }

  lemma SymbolCleared(c: char, m: int)
    requires ValueOf(c).Some? && m > 0
    ensures Symbol(Cleared(ValueOf(c).value, m)) == c <==> ValueOf(c).value % m == 0
  {
    SymbolOfValue(c);
    ValueOfSymbol(Cleared(ValueOf(c).value, m));
  }

  lemma ChunkImage(s: string)
    requires 1 <= |s| <= 4 && DecodeChunk(s).Some?
    ensures EncodeChunk(DecodeChunk(s).value) == s <==> CanonicalTail(s)
  {
    SymbolOfValue(s[0]);
    SymbolOfValue(s[1]);
    if |s| == 2 {
      ReencodedPair(s, ValueOf(s[0]).value, ValueOf(s[1]).value);
      SymbolCleared(s[1], 16);
    } else if |s| == 3 {
      ReencodedTriple(s, ValueOf(s[0]).value, ValueOf(s[1]).value, ValueOf(s[2]).value);
      SymbolCleared(s[2], 4);
    } else {
      ReencodedQuad(s, ValueOf(s[0]).value, ValueOf(s[1]).value, ValueOf(s[2]).value, ValueOf(s[3]).value);
      SymbolOfValue(s[2]);
      SymbolOfValue(s[3]);
    }
  }

  /** A decodable text is the identity of some key exactly when its unused bits are zero;
      every other text the client accepts names a key under a spelling the registry
      never stores. */
  lemma {:induction false} ImageOfEncode(s: string)
    requires Decode(s).Some?
    ensures Encode(Decode(s).value) == s <==> CanonicalTail(s)
    decreases |s|
  {
    if s != "" {
      var head, tail := if |s| <= 4 then s else s[..4], if |s| <= 4 then "" else s[4..];
      assert s == head + tail;
      ChunkImage(head);
      ImageOfEncode(tail);
      DecodeStep(head, tail);
      EncodeStep(DecodeChunk(head).value, Decode(tail).value);
      CanonicalStep(head, tail);
      Concatenated(head, tail, EncodeChunk(DecodeChunk(head).value), Encode(Decode(tail).value));
    }
  }

  lemma CanonicalStep(head: string, tail: string)
    requires 1 <= |head| <= 4 && (|head| == 4 || tail == "")
    ensures CanonicalTail(head + tail) <==> CanonicalTail(head) && CanonicalTail(tail)
  {
    if tail != "" {
      assert (head + tail)[|head + tail| - 1] == tail[|tail| - 1];
    } else {
      assert head + tail == head;
    }
  }

  lemma Concatenated(a: string, b: string, x: string, y: string)
    requires |a| == |x|
    ensures a + b == x + y <==> a == x && b == y
  {
    assert (a + b)[..|a|] == a && (a + b)[|a|..] == b;
    assert (x + y)[..|x|] == x && (x + y)[|x|..] == y;
  }
}
