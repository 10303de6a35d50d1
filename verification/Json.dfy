/** Canonical serialisation: compact JSON whose text is then made safe for HTML, as the
    journal hashes and stores it. Texts are their UTF-8 bytes, as in Rust. */
module Json {
  import opened Basics

  datatype Value =
    | Null
    | Bool(b: bool)
    | Int(n: int)
    | Str(s: Bytes)
    | Arr(items: seq<Value>)
    | Obj(members: seq<Member>)

  datatype Member = Member(key: Bytes, value: Value)

  const QUOTE: byte := 0x22
  const BACKSLASH: byte := 0x5C

  // ---- Strings ----

  function HexDigit(v: int): (b: byte)
    requires 0 <= v < 16
  {
    if v < 10 then 0x30 + v else 0x61 + (v - 10)
  }

  /** `\u00` and the two hexadecimal digits of a control byte. */
  function ControlEscape(b: byte): (out: Bytes)
    requires b < 0x20
  {
    [BACKSLASH, 0x75, 0x30, 0x30, if b < 0x10 then 0x30 else 0x31, HexDigit(if b < 0x10 then b else b - 0x10)]
  }

  /** What the serialiser writes for one byte of a text. */
  function EscapeByte(b: byte): (out: Bytes)
  {
    if b == 0x08 then [BACKSLASH, 0x62]
    else if b == 0x09 then [BACKSLASH, 0x74]
    else if b == 0x0A then [BACKSLASH, 0x6E]
    else if b == 0x0C then [BACKSLASH, 0x66]
    else if b == 0x0D then [BACKSLASH, 0x72]
    else if b == QUOTE || b == BACKSLASH then [BACKSLASH, b]
    else if b < 0x20 then ControlEscape(b)
    else [b]
  }

  function SerdeBody(s: Bytes): Bytes
  {
    if s == [] then [] else EscapeByte(s[0]) + SerdeBody(s[1..])
  }

  predicate HtmlByte(b: byte)
  {
    b == 0x3C || b == 0x3E || b == 0x26
  }

  /** The UTF-8 form of U+2028 or U+2029. */
  predicate Separator(b: Bytes)
  {
    |b| >= 3 && b[0] == 0xE2 && b[1] == 0x80 && (b[2] == 0xA8 || b[2] == 0xA9)
  }

  /** `\u003c`, `\u003e` or `\u0026`. */
  function HtmlByteEscape(b: byte): (out: Bytes)
    requires HtmlByte(b)
  {
    if b == 0x3C then [BACKSLASH, 0x75, 0x30, 0x30, 0x33, 0x63]
    else if b == 0x3E then [BACKSLASH, 0x75, 0x30, 0x30, 0x33, 0x65]
    else [BACKSLASH, 0x75, 0x30, 0x30, 0x32, 0x36]
  }

  /** `\u2028` or `\u2029`, by the last byte of the separator. */
  function SeparatorEscape(last: byte): (out: Bytes)
  {
    [BACKSLASH, 0x75, 0x32, 0x30, 0x32, if last == 0xA8 then 0x38 else 0x39]
  }

  function HtmlEscape(b: Bytes): Bytes
  {
    if b == [] then []
    else if HtmlByte(b[0]) then HtmlByteEscape(b[0]) + HtmlEscape(b[1..])
    else if Separator(b) then SeparatorEscape(b[2]) + HtmlEscape(b[3..])
    else [b[0]] + HtmlEscape(b[1..])
  }

  method HtmlEscapeJson(input: Bytes) returns (out: Bytes)
    ensures out == HtmlEscape(input)
  {
    out := [];
    var i := 0;
    assert input[0..] == input;
    while i < |input|
      invariant i <= |input|
      invariant HtmlEscape(input) == out + HtmlEscape(input[i..])
    {
      ghost var rest := input[i..];
      var piece, width := [input[i]], 1;
      if HtmlByte(input[i]) {
        piece := HtmlByteEscape(input[i]);
      } else if i + 2 < |input| && input[i] == 0xE2 && input[i + 1] == 0x80
        && (input[i + 2] == 0xA8 || input[i + 2] == 0xA9) {
        piece, width := SeparatorEscape(input[i + 2]), 3;
      }
      assert rest[width..] == input[i + width..];
      Regrouped(out, piece, HtmlEscape(input[i + width..]));
      out := out + piece;
      i := i + width;
    }
  }

  /** How one step of writing a text goes: the bytes written, and how many it took. */
  function GoPiece(s: Bytes): (r: (Bytes, nat))
    requires s != []
    ensures 0 < r.1 <= |s|
  {
    if HtmlByte(s[0]) then (HtmlByteEscape(s[0]), 1)
    else if Separator(s) then (SeparatorEscape(s[2]), 3)
    else (EscapeByte(s[0]), 1)
  }

  /** The text of a string once both passes are done. */
  function GoBody(s: Bytes): Bytes
  {
    if s == [] then [] else GoPiece(s).0 + GoBody(s[GoPiece(s).1..])
  }

  // ---- A decoder for JSON strings (section 7 of RFC 8259) ----

  function HexValue(b: byte): (v: Option<int>)
    ensures v.Some? ==> 0 <= v.value < 16
  {
    if 0x30 <= b <= 0x39 then Some(b - 0x30)
    else if 0x61 <= b <= 0x66 then Some(b - 0x61 + 10)
    else if 0x41 <= b <= 0x46 then Some(b - 0x41 + 10)
    else None
  }

  function Hex4(b: Bytes): (v: Option<int>)
    requires |b| == 4
    ensures v.Some? ==> 0 <= v.value < 0x1_0000
  {
    var a, b, c, d := HexValue(b[0]), HexValue(b[1]), HexValue(b[2]), HexValue(b[3]);
    if a.None? || b.None? || c.None? || d.None? then None
    else Some(a.value * 4096 + b.value * 256 + c.value * 16 + d.value)
  }

  function Utf8(cp: int): Bytes
    requires 0 <= cp < 0x11_0000
  {
    if cp < 0x80 then [cp]
    else if cp < 0x800 then [0xC0 + cp / 64, 0x80 + cp % 64]
    else if cp < 0x1_0000 then [0xE0 + cp / 4096, 0x80 + cp / 64 % 64, 0x80 + cp % 64]
    else [0xF0 + cp / 262144, 0x80 + cp / 4096 % 64, 0x80 + cp / 64 % 64, 0x80 + cp % 64]
  }

  /** The content of one escape, and how many bytes it took. A lone surrogate is refused. */
  function DecodeEscape(b: Bytes): (r: Option<(Bytes, nat)>)
    requires |b| > 0 && b[0] == BACKSLASH
    ensures r.Some? ==> 0 < r.value.1 <= |b|
  {
    if |b| < 2 then None
    else if b[1] == QUOTE || b[1] == BACKSLASH || b[1] == 0x2F then Some(([b[1]], 2))
    else if b[1] == 0x62 then Some(([0x08], 2))
    else if b[1] == 0x66 then Some(([0x0C], 2))
    else if b[1] == 0x6E then Some(([0x0A], 2))
    else if b[1] == 0x72 then Some(([0x0D], 2))
    else if b[1] == 0x74 then Some(([0x09], 2))
    else if b[1] != 0x75 || |b| < 6 || Hex4(b[2..6]).None? then None
    else
      var cp := Hex4(b[2..6]).value;
      if 0xD800 <= cp < 0xDC00 then
        if |b| < 12 || b[6] != BACKSLASH || b[7] != 0x75 || Hex4(b[8..12]).None? then None
        else
          var low := Hex4(b[8..12]).value;
          if 0xDC00 <= low < 0xE000 then Some((Utf8(0x1_0000 + (cp - 0xD800) * 1024 + (low - 0xDC00)), 12)) else None
      else if 0xDC00 <= cp < 0xE000 then None
      else Some((Utf8(cp), 6))
  }

  /** Reads up to the closing quote: the text, and what follows the quote. */
  function DecodeBody(b: Bytes): Option<(Bytes, Bytes)>
  {
    if b == [] || b[0] < 0x20 then None
    else if b[0] == QUOTE then Some(([], b[1..]))
    else if b[0] == BACKSLASH then
      var e := DecodeEscape(b);
      if e.None? then None
      else
        var r := DecodeBody(b[e.value.1..]);
        if r.None? then None else Some((e.value.0 + r.value.0, r.value.1))
    else
      var r := DecodeBody(b[1..]);
      if r.None? then None else Some(([b[0]] + r.value.0, r.value.1))
  }

  /** One `\u` escape outside the surrogates decodes to the UTF-8 form of its code point. */
  lemma DecodeUnicode(escape: Bytes, cp: int, t: Bytes)
    requires |escape| == 6 && escape[0] == BACKSLASH && escape[1] == 0x75 && Hex4(escape[2..6]) == Some(cp)
    requires 0 <= cp < 0xD800 && DecodeBody(t).Some?
    ensures DecodeBody(escape + t) == Some((Utf8(cp) + DecodeBody(t).value.0, DecodeBody(t).value.1))
  {
    var b := escape + t;
    assert b[2..6] == escape[2..6];
    assert b[6..] == t;
  }

  lemma DecodeEscapedByte(b: byte, t: Bytes)
    requires DecodeBody(t).Some?
    ensures DecodeBody(EscapeByte(b) + t) == Some(([b] + DecodeBody(t).value.0, DecodeBody(t).value.1))
  {
    var e := EscapeByte(b);
    if |e| == 6 {
      DecodeUnicode(e, b, t);
    } else {
      assert (e + t)[|e|..] == t;
    }
  }

  lemma SeparatorCode(last: byte)
    requires last == 0xA8 || last == 0xA9
    ensures var cp := if last == 0xA8 then 0x2028 else 0x2029;
            Hex4(SeparatorEscape(last)[2..6]) == Some(cp) && Utf8(cp) == [0xE2, 0x80, last]
  {
    var digits := SeparatorEscape(last)[2..6];
    assert digits == [0x32, 0x30, 0x32, if last == 0xA8 then 0x38 else 0x39];
  }

  lemma DecodePiece(s: Bytes, t: Bytes)
    requires s != [] && DecodeBody(t).Some?
    ensures DecodeBody(GoPiece(s).0 + t) == Some((s[..GoPiece(s).1] + DecodeBody(t).value.0, DecodeBody(t).value.1))
  {
    if HtmlByte(s[0]) {
      DecodeUnicode(HtmlByteEscape(s[0]), s[0], t);
      assert Utf8(s[0]) == s[..1];
    } else if Separator(s) {
      SeparatorCode(s[2]);
      DecodeUnicode(SeparatorEscape(s[2]), if s[2] == 0xA8 then 0x2028 else 0x2029, t);
      assert s[..3] == [0xE2, 0x80, s[2]];
    } else {
      DecodeEscapedByte(s[0], t);
      assert [s[0]] == s[..1];
    }
  }

  /** Reading back a serialised, escaped text gives the original and stops at its quote. */
  lemma {:induction false} DecodeGoBody(s: Bytes, rest: Bytes)
    ensures DecodeBody(GoBody(s) + ([QUOTE] + rest)) == Some((s, rest))
    decreases |s|
  {
    var end := [QUOTE] + rest;
    if s == [] {
      assert GoBody(s) + end == end && end[1..] == rest;
    } else {
      var (piece, k) := GoPiece(s);
      DecodeGoBody(s[k..], rest);
      DecodePiece(s, GoBody(s[k..]) + end);
      Regrouped(piece, GoBody(s[k..]), end);
      assert s == s[..k] + s[k..];
    }
  }

  // ---- Escaping after serialising equals escaping while serialising ----

  /** What may follow a text without completing a separator that starts in it. */
  predicate AsciiStart(t: Bytes)
  {
    t == [] || t[0] < 0x80
  }

  lemma HeadTail(p: Bytes, t: Bytes)
    requires p != []
    ensures p + t == [p[0]] + (p[1..] + t)
  {
  }

  lemma HtmlPlainByte(x: byte, t: Bytes)
    requires x < 0x80 && !HtmlByte(x)
    ensures HtmlEscape([x] + t) == [x] + HtmlEscape(t)
  {
    assert ([x] + t)[1..] == t;
  }

  ghost predicate Plain(p: Bytes)
  {
    forall b | b in p :: b < 0x80 && !HtmlByte(b)
  }

  lemma {:induction false} HtmlPlain(p: Bytes, t: Bytes)
    requires Plain(p)
    ensures HtmlEscape(p + t) == p + HtmlEscape(t)
    decreases |p|
  {
    if p == [] {
      assert p + t == t;
    } else {
      HeadTail(p, t);
      HeadTail(p, HtmlEscape(t));
      HtmlPlain(p[1..], t);
      assert p[0] in p && forall b | b in p[1..] :: b in p;
      HtmlPlainByte(p[0], p[1..] + t);
    }
  }

  lemma EscapeByteShape(b: byte)
    ensures b >= 0x80 ==> EscapeByte(b) == [b]
    ensures b < 0x80 && !HtmlByte(b) ==> forall x | x in EscapeByte(b) :: x < 0x80 && !HtmlByte(x)
    ensures HtmlByte(b) ==> EscapeByte(b) == [b]
    ensures |EscapeByte(b)| > 0 && (EscapeByte(b)[0] >= 0x80 ==> EscapeByte(b) == [b])
  {
  }

  /** High bytes go through the serialiser one for one. */
  lemma HighByteSeen(s: Bytes, t: Bytes)
    requires AsciiStart(t)
    ensures var b := SerdeBody(s) + t;
            (b != [] && b[0] >= 0x80 <==> s != [] && s[0] >= 0x80)
            && (s != [] && s[0] >= 0x80 ==> b[0] == s[0] && b[1..] == SerdeBody(s[1..]) + t)
  {
    if s != [] {
      EscapeByteShape(s[0]);
      assert SerdeBody(s) + t == EscapeByte(s[0]) + (SerdeBody(s[1..]) + t);
    }
  }

  /** `b`, `c`, `d` are a text and its tails, agreeing with `s` on high bytes. */
  lemma SeparatorTransfers(s: Bytes, b: Bytes, c: Bytes, d: Bytes)
    requires s != [] && s[0] >= 0x80 && b != [] && b[0] == s[0] && b[1..] == c
    requires (c != [] && c[0] >= 0x80) == (|s| > 1 && s[1] >= 0x80)
    requires |s| > 1 && s[1] >= 0x80 ==> c[0] == s[1] && c[1..] == d
    requires |s| > 1 && s[1] >= 0x80 ==> (d != [] && d[0] >= 0x80) == (|s| > 2 && s[2] >= 0x80)
    requires |s| > 2 && s[1] >= 0x80 && s[2] >= 0x80 ==> d[0] == s[2]
    ensures Separator(b) <==> Separator(s)
    ensures Separator(s) ==> b[2] == s[2] && b[3..] == d[1..]
  {
    if |b| > 1 {
      assert b[1] == c[0];
      if |b| > 2 {
        assert b[2] == c[1];
      }
    }
  }

  lemma SeparatorSeen(s: Bytes, t: Bytes)
    requires AsciiStart(t) && s != [] && s[0] >= 0x80
    ensures Separator(SerdeBody(s) + t) <==> Separator(s)
    ensures Separator(s) ==> (SerdeBody(s) + t)[2] == s[2] && (SerdeBody(s) + t)[3..] == SerdeBody(s[3..]) + t
  {
    var b, c := SerdeBody(s) + t, SerdeBody(s[1..]) + t;
    var d := if |s| > 1 then SerdeBody(s[2..]) + t else [];
    HighByteSeen(s, t);
    HighByteSeen(s[1..], t);
    if |s| > 1 {
      assert s[1..][1..] == s[2..];
      HighByteSeen(s[2..], t);
      if |s| > 2 {
        assert s[2..][1..] == s[3..];
      }
    }
    SeparatorTransfers(s, b, c, d);
  }

  lemma {:induction false} HtmlOfBody(s: Bytes, t: Bytes)
    requires AsciiStart(t)
    ensures HtmlEscape(SerdeBody(s) + t) == GoBody(s) + HtmlEscape(t)
    decreases |s|
  {
    if s == [] {
      assert SerdeBody(s) + t == t;
    } else {
      var (piece, k) := GoPiece(s);
      HtmlOfBody(s[k..], t);
      HtmlStep(s, t);
      Regrouped(piece, GoBody(s[k..]), HtmlEscape(t));
    }
  }

  lemma HighStep(s: Bytes, b: Bytes, after1: Bytes, after3: Bytes)
    requires s != [] && s[0] >= 0x80 && b != [] && b[0] == s[0] && b[1..] == after1
    requires (Separator(b) <==> Separator(s)) && (Separator(s) ==> b[2] == s[2] && b[3..] == after3)
    ensures HtmlEscape(b) == GoPiece(s).0 + HtmlEscape(if Separator(s) then after3 else after1)
    ensures GoPiece(s).1 == if Separator(s) then 3 else 1
  {
  }

  /** Escaping the serialised text proceeds piece by piece. */
  lemma HtmlStep(s: Bytes, t: Bytes)
    requires AsciiStart(t) && s != []
    ensures HtmlEscape(SerdeBody(s) + t) == GoPiece(s).0 + HtmlEscape(SerdeBody(s[GoPiece(s).1..]) + t)
  {
    var b, tail := SerdeBody(s) + t, SerdeBody(s[1..]) + t;
    if s[0] >= 0x80 {
      SeparatorSeen(s, t);
      HighByteSeen(s, t);
      HighStep(s, b, tail, if Separator(s) then SerdeBody(s[3..]) + t else []);
    } else {
      assert b == EscapeByte(s[0]) + tail;
      LowStep(s[0], tail);
    }
  }

  lemma LowStep(x: byte, tail: Bytes)
    requires x < 0x80
    ensures HtmlEscape(EscapeByte(x) + tail) == (if HtmlByte(x) then HtmlByteEscape(x) else EscapeByte(x))
            + HtmlEscape(tail)
  {
    EscapeByteShape(x);
    if HtmlByte(x) {
      assert ([x] + tail)[1..] == tail;
    } else {
      HtmlPlain(EscapeByte(x), tail);
    }
  }

  /** A whole string value. */
  function JsonString(s: Bytes): Bytes
  {
    [QUOTE] + SerdeBody(s) + [QUOTE]
  }

  /** A string value after both passes. */
  function GoString(s: Bytes): Bytes
  {
    [QUOTE] + (GoBody(s) + [QUOTE])
  }

  lemma HtmlOfString(s: Bytes, t: Bytes)
    ensures HtmlEscape(JsonString(s) + t) == GoString(s) + HtmlEscape(t)
  {
    var end := [QUOTE] + t;
    HtmlPlain([QUOTE], t);
    HtmlOfBody(s, end);
    HtmlPlain([QUOTE], SerdeBody(s) + end);
    assert JsonString(s) + t == [QUOTE] + (SerdeBody(s) + end);
    assert GoBody(s) + ([QUOTE] + HtmlEscape(t)) == (GoBody(s) + [QUOTE]) + HtmlEscape(t);
    Regrouped([QUOTE], GoBody(s) + [QUOTE], HtmlEscape(t));
  }

  /** Serialise a text, escape it, read it back: the original text. */
  lemma StringRoundTrip(s: Bytes)
    ensures var text := HtmlEscape(JsonString(s));
            text == GoString(s) && DecodeBody(text[1..]) == Some((s, []))
  {
    HtmlOfString(s, []);
    assert JsonString(s) + [] == JsonString(s) && GoString(s) + [] == GoString(s);
    DecodeGoBody(s, []);
    assert GoString(s)[1..] == GoBody(s) + ([QUOTE] + []);
  }

  /** The serialised text holds no control byte, so it stays on one line. */
  lemma {:induction false} BodyHasNoControl(s: Bytes)
    ensures forall x | x in GoBody(s) :: x >= 0x20
    decreases |s|
  {
    if s != [] {
      var (piece, k) := GoPiece(s);
      BodyHasNoControl(s[k..]);
    }
  }

  // ---- What the escape guarantees on any input ----

  /** Free of raw `<`, `>`, `&` and of the two separators. */
  ghost predicate HtmlSafe(b: Bytes)
  {
    forall i | 0 <= i < |b| :: !HtmlByte(b[i]) && !Separator(b[i..])
  }

  lemma {:induction false} SafeAfter(p: Bytes, t: Bytes)
    requires HtmlSafe(t) && forall x | x in p :: x < 0x80 && !HtmlByte(x)
    ensures HtmlSafe(p + t)
    decreases |p|
  {
    var b := p + t;
    forall i | 0 <= i < |b|
      ensures !HtmlByte(b[i]) && !Separator(b[i..])
    {
      if i < |p| {
        assert b[i] == p[i] && p[i] in p && b[i..][0] == p[i];
      } else {
        assert b[i] == t[i - |p|] && b[i..] == t[i - |p|..];
      }
    }
  }

  /** Escaping neither makes nor moves a high byte: a prefix of two of them comes from the input. */
  lemma HighBytesKept(b: Bytes)
    ensures |HtmlEscape(b)| > 0 && HtmlEscape(b)[0] >= 0x80 ==>
              |b| > 0 && HtmlEscape(b)[0] == b[0] && HtmlEscape(b)[1..] == HtmlEscape(b[1..])
  {
  }

  /** The escaped text is safe, whatever the input. */
  lemma {:induction false} EscapeIsSafe(b: Bytes)
    ensures HtmlSafe(HtmlEscape(b))
    decreases |b|
  {
    if b == [] {
    } else if HtmlByte(b[0]) {
      EscapeIsSafe(b[1..]);
      SafeAfter(HtmlByteEscape(b[0]), HtmlEscape(b[1..]));
    } else if Separator(b) {
      EscapeIsSafe(b[3..]);
      SafeAfter(SeparatorEscape(b[2]), HtmlEscape(b[3..]));
    } else {
      var t := HtmlEscape(b[1..]);
      EscapeIsSafe(b[1..]);
      HighBytesKept(b[1..]);
      if |b| > 2 {
        HighBytesKept(b[2..]);
        assert b[1..][1..] == b[2..];
      }
      var out := [b[0]] + t;
      forall i | 0 <= i < |out|
        ensures !HtmlByte(out[i]) && !Separator(out[i..])
      {
        if i > 0 {
          assert out[i] == t[i - 1] && out[i..] == t[i - 1..];
        }
      }
    }
  }

  lemma {:induction false} SafeIsFixed(b: Bytes)
    requires HtmlSafe(b)
    ensures HtmlEscape(b) == b
    decreases |b|
  {
    if b != [] {
      assert b[0..] == b;
      var t := b[1..];
      forall i | 0 <= i < |t|
        ensures !HtmlByte(t[i]) && !Separator(t[i..])
      {
        assert t[i] == b[i + 1] && t[i..] == b[i + 1..];
      }
      SafeIsFixed(t);
      assert b == [b[0]] + t;
    }
  }

  lemma EscapeIsIdempotent(b: Bytes)
    ensures HtmlEscape(HtmlEscape(b)) == HtmlEscape(b)
  {
    EscapeIsSafe(b);
    SafeIsFixed(HtmlEscape(b));
  }
}
