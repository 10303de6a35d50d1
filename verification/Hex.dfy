/** Lower-case hexadecimal, the form serial numbers take as keys. */
module Hex {
  import opened Basics
  import opened Order

  type nibble = x: int | 0 <= x < 16

  function Digit(v: nibble): (c: char)
    ensures '0' <= c <= '9' || 'a' <= c <= 'f'
  {
    if v < 10 then ('0' as int + v) as char else ('a' as int + (v - 10)) as char
  }

  function NibbleOf(c: char): Option<nibble>
  {
    if '0' <= c <= '9' then Some(c as int - '0' as int)
    else if 'a' <= c <= 'f' then Some(c as int - 'a' as int + 10)
    else None
  }

  function Pair(b: byte): string
  {
    [Digit(b / 16), Digit(b % 16)]
  }

  function Encode(s: Bytes): (h: string)
    ensures |h| == 2 * |s|
  {
    if s == [] then "" else Pair(s[0]) + Encode(s[1..])
  }

  function Decode(h: string): Option<Bytes>
  {
    if h == "" then Some([])
    else if |h| == 1 || NibbleOf(h[0]).None? || NibbleOf(h[1]).None? || Decode(h[2..]).None? then None
    else Some([NibbleOf(h[0]).value * 16 + NibbleOf(h[1]).value] + Decode(h[2..]).value)
  }

  lemma DigitRoundTrip(v: nibble)
    ensures NibbleOf(Digit(v)) == Some(v)
  {
  }

  lemma {:induction false} RoundTrip(s: Bytes)
    ensures Decode(Encode(s)) == Some(s)
  {
    if s != [] {
      RoundTrip(s[1..]);
      assert Encode(s)[2..] == Encode(s[1..]) && s == [s[0]] + s[1..];
      DigitRoundTrip(s[0] / 16);
      DigitRoundTrip(s[0] % 16);
      assert Encode(s)[0] == Digit(s[0] / 16) && Encode(s)[1] == Digit(s[0] % 16);
    }
  }

  /** The order of byte strings, as vectors compare. */
  predicate BytesLeq(a: Bytes, b: Bytes)
  {
    a == [] || (b != [] && (a[0] < b[0] || (a[0] == b[0] && BytesLeq(a[1..], b[1..]))))
  }

  lemma DigitsOrder(x: byte, y: byte)
    ensures Digit(x / 16) < Digit(y / 16) || (Digit(x / 16) == Digit(y / 16) && Digit(x % 16) < Digit(y % 16)) <==>
            x < y
    ensures Digit(x / 16) == Digit(y / 16) && Digit(x % 16) == Digit(y % 16) <==> x == y
  {
  }

  lemma TwoAhead(a: string, b: string)
    requires |a| >= 2 && |b| >= 2
    ensures Leq(a, b) <==>
            a[0] < b[0] || (a[0] == b[0] && (a[1] < b[1] || (a[1] == b[1] && Leq(a[2..], b[2..]))))
  {
    assert a[1..][1..] == a[2..] && b[1..][1..] == b[2..];
  }

  /** Encoding keeps the order: sorting by key is sorting by serial. */
  lemma {:induction false} KeepsOrder(a: Bytes, b: Bytes)
    ensures Leq(Encode(a), Encode(b)) <==> BytesLeq(a, b)
    decreases |a|
  {
    if a != [] && b != [] {
      KeepsOrder(a[1..], b[1..]);
      TwoAhead(Encode(a), Encode(b));
      DigitsOrder(a[0], b[0]);
      assert Encode(a)[2..] == Encode(a[1..]) && Encode(b)[2..] == Encode(b[1..]);
    }
  }
}
