/** Whole values: escaping the serialised text equals serialising with escaped strings,
    the text is one line, and it determines the value it came from. */
module Canonical {
  import opened Basics
  import opened Json

  const COMMA: byte := 0x2C
  const COLON: byte := 0x3A
  const MINUS: byte := 0x2D

  function Digits(n: nat): (out: Bytes)
    ensures |out| > 0 && forall x | x in out :: 0x30 <= x <= 0x39
  {
    if n < 10 then [0x30 + n] else Digits(n / 10) + [0x30 + n % 10]
  }

  function Decimal(n: int): (out: Bytes)
    ensures |out| > 0 && (out[0] == MINUS || 0x30 <= out[0] <= 0x39)
    ensures forall x | x in out :: x == MINUS || 0x30 <= x <= 0x39
  {
    if n < 0 then [MINUS] + Digits(-n)
    else
      var ds := Digits(n);
      assert ds[0] in ds;
      ds
  }

  function Text(s: Bytes, html: bool): Bytes
  {
    if html then GoString(s) else JsonString(s)
  }

  /** Compact serialisation; `html` chooses whether strings are already escaped. */
  function Serialize(v: Value, html: bool): Bytes
    decreases v
  {
    match v
    case Null => [0x6E, 0x75, 0x6C, 0x6C]
    case Bool(true) => [0x74, 0x72, 0x75, 0x65]
    case Bool(false) => [0x66, 0x61, 0x6C, 0x73, 0x65]
    case Int(n) => Decimal(n)
    case Str(s) => Text(s, html)
    case Arr(items) => [0x5B] + (if items == [] then [0x5D] else Serialize(items[0], html) + Items(items[1..], html))
    case Obj(members) => [0x7B] + (if members == [] then [0x7D]
                                   else Pair(members[0], html) + Members(members[1..], html))
  }

  /** The remaining items of an array, each after its comma, and the closing bracket. */
  function Items(items: seq<Value>, html: bool): Bytes
    decreases items
  {
    if items == [] then [0x5D] else [COMMA] + (Serialize(items[0], html) + Items(items[1..], html))
  }

  function Pair(m: Member, html: bool): Bytes
    decreases m
  {
    Text(m.key, html) + ([COLON] + Serialize(m.value, html))
  }

  function Members(members: seq<Member>, html: bool): Bytes
    decreases members
  {
    if members == [] then [0x7D] else [COMMA] + (Pair(members[0], html) + Members(members[1..], html))
  }

  // ---- The two passes agree with one ----

  lemma HtmlOfText(s: Bytes, t: Bytes)
    ensures HtmlEscape(Text(s, false) + t) == Text(s, true) + HtmlEscape(t)
  {
    HtmlOfString(s, t);
  }

  lemma Associate(x: byte, a: Bytes, b: Bytes, t: Bytes)
    ensures ([x] + (a + b)) + t == [x] + (a + (b + t))
  {
  }

  /** A plain byte and two parts that each escape well escape well together. */
  lemma HtmlJoin(x: byte, a: Bytes, a': Bytes, b: Bytes, b': Bytes, t: Bytes)
    requires x < 0x80 && !HtmlByte(x)
    requires HtmlEscape(b + t) == b' + HtmlEscape(t)
    requires HtmlEscape(a + (b + t)) == a' + HtmlEscape(b + t)
    ensures HtmlEscape(([x] + (a + b)) + t) == ([x] + (a' + b')) + HtmlEscape(t)
  {
    HtmlPlain([x], a + (b + t));
    Associate(x, a, b, t);
    Associate(x, a', b', HtmlEscape(t));
  }

  lemma {:induction false} HtmlOfValue(v: Value, t: Bytes)
    ensures HtmlEscape(Serialize(v, false) + t) == Serialize(v, true) + HtmlEscape(t)
    decreases v
  {
    match v
    case Null => HtmlPlain(Serialize(v, false), t);
    case Bool(b) => HtmlPlain(Serialize(v, false), t);
    case Int(n) => HtmlPlain(Decimal(n), t);
    case Str(s) => HtmlOfText(s, t);
    case Arr(items) =>
      if items == [] {
        HtmlPlain([0x5B] + [0x5D], t);
      } else {
        var rest := items[1..];
        HtmlOfItems(rest, t);
        HtmlOfValue(items[0], Items(rest, false) + t);
        HtmlJoin(0x5B, Serialize(items[0], false), Serialize(items[0], true), Items(rest, false), Items(rest, true), t);
      }
    case Obj(members) =>
      if members == [] {
        HtmlPlain([0x7B] + [0x7D], t);
      } else {
        var rest := members[1..];
        HtmlOfMembers(rest, t);
        HtmlOfPair(members[0], Members(rest, false) + t);
        HtmlJoin(0x7B, Pair(members[0], false), Pair(members[0], true), Members(rest, false), Members(rest, true), t);
      }
  }

  lemma {:induction false} HtmlOfItems(items: seq<Value>, t: Bytes)
    ensures HtmlEscape(Items(items, false) + t) == Items(items, true) + HtmlEscape(t)
    decreases items
  {
    if items == [] {
      HtmlPlain([0x5D], t);
    } else {
      var rest := items[1..];
      HtmlOfItems(rest, t);
      HtmlOfValue(items[0], Items(rest, false) + t);
      HtmlJoin(COMMA, Serialize(items[0], false), Serialize(items[0], true), Items(rest, false), Items(rest, true), t);
    }
  }

  lemma {:induction false} HtmlOfPair(m: Member, t: Bytes)
    ensures HtmlEscape(Pair(m, false) + t) == Pair(m, true) + HtmlEscape(t)
    decreases m
  {
    var value := Serialize(m.value, false);
    HtmlOfValue(m.value, t);
    HtmlPlain([COLON], value + t);
    HtmlOfText(m.key, [COLON] + (value + t));
    AssociatePair(Text(m.key, false), COLON, value, t);
    AssociatePair(Text(m.key, true), COLON, Serialize(m.value, true), HtmlEscape(t));
  }

  lemma AssociatePair(k: Bytes, x: byte, v: Bytes, t: Bytes)
    ensures (k + ([x] + v)) + t == k + ([x] + (v + t))
  {
  }

  lemma {:induction false} HtmlOfMembers(members: seq<Member>, t: Bytes)
    ensures HtmlEscape(Members(members, false) + t) == Members(members, true) + HtmlEscape(t)
    decreases members
  {
    if members == [] {
      HtmlPlain([0x7D], t);
    } else {
      var rest := members[1..];
      HtmlOfMembers(rest, t);
      HtmlOfPair(members[0], Members(rest, false) + t);
      HtmlJoin(COMMA, Pair(members[0], false), Pair(members[0], true), Members(rest, false), Members(rest, true), t);
    }
  }

  /** Serialise, then escape: the journal's two passes. */
  function ToJson(v: Value): Bytes
  {
    HtmlEscape(Serialize(v, false))
  }

  lemma ToJsonIsSerialize(v: Value)
    ensures ToJson(v) == Serialize(v, true)
  {
    HtmlOfValue(v, []);
    assert Serialize(v, false) + [] == Serialize(v, false) && Serialize(v, true) + [] == Serialize(v, true);
  }

  // ---- One line ----

  ghost predicate NoControl(b: Bytes)
  {
    forall x | x in b :: x >= 0x20
  }

  lemma {:induction false} SerializeHasNoControl(v: Value)
    ensures NoControl(Serialize(v, true))
    decreases v
  {
    match v
    case Str(s) => BodyHasNoControl(s);
    case Arr(items) =>
      if items != [] {
        SerializeHasNoControl(items[0]);
        ItemsHaveNoControl(items[1..]);
      }
    case Obj(members) =>
      if members != [] {
        PairHasNoControl(members[0]);
        MembersHaveNoControl(members[1..]);
      }
    case _ =>
  }

  lemma {:induction false} ItemsHaveNoControl(items: seq<Value>)
    ensures NoControl(Items(items, true))
    decreases items
  {
    if items != [] {
      SerializeHasNoControl(items[0]);
      ItemsHaveNoControl(items[1..]);
    }
  }

  lemma {:induction false} PairHasNoControl(m: Member)
    ensures NoControl(Pair(m, true))
    decreases m
  {
    BodyHasNoControl(m.key);
    SerializeHasNoControl(m.value);
  }

  lemma {:induction false} MembersHaveNoControl(members: seq<Member>)
    ensures NoControl(Members(members, true))
    decreases members
  {
    if members != [] {
      PairHasNoControl(members[0]);
      MembersHaveNoControl(members[1..]);
    }
  }

  // ---- The text determines the value ----

  /** What may follow a number without lengthening it. */
  predicate NoDigit(r: Bytes)
  {
    r == [] || !(0x30 <= r[0] <= 0x39)
  }

  function NumberOf(ds: Bytes): int
  {
    if ds == [] then 0 else NumberOf(ds[..|ds| - 1]) * 10 + (ds[|ds| - 1] as int - 0x30)
  }

  lemma {:induction false} NumberOfDigits(n: nat)
    ensures NumberOf(Digits(n)) == n
    decreases n
  {
    if n < 10 {
      assert Digits(n)[..0] == [];
    } else {
      NumberOfDigits(n / 10);
      assert Digits(n)[..|Digits(n)| - 1] == Digits(n / 10);
    }
  }

  lemma SplitAt(a: Bytes, b: Bytes, r: Bytes, s: Bytes)
    requires a + r == b + s && |a| == |b|
    ensures a == b && r == s
  {
    assert a == (a + r)[..|a|] && b == (b + s)[..|b|];
    assert r == (a + r)[|a|..] && s == (b + s)[|b|..];
  }

  function LeadingDigits(b: Bytes): nat
  {
    if NoDigit(b) then 0 else 1 + LeadingDigits(b[1..])
  }

  lemma {:induction false} DigitsLead(ds: Bytes, r: Bytes)
    requires NoDigit(r) && forall x | x in ds :: 0x30 <= x <= 0x39
    ensures LeadingDigits(ds + r) == |ds|
    decreases |ds|
  {
    if ds == [] {
      assert ds + r == r;
    } else {
      assert forall x | x in ds[1..] :: x in ds;
      DigitsLead(ds[1..], r);
      assert (ds + r)[1..] == ds[1..] + r;
      assert (ds + r)[0] == ds[0] && ds[0] in ds;
    }
  }

  lemma DigitsDetermine(m: nat, n: nat, r: Bytes, s: Bytes)
    requires Digits(m) + r == Digits(n) + s && NoDigit(r) && NoDigit(s)
    ensures m == n && r == s
  {
    DigitsLead(Digits(m), r);
    DigitsLead(Digits(n), s);
    SplitAt(Digits(m), Digits(n), r, s);
    NumberOfDigits(m);
    NumberOfDigits(n);
  }

  lemma DecimalDetermines(m: int, n: int, r: Bytes, s: Bytes)
    requires Decimal(m) + r == Decimal(n) + s && NoDigit(r) && NoDigit(s)
    ensures m == n && r == s
  {
    SignTells(m, r);
    SignTells(n, s);
    if m < 0 {
      DigitsDetermine(-m, -n, r, s);
    } else {
      DigitsDetermine(m, n, r, s);
    }
  }

  lemma SignTells(n: int, r: Bytes)
    ensures Decimal(n) + r != [] && ((Decimal(n) + r)[0] == MINUS <==> n < 0)
    ensures n < 0 ==> (Decimal(n) + r)[1..] == Digits(-n) + r
  {
    if n >= 0 {
      assert Digits(n)[0] in Digits(n);
    }
  }

  lemma TextTail(a: Bytes, r: Bytes)
    ensures (Text(a, true) + r)[1..] == GoBody(a) + ([QUOTE] + r)
  {
    assert Text(a, true) == [QUOTE] + (GoBody(a) + [QUOTE]);
  }

  lemma TextDetermines(a: Bytes, b: Bytes, r: Bytes, s: Bytes)
    requires Text(a, true) + r == Text(b, true) + s
    ensures a == b && r == s
  {
    TextTail(a, r);
    TextTail(b, s);
    DecodeGoBody(a, r);
    DecodeGoBody(b, s);
  }

  /** The first byte of a value tells its kind. */
  lemma FirstByte(v: Value)
    ensures Serialize(v, true) != []
    ensures var x := Serialize(v, true)[0];
            && (v.Null? <==> x == 0x6E)
            && (v == Bool(true) <==> x == 0x74)
            && (v == Bool(false) <==> x == 0x66)
            && (v.Int? <==> x == MINUS || 0x30 <= x <= 0x39)
            && (v.Str? <==> x == QUOTE)
            && (v.Arr? <==> x == 0x5B)
            && (v.Obj? <==> x == 0x7B)
  {
  }

  lemma SameKind(v: Value, w: Value, r: Bytes, s: Bytes)
    requires Serialize(v, true) + r == Serialize(w, true) + s
    ensures (v.Null? <==> w.Null?) && (v.Bool? <==> w.Bool?) && (v.Bool? ==> v == w) && (v.Int? <==> w.Int?)
    ensures (v.Str? <==> w.Str?) && (v.Arr? <==> w.Arr?) && (v.Obj? <==> w.Obj?)
  {
    FirstByte(v);
    FirstByte(w);
    assert (Serialize(v, true) + r)[0] == Serialize(v, true)[0];
    assert (Serialize(w, true) + s)[0] == Serialize(w, true)[0];
  }

  lemma AfterFirst(x: byte, head: Bytes, tail: Bytes, r: Bytes)
    ensures (([x] + (head + tail)) + r)[0] == x
    ensures (([x] + (head + tail)) + r)[1..] == head + (tail + r)
  {
  }

  /** Unique readability: a value is determined by any text it begins. */
  lemma {:induction false} Determines(v: Value, w: Value, r: Bytes, s: Bytes)
    requires Serialize(v, true) + r == Serialize(w, true) + s && NoDigit(r) && NoDigit(s)
    ensures v == w && r == s
    decreases v
  {
    SameKind(v, w, r, s);
    match v
    case Null => SplitAt(Serialize(v, true), Serialize(w, true), r, s);
    case Bool(_) => SplitAt(Serialize(v, true), Serialize(w, true), r, s);
    case Int(n) => DecimalDetermines(n, w.n, r, s);
    case Str(t) => TextDetermines(t, w.s, r, s);
    case Arr(items) => ArrayDetermines(items, w.items, r, s);
    case Obj(members) => ObjectDetermines(members, w.members, r, s);
  }

  lemma {:induction false} ArrayDetermines(a: seq<Value>, b: seq<Value>, r: Bytes, s: Bytes)
    requires Serialize(Arr(a), true) + r == Serialize(Arr(b), true) + s
    ensures a == b && r == s
    decreases a, 1
  {
    OpensArray(a, r);
    OpensArray(b, s);
    if a == [] {
      SplitAt(Serialize(Arr(a), true), Serialize(Arr(b), true), r, s);
    } else {
      var at, bt := Items(a[1..], true), Items(b[1..], true);
      AfterFirst(0x5B, Serialize(a[0], true), at, r);
      AfterFirst(0x5B, Serialize(b[0], true), bt, s);
      Determines(a[0], b[0], at + r, bt + s);
      ItemsDetermine(a[1..], b[1..], r, s);
      assert a == [a[0]] + a[1..] && b == [b[0]] + b[1..];
    }
  }

  /** The second byte tells an empty array from the others. */
  lemma OpensArray(a: seq<Value>, r: Bytes)
    ensures var text := Serialize(Arr(a), true) + r; |text| > 1 && (text[1] == 0x5D <==> a == [])
  {
    if a != [] {
      FirstByte(a[0]);
      AfterFirst(0x5B, Serialize(a[0], true), Items(a[1..], true), r);
      assert (Serialize(Arr(a), true) + r)[1] == Serialize(a[0], true)[0];
    }
  }

  lemma {:induction false} ItemsDetermine(a: seq<Value>, b: seq<Value>, r: Bytes, s: Bytes)
    requires Items(a, true) + r == Items(b, true) + s
    ensures a == b && r == s
    decreases a, 0
  {
    assert (Items(a, true) + r)[0] == Items(a, true)[0] && (Items(b, true) + s)[0] == Items(b, true)[0];
    if a == [] {
      SplitAt([0x5D], [0x5D], r, s);
    } else {
      var at, bt := Items(a[1..], true), Items(b[1..], true);
      AfterFirst(COMMA, Serialize(a[0], true), at, r);
      AfterFirst(COMMA, Serialize(b[0], true), bt, s);
      Determines(a[0], b[0], at + r, bt + s);
      ItemsDetermine(a[1..], b[1..], r, s);
      assert a == [a[0]] + a[1..] && b == [b[0]] + b[1..];
    }
  }

  lemma {:induction false} PairDetermines(m: Member, n: Member, r: Bytes, s: Bytes)
    requires Pair(m, true) + r == Pair(n, true) + s && NoDigit(r) && NoDigit(s)
    ensures m == n && r == s
    decreases m
  {
    var mv, nv := Serialize(m.value, true), Serialize(n.value, true);
    AssociatePair(Text(m.key, true), COLON, mv, r);
    AssociatePair(Text(n.key, true), COLON, nv, s);
    TextDetermines(m.key, n.key, [COLON] + (mv + r), [COLON] + (nv + s));
    SplitAt([COLON], [COLON], mv + r, nv + s);
    Determines(m.value, n.value, r, s);
  }

  lemma {:induction false} ObjectDetermines(a: seq<Member>, b: seq<Member>, r: Bytes, s: Bytes)
    requires Serialize(Obj(a), true) + r == Serialize(Obj(b), true) + s
    ensures a == b && r == s
    decreases a, 1
  {
    OpensObject(a, r);
    OpensObject(b, s);
    if a == [] {
      SplitAt(Serialize(Obj(a), true), Serialize(Obj(b), true), r, s);
    } else {
      var at, bt := Members(a[1..], true), Members(b[1..], true);
      AfterFirst(0x7B, Pair(a[0], true), at, r);
      AfterFirst(0x7B, Pair(b[0], true), bt, s);
      PairDetermines(a[0], b[0], at + r, bt + s);
      MembersDetermine(a[1..], b[1..], r, s);
      assert a == [a[0]] + a[1..] && b == [b[0]] + b[1..];
    }
  }

  lemma PairOpens(m: Member)
    ensures Pair(m, true) != [] && Pair(m, true)[0] == QUOTE
  {
  }

  lemma OpensObject(a: seq<Member>, r: Bytes)
    ensures var text := Serialize(Obj(a), true) + r; |text| > 1 && (text[1] == 0x7D <==> a == [])
  {
    if a != [] {
      PairOpens(a[0]);
      AfterFirst(0x7B, Pair(a[0], true), Members(a[1..], true), r);
      assert (Serialize(Obj(a), true) + r)[1] == Pair(a[0], true)[0];
    }
  }

  lemma {:induction false} MembersDetermine(a: seq<Member>, b: seq<Member>, r: Bytes, s: Bytes)
    requires Members(a, true) + r == Members(b, true) + s
    ensures a == b && r == s
    decreases a, 0
  {
    assert (Members(a, true) + r)[0] == Members(a, true)[0] && (Members(b, true) + s)[0] == Members(b, true)[0];
    if a == [] {
      SplitAt([0x7D], [0x7D], r, s);
    } else {
      var at, bt := Members(a[1..], true), Members(b[1..], true);
      AfterFirst(COMMA, Pair(a[0], true), at, r);
      AfterFirst(COMMA, Pair(b[0], true), bt, s);
      PairDetermines(a[0], b[0], at + r, bt + s);
      MembersDetermine(a[1..], b[1..], r, s);
      assert a == [a[0]] + a[1..] && b == [b[0]] + b[1..];
    }
  }

  /** Two values with the same canonical text are the same value. */
  lemma CanonicalTextIsInjective(v: Value, w: Value)
    requires ToJson(v) == ToJson(w)
    ensures v == w
  {
    ToJsonIsSerialize(v);
    ToJsonIsSerialize(w);
    assert Serialize(v, true) + [] == Serialize(w, true) + [];
    Determines(v, w, [], []);
  }

  /** The canonical text is one line, safe for HTML, and a fixed point of the escape. */
  lemma CanonicalTextIsOneSafeLine(v: Value)
    ensures NoControl(ToJson(v)) && HtmlSafe(ToJson(v)) && HtmlEscape(ToJson(v)) == ToJson(v)
  {
    ToJsonIsSerialize(v);
    SerializeHasNoControl(v);
    EscapeIsSafe(Serialize(v, false));
    EscapeIsIdempotent(Serialize(v, false));
  }
}
