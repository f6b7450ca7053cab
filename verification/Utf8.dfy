/** UTF-8 as RFC 3629 defines it. A Dafny `char` is a Unicode scalar value, so a `string` is
    exactly what UTF-8 can write. */
module Utf8 {

  type byte = x: int | 0 <= x < 256

  predicate Tail(b: byte) { 0x80 <= b < 0xC0 }

  function EncodeChar(c: char): (b: seq<byte>)
    ensures 1 <= |b| <= 4
  {
    var n := c as int;
    if n < 0x80 then [n]
    else if n < 0x800 then [0xC0 + n / 0x40, 0x80 + n % 0x40]
    else if n < 0x1_0000 then [0xE0 + n / 0x1000, 0x80 + n / 0x40 % 0x40, 0x80 + n % 0x40]
    else [0xF0 + n / 0x4_0000, 0x80 + n / 0x1000 % 0x40, 0x80 + n / 0x40 % 0x40, 0x80 + n % 0x40]
  }

  function Encode(s: string): seq<byte> {
    if s == [] then [] else EncodeChar(s[0]) + Encode(s[1..])
  }

  /** The length of the character at the front, by the grammar of section 4 of RFC 3629, or 0
      when there is none. */
  function Size(b: seq<byte>): (n: nat)
    ensures n <= |b| && n <= 4
  {
    if |b| >= 1 && b[0] < 0x80 then 1
    else if |b| >= 2 && 0xC2 <= b[0] < 0xE0 && Tail(b[1]) then 2
    else if |b| >= 3 && 0xE0 <= b[0] < 0xF0 && Tail(b[1]) && Tail(b[2])
      && (b[0] == 0xE0 ==> b[1] >= 0xA0) && (b[0] == 0xED ==> b[1] < 0xA0) then 3
    else if |b| >= 4 && 0xF0 <= b[0] < 0xF5 && Tail(b[1]) && Tail(b[2]) && Tail(b[3])
      && (b[0] == 0xF0 ==> b[1] >= 0x90) && (b[0] == 0xF4 ==> b[1] < 0x90) then 4
    else 0
  }

  predicate WellFormed(b: seq<byte>)
    decreases |b|
  {
    b == [] || (Size(b) > 0 && WellFormed(b[Size(b)..]))
  }

  function Point2(b0: int, b1: int): int { (b0 - 0xC0) * 0x40 + (b1 - 0x80) }

  function Point3(b0: int, b1: int, b2: int): int {
    (b0 - 0xE0) * 0x1000 + (b1 - 0x80) * 0x40 + (b2 - 0x80)
  }

  function Point4(b0: int, b1: int, b2: int, b3: int): int {
    (b0 - 0xF0) * 0x4_0000 + (b1 - 0x80) * 0x1000 + (b2 - 0x80) * 0x40 + (b3 - 0x80)
  }

  /** The character at the front. */
  function DecodeChar(b: seq<byte>): char
    requires Size(b) > 0
  {
    match Size(b)
    case 1 => b[0] as char
    case 2 => Point2(b[0], b[1]) as char
    case 3 => Point3(b[0], b[1], b[2]) as char
    case _ => Point4(b[0], b[1], b[2], b[3]) as char
  }

  function Decode(b: seq<byte>): string
    requires WellFormed(b)
    decreases |b|
  {
    if b == [] then [] else [DecodeChar(b)] + Decode(b[Size(b)..])
  }

  // ---------- encoding and decoding are inverse ----------

  lemma Div40(n: nat, q: nat, r: nat)
    requires n == q * 0x40 + r && r < 0x40
    ensures n / 0x40 == q && n % 0x40 == r
  {
  }

  lemma Div1000(n: nat, q: nat, r: nat)
    requires n == q * 0x1000 + r && r < 0x1000
    ensures n / 0x1000 == q
  {
  }

  lemma Div40000(n: nat, q: nat, r: nat)
    requires n == q * 0x4_0000 + r && r < 0x4_0000
    ensures n / 0x4_0000 == q
  {
  }

  /** Division by 64 twice, and three times. */
  lemma DivTwice(n: nat)
    ensures n / 0x1000 == n / 0x40 / 0x40 && n / 0x4_0000 == n / 0x40 / 0x40 / 0x40
  {
    var a := n / 0x40;
    var b := a / 0x40;
    var c := b / 0x40;
    assert n == a * 0x40 + n % 0x40 && a == b * 0x40 + a % 0x40 && b == c * 0x40 + b % 0x40;
    Div1000(n, b, a % 0x40 * 0x40 + n % 0x40);
    Div40000(n, c, b % 0x40 * 0x1000 + a % 0x40 * 0x40 + n % 0x40);
  }

  lemma DivMod(n: nat)
    ensures n / 0x1000 * 0x1000 + n / 0x40 % 0x40 * 0x40 + n % 0x40 == n
    ensures n / 0x4_0000 * 0x4_0000 + n / 0x1000 % 0x40 * 0x1000 + n / 0x40 % 0x40 * 0x40 + n % 0x40 == n
  {
    DivTwice(n);
    var a := n / 0x40;
    var b := a / 0x40;
    assert n == a * 0x40 + n % 0x40 && a == b * 0x40 + a % 0x40 && b == b / 0x40 * 0x40 + b % 0x40;
  }

  lemma EncodedSize(c: char, rest: seq<byte>)
    ensures Size(EncodeChar(c) + rest) == |EncodeChar(c)|
  {
    DivMod(c as int);
  }

  lemma CharRoundTrip(c: char, rest: seq<byte>)
    ensures Size(EncodeChar(c) + rest) == |EncodeChar(c)|
    ensures DecodeChar(EncodeChar(c) + rest) == c
  {
    EncodedSize(c, rest);
    DivMod(c as int);
  }

  lemma Digits(h: nat, m: nat, t: nat)
    requires m < 0x40 && t < 0x40
    ensures var n := h * 0x1000 + m * 0x40 + t;
      n / 0x1000 == h && n / 0x40 % 0x40 == m && n % 0x40 == t
  {
    var n := h * 0x1000 + m * 0x40 + t;
    Div40(n, h * 0x40 + m, t);
    Div40(h * 0x40 + m, h, m);
    DivTwice(n);
  }

  lemma Digits4(g: nat, h: nat, m: nat, t: nat)
    requires h < 0x40 && m < 0x40 && t < 0x40
    ensures var n := g * 0x4_0000 + h * 0x1000 + m * 0x40 + t;
      n / 0x4_0000 == g && n / 0x1000 % 0x40 == h && n / 0x40 % 0x40 == m && n % 0x40 == t
  {
    var n := g * 0x4_0000 + h * 0x1000 + m * 0x40 + t;
    Digits(g * 0x40 + h, m, t);
    DivTwice(n);
    Div40(g * 0x40 + h, g, h);
  }

  lemma ThreeBytes(b0: byte, b1: byte, b2: byte)
    requires 0xE0 <= b0 < 0xF0 && Tail(b1) && Tail(b2) && (b0 == 0xE0 ==> b1 >= 0xA0) && (b0 == 0xED ==> b1 < 0xA0)
    ensures EncodeChar(Point3(b0, b1, b2) as char) == [b0, b1, b2]
  {
    Digits(b0 - 0xE0, b1 - 0x80, b2 - 0x80);
  }

  lemma FourBytes(b0: byte, b1: byte, b2: byte, b3: byte)
    requires 0xF0 <= b0 < 0xF5 && Tail(b1) && Tail(b2) && Tail(b3)
      && (b0 == 0xF0 ==> b1 >= 0x90) && (b0 == 0xF4 ==> b1 < 0x90)
    ensures EncodeChar(Point4(b0, b1, b2, b3) as char) == [b0, b1, b2, b3]
  {
    Digits4(b0 - 0xF0, b1 - 0x80, b2 - 0x80, b3 - 0x80);
  }

  lemma BytesRoundTrip(b: seq<byte>)
    requires Size(b) > 0
    ensures EncodeChar(DecodeChar(b)) == b[..Size(b)]
  {
    if Size(b) == 3 {
      ThreeBytes(b[0], b[1], b[2]);
    } else if Size(b) == 4 {
      FourBytes(b[0], b[1], b[2], b[3]);
    }
  }

  lemma {:induction false} EncodeDecode(s: string)
    ensures WellFormed(Encode(s)) && Decode(Encode(s)) == s
  {
    if s != [] {
      EncodeDecode(s[1..]);
      CharRoundTrip(s[0], Encode(s[1..]));
      var b := Encode(s);
      assert b[Size(b)..] == Encode(s[1..]);
    }
  }

  lemma {:induction false} EncodeFirst(c: char, s: string, head: seq<byte>, rest: seq<byte>)
    requires EncodeChar(c) == head && Encode(s) == rest
    ensures Encode([c] + s) == head + rest
  {
    assert ([c] + s)[1..] == s;
  }

  lemma Front(b: seq<byte>) returns (c: char, head: seq<byte>, rest: seq<byte>)
    requires WellFormed(b) && b != []
    ensures b == head + rest && |rest| < |b| && EncodeChar(c) == head
    ensures WellFormed(rest) && Decode(b) == [c] + Decode(rest)
  {
    BytesRoundTrip(b);
    c, head, rest := DecodeChar(b), b[..Size(b)], b[Size(b)..];
  }

  lemma {:induction false} DecodeEncode(b: seq<byte>)
    requires WellFormed(b)
    ensures Encode(Decode(b)) == b
    decreases |b|
  {
    if b != [] {
      var c, head, rest := Front(b);
      DecodeEncode(rest);
      EncodeFirst(c, Decode(rest), head, rest);
    }
  }

  lemma {:induction false} EncodeConcat(s: string, t: string)
    ensures Encode(s + t) == Encode(s) + Encode(t)
    decreases |s|
  {
    if s == [] {
      assert s + t == t;
    } else {
      EncodeConcat(s[1..], t);
      assert (s + t)[1..] == s[1..] + t;
      assert EncodeChar(s[0]) + (Encode(s[1..]) + Encode(t)) == EncodeChar(s[0]) + Encode(s[1..]) + Encode(t);
    }
  }

}
