/** The shift from hiragana to katakana, done in place on UTF-8 bytes. Masks and shifts are
    written as the division and remainder they stand for. */
module Katakana {

  import opened Guard
  import opened Utf8

  predicate Hiragana(c: char) { 0x3041 <= c as int <= 0x3096 }

  function ToKatakana(c: char): char { if Hiragana(c) then (c as int + 0x60) as char else c }

  function Shift(s: string): (t: string)
    ensures |t| == |s| && forall i :: 0 <= i < |s| ==> t[i] == ToKatakana(s[i])
  {
    seq(|s|, i requires 0 <= i < |s| => ToKatakana(s[i]))
  }

  predicate NoNul(b: seq<byte>) { forall i :: 0 <= i < |b| ==> b[i] != 0 }

  // ---------- laws of the shift ----------

  lemma ShiftLeavesNoHiragana(s: string)
    ensures forall i :: 0 <= i < |s| ==> !Hiragana(Shift(s)[i])
    ensures Shift(Shift(s)) == Shift(s)
  {
  }

  lemma SameSize(c: char)
    ensures |EncodeChar(ToKatakana(c))| == |EncodeChar(c)|
    ensures Hiragana(c) ==> |EncodeChar(c)| == 3
  {
  }

  lemma {:induction false} ShiftKeepsLength(s: string)
    ensures |Encode(Shift(s))| == |Encode(s)|
  {
    if s != [] {
      ShiftKeepsLength(s[1..]);
      SameSize(s[0]);
      assert Shift(s)[1..] == Shift(s[1..]);
    }
  }

  // ---------- one character ----------

  /** How the loops read the first byte. */
  function Width(b0: byte): (w: nat)
    ensures 1 <= w <= 4
  {
    if b0 < 0x80 then 1 else if b0 / 0x20 == 0x6 then 2 else if b0 / 0x10 == 0xE then 3 else 4
  }

  function CodePoint(b0: byte, b1: byte, b2: byte): int {
    b0 % 0x10 * 0x1000 + b1 % 0x40 * 0x40 + b2 % 0x40
  }

  predicate InRange(cp: int) { 0x3041 <= cp <= 0x3096 }

  /** Three bytes with the code point moved if it is in range. */
  function Moved(b0: byte, b1: byte, b2: byte): (m: seq<byte>)
    ensures |m| == 3
  {
    var cp := CodePoint(b0, b1, b2);
    if InRange(cp) then
      var k := cp + 0x60;
      [0xE0 + k / 0x1000, 0x80 + k / 0x40 % 0x40, 0x80 + k % 0x40]
    else [b0, b1, b2]
  }

  /** What a turn of the loop leaves where it found `b`. */
  function Piece(b: seq<byte>): (m: seq<byte>)
    requires b != [] && |b| == Width(b[0])
    ensures |m| == |b|
  {
    if |b| == 3 then Moved(b[0], b[1], b[2]) else b
  }

  lemma WidthIsSize(c: char)
    ensures Width(EncodeChar(c)[0]) == |EncodeChar(c)|
  {
  }

  lemma {:induction false} CodePointIsChar(c: char)
    requires |EncodeChar(c)| == 3
    ensures CodePoint(EncodeChar(c)[0], EncodeChar(c)[1], EncodeChar(c)[2]) == c as int
  {
    DivMod(c as int);
  }

  lemma PieceOfChar(c: char)
    ensures Width(EncodeChar(c)[0]) == |EncodeChar(c)| && Piece(EncodeChar(c)) == EncodeChar(ToKatakana(c))
  {
    WidthIsSize(c);
    SameSize(c);
    if |EncodeChar(c)| == 3 {
      CodePointIsChar(c);
    }
  }

  /** Moved bytes keep their width and are not moved again. */
  lemma PieceTwice(b: seq<byte>)
    requires b != [] && |b| == Width(b[0])
    ensures Width(Piece(b)[0]) == |b| && Piece(Piece(b)) == Piece(b)
  {
    if |b| == 3 && InRange(CodePoint(b[0], b[1], b[2])) {
      MovedPoint(CodePoint(b[0], b[1], b[2]) + 0x60);
    }
  }

  lemma MovedPoint(k: int)
    requires 0x30A1 <= k <= 0x30F6
    ensures CodePoint(0xE0 + k / 0x1000, 0x80 + k / 0x40 % 0x40, 0x80 + k % 0x40) == k
    ensures k / 0x1000 == 3
  {
  }

  // ---------- a whole string ----------

  /** The widths of the bytes that the loop meets make up the string. */
  predicate Tiles(b: seq<byte>)
    decreases |b|
  {
    b == [] || (Width(b[0]) <= |b| && Tiles(b[Width(b[0])..]))
  }

  /** What the loop makes of such a string. */
  function ShiftBytes(b: seq<byte>): (m: seq<byte>)
    requires Tiles(b)
    ensures |m| == |b|
    decreases |b|
  {
    if b == [] then [] else Piece(b[..Width(b[0])]) + ShiftBytes(b[Width(b[0])..])
  }

  /** The memory position of the loop, which begins at `p`, after `k` turns. */
  function Position(mem: nat -> byte, p: nat, k: nat): nat
    decreases k
  {
    if k == 0 || mem(p) == 0 then p else Position(mem, p + Width(mem(p)), k - 1)
  }

  /** The string `b` stands in memory at `p` with its NUL; what follows is arbitrary. */
  ghost predicate StringAt(mem: nat -> byte, p: nat, b: seq<byte>) {
    NoNul(b) && (forall i :: 0 <= i < |b| ==> mem(p + i) == b[i]) && mem(p + |b|) == 0
  }

  ghost predicate StaysInside(mem: nat -> byte, p: nat, end: nat) { forall k :: Position(mem, p, k) <= end }

  lemma StringAfter(mem: nat -> byte, p: nat, b: seq<byte>, w: nat)
    requires StringAt(mem, p, b) && w <= |b|
    ensures StringAt(mem, p + w, b[w..])
  {
    forall i | 0 <= i < |b[w..]|
      ensures mem(p + w + i) == b[w..][i]
    {
      assert mem(p + (w + i)) == b[w + i];
    }
  }

  lemma InsideAfter(mem: nat -> byte, p: nat, q: nat, end: nat)
    requires mem(p) != 0 && p <= end && q == p + Width(mem(p))
    ensures StaysInside(mem, p, end) <==> StaysInside(mem, q, end)
  {
    if StaysInside(mem, p, end) {
      forall k: nat
        ensures Position(mem, q, k) <= end
      {
        assert Position(mem, p, k + 1) == Position(mem, q, k);
      }
    }
    if StaysInside(mem, q, end) {
      forall k: nat
        ensures Position(mem, p, k) <= end
      {
        if k > 0 {
          assert Position(mem, p, k) == Position(mem, q, k - 1);
        }
      }
    }
  }

  /** Exactly then does the loop never go past the NUL, whatever stands behind it. */
  lemma {:induction false} InsideExactly(mem: nat -> byte, p: nat, b: seq<byte>)
    requires StringAt(mem, p, b)
    ensures StaysInside(mem, p, p + |b|) <==> Tiles(b)
    decreases |b|
  {
    if b != [] {
      var w := Width(b[0]);
      assert mem(p + 0) == b[0];
      InsideAfter(mem, p, p + w, p + |b|);
      if w <= |b| {
        StringAfter(mem, p, b, w);
        InsideExactly(mem, p + w, b[w..]);
      } else {
        assert Position(mem, p + w, 0) == p + w;
      }
    }
  }

  // ---------- laws of the loop ----------

  lemma {:induction false} TilesFirst(c: char, rest: seq<byte>)
    ensures Tiles(EncodeChar(c) + rest) <==> Tiles(rest)
    ensures Tiles(rest) ==> ShiftBytes(EncodeChar(c) + rest) == EncodeChar(ToKatakana(c)) + ShiftBytes(rest)
  {
    PieceOfChar(c);
    var w, b := |EncodeChar(c)|, EncodeChar(c) + rest;
    assert b[0] == EncodeChar(c)[0] && b[..w] == EncodeChar(c) && b[w..] == rest;
  }

  /** On UTF-8 the loop is the shift of each character. */
  lemma {:induction false} TilesEncoded(s: string)
    ensures Tiles(Encode(s)) && ShiftBytes(Encode(s)) == Encode(Shift(s))
  {
    if s != [] {
      TilesEncoded(s[1..]);
      TilesFirst(s[0], Encode(s[1..]));
      assert Shift(s)[1..] == Shift(s[1..]);
    }
  }

  lemma {:induction false} FormedTiles(b: seq<byte>)
    requires WellFormed(b)
    ensures Tiles(b) && ShiftBytes(b) == Encode(Shift(Decode(b)))
  {
    DecodeEncode(b);
    TilesEncoded(Decode(b));
  }

  /** Whatever the bytes: shifting again changes nothing. */
  lemma {:induction false} ShiftTwice(b: seq<byte>)
    requires Tiles(b)
    ensures Tiles(ShiftBytes(b)) && ShiftBytes(ShiftBytes(b)) == ShiftBytes(b)
    decreases |b|
  {
    if b != [] {
      var w := Width(b[0]);
      var head, rest := Piece(b[..w]), ShiftBytes(b[w..]);
      ShiftTwice(b[w..]);
      PieceTwice(b[..w]);
      JoinPiece(head, rest);
    }
  }

  lemma {:induction false} JoinPiece(head: seq<byte>, rest: seq<byte>)
    requires head != [] && |head| == Width(head[0]) && Tiles(rest)
    ensures Tiles(head + rest) && ShiftBytes(head + rest) == Piece(head) + ShiftBytes(rest)
  {
    var b := head + rest;
    assert b[0] == head[0] && b[..|head|] == head && b[|head|..] == rest;
  }

  // ---------- the loops ----------

  /** One turn. */
  method ShiftPiece(a: array<byte>, p: nat) returns (q: nat)
    requires p < a.Length && p + Width(a[p]) <= a.Length
    modifies a
    ensures q == p + Width(old(a[p])) && a[p..q] == Piece(old(a[p..p + Width(a[p])]))
    ensures forall i :: 0 <= i < p || q <= i < a.Length ==> a[i] == old(a[i])
  {
    if a[p] < 0x80 {
      q := p + 1;
    } else if a[p] / 0x20 == 0x6 {
      q := p + 2;
    } else if a[p] / 0x10 == 0xE {
      var cp := CodePoint(a[p], a[p + 1], a[p + 2]);
      if 0x3041 <= cp <= 0x3096 {
        var k := cp + 0x60;
        a[p] := 0xE0 + k / 0x1000;
        a[p + 1] := 0x80 + k / 0x40 % 0x40;
        a[p + 2] := 0x80 + k % 0x40;
      }
      q := p + 3;
    } else {
      q := p + 4;
    }
  }

  /** `b`, whose string is to become `goal`, when the loop has come to `p` of `n`; kept closed,
      see `Guard`. */
  ghost predicate Shifting(b: seq<byte>, p: nat, n: nat, goal: seq<byte>) {
    p <= n <= |b| && Tiles(b[p..n]) && forall k :: Open(k) ==> b[..p] + ShiftBytes(b[p..n]) == goal
  }

  lemma {:induction false} ShiftingStart(b: seq<byte>, n: nat)
    requires n <= |b| && Tiles(b[..n])
    ensures Shifting(b, 0, n, ShiftBytes(b[..n]))
  {
    assert b[0..n] == b[..n];
    assert b[..0] + ShiftBytes(b[..n]) == ShiftBytes(b[..n]);
  }

  lemma {:induction false} ShiftingRoom(b: seq<byte>, p: nat, n: nat, goal: seq<byte>)
    requires Shifting(b, p, n, goal) && p < n
    ensures p + Width(b[p]) <= n && Tiles(b[p + Width(b[p])..n])
  {
    var rest, w := b[p..n], Width(b[p]);
    assert rest[0] == b[p] && rest[w..] == b[p + w..n];
  }

  lemma Slices(b: seq<byte>, b': seq<byte>, p: nat, q: nat, n: nat)
    requires p <= q <= n <= |b| == |b'|
    requires forall i :: 0 <= i < p || q <= i < |b| ==> b'[i] == b[i]
    ensures b'[..q] == b[..p] + b'[p..q] && b'[q..n] == b[q..n]
  {
  }

  lemma Associate(x: seq<byte>, y: seq<byte>, z: seq<byte>)
    ensures x + (y + z) == x + y + z
  {
  }

  lemma {:induction false} ShiftingStep(b: seq<byte>, b': seq<byte>, p: nat, q: nat, n: nat, goal: seq<byte>)
    requires Shifting(b, p, n, goal) && p < n && |b'| == |b|
    requires q == p + Width(b[p]) <= n && b'[p..q] == Piece(b[p..q])
    requires forall i :: 0 <= i < p || q <= i < |b| ==> b'[i] == b[i]
    ensures Shifting(b', q, n, goal)
  {
    assert Open(0);
    ShiftingRoom(b, p, n, goal);
    Slices(b, b', p, q, n);
    ShiftBytesFirst(b[p..n], b[p..q], b[q..n]);
    Associate(b[..p], b'[p..q], ShiftBytes(b[q..n]));
  }

  lemma {:induction false} ShiftBytesFirst(b: seq<byte>, head: seq<byte>, rest: seq<byte>)
    requires head != [] && |head| == Width(head[0]) && b == head + rest && Tiles(rest)
    ensures Tiles(b) && ShiftBytes(b) == Piece(head) + ShiftBytes(rest)
  {
    JoinPiece(head, rest);
  }

  lemma ShiftingEnd(b: seq<byte>, n: nat, goal: seq<byte>)
    requires Shifting(b, n, n, goal)
    ensures b[..n] == goal
  {
    assert Open(0);
    assert b[n..n] == [];
    assert b[..n] + [] == b[..n];
  }

  // romaji__hira_to_kata: `n` is where the string ends
  method HiraToKata(a: array<byte>, ghost n: nat)
    requires n < a.Length && a[n] == 0 && NoNul(a[..n]) && Tiles(a[..n])
    modifies a
    ensures a[..n] == ShiftBytes(old(a[..n]))
    ensures forall i :: n <= i < a.Length ==> a[i] == old(a[i])
  {
    ghost var goal := ShiftBytes(a[..n]);
    ShiftingStart(a[..], n);
    assert forall i :: 0 <= i < n ==> a[i] == a[..n][i];
    var p := 0;
    while a[p] != 0
      invariant 0 <= p <= n && Shifting(a[..], p, n, goal)
      invariant forall i :: p <= i < a.Length ==> a[i] == old(a[i])
      decreases n - p
    {
      p := Turn(a, p, n, goal);
    }
    ShiftingEnd(a[..], n, goal);
  }

  method Turn(a: array<byte>, p: nat, ghost n: nat, ghost goal: seq<byte>) returns (q: nat)
    requires Shifting(a[..], p, n, goal) && p < n
    modifies a
    ensures p < q <= n && Shifting(a[..], q, n, goal)
    ensures forall i :: q <= i < a.Length ==> a[i] == old(a[i])
  {
    ghost var b := a[..];
    ShiftingRoom(b, p, n, goal);
    q := ShiftPiece(a, p);
    ShiftingStep(b, a[..], p, q, n, goal);
  }

  // ---------- the loop with a bound ----------

  /** What the loop over a slice leaves of it: it stops at a NUL, at the end, and before three
      bytes of which the end cuts some off. */
  function SliceShifted(b: seq<byte>): (m: seq<byte>)
    ensures |m| == |b|
    decreases |b|
  {
    if b == [] || b[0] == 0 || Width(b[0]) > |b| then b
    else Piece(b[..Width(b[0])]) + SliceShifted(b[Width(b[0])..])
  }

  /** As long as the string tiles, only the string is touched. */
  lemma {:induction false} SliceIsString(b: seq<byte>, n: nat)
    requires n <= |b| && (n < |b| ==> b[n] == 0) && NoNul(b[..n]) && Tiles(b[..n])
    ensures SliceShifted(b) == ShiftBytes(b[..n]) + b[n..]
    decreases n
  {
    if n > 0 {
      var w := Width(b[0]);
      assert b[..n][0] == b[0];
      SliceParts(b, n, w);
      SliceIsString(b[w..], n - w);
      SliceFirst(b, w);
      ShiftBytesFirst(b[..n], b[..w], b[..n][w..]);
      Associate(Piece(b[..w]), ShiftBytes(b[..n][w..]), b[n..]);
    } else {
      assert b[..n] == [] && [] + b == b && b[0..] == b;
    }
  }

  lemma SliceParts(b: seq<byte>, n: nat, w: nat)
    requires 0 < w <= n <= |b|
    ensures b[..n][0] == b[0] && b[..n][..w] == b[..w]
    ensures b[..n][w..] == b[w..][..n - w] && b[w..][n - w..] == b[n..]
    ensures b[..n] == b[..w] + b[..n][w..]
  {
  }

  lemma {:induction false} SliceFirst(b: seq<byte>, w: nat)
    requires b != [] && b[0] != 0 && w == Width(b[0]) <= |b|
    ensures SliceShifted(b) == Piece(b[..w]) + SliceShifted(b[w..])
  {
  }

  /** The slice `b` is to become `goal` and the loop has come to `p`; kept closed, see `Guard`. */
  ghost predicate Slicing(b: seq<byte>, p: nat, goal: seq<byte>) {
    p <= |b| && forall k :: Open(k) ==> b[..p] + SliceShifted(b[p..]) == goal
  }

  lemma {:induction false} SlicingStep(b: seq<byte>, b': seq<byte>, p: nat, q: nat, goal: seq<byte>)
    requires Slicing(b, p, goal) && p < |b| == |b'| && b[p] != 0
    requires q == p + Width(b[p]) <= |b| && b'[p..q] == Piece(b[p..q])
    requires forall i :: 0 <= i < p || q <= i < |b| ==> b'[i] == b[i]
    ensures Slicing(b', q, goal)
  {
    assert Open(0);
    Slices(b, b', p, q, |b|);
    var rest := b[p..];
    assert rest[0] == b[p] && rest[..q - p] == b[p..q] && rest[q - p..] == b[q..];
    assert b[q..] == b[q..|b|] && b'[q..] == b'[q..|b|];
    Associate(b[..p], b'[p..q], SliceShifted(b[q..]));
  }

  lemma {:induction false} SlicingEnd(b: seq<byte>, p: nat, goal: seq<byte>)
    requires Slicing(b, p, goal) && (p == |b| || b[p] == 0 || p + Width(b[p]) > |b|)
    ensures b == goal
  {
    assert Open(0);
    assert b[..p] + b[p..] == b;
  }

  /** One turn, which may leave the slice. */
  method SliceTurn(a: array<byte>, p: nat, ghost goal: seq<byte>) returns (q: nat)
    requires p < a.Length && a[p] != 0 && Slicing(a[..], p, goal)
    modifies a
    ensures q > p && if q <= a.Length then Slicing(a[..], q, goal) else a[..] == goal
  {
    if p + Width(a[p]) <= a.Length {
      ghost var b := a[..];
      q := ShiftPiece(a, p);
      SlicingStep(b, a[..], p, q, goal);
    } else {
      SlicingEnd(a[..], p, goal);
      q := p + Width(a[p]);
    }
  }

  // hira_to_kata, on any slice: a step of two or four bytes may leave it
  method HiraToKataSlice(a: array<byte>)
    modifies a
    ensures a[..] == SliceShifted(old(a[..]))
  {
    ghost var goal := SliceShifted(a[..]);
    assert a[..][..0] + SliceShifted(a[..]) == goal && a[..][0..] == a[..];
    var p := 0;
    while p < a.Length && a[p] != 0
      invariant 0 <= p && (if p <= a.Length then Slicing(a[..], p, goal) else a[..] == goal)
      decreases a.Length - p
    {
      if Width(a[p]) == 3 && p + 2 >= a.Length {
        break;
      }
      p := SliceTurn(a, p, goal);
    }
    if p <= a.Length {
      SlicingEnd(a[..], p, goal);
    }
  }
}
