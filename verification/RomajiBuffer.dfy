/** The two transliterators, in C and in Rust, writing into a buffer of fixed size. Both do
    exactly what `Romaji.Kana` says, or stop at the step that does not fit. */
module RomajiBuffer {

  import opened Guard
  import opened CText
  import opened Utf8
  import opened Katakana
  import opened RomajiTable
  import opened Romaji
  import opened RomajiReading

  // ---------- the state of a conversion ----------

  /** `done` has been written for the first `i` bytes, into a buffer with `room` for text. The
      definition is sealed behind a number, so that it is not spelled out in proofs that only
      hand it on; see also `Guard`. */
  ghost predicate Converted(table: Table, src: seq<byte>, i: nat, done: seq<byte>, room: nat) {
    ConvertedSeal(table, src, i, done, room) == 0
  }

  ghost function ConvertedSeal(table: Table, src: seq<byte>, i: nat, done: seq<byte>, room: nat): nat {
    if i <= |src| && |done| <= room
       && (forall k :: Open(k) ==>
             && Kana(table, src) == done + Kana(table, src[i..])
             && Fitting(table, src, room) == done + Fitting(table, src[i..], room - |done|))
    then 0 else 1
  }

  /** `done` is all that fits; sealed likewise. */
  ghost predicate Stopped(table: Table, src: seq<byte>, done: seq<byte>, room: nat) {
    StoppedSeal(table, src, done, room) == 0
  }

  ghost function StoppedSeal(table: Table, src: seq<byte>, done: seq<byte>, room: nat): nat {
    if forall k :: Open(k) ==> |Kana(table, src)| > room && Fitting(table, src, room) == done then 0 else 1
  }

  /** `m` is the step to take at `i`; sealed likewise. */
  ghost predicate IsNext(table: Table, src: seq<byte>, i: nat, m: Move) {
    i < |src| && 1 <= m.used <= |src| - i && NextSeal(table, src, i, m) == 0
  }

  ghost function NextSeal(table: Table, src: seq<byte>, i: nat, m: Move): nat
    requires i < |src|
  {
    if m == Next(table, src[i..]) then 0 else 1
  }

  /** The buffer `b`, which was `was`, holds `done`, a NUL, and the rest as it was. */
  ghost predicate Laid(b: seq<byte>, done: seq<byte>, was: seq<byte>) {
    |done| < |b| == |was| && forall k :: Open(k) ==> b == done + [0] + was[|done| + 1..]
  }

  /** The buffer at the end: what fits, a NUL, and the rest as it was. */
  ghost predicate Filled(table: Table, src: seq<byte>, b: seq<byte>, was: seq<byte>) {
    b != [] && Laid(b, Fitting(table, src, |b| - 1), was)
  }

  lemma ConvertedStart(table: Table, src: seq<byte>, room: nat)
    ensures Converted(table, src, 0, [], room)
  {
    assert src[0..] == src;
  }

  lemma Associate(x: seq<byte>, y: seq<byte>, z: seq<byte>)
    ensures x + (y + z) == x + y + z
  {
  }

  lemma {:induction false} NextRest(table: Table, src: seq<byte>, i: nat, m: Move, room: nat)
    requires i < |src| && m == Next(table, src[i..]) && |m.out| <= room
    ensures Kana(table, src[i..]) == m.out + Kana(table, src[i + m.used..])
    ensures Fitting(table, src[i..], room) == m.out + Fitting(table, src[i + m.used..], room - |m.out|)
  {
    assert src[i..][m.used..] == src[i + m.used..];
  }

  lemma {:induction false} ConvertedStep(table: Table, src: seq<byte>, i: nat, done: seq<byte>, room: nat, m: Move)
    requires Converted(table, src, i, done, room) && IsNext(table, src, i, m) && |done| + |m.out| <= room
    ensures Converted(table, src, i + m.used, done + m.out, room)
  {
    assert Open(0);
    NextRest(table, src, i, m, room - |done|);
    Associate(done, m.out, Kana(table, src[i + m.used..]));
    Associate(done, m.out, Fitting(table, src[i + m.used..], room - |done| - |m.out|));
  }

  lemma {:induction false} ConvertedStop(table: Table, src: seq<byte>, i: nat, done: seq<byte>, room: nat, m: Move)
    requires Converted(table, src, i, done, room) && IsNext(table, src, i, m) && |done| + |m.out| > room
    ensures Stopped(table, src, done, room)
  {
    assert Open(0);
    assert Fitting(table, src[i..], room - |done|) == [];
  }

  /** A step is taken, or there is no room for it. */
  lemma {:induction false} Outcome(table: Table, src: seq<byte>, i: nat, done: seq<byte>, room: nat, m: Move, next: nat,
                                   done': seq<byte>)
    requires Converted(table, src, i, done, room) && IsNext(table, src, i, m)
    requires next == i + m.used && done' == done + m.out
    ensures |done'| <= room ==> Converted(table, src, next, done', room)
    ensures |done'| > room ==> Stopped(table, src, done, room)
  {
    if |done'| <= room {
      ConvertedStep(table, src, i, done, room, m);
    } else {
      ConvertedStop(table, src, i, done, room, m);
    }
  }

  /** There is no room for the whole, and what fits is there; sealed likewise. */
  ghost predicate Full(table: Table, src: seq<byte>, b: seq<byte>, was: seq<byte>) { FullSeal(table, src, b, was) == 0 }

  ghost function FullSeal(table: Table, src: seq<byte>, b: seq<byte>, was: seq<byte>): nat {
    if forall k :: Open(k) ==> |Kana(table, src)| >= |b| && Filled(table, src, b, was) then 0 else 1
  }

  lemma {:induction false} StoppedFull(table: Table, src: seq<byte>, b: seq<byte>, done: seq<byte>, was: seq<byte>)
    requires Laid(b, done, was) && Stopped(table, src, done, |b| - 1)
    ensures Full(table, src, b, was)
  {
    assert Open(0);
  }

  lemma {:induction false} FullMeans(table: Table, src: seq<byte>, b: seq<byte>, was: seq<byte>)
    requires Full(table, src, b, was)
    ensures |Kana(table, src)| >= |b| && Filled(table, src, b, was)
  {
    assert Open(0);
  }

  lemma {:induction false} EndFills(table: Table, src: seq<byte>, b: seq<byte>, done: seq<byte>, was: seq<byte>)
    requires Laid(b, done, was) && Converted(table, src, |src|, done, |b| - 1)
    ensures Filled(table, src, b, was) && |Kana(table, src)| == |done|
  {
    ConvertedEnd(table, src, done, |b| - 1);
  }

  lemma {:induction false} ConvertedEnd(table: Table, src: seq<byte>, done: seq<byte>, room: nat)
    requires Converted(table, src, |src|, done, room)
    ensures Kana(table, src) == done == Fitting(table, src, room)
  {
    assert Open(0);
    assert src[|src|..] == [];
  }

  /** `i` bytes of the source have been read and `done`, of length `pos`, has been written. */
  ghost predicate At(table: Table, src: seq<byte>, i: nat, dst: array<byte>, pos: nat, done: seq<byte>, was: seq<byte>)
    reads dst
  {
    && dst.Length > 0 && pos == |done| && Laid(dst[..], done, was)
    && Converted(table, src, i, done, dst.Length - 1)
  }

  // ---------- the shared operation ----------

  method Clear(dst: array<byte>)
    requires dst.Length > 0
    modifies dst
    ensures Laid(dst[..], [], old(dst[..]))
  {
    dst[0] := 0;
  }

  // romaji__append, append
  method Append(dst: array<byte>, pos: nat, s: seq<byte>, ghost done: seq<byte>, ghost was: seq<byte>,
                ghost done': seq<byte>) returns (ok: bool, next: nat)
    requires pos == |done| && Laid(dst[..], done, was) && done' == done + s
    modifies dst
    ensures ok == (|done'| < dst.Length)
    ensures ok ==> next == |done'| && Laid(dst[..], done', was)
    ensures !ok ==> next == pos && Laid(dst[..], done, was)
  {
    assert Open(0);
    if pos + |s| + 1 > dst.Length {
      return false, pos;
    }
    forall k | 0 <= k < |s| {
      dst[pos + k] := s[k];
    }
    ok, next := true, pos + |s|;
    dst[next] := 0;
  }

  // ---------- the C program ----------

  method LookUp(table: Table, key: string) returns (kana: Option<string>)
    ensures kana == First(table, key)
  {
    for t := 0 to |table|
      invariant First(table[t..], key) == First(table, key)
    {
      if table[t].romaji == key {
        return Some(table[t].kana);
      }
      assert table[t..][1..] == table[t + 1..];
    }
    return None;
  }

  method LowerCopy(src: seq<byte>, take: nat) returns (buf: string)
    requires take <= |src|
    ensures buf == Lower(src[..take])
  {
    buf := "";
    for k := 0 to take
      invariant buf == Lower(src[..k])
    {
      buf := buf + [Low(src[k])];
    }
  }

  /** The loop over three, two and one letters. */
  method LongestMatch(table: Table, src: seq<byte>) returns (m: Option<Move>)
    ensures m == Longest(table, src, 3)
  {
    var take := 3;
    while take >= 1
      invariant 0 <= take <= 3
      invariant Longest(table, src, 3) == Longest(table, src, take)
    {
      if take <= |src| {
        var buf := LowerCopy(src, take);
        var kana := LookUp(table, buf);
        if kana.Some? {
          return Some(Move(take, Encode(kana.value)));
        }
      }
      take := take - 1;
    }
    return None;
  }

  /** The body of the loop, up to the append. */
  method NextStep(table: Table, src: seq<byte>, i: nat) returns (m: Move)
    requires i < |src|
    ensures IsNext(table, src, i, m)
  {
    var c := Low(src[i]);
    if c != 'n' && c != 'a' && c != 'i' && c != 'u' && c != 'e' && c != 'o' && i + 1 < |src| && Low(src[i + 1]) == c {
      return Move(1, SMALL_TSU);
    }
    var found := LongestMatch(table, src[i..]);
    if found.Some? {
      return found.value;
    }
    return Move(1, [src[i]]);
  }

  /** A turn of the loop: a step is written, or there is no room for it. */
  method Turn(table: Table, src: seq<byte>, i: nat, dst: array<byte>, pos: nat, ghost done: seq<byte>,
              ghost was: seq<byte>) returns (ok: bool, next: nat, pos': nat, ghost done': seq<byte>)
    requires i < |src| && At(table, src, i, dst, pos, done, was)
    modifies dst
    ensures ok ==> i < next && At(table, src, next, dst, pos', done', was)
    ensures !ok ==> Full(table, src, dst[..], was)
  {
    var m := NextStep(table, src, i);
    next, done' := i + m.used, done + m.out;
    Outcome(table, src, i, done, dst.Length - 1, m, next, done');
    ok, pos' := Append(dst, pos, m.out, done, was, done');
    if !ok {
      StoppedFull(table, src, dst[..], done, was);
    }
  }

  // romaji_to_kana
  method RomajiToKana(table: Table, src: seq<byte>, dst: array<byte>) returns (r: int)
    modifies dst
    ensures r == if |Kana(table, src)| + 1 <= dst.Length then |Kana(table, src)| else -1
    ensures dst.Length > 0 ==> Filled(table, src, dst[..], old(dst[..]))
  {
    if dst.Length == 0 {
      return -1;
    }
    ghost var was := dst[..];
    var pos, i := 0, 0;
    Clear(dst);
    ghost var done: seq<byte> := [];
    ConvertedStart(table, src, dst.Length - 1);
    while i < |src|
      invariant At(table, src, i, dst, pos, done, was)
      decreases |src| - i
    {
      var ok;
      ok, i, pos, done := Turn(table, src, i, dst, pos, done, was);
      if !ok {
        FullMeans(table, src, dst[..], was);
        return -1;
      }
    }
    EndFills(table, src, dst[..], done, was);
    return pos;
  }

  // ---------- the Rust program ----------

  /** The key looked up: the lowered bytes as text, or nothing when they are not UTF-8. */
  function KeyOf(lowered: string): string
    requires forall i :: 0 <= i < |lowered| ==> lowered[i] as int < 0x100
  {
    if WellFormed(Bytes(lowered)) then lowered else ""
  }

  function Bytes(s: string): (b: seq<byte>)
    requires forall i :: 0 <= i < |s| ==> s[i] as int < 0x100
    ensures |b| == |s|
  {
    seq(|s|, i requires 0 <= i < |s| => s[i] as int)
  }

  lemma {:induction false} AsciiFormed(b: seq<byte>)
    requires forall i :: 0 <= i < |b| ==> b[i] < 0x80
    ensures WellFormed(b)
  {
    if b != [] {
      AsciiFormed(b[1..]);
    }
  }

  /** The key is the right one, or neither is in the table. */
  lemma {:induction false} KeyFinds(table: Table, lowered: string)
    requires forall i :: 0 <= i < |lowered| ==> lowered[i] as int < 0x100
    ensures First(table, KeyOf(lowered)) == First(table, lowered)
  {
    if !WellFormed(Bytes(lowered)) {
      if First(table, lowered).Some? {
        FirstSound(table, lowered);
        AsciiFormed(Bytes(lowered));
      }
      if First(table, "").Some? {
        FirstSound(table, "");
      }
    }
  }

  method LongestMatchSlice(table: Table, src: seq<byte>) returns (m: Option<Move>)
    ensures m == Longest(table, src, 3)
  {
    var take := 3;
    while take >= 1
      invariant 0 <= take <= 3
      invariant Longest(table, src, 3) == Longest(table, src, take)
    {
      if take <= |src| {
        var buf := LowerCopy(src, take);
        KeyFinds(table, buf);
        var kana := First(table, KeyOf(buf));
        if kana.Some? {
          return Some(Move(take, Encode(kana.value)));
        }
      }
      take := take - 1;
    }
    return None;
  }

  method NextStepSlice(table: Table, src: seq<byte>, i: nat) returns (m: Move, matched: bool)
    requires i < |src|
    ensures IsNext(table, src, i, m) && (!matched ==> m == Move(1, [src[i]]))
  {
    var c := Low(src[i]);
    if !VowelOrN(c) && i + 1 < |src| && Low(src[i + 1]) == c {
      return Move(1, SMALL_TSU), true;
    }
    var found := LongestMatchSlice(table, src[i..]);
    if found.Some? {
      return found.value, true;
    }
    return Move(1, [src[i]]), false;
  }

  /** The pass-through branch, which does not use append. */
  method AppendByte(dst: array<byte>, pos: nat, b: byte, ghost done: seq<byte>, ghost was: seq<byte>,
                    ghost done': seq<byte>) returns (ok: bool, next: nat)
    requires pos == |done| && Laid(dst[..], done, was) && done' == done + [b]
    modifies dst
    ensures ok == (|done'| < dst.Length)
    ensures ok ==> next == |done'| && Laid(dst[..], done', was)
    ensures !ok ==> next == pos && Laid(dst[..], done, was)
  {
    assert Open(0);
    if pos + 2 > dst.Length {
      return false, pos;
    }
    dst[pos] := b;
    dst[pos + 1] := 0;
    ok, next := true, pos + 1;
  }

  method WriteStep(dst: array<byte>, pos: nat, out: seq<byte>, matched: bool, ghost done: seq<byte>,
                   ghost was: seq<byte>, ghost done': seq<byte>) returns (ok: bool, next: nat)
    requires pos == |done| && Laid(dst[..], done, was) && (!matched ==> |out| == 1) && done' == done + out
    modifies dst
    ensures ok == (|done'| < dst.Length)
    ensures ok ==> next == |done'| && Laid(dst[..], done', was)
    ensures !ok ==> next == pos && Laid(dst[..], done, was)
  {
    if matched {
      ok, next := Append(dst, pos, out, done, was, done');
    } else {
      assert out == [out[0]];
      ok, next := AppendByte(dst, pos, out[0], done, was, done');
    }
  }

  method TurnSlice(table: Table, src: seq<byte>, i: nat, dst: array<byte>, pos: nat, ghost done: seq<byte>,
                   ghost was: seq<byte>) returns (ok: bool, next: nat, pos': nat, ghost done': seq<byte>)
    requires i < |src| && At(table, src, i, dst, pos, done, was)
    modifies dst
    ensures ok ==> i < next && At(table, src, next, dst, pos', done', was)
    ensures !ok ==> Full(table, src, dst[..], was)
  {
    var m, matched := NextStepSlice(table, src, i);
    next, done' := i + m.used, done + m.out;
    Outcome(table, src, i, done, dst.Length - 1, m, next, done');
    ok, pos' := WriteStep(dst, pos, m.out, matched, done, was, done');
    if !ok {
      StoppedFull(table, src, dst[..], done, was);
    }
  }

  // to_kana
  method ToKana(table: Table, src: seq<byte>, dst: array<byte>) returns (r: Option<nat>)
    modifies dst
    ensures r == if |Kana(table, src)| + 1 <= dst.Length then Some(|Kana(table, src)|) else None
    ensures dst.Length > 0 ==> Filled(table, src, dst[..], old(dst[..]))
  {
    if dst.Length == 0 {
      return None;
    }
    ghost var was := dst[..];
    var pos, i := 0, 0;
    Clear(dst);
    ghost var done: seq<byte> := [];
    ConvertedStart(table, src, dst.Length - 1);
    while i < |src|
      invariant At(table, src, i, dst, pos, done, was)
      decreases |src| - i
    {
      var ok;
      ok, i, pos, done := TurnSlice(table, src, i, dst, pos, done, was);
      if !ok {
        FullMeans(table, src, dst[..], was);
        return None;
      }
    }
    EndFills(table, src, dst[..], done, was);
    return Some(pos);
  }

  /** The two programs agree, on the result and on every byte of the buffer. */
  method BothAgree(src: seq<byte>, c: array<byte>, rust: array<byte>) returns (r: int, s: Option<nat>)
    requires c != rust && c[..] == rust[..]
    modifies c, rust
    ensures c[..] == rust[..] && (r == if s.Some? then s.value else -1)
  {
    var table := Syllables();
    ghost var was := c[..];
    r := RomajiToKana(table, src, c);
    s := ToKana(table, src, rust);
    if c.Length > 0 {
      FilledSame(table, src, c[..], rust[..], was);
    }
  }

  /** The case of the letters makes no difference to the result, and none to the syllables: what is
      written is the same but for the case of the bytes that are left as they are. */
  method CasesAgree(table: Table, src: seq<byte>, a: array<byte>, b: array<byte>) returns (r: int, s: int)
    requires a != b && a.Length == b.Length
    modifies a, b
    ensures r == s && (r >= 0 ==> r < a.Length && b[..r] == ToLower(a[..r]))
  {
    CaseIgnored(table, src);
    ghost var kana, was := Kana(table, src), a[..];
    ghost var was' := b[..];
    r := RomajiToKana(table, src, a);
    s := RomajiToKana(table, ToLower(src), b);
    if r >= 0 {
      FilledText(table, src, a[..], was);
      FilledText(table, ToLower(src), b[..], was');
    }
  }

  /** When the text fits, the buffer begins with it. */
  lemma {:induction false} FilledText(table: Table, src: seq<byte>, b: seq<byte>, was: seq<byte>)
    requires Filled(table, src, b, was) && |Kana(table, src)| < |b|
    ensures b[..|Kana(table, src)|] == Kana(table, src)
  {
    assert Open(0);
    FittingIsPrefix(table, src, |b| - 1);
  }

  /** What a buffer is filled with is settled by what it was. */
  lemma {:induction false} FilledSame(table: Table, src: seq<byte>, b: seq<byte>, b': seq<byte>, was: seq<byte>)
    requires |b| == |b'| && Filled(table, src, b, was) && Filled(table, src, b', was)
    ensures b == b'
  {
    assert Open(0);
  }

  // ---------- katakana ----------

  // romaji_to_katakana, in C. What it demands is exactly that the shift stays inside the string:
  // see `Katakana.InsideExactly`.
  method RomajiToKatakana(table: Table, src: seq<byte>, dst: array<byte>) returns (r: int)
    requires NoNul(src) && (|Kana(table, src)| + 1 <= dst.Length ==> Tiles(Kana(table, src)))
    modifies dst
    ensures r == if |Kana(table, src)| + 1 <= dst.Length then |Kana(table, src)| else -1
    ensures r >= 0 ==> Laid(dst[..], ShiftBytes(Kana(table, src)), old(dst[..]))
    ensures r < 0 && dst.Length > 0 ==> Filled(table, src, dst[..], old(dst[..]))
  {
    r := RomajiToKana(table, src, dst);
    if r < 0 {
      return -1;
    }
    FittingIsPrefix(table, src, dst.Length - 1);
    KanaNoNul(table, src);
    ShiftBuffer(dst, Kana(table, src), old(dst[..]));
  }

  /** The shift, on a buffer that holds `text`. */
  method ShiftBuffer(dst: array<byte>, ghost text: seq<byte>, ghost was: seq<byte>)
    requires Laid(dst[..], text, was) && Tiles(text) && NoNul(text)
    modifies dst
    ensures Laid(dst[..], ShiftBytes(text), was)
  {
    assert Open(0);
    ghost var n, mid := |text|, dst[..];
    assert dst[..n] == text;
    HiraToKata(dst, n);
    assert forall i :: n <= i < dst.Length ==> dst[i] == mid[i];
  }

  /** The buffer of the Rust program once the text is in it. */
  ghost function Filling(text: seq<byte>, was: seq<byte>): seq<byte>
    requires |text| < |was|
  {
    text + [0] + was[|text| + 1..]
  }

  // romaji_to_katakana, in Rust: on any source, since the shift has a bound
  method ToKatakana(table: Table, src: seq<byte>, dst: array<byte>) returns (r: Option<nat>)
    modifies dst
    ensures r == if |Kana(table, src)| + 1 <= dst.Length then Some(|Kana(table, src)|) else None
    ensures r.Some? ==> dst[..] == SliceShifted(Filling(Kana(table, src), old(dst[..])))
    ensures r.None? && dst.Length > 0 ==> Filled(table, src, dst[..], old(dst[..]))
  {
    ghost var was := dst[..];
    r := ToKana(table, src, dst);
    if r.Some? {
      FittingIsPrefix(table, src, dst.Length - 1);
      FilledIs(table, src, dst[..], was);
      HiraToKataSlice(dst);
    }
  }

  lemma {:induction false} FilledIs(table: Table, src: seq<byte>, b: seq<byte>, was: seq<byte>)
    requires Filled(table, src, b, was) && Fitting(table, src, |b| - 1) == Kana(table, src)
    ensures |Kana(table, src)| < |was| == |b| && b == Filling(Kana(table, src), was)
  {
    assert Open(0);
  }

  /** Where the C program is defined, the two agree on the katakana as well. */
  lemma {:induction false} KatakanaAgree(text: seq<byte>, was: seq<byte>, b: seq<byte>)
    requires |text| < |was| && NoNul(text) && Tiles(text) && Laid(b, ShiftBytes(text), was)
    ensures SliceShifted(Filling(text, was)) == b
  {
    var f := Filling(text, was);
    assert f[..|text|] == text && f[|text|..] == [0] + was[|text| + 1..];
    SliceIsString(f, |text|);
    LaidIs(b, ShiftBytes(text), was);
    Associate(ShiftBytes(text), [0], was[|text| + 1..]);
  }

  lemma LaidIs(b: seq<byte>, done: seq<byte>, was: seq<byte>)
    requires Laid(b, done, was)
    ensures b == done + [0] + was[|done| + 1..]
  {
    assert Open(0);
  }
}
