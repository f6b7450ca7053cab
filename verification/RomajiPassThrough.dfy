/** Which texts the transliterator leaves alone, and which it leaves well-formed. */
module RomajiPassThrough {

  import opened Utf8
  import opened Katakana
  import opened RomajiTable
  import opened Romaji

  /** The text begins with something that is rewritten. */
  predicate Fires(table: Table, src: seq<byte>)
    requires src != []
  {
    Doubled(src) || Longest(table, src, 3).Some?
  }

  lemma FiredBytes(table: Table, src: seq<byte>)
    requires src != [] && Fires(table, src)
    ensures var out := Next(table, src).out;
      |out| >= 3 && out[0] == 0xE3 && 0x81 <= out[1] <= 0x82
    ensures !Doubled(src) ==> src[0] < 0x80
  {
    LongestFound(table, src, 3);
    var m := Longest(table, src, 3);
    if !Doubled(src) {
      var key := Lower(src[..m.value.used]);
      var kana :| m.value.out == Encode(kana) && Sound(Pair(key, kana));
      KanaEncoded(kana);
      assert key[0] == Low(src[0]);
    }
  }

  lemma {:induction false} FiringShows(table: Table, src: seq<byte>)
    requires src != [] && Fires(table, src)
    ensures Kana(table, src) != src
  {
    FiredBytes(table, src);
    var out := Next(table, src).out;
    assert Kana(table, src)[0] == out[0] && Kana(table, src)[1] == out[1];
  }

  lemma {:induction false} QuietByte(table: Table, src: seq<byte>)
    requires src != [] && !Fires(table, src)
    ensures Kana(table, src) == [src[0]] + Kana(table, src[1..])
  {
  }

  ghost predicate Quiet(table: Table, src: seq<byte>) {
    forall i :: 0 <= i < |src| ==> !Fires(table, src[i..])
  }

  lemma QuietFirst(table: Table, src: seq<byte>)
    requires src != []
    ensures Quiet(table, src) <==> !Fires(table, src) && Quiet(table, src[1..])
  {
    assert src[0..] == src;
    assert forall i :: 1 <= i < |src| ==> src[i..] == src[1..][i - 1..];
    assert forall i :: 0 <= i < |src[1..]| ==> src[1..][i..] == src[i + 1..];
  }

  lemma SameFirst(b: byte, x: seq<byte>, y: seq<byte>)
    ensures [b] + x == [b] + y <==> x == y
  {
    assert ([b] + x)[1..] == x && ([b] + y)[1..] == y;
  }

  /** A text is passed through unchanged exactly when nothing fires at any position. */
  lemma {:induction false} PassesExactly(table: Table, src: seq<byte>)
    ensures Kana(table, src) == src <==> Quiet(table, src)
    decreases |src|
  {
    if src != [] {
      QuietFirst(table, src);
      if Fires(table, src) {
        FiringShows(table, src);
      } else {
        var rest := src[1..];
        QuietByte(table, src);
        PassesExactly(table, rest);
        SameFirst(src[0], Kana(table, rest), rest);
        assert src == [src[0]] + rest;
      }
    }
  }

  predicate Letter(b: byte) { 0x41 <= b <= 0x5A || 0x61 <= b <= 0x7A }

  lemma NonLetter(table: Table, src: seq<byte>)
    requires src != [] && !Letter(src[0])
    ensures Fires(table, src) <==> 1 < |src| && src[1] == src[0]
  {
    LongestFound(table, src, 3);
  }

  /** Without letters: exactly when no two neighbouring bytes are equal. */
  lemma {:induction false} LetterFreePasses(table: Table, src: seq<byte>)
    requires forall i :: 0 <= i < |src| ==> !Letter(src[i])
    ensures Kana(table, src) == src <==> forall i, j :: 0 <= i < |src| && j == i + 1 < |src| ==> src[i] != src[j]
  {
    PassesExactly(table, src);
    forall i | 0 <= i < |src|
      ensures Fires(table, src[i..]) <==> i + 1 < |src| && src[i + 1] == src[i]
    {
      NonLetter(table, src[i..]);
    }
  }

  // ---------- UTF-8 text ----------

  /** Two neighbouring bytes of the character are equal. */
  predicate Torn(c: char) {
    var b := EncodeChar(c);
    (|b| >= 3 && b[1] == b[2]) || (|b| == 4 && b[2] == b[3])
  }

  predicate Ascii(c: char) { c as int < 0x80 }

  lemma CharBytes(c: char)
    requires !Ascii(c)
    ensures var b := EncodeChar(c);
      b[0] >= 0xC0 && |b| >= 2 && Tail(b[1]) && (|b| >= 3 ==> Tail(b[2])) && (|b| == 4 ==> Tail(b[3]))
  {
  }

  lemma {:induction false} TextStart(s: string)
    ensures Encode(s) != [] ==> !Tail(Encode(s)[0])
  {
    if s != [] && !Ascii(s[0]) {
      CharBytes(s[0]);
    }
  }

  lemma {:induction false} PassBytes(table: Table, head: seq<byte>, rest: seq<byte>)
    requires forall i :: 0 <= i < |head| ==> head[i] >= 0x80
    requires forall i :: 0 < i < |head| ==> head[i - 1] != head[i]
    requires head != [] && rest != [] ==> head[|head| - 1] != rest[0]
    ensures Kana(table, head + rest) == head + Kana(table, rest)
    decreases |head|
  {
    if head == [] {
      assert head + rest == rest;
    } else {
      var h, tail := head[0], head[1..];
      PassBytes(table, tail, rest);
      PassFirst(table, h, tail + rest);
      Associate(h, tail, head, rest);
      Associate(h, tail, head, Kana(table, rest));
    }
  }

  lemma {:induction false} PassFirst(table: Table, b: byte, rest: seq<byte>)
    requires b >= 0x80 && (rest != [] ==> rest[0] != b)
    ensures Kana(table, [b] + rest) == [b] + Kana(table, rest)
  {
    var src := [b] + rest;
    NonLetter(table, src);
    QuietByte(table, src);
    assert src[1..] == rest;
  }

  lemma Associate(h: byte, tail: seq<byte>, head: seq<byte>, rest: seq<byte>)
    requires head != [] && head[0] == h && head[1..] == tail
    ensures [h] + (tail + rest) == head + rest
  {
  }

  lemma {:induction false} PassChar(table: Table, c: char, t: string)
    requires !Ascii(c) && !Torn(c)
    ensures Kana(table, EncodeChar(c) + Encode(t)) == EncodeChar(c) + Kana(table, Encode(t))
  {
    CharBytes(c);
    TextStart(t);
    PassBytes(table, EncodeChar(c), Encode(t));
  }

  /** A torn character loses its tail to a small tsu. */
  lemma {:induction false} TearChar(table: Table, c: char, rest: seq<byte>)
    requires Torn(c)
    ensures Size(Kana(table, EncodeChar(c) + rest)) == 0 && Kana(table, EncodeChar(c) + rest) != []
  {
    CharBytes(c);
    var b := EncodeChar(c);
    var j := if b[1] == b[2] then 1 else 2;
    var head, tail := b[..j], b[j..] + rest;
    assert b + rest == head + tail;
    PassBytes(table, head, tail);
    StartsWithTsu(table, tail);
    CutShort(c, j, head, Kana(table, tail));
  }

  lemma {:induction false} StartsWithTsu(table: Table, src: seq<byte>)
    requires |src| >= 2 && src[0] == src[1] >= 0x80
    ensures Kana(table, src) != [] && Kana(table, src)[0] == 0xE3
  {
    assert Doubled(src);
  }

  lemma CutShort(c: char, j: nat, head: seq<byte>, k: seq<byte>)
    requires !Ascii(c) && 1 <= j < |EncodeChar(c)| && head == EncodeChar(c)[..j] && k != [] && !Tail(k[0])
    ensures Size(head + k) == 0
  {
    CharBytes(c);
    assert (head + k)[j] == k[0] && (head + k)[0] == EncodeChar(c)[0];
  }

  // ---------- ASCII steps ----------

  lemma {:induction false} AsciiPrefix(s: string, k: nat)
    requires k <= |Encode(s)| && forall i :: 0 <= i < k ==> Encode(s)[i] < 0x80
    ensures k <= |s| && Encode(s)[k..] == Encode(s[k..]) && forall i :: 0 <= i < k ==> Ascii(s[i])
    decreases k
  {
    if k == 0 {
      assert s[0..] == s;
    } else {
      var b, t := Encode(s), s[1..];
      assert b[0] == EncodeChar(s[0])[0];
      if !Ascii(s[0]) {
        CharBytes(s[0]);
      }
      assert EncodeChar(s[0]) == [b[0]] && b[1..] == Encode(t);
      AsciiPrefix(t, k - 1);
      assert b[k..] == b[1..][k - 1..] && s[k..] == t[k - 1..];
    }
  }

  /** A step writes whole characters, and uses whole ones. */
  lemma AsciiStep(table: Table, s: string) returns (m: Move, o: string)
    requires s != [] && Ascii(s[0])
    ensures Encode(s) != [] && m == Next(table, Encode(s)) && m.out == Encode(o)
    ensures 1 <= m.used <= |s| && Encode(s)[m.used..] == Encode(s[m.used..])
    ensures forall i :: 0 <= i < m.used ==> Ascii(s[i])
  {
    var b := Encode(s);
    m := Next(table, b);
    assert EncodeChar(s[0]) == [b[0]];
    var l := Longest(table, b, 3);
    if Doubled(b) {
      TsuBytes();
      o := "っ";
    } else if l.Some? {
      LongestFound(table, b, 3);
      o :| l.value.out == Encode(o) && Sound(Pair(Lower(b[..m.used]), o));
      LettersAreAscii(b, m.used, o);
    } else {
      o := [s[0]];
      assert o[1..] == [];
      assert Encode(o) == [b[0]] + [];
    }
    AsciiPrefix(s, m.used);
  }

  lemma LettersAreAscii(b: seq<byte>, k: nat, kana: string)
    requires k <= |b| && Sound(Pair(Lower(b[..k]), kana))
    ensures forall i :: 0 <= i < k ==> b[i] < 0x80
  {
    var key := Lower(b[..k]);
    assert forall i :: 0 <= i < k ==> key[i] == Low(b[i]);
    assert forall i :: 0 <= i < k ==> 'a' <= key[i] <= 'z';
  }

  // ---------- well-formed output ----------

  lemma {:induction false} FormedAfter(o: string, x: seq<byte>)
    ensures WellFormed(Encode(o) + x) <==> WellFormed(x)
  {
    if o == [] {
      assert Encode(o) + x == x;
    } else {
      FormedAfter(o[1..], x);
      var rest := Encode(o[1..]) + x;
      FormedAfterChar(o[0], rest);
      assert Encode(o) + x == EncodeChar(o[0]) + rest;
    }
  }

  lemma {:induction false} FormedAfterChar(c: char, rest: seq<byte>)
    ensures WellFormed(EncodeChar(c) + rest) <==> WellFormed(rest)
  {
    CharRoundTrip(c, rest);
    var b := EncodeChar(c) + rest;
    assert b[Size(b)..] == rest;
  }

  predicate Whole(s: string) { forall i :: 0 <= i < |s| ==> !Torn(s[i]) }

  lemma AsciiWhole(s: string, k: nat)
    requires k <= |s| && forall i :: 0 <= i < k ==> Ascii(s[i])
    ensures Whole(s) <==> Whole(s[k..])
  {
    assert forall i :: k <= i < |s| ==> s[i] == s[k..][i - k];
  }

  /** Of a UTF-8 text, the result is UTF-8 exactly when no character of the text is torn. */
  lemma {:induction false} FormedExactly(table: Table, s: string)
    ensures WellFormed(Kana(table, Encode(s))) <==> Whole(s)
    decreases |s|
  {
    if s != [] {
      if Ascii(s[0]) {
        FormedAscii(table, s);
      } else {
        FormedOther(table, s);
      }
    }
  }

  lemma {:induction false} FormedAscii(table: Table, s: string)
    requires s != [] && Ascii(s[0])
    ensures WellFormed(Kana(table, Encode(s))) <==> Whole(s)
    decreases |s|, 0
  {
    var m, o := AsciiStep(table, s);
    FormedExactly(table, s[m.used..]);
    FormedAfter(o, Kana(table, Encode(s[m.used..])));
    AsciiWhole(s, m.used);
  }

  lemma {:induction false} FormedOther(table: Table, s: string)
    requires s != [] && !Ascii(s[0])
    ensures WellFormed(Kana(table, Encode(s))) <==> Whole(s)
    decreases |s|, 0
  {
    var c, t := s[0], s[1..];
    if Torn(c) {
      TearChar(table, c, Encode(t));
    } else {
      PassChar(table, c, t);
      FormedExactly(table, t);
      FormedAfterChar(c, Kana(table, Encode(t)));
      assert forall i :: 1 <= i < |s| ==> s[i] == t[i - 1];
    }
  }

  /** ASCII becomes katakana with no hiragana left in it. */
  lemma {:induction false} AsciiToKatakana(table: Table, s: string)
    requires forall i :: 0 <= i < |s| ==> Ascii(s[i])
    ensures WellFormed(Kana(table, Encode(s)))
    ensures var katakana := Shift(Decode(Kana(table, Encode(s))));
      forall i :: 0 <= i < |katakana| ==> !Hiragana(katakana[i])
  {
    AsciiWhole(s, |s|);
    FormedExactly(table, s);
    ShiftLeavesNoHiragana(Decode(Kana(table, Encode(s))));
  }

  /** A text without ASCII is passed through exactly when no character is torn. */
  lemma {:induction false} NonAsciiPasses(table: Table, s: string)
    requires forall i :: 0 <= i < |s| ==> !Ascii(s[i])
    ensures Kana(table, Encode(s)) == Encode(s) <==> Whole(s)
  {
    if Whole(s) {
      WholePasses(table, s);
    } else {
      FormedExactly(table, s);
      EncodeDecode(s);
    }
  }

  lemma {:induction false} WholePasses(table: Table, s: string)
    requires Whole(s) && forall i :: 0 <= i < |s| ==> !Ascii(s[i])
    ensures Kana(table, Encode(s)) == Encode(s)
  {
    if s != [] {
      WholePasses(table, s[1..]);
      PassChar(table, s[0], s[1..]);
    }
  }

  /** Among kana these are the small a, mo, and the katakana small tsu. */
  lemma TornKana(c: char)
    requires 0x3040 <= c as int <= 0x30FF
    ensures Torn(c) <==> c == 'ぁ' || c == 'も' || c == 'ッ'
  {
  }

  /** So kana is not always passed through: mo comes out torn. */
  lemma {:induction false} MoIsTorn(table: Table)
    ensures Kana(table, Encode("も")) == [0xE3] + SMALL_TSU + [0x82] && !WellFormed(Kana(table, Encode("も")))
  {
    var mo := "も";
    TornKana(mo[0]);
    FormedExactly(table, mo);
    MoBytes(mo);
    PassFirst(table, 0xE3, [0x82, 0x82]);
    DoubledTail(table);
  }

  lemma {:induction false} MoBytes(mo: string)
    requires mo == "も"
    ensures Encode(mo) == [0xE3] + [0x82, 0x82]
  {
    assert mo[1..] == [];
    assert Encode(mo) == EncodeChar(mo[0]) + [];
  }

  lemma {:induction false} DoubledTail(table: Table)
    ensures Kana(table, [0x82, 0x82]) == SMALL_TSU + [0x82]
  {
    TornTail(table, []);
    assert [0x82, 0x82] + [] == [0x82, 0x82] && SMALL_TSU + [0x82] + [] == SMALL_TSU + [0x82];
  }

  /** The two last bytes of mo, in front of a text that begins a character. */
  lemma {:induction false} TornTail(table: Table, rest: seq<byte>)
    requires rest != [] ==> !Tail(rest[0])
    ensures Kana(table, [0x82, 0x82] + rest) == SMALL_TSU + [0x82] + Kana(table, rest)
  {
    var src := [0x82, 0x82] + rest;
    assert src[1..] == [0x82] + rest && Doubled(src);
    PassFirst(table, 0x82, rest);
    assert Kana(table, src) == SMALL_TSU + Kana(table, [0x82] + rest);
    assert SMALL_TSU + ([0x82] + Kana(table, rest)) == SMALL_TSU + [0x82] + Kana(table, rest);
  }

  // ---------- the shift to katakana of what comes out ----------

  /** Without a torn character the shift stays inside, and is the shift of each character. */
  lemma {:induction false} WholeTiles(table: Table, s: string)
    requires Whole(s)
    ensures var b := Kana(table, Encode(s));
      WellFormed(b) && Tiles(b) && ShiftBytes(b) == Encode(Shift(Decode(b)))
  {
    FormedExactly(table, s);
    FormedTiles(Kana(table, Encode(s)));
  }

  /** On mo the C loop goes past the end: from 0 to 3 to 7, and the string has five bytes. */
  lemma {:induction false} MoOverruns(table: Table, mem: nat -> byte, p: nat)
    requires StringAt(mem, p, Kana(table, Encode("も")))
    ensures |Kana(table, Encode("も"))| == 5 && !Tiles(Kana(table, Encode("も")))
    ensures Position(mem, p, 2) == p + 7
  {
    MoIsTorn(table);
    Overruns(Kana(table, Encode("も")), mem, p);
  }

  lemma {:induction false} Overruns(b: seq<byte>, mem: nat -> byte, p: nat)
    requires StringAt(mem, p, b) && b == [0xE3, 0xE3, 0x81, 0xA3, 0x82]
    ensures !Tiles(b) && Position(mem, p, 2) == p + 7
  {
    assert b[3..] == [0xA3, 0x82];
    assert mem(p + 0) == b[0] && mem(p + 3) == b[3];
    assert Position(mem, p, 2) == Position(mem, p + 3, 1) == Position(mem, p + 7, 0);
  }

  /** Well-formed output is not needed for that: behind a torn mo, two more kana bring the loop
      back to the end. */
  lemma {:induction false} TornButTiles(table: Table, s: string)
    requires s == "もああ"
    ensures !WellFormed(Kana(table, Encode(s))) && Tiles(Kana(table, Encode(s)))
  {
    TornKana(s[0]);
    FormedExactly(table, s);
    var src, rest := MoAndAa(s);
    AaPasses(table, s[1..]);
    BackToEnd(table, src, rest);
  }

  lemma {:induction false} BackToEnd(table: Table, src: seq<byte>, rest: seq<byte>)
    requires src == [0xE3] + ([0x82, 0x82] + rest) && rest == [0xE3, 0x81, 0x82, 0xE3, 0x81, 0x82]
    requires Kana(table, rest) == rest
    ensures Tiles(Kana(table, src))
  {
    MoThen(table, src, rest);
    LandsOnEnd(Kana(table, src), rest);
  }

  lemma {:induction false} MoAndAa(s: string) returns (src: seq<byte>, rest: seq<byte>)
    requires s == "もああ"
    ensures src == Encode(s) == [0xE3] + ([0x82, 0x82] + rest)
    ensures rest == Encode(s[1..]) == [0xE3, 0x81, 0x82, 0xE3, 0x81, 0x82]
  {
    src, rest := Encode(s), Encode(s[1..]);
    AaBytes(s[1..]);
    assert EncodeChar(s[0]) + rest == [0xE3] + ([0x82, 0x82] + rest);
  }

  lemma {:induction false} AaPasses(table: Table, aa: string)
    requires aa == "ああ"
    ensures Kana(table, Encode(aa)) == Encode(aa)
  {
    TornKana('あ');
    NonAsciiPasses(table, aa);
  }

  lemma {:induction false} MoThen(table: Table, src: seq<byte>, rest: seq<byte>)
    requires rest != [] ==> !Tail(rest[0])
    requires src == [0xE3] + ([0x82, 0x82] + rest) && Kana(table, rest) == rest
    ensures Kana(table, src) == [0xE3] + (SMALL_TSU + [0x82] + rest)
  {
    PassFirst(table, 0xE3, [0x82, 0x82] + rest);
    TornTail(table, rest);
  }

  lemma {:induction false} AaBytes(aa: string)
    requires aa == "ああ"
    ensures Encode(aa) == [0xE3, 0x81, 0x82, 0xE3, 0x81, 0x82]
  {
    assert aa[1..][1..] == [];
    assert Encode(aa[1..]) == EncodeChar(aa[1]) + [];
  }

  lemma {:induction false} LandsOnEnd(b: seq<byte>, rest: seq<byte>)
    requires rest == [0xE3, 0x81, 0x82, 0xE3, 0x81, 0x82] && b == [0xE3] + (SMALL_TSU + [0x82] + rest)
    ensures Tiles(b)
  {
    var c := b[3..];
    var d := c[4..];
    assert c == [0xA3, 0x82] + rest && d == rest[2..] && d[4..] == [];
    assert Tiles(d);
    assert Tiles(c);
  }

  // ---------- where the loop of the shift comes to, from the text ----------

  /** How far the loop is past the bytes `b` when it comes behind them, having begun `k` bytes in. */
  function Past(b: seq<byte>, k: nat): nat
    decreases |b| - k
  {
    if k >= |b| then k - |b| else Past(b, k + Width(b[k]))
  }

  lemma {:induction false} PastTiles(b: seq<byte>, k: nat)
    requires k <= |b|
    ensures Tiles(b[k..]) <==> Past(b, k) == 0
    decreases |b| - k
  {
    if k < |b| {
      var w := Width(b[k]);
      if k + w <= |b| {
        PastTiles(b, k + w);
        assert b[k..][w..] == b[k + w..];
      } else {
        assert Past(b, k + w) == k + w - |b|;
      }
    }
  }

  lemma {:induction false} PastConcat(a: seq<byte>, b: seq<byte>, k: nat)
    ensures Past(a + b, k) == Past(b, Past(a, k))
    decreases |a| + |b| - k
  {
    if k < |a| {
      PastConcat(a, b, k + Width(a[k]));
    } else if k < |a| + |b| {
      PastConcat(a, b, k + Width(b[k - |a|]));
      PastShift(a, b, k);
    }
  }

  lemma {:induction false} PastShift(a: seq<byte>, b: seq<byte>, k: nat)
    requires |a| <= k < |a| + |b|
    ensures Past(b, k - |a|) == Past(b, k - |a| + Width(b[k - |a|]))
  {
  }

  /** Where the loop is behind what the text `src` comes out as, a step of the scan at a time. */
  function LandsFrom(table: Table, src: seq<byte>, k: nat): nat
    decreases |src|
  {
    if src == [] then k
    else LandsFrom(table, src[Next(table, src).used..], Past(Next(table, src).out, k))
  }

  lemma {:induction false} LandsFromPast(table: Table, src: seq<byte>, k: nat)
    ensures Past(Kana(table, src), k) == LandsFrom(table, src, k)
    decreases |src|
  {
    if src != [] {
      var m := Next(table, src);
      PastConcat(m.out, Kana(table, src[m.used..]), k);
      LandsFromPast(table, src[m.used..], Past(m.out, k));
    }
  }

  /** The exact condition for every text: a scan that writes nothing tells whether what it comes out
      as keeps the shift inside the string. */
  lemma {:induction false} InsideFromSource(table: Table, src: seq<byte>)
    ensures Tiles(Kana(table, src)) <==> LandsFrom(table, src, 0) == 0
  {
    var b := Kana(table, src);
    PastTiles(b, 0);
    assert b[0..] == b;
    LandsFromPast(table, src, 0);
  }

  /** What is written for the bytes of a character: a small tsu for each that is doubled. */
  function Written(b: seq<byte>): seq<byte> {
    if b == [] then [] else (if |b| > 1 && b[0] == b[1] then SMALL_TSU else [b[0]]) + Written(b[1..])
  }

  lemma {:induction false} WrittenBytes(table: Table, b: seq<byte>, rest: seq<byte>)
    requires b != [] && (forall i :: 0 <= i < |b| ==> b[i] >= 0x80) && (rest != [] ==> rest[0] != b[|b| - 1])
    ensures Kana(table, b + rest) == Written(b) + Kana(table, rest)
    decreases |b|
  {
    Associate(b[0], b[1..], b, rest);
    if |b| == 1 {
      assert b[1..] + rest == rest && b == [b[0]];
      PassFirst(table, b[0], rest);
      WrittenOne(b);
    } else {
      WrittenBytes(table, b[1..], rest);
      WrittenStep(table, b, b[1..], b[1..] + rest, rest);
    }
  }

  lemma {:induction false} WrittenOne(b: seq<byte>)
    requires |b| == 1
    ensures Written(b) == b
  {
    assert b[1..] == [];
  }

  lemma {:induction false} WrittenStep(table: Table, b: seq<byte>, tail: seq<byte>, next: seq<byte>, rest: seq<byte>)
    requires |b| > 1 && b[0] >= 0x80 && tail == b[1..] && next != [] && next[0] == tail[0]
    requires Kana(table, next) == Written(tail) + Kana(table, rest)
    ensures Kana(table, [b[0]] + next) == Written(b) + Kana(table, rest)
  {
    WrittenFirst(table, b[0], next);
    Regroup(if b[0] == b[1] then SMALL_TSU else [b[0]], Written(tail), Kana(table, rest));
  }

  lemma {:induction false} WrittenFirst(table: Table, b: byte, next: seq<byte>)
    requires b >= 0x80 && next != []
    ensures Kana(table, [b] + next) == (if b == next[0] then SMALL_TSU else [b]) + Kana(table, next)
  {
    var src := [b] + next;
    if b == next[0] {
      assert Doubled(src) && src[1..] == next;
    } else {
      PassFirst(table, b, next);
    }
  }

  lemma Regroup(x: seq<byte>, y: seq<byte>, z: seq<byte>)
    ensures x + (y + z) == x + y + z
  {
  }

  /** Where the loop is behind the text `s`, a character at a time. */
  function Lands(s: string, k: nat): nat {
    if s == "" then k else Lands(s[1..], Past(Written(EncodeChar(s[0])), k))
  }

  lemma {:induction false} LandsPast(table: Table, s: string, k: nat)
    requires forall i :: 0 <= i < |s| ==> !Ascii(s[i])
    ensures Past(Kana(table, Encode(s)), k) == Lands(s, k)
    decreases |s|
  {
    if s != "" {
      var b, rest := EncodeChar(s[0]), Encode(s[1..]);
      CharBytes(s[0]);
      TextStart(s[1..]);
      WrittenBytes(table, b, rest);
      PastConcat(Written(b), Kana(table, rest), k);
      LandsPast(table, s[1..], Past(Written(b), k));
    }
  }

  /** The exact condition on a text without ASCII: what it comes out as keeps the shift inside the
      string if and only if the loop lands on its end. */
  lemma {:induction false} InsideFromText(table: Table, s: string)
    requires forall i :: 0 <= i < |s| ==> !Ascii(s[i])
    ensures Tiles(Kana(table, Encode(s))) <==> Lands(s, 0) == 0
  {
    var b := Kana(table, Encode(s));
    PastTiles(b, 0);
    assert b[0..] == b;
    LandsPast(table, s, 0);
  }

  predicate ThreeBytes(c: char) { 0x800 <= c as int < 0x1_0000 }

  /** For characters of three bytes, kana and most kanji among them, that is an automaton with four
      states, which looks only at whether a character is torn. */
  function LandsOn(s: string, k: nat): nat
    requires k <= 3
  {
    if s == "" then k
    else LandsOn(s[1..], if Torn(s[0]) then [2, 3, 1, 2][k] else [0, 2, 3, 0][k])
  }

  lemma {:induction false} ThreeBytesLand(c: char, k: nat)
    requires ThreeBytes(c) && k <= 3
    ensures Past(Written(EncodeChar(c)), k) == if Torn(c) then [2, 3, 1, 2][k] else [0, 2, 3, 0][k]
  {
    var b := EncodeChar(c);
    assert |b| == 3 && Width(b[0]) == 3 && Width(b[1]) == 4 && Width(b[2]) == 4;
    WrittenThree(b);
    if Torn(c) {
      TornLands(Written(b), k);
    } else {
      WholeLands(b, k);
    }
  }

  lemma {:induction false} WrittenThree(b: seq<byte>)
    requires |b| == 3 && b[0] != b[1]
    ensures Written(b) == if b[1] == b[2] then [b[0]] + SMALL_TSU + [b[2]] else b
  {
    assert b[1..][1..] == [b[2]] && [b[2]][1..] == [];
    assert Written([b[2]]) == [b[2]];
    assert Written(b[1..]) == (if b[1] == b[2] then SMALL_TSU else [b[1]]) + [b[2]];
  }

  lemma {:induction false} WholeLands(b: seq<byte>, k: nat)
    requires |b| == 3 && Width(b[0]) == 3 && Width(b[1]) == 4 && Width(b[2]) == 4 && k <= 3
    ensures Past(b, k) == [0, 2, 3, 0][k]
  {
    assert Past(b, 3) == 0 && Past(b, 5) == 2 && Past(b, 6) == 3;
  }

  lemma {:induction false} TornLands(w: seq<byte>, k: nat)
    requires |w| == 5 && Width(w[0]) == 3 && w[1..4] == SMALL_TSU && Width(w[4]) == 4 && k <= 3
    ensures Past(w, k) == [2, 3, 1, 2][k]
  {
    assert w[1] == w[1..4][0] && w[2] == w[1..4][1] && w[3] == w[1..4][2];
    assert Past(w, 6) == 1 && Past(w, 7) == 2 && Past(w, 8) == 3;
    assert Past(w, 3) == Past(w, 7) && Past(w, 4) == Past(w, 8);
  }

  lemma {:induction false} LandsSame(s: string, k: nat)
    requires k <= 3 && forall i :: 0 <= i < |s| ==> ThreeBytes(s[i])
    ensures Lands(s, k) == LandsOn(s, k)
    decreases |s|
  {
    if s != "" {
      ThreeBytesLand(s[0], k);
      LandsSame(s[1..], if Torn(s[0]) then [2, 3, 1, 2][k] else [0, 2, 3, 0][k]);
    }
  }

  /** So of kana and kanji one can tell beforehand whether the C program stays inside its string. */
  lemma {:induction false} KanaInside(table: Table, s: string)
    requires forall i :: 0 <= i < |s| ==> ThreeBytes(s[i])
    ensures Tiles(Kana(table, Encode(s))) <==> LandsOn(s, 0) == 0
  {
    InsideFromText(table, s);
    LandsSame(s, 0);
  }
}
