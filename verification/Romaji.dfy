/** What the transliterator writes, as a function of the text: a small tsu for a doubled
    consonant, else the longest syllable of the table, else the byte itself. */
module Romaji {

  import opened CText
  import opened Utf8
  import opened Katakana
  import opened RomajiTable

  /** tolower in the C locale. */
  function Low(b: byte): char { (if 0x41 <= b <= 0x5A then b + 0x20 else b) as char }

  function Lower(b: seq<byte>): (s: string)
    ensures |s| == |b| && forall i :: 0 <= i < |b| ==> s[i] == Low(b[i])
  {
    seq(|b|, i requires 0 <= i < |b| => Low(b[i]))
  }

  predicate VowelOrN(c: char) { Vowel(c) || c == 'n' }

  const SMALL_TSU: seq<byte> := [0xE3, 0x81, 0xA3]

  /** A step of the scan: bytes used and bytes written. */
  datatype Move = Move(used: nat, out: seq<byte>)

  predicate Doubled(src: seq<byte>)
    requires src != []
  {
    !VowelOrN(Low(src[0])) && 1 < |src| && Low(src[1]) == Low(src[0])
  }

  /** The longest syllable of at most `take` bytes that the text begins with. */
  function Longest(table: Table, src: seq<byte>, take: nat): (m: Option<Move>)
    requires take <= 3
    ensures m.Some? ==> 1 <= m.value.used <= take && m.value.used <= |src|
  {
    if take == 0 then None
    else if take <= |src| && First(table, Lower(src[..take])).Some? then
      Some(Move(take, Encode(First(table, Lower(src[..take])).value)))
    else Longest(table, src, take - 1)
  }

  function Next(table: Table, src: seq<byte>): (m: Move)
    requires src != []
    ensures 1 <= m.used <= |src| && m.used <= 3
  {
    if Doubled(src) then Move(1, SMALL_TSU)
    else
      var m := Longest(table, src, 3);
      if m.Some? then m.value else Move(1, [src[0]])
  }

  /** The whole transliteration. */
  function Kana(table: Table, src: seq<byte>): seq<byte>
    decreases |src|
  {
    if src == [] then [] else Next(table, src).out + Kana(table, src[Next(table, src).used..])
  }

  /** As much of it, in whole steps, as fits in `room` bytes. */
  function Fitting(table: Table, src: seq<byte>, room: nat): (out: seq<byte>)
    ensures |out| <= room
    decreases |src|
  {
    if src == [] || |Next(table, src).out| > room then []
    else
      var m := Next(table, src);
      m.out + Fitting(table, src[m.used..], room - |m.out|)
  }

  // ---------- what a step writes ----------

  lemma TsuBytes()
    ensures SMALL_TSU == Encode("っ")
  {
    assert "っ"[1..] == [];
    assert Encode("っ") == EncodeChar('っ') + [];
  }

  lemma HiraganaBytes(c: char)
    requires Hiragana(c)
    ensures |EncodeChar(c)| == 3 && EncodeChar(c)[0] == 0xE3 && 0x81 <= EncodeChar(c)[1] <= 0x82
  {
  }

  lemma {:induction false} KanaEncoded(kana: string)
    requires 1 <= |kana| <= 2 && Hiragana(kana[0]) && (|kana| == 2 ==> Hiragana(kana[1]))
    ensures |Encode(kana)| == 3 * |kana| && Encode(kana)[0] == 0xE3 && 0x81 <= Encode(kana)[1] <= 0x82
    ensures NoNul(Encode(kana))
  {
    HiraganaBytes(kana[0]);
    if |kana| == 2 {
      HiraganaBytes(kana[1]);
      assert kana[1..][1..] == [];
      assert Encode(kana[1..]) == EncodeChar(kana[1]) + [];
    } else {
      assert kana[1..] == [];
    }
  }

  /** The step writes the hiragana of a syllable that the text begins with. */
  ghost predicate SoundMove(src: seq<byte>, m: Move) {
    m.used <= |src| && exists kana :: m.out == Encode(kana) && Sound(Pair(Lower(src[..m.used]), kana))
  }

  lemma {:induction false} LongestFound(table: Table, src: seq<byte>, take: nat)
    requires take <= 3
    ensures Longest(table, src, take).Some? ==> SoundMove(src, Longest(table, src, take).value)
  {
    if take > 0 {
      if take <= |src| && First(table, Lower(src[..take])).Some? {
        FirstSound(table, Lower(src[..take]));
      } else {
        LongestFound(table, src, take - 1);
      }
    }
  }

  /** No longer syllable of the table would do. */
  lemma {:induction false} LongestIsLongest(table: Table, src: seq<byte>, take: nat, t: nat)
    requires 1 <= t <= take <= 3 && t <= |src| && First(table, Lower(src[..t])).Some?
    ensures Longest(table, src, take).Some? && t <= Longest(table, src, take).value.used
  {
    if take > t {
      LongestIsLongest(table, src, take - 1, t);
    }
  }

  lemma NextBounds(table: Table, src: seq<byte>)
    requires src != []
    ensures 1 <= |Next(table, src).out| <= 3 * Next(table, src).used
  {
    LongestFound(table, src, 3);
    var m := Longest(table, src, 3);
    if !Doubled(src) && m.Some? {
      var kana :| m.value.out == Encode(kana) && Sound(Pair(Lower(src[..m.value.used]), kana));
      KanaEncoded(kana);
    }
  }

  /** At most three bytes are written for one. */
  lemma {:induction false} LengthBound(table: Table, src: seq<byte>)
    ensures |Kana(table, src)| <= 3 * |src|
    decreases |src|
  {
    if src != [] {
      NextBounds(table, src);
      LengthBound(table, src[Next(table, src).used..]);
    }
  }

  /** What fits is all of it, or stops at the step that does not fit. */
  lemma {:induction false} FittingIsPrefix(table: Table, src: seq<byte>, room: nat)
    ensures Fitting(table, src, room) <= Kana(table, src)
    ensures Fitting(table, src, room) == Kana(table, src) <==> |Kana(table, src)| <= room
    decreases |src|
  {
    if src != [] {
      var m := Next(table, src);
      NextBounds(table, src);
      if |m.out| <= room {
        FittingIsPrefix(table, src[m.used..], room - |m.out|);
      }
    }
  }

  lemma NextNoNul(table: Table, src: seq<byte>)
    requires src != [] && NoNul(src)
    ensures NoNul(Next(table, src).out)
  {
    LongestFound(table, src, 3);
    var m := Longest(table, src, 3);
    if !Doubled(src) && m.Some? {
      var kana :| m.value.out == Encode(kana) && Sound(Pair(Lower(src[..m.value.used]), kana));
      KanaEncoded(kana);
    }
  }

  lemma {:induction false} KanaNoNul(table: Table, src: seq<byte>)
    requires NoNul(src)
    ensures NoNul(Kana(table, src))
    decreases |src|
  {
    if src != [] {
      NextNoNul(table, src);
      KanaNoNul(table, src[Next(table, src).used..]);
    }
  }
}
