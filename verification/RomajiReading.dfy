/** What the transliteration of romaji is meant to be: letters count without their case, a syllable
    becomes its hiragana, a doubled consonant a small tsu, and whole words are read mora by mora. */
module RomajiReading {

  import opened CText
  import opened Utf8
  import opened Katakana
  import opened RomajiTable
  import opened Romaji
  import opened RomajiTyping

  // ---------- upper and lower case ----------

  function LowerByte(b: byte): byte { if 0x41 <= b <= 0x5A then b + 0x20 else b }

  function ToLower(s: seq<byte>): (t: seq<byte>)
    ensures |t| == |s| && forall i :: 0 <= i < |s| ==> t[i] == LowerByte(s[i])
  {
    seq(|s|, i requires 0 <= i < |s| => LowerByte(s[i]))
  }

  lemma ToLowerConcat(a: seq<byte>, b: seq<byte>)
    ensures ToLower(a + b) == ToLower(a) + ToLower(b)
  {
  }

  lemma LowerSame(src: seq<byte>, t: nat)
    requires t <= |src|
    ensures Lower(ToLower(src)[..t]) == Lower(src[..t])
  {
    assert forall i :: 0 <= i < t ==> ToLower(src)[..t][i] == LowerByte(src[i]) && src[..t][i] == src[i];
  }

  lemma {:induction false} LongestCase(table: Table, src: seq<byte>, take: nat)
    requires take <= 3
    ensures Longest(table, ToLower(src), take) == Longest(table, src, take)
  {
    if take > 0 {
      if take <= |src| {
        LowerSame(src, take);
      }
      LongestCase(table, src, take - 1);
    }
  }

  lemma HiraganaHigh(c: char)
    requires Hiragana(c)
    ensures ToLower(EncodeChar(c)) == EncodeChar(c)
  {
  }

  lemma {:induction false} KanaHigh(kana: string)
    requires 1 <= |kana| <= 2 && Hiragana(kana[0]) && (|kana| == 2 ==> Hiragana(kana[1]))
    ensures ToLower(Encode(kana)) == Encode(kana)
  {
    HiraganaHigh(kana[0]);
    if |kana| == 1 {
      assert kana[1..] == [];
      assert Encode(kana) == EncodeChar(kana[0]) + [];
    } else {
      HiraganaHigh(kana[1]);
      assert kana[1..][1..] == [];
      assert Encode(kana[1..]) == EncodeChar(kana[1]) + [];
      ToLowerConcat(EncodeChar(kana[0]), Encode(kana[1..]));
    }
  }

  lemma {:induction false} NextCase(table: Table, src: seq<byte>)
    requires src != []
    ensures Next(table, ToLower(src)) == Move(Next(table, src).used, ToLower(Next(table, src).out))
  {
    LongestCase(table, src, 3);
    LongestFound(table, src, 3);
    assert Doubled(ToLower(src)) == Doubled(src);
    var m := Longest(table, src, 3);
    if Doubled(src) {
      assert ToLower(SMALL_TSU) == SMALL_TSU;
    } else if m.Some? {
      var kana :| m.value.out == Encode(kana) && Sound(Pair(Lower(src[..m.value.used]), kana));
      KanaHigh(kana);
    }
  }

  /** For every text: transliterating it in lower case is its transliteration in lower case. So the
      case of the letters decides only how the bytes look that are left as they are. */
  lemma {:induction false} CaseIgnored(table: Table, src: seq<byte>)
    ensures Kana(table, ToLower(src)) == ToLower(Kana(table, src))
    decreases |src|
  {
    if src != [] {
      var m := Next(table, src);
      NextCase(table, src);
      CaseIgnored(table, src[m.used..]);
      assert ToLower(src)[m.used..] == ToLower(src[m.used..]);
      ToLowerConcat(m.out, Kana(table, src[m.used..]));
    }
  }

  // ---------- syllables ----------

  /** A vowel ends its syllable: no key of the table goes on behind it. */
  lemma {:induction false} NotLonger(table: Table, src: seq<byte>, t: nat, take: nat)
    requires 1 <= t < take <= 3 && take <= |src| && Vowel(Low(src[t - 1]))
    ensures First(table, Lower(src[..take])).None?
  {
    var key := Lower(src[..take]);
    assert key[t - 1] == Low(src[t - 1]);
    if First(table, key).Some? {
      FirstSound(table, key);
    }
  }

  lemma {:induction false} LongestIs(table: Table, src: seq<byte>, t: nat, take: nat)
    requires 1 <= t <= take <= 3 && t <= |src| && Vowel(Low(src[t - 1])) && First(table, Lower(src[..t])).Some?
    ensures Longest(table, src, take) == Some(Move(t, Encode(First(table, Lower(src[..t])).value)))
  {
    if take > t {
      if take <= |src| {
        NotLonger(table, src, t, take);
      }
      LongestIs(table, src, t, take - 1);
    }
  }

  /** A syllable that ends in a vowel becomes its hiragana, whatever follows. */
  lemma {:induction false} SyllableReads(table: Table, src: seq<byte>, t: nat)
    requires 1 <= t <= 3 && t <= |src| && Vowel(Low(src[t - 1])) && First(table, Lower(src[..t])).Some?
    requires t == 3 ==> Low(src[0]) != Low(src[1])
    ensures Kana(table, src) == Encode(First(table, Lower(src[..t])).value) + Kana(table, src[t..])
  {
    FirstSound(table, Lower(src[..t]));
    assert forall i :: 0 <= i < t ==> Lower(src[..t])[i] == Low(src[i]);
    LongestIs(table, src, t, 3);
  }

  /** A doubled consonant becomes a small tsu and the rest, which begins with the consonant. */
  lemma {:induction false} DoubledReads(table: Table, src: seq<byte>)
    requires |src| >= 2 && Low(src[0]) == Low(src[1]) && !Vowel(Low(src[0])) && Low(src[0]) != 'n'
    ensures Kana(table, src) == Encode("っ") + Kana(table, src[1..])
  {
    TsuBytes();
  }

  /** An `n` that begins no longer syllable becomes what the table has for it, also before another. */
  lemma {:induction false} NasalReads(table: Table, src: seq<byte>)
    requires src != [] && Low(src[0]) == 'n' && First(table, "n").Some?
    requires forall t :: 2 <= t <= 3 && t <= |src| ==> First(table, Lower(src[..t])).None?
    ensures Kana(table, src) == Encode(First(table, "n").value) + Kana(table, src[1..])
  {
    assert Lower(src[..1]) == "n";
    assert Longest(table, src, 3) == Longest(table, src, 2) == Longest(table, src, 1);
  }

  // ---------- words ----------

  /** A syllable of the table that ends in a vowel, its first consonant doubled or not. */
  datatype Mora = Mora(doubled: bool, key: string)

  predicate Readable(table: Table, m: Mora) {
    && First(table, m.key).Some? && Sound(Pair(m.key, First(table, m.key).value))
    && Vowel(m.key[|m.key| - 1]) && (|m.key| == 3 ==> m.key[0] != m.key[1])
    && (m.doubled ==> !Vowel(m.key[0]) && m.key[0] != 'n')
  }

  function Spelt(m: Mora): string {
    if m.doubled && m.key != "" then [m.key[0]] + m.key else m.key
  }

  function Read(table: Table, m: Mora): string
    requires Readable(table, m)
  {
    (if m.doubled then "っ" else "") + First(table, m.key).value
  }

  function SpeltAll(ms: seq<Mora>): string {
    if ms == [] then "" else Spelt(ms[0]) + SpeltAll(ms[1..])
  }

  function ReadAll(table: Table, ms: seq<Mora>): string
    requires forall i :: 0 <= i < |ms| ==> Readable(table, ms[i])
  {
    if ms == [] then "" else Read(table, ms[0]) + ReadAll(table, ms[1..])
  }

  /** ASCII text is written a byte a character. */
  lemma {:induction false} AsciiBytes(s: string)
    requires forall i :: 0 <= i < |s| ==> 'a' <= s[i] <= 'z'
    ensures |Encode(s)| == |s| && forall i :: 0 <= i < |s| ==> Encode(s)[i] == s[i] as int
    ensures Lower(Encode(s)) == s
  {
    if s != "" {
      AsciiBytes(s[1..]);
      assert Encode(s) == [s[0] as int] + Encode(s[1..]);
    }
  }

  lemma {:induction false} SoundLetters(p: Pair)
    requires Sound(p)
    ensures forall i :: 0 <= i < |p.romaji| ==> 'a' <= p.romaji[i] <= 'z'
  {
  }

  lemma {:induction false} KeyReads(table: Table, m: Mora)
    requires Readable(table, m)
    ensures Kana(table, Encode(m.key)) == Encode(First(table, m.key).value)
    ensures Encode(m.key) != [] && EndsInVowel(Encode(m.key))
  {
    var b := Encode(m.key);
    SoundLetters(Pair(m.key, First(table, m.key).value));
    AsciiBytes(m.key);
    assert b[..|m.key|] == b && b[|m.key|..] == [];
    SyllableReads(table, b, |m.key|);
    assert Kana(table, []) == [];
  }

  lemma {:induction false} MoraReads(table: Table, m: Mora)
    requires Readable(table, m)
    ensures Kana(table, Encode(Spelt(m))) == Encode(Read(table, m))
    ensures Encode(Spelt(m)) != [] && EndsInVowel(Encode(Spelt(m)))
  {
    KeyReads(table, m);
    var b, kana := Encode(m.key), First(table, m.key).value;
    if m.doubled {
      SoundLetters(Pair(m.key, kana));
      AsciiBytes(m.key);
      var src := Encode(Spelt(m));
      assert Spelt(m)[1..] == m.key;
      assert src == [m.key[0] as int] + b && src[1..] == b;
      DoubledReads(table, src);
      EncodeConcat("っ", kana);
    } else {
      assert "" + kana == kana;
    }
  }

  /** For every word of such syllables: its romaji is transliterated to its kana. */
  lemma {:induction false} WordReads(table: Table, ms: seq<Mora>)
    requires forall i :: 0 <= i < |ms| ==> Readable(table, ms[i])
    ensures Kana(table, Encode(SpeltAll(ms))) == Encode(ReadAll(table, ms))
    decreases |ms|
  {
    if ms != [] {
      var m, rest := ms[0], ms[1..];
      MoraReads(table, m);
      WordReads(table, rest);
      EncodeConcat(Spelt(m), SpeltAll(rest));
      EncodeConcat(Read(table, m), ReadAll(table, rest));
      VowelSplits(table, Encode(Spelt(m)), Encode(SpeltAll(rest)));
    }
  }
}
