/** Transliterating while typing: a text can be converted piece by piece exactly when the
    pieces end in a vowel. */
module RomajiTyping {

  import opened CText
  import opened Utf8
  import opened RomajiTable
  import opened Romaji

  predicate EndsInVowel(a: seq<byte>)
    requires a != []
  {
    Vowel(Low(a[|a| - 1]))
  }

  // ---------- a final vowel ends its syllable ----------

  lemma {:induction false} SameLongest(table: Table, a: seq<byte>, b: seq<byte>, take: nat)
    requires a != [] && take <= 3
    requires forall t :: |a| < t <= take && t <= |a + b| ==> First(table, Lower((a + b)[..t])).None?
    ensures Longest(table, a + b, take) == Longest(table, a, take)
  {
    if take > 0 {
      if take <= |a| {
        assert (a + b)[..take] == a[..take];
      }
      SameLongest(table, a, b, take - 1);
    }
  }

  lemma {:induction false} VowelNotCrossed(table: Table, a: seq<byte>, b: seq<byte>, t: nat)
    requires a != [] && EndsInVowel(a) && |a| < t <= |a + b| && t <= 3
    ensures First(table, Lower((a + b)[..t])).None?
  {
    var key := Lower((a + b)[..t]);
    assert key[|a| - 1] == Low(a[|a| - 1]);
    if First(table, key).Some? {
      FirstSound(table, key);
    }
  }

  lemma SameNext(table: Table, a: seq<byte>, b: seq<byte>)
    requires a != [] && EndsInVowel(a)
    ensures Next(table, a + b) == Next(table, a)
  {
    forall t | |a| < t <= 3 && t <= |a + b|
      ensures First(table, Lower((a + b)[..t])).None?
    {
      VowelNotCrossed(table, a, b, t);
    }
    SameLongest(table, a, b, 3);
  }

  /** A first step that does not see `b` is taken off both sides. */
  lemma {:induction false} SplitStep(table: Table, a: seq<byte>, b: seq<byte>, m: Move, rest: seq<byte>)
    requires a != [] && Next(table, a + b) == m == Next(table, a) && rest == a[m.used..]
    ensures Kana(table, a) == m.out + Kana(table, rest)
    ensures Kana(table, a + b) == m.out + Kana(table, rest + b)
  {
    assert (a + b)[m.used..] == rest + b;
  }

  lemma {:induction false} SplitOn(table: Table, a: seq<byte>, b: seq<byte>, m: Move, rest: seq<byte>)
    requires a != [] && Next(table, a + b) == m == Next(table, a) && rest == a[m.used..]
    requires Kana(table, rest + b) == Kana(table, rest) + Kana(table, b)
    ensures Kana(table, a + b) == Kana(table, a) + Kana(table, b)
  {
    SplitStep(table, a, b, m, rest);
    Associate(m.out, Kana(table, rest), Kana(table, b));
  }

  lemma Associate(x: seq<byte>, y: seq<byte>, z: seq<byte>)
    ensures x + (y + z) == x + y + z
  {
  }

  lemma {:induction false} VowelSplits(table: Table, a: seq<byte>, b: seq<byte>)
    requires a != [] ==> EndsInVowel(a)
    ensures Kana(table, a + b) == Kana(table, a) + Kana(table, b)
    decreases |a|
  {
    if a == [] {
      assert a + b == b;
    } else {
      SameNext(table, a, b);
      var m := Next(table, a);
      var rest := a[m.used..];
      VowelSplits(table, rest, b);
      SplitOn(table, a, b, m, rest);
    }
  }

  // ---------- any other final byte can be changed by what follows ----------

  /** What to type next so that the text so far is converted differently. */
  function Disturbing(a: seq<byte>): seq<byte>
    requires a != []
  {
    if Low(a[|a| - 1]) == 'n' then [0x61] else [a[|a| - 1]]
  }

  lemma {:induction false} NotCompleted(table: Table, a: seq<byte>, b: seq<byte>, t: nat)
    requires |a| >= 2 && !EndsInVowel(a) && b == Disturbing(a) && |a| < t <= |a + b| && t <= 3
    ensures First(table, Lower((a + b)[..t])).None?
  {
    var key := Lower((a + b)[..t]);
    assert key[|a| - 1] == Low(a[|a| - 1]) && key[|a|] == Low(b[0]);
    if First(table, key).Some? {
      FirstSound(table, key);
    }
  }

  lemma NotFinished(table: Table, a: seq<byte>)
    requires |a| >= 2 && !EndsInVowel(a)
    ensures Next(table, a).used < |a|
  {
    LongestFound(table, a, 3);
    assert a[..|a|] == a;
    assert Lower(a)[|a| - 1] == Low(a[|a| - 1]);
  }

  lemma SameNextDisturbed(table: Table, a: seq<byte>, b: seq<byte>)
    requires |a| >= 2 && !EndsInVowel(a) && b == Disturbing(a)
    ensures Next(table, a + b) == Next(table, a)
  {
    forall t | |a| < t <= 3 && t <= |a + b|
      ensures First(table, Lower((a + b)[..t])).None?
    {
      NotCompleted(table, a, b, t);
    }
    SameLongest(table, a, b, 3);
  }

  /** One byte on its own. */
  lemma {:induction false} Single(table: Table, c: byte)
    ensures |Kana(table, [c])| == 1 || |Kana(table, [c])| == 3
    ensures !VowelOrN(Low(c)) ==> Kana(table, [c]) == [c]
  {
    LongestFound(table, [c], 3);
    var m := Longest(table, [c], 3);
    assert Lower([c]) == [Low(c)] && [c][..1] == [c];
    if m.Some? {
      var kana :| m.value.out == Encode(kana) && Sound(Pair(Lower([c][..m.value.used]), kana));
      KanaEncoded(kana);
    }
    assert Kana(table, [c]) == Next(table, [c]).out + [];
  }

  lemma {:induction false} DoubledPair(table: Table, c: byte)
    requires !VowelOrN(Low(c))
    ensures |Kana(table, [c, c])| == 4
  {
    Single(table, c);
    assert [c, c][1..] == [c];
  }

  lemma {:induction false} NaPair(table: Table, c: byte)
    requires Low(c) == 'n' && First(table, "na") == Some("な")
    ensures |Kana(table, [c, 0x61])| == 3
  {
    var src := [c, 0x61];
    assert Lower(src[..2]) == "na" && src[2..] == [];
    assert Longest(table, src, 3) == Longest(table, src, 2);
    KanaEncoded("な");
    assert Next(table, src) == Move(2, Encode("な"));
    assert Kana(table, src) == Encode("な") + [];
  }

  lemma {:induction false} Disturbed(table: Table, a: seq<byte>, b: seq<byte>)
    requires a != [] && !EndsInVowel(a) && b == Disturbing(a) && First(table, "na") == Some("な")
    ensures |Kana(table, a + b)| != |Kana(table, a) + Kana(table, b)|
    decreases |a|
  {
    if |a| == 1 {
      Single(table, a[0]);
      Single(table, b[0]);
      assert a == [a[0]] && b == [b[0]] && a + b == [a[0], b[0]];
      if Low(a[0]) == 'n' {
        NaPair(table, a[0]);
      } else {
        DoubledPair(table, a[0]);
      }
    } else {
      NotFinished(table, a);
      SameNextDisturbed(table, a, b);
      var m := Next(table, a);
      var rest := a[m.used..];
      Disturbed(table, rest, b);
      SplitStep(table, a, b, m, rest);
    }
  }

  ghost predicate Splits(table: Table, a: seq<byte>) {
    forall b :: Kana(table, a + b) == Kana(table, a) + Kana(table, b)
  }

  /** A non-empty text is converted for good, whatever is typed next, exactly when it ends in a
      vowel. */
  lemma {:induction false} TypingExactly(table: Table, a: seq<byte>)
    requires a != [] && First(table, "na") == Some("な")
    ensures Splits(table, a) <==> EndsInVowel(a)
  {
    if EndsInVowel(a) {
      forall b
        ensures Kana(table, a + b) == Kana(table, a) + Kana(table, b)
      {
        VowelSplits(table, a, b);
      }
    } else {
      Disturbed(table, a, Disturbing(a));
    }
  }

  lemma TypingInTable(a: seq<byte>)
    requires a != []
    ensures Splits(Syllables(), a) <==> EndsInVowel(a)
  {
    NaInTable();
    TypingExactly(Syllables(), a);
  }
}
