/** The transliteration table: a syllable in Latin letters and its hiragana. */
module RomajiTable {

  import opened CText
  import opened Katakana

  datatype Pair = Pair(romaji: string, kana: string)

  predicate Vowel(c: char) { c == 'a' || c == 'i' || c == 'u' || c == 'e' || c == 'o' }

  predicate Consonant(c: char) { 'a' <= c <= 'z' && !Vowel(c) }

  /** A syllable is one vowel or `n`, or one or two consonants and a vowel, and is not shorter
      than its hiragana. */
  predicate Sound(p: Pair) {
    && 1 <= |p.kana| <= |p.romaji| <= 3
    && (|p.romaji| == 1 ==> Vowel(p.romaji[0]) || p.romaji[0] == 'n')
    && (|p.romaji| == 2 ==> Consonant(p.romaji[0]) && Vowel(p.romaji[1]))
    && (|p.romaji| == 3 ==>
          Consonant(p.romaji[0]) && Consonant(p.romaji[1]) && p.romaji[1] != 'n' && Vowel(p.romaji[2]))
    && |p.kana| <= 2 && Hiragana(p.kana[0]) && (|p.kana| == 2 ==> Hiragana(p.kana[1]))
  }

  ghost predicate AllSound(rows: seq<Pair>) { forall i :: 0 <= i < |rows| ==> Sound(rows[i]) }

  /** A table of the kind the transliterator relies on. */
  type Table = rows: seq<Pair> | AllSound(rows)

  /** The first entry for `key`. */
  function First(rows: seq<Pair>, key: string): (r: Option<string>)
    ensures r.Some? ==> Pair(key, r.value) in rows
  {
    if rows == [] then None
    else if rows[0].romaji == key then Some(rows[0].kana)
    else First(rows[1..], key)
  }

  lemma {:induction false} FirstSound(table: Table, key: string)
    requires First(table, key).Some?
    ensures Sound(Pair(key, First(table, key).value))
  {
  }

  /** `na` is not among the rows. */
  predicate Avoids(rows: seq<Pair>) {
    forall i :: 0 <= i < |rows| ==> |rows[i].romaji| == 3 || (rows[i].romaji != "" && rows[i].romaji[0] != 'n')
  }

  function KyaSha(): (rows: seq<Pair>)
    ensures AllSound(rows) && Avoids(rows)
  {
    [
      Pair("kya", "きゃ"), Pair("kyu", "きゅ"), Pair("kyo", "きょ"),
      Pair("sha", "しゃ"), Pair("shu", "しゅ"), Pair("sho", "しょ")
    ]
  }

  function SyaCha(): (rows: seq<Pair>)
    ensures AllSound(rows) && Avoids(rows)
  {
    [
      Pair("sya", "しゃ"), Pair("syu", "しゅ"), Pair("cha", "ちゃ"),
      Pair("chu", "ちゅ"), Pair("cho", "ちょ")
    ]
  }

  function TyaNya(): (rows: seq<Pair>)
    ensures AllSound(rows) && Avoids(rows)
  {
    [
      Pair("tya", "ちゃ"), Pair("tyu", "ちゅ"), Pair("nya", "にゃ"),
      Pair("nyu", "にゅ"), Pair("nyo", "にょ")
    ]
  }

  function HyaMya(): (rows: seq<Pair>)
    ensures AllSound(rows) && Avoids(rows)
  {
    [
      Pair("hya", "ひゃ"), Pair("hyu", "ひゅ"), Pair("hyo", "ひょ"),
      Pair("mya", "みゃ"), Pair("myu", "みゅ"), Pair("myo", "みょ")
    ]
  }

  function RyaGya(): (rows: seq<Pair>)
    ensures AllSound(rows) && Avoids(rows)
  {
    [
      Pair("rya", "りゃ"), Pair("ryu", "りゅ"), Pair("ryo", "りょ"),
      Pair("gya", "ぎゃ"), Pair("gyu", "ぎゅ"), Pair("gyo", "ぎょ")
    ]
  }

  function JaJya(): (rows: seq<Pair>)
    ensures AllSound(rows) && Avoids(rows)
  {
    [
      Pair("ja", "じゃ"), Pair("ju", "じゅ"), Pair("jo", "じょ"),
      Pair("jya", "じゃ"), Pair("jyu", "じゅ"), Pair("jyo", "じょ")
    ]
  }

  function ZyaBya(): (rows: seq<Pair>)
    ensures AllSound(rows) && Avoids(rows)
  {
    [
      Pair("zya", "じゃ"), Pair("zyu", "じゅ"), Pair("bya", "びゃ"),
      Pair("byu", "びゅ"), Pair("byo", "びょ")
    ]
  }

  function PyaShi(): (rows: seq<Pair>)
    ensures AllSound(rows) && Avoids(rows)
  {
    [
      Pair("pya", "ぴゃ"), Pair("pyu", "ぴゅ"), Pair("pyo", "ぴょ"),
      Pair("shi", "し"), Pair("chi", "ち"), Pair("tsu", "つ")
    ]
  }

  function Ka(): (rows: seq<Pair>)
    ensures AllSound(rows) && Avoids(rows)
  {
    [
      Pair("ka", "か"), Pair("ki", "き"), Pair("ku", "く"),
      Pair("ke", "け"), Pair("ko", "こ")
    ]
  }

  function Sa(): (rows: seq<Pair>)
    ensures AllSound(rows) && Avoids(rows)
  {
    [
      Pair("sa", "さ"), Pair("si", "し"), Pair("su", "す"),
      Pair("se", "せ"), Pair("so", "そ")
    ]
  }

  function Ta(): (rows: seq<Pair>)
    ensures AllSound(rows) && Avoids(rows)
  {
    [
      Pair("ta", "た"), Pair("ti", "ち"), Pair("tu", "つ"),
      Pair("te", "て"), Pair("to", "と")
    ]
  }

  function Na(): (rows: seq<Pair>)
    ensures AllSound(rows)
  {
    [
      Pair("na", "な"), Pair("ni", "に"), Pair("nu", "ぬ"),
      Pair("ne", "ね"), Pair("no", "の")
    ]
  }

  function Ha(): (rows: seq<Pair>)
    ensures AllSound(rows)
  {
    [
      Pair("ha", "は"), Pair("hi", "ひ"), Pair("fu", "ふ"),
      Pair("hu", "ふ"), Pair("he", "へ"), Pair("ho", "ほ")
    ]
  }

  function Ma(): (rows: seq<Pair>)
    ensures AllSound(rows)
  {
    [
      Pair("ma", "ま"), Pair("mi", "み"), Pair("mu", "む"),
      Pair("me", "め"), Pair("mo", "も")
    ]
  }

  function Ya(): (rows: seq<Pair>)
    ensures AllSound(rows)
  {
    [
      Pair("ya", "や"), Pair("yu", "ゆ"), Pair("yo", "よ")
    ]
  }

  function Ra(): (rows: seq<Pair>)
    ensures AllSound(rows)
  {
    [
      Pair("ra", "ら"), Pair("ri", "り"), Pair("ru", "る"),
      Pair("re", "れ"), Pair("ro", "ろ")
    ]
  }

  function Wa(): (rows: seq<Pair>)
    ensures AllSound(rows)
  {
    [
      Pair("wa", "わ"), Pair("wo", "を")
    ]
  }

  function Ga(): (rows: seq<Pair>)
    ensures AllSound(rows)
  {
    [
      Pair("ga", "が"), Pair("gi", "ぎ"), Pair("gu", "ぐ"),
      Pair("ge", "げ"), Pair("go", "ご")
    ]
  }

  function Za(): (rows: seq<Pair>)
    ensures AllSound(rows)
  {
    [
      Pair("za", "ざ"), Pair("zi", "じ"), Pair("ji", "じ"),
      Pair("zu", "ず"), Pair("ze", "ぜ"), Pair("zo", "ぞ")
    ]
  }

  function Da(): (rows: seq<Pair>)
    ensures AllSound(rows)
  {
    [
      Pair("da", "だ"), Pair("di", "ぢ"), Pair("du", "づ"),
      Pair("de", "で"), Pair("do", "ど")
    ]
  }

  function Ba(): (rows: seq<Pair>)
    ensures AllSound(rows)
  {
    [
      Pair("ba", "ば"), Pair("bi", "び"), Pair("bu", "ぶ"),
      Pair("be", "べ"), Pair("bo", "ぼ")
    ]
  }

  function Pa(): (rows: seq<Pair>)
    ensures AllSound(rows)
  {
    [
      Pair("pa", "ぱ"), Pair("pi", "ぴ"), Pair("pu", "ぷ"),
      Pair("pe", "ぺ"), Pair("po", "ぽ")
    ]
  }

  function Vowels(): (rows: seq<Pair>)
    ensures AllSound(rows)
  {
    [
      Pair("a", "あ"), Pair("i", "い"), Pair("u", "う"),
      Pair("e", "え"), Pair("o", "お"), Pair("n", "ん")
    ]
  }

  function Join(a: Table, b: Table): (r: Table)
    ensures Avoids(a) && Avoids(b) ==> Avoids(r)
  {
    a + b
  }

  function Digraphs(): (table: Table)
    ensures Avoids(table)
  {
    Join(KyaSha(), Join(SyaCha(), Join(TyaNya(), Join(HyaMya(), Join(RyaGya(), Join(JaJya(), ZyaBya()))))))
  }

  function PyaToTo(): (table: Table)
    ensures Avoids(table)
  {
    Join(PyaShi(), Join(Ka(), Join(Sa(), Ta())))
  }

  function HaToN(): Table {
    Join(Ha(), Join(Ma(), Join(Ya(), Join(Ra(),
      Join(Wa(), Join(Ga(), Join(Za(), Join(Da(), Join(Ba(), Join(Pa(), Vowels()))))))))))
  }

  function Syllables(): Table {
    Join(Digraphs(), Join(PyaToTo(), Join(Na(), HaToN())))
  }

  lemma {:induction false} FirstJoin(a: Table, b: Table, key: string)
    ensures First(a, key).Some? ==> First(Join(a, b), key) == First(a, key)
    ensures First(a, key).None? ==> First(Join(a, b), key) == First(b, key)
    decreases |a|
  {
    if a == [] {
      assert Join(a, b) == b;
    } else {
      FirstJoin(a[1..], b, key);
      assert Join(a, b)[1..] == Join(a[1..], b);
    }
  }

  lemma {:induction false} FirstAbsent(rows: seq<Pair>)
    requires Avoids(rows)
    ensures First(rows, "na").None?
    decreases |rows|
  {
    if rows != [] {
      FirstAbsent(rows[1..]);
    }
  }

  lemma {:induction false} SkipAbsent(a: Table, b: Table)
    requires Avoids(a)
    ensures First(Join(a, b), "na") == First(b, "na")
  {
    FirstAbsent(a);
    FirstJoin(a, b, "na");
  }

  lemma {:induction false} NaFirst(b: Table)
    ensures First(Join(Na(), b), "na") == Some("な")
  {
    FirstJoin(Na(), b, "na");
  }

  lemma {:induction false} NaInTable()
    ensures First(Syllables(), "na") == Some("な")
  {
    var rest := HaToN();
    NaFirst(rest);
    SkipAbsent(PyaToTo(), Join(Na(), rest));
    SkipAbsent(Digraphs(), Join(PyaToTo(), Join(Na(), rest)));
  }
}
