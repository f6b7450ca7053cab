/** The table of the transliterator against the fifty sounds: the kana of each syllable follow from its
    consonant and its vowel, by where they stand in the hiragana block of Unicode. */
module RomajiGojuon {
  import opened RomajiTable

  /** Where the vowel stands in a row. */
  function VowelPlace(v: char): int {
    match v case 'a' => 0 case 'i' => 1 case 'u' => 2 case 'e' => 3 case _ => 4
  }

  /** The code of the first hiragana of the row of a consonant, and how far apart the others are: the voiced
      and the small ones stand in between. */
  function RowStart(c: char): int {
    match c
    case 'k' => 0x304B case 'g' => 0x304C case 's' => 0x3055 case 'z' => 0x3056 case 't' => 0x305F
    case 'd' => 0x3060 case 'n' => 0x306A case 'h' => 0x306F case 'b' => 0x3070 case 'p' => 0x3071
    case 'm' => 0x307E case 'r' => 0x3089 case _ => 0
  }

  function RowStep(c: char): int {
    match c
    case 'h' => 3 case 'b' => 3 case 'p' => 3
    case 'n' => 1 case 'm' => 1 case 'r' => 1 case _ => 2
  }

  /** A consonant and a vowel. A small tsu stands in front of the third of the t row. */
  function Letter(c: char, place: int): int {
    RowStart(c) + RowStep(c) * place + if (c == 't' || c == 'd') && place >= 2 then 1 else 0
  }

  /** The codes of the hiragana that a syllable is read as, in either of the two usual spellings. */
  function Gojuon(r: string): seq<int>
    requires 1 <= |r| <= 3
  {
    var place := VowelPlace(r[|r| - 1]);
    if r == "n" then [0x3093]
    else if |r| == 1 then [0x3042 + 2 * place]
    else if |r| == 2 then
      match r[0]
      case 'y' => [0x3084 + place]
      case 'w' => [0x308F + if place == 0 then 0 else place - 1]
      case 'f' => [Letter('h', place)]
      case 'j' => if place == 1 then [Letter('z', 1)] else [Letter('z', 1), 0x3083 + place]
      case _ => [Letter(r[0], place)]
    else
      match r[0]
      case 'j' => [Letter('z', 1), 0x3083 + place]
      case 's' => if place == 1 then [Letter('s', 1)] else [Letter('s', 1), 0x3083 + place]
      case 'c' => if place == 1 then [Letter('t', 1)] else [Letter('t', 1), 0x3083 + place]
      case 't' => if r[1] == 's' then [Letter('t', place)] else [Letter('t', 1), 0x3083 + place]
      case _ => [Letter(r[0], 1), 0x3083 + place]
  }

  predicate ReadAs(kana: string, codes: seq<int>) {
    |kana| == |codes| && forall i :: 0 <= i < |kana| ==> kana[i] as int == codes[i]
  }

  predicate Read(p: Pair) { 1 <= |p.romaji| <= 3 && ReadAs(p.kana, Gojuon(p.romaji)) }

  ghost predicate AllRead(rows: seq<Pair>) { forall i :: 0 <= i < |rows| ==> Read(rows[i]) }

  lemma KyaShaRead()
    ensures AllRead(KyaSha())
  {
    assert Read(Pair("kya", "きゃ"));
    assert Read(Pair("kyu", "きゅ"));
    assert Read(Pair("kyo", "きょ"));
    assert Read(Pair("sha", "しゃ"));
    assert Read(Pair("shu", "しゅ"));
    assert Read(Pair("sho", "しょ"));
  }

  lemma SyaChaRead()
    ensures AllRead(SyaCha())
  {
    assert Read(Pair("sya", "しゃ"));
    assert Read(Pair("syu", "しゅ"));
    assert Read(Pair("cha", "ちゃ"));
    assert Read(Pair("chu", "ちゅ"));
    assert Read(Pair("cho", "ちょ"));
  }

  lemma TyaNyaRead()
    ensures AllRead(TyaNya())
  {
    assert Read(Pair("tya", "ちゃ"));
    assert Read(Pair("tyu", "ちゅ"));
    assert Read(Pair("nya", "にゃ"));
    assert Read(Pair("nyu", "にゅ"));
    assert Read(Pair("nyo", "にょ"));
  }

  lemma HyaMyaRead()
    ensures AllRead(HyaMya())
  {
    assert Read(Pair("hya", "ひゃ"));
    assert Read(Pair("hyu", "ひゅ"));
    assert Read(Pair("hyo", "ひょ"));
    assert Read(Pair("mya", "みゃ"));
    assert Read(Pair("myu", "みゅ"));
    assert Read(Pair("myo", "みょ"));
  }

  lemma RyaGyaRead()
    ensures AllRead(RyaGya())
  {
    assert Read(Pair("rya", "りゃ"));
    assert Read(Pair("ryu", "りゅ"));
    assert Read(Pair("ryo", "りょ"));
    assert Read(Pair("gya", "ぎゃ"));
    assert Read(Pair("gyu", "ぎゅ"));
    assert Read(Pair("gyo", "ぎょ"));
  }

  lemma JaJyaRead()
    ensures AllRead(JaJya())
  {
    assert Read(Pair("ja", "じゃ"));
    assert Read(Pair("ju", "じゅ"));
    assert Read(Pair("jo", "じょ"));
    assert Read(Pair("jya", "じゃ"));
    assert Read(Pair("jyu", "じゅ"));
    assert Read(Pair("jyo", "じょ"));
  }

  lemma ZyaByaRead()
    ensures AllRead(ZyaBya())
  {
    assert Read(Pair("zya", "じゃ"));
    assert Read(Pair("zyu", "じゅ"));
    assert Read(Pair("bya", "びゃ"));
    assert Read(Pair("byu", "びゅ"));
    assert Read(Pair("byo", "びょ"));
  }

  lemma PyaShiRead()
    ensures AllRead(PyaShi())
  {
    assert Read(Pair("pya", "ぴゃ"));
    assert Read(Pair("pyu", "ぴゅ"));
    assert Read(Pair("pyo", "ぴょ"));
    assert Read(Pair("shi", "し"));
    assert Read(Pair("chi", "ち"));
    assert Read(Pair("tsu", "つ"));
  }

  lemma KaRead()
    ensures AllRead(Ka())
  {
    assert Read(Pair("ka", "か"));
    assert Read(Pair("ki", "き"));
    assert Read(Pair("ku", "く"));
    assert Read(Pair("ke", "け"));
    assert Read(Pair("ko", "こ"));
  }

  lemma SaRead()
    ensures AllRead(Sa())
  {
    assert Read(Pair("sa", "さ"));
    assert Read(Pair("si", "し"));
    assert Read(Pair("su", "す"));
    assert Read(Pair("se", "せ"));
    assert Read(Pair("so", "そ"));
  }

  lemma TaRead()
    ensures AllRead(Ta())
  {
    assert Read(Pair("ta", "た"));
    assert Read(Pair("ti", "ち"));
    assert Read(Pair("tu", "つ"));
    assert Read(Pair("te", "て"));
    assert Read(Pair("to", "と"));
  }

  lemma NaRead()
    ensures AllRead(Na())
  {
    assert Read(Pair("na", "な"));
    assert Read(Pair("ni", "に"));
    assert Read(Pair("nu", "ぬ"));
    assert Read(Pair("ne", "ね"));
    assert Read(Pair("no", "の"));
  }

  lemma HaRead()
    ensures AllRead(Ha())
  {
    assert Read(Pair("ha", "は"));
    assert Read(Pair("hi", "ひ"));
    assert Read(Pair("fu", "ふ"));
    assert Read(Pair("hu", "ふ"));
    assert Read(Pair("he", "へ"));
    assert Read(Pair("ho", "ほ"));
  }

  lemma MaRead()
    ensures AllRead(Ma())
  {
    assert Read(Pair("ma", "ま"));
    assert Read(Pair("mi", "み"));
    assert Read(Pair("mu", "む"));
    assert Read(Pair("me", "め"));
    assert Read(Pair("mo", "も"));
  }

  lemma YaRead()
    ensures AllRead(Ya())
  {
    assert Read(Pair("ya", "や"));
    assert Read(Pair("yu", "ゆ"));
    assert Read(Pair("yo", "よ"));
  }

  lemma RaRead()
    ensures AllRead(Ra())
  {
    assert Read(Pair("ra", "ら"));
    assert Read(Pair("ri", "り"));
    assert Read(Pair("ru", "る"));
    assert Read(Pair("re", "れ"));
    assert Read(Pair("ro", "ろ"));
  }

  lemma WaRead()
    ensures AllRead(Wa())
  {
    assert Read(Pair("wa", "わ"));
    assert Read(Pair("wo", "を"));
  }

  lemma GaRead()
    ensures AllRead(Ga())
  {
    assert Read(Pair("ga", "が"));
    assert Read(Pair("gi", "ぎ"));
    assert Read(Pair("gu", "ぐ"));
    assert Read(Pair("ge", "げ"));
    assert Read(Pair("go", "ご"));
  }

  lemma ZaRead()
    ensures AllRead(Za())
  {
    assert Read(Pair("za", "ざ"));
    assert Read(Pair("zi", "じ"));
    assert Read(Pair("ji", "じ"));
    assert Read(Pair("zu", "ず"));
    assert Read(Pair("ze", "ぜ"));
    assert Read(Pair("zo", "ぞ"));
  }

  lemma DaRead()
    ensures AllRead(Da())
  {
    assert Read(Pair("da", "だ"));
    assert Read(Pair("di", "ぢ"));
    assert Read(Pair("du", "づ"));
    assert Read(Pair("de", "で"));
    assert Read(Pair("do", "ど"));
  }

  lemma BaRead()
    ensures AllRead(Ba())
  {
    assert Read(Pair("ba", "ば"));
    assert Read(Pair("bi", "び"));
    assert Read(Pair("bu", "ぶ"));
    assert Read(Pair("be", "べ"));
    assert Read(Pair("bo", "ぼ"));
  }

  lemma PaRead()
    ensures AllRead(Pa())
  {
    assert Read(Pair("pa", "ぱ"));
    assert Read(Pair("pi", "ぴ"));
    assert Read(Pair("pu", "ぷ"));
    assert Read(Pair("pe", "ぺ"));
    assert Read(Pair("po", "ぽ"));
  }

  lemma VowelsRead()
    ensures AllRead(Vowels())
  {
    assert Read(Pair("a", "あ"));
    assert Read(Pair("i", "い"));
    assert Read(Pair("u", "う"));
    assert Read(Pair("e", "え"));
    assert Read(Pair("o", "お"));
    assert Read(Pair("n", "ん"));
  }

  lemma Joined(a: Table, b: Table) returns (rows: Table)
    requires AllRead(a) && AllRead(b)
    ensures rows == RomajiTable.Join(a, b) && AllRead(rows)
  {
    rows := RomajiTable.Join(a, b);
  }

  lemma DigraphsRead()
    ensures AllRead(Digraphs())
  {
    KyaShaRead();
    SyaChaRead();
    TyaNyaRead();
    HyaMyaRead();
    RyaGyaRead();
    JaJyaRead();
    ZyaByaRead();
    var rows := ZyaBya();
    rows := Joined(JaJya(), rows);
    rows := Joined(RyaGya(), rows);
    rows := Joined(HyaMya(), rows);
    rows := Joined(TyaNya(), rows);
    rows := Joined(SyaCha(), rows);
    rows := Joined(KyaSha(), rows);
  }

  lemma PyaToToRead()
    ensures AllRead(PyaToTo())
  {
    PyaShiRead();
    KaRead();
    SaRead();
    TaRead();
    var rows := Ta();
    rows := Joined(Sa(), rows);
    rows := Joined(Ka(), rows);
    rows := Joined(PyaShi(), rows);
  }

  lemma HaToNRead()
    ensures AllRead(HaToN())
  {
    HaRead();
    MaRead();
    YaRead();
    RaRead();
    WaRead();
    GaRead();
    ZaRead();
    DaRead();
    BaRead();
    PaRead();
    VowelsRead();
    var rows := Vowels();
    rows := Joined(Pa(), rows);
    rows := Joined(Ba(), rows);
    rows := Joined(Da(), rows);
    rows := Joined(Za(), rows);
    rows := Joined(Ga(), rows);
    rows := Joined(Wa(), rows);
    rows := Joined(Ra(), rows);
    rows := Joined(Ya(), rows);
    rows := Joined(Ma(), rows);
    rows := Joined(Ha(), rows);
  }

  /** Every syllable of the table is read as its place among the fifty sounds says. */
  lemma TableIsGojuon()
    ensures AllRead(Syllables())
  {
    DigraphsRead();
    PyaToToRead();
    NaRead();
    HaToNRead();
    var rows := Joined(Na(), HaToN());
    rows := Joined(PyaToTo(), rows);
    rows := Joined(Digraphs(), rows);
  }
}
