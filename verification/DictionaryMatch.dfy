/** Looking a word up: the readings of a word are stored as one text, joined by `;`, and a
    query is matched against that text with SQL's LIKE. */
module DictionaryMatch {

  import opened Katakana
  import opened DictionaryText

  /** LIKE folds the case of ASCII letters only. */
  function Fold(c: char): char { if 'A' <= c <= 'Z' then (c as int + 0x20) as char else c }

  predicate Same(a: string, b: string) {
    |a| == |b| && forall i :: 0 <= i < |a| ==> Fold(a[i]) == Fold(b[i])
  }

  /** LIKE: `%` stands for any text, `_` for any character. */
  predicate Like(pattern: string, text: string)
    decreases |pattern|
  {
    if pattern == [] then text == []
    else if pattern[0] == '%' then exists k :: 0 <= k <= |text| && Like(pattern[1..], text[k..])
    else text != [] && (pattern[0] == '_' || Fold(pattern[0]) == Fold(text[0])) && Like(pattern[1..], text[1..])
  }

  function Join(readings: seq<string>): string {
    if readings == [] then []
    else if |readings| == 1 then readings[0]
    else readings[0] + ";" + Join(readings[1..])
  }

  predicate Matches(readings: string, query: string) { Like("%;" + query + ";%", ";" + readings + ";") }

  /** The condition of the query that dict_search makes. */
  predicate Selected(readings: string, query: string) {
    Matches(readings, query) || Matches(readings, Shift(query))
  }

  // ---------- LIKE between two wildcards, for any pattern ----------

  lemma {:induction false} LikeStart(x: string, text: string)
    ensures Like(x + "%", text) <==> exists j :: 0 <= j <= |text| && Like(x, text[..j])
    decreases |x|
  {
    if x == [] {
      assert x + "%" == "%";
      LikeAnything(text);
      assert Like(x, text[..0]);
    } else if x[0] == '%' {
      LikeStartAny(x, text);
    } else {
      LikeStartOne(x, text);
    }
  }

  lemma {:induction false} LikeStartOne(x: string, text: string)
    requires x != [] && x[0] != '%'
    ensures Like(x + "%", text) <==> exists j :: 0 <= j <= |text| && Like(x, text[..j])
    decreases |x|, 0
  {
    assert (x + "%")[1..] == x[1..] + "%" && (x + "%")[0] == x[0];
    if text != [] {
      LikeStart(x[1..], text[1..]);
      if Like(x + "%", text) {
        var j :| 0 <= j <= |text[1..]| && Like(x[1..], text[1..][..j]);
        assert text[..j + 1][1..] == text[1..][..j] && text[..j + 1][0] == text[0];
        assert Like(x, text[..j + 1]);
      }
      if j :| 0 <= j <= |text| && Like(x, text[..j]) {
        assert text[..j][1..] == text[1..][..j - 1] && text[..j][0] == text[0];
        assert Like(x[1..], text[1..][..j - 1]);
      }
    }
  }

  lemma {:induction false} LikeStartAny(x: string, text: string)
    requires x != [] && x[0] == '%'
    ensures Like(x + "%", text) <==> exists j :: 0 <= j <= |text| && Like(x, text[..j])
    decreases |x|, 0
  {
    var y := x + "%";
    assert y[1..] == x[1..] + "%" && y[0] == '%';
    if k :| 0 <= k <= |text| && Like(y[1..], text[k..]) {
      LikeStart(x[1..], text[k..]);
      var j :| 0 <= j <= |text[k..]| && Like(x[1..], text[k..][..j]);
      assert text[..k + j][k..] == text[k..][..j];
      assert Like(x[1..], text[..k + j][k..]);
      assert Like(x, text[..k + j]);
    }
    if j :| 0 <= j <= |text| && Like(x, text[..j]) {
      var k :| 0 <= k <= |text[..j]| && Like(x[1..], text[..j][k..]);
      assert text[..j][k..] == text[k..][..j - k];
      LikeStart(x[1..], text[k..]);
      assert Like(y[1..], text[k..]);
    }
  }

  /** `x` matches a stretch of `text`. */
  ghost predicate MatchesIn(x: string, text: string) {
    exists i, j :: 0 <= i <= j <= |text| && Like(x, text[i..j])
  }

  lemma {:induction false} LikeAnywhere(x: string, text: string)
    ensures Like("%" + x + "%", text) <==> MatchesIn(x, text)
  {
    var pattern := "%" + x + "%";
    assert pattern[1..] == x + "%" && pattern[0] == '%';
    if k :| 0 <= k <= |text| && Like(pattern[1..], text[k..]) {
      LikeStart(x, text[k..]);
      var j :| 0 <= j <= |text[k..]| && Like(x, text[k..][..j]);
      assert text[k..][..j] == text[k..k + j];
      assert Like(x, text[k..k + j]);
    }
    if i, j :| 0 <= i <= j <= |text| && Like(x, text[i..j]) {
      LikeStart(x, text[i..]);
      assert text[i..][..j - i] == text[i..j];
      assert Like(pattern[1..], text[i..]);
    }
  }

  /** Any query at all, wildcards and delimiters included: the word matches exactly when the query
      between two delimiters matches a stretch of its delimited readings. */
  lemma MatchesExactly(joined: string, query: string)
    ensures Matches(joined, query) <==> MatchesIn(";" + query + ";", ";" + joined + ";")
  {
    assert "%;" + query + ";%" == "%" + (";" + query + ";") + "%";
    LikeAnywhere(";" + query + ";", ";" + joined + ";");
  }

  /** So a query of one `%` matches every word. */
  lemma PercentMatchesAll(joined: string)
    ensures Matches(joined, "%")
  {
    var text := ";" + joined + ";";
    MatchesExactly(joined, "%");
    var x := ";" + "%" + ";";
    assert x[1..] == "%;" && "%;"[1..] == ";" && ";"[1..] == "";
    assert text[0..|text|] == text && text[1..][|joined|..] == ";";
    assert Like(";", text[1..][|joined|..]);
    assert Like("%;", text[1..]);
    assert Like(x, text[0..|text|]);
  }

  // ---------- LIKE with a text between two wildcards ----------

  predicate Plain(s: string) { forall i :: 0 <= i < |s| ==> s[i] != '%' && s[i] != '_' }

  lemma {:induction false} LikeAnything(text: string)
    ensures Like("%", text)
  {
    assert "%"[1..] == [] && text[|text|..] == [];
    assert Like("%"[1..], text[|text|..]);
  }

  lemma {:induction false} LikeFront(x: string, text: string)
    requires Plain(x)
    ensures Like(x + "%", text) <==> |x| <= |text| && Same(x, text[..|x|])
    decreases |x|
  {
    if x == [] {
      assert x + "%" == "%";
      LikeAnything(text);
    } else {
      assert (x + "%")[1..] == x[1..] + "%";
      if text != [] {
        LikeFront(x[1..], text[1..]);
        SameFront(x, text);
      }
    }
  }

  lemma SameFront(x: string, text: string)
    requires x != [] && text != []
    ensures (|x| <= |text| && Same(x, text[..|x|]))
       <==> (Fold(x[0]) == Fold(text[0]) && |x[1..]| <= |text[1..]| && Same(x[1..], text[1..][..|x| - 1]))
  {
    if |x| <= |text| {
      assert forall i :: 1 <= i < |x| ==> x[i] == x[1..][i - 1] && text[..|x|][i] == text[1..][..|x| - 1][i - 1];
    }
  }

  /** `x` stands in `text` at `k`, up to case. */
  predicate At(x: string, text: string, k: int) { 0 <= k <= |text| - |x| && Same(x, text[k..k + |x|]) }

  lemma {:induction false} LikeMiddle(x: string, text: string)
    requires Plain(x)
    ensures Like("%" + x + "%", text) <==> Occurs(x, text)
  {
    var pattern := "%" + x + "%";
    assert pattern[1..] == x + "%";
    forall k | 0 <= k <= |text|
      ensures Like(pattern[1..], text[k..]) <==> At(x, text, k)
    {
      LikeFront(x, text[k..]);
      if |x| <= |text| - k {
        assert text[k..][..|x|] == text[k..k + |x|];
      }
    }
    if k :| At(x, text, k) {
      assert Like(pattern[1..], text[k..]);
    }
  }

  // ---------- a delimited reading ----------

  predicate Undelimited(s: string) { forall i :: 0 <= i < |s| ==> s[i] != ';' }

  /** Every reading with the `;` before it, and one at the end. */
  function Delimited(readings: seq<string>): (t: string)
    ensures t != [] && t[0] == ';'
  {
    if readings == [] then ";" else ";" + readings[0] + Delimited(readings[1..])
  }

  lemma {:induction false} JoinDelimited(readings: seq<string>)
    requires readings != []
    ensures ";" + Join(readings) + ";" == Delimited(readings)
  {
    if |readings| > 1 {
      JoinDelimited(readings[1..]);
    }
  }

  lemma Standing(q: string, text: string, k: int, j: int)
    requires At(";" + q + ";", text, k) && Undelimited(q) && 0 <= j <= |q| + 1
    ensures k + j < |text| && (text[k + j] == ';' <==> j == 0 || j == |q| + 1)
    ensures 1 <= j <= |q| ==> Fold(text[k + j]) == Fold(q[j - 1])
  {
    var x := ";" + q + ";";
    assert Fold(x[j]) == Fold(text[k..k + |x|][j]);
  }

  lemma MakeAt(q: string, text: string, k: nat)
    requires k + |q| + 1 < |text| && text[k] == ';' && text[k + |q| + 1] == ';' && Same(q, text[k + 1..k + |q| + 1])
    ensures At(";" + q + ";", text, k)
  {
    var x, y := ";" + q + ";", text[k..k + |q| + 2];
    forall i | 0 <= i < |x|
      ensures Fold(x[i]) == Fold(y[i])
    {
      if 1 <= i <= |q| {
        assert q[i - 1] == x[i] && text[k + 1..k + |q| + 1][i - 1] == y[i];
      }
    }
  }

  /** At the front of the text, only the first reading can stand. */
  lemma FrontReading(q: string, r: string, rest: string)
    requires Undelimited(q) && Undelimited(r) && rest != [] && rest[0] == ';'
    ensures At(";" + q + ";", ";" + r + rest, 0) <==> Same(q, r)
  {
    var text := ";" + r + rest;
    if At(";" + q + ";", text, 0) {
      Standing(q, text, 0, |q| + 1);
      if |r| <= |q| {
        Standing(q, text, 0, |r| + 1);
      }
      assert |q| == |r|;
      forall i | 0 <= i < |q|
        ensures Fold(q[i]) == Fold(r[i])
      {
        Standing(q, text, 0, i + 1);
      }
    }
    if Same(q, r) {
      assert text[1..|q| + 1] == r;
      MakeAt(q, text, 0);
    }
  }

  /** Further on, it stands in what follows the first reading. */
  lemma LaterReading(q: string, r: string, rest: string, k: int)
    requires Undelimited(q) && Undelimited(r) && k > 0
    ensures At(";" + q + ";", ";" + r + rest, k) <==> At(";" + q + ";", rest, k - 1 - |r|)
  {
    var x, text := ";" + q + ";", ";" + r + rest;
    if At(x, text, k) {
      Standing(q, text, k, 0);
      assert k - 1 >= |r|;
    }
    if k - 1 >= |r| && k <= |text| - |x| {
      SliceAfter(";" + r, rest, k, |x|);
    }
  }

  lemma SliceAfter(pre: string, rest: string, k: int, n: nat)
    requires |pre| <= k && k + n <= |pre + rest|
    ensures (pre + rest)[k..k + n] == rest[k - |pre|..k - |pre| + n]
  {
    assert forall i :: k <= i < k + n ==> (pre + rest)[i] == rest[i - |pre|];
  }

  ghost predicate Occurs(x: string, text: string) { exists k :: At(x, text, k) }

  ghost predicate Among(q: string, readings: seq<string>) {
    exists i :: 0 <= i < |readings| && Same(q, readings[i])
  }

  lemma {:induction false} OccursFirstOrLater(q: string, r: string, rest: string)
    requires Undelimited(q) && Undelimited(r) && rest != [] && rest[0] == ';'
    ensures Occurs(";" + q + ";", ";" + r + rest) <==> Same(q, r) || Occurs(";" + q + ";", rest)
  {
    var x, text := ";" + q + ";", ";" + r + rest;
    FrontReading(q, r, rest);
    if Occurs(x, text) {
      var k :| At(x, text, k);
      if k > 0 {
        LaterReading(q, r, rest, k);
        assert At(x, rest, k - 1 - |r|);
      }
    }
    if Occurs(x, rest) {
      var k :| At(x, rest, k);
      var j := k + 1 + |r|;
      LaterReading(q, r, rest, j);
      assert At(x, text, j);
    }
  }

  lemma AmongFirstOrLater(q: string, readings: seq<string>)
    requires readings != []
    ensures Among(q, readings) <==> Same(q, readings[0]) || Among(q, readings[1..])
  {
    assert forall i :: 1 <= i < |readings| ==> readings[i] == readings[1..][i - 1];
    assert forall i :: 0 <= i < |readings[1..]| ==> readings[1..][i] == readings[i + 1];
  }

  lemma {:induction false} ReadingStands(readings: seq<string>, q: string)
    requires Undelimited(q) && forall i :: 0 <= i < |readings| ==> Undelimited(readings[i])
    ensures Occurs(";" + q + ";", Delimited(readings)) <==> Among(q, readings)
  {
    if readings != [] {
      ReadingStands(readings[1..], q);
      OccursFirstOrLater(q, readings[0], Delimited(readings[1..]));
      AmongFirstOrLater(q, readings);
    }
  }

  // ---------- the search ----------

  lemma MatchesOccurs(joined: string, q: string)
    requires Plain(q)
    ensures Matches(joined, q) <==> Occurs(";" + q + ";", ";" + joined + ";")
  {
    var x := ";" + q + ";";
    assert "%;" + q + ";%" == "%" + x + "%";
    LikeMiddle(x, ";" + joined + ";");
  }

  /** A query without wildcards or `;` matches a word exactly when it is one of its readings,
      up to the case of ASCII letters. */
  lemma {:induction false} MatchesReading(readings: seq<string>, q: string)
    requires readings != [] && forall i :: 0 <= i < |readings| ==> Undelimited(readings[i])
    requires Undelimited(q) && Plain(q)
    ensures Matches(Join(readings), q) <==> Among(q, readings)
  {
    JoinDelimited(readings);
    MatchesOccurs(Join(readings), q);
    ReadingStands(readings, q);
  }

  /** The search finds the word exactly when the query, or the query in katakana, is a reading. */
  lemma {:induction false} SelectedExactly(readings: seq<string>, q: string)
    requires readings != [] && forall i :: 0 <= i < |readings| ==> Undelimited(readings[i])
    requires Undelimited(q) && Plain(q)
    ensures Selected(Join(readings), q) <==> Among(q, readings) || Among(Shift(q), readings)
  {
    MatchesReading(readings, q);
    MatchesReading(readings, Shift(q));
  }

  // ---------- for which queries the search is membership ----------

  /** Readings as they can be stored. */
  predicate Listed(readings: seq<string>) {
    readings != [] && forall i :: 0 <= i < |readings| ==> Undelimited(readings[i])
  }

  /** The search for `q` is what one expects, on the word with these readings. */
  ghost predicate SearchIsMembership(readings: seq<string>, q: string) {
    Selected(Join(readings), q) <==> Among(q, readings) || Among(Shift(q), readings)
  }

  // The readings that a query with wildcards or `;` finds without being one of them: nothing for
  // each `%`, a letter for each `_`, and cut at each `;`.

  function FillOne(c: char): string { if c == '%' then "" else if c == '_' then "x" else [c] }

  function Fill(q: string): string {
    if q == "" then "" else FillOne(q[0]) + Fill(q[1..])
  }

  function Cut(s: string): (readings: seq<string>)
    ensures readings != []
  {
    if s == "" then [""]
    else if s[0] == ';' then [""] + Cut(s[1..])
    else [[s[0]] + Cut(s[1..])[0]] + Cut(s[1..])[1..]
  }

  lemma {:induction false} FillMatches(q: string)
    ensures Like(q, Fill(q))
    decreases |q|
  {
    if q != "" {
      var text := Fill(q);
      FillMatches(q[1..]);
      if q[0] == '%' {
        assert text[0..] == Fill(q[1..]);
      } else {
        assert text[1..] == Fill(q[1..]);
      }
    }
  }

  lemma {:induction false} FillConcat(a: string, b: string)
    ensures Fill(a + b) == Fill(a) + Fill(b)
    decreases |a|
  {
    if a == "" {
      assert a + b == b;
    } else {
      FillConcat(a[1..], b);
      assert (a + b)[1..] == a[1..] + b;
      Associate(FillOne(a[0]), Fill(a[1..]), Fill(b));
    }
  }

  lemma Associate(x: string, y: string, z: string)
    ensures x + (y + z) == x + y + z
  {
  }

  /** A query finds the word whose readings it is filled to. */
  lemma {:induction false} FillFound(q: string)
    ensures Matches(Fill(q), q)
  {
    var x, text := ";" + q + ";", ";" + Fill(q) + ";";
    FillMatches(x);
    FillDelimited(q);
    assert text[0..|text|] == text;
    assert Like(x, text[0..|text|]);
    MatchesExactly(Fill(q), q);
  }

  lemma {:induction false} FillDelimited(q: string)
    ensures Fill(";" + q + ";") == ";" + Fill(q) + ";"
  {
    FillConcat(";" + q, ";");
    FillConcat(";", q);
    assert ";"[1..] == "";
  }

  lemma {:induction false} CutJoined(s: string)
    ensures Listed(Cut(s)) && Join(Cut(s)) == s
    decreases |s|
  {
    if s != "" {
      var rest := Cut(s[1..]);
      CutJoined(s[1..]);
      assert [s[0]] + s[1..] == s;
      if s[0] == ';' {
        JoinEmpty(rest);
      } else {
        JoinFront(s[0], rest);
      }
    }
  }

  lemma {:induction false} JoinEmpty(readings: seq<string>)
    requires Listed(readings)
    ensures Listed([""] + readings) && Join([""] + readings) == [';'] + Join(readings)
  {
    var longer := [""] + readings;
    assert longer[1..] == readings;
    assert forall i :: 1 <= i < |longer| ==> longer[i] == readings[i - 1];
  }

  lemma {:induction false} JoinFront(c: char, readings: seq<string>)
    requires Listed(readings) && c != ';'
    ensures var longer := [[c] + readings[0]] + readings[1..];
      Listed(longer) && Join(longer) == [c] + Join(readings)
  {
    var longer, rest := [[c] + readings[0]] + readings[1..], readings[1..];
    assert longer[1..] == rest;
    assert forall i :: 1 <= i < |longer| ==> longer[i] == readings[i];
    if rest != [] {
      Associate([c], readings[0], ";");
      Associate([c], readings[0] + ";", Join(rest));
    }
  }

  /** Cutting at a `;` leaves nothing as long as the whole. */
  lemma {:induction false} CutShorter(s: string, i: nat)
    requires i < |Cut(s)|
    ensures |Cut(s)[i]| <= |s| && (!Undelimited(s) ==> |Cut(s)[i]| < |s|)
    ensures Undelimited(s) ==> Cut(s) == [s]
    decreases |s|
  {
    if s != "" {
      var rest := Cut(s[1..]);
      assert [s[0]] + s[1..] == s;
      UndelimitedConcat([s[0]], s[1..]);
      assert Undelimited([s[0]]) <==> s[0] != ';' by {
        assert [s[0]][0] == s[0];
      }
      CutShorter(s[1..], if i == 0 then 0 else if s[0] == ';' then i - 1 else i);
    }
  }

  lemma {:induction false} FillDelimiters(q: string)
    ensures Undelimited(Fill(q)) <==> Undelimited(q)
    decreases |q|
  {
    if q != "" {
      FillDelimiters(q[1..]);
      UndelimitedConcat(FillOne(q[0]), Fill(q[1..]));
      UndelimitedConcat([q[0]], q[1..]);
      assert [q[0]] + q[1..] == q;
      assert Undelimited(FillOne(q[0])) <==> Undelimited([q[0]]) by {
        assert q[0] == ';' ==> FillOne(q[0])[0] == ';' && [q[0]][0] == ';';
      }
    }
  }

  lemma UndelimitedConcat(a: string, b: string)
    ensures Undelimited(a + b) <==> Undelimited(a) && Undelimited(b)
  {
    assert forall j :: 0 <= j < |a| ==> (a + b)[j] == a[j];
    assert forall j :: 0 <= j < |b| ==> (a + b)[|a| + j] == b[j];
  }

  lemma {:induction false} FillLength(q: string)
    ensures |Fill(q)| <= |q| && ('%' in q ==> |Fill(q)| < |q|)
    decreases |q|
  {
    if q != "" {
      FillLength(q[1..]);
    }
  }

  lemma {:induction false} FillLetters(q: string, i: nat)
    requires '%' !in q && i < |q|
    ensures |Fill(q)| == |q| && (q[i] == '_' ==> Fill(q)[i] == 'x')
    decreases |q|
  {
    var rest := q[1..];
    assert forall j :: 0 <= j < |rest| ==> rest[j] == q[j + 1];
    if rest != "" {
      FillLetters(rest, if i == 0 then 0 else i - 1);
    }
  }

  /** A query with a wildcard or a `;`, or such a query in katakana, is not among them. */
  lemma {:induction false} FillNotAmong(q: string, p: string)
    requires !(Plain(q) && Undelimited(q)) && |p| == |q|
    requires forall i :: 0 <= i < |q| && q[i] == '_' ==> p[i] == '_'
    ensures !Among(p, Cut(Fill(q)))
  {
    FillDelimiters(q);
    FillLength(q);
    forall i | 0 <= i < |Cut(Fill(q))|
      ensures !Same(p, Cut(Fill(q))[i])
    {
      var r := Cut(Fill(q))[i];
      CutShorter(Fill(q), i);
      if '%' in q || !Undelimited(q) {
        assert |r| < |p|;
      } else {
        assert r == Fill(q);
        LetterDiffers(q, p);
      }
    }
  }

  lemma {:induction false} LetterDiffers(q: string, p: string)
    requires '%' !in q && !Plain(q) && |p| == |q|
    requires forall i :: 0 <= i < |q| && q[i] == '_' ==> p[i] == '_'
    ensures !Same(p, Fill(q))
  {
    var j :| 0 <= j < |q| && q[j] == '_';
    FillLetters(q, j);
    assert Fold(p[j]) != Fold(Fill(q)[j]);
  }

  /** Some word is found that one does not expect. */
  lemma {:induction false} Unexpected(q: string)
    requires !(Plain(q) && Undelimited(q))
    ensures Listed(Cut(Fill(q))) && !SearchIsMembership(Cut(Fill(q)), q)
  {
    CutJoined(Fill(q));
    FillFound(q);
    FillNotAmong(q, q);
    FillNotAmong(q, Shift(q));
    assert Matches(Join(Cut(Fill(q))), q);
  }

  /** For instance, readings that stand side by side are found by their text as one query. */
  lemma {:induction false} NeighboursFound(pre: seq<string>, some: seq<string>, post: seq<string>)
    requires Listed(pre + some + post) && |some| >= 2 && Plain(Join(some))
    ensures Matches(Join(pre + some + post), Join(some)) && !Among(Join(some), pre + some + post)
  {
    var readings, q := pre + some + post, Join(some);
    var lead := DelimitedFront(pre, some + post);
    assert pre + (some + post) == readings;
    DelimitedJoin(some, post);
    JoinDelimited(readings);
    MatchesOccurs(Join(readings), q);
    StandsBetween(lead, q, Delimited(post));
    assert q[|some[0]|] == ';';
    forall i | 0 <= i < |readings|
      ensures !Same(q, readings[i])
    {
      DelimitedDiffers(q, readings[i], |some[0]|);
    }
  }

  lemma DelimitedDiffers(q: string, r: string, i: nat)
    requires i < |q| && q[i] == ';' && Undelimited(r)
    ensures !Same(q, r)
  {
    assert |q| == |r| ==> Fold(r[i]) != Fold(q[i]);
  }

  lemma StandsBetween(lead: string, q: string, rest: string)
    requires rest != "" && rest[0] == ';'
    ensures Occurs(";" + q + ";", lead + (";" + q + rest))
  {
    var x, text := ";" + q + ";", lead + (";" + q + rest);
    assert text[|lead|..|lead| + |x|] == x;
    assert At(x, text, |lead|);
  }

  lemma {:induction false} DelimitedFront(pre: seq<string>, rest: seq<string>) returns (lead: string)
    ensures Delimited(pre + rest) == lead + Delimited(rest)
  {
    if pre == [] {
      lead := "";
      assert pre + rest == rest && lead + Delimited(rest) == Delimited(rest);
    } else {
      var more := DelimitedFront(pre[1..], rest);
      lead := ";" + pre[0] + more;
      assert (pre + rest)[1..] == pre[1..] + rest;
      Associate(";" + pre[0], more, Delimited(rest));
    }
  }

  lemma {:induction false} DelimitedJoin(some: seq<string>, post: seq<string>)
    requires some != []
    ensures Delimited(some + post) == ";" + Join(some) + Delimited(post)
  {
    assert (some + post)[1..] == some[1..] + post;
    if |some| == 1 {
      assert some[1..] + post == post;
    } else {
      DelimitedJoin(some[1..], post);
      Reassociate(some[0], Join(some[1..]), Delimited(post));
    }
  }

  lemma Reassociate(x: string, y: string, z: string)
    ensures ";" + x + (";" + y + z) == ";" + (x + ";" + y) + z
  {
  }

  /** And `_` finds every reading of one character. */
  lemma {:induction false} UnderscoreFinds(c: char)
    requires c != '_'
    ensures Matches(Join([[c]]), "_") && !Among("_", [[c]])
  {
    var x, text := ";" + "_" + ";", ";" + [c] + ";";
    MatchesExactly([c], "_");
    assert x[1..] == "_;" && "_;"[1..] == ";" && ";"[1..] == "";
    assert text[0..3] == text && text[1..] == [c] + ";" && ([c] + ";")[1..] == ";";
    assert Like(";", ";") && Like("_;", [c] + ";");
    assert Like(x, text[0..3]);
    assert !Same("_", [c]);
  }

  /** The exact condition on queries: the search is membership among the readings, for all words, if
      and only if there is no `%`, `_` or `;` in the query. */
  lemma {:induction false} MembershipExactly(q: string)
    ensures (forall readings :: Listed(readings) ==> SearchIsMembership(readings, q)) <==> Plain(q) && Undelimited(q)
  {
    if Plain(q) && Undelimited(q) {
      forall readings | Listed(readings)
        ensures SearchIsMembership(readings, q)
      {
        SelectedExactly(readings, q);
      }
    } else {
      Unexpected(q);
    }
  }

  /** The word shown is the first of those joined. */
  lemma {:induction false} FirstOfJoined(readings: seq<string>)
    requires readings != [] && Undelimited(readings[0])
    ensures FirstElement(Join(readings)) == readings[0]
  {
    var r, joined := readings[0], Join(readings);
    assert r <= joined && (|r| < |joined| ==> joined[|r|] == ';');
    assert forall i :: 0 <= i < |r| ==> joined[i] == r[i];
    assert ';' in ";" && forall c :: c in ";" ==> c == ';';
  }

  /** Without ASCII letters in it, a query is its reading to the character. */
  lemma SameIsEqual(q: string, r: string)
    requires forall i :: 0 <= i < |q| ==> !('A' <= q[i] <= 'Z' || 'a' <= q[i] <= 'z')
    ensures Same(q, r) <==> q == r
  {
  }

  /** A word without readings is found by the empty query, and by no other. */
  lemma NoReadings(q: string)
    requires Undelimited(q) && Plain(q)
    ensures Matches(Join([]), q) <==> q == []
  {
    var x, text := ";" + q + ";", ";" + Join([]) + ";";
    assert text == ";;";
    MatchesOccurs(Join([]), q);
    if q == [] {
      assert At(x, text, 0);
    }
  }

  // ---------- the case of letters ----------

  /** The letters A to Z, codes 0x41 to 0x5A, become a to z; nothing else changes. */
  function LowerCase(s: string): (t: string)
    ensures |t| == |s|
  {
    seq(|s|, i requires 0 <= i < |s| => if 0x41 <= s[i] as int <= 0x5A then (s[i] as int + 32) as char else s[i])
  }

  /** Two texts are the same for LIKE exactly when they are equal in lower case. */
  lemma SameExactly(a: string, b: string)
    ensures Same(a, b) <==> LowerCase(a) == LowerCase(b)
  {
    if LowerCase(a) == LowerCase(b) {
      forall i | 0 <= i < |a|
        ensures Fold(a[i]) == Fold(b[i])
      {
        assert LowerCase(a)[i] == LowerCase(b)[i];
      }
    }
  }

  lemma {:induction false} LikeLower(pattern: string, text: string)
    ensures Like(LowerCase(pattern), LowerCase(text)) <==> Like(pattern, text)
    decreases |pattern|
  {
    if pattern != [] {
      assert LowerCase(pattern)[1..] == LowerCase(pattern[1..]);
      if pattern[0] == '%' {
        LikeLowerAny(pattern, text);
      } else if text != [] {
        assert LowerCase(text)[1..] == LowerCase(text[1..]);
        LikeLower(pattern[1..], text[1..]);
      }
    }
  }

  lemma {:induction false} LikeLowerAny(pattern: string, text: string)
    requires pattern != [] && pattern[0] == '%'
    ensures Like(LowerCase(pattern), LowerCase(text)) <==> Like(pattern, text)
    decreases |pattern|, 0
  {
    var rest, p, t := pattern[1..], LowerCase(pattern), LowerCase(text);
    assert p[1..] == LowerCase(rest) && p[0] == '%';
    forall k | 0 <= k <= |text|
      ensures Like(p[1..], t[k..]) <==> Like(rest, text[k..])
    {
      assert t[k..] == LowerCase(text[k..]);
      LikeLower(rest, text[k..]);
    }
    if k :| 0 <= k <= |text| && Like(rest, text[k..]) {
      assert Like(p[1..], t[k..]);
    }
  }

  /** The case of ASCII letters does not matter, in the query or in the readings. */
  lemma CaseIgnored(readings: string, query: string)
    ensures Selected(LowerCase(readings), LowerCase(query)) <==> Selected(readings, query)
    ensures Selected(readings, LowerCase(query)) <==> Selected(readings, query)
  {
    MatchesLower(readings, query);
    MatchesLower(readings, Shift(query));
    MatchesLower(readings, LowerCase(query));
    MatchesLower(readings, LowerCase(Shift(query)));
    assert LowerCase(LowerCase(query)) == LowerCase(query);
    assert LowerCase(LowerCase(Shift(query))) == LowerCase(Shift(query));
    assert Shift(LowerCase(query)) == LowerCase(Shift(query));
  }

  lemma MatchesLower(readings: string, query: string)
    ensures Matches(LowerCase(readings), LowerCase(query)) <==> Matches(readings, query)
  {
    var pattern, text := "%;" + query + ";%", ";" + readings + ";";
    assert LowerCase(pattern) == "%;" + LowerCase(query) + ";%";
    assert LowerCase(text) == ";" + LowerCase(readings) + ";";
    LikeLower(pattern, text);
  }
}
