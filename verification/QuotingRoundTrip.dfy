/** Writing a command with its arguments in single quotes, and reading it back: the line is taken
    as one command, and its arguments are the texts that were written. */
module QuotingRoundTrip {
  import opened CText
  import opened Escapes
  import opened Expansion
  import opened Arguments
  import LineSplit

  /** An ordinary command word: nothing in it is special to the shell. */
  predicate PlainWord(w: string) {
    w != "" && forall i :: 0 <= i < |w| ==> PlainChar(w[i])
  }

  predicate PlainChar(c: char) {
    c != '\0' && !IsBlank(c) && !IsMark(c) && c != '\\' && c != '$' && c != ';' && c != '#' && c != '|'
  }

  /** A text that can be put in single quotes: blanks, dollar signs, semicolons, comments and
      other quotation marks are all allowed. */
  predicate Quotable(t: string) {
    forall i :: 0 <= i < |t| ==> t[i] != '\0' && t[i] != '\'' && t[i] != '\\'
  }

  function Quote(t: string): string { "'" + t + "'" }

  function QuoteAll(texts: seq<string>): string {
    if texts == [] then "" else " " + Quote(texts[0]) + QuoteAll(texts[1..])
  }

  function CommandLine(word: string, texts: seq<string>): string { word + QuoteAll(texts) }

  /** What is left when the blank before the first text has been passed. */
  function Behind(texts: seq<string>): string {
    if texts == [] then "" else Quote(texts[0]) + QuoteAll(texts[1..])
  }

  lemma {:induction false} QuoteAllHead(texts: seq<string>)
    requires texts != []
    ensures QuoteAll(texts) == " " + Behind(texts)
  {
  }

  // ---------- the word ----------

  /** Behind a word there is a blank, which is passed, or the end of the line. */
  predicate Ends(rest: string) { rest == "" || IsBlank(rest[0]) }

  function Passed(rest: string): string { if rest == "" then "" else rest[1..] }

  lemma {:induction false} ScanPlain(lead: char, tok: string, w: string, rest: string, first: bool)
    requires (forall i :: 0 <= i < |w| ==> PlainChar(w[i])) && Ends(rest) && (w == "" ==> !first)
    requires !first ==> Before(lead, tok) != '\\'
    ensures ScanToken(lead, tok, w + rest, first, false, false) == Token(tok + w, Passed(rest), false)
    decreases |w|
  {
    if w != "" {
      var c, more := w[0], w[1..];
      assert w == [c] + more && PlainChar(c);
      ScanPlain(lead, tok + [c], more, rest, false);
      ScanChar(lead, tok, c, more + rest, first);
      Regroup(tok, c, more);
      assert w + rest == [c] + (more + rest);
    } else {
      assert tok + w == tok && w + rest == rest;
    }
  }

  lemma {:induction false} ScanChar(lead: char, tok: string, c: char, s: string, first: bool)
    requires PlainChar(c) && (!first ==> Before(lead, tok) != '\\')
    ensures ScanToken(lead, tok, [c] + s, first, false, false) == ScanToken(lead, tok + [c], s, false, false, false)
  {
    assert ([c] + s)[1..] == s;
  }

  lemma PlainValue(w: string, env: Environment)
    requires PlainWord(w)
    ensures ArgValue(w, env) == w && NoBackquote(w)
  {
    forall i | 0 <= i < |w|
      ensures !Unprotected(w, i)
    {
      assert PlainChar(w[i]);
      assert ARG_SEPARATORS == "`$";
    }
    assert forall i :: 0 <= i < |w| ==> PlainChar(w[i]) && w[i] != '\\';
    NextSkip(w, 0, |w|);
    ExpandNothing(w, env);
    DequotePlain(w);
  }

  lemma PlainArgument(lead: char, word: string, rest: string, env: Environment)
    requires PlainWord(word) && Ends(rest)
    ensures NextArgument(lead, word + rest, env) == Argument(word, '\0', Passed(rest)) && Quiet(lead, word + rest)
  {
    var s := word + rest;
    assert s[0] == word[0] && PlainChar(word[0]) && s[0..] == s;
    ScanPlain(lead, "", word, rest, true);
    assert "" + word == word;
    PlainValue(word, env);
  }

  lemma WordArgument(lead: char, word: string, texts: seq<string>, env: Environment)
    requires PlainWord(word)
    ensures NextArgument(lead, CommandLine(word, texts), env) == Argument(word, '\0', Behind(texts))
    ensures Quiet(lead, CommandLine(word, texts))
  {
    if texts != [] {
      QuoteAllHead(texts);
      assert QuoteAll(texts)[1..] == Behind(texts);
    }
    PlainArgument(lead, word, QuoteAll(texts), env);
  }

  // ---------- a quoted text ----------

  lemma {:induction false} FindClosing(t: string, i: nat, post: string)
    requires Quotable(t) && 1 <= i <= 1 + |t|
    ensures FindUnescaped(Quote(t) + post, i, '\'', false) == Some(1 + |t|)
    decreases 1 + |t| - i
  {
    var s := Quote(t) + post;
    if i < 1 + |t| {
      assert s[i] == t[i - 1];
      FindClosing(t, i + 1, post);
    } else {
      assert s[i] == '\'';
    }
  }

  lemma {:induction false} QuotedToken(lead: char, t: string, texts: seq<string>)
    requires Quotable(t) && lead != '\\'
    ensures TokenAt(lead, Quote(t) + QuoteAll(texts)) == Token(t, Behind(texts), true)
  {
    var s := Quote(t) + QuoteAll(texts);
    FindClosing(t, 1, QuoteAll(texts));
    var k := 1 + |t|;
    assert s[0] == '\'' && s[1..k] == t && s[k + 1..] == QuoteAll(texts);
    FromMark(lead, s, k, t, QuoteAll(texts));
    TokenEnds(lead, t, texts);
  }

  lemma {:induction false} FromMark(lead: char, s: string, k: nat, t: string, rest: string)
    requires s != "" && s[0] == '\'' && FindUnescaped(s, 1, '\'', false) == Some(k)
    requires k < |s| && t == s[1..k] && rest == s[k + 1..]
    ensures TokenAt(lead, s) == ScanToken(lead, t, rest, false, false, true)
  {
    assert "" + t == t;
  }

  /** Behind the closing mark there is a blank or the end of the line. */
  lemma {:induction false} TokenEnds(lead: char, t: string, texts: seq<string>)
    requires Before(lead, t) != '\\'
    ensures ScanToken(lead, t, QuoteAll(texts), false, false, true) == Token(t, Behind(texts), true)
  {
    if texts != [] {
      QuoteAllHead(texts);
      assert QuoteAll(texts)[0] == ' ' && QuoteAll(texts)[1..] == Behind(texts);
    }
  }

  lemma TextArgument(lead: char, texts: seq<string>, env: Environment)
    requires texts != [] && Quotable(texts[0]) && lead != '\\'
    ensures NextArgument(lead, Behind(texts), env) == Argument(texts[0], '\0', Behind(texts[1..]))
    ensures Quiet(lead, Behind(texts))
  {
    var s := Behind(texts);
    assert s[0] == '\'' && s[0..] == s;
    QuotedToken(lead, texts[0], texts[1..]);
  }

  // ---------- all arguments ----------

  lemma {:induction false} TextsBack(texts: seq<string>, env: Environment)
    requires forall i :: 0 <= i < |texts| ==> Quotable(texts[i])
    ensures AllArguments('\0', Behind(texts), env) == texts && AllQuiet('\0', Behind(texts), env)
    decreases |texts|
  {
    if texts != [] {
      TextArgument('\0', texts, env);
      TextsBack(texts[1..], env);
      NextShrinks('\0', Behind(texts), env);
      assert texts == [texts[0]] + texts[1..];
    }
  }

  /** The arguments of the written line are the word and the texts, whatever the texts hold and
      whatever the variables are. */
  lemma {:induction false} ArgumentsBack(lead: char, word: string, texts: seq<string>, env: Environment)
    requires PlainWord(word) && forall i :: 0 <= i < |texts| ==> Quotable(texts[i])
    ensures AllArguments(lead, CommandLine(word, texts), env) == [word] + texts
    ensures AllQuiet(lead, CommandLine(word, texts), env)
  {
    WordArgument(lead, word, texts, env);
    TextsBack(texts, env);
    NextShrinks(lead, CommandLine(word, texts), env);
  }

  // ---------- one command ----------

  lemma {:induction false} InsideText(s: string, i: nat, t: string, j: nat)
    requires Quotable(t) && j <= |t| && i + |t| - j < |s| && s[i..i + |t| - j] == t[j..] && s[i + |t| - j] == '\''
    ensures LineSplit.SimpleScan(s, i, LineSplit.Inside('\'', false)) ==
            LineSplit.SimpleScan(s, i + |t| - j + 1, LineSplit.Outside(false))
    decreases |t| - j
  {
    if j < |t| {
      assert s[i] == s[i..i + |t| - j][0] == t[j];
      assert s[i + 1..i + 1 + |t| - (j + 1)] == s[i..i + |t| - j][1..] == t[j + 1..];
      InsideText(s, i + 1, t, j + 1);
    }
  }

  lemma {:induction false} OutsideTexts(pre: string, texts: seq<string>, s: string, post: string)
    requires s == pre + QuoteAll(texts) + post && forall i :: 0 <= i < |texts| ==> Quotable(texts[i])
    ensures LineSplit.SimpleScan(s, |pre|, LineSplit.Outside(false))
         == LineSplit.SimpleScan(s, |pre + QuoteAll(texts)|, LineSplit.Outside(false))
    decreases |texts|
  {
    if texts != [] {
      var t := texts[0];
      var p := |pre|;
      var pre' := pre + " " + Quote(t);
      assert pre + QuoteAll(texts) == pre' + QuoteAll(texts[1..]);
      assert s == pre' + QuoteAll(texts[1..]) + post;
      assert s[p] == ' ' && s[p + 1] == '\'' && s[p + 2..p + 2 + |t|] == t && s[p + 2 + |t|] == '\'';
      assert t[0..] == t;
      InsideText(s, p + 2, t, 0);
      OutsideTexts(pre', texts[1..], s, post);
    }
  }

  lemma {:induction false} OutsideWord(word: string, s: string, i: nat)
    requires i <= |word| <= |s| && s[..|word|] == word && forall k :: 0 <= k < |word| ==> PlainChar(word[k])
    ensures LineSplit.SimpleScan(s, i, LineSplit.Outside(false))
         == LineSplit.SimpleScan(s, |word|, LineSplit.Outside(false))
    decreases |word| - i
  {
    if i < |word| {
      assert s[i] == s[..|word|][i] == word[i] && PlainChar(word[i]);
      OutsideWord(word, s, i + 1);
    }
  }

  /** Print and parse: the written line is one command for the line splitter, and its arguments are
      the word and exactly the texts. */
  lemma {:induction false} QuotedRoundTrip(lead: char, word: string, texts: seq<string>, env: Environment)
    requires PlainWord(word) && forall i :: 0 <= i < |texts| ==> Quotable(texts[i])
    ensures var line := CommandLine(word, texts);
      && LineSplit.Split(line) == LineSplit.Line([line], true)
      && AllArguments(lead, line, env) == [word] + texts
  {
    var line := CommandLine(word, texts);
    OutsideWord(word, line, 0);
    assert line == word + QuoteAll(texts) + "";
    OutsideTexts(word, texts, line, "");
    LineSplit.SplitOne(line);
    ArgumentsBack(lead, word, texts, env);
  }
}
