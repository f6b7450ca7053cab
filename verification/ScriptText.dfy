/** A script as text: what the script reader fetches at each byte offset of the file, and the
    main theorem for script files. */
module ScriptText {
  import opened CText
  import opened Guard
  import opened ControlState
  import opened Structured
  import opened Leaks
  import opened Machine
  import opened Placement
  import opened ScriptTheorem
  import LineSplit

  /** The offset behind the line that goes on at `p`. */
  function LineEnd(t: string, p: nat): (e: nat)
    requires p <= |t|
    ensures p <= e <= |t|
    ensures forall k :: p <= k < e - 1 ==> t[k] != '\n'
    ensures e < |t| ==> e > p && t[e - 1] == '\n'
    ensures p < |t| ==> p < e
    decreases |t| - p
  {
    if p == |t| then p else if t[p] == '\n' then p + 1 else LineEnd(t, p + 1)
  }

  // nsh_script reads a line at the current file offset and nsh_parse takes the first command
  // of it; `words` is how a command is split into words. The offset for a loop is that of
  // the line plus that of the last search in the line.
  function Fetch(words: string -> Command, t: string, p: nat): Fetched {
    if p >= |t| then Eof else FetchLine(words, t[p..LineEnd(t, p)], p)
  }

  /** The first command of `line`, which is at the file offset `p`. */
  function FetchLine(words: string -> Command, line: string, p: nat): Fetched {
    match LineSplit.Scan(line, 0)
    case Last(top) => Fetched(words(line), p + top, p + |line|)
    case Semicolon(i, top) => Fetched(words(line[..i]), p + top, p + i + 1)
    case Unclosed => Fetched.Unclosed(p + |line|)
  }

  function Reader(words: string -> Command, t: string): Image {
    (p: nat) => Fetch(words, t, p)
  }

  // ---------- laying out a script ----------

  /** How a command of a script file ends: with a semicolon, at the end of its line, or
      at a comment. */
  datatype Ending = Semicolon | Newline | Comment(text: string)

  datatype Piece = Piece(body: string, ending: Ending)

  function Tail(e: Ending): string {
    match e
    case Semicolon => ";"
    case Newline => "\n"
    case Comment(text) => "#" + text + "\n"
  }

  function Text(x: Piece): string { x.body + Tail(x.ending) }

  /** The text that is split into words. */
  function CommandText(x: Piece): string {
    if x.ending.Semicolon? then x.body else Text(x)
  }

  function Render(pieces: seq<Piece>): string {
    if pieces == [] then "" else Text(pieces[0]) + Render(pieces[1..])
  }

  /** Quotes are closed in the command, and it stands on one line. */
  predicate Laid(x: Piece) {
    && LineSplit.Separable(x.body) && '\n' !in x.body
    && (x.ending.Comment? ==> '\n' !in x.ending.text)
  }

  /** In addition, a command that opens a loop has no quotation marks. */
  predicate WellLaid(words: string -> Command, x: Piece) {
    Laid(x) && (IsLoopHead(words(CommandText(x))) ==> NoQuotes(x.body))
  }

  predicate NoQuotes(s: string) {
    forall i :: 0 <= i < |s| ==> s[i] !in LineSplit.LINE_SEPARATORS
  }

  /** The commands of the pieces that are not blank. */
  function CommandsOf(words: string -> Command, pieces: seq<Piece>): seq<Command> {
    if pieces == [] then []
    else
      var w := words(CommandText(pieces[0]));
      (if w == [] then [] else [w]) + CommandsOf(words, pieces[1..])
  }

  // ---------- the reader finds the pieces ----------

  lemma {:induction false} LineEndAt(t: string, p: nat, e: nat)
    requires p < e <= |t| && (forall k :: p <= k < e - 1 ==> t[k] != '\n')
    ensures t[e - 1] == '\n' ==> LineEnd(t, p) == e
    ensures t[e - 1] != '\n' ==> LineEnd(t, p) >= e
    decreases e - p
  {
    if p < e - 1 {
      LineEndAt(t, p + 1, e);
    }
  }

  /** The first search goes to the end of a text without quotation marks. */
  lemma {:induction false} SkipAll(s: string, i: nat, k: nat)
    requires i <= k <= |s| && (k == |s| || s[k] in LineSplit.LINE_SEPARATORS)
    requires forall j :: i <= j < k ==> s[j] !in LineSplit.LINE_SEPARATORS
    ensures SkipTo(s, i, LineSplit.LINE_SEPARATORS) == k
    decreases k - i
  {
    if i < k {
      SkipAll(s, i + 1, k);
    }
  }

  /** In front of a separator outside of quotes, the first separator of all is a quotation mark. */
  lemma {:induction false} FirstIsQuote(body: string, t: string)
    requires LineSplit.Separable(body) && !NoQuotes(body)
    ensures var ptr := SkipTo(body + t, 0, LineSplit.LINE_SEPARATORS); ptr < |body| && LineSplit.IsQuote(body[ptr])
  {
    var s := body + ";";
    var j :| 0 <= j < |body| && body[j] in LineSplit.LINE_SEPARATORS;
    assert s[j] == body[j] && (body + t)[j] == body[j];
    var ptr := SkipTo(s, 0, LineSplit.LINE_SEPARATORS);
    assert ptr <= j;
    assert forall i :: 0 <= i < ptr ==> s[i] == (body + t)[i];
    SkipAll(body + t, 0, ptr);
    LineSplit.PassPlain(s, 0, ptr);
    LineSplit.SeparatorCases(s[ptr]);
  }

  /** Where the last search began tells whether the command has a quotation mark. */
  lemma {:induction false} ScanTop(body: string, t: string)
    requires LineSplit.Separable(body) && t != "" && (t[0] == ';' || t[0] == '#' || t[0] == '\n')
    requires !LineSplit.Scan(body + t, 0).Unclosed?
    ensures LineSplit.Scan(body + t, 0).top == 0 <==> NoQuotes(body)
  {
    var s := body + t;
    LineSplit.TopExactly(s);
    if NoQuotes(body) {
      assert forall i :: 0 <= i < |body| ==> s[i] == body[i];
      assert s[|body|] == t[0];
      assert LineSplit.LINE_SEPARATORS[3] == ';' && LineSplit.LINE_SEPARATORS[2] == '#';
      assert LineSplit.LINE_SEPARATORS[4] == '\n';
      SkipAll(s, 0, |body|);
    } else {
      FirstIsQuote(body, t);
    }
  }

  /** A separable text followed by a newline or a comment ends a line. */
  lemma {:induction false} EndsLine(s: string, t: string, c: char, i: nat, st: LineSplit.Lex)
    requires i <= |s| && (c == '\n' || c == '#')
    requires LineSplit.SimpleScan(s + ";", i, st) == LineSplit.AtSemicolon(|s|)
    ensures LineSplit.SimpleScan(s + [c] + t, i, st) == LineSplit.AtEnd
    decreases |s| - i
  {
    if i < |s| {
      assert (s + ";")[i] == (s + [c] + t)[i] == s[i];
      if !(st.Outside? && s[i] == ';') {
        EndsLine(s, t, c, i + 1, LineSplit.Next(st, s[i]));
      }
    } else {
      assert (s + ";")[i] == ';' && (s + [c] + t)[i] == c;
    }
  }

  lemma {:induction false} ScanSemicolon(x: Piece, rest: string)
    requires Laid(x) && x.ending.Semicolon?
    ensures var cut := LineSplit.Scan(x.body + ";" + rest, 0);
            cut.Semicolon? && cut.at == |x.body| && (cut.top == 0 <==> NoQuotes(x.body))
  {
    LineSplit.ScanPrefix(x.body, rest, 0, LineSplit.Outside(false));
    LineSplit.ScanCuts(x.body + ";" + rest, |x.body|);
    assert x.body + ";" + rest == x.body + (";" + rest);
    ScanTop(x.body, ";" + rest);
  }

  lemma ScanLast(x: Piece)
    requires Laid(x) && !x.ending.Semicolon?
    ensures var cut := LineSplit.Scan(Text(x), 0); cut.Last? && (cut.top == 0 <==> NoQuotes(x.body))
  {
    var s := Text(x);
    var c := if x.ending.Newline? then '\n' else '#';
    var t := if x.ending.Newline? then "" else x.ending.text + "\n";
    assert s == x.body + [c] + t == x.body + ([c] + t);
    EndsLine(x.body, t, c, 0, LineSplit.Outside(false));
    LineSplit.ScanIsSimple(s, 0);
    ScanTop(x.body, [c] + t);
  }

  lemma TextLines(x: Piece)
    requires Laid(x)
    ensures Text(x) != "" && forall k :: 0 <= k < |Text(x)| - 1 ==> Text(x)[k] != '\n'
    ensures Text(x)[|Text(x)| - 1] == if x.ending.Semicolon? then ';' else '\n'
  {
  }

  /** The line that goes on at the offset of a piece. */
  lemma LineOf(pre: string, x: Piece, post: string) returns (rest: string)
    requires Laid(x)
    ensures var t := pre + Text(x) + post;
            t[|pre|..LineEnd(t, |pre|)] == if x.ending.Semicolon? then x.body + ";" + rest else Text(x)
  {
    var t := pre + Text(x) + post;
    var p := |pre|;
    var e := p + |Text(x)|;
    TextLines(x);
    assert t[p..e] == Text(x);
    forall k | p <= k < e
      ensures t[k] == Text(x)[k - p]
    {
    }
    LineEndAt(t, p, e);
    rest := t[e..LineEnd(t, p)];
    assert t[p..LineEnd(t, p)] == t[p..e] + rest;
    if !x.ending.Semicolon? {
      assert rest == "";
    }
  }

  /** At the offset of a piece the reader fetches its command and goes on behind it. The offset
      that a loop would save is the right one exactly when there is no quotation mark in it. */
  lemma FetchPiece(words: string -> Command, pre: string, x: Piece, post: string)
    requires Laid(x)
    ensures var f := Fetch(words, pre + Text(x) + post, |pre|);
            && f.Fetched? && f.words == words(CommandText(x)) && f.next == |pre| + |Text(x)|
            && (f.top == |pre| <==> NoQuotes(x.body))
  {
    var rest := LineOf(pre, x, post);
    if x.ending.Semicolon? {
      ScanSemicolon(x, rest);
      assert (x.body + ";" + rest)[..|x.body|] == x.body;
    } else {
      ScanLast(x);
    }
  }

  lemma {:induction false} PlacedCons(fetch: Image, p: nat, w: Command, cmds: seq<Command>, q: nat, n: nat)
    requires fetch(p).Fetched? && fetch(p).words == w && (IsLoopHead(w) ==> fetch(p).top == p)
    requires Placed(fetch, fetch(p).next, cmds, q, n)
    ensures Placed(fetch, p, (if w == [] then [] else [w]) + cmds, q, n + 1)
  {
    if w == [] {
      assert [] + cmds == cmds;
    } else {
      assert ([w] + cmds)[1..] == cmds;
    }
  }

  lemma StandsCons(fetch: Image, p: nat, w: Command, cmds: seq<Command>, q: nat)
    requires fetch(p).Fetched? && fetch(p).words == w && (IsLoopHead(w) ==> fetch(p).top == p)
    requires Stands(fetch, fetch(p).next, cmds, q)
    ensures Stands(fetch, p, (if w == [] then [] else [w]) + cmds, q)
  {
    assert Open(0);
    var n :| Placed(fetch, fetch(p).next, cmds, q, n);
    PlacedCons(fetch, p, w, cmds, q, n);
  }

  /** `fetch` reads the text `t`; kept closed, see `Guard`. */
  ghost predicate Reads(fetch: Image, words: string -> Command, t: string) {
    forall k :: Open(k) ==> fetch == Reader(words, t)
  }

  lemma ReadPiece(fetch: Image, words: string -> Command, t: string, pre: string, x: Piece, post: string)
    requires Reads(fetch, words, t) && WellLaid(words, x) && t == pre + Text(x) + post
    ensures var f := fetch(|pre|);
            && f.Fetched? && f.words == words(CommandText(x)) && f.next == |pre + Text(x)|
            && (IsLoopHead(f.words) ==> f.top == |pre|)
  {
    assert Open(0);
    FetchPiece(words, pre, x, post);
  }

  lemma {:induction false} RenderFirst(pre: string, x: Piece, rest: seq<Piece>, pieces: seq<Piece>)
    requires pieces != [] && x == pieces[0] && rest == pieces[1..]
    ensures pre + Render(pieces) == (pre + Text(x)) + Render(rest)
  {
  }

  lemma {:induction false} RenderStands(fetch: Image, words: string -> Command, pre: string, pieces: seq<Piece>,
                                        t: string)
    requires Reads(fetch, words, t) && t == pre + Render(pieces)
    requires forall k :: 0 <= k < |pieces| ==> WellLaid(words, pieces[k])
    ensures Stands(fetch, |pre|, CommandsOf(words, pieces), |t|)
    decreases |pieces|
  {
    if pieces == [] {
      assert Placed(fetch, |pre|, [], |t|, 0);
    } else {
      var x := pieces[0];
      var rest := pieces[1..];
      assert WellLaid(words, x);
      RenderFirst(pre, x, rest, pieces);
      ReadPiece(fetch, words, t, pre, x, Render(rest));
      RenderStands(fetch, words, pre + Text(x), rest, t);
      StandsCons(fetch, |pre|, words(CommandText(x)), CommandsOf(words, rest), |t|);
    }
  }

  /** What the machine does with a script file that is laid out as the commands of `ss`, with blank
      lines and comments wherever one likes: for every way to split commands into words, all
      results, and whether or not errors are ignored. */
  lemma {:induction false} ScriptFileActs(words: string -> Command, ignore: bool, depth: nat, ss: Stmts,
                                          pieces: seq<Piece>, results: seq<bool>)
    requires IfDepthAll(ss) < depth && LoopDepthAll(ss) < depth && BreaksPlacedAll(ss, false, false)
    requires forall k :: 0 <= k < |pieces| ==> WellLaid(words, pieces[k])
    requires CommandsOf(words, pieces) == FlattenAll(ss)
    ensures Faithful(Reader(words, Render(pieces)), ignore, Start(depth, results), ActAll(ss, false, ignore, results))
  {
    var t := Render(pieces);
    assert t == "" + t;
    RenderStands(Reader(words, t), words, "", pieces, t);
    ScriptActs(Reader(words, t), ignore, depth, ss, |t|, results);
  }

  /** If no reachable loop has a loop directly in its body, that is what the structure of `ss` says. */
  lemma {:induction false} ScriptFileFaithful(words: string -> Command, ignore: bool, depth: nat, ss: Stmts,
                                              pieces: seq<Piece>, results: seq<bool>)
    requires IfDepthAll(ss) < depth && LoopDepthAll(ss) < depth
    requires BreaksPlacedAll(ss, false, false) && LoopsApartAll(ss, false)
    requires forall k :: 0 <= k < |pieces| ==> WellLaid(words, pieces[k])
    requires CommandsOf(words, pieces) == FlattenAll(ss)
    ensures Faithful(Reader(words, Render(pieces)), ignore, Start(depth, results), EvalAll(ss, false, ignore, results))
  {
    ActsAsMeantAll(ss, false, false, ignore, results);
    ScriptFileActs(words, ignore, depth, ss, pieces, results);
  }
}
