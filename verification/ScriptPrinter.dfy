/** A structured script printed as a file and read back: the splitter of commands into words is that
    of the shell's argument parser, with its keywords, and the file is executed as the
    structure of the script says. */
module ScriptPrinter {
  import opened Guard
  import opened ControlState
  import opened Structured
  import opened Placement
  import opened ScriptTheorem
  import opened ScriptText
  import opened Surroundings
  import opened QuotedHead
  import opened Expansion
  import opened Arguments
  import opened QuotingRoundTrip
  import LineSplit

  // ---------- words ----------

  function WordText(w: Word): string {
    match w
    case While => "while"
    case Until => "until"
    case Do => "do"
    case Done => "done"
    case If => "if"
    case Bang => "!"
    case Then => "then"
    case Else => "else"
    case Fi => "fi"
    case Break => "break"
    case Plain(text) => text
  }

  /** The word an argument stands for. */
  function WordOf(t: string): Word {
    if t == "while" then While
    else if t == "until" then Until
    else if t == "do" then Do
    else if t == "done" then Done
    else if t == "if" then If
    else if t == "!" then Bang
    else if t == "then" then Then
    else if t == "else" then Else
    else if t == "fi" then Fi
    else if t == "break" then Break
    else Plain(t)
  }

  /** Ten texts are read as keywords, and the keywords are written so. */
  lemma KeywordsRead()
    ensures WordOf("while") == While && WordOf("until") == Until && WordOf("do") == Do && WordOf("done") == Done
    ensures WordOf("if") == If && WordOf("!") == Bang && WordOf("then") == Then && WordOf("else") == Else
    ensures WordOf("fi") == Fi && WordOf("break") == Break
  {
  }

  /** Every other text is read as it stands. */
  lemma OthersPlain(t: string)
    ensures WordOf(t) == Plain(t) <==>
      t !in {"while", "until", "do", "done", "if", "!", "then", "else", "fi", "break"}
  {
  }

  /** The word is not a keyword in disguise. */
  predicate Canonical(w: Word) { WordOf(WordText(w)) == w }

  function Texts(w: Command): (ts: seq<string>)
    ensures |ts| == |w| && forall i :: 0 <= i < |w| ==> ts[i] == WordText(w[i])
  {
    seq(|w|, i requires 0 <= i < |w| => WordText(w[i]))
  }

  function WordsIn(ts: seq<string>): (w: Command)
    ensures |w| == |ts| && forall i :: 0 <= i < |ts| ==> w[i] == WordOf(ts[i])
  {
    seq(|ts|, i requires 0 <= i < |ts| => WordOf(ts[i]))
  }

  /** How the shell splits a command: into its arguments, with the variables `env` in place. */
  function Splitter(lead: char, env: Environment): string -> Command {
    (s: string) => WordsIn(AllArguments(lead, s, env))
  }

  // ---------- printing ----------

  /** Words with blanks between them. */
  function PlainLine(ts: seq<string>): string
    requires ts != []
  {
    if |ts| == 1 then ts[0] else ts[0] + (" " + PlainLine(ts[1..]))
  }

  /** The head of a loop is written in plain words; in any other command the first word is plain and
      the others are in single quotes. */
  function PrintCommand(w: Command): string {
    if w == [] then "" else if IsLoopHead(w) then PlainLine(Texts(w)) else CommandLine(Texts(w)[0], Texts(w)[1..])
  }

  predicate OneLine(t: string) { Quotable(t) && '\n' !in t }

  predicate Printable(w: Command) {
    && w != [] && (forall i :: 0 <= i < |w| ==> Canonical(w[i]))
    && PlainWord(WordText(w[0]))
    && forall i :: 1 <= i < |w| ==> if IsLoopHead(w) then PlainWord(WordText(w[i])) else OneLine(WordText(w[i]))
  }

  /** A command with its semicolon, and the end of its line. */
  function Lines(cmds: seq<Command>): seq<Piece> {
    if cmds == [] then []
    else [Piece(PrintCommand(cmds[0]), Semicolon), Piece("", Newline)] + Lines(cmds[1..])
  }

  lemma KeywordPrints(k: Word)
    requires !k.Plain?
    ensures Canonical(k) && PlainWord(WordText(k)) && OneLine(WordText(k))
  {
    match k
    case While => Letters("while");
    case Until => Letters("until");
    case Do => Letters("do");
    case Done => Letters("done");
    case If => Letters("if");
    case Bang => Letters("!");
    case Then => Letters("then");
    case Else => Letters("else");
    case Fi => Letters("fi");
    case Break => Letters("break");
  }

  lemma Letters(t: string)
    requires t != "" && forall i :: 0 <= i < |t| ==> 'a' <= t[i] <= 'z' || t[i] == '!'
    ensures PlainWord(t) && OneLine(t)
  {
  }

  /** The words stand for themselves and can be put in quotes. */
  predicate Ordinary(w: Command) {
    forall i :: 0 <= i < |w| ==> w[i].Plain? && Canonical(w[i]) && OneLine(w[i].text)
  }

  /** What can be printed: commands with any such arguments behind a plain name. */
  lemma CommandPrints(w: Command)
    requires w != [] && Ordinary(w) && PlainWord(w[0].text)
    ensures Printable(w)
  {
  }

  /** Any such command behind keywords of ifs and blocks, */
  lemma KeywordsLead(ks: Command, w: Command)
    requires ks != [] && Ordinary(w)
    requires forall i :: 0 <= i < |ks| ==> !ks[i].Plain? && ks[i] != While && ks[i] != Until
    ensures Printable(ks + w)
  {
    forall i | 0 <= i < |ks|
      ensures Canonical(ks[i]) && PlainWord(WordText(ks[i])) && OneLine(WordText(ks[i]))
    {
      KeywordPrints(ks[i]);
    }
  }

  /** and as the condition of a loop, if its words are plain. */
  lemma LoopPrints(until: bool, w: Command)
    requires Ordinary(w) && forall i :: 0 <= i < |w| ==> PlainWord(w[i].text)
    ensures Printable(LoopWords(until, w))
  {
    KeywordPrints(While);
    KeywordPrints(Until);
  }

  /** So a script can be printed when its words are ordinary and the heads of its loops plain. */
  predicate Neat(s: Stmt) {
    match s
    case Run(w) => Ordinary(w) && PlainWord(w[0].text)
    case BreakLoop => true
    case IfElse(_, cond, thn, els) =>
      Ordinary(cond) && NeatAll(thn.stmts) && (els.ElseBranch? ==> NeatAll(els.block.stmts))
    case LoopOver(_, cond, body) =>
      && Ordinary(cond) && (forall i :: 0 <= i < |cond| ==> PlainWord(cond[i].text))
      && NeatAll(body.stmts)
  }

  predicate NeatAll(ss: Stmts) {
    match ss
    case Nil => true
    case Cons(s, tail) => Neat(s) && NeatAll(tail)
  }

  ghost predicate AllPrint(cmds: seq<Command>) { forall c :: c in cmds ==> Printable(c) }

  lemma {:induction false} NeatPrints(s: Stmt)
    requires Neat(s)
    ensures AllPrint(Flatten(s))
    decreases s, 1
  {
    match s
    case Run(w) => CommandPrints(w);
    case BreakLoop => KeywordAlone(Break);
    case IfElse(inverted, cond, _, _) =>
      KeywordsLead(if inverted then [If, Bang] else [If], cond);
      TailPrints(s);
      assert Flatten(s) == [IfWords(inverted, cond)] + IfTail(s);
    case LoopOver(until, cond, body) =>
      LoopPrints(until, cond);
      BlockPrints(Do, body);
      KeywordAlone(Done);
  }

  lemma KeywordAlone(k: Word)
    requires !k.Plain? && k != While && k != Until
    ensures Printable([k])
  {
    KeywordsLead([k], []);
    assert [k] + [] == [k];
  }

  lemma {:induction false} TailPrints(s: Stmt)
    requires s.IfElse? && Neat(s)
    ensures AllPrint(IfTail(s))
    decreases s, 0
  {
    BlockPrints(Then, s.thn);
    if s.els.ElseBranch? {
      BlockPrints(Else, s.els.block);
    }
    KeywordAlone(Fi);
  }

  lemma {:induction false} BlockPrints(opener: Word, b: Block)
    requires opener in {Then, Else, Do} && NeatAll(b.stmts)
    ensures AllPrint(FlattenBlock(opener, b))
    decreases b
  {
    if b.fused && b.stmts.Cons? && IsCommand(b.stmts.head) {
      NeatAllPrints(b.stmts.tail);
      FusedPrints(opener, b.stmts.head);
    } else if Joins(opener, b) {
      NeatAllPrints(b.stmts.tail);
      TailPrints(b.stmts.head);
      JoinedPrints(b.stmts.head);
    } else {
      NeatAllPrints(b.stmts);
      KeywordAlone(opener);
    }
  }

  lemma {:induction false} FusedPrints(opener: Word, s: Stmt)
    requires opener in {Then, Else, Do} && IsCommand(s) && Neat(s)
    ensures Printable([opener] + CommandWords(s))
  {
    if s.Run? {
      KeywordsLead([opener], s.words);
    } else {
      KeywordsLead([opener, Break], []);
      assert [opener] + [Break] == [opener, Break] + [];
    }
  }

  lemma {:induction false} JoinedPrints(s: Stmt)
    requires s.IfElse? && Neat(s)
    ensures Printable([Do] + IfWords(s.inverted, s.cond))
  {
    var ks := if s.inverted then [Do, If, Bang] else [Do, If];
    KeywordsLead(ks, s.cond);
    assert [Do] + IfWords(s.inverted, s.cond) == ks + s.cond;
  }

  lemma {:induction false} NeatAllPrints(ss: Stmts)
    requires NeatAll(ss)
    ensures AllPrint(FlattenAll(ss))
    decreases ss
  {
    if ss.Cons? {
      NeatPrints(ss.head);
      NeatAllPrints(ss.tail);
    }
  }

  // ---------- plain words read back ----------

  lemma {:induction false} PlainLineBack(lead: char, ts: seq<string>, env: Environment)
    requires ts != [] && forall i :: 0 <= i < |ts| ==> PlainWord(ts[i])
    ensures AllArguments(lead, PlainLine(ts), env) == ts
    decreases |ts|
  {
    var s := PlainLine(ts);
    assert PlainWord(ts[0]);
    NextShrinks(lead, s, env);
    if |ts| == 1 {
      assert s == ts[0] + "";
      PlainArgument(lead, ts[0], "", env);
      assert ts == [ts[0]] + [];
    } else {
      var rest := " " + PlainLine(ts[1..]);
      PlainArgument(lead, ts[0], rest, env);
      assert rest[1..] == PlainLine(ts[1..]);
      PlainLineBack('\0', ts[1..], env);
      assert ts == [ts[0]] + ts[1..];
    }
  }

  predicate Unmarked(s: string) { forall i :: 0 <= i < |s| ==> PlainChar(s[i]) || s[i] == ' ' }

  lemma {:induction false} PlainLineUnmarked(ts: seq<string>)
    requires ts != [] && forall i :: 0 <= i < |ts| ==> PlainWord(ts[i])
    ensures Unmarked(PlainLine(ts))
    decreases |ts|
  {
    assert PlainWord(ts[0]);
    if |ts| > 1 {
      PlainLineUnmarked(ts[1..]);
    }
  }

  lemma NoSeparator(c: char)
    requires PlainChar(c) || c == ' '
    ensures c !in LineSplit.LINE_SEPARATORS && c != '\n'
  {
    if c in LineSplit.LINE_SEPARATORS {
      LineSplit.SeparatorCases(c);
    }
  }

  lemma UnmarkedLaid(s: string)
    requires Unmarked(s)
    ensures LineSplit.Separable(s) && NoQuotes(s) && '\n' !in s
  {
    forall i | 0 <= i < |s|
      ensures s[i] !in LineSplit.LINE_SEPARATORS && s[i] != '\n'
    {
      NoSeparator(s[i]);
    }
    var t := s + ";";
    assert forall i :: 0 <= i < |s| ==> t[i] == s[i];
    LineSplit.PassPlain(t, 0, |s|);
  }

  // ---------- quoted texts stay one command ----------

  lemma QuotedLaid(word: string, texts: seq<string>)
    requires PlainWord(word) && forall i :: 0 <= i < |texts| ==> OneLine(texts[i])
    ensures LineSplit.Separable(CommandLine(word, texts)) && '\n' !in CommandLine(word, texts)
  {
    var line := CommandLine(word, texts);
    var s := line + ";";
    assert s == word + QuoteAll(texts) + ";";
    assert s[..|word|] == word;
    OutsideWord(word, s, 0);
    OutsideTexts(word, texts, s, ";");
    assert s[|line|] == ';';
    QuotedOneLine(texts);
    assert forall i :: 0 <= i < |word| ==> PlainChar(word[i]);
  }

  lemma {:induction false} QuotedOneLine(texts: seq<string>)
    requires forall i :: 0 <= i < |texts| ==> OneLine(texts[i])
    ensures '\n' !in QuoteAll(texts)
    decreases |texts|
  {
    if texts != [] {
      assert OneLine(texts[0]);
      QuotedOneLine(texts[1..]);
    }
  }

  // ---------- a command ----------

  lemma {:induction false} ArgumentsOf(lead: char, env: Environment, w: Command)
    requires Printable(w)
    ensures AllArguments(lead, PrintCommand(w), env) == Texts(w)
  {
    var ts := Texts(w);
    if IsLoopHead(w) {
      assert forall i :: 0 <= i < |ts| ==> PlainWord(ts[i]);
      PlainLineBack(lead, ts, env);
    } else {
      ArgumentsBack(lead, ts[0], ts[1..], env);
      assert ts == [ts[0]] + ts[1..];
    }
  }

  lemma {:induction false} CommandLaid(w: Command)
    requires Printable(w)
    ensures Laid(Piece(PrintCommand(w), Semicolon)) && (IsLoopHead(w) ==> NoQuotes(PrintCommand(w)))
  {
    var ts := Texts(w);
    if IsLoopHead(w) {
      assert forall i :: 0 <= i < |ts| ==> PlainWord(ts[i]);
      PlainLineUnmarked(ts);
      UnmarkedLaid(PlainLine(ts));
    } else {
      QuotedLaid(ts[0], ts[1..]);
    }
  }

  lemma WordsBack(w: Command)
    requires forall i :: 0 <= i < |w| ==> Canonical(w[i])
    ensures WordsIn(Texts(w)) == w
  {
  }

  /** `words` reads the printed command back; sealed, see `Guard`. */
  ghost predicate ReadsBack(words: string -> Command, w: Command) { BackSeal(words, w) == 0 }

  ghost function BackSeal(words: string -> Command, w: Command): nat {
    if w != [] && words(PrintCommand(w)) == w && WellLaid(words, Piece(PrintCommand(w), Semicolon)) then 0 else 1
  }

  ghost predicate PassesBlank(words: string -> Command) {
    words("\n") == [] && WellLaid(words, Piece("", Newline))
  }

  lemma CommandBack(lead: char, env: Environment, words: string -> Command, w: Command)
    requires Printable(w) && words == Splitter(lead, env)
    ensures ReadsBack(words, w)
  {
    ArgumentsOf(lead, env, w);
    WordsBack(w);
    CommandLaid(w);
    assert words(PrintCommand(w)) == w;
  }

  lemma BlankBack(lead: char, env: Environment, words: string -> Command)
    requires words == Splitter(lead, env)
    ensures PassesBlank(words)
  {
    assert "\n"[1..] == "";
    assert SkipBlanks("\n") == 1;
    assert "" + ";" == ";";
    assert Text(Piece("", Newline)) == "\n";
  }

  /** All pieces are well laid; sealed, see `Guard`. */
  ghost predicate AllLaid(words: string -> Command, pieces: seq<Piece>) { LaidSeal(words, pieces) == 0 }

  ghost function LaidSeal(words: string -> Command, pieces: seq<Piece>): nat {
    if forall j :: Open(j) ==> forall k :: 0 <= k < |pieces| ==> WellLaid(words, pieces[k]) then 0 else 1
  }

  lemma AllLaidEach(words: string -> Command, pieces: seq<Piece>)
    requires AllLaid(words, pieces)
    ensures forall k :: 0 <= k < |pieces| ==> WellLaid(words, pieces[k])
  {
    assert Open(0);
  }

  lemma AllLaidMore(words: string -> Command, x: Piece, y: Piece, rest: seq<Piece>)
    requires WellLaid(words, x) && WellLaid(words, y) && AllLaid(words, rest)
    ensures AllLaid(words, [x, y] + rest)
  {
    AllLaidEach(words, rest);
  }

  lemma {:induction false} LinesBack(words: string -> Command, cmds: seq<Command>)
    requires PassesBlank(words) && forall k :: 0 <= k < |cmds| ==> ReadsBack(words, cmds[k])
    ensures CommandsOf(words, Lines(cmds)) == cmds && AllLaid(words, Lines(cmds))
    decreases |cmds|
  {
    if cmds != [] {
      var w, rest := cmds[0], cmds[1..];
      LinesBack(words, rest);
      assert ReadsBack(words, w);
      LineBack(words, w, Lines(rest));
      assert cmds == [w] + rest;
    }
  }

  /** The line of one command, in front of others. */
  lemma {:induction false} LineBack(words: string -> Command, w: Command, rest: seq<Piece>)
    requires PassesBlank(words) && ReadsBack(words, w) && AllLaid(words, rest)
    ensures var pieces := [Piece(PrintCommand(w), Semicolon), Piece("", Newline)] + rest;
      CommandsOf(words, pieces) == [w] + CommandsOf(words, rest) && AllLaid(words, pieces)
  {
    var x, y := Piece(PrintCommand(w), Semicolon), Piece("", Newline);
    assert Text(y) == "\n";
    TwoPieces(words, x, y, rest);
    AllLaidMore(words, x, y, rest);
  }

  lemma {:induction false} TwoPieces(words: string -> Command, x: Piece, y: Piece, rest: seq<Piece>)
    requires words(CommandText(x)) != [] && words(CommandText(y)) == []
    ensures CommandsOf(words, [x, y] + rest) == [words(CommandText(x))] + CommandsOf(words, rest)
  {
    assert ([x, y] + rest)[1..] == [y] + rest && ([y] + rest)[1..] == rest;
    assert CommandsOf(words, [y] + rest) == [] + CommandsOf(words, rest) == CommandsOf(words, rest);
  }

  // ---------- the script ----------

  ghost predicate PrintableScript(ss: Stmts) {
    forall k :: 0 <= k < |FlattenAll(ss)| ==> Printable(FlattenAll(ss)[k])
  }

  /** A printed script is read back by the shell's splitter, whatever the variables are. */
  lemma {:induction false} PrintedBack(lead: char, env: Environment, words: string -> Command, cmds: seq<Command>)
    requires words == Splitter(lead, env) && forall k :: 0 <= k < |cmds| ==> Printable(cmds[k])
    ensures CommandsOf(words, Lines(cmds)) == cmds && AllLaid(words, Lines(cmds))
  {
    BlankBack(lead, env, words);
    forall k | 0 <= k < |cmds|
      ensures ReadsBack(words, cmds[k])
    {
      CommandBack(lead, env, words, cmds[k]);
    }
    LinesBack(words, cmds);
  }

  /** The pieces of a printed script: its commands, and ends of lines. */
  lemma {:induction false} PieceForm(cmds: seq<Command>, i: nat) returns (k: nat)
    requires i < |Lines(cmds)|
    ensures Lines(cmds)[i] == Piece("", Newline)
         || (k < |cmds| && Lines(cmds)[i] == Piece(PrintCommand(cmds[k]), Semicolon))
    decreases |cmds|
  {
    k := 0;
    if i >= 2 {
      var rest := cmds[1..];
      assert Lines(cmds)[i] == Lines(rest)[i - 2];
      var j := PieceForm(rest, i - 2);
      k := j + 1;
    }
  }

  /** They are read alike whatever the variables are. */
  lemma {:induction false} PieceAlike(lead: char, env: Environment, lead': char, env': Environment, cmds: seq<Command>,
                                      i: nat)
    requires i < |Lines(cmds)| && forall k :: 0 <= k < |cmds| ==> Printable(cmds[k])
    ensures var s := CommandText(Lines(cmds)[i]); Splitter(lead, env)(s) == Splitter(lead', env')(s)
  {
    var x := Lines(cmds)[i];
    var k := PieceForm(cmds, i);
    if x == Piece("", Newline) {
      BlankBack(lead, env, Splitter(lead, env));
      BlankBack(lead', env', Splitter(lead', env'));
      assert Text(x) == "\n";
    } else {
      CommandBack(lead, env, Splitter(lead, env), cmds[k]);
      CommandBack(lead', env', Splitter(lead', env'), cmds[k]);
    }
  }

  /** How the steps of a run split commands: step `k` has the variables `envs(k)`, and `leads(k)` stands
      in front of its buffer. */
  function Splitters(leads: nat -> char, envs: nat -> Environment): nat -> string -> Command {
    (k: nat) => Splitter(leads(k), envs(k))
  }

  /** Print, read and execute: whatever blanks, dollar signs, semicolons, comments or keywords its
      quoted arguments hold, and whatever the variables are in each step, a printed script within
      the limits is executed as its structure says. */
  lemma {:induction false} PrintedFaithful(leads: nat -> char, envs: nat -> Environment, ignore: bool, depth: nat,
                                           ss: Stmts, results: seq<bool>)
    requires IfDepthAll(ss) < depth && LoopDepthAll(ss) < depth
    requires BreaksPlacedAll(ss, false, false) && LoopsApartAll(ss, false) && PrintableScript(ss)
    ensures FaithfulWith(Readers(Splitters(leads, envs), Render(Lines(FlattenAll(ss)))), ignore,
                         Start(depth, results), EvalAll(ss, false, ignore, results))
  {
    var cmds, words := FlattenAll(ss), Splitter(leads(0), envs(0));
    PrintedBack(leads(0), envs(0), words, cmds);
    AllLaidEach(words, Lines(cmds));
    forall k, i | 0 <= i < |Lines(cmds)|
      ensures Splitters(leads, envs)(k)(CommandText(Lines(cmds)[i])) == words(CommandText(Lines(cmds)[i]))
    {
      PieceAlike(leads(k), envs(k), leads(0), envs(0), cmds, i);
    }
    FileFaithfulWith(Splitters(leads, envs), words, ignore, depth, ss, Lines(cmds), results);
  }

  // ---------- a loop head with a quotation mark ----------

  /** The words `while` and `t`, of which the second is in single quotes. */
  lemma HeadLine(t: string)
    ensures Head("while ", t) == CommandLine("while", [t])
  {
    assert [t][1..] == [];
    assert QuoteAll([t]) == " " + Quote(t) + "";
  }

  lemma {:induction false} HeadBack(lead: char, env: Environment, t: string)
    requires OneLine(t) && Canonical(Plain(t)) && t != ""
    ensures Splitter(lead, env)(Head("while ", t)) == LoopWords(false, [Plain(t)])
  {
    HeadLine(t);
    var ts := ["while"] + [t];
    assert PlainWord("while") && Quotable(t);
    ArgumentsBack(lead, "while", [t], env);
    var w := WordsIn(ts);
    assert w[0] == While && w[1] == Plain(t);
    assert w == LoopWords(false, [Plain(t)]);
  }

  lemma HeadParts(t: string)
    requires OneLine(t)
    ensures PlainPart("while ") && QuotedPart(t)
  {
    assert Unmarked("while ");
    UnmarkedLaid("while ");
    assert forall i :: 0 <= i < |t| ==> t[i] in t;
  }

  /** Such a loop: `while 'test'; do 'command'; done;`. */
  function LoopPieces(t: string, b: SimpleCommand): seq<Piece> {
    [Piece(Head("while ", t), Semicolon), Piece(PrintCommand([Do] + b), Semicolon),
     Piece(PrintCommand([Done]), Semicolon)]
  }

  lemma {:induction false} LoopWritten(lead: char, env: Environment, words: string -> Command, t: string,
                                       a: SimpleCommand, b: SimpleCommand)
    requires OneLine(t) && Canonical(Plain(t)) && t != "" && Printable([Do] + b)
    requires words == Splitter(lead, env) && a == [Plain(t)]
    ensures var x := LoopPieces(t, b);
      QuotedHead.Written(words, Render(x), "while ", t, x[1], x[2], a, b)
  {
    var x := LoopPieces(t, b);
    HeadBack(lead, env, t);
    HeadParts(t);
    CommandBack(lead, env, words, [Do] + b);
    DoneBack(lead, env, words);
    NothingBack(lead, env);
    ThreeRendered(x[0], x[1], x[2]);
  }

  lemma DoneBack(lead: char, env: Environment, words: string -> Command)
    requires words == Splitter(lead, env)
    ensures ReadsBack(words, [Done])
  {
    KeywordAlone(Done);
    CommandBack(lead, env, words, [Done]);
  }

  /** The shell itself is misled by every such loop: its words are read as they should be, and yet it
      is not executed as it says. */
  lemma {:induction false} ShellMisled(lead: char, env: Environment, words: string -> Command, depth: nat, t: string,
                                       a: SimpleCommand, b: SimpleCommand)
    requires depth >= 2 && OneLine(t) && Canonical(Plain(t)) && t != "" && Printable([Do] + b)
    requires words == Splitter(lead, env) && a == [Plain(t)]
    ensures CommandsOf(words, LoopPieces(t, b)) == FlattenAll(Body(a, b))
    ensures !Faithful(Reader(words, Render(LoopPieces(t, b))), false, Start(depth, [false, false, true]),
                      EvalAll(Body(a, b), false, false, [false, false, true]))
  {
    var x := LoopPieces(t, b);
    LoopWritten(lead, env, words, t, a, b);
    QuotedHeadMisses(words, depth, Render(x), "while ", t, x[1], x[2], a, b);
  }

  lemma NothingBack(lead: char, env: Environment)
    ensures Splitter(lead, env)("") == []
  {
    assert SkipBlanks("") == 0;
  }

  lemma ThreeRendered(x: Piece, y: Piece, z: Piece)
    ensures Render([x, y, z]) == Text(x) + Text(y) + Text(z)
  {
    assert [x, y, z][1..] == [y, z] && [y, z][1..] == [z] && [z][1..] == [];
    assert Render([z]) == Text(z) + "";
    assert Render([y, z]) == Text(y) + Text(z);
  }
}
