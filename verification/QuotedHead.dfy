/** A loop whose head has a quotation mark: the offset it saves is that of the last search in the
    line, so `done` comes back behind the quoted text instead of to the loop. This module has
    a family of such scripts, which shows that the limit `WellLaid` of script files cannot be
    dropped; `ScriptText.FetchPiece` says that the offset is right in all other cases. */
module QuotedHead {
  import opened CText
  import opened Guard
  import opened ControlState
  import opened Structured
  import opened Machine
  import opened Placement
  import opened Steps
  import opened Advance
  import opened ScriptTheorem
  import opened ScriptText
  import LineSplit

  /** The head of a loop that ends in a text in single quotes. */
  function Head(h: string, t: string): string { h + ("'" + t + "'") }

  predicate PlainPart(h: string) { NoQuotes(h) && forall i :: 0 <= i < |h| ==> h[i] != '\\' }

  predicate QuotedPart(t: string) { forall i :: 0 <= i < |t| ==> t[i] != '\'' && t[i] != '\\' && t[i] != '\n' }

  lemma {:induction false} FindClosing(s: string, from: nat, end: nat)
    requires from <= end < |s| && s[end] == '\'' && forall i :: from <= i < end ==> s[i] != '\'' && s[i] != '\\'
    ensures FindUnescaped(s, from, '\'', false) == Some(end)
    decreases end - from
  {
    if from < end {
      FindClosing(s, from + 1, end);
    }
  }

  /** The last search begins behind the quoted text. */
  lemma {:induction false} HeadScan(h: string, t: string, rest: string)
    requires PlainPart(h) && QuotedPart(t)
    ensures LineSplit.Scan(Head(h, t) + ";" + rest, 0) == LineSplit.Semicolon(|Head(h, t)|, |Head(h, t)|)
  {
    var s, n := Head(h, t) + ";" + rest, |Head(h, t)|;
    assert forall i :: 0 <= i < |h| ==> s[i] == h[i];
    assert s[|h|] == '\'' && s[n - 1] == '\'' && s[n] == ';';
    assert forall i :: |h| < i < n - 1 ==> s[i] == t[i - |h| - 1];
    assert LineSplit.LINE_SEPARATORS[1] == '\'' && LineSplit.LINE_SEPARATORS[3] == ';';
    SkipAll(s, 0, |h|);
    FindClosing(s, |h| + 1, n - 1);
    SkipAll(s, n, n);
    assert LineSplit.Scan(s, n) == LineSplit.Semicolon(n, n);
  }

  lemma HeadLaid(h: string, t: string)
    requires PlainPart(h) && QuotedPart(t)
    ensures Laid(Piece(Head(h, t), Semicolon))
  {
    var s := Head(h, t) + ";";
    HeadScan(h, t, "");
    assert s + "" == s;
    LineSplit.ScanIsSimple(s, 0);
    assert forall i :: 0 <= i < |h| ==> h[i] !in LineSplit.LINE_SEPARATORS;
    assert LineSplit.LINE_SEPARATORS[4] == '\n';
  }

  // ---------- the scripts ----------

  // while a; do b; done
  function Body(a: SimpleCommand, b: SimpleCommand): Stmts {
    Cons(LoopOver(false, a, Block(true, Cons(Run(b), Nil))), Nil)
  }

  lemma BodyFlat(a: SimpleCommand, b: SimpleCommand)
    ensures FlattenAll(Body(a, b)) == [LoopWords(false, a), [Do] + b, [Done]]
  {
    var block := Block(true, Cons(Run(b), Nil));
    assert FlattenBlock(Do, block) == [[Do] + b] + [];
    assert Flatten(LoopOver(false, a, block)) == [LoopWords(false, a)] + ([[Do] + b] + [[Done]]);
    assert FlattenAll(Body(a, b)) == Flatten(LoopOver(false, a, block)) + [];
  }

  lemma BodyMeans(a: SimpleCommand, b: SimpleCommand)
    ensures |EvalAll(Body(a, b), false, false, [false, false, true]).trace| == 3
  {
    var results: seq<bool> := [false, false, true];
    var block := Cons(Run(b), Nil);
    var last: seq<bool> := [true];
    assert results[1..] == [false, true] && [false, true][1..] == last;
    assert EvalAll(Nil, true, false, last) == Meaning([], Finished, last);
    assert EvalAll(block, true, false, [false, true]) == Meaning([Event(b, false)] + [], Finished, last);
    var s := LoopOver(false, a, Block(true, block));
    assert Eval(s, false, false, last) == Meaning([Event(a, true)], Finished, last[1..]);
    assert Eval(s, false, false, results).trace == [Event(a, false)] + ([Event(b, false)] + []) + [Event(a, true)];
  }

  /** The text of such a script, its `do b` in the piece `x` and its `done` in the piece `y`. */
  ghost predicate Written(words: string -> Command, text: string, h: string, t: string, x: Piece, y: Piece,
                          a: SimpleCommand, b: SimpleCommand) {
    && PlainPart(h) && QuotedPart(t) && Laid(x) && Laid(y)
    && text == Text(Piece(Head(h, t), Semicolon)) + Text(x) + Text(y)
    && words("") == [] && words(Head(h, t)) == LoopWords(false, a)
    && words(CommandText(x)) == [Do] + b && words(CommandText(y)) == [Done]
  }

  /** The head saves the offset `n` behind itself, where there is only its semicolon. */
  ghost predicate Misled(fetch: Image, n: nat, a: SimpleCommand, b: SimpleCommand) {
    && fetch(0) == Fetched(LoopWords(false, a), n, n + 1)
    && fetch(n).Fetched? && fetch(n).words == [] && fetch(n).next == n + 1
    && fetch(n + 1).Fetched? && fetch(n + 1).words == [Do] + b
    && fetch(fetch(n + 1).next).Fetched? && fetch(fetch(n + 1).next).words == [Done]
  }

  lemma {:induction false} Found(fetch: Image, words: string -> Command, text: string, h: string, t: string, x: Piece,
                                 y: Piece, a: SimpleCommand, b: SimpleCommand)
    requires Reads(fetch, words, text) && Written(words, text, h, t, x, y, a, b)
    ensures Misled(fetch, |Head(h, t)|, a, b)
  {
    var head, post := Text(Piece(Head(h, t), Semicolon)), Text(x) + Text(y);
    assert text == head + post;
    FoundHead(fetch, words, text, h, t, post, a);
    FoundSemicolon(fetch, words, text, Head(h, t), post);
    FoundRest(fetch, words, text, head, x, y);
  }

  lemma {:induction false} FoundRest(fetch: Image, words: string -> Command, text: string, pre: string, x: Piece,
                                     y: Piece)
    requires Reads(fetch, words, text) && Laid(x) && Laid(y) && text == pre + Text(x) + Text(y)
    ensures fetch(|pre|).Fetched? && fetch(|pre|).words == words(CommandText(x))
    ensures var g := fetch(fetch(|pre|).next); g.Fetched? && g.words == words(CommandText(y))
  {
    var next := pre + Text(x);
    LaidRead(fetch, words, text, pre, x, Text(y));
    assert text == next + Text(y) + "";
    LaidRead(fetch, words, text, next, y, "");
  }

  lemma {:induction false} FoundSemicolon(fetch: Image, words: string -> Command, text: string, pre: string,
                                          post: string)
    requires Reads(fetch, words, text) && text == pre + ";" + post
    ensures fetch(|pre|).Fetched? && fetch(|pre|).words == words("") && fetch(|pre|).next == |pre| + 1
  {
    var semi := Piece("", Semicolon);
    assert LineSplit.Separable("") by {
      assert "" + ";" == ";";
    }
    assert Text(semi) == ";";
    LaidRead(fetch, words, text, pre, semi, post);
  }

  lemma LaidRead(fetch: Image, words: string -> Command, text: string, pre: string, x: Piece, post: string)
    requires Reads(fetch, words, text) && Laid(x) && text == pre + Text(x) + post
    ensures fetch(|pre|).Fetched? && fetch(|pre|).words == words(CommandText(x))
    ensures fetch(|pre|).next == |pre + Text(x)|
  {
    assert Open(0);
    FetchPiece(words, pre, x, post);
  }

  lemma {:induction false} FoundHead(fetch: Image, words: string -> Command, text: string, h: string, t: string,
                                     post: string, a: SimpleCommand)
    requires Reads(fetch, words, text) && PlainPart(h) && QuotedPart(t)
    requires text == Text(Piece(Head(h, t), Semicolon)) + post && words(Head(h, t)) == LoopWords(false, a)
    ensures fetch(0) == Fetched(LoopWords(false, a), |Head(h, t)|, |Head(h, t)| + 1)
  {
    assert Open(0);
    var head := Piece(Head(h, t), Semicolon);
    HeadLaid(h, t);
    assert text == "" + Text(head) + post;
    var rest := LineOf("", head, post);
    HeadScan(h, t, rest);
    FirstFetched(words, text, Head(h, t), rest);
  }

  lemma {:induction false} FirstFetched(words: string -> Command, text: string, head: string, rest: string)
    requires text != "" && text[..LineEnd(text, 0)] == head + ";" + rest
    requires LineSplit.Scan(head + ";" + rest, 0) == LineSplit.Semicolon(|head|, |head|)
    ensures Fetch(words, text, 0) == Fetched(words(head), |head|, |head| + 1)
  {
    var line := head + ";" + rest;
    assert text[0..LineEnd(text, 0)] == line && line[..|head|] == head;
  }

  // ---------- what the shell does ----------

  lemma DoRejected(f: Fetched, m: Machine)
    requires Ready(m) && f.Fetched? && f.words != [] && f.words[0] == Do
    ensures StepOn(f, false, m) == m.(np := StepOn(f, false, m).np, pc := StepOn(f, false, m).pc, status := Failed)
  {
    assert m.trace + [] == m.trace;
  }

  /** One pass, up to `done`: the machine is behind the head. */
  lemma {:induction false} OnePass(fetch: Image, depth: nat, n: nat, a: SimpleCommand, b: SimpleCommand)
      returns (m': Machine)
    requires depth >= 2 && Misled(fetch, n, a, b)
    ensures Reaches(fetch, false, Start(depth, [false, false, true]), m')
    ensures Ready(m') && m'.pc == n && m'.trace == [Event(a, false), Event(b, false)]
  {
    var m := Start(depth, [false, false, true]);
    StepLoopHead(fetch(0), false, m, false, a);
    var m1 := LoopOpened(m, false, a, n, n + 1);
    Go(fetch, false, m, m1);
    m' := BodyAndDone(fetch, m1, n, b);
    ReachesTrans(fetch, false, m, m1, m');
    assert m'.trace == [Event(a, false)] + [Event(b, false)];
  }

  lemma {:induction false} BodyAndDone(fetch: Image, m: Machine, n: nat, b: SimpleCommand) returns (m': Machine)
    requires Opens(m, Do) && m.pc == n + 1 && m.np.lpndx == 1 && m.np.TopLoop().enable && m.np.TopLoop().topoffs == n
    requires m.np.ItefEnabled() && m.results != [] && !m.results[0]
    requires fetch(n + 1).Fetched? && fetch(n + 1).words == [Do] + b
    requires fetch(fetch(n + 1).next).Fetched? && fetch(fetch(n + 1).next).words == [Done]
    ensures Reaches(fetch, false, m, m')
    ensures Ready(m') && m'.pc == n && m'.trace == m.trace + [Event(b, false)]
  {
    LedPlain(fetch(n + 1), false, m, Lead.After(Do), b);
    var m2 := StepOn(fetch(n + 1), false, m);
    Go(fetch, false, m, m2);
    StepDone(fetch(m2.pc), false, m2);
    m' := StepOn(fetch(m2.pc), false, m2);
    Go(fetch, false, m2, m');
    ReachesTrans(fetch, false, m, m2, m');
  }

  /** Then it meets `do` without a loop, and fails. */
  lemma Misses(fetch: Image, depth: nat, n: nat, a: SimpleCommand, b: SimpleCommand)
    requires depth >= 2 && Misled(fetch, n, a, b)
    ensures !Faithful(fetch, false, Start(depth, [false, false, true]),
                      EvalAll(Body(a, b), false, false, [false, false, true]))
  {
    var m := Start(depth, [false, false, true]);
    var e := EvalAll(Body(a, b), false, false, [false, false, true]);
    var m1 := OnePass(fetch, depth, n, a, b);
    var m2 := m1.(pc := n + 1);
    BlankStep(fetch, false, m1, m2);
    ReachesTrans(fetch, false, m, m1, m2);
    DoRejected(fetch(n + 1), m2);
    var m3 := StepOn(fetch(n + 1), false, m2);
    Go(fetch, false, m2, m3);
    ReachesTrans(fetch, false, m, m2, m3);
    BodyMeans(a, b);
    forall x | Completes(fetch, false, m, e, x)
      ensures false
    {
      EndedBounds(fetch, false, m, m3, x);
    }
  }

  /** For all these scripts: the commands are those of the loop, one by one, and yet the file is not
      executed as the loop says. */
  lemma QuotedHeadMisses(words: string -> Command, depth: nat, text: string, h: string, t: string, x: Piece, y: Piece,
                         a: SimpleCommand, b: SimpleCommand)
    requires depth >= 2 && Written(words, text, h, t, x, y, a, b)
    ensures CommandsOf(words, [Piece(Head(h, t), Semicolon), x, y]) == FlattenAll(Body(a, b))
    ensures !Faithful(Reader(words, text), false, Start(depth, [false, false, true]),
                      EvalAll(Body(a, b), false, false, [false, false, true]))
  {
    var fetch := Reader(words, text);
    assert Reads(fetch, words, text);
    Found(fetch, words, text, h, t, x, y, a, b);
    Misses(fetch, depth, |Head(h, t)|, a, b);
    BodyFlat(a, b);
    ThreeCommands(words, Piece(Head(h, t), Semicolon), x, y);
  }

  lemma {:induction false} ThreeCommands(words: string -> Command, x: Piece, y: Piece, z: Piece)
    requires words(CommandText(x)) != [] && words(CommandText(y)) != [] && words(CommandText(z)) != []
    ensures CommandsOf(words, [x, y, z]) == [words(CommandText(x)), words(CommandText(y)), words(CommandText(z))]
  {
    assert [x, y, z][1..] == [y, z] && [y, z][1..] == [z] && [z][1..] == [];
    assert CommandsOf(words, [z]) == [words(CommandText(z))] + [];
    assert CommandsOf(words, [y, z]) == [words(CommandText(y))] + CommandsOf(words, [z]);
    assert CommandsOf(words, [x, y, z]) == [words(CommandText(x))] + CommandsOf(words, [y, z]);
  }
}
