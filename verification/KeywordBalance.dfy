/** The keywords that the shell accepts are balanced. This counts the words of the commands, without
    looking at the stacks: over every stream in which no keyword is rejected and no `break` is
    executed, the counts say how many records are open, and how far each of them is. */
module KeywordBalance {
  import opened ControlState
  import opened EnableCheck

  // ---------- counting words ----------

  datatype LoopCount = LoopCount(heads: nat, dos: nat, dones: nat)
  {
    function Plus(c: LoopCount): LoopCount { LoopCount(heads + c.heads, dos + c.dos, dones + c.dones) }
  }

  datatype IfCount = IfCount(ifs: nat, thens: nat, elses: nat, fis: nat)
  {
    function Plus(c: IfCount): IfCount { IfCount(ifs + c.ifs, thens + c.thens, elses + c.elses, fis + c.fis) }
  }

  const NO_LOOPS := LoopCount(0, 0, 0)
  const NO_IFS := IfCount(0, 0, 0, 0)

  function TallyLoop(words: Command): LoopCount {
    if words == [] then NO_LOOPS
    else match words[0]
      case While => LoopCount(1, 0, 0)
      case Until => LoopCount(1, 0, 0)
      case Do => LoopCount(0, 1, 0)
      case Done => LoopCount(0, 0, 1)
      case _ => NO_LOOPS
  }

  /** What follows a loop keyword in the same command; it may begin with another keyword. */
  function Behind(words: Command): Command {
    if words != [] && (words[0] == While || words[0] == Until || words[0] == Do || words[0] == Done) then words[1..]
    else words
  }

  function TallyIf(words: Command): IfCount {
    if words == [] then NO_IFS
    else match words[0]
      case If => IfCount(1, 0, 0, 0)
      case Then => IfCount(0, 1, 0, 0)
      case Else => IfCount(0, 0, 1, 0)
      case Fi => IfCount(0, 0, 0, 1)
      case _ => NO_IFS
  }

  function LoopsIn(stream: seq<Input>): LoopCount {
    if stream == [] then NO_LOOPS else TallyLoop(stream[0].words).Plus(LoopsIn(stream[1..]))
  }

  function IfsIn(stream: seq<Input>): IfCount {
    if stream == [] then NO_IFS else TallyIf(Behind(stream[0].words)).Plus(IfsIn(stream[1..]))
  }

  // ---------- streams without errors ----------

  /** The keywords of the command are accepted, and what is left of it is not a `break`. */
  predicate Accepted(np: Parser, c: Input) {
    var l := LoopToken(np, c.words, c.seekable, c.top);
    l.ok && var t := ItefToken(l.np, l.words); t.ok && (t.words == [] || t.words[0] != Break)
  }

  predicate AllAccepted(np: Parser, stream: seq<Input>, results: seq<bool>)
    decreases |stream|
  {
    if stream == [] then true
    else
      && Accepted(np, stream[0])
      && var r := ParseCommand(np, stream[0].words, stream[0].seekable, stream[0].top, results);
         AllAccepted(r.np, stream[1..], r.results)
  }

  // ---------- counting records ----------

  /** How many of the records up to `n` are in their `then` or `else` part. */
  function Thens(ie: seq<Itef>, n: nat): nat
    requires n < |ie|
  {
    if n == 0 then 0 else Thens(ie, n - 1) + if ie[n].state == ItefThen || ie[n].state == ItefElse then 1 else 0
  }

  function Elses(ie: seq<Itef>, n: nat): nat
    requires n < |ie|
  {
    if n == 0 then 0 else Elses(ie, n - 1) + if ie[n].state == ItefElse then 1 else 0
  }

  /** How many are in their body. */
  function Dos(lp: seq<Loop>, n: nat): nat
    requires n < |lp|
  {
    if n == 0 then 0 else Dos(lp, n - 1) + if lp[n].state == LoopDo then 1 else 0
  }

  lemma {:induction false} SameThens(a: seq<Itef>, b: seq<Itef>, n: nat)
    requires n < |a| && n < |b| && forall k :: 0 <= k <= n ==> a[k].state == b[k].state
    ensures Thens(a, n) == Thens(b, n) && Elses(a, n) == Elses(b, n)
  {
    if n > 0 {
      SameThens(a, b, n - 1);
    }
  }

  lemma {:induction false} SameDos(a: seq<Loop>, b: seq<Loop>, n: nat)
    requires n < |a| && n < |b| && forall k :: 0 <= k <= n ==> a[k].state == b[k].state
    ensures Dos(a, n) == Dos(b, n)
  {
    if n > 0 {
      SameDos(a, b, n - 1);
    }
  }

  ghost predicate IfsBalanced(np: Parser, c: IfCount) {
    && np.Safe(|np.ie|)
    && c.ifs == c.fis + np.iendx && c.thens == c.fis + Thens(np.ie, np.iendx)
    && c.elses <= c.fis + Elses(np.ie, np.iendx)
  }

  ghost predicate LoopsBalanced(np: Parser, c: LoopCount) {
    && np.Safe(|np.ie|)
    && c.heads == c.dones + np.lpndx && c.dos == c.dones + Dos(np.lp, np.lpndx)
  }

  // ---------- one keyword ----------

  /** The stack of the other kind is not touched. */
  lemma {:induction false} LoopsOnly(np: Parser, np': Parser, c: IfCount)
    requires IfsBalanced(np, c) && np'.ie == np.ie && np'.iendx == np.iendx && np'.Safe(|np.ie|)
    ensures IfsBalanced(np', c)
  {
  }

  lemma {:induction false} IfsOnly(np: Parser, np': Parser, c: LoopCount)
    requires LoopsBalanced(np, c) && np'.lp == np.lp && np'.lpndx == np.lpndx && np'.Safe(|np.ie|)
    ensures LoopsBalanced(np', c)
  {
  }

  lemma {:induction false} HeadBalanced(np: Parser, np': Parser, r: Loop, c: LoopCount)
    requires LoopsBalanced(np, c) && np.lpndx + 1 < |np.lp| && np'.Safe(|np.ie|) && r.state != LoopDo
    requires np'.lp == np.lp[np.lpndx + 1 := r] && np'.lpndx == np.lpndx + 1
    ensures LoopsBalanced(np', c.Plus(LoopCount(1, 0, 0)))
  {
    SameDos(np.lp, np'.lp, np.lpndx);
  }

  lemma {:induction false} DoBalanced(np: Parser, np': Parser, r: Loop, c: LoopCount)
    requires LoopsBalanced(np, c) && np.lpndx >= 1 && np'.Safe(|np.ie|) && r.state == LoopDo
    requires np.TopLoop().state != LoopDo && np'.lp == np.lp[np.lpndx := r] && np'.lpndx == np.lpndx
    ensures LoopsBalanced(np', c.Plus(LoopCount(0, 1, 0)))
  {
    SameDos(np.lp, np'.lp, np.lpndx - 1);
  }

  lemma {:induction false} DoneBalanced(np: Parser, np': Parser, r: Loop, c: LoopCount)
    requires LoopsBalanced(np, c) && np.lpndx >= 1 && np'.Safe(|np.ie|)
    requires np.TopLoop().state == LoopDo && np'.lp == np.lp[np.lpndx := r] && np'.lpndx == np.lpndx - 1
    ensures LoopsBalanced(np', c.Plus(LoopCount(0, 0, 1)))
  {
    SameDos(np.lp, np'.lp, np.lpndx - 1);
  }

  lemma {:induction false} LoopTokenBalanced(np: Parser, words: Command, seekable: bool, top: nat, c: LoopCount)
    requires LoopsBalanced(np, c) && LoopToken(np, words, seekable, top).ok
    ensures LoopsBalanced(LoopToken(np, words, seekable, top).np, c.Plus(TallyLoop(words)))
  {
    var np' := LoopToken(np, words, seekable, top).np;
    LoopTokenSafe(np, words, seekable, top, |np.ie|);
    if words != [] {
      match words[0]
      case While => HeadBalanced(np, np', np'.TopLoop(), c);
      case Until => HeadBalanced(np, np', np'.TopLoop(), c);
      case Do => DoBalanced(np, np', np'.TopLoop(), c);
      case Done => DoneBalanced(np, np', np'.lp[np.lpndx], c);
      case _ =>
    }
  }

  lemma {:induction false} LoopTokenWords(np: Parser, words: Command, seekable: bool, top: nat)
    requires np.Safe(|np.ie|)
    ensures var l := LoopToken(np, words, seekable, top);
      l.ok ==> l.words == Behind(words) && l.np.ie == np.ie && l.np.iendx == np.iendx && l.np.Safe(|np.ie|)
  {
    LoopTokenSafe(np, words, seekable, top, |np.ie|);
  }

  lemma {:induction false} IfBalanced(np: Parser, np': Parser, r: Itef, c: IfCount)
    requires IfsBalanced(np, c) && np.iendx + 1 < |np.ie| && np'.Safe(|np.ie|) && r.state == ItefIf
    requires np'.ie == np.ie[np.iendx + 1 := r] && np'.iendx == np.iendx + 1
    ensures IfsBalanced(np', c.Plus(IfCount(1, 0, 0, 0)))
  {
    SameThens(np.ie, np'.ie, np.iendx);
  }

  lemma {:induction false} ThenBalanced(np: Parser, np': Parser, r: Itef, c: IfCount)
    requires IfsBalanced(np, c) && np.iendx >= 1 && np'.Safe(|np.ie|) && r.state == ItefThen
    requires np.TopIf().state == ItefIf && np'.ie == np.ie[np.iendx := r] && np'.iendx == np.iendx
    ensures IfsBalanced(np', c.Plus(IfCount(0, 1, 0, 0)))
  {
    SameThens(np.ie, np'.ie, np.iendx - 1);
  }

  lemma {:induction false} ElseBalanced(np: Parser, np': Parser, r: Itef, c: IfCount)
    requires IfsBalanced(np, c) && np.iendx >= 1 && np'.Safe(|np.ie|) && r.state == ItefElse
    requires np.TopIf().state == ItefThen && np'.ie == np.ie[np.iendx := r] && np'.iendx == np.iendx
    ensures IfsBalanced(np', c.Plus(IfCount(0, 0, 1, 0)))
  {
    SameThens(np.ie, np'.ie, np.iendx - 1);
  }

  lemma {:induction false} FiBalanced(np: Parser, np': Parser, c: IfCount)
    requires IfsBalanced(np, c) && np.iendx >= 1 && np'.Safe(|np.ie|)
    requires np.TopIf().state == ItefThen || np.TopIf().state == ItefElse
    requires np'.ie == np.ie && np'.iendx == np.iendx - 1
    ensures IfsBalanced(np', c.Plus(IfCount(0, 0, 0, 1)))
  {
  }

  lemma {:induction false} OpeningBalanced(np: Parser, words: Command, c: IfCount)
    requires IfsBalanced(np, c) && ItefToken(np, words).ok && words != [] && words[0] in {If, Then}
    ensures IfsBalanced(ItefToken(np, words).np, c.Plus(TallyIf(words)))
  {
    var np' := ItefToken(np, words).np;
    ItefTokenSafe(np, words, |np.ie|);
    if words[0] == If {
      IfBalanced(np, np', np'.TopIf(), c);
    } else {
      ThenBalanced(np, np', np'.TopIf(), c);
    }
  }

  lemma {:induction false} ClosingBalanced(np: Parser, words: Command, c: IfCount)
    requires IfsBalanced(np, c) && ItefToken(np, words).ok && words != [] && words[0] in {Else, Fi}
    ensures IfsBalanced(ItefToken(np, words).np, c.Plus(TallyIf(words)))
  {
    var np' := ItefToken(np, words).np;
    ItefTokenSafe(np, words, |np.ie|);
    if words[0] == Else {
      ElseBalanced(np, np', np'.TopIf(), c);
    } else {
      FiBalanced(np, np', c);
    }
  }

  lemma {:induction false} ItefTokenBalanced(np: Parser, words: Command, c: IfCount)
    requires IfsBalanced(np, c) && ItefToken(np, words).ok
    ensures IfsBalanced(ItefToken(np, words).np, c.Plus(TallyIf(words)))
  {
    if words != [] && words[0] in {If, Then} {
      OpeningBalanced(np, words, c);
    } else if words != [] && words[0] in {Else, Fi} {
      ClosingBalanced(np, words, c);
    }
  }

  lemma {:induction false} ItefTokenLoops(np: Parser, words: Command)
    requires np.Safe(|np.ie|)
    ensures var np' := ItefToken(np, words).np; np'.lp == np.lp && np'.lpndx == np.lpndx && np'.Safe(|np.ie|)
  {
    ItefTokenSafe(np, words, |np.ie|);
  }

  lemma {:induction false} SavedBalanced(np: Parser, failed: bool, loops: LoopCount, ifs: IfCount)
    requires LoopsBalanced(np, loops) && IfsBalanced(np, ifs)
    ensures LoopsBalanced(SaveResult(np, failed).np, loops) && IfsBalanced(SaveResult(np, failed).np, ifs)
  {
    var np' := SaveResult(np, failed).np;
    SaveResultSafe(np, failed, |np.ie|);
    SameDos(np.lp, np'.lp, np.lpndx);
    SameThens(np.ie, np'.ie, np.iendx);
  }

  // ---------- one command ----------

  lemma {:induction false} ParseBalanced(np: Parser, i: Input, results: seq<bool>, loops: LoopCount, ifs: IfCount)
    requires LoopsBalanced(np, loops) && IfsBalanced(np, ifs) && Accepted(np, i)
    ensures var np' := ParseCommand(np, i.words, i.seekable, i.top, results).np;
      && LoopsBalanced(np', loops.Plus(TallyLoop(i.words)))
      && IfsBalanced(np', ifs.Plus(TallyIf(Behind(i.words))))
  {
    var l := LoopToken(np, i.words, i.seekable, i.top);
    var t := ItefToken(l.np, l.words);
    var loops', ifs' := loops.Plus(TallyLoop(i.words)), ifs.Plus(TallyIf(Behind(i.words)));
    LoopTokenWords(np, i.words, i.seekable, i.top);
    LoopTokenBalanced(np, i.words, i.seekable, i.top, loops);
    LoopsOnly(np, l.np, ifs);
    ItefTokenLoops(l.np, l.words);
    ItefTokenBalanced(l.np, l.words, ifs);
    IfsOnly(l.np, t.np, loops');
    ExecuteBalanced(t.np, t.words, results, loops', ifs');
  }

  lemma {:induction false} ExecuteBalanced(np: Parser, words: Command, results: seq<bool>, loops: LoopCount,
                                           ifs: IfCount)
    requires LoopsBalanced(np, loops) && IfsBalanced(np, ifs) && (words == [] || words[0] != Break)
    ensures words != [] ==>
      LoopsBalanced(Execute(np, words, results).np, loops) && IfsBalanced(Execute(np, words, results).np, ifs)
  {
    if words != [] && results != [] {
      SavedBalanced(np, results[0], loops, ifs);
    }
  }

  // ---------- streams ----------

  lemma {:induction false} AfterBalanced(np: Parser, stream: seq<Input>, results: seq<bool>, loops: LoopCount,
                                         ifs: IfCount)
    requires LoopsBalanced(np, loops) && IfsBalanced(np, ifs) && AllAccepted(np, stream, results)
    ensures var np' := After(np, stream, results);
      LoopsBalanced(np', loops.Plus(LoopsIn(stream))) && IfsBalanced(np', ifs.Plus(IfsIn(stream)))
    decreases |stream|
  {
    if stream != [] {
      var i := stream[0];
      ParseBalanced(np, i, results, loops, ifs);
      var r := ParseCommand(np, i.words, i.seekable, i.top, results);
      AfterBalanced(r.np, stream[1..], r.results, loops.Plus(TallyLoop(i.words)), ifs.Plus(TallyIf(Behind(i.words))));
    }
  }

  lemma {:induction false} InitialBalanced(depth: nat)
    requires depth >= 1
    ensures LoopsBalanced(Initial(depth), NO_LOOPS) && IfsBalanced(Initial(depth), NO_IFS)
  {
  }

  /** Over every stream in which all keywords are accepted: `if` and `fi` say how many ifs are open;
      there is one `then` for each `if` that is open behind it or closed, and no `else` too many;
      and likewise for `while`, `until`, `do` and `done`. */
  lemma {:induction false} KeywordsBalanced(depth: nat, stream: seq<Input>, results: seq<bool>)
    requires depth >= 1 && AllAccepted(Initial(depth), stream, results)
    ensures LoopsBalanced(After(Initial(depth), stream, results), LoopsIn(stream))
    ensures IfsBalanced(After(Initial(depth), stream, results), IfsIn(stream))
  {
    InitialBalanced(depth);
    AfterBalanced(Initial(depth), stream, results, NO_LOOPS, NO_IFS);
    PlusNothing(LoopsIn(stream), IfsIn(stream));
  }

  lemma PlusNothing(loops: LoopCount, ifs: IfCount)
    ensures NO_LOOPS.Plus(loops) == loops && NO_IFS.Plus(ifs) == ifs
  {
  }
}
