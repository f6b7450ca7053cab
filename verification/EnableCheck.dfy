/** Whether a command is enabled is decided by looking at the top record only. This module
    shows that the top record always carries the answer for the whole stack, over every
    stream of commands without loops, well formed or not. */
module EnableCheck {
  import opened ControlState

  /** The definition over the whole stack: every open `if` stands in its taken branch. */
  ghost predicate AllTaken(np: Parser, n: nat)
    requires n <= |np.ie|
  {
    forall k :: 0 <= k < n ==> TakesBranch(np.ie[k])
  }

  /** Each open record knows whether the records below it disable it. */
  ghost predicate Summarised(np: Parser) {
    && np.Safe(|np.ie|) && np.lpndx == 0
    && (forall k :: 1 <= k <= np.iendx ==> (np.ie[k].disabled <==> !AllTaken(np, k)))
    && (forall k :: 0 <= k < np.iendx ==> np.ie[k].state != ItefIf)
  }

  lemma SummarisedTop(np: Parser)
    requires Summarised(np)
    ensures np.ItefEnabled() <==> AllTaken(np, np.iendx + 1)
    ensures np.Enabled() == np.ItefEnabled()
  {
  }

  /** Changing the top record keeps the summary when `disabled` is kept. */
  lemma SetTop(np: Parser, r: Itef)
    requires Summarised(np) && np.iendx >= 1 && r.disabled == np.TopIf().disabled
    ensures Summarised(np.SetIf(np.iendx, r))
  {
    var np' := np.SetIf(np.iendx, r);
    forall k | 1 <= k <= np'.iendx
      ensures np'.ie[k].disabled <==> !AllTaken(np', k)
    {
      assert AllTaken(np', k) <==> AllTaken(np, k) by {
        assert forall j :: 0 <= j < k ==> np'.ie[j] == np.ie[j];
      }
    }
  }

  lemma PushTop(np: Parser, inverted: bool)
    requires Summarised(np) && np.TopIf().state != ItefIf && np.iendx + 1 < |np.ie|
    ensures Summarised(np.SetIf(np.iendx + 1, Itef(ItefIf, !np.Enabled(), false, inverted)))
  {
    SummarisedTop(np);
    var np' := np.SetIf(np.iendx + 1, Itef(ItefIf, !np.Enabled(), false, inverted));
    forall k | 1 <= k <= np'.iendx
      ensures np'.ie[k].disabled <==> !AllTaken(np', k)
    {
      assert AllTaken(np', k) <==> AllTaken(np, k) by {
        assert forall j :: 0 <= j < k ==> np'.ie[j] == np.ie[j];
      }
    }
  }

  lemma PopTop(np: Parser)
    requires Summarised(np) && np.iendx >= 1
    ensures Summarised(np.(iendx := np.iendx - 1))
  {
    var np' := np.(iendx := np.iendx - 1);
    forall k | 1 <= k <= np'.iendx
      ensures np'.ie[k].disabled <==> !AllTaken(np', k)
    {
      assert AllTaken(np', k) <==> AllTaken(np, k);
    }
  }

  lemma SaveResultSummarised(np: Parser, failed: bool)
    requires Summarised(np)
    ensures Summarised(SaveResult(np, failed).np)
  {
    if np.TopIf().state == ItefIf {
      SetTop(np, np.TopIf().(ifcond := np.TopIf().inverted != failed));
      SameIfs(np.SetIf(np.iendx, np.TopIf().(ifcond := np.TopIf().inverted != failed)), SaveResult(np, failed).np);
    } else {
      SameIfs(np, SaveResult(np, failed).np);
    }
  }

  /** The summary is about the `if` stack only. */
  lemma SameIfs(a: Parser, b: Parser)
    requires Summarised(a) && b.ie == a.ie && b.iendx == a.iendx && b.lpndx == 0 && b.Safe(|b.ie|)
    ensures Summarised(b)
  {
    forall k | 1 <= k <= b.iendx
      ensures b.ie[k].disabled <==> !AllTaken(b, k)
    {
      assert AllTaken(b, k) <==> AllTaken(a, k);
    }
  }

  lemma ErrorSummarised(np: Parser)
    requires Summarised(np)
    ensures Summarised(ItefError(np).np) && Summarised(LoopError(np).np)
  {
    SameIfs(np, LoopError(np).np);
  }

  lemma LoopTokenSummarised(np: Parser, words: Command, seekable: bool, top: nat)
    requires Summarised(np) && (words != [] ==> words[0] != While && words[0] != Until)
    ensures Summarised(LoopToken(np, words, seekable, top).np)
  {
    ErrorSummarised(np);
  }

  lemma ItefTokenSummarised(np: Parser, words: Command)
    requires Summarised(np)
    ensures Summarised(ItefToken(np, words).np)
  {
    ErrorSummarised(np);
    if words != [] {
      match words[0]
      case If =>
        if np.TopIf().state != ItefIf && np.iendx + 1 < |np.ie| {
          PushTop(np, |words| > 1 && words[1] == Bang);
        }
      case Then =>
        if np.TopIf().state == ItefIf {
          SetTop(np, np.TopIf().(state := ItefThen));
        }
      case Else =>
        if np.TopIf().state == ItefThen {
          SetTop(np, np.TopIf().(state := ItefElse));
        }
      case Fi =>
        if np.iendx >= 1 {
          PopTop(np);
        }
      case _ =>
    }
  }

  lemma ParseCommandSummarised(np: Parser, words: Command, seekable: bool, top: nat, results: seq<bool>)
    requires Summarised(np) && (words != [] ==> words[0] != While && words[0] != Until)
    ensures Summarised(ParseCommand(np, words, seekable, top, results).np)
  {
    var l := LoopToken(np, words, seekable, top);
    LoopTokenSummarised(np, words, seekable, top);
    SaveResultSummarised(l.np, true);
    if l.ok {
      var t := ItefToken(l.np, l.words);
      ItefTokenSummarised(l.np, l.words);
      SaveResultSummarised(t.np, true);
      if t.ok && t.words != [] {
        ExecuteSummarised(t.np, t.words, results);
      }
    }
  }

  lemma ExecuteSummarised(np: Parser, words: Command, results: seq<bool>)
    requires Summarised(np) && words != []
    ensures Summarised(Execute(np, words, results).np)
  {
    assert BreakCmd(np) == np;
    SaveResultSummarised(np, false);
    if results != [] {
      SaveResultSummarised(np, results[0]);
    }
  }

  /** A command of a stream, and where it comes from. */
  datatype Input = Input(words: Command, seekable: bool, top: nat)
  {
    predicate OpensLoop() {
      words != [] && (words[0] == While || words[0] == Until)
    }
  }

  /** The state after a stream of commands, errors or not. */
  function After(np: Parser, stream: seq<Input>, results: seq<bool>): Parser
    decreases |stream|
  {
    if stream == [] then np
    else
      var r := ParseCommand(np, stream[0].words, stream[0].seekable, stream[0].top, results);
      After(r.np, stream[1..], r.results)
  }

  lemma {:induction false} AfterSummarised(np: Parser, stream: seq<Input>, results: seq<bool>)
    requires Summarised(np) && forall i :: 0 <= i < |stream| ==> !stream[i].OpensLoop()
    ensures Summarised(After(np, stream, results))
    decreases |stream|
  {
    if stream != [] {
      var c := stream[0];
      ParseCommandSummarised(np, c.words, c.seekable, c.top, results);
      var r := ParseCommand(np, c.words, c.seekable, c.top, results);
      AfterSummarised(r.np, stream[1..], r.results);
    }
  }

  lemma InitialSummarised(depth: nat)
    requires depth >= 1
    ensures Summarised(Initial(depth))
  {
  }

  /** After every stream of commands without `while` and `until`, the check of the top record
      says whether all open ifs stand in their taken branch. */
  lemma {:induction false} EnabledExactly(depth: nat, stream: seq<Input>, results: seq<bool>)
    requires depth >= 1
    requires forall i :: 0 <= i < |stream| ==> !stream[i].OpensLoop()
    ensures var np := After(Initial(depth), stream, results);
            && np.iendx < |np.ie|
            && (np.ItefEnabled() <==> AllTaken(np, np.iendx + 1))
            && np.Enabled() == np.ItefEnabled()
  {
    InitialSummarised(depth);
    AfterSummarised(Initial(depth), stream, results);
    SummarisedTop(After(Initial(depth), stream, results));
  }

  /** Stack safety over every stream of commands, loops and breaks included, ill-nested or not:
      the indices stay inside the stacks, and the internal-error branches of `done` and
      `fi` (an open construct at index 0) are never taken. */
  lemma {:induction false} AfterSafe(np: Parser, stream: seq<Input>, results: seq<bool>, depth: nat)
    requires np.Safe(depth)
    ensures var np' := After(np, stream, results);
            && np'.Safe(depth)
            && (np'.TopLoop().state == LoopDo ==> np'.lpndx >= 1)
            && (np'.TopIf().state == ItefThen || np'.TopIf().state == ItefElse ==> np'.iendx >= 1)
    decreases |stream|
  {
    if stream != [] {
      var c := stream[0];
      ParseCommandSafe(np, c.words, c.seekable, c.top, results, depth);
      var r := ParseCommand(np, c.words, c.seekable, c.top, results);
      AfterSafe(r.np, stream[1..], r.results, depth);
    }
  }

  /** Stack safety over every stream a new shell may be given. */
  lemma {:induction false} StacksSafe(depth: nat, stream: seq<Input>, results: seq<bool>)
    requires depth >= 1
    ensures var np := After(Initial(depth), stream, results);
            && np.iendx < depth && np.lpndx < depth && |np.ie| == depth && |np.lp| == depth
            && np.ie[0] == NORMAL_ITEF && np.lp[0].state == LoopNormal
            && (np.TopLoop().state == LoopDo ==> np.lpndx >= 1)
            && (np.TopIf().state == ItefThen || np.TopIf().state == ItefElse ==> np.iendx >= 1)
  {
    AfterSafe(Initial(depth), stream, results, depth);
  }

  // ---------- commands that do not come from a file that can be sought ----------

  /** No loop is open, and the script stream is not moved. */
  predicate NoLoop(np: Parser) { np.lpndx == 0 && !np.jump }

  lemma NoLoopSaved(np: Parser, failed: bool)
    requires NoLoop(np)
    ensures NoLoop(SaveResult(np, failed).np)
  {
  }

  lemma NoLoopToken(np: Parser, words: Command, top: nat)
    requires NoLoop(np) && np.Safe(|np.ie|)
    ensures NoLoop(LoopToken(np, words, false, top).np)
  {
  }

  lemma NoLoopExecute(np: Parser, words: Command, results: seq<bool>)
    requires NoLoop(np) && np.Safe(|np.ie|) && words != []
    ensures NoLoop(Execute(np, words, results).np)
  {
    assert BreakCmd(np) == np;
    NoLoopSaved(np, false);
    if results != [] {
      NoLoopSaved(np, results[0]);
    }
  }

  lemma NoLoopParse(np: Parser, words: Command, top: nat, results: seq<bool>)
    requires NoLoop(np) && np.Safe(|np.ie|)
    ensures NoLoop(ParseCommand(np, words, false, top, results).np)
  {
    var l := LoopToken(np, words, false, top);
    NoLoopToken(np, words, top);
    NoLoopSaved(l.np, true);
    LoopTokenSafe(np, words, false, top, |np.ie|);
    if l.ok {
      var t := ItefToken(l.np, l.words);
      ItefTokenSafe(l.np, l.words, |np.ie|);
      NoLoopSaved(t.np, true);
      if t.ok && t.words != [] {
        NoLoopExecute(t.np, t.words, results);
      }
    }
  }

  lemma {:induction false} NoLoopAfter(np: Parser, stream: seq<Input>, results: seq<bool>)
    requires NoLoop(np) && np.Safe(|np.ie|) && forall i :: 0 <= i < |stream| ==> !stream[i].seekable
    ensures NoLoop(After(np, stream, results)) && After(np, stream, results).Safe(|np.ie|)
    decreases |stream|
  {
    if stream != [] {
      var c := stream[0];
      var r := ParseCommand(np, c.words, c.seekable, c.top, results);
      NoLoopParse(np, c.words, c.top, results);
      ParseCommandSafe(np, c.words, c.seekable, c.top, results, |np.ie|);
      NoLoopAfter(r.np, stream[1..], r.results);
    }
  }

  /** At a console no loop is ever opened, over every stream of commands; a command that begins with
      `while` or `until` executes nothing, and is an error unless an `if` waits for its condition. */
  lemma {:induction false} ConsoleLoops(depth: nat, stream: seq<Input>, results: seq<bool>, c: Input, more: seq<bool>)
    requires depth >= 1 && c.OpensLoop() && !c.seekable && forall i :: 0 <= i < |stream| ==> !stream[i].seekable
    ensures var np := After(Initial(depth), stream, results);
      var r := ParseCommand(np, c.words, false, c.top, more);
      && np.lpndx == 0 && !np.jump
      && r.events == [] && r.results == more && r.np.lpndx == 0 && !r.np.jump
      && r.ret == (if np.TopIf().state == ItefIf then Ok else Error)
  {
    NoLoopAfter(Initial(depth), stream, results);
    var np := After(Initial(depth), stream, results);
    NoLoopParse(np, c.words, c.top, more);
    assert !LoopToken(np, c.words, false, c.top).ok;
  }

  // ---------- when a loop or an `if` is opened ----------

  /** What does not change in the top loop record while its condition is awaited. */
  predicate SameHead(a: Parser, b: Parser) {
    a.lpndx == b.lpndx
    && a.TopLoop().state == b.TopLoop().state && a.TopLoop().iendx == b.TopLoop().iendx
    && a.TopLoop().topoffs == b.TopLoop().topoffs
  }

  lemma ItefKeepsHead(np: Parser, words: Command)
    ensures SameHead(np, ItefToken(np, words).np)
  {
  }

  lemma SavedKeepsHead(np: Parser, failed: bool)
    ensures SameHead(np, SaveResult(np, failed).np)
  {
  }

  lemma ExecuteKeepsHead(np: Parser, words: Command, results: seq<bool>)
    requires words != []
    ensures Execute(np, words, results).np.lpndx == np.lpndx
    ensures np.AwaitsCondition() ==> SameHead(np, Execute(np, words, results).np)
  {
    if words[0] == Break {
      SavedKeepsHead(BreakCmd(np), false);
    } else if results != [] {
      SavedKeepsHead(np, results[0]);
    }
  }

  predicate MayOpen(np: Parser, words: Command, seekable: bool) {
    && words != [] && (words[0] == While || words[0] == Until) && HasArgument(words[1..]) && seekable
    && np.TopIf().state != ItefIf && !np.AwaitsCondition() && np.lpndx + 1 < |np.lp|
  }

  ghost predicate HeadOf(np: Parser, np': Parser, words: Command, top: nat)
    requires words != []
  {
    && np'.lpndx == np.lpndx + 1 && np'.TopLoop().topoffs == top && np'.TopLoop().iendx == np.iendx
    && np'.TopLoop().state == if words[0] == While then LoopWhile else LoopUntil
  }

  lemma LoopTokenOpens(np: Parser, words: Command, seekable: bool, top: nat)
    requires np.Safe(|np.ie|)
    ensures var l := LoopToken(np, words, seekable, top);
      if MayOpen(np, words, seekable) then l.ok && HeadOf(np, l.np, words, top) else l.np.lpndx <= np.lpndx
  {
  }

  lemma RestKeepsHead(np: Parser, words: Command, seekable: bool, top: nat, results: seq<bool>)
    ensures var l := LoopToken(np, words, seekable, top);
      var np' := ParseCommand(np, words, seekable, top, results).np;
      np'.lpndx == l.np.lpndx && (l.ok && l.np.AwaitsCondition() ==> SameHead(l.np, np'))
  {
    var l := LoopToken(np, words, seekable, top);
    SavedKeepsHead(l.np, true);
    if l.ok {
      var t := ItefToken(l.np, l.words);
      ItefKeepsHead(l.np, l.words);
      SavedKeepsHead(t.np, true);
      if t.ok && t.words != [] {
        ExecuteKeepsHead(t.np, t.words, results);
      }
    }
  }

  /** A loop is opened exactly by `while` or `until` with a command, from a file that can be sought,
      where no condition is awaited and the stack has room. Its record has the kind, the offset
      and the `if` index. */
  lemma LoopOpensExactly(np: Parser, words: Command, seekable: bool, top: nat, results: seq<bool>)
    requires np.Safe(|np.ie|)
    ensures var np' := ParseCommand(np, words, seekable, top, results).np;
      && (np'.lpndx == np.lpndx + 1 <==> MayOpen(np, words, seekable))
      && (MayOpen(np, words, seekable) ==> HeadOf(np, np', words, top))
  {
    LoopTokenOpens(np, words, seekable, top);
    RestKeepsHead(np, words, seekable, top, results);
  }

  /** The exit status is that of the last command that was executed for itself, and not of one that was
      a condition: then it is 0. */
  lemma ExitStatus(np: Parser, words: SimpleWords, seekable: bool, top: nat, results: seq<bool>)
    requires np.Safe(|np.ie|) && results != [] && np.Enabled() && !np.AwaitsCondition() && np.TopIf().state != ItefIf
    ensures var r := ParseCommand(np, words, seekable, top, results);
      && r.np.fail == results[0] && (r.ret == Error <==> results[0])
      && r.events == [Event(words, results[0])] && r.results == results[1..]
  {
  }

  type SimpleWords = words: Command | words != [] && words[0].Plain? witness [Plain("true")]

  lemma ConditionStatus(np: Parser, words: SimpleWords, inverted: bool, seekable: bool, top: nat, results: seq<bool>)
    requires np.Safe(|np.ie|) && results != [] && np.Enabled() && !np.AwaitsCondition() && np.TopIf().state != ItefIf
    requires words[0].text != "" && np.iendx + 1 < |np.ie|
    ensures var r := ParseCommand(np, (if inverted then [If, Bang] else [If]) + words, seekable, top, results);
      && !r.np.fail && r.ret == Ok && r.events == [Event(words, results[0])]
      && r.np.iendx == np.iendx + 1
      && r.np.TopIf() == Itef(ItefIf, false, inverted != results[0], inverted)
  {
    var all := (if inverted then [If, Bang] else [If]) + words;
    assert (if inverted then all[2..] else all[1..]) == words;
  }
}
