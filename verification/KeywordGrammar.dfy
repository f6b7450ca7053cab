/** Which keywords are accepted does not depend on what the commands do. This follows the keywords on
    two stacks of phases, without conditions, results or enabled records, and shows that the parser
    state agrees with it after every stream of commands, rejected ones included. */
module KeywordGrammar {
  import opened ControlState
  import opened EnableCheck
  import opened KeywordBalance

  // ---------- the grammar ----------

  datatype IfPhase = BeforeThen | InThen | InElse
  datatype LoopPhase = BeforeDo | InBody

  /** The constructs that are open, the innermost one last. */
  datatype Shadow = Shadow(ifs: seq<IfPhase>, loops: seq<LoopPhase>)
  {
    predicate WantsThen() { ifs != [] && ifs[|ifs| - 1] == BeforeThen }
    predicate WantsDo() { loops != [] && loops[|loops| - 1] == BeforeDo }
  }

  const NOTHING_OPEN := Shadow([], [])

  /** The keyword is taken, and `rest` is what stands behind it; or it does not belong here. */
  datatype LoopVerdict = LoopTaken(loops: seq<LoopPhase>, rest: Command) | LoopRefused
  datatype IfVerdict = IfTaken(ifs: seq<IfPhase>, rest: Command) | IfRefused

  /** There is a command, and its first word is not empty. */
  predicate StartsCommand(words: Command) { |words| > 0 && words[0] != Plain("") }

  function TakeLoop(sh: Shadow, c: Input, depth: nat): LoopVerdict {
    if c.words == [] then LoopTaken(sh.loops, [])
    else
      var word, rest, n := c.words[0], c.words[1..], |sh.loops|;
      if word == While || word == Until then
        if c.seekable && StartsCommand(rest) && !sh.WantsThen() && !sh.WantsDo() && n + 1 < depth
        then LoopTaken(sh.loops + [BeforeDo], rest) else LoopRefused
      else if word == Do then
        if sh.WantsDo() then LoopTaken(sh.loops[..n - 1] + [InBody], rest) else LoopRefused
      else if word == Done then
        if rest == [] && n > 0 && !sh.WantsDo() then LoopTaken(sh.loops[..n - 1], []) else LoopRefused
      else if sh.WantsDo() then LoopRefused
      else LoopTaken(sh.loops, c.words)
  }

  function TakeIf(ifs: seq<IfPhase>, words: Command, depth: nat): IfVerdict {
    var n, wantsThen := |ifs|, ifs != [] && ifs[|ifs| - 1] == BeforeThen;
    if words == [] then IfTaken(ifs, [])
    else if words[0] == If then
      var rest := if |words| > 1 && words[1] == Bang then words[2..] else words[1..];
      if StartsCommand(rest) && !wantsThen && n + 1 < depth then IfTaken(ifs + [BeforeThen], rest) else IfRefused
    else if words[0] == Then then
      if wantsThen then IfTaken(ifs[..n - 1] + [InThen], words[1..]) else IfRefused
    else if words[0] == Else then
      if n > 0 && ifs[n - 1] == InThen then IfTaken(ifs[..n - 1] + [InElse], words[1..]) else IfRefused
    else if words[0] == Fi then
      if words == [Fi] && n > 0 && !wantsThen then IfTaken(ifs[..n - 1], []) else IfRefused
    else if wantsThen then IfRefused
    else IfTaken(ifs, words)
  }

  /** What a command makes of the open constructs: a refused loop keyword closes the loops, a refused
      `if` keyword the ifs. */
  function Follow(sh: Shadow, c: Input, depth: nat): Shadow {
    match TakeLoop(sh, c, depth)
    case LoopRefused => Shadow(sh.ifs, [])
    case LoopTaken(loops, rest) =>
      match TakeIf(sh.ifs, rest, depth)
      case IfRefused => Shadow([], loops)
      case IfTaken(ifs, _) => Shadow(ifs, loops)
  }

  predicate Taken(sh: Shadow, c: Input, depth: nat) {
    var l := TakeLoop(sh, c, depth);
    l.LoopTaken? && TakeIf(sh.ifs, l.rest, depth).IfTaken?
  }

  function FollowAll(sh: Shadow, stream: seq<Input>, depth: nat): Shadow
    decreases |stream|
  {
    if stream == [] then sh else FollowAll(Follow(sh, stream[0], depth), stream[1..], depth)
  }

  predicate AllTakenIn(sh: Shadow, stream: seq<Input>, depth: nat)
    decreases |stream|
  {
    stream == [] || (Taken(sh, stream[0], depth) && AllTakenIn(Follow(sh, stream[0], depth), stream[1..], depth))
  }

  predicate NoBreak(words: Command) { forall i :: 0 <= i < |words| ==> words[i] != Break }

  // ---------- the parser state agrees ----------

  function IfState(p: IfPhase): ItefState {
    match p case BeforeThen => ItefIf case InThen => ItefThen case InElse => ItefElse
  }

  predicate InPhase(r: Loop, p: LoopPhase) {
    if p == InBody then r.state == LoopDo else r.state == LoopWhile || r.state == LoopUntil
  }

  ghost predicate IfsAgree(ie: seq<Itef>, ifs: seq<IfPhase>) {
    |ifs| < |ie| && forall k :: 0 <= k < |ifs| ==> ie[k + 1].state == IfState(ifs[k])
  }

  ghost predicate LoopsAgree(lp: seq<Loop>, loops: seq<LoopPhase>) {
    |loops| < |lp| && forall k :: 0 <= k < |loops| ==> InPhase(lp[k + 1], loops[k])
  }

  /** The open records of `np` are the open constructs of `sh`, in the same phases. */
  ghost predicate Agrees(np: Parser, sh: Shadow, depth: nat) {
    && np.Safe(depth) && np.iendx == |sh.ifs| && np.lpndx == |sh.loops|
    && IfsAgree(np.ie, sh.ifs) && LoopsAgree(np.lp, sh.loops)
  }

  lemma TopsAgree(np: Parser, sh: Shadow, depth: nat)
    requires Agrees(np, sh, depth)
    ensures np.AwaitsCondition() <==> sh.WantsDo()
    ensures np.TopLoop().state == LoopDo <==> sh.loops != [] && sh.loops[|sh.loops| - 1] == InBody
    ensures np.TopIf().state == if sh.ifs == [] then ItefNormal else IfState(sh.ifs[|sh.ifs| - 1])
  {
    if sh.loops != [] {
      assert InPhase(np.lp[|sh.loops| - 1 + 1], sh.loops[|sh.loops| - 1]);
    }
    if sh.ifs != [] {
      assert np.ie[|sh.ifs| - 1 + 1].state == IfState(sh.ifs[|sh.ifs| - 1]);
    }
  }

  // One record is added, changed or taken away.

  lemma {:induction false} IfPushed(ie: seq<Itef>, ifs: seq<IfPhase>, r: Itef, p: IfPhase)
    requires IfsAgree(ie, ifs) && |ifs| + 1 < |ie| && r.state == IfState(p)
    ensures IfsAgree(ie[|ifs| + 1 := r], ifs + [p])
  {
  }

  lemma {:induction false} IfChanged(ie: seq<Itef>, ifs: seq<IfPhase>, r: Itef, p: IfPhase)
    requires IfsAgree(ie, ifs) && ifs != [] && r.state == IfState(p)
    ensures IfsAgree(ie[|ifs| := r], ifs[..|ifs| - 1] + [p])
  {
  }

  lemma {:induction false} LoopPushed(lp: seq<Loop>, loops: seq<LoopPhase>, r: Loop)
    requires LoopsAgree(lp, loops) && |loops| + 1 < |lp| && InPhase(r, BeforeDo)
    ensures LoopsAgree(lp[|loops| + 1 := r], loops + [BeforeDo])
  {
  }

  lemma {:induction false} LoopChanged(lp: seq<Loop>, loops: seq<LoopPhase>, r: Loop, p: LoopPhase)
    requires LoopsAgree(lp, loops) && loops != [] && InPhase(r, p)
    ensures LoopsAgree(lp[|loops| := r], loops[..|loops| - 1] + [p])
  {
  }

  lemma {:induction false} LoopClosed(lp: seq<Loop>, loops: seq<LoopPhase>, r: Loop)
    requires LoopsAgree(lp, loops) && loops != []
    ensures LoopsAgree(lp[|loops| := r], loops[..|loops| - 1])
  {
  }

  /** The keyword is accepted exactly when the grammar takes it. */
  lemma {:induction false} LoopDecided(np: Parser, sh: Shadow, c: Input, depth: nat)
    requires Agrees(np, sh, depth)
    ensures var l, v := LoopToken(np, c.words, c.seekable, c.top), TakeLoop(sh, c, depth);
      (l.ok <==> v.LoopTaken?) && (l.ok ==> l.words == v.rest)
  {
    TopsAgree(np, sh, depth);
  }

  lemma {:induction false} IfDecided(np: Parser, sh: Shadow, words: Command, depth: nat)
    requires Agrees(np, sh, depth)
    ensures var t, v := ItefToken(np, words), TakeIf(sh.ifs, words, depth);
      (t.ok <==> v.IfTaken?) && (t.ok ==> t.words == v.rest)
  {
    TopsAgree(np, sh, depth);
    if words != [] && words[0] == Fi {
      assert |words| == 1 <==> words == [Fi];
    }
  }

  /** `np'` is `np` with the open ifs `ifs`. */
  ghost predicate IfsBecome(np: Parser, np': Parser, ifs: seq<IfPhase>) {
    np'.lp == np.lp && np'.lpndx == np.lpndx && np'.iendx == |ifs| && IfsAgree(np'.ie, ifs)
  }

  ghost predicate LoopsBecome(np: Parser, np': Parser, loops: seq<LoopPhase>) {
    np'.ie == np.ie && np'.iendx == np.iendx && np'.lpndx == |loops| && LoopsAgree(np'.lp, loops)
  }

  lemma IfOpens(np: Parser, sh: Shadow, depth: nat, r: Itef, np': Parser)
    requires Agrees(np, sh, depth) && |sh.ifs| + 1 < depth && r.state == ItefIf && np' == np.SetIf(np.iendx + 1, r)
    ensures IfsBecome(np, np', sh.ifs + [BeforeThen])
  {
    IfPushed(np.ie, sh.ifs, r, BeforeThen);
  }

  lemma IfGoesOn(np: Parser, sh: Shadow, depth: nat, r: Itef, p: IfPhase, np': Parser)
    requires Agrees(np, sh, depth) && sh.ifs != [] && r.state == IfState(p) && np' == np.SetIf(np.iendx, r)
    ensures IfsBecome(np, np', sh.ifs[..|sh.ifs| - 1] + [p])
  {
    IfChanged(np.ie, sh.ifs, r, p);
  }

  lemma IfCloses(np: Parser, sh: Shadow, depth: nat, np': Parser)
    requires Agrees(np, sh, depth) && sh.ifs != [] && np' == np.(iendx := np.iendx - 1)
    ensures IfsBecome(np, np', sh.ifs[..|sh.ifs| - 1])
  {
  }

  lemma LoopOpens(np: Parser, sh: Shadow, depth: nat, r: Loop, np': Parser)
    requires Agrees(np, sh, depth) && |sh.loops| + 1 < depth && InPhase(r, BeforeDo)
    requires np' == np.(jump := false).SetLoop(np.lpndx + 1, r)
    ensures LoopsBecome(np, np', sh.loops + [BeforeDo])
  {
    LoopPushed(np.lp, sh.loops, r);
  }

  lemma LoopGoesOn(np: Parser, sh: Shadow, depth: nat, r: Loop, np': Parser)
    requires Agrees(np, sh, depth) && sh.loops != [] && r.state == LoopDo && np' == np.SetLoop(np.lpndx, r)
    ensures LoopsBecome(np, np', sh.loops[..|sh.loops| - 1] + [InBody])
  {
    LoopChanged(np.lp, sh.loops, r, InBody);
  }

  lemma LoopCloses(np: Parser, sh: Shadow, depth: nat)
    requires Agrees(np, sh, depth) && sh.loops != []
    ensures LoopsBecome(np, CloseLoop(np), sh.loops[..|sh.loops| - 1])
  {
    LoopClosed(np.lp, sh.loops, CloseLoop(np).lp[np.lpndx]);
  }

  lemma {:induction false} LoopAgrees(np: Parser, sh: Shadow, c: Input, depth: nat)
    requires Agrees(np, sh, depth) && LoopToken(np, c.words, c.seekable, c.top).ok && TakeLoop(sh, c, depth).LoopTaken?
    ensures LoopsBecome(np, LoopToken(np, c.words, c.seekable, c.top).np, TakeLoop(sh, c, depth).loops)
  {
    TopsAgree(np, sh, depth);
    var np' := LoopToken(np, c.words, c.seekable, c.top).np;
    if c.words != [] {
      match c.words[0]
      case While => LoopOpens(np, sh, depth, Loop(LoopWhile, np.Enabled(), np.iendx, c.top), np');
      case Until => LoopOpens(np, sh, depth, Loop(LoopUntil, np.Enabled(), np.iendx, c.top), np');
      case Do => LoopGoesOn(np, sh, depth, np.TopLoop().(state := LoopDo), np');
      case Done => LoopCloses(np, sh, depth);
      case _ =>
    }
  }

  lemma {:induction false} IfAgrees(np: Parser, sh: Shadow, words: Command, depth: nat)
    requires Agrees(np, sh, depth) && ItefToken(np, words).ok && TakeIf(sh.ifs, words, depth).IfTaken?
    ensures IfsBecome(np, ItefToken(np, words).np, TakeIf(sh.ifs, words, depth).ifs)
  {
    if words != [] && words[0] == If {
      OpeningAgrees(np, sh, words, depth);
    } else if words != [] {
      TopsAgree(np, sh, depth);
      var np' := ItefToken(np, words).np;
      match words[0]
      case Then => IfGoesOn(np, sh, depth, np.TopIf().(state := ItefThen), InThen, np');
      case Else => IfGoesOn(np, sh, depth, np.TopIf().(state := ItefElse), InElse, np');
      case Fi => IfCloses(np, sh, depth, np');
      case _ =>
    }
  }

  lemma {:induction false} OpeningAgrees(np: Parser, sh: Shadow, words: Command, depth: nat)
    requires Agrees(np, sh, depth) && words != [] && words[0] == If
    requires ItefToken(np, words).ok && TakeIf(sh.ifs, words, depth).IfTaken?
    ensures IfsBecome(np, ItefToken(np, words).np, TakeIf(sh.ifs, words, depth).ifs)
  {
    var r := Itef(ItefIf, !np.Enabled(), false, |words| > 1 && words[1] == Bang);
    IfOpens(np, sh, depth, r, ItefToken(np, words).np);
  }

  lemma {:induction false} LoopRejects(np: Parser, sh: Shadow, c: Input, depth: nat)
    requires Agrees(np, sh, depth) && !LoopToken(np, c.words, c.seekable, c.top).ok
    ensures LoopsBecome(np, LoopToken(np, c.words, c.seekable, c.top).np, [])
  {
    assert LoopToken(np, c.words, c.seekable, c.top) == LoopError(np);
  }

  lemma {:induction false} IfRejects(np: Parser, sh: Shadow, words: Command, depth: nat)
    requires Agrees(np, sh, depth) && !ItefToken(np, words).ok
    ensures IfsBecome(np, ItefToken(np, words).np, [])
  {
    assert ItefToken(np, words) == ItefError(np);
  }

  lemma {:induction false} SavedAgrees(np: Parser, failed: bool, sh: Shadow, depth: nat)
    requires Agrees(np, sh, depth)
    ensures Agrees(SaveResult(np, failed).np, sh, depth)
  {
    SaveResultSafe(np, failed, depth);
  }

  lemma {:induction false} RestNoBreak(sh: Shadow, c: Input, depth: nat)
    requires NoBreak(c.words)
    ensures var l := TakeLoop(sh, c, depth);
      l.LoopTaken? ==> NoBreak(l.rest) && (TakeIf(sh.ifs, l.rest, depth).IfTaken? ==>
                                             NoBreak(TakeIf(sh.ifs, l.rest, depth).rest))
  {
  }

  /** One command: it is accepted when the grammar takes it, and then or not the open records are those
      of the grammar. A command that is refused executes nothing. */
  lemma {:induction false} CommandAgrees(np: Parser, sh: Shadow, c: Input, results: seq<bool>, depth: nat)
    requires Agrees(np, sh, depth) && NoBreak(c.words)
    ensures var r := ParseCommand(np, c.words, c.seekable, c.top, results);
      && Agrees(r.np, Follow(sh, c, depth), depth)
      && (Accepted(np, c) <==> Taken(sh, c, depth))
      && (!Taken(sh, c, depth) ==> r.events == [] && r.results == results)
  {
    var l, v := LoopToken(np, c.words, c.seekable, c.top), TakeLoop(sh, c, depth);
    LoopDecided(np, sh, c, depth);
    LoopTokenSafe(np, c.words, c.seekable, c.top, depth);
    RestNoBreak(sh, c, depth);
    if l.ok {
      LoopAgrees(np, sh, c, depth);
      BehindLoop(l.np, Shadow(sh.ifs, v.loops), l.words, results, depth);
    } else {
      LoopRejects(np, sh, c, depth);
      SavedAgrees(l.np, true, Shadow(sh.ifs, []), depth);
    }
  }

  /** What is left of the command behind a loop keyword. */
  lemma {:induction false} BehindLoop(np: Parser, sh: Shadow, words: Command, results: seq<bool>, depth: nat)
    requires Agrees(np, sh, depth) && var v := TakeIf(sh.ifs, words, depth); v.IfTaken? ==> NoBreak(v.rest)
    ensures var t, v := ItefToken(np, words), TakeIf(sh.ifs, words, depth);
      && (t.ok <==> v.IfTaken?) && (t.ok ==> t.words == v.rest)
      && (t.ok ==> Agrees(t.np, Shadow(v.ifs, sh.loops), depth))
      && (t.ok && t.words != [] ==> Agrees(Execute(t.np, t.words, results).np, Shadow(v.ifs, sh.loops), depth))
      && (!t.ok ==> Agrees(SaveResult(t.np, true).np, Shadow([], sh.loops), depth))
  {
    var t, v := ItefToken(np, words), TakeIf(sh.ifs, words, depth);
    IfDecided(np, sh, words, depth);
    ItefTokenSafe(np, words, depth);
    if t.ok {
      IfAgrees(np, sh, words, depth);
      ExecuteAgrees(t.np, t.words, results, Shadow(v.ifs, sh.loops), depth);
    } else {
      IfRejects(np, sh, words, depth);
      SavedAgrees(t.np, true, Shadow([], sh.loops), depth);
    }
  }

  lemma ExecuteAgrees(np: Parser, words: Command, results: seq<bool>, sh: Shadow, depth: nat)
    requires Agrees(np, sh, depth) && NoBreak(words)
    ensures words != [] ==> Agrees(Execute(np, words, results).np, sh, depth)
  {
    if words != [] && results != [] {
      SavedAgrees(np, results[0], sh, depth);
    }
  }

  lemma {:induction false} StreamAgrees(np: Parser, sh: Shadow, stream: seq<Input>, results: seq<bool>, depth: nat)
    requires Agrees(np, sh, depth) && forall i :: 0 <= i < |stream| ==> NoBreak(stream[i].words)
    ensures Agrees(After(np, stream, results), FollowAll(sh, stream, depth), depth)
    ensures AllAccepted(np, stream, results) <==> AllTakenIn(sh, stream, depth)
    decreases |stream|
  {
    if stream != [] {
      var c := stream[0];
      CommandAgrees(np, sh, c, results, depth);
      var r := ParseCommand(np, c.words, c.seekable, c.top, results);
      StreamAgrees(r.np, Follow(sh, c, depth), stream[1..], r.results, depth);
    }
  }

  /** After every stream without `break`, whatever its commands return: the open records are those that
      the grammar says, and all keywords are accepted if and only if the grammar takes them. */
  lemma {:induction false} GrammarDecides(depth: nat, stream: seq<Input>, results: seq<bool>)
    requires depth >= 1 && forall i :: 0 <= i < |stream| ==> NoBreak(stream[i].words)
    ensures Agrees(After(Initial(depth), stream, results), FollowAll(NOTHING_OPEN, stream, depth), depth)
    ensures AllAccepted(Initial(depth), stream, results) <==> AllTakenIn(NOTHING_OPEN, stream, depth)
  {
    StreamAgrees(Initial(depth), NOTHING_OPEN, stream, results, depth);
  }
}
