/** The meaning that the machine gives to a script. It looks at the top loop record only, so a loop that
    stands directly in the body of a loop is executed also where the body is passed over: in
    a loop that is not entered, and behind a `break`. All else is as the structure says. */
module Leaks {
  import opened ControlState
  import opened Structured

  function Act(s: Stmt, inLoop: bool, ignore: bool, results: seq<bool>): (m: Meaning)
    ensures |m.rest| <= |results|
    decreases |results|, s, 1
  {
    match s
    case IfElse(inverted, cond, thn, els) =>
      if results == [] then Meaning([], OutOfResults, [])
      else
        var chosen := if results[0] == inverted then thn.stmts else ElseStmts(els);
        ActAll(chosen, inLoop, ignore, results[1..]).After([Event(cond, results[0])])
    case LoopOver(_, _, _) => ActLoop(s, ignore, results)
    case _ => Eval(s, inLoop, ignore, results)
  }

  function ActLoop(s: Stmt, ignore: bool, results: seq<bool>): (m: Meaning)
    requires s.LoopOver?
    ensures |m.rest| <= |results| && m.end != Broke
    decreases |results|, s, 0
  {
    if results == [] then Meaning([], OutOfResults, [])
    else if results[0] != s.until then
      LeakAll(s.body.stmts, ignore, results[1..]).After([Event(s.cond, results[0])])
    else
      var pass := ActAll(s.body.stmts, true, ignore, results[1..]).After([Event(s.cond, results[0])]);
      match pass.end
      case Finished => ActLoop(s, ignore, pass.rest).After(pass.trace)
      case Broke => pass.(end := Finished)
      case _ => pass
  }

  function ActAll(ss: Stmts, inLoop: bool, ignore: bool, results: seq<bool>): (m: Meaning)
    ensures |m.rest| <= |results|
    decreases |results|, ss, 0
  {
    match ss
    case Nil => Meaning([], Finished, results)
    case Cons(s, tail) =>
      var first := Act(s, inLoop, ignore, results);
      match first.end
      case Finished => ActAll(tail, inLoop, ignore, first.rest).After(first.trace)
      case Broke => AfterBreak(first, LeakAll(tail, ignore, first.rest))
      case _ => first
  }

  function AfterBreak(first: Meaning, rest: Meaning): Meaning {
    Meaning(first.trace + rest.trace, if rest.end == Finished then Broke else rest.end, rest.rest)
  }

  /** Statements that are passed over, in the body of a loop that is left. */
  function LeakAll(ss: Stmts, ignore: bool, results: seq<bool>): (m: Meaning)
    ensures |m.rest| <= |results| && m.end != Broke
    decreases |results|, ss, 0
  {
    match ss
    case Nil => Meaning([], Finished, results)
    case Cons(s, tail) =>
      if s.LoopOver? then
        var first := ActLoop(s, ignore, results);
        if first.end == Finished then LeakAll(tail, ignore, first.rest).After(first.trace) else first
      else LeakAll(tail, ignore, results)
  }

  // ---------- breaks ----------

  /** Only a `break` that stands directly in a loop ends statements with a break. */
  lemma {:induction false} NoBreak(s: Stmt, inLoop: bool, ignore: bool, results: seq<bool>)
    requires inLoop ==> BreaksPlaced(s, true, true)
    ensures Act(s, inLoop, ignore, results).end != Broke
    decreases |results|, s
  {
    if s.IfElse? && results != [] {
      NoBreakAll(if results[0] == s.inverted then s.thn.stmts else ElseStmts(s.els), inLoop, ignore, results[1..]);
    }
  }

  lemma {:induction false} NoBreakAll(ss: Stmts, inLoop: bool, ignore: bool, results: seq<bool>)
    requires inLoop ==> BreaksPlacedAll(ss, true, true)
    ensures ActAll(ss, inLoop, ignore, results).end != Broke
    decreases |results|, ss
  {
    if ss.Cons? {
      NoBreak(ss.head, inLoop, ignore, results);
      NoBreakAll(ss.tail, inLoop, ignore, Act(ss.head, inLoop, ignore, results).rest);
    }
  }

  /** In particular a break occurs in a loop, and under no `if` of it. */
  lemma {:induction false} WhereBroke(s: Stmt, inLoop: bool, underIf: bool, ignore: bool, results: seq<bool>)
    requires BreaksPlaced(s, inLoop, underIf) && Act(s, inLoop, ignore, results).end == Broke
    ensures inLoop && !underIf
  {
    if !inLoop || underIf {
      NoBreak(s, inLoop, ignore, results);
    }
  }

  // ---------- where nothing leaks ----------

  lemma {:induction false} NothingLeaks(ss: Stmts, ignore: bool, results: seq<bool>)
    requires NoDirectLoop(ss)
    ensures LeakAll(ss, ignore, results) == Meaning([], Finished, results)
  {
    if ss.Cons? {
      NothingLeaks(ss.tail, ignore, results);
    }
  }

  /** Without a loop directly in the body of a loop, the machine does what the structure says. */
  lemma {:induction false} ActsAsMeant(s: Stmt, inLoop: bool, underIf: bool, ignore: bool, results: seq<bool>)
    requires BreaksPlaced(s, inLoop, underIf) && LoopsApart(s, inLoop)
    ensures Act(s, inLoop, ignore, results) == Eval(s, inLoop, ignore, results)
    decreases |results|, s
  {
    match s
    case Run(_) =>
    case BreakLoop =>
    case IfElse(_, _, thn, els) =>
      if results != [] {
        var chosen := if results[0] == s.inverted then thn.stmts else ElseStmts(els);
        ActsAsMeantAll(chosen, inLoop, true, ignore, results[1..]);
      }
    case LoopOver(_, _, _) => LoopActsAsMeant(s, inLoop, underIf, ignore, results);
  }

  lemma {:induction false} LoopActsAsMeant(s: Stmt, inLoop: bool, underIf: bool, ignore: bool, results: seq<bool>)
    requires s.LoopOver? && BreaksPlaced(s, inLoop, underIf) && LoopsApart(s, inLoop)
    ensures ActLoop(s, ignore, results) == Eval(s, inLoop, ignore, results)
    decreases |results|, s, 0
  {
    if results != [] && results[0] != s.until {
      NothingLeaks(s.body.stmts, ignore, results[1..]);
    } else if results != [] {
      ActsAsMeantAll(s.body.stmts, true, false, ignore, results[1..]);
      var pass := EvalAll(s.body.stmts, true, ignore, results[1..]);
      if pass.end == Finished {
        LoopActsAsMeant(s, inLoop, underIf, ignore, pass.rest);
      }
    }
  }

  lemma {:induction false} ActsAsMeantAll(ss: Stmts, inLoop: bool, underIf: bool, ignore: bool, results: seq<bool>)
    requires BreaksPlacedAll(ss, inLoop, underIf) && LoopsApartAll(ss, inLoop)
    requires inLoop && !underIf ==> NoDirectLoop(ss)
    ensures ActAll(ss, inLoop, ignore, results) == EvalAll(ss, inLoop, ignore, results)
    decreases |results|, ss
  {
    if ss.Cons? {
      var first := Act(ss.head, inLoop, ignore, results);
      ActsAsMeant(ss.head, inLoop, underIf, ignore, results);
      if first.end == Finished {
        ActsAsMeantAll(ss.tail, inLoop, underIf, ignore, first.rest);
      } else if first.end == Broke {
        WhereBroke(ss.head, inLoop, underIf, ignore, results);
        NothingLeaks(ss.tail, ignore, first.rest);
      }
    }
  }

  // ---------- scripts without a loop inside a loop ----------

  lemma {:induction false} DepthApart(s: Stmt, inLoop: bool)
    requires LoopDepth(s) <= 1
    ensures LoopsApart(s, inLoop)
  {
    match s
    case Run(_) =>
    case BreakLoop =>
    case IfElse(_, _, thn, els) =>
      DepthApartAll(thn.stmts, inLoop);
      if els.ElseBranch? {
        DepthApartAll(els.block.stmts, inLoop);
      }
    case LoopOver(_, _, body) => DepthApartAll(body.stmts, true);
  }

  lemma {:induction false} DepthApartAll(ss: Stmts, inLoop: bool)
    requires LoopDepthAll(ss) <= 1
    ensures LoopsApartAll(ss, inLoop) && (LoopDepthAll(ss) == 0 ==> NoDirectLoop(ss))
  {
    if ss.Cons? {
      DepthApart(ss.head, inLoop);
      DepthApartAll(ss.tail, inLoop);
    }
  }

  lemma {:induction false} FlatPlaced(ss: Stmts)
    requires LoopDepthAll(ss) == 0
    ensures LoopsPlaced(ss)
  {
    if ss.Cons? {
      FlatPlaced(ss.tail);
    }
  }
}
