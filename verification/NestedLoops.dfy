/** A loop directly in the body of a loop: the condition of the inner loop is executed even
    when the outer loop is not entered. This module shows that the limit `LoopsApart` of
    the main theorem is exact: a script that breaks it has results for its commands that
    are just enough for the structured interpreter, and too few for the machine. */
module NestedLoops {
  import opened ControlState
  import opened Structured
  import opened Leaks
  import opened Machine
  import opened ScriptTheorem

  // ---------- the fewest results ----------

  /** The fewest results on which a statement runs to its end. */
  function Shortest(s: Stmt, inLoop: bool): seq<bool> {
    match s
    case Run(_) => [false]
    case BreakLoop => []
    case IfElse(inverted, _, thn, els) =>
      var t := ShortestAll(thn.stmts, inLoop);
      var e := match els case NoElse => [] case ElseBranch(b) => ShortestAll(b.stmts, inLoop);
      if |t| <= |e| then [inverted] + t else [!inverted] + e
    case LoopOver(until, _, _) => [!until]
  }

  /** Likewise for statements, up to a `break` out of the loop they stand in. */
  function ShortestAll(ss: Stmts, inLoop: bool): seq<bool> {
    match ss
    case Nil => []
    case Cons(s, tail) => Shortest(s, inLoop) + if s.BreakLoop? && inLoop then [] else ShortestAll(tail, inLoop)
  }

  predicate HasBreak(ss: Stmts) {
    match ss
    case Nil => false
    case Cons(s, tail) => s.BreakLoop? || HasBreak(tail)
  }

  /** How statements end that are not cut short. */
  function PlainEnd(ss: Stmts, inLoop: bool): End { if inLoop && HasBreak(ss) then Broke else Finished }

  lemma {:induction false} NoBreakUnderIf(ss: Stmts)
    requires BreaksPlacedAll(ss, true, true)
    ensures !HasBreak(ss)
  {
    if ss.Cons? {
      NoBreakUnderIf(ss.tail);
    }
  }

  lemma {:induction false} BrokeHasBreak(ss: Stmts, ignore: bool, results: seq<bool>)
    requires BreaksPlacedAll(ss, true, false) && ActAll(ss, true, ignore, results).end == Broke
    ensures HasBreak(ss)
    decreases ss
  {
    var first := Act(ss.head, true, ignore, results);
    if !ss.head.BreakLoop? {
      NoBreak(ss.head, true, ignore, results);
      BrokeHasBreak(ss.tail, ignore, first.rest);
    }
  }

  // ---------- they are enough for the structured interpreter ----------

  lemma {:induction false} ShortestMeans(s: Stmt, inLoop: bool, underIf: bool, ignore: bool, more: seq<bool>)
    requires inLoop ==> BreaksPlaced(s, true, underIf)
    ensures var e := Eval(s, inLoop, ignore, Shortest(s, inLoop) + more);
      e.rest == more && e.end == if s.BreakLoop? && inLoop then Broke else Finished
    decreases s
  {
    match s
    case Run(_) => assert (Shortest(s, inLoop) + more)[1..] == more;
    case BreakLoop => assert Shortest(s, inLoop) + more == more;
    case IfElse(_, _, thn, els) =>
      ShortestChosen(s, inLoop, more);
      if |ShortestAll(thn.stmts, inLoop)| <= |ShortestAll(ElseStmts(els), inLoop)| {
        ShortestBranch(thn.stmts, inLoop, ignore, more);
      } else if els.ElseBranch? {
        ShortestBranch(els.block.stmts, inLoop, ignore, more);
      } else {
        assert [] + more == more;
      }
    case LoopOver(_, _, _) => assert (Shortest(s, inLoop) + more)[1..] == more;
  }

  lemma FirstResult(x: bool, t: seq<bool>, more: seq<bool>)
    ensures ([x] + t + more)[0] == x && ([x] + t + more)[1..] == t + more
  {
  }

  /** A branch of an `if`. */
  lemma {:induction false} ShortestBranch(ss: Stmts, inLoop: bool, ignore: bool, more: seq<bool>)
    requires inLoop ==> BreaksPlacedAll(ss, true, true)
    ensures var e := EvalAll(ss, inLoop, ignore, ShortestAll(ss, inLoop) + more); e.rest == more && e.end == Finished
    decreases ss, 1
  {
    ShortestMeansAll(ss, inLoop, true, ignore, more);
    if inLoop {
      NoBreakUnderIf(ss);
    }
  }

  /** The branch that such results choose. */
  lemma {:induction false} ShortestChosen(s: Stmt, inLoop: bool, more: seq<bool>)
    requires s.IfElse?
    ensures var t, e := ShortestAll(s.thn.stmts, inLoop), ShortestAll(ElseStmts(s.els), inLoop);
      var results := Shortest(s, inLoop) + more;
      if |t| <= |e| then results[0] == s.inverted && results[1..] == t + more
      else results[0] == !s.inverted && results[1..] == e + more
  {
    var t, e := ShortestAll(s.thn.stmts, inLoop), ShortestAll(ElseStmts(s.els), inLoop);
    if |t| <= |e| {
      FirstResult(s.inverted, t, more);
    } else {
      FirstResult(!s.inverted, e, more);
    }
  }

  lemma {:induction false} ShortestMeansAll(ss: Stmts, inLoop: bool, underIf: bool, ignore: bool, more: seq<bool>)
    requires inLoop ==> BreaksPlacedAll(ss, true, underIf)
    ensures var e := EvalAll(ss, inLoop, ignore, ShortestAll(ss, inLoop) + more);
      e.rest == more && e.end == PlainEnd(ss, inLoop)
    decreases ss, 0
  {
    match ss
    case Nil => assert [] + more == more;
    case Cons(s, tail) =>
      if s.BreakLoop? && inLoop {
        assert ShortestAll(ss, inLoop) + more == more;
      } else {
        var more1 := ShortestAll(tail, inLoop) + more;
        assert ShortestAll(ss, inLoop) + more == Shortest(s, inLoop) + more1;
        ShortestMeans(s, inLoop, underIf, ignore, more1);
        ShortestMeansAll(tail, inLoop, underIf, ignore, more);
      }
  }

  // ---------- the machine needs at least as many ----------

  /** The meaning goes on behind the statement. */
  predicate GoesOn(m: Meaning) { m.end == Finished || m.end == Broke }

  lemma {:induction false} Needs(s: Stmt, inLoop: bool, underIf: bool, ignore: bool, results: seq<bool>)
    requires BreaksPlaced(s, inLoop, underIf) && GoesOn(Act(s, inLoop, ignore, results))
    ensures |Act(s, inLoop, ignore, results).rest| + |Shortest(s, inLoop)| <= |results|
    decreases s
  {
    if s.IfElse? {
      ShortestOfTwo(s, inLoop);
      if results[0] == s.inverted {
        NeedsAll(s.thn.stmts, inLoop, true, ignore, results[1..]);
      } else if s.els.ElseBranch? {
        NeedsAll(s.els.block.stmts, inLoop, true, ignore, results[1..]);
      }
    }
  }

  lemma {:induction false} ShortestOfTwo(s: Stmt, inLoop: bool)
    requires s.IfElse?
    ensures |Shortest(s, inLoop)| <= 1 + |ShortestAll(s.thn.stmts, inLoop)|
    ensures |Shortest(s, inLoop)| <= 1 + |ShortestAll(ElseStmts(s.els), inLoop)|
  {
  }

  lemma {:induction false} NeedsAll(ss: Stmts, inLoop: bool, underIf: bool, ignore: bool, results: seq<bool>)
    requires BreaksPlacedAll(ss, inLoop, underIf) && GoesOn(ActAll(ss, inLoop, ignore, results))
    ensures |ActAll(ss, inLoop, ignore, results).rest| + |ShortestAll(ss, inLoop)| <= |results|
    decreases ss
  {
    if ss.Cons? && !(ss.head.BreakLoop? && inLoop) {
      var first := Act(ss.head, inLoop, ignore, results);
      NoBreak(ss.head, inLoop, ignore, results);
      Needs(ss.head, inLoop, underIf, ignore, results);
      NeedsAll(ss.tail, inLoop, underIf, ignore, first.rest);
    }
  }

  /** A loop among statements that are passed over takes a result. */
  lemma {:induction false} LeakNeeds(ss: Stmts, ignore: bool, results: seq<bool>)
    requires !NoDirectLoop(ss) && LeakAll(ss, ignore, results).end == Finished
    ensures |LeakAll(ss, ignore, results).rest| < |results|
    decreases ss
  {
    if !ss.head.LoopOver? {
      LeakNeeds(ss.tail, ignore, results);
    }
  }

  // ---------- results that expose a nested loop ----------

  /** Results that bring the script to a loop with a loop directly in its body, do not enter it, and
      then go the shortest way to the end. */
  function Exposing(s: Stmt, inLoop: bool): seq<bool>
    requires !LoopsApart(s, inLoop)
  {
    match s
    case IfElse(inverted, _, thn, els) =>
      if !LoopsApartAll(thn.stmts, inLoop) then [inverted] + ExposingAll(thn.stmts, inLoop)
      else [!inverted] + (match els case ElseBranch(b) => ExposingAll(b.stmts, inLoop))
    case LoopOver(until, _, body) =>
      if !NoDirectLoop(body.stmts) then [!until]
      else [until] + ExposingAll(body.stmts, true) + Leaving(s)
  }

  /** The result that leaves a loop at its head, where no `break` does. */
  function Leaving(s: Stmt): seq<bool>
    requires s.LoopOver?
  {
    if HasBreak(s.body.stmts) then [] else [!s.until]
  }

  function ExposingAll(ss: Stmts, inLoop: bool): seq<bool>
    requires !LoopsApartAll(ss, inLoop)
  {
    match ss
    case Cons(s, tail) =>
      if !LoopsApart(s, inLoop) then Exposing(s, inLoop) + ShortestAll(tail, inLoop)
      else Shortest(s, inLoop) + ExposingAll(tail, inLoop)
  }

  /** The branch that such results choose. */
  function Exposed(s: Stmt, inLoop: bool): (chosen: Stmts)
    requires s.IfElse? && !LoopsApart(s, inLoop)
    ensures !LoopsApartAll(chosen, inLoop) && chosen < s
    ensures BreaksPlaced(s, inLoop, false) || BreaksPlaced(s, inLoop, true) ==> BreaksPlacedAll(chosen, inLoop, true)
  {
    if !LoopsApartAll(s.thn.stmts, inLoop) then s.thn.stmts else s.els.block.stmts
  }

  lemma {:induction false} ExposedChosen(s: Stmt, inLoop: bool, more: seq<bool>)
    requires s.IfElse? && !LoopsApart(s, inLoop)
    ensures var results, chosen := Exposing(s, inLoop) + more, Exposed(s, inLoop);
      && results[1..] == ExposingAll(chosen, inLoop) + more
      && chosen == if results[0] == s.inverted then s.thn.stmts else ElseStmts(s.els)
  {
  }

  /** The results of a loop with such a loop under an `if` of its body. */
  lemma {:induction false} ExposingBody(s: Stmt, inLoop: bool, more: seq<bool>)
    requires s.LoopOver? && !LoopsApart(s, inLoop) && NoDirectLoop(s.body.stmts)
    ensures !LoopsApartAll(s.body.stmts, true)
    ensures var results := Exposing(s, inLoop) + more;
      results[0] == s.until && results[1..] == ExposingAll(s.body.stmts, true) + (Leaving(s) + more)
  {
    var body := ExposingAll(s.body.stmts, true);
    FirstResult(s.until, body, Leaving(s) + more);
    assert Exposing(s, inLoop) + more == [s.until] + body + (Leaving(s) + more);
  }

  /** On these results the structured interpreter comes to the end with none left over. */
  lemma {:induction false} ExposingMeans(s: Stmt, inLoop: bool, underIf: bool, ignore: bool, more: seq<bool>)
    requires !LoopsApart(s, inLoop) && BreaksPlaced(s, inLoop, underIf)
    ensures var e := Eval(s, inLoop, ignore, Exposing(s, inLoop) + more); e.end == Finished && e.rest == more
    decreases s
  {
    var results := Exposing(s, inLoop) + more;
    if s.IfElse? {
      var chosen := Exposed(s, inLoop);
      ExposedChosen(s, inLoop, more);
      ExposingMeansAll(chosen, inLoop, true, ignore, more);
      if inLoop { NoBreakUnderIf(chosen); }
    } else if !NoDirectLoop(s.body.stmts) {
      assert results[1..] == more;
    } else {
      var more1 := Leaving(s) + more;
      ExposingBody(s, inLoop, more);
      ExposingMeansAll(s.body.stmts, true, false, ignore, more1);
      LeavingMeans(s, inLoop, ignore, more);
    }
  }

  lemma {:induction false} LeavingMeans(s: Stmt, inLoop: bool, ignore: bool, more: seq<bool>)
    requires s.LoopOver?
    ensures HasBreak(s.body.stmts) ==> Leaving(s) + more == more
    ensures !HasBreak(s.body.stmts) ==>
      var e := Eval(s, inLoop, ignore, Leaving(s) + more); e.end == Finished && e.rest == more
  {
    if HasBreak(s.body.stmts) {
      assert [] + more == more;
    } else {
      assert (Leaving(s) + more)[1..] == more;
    }
  }

  lemma {:induction false} ExposingMeansAll(ss: Stmts, inLoop: bool, underIf: bool, ignore: bool, more: seq<bool>)
    requires !LoopsApartAll(ss, inLoop) && BreaksPlacedAll(ss, inLoop, underIf)
    ensures var e := EvalAll(ss, inLoop, ignore, ExposingAll(ss, inLoop) + more);
      e.rest == more && e.end == PlainEnd(ss, inLoop)
    decreases ss
  {
    match ss
    case Cons(s, tail) =>
      if !LoopsApart(s, inLoop) {
        var more1 := ShortestAll(tail, inLoop) + more;
        assert ExposingAll(ss, inLoop) + more == Exposing(s, inLoop) + more1;
        ExposingMeans(s, inLoop, underIf, ignore, more1);
        ShortestMeansAll(tail, inLoop, underIf, ignore, more);
      } else {
        var more1 := ExposingAll(tail, inLoop) + more;
        assert ExposingAll(ss, inLoop) + more == Shortest(s, inLoop) + more1;
        ShortestMeans(s, inLoop, underIf, ignore, more1);
        ExposingMeansAll(tail, inLoop, underIf, ignore, more);
      }
  }

  /** The machine does not: it takes a result more. */
  lemma {:induction false} ExposingActs(s: Stmt, inLoop: bool, underIf: bool, ignore: bool, more: seq<bool>)
    requires !LoopsApart(s, inLoop) && BreaksPlaced(s, inLoop, underIf)
    requires GoesOn(Act(s, inLoop, ignore, Exposing(s, inLoop) + more))
    ensures |Act(s, inLoop, ignore, Exposing(s, inLoop) + more).rest| < |more|
    decreases s, 1
  {
    if s.IfElse? {
      ExposedChosen(s, inLoop, more);
      ExposingActsAll(Exposed(s, inLoop), inLoop, true, ignore, more);
    } else {
      LoopExposingActs(s, inLoop, ignore, more);
    }
  }

  lemma {:induction false} LoopExposingActs(s: Stmt, inLoop: bool, ignore: bool, more: seq<bool>)
    requires s.LoopOver? && !LoopsApart(s, inLoop) && BreaksPlacedAll(s.body.stmts, true, false)
    requires ActLoop(s, ignore, Exposing(s, inLoop) + more).end == Finished
    ensures |ActLoop(s, ignore, Exposing(s, inLoop) + more).rest| < |more|
    decreases s, 0
  {
    var results, body := Exposing(s, inLoop) + more, s.body.stmts;
    if !NoDirectLoop(body) {
      assert results[1..] == more;
      LeakNeeds(body, ignore, more);
    } else {
      ExposingBody(s, inLoop, more);
      var pass := ActAll(body, true, ignore, results[1..]);
      ExposingActsAll(body, true, false, ignore, Leaving(s) + more);
      if pass.end == Broke {
        BrokeHasBreak(body, ignore, results[1..]);
      }
    }
  }

  lemma {:induction false} ExposingActsAll(ss: Stmts, inLoop: bool, underIf: bool, ignore: bool, more: seq<bool>)
    requires !LoopsApartAll(ss, inLoop) && BreaksPlacedAll(ss, inLoop, underIf)
    requires GoesOn(ActAll(ss, inLoop, ignore, ExposingAll(ss, inLoop) + more))
    ensures |ActAll(ss, inLoop, ignore, ExposingAll(ss, inLoop) + more).rest| < |more|
    decreases ss
  {
    match ss
    case Cons(s, tail) =>
      if !LoopsApart(s, inLoop) {
        var more1 := ShortestAll(tail, inLoop) + more;
        assert ExposingAll(ss, inLoop) + more == Exposing(s, inLoop) + more1;
        NoBreak(s, inLoop, ignore, Exposing(s, inLoop) + more1);
        ExposingActs(s, inLoop, underIf, ignore, more1);
        NeedsAll(tail, inLoop, underIf, ignore, Act(s, inLoop, ignore, Exposing(s, inLoop) + more1).rest);
      } else {
        var more1 := ExposingAll(tail, inLoop) + more;
        assert ExposingAll(ss, inLoop) + more == Shortest(s, inLoop) + more1;
        ActsAsMeant(s, inLoop, underIf, ignore, Shortest(s, inLoop) + more1);
        ShortestMeans(s, inLoop, underIf, ignore, more1);
        ExposingActsAll(tail, inLoop, underIf, ignore, more);
      }
  }

  // ---------- the limit ----------

  /** The condition of the first loop among the statements. */
  function FirstLoop(ss: Stmts): SimpleCommand
    requires !NoDirectLoop(ss)
  {
    match ss
    case Cons(s, tail) => if s.LoopOver? then s.cond else FirstLoop(tail)
  }

  /** In a loop that is left, the first loop among the statements of the body gets its condition
      executed, and nothing is executed before it. */
  lemma {:induction false} LeakSkipped(ss: Stmts, ignore: bool, results: seq<bool>)
    requires !NoDirectLoop(ss) && results != []
    ensures [Event(FirstLoop(ss), results[0])] <= LeakAll(ss, ignore, results).trace
    decreases ss
  {
    if !ss.head.LoopOver? {
      LeakSkipped(ss.tail, ignore, results);
    }
  }

  /** Two meanings of a script that end differently cannot both be what the machine does. */
  lemma EndsAgree(fetch: Image, ignore: bool, m: Machine, e: Meaning, a: Meaning)
    requires Faithful(fetch, ignore, m, e) && Faithful(fetch, ignore, m, a)
    ensures EndStatus(e.end) == EndStatus(a.end)
  {
    var x :| Completes(fetch, ignore, m, e, x);
    var y :| Completes(fetch, ignore, m, a, y);
    EndedUnique(fetch, ignore, m, x, y);
  }

  /** The exact condition on loops: a script (with its breaks directly in loop bodies, and within
      the depth of the stacks) is executed as its structure says on all results if and only
      if no reachable loop has a loop directly in its body. */
  lemma LoopsApartExactly(fetch: Image, ignore: bool, depth: nat, ss: Stmts, q: nat)
    requires IfDepthAll(ss) < depth && LoopDepthAll(ss) < depth
    requires BreaksPlacedAll(ss, false, false)
    requires Holds(fetch, ss, q)
    ensures LoopsApartAll(ss, false) <==>
      forall results :: Faithful(fetch, ignore, Start(depth, results), EvalAll(ss, false, ignore, results))
  {
    if LoopsApartAll(ss, false) {
      forall results
        ensures Faithful(fetch, ignore, Start(depth, results), EvalAll(ss, false, ignore, results))
      {
        ScriptFaithful(fetch, ignore, depth, ss, q, results);
      }
    } else {
      NestedShows(fetch, ignore, depth, ss, q);
    }
  }

  /** On the exposing results, the script is to end, and the machine does not come to its end. */
  lemma {:induction false} NestedShows(fetch: Image, ignore: bool, depth: nat, ss: Stmts, q: nat)
    requires IfDepthAll(ss) < depth && LoopDepthAll(ss) < depth
    requires BreaksPlacedAll(ss, false, false) && !LoopsApartAll(ss, false)
    requires Holds(fetch, ss, q)
    ensures var results := ExposingAll(ss, false);
      && EvalAll(ss, false, ignore, results).end == Finished
      && !Faithful(fetch, ignore, Start(depth, results), EvalAll(ss, false, ignore, results))
  {
    var results := ExposingAll(ss, false);
    var e, a := EvalAll(ss, false, ignore, results), ActAll(ss, false, ignore, results);
    assert results + [] == results;
    ExposingMeansAll(ss, false, false, ignore, []);
    if GoesOn(a) {
      ExposingActsAll(ss, false, false, ignore, []);
    }
    ScriptActs(fetch, ignore, depth, ss, q, results);
    if Faithful(fetch, ignore, Start(depth, results), e) {
      EndsAgree(fetch, ignore, Start(depth, results), e, a);
    }
  }
}
