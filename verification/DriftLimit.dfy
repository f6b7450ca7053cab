/** The other half: in a script that is not harmless, results can be found on which the machine
    executes an `else` part that is not meant, and so more commands than the structured
    interpreter, however it goes on. */
module DriftLimit {
  import opened ControlState
  import opened Structured
  import opened Drift

  // ---------- the fewest commands ----------

  /** The fewest commands that a statement executes when it is finished. */
  function Least(s: Stmt): nat {
    match s
    case IfElse(_, _, thn, els) =>
      var t := LeastAll(thn.stmts);
      var e := match els case NoElse => 0 case ElseBranch(b) => LeastAll(b.stmts);
      1 + if t <= e then t else e
    case _ => 1
  }

  function LeastAll(ss: Stmts): nat {
    match ss
    case Nil => 0
    case Cons(s, tail) => Least(s) + LeastAll(tail)
  }

  /** Results on which the structured interpreter executes no more than that. */
  lemma {:induction false} Shortest(s: Stmt, more: seq<bool>) returns (results: seq<bool>)
    ensures var e := Eval(s, false, true, results); EndsWith(e, Finished, more) && |e.trace| == Least(s)
    decreases s
  {
    match s
    case Run(_) => results := [false] + more;
    case BreakLoop => results := more;
    case IfElse(inverted, _, thn, els) =>
      if els.NoElse? {
        if LeastAll(thn.stmts) == 0 {
          var r := ShortestAll(thn.stmts, more);
          results := [inverted] + r;
        } else {
          results := [!inverted] + more;
        }
      } else if LeastAll(thn.stmts) <= LeastAll(els.block.stmts) {
        var r := ShortestAll(thn.stmts, more);
        results := [inverted] + r;
      } else {
        var r := ShortestAll(els.block.stmts, more);
        results := [!inverted] + r;
      }
    case LoopOver(until, _, _) => results := [!until] + more;
  }

  lemma {:induction false} ShortestAll(ss: Stmts, more: seq<bool>) returns (results: seq<bool>)
    ensures var e := EvalAll(ss, false, true, results); EndsWith(e, Finished, more) && |e.trace| == LeastAll(ss)
    decreases ss
  {
    results := more;
    if ss.Cons? {
      var r := ShortestAll(ss.tail, more);
      results := Shortest(ss.head, r);
    }
  }

  /** The machine executes at least as many, whatever records it has. */
  lemma {:induction false} AtLeast(s: Stmt, open: seq<bool>, results: seq<bool>)
    requires Act(s, open, results).m.end == Finished
    ensures |Act(s, open, results).m.trace| >= Least(s)
    decreases s
  {
    match s
    case Run(_) =>
    case BreakLoop =>
    case IfElse(_, _, thn, els) =>
      if results[0] == s.inverted {
        var d := ActAll(thn.stmts, open + [true], results[1..]);
        assert Act(s, open, results) == PastThen(els, d).After([Event(s.cond, results[0])]);
        PastThenLonger(els, d);
        AtLeastAll(thn.stmts, open + [true], results[1..]);
      } else if els.ElseBranch? {
        AtLeastAll(els.block.stmts, open + [false], results[1..]);
      }
    case LoopOver(_, _, _) => LoopAtLeast(s, results);
  }

  lemma {:induction false} LoopAtLeast(s: Stmt, results: seq<bool>)
    requires s.LoopOver? && results != []
    ensures |Eval(s, false, true, results).trace| >= 1
  {
  }

  lemma {:induction false} PastThenLonger(els: Branch, d: Drifted)
    ensures |PastThen(els, d).m.trace| >= |d.m.trace|
    ensures d.m.end != Finished ==> PastThen(els, d) == d
  {
  }

  lemma {:induction false} AtLeastAll(ss: Stmts, open: seq<bool>, results: seq<bool>)
    requires ActAll(ss, open, results).m.end == Finished
    ensures |ActAll(ss, open, results).m.trace| >= LeastAll(ss)
    decreases ss
  {
    if ss.Cons? {
      var first := Act(ss.head, open, results);
      AtLeast(ss.head, open, results);
      AtLeastAll(ss.tail, first.open, first.m.rest);
    }
  }

  lemma {:induction false} SomeLeast(ss: Stmts)
    requires ss != Nil
    ensures LeastAll(ss) >= 1
  {
  }

  // ---------- results that expose the `else` part ----------

  /** The structured interpreter finishes with `more` left, and the machine, if it finishes, has
      executed more commands. */
  ghost predicate Longer(e: Meaning, a: Meaning, more: seq<bool>) {
    EndsWith(e, Finished, more) && (a.end == Finished ==> |a.trace| > |e.trace|)
  }

  lemma {:induction false} Exposing(s: Stmt, open: seq<bool>, more: seq<bool>) returns (results: seq<bool>)
    requires !Harmless(s, open) && LoopDepth(s) <= 1
    ensures Longer(Eval(s, false, true, results), Act(s, open, results).m, more)
    decreases s, 1
  {
    var thn, els := s.thn.stmts, s.els;
    if !HarmlessAll(thn, open + [true]) {
      var r := ExposingAll(thn, open + [true], more);
      results := [s.inverted] + r;
      assert results[1..] == r;
      var d := ActAll(thn, open + [true], r);
      assert Act(s, open, results) == PastThen(els, d).After([Event(s.cond, results[0])]);
      PastThenLonger(els, d);
    } else if !HarmlessAll(els.block.stmts, open + [false]) {
      var r := ExposingAll(els.block.stmts, open + [false], more);
      results := [!s.inverted] + r;
    } else {
      results := ExposingElse(s, open, more);
    }
  }

  /** Here the `else` is rejected, and what stands behind it is executed. */
  lemma {:induction false} ExposingElse(s: Stmt, open: seq<bool>, more: seq<bool>) returns (results: seq<bool>)
    requires s.IfElse? && s.els.ElseBranch? && LostBody(s.els.block) != Nil && LoopDepth(s) <= 1
    requires HarmlessAll(s.thn.stmts, open + [true])
    requires exists t :: t in LeavesAll(s.thn.stmts, open + [true]) && !AwaitsElse(t)
    ensures Longer(Eval(s, false, true, results), Act(s, open, results).m, more)
    decreases s, 0
  {
    var thn, els := s.thn.stmts, s.els;
    var t :| t in LeavesAll(thn, open + [true]) && !AwaitsElse(t);
    var r := LeavingAll(thn, open + [true], t, more);
    results := [s.inverted] + r;
    assert results[1..] == r;
    var d := ActAll(thn, open + [true], r);
    HarmlessActsAll(thn, open + [true], r);
    assert Act(s, open, results) == PastThen(els, d).After([Event(s.cond, results[0])]);
    LostLonger(els, d);
  }

  lemma {:induction false} LostLonger(els: Branch, d: Drifted)
    requires els.ElseBranch? && LostBody(els.block) != Nil && d.m.end == Finished && !AwaitsElse(d.open)
    ensures PastThen(els, d).m.end == Finished ==> |PastThen(els, d).m.trace| > |d.m.trace|
  {
    var e := ActAll(LostBody(els.block), [], d.m.rest);
    if e.m.end == Finished {
      AtLeastAll(LostBody(els.block), [], d.m.rest);
      SomeLeast(LostBody(els.block));
    }
  }

  lemma {:induction false} ExposingAll(ss: Stmts, open: seq<bool>, more: seq<bool>) returns (results: seq<bool>)
    requires !HarmlessAll(ss, open) && LoopDepthAll(ss) <= 1
    ensures Longer(EvalAll(ss, false, true, results), ActAll(ss, open, results).m, more)
    decreases ss
  {
    var s, tail := ss.head, ss.tail;
    if !Harmless(s, open) {
      var r := ShortestAll(tail, more);
      results := Exposing(s, open, r);
      var first := Act(s, open, results);
      if first.m.end == Finished && ActAll(tail, first.open, first.m.rest).m.end == Finished {
        AtLeastAll(tail, first.open, first.m.rest);
      }
    } else {
      var t :| t in Leaves(s, open) && !HarmlessAll(tail, t);
      var r := ExposingAll(tail, t, more);
      results := Leaving(s, open, t, r);
      HarmlessActs(s, open, results);
    }
  }

  // ---------- a condition that one can read off the script ----------

  /** No loop with a `break` under an `if` stands in a `then` part of which the `else` part would be
      executed. */
  predicate Sheltered(s: Stmt) {
    match s
    case IfElse(_, _, thn, els) =>
      && ShelteredAll(thn.stmts)
      && (match els
          case NoElse => true
          case ElseBranch(b) =>
            ShelteredAll(b.stmts) && (LostBody(b) == Nil || BreaksPlacedAll(thn.stmts, false, true)))
    case _ => true
  }

  predicate ShelteredAll(ss: Stmts) {
    match ss
    case Nil => true
    case Cons(s, tail) => Sheltered(s) && ShelteredAll(tail)
  }

  /** Without such a `break` a loop leaves the records as they were. */
  lemma {:induction false} PlacedUnderIf(ss: Stmts, open: seq<bool>)
    requires BreaksPlacedAll(ss, true, true) && LoopDepthAll(ss) == 0
    ensures BreaksAll(ss, open) == {}
    decreases ss
  {
    if ss.Cons? {
      var s := ss.head;
      if s.IfElse? {
        PlacedUnderIf(s.thn.stmts, open);
        if s.els.ElseBranch? {
          PlacedUnderIf(s.els.block.stmts, open);
        }
      }
      PlacedUnderIf(ss.tail, open);
    }
  }

  lemma {:induction false} PlacedInLoop(ss: Stmts, open: seq<bool>)
    requires BreaksPlacedAll(ss, true, false) && LoopDepthAll(ss) == 0
    ensures BreaksAll(ss, open) <= {open}
    decreases ss
  {
    if ss.Cons? {
      var s := ss.head;
      if s.IfElse? {
        PlacedUnderIf(s.thn.stmts, open);
        if s.els.ElseBranch? {
          PlacedUnderIf(s.els.block.stmts, open);
        }
      }
      if !s.BreakLoop? {
        PlacedInLoop(ss.tail, open);
      }
    }
  }

  lemma {:induction false} PlacedLeaves(s: Stmt, open: seq<bool>, underIf: bool, t: seq<bool>)
    requires BreaksPlaced(s, false, underIf) && LoopDepth(s) <= 1 && t in Leaves(s, open)
    ensures t == open
    decreases s
  {
    match s
    case Run(_) =>
    case BreakLoop =>
    case IfElse(_, _, thn, els) =>
      if u :| u in LeavesAll(thn.stmts, open + [true]) && t == CloseIf(u, els.ElseBranch?) {
        PlacedLeavesAll(thn.stmts, open + [true], true, u);
      } else if els.ElseBranch? {
        var u :| u in LeavesAll(els.block.stmts, open + [false]) && t == CloseIf(u, false);
        PlacedLeavesAll(els.block.stmts, open + [false], true, u);
      }
    case LoopOver(_, _, body) => PlacedInLoop(body.stmts, open);
  }

  lemma {:induction false} PlacedLeavesAll(ss: Stmts, open: seq<bool>, underIf: bool, t: seq<bool>)
    requires BreaksPlacedAll(ss, false, underIf) && LoopDepthAll(ss) <= 1 && t in LeavesAll(ss, open)
    ensures t == open
    decreases ss
  {
    if ss.Cons? {
      var u :| u in Leaves(ss.head, open) && t in LeavesAll(ss.tail, u);
      PlacedLeaves(ss.head, open, underIf, u);
      PlacedLeavesAll(ss.tail, u, underIf, t);
    }
  }

  lemma {:induction false} ShelteredHarmless(s: Stmt, open: seq<bool>)
    requires Sheltered(s) && LoopDepth(s) <= 1
    ensures Harmless(s, open)
    decreases s
  {
    if s.IfElse? {
      ShelteredHarmlessAll(s.thn.stmts, open + [true]);
      if s.els.ElseBranch? {
        ShelteredHarmlessAll(s.els.block.stmts, open + [false]);
        if LostBody(s.els.block) != Nil {
          forall t | t in LeavesAll(s.thn.stmts, open + [true])
            ensures AwaitsElse(t)
          {
            PlacedLeavesAll(s.thn.stmts, open + [true], true, t);
          }
        }
      }
    }
  }

  lemma {:induction false} ShelteredHarmlessAll(ss: Stmts, open: seq<bool>)
    requires ShelteredAll(ss) && LoopDepthAll(ss) <= 1
    ensures HarmlessAll(ss, open)
    decreases ss
  {
    if ss.Cons? {
      ShelteredHarmless(ss.head, open);
      forall t | t in Leaves(ss.head, open)
        ensures HarmlessAll(ss.tail, t)
      {
        ShelteredHarmlessAll(ss.tail, t);
      }
    }
  }

  /** In particular no loop stands under an `if`. */
  predicate LoopsOnTop(ss: Stmts) {
    match ss
    case Nil => true
    case Cons(s, tail) => (s.IfElse? ==> LoopDepth(s) == 0) && LoopsOnTop(tail)
  }

  lemma {:induction false} LoopFreePlaced(ss: Stmts)
    requires LoopDepthAll(ss) == 0
    ensures BreaksPlacedAll(ss, false, true) && ShelteredAll(ss)
  {
    if ss.Cons? {
      var s := ss.head;
      if s.IfElse? {
        LoopFreePlaced(s.thn.stmts);
        if s.els.ElseBranch? {
          LoopFreePlaced(s.els.block.stmts);
        }
      }
      LoopFreePlaced(ss.tail);
    }
  }

  lemma {:induction false} OnTopSheltered(ss: Stmts)
    requires LoopsOnTop(ss)
    ensures ShelteredAll(ss)
  {
    if ss.Cons? {
      var s := ss.head;
      if s.IfElse? {
        LoopFreePlaced(s.thn.stmts);
        if s.els.ElseBranch? {
          LoopFreePlaced(s.els.block.stmts);
        }
      }
      OnTopSheltered(ss.tail);
    }
  }
}
