/** The meaning that the machine gives to a script without a loop inside a loop when errors are
    ignored. A `break` under an `if` closes the `if` together with the loop, so the `else` and
    `fi` behind it work on the records of the ifs around the loop, and from there on the
    records drift away from the text. This module follows them, and says exactly when that
    does no harm. */
module Drift {
  import opened ControlState
  import opened Structured

  // `open` has the records of the machine, outermost first, all of them in the branch that is
  // taken: true for a `then` part, false for an `else` part.

  /** A record that an `else` can be for. */
  predicate AwaitsElse(open: seq<bool>) { open != [] && open[|open| - 1] }

  /** The `else`, if there is one, and the `fi` of an `if` of which the record is gone. An `else` that
      is rejected closes all records. */
  function CloseIf(open: seq<bool>, hasElse: bool): seq<bool> {
    if open == [] || (hasElse && !AwaitsElse(open)) then [] else open[..|open| - 1]
  }

  // ---------- a loop ----------

  /** The records behind a statement in the body of a loop that ends in a `break`; `open` is what the
      loop began with. */
  function Unwind(s: Stmt, open: seq<bool>, results: seq<bool>): seq<bool>
    decreases s
  {
    match s
    case IfElse(inverted, _, thn, els) =>
      if results == [] then open
      else if results[0] == inverted then CloseIf(UnwindAll(thn.stmts, open, results[1..]), els.ElseBranch?)
      else if els.ElseBranch? then CloseIf(UnwindAll(els.block.stmts, open, results[1..]), false)
      else open
    case _ => open
  }

  function UnwindAll(ss: Stmts, open: seq<bool>, results: seq<bool>): seq<bool>
    decreases ss
  {
    match ss
    case Nil => open
    case Cons(s, tail) =>
      var first := Eval(s, true, true, results);
      match first.end
      case Broke => Unwind(s, open, results)
      case Finished => UnwindAll(tail, open, first.rest)
      case _ => open
  }

  /** The records behind a loop. */
  function LoopLeft(s: Stmt, open: seq<bool>, results: seq<bool>): seq<bool>
    requires s.LoopOver?
    decreases |results|
  {
    if results == [] || results[0] != s.until then open
    else
      var pass := EvalAll(s.body.stmts, true, true, results[1..]);
      match pass.end
      case Finished => LoopLeft(s, open, pass.rest)
      case Broke => UnwindAll(s.body.stmts, open, results[1..])
      case _ => open
  }

  // ---------- statements outside of loops ----------

  datatype Drifted = Drifted(m: Meaning, open: seq<bool>)
  {
    function After(trace0: seq<Event>): Drifted { Drifted(m.After(trace0), open) }
  }

  /** What is executed of an `else` part of which the `else` is rejected: the command that is written
      right after it is not. */
  function LostBody(b: Block): Stmts {
    if b.fused && b.stmts.Cons? && IsCommand(b.stmts.head) then b.stmts.tail else b.stmts
  }

  function Act(s: Stmt, open: seq<bool>, results: seq<bool>): (d: Drifted)
    ensures |d.m.rest| <= |results|
    decreases s, 1
  {
    match s
    case IfElse(_, _, _, _) =>
      if results == [] then Drifted(Meaning([], OutOfResults, []), open)
      else if results[0] == s.inverted then ActThen(s, open, results[1..]).After([Event(s.cond, results[0])])
      else ActElse(s, open, results[1..]).After([Event(s.cond, results[0])])
    case LoopOver(_, _, _) => Drifted(Eval(s, false, true, results), LoopLeft(s, open, results))
    case _ => Drifted(Eval(s, false, true, results), open)
  }

  /** The `then` part is taken. */
  function ActThen(s: Stmt, open: seq<bool>, results: seq<bool>): (d: Drifted)
    requires s.IfElse?
    ensures |d.m.rest| <= |results|
    decreases s, 0
  {
    PastThen(s.els, ActAll(s.thn.stmts, open + [true], results))
  }

  function PastThen(els: Branch, d: Drifted): (d': Drifted)
    ensures |d'.m.rest| <= |d.m.rest|
    decreases els
  {
    if d.m.end != Finished then d
    else if els.NoElse? || AwaitsElse(d.open) then Drifted(d.m, CloseIf(d.open, els.ElseBranch?))
    else
      var e := ActAll(LostBody(els.block), [], d.m.rest);
      Drifted(e.m, CloseIf(e.open, false)).After(d.m.trace)
  }

  function ActElse(s: Stmt, open: seq<bool>, results: seq<bool>): (d: Drifted)
    requires s.IfElse?
    ensures |d.m.rest| <= |results|
    decreases s, 0
  {
    if s.els.NoElse? then Drifted(Meaning([], Finished, results), open)
    else
      var d := ActAll(s.els.block.stmts, open + [false], results);
      Drifted(d.m, CloseIf(d.open, false))
  }

  function ActAll(ss: Stmts, open: seq<bool>, results: seq<bool>): (d: Drifted)
    ensures |d.m.rest| <= |results|
    decreases ss
  {
    match ss
    case Nil => Drifted(Meaning([], Finished, results), open)
    case Cons(s, tail) =>
      var first := Act(s, open, results);
      if first.m.end == Finished then ActAll(tail, first.open, first.m.rest).After(first.m.trace) else first
  }

  // ---------- the condition ----------

  /** A statement in the body of a loop that can end without a `break`. */
  predicate CanFinish(s: Stmt) {
    match s
    case BreakLoop => false
    case IfElse(_, _, thn, els) => CanFinishAll(thn.stmts) || els.NoElse? || CanFinishAll(els.block.stmts)
    case _ => true
  }

  predicate CanFinishAll(ss: Stmts) {
    match ss
    case Nil => true
    case Cons(s, tail) => CanFinish(s) && CanFinishAll(tail)
  }

  /** All records that a `break` in the body of a loop can leave. */
  function Breaks(s: Stmt, open: seq<bool>): set<seq<bool>> {
    match s
    case BreakLoop => {open}
    case IfElse(_, _, thn, els) =>
      (set t | t in BreaksAll(thn.stmts, open) :: CloseIf(t, els.ElseBranch?))
      + (match els
         case NoElse => {}
         case ElseBranch(b) => set t | t in BreaksAll(b.stmts, open) :: CloseIf(t, false))
    case _ => {}
  }

  function BreaksAll(ss: Stmts, open: seq<bool>): set<seq<bool>> {
    match ss
    case Nil => {}
    case Cons(s, tail) => Breaks(s, open) + if CanFinish(s) then BreaksAll(tail, open) else {}
  }

  /** All records that a statement can leave behind, as long as nothing is executed that is not meant. */
  function Leaves(s: Stmt, open: seq<bool>): set<seq<bool>> {
    match s
    case IfElse(_, _, thn, els) =>
      (set t | t in LeavesAll(thn.stmts, open + [true]) :: CloseIf(t, els.ElseBranch?))
      + (match els
         case NoElse => {open}
         case ElseBranch(b) => set t | t in LeavesAll(b.stmts, open + [false]) :: CloseIf(t, false))
    case LoopOver(_, _, body) => {open} + BreaksAll(body.stmts, open)
    case _ => {open}
  }

  function LeavesAll(ss: Stmts, open: seq<bool>): set<seq<bool>> {
    match ss
    case Nil => {open}
    case Cons(s, tail) => set t, u | t in Leaves(s, open) && u in LeavesAll(tail, t) :: u
  }

  /** No `else` part that would be executed can be reached with a record that is not in its `then`
      part. */
  predicate Harmless(s: Stmt, open: seq<bool>) {
    match s
    case IfElse(_, _, thn, els) =>
      && HarmlessAll(thn.stmts, open + [true])
      && (match els
          case NoElse => true
          case ElseBranch(b) =>
            && HarmlessAll(b.stmts, open + [false])
            && (LostBody(b) == Nil || forall t :: t in LeavesAll(thn.stmts, open + [true]) ==> AwaitsElse(t)))
    case _ => true
  }

  predicate HarmlessAll(ss: Stmts, open: seq<bool>) {
    match ss
    case Nil => true
    case Cons(s, tail) => Harmless(s, open) && forall t :: t in Leaves(s, open) ==> HarmlessAll(tail, t)
  }

  // ---------- no break is left over ----------

  /** Outside of loops no `break` ends a statement. */
  lemma {:induction false} NoBreakOutside(s: Stmt, ignore: bool, results: seq<bool>)
    ensures Eval(s, false, ignore, results).end != Broke
    decreases |results|, s
  {
    match s
    case Run(_) =>
    case BreakLoop =>
    case IfElse(_, _, thn, els) =>
      if results != [] {
        NoBreakOutsideAll(if results[0] == s.inverted then thn.stmts else ElseStmts(els), ignore, results[1..]);
      }
    case LoopOver(until, _, body) =>
      if results != [] && results[0] == until {
        var pass := EvalAll(body.stmts, true, ignore, results[1..]);
        if pass.end == Finished {
          NoBreakOutside(s, ignore, pass.rest);
        }
      }
  }

  lemma {:induction false} NoBreakOutsideAll(ss: Stmts, ignore: bool, results: seq<bool>)
    ensures EvalAll(ss, false, ignore, results).end != Broke
    decreases |results|, ss
  {
    match ss
    case Nil =>
    case Cons(s, tail) =>
      NoBreakOutside(s, ignore, results);
      NoBreakOutsideAll(tail, ignore, Eval(s, false, ignore, results).rest);
  }

  lemma {:induction false} ActNoBreak(s: Stmt, open: seq<bool>, results: seq<bool>)
    ensures Act(s, open, results).m.end != Broke
    decreases s
  {
    if s.IfElse? && results != [] {
      if results[0] == s.inverted {
        var d := ActAll(s.thn.stmts, open + [true], results[1..]);
        ActNoBreakAll(s.thn.stmts, open + [true], results[1..]);
        PastNoBreak(s.els, d);
        assert Act(s, open, results).m.end == PastThen(s.els, d).m.end;
      } else if s.els.ElseBranch? {
        ActNoBreakAll(s.els.block.stmts, open + [false], results[1..]);
      }
    } else if s.LoopOver? {
      NoBreakOutside(s, true, results);
    }
  }

  lemma {:induction false} PastNoBreak(els: Branch, d: Drifted)
    requires d.m.end != Broke
    ensures PastThen(els, d).m.end != Broke
    decreases els
  {
    if els.ElseBranch? {
      ActNoBreakAll(LostBody(els.block), [], d.m.rest);
    }
  }

  lemma {:induction false} ActNoBreakAll(ss: Stmts, open: seq<bool>, results: seq<bool>)
    ensures ActAll(ss, open, results).m.end != Broke
    decreases ss
  {
    if ss.Cons? {
      var first := Act(ss.head, open, results);
      ActNoBreak(ss.head, open, results);
      ActNoBreakAll(ss.tail, first.open, first.m.rest);
    }
  }

  // ---------- harmless scripts are executed as they say ----------

  lemma {:induction false} FinishedCan(s: Stmt, results: seq<bool>)
    requires LoopDepth(s) == 0 && Eval(s, true, true, results).end == Finished
    ensures CanFinish(s)
    decreases s
  {
    if s.IfElse? && s.els.ElseBranch? {
      if results[0] == s.inverted {
        FinishedCanAll(s.thn.stmts, results[1..]);
      } else {
        FinishedCanAll(s.els.block.stmts, results[1..]);
      }
    }
  }

  lemma {:induction false} FinishedCanAll(ss: Stmts, results: seq<bool>)
    requires LoopDepthAll(ss) == 0 && EvalAll(ss, true, true, results).end == Finished
    ensures CanFinishAll(ss)
    decreases ss
  {
    if ss.Cons? {
      FinishedCan(ss.head, results);
      FinishedCanAll(ss.tail, Eval(ss.head, true, true, results).rest);
    }
  }

  lemma {:induction false} UnwindIn(s: Stmt, open: seq<bool>, results: seq<bool>)
    requires LoopDepth(s) == 0 && Eval(s, true, true, results).end == Broke
    ensures Unwind(s, open, results) in Breaks(s, open)
    decreases s
  {
    if s.IfElse? {
      if results[0] == s.inverted {
        UnwindInAll(s.thn.stmts, open, results[1..]);
      } else {
        UnwindInAll(s.els.block.stmts, open, results[1..]);
      }
    }
  }

  lemma {:induction false} UnwindInAll(ss: Stmts, open: seq<bool>, results: seq<bool>)
    requires LoopDepthAll(ss) == 0 && EvalAll(ss, true, true, results).end == Broke
    ensures UnwindAll(ss, open, results) in BreaksAll(ss, open)
    decreases ss
  {
    var first := Eval(ss.head, true, true, results);
    if first.end == Broke {
      UnwindIn(ss.head, open, results);
    } else {
      FinishedCan(ss.head, results);
      UnwindInAll(ss.tail, open, first.rest);
    }
  }

  lemma {:induction false} LoopLeftIn(s: Stmt, open: seq<bool>, results: seq<bool>)
    requires s.LoopOver? && LoopDepth(s) <= 1
    ensures LoopLeft(s, open, results) in Leaves(s, open)
    decreases |results|
  {
    if results != [] && results[0] == s.until {
      var pass := EvalAll(s.body.stmts, true, true, results[1..]);
      if pass.end == Finished {
        LoopLeftIn(s, open, pass.rest);
      } else if pass.end == Broke {
        UnwindInAll(s.body.stmts, open, results[1..]);
      }
    }
  }

  /** The statement is executed as it says, and what it leaves behind is foreseen. */
  ghost predicate AsMeant(s: Stmt, open: seq<bool>, results: seq<bool>) {
    var d := Act(s, open, results);
    d.m == Eval(s, false, true, results) && (d.m.end == Finished ==> d.open in Leaves(s, open))
  }

  ghost predicate AsMeantAll(ss: Stmts, open: seq<bool>, results: seq<bool>) {
    var d := ActAll(ss, open, results);
    d.m == EvalAll(ss, false, true, results) && (d.m.end == Finished ==> d.open in LeavesAll(ss, open))
  }

  lemma {:induction false} HarmlessActs(s: Stmt, open: seq<bool>, results: seq<bool>)
    requires Harmless(s, open) && LoopDepth(s) <= 1
    ensures AsMeant(s, open, results)
    decreases s, 1
  {
    match s
    case Run(_) =>
    case BreakLoop =>
    case IfElse(_, _, _, _) =>
      if results != [] {
        if results[0] == s.inverted {
          HarmlessThen(s, open, results);
        } else if s.els.ElseBranch? {
          HarmlessActsAll(s.els.block.stmts, open + [false], results[1..]);
        }
      }
    case LoopOver(_, _, _) => LoopLeftIn(s, open, results);
  }

  lemma {:induction false} HarmlessThen(s: Stmt, open: seq<bool>, results: seq<bool>)
    requires s.IfElse? && Harmless(s, open) && LoopDepth(s) <= 1 && results != [] && results[0] == s.inverted
    ensures AsMeant(s, open, results)
    decreases s, 0
  {
    var d := ActAll(s.thn.stmts, open + [true], results[1..]);
    HarmlessActsAll(s.thn.stmts, open + [true], results[1..]);
    HarmlessPast(s.els, d);
    assert Act(s, open, results) == PastThen(s.els, d).After([Event(s.cond, results[0])]);
  }

  /** The `else` part is passed over, or there is nothing in it that is executed. */
  lemma {:induction false} HarmlessPast(els: Branch, d: Drifted)
    requires d.m.end == Finished && els.ElseBranch? ==> LostBody(els.block) == Nil || AwaitsElse(d.open)
    ensures PastThen(els, d).m == d.m
    ensures d.m.end == Finished ==> PastThen(els, d).open == CloseIf(d.open, els.ElseBranch?)
  {
    if d.m.end == Finished && els.ElseBranch? && !AwaitsElse(d.open) {
      assert ActAll(Nil, [], d.m.rest) == Drifted(Meaning([], Finished, d.m.rest), []);
      assert d.m.trace + [] == d.m.trace;
    }
  }

  lemma {:induction false} HarmlessActsAll(ss: Stmts, open: seq<bool>, results: seq<bool>)
    requires HarmlessAll(ss, open) && LoopDepthAll(ss) <= 1
    ensures AsMeantAll(ss, open, results)
    decreases ss
  {
    if ss.Cons? {
      var first := Act(ss.head, open, results);
      HarmlessActs(ss.head, open, results);
      if first.m.end == Finished {
        HarmlessActsAll(ss.tail, first.open, first.m.rest);
      }
    }
  }

  // ---------- results that leave given records ----------

  /** Results on which the statement ends as `end` and uses just these; `more` is left. */
  ghost predicate EndsWith(e: Meaning, end: End, more: seq<bool>) { e.end == end && e.rest == more }

  lemma {:induction false} Finishing(s: Stmt, more: seq<bool>) returns (results: seq<bool>)
    requires CanFinish(s) && LoopDepth(s) == 0
    ensures EndsWith(Eval(s, true, true, results), Finished, more)
    decreases s
  {
    match s
    case Run(_) => results := [false] + more;
    case IfElse(inverted, _, thn, els) =>
      if CanFinishAll(thn.stmts) {
        var r := FinishingAll(thn.stmts, more);
        results := [inverted] + r;
      } else if els.NoElse? {
        results := [!inverted] + more;
      } else {
        var r := FinishingAll(els.block.stmts, more);
        results := [!inverted] + r;
      }
  }

  lemma {:induction false} FinishingAll(ss: Stmts, more: seq<bool>) returns (results: seq<bool>)
    requires CanFinishAll(ss) && LoopDepthAll(ss) == 0
    ensures EndsWith(EvalAll(ss, true, true, results), Finished, more)
    decreases ss
  {
    results := more;
    if ss.Cons? {
      var r := FinishingAll(ss.tail, more);
      results := Finishing(ss.head, r);
    }
  }

  lemma {:induction false} Breaking(s: Stmt, open: seq<bool>, t: seq<bool>, more: seq<bool>)
      returns (results: seq<bool>)
    requires t in Breaks(s, open) && LoopDepth(s) == 0
    ensures EndsWith(Eval(s, true, true, results), Broke, more) && Unwind(s, open, results) == t
    decreases s
  {
    match s
    case BreakLoop => results := more;
    case IfElse(inverted, _, thn, els) =>
      if u :| u in BreaksAll(thn.stmts, open) && t == CloseIf(u, els.ElseBranch?) {
        var r := BreakingAll(thn.stmts, open, u, more);
        results := [inverted] + r;
      } else {
        var u :| u in BreaksAll(els.block.stmts, open) && t == CloseIf(u, false);
        var r := BreakingAll(els.block.stmts, open, u, more);
        results := [!inverted] + r;
      }
  }

  lemma {:induction false} BreakingAll(ss: Stmts, open: seq<bool>, t: seq<bool>, more: seq<bool>)
      returns (results: seq<bool>)
    requires t in BreaksAll(ss, open) && LoopDepthAll(ss) == 0
    ensures EndsWith(EvalAll(ss, true, true, results), Broke, more) && UnwindAll(ss, open, results) == t
    decreases ss
  {
    if t in Breaks(ss.head, open) {
      results := Breaking(ss.head, open, t, more);
    } else {
      var r := BreakingAll(ss.tail, open, t, more);
      results := Finishing(ss.head, r);
    }
  }

  lemma {:induction false} Leaving(s: Stmt, open: seq<bool>, t: seq<bool>, more: seq<bool>) returns (results: seq<bool>)
    requires Harmless(s, open) && LoopDepth(s) <= 1 && t in Leaves(s, open)
    ensures EndsWith(Eval(s, false, true, results), Finished, more) && Act(s, open, results).open == t
    decreases s, 1
  {
    match s
    case Run(_) => results := [false] + more;
    case BreakLoop => results := more;
    case IfElse(inverted, _, thn, els) => results := LeavingIf(s, open, t, more);
    case LoopOver(until, _, body) =>
      if t == open {
        results := [!until] + more;
      } else {
        var r := BreakingAll(body.stmts, open, t, more);
        results := [until] + r;
      }
  }

  lemma {:induction false} LeavingIf(s: Stmt, open: seq<bool>, t: seq<bool>, more: seq<bool>)
      returns (results: seq<bool>)
    requires s.IfElse? && Harmless(s, open) && LoopDepth(s) <= 1 && t in Leaves(s, open)
    ensures EndsWith(Eval(s, false, true, results), Finished, more) && Act(s, open, results).open == t
    decreases s, 0
  {
    var thn, els := s.thn, s.els;
    if u :| u in LeavesAll(thn.stmts, open + [true]) && t == CloseIf(u, els.ElseBranch?) {
      var r := LeavingAll(thn.stmts, open + [true], u, more);
      results := [s.inverted] + r;
      var d := ActAll(thn.stmts, open + [true], r);
      HarmlessActsAll(thn.stmts, open + [true], r);
      HarmlessPast(els, d);
      assert results[1..] == r;
      assert Act(s, open, results).open == PastThen(els, d).open;
    } else if els.NoElse? {
      results := [!s.inverted] + more;
    } else {
      var u :| u in LeavesAll(els.block.stmts, open + [false]) && t == CloseIf(u, false);
      var r := LeavingAll(els.block.stmts, open + [false], u, more);
      results := [!s.inverted] + r;
    }
  }

  lemma {:induction false} LeavingAll(ss: Stmts, open: seq<bool>, t: seq<bool>, more: seq<bool>)
      returns (results: seq<bool>)
    requires HarmlessAll(ss, open) && LoopDepthAll(ss) <= 1 && t in LeavesAll(ss, open)
    ensures EndsWith(EvalAll(ss, false, true, results), Finished, more) && ActAll(ss, open, results).open == t
    decreases ss
  {
    results := more;
    if ss.Cons? {
      var u :| u in Leaves(ss.head, open) && t in LeavesAll(ss.tail, u);
      var r := LeavingAll(ss.tail, u, t, more);
      results := Leaving(ss.head, open, u, r);
      HarmlessActs(ss.head, open, results);
    }
  }
}
