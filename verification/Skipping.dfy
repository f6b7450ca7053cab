/** Statements that are not to be executed are passed over and leave no trace. */
module Skipping {
  import opened ControlState
  import opened Structured
  import opened Machine
  import opened Placement
  import opened Steps
  import opened Advance

  /** `m'` is `m` moved to `q`, with the same open records as `np`. */
  ghost predicate Passed(m: Machine, np: Parser, m': Machine, q: nat) {
    m' == m.(np := m'.np, pc := q) && Agree(np, m'.np) && !m'.np.jump
  }

  lemma PassedReady(m: Machine, np: Parser, m': Machine, q: nat)
    requires Passed(m, np, m', q) && m.status == Running
    requires np.Safe(|np.ie|) && np.TopIf().state != ItefIf && !np.AwaitsCondition()
    ensures Ready(m') && m'.np.TopIf() == np.TopIf() && m'.np.TopLoop() == np.TopLoop()
    ensures m'.np.Enabled() == np.Enabled() && m'.np.ItefEnabled() == np.ItefEnabled()
  {
    AgreeTops(np, m'.np);
  }

  /** A loop among the statements is passed over only when an `if` record disables it:
      otherwise its condition is executed even though the enclosing loop is disabled. */
  lemma {:induction false} SkipAll(fetch: Image, ignore: bool, m: Machine, ss: Stmts, q: nat) returns (m': Machine)
    requires Ready(m) && !m.np.Enabled() && Fits(m.np, IfDepthAll(ss), LoopDepthAll(ss))
    requires m.np.ItefEnabled() ==> NoDirectLoop(ss)
    requires Stands(fetch, m.pc, FlattenAll(ss), q)
    ensures Reaches(fetch, ignore, m, m') && Passed(m, m.np, m', q)
    decreases ss
  {
    match ss
    case Nil =>
      m' := PassBlank(fetch, ignore, m, q);
    case Cons(s, tail) =>
      var mid := Split(fetch, m.pc, Flatten(s), FlattenAll(tail), q);
      var m1 := Skip(fetch, ignore, m, s, mid);
      PassedReady(m, m.np, m1, mid);
      m' := SkipAll(fetch, ignore, m1, tail, q);
      ReachesTrans(fetch, ignore, m, m1, m');
  }

  lemma {:induction false} SkipBlock(fetch: Image, ignore: bool, m: Machine, opener: Word, b: Block, q: nat)
      returns (m': Machine)
    requires Opens(m, opener)
    requires var np := Opened(m.np, opener);
             && !np.Enabled() && Fits(np, IfDepthAll(b.stmts), LoopDepthAll(b.stmts))
             && (np.ItefEnabled() ==> NoDirectLoop(b.stmts))
    requires Stands(fetch, m.pc, FlattenBlock(opener, b), q)
    ensures Reaches(fetch, ignore, m, m') && Passed(m, Opened(m.np, opener), m', q)
    decreases b
  {
    var m1;
    LedReady(After(opener), m);
    if b.fused && b.stmts.Cons? && IsCommand(b.stmts.head) {
      m1 := DoSkip(fetch, ignore, m, After(opener), CommandWords(b.stmts.head), FlattenAll(b.stmts.tail), q);
      m' := SkipAll(fetch, ignore, m1, b.stmts.tail, q);
    } else if Joins(opener, b) {
      m1 := SkipJoined(fetch, ignore, m, b.stmts.head, FlattenAll(b.stmts.tail), q);
      PassedReady(m, Opened(m.np, opener), m1, m1.pc);
      m' := SkipAll(fetch, ignore, m1, b.stmts.tail, q);
    } else {
      m1 := DoOpener(fetch, ignore, m, opener, FlattenAll(b.stmts), q);
      m' := SkipAll(fetch, ignore, m1, b.stmts, q);
    }
    ReachesTrans(fetch, ignore, m, m1, m');
  }

  /** An `if` right behind the `do` of its loop. */
  lemma {:induction false} SkipJoined(fetch: Image, ignore: bool, m: Machine, s: Stmt, rest: seq<Command>, q: nat)
      returns (m': Machine)
    requires s.IfElse? && Opens(m, Do)
    requires var np := Opened(m.np, Do); !np.Enabled() && Fits(np, IfDepth(s), LoopDepth(s))
    requires Stands(fetch, m.pc, [[Do] + IfWords(s.inverted, s.cond)] + (IfTail(s) + rest), q)
    ensures Reaches(fetch, ignore, m, m') && Passed(m, Opened(m.np, Do), m', m'.pc)
    ensures Stands(fetch, m'.pc, rest, q)
    decreases s, 1
  {
    LedReady(After(Do), m);
    var m1 := DoIf(fetch, ignore, m, After(Do), s.inverted, s.cond, IfTail(s) + rest, q);
    var mid := Split(fetch, m1.pc, IfTail(s), rest, q);
    m' := SkipTail(fetch, ignore, Led(After(Do), m), m1, s, mid);
    ReachesTrans(fetch, ignore, m, m1, m');
  }

  lemma {:induction false} Skip(fetch: Image, ignore: bool, m: Machine, s: Stmt, q: nat) returns (m': Machine)
    requires Ready(m) && !m.np.Enabled() && Fits(m.np, IfDepth(s), LoopDepth(s))
    requires m.np.ItefEnabled() ==> !s.LoopOver?
    requires Stands(fetch, m.pc, Flatten(s), q)
    ensures Reaches(fetch, ignore, m, m') && Passed(m, m.np, m', q)
    decreases s, 2
  {
    match s
    case Run(_) => m' := SkipCommand(fetch, ignore, m, s, q);
    case BreakLoop => m' := SkipCommand(fetch, ignore, m, s, q);
    case IfElse(_, _, _, _) => m' := SkipIf(fetch, ignore, m, s, q);
    case LoopOver(_, _, _) => m' := SkipLoop(fetch, ignore, m, s, q);
  }

  lemma {:induction false} SkipIf(fetch: Image, ignore: bool, m: Machine, s: Stmt, q: nat) returns (m': Machine)
    requires s.IfElse? && Ready(m) && !m.np.Enabled() && Fits(m.np, IfDepth(s), LoopDepth(s))
    requires Stands(fetch, m.pc, Flatten(s), q)
    ensures Reaches(fetch, ignore, m, m') && Passed(m, m.np, m', q)
    decreases s, 1
  {
    assert Flatten(s) == [LeadWords(Alone, IfWords(s.inverted, s.cond))] + IfTail(s);
    var m1 := DoIf(fetch, ignore, m, Alone, s.inverted, s.cond, IfTail(s), q);
    m' := SkipTail(fetch, ignore, m, m1, s, q);
    ReachesTrans(fetch, ignore, m, m1, m');
  }

  /** From behind the condition, read in `m`, to past `fi`. */
  lemma {:induction false} SkipTail(fetch: Image, ignore: bool, m: Machine, m1: Machine, s: Stmt, q: nat)
      returns (m': Machine)
    requires s.IfElse? && Ready(m) && !m.np.Enabled() && Fits(m.np, IfDepth(s), LoopDepth(s))
    requires m1 == IfOpened(m, s.inverted, s.cond, m1.pc) && Stands(fetch, m1.pc, IfTail(s), q)
    ensures Reaches(fetch, ignore, m1, m') && Passed(m, m.np, m', q)
    decreases s, 0
  {
    var tail := FlattenElse(s.els) + [[Fi]];
    var r := Itef(ItefIf, true, false, s.inverted);
    PushIf(m.np, r);
    var mid := Split(fetch, m1.pc, FlattenBlock(Then, s.thn), tail, q);
    var m2 := SkipBlock(fetch, ignore, m1, Then, s.thn, mid);
    SkippedThen(m, m1, m2, r, mid);
    m' := SkipElse(fetch, ignore, m2, s.els, q);
    ReachesTrans(fetch, ignore, m1, m2, m');
    AgreeTrans(m.np, m2.np.(iendx := m.np.iendx), m'.np);
  }

  /** Behind the `then` part, the record of the `if` is on top and the ones below are as they were. */
  lemma SkippedThen(m: Machine, m1: Machine, m2: Machine, r: Itef, mid: nat)
    requires Ready(m) && m.np.iendx + 1 < |m.np.ie| && m1.status == Running && r.state == ItefIf
    requires m1.np == m.np.SetIf(m.np.iendx + 1, r) && Passed(m1, Opened(m1.np, Then), m2, mid)
    ensures Ready(m2) && m2.np.TopIf() == r.(state := ItefThen) && m2.np.iendx == m.np.iendx + 1
    ensures |m2.np.ie| == |m.np.ie| && m2.np.lpndx == m.np.lpndx && |m2.np.lp| == |m.np.lp|
    ensures Agree(m.np, m2.np.(iendx := m.np.iendx))
  {
    PushIf(m.np, r);
    PassedReady(m1, Opened(m1.np, Then), m2, mid);
    PopIf(m.np, r.(state := ItefThen), m2.np);
  }

  /** From the end of the `then` part to past `fi`, when the `else` part is not taken. */
  lemma {:induction false} SkipElse(fetch: Image, ignore: bool, m: Machine, els: Branch, q: nat) returns (m': Machine)
    requires Ready(m) && m.np.TopIf().state == ItefThen && m.np.iendx >= 1
    requires m.np.TopIf().disabled || !m.np.TopIf().ifcond
    requires els.ElseBranch? ==> Fits(m.np, IfDepthAll(els.block.stmts), LoopDepthAll(els.block.stmts))
    requires Stands(fetch, m.pc, FlattenElse(els) + [[Fi]], q)
    ensures Reaches(fetch, ignore, m, m')
    ensures Passed(m, m.np.(iendx := m.np.iendx - 1), m', q)
    decreases els
  {
    match els
    case NoElse =>
      assert [] + [[Fi]] == [[Fi]];
      m' := DoFi(fetch, ignore, m, q);
    case ElseBranch(b) =>
      var mid := Split(fetch, m.pc, FlattenBlock(Else, b), [[Fi]], q);
      var m1 := SkipBlock(fetch, ignore, m, Else, b, mid);
      PassedReady(m, Opened(m.np, Else), m1, mid);
      m' := DoFi(fetch, ignore, m1, q);
      ReachesTrans(fetch, ignore, m, m1, m');
  }

  lemma {:induction false} SkipLoop(fetch: Image, ignore: bool, m: Machine, s: Stmt, q: nat) returns (m': Machine)
    requires s.LoopOver? && Ready(m) && !m.np.ItefEnabled() && Fits(m.np, IfDepth(s), LoopDepth(s))
    requires Stands(fetch, m.pc, Flatten(s), q)
    ensures Reaches(fetch, ignore, m, m') && Passed(m, m.np, m', q)
    decreases s, 0
  {
    var m1, p := DoLoop(fetch, ignore, m, s.until, s.cond, FlattenBlock(Do, s.body) + [[Done]], q);
    PushLoop(m.np, Loop(LoopKind(s.until), false, m.np.iendx, p));
    var mid := Split(fetch, m1.pc, FlattenBlock(Do, s.body), [[Done]], q);
    var m2 := SkipBlock(fetch, ignore, m1, Do, s.body, mid);
    ReachesTrans(fetch, ignore, m, m1, m2);
    SkippedBody(m, m1, m2, s.until, p, mid);
    m' := DoDone(fetch, ignore, m2, q);
    ReachesTrans(fetch, ignore, m, m2, m');
  }

  /** At `done`, the record of the loop is on top and the ones below are as they were. */
  lemma SkippedBody(m: Machine, m1: Machine, m2: Machine, until: bool, p: nat, mid: nat)
    requires Ready(m) && !m.np.ItefEnabled() && m.np.lpndx + 1 < |m.np.lp| && m1.status == Running
    requires m1.np == m.np.SetLoop(m.np.lpndx + 1, Loop(LoopKind(until), false, m.np.iendx, p))
    requires Passed(m1, Opened(m1.np, Do), m2, mid)
    ensures Ready(m2) && m2.np.lpndx >= 1 && m2.np.TopLoop() == Loop(LoopDo, false, m.np.iendx, p)
    ensures Agree(m.np, CloseLoop(m2.np).(jump := false))
  {
    PushLoop(m.np, Loop(LoopKind(until), false, m.np.iendx, p));
    PassedReady(m1, Opened(m1.np, Do), m2, mid);
    PopLoop(m.np, Loop(LoopDo, false, m.np.iendx, p), m2.np);
  }

  lemma SkipCommand(fetch: Image, ignore: bool, m: Machine, s: Stmt, q: nat) returns (m': Machine)
    requires Ready(m) && !m.np.Enabled() && IsCommand(s)
    requires Stands(fetch, m.pc, Flatten(s), q)
    ensures Reaches(fetch, ignore, m, m') && Passed(m, m.np, m', q)
  {
    assert Flatten(s) == [LeadWords(Alone, CommandWords(s))] + [];
    var m1 := DoSkip(fetch, ignore, m, Alone, CommandWords(s), [], q);
    m' := PassBlank(fetch, ignore, m1, q);
    ReachesTrans(fetch, ignore, m, m1, m');
  }
}
