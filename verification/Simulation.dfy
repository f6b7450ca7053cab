/** The flat machine executes exactly the commands of the structured interpreter. */
module Simulation {
  import opened ControlState
  import opened Structured
  import opened Machine
  import opened Placement
  import opened Steps
  import opened Advance
  import opened Skipping
  import opened Leaks

  /** The machine stands before statements that are to be executed. */
  ghost predicate Executes(m: Machine, np: Parser, inLoop: bool, underIf: bool) {
    && m.status == Running && !np.jump
    && np.Safe(|np.ie|) && np.TopIf().state != ItefIf && !np.AwaitsCondition() && np.Enabled()
    && (inLoop <==> np.TopLoop().state == LoopDo)
    && (inLoop && !underIf ==> np.TopLoop().iendx == np.iendx)
  }

  /** `m'` is what the meaning `e` promises of the machine `m` at the end `q` of the
      statements; `np` is the parser state in which they begin. */
  ghost predicate Ends(m: Machine, np: Parser, e: Meaning, m': Machine, q: nat) {
    && m'.trace == m.trace + e.trace
    && match e.end
       case Finished => m'.status == Running && m'.pc == q && m'.results == e.rest && Agree(np, m'.np) && !m'.np.jump
       case Broke =>
         m'.status == Running && m'.pc == q && m'.results == e.rest && Agree(Broken(np), m'.np) && !m'.np.jump
       case Stopped => m'.status == Failed
       case OutOfResults => m'.status == Starved
  }

  lemma ExecutesOn(m: Machine, np: Parser, m': Machine, inLoop: bool, underIf: bool)
    requires Executes(m, np, inLoop, underIf) && Agree(np, m'.np) && m'.status == Running && !m'.np.jump
    ensures Executes(m', m'.np, inLoop, underIf)
  {
    AgreeTops(np, m'.np);
  }

  /** A disabled loop record makes the state one that skips. */
  lemma BrokenSkips(m: Machine, np: Parser, m': Machine, underIf: bool)
    requires Executes(m, np, true, underIf) && Agree(Broken(np), m'.np) && m'.status == Running && !m'.np.jump
    ensures Ready(m') && !m'.np.Enabled() && m'.np.ItefEnabled()
  {
    AgreeTops(Broken(np), m'.np);
  }

  // ---------- commands ----------

  /** A command that stands at the head of statements, alone or after an opener. */
  lemma {:induction false} RunCommand(fetch: Image, ignore: bool, m: Machine, lead: Lead, s: Stmt, inLoop: bool,
                                      underIf: bool, rest: seq<Command>, q: nat) returns (m': Machine)
    requires IsCommand(s) && CanLead(lead, m) && Executes(m, Led(lead, m).np, inLoop, underIf)
    requires BreaksPlaced(s, inLoop, underIf)
    requires Stands(fetch, m.pc, [LeadWords(lead, CommandWords(s))] + rest, q)
    ensures Reaches(fetch, ignore, m, m')
    ensures Ends(m, Led(lead, m).np, Eval(s, inLoop, ignore, m.results), m', m'.pc)
    ensures m'.status == Running ==> Stands(fetch, m'.pc, rest, q)
  {
    if s.Run? {
      m' := DoPlain(fetch, ignore, m, lead, s.words, rest, q);
    } else {
      m' := DoBreak(fetch, ignore, m, lead, rest, q);
    }
    assert m.trace + [] == m.trace;
  }

  /** A meaning after a finished one. */
  lemma EndsAfter(m: Machine, np: Parser, e1: Meaning, m1: Machine, e2: Meaning, m': Machine, q: nat)
    requires e1.end == Finished && Ends(m, np, e1, m1, m1.pc) && Ends(m1, m1.np, e2, m', q)
    ensures Ends(m, np, e2.After(e1.trace), m', q)
  {
    assert m.trace + (e1.trace + e2.trace) == m.trace + e1.trace + e2.trace;
  }

  /** A meaning after statements without a trace. */
  lemma EndsLater(m: Machine, np: Parser, m1: Machine, e: Meaning, m': Machine, q: nat)
    requires m1.trace == m.trace && Agree(np, m1.np) && e.end != Broke && Ends(m1, m1.np, e, m', q)
    ensures Ends(m, np, e, m', q)
  {
  }

  /** The statements that are passed over after a `break`. */
  lemma EndsBroken(m: Machine, np: Parser, e1: Meaning, m1: Machine, e2: Meaning, m': Machine, q: nat)
    requires e1.end == Broke && Ends(m, np, e1, m1, m1.pc) && e2.end != Broke && Ends(m1, m1.np, e2, m', q)
    ensures Ends(m, np, AfterBreak(e1, e2), m', q)
  {
    assert m.trace + (e1.trace + e2.trace) == m.trace + e1.trace + e2.trace;
  }

  // ---------- the simulation ----------

  lemma {:induction false} RunAll(fetch: Image, ignore: bool, m: Machine, ss: Stmts, inLoop: bool, underIf: bool,
                                  q: nat) returns (m': Machine)
    requires Executes(m, m.np, inLoop, underIf) && BreaksPlacedAll(ss, inLoop, underIf)
    requires Fits(m.np, IfDepthAll(ss), LoopDepthAll(ss))
    requires Stands(fetch, m.pc, FlattenAll(ss), q)
    ensures Reaches(fetch, ignore, m, m')
    ensures Ends(m, m.np, ActAll(ss, inLoop, ignore, m.results), m', q)
    decreases |m.results|, ss, 0
  {
    match ss
    case Nil =>
      m' := PassBlank(fetch, ignore, m, q);
      assert m.trace + [] == m.trace;
    case Cons(s, tail) =>
      var mid := Split(fetch, m.pc, Flatten(s), FlattenAll(tail), q);
      var m1 := Run1(fetch, ignore, m, s, inLoop, underIf, mid);
      m' := RunRest(fetch, ignore, m, m.np, m1, s, tail, inLoop, underIf, q);
      ReachesTrans(fetch, ignore, m, m1, m');
  }

  /** The statements after a first one that has ended as it should. */
  lemma {:induction false} RunRest(fetch: Image, ignore: bool, m: Machine, np: Parser, m1: Machine, s: Stmt,
                                   tail: Stmts, inLoop: bool, underIf: bool, q: nat) returns (m': Machine)
    requires Executes(m, np, inLoop, underIf) && BreaksPlacedAll(Cons(s, tail), inLoop, underIf)
    requires Fits(np, IfDepthAll(tail), LoopDepthAll(tail))
    requires Ends(m, np, Act(s, inLoop, ignore, m.results), m1, m1.pc)
    requires m1.status == Running ==> Stands(fetch, m1.pc, FlattenAll(tail), q)
    ensures Reaches(fetch, ignore, m1, m')
    ensures Ends(m, np, ActAll(Cons(s, tail), inLoop, ignore, m.results), m', q)
    decreases |m.results|, tail, 1
  {
    var e1 := Act(s, inLoop, ignore, m.results);
    match e1.end
    case Finished =>
      ExecutesOn(m, np, m1, inLoop, underIf);
      m' := RunAll(fetch, ignore, m1, tail, inLoop, underIf, q);
      EndsAfter(m, np, e1, m1, ActAll(tail, inLoop, ignore, e1.rest), m', q);
    case Broke =>
      WhereBroke(s, inLoop, underIf, ignore, m.results);
      BrokenSkips(m, np, m1, underIf);
      BrokePlaced(s, tail, ignore, m.results);
      m' := PassLeaking(fetch, ignore, m1, tail, q);
      EndsBroken(m, np, e1, m1, LeakAll(tail, ignore, e1.rest), m', q);
    case Stopped => ReachesSelf(fetch, ignore, m1); m' := m1;
    case OutOfResults => ReachesSelf(fetch, ignore, m1); m' := m1;
  }

  /** Behind a break the loops are placed as well. */
  lemma {:induction false} BrokePlaced(s: Stmt, tail: Stmts, ignore: bool, results: seq<bool>)
    requires BreaksPlacedAll(Cons(s, tail), true, false) && Act(s, true, ignore, results).end == Broke
    ensures LoopsPlaced(tail)
  {
    if !s.BreakLoop? {
      PlacedLoops(tail);
    }
  }

  lemma {:induction false} PlacedLoops(ss: Stmts)
    requires BreaksPlacedAll(ss, true, false)
    ensures LoopsPlaced(ss)
  {
    if ss.Cons? && !ss.head.BreakLoop? {
      PlacedLoops(ss.tail);
    }
  }

  /** Statements in the body of a loop that is left: nothing is executed but the loops among them. */
  lemma {:induction false} PassLeaking(fetch: Image, ignore: bool, m: Machine, ss: Stmts, q: nat) returns (m': Machine)
    requires Ready(m) && !m.np.Enabled() && m.np.ItefEnabled() && LoopsPlaced(ss)
    requires Fits(m.np, IfDepthAll(ss), LoopDepthAll(ss))
    requires Stands(fetch, m.pc, FlattenAll(ss), q)
    ensures Reaches(fetch, ignore, m, m')
    ensures Ends(m, m.np, LeakAll(ss, ignore, m.results), m', q)
    decreases |m.results|, ss, 0
  {
    match ss
    case Nil =>
      m' := PassBlank(fetch, ignore, m, q);
      assert m.trace + [] == m.trace;
    case Cons(s, tail) =>
      var mid := Split(fetch, m.pc, Flatten(s), FlattenAll(tail), q);
      var m1;
      if s.LoopOver? {
        m1 := RunLoop(fetch, ignore, m, s, mid);
        m' := PassLeakingRest(fetch, ignore, m, m1, s, tail, q);
      } else {
        m1 := Skip(fetch, ignore, m, s, mid);
        PassedReady(m, m.np, m1, mid);
        m' := PassLeaking(fetch, ignore, m1, tail, q);
        EndsLater(m, m.np, m1, LeakAll(tail, ignore, m.results), m', q);
      }
      ReachesTrans(fetch, ignore, m, m1, m');
  }

  /** The statements after a loop among them. */
  lemma {:induction false} PassLeakingRest(fetch: Image, ignore: bool, m: Machine, m1: Machine, s: Stmt, tail: Stmts,
                                           q: nat) returns (m': Machine)
    requires s.LoopOver? && Ready(m) && !m.np.Enabled() && m.np.ItefEnabled() && LoopsPlaced(tail)
    requires Fits(m.np, IfDepthAll(tail), LoopDepthAll(tail))
    requires Ends(m, m.np, ActLoop(s, ignore, m.results), m1, m1.pc)
    requires m1.status == Running ==> Stands(fetch, m1.pc, FlattenAll(tail), q)
    ensures Reaches(fetch, ignore, m1, m')
    ensures Ends(m, m.np, LeakAll(Cons(s, tail), ignore, m.results), m', q)
    decreases |m.results|, tail, 1
  {
    var e1 := ActLoop(s, ignore, m.results);
    if e1.end == Finished {
      AgreeTops(m.np, m1.np);
      m' := PassLeaking(fetch, ignore, m1, tail, q);
      EndsAfter(m, m.np, e1, m1, LeakAll(tail, ignore, e1.rest), m', q);
    } else {
      ReachesSelf(fetch, ignore, m1);
      m' := m1;
    }
  }

  /** The body of a loop that is not entered. */
  lemma {:induction false} PassBody(fetch: Image, ignore: bool, m: Machine, b: Block, q: nat) returns (m': Machine)
    requires Opens(m, Do) && LoopsPlaced(b.stmts)
    requires var np := Opened(m.np, Do);
             && !np.Enabled() && np.ItefEnabled() && Fits(np, IfDepthAll(b.stmts), LoopDepthAll(b.stmts))
    requires Stands(fetch, m.pc, FlattenBlock(Do, b), q)
    ensures Reaches(fetch, ignore, m, m')
    ensures Ends(m, Opened(m.np, Do), LeakAll(b.stmts, ignore, m.results), m', q)
    decreases |m.results|, b.stmts, 2
  {
    var m1;
    LedReady(After(Do), m);
    if b.fused && b.stmts.Cons? && IsCommand(b.stmts.head) {
      m1 := DoSkip(fetch, ignore, m, After(Do), CommandWords(b.stmts.head), FlattenAll(b.stmts.tail), q);
      m' := PassLeaking(fetch, ignore, m1, b.stmts.tail, q);
    } else if Joins(Do, b) {
      m1 := SkipJoined(fetch, ignore, m, b.stmts.head, FlattenAll(b.stmts.tail), q);
      PassedReady(m, Opened(m.np, Do), m1, m1.pc);
      m' := PassLeaking(fetch, ignore, m1, b.stmts.tail, q);
    } else {
      m1 := DoOpener(fetch, ignore, m, Do, FlattenAll(b.stmts), q);
      m' := PassLeaking(fetch, ignore, m1, b.stmts, q);
    }
    EndsLater(m, Opened(m.np, Do), m1, LeakAll(b.stmts, ignore, m.results), m', q);
    ReachesTrans(fetch, ignore, m, m1, m');
  }

  lemma {:induction false} RunBlock(fetch: Image, ignore: bool, m: Machine, opener: Word, b: Block, inLoop: bool,
                                    underIf: bool, q: nat) returns (m': Machine)
    requires Opens(m, opener)
    requires var np := Opened(m.np, opener);
             Executes(m, np, inLoop, underIf) && Fits(np, IfDepthAll(b.stmts), LoopDepthAll(b.stmts))
    requires BreaksPlacedAll(b.stmts, inLoop, underIf)
    requires Stands(fetch, m.pc, FlattenBlock(opener, b), q)
    ensures Reaches(fetch, ignore, m, m')
    ensures Ends(m, Opened(m.np, opener), ActAll(b.stmts, inLoop, ignore, m.results), m', q)
    decreases |m.results|, b, 2
  {
    var m1;
    if b.fused && b.stmts.Cons? && IsCommand(b.stmts.head) {
      m1 := RunCommand(fetch, ignore, m, After(opener), b.stmts.head, inLoop, underIf, FlattenAll(b.stmts.tail), q);
      m' := RunRest(fetch, ignore, m, Opened(m.np, opener), m1, b.stmts.head, b.stmts.tail, inLoop, underIf, q);
    } else if Joins(opener, b) {
      m1 := RunJoined(fetch, ignore, m, b.stmts.head, inLoop, underIf, FlattenAll(b.stmts.tail), q);
      m' := RunRest(fetch, ignore, m, Opened(m.np, opener), m1, b.stmts.head, b.stmts.tail, inLoop, underIf, q);
    } else {
      m1 := DoOpener(fetch, ignore, m, opener, FlattenAll(b.stmts), q);
      m' := RunAll(fetch, ignore, m1, b.stmts, inLoop, underIf, q);
    }
    ReachesTrans(fetch, ignore, m, m1, m');
  }

  /** An `if` right behind the `do` of its loop. */
  lemma {:induction false} RunJoined(fetch: Image, ignore: bool, m: Machine, s: Stmt, inLoop: bool, underIf: bool,
                                     rest: seq<Command>, q: nat) returns (m': Machine)
    requires s.IfElse? && Opens(m, Do) && BreaksPlaced(s, inLoop, underIf)
    requires var np := Opened(m.np, Do); Executes(m, np, inLoop, underIf) && Fits(np, IfDepth(s), LoopDepth(s))
    requires Stands(fetch, m.pc, [[Do] + IfWords(s.inverted, s.cond)] + (IfTail(s) + rest), q)
    ensures Reaches(fetch, ignore, m, m')
    ensures Ends(m, Opened(m.np, Do), Act(s, inLoop, ignore, m.results), m', m'.pc)
    ensures m'.status == Running ==> Stands(fetch, m'.pc, rest, q)
    decreases |m.results|, s, 6
  {
    var m1 := DoIf(fetch, ignore, m, After(Do), s.inverted, s.cond, IfTail(s) + rest, q);
    var mid := Split(fetch, m1.pc, IfTail(s), rest, q);
    m' := RunTail(fetch, ignore, Led(After(Do), m), m1, s, inLoop, underIf, mid);
    ReachesTrans(fetch, ignore, m, m1, m');
  }

  lemma {:induction false} Run1(fetch: Image, ignore: bool, m: Machine, s: Stmt, inLoop: bool, underIf: bool, q: nat)
      returns (m': Machine)
    requires Executes(m, m.np, inLoop, underIf) && BreaksPlaced(s, inLoop, underIf)
    requires Fits(m.np, IfDepth(s), LoopDepth(s))
    requires Stands(fetch, m.pc, Flatten(s), q)
    ensures Reaches(fetch, ignore, m, m')
    ensures Ends(m, m.np, Act(s, inLoop, ignore, m.results), m', q)
    decreases |m.results|, s, 7
  {
    match s
    case Run(_) => m' := RunAlone(fetch, ignore, m, s, inLoop, underIf, q);
    case BreakLoop => m' := RunAlone(fetch, ignore, m, s, inLoop, underIf, q);
    case IfElse(_, _, _, _) => m' := RunIf(fetch, ignore, m, s, inLoop, underIf, q);
    case LoopOver(_, _, _) => m' := RunLoop(fetch, ignore, m, s, q);
  }

  lemma RunAlone(fetch: Image, ignore: bool, m: Machine, s: Stmt, inLoop: bool, underIf: bool, q: nat)
      returns (m': Machine)
    requires IsCommand(s) && Executes(m, m.np, inLoop, underIf) && BreaksPlaced(s, inLoop, underIf)
    requires Stands(fetch, m.pc, Flatten(s), q)
    ensures Reaches(fetch, ignore, m, m')
    ensures Ends(m, m.np, Act(s, inLoop, ignore, m.results), m', q)
  {
    assert Flatten(s) == [LeadWords(Alone, CommandWords(s))] + [];
    m' := RunCommand(fetch, ignore, m, Alone, s, inLoop, underIf, [], q);
    if m'.status == Running {
      var m1 := m';
      m' := PassBlank(fetch, ignore, m1, q);
      ReachesTrans(fetch, ignore, m, m1, m');
    }
  }

  lemma {:induction false} RunIf(fetch: Image, ignore: bool, m: Machine, s: Stmt, inLoop: bool, underIf: bool, q: nat)
      returns (m': Machine)
    requires s.IfElse? && Executes(m, m.np, inLoop, underIf) && BreaksPlaced(s, inLoop, underIf)
    requires Fits(m.np, IfDepth(s), LoopDepth(s))
    requires Stands(fetch, m.pc, Flatten(s), q)
    ensures Reaches(fetch, ignore, m, m')
    ensures Ends(m, m.np, Act(s, inLoop, ignore, m.results), m', q)
    decreases |m.results|, s, 6
  {
    assert Flatten(s) == [LeadWords(Alone, IfWords(s.inverted, s.cond))] + IfTail(s);
    var m1 := DoIf(fetch, ignore, m, Alone, s.inverted, s.cond, IfTail(s), q);
    m' := RunTail(fetch, ignore, m, m1, s, inLoop, underIf, q);
    ReachesTrans(fetch, ignore, m, m1, m');
  }

  /** From behind the condition, read in `m`, to past `fi`. */
  lemma {:induction false} RunTail(fetch: Image, ignore: bool, m: Machine, m1: Machine, s: Stmt, inLoop: bool,
                                   underIf: bool, q: nat) returns (m': Machine)
    requires s.IfElse? && Executes(m, m.np, inLoop, underIf) && BreaksPlaced(s, inLoop, underIf)
    requires Fits(m.np, IfDepth(s), LoopDepth(s))
    requires m1 == IfOpened(m, s.inverted, s.cond, m1.pc) && Stands(fetch, m1.pc, IfTail(s), q)
    ensures Reaches(fetch, ignore, m1, m')
    ensures Ends(m, m.np, Act(s, inLoop, ignore, m.results), m', q)
    decreases |m.results|, s, 5
  {
    if m.results == [] {
      ReachesSelf(fetch, ignore, m1);
      assert m.trace + [] == m.trace;
      m' := m1;
    } else {
      var tail := FlattenElse(s.els) + [[Fi]];
      var mid := Split(fetch, m1.pc, FlattenBlock(Then, s.thn), tail, q);
      if m.results[0] == s.inverted {
        m' := TakeThen(fetch, ignore, m, m1, s, inLoop, underIf, mid, q);
      } else {
        m' := TakeElse(fetch, ignore, m, m1, s, inLoop, underIf, mid, q);
      }
    }
  }

  /** `m1` is `m` after the condition of `s`, which has opened the record `r`. */
  ghost predicate InIf(m: Machine, s: Stmt, m1: Machine) {
    && s.IfElse? && m.results != [] && m.np.iendx + 1 < |m.np.ie|
    && m1 == m.(np := m.np.(fail := false).SetIf(m.np.iendx + 1, IfRecord(s, m.results[0])), pc := m1.pc,
                results := m.results[1..], trace := m.trace + [Event(s.cond, m.results[0])])
  }

  function IfRecord(s: Stmt, failed: bool): Itef
    requires s.IfElse?
  {
    Itef(ItefIf, false, s.inverted != failed, s.inverted)
  }

  /** `m'` is what the meaning `e` of a branch promises of `m1`, with the `if` closed at `q`. */
  ghost predicate EndsBranch(m: Machine, m1: Machine, e: Meaning, m': Machine, q: nat) {
    && m'.trace == m1.trace + e.trace
    && match e.end
       case Finished => m'.status == Running && m'.pc == q && m'.results == e.rest && Agree(m.np, m'.np) && !m'.np.jump
       case Broke => false
       case Stopped => m'.status == Failed
       case OutOfResults => m'.status == Starved
  }

  lemma EndsIf(m: Machine, s: Stmt, m1: Machine, e: Meaning, m': Machine, q: nat)
    requires InIf(m, s, m1) && EndsBranch(m, m1, e, m', q)
    ensures Ends(m, m.np, e.After([Event(s.cond, m.results[0])]), m', q)
  {
    var ev := [Event(s.cond, m.results[0])];
    assert m.trace + (ev + e.trace) == m.trace + ev + e.trace;
  }

  /** The state in which the `then` part begins. */
  lemma ThenOpened(m: Machine, m1: Machine, s: Stmt, inLoop: bool, underIf: bool)
    requires Executes(m, m.np, inLoop, underIf) && InIf(m, s, m1)
    ensures Opens(m1, Then)
    ensures var np := Opened(m1.np, Then);
      && np == m.np.(fail := false).SetIf(m.np.iendx + 1, IfRecord(s, m.results[0]).(state := ItefThen))
      && np.Safe(|np.ie|) && np.TopIf() == IfRecord(s, m.results[0]).(state := ItefThen) && !np.AwaitsCondition()
      && np.iendx == m.np.iendx + 1 && np.lpndx == m.np.lpndx && |np.ie| == |m.np.ie| && |np.lp| == |m.np.lp|
      && (if m.results[0] == s.inverted then Executes(m1, np, inLoop, true) else !np.ItefEnabled())
  {
    PushIf(m.np.(fail := false), IfRecord(s, m.results[0]));
  }

  lemma {:induction false} TakeThen(fetch: Image, ignore: bool, m: Machine, m1: Machine, s: Stmt, inLoop: bool,
                                    underIf: bool, mid: nat, q: nat) returns (m': Machine)
    requires Executes(m, m.np, inLoop, underIf) && InIf(m, s, m1) && m.results[0] == s.inverted
    requires BreaksPlacedAll(s.thn.stmts, inLoop, true) && Fits(m.np, IfDepth(s), LoopDepth(s))
    requires Stands(fetch, m1.pc, FlattenBlock(Then, s.thn), mid)
    requires Stands(fetch, mid, FlattenElse(s.els) + [[Fi]], q)
    ensures Reaches(fetch, ignore, m1, m')
    ensures Ends(m, m.np, Act(s, inLoop, ignore, m.results), m', q)
    decreases |m.results|, s, 3
  {
    ThenOpened(m, m1, s, inLoop, underIf);
    var m2 := RunBlock(fetch, ignore, m1, Then, s.thn, inLoop, true, mid);
    var e := ActAll(s.thn.stmts, inLoop, ignore, m1.results);
    NoBreakAll(s.thn.stmts, inLoop, ignore, m1.results);
    if e.end == Finished {
      m' := PassElse(fetch, ignore, m, m1, m2, s, inLoop, underIf, q);
      ReachesTrans(fetch, ignore, m1, m2, m');
    } else {
      m' := m2;
    }
    EndsIf(m, s, m1, e, m', q);
  }

  /** From the end of a `then` part that was executed to past `fi`. */
  lemma PassElse(fetch: Image, ignore: bool, m: Machine, m1: Machine, m2: Machine, s: Stmt, inLoop: bool, underIf: bool,
                 q: nat) returns (m': Machine)
    requires Executes(m, m.np, inLoop, underIf) && InIf(m, s, m1) && m.results[0] == s.inverted
    requires Fits(m.np, IfDepth(s), LoopDepth(s))
    requires m2.status == Running && Agree(Opened(m1.np, Then), m2.np) && !m2.np.jump
    requires Stands(fetch, m2.pc, FlattenElse(s.els) + [[Fi]], q)
    ensures Reaches(fetch, ignore, m2, m')
    ensures m' == m2.(np := m'.np, pc := q) && Agree(m.np, m'.np) && !m'.np.jump
  {
    ThenOpened(m, m1, s, inLoop, underIf);
    AgreeTops(Opened(m1.np, Then), m2.np);
    m' := SkipElse(fetch, ignore, m2, s.els, q);
    PopIf(m.np, IfRecord(s, m.results[0]).(state := ItefThen), m2.np);
    AgreeTrans(m.np, m2.np.(iendx := m.np.iendx), m'.np);
  }

  lemma {:induction false} TakeElse(fetch: Image, ignore: bool, m: Machine, m1: Machine, s: Stmt, inLoop: bool,
                                    underIf: bool, mid: nat, q: nat) returns (m': Machine)
    requires Executes(m, m.np, inLoop, underIf) && InIf(m, s, m1) && m.results[0] != s.inverted
    requires s.els.ElseBranch? ==> BreaksPlacedAll(s.els.block.stmts, inLoop, true)
    requires Fits(m.np, IfDepth(s), LoopDepth(s))
    requires Stands(fetch, m1.pc, FlattenBlock(Then, s.thn), mid)
    requires Stands(fetch, mid, FlattenElse(s.els) + [[Fi]], q)
    ensures Reaches(fetch, ignore, m1, m')
    ensures Ends(m, m.np, Act(s, inLoop, ignore, m.results), m', q)
    decreases |m.results|, s, 4
  {
    ThenOpened(m, m1, s, inLoop, underIf);
    var m2 := SkipBlock(fetch, ignore, m1, Then, s.thn, mid);
    PassedReady(m1, Opened(m1.np, Then), m2, mid);
    var e := ActAll(ElseStmts(s.els), inLoop, ignore, m1.results);
    m' := FinishElse(fetch, ignore, m, m2, s, inLoop, underIf, q);
    ReachesTrans(fetch, ignore, m1, m2, m');
    EndsIf(m, s, m1, e, m', q);
  }

  /** From the end of a `then` part that was passed over to past `fi`. */
  lemma {:induction false} FinishElse(fetch: Image, ignore: bool, m: Machine, m2: Machine, s: Stmt, inLoop: bool,
                                      underIf: bool, q: nat) returns (m': Machine)
    requires s.IfElse? && Executes(m, m.np, inLoop, underIf) && m.np.iendx + 1 < |m.np.ie|
    requires |m2.results| < |m.results| && Ready(m2)
    requires Agree(m.np.SetIf(m.np.iendx + 1, Itef(ItefThen, false, true, s.inverted)), m2.np)
    requires s.els.ElseBranch? ==> BreaksPlacedAll(s.els.block.stmts, inLoop, true)
    requires Fits(m.np, IfDepth(s), LoopDepth(s))
    requires Stands(fetch, m2.pc, FlattenElse(s.els) + [[Fi]], q)
    ensures Reaches(fetch, ignore, m2, m')
    ensures EndsBranch(m, m2, ActAll(ElseStmts(s.els), inLoop, ignore, m2.results), m', q)
    decreases |m.results|, s, 3
  {
    if s.els.NoElse? {
      m' := JustFi(fetch, ignore, m, m2, s, q);
      assert m2.trace + [] == m2.trace;
    } else {
      m' := ElseThenFi(fetch, ignore, m, m2, s, inLoop, underIf, q);
    }
  }

  lemma JustFi(fetch: Image, ignore: bool, m: Machine, m2: Machine, s: Stmt, q: nat) returns (m': Machine)
    requires s.IfElse? && s.els.NoElse? && m.np.iendx + 1 < |m.np.ie| && Ready(m2)
    requires Agree(m.np.SetIf(m.np.iendx + 1, Itef(ItefThen, false, true, s.inverted)), m2.np)
    requires Stands(fetch, m2.pc, FlattenElse(s.els) + [[Fi]], q)
    ensures Reaches(fetch, ignore, m2, m')
    ensures m' == m2.(np := m'.np, pc := q) && Agree(m.np, m'.np) && !m'.np.jump
  {
    assert FlattenElse(s.els) + [[Fi]] == [[Fi]];
    AgreeTops(m.np.SetIf(m.np.iendx + 1, Itef(ItefThen, false, true, s.inverted)), m2.np);
    PopIf(m.np, Itef(ItefThen, false, true, s.inverted), m2.np);
    m' := DoFi(fetch, ignore, m2, q);
  }

  lemma {:induction false} ElseThenFi(fetch: Image, ignore: bool, m: Machine, m2: Machine, s: Stmt, inLoop: bool,
                                      underIf: bool, q: nat) returns (m': Machine)
    requires s.IfElse? && s.els.ElseBranch? && Executes(m, m.np, inLoop, underIf) && m.np.iendx + 1 < |m.np.ie|
    requires |m2.results| < |m.results| && Ready(m2)
    requires Agree(m.np.SetIf(m.np.iendx + 1, Itef(ItefThen, false, true, s.inverted)), m2.np)
    requires BreaksPlacedAll(s.els.block.stmts, inLoop, true)
    requires Fits(m.np, IfDepth(s), LoopDepth(s))
    requires Stands(fetch, m2.pc, FlattenElse(s.els) + [[Fi]], q)
    ensures Reaches(fetch, ignore, m2, m')
    ensures EndsBranch(m, m2, ActAll(s.els.block.stmts, inLoop, ignore, m2.results), m', q)
    decreases |m.results|, s, 2
  {
    var b := s.els.block;
    var mid := Split(fetch, m2.pc, FlattenBlock(Else, b), [[Fi]], q);
    ElseOpened(m, m2, s, inLoop, underIf);
    var m3 := RunBlock(fetch, ignore, m2, Else, b, inLoop, true, mid);
    NoBreakAll(b.stmts, inLoop, ignore, m2.results);
    if m3.status == Running {
      m' := CloseElse(fetch, ignore, m, m2, m3, s, inLoop, underIf, q);
      ReachesTrans(fetch, ignore, m2, m3, m');
    } else {
      m' := m3;
    }
  }

  /** From the end of an `else` part that was executed to past `fi`. */
  lemma CloseElse(fetch: Image, ignore: bool, m: Machine, m2: Machine, m3: Machine, s: Stmt, inLoop: bool,
                  underIf: bool, q: nat) returns (m': Machine)
    requires s.IfElse? && Executes(m, m.np, inLoop, underIf) && m.np.iendx + 1 < |m.np.ie| && Ready(m2)
    requires Agree(m.np.SetIf(m.np.iendx + 1, Itef(ItefThen, false, true, s.inverted)), m2.np)
    requires m3.status == Running && Agree(Opened(m2.np, Else), m3.np) && !m3.np.jump
    requires Stands(fetch, m3.pc, [[Fi]], q)
    ensures Reaches(fetch, ignore, m3, m')
    ensures m' == m3.(np := m'.np, pc := q) && Agree(m.np, m'.np) && !m'.np.jump
  {
    var record := m.np.SetIf(m.np.iendx + 1, Itef(ItefElse, false, true, s.inverted));
    ElseOpened(m, m2, s, inLoop, underIf);
    AgreeTops(Opened(m2.np, Else), m3.np);
    m' := DoFi(fetch, ignore, m3, q);
    AgreeTrans(record, Opened(m2.np, Else), m3.np);
    PopIf(m.np, Itef(ItefElse, false, true, s.inverted), m3.np);
  }

  /** The state in which the `else` part begins. */
  lemma ElseOpened(m: Machine, m2: Machine, s: Stmt, inLoop: bool, underIf: bool)
    requires s.IfElse? && Executes(m, m.np, inLoop, underIf) && m.np.iendx + 1 < |m.np.ie| && Ready(m2)
    requires Agree(m.np.SetIf(m.np.iendx + 1, Itef(ItefThen, false, true, s.inverted)), m2.np)
    ensures Opens(m2, Else)
    ensures var np := Opened(m2.np, Else);
      && Executes(m2, np, inLoop, true) && np.TopIf().state == ItefElse && np.iendx >= 1
      && np.iendx == m.np.iendx + 1 && np.lpndx == m.np.lpndx && |np.ie| == |m.np.ie| && |np.lp| == |m.np.lp|
      && Agree(m.np.SetIf(m.np.iendx + 1, Itef(ItefElse, false, true, s.inverted)), np)
  {
    AgreeTops(m.np.SetIf(m.np.iendx + 1, Itef(ItefThen, false, true, s.inverted)), m2.np);
    OpenedAgree(m.np.SetIf(m.np.iendx + 1, Itef(ItefThen, false, true, s.inverted)), m2.np, Else);
  }

  // ---------- loops ----------

  function LoopRecord(s: Stmt, failed: bool, np: Parser, p: nat): Loop
    requires s.LoopOver?
  {
    Loop(LoopKind(s.until), failed == s.until, np.iendx, p)
  }

  /** `m1` is `m` after the condition of the loop `s` at the offset `p`. */
  ghost predicate InLoop(m: Machine, s: Stmt, p: nat, m1: Machine) {
    && s.LoopOver? && m.results != [] && m.np.lpndx + 1 < |m.np.lp|
    && m1 == m.(np := m.np.(fail := false).SetLoop(m.np.lpndx + 1, LoopRecord(s, m.results[0], m.np, p)), pc := m1.pc,
                results := m.results[1..], trace := m.trace + [Event(s.cond, m.results[0])])
  }

  /** The state in which the body of a loop begins. */
  lemma DoOpened(m: Machine, m1: Machine, s: Stmt, p: nat)
    requires Ready(m) && m.np.ItefEnabled() && InLoop(m, s, p, m1)
    ensures Opens(m1, Do)
    ensures var np := Opened(m1.np, Do);
      && np == m.np.(fail := false).SetLoop(m.np.lpndx + 1, LoopRecord(s, m.results[0], m.np, p).(state := LoopDo))
      && np.Safe(|np.ie|) && np.TopLoop() == LoopRecord(s, m.results[0], m.np, p).(state := LoopDo)
      && np.TopIf().state != ItefIf && np.ItefEnabled()
      && np.iendx == m.np.iendx && np.lpndx == m.np.lpndx + 1 && |np.ie| == |m.np.ie| && |np.lp| == |m.np.lp|
      && (if m.results[0] == s.until then Executes(m1, np, true, false) else !np.Enabled())
  {
    PushLoop(m.np.(fail := false), LoopRecord(s, m.results[0], m.np, p));
  }

  /** A loop is executed wherever no `if` is in the way, also where an enclosing loop is disabled. */
  lemma {:induction false} RunLoop(fetch: Image, ignore: bool, m: Machine, s: Stmt, q: nat) returns (m': Machine)
    requires s.LoopOver? && Ready(m) && m.np.ItefEnabled() && BreaksPlaced(s, true, false)
    requires Fits(m.np, IfDepth(s), LoopDepth(s))
    requires Stands(fetch, m.pc, Flatten(s), q)
    ensures Reaches(fetch, ignore, m, m')
    ensures Ends(m, m.np, ActLoop(s, ignore, m.results), m', q)
    decreases |m.results|, s, 3
  {
    var m1, p := DoLoop(fetch, ignore, m, s.until, s.cond, FlattenBlock(Do, s.body) + [[Done]], q);
    if m.results == [] {
      assert m.trace + [] == m.trace;
      m' := m1;
    } else {
      var mid := Split(fetch, m1.pc, FlattenBlock(Do, s.body), [[Done]], q);
      if m.results[0] != s.until {
        PlacedLoops(s.body.stmts);
        m' := LeaveLoop(fetch, ignore, m, m1, s, p, mid, q);
      } else {
        m' := RepeatLoop(fetch, ignore, m, m1, s, p, mid, q);
      }
      ReachesTrans(fetch, ignore, m, m1, m');
    }
  }

  lemma {:induction false} LeaveLoop(fetch: Image, ignore: bool, m: Machine, m1: Machine, s: Stmt, p: nat, mid: nat,
                                     q: nat) returns (m': Machine)
    requires Ready(m) && m.np.ItefEnabled() && InLoop(m, s, p, m1) && m.results[0] != s.until
    requires LoopsPlaced(s.body.stmts) && Fits(m.np, IfDepth(s), LoopDepth(s))
    requires Stands(fetch, m1.pc, FlattenBlock(Do, s.body), mid) && Stands(fetch, mid, [[Done]], q)
    ensures Reaches(fetch, ignore, m1, m')
    ensures Ends(m, m.np, ActLoop(s, ignore, m.results), m', q)
    decreases |m.results|, s, 2
  {
    DoOpened(m, m1, s, p);
    var m2 := PassBody(fetch, ignore, m1, s.body, mid);
    var e := LeakAll(s.body.stmts, ignore, m1.results);
    if e.end == Finished {
      m' := PassDone(fetch, ignore, m, m1, m2, s, p, e, q);
      ReachesTrans(fetch, ignore, m1, m2, m');
    } else {
      m' := m2;
    }
    EndsLoop(m, s, p, m1, e, m', q);
  }

  /** A loop that is left. */
  lemma EndsLoop(m: Machine, s: Stmt, p: nat, m1: Machine, e: Meaning, m': Machine, q: nat)
    requires InLoop(m, s, p, m1) && EndsBranch(m, m1, e, m', q)
    ensures Ends(m, m.np, e.After([Event(s.cond, m.results[0])]), m', q)
  {
    var ev := [Event(s.cond, m.results[0])];
    assert m.trace + (ev + e.trace) == m.trace + ev + e.trace;
  }

  lemma {:induction false} RepeatLoop(fetch: Image, ignore: bool, m: Machine, m1: Machine, s: Stmt, p: nat, mid: nat,
                                      q: nat) returns (m': Machine)
    requires Ready(m) && m.np.ItefEnabled() && InLoop(m, s, p, m1) && m.results[0] == s.until
    requires BreaksPlaced(s, true, false) && Fits(m.np, IfDepth(s), LoopDepth(s))
    requires Stands(fetch, p, Flatten(s), q)
    requires Stands(fetch, m1.pc, FlattenBlock(Do, s.body), mid) && Stands(fetch, mid, [[Done]], q)
    ensures Reaches(fetch, ignore, m1, m')
    ensures Ends(m, m.np, ActLoop(s, ignore, m.results), m', q)
    decreases |m.results|, s, 2
  {
    DoOpened(m, m1, s, p);
    var m2 := RunBlock(fetch, ignore, m1, Do, s.body, true, false, mid);
    var e := ActAll(s.body.stmts, true, ignore, m1.results);
    var ev := [Event(s.cond, m.results[0])];
    assert m.trace + (ev + e.trace) == m.trace + ev + e.trace;
    if m2.status == Running {
      var m3 := PassDone(fetch, ignore, m, m1, m2, s, p, e, q);
      ReachesTrans(fetch, ignore, m1, m2, m3);
      if e.end == Finished {
        AgreeTops(m.np, m3.np);
        m' := RunLoop(fetch, ignore, m3, s, q);
        ReachesTrans(fetch, ignore, m1, m3, m');
        EndsAfter(m, m.np, e.After(ev), m3, ActLoop(s, ignore, e.rest), m', q);
      } else {
        m' := m3;
      }
    } else {
      m' := m2;
    }
  }

  /** `done`: back to the top of the loop after a whole pass, else on. */
  lemma {:induction false} PassDone(fetch: Image, ignore: bool, m: Machine, m1: Machine, m2: Machine, s: Stmt, p: nat,
                                    e: Meaning, q: nat) returns (m3: Machine)
    requires Ready(m) && m.np.ItefEnabled() && InLoop(m, s, p, m1) && m2.status == Running
    requires Ends(m1, Opened(m1.np, Do), e, m2, m2.pc) && Stands(fetch, m2.pc, [[Done]], q)
    ensures Reaches(fetch, ignore, m2, m3)
    ensures m3 == m2.(np := m3.np, pc := if e.end == Finished && m.results[0] == s.until then p else q)
    ensures Agree(m.np, m3.np) && !m3.np.jump
  {
    var r := LoopRecord(s, m.results[0], m.np, p);
    DoOpened(m, m1, s, p);
    if e.end == Finished {
      AgreeTops(Opened(m1.np, Do), m2.np);
      PopLoop(m.np, r.(state := LoopDo), m2.np);
    } else {
      AgreeTops(Broken(Opened(m1.np, Do)), m2.np);
      PopLoop(m.np, r.(state := LoopDo, enable := false), m2.np);
    }
    m3 := DoDone(fetch, ignore, m2, q);
  }

  // ---------- statements without a loop directly in a loop ----------

  /** A statement whose loops are apart is executed as its structure says. */
  lemma RunAsMeant(fetch: Image, ignore: bool, m: Machine, s: Stmt, inLoop: bool, underIf: bool, q: nat)
      returns (m': Machine)
    requires Executes(m, m.np, inLoop, underIf) && BreaksPlaced(s, inLoop, underIf) && LoopsApart(s, inLoop)
    requires Fits(m.np, IfDepth(s), LoopDepth(s))
    requires Stands(fetch, m.pc, Flatten(s), q)
    ensures Reaches(fetch, ignore, m, m')
    ensures Ends(m, m.np, Eval(s, inLoop, ignore, m.results), m', q)
  {
    ActsAsMeant(s, inLoop, underIf, ignore, m.results);
    m' := Run1(fetch, ignore, m, s, inLoop, underIf, q);
  }
}
