/** A `break` under an `if` in a loop, when errors count: the shell closes the `if` together with the
    loop, its `if` index falls behind the text, and the script fails before its end. For
    scripts without a loop inside a loop this makes the limit `BreaksPlaced` of the main
    theorem exact. */
module BreakLimit {
  import opened CText
  import opened ControlState
  import opened Structured
  import opened Machine
  import opened Placement
  import opened Steps
  import opened Advance
  import opened Skipping
  import opened Leaks
  import opened Simulation
  import opened ScriptTheorem
  import opened NestedLoops
  import opened Stray

  predicate Shallow(depth: nat, inLoop: bool) { depth <= if inLoop then 0 else 1 }

  /** The misplaced `break` is not behind another one of the loop. */
  lemma {:induction false} NotBehind(s: Stmt, tail: Stmts, inLoop: bool, underIf: bool)
    requires !BreaksPlacedAll(Cons(s, tail), inLoop, underIf) && BreaksPlaced(s, inLoop, underIf)
    requires Shallow(LoopDepthAll(Cons(s, tail)), inLoop)
    ensures !(s.BreakLoop? && inLoop) && !BreaksPlacedAll(tail, inLoop, underIf)
  {
    if inLoop {
      FlatPlaced(tail);
    }
  }

  // ---------- results that lead to the break and then to the end ----------

  function Tearing(s: Stmt, inLoop: bool, underIf: bool): seq<bool>
    requires !BreaksPlaced(s, inLoop, underIf) && Shallow(LoopDepth(s), inLoop)
  {
    match s
    case BreakLoop => []
    case IfElse(inverted, _, thn, els) =>
      if !BreaksPlacedAll(thn.stmts, inLoop, true) then [inverted] + TearingAll(thn.stmts, inLoop, true)
      else [!inverted] + (match els case ElseBranch(b) => TearingAll(b.stmts, inLoop, true))
    case LoopOver(until, _, body) => [until] + TearingAll(body.stmts, true, false)
  }

  function TearingAll(ss: Stmts, inLoop: bool, underIf: bool): seq<bool>
    requires !BreaksPlacedAll(ss, inLoop, underIf) && Shallow(LoopDepthAll(ss), inLoop)
  {
    match ss
    case Cons(s, tail) =>
      if !BreaksPlaced(s, inLoop, underIf) then
        Tearing(s, inLoop, underIf) + (if inLoop then [] else ShortestAll(tail, false))
      else
        NotBehind(s, tail, inLoop, underIf);
        Shortest(s, inLoop) + TearingAll(tail, inLoop, underIf)
  }

  /** On these results the structured script is left by the break and comes to its end. */
  lemma {:induction false} TearingMeans(s: Stmt, inLoop: bool, underIf: bool, ignore: bool, more: seq<bool>)
    requires !BreaksPlaced(s, inLoop, underIf) && Shallow(LoopDepth(s), inLoop)
    ensures var e := Eval(s, inLoop, ignore, Tearing(s, inLoop, underIf) + more);
      e.end == (if inLoop then Broke else Finished) && e.rest == more
    decreases s
  {
    var results := Tearing(s, inLoop, underIf) + more;
    match s
    case BreakLoop => assert results == more;
    case IfElse(_, _, thn, els) =>
      var chosen := if !BreaksPlacedAll(thn.stmts, inLoop, true) then thn.stmts else els.block.stmts;
      assert results[1..] == TearingAll(chosen, inLoop, true) + more;
      TearingMeansAll(chosen, inLoop, true, ignore, more);
    case LoopOver(_, _, body) =>
      assert results[1..] == TearingAll(body.stmts, true, false) + more;
      TearingMeansAll(body.stmts, true, false, ignore, more);
  }

  lemma {:induction false} TearingMeansAll(ss: Stmts, inLoop: bool, underIf: bool, ignore: bool, more: seq<bool>)
    requires !BreaksPlacedAll(ss, inLoop, underIf) && Shallow(LoopDepthAll(ss), inLoop)
    ensures var e := EvalAll(ss, inLoop, ignore, TearingAll(ss, inLoop, underIf) + more);
      e.end == (if inLoop then Broke else Finished) && e.rest == more
    decreases ss, 1
  {
    match ss
    case Cons(s, tail) =>
      if !BreaksPlaced(s, inLoop, underIf) {
        TearingMeansHead(ss, inLoop, underIf, ignore, more);
      } else {
        NotBehind(s, tail, inLoop, underIf);
        var more1 := TearingAll(tail, inLoop, underIf) + more;
        assert TearingAll(ss, inLoop, underIf) + more == Shortest(s, inLoop) + more1;
        ShortestMeans(s, inLoop, underIf, ignore, more1);
        TearingMeansAll(tail, inLoop, underIf, ignore, more);
      }
  }

  /** The break stands in the first of the statements. */
  lemma {:induction false} TearingMeansHead(ss: Stmts, inLoop: bool, underIf: bool, ignore: bool, more: seq<bool>)
    requires ss.Cons? && !BreaksPlaced(ss.head, inLoop, underIf) && Shallow(LoopDepthAll(ss), inLoop)
    ensures var e := EvalAll(ss, inLoop, ignore, TearingAll(ss, inLoop, underIf) + more);
      e.end == (if inLoop then Broke else Finished) && e.rest == more
    decreases ss, 0
  {
    var tearing := Tearing(ss.head, inLoop, underIf);
    if inLoop {
      assert TearingAll(ss, inLoop, underIf) + more == tearing + more;
      TearingMeans(ss.head, inLoop, underIf, ignore, more);
    } else {
      var more1 := ShortestAll(ss.tail, false) + more;
      assert TearingAll(ss, inLoop, underIf) + more == tearing + more1;
      TearingMeans(ss.head, inLoop, underIf, ignore, more1);
      ShortestMeansAll(ss.tail, false, false, ignore, more);
    }
  }

  // ---------- the machine on these results ----------

  /** The shell, in the state `np`, is level with a text of `d` open ifs. */
  ghost predicate Level(m: Machine, np: Parser, inLoop: bool, underIf: bool, d: nat, loop: Option<nat>) {
    && Executes(m, np, inLoop, underIf) && Calm(np) && np.iendx == d
    && np.lpndx == (if inLoop then 1 else 0)
    && loop == (if inLoop then Some(np.TopLoop().iendx) else None)
    && Bounded(loop, d) && (inLoop && underIf ==> loop.value < d)
  }

  /** The text goes on at `p` with `after`, up to its end `q`. */
  ghost predicate GoesOn(fetch: Image, p: nat, after: seq<Command>, q: nat, d: nat, loop: Option<nat>) {
    Stands(fetch, p, after, q) && Text(after, d, loop, Anything)
  }

  lemma LevelOn(m: Machine, np: Parser, m': Machine, inLoop: bool, underIf: bool, d: nat, loop: Option<nat>)
    requires Level(m, np, inLoop, underIf, d, loop) && Agree(np, m'.np) && m'.status == Running && !m'.np.jump
    ensures Level(m', m'.np, inLoop, underIf, d, loop)
  {
    ExecutesOn(m, np, m', inLoop, underIf);
    AgreeTops(np, m'.np);
  }

  /** Statements in front of what follows. */
  lemma {:induction false} GoesOnAll(fetch: Image, p: nat, ss: Stmts, mid: nat, after: seq<Command>, q: nat, d: nat,
                                     loop: Option<nat>)
    requires Stands(fetch, p, FlattenAll(ss), mid) && GoesOn(fetch, mid, after, q, d, loop)
    requires Bounded(loop, d) && DepthFits(LoopDepthAll(ss), loop)
    ensures GoesOn(fetch, p, FlattenAll(ss) + after, q, d, loop)
  {
    Join(fetch, p, FlattenAll(ss), mid, after, q);
    TextAll(ss, after, d, loop);
  }

  /** The `break` itself: from here on the shell is behind the text. */
  lemma {:induction false} TearBreak(fetch: Image, end: nat, m: Machine, lead: Lead, tail: Stmts, q: nat,
                                     after: seq<Command>, d: nat, loop: Option<nat>) returns (m': Machine)
    requires CanLead(lead, m) && Level(m, Led(lead, m).np, true, true, d, loop)
    requires Stands(fetch, m.pc, [LeadWords(lead, [Break])] + FlattenAll(tail), q) && LoopDepthAll(tail) == 0
    requires GoesOn(fetch, q, after, end, d, loop)
    ensures Reaches(fetch, false, m, m') && Lost(fetch, end, m')
  {
    m' := PopBreak(fetch, m, lead, FlattenAll(tail), q, d, loop);
    GoesOnAll(fetch, m'.pc, tail, q, after, end, d, loop);
    PoppedBehind(fetch, end, m, Led(lead, m).np, d, loop);
    assert Astray(fetch, end, m', FlattenAll(tail) + after, d, loop, Anything, []);
  }

  lemma {:induction false} PopBreak(fetch: Image, m: Machine, lead: Lead, rest: seq<Command>, q: nat, d: nat,
                                    loop: Option<nat>) returns (m': Machine)
    requires CanLead(lead, m) && Level(m, Led(lead, m).np, true, true, d, loop)
    requires Stands(fetch, m.pc, [LeadWords(lead, [Break])] + rest, q)
    ensures Reaches(fetch, false, m, m') && m'.status == Running && m'.np == Popped(Led(lead, m).np)
    ensures Stands(fetch, m'.pc, rest, q)
  {
    var m1 := Locate(fetch, false, m, LeadWords(lead, [Break]), rest, q);
    var f := fetch(m1.pc);
    LedReady(lead, m1);
    LedStep(f, false, m1, lead, [Break]);
    StepBreakPop(f.(words := [Break]), false, Led(lead, m1));
    m' := StepOn(f, false, m1);
    Go(fetch, false, m1, m');
    ReachesTrans(fetch, false, m, m1, m');
  }

  lemma PoppedBehind(fetch: Image, end: nat, m: Machine, np: Parser, d: nat, loop: Option<nat>)
    requires Level(m, np, true, true, d, loop)
    ensures Behind(fetch, end, Popped(np), d, loop, Anything, [])
  {
  }

  lemma {:induction false} TearAll(fetch: Image, end: nat, m: Machine, ss: Stmts, inLoop: bool, underIf: bool, q: nat,
                                   after: seq<Command>, d: nat, loop: Option<nat>, more: seq<bool>)
      returns (m': Machine)
    requires Level(m, m.np, inLoop, underIf, d, loop) && GoesOn(fetch, q, after, end, d, loop)
    requires !BreaksPlacedAll(ss, inLoop, underIf) && Shallow(LoopDepthAll(ss), inLoop)
    requires Fits(m.np, IfDepthAll(ss), LoopDepthAll(ss)) && Stands(fetch, m.pc, FlattenAll(ss), q)
    requires m.results == TearingAll(ss, inLoop, underIf) + more
    ensures Reaches(fetch, false, m, m') && Lost(fetch, end, m')
    decreases ss, 0
  {
    match ss
    case Cons(s, tail) =>
      if !BreaksPlaced(s, inLoop, underIf) {
        m' := TearHead(fetch, end, m, s, tail, inLoop, underIf, q, after, d, loop, more);
      } else {
        var mid := Split(fetch, m.pc, Flatten(s), FlattenAll(tail), q);
        DepthApart(s, inLoop);
        NotBehind(s, tail, inLoop, underIf);
        var m1 := RunAsMeant(fetch, false, m, s, inLoop, underIf, mid);
        m' := TearRest(fetch, end, m, m.np, m1, s, tail, inLoop, underIf, q, after, d, loop, more);
        ReachesTrans(fetch, false, m, m1, m');
      }
  }

  lemma {:induction false} TearHead(fetch: Image, end: nat, m: Machine, s: Stmt, tail: Stmts, inLoop: bool,
                                    underIf: bool, q: nat, after: seq<Command>, d: nat, loop: Option<nat>,
                                    more: seq<bool>) returns (m': Machine)
    requires Level(m, m.np, inLoop, underIf, d, loop) && GoesOn(fetch, q, after, end, d, loop)
    requires !BreaksPlaced(s, inLoop, underIf) && Shallow(LoopDepthAll(Cons(s, tail)), inLoop)
    requires Fits(m.np, IfDepth(s), LoopDepth(s)) && Stands(fetch, m.pc, FlattenAll(Cons(s, tail)), q)
    requires m.results == TearingAll(Cons(s, tail), inLoop, underIf) + more
    ensures Reaches(fetch, false, m, m') && Lost(fetch, end, m')
    decreases Cons(s, tail), 0, 0
  {
    if s.BreakLoop? {
      assert FlattenAll(Cons(s, tail)) == [LeadWords(Alone, [Break])] + FlattenAll(tail);
      m' := TearBreak(fetch, end, m, Alone, tail, q, after, d, loop);
    } else {
      var mid := Split(fetch, m.pc, Flatten(s), FlattenAll(tail), q);
      GoesOnAll(fetch, mid, tail, q, after, end, d, loop);
      var more1 := (if inLoop then [] else ShortestAll(tail, false)) + more;
      assert m.results == Tearing(s, inLoop, underIf) + more1;
      m' := Tear1(fetch, end, m, s, inLoop, underIf, mid, FlattenAll(tail) + after, d, loop, more1);
    }
  }

  lemma {:induction false} TearRest(fetch: Image, end: nat, m: Machine, np: Parser, m1: Machine, s: Stmt, tail: Stmts,
                                    inLoop: bool, underIf: bool, q: nat, after: seq<Command>, d: nat, loop: Option<nat>,
                                    more: seq<bool>) returns (m': Machine)
    requires Level(m, np, inLoop, underIf, d, loop) && GoesOn(fetch, q, after, end, d, loop)
    requires BreaksPlaced(s, inLoop, underIf) && !(s.BreakLoop? && inLoop)
    requires !BreaksPlacedAll(tail, inLoop, underIf) && Shallow(LoopDepthAll(tail), inLoop)
    requires Fits(np, IfDepthAll(tail), LoopDepthAll(tail))
    requires m.results == Shortest(s, inLoop) + TearingAll(tail, inLoop, underIf) + more
    requires Ends(m, np, Eval(s, inLoop, false, m.results), m1, m1.pc)
    requires m1.status == Running ==> Stands(fetch, m1.pc, FlattenAll(tail), q)
    ensures Reaches(fetch, false, m1, m') && Lost(fetch, end, m')
    decreases tail, 1
  {
    var more1 := TearingAll(tail, inLoop, underIf) + more;
    assert m.results == Shortest(s, inLoop) + more1;
    ShortestMeans(s, inLoop, underIf, false, more1);
    LevelOn(m, np, m1, inLoop, underIf, d, loop);
    m' := TearAll(fetch, end, m1, tail, inLoop, underIf, q, after, d, loop, more);
  }

  lemma {:induction false} TearBlock(fetch: Image, end: nat, m: Machine, opener: Word, b: Block, inLoop: bool,
                                     underIf: bool, q: nat, after: seq<Command>, d: nat, loop: Option<nat>,
                                     more: seq<bool>) returns (m': Machine)
    requires Opens(m, opener) && Level(m, Opened(m.np, opener), inLoop, underIf, d, loop)
    requires GoesOn(fetch, q, after, end, d, loop)
    requires !BreaksPlacedAll(b.stmts, inLoop, underIf) && Shallow(LoopDepthAll(b.stmts), inLoop)
    requires Fits(Opened(m.np, opener), IfDepthAll(b.stmts), LoopDepthAll(b.stmts))
    requires Stands(fetch, m.pc, FlattenBlock(opener, b), q)
    requires m.results == TearingAll(b.stmts, inLoop, underIf) + more
    ensures Reaches(fetch, false, m, m') && Lost(fetch, end, m')
    decreases b, 0
  {
    var lead := Lead.After(opener);
    if b.fused && IsCommand(b.stmts.head) {
      var s, tail := b.stmts.head, b.stmts.tail;
      if BreaksPlaced(s, inLoop, underIf) {
        NotBehind(s, tail, inLoop, underIf);
        var m1 := RunCommand(fetch, false, m, lead, s, inLoop, underIf, FlattenAll(tail), q);
        m' := TearRest(fetch, end, m, Opened(m.np, opener), m1, s, tail, inLoop, underIf, q, after, d, loop, more);
        ReachesTrans(fetch, false, m, m1, m');
      } else {
        m' := TearBreak(fetch, end, m, lead, tail, q, after, d, loop);
      }
    } else if Joins(opener, b) {
      m' := TearJoined(fetch, end, m, b.stmts.head, b.stmts.tail, inLoop, underIf, q, after, d, loop, more);
    } else {
      var m1 := DoOpener(fetch, false, m, opener, FlattenAll(b.stmts), q);
      m' := TearAll(fetch, end, m1, b.stmts, inLoop, underIf, q, after, d, loop, more);
      ReachesTrans(fetch, false, m, m1, m');
    }
  }

  lemma {:induction false} Tear1(fetch: Image, end: nat, m: Machine, s: Stmt, inLoop: bool, underIf: bool, q: nat,
                                 after: seq<Command>, d: nat, loop: Option<nat>, more: seq<bool>) returns (m': Machine)
    requires !s.BreakLoop? && Level(m, m.np, inLoop, underIf, d, loop) && GoesOn(fetch, q, after, end, d, loop)
    requires !BreaksPlaced(s, inLoop, underIf) && Shallow(LoopDepth(s), inLoop)
    requires Fits(m.np, IfDepth(s), LoopDepth(s)) && Stands(fetch, m.pc, Flatten(s), q)
    requires m.results == Tearing(s, inLoop, underIf) + more
    ensures Reaches(fetch, false, m, m') && Lost(fetch, end, m')
    decreases s, 3
  {
    match s
    case IfElse(_, _, _, _) => m' := TearIf(fetch, end, m, s, inLoop, underIf, q, after, d, loop, more);
    case LoopOver(_, _, _) => m' := TearLoop(fetch, end, m, s, q, after, d, more);
  }

  /** The first of the results chooses the branch with the break. */
  lemma {:induction false} TearingIf(s: Stmt, inLoop: bool, underIf: bool, more: seq<bool>, results: seq<bool>)
    requires s.IfElse? && !BreaksPlaced(s, inLoop, underIf) && Shallow(LoopDepth(s), inLoop)
    requires results == Tearing(s, inLoop, underIf) + more
    ensures results != []
    ensures if !BreaksPlacedAll(s.thn.stmts, inLoop, true) then
        results[0] == s.inverted && results[1..] == TearingAll(s.thn.stmts, inLoop, true) + more
      else
        && results[0] != s.inverted && s.els.ElseBranch? && !BreaksPlacedAll(s.els.block.stmts, inLoop, true)
        && results[1..] == TearingAll(s.els.block.stmts, inLoop, true) + more
  {
  }

  lemma {:induction false} TearIf(fetch: Image, end: nat, m: Machine, s: Stmt, inLoop: bool, underIf: bool, q: nat,
                                  after: seq<Command>, d: nat, loop: Option<nat>, more: seq<bool>) returns (m': Machine)
    requires s.IfElse? && Level(m, m.np, inLoop, underIf, d, loop) && GoesOn(fetch, q, after, end, d, loop)
    requires !BreaksPlaced(s, inLoop, underIf) && Shallow(LoopDepth(s), inLoop)
    requires Fits(m.np, IfDepth(s), LoopDepth(s)) && Stands(fetch, m.pc, Flatten(s), q)
    requires m.results == Tearing(s, inLoop, underIf) + more
    ensures Reaches(fetch, false, m, m') && Lost(fetch, end, m')
    decreases s, 2
  {
    assert Flatten(s) == [LeadWords(Alone, IfWords(s.inverted, s.cond))] + IfTail(s);
    var m1 := DoIf(fetch, false, m, Alone, s.inverted, s.cond, IfTail(s), q);
    m' := TearTail(fetch, end, m, m1, s, inLoop, underIf, q, after, d, loop, more);
    ReachesTrans(fetch, false, m, m1, m');
  }

  /** An `if` right behind the `do` of its loop, and what follows it. */
  lemma {:induction false} TearJoined(fetch: Image, end: nat, m: Machine, s: Stmt, tail: Stmts, inLoop: bool,
                                      underIf: bool, q: nat, after: seq<Command>, d: nat, loop: Option<nat>,
                                      more: seq<bool>) returns (m': Machine)
    requires s.IfElse? && Opens(m, Do) && Level(m, Opened(m.np, Do), inLoop, underIf, d, loop)
    requires GoesOn(fetch, q, after, end, d, loop)
    requires !BreaksPlacedAll(Cons(s, tail), inLoop, underIf) && Shallow(LoopDepthAll(Cons(s, tail)), inLoop)
    requires Fits(Opened(m.np, Do), IfDepthAll(Cons(s, tail)), LoopDepthAll(Cons(s, tail)))
    requires Stands(fetch, m.pc, [[Do] + IfWords(s.inverted, s.cond)] + (IfTail(s) + FlattenAll(tail)), q)
    requires m.results == TearingAll(Cons(s, tail), inLoop, underIf) + more
    ensures Reaches(fetch, false, m, m') && Lost(fetch, end, m')
    decreases Cons(s, tail), 0
  {
    var m1;
    if BreaksPlaced(s, inLoop, underIf) {
      DepthApart(s, inLoop);
      NotBehind(s, tail, inLoop, underIf);
      m1 := RunJoined(fetch, false, m, s, inLoop, underIf, FlattenAll(tail), q);
      ActsAsMeant(s, inLoop, underIf, false, m.results);
      m' := TearRest(fetch, end, m, Opened(m.np, Do), m1, s, tail, inLoop, underIf, q, after, d, loop, more);
    } else {
      assert IfDepth(s) >= 1 && Fits(Opened(m.np, Do), IfDepth(s), LoopDepth(s));
      m1 := DoIf(fetch, false, m, Lead.After(Do), s.inverted, s.cond, IfTail(s) + FlattenAll(tail), q);
      var mid := Split(fetch, m1.pc, IfTail(s), FlattenAll(tail), q);
      GoesOnAll(fetch, mid, tail, q, after, end, d, loop);
      var more1 := (if inLoop then [] else ShortestAll(tail, false)) + more;
      assert m.results == Tearing(s, inLoop, underIf) + more1;
      m' := TearTail(fetch, end, Led(Lead.After(Do), m), m1, s, inLoop, underIf, mid, FlattenAll(tail) + after, d, loop,
                     more1);
    }
    ReachesTrans(fetch, false, m, m1, m');
  }

  /** From behind the condition, read in `m`. */
  lemma {:induction false} TearTail(fetch: Image, end: nat, m: Machine, m1: Machine, s: Stmt, inLoop: bool,
                                    underIf: bool, q: nat, after: seq<Command>, d: nat, loop: Option<nat>,
                                    more: seq<bool>) returns (m': Machine)
    requires s.IfElse? && Level(m, m.np, inLoop, underIf, d, loop) && GoesOn(fetch, q, after, end, d, loop)
    requires !BreaksPlaced(s, inLoop, underIf) && Shallow(LoopDepth(s), inLoop)
    requires Fits(m.np, IfDepth(s), LoopDepth(s)) && Stands(fetch, m1.pc, IfTail(s), q)
    requires m.results == Tearing(s, inLoop, underIf) + more && m1 == IfOpened(m, s.inverted, s.cond, m1.pc)
    ensures Reaches(fetch, false, m1, m') && Lost(fetch, end, m')
    decreases s, 1
  {
    TearingIf(s, inLoop, underIf, more, m.results);
    var mid := Split(fetch, m1.pc, FlattenBlock(Then, s.thn), FlattenElse(s.els) + [[Fi]], q);
    if !BreaksPlacedAll(s.thn.stmts, inLoop, true) {
      m' := TearThen(fetch, end, m, m1, s, inLoop, underIf, mid, q, after, d, loop, more);
    } else {
      m' := TearPastThen(fetch, end, m, m1, s, inLoop, underIf, mid, q, after, d, loop, more);
    }
  }

  lemma {:induction false} TearThen(fetch: Image, end: nat, m: Machine, m1: Machine, s: Stmt, inLoop: bool,
                                    underIf: bool, mid: nat, q: nat, after: seq<Command>, d: nat, loop: Option<nat>,
                                    more: seq<bool>) returns (m': Machine)
    requires InIf(m, s, m1) && Level(m, m.np, inLoop, underIf, d, loop) && GoesOn(fetch, q, after, end, d, loop)
    requires !BreaksPlacedAll(s.thn.stmts, inLoop, true) && Shallow(LoopDepth(s), inLoop)
    requires m.results[0] == s.inverted && m1.results == TearingAll(s.thn.stmts, inLoop, true) + more
    requires Fits(m.np, IfDepth(s), LoopDepth(s))
    requires Stands(fetch, m1.pc, FlattenBlock(Then, s.thn), mid) && Stands(fetch, mid, FlattenElse(s.els) + [[Fi]], q)
    ensures Reaches(fetch, false, m1, m') && Lost(fetch, end, m')
    decreases s, 0
  {
    ThenLevel(m, m1, s, inLoop, underIf, d, loop);
    var rest := GoesOnEnd(fetch, mid, s.els, q, after, end, d, loop);
    m' := TearBlock(fetch, end, m1, Then, s.thn, inLoop, true, mid, rest, d + 1, loop, more);
  }

  lemma {:induction false} GoesOnEnd(fetch: Image, p: nat, els: Branch, q: nat, after: seq<Command>, end: nat, d: nat,
                                     loop: Option<nat>) returns (rest: seq<Command>)
    requires Stands(fetch, p, FlattenElse(els) + [[Fi]], q) && GoesOn(fetch, q, after, end, d, loop) && Bounded(loop, d)
    requires els.ElseBranch? ==> DepthFits(LoopDepthAll(els.block.stmts), loop)
    ensures GoesOn(fetch, p, rest, end, d + 1, loop)
  {
    var tail := FlattenElse(els) + [[Fi]];
    Join(fetch, p, tail, q, after, end);
    TextEnd(els, after, d, loop);
    rest := tail + after;
  }

  /** The text behind a `then` part. */
  lemma {:induction false} TextEnd(els: Branch, after: seq<Command>, d: nat, loop: Option<nat>)
    requires Text(after, d, loop, Anything) && Bounded(loop, d)
    requires els.ElseBranch? ==> DepthFits(LoopDepthAll(els.block.stmts), loop)
    ensures Text(FlattenElse(els) + [[Fi]] + after, d + 1, loop, Anything)
  {
    var fi := [[Fi]] + after;
    TextFi(after, d, loop);
    assert FlattenElse(els) + [[Fi]] + after == FlattenElse(els) + fi;
    if els.ElseBranch? {
      TextBlock(Else, els.block, fi, d + 1, loop);
    } else {
      assert FlattenElse(els) + fi == fi;
    }
  }

  lemma ThenLevel(m: Machine, m1: Machine, s: Stmt, inLoop: bool, underIf: bool, d: nat, loop: Option<nat>)
    requires Level(m, m.np, inLoop, underIf, d, loop) && InIf(m, s, m1) && m.results[0] == s.inverted
    ensures Opens(m1, Then) && Level(m1, Opened(m1.np, Then), inLoop, true, d + 1, loop)
    ensures |Opened(m1.np, Then).ie| == |m.np.ie| && |Opened(m1.np, Then).lp| == |m.np.lp|
  {
    ThenOpened(m, m1, s, inLoop, underIf);
  }

  lemma {:induction false} TearPastThen(fetch: Image, end: nat, m: Machine, m1: Machine, s: Stmt, inLoop: bool,
                                        underIf: bool, mid: nat, q: nat, after: seq<Command>, d: nat, loop: Option<nat>,
                                        more: seq<bool>) returns (m': Machine)
    requires InIf(m, s, m1) && Level(m, m.np, inLoop, underIf, d, loop) && GoesOn(fetch, q, after, end, d, loop)
    requires s.els.ElseBranch? && !BreaksPlacedAll(s.els.block.stmts, inLoop, true) && Shallow(LoopDepth(s), inLoop)
    requires m.results[0] != s.inverted && m1.results == TearingAll(s.els.block.stmts, inLoop, true) + more
    requires Fits(m.np, IfDepth(s), LoopDepth(s))
    requires Stands(fetch, m1.pc, FlattenBlock(Then, s.thn), mid) && Stands(fetch, mid, FlattenElse(s.els) + [[Fi]], q)
    ensures Reaches(fetch, false, m1, m') && Lost(fetch, end, m')
    decreases s, 0, 1
  {
    ThenOpened(m, m1, s, inLoop, underIf);
    var m2 := SkipBlock(fetch, false, m1, Then, s.thn, mid);
    PassedReady(m1, Opened(m1.np, Then), m2, mid);
    m' := TearElse(fetch, end, m, m2, s, inLoop, underIf, q, after, d, loop, more);
    ReachesTrans(fetch, false, m1, m2, m');
  }

  lemma {:induction false} TearElse(fetch: Image, end: nat, m: Machine, m2: Machine, s: Stmt, inLoop: bool,
                                    underIf: bool, q: nat, after: seq<Command>, d: nat, loop: Option<nat>,
                                    more: seq<bool>) returns (m': Machine)
    requires s.IfElse? && s.els.ElseBranch? && Level(m, m.np, inLoop, underIf, d, loop) && Ready(m2)
    requires GoesOn(fetch, q, after, end, d, loop) && Shallow(LoopDepth(s), inLoop)
    requires !BreaksPlacedAll(s.els.block.stmts, inLoop, true) && Fits(m.np, IfDepth(s), LoopDepth(s))
    requires m2.results == TearingAll(s.els.block.stmts, inLoop, true) + more
    requires Agree(m.np.SetIf(m.np.iendx + 1, Itef(ItefThen, false, true, s.inverted)), m2.np)
    requires Stands(fetch, m2.pc, FlattenElse(s.els) + [[Fi]], q)
    ensures Reaches(fetch, false, m2, m') && Lost(fetch, end, m')
    decreases s, 0, 0
  {
    var mid := Split(fetch, m2.pc, FlattenBlock(Else, s.els.block), [[Fi]], q);
    ElseLevel(m, m2, s, inLoop, underIf, d, loop);
    TextFi(after, d, loop);
    Join(fetch, mid, [[Fi]], q, after, end);
    m' := TearBlock(fetch, end, m2, Else, s.els.block, inLoop, true, mid, [[Fi]] + after, d + 1, loop, more);
  }

  lemma ElseLevel(m: Machine, m2: Machine, s: Stmt, inLoop: bool, underIf: bool, d: nat, loop: Option<nat>)
    requires s.IfElse? && Level(m, m.np, inLoop, underIf, d, loop) && m.np.iendx + 1 < |m.np.ie| && Ready(m2)
    requires Agree(m.np.SetIf(m.np.iendx + 1, Itef(ItefThen, false, true, s.inverted)), m2.np)
    ensures Opens(m2, Else) && Level(m2, Opened(m2.np, Else), inLoop, true, d + 1, loop)
    ensures |Opened(m2.np, Else).ie| == |m.np.ie| && |Opened(m2.np, Else).lp| == |m.np.lp|
  {
    ElseOpened(m, m2, s, inLoop, underIf);
    AgreeTops(m.np.SetIf(m.np.iendx + 1, Itef(ItefElse, false, true, s.inverted)), Opened(m2.np, Else));
  }

  lemma {:induction false} TearingLoop(s: Stmt, more: seq<bool>, results: seq<bool>)
    requires s.LoopOver? && !BreaksPlacedAll(s.body.stmts, true, false) && LoopDepthAll(s.body.stmts) == 0
    requires results == [s.until] + TearingAll(s.body.stmts, true, false) + more
    ensures results != [] && results[0] == s.until && results[1..] == TearingAll(s.body.stmts, true, false) + more
  {
  }

  lemma {:induction false} TearLoop(fetch: Image, end: nat, m: Machine, s: Stmt, q: nat, after: seq<Command>, d: nat,
                                    more: seq<bool>) returns (m': Machine)
    requires s.LoopOver? && Executes(m, m.np, false, false) && Calm(m.np) && m.np.iendx == d && m.np.lpndx == 0
    requires GoesOn(fetch, q, after, end, d, None)
    requires !BreaksPlacedAll(s.body.stmts, true, false) && LoopDepthAll(s.body.stmts) == 0
    requires Fits(m.np, IfDepth(s), LoopDepth(s)) && Stands(fetch, m.pc, Flatten(s), q)
    requires m.results == [s.until] + TearingAll(s.body.stmts, true, false) + more
    ensures Reaches(fetch, false, m, m') && Lost(fetch, end, m')
    decreases s, 1
  {
    var m1, p := DoLoop(fetch, false, m, s.until, s.cond, FlattenBlock(Do, s.body) + [[Done]], q);
    var mid := Split(fetch, m1.pc, FlattenBlock(Do, s.body), [[Done]], q);
    TearingLoop(s, more, m.results);
    DoOpened(m, m1, s, p);
    TextDone(after, d);
    Join(fetch, mid, [[Done]], q, after, end);
    m' := TearBlock(fetch, end, m1, Do, s.body, true, false, mid, [[Done]] + after, d, Some(d), more);
    ReachesTrans(fetch, false, m, m1, m');
  }

  // ---------- the limit ----------

  /** Results that lead to such a `break` and on to the end show the difference. */
  lemma {:induction false} MisplacedShows(fetch: Image, depth: nat, ss: Stmts, q: nat)
    requires IfDepthAll(ss) < depth && LoopDepthAll(ss) < depth && LoopDepthAll(ss) <= 1
    requires Holds(fetch, ss, q) && !BreaksPlacedAll(ss, false, false)
    ensures var results := TearingAll(ss, false, false);
      && EvalAll(ss, false, false, results).end == Finished
      && (forall x :: Reaches(fetch, false, Start(depth, results), x) ==> x.status != Ended)
  {
    var results := TearingAll(ss, false, false);
    var m := Start(depth, results);
    assert results + [] == results;
    TearingMeansAll(ss, false, false, false, []);
    TextNil();
    ReachesEnd(fetch, q);
    var m' := TearAll(fetch, q, m, ss, false, false, q, [], 0, None, []);
    forall x | Reaches(fetch, false, m, x)
      ensures x.status != Ended
    {
      NotBefore(fetch, q, m, m', x);
    }
  }

  lemma ReachesEnd(fetch: Image, q: nat)
    ensures Stands(fetch, q, [], q)
  {
    assert Placed(fetch, q, [], q, 0);
  }

  /** A state on the way to a lost one, or behind it, is not the end of the script. */
  lemma NotBefore(fetch: Image, q: nat, m: Machine, m': Machine, x: Machine)
    requires Reaches(fetch, false, m, m') && Lost(fetch, q, m') && Reaches(fetch, false, m, x)
    ensures x.status != Ended
  {
    ReachesIff(fetch, false, m, m');
    ReachesIff(fetch, false, m, x);
    var i: nat :| StepN(fetch, false, m, i) == m';
    var j: nat :| StepN(fetch, false, m, j) == x;
    if j <= i {
      StepNAdd(fetch, false, m, j, i - j);
      Growing(fetch, false, x, i - j);
    } else {
      StepNAdd(fetch, false, m, i, j - i);
      LostForGood(fetch, q, m', j - i);
    }
  }

  /** The exact condition on breaks: when errors count, a script without a loop inside a loop is
      executed as its structure says on all results if and only if no `break` that can be
      reached stands under an `if` in a loop. */
  lemma {:induction false} BreaksExactly(fetch: Image, depth: nat, ss: Stmts, q: nat)
    requires IfDepthAll(ss) < depth && LoopDepthAll(ss) < depth && LoopDepthAll(ss) <= 1
    requires Holds(fetch, ss, q)
    ensures BreaksPlacedAll(ss, false, false) <==>
      forall results :: Faithful(fetch, false, Start(depth, results), EvalAll(ss, false, false, results))
  {
    if BreaksPlacedAll(ss, false, false) {
      DepthApartAll(ss, false);
      forall results
        ensures Faithful(fetch, false, Start(depth, results), EvalAll(ss, false, false, results))
      {
        ScriptFaithful(fetch, false, depth, ss, q, results);
      }
    } else {
      MisplacedShows(fetch, depth, ss, q);
      var results := TearingAll(ss, false, false);
      assert !Faithful(fetch, false, Start(depth, results), EvalAll(ss, false, false, results));
    }
  }
}
