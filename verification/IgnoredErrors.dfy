/** What the shell does with errors ignored, in scripts without a loop inside a loop, wherever their
    breaks stand: it executes what `Drift` says. A stray `else` or `fi` is rejected, or closes the
    `if` around the loop. So such a script is executed as its structure says on all results
    exactly when it is harmless. */
module IgnoredErrors {
  import opened ControlState
  import opened Structured
  import opened Drift
  import opened DriftLimit
  import opened Machine
  import opened Placement
  import opened Steps
  import opened Advance
  import opened Skipping
  import opened Simulation
  import opened ScriptTheorem
  import opened BreakUnderIf
  import Leaks
  import NestedLoops

  // ---------- the records ----------

  predicate Holding(r: Itef, inThen: bool) {
    !r.disabled && r.ifcond == !inThen && r.state == if inThen then ItefThen else ItefElse
  }

  /** The open ifs of `np` are those of `open`. */
  ghost predicate Recorded(np: Parser, open: seq<bool>) {
    np.iendx == |open| < |np.ie| && forall k :: 0 <= k < |open| ==> Holding(np.ie[k + 1], open[k])
  }

  /** The machine has dropped to the records `open`, which are among those of `np`. */
  ghost predicate Dropped(np: Parser, m: Machine, open: seq<bool>) {
    m.status == Running && !m.np.jump && Agree(np.(iendx := |open|), m.np)
  }

  lemma DroppedRecorded(np: Parser, open: seq<bool>, m: Machine, t: seq<bool>)
    requires Recorded(np, open) && t <= open && Dropped(np, m, t)
    ensures Recorded(m.np, t)
  {
  }

  lemma TopHolds(np: Parser, open: seq<bool>)
    requires Recorded(np, open) && np.Safe(|np.ie|)
    ensures np.ItefEnabled() && np.TopIf().state != ItefIf
    ensures np.TopIf().state == (if open == [] then ItefNormal else if AwaitsElse(open) then ItefThen else ItefElse)
  {
    if open != [] {
      assert Holding(np.ie[|open|], open[|open| - 1]);
    }
  }

  lemma DroppedTwice(np: Parser, a: Machine, t: seq<bool>, b: Machine, u: seq<bool>)
    requires Dropped(np, a, t) && Dropped(a.np, b, u) && u <= t
    ensures Dropped(np, b, u)
  {
  }

  /** `np1` has the loops of `np`, and its ifs at the bottom. */
  ghost predicate Over(np: Parser, np1: Parser) {
    && |np1.ie| == |np.ie| && |np1.lp| == |np.lp| && np1.lpndx == np.lpndx
    && (forall k :: 0 <= k <= np.iendx && k < |np.ie| ==> np1.ie[k] == np.ie[k])
    && (forall k :: 0 <= k <= np.lpndx && k < |np.lp| ==> np1.lp[k] == np.lp[k])
  }

  /** The records below a new one. */
  lemma DroppedBelow(np: Parser, np1: Parser, m: Machine, t: seq<bool>)
    requires Over(np, np1) && |t| <= np.iendx && Dropped(np1, m, t)
    ensures Dropped(np, m, t)
  {
  }

  // ---------- the end of an `if` ----------

  lemma CloseFi(fetch: Image, m: Machine, open: seq<bool>, q: nat) returns (m': Machine)
    requires Ready(m) && Recorded(m.np, open) && Stands(fetch, m.pc, [[Fi]], q)
    ensures Reaches(fetch, true, m, m') && m' == m.(np := m'.np, pc := q)
    ensures Dropped(m.np, m', CloseIf(open, false))
  {
    TopHolds(m.np, open);
    if open == [] {
      assert [[Fi]] == [[Fi]] + [];
      var m1 := DoMisplaced(fetch, true, m, [Fi], [], q);
      m' := PassBlank(fetch, true, m1, q);
      ReachesTrans(fetch, true, m, m1, m');
    } else {
      m' := DoFi(fetch, true, m, q);
    }
  }

  /** The `else` and `fi` behind a `then` part, when the `else` is accepted or there is none. */
  lemma {:induction false} CloseKept(fetch: Image, m: Machine, els: Branch, open: seq<bool>, q: nat)
      returns (m': Machine)
    requires Ready(m) && Recorded(m.np, open) && (els.NoElse? || AwaitsElse(open))
    requires els.ElseBranch? ==> Fits(m.np, IfDepthAll(els.block.stmts), LoopDepthAll(els.block.stmts))
    requires Stands(fetch, m.pc, FlattenElse(els) + [[Fi]], q)
    ensures Reaches(fetch, true, m, m') && m' == m.(np := m'.np, pc := q)
    ensures Dropped(m.np, m', CloseIf(open, els.ElseBranch?))
  {
    if els.NoElse? {
      assert FlattenElse(els) + [[Fi]] == [[Fi]];
      m' := CloseFi(fetch, m, open, q);
    } else {
      TopHolds(m.np, open);
      assert Holding(m.np.ie[|open|], open[|open| - 1]);
      m' := SkipElse(fetch, true, m, els, q);
    }
  }

  /** How an `else` part begins. */
  function ElseHead(b: Block): Command {
    if b.fused && b.stmts.Cons? && IsCommand(b.stmts.head) then [Else] + CommandWords(b.stmts.head) else [Else]
  }

  lemma {:induction false} ElseHeadLost(b: Block)
    ensures FlattenElse(ElseBranch(b)) + [[Fi]] == [ElseHead(b)] + (FlattenAll(LostBody(b)) + [[Fi]])
  {
    assert FlattenElse(ElseBranch(b)) == [ElseHead(b)] + FlattenAll(LostBody(b));
  }

  /** A rejected `else`: all ifs are closed, and what follows stands outside of them. */
  lemma {:induction false} RejectElse(fetch: Image, m: Machine, b: Block, open: seq<bool>, q: nat)
      returns (m': Machine, mid: nat)
    requires Ready(m) && Recorded(m.np, open) && !AwaitsElse(open)
    requires Stands(fetch, m.pc, FlattenElse(ElseBranch(b)) + [[Fi]], q)
    ensures Reaches(fetch, true, m, m') && m' == m.(np := m'.np, pc := m'.pc) && Dropped(m.np, m', [])
    ensures Stands(fetch, m'.pc, FlattenAll(LostBody(b)), mid) && Stands(fetch, mid, [[Fi]], q)
  {
    TopHolds(m.np, open);
    ElseHeadLost(b);
    m' := DoMisplaced(fetch, true, m, ElseHead(b), FlattenAll(LostBody(b)) + [[Fi]], q);
    mid := Split(fetch, m'.pc, FlattenAll(LostBody(b)), [[Fi]], q);
  }

  /** The machine has dropped to given records and is ready for the next command. */
  lemma DroppedReady(np: Parser, open: seq<bool>, m: Machine, t: seq<bool>)
    requires Recorded(np, open) && t <= open && Dropped(np, m, t) && np.Safe(|np.ie|) && !np.AwaitsCondition()
    ensures Ready(m) && Recorded(m.np, t) && m.np.ItefEnabled() && m.np.TopLoop() == np.TopLoop()
    ensures m.np.lpndx == np.lpndx && |m.np.ie| == |np.ie| && |m.np.lp| == |np.lp|
  {
    DroppedRecorded(np, open, m, t);
    TopHolds(m.np, t);
  }

  /** The same in the body of a loop that has been left. */
  lemma {:induction false} CloseCut(fetch: Image, m: Machine, els: Branch, open: seq<bool>, q: nat)
      returns (m': Machine)
    requires Ready(m) && Recorded(m.np, open) && !m.np.LoopEnabled()
    requires els.ElseBranch? ==> LoopDepthAll(els.block.stmts) == 0 && Fits(m.np, IfDepthAll(els.block.stmts), 0)
    requires Stands(fetch, m.pc, FlattenElse(els) + [[Fi]], q)
    ensures Reaches(fetch, true, m, m') && m' == m.(np := m'.np, pc := q)
    ensures Dropped(m.np, m', CloseIf(open, els.ElseBranch?))
  {
    if els.NoElse? || AwaitsElse(open) {
      m' := CloseKept(fetch, m, els, open, q);
    } else {
      var m1, mid := RejectElse(fetch, m, els.block, open, q);
      DroppedReady(m.np, open, m1, []);
      var m2 := SkipLost(fetch, m1, els.block, mid);
      DroppedReady(m1.np, [], m2, []);
      m' := CloseFi(fetch, m2, [], q);
      ReachesTrans(fetch, true, m, m1, m2);
      ReachesTrans(fetch, true, m, m2, m');
      DroppedTwice(m.np, m1, [], m2, []);
      DroppedTwice(m.np, m2, [], m', []);
    }
  }

  lemma {:induction false} SkipLost(fetch: Image, m: Machine, b: Block, q: nat) returns (m': Machine)
    requires Ready(m) && m.np.iendx == 0 && !m.np.LoopEnabled()
    requires LoopDepthAll(b.stmts) == 0 && IfDepthAll(b.stmts) < |m.np.ie|
    requires Stands(fetch, m.pc, FlattenAll(LostBody(b)), q)
    ensures Reaches(fetch, true, m, m') && m' == m.(np := m'.np, pc := q) && Dropped(m.np, m', [])
  {
    Leaks.DepthApartAll(LostBody(b), true);
    m' := SkipAll(fetch, true, m, LostBody(b), q);
  }

  // ---------- the body of a loop ----------

  lemma CloseIfPrefix(t: seq<bool>, hasElse: bool)
    ensures CloseIf(t, hasElse) <= t
  {
  }

  lemma {:induction false} UnwindPrefix(s: Stmt, base: seq<bool>, results: seq<bool>)
    ensures Unwind(s, base, results) <= base
    decreases s
  {
    if s.IfElse? && results != [] {
      if results[0] == s.inverted {
        UnwindPrefixAll(s.thn.stmts, base, results[1..]);
        CloseIfPrefix(UnwindAll(s.thn.stmts, base, results[1..]), s.els.ElseBranch?);
      } else if s.els.ElseBranch? {
        UnwindPrefixAll(s.els.block.stmts, base, results[1..]);
        CloseIfPrefix(UnwindAll(s.els.block.stmts, base, results[1..]), false);
      }
    }
  }

  lemma {:induction false} UnwindPrefixAll(ss: Stmts, base: seq<bool>, results: seq<bool>)
    ensures UnwindAll(ss, base, results) <= base
    decreases ss
  {
    if ss.Cons? {
      UnwindPrefix(ss.head, base, results);
      UnwindPrefixAll(ss.tail, base, Eval(ss.head, true, true, results).rest);
    }
  }

  /** The machine executes the body of a loop that began with the records `base`; `np` is its state. */
  ghost predicate InBody(m: Machine, np: Parser, base: seq<bool>) {
    && Executes(m, np, true, true) && np.lpndx >= 1
    && np.TopLoop().iendx == |base| <= np.iendx && Recorded(np.(iendx := |base|), base)
  }

  /** `m'` is what the meaning `e` promises of the machine `m` in the body of a loop, and `t` are the
      records that a `break` leaves. */
  ghost predicate EndsBody(m: Machine, np: Parser, e: Meaning, t: seq<bool>, m': Machine, q: nat) {
    && m'.trace == m.trace + e.trace
    && match e.end
       case Finished => m'.status == Running && m'.pc == q && m'.results == e.rest && Agree(np, m'.np) && !m'.np.jump
       case Broke => m'.pc == q && m'.results == e.rest && Dropped(Broken(np), m', t)
       case Stopped => m'.status == Failed
       case OutOfResults => m'.status == Starved
  }

  lemma CutReady(m: Machine, np: Parser, base: seq<bool>, m': Machine, t: seq<bool>)
    requires InBody(m, np, base) && t <= base && Dropped(Broken(np), m', t)
    ensures Ready(m') && Recorded(m'.np, t) && !m'.np.LoopEnabled() && m'.np.ItefEnabled()
    ensures m'.np.iendx <= np.iendx && m'.np.lpndx == np.lpndx && |m'.np.ie| == |np.ie| && |m'.np.lp| == |np.lp|
  {
    var low := Broken(np).(iendx := |base|);
    DroppedReady(low, base, m', t);
  }

  lemma InBodyOn(m: Machine, np: Parser, base: seq<bool>, m': Machine)
    requires InBody(m, np, base) && Agree(np, m'.np) && m'.status == Running && !m'.np.jump
    ensures InBody(m', m'.np, base)
  {
    ExecutesOn(m, np, m', true, true);
    AgreeTops(np, m'.np);
  }

  lemma GoBreakPop(fetch: Image, m: Machine, lead: Lead, base: seq<bool>) returns (m': Machine)
    requires CanLead(lead, m) && InBody(m, Led(lead, m).np, base)
    requires fetch(m.pc).Fetched? && fetch(m.pc).words == LeadWords(lead, [Break])
    ensures Reaches(fetch, true, m, m')
    ensures m' == m.(np := Popped(Led(lead, m).np), pc := fetch(m.pc).next, trace := m.trace + [Event([Break], false)])
  {
    var f, np := fetch(m.pc), Led(lead, m).np;
    TopHolds(np.(iendx := |base|), base);
    LedReady(lead, m);
    LedStep(f, true, m, lead, [Break]);
    StepBreakPop(f.(words := [Break]), true, Led(lead, m));
    m' := StepOn(f, true, m);
    Go(fetch, true, m, m');
  }

  lemma BodyCommand(fetch: Image, m: Machine, lead: Lead, s: Stmt, base: seq<bool>, rest: seq<Command>, q: nat)
      returns (m': Machine)
    requires IsCommand(s) && CanLead(lead, m) && InBody(m, Led(lead, m).np, base)
    requires Stands(fetch, m.pc, [LeadWords(lead, CommandWords(s))] + rest, q)
    ensures Reaches(fetch, true, m, m')
    ensures EndsBody(m, Led(lead, m).np, Eval(s, true, true, m.results), Unwind(s, base, m.results), m', m'.pc)
    ensures m'.status == Running ==> Stands(fetch, m'.pc, rest, q)
  {
    if s.Run? {
      m' := RunCommand(fetch, true, m, lead, s, true, true, rest, q);
    } else {
      var m1 := Locate(fetch, true, m, LeadWords(lead, [Break]), rest, q);
      m' := GoBreakPop(fetch, m1, lead, base);
      ReachesTrans(fetch, true, m, m1, m');
    }
  }

  lemma {:induction false} BodyAll(fetch: Image, m: Machine, ss: Stmts, base: seq<bool>, q: nat) returns (m': Machine)
    requires InBody(m, m.np, base) && LoopDepthAll(ss) == 0 && Fits(m.np, IfDepthAll(ss), 0)
    requires Stands(fetch, m.pc, FlattenAll(ss), q)
    ensures Reaches(fetch, true, m, m')
    ensures EndsBody(m, m.np, EvalAll(ss, true, true, m.results), UnwindAll(ss, base, m.results), m', q)
    decreases ss, 0
  {
    match ss
    case Nil =>
      m' := PassBlank(fetch, true, m, q);
      assert m.trace + [] == m.trace;
    case Cons(s, tail) =>
      var mid := Split(fetch, m.pc, Flatten(s), FlattenAll(tail), q);
      var m1 := Body1(fetch, m, s, base, mid);
      m' := BodyRest(fetch, m, m.np, m1, s, tail, base, q);
      ReachesTrans(fetch, true, m, m1, m');
  }

  lemma {:induction false} BodyRest(fetch: Image, m: Machine, np: Parser, m1: Machine, s: Stmt, tail: Stmts,
                                    base: seq<bool>, q: nat) returns (m': Machine)
    requires InBody(m, np, base) && LoopDepthAll(tail) == 0 && Fits(np, IfDepthAll(tail), 0)
    requires EndsBody(m, np, Eval(s, true, true, m.results), Unwind(s, base, m.results), m1, m1.pc)
    requires m1.status == Running ==> Stands(fetch, m1.pc, FlattenAll(tail), q)
    ensures Reaches(fetch, true, m1, m')
    ensures EndsBody(m, np, EvalAll(Cons(s, tail), true, true, m.results), UnwindAll(Cons(s, tail), base, m.results),
                     m', q)
    decreases tail, 1
  {
    var e1 := Eval(s, true, true, m.results);
    match e1.end
    case Finished =>
      InBodyOn(m, np, base, m1);
      m' := BodyAll(fetch, m1, tail, base, q);
      UnwindPrefixAll(tail, base, e1.rest);
      BodyAfter(m, np, e1, m1, EvalAll(tail, true, true, e1.rest), UnwindAll(tail, base, e1.rest), m', q);
    case Broke =>
      UnwindPrefix(s, base, m.results);
      CutReady(m, np, base, m1, Unwind(s, base, m.results));
      Leaks.DepthApartAll(tail, true);
      m' := SkipAll(fetch, true, m1, tail, q);
    case Stopped => ReachesSelf(fetch, true, m1); m' := m1;
    case OutOfResults => ReachesSelf(fetch, true, m1); m' := m1;
  }

  lemma BodyAfter(m: Machine, np: Parser, e1: Meaning, m1: Machine, e2: Meaning, t: seq<bool>, m': Machine, q: nat)
    requires e1.end == Finished && m1.trace == m.trace + e1.trace && Agree(np, m1.np)
    requires EndsBody(m1, m1.np, e2, t, m', q) && |t| <= np.iendx
    ensures EndsBody(m, np, e2.After(e1.trace), t, m', q)
  {
    assert m.trace + (e1.trace + e2.trace) == m.trace + e1.trace + e2.trace;
  }

  lemma {:induction false} BodyBlock(fetch: Image, m: Machine, opener: Word, b: Block, base: seq<bool>, q: nat)
      returns (m': Machine)
    requires Opens(m, opener) && InBody(m, Opened(m.np, opener), base)
    requires LoopDepthAll(b.stmts) == 0 && Fits(Opened(m.np, opener), IfDepthAll(b.stmts), 0)
    requires Stands(fetch, m.pc, FlattenBlock(opener, b), q)
    ensures Reaches(fetch, true, m, m')
    ensures EndsBody(m, Opened(m.np, opener), EvalAll(b.stmts, true, true, m.results),
                     UnwindAll(b.stmts, base, m.results), m', q)
    decreases b, 2
  {
    var m1;
    if b.fused && b.stmts.Cons? && IsCommand(b.stmts.head) {
      m1 := BodyCommand(fetch, m, After(opener), b.stmts.head, base, FlattenAll(b.stmts.tail), q);
      m' := BodyRest(fetch, m, Opened(m.np, opener), m1, b.stmts.head, b.stmts.tail, base, q);
    } else if Joins(opener, b) {
      m1 := BodyJoined(fetch, m, b.stmts.head, base, FlattenAll(b.stmts.tail), q);
      m' := BodyRest(fetch, m, Opened(m.np, opener), m1, b.stmts.head, b.stmts.tail, base, q);
    } else {
      m1 := DoOpener(fetch, true, m, opener, FlattenAll(b.stmts), q);
      m' := BodyAll(fetch, m1, b.stmts, base, q);
    }
    ReachesTrans(fetch, true, m, m1, m');
  }

  /** An `if` right behind the `do` of its loop. */
  lemma {:induction false} BodyJoined(fetch: Image, m: Machine, s: Stmt, base: seq<bool>, rest: seq<Command>, q: nat)
      returns (m': Machine)
    requires s.IfElse? && Opens(m, Do) && InBody(m, Opened(m.np, Do), base)
    requires LoopDepth(s) == 0 && Fits(Opened(m.np, Do), IfDepth(s), 0)
    requires Stands(fetch, m.pc, [[Do] + IfWords(s.inverted, s.cond)] + (IfTail(s) + rest), q)
    ensures Reaches(fetch, true, m, m')
    ensures EndsBody(m, Opened(m.np, Do), Eval(s, true, true, m.results), Unwind(s, base, m.results), m', m'.pc)
    ensures m'.status == Running ==> Stands(fetch, m'.pc, rest, q)
    decreases s, 3
  {
    var m1 := DoIf(fetch, true, m, After(Do), s.inverted, s.cond, IfTail(s) + rest, q);
    var mid := Split(fetch, m1.pc, IfTail(s), rest, q);
    m' := BodyTail(fetch, Led(After(Do), m), m1, s, base, mid);
    ReachesTrans(fetch, true, m, m1, m');
  }

  lemma {:induction false} Body1(fetch: Image, m: Machine, s: Stmt, base: seq<bool>, q: nat) returns (m': Machine)
    requires InBody(m, m.np, base) && LoopDepth(s) == 0 && Fits(m.np, IfDepth(s), 0)
    requires Stands(fetch, m.pc, Flatten(s), q)
    ensures Reaches(fetch, true, m, m')
    ensures EndsBody(m, m.np, Eval(s, true, true, m.results), Unwind(s, base, m.results), m', q)
    decreases s, 4
  {
    if s.IfElse? {
      m' := BodyIf(fetch, m, s, base, q);
    } else {
      assert Flatten(s) == [LeadWords(Alone, CommandWords(s))] + [];
      m' := BodyCommand(fetch, m, Alone, s, base, [], q);
      if m'.status == Running {
        var m1 := m';
        m' := PassBlank(fetch, true, m1, q);
        ReachesTrans(fetch, true, m, m1, m');
      }
    }
  }

  lemma {:induction false} BodyIf(fetch: Image, m: Machine, s: Stmt, base: seq<bool>, q: nat) returns (m': Machine)
    requires s.IfElse? && InBody(m, m.np, base) && LoopDepth(s) == 0 && Fits(m.np, IfDepth(s), 0)
    requires Stands(fetch, m.pc, Flatten(s), q)
    ensures Reaches(fetch, true, m, m')
    ensures EndsBody(m, m.np, Eval(s, true, true, m.results), Unwind(s, base, m.results), m', q)
    decreases s, 3
  {
    assert Flatten(s) == [LeadWords(Alone, IfWords(s.inverted, s.cond))] + IfTail(s);
    var m1 := DoIf(fetch, true, m, Alone, s.inverted, s.cond, IfTail(s), q);
    m' := BodyTail(fetch, m, m1, s, base, q);
    ReachesTrans(fetch, true, m, m1, m');
  }

  /** From behind the condition, read in `m`, to past `fi`. */
  lemma {:induction false} BodyTail(fetch: Image, m: Machine, m1: Machine, s: Stmt, base: seq<bool>, q: nat)
      returns (m': Machine)
    requires s.IfElse? && InBody(m, m.np, base) && LoopDepth(s) == 0 && Fits(m.np, IfDepth(s), 0)
    requires m1 == IfOpened(m, s.inverted, s.cond, m1.pc) && Stands(fetch, m1.pc, IfTail(s), q)
    ensures Reaches(fetch, true, m1, m')
    ensures EndsBody(m, m.np, Eval(s, true, true, m.results), Unwind(s, base, m.results), m', q)
    decreases s, 2
  {
    if m.results == [] {
      ReachesSelf(fetch, true, m1);
      assert m.trace + [] == m.trace;
      m' := m1;
    } else {
      var tail := FlattenElse(s.els) + [[Fi]];
      var mid := Split(fetch, m1.pc, FlattenBlock(Then, s.thn), tail, q);
      if m.results[0] == s.inverted {
        m' := BodyThen(fetch, m, m1, s, base, mid, q);
      } else {
        m' := BodyElse(fetch, m, m1, s, base, mid, q);
      }
      EndsIfBody(m, s, m1, base, m', q);
    }
  }

  /** The branch of an `if` that the results choose. */
  function Chosen(s: Stmt, failed: bool): Stmts
    requires s.IfElse?
  {
    if failed == s.inverted then s.thn.stmts else ElseStmts(s.els)
  }

  /** A branch in which the body goes on or is left, and what follows up to `fi`. */
  lemma {:induction false} EndsIfBody(m: Machine, s: Stmt, m1: Machine, base: seq<bool>, m': Machine, q: nat)
    requires InIf(m, s, m1)
    requires var e := EvalAll(Chosen(s, m.results[0]), true, true, m1.results);
      && m'.trace == m1.trace + e.trace
      && EndsBody(m.(trace := m1.trace), m.np, e, Unwind(s, base, m.results), m', q)
    ensures EndsBody(m, m.np, Eval(s, true, true, m.results), Unwind(s, base, m.results), m', q)
  {
    var ev := [Event(s.cond, m.results[0])];
    var e := EvalAll(Chosen(s, m.results[0]), true, true, m1.results);
    assert m.trace + (ev + e.trace) == m.trace + ev + e.trace;
  }

  lemma {:induction false} BodyThen(fetch: Image, m: Machine, m1: Machine, s: Stmt, base: seq<bool>, mid: nat, q: nat)
      returns (m': Machine)
    requires InBody(m, m.np, base) && InIf(m, s, m1) && m.results[0] == s.inverted
    requires LoopDepth(s) == 0 && Fits(m.np, IfDepth(s), 0)
    requires Stands(fetch, m1.pc, FlattenBlock(Then, s.thn), mid) && Stands(fetch, mid, FlattenElse(s.els) + [[Fi]], q)
    ensures Reaches(fetch, true, m1, m')
    ensures EndsBody(m.(trace := m1.trace), m.np, EvalAll(s.thn.stmts, true, true, m1.results),
                     Unwind(s, base, m.results), m', q)
    decreases s, 1
  {
    ThenOpened(m, m1, s, true, true);
    var np := Opened(m1.np, Then);
    var m2 := BodyBlock(fetch, m1, Then, s.thn, base, mid);
    var e := EvalAll(s.thn.stmts, true, true, m1.results);
    if e.end == Finished {
      m' := PassElse(fetch, true, m, m1, m2, s, true, true, q);
      ReachesTrans(fetch, true, m1, m2, m');
    } else if e.end == Broke {
      var t := UnwindAll(s.thn.stmts, base, m1.results);
      UnwindPrefixAll(s.thn.stmts, base, m1.results);
      m' := CutPast(fetch, m, m1, np, m2, s.els, base, t, q);
      ReachesTrans(fetch, true, m1, m2, m');
    } else {
      m' := m2;
    }
  }

  /** Behind a break in a branch: the closing keywords of its `if`. */
  lemma {:induction false} CutPast(fetch: Image, m: Machine, m1: Machine, np: Parser, m2: Machine, els: Branch,
                                   base: seq<bool>, t: seq<bool>, q: nat) returns (m': Machine)
    requires InBody(m, m.np, base) && InBody(m1, np, base) && t <= base && Dropped(Broken(np), m2, t)
    requires Over(m.np, np)
    requires els.ElseBranch? ==>
      LoopDepthAll(els.block.stmts) == 0 && Fits(m.np, IfDepthAll(els.block.stmts), 0)
    requires Stands(fetch, m2.pc, FlattenElse(els) + [[Fi]], q)
    ensures Reaches(fetch, true, m2, m') && m' == m2.(np := m'.np, pc := q)
    ensures Dropped(Broken(m.np), m', CloseIf(t, els.ElseBranch?))
  {
    var u := CloseIf(t, els.ElseBranch?);
    CutReady(m1, np, base, m2, t);
    m' := CloseCut(fetch, m2, els, t, q);
    CloseIfPrefix(t, els.ElseBranch?);
    DroppedTwice(Broken(np), m2, t, m', u);
    DroppedBelow(Broken(m.np), Broken(np), m', u);
  }

  lemma {:induction false} BodyElse(fetch: Image, m: Machine, m1: Machine, s: Stmt, base: seq<bool>, mid: nat, q: nat)
      returns (m': Machine)
    requires InBody(m, m.np, base) && InIf(m, s, m1) && m.results[0] != s.inverted
    requires LoopDepth(s) == 0 && Fits(m.np, IfDepth(s), 0)
    requires Stands(fetch, m1.pc, FlattenBlock(Then, s.thn), mid) && Stands(fetch, mid, FlattenElse(s.els) + [[Fi]], q)
    ensures Reaches(fetch, true, m1, m')
    ensures EndsBody(m.(trace := m1.trace), m.np, EvalAll(ElseStmts(s.els), true, true, m1.results),
                     Unwind(s, base, m.results), m', q)
    decreases s, 1
  {
    ThenOpened(m, m1, s, true, true);
    var m2 := SkipBlock(fetch, true, m1, Then, s.thn, mid);
    PassedReady(m1, Opened(m1.np, Then), m2, mid);
    if s.els.NoElse? {
      m' := JustFi(fetch, true, m, m2, s, q);
      assert m1.trace + [] == m1.trace;
    } else {
      m' := BodyElseFi(fetch, m, m2, s, base, q);
    }
    ReachesTrans(fetch, true, m1, m2, m');
  }

  lemma ElseInBody(m: Machine, m2: Machine, s: Stmt, np: Parser, base: seq<bool>)
    requires s.IfElse? && InBody(m, m.np, base) && m.np.iendx + 1 < |m.np.ie| && Executes(m2, np, true, true)
    requires Agree(m.np.SetIf(m.np.iendx + 1, Itef(ItefElse, false, true, s.inverted)), np)
    ensures InBody(m2, np, base) && Over(m.np, np)
  {
    AgreeTops(m.np.SetIf(m.np.iendx + 1, Itef(ItefElse, false, true, s.inverted)), np);
  }

  lemma {:induction false} BodyElseFi(fetch: Image, m: Machine, m2: Machine, s: Stmt, base: seq<bool>, q: nat)
      returns (m': Machine)
    requires s.IfElse? && s.els.ElseBranch? && InBody(m, m.np, base) && Ready(m2)
    requires LoopDepth(s) == 0 && Fits(m.np, IfDepth(s), 0)
    requires Agree(m.np.SetIf(m.np.iendx + 1, Itef(ItefThen, false, true, s.inverted)), m2.np)
    requires Stands(fetch, m2.pc, FlattenElse(s.els) + [[Fi]], q)
    ensures Reaches(fetch, true, m2, m')
    ensures var b := s.els.block.stmts;
      EndsBody(m.(trace := m2.trace), m.np, EvalAll(b, true, true, m2.results),
               CloseIf(UnwindAll(b, base, m2.results), false), m', q)
    decreases s, 0
  {
    var b := s.els.block;
    var mid := Split(fetch, m2.pc, FlattenBlock(Else, b), [[Fi]], q);
    var np := Opened(m2.np, Else);
    ElseOpened(m, m2, s, true, true);
    ElseInBody(m, m2, s, np, base);
    var m3 := BodyBlock(fetch, m2, Else, b, base, mid);
    var e := EvalAll(b.stmts, true, true, m2.results);
    if e.end == Finished {
      m' := CloseElse(fetch, true, m, m2, m3, s, true, true, q);
      ReachesTrans(fetch, true, m2, m3, m');
    } else if e.end == Broke {
      assert FlattenElse(NoElse) + [[Fi]] == [[Fi]];
      var t := UnwindAll(b.stmts, base, m2.results);
      UnwindPrefixAll(b.stmts, base, m2.results);
      m' := CutPast(fetch, m, m2, np, m3, NoElse, base, t, q);
      ReachesTrans(fetch, true, m2, m3, m');
    } else {
      m' := m3;
    }
  }

  // ---------- statements outside of loops ----------

  lemma {:induction false} LoopLeftPrefix(s: Stmt, open: seq<bool>, results: seq<bool>)
    requires s.LoopOver?
    ensures LoopLeft(s, open, results) <= open
    decreases |results|
  {
    if results != [] && results[0] == s.until {
      var pass := EvalAll(s.body.stmts, true, true, results[1..]);
      UnwindPrefixAll(s.body.stmts, open, results[1..]);
      if pass.end == Finished {
        LoopLeftPrefix(s, open, pass.rest);
      }
    }
  }

  lemma {:induction false} ActPrefix(s: Stmt, open: seq<bool>, results: seq<bool>)
    ensures Act(s, open, results).m.end == Finished ==> Act(s, open, results).open <= open
    decreases s, 1
  {
    if s.IfElse? && results != [] {
      if results[0] == s.inverted {
        ThenPrefix(s, open, results[1..]);
      } else if s.els.ElseBranch? {
        var d := ActAll(s.els.block.stmts, open + [false], results[1..]);
        ActPrefixAll(s.els.block.stmts, open + [false], results[1..]);
        if d.m.end == Finished {
          ClosedPrefix(open, false, d.open, false);
        }
      }
    } else if s.LoopOver? {
      LoopLeftPrefix(s, open, results);
    }
  }

  /** Closing an `if` leaves the records below it. */
  lemma ClosedPrefix(open: seq<bool>, inThen: bool, t: seq<bool>, hasElse: bool)
    requires t <= open + [inThen]
    ensures CloseIf(t, hasElse) <= open
  {
  }

  lemma {:induction false} ThenPrefix(s: Stmt, open: seq<bool>, results: seq<bool>)
    requires s.IfElse?
    ensures ActThen(s, open, results).m.end == Finished ==> ActThen(s, open, results).open <= open
    decreases s, 0
  {
    var d := ActAll(s.thn.stmts, open + [true], results);
    ActPrefixAll(s.thn.stmts, open + [true], results);
    if d.m.end == Finished {
      ClosedPrefix(open, true, d.open, s.els.ElseBranch?);
      if s.els.ElseBranch? && !AwaitsElse(d.open) {
        ActPrefixAll(LostBody(s.els.block), [], d.m.rest);
      }
    }
  }

  lemma {:induction false} ActPrefixAll(ss: Stmts, open: seq<bool>, results: seq<bool>)
    ensures ActAll(ss, open, results).m.end == Finished ==> ActAll(ss, open, results).open <= open
    decreases ss
  {
    if ss.Cons? {
      var first := Act(ss.head, open, results);
      ActPrefix(ss.head, open, results);
      if first.m.end == Finished {
        ActPrefixAll(ss.tail, first.open, first.m.rest);
      }
    }
  }

  /** The machine, in the state `np`, stands before statements outside of loops. */
  ghost predicate Adrift(m: Machine, np: Parser, open: seq<bool>) {
    Executes(m, np, false, true) && np.lpndx == 0 && Recorded(np, open)
  }

  ghost predicate EndsAdrift(m: Machine, np: Parser, d: Drifted, m': Machine, q: nat) {
    && m'.trace == m.trace + d.m.trace
    && match d.m.end
       case Finished => m'.pc == q && m'.results == d.m.rest && Dropped(np, m', d.open)
       case Broke => false
       case Stopped => m'.status == Failed
       case OutOfResults => m'.status == Starved
  }

  lemma AdriftOn(m: Machine, np: Parser, open: seq<bool>, m': Machine, t: seq<bool>)
    requires Adrift(m, np, open) && t <= open && Dropped(np, m', t)
    ensures Adrift(m', m'.np, t) && Ready(m') && |m'.np.ie| == |np.ie| && |m'.np.lp| == |np.lp|
  {
    DroppedReady(np, open, m', t);
  }

  lemma AdriftAfter(m: Machine, np: Parser, d1: Drifted, m1: Machine, d2: Drifted, m': Machine, q: nat)
    requires d1.m.end == Finished && m1.trace == m.trace + d1.m.trace && Dropped(np, m1, d1.open)
    requires EndsAdrift(m1, m1.np, d2, m', q) && (d2.m.end == Finished ==> d2.open <= d1.open)
    ensures EndsAdrift(m, np, d2.After(d1.m.trace), m', q)
  {
    assert m.trace + (d1.m.trace + d2.m.trace) == m.trace + d1.m.trace + d2.m.trace;
    if d2.m.end == Finished {
      DroppedTwice(np, m1, d1.open, m', d2.open);
    }
  }

  lemma OutCommand(fetch: Image, m: Machine, lead: Lead, s: Stmt, open: seq<bool>, rest: seq<Command>, q: nat)
      returns (m': Machine)
    requires IsCommand(s) && CanLead(lead, m) && Adrift(m, Led(lead, m).np, open)
    requires Stands(fetch, m.pc, [LeadWords(lead, CommandWords(s))] + rest, q)
    ensures Reaches(fetch, true, m, m')
    ensures EndsAdrift(m, Led(lead, m).np, Act(s, open, m.results), m', m'.pc)
    ensures m'.status == Running ==> Stands(fetch, m'.pc, rest, q)
  {
    m' := RunCommand(fetch, true, m, lead, s, false, true, rest, q);
  }

  lemma {:induction false} OutAll(fetch: Image, m: Machine, ss: Stmts, open: seq<bool>, q: nat) returns (m': Machine)
    requires Adrift(m, m.np, open) && LoopDepthAll(ss) <= 1 && Fits(m.np, IfDepthAll(ss), LoopDepthAll(ss))
    requires Stands(fetch, m.pc, FlattenAll(ss), q)
    ensures Reaches(fetch, true, m, m') && EndsAdrift(m, m.np, ActAll(ss, open, m.results), m', q)
    decreases ss, 0
  {
    match ss
    case Nil =>
      m' := PassBlank(fetch, true, m, q);
      assert m.trace + [] == m.trace;
    case Cons(s, tail) =>
      var mid := Split(fetch, m.pc, Flatten(s), FlattenAll(tail), q);
      var m1 := Out1(fetch, m, s, open, mid);
      m' := OutRest(fetch, m, m.np, m1, s, tail, open, q);
      ReachesTrans(fetch, true, m, m1, m');
  }

  lemma {:induction false} OutRest(fetch: Image, m: Machine, np: Parser, m1: Machine, s: Stmt, tail: Stmts,
                                   open: seq<bool>, q: nat) returns (m': Machine)
    requires Adrift(m, np, open) && LoopDepthAll(tail) <= 1 && Fits(np, IfDepthAll(tail), LoopDepthAll(tail))
    requires EndsAdrift(m, np, Act(s, open, m.results), m1, m1.pc)
    requires m1.status == Running ==> Stands(fetch, m1.pc, FlattenAll(tail), q)
    ensures Reaches(fetch, true, m1, m') && EndsAdrift(m, np, ActAll(Cons(s, tail), open, m.results), m', q)
    decreases tail, 1
  {
    var d1 := Act(s, open, m.results);
    if d1.m.end == Finished {
      ActPrefix(s, open, m.results);
      AdriftOn(m, np, open, m1, d1.open);
      m' := OutAll(fetch, m1, tail, d1.open, q);
      ActPrefixAll(tail, d1.open, d1.m.rest);
      AdriftAfter(m, np, d1, m1, ActAll(tail, d1.open, d1.m.rest), m', q);
    } else {
      ReachesSelf(fetch, true, m1);
      m' := m1;
    }
  }

  lemma {:induction false} OutBlock(fetch: Image, m: Machine, opener: Word, b: Block, open: seq<bool>, q: nat)
      returns (m': Machine)
    requires opener != Do && Opens(m, opener) && Adrift(m, Opened(m.np, opener), open) && LoopDepthAll(b.stmts) <= 1
    requires Fits(Opened(m.np, opener), IfDepthAll(b.stmts), LoopDepthAll(b.stmts))
    requires Stands(fetch, m.pc, FlattenBlock(opener, b), q)
    ensures Reaches(fetch, true, m, m')
    ensures EndsAdrift(m, Opened(m.np, opener), ActAll(b.stmts, open, m.results), m', q)
    decreases b, 2
  {
    var m1;
    if b.fused && b.stmts.Cons? && IsCommand(b.stmts.head) {
      m1 := OutCommand(fetch, m, After(opener), b.stmts.head, open, FlattenAll(b.stmts.tail), q);
      m' := OutRest(fetch, m, Opened(m.np, opener), m1, b.stmts.head, b.stmts.tail, open, q);
    } else {
      m1 := DoOpener(fetch, true, m, opener, FlattenAll(b.stmts), q);
      m' := OutAll(fetch, m1, b.stmts, open, q);
    }
    ReachesTrans(fetch, true, m, m1, m');
  }

  lemma {:induction false} Out1(fetch: Image, m: Machine, s: Stmt, open: seq<bool>, q: nat) returns (m': Machine)
    requires Adrift(m, m.np, open) && LoopDepth(s) <= 1 && Fits(m.np, IfDepth(s), LoopDepth(s))
    requires Stands(fetch, m.pc, Flatten(s), q)
    ensures Reaches(fetch, true, m, m') && EndsAdrift(m, m.np, Act(s, open, m.results), m', q)
    decreases s, 3
  {
    if s.IfElse? {
      m' := OutIf(fetch, m, s, open, q);
    } else if s.LoopOver? {
      m' := OutLoop(fetch, m, s, open, q);
    } else {
      assert Flatten(s) == [LeadWords(Alone, CommandWords(s))] + [];
      m' := OutCommand(fetch, m, Alone, s, open, [], q);
      if m'.status == Running {
        var m1 := m';
        m' := PassBlank(fetch, true, m1, q);
        ReachesTrans(fetch, true, m, m1, m');
      }
    }
  }

  // ---------- ifs ----------

  lemma {:induction false} OutIf(fetch: Image, m: Machine, s: Stmt, open: seq<bool>, q: nat) returns (m': Machine)
    requires s.IfElse? && Adrift(m, m.np, open) && LoopDepth(s) <= 1 && Fits(m.np, IfDepth(s), LoopDepth(s))
    requires Stands(fetch, m.pc, Flatten(s), q)
    ensures Reaches(fetch, true, m, m') && EndsAdrift(m, m.np, Act(s, open, m.results), m', q)
    decreases s, 2
  {
    var tail := FlattenElse(s.els) + [[Fi]];
    var m1 := DoIf(fetch, true, m, Alone, s.inverted, s.cond, FlattenBlock(Then, s.thn) + tail, q);
    if m.results == [] {
      assert m.trace + [] == m.trace;
      m' := m1;
    } else {
      var mid := Split(fetch, m1.pc, FlattenBlock(Then, s.thn), tail, q);
      if m.results[0] == s.inverted {
        m' := OutThen(fetch, m, m1, s, open, mid, q);
        EndsIfAdrift(m, s, m1, ActThen(s, open, m1.results), m', q);
      } else {
        m' := OutElse(fetch, m, m1, s, open, mid, q);
        EndsIfAdrift(m, s, m1, ActElse(s, open, m1.results), m', q);
      }
      ReachesTrans(fetch, true, m, m1, m');
    }
  }

  lemma EndsIfAdrift(m: Machine, s: Stmt, m1: Machine, d: Drifted, m': Machine, q: nat)
    requires InIf(m, s, m1) && EndsAdrift(m.(trace := m1.trace), m.np, d, m', q)
    ensures EndsAdrift(m, m.np, d.After([Event(s.cond, m.results[0])]), m', q)
  {
    var ev := [Event(s.cond, m.results[0])];
    assert m.trace + (ev + d.m.trace) == m.trace + ev + d.m.trace;
  }

  lemma ThenAdrift(m: Machine, m1: Machine, s: Stmt, open: seq<bool>)
    requires Adrift(m, m.np, open) && InIf(m, s, m1) && m.results[0] == s.inverted
    ensures Opens(m1, Then)
    ensures var np := Opened(m1.np, Then); Adrift(m1, np, open + [true]) && Over(m.np, np)
  {
    ThenOpened(m, m1, s, false, true);
    var np, longer := Opened(m1.np, Then), open + [true];
    forall k | 0 <= k < |longer|
      ensures Holding(np.ie[k + 1], longer[k])
    {
      if k < |open| {
        assert Holding(m.np.ie[k + 1], open[k]);
      }
    }
  }

  lemma {:induction false} OutThen(fetch: Image, m: Machine, m1: Machine, s: Stmt, open: seq<bool>, mid: nat, q: nat)
      returns (m': Machine)
    requires Adrift(m, m.np, open) && InIf(m, s, m1) && m.results[0] == s.inverted
    requires LoopDepth(s) <= 1 && Fits(m.np, IfDepth(s), LoopDepth(s))
    requires Stands(fetch, m1.pc, FlattenBlock(Then, s.thn), mid) && Stands(fetch, mid, FlattenElse(s.els) + [[Fi]], q)
    ensures Reaches(fetch, true, m1, m')
    ensures EndsAdrift(m.(trace := m1.trace), m.np, ActThen(s, open, m1.results), m', q)
    decreases s, 1
  {
    ThenAdrift(m, m1, s, open);
    var np := Opened(m1.np, Then);
    var m2 := OutBlock(fetch, m1, Then, s.thn, open + [true], mid);
    var d := ActAll(s.thn.stmts, open + [true], m1.results);
    if d.m.end == Finished {
      ActPrefixAll(s.thn.stmts, open + [true], m1.results);
      m' := OutPast(fetch, m, m1, np, m2, s.els, open, d, q);
      ReachesTrans(fetch, true, m1, m2, m');
    } else {
      m' := m2;
    }
  }

  /** The `else` part behind a `then` part that was taken. */
  lemma {:induction false} OutPast(fetch: Image, m: Machine, m1: Machine, np: Parser, m2: Machine, els: Branch,
                                   open: seq<bool>, d: Drifted, q: nat) returns (m': Machine)
    requires Adrift(m1, np, open + [true]) && Over(m.np, np) && m.np.iendx == |open|
    requires d.m.end == Finished && d.open <= open + [true] && EndsAdrift(m1, np, d, m2, m2.pc)
    requires els.ElseBranch? ==>
      && LoopDepthAll(els.block.stmts) <= 1
      && Fits(np, IfDepthAll(els.block.stmts), LoopDepthAll(els.block.stmts))
    requires Stands(fetch, m2.pc, FlattenElse(els) + [[Fi]], q)
    ensures Reaches(fetch, true, m2, m')
    ensures EndsAdrift(m.(trace := m1.trace), m.np, PastThen(els, d), m', q)
    decreases els, 1
  {
    var closed := CloseIf(d.open, els.ElseBranch?);
    ClosedPrefix(open, true, d.open, els.ElseBranch?);
    AdriftOn(m1, np, open + [true], m2, d.open);
    if els.NoElse? || AwaitsElse(d.open) {
      m' := CloseKept(fetch, m2, els, d.open, q);
      CloseIfPrefix(d.open, els.ElseBranch?);
      DroppedTwice(np, m2, d.open, m', closed);
      DroppedBelow(m.np, np, m', closed);
    } else {
      m' := OutLost(fetch, m2, els.block, d.open, q);
      LostAfter(m, m1, np, m2, els, open, d, m', q);
    }
  }

  lemma {:induction false} LostAfter(m: Machine, m1: Machine, np: Parser, m2: Machine, els: Branch, open: seq<bool>,
                                     d: Drifted, m': Machine, q: nat)
    requires Over(m.np, np) && m.np.iendx == |open|
    requires d.m.end == Finished && EndsAdrift(m1, np, d, m2, m2.pc) && els.ElseBranch? && !AwaitsElse(d.open)
    requires EndsAdrift(m2, m2.np, LostMeaning(els.block, d.m.rest), m', q)
    ensures EndsAdrift(m.(trace := m1.trace), m.np, PastThen(els, d), m', q)
  {
    var e := ActAll(LostBody(els.block), [], d.m.rest);
    assert m1.trace + (d.m.trace + e.m.trace) == m1.trace + d.m.trace + e.m.trace;
    if e.m.end == Finished {
      ActPrefixAll(LostBody(els.block), [], d.m.rest);
      DroppedTwice(np, m2, d.open, m', []);
      DroppedBelow(m.np, np, m', []);
    }
  }

  /** What is executed behind a rejected `else`. */
  function LostMeaning(b: Block, results: seq<bool>): Drifted {
    var e := ActAll(LostBody(b), [], results);
    Drifted(e.m, CloseIf(e.open, false))
  }

  lemma {:induction false} OutLost(fetch: Image, m: Machine, b: Block, open: seq<bool>, q: nat) returns (m': Machine)
    requires Adrift(m, m.np, open) && !AwaitsElse(open) && LoopDepthAll(b.stmts) <= 1
    requires IfDepthAll(b.stmts) < |m.np.ie| && LoopDepthAll(b.stmts) < |m.np.lp|
    requires Stands(fetch, m.pc, FlattenElse(ElseBranch(b)) + [[Fi]], q)
    ensures Reaches(fetch, true, m, m') && EndsAdrift(m, m.np, LostMeaning(b, m.results), m', q)
    decreases b, 3
  {
    var m1, mid := RejectElse(fetch, m, b, open, q);
    AdriftOn(m, m.np, open, m1, []);
    var m2 := OutAll(fetch, m1, LostBody(b), [], mid);
    ReachesTrans(fetch, true, m, m1, m2);
    var e := ActAll(LostBody(b), [], m.results);
    if e.m.end == Finished {
      ActPrefixAll(LostBody(b), [], m.results);
      AdriftOn(m1, m1.np, [], m2, []);
      m' := CloseFi(fetch, m2, [], q);
      ReachesTrans(fetch, true, m, m2, m');
      DroppedTwice(m.np, m1, [], m2, []);
      DroppedTwice(m.np, m2, [], m', []);
    } else {
      m' := m2;
    }
  }

  lemma {:induction false} OutElse(fetch: Image, m: Machine, m1: Machine, s: Stmt, open: seq<bool>, mid: nat, q: nat)
      returns (m': Machine)
    requires Adrift(m, m.np, open) && InIf(m, s, m1) && m.results[0] != s.inverted
    requires LoopDepth(s) <= 1 && Fits(m.np, IfDepth(s), LoopDepth(s))
    requires Stands(fetch, m1.pc, FlattenBlock(Then, s.thn), mid) && Stands(fetch, mid, FlattenElse(s.els) + [[Fi]], q)
    ensures Reaches(fetch, true, m1, m')
    ensures EndsAdrift(m.(trace := m1.trace), m.np, ActElse(s, open, m1.results), m', q)
    decreases s, 1
  {
    ThenOpened(m, m1, s, false, true);
    var m2 := SkipBlock(fetch, true, m1, Then, s.thn, mid);
    PassedReady(m1, Opened(m1.np, Then), m2, mid);
    if s.els.NoElse? {
      m' := JustFi(fetch, true, m, m2, s, q);
      assert m1.trace + [] == m1.trace;
    } else {
      m' := OutElseFi(fetch, m, m2, s, open, q);
    }
    ReachesTrans(fetch, true, m1, m2, m');
  }

  lemma ElseAdrift(m: Machine, m2: Machine, s: Stmt, np: Parser, open: seq<bool>)
    requires s.IfElse? && Adrift(m, m.np, open) && m.np.iendx + 1 < |m.np.ie| && Executes(m2, np, false, true)
    requires Agree(m.np.SetIf(m.np.iendx + 1, Itef(ItefElse, false, true, s.inverted)), np)
    ensures Adrift(m2, np, open + [false]) && Over(m.np, np)
  {
    var longer := open + [false];
    forall k | 0 <= k < |longer|
      ensures Holding(np.ie[k + 1], longer[k])
    {
      if k < |open| {
        assert Holding(m.np.ie[k + 1], open[k]);
      }
    }
  }

  lemma {:induction false} OutElseFi(fetch: Image, m: Machine, m2: Machine, s: Stmt, open: seq<bool>, q: nat)
      returns (m': Machine)
    requires s.IfElse? && s.els.ElseBranch? && Adrift(m, m.np, open) && Ready(m2)
    requires LoopDepth(s) <= 1 && Fits(m.np, IfDepth(s), LoopDepth(s))
    requires Agree(m.np.SetIf(m.np.iendx + 1, Itef(ItefThen, false, true, s.inverted)), m2.np)
    requires Stands(fetch, m2.pc, FlattenElse(s.els) + [[Fi]], q)
    ensures Reaches(fetch, true, m2, m')
    ensures EndsAdrift(m.(trace := m2.trace), m.np, ActElse(s, open, m2.results), m', q)
    decreases s, 0
  {
    var b := s.els.block;
    var mid := Split(fetch, m2.pc, FlattenBlock(Else, b), [[Fi]], q);
    var np, longer := Opened(m2.np, Else), open + [false];
    ElseOpened(m, m2, s, false, true);
    ElseAdrift(m, m2, s, np, open);
    var m3 := OutBlock(fetch, m2, Else, b, longer, mid);
    var d := ActAll(b.stmts, longer, m2.results);
    if d.m.end == Finished {
      ActPrefixAll(b.stmts, longer, m2.results);
      AdriftOn(m2, np, longer, m3, d.open);
      m' := CloseFi(fetch, m3, d.open, q);
      ReachesTrans(fetch, true, m2, m3, m');
      CloseIfPrefix(d.open, false);
      ClosedPrefix(open, false, d.open, false);
      DroppedTwice(np, m3, d.open, m', CloseIf(d.open, false));
      DroppedBelow(m.np, np, m', CloseIf(d.open, false));
    } else {
      m' := m3;
    }
  }

  // ---------- loops ----------

  lemma {:induction false} OutLoop(fetch: Image, m: Machine, s: Stmt, open: seq<bool>, q: nat) returns (m': Machine)
    requires s.LoopOver? && Adrift(m, m.np, open) && LoopDepth(s) <= 1 && Fits(m.np, IfDepth(s), LoopDepth(s))
    requires Stands(fetch, m.pc, Flatten(s), q)
    ensures Reaches(fetch, true, m, m') && EndsAdrift(m, m.np, Act(s, open, m.results), m', q)
    decreases |m.results|, 1
  {
    var m1, p := DoLoop(fetch, true, m, s.until, s.cond, FlattenBlock(Do, s.body) + [[Done]], q);
    if m.results == [] {
      assert m.trace + [] == m.trace;
      m' := m1;
    } else {
      var mid := Split(fetch, m1.pc, FlattenBlock(Do, s.body), [[Done]], q);
      if m.results[0] != s.until {
        Leaks.FlatPlaced(s.body.stmts);
        Leaks.DepthApartAll(s.body.stmts, true);
        m' := LeaveLoop(fetch, true, m, m1, s, p, mid, q);
        Leaks.NothingLeaks(s.body.stmts, true, m1.results);
      } else {
        m' := OutPass(fetch, m, m1, s, open, p, mid, q);
      }
      ReachesTrans(fetch, true, m, m1, m');
    }
  }

  lemma LoopInBody(m: Machine, m1: Machine, s: Stmt, open: seq<bool>, p: nat)
    requires Adrift(m, m.np, open) && InLoop(m, s, p, m1) && m.results[0] == s.until
    ensures Opens(m1, Do) && InBody(m1, Opened(m1.np, Do), open)
    ensures var np := Opened(m1.np, Do); |np.ie| == |m.np.ie| && |np.lp| == |m.np.lp| && np.iendx == m.np.iendx
  {
    DoOpened(m, m1, s, p);
  }

  lemma {:induction false} OutPass(fetch: Image, m: Machine, m1: Machine, s: Stmt, open: seq<bool>, p: nat, mid: nat,
                                   q: nat) returns (m': Machine)
    requires Adrift(m, m.np, open) && InLoop(m, s, p, m1) && m.results[0] == s.until
    requires LoopDepth(s) <= 1 && Fits(m.np, IfDepth(s), LoopDepth(s)) && Stands(fetch, p, Flatten(s), q)
    requires Stands(fetch, m1.pc, FlattenBlock(Do, s.body), mid) && Stands(fetch, mid, [[Done]], q)
    ensures Reaches(fetch, true, m1, m') && EndsAdrift(m, m.np, Act(s, open, m.results), m', q)
    decreases |m.results|, 0
  {
    LoopInBody(m, m1, s, open, p);
    var np := Opened(m1.np, Do);
    var m2 := BodyBlock(fetch, m1, Do, s.body, open, mid);
    var e := EvalAll(s.body.stmts, true, true, m1.results);
    var ev := [Event(s.cond, m.results[0])];
    assert m.trace + (ev + e.trace) == m.trace + ev + e.trace;
    if e.end == Finished {
      var m3 := PassDone(fetch, true, m, m1, m2, s, p, e, q);
      ReachesTrans(fetch, true, m1, m2, m3);
      AdriftOn(m, m.np, open, m3, open);
      m' := OutLoop(fetch, m3, s, open, q);
      ReachesTrans(fetch, true, m1, m3, m');
      LoopLeftPrefix(s, open, e.rest);
      var d2 := Act(s, open, e.rest);
      AdriftAfter(m, m.np, Drifted(e.After(ev), open), m3, d2, m', q);
    } else if e.end == Broke {
      var t := UnwindAll(s.body.stmts, open, m1.results);
      UnwindPrefixAll(s.body.stmts, open, m1.results);
      m' := LeftDone(fetch, m, m1, m2, s, open, p, t, q);
      ReachesTrans(fetch, true, m1, m2, m');
    } else {
      m' := m2;
    }
  }

  /** `done` behind a break. */
  lemma {:induction false} LeftDone(fetch: Image, m: Machine, m1: Machine, m2: Machine, s: Stmt, open: seq<bool>,
                                    p: nat, t: seq<bool>, q: nat) returns (m': Machine)
    requires Adrift(m, m.np, open) && InLoop(m, s, p, m1) && m.results[0] == s.until && t <= open
    requires Dropped(Broken(Opened(m1.np, Do)), m2, t) && Stands(fetch, m2.pc, [[Done]], q)
    ensures Reaches(fetch, true, m2, m') && m' == m2.(np := m'.np, pc := q) && Dropped(m.np, m', t)
  {
    LoopInBody(m, m1, s, open, p);
    DoOpened(m, m1, s, p);
    CutReady(m1, Opened(m1.np, Do), open, m2, t);
    m' := DoDone(fetch, true, m2, q);
  }

  // ---------- the script ----------

  /** What the machine does with errors ignored, for every script without a loop inside a loop. */
  lemma {:induction false} IgnoredActs(fetch: Image, depth: nat, ss: Stmts, q: nat, results: seq<bool>)
    requires IfDepthAll(ss) < depth && LoopDepthAll(ss) < depth && LoopDepthAll(ss) <= 1 && Holds(fetch, ss, q)
    ensures Faithful(fetch, true, Start(depth, results), ActAll(ss, [], results).m)
  {
    var m, d := Start(depth, results), ActAll(ss, [], results);
    var x := OutAll(fetch, m, ss, [], q);
    ActNoBreakAll(ss, [], results);
    ActPrefixAll(ss, [], results);
    FaithfulAtEnd(fetch, true, m, d.m, x, q);
  }

  /** The exact condition: with errors ignored, such a script is executed as its structure says on all
      results if and only if it is harmless. */
  lemma {:induction false} IgnoredExactly(fetch: Image, depth: nat, ss: Stmts, q: nat)
    requires IfDepthAll(ss) < depth && LoopDepthAll(ss) < depth && LoopDepthAll(ss) <= 1 && Holds(fetch, ss, q)
    ensures HarmlessAll(ss, []) <==>
      forall results :: Faithful(fetch, true, Start(depth, results), EvalAll(ss, false, true, results))
  {
    if HarmlessAll(ss, []) {
      forall results
        ensures Faithful(fetch, true, Start(depth, results), EvalAll(ss, false, true, results))
      {
        HarmlessActsAll(ss, [], results);
        IgnoredActs(fetch, depth, ss, q, results);
      }
    } else {
      var results := HarmShows(fetch, depth, ss, q);
    }
  }

  /** Results on which the script is to finish, and the machine executes more. */
  lemma {:induction false} HarmShows(fetch: Image, depth: nat, ss: Stmts, q: nat) returns (results: seq<bool>)
    requires IfDepthAll(ss) < depth && LoopDepthAll(ss) < depth && LoopDepthAll(ss) <= 1 && Holds(fetch, ss, q)
    requires !HarmlessAll(ss, [])
    ensures EvalAll(ss, false, true, results).end == Finished
    ensures !Faithful(fetch, true, Start(depth, results), EvalAll(ss, false, true, results))
  {
    results := ExposingAll(ss, [], []);
    var m, e, a := Start(depth, results), EvalAll(ss, false, true, results), ActAll(ss, [], results).m;
    IgnoredActs(fetch, depth, ss, q, results);
    ActNoBreakAll(ss, [], results);
    if Faithful(fetch, true, m, e) {
      NestedLoops.EndsAgree(fetch, true, m, e, a);
      SameTrace(fetch, true, m, e, a);
    }
  }

  lemma SameTrace(fetch: Image, ignore: bool, m: Machine, e: Meaning, a: Meaning)
    requires Faithful(fetch, ignore, m, e) && Faithful(fetch, ignore, m, a)
    ensures e.trace == a.trace
  {
    var x :| Completes(fetch, ignore, m, e, x);
    var y :| Completes(fetch, ignore, m, a, y);
    EndedUnique(fetch, ignore, m, x, y);
  }

  /** In particular: when no loop with a `break` under an `if` stands in a `then` part of which the
      `else` part would be executed. */
  lemma {:induction false} FaithfulWhenIgnored(fetch: Image, depth: nat, ss: Stmts, q: nat, results: seq<bool>)
    requires IfDepthAll(ss) < depth && LoopDepthAll(ss) < depth && LoopDepthAll(ss) <= 1 && Holds(fetch, ss, q)
    requires ShelteredAll(ss) || LoopsOnTop(ss)
    ensures Faithful(fetch, true, Start(depth, results), EvalAll(ss, false, true, results))
  {
    if LoopsOnTop(ss) {
      OnTopSheltered(ss);
    }
    ShelteredHarmlessAll(ss, []);
    HarmlessActsAll(ss, [], results);
    IgnoredActs(fetch, depth, ss, q, results);
  }
}
