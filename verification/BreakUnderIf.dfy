/** A `break` under an `if` inside a loop: the shell closes the `if` together with the loop, so
    the `fi` that follows meets the wrong record. This module has the steps that the shell then
    makes, and a family of scripts in which it executes a command of the branch that is not
    taken, with errors ignored. */
module BreakUnderIf {
  import opened ControlState
  import opened Structured
  import opened Machine
  import opened Placement
  import opened Steps
  import opened Advance
  import opened ScriptTheorem

  function One(s: Stmt): Stmts { Cons(s, Nil) }
  function Plainly(s: Stmt): Block { Block(false, One(s)) }

  // while a; do if b; then break; fi; done
  function BreakingLoop(a: SimpleCommand, b: SimpleCommand): Stmt {
    LoopOver(false, a, Plainly(IfElse(false, b, Plainly(BreakLoop), NoElse)))
  }

  // if x; then while a; do if b; then break; fi; done; else c; fi
  function BreakInThenPart(x: SimpleCommand, a: SimpleCommand, b: SimpleCommand, c: SimpleCommand): Stmts {
    One(IfElse(false, x, Plainly(BreakingLoop(a, b)), ElseBranch(Plainly(Run(c)))))
  }

  // ---------- steps that the structured scripts never make ----------

  lemma DoBreakPop(fetch: Image, ignore: bool, m: Machine, rest: seq<Command>, q: nat) returns (m': Machine)
    requires Ready(m) && m.np.Enabled() && m.np.TopLoop().state == LoopDo
    requires var r := m.np.TopLoop().iendx; r < |m.np.ie| && m.np.ie[r].state != ItefIf
    requires Stands(fetch, m.pc, [[Break]] + rest, q)
    ensures Reaches(fetch, ignore, m, m') && Stands(fetch, m'.pc, rest, q)
    ensures m' == m.(np := Popped(m.np), pc := m'.pc, trace := m.trace + [Event([Break], false)])
  {
    var m1 := Locate(fetch, ignore, m, [Break], rest, q);
    m' := m1.(np := Popped(m1.np), pc := fetch(m1.pc).next, trace := m1.trace + [Event([Break], false)]);
    StepBreakPop(fetch(m1.pc), ignore, m1);
    Go(fetch, ignore, m1, m');
    ReachesTrans(fetch, ignore, m, m1, m');
  }

  lemma DoMisplaced(fetch: Image, ignore: bool, m: Machine, w: Command, rest: seq<Command>, q: nat)
      returns (m': Machine)
    requires Ready(m) && Misplaced(m.np, w)
    requires Stands(fetch, m.pc, [w] + rest, q)
    ensures Reaches(fetch, ignore, m, m') && Stands(fetch, m'.pc, rest, q)
    ensures m' == m.(np := m.np.(iendx := 0, fail := true), pc := m'.pc,
                     status := if ignore then Running else Failed)
  {
    var m1 := Locate(fetch, ignore, m, w, rest, q);
    StepMisplaced(fetch(m1.pc), ignore, m1);
    m' := m1.(np := m1.np.(iendx := 0, fail := true), pc := fetch(m1.pc).next,
              status := if ignore then Running else Failed);
    Go(fetch, ignore, m1, m');
    ReachesTrans(fetch, ignore, m, m1, m');
  }

  // ---------- up to the `break` ----------

  function LoopCommands(a: SimpleCommand, b: SimpleCommand): seq<Command> {
    [LoopWords(false, a), [Do], IfWords(false, b), [Then], [Break], [Fi], [Done]]
  }

  lemma FlattenLoop(a: SimpleCommand, b: SimpleCommand)
    ensures Flatten(BreakingLoop(a, b)) == LoopCommands(a, b)
  {
    var inner := IfElse(false, b, Plainly(BreakLoop), NoElse);
    assert FlattenAll(One(BreakLoop)) == [[Break]];
    assert FlattenBlock(Then, Plainly(BreakLoop)) == [[Then], [Break]];
    assert FlattenElse(NoElse) + [[Fi]] == [[Fi]];
    assert Flatten(inner) == [IfWords(false, b), [Then], [Break], [Fi]];
    assert FlattenAll(One(inner)) == Flatten(inner) + [] == Flatten(inner);
    assert FlattenBlock(Do, Plainly(inner)) == [[Do]] + Flatten(inner);
  }

  /** From the loop to behind its `break`, both conditions being true. */
  lemma {:induction false} UpToBreak(fetch: Image, ignore: bool, m: Machine, a: SimpleCommand, b: SimpleCommand,
                                     rest: seq<Command>, q: nat) returns (m': Machine)
    requires Ready(m) && m.np.Enabled() && Fits(m.np, 1, 1) && |m.results| >= 2 && !m.results[0] && !m.results[1]
    requires m.np.TopLoop().state == LoopNormal
    requires Stands(fetch, m.pc, LoopCommands(a, b)[..5] + rest, q)
    ensures Reaches(fetch, ignore, m, m') && Stands(fetch, m'.pc, rest, q)
    ensures m'.status == Running && m'.results == m.results[2..]
    ensures m'.trace == m.trace + [Event(a, false), Event(b, false), Event([Break], false)]
    ensures Ready(m') && m'.np.iendx == m.np.iendx && m'.np.lpndx == m.np.lpndx + 1
    ensures m'.np.TopLoop().state == LoopDo && !m'.np.TopLoop().enable && m'.np.TopIf() == m.np.TopIf()
    ensures |m'.np.ie| == |m.np.ie|
    ensures forall k :: 0 <= k < m.np.iendx ==> m'.np.ie[k] == m.np.ie[k]
  {
    var r2 := [IfWords(false, b)] + ([[Then], [Break]] + rest);
    assert LoopCommands(a, b)[..5] + rest == [LoopWords(false, a)] + ([[Do]] + r2);
    var m2 := EnterLoop(fetch, ignore, m, a, r2, q);
    var m3 := DoIf(fetch, ignore, m2, Alone, false, b, [[Then], [Break]] + rest, q);
    ReachesTrans(fetch, ignore, m, m2, m3);
    m' := ThenBreak(fetch, ignore, m2, m3, b, rest, q);
    ReachesTrans(fetch, ignore, m, m3, m');
  }

  /** Into the body of a loop. */
  lemma {:induction false} EnterLoop(fetch: Image, ignore: bool, m: Machine, a: SimpleCommand, rest: seq<Command>,
                                     q: nat) returns (m': Machine)
    requires Ready(m) && m.np.Enabled() && m.np.lpndx + 1 < |m.np.lp| && m.results != [] && !m.results[0]
    requires Stands(fetch, m.pc, [LoopWords(false, a)] + ([[Do]] + rest), q)
    ensures Reaches(fetch, ignore, m, m') && Stands(fetch, m'.pc, rest, q)
    ensures m'.status == Running && m'.results == m.results[1..] && m'.trace == m.trace + [Event(a, false)]
    ensures Ready(m') && m'.np.Enabled() && m'.np.iendx == m.np.iendx && m'.np.lpndx == m.np.lpndx + 1
    ensures m'.np.TopLoop().state == LoopDo && m'.np.TopLoop().iendx == m.np.iendx && m'.np.ie == m.np.ie
  {
    var m1, p := DoLoop(fetch, ignore, m, false, a, [[Do]] + rest, q);
    PushLoop(m.np.(fail := false), Loop(LoopWhile, true, m.np.iendx, p));
    m' := DoOpener(fetch, ignore, m1, Do, rest, q);
    ReachesTrans(fetch, ignore, m, m1, m');
  }

  lemma {:induction false} ThenBreak(fetch: Image, ignore: bool, m2: Machine, m3: Machine, b: SimpleCommand,
                                     rest: seq<Command>, q: nat) returns (m': Machine)
    requires Ready(m2) && m2.np.Enabled() && m2.np.iendx + 1 < |m2.np.ie| && m2.results != [] && !m2.results[0]
    requires m2.np.TopLoop().state == LoopDo && m2.np.TopLoop().iendx == m2.np.iendx
    requires m3 == IfOpened(m2, false, b, m3.pc)
    requires Stands(fetch, m3.pc, [[Then], [Break]] + rest, q)
    ensures Reaches(fetch, ignore, m3, m') && Stands(fetch, m'.pc, rest, q)
    ensures m'.status == Running && m'.results == m2.results[1..] && !m'.np.jump
    ensures m'.trace == m2.trace + [Event(b, false), Event([Break], false)]
    ensures m'.np.iendx == m2.np.iendx && m'.np.lpndx == m2.np.lpndx && |m'.np.ie| == |m2.np.ie|
    ensures forall k :: 0 <= k <= m2.np.iendx ==> m'.np.ie[k] == m2.np.ie[k]
    ensures m'.np.lp == m2.np.lp[m2.np.lpndx := m2.np.TopLoop().(enable := false)]
  {
    PushIf(m2.np.(fail := false), Itef(ItefIf, false, false, false));
    assert [[Then], [Break]] + rest == [[Then]] + ([[Break]] + rest);
    var m4 := DoOpener(fetch, ignore, m3, Then, [[Break]] + rest, q);
    m' := DoBreakPop(fetch, ignore, m4, rest, q);
    ReachesTrans(fetch, ignore, m3, m4, m');
  }

  // ---------- errors ignored: a command of the wrong branch is executed ----------

  lemma FlattenThenPart(x: SimpleCommand, a: SimpleCommand, b: SimpleCommand, c: SimpleCommand)
    ensures FlattenAll(BreakInThenPart(x, a, b, c)) ==
      [IfWords(false, x)] + ([[Then]] + (LoopCommands(a, b)[..5] + [[Fi], [Done], [Else], c, [Fi]]))
  {
    FlattenLoop(a, b);
    var loop := BreakingLoop(a, b);
    assert FlattenAll(One(loop)) == LoopCommands(a, b) + [] == LoopCommands(a, b);
    assert FlattenAll(One(Run(c))) == [c];
    assert FlattenBlock(Then, Plainly(loop)) == [[Then]] + LoopCommands(a, b);
    assert FlattenElse(ElseBranch(Plainly(Run(c)))) + [[Fi]] == [[Else], c, [Fi]];
    var s := IfElse(false, x, Plainly(loop), ElseBranch(Plainly(Run(c))));
    assert Flatten(s) == [IfWords(false, x)] + ([[Then]] + LoopCommands(a, b) + [[Else], c, [Fi]]);
    assert FlattenAll(One(s)) == Flatten(s) + [] == Flatten(s);
    assert [[Then]] + LoopCommands(a, b) + [[Else], c, [Fi]]
        == [[Then]] + (LoopCommands(a, b)[..5] + [[Fi], [Done], [Else], c, [Fi]]);
  }

  /** Behind the `break`: `fi` closes the outer `if`, so `else` finds none and `c` is enabled. */
  lemma PastLoop(fetch: Image, m: Machine, c: SimpleCommand, q: nat) returns (m': Machine)
    requires Ready(m) && m.np.iendx == 1 && m.np.lpndx == 1 && m.results != []
    requires m.np.TopLoop().state == LoopDo && !m.np.TopLoop().enable && m.np.TopIf().state == ItefThen
    requires Stands(fetch, m.pc, [[Fi], [Done], [Else], c, [Fi]], q)
    ensures Reaches(fetch, true, m, m') && m'.trace == m.trace + [Event(c, m.results[0])]
  {
    assert [[Fi], [Done], [Else], c, [Fi]] == [[Fi]] + [[Done], [Else], c, [Fi]];
    var m1 := Locate(fetch, true, m, [Fi], [[Done], [Else], c, [Fi]], q);
    GoFi(fetch, true, m1);
    var m2 := m1.(np := m1.np.(iendx := 0), pc := fetch(m1.pc).next);
    ReachesTrans(fetch, true, m, m1, m2);
    assert [[Done], [Else], c, [Fi]] == [[Done]] + [[Else], c, [Fi]];
    var m3 := Locate(fetch, true, m2, [Done], [[Else], c, [Fi]], q);
    GoDone(fetch, true, m3);
    var m4 := LoopClosed(m3, fetch(m3.pc).next);
    ReachesTrans(fetch, true, m2, m3, m4);
    ReachesTrans(fetch, true, m, m2, m4);
    m' := ElseRunsOn(fetch, m4, c, q);
    ReachesTrans(fetch, true, m, m4, m');
  }

  lemma ElseRunsOn(fetch: Image, m: Machine, c: SimpleCommand, q: nat) returns (m': Machine)
    requires Ready(m) && m.np.iendx == 0 && m.np.Enabled() && m.results != []
    requires Stands(fetch, m.pc, [[Else], c, [Fi]], q)
    ensures Reaches(fetch, true, m, m') && m'.trace == m.trace + [Event(c, m.results[0])]
  {
    assert [[Else], c, [Fi]] == [[Else]] + [c, [Fi]];
    var m1 := DoMisplaced(fetch, true, m, [Else], [c, [Fi]], q);
    assert [c, [Fi]] == [LeadWords(Alone, c)] + [[Fi]];
    m' := DoPlain(fetch, true, m1, Alone, c, [[Fi]], q);
    ReachesTrans(fetch, true, m, m1, m');
  }

  /** With errors ignored, the command `c` of the branch that is not taken is executed. */
  lemma BreakRunsElse(fetch: Image, depth: nat, x: SimpleCommand, a: SimpleCommand, b: SimpleCommand, c: SimpleCommand,
                      q: nat)
    requires depth >= 3 && c != x && c != a && c != b
    requires Holds(fetch, BreakInThenPart(x, a, b, c), q)
    ensures var results := [false, false, false, false];
            !Faithful(fetch, true, Start(depth, results),
                      EvalAll(BreakInThenPart(x, a, b, c), false, true, results))
  {
    var m := Start(depth, [false, false, false, false]);
    FlattenThenPart(x, a, b, c);
    var tail := [[Fi], [Done], [Else], c, [Fi]];
    var m1 := DoIf(fetch, true, m, Alone, false, x, [[Then]] + (LoopCommands(a, b)[..5] + tail), q);
    PushIf(m.np.(fail := false), Itef(ItefIf, false, false, false));
    var m2 := DoOpener(fetch, true, m1, Then, LoopCommands(a, b)[..5] + tail, q);
    ReachesTrans(fetch, true, m, m1, m2);
    var m3 := UpToBreak(fetch, true, m2, a, b, tail, q);
    ReachesTrans(fetch, true, m, m2, m3);
    var m4 := PastLoop(fetch, m3, c, q);
    ReachesTrans(fetch, true, m, m3, m4);
    MeansOwn(x, a, b, c);
    assert m4.trace[|m4.trace| - 1] == Event(c, false);
  }

  lemma MeansOwn(x: SimpleCommand, a: SimpleCommand, b: SimpleCommand, c: SimpleCommand)
    ensures var e := EvalAll(BreakInThenPart(x, a, b, c), false, true, [false, false, false, false]);
            e.trace == [Event(x, false), Event(a, false), Event(b, false), Event([Break], false)]
  {
    var inner := IfElse(false, b, Plainly(BreakLoop), NoElse);
    var loop := BreakingLoop(a, b);
    var r1: seq<bool> := [false];
    assert [false, false, false, false][1..] == [false, false, false] && [false, false, false][1..] == [false, false];
    assert [false, false][1..] == r1;
    assert EvalAll(One(BreakLoop), true, true, r1) == Meaning([Event([Break], false)], Broke, r1);
    assert Eval(inner, true, true, [false, false]).trace == [Event(b, false), Event([Break], false)];
    assert EvalAll(One(inner), true, true, [false, false]) == Eval(inner, true, true, [false, false]);
    assert Eval(loop, false, true, [false, false, false]).trace
        == [Event(a, false), Event(b, false), Event([Break], false)];
    assert EvalAll(One(loop), false, true, [false, false, false]).trace
        == [Event(a, false), Event(b, false), Event([Break], false)] + [];
  }
}
