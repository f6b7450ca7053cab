/** A shell whose `if` index has fallen behind the text. With errors counted, and no loop inside a
    loop, the index stays below the number of ifs that the text has open, so that the script
    is ended by a rejected `else` or `fi` before its end is read. */
module Stray {
  import opened CText
  import opened Guard
  import opened ControlState
  import opened Structured
  import opened Machine
  import opened Placement
  import opened Steps

  // ---------- the shape of a flat text ----------

  predicate Leaf(w: Command) { Simple(w) || w == [Break] }

  /** What a command does to the nesting of the text. */
  datatype Kind =
    Plainly | OpensIf(inverted: bool) | ClosesIf | OpensLoop | ClosesLoop | Opener | JoinsIf(inverted: bool) | Untidy

  /** `w` is an `if` with a condition. */
  predicate IsIf(w: Command, inverted: bool) {
    && w != [] && w[0] == If
    && if inverted then |w| > 1 && w[1] == Bang && Simple(w[2..]) else Simple(w[1..])
  }

  lemma IfIsIf(inverted: bool, cond: Command)
    requires Simple(cond)
    ensures var w := IfWords(inverted, cond); IsIf(w, inverted) && !IsIf(w, !inverted)
  {
    var w := IfWords(inverted, cond);
    if inverted {
      assert w[2..] == cond && w[1..][0] == Bang;
    } else {
      assert w[1..] == cond;
    }
  }

  function KindOf(w: Command): Kind {
    if w == [] then Untidy
    else match w[0]
      case If => if IsIf(w, false) then OpensIf(false) else if IsIf(w, true) then OpensIf(true) else Untidy
      case While => if Simple(w[1..]) then OpensLoop else Untidy
      case Until => if Simple(w[1..]) then OpensLoop else Untidy
      case Fi => if |w| == 1 then ClosesIf else Untidy
      case Done => if |w| == 1 then ClosesLoop else Untidy
      case Bang => Untidy
      case Break => if |w| == 1 then Plainly else Untidy
      case Plain(text) => if text != "" then Plainly else Untidy
      case Do =>
        if |w| == 1 || Leaf(w[1..]) then Opener
        else if IsIf(w[1..], false) then JoinsIf(false)
        else if IsIf(w[1..], true) then JoinsIf(true)
        else Untidy
      case _ => if |w| == 1 || Leaf(w[1..]) then Opener else Untidy
  }

  /** The keyword that must come next. */
  datatype Expected = Anything | Then1 | Do1

  /** `cmds` is the rest of a text in which `d` ifs are open here, and a loop that begins under
      `loop` of them. */
  predicate Flat(cmds: seq<Command>, d: nat, loop: Option<nat>, next: Expected)
    decreases |cmds|
  {
    if cmds == [] then d == 0 && loop == None && next == Anything
    else
      var w, rest := cmds[0], cmds[1..];
      match KindOf(w)
      case Opener =>
        && next == (match w[0] case Then => Then1 case Do => Do1 case _ => Anything)
        && Flat(rest, d, loop, Anything)
      case Plainly => next == Anything && Flat(rest, d, loop, Anything)
      case OpensIf(_) => next == Anything && Flat(rest, d + 1, loop, Then1)
      case JoinsIf(_) => next == Do1 && Flat(rest, d + 1, loop, Then1)
      case ClosesIf => next == Anything && d > 0 && (loop.Some? ==> loop.value < d) && Flat(rest, d - 1, loop, Anything)
      case OpensLoop => next == Anything && loop == None && Flat(rest, d, Some(d), Do1)
      case ClosesLoop => next == Anything && loop == Some(d) && Flat(rest, d, None, Anything)
      case Untidy => false
  }

  /** `Flat`, kept closed, see `Guard`. */
  ghost predicate Text(cmds: seq<Command>, d: nat, loop: Option<nat>, next: Expected) {
    forall k :: Open(k) ==> Flat(cmds, d, loop, next)
  }

  predicate Bounded(loop: Option<nat>, d: nat) { loop.Some? ==> loop.value <= d }

  function NextAfter(opener: Word): Expected {
    match opener case Then => Then1 case Do => Do1 case _ => Anything
  }

  // Texts, from the end.

  lemma TextNil()
    ensures Text([], 0, None, Anything)
  {
  }

  lemma {:induction false} TextLeaf(w: Command, rest: seq<Command>, d: nat, loop: Option<nat>)
    requires Leaf(w) && Text(rest, d, loop, Anything)
    ensures Text([w] + rest, d, loop, Anything)
  {
    assert Open(0);
    assert ([w] + rest)[1..] == rest;
  }

  lemma {:induction false} TextOpener(opener: Word, w: Command, rest: seq<Command>, d: nat, loop: Option<nat>)
    requires opener in {Then, Else, Do} && (w == [] || Leaf(w)) && Text(rest, d, loop, Anything)
    ensures Text([[opener] + w] + rest, d, loop, NextAfter(opener))
  {
    assert Open(0);
    assert ([[opener] + w] + rest)[1..] == rest;
    assert ([opener] + w)[1..] == w;
  }

  lemma {:induction false} TextIf(inverted: bool, cond: Command, rest: seq<Command>, d: nat, loop: Option<nat>)
    requires Simple(cond) && Text(rest, d + 1, loop, Then1)
    ensures Text([IfWords(inverted, cond)] + rest, d, loop, Anything)
  {
    assert Open(0);
    var w := IfWords(inverted, cond);
    assert ([w] + rest)[1..] == rest;
    IfIsIf(inverted, cond);
  }

  lemma {:induction false} TextJoined(inverted: bool, cond: Command, rest: seq<Command>, d: nat, loop: Option<nat>)
    requires Simple(cond) && Text(rest, d + 1, loop, Then1)
    ensures Text([[Do] + IfWords(inverted, cond)] + rest, d, loop, Do1)
  {
    assert Open(0);
    var w := [Do] + IfWords(inverted, cond);
    assert ([w] + rest)[1..] == rest && w[1..] == IfWords(inverted, cond);
    IfIsIf(inverted, cond);
  }

  lemma {:induction false} TextFi(rest: seq<Command>, d: nat, loop: Option<nat>)
    requires Text(rest, d, loop, Anything) && Bounded(loop, d)
    ensures Text([[Fi]] + rest, d + 1, loop, Anything)
  {
    assert Open(0);
    assert ([[Fi]] + rest)[1..] == rest;
  }

  lemma {:induction false} TextLoop(until: bool, cond: Command, rest: seq<Command>, d: nat)
    requires Simple(cond) && Text(rest, d, Some(d), Do1)
    ensures Text([LoopWords(until, cond)] + rest, d, None, Anything)
  {
    assert Open(0);
    var w := LoopWords(until, cond);
    assert ([w] + rest)[1..] == rest && w[1..] == cond;
  }

  lemma {:induction false} TextDone(rest: seq<Command>, d: nat)
    requires Text(rest, d, None, Anything)
    ensures Text([[Done]] + rest, d, Some(d), Anything)
  {
    assert Open(0);
    assert ([[Done]] + rest)[1..] == rest;
  }

  predicate DepthFits(depth: nat, loop: Option<nat>) { depth <= if loop.Some? then 0 else 1 }

  /** The text of a statement leaves the nesting as it is. */
  lemma {:induction false} TextStmt(s: Stmt, after: seq<Command>, d: nat, loop: Option<nat>)
    requires Text(after, d, loop, Anything) && Bounded(loop, d) && DepthFits(LoopDepth(s), loop)
    ensures Text(Flatten(s) + after, d, loop, Anything)
    decreases s, 2
  {
    match s
    case Run(_) => TextLeaf(CommandWords(s), after, d, loop);
    case BreakLoop => TextLeaf(CommandWords(s), after, d, loop);
    case IfElse(_, _, _, _) => TextOfIf(s, after, d, loop);
    case LoopOver(until, cond, body) =>
      var done := [[Done]] + after;
      TextDone(after, d);
      TextBlock(Do, body, done, d, Some(d));
      TextLoop(until, cond, FlattenBlock(Do, body) + done, d);
      assert Flatten(s) + after == [LoopWords(until, cond)] + (FlattenBlock(Do, body) + done);
  }

  lemma {:induction false} TextOfIf(s: Stmt, after: seq<Command>, d: nat, loop: Option<nat>)
    requires s.IfElse? && Text(after, d, loop, Anything) && Bounded(loop, d) && DepthFits(LoopDepth(s), loop)
    ensures Text(Flatten(s) + after, d, loop, Anything)
    decreases s, 1
  {
    TextTail(s, after, d, loop);
    TextIf(s.inverted, s.cond, IfTail(s) + after, d, loop);
    assert Flatten(s) + after == [IfWords(s.inverted, s.cond)] + (IfTail(s) + after);
  }

  /** What follows the condition of an `if`. */
  lemma {:induction false} TextTail(s: Stmt, after: seq<Command>, d: nat, loop: Option<nat>)
    requires s.IfElse? && Text(after, d, loop, Anything) && Bounded(loop, d) && DepthFits(LoopDepth(s), loop)
    ensures Text(IfTail(s) + after, d + 1, loop, Then1)
    decreases s, 0
  {
    var fi := [[Fi]] + after;
    TextFi(after, d, loop);
    var tail := FlattenElse(s.els) + fi;
    if s.els.ElseBranch? {
      TextBlock(Else, s.els.block, fi, d + 1, loop);
    } else {
      assert tail == fi;
    }
    TextBlock(Then, s.thn, tail, d + 1, loop);
    assert IfTail(s) + after == FlattenBlock(Then, s.thn) + tail;
  }

  lemma {:induction false} TextAll(ss: Stmts, after: seq<Command>, d: nat, loop: Option<nat>)
    requires Text(after, d, loop, Anything) && Bounded(loop, d) && DepthFits(LoopDepthAll(ss), loop)
    ensures Text(FlattenAll(ss) + after, d, loop, Anything)
    decreases ss
  {
    if ss.Cons? {
      TextAll(ss.tail, after, d, loop);
      TextStmt(ss.head, FlattenAll(ss.tail) + after, d, loop);
      assert FlattenAll(ss) + after == Flatten(ss.head) + (FlattenAll(ss.tail) + after);
    } else {
      assert FlattenAll(ss) + after == after;
    }
  }

  lemma {:induction false} TextBlock(opener: Word, b: Block, after: seq<Command>, d: nat, loop: Option<nat>)
    requires Text(after, d, loop, Anything) && Bounded(loop, d) && DepthFits(LoopDepthAll(b.stmts), loop)
    requires opener in {Then, Else, Do}
    ensures Text(FlattenBlock(opener, b) + after, d, loop, NextAfter(opener))
    decreases b
  {
    if b.fused && b.stmts.Cons? && IsCommand(b.stmts.head) {
      var w, rest := CommandWords(b.stmts.head), FlattenAll(b.stmts.tail) + after;
      TextAll(b.stmts.tail, after, d, loop);
      TextOpener(opener, w, rest, d, loop);
      assert FlattenBlock(opener, b) + after == [[opener] + w] + rest;
    } else if Joins(opener, b) {
      var s, rest := b.stmts.head, FlattenAll(b.stmts.tail) + after;
      TextAll(b.stmts.tail, after, d, loop);
      TextTail(s, rest, d, loop);
      TextJoined(s.inverted, s.cond, IfTail(s) + rest, d, loop);
      assert FlattenBlock(opener, b) + after == [[Do] + IfWords(s.inverted, s.cond)] + (IfTail(s) + rest);
    } else {
      var rest := FlattenAll(b.stmts) + after;
      TextAll(b.stmts, after, d, loop);
      TextOpener(opener, [], rest, d, loop);
      assert [opener] + [] == [opener];
      assert FlattenBlock(opener, b) + after == [[opener]] + rest;
    }
  }

  // ---------- a shell that has fallen behind ----------

  /** A loop that a `break` has left, or that was skipped. */
  predicate Dead(r: Loop) { r.state == LoopDo && !r.enable }

  /** The record of the open loop: dead, or opened after the index had fallen behind. */
  ghost predicate LoopPart(fetch: Image, q: nat, np: Parser, d: nat, loop: Option<nat>, head: seq<Command>) {
    && np.lpndx == (if loop.Some? then 1 else 0)
    && Bounded(loop, d)
    && (loop.Some? && !Dead(np.TopLoop()) ==>
          && np.TopLoop().iendx <= np.iendx && d - np.iendx == loop.value - np.TopLoop().iendx
          && Stands(fetch, np.TopLoop().topoffs, head, q) && Text(head, loop.value, None, Anything))
  }

  /** No open record below the top waits for its condition. */
  ghost predicate Calm(np: Parser) { forall k :: 0 <= k < np.iendx && k < |np.ie| ==> np.ie[k].state != ItefIf }

  /** The state `np` is behind a text with `d` open ifs. */
  ghost predicate Behind(fetch: Image, q: nat, np: Parser, d: nat, loop: Option<nat>, next: Expected,
                         head: seq<Command>) {
    && !np.jump && np.Safe(|np.ie|) && Calm(np) && np.iendx < d
    && (np.TopIf().state == ItefIf <==> next == Then1) && (np.AwaitsCondition() <==> next == Do1)
    && LoopPart(fetch, q, np, d, loop, head)
  }

  ghost predicate Astray(fetch: Image, q: nat, m: Machine, rest: seq<Command>, d: nat, loop: Option<nat>,
                         next: Expected, head: seq<Command>) {
    && m.status == Running && Behind(fetch, q, m.np, d, loop, next, head)
    && Stands(fetch, m.pc, rest, q) && Text(rest, d, loop, next)
  }

  /** The script has failed, lacks a result, or goes on behind the text. */
  ghost predicate Lost(fetch: Image, q: nat, m: Machine) {
    || m.status == Failed || m.status == Starved
    || exists rest, d, loop, next, head :: Astray(fetch, q, m, rest, d, loop, next, head)
  }

  lemma BehindReady(fetch: Image, q: nat, m: Machine, d: nat, loop: Option<nat>, head: seq<Command>)
    requires m.status == Running && Behind(fetch, q, m.np, d, loop, Anything, head)
    ensures Ready(m)
  {
  }

  /** Only the exit status and the file position differ. */
  predicate SameRecords(a: Parser, b: Parser) {
    a.ie == b.ie && a.iendx == b.iendx && a.lp == b.lp && a.lpndx == b.lpndx && a.jump == b.jump
  }

  lemma BehindSame(fetch: Image, q: nat, a: Parser, b: Parser, d: nat, loop: Option<nat>, next: Expected,
                   head: seq<Command>)
    requires Behind(fetch, q, a, d, loop, next, head) && SameRecords(a, b)
    ensures Behind(fetch, q, b, d, loop, next, head)
  {
  }

  // ---------- each command keeps it behind ----------

  lemma LostLeaf(fetch: Image, q: nat, m: Machine, f: Fetched, rest: seq<Command>, d: nat, loop: Option<nat>,
                 head: seq<Command>)
    requires m.status == Running && Behind(fetch, q, m.np, d, loop, Anything, head)
    requires f.Fetched? && Leaf(f.words) && Stands(fetch, f.next, rest, q) && Text(rest, d, loop, Anything)
    ensures Lost(fetch, q, StepOn(f, false, m))
  {
    BehindReady(fetch, q, m, d, loop, head);
    var m' := StepOn(f, false, m);
    if !m.np.Enabled() {
      StepSkip(f, false, m);
      assert Astray(fetch, q, m', rest, d, loop, Anything, head);
    } else if f.words == [Break] {
      LostBreak(fetch, q, m, f, rest, d, loop, head);
    } else {
      StepPlain(f, false, m);
      if m'.status == Running {
        BehindSame(fetch, q, m.np, m'.np, d, loop, Anything, head);
        assert Astray(fetch, q, m', rest, d, loop, Anything, head);
      }
    }
  }

  lemma LostBreak(fetch: Image, q: nat, m: Machine, f: Fetched, rest: seq<Command>, d: nat, loop: Option<nat>,
                  head: seq<Command>)
    requires m.status == Running && Behind(fetch, q, m.np, d, loop, Anything, head) && m.np.Enabled()
    requires f.Fetched? && f.words == [Break] && Stands(fetch, f.next, rest, q) && Text(rest, d, loop, Anything)
    ensures Lost(fetch, q, StepOn(f, false, m))
  {
    BehindReady(fetch, q, m, d, loop, head);
    var m' := StepOn(f, false, m);
    if m.np.TopLoop().state == LoopDo {
      StepBreakPop(f, false, m);
      assert Astray(fetch, q, m', rest, d, loop, Anything, head);
    } else {
      StepBreak(f, false, m);
      BehindSame(fetch, q, m.np, m'.np, d, loop, Anything, head);
      assert Astray(fetch, q, m', rest, d, loop, Anything, head);
    }
  }

  lemma BehindOpened(fetch: Image, q: nat, m: Machine, d: nat, loop: Option<nat>, next: Expected, head: seq<Command>,
                     opener: Word)
    requires m.status == Running && Behind(fetch, q, m.np, d, loop, next, head) && Opens(m, opener)
    ensures Behind(fetch, q, Opened(m.np, opener), d, loop, Anything, head)
  {
  }

  lemma LostOpener(fetch: Image, q: nat, m: Machine, f: Fetched, rest: seq<Command>, d: nat, loop: Option<nat>,
                   next: Expected, head: seq<Command>, opener: Word, w: Command)
    requires m.status == Running && Behind(fetch, q, m.np, d, loop, next, head) && Opens(m, opener)
    requires f.Fetched? && f.words == [opener] + w && (w == [] || Leaf(w))
    requires Stands(fetch, f.next, rest, q) && Text(rest, d, loop, Anything)
    ensures Lost(fetch, q, StepOn(f, false, m))
  {
    BehindOpened(fetch, q, m, d, loop, next, head, opener);
    if w == [] {
      StepOpener(f, false, m, opener);
      assert Astray(fetch, q, StepOn(f, false, m), rest, d, loop, Anything, head);
    } else {
      StepFused(f, false, m, opener, w);
      LostLeaf(fetch, q, m.(np := Opened(m.np, opener)), f.(words := w), rest, d, loop, head);
    }
  }

  /** `else` or `fi` under a record that does not await it is an error. */
  lemma Rejected(f: Fetched, m: Machine)
    requires Ready(m) && f.Fetched? && f.words != []
    requires (f.words[0] == Else && m.np.TopIf().state != ItefThen)
          || (f.words[0] == Fi
              && (m.np.iendx == 0 || (m.np.TopIf().state != ItefThen && m.np.TopIf().state != ItefElse)))
    ensures StepOn(f, false, m).status == Failed
  {
  }

  lemma LostElse(fetch: Image, q: nat, m: Machine, f: Fetched, rest: seq<Command>, d: nat, loop: Option<nat>,
                 head: seq<Command>, w: Command)
    requires m.status == Running && Behind(fetch, q, m.np, d, loop, Anything, head)
    requires f.Fetched? && f.words == [Else] + w && (w == [] || Leaf(w))
    requires Stands(fetch, f.next, rest, q) && Text(rest, d, loop, Anything)
    ensures Lost(fetch, q, StepOn(f, false, m))
  {
    BehindReady(fetch, q, m, d, loop, head);
    if m.np.TopIf().state == ItefThen {
      LostOpener(fetch, q, m, f, rest, d, loop, Anything, head, Else, w);
    } else {
      Rejected(f, m);
    }
  }

  lemma LostFi(fetch: Image, q: nat, m: Machine, f: Fetched, rest: seq<Command>, d: nat, loop: Option<nat>,
               head: seq<Command>)
    requires m.status == Running && Behind(fetch, q, m.np, d, loop, Anything, head) && d > 0 && Bounded(loop, d - 1)
    requires f.Fetched? && f.words == [Fi] && Stands(fetch, f.next, rest, q) && Text(rest, d - 1, loop, Anything)
    ensures Lost(fetch, q, StepOn(f, false, m))
  {
    BehindReady(fetch, q, m, d, loop, head);
    if m.np.iendx >= 1 && (m.np.TopIf().state == ItefThen || m.np.TopIf().state == ItefElse) {
      StepFi(f, false, m);
      assert Astray(fetch, q, StepOn(f, false, m), rest, d - 1, loop, Anything, head);
    } else {
      Rejected(f, m);
    }
  }

  lemma {:induction false} LostIf(fetch: Image, q: nat, m: Machine, f: Fetched, rest: seq<Command>, d: nat,
                                  loop: Option<nat>, head: seq<Command>, inverted: bool, cond: Command)
    requires m.status == Running && Behind(fetch, q, m.np, d, loop, Anything, head)
    requires f.Fetched? && f.words == IfWords(inverted, cond) && Simple(cond)
    requires Stands(fetch, f.next, rest, q) && Text(rest, d + 1, loop, Then1)
    ensures Lost(fetch, q, StepOn(f, false, m))
  {
    BehindReady(fetch, q, m, d, loop, head);
    var m' := StepOn(f, false, m);
    if m.np.iendx + 1 < |m.np.ie| {
      IfMoves(f, m, inverted, cond);
      if m'.status == Running {
        BehindIf(fetch, q, m.np, m'.np, d, loop, head);
        assert Astray(fetch, q, m', rest, d + 1, loop, Then1, head);
      }
    } else {
      FullIf(f, m, inverted, cond);
    }
  }

  lemma LostJoined(fetch: Image, q: nat, m: Machine, f: Fetched, rest: seq<Command>, d: nat, loop: Option<nat>,
                   head: seq<Command>, inverted: bool, cond: Command)
    requires m.status == Running && Behind(fetch, q, m.np, d, loop, Do1, head)
    requires f.Fetched? && f.words == [Do] + IfWords(inverted, cond) && Simple(cond)
    requires Stands(fetch, f.next, rest, q) && Text(rest, d + 1, loop, Then1)
    ensures Lost(fetch, q, StepOn(f, false, m))
  {
    BehindOpened(fetch, q, m, d, loop, Do1, head, Do);
    StepFusedIf(f, false, m, IfWords(inverted, cond));
    var words := IfWords(inverted, cond);
    LostIf(fetch, q, m.(np := Opened(m.np, Do)), f.(words := words), rest, d, loop, head, inverted, cond);
  }

  /** What `if` does to the records. */
  lemma {:induction false} IfMoves(f: Fetched, m: Machine, inverted: bool, cond: Command)
    requires Ready(m) && m.np.iendx + 1 < |m.np.ie|
    requires f.Fetched? && f.words == IfWords(inverted, cond) && Simple(cond)
    ensures var m' := StepOn(f, false, m);
      && m'.status != Ended
      && (m'.status == Running ==>
            && m'.pc == f.next && m'.np.iendx < |m'.np.ie| && m'.np.TopIf().state == ItefIf
            && SameRecords(m.np.SetIf(m.np.iendx + 1, m'.np.TopIf()), m'.np))
  {
    StepIf(f, false, m, inverted, cond);
  }

  lemma BehindIf(fetch: Image, q: nat, np: Parser, np': Parser, d: nat, loop: Option<nat>, head: seq<Command>)
    requires Behind(fetch, q, np, d, loop, Anything, head) && np.iendx + 1 < |np.ie| && np'.iendx < |np'.ie|
    requires np'.TopIf().state == ItefIf && SameRecords(np.SetIf(np.iendx + 1, np'.TopIf()), np')
    ensures Behind(fetch, q, np', d + 1, loop, Then1, head)
  {
  }

  lemma FullIf(f: Fetched, m: Machine, inverted: bool, cond: Command)
    requires Ready(m) && m.np.iendx + 1 >= |m.np.ie|
    requires f.Fetched? && f.words == IfWords(inverted, cond) && Simple(cond)
    ensures StepOn(f, false, m).status == Failed
  {
    if inverted {
      assert f.words[2..] == cond;
    } else {
      assert f.words[1..] == cond;
    }
  }

  lemma {:induction false} LostLoop(fetch: Image, q: nat, m: Machine, f: Fetched, rest: seq<Command>, d: nat,
                                    head: seq<Command>, until: bool, cond: Command)
    requires m.status == Running && Behind(fetch, q, m.np, d, None, Anything, head)
    requires f.Fetched? && f.words == LoopWords(until, cond) && Simple(cond) && f.top == m.pc
    requires Stands(fetch, f.next, rest, q) && Text(rest, d, Some(d), Do1)
    requires Stands(fetch, m.pc, [f.words] + rest, q) && Text([f.words] + rest, d, None, Anything)
    ensures Lost(fetch, q, StepOn(f, false, m))
  {
    BehindReady(fetch, q, m, d, None, head);
    var m' := StepOn(f, false, m);
    if m.np.lpndx + 1 < |m.np.lp| {
      LoopHeadMoves(f, m, until, cond);
      if m'.status == Running {
        BehindLoop(fetch, q, m.np, m'.np, d, head, [f.words] + rest, m.pc);
        assert Astray(fetch, q, m', rest, d, Some(d), Do1, [f.words] + rest);
      }
    } else {
      FullLoop(f, m, until, cond);
    }
  }

  /** What the head of a loop does to the records. */
  lemma {:induction false} LoopHeadMoves(f: Fetched, m: Machine, until: bool, cond: Command)
    requires Ready(m) && m.np.lpndx + 1 < |m.np.lp|
    requires f.Fetched? && f.words == LoopWords(until, cond) && Simple(cond)
    ensures var m' := StepOn(f, false, m);
      && m'.status != Ended
      && (m'.status == Running ==>
            var r := m'.np.TopLoop();
            && m'.pc == f.next && m'.np.lpndx < |m'.np.lp|
            && (r.state == LoopWhile || r.state == LoopUntil) && r.iendx == m.np.iendx && r.topoffs == f.top
            && SameRecords(m.np.SetLoop(m.np.lpndx + 1, r), m'.np))
  {
    StepLoopHead(f, false, m, until, cond);
  }

  lemma BehindLoop(fetch: Image, q: nat, np: Parser, np': Parser, d: nat, head: seq<Command>, cmds: seq<Command>,
                   p: nat)
    requires Behind(fetch, q, np, d, None, Anything, head) && np.lpndx + 1 < |np.lp| && np'.lpndx < |np'.lp|
    requires var r := np'.TopLoop();
      && (r.state == LoopWhile || r.state == LoopUntil) && r.iendx == np.iendx && r.topoffs == p
      && SameRecords(np.SetLoop(np.lpndx + 1, r), np')
    requires Stands(fetch, p, cmds, q) && Text(cmds, d, None, Anything)
    ensures Behind(fetch, q, np', d, Some(d), Do1, cmds)
  {
  }

  lemma FullLoop(f: Fetched, m: Machine, until: bool, cond: Command)
    requires Ready(m) && m.np.lpndx + 1 >= |m.np.lp|
    requires f.Fetched? && f.words == LoopWords(until, cond) && Simple(cond)
    ensures StepOn(f, false, m).status == Failed
  {
    assert f.words[1..] == cond;
  }

  lemma LostDone(fetch: Image, q: nat, m: Machine, f: Fetched, rest: seq<Command>, d: nat, head: seq<Command>)
    requires m.status == Running && Behind(fetch, q, m.np, d, Some(d), Anything, head)
    requires f.Fetched? && f.words == [Done] && Stands(fetch, f.next, rest, q) && Text(rest, d, None, Anything)
    ensures Lost(fetch, q, StepOn(f, false, m))
  {
    var m' := StepOn(f, false, m);
    if m.np.TopLoop().state == LoopDo {
      StepDone(f, false, m);
      BehindDone(fetch, q, m.np, d, head);
      assert Astray(fetch, q, m', if m.np.TopLoop().enable then head else rest, d, None, Anything, head);
    } else {
      BehindReady(fetch, q, m, d, Some(d), head);
      NotDone(f, m);
    }
  }

  lemma BehindDone(fetch: Image, q: nat, np: Parser, d: nat, head: seq<Command>)
    requires Behind(fetch, q, np, d, Some(d), Anything, head) && np.TopLoop().state == LoopDo
    ensures Behind(fetch, q, CloseLoop(np).(jump := false), d, None, Anything, head)
  {
  }

  lemma NotDone(f: Fetched, m: Machine)
    requires Ready(m) && m.np.TopLoop().state != LoopDo && f.Fetched? && f.words == [Done]
    ensures StepOn(f, false, m).status == Failed
  {
  }

  // ---------- every step keeps it behind ----------

  /** What stands at an offset: something blank, or the first command. */
  lemma NextPiece(fetch: Image, p: nat, rest: seq<Command>, q: nat)
    requires Stands(fetch, p, rest, q) && rest != []
    ensures var f := fetch(p);
      && f.Fetched?
      && (f.words == [] ==> Stands(fetch, f.next, rest, q))
      && (f.words != [] ==> f.words == rest[0] && Stands(fetch, f.next, rest[1..], q))
      && (IsLoopHead(f.words) ==> f.top == p)
  {
    assert Open(0);
    var n: nat :| Placed(fetch, p, rest, q, n);
    var f := fetch(p);
    if f.words == [] {
      assert Placed(fetch, f.next, rest, q, n - 1);
    } else {
      assert Placed(fetch, f.next, rest[1..], q, n - 1);
    }
  }

  lemma AstrayStep(fetch: Image, q: nat, m: Machine, rest: seq<Command>, d: nat, loop: Option<nat>, next: Expected,
                   head: seq<Command>)
    requires Astray(fetch, q, m, rest, d, loop, next, head)
    ensures Lost(fetch, q, Step(fetch, false, m))
  {
    assert rest != [] by {
      assert Open(0);
    }
    NextPiece(fetch, m.pc, rest, q);
    var f := fetch(m.pc);
    if f.words == [] {
      assert m.trace + [] == m.trace;
      assert StepOn(f, false, m) == m.(pc := f.next);
      assert Astray(fetch, q, m.(pc := f.next), rest, d, loop, next, head);
    } else {
      assert rest == [rest[0]] + rest[1..];
      AstrayCommand(fetch, q, m, f, rest[1..], d, loop, next, head);
    }
  }

  lemma {:induction false} AstrayCommand(fetch: Image, q: nat, m: Machine, f: Fetched, rest: seq<Command>, d: nat,
                                         loop: Option<nat>, next: Expected, head: seq<Command>)
    requires m.status == Running && Behind(fetch, q, m.np, d, loop, next, head)
    requires f.Fetched? && f.words != [] && (IsLoopHead(f.words) ==> f.top == m.pc)
    requires Stands(fetch, m.pc, [f.words] + rest, q) && Stands(fetch, f.next, rest, q)
    requires Text([f.words] + rest, d, loop, next)
    ensures Lost(fetch, q, StepOn(f, false, m))
  {
    var w := f.words;
    var kind := TextFirst(w, rest, d, loop, next);
    match kind
    case Plainly => LostLeaf(fetch, q, m, f, rest, d, loop, head);
    case Opener =>
      assert w == [w[0]] + w[1..];
      if w[0] == Else {
        LostElse(fetch, q, m, f, rest, d, loop, head, w[1..]);
      } else {
        LostOpener(fetch, q, m, f, rest, d, loop, next, head, w[0], w[1..]);
      }
    case OpensIf(inverted) =>
      var cond := if inverted then w[2..] else w[1..];
      assert w == IfWords(inverted, cond);
      LostIf(fetch, q, m, f, rest, d, loop, head, inverted, cond);
    case JoinsIf(inverted) =>
      var cond := if inverted then w[3..] else w[2..];
      assert w == [Do] + IfWords(inverted, cond) && w[1..] == IfWords(inverted, cond);
      assert cond == if inverted then w[1..][2..] else w[1..][1..];
      LostJoined(fetch, q, m, f, rest, d, loop, head, inverted, cond);
    case ClosesIf => LostFi(fetch, q, m, f, rest, d, loop, head);
    case OpensLoop =>
      assert w == LoopWords(w[0] == Until, w[1..]);
      LostLoop(fetch, q, m, f, rest, d, head, w[0] == Until, w[1..]);
    case ClosesLoop => LostDone(fetch, q, m, f, rest, d, head);
  }

  /** The first command of a text and what it makes of the rest. */
  lemma {:induction false} TextFirst(w: Command, rest: seq<Command>, d: nat, loop: Option<nat>, next: Expected)
      returns (kind: Kind)
    requires Text([w] + rest, d, loop, next)
    ensures kind == KindOf(w) != Untidy && w != []
    ensures match kind
      case Plainly => next == Anything && Leaf(w) && Text(rest, d, loop, Anything)
      case Opener =>
        && w[0] in {Then, Else, Do} && next == NextAfter(w[0]) && (|w| == 1 || Leaf(w[1..]))
        && Text(rest, d, loop, Anything)
      case OpensIf(inverted) => next == Anything && IsIf(w, inverted) && Text(rest, d + 1, loop, Then1)
      case JoinsIf(inverted) =>
        next == Do1 && w[0] == Do && IsIf(w[1..], inverted) && Text(rest, d + 1, loop, Then1)
      case ClosesIf =>
        next == Anything && w == [Fi] && d > 0 && (loop.Some? ==> loop.value < d) && Text(rest, d - 1, loop, Anything)
      case OpensLoop =>
        && next == Anything && (w[0] == While || w[0] == Until) && Simple(w[1..])
        && loop == None && Text(rest, d, Some(d), Do1)
      case ClosesLoop => next == Anything && w == [Done] && loop == Some(d) && Text(rest, d, None, Anything)
      case Untidy => false
  {
    assert Open(0);
    assert ([w] + rest)[1..] == rest;
    kind := KindOf(w);
  }

  /** A script that is lost never comes to its end. */
  lemma {:induction false} LostForGood(fetch: Image, q: nat, m: Machine, n: nat)
    requires Lost(fetch, q, m)
    ensures Lost(fetch, q, StepN(fetch, false, m, n))
    decreases n
  {
    if n > 0 {
      if m.status == Running {
        var rest, d, loop, next, head :| Astray(fetch, q, m, rest, d, loop, next, head);
        AstrayStep(fetch, q, m, rest, d, loop, next, head);
      }
      LostForGood(fetch, q, Step(fetch, false, m), n - 1);
    }
  }

  lemma LostNeverEnds(fetch: Image, q: nat, m: Machine, x: Machine)
    requires Lost(fetch, q, m) && Reaches(fetch, false, m, x)
    ensures x.status != Ended
  {
    ReachesIff(fetch, false, m, x);
    var n: nat :| StepN(fetch, false, m, n) == x;
    LostForGood(fetch, q, m, n);
  }
}
