/** The meaning the script language is meant to have: an interpreter over the tree of an
    if/while/until script, and the sequence of commands such a tree is written as. */
module Structured {
  import opened ControlState

  /** `words` of a command that starts with an ordinary word. */
  predicate Simple(words: Command) {
    words != [] && words[0].Plain? && words[0].text != ""
  }

  type SimpleCommand = words: Command | Simple(words) witness [Plain("true")]

  /** `fused`: the first command of a branch or loop body is written right after the
      `then`, `else` or `do` that opens it, as in `do sleep 1`, and an `if` right after its `do`. */
  datatype Stmt =
    | Run(words: SimpleCommand)
    | BreakLoop
    | IfElse(inverted: bool, cond: SimpleCommand, thn: Block, els: Branch)
    | LoopOver(until: bool, cond: SimpleCommand, body: Block)

  datatype Block = Block(fused: bool, stmts: Stmts)
  datatype Stmts = Nil | Cons(head: Stmt, tail: Stmts)
  datatype Branch = NoElse | ElseBranch(block: Block)

  // ---------- the text of a script ----------

  function FlattenAll(ss: Stmts): seq<Command> {
    match ss
    case Nil => []
    case Cons(s, rest) => Flatten(s) + FlattenAll(rest)
  }

  function Flatten(s: Stmt): seq<Command> {
    match s
    case Run(_) => [CommandWords(s)]
    case BreakLoop => [CommandWords(s)]
    case IfElse(inverted, cond, thn, els) =>
      [IfWords(inverted, cond)]
      + (FlattenBlock(Then, thn) + (FlattenElse(els) + [[Fi]]))
    case LoopOver(until, cond, body) =>
      [LoopWords(until, cond)] + (FlattenBlock(Do, body) + [[Done]])
  }

  function FlattenElse(els: Branch): seq<Command>
    decreases els
  {
    match els
    case NoElse => []
    case ElseBranch(b) => FlattenBlock(Else, b)
  }

  function IfWords(inverted: bool, cond: Command): Command {
    (if inverted then [If, Bang] else [If]) + cond
  }

  function LoopWords(until: bool, cond: Command): Command {
    [if until then Until else While] + cond
  }

  function FlattenBlock(opener: Word, b: Block): seq<Command>
    decreases b
  {
    if b.fused && b.stmts.Cons? && IsCommand(b.stmts.head) then
      [[opener] + CommandWords(b.stmts.head)] + FlattenAll(b.stmts.tail)
    else if Joins(opener, b) then
      var s := b.stmts.head;
      [[opener] + IfWords(s.inverted, s.cond)] + (IfTail(s) + FlattenAll(b.stmts.tail))
    else
      [[opener]] + FlattenAll(b.stmts)
  }

  /** In `do if b` both keywords are taken from one command. No other two are: a `then` or `else` is looked
      for behind the loop keywords, and only once. */
  predicate Joins(opener: Word, b: Block) {
    opener == Do && b.fused && b.stmts.Cons? && b.stmts.head.IfElse?
  }

  /** What follows the condition. */
  function IfTail(s: Stmt): seq<Command>
    requires s.IfElse?
  {
    FlattenBlock(Then, s.thn) + (FlattenElse(s.els) + [[Fi]])
  }

  predicate IsCommand(s: Stmt) {
    s.Run? || s.BreakLoop?
  }

  function CommandWords(s: Stmt): Command
    requires IsCommand(s)
  {
    if s.Run? then s.words else [Break]
  }

  // ---------- the meaning of a script ----------

  /** How the evaluation of a statement ends: at its end, in a `break` out of the
      enclosing loop, at a failed command when errors are not ignored, or for want of a
      result for the next command. */
  datatype End = Finished | Broke | Stopped | OutOfResults

  datatype Meaning = Meaning(trace: seq<Event>, end: End, rest: seq<bool>)
  {
    function After(trace0: seq<Event>): Meaning {
      Meaning(trace0 + trace, end, rest)
    }
  }

  /** `results` holds the results of the commands that are executed, in order. Every pass of
      a loop takes one, so the evaluation ends; a run that never ends is described by its
      meanings on ever longer sequences of results. */
  function Eval(s: Stmt, inLoop: bool, ignore: bool, results: seq<bool>): (m: Meaning)
    ensures |m.rest| <= |results|
    decreases |results|, s
  {
    match s
    case Run(words) =>
      if results == [] then Meaning([], OutOfResults, [])
      else Meaning([Event(words, results[0])], if results[0] && !ignore then Stopped else Finished, results[1..])
    case BreakLoop =>
      Meaning([Event([Break], false)], if inLoop then Broke else Finished, results)
    case IfElse(inverted, cond, thn, els) =>
      if results == [] then Meaning([], OutOfResults, [])
      else
        var chosen := if results[0] == inverted then thn.stmts else ElseStmts(els);
        EvalAll(chosen, inLoop, ignore, results[1..]).After([Event(cond, results[0])])
    case LoopOver(until, cond, body) =>
      if results == [] then Meaning([], OutOfResults, [])
      else if results[0] != until then Meaning([Event(cond, results[0])], Finished, results[1..])
      else
        var pass := EvalAll(body.stmts, true, ignore, results[1..]).After([Event(cond, results[0])]);
        match pass.end
        case Finished => Eval(s, inLoop, ignore, pass.rest).After(pass.trace)
        case Broke => pass.(end := Finished)
        case _ => pass
  }

  function ElseStmts(els: Branch): Stmts {
    if els.ElseBranch? then els.block.stmts else Nil
  }

  function EvalAll(ss: Stmts, inLoop: bool, ignore: bool, results: seq<bool>): (m: Meaning)
    ensures |m.rest| <= |results|
    decreases |results|, ss
  {
    match ss
    case Nil => Meaning([], Finished, results)
    case Cons(s, tail) =>
      var first := Eval(s, inLoop, ignore, results);
      if first.end == Finished then EvalAll(tail, inLoop, ignore, first.rest).After(first.trace)
      else first
  }

  // ---------- limits of the machine ----------

  function Max(a: nat, b: nat): nat { if a < b then b else a }

  /** How many `if` records the statements need at once. */
  function IfDepth(s: Stmt): nat {
    match s
    case IfElse(_, _, thn, els) =>
      1 + Max(IfDepthAll(thn.stmts), match els case NoElse => 0 case ElseBranch(b) => IfDepthAll(b.stmts))
    case LoopOver(_, _, body) => IfDepthAll(body.stmts)
    case _ => 0
  }

  function IfDepthAll(ss: Stmts): nat {
    match ss
    case Nil => 0
    case Cons(s, tail) => Max(IfDepth(s), IfDepthAll(tail))
  }

  /** How many loop records the statements need at once. */
  function LoopDepth(s: Stmt): nat {
    match s
    case IfElse(_, _, thn, els) =>
      Max(LoopDepthAll(thn.stmts), match els case NoElse => 0 case ElseBranch(b) => LoopDepthAll(b.stmts))
    case LoopOver(_, _, body) => 1 + LoopDepthAll(body.stmts)
    case _ => 0
  }

  function LoopDepthAll(ss: Stmts): nat {
    match ss
    case Nil => 0
    case Cons(s, tail) => Max(LoopDepth(s), LoopDepthAll(tail))
  }

  /** `break` is used only directly in the body of a loop, or outside every loop. What follows
      a `break` in a loop body is not executed and is exempt, but for the loops that stand
      there: see `Leaks`. */
  predicate BreaksPlaced(s: Stmt, inLoop: bool, underIf: bool) {
    match s
    case BreakLoop => inLoop ==> !underIf
    case IfElse(_, _, thn, els) =>
      && BreaksPlacedAll(thn.stmts, inLoop, true)
      && (match els case NoElse => true case ElseBranch(b) => BreaksPlacedAll(b.stmts, inLoop, true))
    case LoopOver(_, _, body) => BreaksPlacedAll(body.stmts, true, false)
    case _ => true
  }

  predicate BreaksPlacedAll(ss: Stmts, inLoop: bool, underIf: bool) {
    match ss
    case Nil => true
    case Cons(s, tail) =>
      && BreaksPlaced(s, inLoop, underIf)
      && if s.BreakLoop? && inLoop then LoopsPlaced(tail) else BreaksPlacedAll(tail, inLoop, underIf)
  }

  /** The same of the loops among the statements. */
  predicate LoopsPlaced(ss: Stmts) {
    match ss
    case Nil => true
    case Cons(s, tail) => (s.LoopOver? ==> BreaksPlaced(s, true, false)) && LoopsPlaced(tail)
  }

  /** No loop stands among the statements themselves; it may stand under one of their ifs. */
  predicate NoDirectLoop(ss: Stmts) {
    match ss
    case Nil => true
    case Cons(s, tail) => !s.LoopOver? && NoDirectLoop(tail)
  }

  /** No loop that can be reached has another loop directly in its body. What follows a
      `break` in a loop body is never executed and is exempt. */
  predicate LoopsApart(s: Stmt, inLoop: bool) {
    match s
    case IfElse(_, _, thn, els) =>
      && LoopsApartAll(thn.stmts, inLoop)
      && (match els case NoElse => true case ElseBranch(b) => LoopsApartAll(b.stmts, inLoop))
    case LoopOver(_, _, body) => NoDirectLoop(body.stmts) && LoopsApartAll(body.stmts, true)
    case _ => true
  }

  predicate LoopsApartAll(ss: Stmts, inLoop: bool) {
    match ss
    case Nil => true
    case Cons(s, tail) =>
      LoopsApart(s, inLoop) && ((s.BreakLoop? && inLoop) || LoopsApartAll(tail, inLoop))
  }
}
