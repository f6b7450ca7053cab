/** The parser state of the NuttX shell and the commands that change it.

    A script is never parsed into a tree. Each command is handed to `ParseCommand`,
    which looks at its leading words and updates two bounded stacks: one record for
    every open `if` (`ie`, `iendx`) and one for every open `while`/`until` loop
    (`lp`, `lpndx`). A command is executed only when the top records allow it, and
    `done` sends the script stream back to the offset saved by its `while`.
 */
module ControlState {

  /** The words of a command, as the argument splitter returns them. */
  datatype Word =
    | While | Until | Do | Done
    | If | Bang | Then | Else | Fi
    | Break
    | Plain(text: string)

  /** The words of one command; the empty sequence is a blank line or a comment. */
  type Command = seq<Word>

  datatype ItefState = ItefNormal | ItefIf | ItefThen | ItefElse
  datatype Itef = Itef(state: ItefState, disabled: bool, ifcond: bool, inverted: bool)

  datatype LoopState = LoopNormal | LoopWhile | LoopUntil | LoopDo
  datatype Loop = Loop(state: LoopState, enable: bool, iendx: nat, topoffs: nat)

  const NORMAL_ITEF := Itef(ItefNormal, false, false, false)
  const NORMAL_LOOP := Loop(LoopNormal, false, 0, 0)

  /** `jump` says that `done` has just moved the script stream to `pos`. */
  datatype Parser = Parser(
    ie: seq<Itef>, iendx: nat,
    lp: seq<Loop>, lpndx: nat,
    jump: bool, pos: nat, fail: bool)
  {
    /** What every run keeps: both stacks hold `depth` records, the indices (and the `if`
        index that each open loop has saved) stay inside them, and slot 0 of each stack
        is never an open construct. */
    ghost predicate Safe(depth: nat) {
      && |ie| == depth && |lp| == depth
      && iendx < depth && lpndx < depth
      && (forall k :: 0 <= k <= lpndx ==> lp[k].iendx < depth)
      && ie[0] == NORMAL_ITEF
      && lp[0].state == LoopNormal
    }

    // The accessors are total; in a `Safe` state the indices are always inside the stacks.

    function TopIf(): Itef {
      if iendx < |ie| then ie[iendx] else NORMAL_ITEF
    }

    function TopLoop(): Loop {
      if lpndx < |lp| then lp[lpndx] else NORMAL_LOOP
    }

    function SetIf(i: nat, r: Itef): Parser {
      if i < |ie| then this.(iendx := i, ie := ie[i := r]) else this
    }

    function SetLoop(i: nat, r: Loop): Parser {
      if i < |lp| then this.(lpndx := i, lp := lp[i := r]) else this
    }

    predicate AwaitsCondition() {
      TopLoop().state == LoopWhile || TopLoop().state == LoopUntil
    }

    // nsh_loop_enabled
    predicate LoopEnabled() {
      TopLoop().state == LoopDo ==> TopLoop().enable
    }

    // nsh_itef_enabled
    predicate ItefEnabled() {
      !TopIf().disabled && TakesBranch(TopIf())
    }

    // nsh_cmdenabled
    predicate Enabled() {
      LoopEnabled() && ItefEnabled()
    }
  }

  /** The branch an open `if` record stands in is the one its condition selects. */
  predicate TakesBranch(r: Itef) {
    match r.state
    case ItefThen => !r.ifcond
    case ItefElse => r.ifcond
    case _ => true
  }

  /** The state of a new shell: nothing open. */
  function Initial(depth: nat): Parser {
    Parser(seq(depth, i => NORMAL_ITEF), 0, seq(depth, i => NORMAL_LOOP), 0, false, 0, false)
  }

  /** A new parser state, and whether the call returned OK. */
  datatype Saved = Saved(np: Parser, ok: bool)

  // nsh_saveresult: the result of a command goes to the loop or the `if` that is
  // waiting for a condition; any other command sets the exit status.
  function SaveResult(np: Parser, failed: bool): Saved {
    if np.TopLoop().state == LoopWhile then
      Saved(np.(fail := false).SetLoop(np.lpndx, np.TopLoop().(enable := !failed)), true)
    else if np.TopLoop().state == LoopUntil then
      Saved(np.(fail := false).SetLoop(np.lpndx, np.TopLoop().(enable := failed)), true)
    else if np.TopIf().state == ItefIf then
      Saved(np.(fail := false).SetIf(np.iendx, np.TopIf().(ifcond := np.TopIf().inverted != failed)), true)
    else
      Saved(np.(fail := failed), !failed)
  }

  /** A new parser state, the words that are left, and whether the keyword was accepted. */
  datatype Token = Token(np: Parser, words: Command, ok: bool)

  function LoopError(np: Parser): Token {
    var bottom := if np.lp == [] then NORMAL_LOOP else np.lp[0];
    Token(np.(jump := false).SetLoop(0, Loop(LoopNormal, true, bottom.iendx, 0)), [], false)
  }

  function ItefError(np: Parser): Token {
    Token(np.SetIf(0, NORMAL_ITEF), [], false)
  }

  /** The argument after a keyword that needs a command: present and not empty. */
  predicate HasArgument(words: Command) {
    words != [] && words[0] != Plain("")
  }

  // nsh_loop. `seekable` holds when a script is being read from a seekable file, and
  // `top` is the file offset of the command.
  function LoopToken(np: Parser, words: Command, seekable: bool, top: nat): Token {
    if words == [] then Token(np, words, true)
    else match words[0]
      case While => OpenLoop(np, words[1..], LoopWhile, seekable, top)
      case Until => OpenLoop(np, words[1..], LoopUntil, seekable, top)
      case Do =>
        if !np.AwaitsCondition() then LoopError(np)
        else Token(np.SetLoop(np.lpndx, np.TopLoop().(state := LoopDo)), words[1..], true)
      case Done =>
        if |words| > 1 || np.TopLoop().state != LoopDo || np.lpndx < 1 then LoopError(np)
        else Token(CloseLoop(np), [], true)
      case _ =>
        if np.AwaitsCondition() then LoopError(np) else Token(np, words, true)
  }

  function OpenLoop(np: Parser, rest: Command, kind: LoopState, seekable: bool, top: nat): Token {
    if !HasArgument(rest) || np.TopIf().state == ItefIf || np.AwaitsCondition() || !seekable
       || np.lpndx + 1 >= |np.lp|
    then LoopError(np)
    else Token(np.(jump := false).SetLoop(np.lpndx + 1, Loop(kind, np.Enabled(), np.iendx, top)), rest, true)
  }

  // An enabled loop is repeated: the script stream is moved to the top of the loop.
  function CloseLoop(np: Parser): Parser
    requires np.lpndx >= 1
  {
    if np.TopLoop().enable then
      np.SetLoop(np.lpndx, np.TopLoop().(state := LoopNormal))
        .(lpndx := np.lpndx - 1, pos := np.TopLoop().topoffs, jump := true)
    else
      np.SetLoop(np.lpndx, np.TopLoop().(state := LoopNormal, enable := true)).(lpndx := np.lpndx - 1)
  }

  // nsh_itef
  function ItefToken(np: Parser, words: Command): Token {
    if words == [] then Token(np, words, true)
    else match words[0]
      case If =>
        var inverted := |words| > 1 && words[1] == Bang;
        var rest := if inverted then words[2..] else words[1..];
        if !HasArgument(rest) || np.TopIf().state == ItefIf || np.iendx + 1 >= |np.ie| then ItefError(np)
        else Token(np.SetIf(np.iendx + 1, Itef(ItefIf, !np.Enabled(), false, inverted)), rest, true)
      case Then =>
        if np.TopIf().state != ItefIf then ItefError(np)
        else Token(np.SetIf(np.iendx, np.TopIf().(state := ItefThen)), words[1..], true)
      case Else =>
        if np.TopIf().state != ItefThen then ItefError(np)
        else Token(np.SetIf(np.iendx, np.TopIf().(state := ItefElse)), words[1..], true)
      case Fi =>
        if |words| > 1 || (np.TopIf().state != ItefThen && np.TopIf().state != ItefElse) || np.iendx < 1
        then ItefError(np)
        else Token(np.(iendx := np.iendx - 1), [], true)
      case _ =>
        if np.TopIf().state == ItefIf then ItefError(np) else Token(np, words, true)
  }

  // cmd_break: outside the body of a loop it does nothing.
  function BreakCmd(np: Parser): Parser {
    if np.TopLoop().state == LoopDo then
      np.SetLoop(np.lpndx, np.TopLoop().(enable := false)).(iendx := np.TopLoop().iendx)
    else np
  }

  /** A command that was executed, and whether it failed. */
  datatype Event = Event(words: Command, failed: bool)

  /** `Starving`: the command is to be executed but no further result is known. */
  datatype Ret = Ok | Error | Starving

  datatype Parsed = Parsed(np: Parser, events: seq<Event>, results: seq<bool>, ret: Ret)

  function Returned(s: Saved, events: seq<Event>, results: seq<bool>): Parsed {
    Parsed(s.np, events, results, if s.ok then Ok else Error)
  }

  // The control-flow part of nsh_parse_command. Executing a command takes the next of
  // `results` (true when it fails); `break` is a shell command that always succeeds.
  function ParseCommand(np: Parser, words: Command, seekable: bool, top: nat, results: seq<bool>): Parsed {
    var l := LoopToken(np, words, seekable, top);
    if !l.ok then Returned(SaveResult(l.np, true), [], results)
    else
      var t := ItefToken(l.np, l.words);
      if !t.ok then Returned(SaveResult(t.np, true), [], results)
      else if t.words == [] || !t.np.Enabled() then Parsed(t.np, [], results, Ok)
      else Execute(t.np, t.words, results)
  }

  function Execute(np: Parser, words: Command, results: seq<bool>): Parsed
    requires words != []
  {
    if words[0] == Break then
      Returned(SaveResult(BreakCmd(np), false), [Event(words, false)], results)
    else if results == [] then Parsed(np, [], results, Starving)
    else Returned(SaveResult(np, results[0]), [Event(words, results[0])], results[1..])
  }

  // ---------- stack safety ----------

  lemma SaveResultSafe(np: Parser, failed: bool, depth: nat)
    requires np.Safe(depth)
    ensures SaveResult(np, failed).np.Safe(depth)
  {
  }

  lemma OpenLoopSafe(np: Parser, rest: Command, kind: LoopState, seekable: bool, top: nat, depth: nat)
    requires np.Safe(depth)
    ensures OpenLoop(np, rest, kind, seekable, top).np.Safe(depth)
  {
  }

  lemma LoopTokenSafe(np: Parser, words: Command, seekable: bool, top: nat, depth: nat)
    requires np.Safe(depth)
    ensures LoopToken(np, words, seekable, top).np.Safe(depth)
  {
    if words != [] {
      assert LoopError(np).np.Safe(depth);
      match words[0]
      case While => OpenLoopSafe(np, words[1..], LoopWhile, seekable, top, depth);
      case Until => OpenLoopSafe(np, words[1..], LoopUntil, seekable, top, depth);
      case Do =>
        if np.AwaitsCondition() {
          assert np.SetLoop(np.lpndx, np.TopLoop().(state := LoopDo)).Safe(depth);
        }
      case Done =>
        if np.TopLoop().state == LoopDo {
          assert CloseLoop(np).Safe(depth);
        }
      case _ =>
    }
  }

  lemma ItefTokenSafe(np: Parser, words: Command, depth: nat)
    requires np.Safe(depth)
    ensures ItefToken(np, words).np.Safe(depth)
  {
    if words != [] {
      assert ItefError(np).np.Safe(depth);
      match words[0]
      case If =>
      case Then =>
      case Else =>
      case Fi =>
      case _ =>
    }
  }

  lemma ExecuteSafe(np: Parser, words: Command, results: seq<bool>, depth: nat)
    requires np.Safe(depth) && words != []
    ensures Execute(np, words, results).np.Safe(depth)
  {
    assert BreakCmd(np).Safe(depth);
    SaveResultSafe(BreakCmd(np), false, depth);
    if results != [] {
      SaveResultSafe(np, results[0], depth);
    }
  }

  /** No command, however ill-placed, takes an index out of its stack or opens slot 0. */
  lemma ParseCommandSafe(np: Parser, words: Command, seekable: bool, top: nat, results: seq<bool>, depth: nat)
    requires np.Safe(depth)
    ensures ParseCommand(np, words, seekable, top, results).np.Safe(depth)
  {
    var l := LoopToken(np, words, seekable, top);
    LoopTokenSafe(np, words, seekable, top, depth);
    SaveResultSafe(l.np, true, depth);
    if l.ok {
      var t := ItefToken(l.np, l.words);
      ItefTokenSafe(l.np, l.words, depth);
      SaveResultSafe(t.np, true, depth);
      if t.ok && t.words != [] {
        ExecuteSafe(t.np, t.words, results, depth);
      }
    }
  }
}
