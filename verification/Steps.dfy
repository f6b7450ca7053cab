/** What one step of the machine does with each kind of command. */
module Steps {
  import opened ControlState
  import opened Structured
  import opened Machine

  // ---------- states ----------

  /** The open records of the two states are the same; closed slots may differ. */
  ghost predicate Agree(a: Parser, b: Parser) {
    && |a.ie| == |b.ie| && |a.lp| == |b.lp|
    && a.iendx == b.iendx && a.lpndx == b.lpndx
    && (forall k :: 0 <= k <= a.iendx && k < |a.ie| ==> a.ie[k] == b.ie[k])
    && (forall k :: 0 <= k <= a.lpndx && k < |a.lp| ==> a.lp[k] == b.lp[k])
  }

  /** The machine is running and no condition is being waited for. */
  ghost predicate Ready(m: Machine) {
    && m.status == Running && !m.np.jump
    && m.np.Safe(|m.np.ie|)
    && m.np.TopIf().state != ItefIf && !m.np.AwaitsCondition()
  }

  predicate Fits(np: Parser, ifs: nat, loops: nat) {
    np.iendx + ifs < |np.ie| && np.lpndx + loops < |np.lp|
  }

  /** The state after a `break`: the innermost loop is disabled. */
  function Broken(np: Parser): Parser {
    np.SetLoop(np.lpndx, np.TopLoop().(enable := false))
  }

  /** The state after `then`, `else` or `do`. */
  function Opened(np: Parser, opener: Word): Parser {
    match opener
    case Then => np.SetIf(np.iendx, np.TopIf().(state := ItefThen))
    case Else => np.SetIf(np.iendx, np.TopIf().(state := ItefElse))
    case _ => np.SetLoop(np.lpndx, np.TopLoop().(state := LoopDo))
  }

  /** `then`, `else` or `do` is expected here. */
  ghost predicate Opens(m: Machine, opener: Word) {
    && m.status == Running && !m.np.jump
    && m.np.Safe(|m.np.ie|)
    && match opener
       case Then => m.np.TopIf().state == ItefIf && !m.np.AwaitsCondition()
       case Else => m.np.TopIf().state == ItefThen && !m.np.AwaitsCondition()
       case Do => m.np.AwaitsCondition() && m.np.TopIf().state != ItefIf
       case _ => false
  }

  /** Closing the `if` record `r` on top of `np` gives `np` back. */
  lemma PopIf(np: Parser, r: Itef, np': Parser)
    requires np.iendx + 1 < |np.ie| && Agree(np.SetIf(np.iendx + 1, r), np')
    ensures np'.iendx >= 1 && Agree(np, np'.(iendx := np'.iendx - 1))
  {
  }

  /** Closing the loop record `r` on top of `np` gives `np` back. */
  lemma PopLoop(np: Parser, r: Loop, np': Parser)
    requires np.lpndx + 1 < |np.lp| && Agree(np.SetLoop(np.lpndx + 1, r), np')
    ensures np'.lpndx >= 1 && Agree(np, CloseLoop(np').(jump := false))
  {
  }

  /** An `if` record with a known condition, once `then` has been read. */
  lemma PushIf(np: Parser, r: Itef)
    requires np.Safe(|np.ie|) && np.iendx + 1 < |np.ie| && !np.AwaitsCondition() && r.state == ItefIf
    ensures var np1 := np.SetIf(np.iendx + 1, r);
            && np1.Safe(|np1.ie|) && np1.TopIf() == r && np1.TopLoop() == np.TopLoop()
            && Opened(np1, Then) == np.SetIf(np.iendx + 1, r.(state := ItefThen))
            && np1.iendx == np.iendx + 1 && np1.lpndx == np.lpndx && |np1.ie| == |np.ie| && |np1.lp| == |np.lp|
  {
  }

  /** A loop record with a known condition, once `do` has been read. */
  lemma PushLoop(np: Parser, r: Loop)
    requires np.Safe(|np.ie|) && np.lpndx + 1 < |np.lp| && np.TopIf().state != ItefIf
    requires (r.state == LoopWhile || r.state == LoopUntil) && r.iendx == np.iendx
    ensures var np1 := np.SetLoop(np.lpndx + 1, r);
            && np1.Safe(|np1.ie|) && np1.TopLoop() == r && np1.TopIf() == np.TopIf()
            && Opened(np1, Do) == np.SetLoop(np.lpndx + 1, r.(state := LoopDo))
            && np1.iendx == np.iendx && np1.lpndx == np.lpndx + 1 && |np1.ie| == |np.ie| && |np1.lp| == |np.lp|
  {
  }

  lemma OpenedAgree(a: Parser, b: Parser, opener: Word)
    requires Agree(a, b) && a.iendx < |a.ie| && a.lpndx < |a.lp|
    ensures Agree(Opened(a, opener), Opened(b, opener))
  {
  }

  lemma AgreeTrans(a: Parser, b: Parser, c: Parser)
    requires Agree(a, b) && Agree(b, c)
    ensures Agree(a, c)
  {
  }

  /** States that agree treat the next command alike. */
  lemma AgreeTops(a: Parser, b: Parser)
    requires Agree(a, b)
    ensures a.TopIf() == b.TopIf() && a.TopLoop() == b.TopLoop()
    ensures a.Enabled() == b.Enabled() && a.ItefEnabled() == b.ItefEnabled()
    ensures a.AwaitsCondition() == b.AwaitsCondition()
    ensures a.Safe(|a.ie|) ==> b.Safe(|b.ie|)
  {
  }

  // ---------- one step ----------

  /** A word that is not a keyword passes both keyword handlers when no condition is awaited. */
  lemma KeywordsPass(np: Parser, words: Command, top: nat)
    requires words != [] && (words[0].Plain? || words[0] == Break)
    ensures !np.AwaitsCondition() ==> LoopToken(np, words, true, top) == Token(np, words, true)
    ensures np.TopIf().state != ItefIf ==> ItefToken(np, words) == Token(np, words, true)
  {
  }

  /** Two keyword handlers that accept, and then the execution. */
  lemma {:induction false} ParseTokens(np: Parser, words: Command, top: nat, results: seq<bool>, np1: Parser,
                                       words1: Command, np2: Parser, words2: Command)
    requires LoopToken(np, words, true, top) == Token(np1, words1, true)
    requires ItefToken(np1, words1) == Token(np2, words2, true)
    ensures ParseCommand(np, words, true, top, results)
         == if words2 == [] || !np2.Enabled() then Parsed(np2, [], results, Ok) else Execute(np2, words2, results)
  {
  }

  /** So it is executed, or skipped. */
  lemma ParsePlain(np: Parser, words: Command, top: nat, results: seq<bool>)
    requires words != [] && (words[0].Plain? || words[0] == Break)
    requires np.TopIf().state != ItefIf && !np.AwaitsCondition()
    ensures ParseCommand(np, words, true, top, results)
         == if np.Enabled() then Execute(np, words, results) else Parsed(np, [], results, Ok)
  {
    KeywordsPass(np, words, top);
  }

  lemma StepPlain(f: Fetched, ignore: bool, m: Machine)
    requires Ready(m) && m.np.Enabled() && f.Fetched? && Simple(f.words)
    ensures m.results == [] ==> StepOn(f, ignore, m) == m.(pc := f.next, status := Starved)
    ensures m.results != [] ==>
      StepOn(f, ignore, m) ==
        Machine(m.np.(fail := m.results[0]), f.next, m.results[1..], m.trace + [Event(f.words, m.results[0])],
                if m.results[0] && !ignore then Failed else Running)
  {
    ParsePlain(m.np, f.words, f.top, m.results);
    assert m.trace + [] == m.trace;
  }

  lemma StepBreak(f: Fetched, ignore: bool, m: Machine)
    requires Ready(m) && m.np.Enabled() && f.Fetched? && f.words == [Break]
    requires m.np.TopLoop().state == LoopDo ==> m.np.TopLoop().iendx == m.np.iendx
    ensures StepOn(f, ignore, m) ==
      m.(np := (if m.np.TopLoop().state == LoopDo then Broken(m.np) else m.np).(fail := false),
         pc := f.next, trace := m.trace + [Event([Break], false)])
  {
    ParsePlain(m.np, f.words, f.top, m.results);
  }

  lemma StepSkip(f: Fetched, ignore: bool, m: Machine)
    requires Ready(m) && !m.np.Enabled() && f.Fetched? && (Simple(f.words) || f.words == [Break])
    ensures StepOn(f, ignore, m) == m.(pc := f.next)
  {
    ParsePlain(m.np, f.words, f.top, m.results);
    assert m.trace + [] == m.trace;
  }

  lemma StepOpener(f: Fetched, ignore: bool, m: Machine, opener: Word)
    requires Opens(m, opener) && f.Fetched? && f.words == [opener]
    ensures StepOn(f, ignore, m) == m.(np := Opened(m.np, opener), pc := f.next)
  {
    assert f.words[1..] == [];
    assert m.trace + [] == m.trace;
  }

  lemma FusedTokens(np: Parser, words: Command, opener: Word, top: nat)
    requires np.Safe(|np.ie|)
    requires opener == Then ==> np.TopIf().state == ItefIf && !np.AwaitsCondition()
    requires opener == Else ==> np.TopIf().state == ItefThen && !np.AwaitsCondition()
    requires opener == Do ==> np.AwaitsCondition() && np.TopIf().state != ItefIf
    requires opener in {Then, Else, Do}
    requires words != [] && (words[0].Plain? || words[0] == Break)
    ensures var l := LoopToken(np, [opener] + words, true, top);
            l.ok && ItefToken(l.np, l.words) == Token(Opened(np, opener), words, true)
    ensures var o := Opened(np, opener);
            !o.AwaitsCondition() && o.TopIf().state != ItefIf
  {
    assert ([opener] + words)[1..] == words;
    match opener
    case Then =>
    case Else =>
    case Do => KeywordsPass(Opened(np, Do), words, top);
  }

  /** `then c`, `else c` and `do c` act like the keyword followed by the command `c`. */
  lemma StepFused(f: Fetched, ignore: bool, m: Machine, opener: Word, words: Command)
    requires Opens(m, opener) && f.Fetched? && f.words == [opener] + words
    requires Simple(words) || words == [Break]
    ensures StepOn(f, ignore, m) == StepOn(f.(words := words), ignore, m.(np := Opened(m.np, opener)))
  {
    FusedTokens(m.np, words, opener, f.top);
    KeywordsPass(Opened(m.np, opener), words, f.top);
    FusedParse(m.np, Opened(m.np, opener), [opener] + words, words, f.top, m.results);
  }

  /** So does `do if c`. */
  lemma StepFusedIf(f: Fetched, ignore: bool, m: Machine, words: Command)
    requires Opens(m, Do) && f.Fetched? && f.words == [Do] + words && words != [] && words[0] == If
    ensures StepOn(f, ignore, m) == StepOn(f.(words := words), ignore, m.(np := Opened(m.np, Do)))
  {
    var np := Opened(m.np, Do);
    assert ([Do] + words)[1..] == words;
    assert LoopToken(m.np, [Do] + words, true, f.top) == Token(np, words, true);
    assert LoopToken(np, words, true, f.top) == Token(np, words, true);
  }

  lemma FusedParse(np: Parser, np': Parser, words: Command, words': Command, top: nat, results: seq<bool>)
    requires var l := LoopToken(np, words, true, top); l.ok && ItefToken(l.np, l.words) == Token(np', words', true)
    requires LoopToken(np', words', true, top) == Token(np', words', true)
    requires ItefToken(np', words') == Token(np', words', true)
    ensures ParseCommand(np, words, true, top, results) == ParseCommand(np', words', true, top, results)
  {
  }

  /** The machine after a condition in the state `np`; `tested` is the state once the
      condition has come out. */
  function Tested(m: Machine, np: Parser, tested: Parser, pc: nat, cond: Command): Machine {
    if m.results == [] then m.(np := np, pc := pc, status := Starved)
    else
      Machine(tested.(fail := false), pc, m.results[1..], m.trace + [Event(cond, m.results[0])], Running)
  }

  /** The machine after `if [!] cond`. */
  function IfOpened(m: Machine, inverted: bool, cond: Command, pc: nat): Machine {
    var np := m.np.SetIf(m.np.iendx + 1, Itef(ItefIf, !m.np.Enabled(), false, inverted));
    if !m.np.Enabled() then m.(np := np, pc := pc)
    else
      var failed := m.results != [] && m.results[0];
      Tested(m, np, m.np.SetIf(m.np.iendx + 1, Itef(ItefIf, false, inverted != failed, inverted)), pc, cond)
  }

  /** The machine after `while cond` or `until cond` at the offset `p`. */
  function LoopOpened(m: Machine, until: bool, cond: Command, p: nat, pc: nat): Machine {
    var np := m.np.SetLoop(m.np.lpndx + 1, Loop(LoopKind(until), m.np.Enabled(), m.np.iendx, p));
    if !m.np.ItefEnabled() then m.(np := np, pc := pc)
    else
      var failed := m.results != [] && m.results[0];
      Tested(m, np, m.np.SetLoop(m.np.lpndx + 1, Loop(LoopKind(until), failed == until, m.np.iendx, p)), pc, cond)
  }

  lemma IfTokens(np: Parser, inverted: bool, cond: Command, top: nat)
    requires !np.AwaitsCondition() && np.TopIf().state != ItefIf && np.iendx + 1 < |np.ie| && Simple(cond)
    ensures LoopToken(np, IfWords(inverted, cond), true, top) == Token(np, IfWords(inverted, cond), true)
    ensures ItefToken(np, IfWords(inverted, cond)) ==
            Token(np.SetIf(np.iendx + 1, Itef(ItefIf, !np.Enabled(), false, inverted)), cond, true)
  {
    if inverted {
      assert IfWords(inverted, cond)[2..] == cond;
    } else {
      assert IfWords(inverted, cond)[1..] == cond;
    }
  }

  lemma {:induction false} StepIf(f: Fetched, ignore: bool, m: Machine, inverted: bool, cond: Command)
    requires Ready(m) && m.np.iendx + 1 < |m.np.ie| && Simple(cond)
    requires f.Fetched? && f.words == IfWords(inverted, cond)
    ensures StepOn(f, ignore, m) == IfOpened(m, inverted, cond, f.next)
  {
    IfTokens(m.np, inverted, cond, f.top);
    var np := m.np.SetIf(m.np.iendx + 1, Itef(ItefIf, !m.np.Enabled(), false, inverted));
    ParseTokens(m.np, f.words, f.top, m.results, m.np, f.words, np, cond);
    assert m.trace + [] == m.trace;
  }

  lemma {:induction false} StepFi(f: Fetched, ignore: bool, m: Machine)
    requires m.status == Running && !m.np.jump && !m.np.AwaitsCondition() && m.np.iendx >= 1
    requires m.np.TopIf().state == ItefThen || m.np.TopIf().state == ItefElse
    requires f.Fetched? && f.words == [Fi]
    ensures StepOn(f, ignore, m) == m.(np := m.np.(iendx := m.np.iendx - 1), pc := f.next)
  {
    ParseTokens(m.np, f.words, f.top, m.results, m.np, f.words, m.np.(iendx := m.np.iendx - 1), []);
    assert m.trace + [] == m.trace;
  }

  function LoopKind(until: bool): LoopState { if until then LoopUntil else LoopWhile }

  lemma LoopTokens(np: Parser, until: bool, cond: Command, top: nat)
    requires !np.AwaitsCondition() && np.TopIf().state != ItefIf && np.lpndx + 1 < |np.lp| && Simple(cond) && !np.jump
    ensures var np' := np.SetLoop(np.lpndx + 1, Loop(LoopKind(until), np.Enabled(), np.iendx, top));
            && LoopToken(np, LoopWords(until, cond), true, top) == Token(np', cond, true)
            && ItefToken(np', cond) == Token(np', cond, true)
            && np'.Enabled() == np.ItefEnabled()
  {
    assert LoopWords(until, cond)[1..] == cond;
  }

  /** The condition of a loop is executed when the `if` records allow it, whatever the
      enclosing loop record says. */
  lemma StepLoopHead(f: Fetched, ignore: bool, m: Machine, until: bool, cond: Command)
    requires Ready(m) && m.np.lpndx + 1 < |m.np.lp| && Simple(cond)
    requires f.Fetched? && f.words == LoopWords(until, cond)
    ensures StepOn(f, ignore, m) == LoopOpened(m, until, cond, f.top, f.next)
  {
    LoopTokens(m.np, until, cond, f.top);
    assert m.trace + [] == m.trace;
  }

  lemma StepDone(f: Fetched, ignore: bool, m: Machine)
    requires m.status == Running && !m.np.jump && m.np.lpndx >= 1 && m.np.TopLoop().state == LoopDo
    requires f.Fetched? && f.words == [Done]
    ensures var m' := StepOn(f, ignore, m);
            && m' == m.(np := m'.np, pc := if m.np.TopLoop().enable then m.np.TopLoop().topoffs else f.next)
            && m'.np == CloseLoop(m.np).(jump := false)
  {
    assert m.trace + [] == m.trace;
  }

  // ---------- steps that structured scripts within the limits never make ----------

  /** The state after a `break` under an `if`: the `if` records opened in the loop are gone. */
  function Popped(np: Parser): Parser {
    np.SetLoop(np.lpndx, np.TopLoop().(enable := false)).(iendx := np.TopLoop().iendx, fail := false)
  }

  lemma StepBreakPop(f: Fetched, ignore: bool, m: Machine)
    requires Ready(m) && m.np.Enabled() && m.np.TopLoop().state == LoopDo
    requires var r := m.np.TopLoop().iendx; r < |m.np.ie| && m.np.ie[r].state != ItefIf
    requires f.Fetched? && f.words == [Break]
    ensures StepOn(f, ignore, m) ==
      m.(np := Popped(m.np), pc := f.next, trace := m.trace + [Event([Break], false)])
  {
    ParsePlain(m.np, f.words, f.top, m.results);
  }

  predicate Closes(words: Command) { words == [Fi] || (words != [] && words[0] == Else) }

  /** `else` or `fi` where it does not belong. */
  predicate Misplaced(np: Parser, words: Command) {
    && Closes(words) && np.TopIf().state != ItefThen
    && (words[0] == Fi ==> np.TopIf().state != ItefElse)
  }

  /** It closes all open ifs. */
  lemma StepMisplaced(f: Fetched, ignore: bool, m: Machine)
    requires Ready(m) && f.Fetched? && Misplaced(m.np, f.words)
    ensures StepOn(f, ignore, m) ==
      m.(np := m.np.(iendx := 0, fail := true), pc := f.next, status := if ignore then Running else Failed)
  {
    assert m.np.SetIf(0, NORMAL_ITEF) == m.np.(iendx := 0);
    ParseRejected(m.np, f.words, f.top, m.results);
    assert m.trace + [] == m.trace;
  }

  lemma {:induction false} ParseRejected(np: Parser, words: Command, top: nat, results: seq<bool>)
    requires Misplaced(np, words) && !np.AwaitsCondition()
    requires np.SetIf(0, NORMAL_ITEF) == np.(iendx := 0) && np.(iendx := 0).TopIf() == NORMAL_ITEF
    ensures ParseCommand(np, words, true, top, results) == Parsed(np.(iendx := 0, fail := true), [], results, Error)
  {
    assert LoopToken(np, words, true, top) == Token(np, words, true);
    assert ItefToken(np, words) == Token(np.(iendx := 0), [], false);
  }
}
