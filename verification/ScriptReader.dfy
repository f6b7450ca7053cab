/** The two nested loops of the script reader: nsh_script reads a line at the current file
    offset, nsh_parse takes its commands one by one, and a `done` that repeats its loop
    ends the line and moves the file offset. They do what the flat machine does. */
module ScriptReader {
  import opened Guard
  import opened ControlState
  import opened Machine
  import opened ScriptText
  import opened ShellParser
  import LineSplit

  /** `m` is the machine after `n` steps from `m0`; kept closed, see `Guard`. */
  ghost predicate After(fetch: Image, ignore: bool, m0: Machine, n: nat, m: Machine) {
    forall k :: Open(k) ==> StepN(fetch, ignore, m0, n) == m
  }

  lemma AfterNext(fetch: Image, ignore: bool, m0: Machine, n: nat, m: Machine, m': Machine)
    requires After(fetch, ignore, m0, n, m) && m' == Step(fetch, ignore, m)
    ensures After(fetch, ignore, m0, n + 1, m')
  {
    assert Open(0);
    StepNAdd(fetch, ignore, m0, n, 1);
    assert StepN(fetch, ignore, m, 1) == StepN(fetch, ignore, m', 0);
  }

  /** A step on the command `f` takes `m` to `m'`; kept closed, see `Guard`. */
  ghost predicate Stepped(f: Fetched, ignore: bool, m: Machine, m': Machine) {
    forall k :: Open(k) ==> StepOn(f, ignore, m) == m'
  }

  lemma SteppedNext(words: string -> Command, t: string, ignore: bool, m0: Machine, n: nat, m: Machine, m': Machine)
    requires After(Reader(words, t), ignore, m0, n, m) && m.status == Running
    requires Stepped(Fetch(words, t, m.pc), ignore, m, m')
    ensures After(Reader(words, t), ignore, m0, n + 1, m')
  {
    assert Open(0);
    AfterNext(Reader(words, t), ignore, m0, n, m, m');
  }

  lemma SteppedUnclosed(next: nat, ignore: bool, m: Machine, m': Machine)
    requires m' == if ignore then m.(pc := next) else m.(status := Failed)
    ensures Stepped(Fetched.Unclosed(next), ignore, m, m')
  {
  }

  function StatusOf(ret: Ret, ignore: bool): Status {
    match ret
    case Ok => Running
    case Error => if ignore then Running else Failed
    case Starving => Starved
  }

  /** The machine `m` is where the shell is: the same parser state, results and trace; kept
      closed, see `Guard`. */
  ghost predicate Mirrors(m: Machine, np: NshParser, results: seq<bool>, trace: seq<Event>)
    reads np, np.iestate, np.lpstate
  {
    forall k :: Open(k) ==> m.np == np.View().(jump := false) && m.results == results && m.trace == trace
  }

  // nsh_parse_command on the words `w`; `f` is what the machine fetches.
  method HandOn(np: NshParser, w: Command, top: nat, ignore: bool, results: seq<bool>, trace: seq<Event>,
                ghost f: Fetched, ghost m: Machine)
      returns (results': seq<bool>, trace': seq<Event>, status: Status, ghost m': Machine)
    requires np.Valid() && !np.jump && f.Fetched? && f.words == w && f.top == top
    requires Mirrors(m, np, results, trace) && m.status == Running
    modifies np, np.iestate, np.lpstate
    ensures np.Valid() && Stepped(f, ignore, m, m')
    ensures Mirrors(m', np, results', trace') && m'.status == status
    ensures m'.pc == if np.jump then np.pos else f.next
  {
    assert Open(0);
    var events, ret;
    events, results', ret := np.ParseCommand(w, true, top, results);
    trace' := trace + events;
    status := StatusOf(ret, ignore);
    m' := Machine(np.View().(jump := false), if np.jump then np.pos else f.next, results', trace', status);
  }

  // One command of a line. `start` is its offset in the line, and the line was read at the
  // file offset `foffs`; `more` says that the line goes on at `next`. The offset handed on for
  // loops is that of the line plus that of the command in the line.
  method OneCommand(np: NshParser, words: string -> Command, ghost t: string, ignore: bool, foffs: nat, line: string,
                    start: nat, results: seq<bool>, trace: seq<Event>, ghost m: Machine)
      returns (next: nat, more: bool, results': seq<bool>, trace': seq<Event>, status: Status, ghost m': Machine)
    requires np.Valid() && !np.jump
    requires start < |line| && foffs + |line| <= |t|
    requires line[start..] == t[foffs + start..LineEnd(t, foffs + start)]
    requires Mirrors(m, np, results, trace) && m.status == Running && m.pc == foffs + start
    modifies np, np.iestate, np.lpstate
    ensures np.Valid() && (more ==> start < next <= |line| && !np.jump && status == Running)
    ensures Stepped(Fetch(words, t, m.pc), ignore, m, m')
    ensures Mirrors(m', np, results', trace') && m'.status == status
    ensures status == Running ==>
              m'.pc == if np.jump then np.pos else if more then foffs + next else foffs + |line|
  {
    var p := foffs + start;
    var cut := LineSplit.Scan(line[start..], 0);
    ghost var f := Fetch(words, t, m.pc);
    assert f == FetchLine(words, line[start..], p);
    if cut.Unclosed? {
      next, more, results', trace' := |line|, false, results, trace;
      status := if ignore then Running else Failed;
      m' := if ignore then m.(pc := foffs + |line|) else m.(status := Failed);
      SteppedUnclosed(foffs + |line|, ignore, m, m');
    } else {
      next := if cut.Last? then |line| else start + cut.at + 1;
      var w := words(if cut.Last? then line[start..] else line[start..start + cut.at]);
      assert cut.Semicolon? ==> line[start..][..cut.at] == line[start..start + cut.at];
      results', trace', status, m' := HandOn(np, w, p + cut.top, ignore, results, trace, f, m);
      more := cut.Semicolon? && status == Running && !np.jump;
    }
  }

  lemma {:induction false} SameLine(t: string, p: nat, q: nat)
    requires p <= q <= |t| && q < LineEnd(t, p)
    ensures LineEnd(t, q) == LineEnd(t, p)
    decreases q - p
  {
    if p < q {
      SameLine(t, p + 1, q);
    }
  }

  // An empty command, as there is behind a semicolon at the very end of the file.
  method Blank(np: NshParser, results: seq<bool>)
    requires np.Valid()
    modifies np, np.iestate, np.lpstate
    ensures np.Valid() && np.View() == old(np.View())
  {
    var events, rest, ret := np.ParseCommand([], true, 0, results);
  }

  /** After `n` steps from `m0` the machine is in the state `m`, and the shell is where it is. The
      definition is sealed behind a number, so that it is not spelled out in proofs that only
      hand it on; see also `Guard`. */
  ghost predicate Follows(np: NshParser, words: string -> Command, t: string, ignore: bool, m0: Machine, n: nat,
                          m: Machine, results: seq<bool>, trace: seq<Event>)
    reads np, np.iestate, np.lpstate
  {
    FollowsSeal(np, words, t, ignore, m0, n, m, results, trace) == 0
  }

  ghost function FollowsSeal(np: NshParser, words: string -> Command, t: string, ignore: bool, m0: Machine, n: nat,
                             m: Machine, results: seq<bool>, trace: seq<Event>): nat
    reads np, np.iestate, np.lpstate
  {
    if forall k :: Open(k) ==> np.Valid() && After(Reader(words, t), ignore, m0, n, m) && Mirrors(m, np, results, trace)
    then 0 else 1
  }

  /** `line` is what there is from the offset `foffs` to the end of the line; kept closed. */
  ghost predicate IsLine(t: string, foffs: nat, line: string) {
    forall k :: Open(k) ==> foffs <= |t| && line == t[foffs..LineEnd(t, foffs)]
  }

  method ReadLine(t: string, foffs: nat) returns (line: string)
    requires foffs < |t|
    ensures IsLine(t, foffs, line) && line != ""
  {
    line := t[foffs..LineEnd(t, foffs)];
  }

  // One pass of the loop of nsh_parse over `line`, which was read at `foffs`. `n` counts the
  // steps of the machine, which is in the state `m` before the pass.
  method LinePass(np: NshParser, words: string -> Command, t: string, ignore: bool, foffs: nat, line: string,
                  start: nat, results: seq<bool>, trace: seq<Event>, ghost m0: Machine, ghost n: nat, ghost m: Machine)
      returns (next: nat, more: bool, results': seq<bool>, trace': seq<Event>, status: Status, ghost m': Machine)
    requires !np.jump && IsLine(t, foffs, line) && start < |line| && words("") == []
    requires Follows(np, words, t, ignore, m0, n, m, results, trace) && m.status == Running && m.pc == foffs + start
    modifies np, np.iestate, np.lpstate
    ensures Follows(np, words, t, ignore, m0, n + 1, m', results', trace') && m'.status == status
    ensures more ==> !np.jump && status == Running && start < next < |line| && m'.pc == foffs + next
    ensures !more && status == Running ==> m'.pc == if np.jump then np.pos else foffs + |line|
  {
    assert Open(0);
    SameLine(t, foffs, foffs + start);
    next, more, results', trace', status, m' :=
      OneCommand(np, words, t, ignore, foffs, line, start, results, trace, m);
    SteppedNext(words, t, ignore, m0, n, m, m');
    if more && next == |line| {
      Blank(np, results');
      more := false;
    }
  }

  method ClearJump(np: NshParser, words: string -> Command, t: string, ignore: bool, ghost m0: Machine, ghost n: nat,
                   ghost m: Machine, ghost results: seq<bool>, ghost trace: seq<Event>)
    requires Follows(np, words, t, ignore, m0, n, m, results, trace)
    modifies np
    ensures !np.jump && Follows(np, words, t, ignore, m0, n, m, results, trace)
  {
    assert Open(0);
    np.jump := false;
  }

  // nsh_parse on the line at `foffs`, for as many commands as the budget allows.
  method OneLine(np: NshParser, words: string -> Command, t: string, ignore: bool, foffs: nat, results0: seq<bool>,
                 trace0: seq<Event>, budget: nat, ghost m0: Machine, n0: nat, ghost m: Machine)
      returns (filepos: nat, results: seq<bool>, trace: seq<Event>, status: Status, n: nat, ghost m': Machine)
    requires foffs < |t| && words("") == [] && n0 < budget
    requires Follows(np, words, t, ignore, m0, n0, m, results0, trace0) && m.status == Running && m.pc == foffs
    modifies np, np.iestate, np.lpstate
    ensures n0 < n <= budget && Follows(np, words, t, ignore, m0, n, m', results, trace) && m'.status == status
    ensures status == Running && n < budget ==> m'.pc == filepos
  {
    var line := ReadLine(t, foffs);
    ClearJump(np, words, t, ignore, m0, n0, m, results0, trace0);
    var start: nat, more := 0, true;
    results, trace, status, n, m' := results0, trace0, Running, n0, m;
    while more && n < budget
      invariant n0 <= n <= budget && (n == n0 ==> more) && m'.status == status
      invariant Follows(np, words, t, ignore, m0, n, m', results, trace)
      invariant more ==> !np.jump && status == Running && start < |line| && m'.pc == foffs + start
      invariant !more && status == Running ==> m'.pc == if np.jump then np.pos else foffs + |line|
      decreases budget - n
    {
      start, more, results, trace, status, m' :=
        LinePass(np, words, t, ignore, foffs, line, start, results, trace, m0, n, m');
      n := n + 1;
    }
    filepos := if np.jump then np.pos else foffs + |line|;
  }

  /** The script reader with a budget of commands, since a script need not end. */
  method RunScript(np: NshParser, words: string -> Command, t: string, ignore: bool, results0: seq<bool>, budget: nat)
      returns (results: seq<bool>, trace: seq<Event>, status: Status, n: nat)
    requires np.Valid() && words("") == []
    modifies np, np.iestate, np.lpstate
    ensures np.Valid() && n <= budget && (status == Running ==> n == budget)
    ensures var m0 := Machine(old(np.View()).(jump := false), 0, results0, [], Running);
            var m := StepN(Reader(words, t), ignore, m0, n);
            && m.results == results && m.trace == trace
            && m.np == np.View().(jump := false)
            && (m.status == status || (m.status == Running && status == Ended && m.pc >= |t|))
  {
    ghost var m0 := Machine(np.View().(jump := false), 0, results0, [], Running);
    ghost var m := m0;
    var filepos := 0;
    results, trace, status, n := results0, [], Running, 0;
    while status == Running && n < budget
      invariant n <= budget && Follows(np, words, t, ignore, m0, n, m, results, trace)
      invariant m.status == status || (m.status == Running && status == Ended && m.pc >= |t|)
      invariant status == Running && n < budget ==> m.pc == filepos
      decreases budget - n, status == Running
    {
      if filepos >= |t| {
        status := Ended;
      } else {
        filepos, results, trace, status, n, m :=
          OneLine(np, words, t, ignore, filepos, results, trace, budget, m0, n, m);
      }
    }
    assert Open(0);
  }
}
