/** The script reader as a machine: it fetches the command at the current offset of the
    script, lets `ParseCommand` work on it, and goes on at the next command or, after a
    `done` that repeats its loop, at the offset the loop has saved. */
module Machine {
  import opened ControlState

  /** What is found at an offset of the script: nothing, a line with an unclosed quotation
      mark, or a command. `top` is the offset that a loop starting here would save. */
  datatype Fetched =
    | Eof
    | Unclosed(next: nat)
    | Fetched(words: Command, top: nat, next: nat)

  type Image = nat -> Fetched

  /** `Ended`: the end of the script has been read. `Failed`: an error has ended it. `Starved`: no
      result is known for the next command. */
  datatype Status = Running | Ended | Failed | Starved

  /** `trace` is what has been executed, `results` what is known of the commands to come. */
  datatype Machine = Machine(np: Parser, pc: nat, results: seq<bool>, trace: seq<Event>, status: Status)

  function Step(fetch: Image, ignore: bool, m: Machine): Machine
  {
    if m.status != Running then m else StepOn(fetch(m.pc), ignore, m)
  }

  /** One step on the command `f`. With `ignore` errors do not end the script. */
  function StepOn(f: Fetched, ignore: bool, m: Machine): Machine
  {
    match f
    case Eof => m.(status := Ended)
    case Unclosed(next) => if ignore then m.(pc := next) else m.(status := Failed)
    case Fetched(words, top, next) =>
      var r := ParseCommand(m.np, words, true, top, m.results);
      Machine(
        r.np.(jump := false),
        if r.np.jump then r.np.pos else next,
        r.results,
        m.trace + r.events,
        match r.ret
          case Ok => Running
          case Error => if ignore then Running else Failed
          case Starving => Starved)
  }

  function StepN(fetch: Image, ignore: bool, m: Machine, n: nat): Machine
    decreases n
  {
    if n == 0 then m else StepN(fetch, ignore, Step(fetch, ignore, m), n - 1)
  }

  /** A run is a sequence of states, each one step after the one before it. */
  ghost predicate IsRun(fetch: Image, ignore: bool, run: seq<Machine>) {
    run != [] && forall i :: 0 <= i < |run| - 1 ==> Moves(fetch, ignore, run, i)
  }

  ghost predicate Moves(fetch: Image, ignore: bool, run: seq<Machine>, i: nat)
    requires i + 1 < |run|
  {
    run[i + 1] == Step(fetch, ignore, run[i])
  }

  ghost predicate Connects(fetch: Image, ignore: bool, run: seq<Machine>, m: Machine, m': Machine) {
    IsRun(fetch, ignore, run) && run[0] == m && run[|run| - 1] == m'
  }

  ghost predicate Reaches(fetch: Image, ignore: bool, m: Machine, m': Machine) {
    exists run :: Connects(fetch, ignore, run, m, m')
  }

  lemma ReachesSelf(fetch: Image, ignore: bool, m: Machine)
    ensures Reaches(fetch, ignore, m, m)
  {
    assert Connects(fetch, ignore, [m], m, m);
  }

  lemma ReachesStep(fetch: Image, ignore: bool, m: Machine, m': Machine)
    requires m' == Step(fetch, ignore, m)
    ensures Reaches(fetch, ignore, m, m')
  {
    var run := [m, m'];
    assert Moves(fetch, ignore, run, 0);
    assert Connects(fetch, ignore, run, m, m');
  }

  lemma ReachesTrans(fetch: Image, ignore: bool, a: Machine, b: Machine, c: Machine)
    requires Reaches(fetch, ignore, a, b)
    requires Reaches(fetch, ignore, b, c)
    ensures Reaches(fetch, ignore, a, c)
  {
    var r1 :| Connects(fetch, ignore, r1, a, b);
    var r2 :| Connects(fetch, ignore, r2, b, c);
    var run := r1 + r2[1..];
    forall i | 0 <= i < |run| - 1
      ensures Moves(fetch, ignore, run, i)
    {
      if i < |r1| - 1 {
        assert Moves(fetch, ignore, r1, i);
      } else {
        assert Moves(fetch, ignore, r2, i - (|r1| - 1));
      }
    }
    assert Connects(fetch, ignore, run, a, c);
  }

  /** A state is reached exactly when the machine is in it after some number of steps. */
  lemma {:induction false} ReachesIff(fetch: Image, ignore: bool, m: Machine, m': Machine)
    ensures Reaches(fetch, ignore, m, m') <==> exists n :: StepN(fetch, ignore, m, n) == m'
  {
    if Reaches(fetch, ignore, m, m') {
      var run :| Connects(fetch, ignore, run, m, m');
      RunToStepN(fetch, ignore, run);
    }
    if n :| StepN(fetch, ignore, m, n) == m' {
      StepNReaches(fetch, ignore, m, n);
    }
  }

  lemma {:induction false} RunToStepN(fetch: Image, ignore: bool, run: seq<Machine>)
    requires IsRun(fetch, ignore, run)
    ensures StepN(fetch, ignore, run[0], |run| - 1) == run[|run| - 1]
    decreases |run|
  {
    if |run| > 1 {
      assert Moves(fetch, ignore, run, 0);
      forall i | 0 <= i < |run[1..]| - 1
        ensures Moves(fetch, ignore, run[1..], i)
      {
        assert Moves(fetch, ignore, run, i + 1);
      }
      RunToStepN(fetch, ignore, run[1..]);
    }
  }

  lemma {:induction false} StepNReaches(fetch: Image, ignore: bool, m: Machine, n: nat)
    ensures Reaches(fetch, ignore, m, StepN(fetch, ignore, m, n))
    decreases n
  {
    if n == 0 {
      ReachesSelf(fetch, ignore, m);
    } else {
      var m1 := Step(fetch, ignore, m);
      ReachesStep(fetch, ignore, m, m1);
      StepNReaches(fetch, ignore, m1, n - 1);
      ReachesTrans(fetch, ignore, m, m1, StepN(fetch, ignore, m, n));
    }
  }

  lemma {:induction false} StepNAdd(fetch: Image, ignore: bool, m: Machine, i: nat, j: nat)
    ensures StepN(fetch, ignore, m, i + j) == StepN(fetch, ignore, StepN(fetch, ignore, m, i), j)
    decreases i
  {
    if i > 0 {
      StepNAdd(fetch, ignore, Step(fetch, ignore, m), i - 1, j);
    }
  }
}
