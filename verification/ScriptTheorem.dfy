/** What a whole script does: the flat machine against the structured interpreter. */
module ScriptTheorem {
  import opened ControlState
  import opened Structured
  import opened Machine
  import opened Placement
  import opened Leaks
  import opened Simulation

  /** The machine at the start of a script, with nothing open. */
  function Start(depth: nat, results: seq<bool>): Machine {
    Machine(Initial(depth), 0, results, [], Running)
  }

  /** The machine executes the commands of the meaning `e`, all of them and nothing else,
      and then ends; after a whole script no record is left open. */
  ghost predicate Faithful(fetch: Image, ignore: bool, m: Machine, e: Meaning) {
    && (forall x :: Reaches(fetch, ignore, m, x) ==> x.trace <= e.trace)
    && (exists x :: Completes(fetch, ignore, m, e, x))
  }

  /** How the machine ends a script of which the evaluation ends in `end`. */
  function EndStatus(end: End): Status {
    match end
    case OutOfResults => Starved
    case Stopped => Failed
    case _ => Ended
  }

  ghost predicate Completes(fetch: Image, ignore: bool, m: Machine, e: Meaning, x: Machine) {
    Reaches(fetch, ignore, m, x) && Fulfils(x, e)
  }

  /** `x` is where the meaning `e` says that the script ends. */
  ghost predicate Fulfils(x: Machine, e: Meaning) {
    && x.trace == e.trace
    && x.status == EndStatus(e.end)
    && (e.end == Finished ==> x.results == e.rest && x.np.iendx == 0 && x.np.lpndx == 0)
  }

  /** The script file holds the statements from its first byte to its end. */
  ghost predicate Holds(fetch: Image, ss: Stmts, q: nat) {
    Stands(fetch, 0, FlattenAll(ss), q) && fetch(q) == Eof
  }

  // ---------- runs ----------

  lemma {:induction false} Growing(fetch: Image, ignore: bool, m: Machine, n: nat)
    ensures m.trace <= StepN(fetch, ignore, m, n).trace
    ensures m.status != Running ==> StepN(fetch, ignore, m, n) == m
    decreases n
  {
    if n > 0 {
      var m1 := Step(fetch, ignore, m);
      assert m.trace <= m1.trace;
      Growing(fetch, ignore, m1, n - 1);
    }
  }

  /** Before a state in which the machine has ended there are only states with a shorter
      trace, and after it none. */
  lemma EndedBounds(fetch: Image, ignore: bool, m: Machine, last: Machine, x: Machine)
    requires Reaches(fetch, ignore, m, last) && last.status != Running
    requires Reaches(fetch, ignore, m, x)
    ensures x.trace <= last.trace
  {
    ReachesIff(fetch, ignore, m, last);
    ReachesIff(fetch, ignore, m, x);
    var i: nat :| StepN(fetch, ignore, m, i) == last;
    var j: nat :| StepN(fetch, ignore, m, j) == x;
    if j <= i {
      StepNAdd(fetch, ignore, m, j, i - j);
      Growing(fetch, ignore, x, i - j);
    } else {
      StepNAdd(fetch, ignore, m, i, j - i);
      Growing(fetch, ignore, last, j - i);
    }
  }

  /** A script ends in one state only. */
  lemma EndedUnique(fetch: Image, ignore: bool, m: Machine, x: Machine, y: Machine)
    requires Reaches(fetch, ignore, m, x) && Reaches(fetch, ignore, m, y)
    requires x.status != Running && y.status != Running
    ensures x == y
  {
    ReachesIff(fetch, ignore, m, x);
    ReachesIff(fetch, ignore, m, y);
    var i: nat :| StepN(fetch, ignore, m, i) == x;
    var j: nat :| StepN(fetch, ignore, m, j) == y;
    if j <= i {
      StepNAdd(fetch, ignore, m, j, i - j);
      Growing(fetch, ignore, y, i - j);
    } else {
      StepNAdd(fetch, ignore, m, i, j - i);
      Growing(fetch, ignore, x, j - i);
    }
  }

  lemma EofStep(fetch: Image, ignore: bool, m: Machine)
    requires m.status == Running && fetch(m.pc) == Eof
    ensures Reaches(fetch, ignore, m, m.(status := Ended))
  {
    ReachesStep(fetch, ignore, m, m.(status := Ended));
  }

  /** A machine that comes to the end of the script as the meaning promises is faithful to it. */
  lemma {:induction false} FaithfulAtEnd(fetch: Image, ignore: bool, m: Machine, e: Meaning, m': Machine, q: nat)
    requires m.trace == [] && m.np.iendx == 0 && m.np.lpndx == 0 && e.end != Broke
    requires Reaches(fetch, ignore, m, m') && Ends(m, m.np, e, m', q) && fetch(q) == Eof
    ensures Faithful(fetch, ignore, m, e)
  {
    var x := m';
    assert [] + e.trace == e.trace;
    if e.end == Finished {
      EofStep(fetch, ignore, m');
      x := m'.(status := Ended);
      ReachesTrans(fetch, ignore, m, m', x);
    }
    assert Completes(fetch, ignore, m, e, x);
    forall y | Reaches(fetch, ignore, m, y)
      ensures y.trace <= e.trace
    {
      EndedBounds(fetch, ignore, m, x, y);
    }
  }

  /** What the machine does, for every script whose breaks stand directly in loop bodies and whose ifs
      and loops fit the stacks, all results of its commands, and whether or not errors are
      ignored: see `Leaks` for the meaning. */
  lemma {:induction false} ScriptActs(fetch: Image, ignore: bool, depth: nat, ss: Stmts, q: nat, results: seq<bool>)
    requires IfDepthAll(ss) < depth && LoopDepthAll(ss) < depth && BreaksPlacedAll(ss, false, false)
    requires Holds(fetch, ss, q)
    ensures Faithful(fetch, ignore, Start(depth, results), ActAll(ss, false, ignore, results))
  {
    var m := Start(depth, results);
    var x := RunAll(fetch, ignore, m, ss, false, false, q);
    NoBreakAll(ss, false, ignore, results);
    FaithfulAtEnd(fetch, ignore, m, ActAll(ss, false, ignore, results), x, q);
  }

  /** If in addition no reachable loop has a loop directly in its body, that is what the structure
      of the script says. */
  lemma {:induction false} ScriptFaithful(fetch: Image, ignore: bool, depth: nat, ss: Stmts, q: nat, results: seq<bool>)
    requires IfDepthAll(ss) < depth && LoopDepthAll(ss) < depth
    requires BreaksPlacedAll(ss, false, false) && LoopsApartAll(ss, false)
    requires Holds(fetch, ss, q)
    ensures Faithful(fetch, ignore, Start(depth, results), EvalAll(ss, false, ignore, results))
  {
    ActsAsMeantAll(ss, false, false, ignore, results);
    ScriptActs(fetch, ignore, depth, ss, q, results);
  }
}
