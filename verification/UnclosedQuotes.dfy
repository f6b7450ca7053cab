/** A line of a script in which a quotation mark is not closed: it ends the script, or is passed over
    when errors are ignored. */
module UnclosedQuotes {
  import opened ControlState
  import opened Structured
  import opened Machine
  import opened Placement
  import opened Steps
  import opened Leaks
  import opened Simulation
  import opened ScriptTheorem
  import ScriptText
  import LineSplit

  /** Statements and then others. */
  function Both(first: Meaning, rest: Meaning): Meaning {
    if first.end == Finished then rest.After(first.trace) else first
  }

  lemma {:induction false} UnclosedStep(fetch: Image, ignore: bool, m: Machine)
    requires m.status == Running && fetch(m.pc).Unclosed?
    ensures Reaches(fetch, ignore, m, if ignore then m.(pc := fetch(m.pc).next) else m.(status := Failed))
  {
    ReachesStep(fetch, ignore, m, if ignore then m.(pc := fetch(m.pc).next) else m.(status := Failed));
  }

  /** The statements in front of such a line. */
  lemma {:induction false} RunUpTo(fetch: Image, ignore: bool, depth: nat, ss: Stmts, q: nat, results: seq<bool>)
      returns (m1: Machine)
    requires IfDepthAll(ss) < depth && LoopDepthAll(ss) < depth && BreaksPlacedAll(ss, false, false)
    requires Stands(fetch, 0, FlattenAll(ss), q)
    ensures var m, e := Start(depth, results), ActAll(ss, false, ignore, results);
      && Reaches(fetch, ignore, m, m1) && Ends(m, m.np, e, m1, q) && e.end != Broke && Executes(m, m.np, false, false)
  {
    m1 := RunAll(fetch, ignore, Start(depth, results), ss, false, false, q);
    NoBreakAll(ss, false, ignore, results);
  }

  /** With errors counted the script executes what stands in front of the line, and dies there, whatever
      stands behind it. */
  lemma {:induction false} UnclosedEnds(fetch: Image, depth: nat, ss: Stmts, q: nat, results: seq<bool>)
      returns (x: Machine)
    requires IfDepthAll(ss) < depth && LoopDepthAll(ss) < depth && BreaksPlacedAll(ss, false, false)
    requires Stands(fetch, 0, FlattenAll(ss), q) && fetch(q).Unclosed?
    ensures var m, e := Start(depth, results), ActAll(ss, false, false, results);
      && Reaches(fetch, false, m, x) && x.trace == e.trace
      && x.status == (if e.end == Finished then Failed else EndStatus(e.end))
      && forall y :: Reaches(fetch, false, m, y) ==> y.trace <= e.trace
  {
    var m, e := Start(depth, results), ActAll(ss, false, false, results);
    var m1 := RunUpTo(fetch, false, depth, ss, q, results);
    assert [] + e.trace == e.trace;
    x := m1;
    if e.end == Finished {
      UnclosedStep(fetch, false, m1);
      x := m1.(status := Failed);
      ReachesTrans(fetch, false, m, m1, x);
    }
    NothingAfter(fetch, false, m, x);
  }

  lemma NothingAfter(fetch: Image, ignore: bool, m: Machine, x: Machine)
    requires Reaches(fetch, ignore, m, x) && x.status != Running
    ensures forall y :: Reaches(fetch, ignore, m, y) ==> y.trace <= x.trace
  {
    forall y | Reaches(fetch, ignore, m, y)
      ensures y.trace <= x.trace
    {
      EndedBounds(fetch, ignore, m, x, y);
    }
  }

  /** With errors ignored the script goes on in the next line as if the line were not there. */
  lemma {:induction false} UnclosedPassed(fetch: Image, depth: nat, ss: Stmts, p: nat, rest: Stmts, q: nat,
                                          results: seq<bool>)
    requires IfDepthAll(ss) < depth && LoopDepthAll(ss) < depth && BreaksPlacedAll(ss, false, false)
    requires IfDepthAll(rest) < depth && LoopDepthAll(rest) < depth && BreaksPlacedAll(rest, false, false)
    requires Stands(fetch, 0, FlattenAll(ss), p) && fetch(p).Unclosed?
    requires Stands(fetch, fetch(p).next, FlattenAll(rest), q) && fetch(q) == Eof
    ensures var first := ActAll(ss, false, true, results);
      Faithful(fetch, true, Start(depth, results), Both(first, ActAll(rest, false, true, first.rest)))
  {
    var m, first := Start(depth, results), ActAll(ss, false, true, results);
    var second := ActAll(rest, false, true, first.rest);
    var x := RunUpTo(fetch, true, depth, ss, p, results);
    if first.end == Finished {
      var m2 := x.(pc := fetch(p).next);
      UnclosedStep(fetch, true, x);
      ReachesTrans(fetch, true, m, x, m2);
      ExecutesOn(m, m.np, m2, false, false);
      x := RunAll(fetch, true, m2, rest, false, false, q);
      ReachesTrans(fetch, true, m, m2, x);
      NoBreakAll(rest, false, true, first.rest);
      EndsAfter(m, m.np, first, m2, second, x, q);
    }
    FaithfulAtEnd(fetch, true, m, Both(first, second), x, q);
  }

  /** In a file, that is a line in which the automaton that reads a character at a time ends in quotes. */
  lemma {:induction false} UnclosedLine(words: string -> Command, t: string, p: nat)
    requires p < |t|
    ensures var end := ScriptText.LineEnd(t, p);
      var f := ScriptText.Fetch(words, t, p);
      && (f.Unclosed? <==> LineSplit.SimpleScan(t[p..end], 0, LineSplit.Outside(false)) == LineSplit.InQuotes)
      && (f.Unclosed? ==> f.next == end)
  {
    var line := t[p..ScriptText.LineEnd(t, p)];
    LineSplit.ScanIsSimple(line, 0);
  }
}
