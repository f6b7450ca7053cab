/** The composite audio driver: an operation is done on every lower driver in turn, and undone
    on the earlier ones when one of them fails. Start and stop, resume and pause, reserve and
    release all have this form. */
module AudioComposite {

  import opened Guard

  const ENOTTY := 25

  /** Whether a lower driver has the operation, and the one that undoes it. */
  datatype Driver = Driver(does: bool, undoes: bool)

  datatype Call = Do(i: nat) | Undo(i: nat)

  /** A driver may say that the operation is not for it. */
  predicate Fails(result: int) { result < 0 && result != -ENOTTY }

  // audio_comp_start, audio_comp_resume, audio_comp_reserve: `none` is the result when no
  // driver has anything to say, `results` what each would answer
  method Perform(drivers: seq<Driver>, results: seq<int>, none: int) returns (ret: int, calls: seq<Call>)
    requires |results| == |drivers|
    ensures calls == Trace(drivers, results)
    ensures ret == Answer(drivers, results, none, Failure(drivers, results))
  {
    ret, calls := none, [];
    var i := 0;
    while i < |drivers|
      invariant 0 <= i <= |drivers| && NoneBelow(drivers, results, i)
      invariant calls == Dos(drivers, i) && ret == Best(drivers, results, none, i)
    {
      if drivers[i].does {
        calls := calls + [Do(i)];
        var tmp := results[i];
        if tmp != -ENOTTY {
          ret := tmp;
          if ret < 0 {
            FailureIs(drivers, results, i);
            calls := UndoBelow(drivers, i, calls);
            return;
          }
        }
      }
      i := i + 1;
    }
    FailureIs(drivers, results, i);
  }

  /** The loop that rolls back. */
  method UndoBelow(drivers: seq<Driver>, n: nat, before: seq<Call>) returns (calls: seq<Call>)
    requires n <= |drivers|
    ensures calls == before + Undos(drivers, n)
  {
    calls := before;
    var i := n;
    ghost var goal := before + Undos(drivers, n);
    while i > 0
      invariant 0 <= i <= n && Leads(drivers, calls, i, goal)
    {
      i := i - 1;
      UndoStep(drivers, calls, i, goal);
      if drivers[i].undoes {
        calls := calls + [Undo(i)];
      }
    }
    UndoEnd(drivers, calls, goal);
  }

  /** With the undoing of the drivers below `i`, `calls` becomes `goal`; kept closed, see `Guard`. */
  ghost predicate Leads(drivers: seq<Driver>, calls: seq<Call>, i: nat, goal: seq<Call>) {
    i <= |drivers| && forall k :: Open(k) ==> calls + Undos(drivers, i) == goal
  }

  lemma {:induction false} UndoStep(drivers: seq<Driver>, calls: seq<Call>, i: nat, goal: seq<Call>)
    requires i < |drivers| && Leads(drivers, calls, i + 1, goal)
    ensures Leads(drivers, if drivers[i].undoes then calls + [Undo(i)] else calls, i, goal)
  {
    assert Open(0);
  }

  lemma {:induction false} UndoEnd(drivers: seq<Driver>, calls: seq<Call>, goal: seq<Call>)
    requires Leads(drivers, calls, 0, goal)
    ensures calls == goal
  {
    assert Open(0);
  }

  /** A driver is asked to undo and fails. */
  predicate UndoFails(drivers: seq<Driver>, answers: seq<int>, i: nat)
    requires |answers| == |drivers|
  {
    i < |drivers| && drivers[i].undoes && Fails(answers[i])
  }

  // audio_comp_release: `answers` is what each driver would answer; `who` is the last driver
  // that failed
  method Release(drivers: seq<Driver>, answers: seq<int>) returns (ret: int, calls: seq<Call>, ghost who: nat)
    requires |answers| == |drivers|
    ensures calls == Undos(drivers, |drivers|)
    ensures ret < 0 ==> who < |drivers| && drivers[who].undoes && ret == answers[who] != -25
    ensures forall i :: 0 <= i < |drivers| && (ret < 0 ==> i < who) ==>
              drivers[i].undoes ==> answers[i] >= 0 || answers[i] == -25
  {
    ret, calls, who := 0, [], 0;
    var i := |drivers|;
    ghost var goal := Undos(drivers, |drivers|);
    while i > 0
      invariant 0 <= i <= |drivers| && Leads(drivers, calls, i, goal)
      invariant ret < 0 ==> UndoFails(drivers, answers, who) && ret == answers[who]
      invariant forall x :: i <= x < |drivers| && (ret < 0 ==> x < who) ==> !UndoFails(drivers, answers, x)
    {
      i := i - 1;
      UndoStep(drivers, calls, i, goal);
      if drivers[i].undoes {
        calls := calls + [Undo(i)];
        var tmp := answers[i];
        if tmp != -ENOTTY && (tmp < 0 || ret >= 0) {
          ret := tmp;
          who := i;
        }
      }
    }
    UndoEnd(drivers, calls, goal);
    forall x | 0 <= x < |drivers| && (ret < 0 ==> x < who)
      ensures drivers[x].undoes ==> answers[x] >= 0 || answers[x] == -25
    {
      assert !UndoFails(drivers, answers, x);
    }
  }

  // ---------- what is called ----------

  predicate FailsAt(drivers: seq<Driver>, results: seq<int>, i: nat)
    requires i < |drivers| == |results|
  {
    drivers[i].does && Fails(results[i])
  }

  predicate NoneBelow(drivers: seq<Driver>, results: seq<int>, n: nat)
    requires n <= |drivers| == |results|
  {
    forall i :: 0 <= i < n ==> !FailsAt(drivers, results, i)
  }

  /** The first driver that fails, or their number. */
  function Failure(drivers: seq<Driver>, results: seq<int>): (f: nat)
    requires |results| == |drivers|
    ensures f <= |drivers| && NoneBelow(drivers, results, f)
    ensures f < |drivers| ==> FailsAt(drivers, results, f)
  {
    FailureFrom(drivers, results, 0)
  }

  function FailureFrom(drivers: seq<Driver>, results: seq<int>, i: nat): (f: nat)
    requires i <= |drivers| == |results| && NoneBelow(drivers, results, i)
    ensures i <= f <= |drivers| && NoneBelow(drivers, results, f)
    ensures f < |drivers| ==> FailsAt(drivers, results, f)
    decreases |drivers| - i
  {
    if i == |drivers| || FailsAt(drivers, results, i) then i else FailureFrom(drivers, results, i + 1)
  }

  lemma FailureIs(drivers: seq<Driver>, results: seq<int>, f: nat)
    requires f <= |drivers| == |results| && NoneBelow(drivers, results, f)
    requires f < |drivers| ==> FailsAt(drivers, results, f)
    ensures Failure(drivers, results) == f
  {
  }

  function Dos(drivers: seq<Driver>, n: nat): seq<Call>
    requires n <= |drivers|
  {
    if n == 0 then [] else Dos(drivers, n - 1) + if drivers[n - 1].does then [Do(n - 1)] else []
  }

  /** The undoing goes backwards. */
  function Undos(drivers: seq<Driver>, n: nat): seq<Call>
    requires n <= |drivers|
  {
    if n == 0 then [] else (if drivers[n - 1].undoes then [Undo(n - 1)] else []) + Undos(drivers, n - 1)
  }

  function Trace(drivers: seq<Driver>, results: seq<int>): seq<Call>
    requires |results| == |drivers|
  {
    var f := Failure(drivers, results);
    if f == |drivers| then Dos(drivers, f) else Dos(drivers, f + 1) + Undos(drivers, f)
  }

  /** The last result below `n` that counts. */
  function Best(drivers: seq<Driver>, results: seq<int>, none: int, n: nat): int
    requires n <= |drivers| == |results|
  {
    if n == 0 then none
    else if drivers[n - 1].does && results[n - 1] != -ENOTTY then results[n - 1]
    else Best(drivers, results, none, n - 1)
  }

  function Answer(drivers: seq<Driver>, results: seq<int>, none: int, f: nat): int
    requires f <= |drivers| == |results|
  {
    if f < |drivers| then results[f] else Best(drivers, results, none, f)
  }

  // ---------- what is left running ----------

  /** The drivers in operation after a list of calls, of which each driver answers a `Do` with its
      entry in `results` and an `Undo` with its entry in `answers`: a negative one means
      that nothing has changed. */
  function After(on: set<nat>, calls: seq<Call>, results: seq<int>, answers: seq<int>): set<nat> {
    if calls == [] then on
    else
      var before := After(on, calls[..|calls| - 1], results, answers);
      match calls[|calls| - 1]
      case Do(i) => if i < |results| && results[i] >= 0 then before + {i} else before
      case Undo(i) => if i < |answers| && answers[i] >= 0 then before - {i} else before
  }

  predicate Done(drivers: seq<Driver>, results: seq<int>, i: nat)
    requires |results| == |drivers|
  {
    i < |drivers| && drivers[i].does && results[i] >= 0
  }

  /** The driver can undo, and does so when it is told to. */
  predicate Undone(drivers: seq<Driver>, answers: seq<int>, i: nat)
    requires |answers| == |drivers|
  {
    i < |drivers| && drivers[i].undoes && answers[i] >= 0
  }

  lemma {:induction false} AfterConcat(on: set<nat>, a: seq<Call>, b: seq<Call>, results: seq<int>, answers: seq<int>)
    ensures After(on, a + b, results, answers) == After(After(on, a, results, answers), b, results, answers)
    decreases |b|
  {
    if b == [] {
      assert a + b == a;
    } else {
      AfterConcat(on, a, b[..|b| - 1], results, answers);
      assert (a + b)[..|a + b| - 1] == a + b[..|b| - 1];
    }
  }

  lemma {:induction false} AfterDos(drivers: seq<Driver>, results: seq<int>, answers: seq<int>, n: nat)
    requires n <= |drivers| == |results|
    ensures forall i: nat :: i in After({}, Dos(drivers, n), results, answers) <==> i < n && Done(drivers, results, i)
  {
    if n > 0 {
      AfterDos(drivers, results, answers, n - 1);
      var head := Dos(drivers, n - 1);
      if drivers[n - 1].does {
        assert (head + [Do(n - 1)])[..|head|] == head;
      } else {
        assert Dos(drivers, n) == head;
      }
    }
  }

  /** The drivers in operation after `i` is told to undo. */
  function AfterUndo(on: set<nat>, i: nat, answers: seq<int>): set<nat> {
    if i < |answers| && answers[i] >= 0 then on - {i} else on
  }

  lemma {:induction false} FirstUndo(drivers: seq<Driver>, results: seq<int>, answers: seq<int>, on: set<nat>, n: nat)
    requires 0 < n <= |drivers|
    ensures After(on, Undos(drivers, n), results, answers)
         == After(if drivers[n - 1].undoes then AfterUndo(on, n - 1, answers) else on, Undos(drivers, n - 1),
                  results, answers)
  {
    var rest := Undos(drivers, n - 1);
    if drivers[n - 1].undoes {
      AfterConcat(on, [Undo(n - 1)], rest, results, answers);
      assert [Undo(n - 1)][..0] == [];
    } else {
      assert Undos(drivers, n) == rest;
    }
  }

  lemma {:induction false} AfterUndos(drivers: seq<Driver>, results: seq<int>, answers: seq<int>, on: set<nat>, n: nat,
                                      i: nat)
    requires n <= |drivers| == |answers|
    ensures i in After(on, Undos(drivers, n), results, answers) <==> i in on && !(i < n && Undone(drivers, answers, i))
  {
    if n > 0 {
      FirstUndo(drivers, results, answers, on, n);
      var on1 := if drivers[n - 1].undoes then AfterUndo(on, n - 1, answers) else on;
      AfterUndos(drivers, results, answers, on1, n - 1, i);
    }
  }

  /** When all goes well, exactly the drivers that did it are in operation. When one fails, those
      are left that cannot undo, or fail to. */
  lemma {:induction false} LeftRunning(drivers: seq<Driver>, results: seq<int>, answers: seq<int>, i: nat)
    requires |results| == |drivers| == |answers|
    ensures var f := Failure(drivers, results);
      i in After({}, Trace(drivers, results), results, answers)
      <==> i < f && Done(drivers, results, i) && (f < |drivers| ==> !Undone(drivers, answers, i))
  {
    var f := Failure(drivers, results);
    if f == |drivers| {
      AfterDos(drivers, results, answers, f);
    } else {
      LeftByFailure(drivers, results, answers, f, i);
    }
  }

  lemma {:induction false} LeftByFailure(drivers: seq<Driver>, results: seq<int>, answers: seq<int>, f: nat, i: nat)
    requires f < |drivers| == |results| == |answers| && results[f] < 0
    ensures i in After({}, Dos(drivers, f + 1) + Undos(drivers, f), results, answers)
       <==> i < f && Done(drivers, results, i) && !Undone(drivers, answers, i)
  {
    var dos, undos := Dos(drivers, f + 1), Undos(drivers, f);
    AfterDos(drivers, results, answers, f + 1);
    AfterConcat({}, dos, undos, results, answers);
    AfterUndos(drivers, results, answers, After({}, dos, results, answers), f, i);
  }

  /** A failure leaves nothing in operation exactly when every earlier driver that did it can undo
      it, and its undoing succeeds. */
  lemma {:induction false} AllOrNothing(drivers: seq<Driver>, results: seq<int>, answers: seq<int>)
    requires |results| == |drivers| == |answers| && Failure(drivers, results) < |drivers|
    ensures After({}, Trace(drivers, results), results, answers) == {}
       <==> forall i :: 0 <= i < Failure(drivers, results) && Done(drivers, results, i) ==> Undone(drivers, answers, i)
  {
    forall i: nat
      ensures i in After({}, Trace(drivers, results), results, answers)
         <==> i < Failure(drivers, results) && Done(drivers, results, i) && !Undone(drivers, answers, i)
    {
      LeftRunning(drivers, results, answers, i);
    }
  }

  /** Reserving and then releasing: likewise, for all the drivers. */
  lemma {:induction false} ThenReleased(drivers: seq<Driver>, results: seq<int>, answers: seq<int>, i: nat)
    requires |results| == |drivers| == |answers| && Failure(drivers, results) == |drivers|
    ensures i in After({}, Trace(drivers, results) + Undos(drivers, |drivers|), results, answers)
       <==> Done(drivers, results, i) && !Undone(drivers, answers, i)
  {
    var on := After({}, Trace(drivers, results), results, answers);
    LeftRunning(drivers, results, answers, i);
    AfterConcat({}, Trace(drivers, results), Undos(drivers, |drivers|), results, answers);
    AfterUndos(drivers, results, answers, on, |drivers|, i);
  }

  // ---------- who is called ----------

  lemma {:induction false} InDos(drivers: seq<Driver>, n: nat, c: Call)
    requires n <= |drivers|
    ensures c in Dos(drivers, n) <==> c.Do? && c.i < n && drivers[c.i].does
  {
    if n > 0 {
      InDos(drivers, n - 1, c);
    }
  }

  lemma {:induction false} InUndos(drivers: seq<Driver>, n: nat, c: Call)
    requires n <= |drivers|
    ensures c in Undos(drivers, n) <==> c.Undo? && c.i < n && drivers[c.i].undoes
  {
    if n > 0 {
      InUndos(drivers, n - 1, c);
    }
  }

  lemma InEither(dos: seq<Call>, undos: seq<Call>, c: Call)
    ensures c in dos + undos <==> c in dos || c in undos
  {
  }

  lemma {:induction false} InDosUndos(drivers: seq<Driver>, f: nat, c: Call)
    requires f < |drivers|
    ensures c in Dos(drivers, f + 1) + Undos(drivers, f)
       <==> (c.Do? && c.i <= f && drivers[c.i].does) || (c.Undo? && c.i < f && drivers[c.i].undoes)
  {
    InDos(drivers, f + 1, c);
    InUndos(drivers, f, c);
    InEither(Dos(drivers, f + 1), Undos(drivers, f), c);
  }

  /** No driver after the failing one is touched. Each one before it that can undo is told to,
      also one that had not done it. */
  lemma Touched(drivers: seq<Driver>, results: seq<int>, i: nat)
    requires |results| == |drivers| && Failure(drivers, results) < |drivers|
    ensures Do(i) in Trace(drivers, results) <==> i <= Failure(drivers, results) && drivers[i].does
    ensures Undo(i) in Trace(drivers, results) <==> i < Failure(drivers, results) && drivers[i].undoes
  {
    InDosUndos(drivers, Failure(drivers, results), Do(i));
    InDosUndos(drivers, Failure(drivers, results), Undo(i));
  }

  /** The calls go up the drivers, and then, when one has failed, down again; so each is made once. */
  ghost predicate Ordered(calls: seq<Call>) {
    forall a, b :: 0 <= a < b < |calls| ==>
      && (calls[a].Do? && calls[b].Do? ==> calls[a].i < calls[b].i)
      && (calls[a].Undo? ==> calls[b].Undo? && calls[b].i < calls[a].i)
  }

  lemma {:induction false} DosOrdered(drivers: seq<Driver>, n: nat)
    requires n <= |drivers|
    ensures Ordered(Dos(drivers, n)) && forall a :: 0 <= a < |Dos(drivers, n)| ==> Dos(drivers, n)[a].Do?
    ensures forall a :: 0 <= a < |Dos(drivers, n)| ==> Dos(drivers, n)[a].i < n
  {
    if n > 0 {
      DosOrdered(drivers, n - 1);
    }
  }

  lemma {:induction false} UndosOrdered(drivers: seq<Driver>, n: nat)
    requires n <= |drivers|
    ensures Ordered(Undos(drivers, n)) && forall a :: 0 <= a < |Undos(drivers, n)| ==> Undos(drivers, n)[a].Undo?
    ensures forall a :: 0 <= a < |Undos(drivers, n)| ==> Undos(drivers, n)[a].i < n
  {
    if n > 0 {
      UndosOrdered(drivers, n - 1);
    }
  }

  lemma {:induction false} TraceOrdered(drivers: seq<Driver>, results: seq<int>)
    requires |results| == |drivers|
    ensures Ordered(Trace(drivers, results))
  {
    var f := Failure(drivers, results);
    DosOrdered(drivers, f);
    if f < |drivers| {
      DosOrdered(drivers, f + 1);
      UndosOrdered(drivers, f);
    }
  }

  // ---------- the result ----------

  /** Driver `i` is asked, and has something to say. */
  predicate Counts(drivers: seq<Driver>, results: seq<int>, i: nat)
    requires |results| == |drivers|
  {
    i < |drivers| && drivers[i].does && results[i] != -ENOTTY
  }

  lemma {:induction false} BestIsLast(drivers: seq<Driver>, results: seq<int>, none: int, n: nat, i: nat)
    requires i < n <= |drivers| == |results| && Counts(drivers, results, i)
    requires forall k :: i < k < n ==> !Counts(drivers, results, k)
    ensures Best(drivers, results, none, n) == results[i]
  {
    if i < n - 1 {
      assert !Counts(drivers, results, n - 1);
      BestIsLast(drivers, results, none, n - 1, i);
    }
  }

  lemma {:induction false} BestIsNone(drivers: seq<Driver>, results: seq<int>, none: int, n: nat)
    requires n <= |drivers| == |results| && forall k :: 0 <= k < n ==> !Counts(drivers, results, k)
    ensures Best(drivers, results, none, n) == none
  {
    if n > 0 {
      assert !Counts(drivers, results, n - 1);
      BestIsNone(drivers, results, none, n - 1);
    }
  }

  /** No driver behind `i` counts. */
  ghost predicate NoneCountsFrom(drivers: seq<Driver>, results: seq<int>, i: nat)
    requires |results| == |drivers|
  {
    forall k :: i <= k < |drivers| ==> !Counts(drivers, results, k)
  }

  ghost predicate LastToCount(drivers: seq<Driver>, results: seq<int>, i: nat)
    requires |results| == |drivers|
  {
    Counts(drivers, results, i) && NoneCountsFrom(drivers, results, i + 1)
  }

  /** Some driver fails exactly when one that has the operation gives a negative answer other than
      -25, by which a driver says that the operation is not for it. */
  lemma FailsExactly(drivers: seq<Driver>, results: seq<int>)
    requires |results| == |drivers|
    ensures Failure(drivers, results) < |drivers| <==>
      exists i :: 0 <= i < |drivers| && drivers[i].does && results[i] < 0 && results[i] != -25
  {
    var f := Failure(drivers, results);
    if i :| 0 <= i < |drivers| && drivers[i].does && results[i] < 0 && results[i] != -25 {
      assert FailsAt(drivers, results, i);
    }
    if f < |drivers| {
      assert drivers[f].does && results[f] < 0 && results[f] != -25;
    }
  }

  /** The answer of the first driver that fails; when none fails, the answer of the last one that has
      something to say, which is no failure; and `none` when nobody has. */
  lemma {:induction false} ResultExactly(drivers: seq<Driver>, results: seq<int>, none: int, i: nat)
    requires |results| == |drivers|
    ensures var ret := Answer(drivers, results, none, Failure(drivers, results));
      && (i < |drivers| && FailsAt(drivers, results, i) && NoneBelow(drivers, results, i) ==> ret == results[i] < 0)
      && (NoneBelow(drivers, results, |drivers|) && LastToCount(drivers, results, i) ==> ret == results[i] >= 0)
      && (NoneBelow(drivers, results, |drivers|) && NoneCountsFrom(drivers, results, 0) ==> ret == none)
  {
    var n := |drivers|;
    if i < n && FailsAt(drivers, results, i) && NoneBelow(drivers, results, i) {
      FailureIs(drivers, results, i);
    }
    if NoneBelow(drivers, results, n) {
      FailureIs(drivers, results, n);
      if LastToCount(drivers, results, i) {
        BestIsLast(drivers, results, none, n, i);
        assert !FailsAt(drivers, results, i);
      }
      if NoneCountsFrom(drivers, results, 0) {
        BestIsNone(drivers, results, none, n);
      }
    }
  }
}
