/** Where the commands of a script stand in the script file. */
module Placement {
  import opened ControlState
  import opened Guard
  import opened Machine

  predicate IsLoopHead(words: Command) {
    words != [] && (words[0] == While || words[0] == Until)
  }

  /** From `p` to `q` the script holds the commands `cmds`, in `n` pieces: there may be
      blank pieces and comments between them. A command that opens a loop must have its
      own offset as the offset to come back to. */
  ghost predicate Placed(fetch: Image, p: nat, cmds: seq<Command>, q: nat, n: nat)
    decreases n
  {
    if n == 0 then cmds == [] && p == q
    else
      var f := fetch(p);
      && f.Fetched?
      && if f.words == [] then Placed(fetch, f.next, cmds, q, n - 1)
         else
           && cmds != [] && f.words == cmds[0]
           && (IsLoopHead(f.words) ==> f.top == p)
           && Placed(fetch, f.next, cmds[1..], q, n - 1)
  }

  /** `Placed` for some number of pieces; kept closed, see `Guard`. */
  ghost predicate Stands(fetch: Image, p: nat, cmds: seq<Command>, q: nat) {
    forall k :: Open(k) ==> exists n :: Placed(fetch, p, cmds, q, n)
  }

  lemma {:induction false} PlacedSplit(fetch: Image, p: nat, xs: seq<Command>, ys: seq<Command>, q: nat, n: nat)
      returns (mid: nat, i: nat, j: nat)
    requires Placed(fetch, p, xs + ys, q, n)
    ensures Placed(fetch, p, xs, mid, i) && Placed(fetch, mid, ys, q, j)
    decreases n
  {
    if xs == [] {
      assert xs + ys == ys;
      mid, i, j := p, 0, n;
    } else {
      var f := fetch(p);
      if f.words == [] {
        mid, i, j := PlacedSplit(fetch, f.next, xs, ys, q, n - 1);
      } else {
        assert (xs + ys)[1..] == xs[1..] + ys;
        mid, i, j := PlacedSplit(fetch, f.next, xs[1..], ys, q, n - 1);
      }
      i := i + 1;
    }
  }

  lemma Split(fetch: Image, p: nat, xs: seq<Command>, ys: seq<Command>, q: nat) returns (mid: nat)
    requires Stands(fetch, p, xs + ys, q)
    ensures Stands(fetch, p, xs, mid) && Stands(fetch, mid, ys, q)
  {
    assert Open(0);
    var n :| Placed(fetch, p, xs + ys, q, n);
    var i, j;
    mid, i, j := PlacedSplit(fetch, p, xs, ys, q, n);
  }

  lemma {:induction false} PlacedJoin(fetch: Image, p: nat, xs: seq<Command>, mid: nat, i: nat, ys: seq<Command>,
                                      q: nat, j: nat)
    requires Placed(fetch, p, xs, mid, i) && Placed(fetch, mid, ys, q, j)
    ensures Placed(fetch, p, xs + ys, q, i + j)
    decreases i
  {
    if i == 0 {
      assert xs + ys == ys;
    } else {
      var f := fetch(p);
      if f.words == [] {
        PlacedJoin(fetch, f.next, xs, mid, i - 1, ys, q, j);
      } else {
        PlacedJoin(fetch, f.next, xs[1..], mid, i - 1, ys, q, j);
        assert (xs + ys)[1..] == xs[1..] + ys;
      }
    }
  }

  lemma Join(fetch: Image, p: nat, xs: seq<Command>, mid: nat, ys: seq<Command>, q: nat)
    requires Stands(fetch, p, xs, mid) && Stands(fetch, mid, ys, q)
    ensures Stands(fetch, p, xs + ys, q)
  {
    assert Open(0);
    var i: nat :| Placed(fetch, p, xs, mid, i);
    var j: nat :| Placed(fetch, mid, ys, q, j);
    PlacedJoin(fetch, p, xs, mid, i, ys, q, j);
  }

  /** The machine passes over blank pieces without changing anything but its position. */
  lemma BlankStep(fetch: Image, ignore: bool, m: Machine, m': Machine)
    requires m.status == Running && !m.np.jump
    requires fetch(m.pc).Fetched? && fetch(m.pc).words == []
    requires m' == m.(pc := fetch(m.pc).next)
    ensures Reaches(fetch, ignore, m, m')
  {
    assert m.trace + [] == m.trace;
    ReachesStep(fetch, ignore, m, m');
  }

  lemma {:induction false} LocatePlaced(fetch: Image, ignore: bool, m: Machine, cmd: Command, rest: seq<Command>,
                                        q: nat, n: nat) returns (m1: Machine, n1: nat)
    requires m.status == Running && !m.np.jump
    requires Placed(fetch, m.pc, [cmd] + rest, q, n)
    ensures m1 == m.(pc := m1.pc) && Reaches(fetch, ignore, m, m1)
    ensures var f := fetch(m1.pc);
            f.Fetched? && f.words == cmd && f.words != [] && (IsLoopHead(cmd) ==> f.top == m1.pc)
            && Placed(fetch, f.next, rest, q, n1)
    decreases n
  {
    if fetch(m.pc).words == [] {
      var m0 := m.(pc := fetch(m.pc).next);
      BlankStep(fetch, ignore, m, m0);
      m1, n1 := LocatePlaced(fetch, ignore, m0, cmd, rest, q, n - 1);
      ReachesTrans(fetch, ignore, m, m0, m1);
    } else {
      assert ([cmd] + rest)[1..] == rest;
      ReachesSelf(fetch, ignore, m);
      m1, n1 := m, n - 1;
    }
  }

  /** The machine comes to the next command; `p` is its offset. */
  lemma Locate(fetch: Image, ignore: bool, m: Machine, cmd: Command, rest: seq<Command>, q: nat) returns (m1: Machine)
    requires m.status == Running && !m.np.jump
    requires Stands(fetch, m.pc, [cmd] + rest, q)
    ensures m1 == m.(pc := m1.pc) && Reaches(fetch, ignore, m, m1)
    ensures var f := fetch(m1.pc);
            f.Fetched? && f.words == cmd && (IsLoopHead(cmd) ==> f.top == m1.pc)
            && Stands(fetch, f.next, rest, q)
    ensures Stands(fetch, m1.pc, [cmd] + rest, q)
  {
    assert Open(0);
    var n :| Placed(fetch, m.pc, [cmd] + rest, q, n);
    var n1;
    m1, n1 := LocatePlaced(fetch, ignore, m, cmd, rest, q, n);
    assert ([cmd] + rest)[1..] == rest;
    assert Placed(fetch, m1.pc, [cmd] + rest, q, n1 + 1);
  }

  lemma {:induction false} PassPlaced(fetch: Image, ignore: bool, m: Machine, q: nat, n: nat)
    requires m.status == Running && !m.np.jump
    requires Placed(fetch, m.pc, [], q, n)
    ensures Reaches(fetch, ignore, m, m.(pc := q))
    decreases n
  {
    if n == 0 {
      ReachesSelf(fetch, ignore, m);
    } else {
      var m0 := m.(pc := fetch(m.pc).next);
      BlankStep(fetch, ignore, m, m0);
      PassPlaced(fetch, ignore, m0, q, n - 1);
      ReachesTrans(fetch, ignore, m, m0, m.(pc := q));
    }
  }

  lemma PassBlank(fetch: Image, ignore: bool, m: Machine, q: nat) returns (m': Machine)
    requires m.status == Running && !m.np.jump
    requires Stands(fetch, m.pc, [], q)
    ensures m' == m.(pc := q) && Reaches(fetch, ignore, m, m')
  {
    assert Open(0);
    var n :| Placed(fetch, m.pc, [], q, n);
    PassPlaced(fetch, ignore, m, q, n);
    m' := m.(pc := q);
  }
}
