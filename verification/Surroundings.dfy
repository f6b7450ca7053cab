/** How a command is split into words depends on the variables, and commands set variables. So in a run
    of a script file every step may read the file in its own way. When all these ways read the
    commands that are laid out alike, the run is that of a single way. */
module Surroundings {
  import opened Guard
  import opened ControlState
  import opened Structured
  import opened Machine
  import opened Placement
  import opened ScriptTheorem
  import opened ScriptText

  /** The state after `n` steps, of which step `k` reads the script by `fetches(k)`. */
  function RunWith(fetches: nat -> Image, ignore: bool, m: Machine, n: nat): Machine {
    if n == 0 then m else Step(fetches(n - 1), ignore, RunWith(fetches, ignore, m, n - 1))
  }

  /** The run executes the commands of `e`, all of them and nothing else, and then ends. */
  ghost predicate FaithfulWith(fetches: nat -> Image, ignore: bool, m: Machine, e: Meaning) {
    && (forall n: nat :: RunWith(fetches, ignore, m, n).trace <= e.trace)
    && (exists n: nat :: Fulfils(RunWith(fetches, ignore, m, n), e))
  }

  // ---------- the offsets that a run comes to ----------

  /** The offsets to which `done` can go back are among `offsets`. */
  ghost predicate Anchored(np: Parser, offsets: iset<nat>) {
    forall k :: 1 <= k <= np.lpndx && k < |np.lp| ==> np.lp[k].topoffs in offsets
  }

  lemma AnchoredSaved(np: Parser, failed: bool, offsets: iset<nat>)
    requires Anchored(np, offsets)
    ensures Anchored(SaveResult(np, failed).np, offsets)
    ensures SaveResult(np, failed).np.jump == np.jump && SaveResult(np, failed).np.pos == np.pos
  {
  }

  lemma AnchoredLoop(np: Parser, words: Command, top: nat, offsets: iset<nat>)
    requires Anchored(np, offsets) && !np.jump && np.lpndx < |np.lp| && (IsLoopHead(words) ==> top in offsets)
    ensures var np' := LoopToken(np, words, true, top).np;
      Anchored(np', offsets) && (np'.jump ==> np'.pos in offsets)
  {
  }

  lemma AnchoredItef(np: Parser, words: Command, offsets: iset<nat>)
    requires Anchored(np, offsets)
    ensures var np' := ItefToken(np, words).np;
      Anchored(np', offsets) && np'.jump == np.jump && np'.pos == np.pos
  {
  }

  lemma AnchoredExecute(np: Parser, words: Command, results: seq<bool>, offsets: iset<nat>)
    requires Anchored(np, offsets) && words != []
    ensures var np' := Execute(np, words, results).np;
      Anchored(np', offsets) && np'.jump == np.jump && np'.pos == np.pos
  {
    AnchoredSaved(BreakCmd(np), false, offsets);
    if results != [] {
      AnchoredSaved(np, results[0], offsets);
    }
  }

  lemma AnchoredParse(np: Parser, words: Command, top: nat, results: seq<bool>, offsets: iset<nat>)
    requires Anchored(np, offsets) && !np.jump && np.lpndx < |np.lp| && (IsLoopHead(words) ==> top in offsets)
    ensures var np' := ParseCommand(np, words, true, top, results).np;
      Anchored(np', offsets) && (np'.jump ==> np'.pos in offsets)
  {
    var l := LoopToken(np, words, true, top);
    AnchoredLoop(np, words, top, offsets);
    AnchoredSaved(l.np, true, offsets);
    if l.ok {
      var t := ItefToken(l.np, l.words);
      AnchoredItef(l.np, l.words, offsets);
      AnchoredSaved(t.np, true, offsets);
      if t.ok && t.words != [] {
        AnchoredExecute(t.np, t.words, results, offsets);
      }
    }
  }

  /** Reading at one of the offsets goes on at one of them. */
  ghost predicate Leads(f: Fetched, offsets: iset<nat>) {
    match f
    case Eof => true
    case Unclosed(next) => next in offsets
    case Fetched(words, top, next) => next in offsets && (IsLoopHead(words) ==> top in offsets)
  }

  /** The machine is at one of the offsets, and stays there. */
  ghost predicate Kept(m: Machine, offsets: iset<nat>) {
    m.pc in offsets && Anchored(m.np, offsets) && !m.np.jump && m.np.Safe(|m.np.ie|)
  }

  lemma KeptStep(f: Fetched, ignore: bool, m: Machine, offsets: iset<nat>)
    requires Kept(m, offsets) && Leads(f, offsets)
    ensures Kept(StepOn(f, ignore, m), offsets)
  {
    if f.Fetched? {
      AnchoredParse(m.np, f.words, f.top, m.results, offsets);
      ParseCommandSafe(m.np, f.words, true, f.top, m.results, |m.np.ie|);
    }
  }

  /** All ways of reading are alike at the offset `p`. */
  ghost predicate AlikeAt(fetches: nat -> Image, fetch: Image, p: nat) {
    forall k :: fetches(k)(p) == fetch(p)
  }

  /** Ways of reading that agree at the offsets make the same run. */
  lemma {:induction false} SameRun(fetches: nat -> Image, fetch: Image, ignore: bool, m: Machine, offsets: iset<nat>,
                                   n: nat)
    requires Kept(m, offsets)
    requires forall p :: p in offsets ==> Leads(fetch(p), offsets) && AlikeAt(fetches, fetch, p)
    ensures RunWith(fetches, ignore, m, n) == StepN(fetch, ignore, m, n)
    ensures Kept(StepN(fetch, ignore, m, n), offsets)
    decreases n
  {
    if n > 0 {
      var x := StepN(fetch, ignore, m, n - 1);
      SameRun(fetches, fetch, ignore, m, offsets, n - 1);
      LastStep(fetch, ignore, m, n);
      SameStep(fetches, fetch, ignore, x, offsets, n - 1);
    }
  }

  lemma SameStep(fetches: nat -> Image, fetch: Image, ignore: bool, m: Machine, offsets: iset<nat>, k: nat)
    requires Kept(m, offsets) && Leads(fetch(m.pc), offsets) && AlikeAt(fetches, fetch, m.pc)
    ensures Step(fetches(k), ignore, m) == Step(fetch, ignore, m) && Kept(Step(fetch, ignore, m), offsets)
  {
    KeptStep(fetch(m.pc), ignore, m, offsets);
  }

  lemma {:induction false} LastStep(fetch: Image, ignore: bool, m: Machine, n: nat)
    requires n > 0
    ensures StepN(fetch, ignore, m, n) == Step(fetch, ignore, StepN(fetch, ignore, m, n - 1))
    decreases n
  {
    if n > 1 {
      LastStep(fetch, ignore, Step(fetch, ignore, m), n - 1);
    }
  }

  lemma {:induction false} FaithfulSame(fetches: nat -> Image, fetch: Image, ignore: bool, m: Machine, e: Meaning)
    requires Faithful(fetch, ignore, m, e)
    requires forall n: nat :: RunWith(fetches, ignore, m, n) == StepN(fetch, ignore, m, n)
    ensures FaithfulWith(fetches, ignore, m, e)
  {
    forall n: nat
      ensures RunWith(fetches, ignore, m, n).trace <= e.trace
    {
      var x := StepN(fetch, ignore, m, n);
      StepNReaches(fetch, ignore, m, n);
      assert x.trace <= e.trace;
    }
    var x :| Completes(fetch, ignore, m, e, x);
    ReachesIff(fetch, ignore, m, x);
    var n: nat :| StepN(fetch, ignore, m, n) == x;
    assert Fulfils(RunWith(fetches, ignore, m, n), e);
  }

  // ---------- script files ----------

  /** Where the pieces of a script file begin, and its end. */
  ghost function Offsets(pieces: seq<Piece>): iset<nat> {
    iset i: nat | i <= |pieces| :: |Render(pieces[..i])|
  }

  lemma {:induction false} RenderConcat(a: seq<Piece>, b: seq<Piece>)
    ensures Render(a + b) == Render(a) + Render(b)
  {
    if a == [] {
      assert a + b == b;
    } else {
      assert (a + b)[1..] == a[1..] + b;
      RenderConcat(a[1..], b);
    }
  }

  /** What stands before, in and behind a piece. */
  lemma {:induction false} RenderAt(pieces: seq<Piece>, i: nat)
    requires i < |pieces|
    ensures Render(pieces) == Render(pieces[..i]) + Text(pieces[i]) + Render(pieces[i + 1..])
    ensures Render(pieces[..i + 1]) == Render(pieces[..i]) + Text(pieces[i])
  {
    var before, x, after := pieces[..i], pieces[i], pieces[i + 1..];
    RenderConcat(before, [x]);
    RenderConcat(before + [x], after);
    RenderOne(x);
    assert pieces[..i + 1] == before + [x] && pieces == before + [x] + after;
  }

  lemma RenderOne(x: Piece)
    ensures Render([x]) == Text(x)
  {
    assert [x][1..] == [];
  }

  /** At a piece, two ways of splitting that agree on it fetch the same. */
  lemma {:induction false} FetchSame(fetch: Image, words: string -> Command, other: Image, others: string -> Command,
                                     t: string, pieces: seq<Piece>, i: nat)
    requires i < |pieces| && WellLaid(words, pieces[i]) && t == Render(pieces)
    requires Reads(fetch, words, t) && Reads(other, others, t)
    requires others(CommandText(pieces[i])) == words(CommandText(pieces[i]))
    ensures var p := |Render(pieces[..i])|; other(p) == fetch(p) && Leads(fetch(p), Offsets(pieces))
  {
    var pre, x, post := Render(pieces[..i]), pieces[i], Render(pieces[i + 1..]);
    RenderAt(pieces, i);
    ReadPiece(fetch, words, t, pre, x, post);
    ReadPiece(other, others, t, pre, x, post);
    SplitApart(fetch, words, other, others, t, |pre|);
    assert |Render(pieces[..i])| in Offsets(pieces) && |Render(pieces[..i + 1])| in Offsets(pieces);
  }

  /** The way of splitting decides on the words only. */
  lemma SplitApart(fetch: Image, words: string -> Command, other: Image, others: string -> Command, t: string, p: nat)
    requires Reads(fetch, words, t) && Reads(other, others, t) && fetch(p).Fetched? && other(p).Fetched?
    ensures fetch(p).top == other(p).top && fetch(p).next == other(p).next
  {
    assert Open(0);
  }

  /** A script file is read by `splits(k)` in step `k`; all of them read its pieces as `words` does. */
  ghost predicate Alike(splits: nat -> string -> Command, words: string -> Command, pieces: seq<Piece>) {
    forall k, i :: 0 <= i < |pieces| ==> splits(k)(CommandText(pieces[i])) == words(CommandText(pieces[i]))
  }

  function Readers(splits: nat -> string -> Command, t: string): nat -> Image {
    (k: nat) => Reader(splits(k), t)
  }

  lemma {:induction false} OffsetsRead(splits: nat -> string -> Command, fetch: Image, words: string -> Command,
                                       t: string, pieces: seq<Piece>, p: nat)
    requires Alike(splits, words, pieces) && p in Offsets(pieces) && Reads(fetch, words, t) && t == Render(pieces)
    requires forall i :: 0 <= i < |pieces| ==> WellLaid(words, pieces[i])
    ensures Leads(fetch(p), Offsets(pieces)) && AlikeAt(Readers(splits, t), fetch, p)
  {
    var i: nat :| i <= |pieces| && p == |Render(pieces[..i])|;
    if i == |pieces| {
      assert pieces[..i] == pieces;
      AtTheEnd(splits, fetch, words, t);
    } else {
      assert WellLaid(words, pieces[i]);
      forall k
        ensures Readers(splits, t)(k)(p) == fetch(p)
      {
        assert Reads(Reader(splits(k), t), splits(k), t);
        FetchSame(fetch, words, Reader(splits(k), t), splits(k), t, pieces, i);
      }
      FetchSame(fetch, words, fetch, words, t, pieces, i);
    }
  }

  lemma AtTheEnd(splits: nat -> string -> Command, fetch: Image, words: string -> Command, t: string)
    requires Reads(fetch, words, t)
    ensures fetch(|t|) == Eof && AlikeAt(Readers(splits, t), fetch, |t|)
  {
    assert Open(0);
    forall k
      ensures Readers(splits, t)(k)(|t|) == Eof
    {
      assert Readers(splits, t)(k) == Reader(splits(k), t);
    }
  }

  lemma {:induction false} RunsAlike(splits: nat -> string -> Command, fetch: Image, words: string -> Command,
                                     ignore: bool, m: Machine, t: string, pieces: seq<Piece>, n: nat)
    requires Alike(splits, words, pieces) && Reads(fetch, words, t) && t == Render(pieces)
    requires forall i :: 0 <= i < |pieces| ==> WellLaid(words, pieces[i])
    requires m.pc == 0 && m.np.lpndx == 0 && !m.np.jump && m.np.Safe(|m.np.ie|)
    ensures RunWith(Readers(splits, t), ignore, m, n) == StepN(fetch, ignore, m, n)
  {
    var offsets := Offsets(pieces);
    forall p | p in offsets
      ensures Leads(fetch(p), offsets) && AlikeAt(Readers(splits, t), fetch, p)
    {
      OffsetsRead(splits, fetch, words, t, pieces, p);
    }
    assert |Render(pieces[..0])| in offsets;
    SameRun(Readers(splits, t), fetch, ignore, m, offsets, n);
  }

  /** A script file is executed as its structure says also when the variables change in between, as
      long as its commands are read alike. */
  lemma {:induction false} FileFaithfulWith(splits: nat -> string -> Command, words: string -> Command, ignore: bool,
                                            depth: nat, ss: Stmts, pieces: seq<Piece>, results: seq<bool>)
    requires IfDepthAll(ss) < depth && LoopDepthAll(ss) < depth
    requires BreaksPlacedAll(ss, false, false) && LoopsApartAll(ss, false)
    requires forall i :: 0 <= i < |pieces| ==> WellLaid(words, pieces[i])
    requires CommandsOf(words, pieces) == FlattenAll(ss) && Alike(splits, words, pieces)
    ensures FaithfulWith(Readers(splits, Render(pieces)), ignore, Start(depth, results),
                         EvalAll(ss, false, ignore, results))
  {
    var t, m := Render(pieces), Start(depth, results);
    ScriptFileFaithful(words, ignore, depth, ss, pieces, results);
    FileRunsAlike(splits, Reader(words, t), words, ignore, m, t, pieces, EvalAll(ss, false, ignore, results));
  }

  lemma {:induction false} FileRunsAlike(splits: nat -> string -> Command, fetch: Image, words: string -> Command,
                                         ignore: bool, m: Machine, t: string, pieces: seq<Piece>, e: Meaning)
    requires Alike(splits, words, pieces) && Reads(fetch, words, t) && t == Render(pieces)
    requires forall i :: 0 <= i < |pieces| ==> WellLaid(words, pieces[i])
    requires m.pc == 0 && m.np.lpndx == 0 && !m.np.jump && m.np.Safe(|m.np.ie|) && Faithful(fetch, ignore, m, e)
    ensures FaithfulWith(Readers(splits, t), ignore, m, e)
  {
    forall n: nat
      ensures RunWith(Readers(splits, t), ignore, m, n) == StepN(fetch, ignore, m, n)
    {
      RunsAlike(splits, fetch, words, ignore, m, t, pieces, n);
    }
    FaithfulSame(Readers(splits, t), fetch, ignore, m, e);
  }
}
