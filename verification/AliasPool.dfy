/** Shell aliases: a fixed table whose entries are either live or free. An alias that is being
    expanded is not deleted at once but marked, and deleted when its command ends. Commands
    nest, and each one has a list of the aliases it has expanded. */
module AliasPool {
  import opened CText

  /** `exp`: being expanded; `rem`: to be removed when the expansion ends. */
  datatype Alias = Alias(name: Option<string>, value: Option<string>, exp: bool, rem: bool)

  const BLANK := Alias(None, None, false, false)

  /** `live` and `free` are the two lists of table entries; `frames` holds the list of expanded
      aliases of each command that is under way, the innermost last. */
  datatype Pool = Pool(tab: seq<Alias>, live: seq<nat>, free: seq<nat>, frames: seq<seq<nat>>)
  {
    // Total accessors; an entry that is looked at is always inside the table.
    function At(x: nat): Alias { if x < |tab| then tab[x] else BLANK }

    function Put(x: nat, a: Alias): Pool { if x < |tab| then this.(tab := tab[x := a]) else this }
  }

  ghost predicate NoDup(s: seq<nat>) {
    forall i, j :: 0 <= i < j < |s| ==> s[i] != s[j]
  }

  function Flat(frames: seq<seq<nat>>): seq<nat> {
    if frames == [] then [] else Flat(frames[..|frames| - 1]) + frames[|frames| - 1]
  }

  /** The two lists share out the table. */
  ghost predicate Partition(p: Pool) {
    && NoDup(p.live) && NoDup(p.free)
    && (forall x :: x in p.live ==> x < |p.tab| && x !in p.free)
    && (forall x :: x in p.free ==> x < |p.tab|)
    && (forall x :: 0 <= x < |p.tab| ==> x in p.live || x in p.free)
  }

  /** A live alias has a name, and a value unless it is about to be removed; only an alias that is
      being expanded can be about to be removed. */
  predicate Sound(a: Alias) {
    a.name.Some? && (a.value.None? ==> a.rem) && (a.rem ==> a.exp)
  }

  /** The expanding aliases are those of the recorded lists, which do not overlap. */
  ghost predicate Recorded(p: Pool) {
    && NoDup(Flat(p.frames))
    && (forall x :: x in Flat(p.frames) ==> x in p.live)
    && (forall x :: 0 <= x < |p.tab| ==> (p.tab[x].exp <==> x in Flat(p.frames)))
  }

  /** Everything that is kept, but for the soundness of entry `x`. */
  ghost predicate InvBut(p: Pool, x: nat) {
    && Partition(p) && Recorded(p)
    && (forall y :: y in p.free ==> p.At(y) == BLANK)
    && (forall y :: y in p.live && y != x ==> Sound(p.At(y)))
    && (forall y, z :: y in p.live && z in p.live && y != z && y != x && z != x ==> p.At(y).name != p.At(z).name)
  }

  /** What every interleaving of operations keeps. */
  ghost predicate Inv(p: Pool) { InvBut(p, |p.tab|) }

  // ---------- operations ----------

  // alias_init on an empty table
  function Fresh(max: nat): Pool {
    Pool(seq(max, i => BLANK), [], seq(max, i => i), [])
  }

  // alias_find: the first live alias of this name
  function FindIn(p: Pool, live: seq<nat>, name: string): (r: Option<nat>)
    ensures r.Some? ==> r.value in live && p.At(r.value).name == Some(name)
    ensures r.None? ==> forall x :: x in live ==> p.At(x).name != Some(name)
  {
    if live == [] then None
    else if p.At(live[0]).name == Some(name) then Some(live[0])
    else FindIn(p, live[1..], name)
  }

  function Without(s: seq<nat>, x: nat): seq<nat> {
    if s == [] then [] else if s[0] == x then s[1..] else [s[0]] + Without(s[1..], x)
  }

  // alias_delete
  function Delete(p: Pool, x: nat): Pool {
    if p.At(x).exp then p.Put(x, p.At(x).(rem := true))
    else p.Put(x, BLANK).(live := Without(p.live, x), free := [x] + p.free)
  }

  datatype Code = OK | EINVAL | ENOMEM
  datatype Saved = Saved(pool: Pool, code: Code)

  // alias_save; `nameMem` and `valueMem` say whether the copies can be allocated
  function Save(p: Pool, name: string, value: string, nameMem: bool, valueMem: bool): Saved {
    if name == "" then Saved(p, EINVAL)
    else
      var copy := if valueMem then Some(value) else None;
      match FindIn(p, p.live, name)
      case Some(x) =>
        var q := p.Put(x, p.At(x).(value := copy));
        if valueMem then Saved(q, OK) else Saved(Delete(q, x), ENOMEM)
      case None =>
        if p.free == [] then Saved(p, ENOMEM)
        else
          var x := p.free[0];
          var q := Taken(p, if nameMem then Some(name) else None, copy);
          if nameMem && valueMem then Saved(q, OK) else Saved(Delete(q, x), ENOMEM)
  }

  /** The first free entry becomes the last live one. */
  function Taken(p: Pool, name: Option<string>, value: Option<string>): Pool
    requires p.free != []
  {
    var x := p.free[0];
    p.Put(x, p.At(x).(name := name, value := value)).(free := p.free[1..], live := p.live + [x])
  }

  // cmd_unalias with a name
  function Unalias(p: Pool, name: string): Pool {
    match FindIn(p, p.live, name)
    case None => p
    case Some(x) => Delete(p, x)
  }

  // alias_removeall, for the aliases `xs` that are still to come
  function DeleteAll(p: Pool, xs: seq<nat>): Pool
    decreases |xs|
  {
    if xs == [] then p else DeleteAll(Delete(p, xs[0]), xs[1..])
  }

  // nsh_aliasfind: an alias that is being expanded already, or has no value, is not found
  function Expandable(p: Pool, token: string): Option<nat> {
    match FindIn(p, p.live, token)
    case None => None
    case Some(x) => if !p.At(x).exp && p.At(x).value.Some? then Some(x) else None
  }

  // nsh_aliasexpand and nsh_alist_add, for the command under way; a full list stays as it is
  function Expand(p: Pool, token: string): Pool
    requires p.frames != []
  {
    match Expandable(p, token)
    case None => p
    case Some(x) =>
      var last := |p.frames| - 1;
      if |p.frames[last]| < |p.tab| then
        p.Put(x, p.At(x).(exp := true)).(frames := p.frames[last := p.frames[last] + [x]])
      else p
  }

  // nsh_alist_free
  function Release(p: Pool, x: nat): Pool {
    var q := p.Put(x, p.At(x).(exp := false));
    if p.At(x).rem then Delete(q, x) else q
  }

  function ReleaseAll(p: Pool, xs: seq<nat>): Pool
    decreases |xs|
  {
    if xs == [] then p else ReleaseAll(Release(p, xs[0]), xs[1..])
  }

  function End(p: Pool): Pool
    requires p.frames != []
  {
    var last := |p.frames| - 1;
    ReleaseAll(p.(frames := p.frames[..last]), p.frames[last])
  }

  // ---------- lists ----------

  lemma {:induction false} WithoutMembers(s: seq<nat>, x: nat)
    requires NoDup(s)
    ensures NoDup(Without(s, x))
    ensures forall y :: y in Without(s, x) <==> y in s && y != x
    decreases |s|
  {
    if s != [] {
      assert forall i :: 1 <= i < |s| ==> s[i] != s[0];
      WithoutMembers(s[1..], x);
      assert forall y :: y in s <==> y == s[0] || y in s[1..];
      if s[0] != x {
        assert s[0] !in Without(s[1..], x);
      }
    }
  }

  lemma {:induction false} WithoutLength(s: seq<nat>, x: nat)
    ensures |Without(s, x)| >= |s| - 1
    decreases |s|
  {
    if s != [] && s[0] != x {
      WithoutLength(s[1..], x);
    }
  }

  /** Distinct numbers below `n` are at most `n` many. */
  lemma {:induction false} WithoutBound(s: seq<nat>, n: nat, rest: seq<nat>)
    requires n >= 1 && NoDup(s) && rest == Without(s, n - 1) && forall x :: x in s ==> x < n
    ensures forall x :: x in rest ==> x < n - 1
  {
    WithoutMembers(s, n - 1);
  }

  lemma {:induction false} Pigeonhole(s: seq<nat>, n: nat)
    requires NoDup(s) && forall x :: x in s ==> x < n
    ensures |s| <= n
    decreases n
  {
    if s != [] {
      assert s[0] in s;
      var rest := Without(s, n - 1);
      WithoutMembers(s, n - 1);
      WithoutBound(s, n, rest);
      Pigeonhole(rest, n - 1);
      WithoutLength(s, n - 1);
    }
  }

  lemma {:induction false} FlatLast(frames: seq<seq<nat>>, f: seq<nat>)
    ensures Flat(frames + [f]) == Flat(frames) + f
  {
    assert (frames + [f])[..|frames|] == frames;
  }

  lemma NoDupSnoc(s: seq<nat>, x: nat)
    ensures NoDup(s + [x]) <==> NoDup(s) && x !in s
  {
    var t := s + [x];
    if NoDup(t) {
      forall i, j | 0 <= i < j < |s|
        ensures s[i] != s[j]
      {
        assert t[i] != t[j];
      }
      forall i | 0 <= i < |s|
        ensures s[i] != x
      {
        assert t[i] != t[|s|];
      }
    }
  }

  // ---------- every operation keeps the invariant ----------

  lemma FreshInv(max: nat)
    ensures Inv(Fresh(max))
  {
    var p := Fresh(max);
    forall x | 0 <= x < max
      ensures x in p.free && p.tab[x] == BLANK
    {
      assert p.free[x] == x;
    }
    forall x | x in p.free
      ensures 0 <= x < max
    {
      var i :| 0 <= i < |p.free| && p.free[i] == x;
    }
  }

  /** An alias that is not being expanded leaves the live list, whatever its fields are. */
  lemma FreeInv(p: Pool, x: nat)
    requires InvBut(p, x) && x in p.live && !p.At(x).exp
    ensures Inv(Delete(p, x))
  {
    var q := Delete(p, x);
    WithoutMembers(p.live, x);
    assert forall y :: y in q.free <==> y == x || y in p.free;
    assert NoDup(q.free);
  }

  lemma DeleteInv(p: Pool, x: nat)
    requires Inv(p) && x in p.live
    ensures Inv(Delete(p, x))
  {
    if !p.At(x).exp {
      FreeInv(p, x);
    }
  }

  lemma UpdateValueInv(p: Pool, x: nat, copy: Option<string>)
    requires Inv(p) && x in p.live
    ensures InvBut(p.Put(x, p.At(x).(value := copy)), x)
    ensures copy.Some? || p.At(x).rem ==> Inv(p.Put(x, p.At(x).(value := copy)))
  {
  }

  lemma {:induction false} TakenInv(p: Pool, name: Option<string>, value: Option<string>)
    requires Inv(p) && p.free != []
    requires name.Some? ==> forall y :: y in p.live ==> p.At(y).name != name
    ensures var q := Taken(p, name, value); var x := p.free[0];
      InvBut(q, x) && x in q.live && !q.At(x).exp && (name.Some? && value.Some? ==> Inv(q))
  {
    var q := Taken(p, name, value);
    var x := p.free[0];
    NoDupSnoc(p.live, x);
    FirstOut(p.free);
    assert forall y :: y in q.live <==> y == x || y in p.live;
    assert q.At(x) == BLANK.(name := name, value := value);
    assert forall y :: y != x ==> q.At(y) == p.At(y);
  }

  lemma FirstOut(s: seq<nat>)
    requires s != [] && NoDup(s)
    ensures NoDup(s[1..]) && s[0] !in s[1..] && forall y :: y in s <==> y == s[0] || y in s[1..]
  {
    assert forall i :: 1 <= i < |s| ==> s[i] != s[0] && s[1..][i - 1] == s[i];
  }

  lemma SaveInv(p: Pool, name: string, value: string, nameMem: bool, valueMem: bool)
    requires Inv(p)
    ensures Inv(Save(p, name, value, nameMem, valueMem).pool)
  {
    var copy := if valueMem then Some(value) else None;
    match FindIn(p, p.live, name)
    case Some(x) =>
      UpdateValueInv(p, x, copy);
      var q := p.Put(x, p.At(x).(value := copy));
      if !p.At(x).exp {
        FreeInv(q, x);
      } else if !valueMem {
        MarkInv(q, x);
      }
    case None =>
      if p.free != [] {
        var given := if nameMem then Some(name) else None;
        TakenInv(p, given, copy);
        FreeInv(Taken(p, given, copy), p.free[0]);
      }
  }

  /** An expanding alias that has lost its value is marked. */
  lemma MarkInv(p: Pool, x: nat)
    requires InvBut(p, x) && x in p.live && p.At(x).exp && p.At(x).name.Some?
    requires forall y :: y in p.live && y != x ==> p.At(y).name != p.At(x).name
    ensures Inv(Delete(p, x))
  {
  }

  lemma UnaliasInv(p: Pool, name: string)
    requires Inv(p)
    ensures Inv(Unalias(p, name))
  {
    var r := FindIn(p, p.live, name);
    if r.Some? {
      DeleteInv(p, r.value);
    }
  }

  lemma {:induction false} DeleteAllInv(p: Pool, xs: seq<nat>)
    requires Inv(p) && NoDup(xs) && forall x :: x in xs ==> x in p.live
    ensures Inv(DeleteAll(p, xs))
    decreases |xs|
  {
    if xs != [] {
      var x := xs[0];
      DeleteInv(p, x);
      WithoutMembers(p.live, x);
      assert forall i :: 1 <= i < |xs| ==> xs[i] != x && xs[i] in xs;
      assert forall y :: y in xs[1..] ==> y != x && y in xs;
      DeleteAllInv(Delete(p, x), xs[1..]);
    }
  }

  /** There is always room in the list of a command for an alias that is not being expanded. */
  lemma RoomToExpand(p: Pool, x: nat)
    requires Inv(p) && p.frames != [] && x in p.live && !p.At(x).exp
    ensures |p.frames[|p.frames| - 1]| < |p.tab|
  {
    var f := p.frames[|p.frames| - 1];
    var g := Flat(p.frames[..|p.frames| - 1]);
    assert Flat(p.frames) == g + f;
    forall i, j | 0 <= i < j < |f|
      ensures f[i] != f[j]
    {
      assert (g + f)[|g| + i] != (g + f)[|g| + j];
    }
    assert forall y :: y in f ==> y in g + f;
    NoDupSnoc(f, x);
    Pigeonhole(f + [x], |p.tab|);
  }

  /** Another mark on one live alias, and other frames that go with it. */
  lemma {:induction false} MarkedInv(p: Pool, q: Pool, x: nat, exp: bool)
    requires Inv(p) && x in p.live && q.live == p.live && q.free == p.free && |q.tab| == |p.tab|
    requires q.At(x) == p.At(x).(exp := exp) && (forall y :: y != x ==> q.At(y) == p.At(y)) && Recorded(q)
    ensures InvBut(q, x) && (Sound(q.At(x)) ==> Inv(q))
  {
  }

  lemma {:induction false} RecordedMore(p: Pool, q: Pool, x: nat)
    requires Recorded(p) && x in p.live && !p.At(x).exp && q.live == p.live && |q.tab| == |p.tab| && x < |p.tab|
    requires q.tab == p.tab[x := p.At(x).(exp := true)] && Flat(q.frames) == Flat(p.frames) + [x]
    ensures Recorded(q)
  {
    NoDupSnoc(Flat(p.frames), x);
  }

  lemma {:induction false} ExpandInv(p: Pool, token: string)
    requires Inv(p) && p.frames != []
    ensures Inv(Expand(p, token))
    ensures Expandable(p, token).Some? ==> Expand(p, token) != p
  {
    var r := Expandable(p, token);
    if r.Some? {
      var x := r.value;
      var last := |p.frames| - 1;
      RoomToExpand(p, x);
      var q := Expand(p, token);
      var init, f := p.frames[..last], p.frames[last];
      assert p.frames == init + [f] && q.frames == init + [f + [x]];
      FlatLast(init, f);
      FlatLast(init, f + [x]);
      assert Flat(q.frames) == Flat(p.frames) + [x];
      RecordedMore(p, q, x);
      MarkedInv(p, q, x, true);
    }
  }

  /** Releasing the first alias of the list `xs`, which counts as one more frame until it is empty. */
  lemma {:induction false} ReleaseInv(p: Pool, xs: seq<nat>)
    requires xs != [] && Inv(p.(frames := p.frames + [xs]))
    ensures Inv(Release(p, xs[0]).(frames := p.frames + [xs[1..]]))
    ensures Release(p, xs[0]).frames == p.frames
  {
    var x := xs[0];
    var rest := xs[1..];
    FlatLast(p.frames, xs);
    FlatLast(p.frames, rest);
    OneLess(Flat(p.frames), xs);
    var p', q := p.(frames := p.frames + [xs]), p.Put(x, p.At(x).(exp := false)).(frames := p.frames + [rest]);
    assert x in Flat(p.frames) + xs;
    RecordedLess(p', q, x);
    MarkedInv(p', q, x, false);
    if p.At(x).rem {
      FreeInv(q, x);
    }
  }

  lemma {:induction false} RecordedLess(p: Pool, q: Pool, x: nat)
    requires Recorded(p) && x in p.live && q.live == p.live && |q.tab| == |p.tab| && x < |p.tab|
    requires q.tab == p.tab[x := p.At(x).(exp := false)]
    requires NoDup(Flat(q.frames)) && forall y :: y in Flat(q.frames) <==> y in Flat(p.frames) && y != x
    ensures Recorded(q)
  {
  }

  lemma OneLess(a: seq<nat>, xs: seq<nat>)
    requires xs != [] && NoDup(a + xs)
    ensures NoDup(a + xs[1..]) && forall y :: y in a + xs[1..] <==> y in a + xs && y != xs[0]
  {
    var all, less := a + xs, a + xs[1..];
    var at := |a|;
    assert forall i :: 0 <= i < |less| ==> less[i] == all[if i < at then i else i + 1];
    assert all[at] == xs[0];
    forall y | y in all && y != xs[0]
      ensures y in less
    {
      var i :| 0 <= i < |all| && all[i] == y;
      assert less[if i < at then i else i - 1] == y;
    }
  }

  lemma {:induction false} ReleaseAllInv(p: Pool, xs: seq<nat>)
    requires Inv(p.(frames := p.frames + [xs]))
    ensures Inv(ReleaseAll(p, xs)) && ReleaseAll(p, xs).frames == p.frames
    decreases |xs|
  {
    if xs == [] {
      FlatLast(p.frames, []);
      assert Flat(p.frames) + [] == Flat(p.frames);
    } else {
      ReleaseInv(p, xs);
      ReleaseAllInv(Release(p, xs[0]), xs[1..]);
    }
  }

  lemma EndInv(p: Pool)
    requires Inv(p) && p.frames != []
    ensures Inv(End(p)) && End(p).frames == p.frames[..|p.frames| - 1]
  {
    var last := |p.frames| - 1;
    var q := p.(frames := p.frames[..last]);
    assert p == q.(frames := q.frames + [p.frames[last]]);
    ReleaseAllInv(q, p.frames[last]);
  }

  lemma BeginInv(p: Pool)
    requires Inv(p)
    ensures Inv(p.(frames := p.frames + [[]]))
  {
    FlatLast(p.frames, []);
    assert Flat(p.frames) + [] == Flat(p.frames);
  }

  // ---------- runs ----------

  /** What can happen to the pool: `Begin` and `Finish` of a command, also inside another one. */
  datatype Op =
    | SaveAlias(name: string, value: string, nameMem: bool, valueMem: bool)
    | RemoveAlias(name: string)
    | RemoveEvery
    | Begin
    | ExpandToken(token: string)
    | Finish

  function Step(p: Pool, op: Op): Pool {
    match op
    case SaveAlias(name, value, nameMem, valueMem) => Save(p, name, value, nameMem, valueMem).pool
    case RemoveAlias(name) => Unalias(p, name)
    case RemoveEvery => DeleteAll(p, p.live)
    case Begin => p.(frames := p.frames + [[]])
    case ExpandToken(token) => if p.frames == [] then p else Expand(p, token)
    case Finish => if p.frames == [] then p else End(p)
  }

  function Run(p: Pool, ops: seq<Op>): Pool
    decreases |ops|
  {
    if ops == [] then p else Run(Step(p, ops[0]), ops[1..])
  }

  lemma StepInv(p: Pool, op: Op)
    requires Inv(p)
    ensures Inv(Step(p, op))
  {
    match op
    case SaveAlias(name, value, nameMem, valueMem) => SaveInv(p, name, value, nameMem, valueMem);
    case RemoveAlias(name) => UnaliasInv(p, name);
    case RemoveEvery => DeleteAllInv(p, p.live);
    case Begin => BeginInv(p);
    case ExpandToken(token) => if p.frames != [] { ExpandInv(p, token); }
    case Finish => if p.frames != [] { EndInv(p); }
  }

  lemma {:induction false} RunInv(p: Pool, ops: seq<Op>)
    requires Inv(p)
    ensures Inv(Run(p, ops))
    decreases |ops|
  {
    if ops != [] {
      StepInv(p, ops[0]);
      RunInv(Step(p, ops[0]), ops[1..]);
    }
  }

  /** Over every run from a new table: the lists share out the table, names are distinct, only an
      expanding alias is marked, the expanding aliases are those recorded by the commands
      under way, and when no command is under way none is expanding, marked or without a value. */
  lemma {:induction false} PoolConserved(max: nat, ops: seq<Op>)
    ensures var p := Run(Fresh(max), ops);
      && Partition(p) && Recorded(p)
      && (forall x, y :: x in p.live && y in p.live && x != y ==> p.At(x).name != p.At(y).name)
      && (forall x :: 0 <= x < |p.tab| ==> (p.tab[x].rem ==> p.tab[x].exp))
      && (p.frames == [] ==> forall x :: 0 <= x < |p.tab| ==> !p.tab[x].exp && !p.tab[x].rem)
      && (p.frames == [] ==> forall x :: x in p.live ==> p.At(x).name.Some? && p.At(x).value.Some?)
  {
    FreshInv(max);
    RunInv(Fresh(max), ops);
    var p := Run(Fresh(max), ops);
    forall x | 0 <= x < |p.tab|
      ensures p.tab[x].rem ==> p.tab[x].exp
    {
      assert p.At(x) == p.tab[x];
      assert x in p.live || x in p.free;
    }
  }

  // ---------- what becomes of an alias ----------

  /** Releasing one alias does nothing to another one. */
  lemma ReleaseOther(p: Pool, x: nat, y: nat)
    requires x != y && NoDup(p.live)
    ensures var q := Release(p, x);
      q.At(y) == p.At(y) && (y in q.live <==> y in p.live) && (y in q.free <==> y in p.free) && NoDup(q.live)
  {
    WithoutMembers(p.live, x);
  }

  lemma {:induction false} ReleaseAllFate(p: Pool, xs: seq<nat>, y: nat)
    requires NoDup(xs) && NoDup(p.live) && y in p.live && y < |p.tab| && y !in p.free
    ensures var q := ReleaseAll(p, xs);
      if y in xs && p.At(y).rem then y in q.free && y !in q.live
      else y in q.live && y !in q.free && q.At(y) == p.At(y).(exp := p.At(y).exp && y !in xs)
    decreases |xs|
  {
    if xs != [] {
      var x := xs[0];
      var p1 := Release(p, x);
      assert forall i :: 1 <= i < |xs| ==> xs[i] != x;
      WithoutMembers(p.live, x);
      if x == y {
        ReleaseAllOther(p1, xs[1..], y);
      } else {
        ReleaseOther(p, x, y);
        ReleaseAllFate(p1, xs[1..], y);
      }
    }
  }

  lemma {:induction false} ReleaseAllOther(p: Pool, xs: seq<nat>, y: nat)
    requires y !in xs && NoDup(p.live)
    ensures var q := ReleaseAll(p, xs);
      q.At(y) == p.At(y) && (y in q.live <==> y in p.live) && (y in q.free <==> y in p.free)
    decreases |xs|
  {
    if xs != [] {
      ReleaseOther(p, xs[0], y);
      ReleaseAllOther(Release(p, xs[0]), xs[1..], y);
    }
  }

  /** When a command ends, exactly the aliases it has expanded and that were marked meanwhile are
      deleted; its other aliases can be expanded again, and all else stays as it is. */
  lemma EndFate(p: Pool, x: nat)
    requires Inv(p) && p.frames != [] && x in p.live
    ensures var q := End(p);
      var f := p.frames[|p.frames| - 1];
      if x in f && p.At(x).rem then x in q.free && x !in q.live
      else x in q.live && q.At(x) == p.At(x).(exp := p.At(x).exp && x !in f)
  {
    var last := |p.frames| - 1;
    var f := p.frames[last];
    var g := Flat(p.frames[..last]);
    assert Flat(p.frames) == g + f;
    forall i, j | 0 <= i < j < |f|
      ensures f[i] != f[j]
    {
      assert (g + f)[|g| + i] != (g + f)[|g| + j];
    }
    ReleaseAllFate(p.(frames := p.frames[..last]), f, x);
  }

  /** Setting an alias defines it, and leaves every other alias alone. */
  lemma {:induction false} SaveDefines(p: Pool, name: string, value: string, nameMem: bool, valueMem: bool)
    requires Inv(p)
    ensures var r := Save(p, name, value, nameMem, valueMem);
      var x := FindIn(r.pool, r.pool.live, name);
      && (r.code == OK ==> x.Some? && r.pool.At(x.value).value == Some(value))
      && (r.code == OK <==> name != "" && valueMem && (FindIn(p, p.live, name).Some? || (p.free != [] && nameMem)))
      && (forall y :: y in p.live && p.At(y).name != Some(name) ==> y in r.pool.live && r.pool.At(y) == p.At(y))
  {
    SaveInv(p, name, value, nameMem, valueMem);
    match FindIn(p, p.live, name)
    case Some(x) => SavedAgain(p, name, value, nameMem, valueMem, x);
    case None =>
      if name != "" && p.free != [] {
        SavedNew(p, name, value, nameMem, valueMem, p.free[0]);
      }
  }

  lemma {:induction false} SavedAgain(p: Pool, name: string, value: string, nameMem: bool, valueMem: bool, x: nat)
    requires Inv(p) && FindIn(p, p.live, name) == Some(x) && Inv(Save(p, name, value, nameMem, valueMem).pool)
    ensures var r := Save(p, name, value, nameMem, valueMem);
      && (r.code == OK ==> FindIn(r.pool, r.pool.live, name) == Some(x) && r.pool.At(x).value == Some(value))
      && (forall y :: y in p.live && p.At(y).name != Some(name) ==> y in r.pool.live && r.pool.At(y) == p.At(y))
  {
    var r := Save(p, name, value, nameMem, valueMem);
    WithoutMembers(p.live, x);
    if r.code == OK {
      OnlyName(r.pool, name, x);
    }
  }

  lemma {:induction false} SavedNew(p: Pool, name: string, value: string, nameMem: bool, valueMem: bool, x: nat)
    requires Inv(p) && name != "" && FindIn(p, p.live, name).None? && p.free != [] && x == p.free[0]
    requires Inv(Save(p, name, value, nameMem, valueMem).pool)
    ensures var r := Save(p, name, value, nameMem, valueMem);
      && (r.code == OK ==> FindIn(r.pool, r.pool.live, name) == Some(x) && r.pool.At(x).value == Some(value))
      && (forall y :: y in p.live && p.At(y).name != Some(name) ==> y in r.pool.live && r.pool.At(y) == p.At(y))
  {
    var r := Save(p, name, value, nameMem, valueMem);
    NoDupSnoc(p.live, x);
    WithoutMembers(p.live + [x], x);
    if r.code == OK {
      assert (p.live + [x])[|p.live|] == x;
      OnlyName(r.pool, name, x);
    }
  }

  lemma {:induction false} OnlyName(p: Pool, name: string, x: nat)
    requires Inv(p) && x in p.live && p.At(x).name == Some(name)
    ensures FindIn(p, p.live, name) == Some(x)
  {
  }

  // ---------- removing aliases ----------

  /** `x` is removed: it is free and blank again, or marked while it is being expanded. */
  ghost predicate Removed(p: Pool, q: Pool, x: nat) {
    if p.At(x).exp then x in q.live && x !in q.free && q.At(x) == p.At(x).(rem := true)
    else x in q.free && x !in q.live && q.At(x) == BLANK
  }

  ghost predicate Untouched(p: Pool, q: Pool, y: nat) {
    q.At(y) == p.At(y) && (y in q.live <==> y in p.live) && (y in q.free <==> y in p.free)
  }

  lemma DeleteFate(p: Pool, x: nat)
    requires Inv(p) && x in p.live
    ensures var q := Delete(p, x);
      Removed(p, q, x) && q.frames == p.frames && forall y :: y != x ==> Untouched(p, q, y)
  {
    WithoutMembers(p.live, x);
  }

  lemma {:induction false} DeleteAllFate(p: Pool, xs: seq<nat>)
    requires Inv(p) && NoDup(xs) && forall x :: x in xs ==> x in p.live
    ensures var q := DeleteAll(p, xs);
      && q.frames == p.frames && (forall x :: x in xs ==> Removed(p, q, x))
      && (forall y :: y !in xs ==> Untouched(p, q, y))
    decreases |xs|
  {
    if xs != [] {
      var x, rest, p1 := xs[0], xs[1..], Delete(p, xs[0]);
      DeleteFate(p, x);
      DeleteInv(p, x);
      assert forall i :: 1 <= i < |xs| ==> xs[i] != x && xs[i] in xs;
      assert forall y :: y in xs <==> y == x || y in rest;
      assert x !in rest;
      DeleteAllFate(p1, rest);
      var q := DeleteAll(p, xs);
      assert Untouched(p1, q, x);
      forall y | y in rest
        ensures Removed(p, q, y)
      {
        assert Removed(p1, q, y) && Untouched(p, p1, y);
      }
      forall y | y !in xs
        ensures Untouched(p, q, y)
      {
        assert Untouched(p1, q, y) && Untouched(p, p1, y);
      }
    }
  }

  /** `unalias -a`: every alias is removed, the ones in use as soon as their command ends; with no
      command under way none is left. */
  lemma {:induction false} RemoveAllFate(p: Pool)
    requires Inv(p)
    ensures var q := DeleteAll(p, p.live);
      && q.frames == p.frames && (forall x :: x in p.live ==> Removed(p, q, x))
      && (p.frames == [] ==> q.live == [] && forall x :: 0 <= x < |p.tab| ==> x in q.free && q.At(x) == BLANK)
  {
    var q := DeleteAll(p, p.live);
    DeleteAllFate(p, p.live);
    DeleteAllInv(p, p.live);
    if p.frames == [] {
      assert Flat(p.frames) == [];
      DeletedTable(p, p.live);
      forall x: nat
        ensures x !in q.live
      {
        NotInUse(p, q, x);
      }
      if q.live != [] {
        HasMember(q.live);
      }
    }
  }

  lemma NotInUse(p: Pool, q: Pool, x: nat)
    requires Inv(p) && Flat(p.frames) == []
    requires if x in p.live then Removed(p, q, x) else Untouched(p, q, x)
    ensures x !in q.live
  {
    assert x in p.live ==> p.At(x) == p.tab[x] && !p.tab[x].exp;
  }

  lemma HasMember(s: seq<nat>)
    requires s != []
    ensures exists x :: x in s
  {
    assert s[0] in s;
  }

  lemma {:induction false} DeletedTable(p: Pool, xs: seq<nat>)
    ensures |DeleteAll(p, xs).tab| == |p.tab|
    decreases |xs|
  {
    if xs != [] {
      DeletedTable(Delete(p, xs[0]), xs[1..]);
    }
  }

  /** `unalias` with a name: that alias is removed, and every other one is left alone. */
  lemma {:induction false} UnaliasFate(p: Pool, name: string)
    requires Inv(p)
    ensures var q, x := Unalias(p, name), FindIn(p, p.live, name);
      && (x.None? ==> q == p)
      && (x.Some? ==> Removed(p, q, x.value) && forall y :: y != x.value ==> Untouched(p, q, y))
      && (x.None? || !p.At(x.value).exp ==> FindIn(q, q.live, name).None?)
  {
    var q, x := Unalias(p, name), FindIn(p, p.live, name);
    if x.Some? {
      DeleteFate(p, x.value);
      if !p.At(x.value).exp {
        forall y | y in q.live
          ensures q.At(y).name != Some(name)
        {
          assert Untouched(p, q, y);
        }
      }
    }
  }

  /** A value that cannot be stored: the alias is lost, or marked and without a value while it is in
      use; a new name comes to nothing. */
  lemma {:induction false} SaveFails(p: Pool, name: string, value: string, nameMem: bool, valueMem: bool)
    requires Inv(p) && Save(p, name, value, nameMem, valueMem).code == ENOMEM
    ensures var q, x := Save(p, name, value, nameMem, valueMem).pool, FindIn(p, p.live, name);
      && (x.Some? ==> Removed(p.Put(x.value, p.At(x.value).(value := None)), q, x.value))
      && (x.None? ==> forall y :: y in q.live <==> y in p.live)
      && (x.None? ==> forall y :: q.At(y) == p.At(y))
  {
    match FindIn(p, p.live, name)
    case Some(x) => WithoutMembers(p.live, x);
    case None =>
      if p.free != [] {
        var x := p.free[0];
        NoDupSnoc(p.live, x);
        WithoutMembers(p.live + [x], x);
      }
  }

  // ---------- using an alias ----------

  /** A token is replaced exactly when it is the name of a live alias that is not in use and has a value. */
  lemma ExpandableExactly(p: Pool, token: string, x: nat)
    requires Inv(p)
    ensures Expandable(p, token) == Some(x) <==>
      x in p.live && p.At(x).name == Some(token) && !p.At(x).exp && p.At(x).value.Some?
  {
    if x in p.live && p.At(x).name == Some(token) {
      OnlyName(p, token, x);
    }
  }

  /** Then it is in use by the command under way, and nothing else changes. */
  lemma ExpandFate(p: Pool, token: string)
    requires Inv(p) && p.frames != []
    ensures var q, last := Expand(p, token), |p.frames| - 1;
      match Expandable(p, token)
      case None => q == p
      case Some(x) =>
        && q.At(x) == p.At(x).(exp := true) && q.live == p.live && q.free == p.free
        && q.frames == p.frames[..last] + [p.frames[last] + [x]]
        && forall y :: y != x ==> q.At(y) == p.At(y)
  {
    var r := Expandable(p, token);
    if r.Some? {
      RoomToExpand(p, r.value);
    }
  }

  // ---------- an alias that is set again while it is in use ----------

  /** The command that ends next uses the alias of this name and has its deletion put off. */
  ghost predicate Doomed(p: Pool, name: string)
    requires p.frames != []
  {
    exists x :: x in p.live && p.At(x).name == Some(name) && p.At(x).rem && x in p.frames[|p.frames| - 1]
  }

  lemma SaveKeepsMarks(p: Pool, name: string, value: string, nameMem: bool, valueMem: bool)
    requires Inv(p) && p.frames != [] && Save(p, name, value, nameMem, valueMem).code == OK
    ensures var q := Save(p, name, value, nameMem, valueMem).pool;
      Inv(q) && q.frames == p.frames && (Doomed(q, name) <==> Doomed(p, name))
  {
    var q := Save(p, name, value, nameMem, valueMem).pool;
    SaveInv(p, name, value, nameMem, valueMem);
    match FindIn(p, p.live, name)
    case Some(x) => OnlyOne(p, q, name, x);
    case None => FreshUnmarked(p, q, name, p.free[0]);
  }

  lemma OnlyOne(p: Pool, q: Pool, name: string, x: nat)
    requires Inv(p) && p.frames != [] && q.frames == p.frames && q.live == p.live && x in p.live
    requires p.At(x).name == q.At(x).name == Some(name) && p.At(x).rem == q.At(x).rem
    requires forall y :: y != x ==> p.At(y) == q.At(y)
    ensures Doomed(q, name) <==> Doomed(p, name)
  {
    assert forall y :: y in p.live && p.At(y).name == Some(name) ==> y == x;
  }

  lemma FreshUnmarked(p: Pool, q: Pool, name: string, x: nat)
    requires Inv(p) && p.frames != [] && q.frames == p.frames && q.live == p.live + [x] && !q.At(x).rem
    requires (forall y :: y in p.live ==> p.At(y).name != Some(name)) && forall y :: y != x ==> p.At(y) == q.At(y)
    ensures !Doomed(q, name) && !Doomed(p, name)
  {
  }

  /** Nothing becomes live when a command ends. */
  lemma EndOnlyRemoves(p: Pool, y: nat)
    requires Inv(p) && p.frames != [] && y in End(p).live
    ensures y in p.live && End(p).At(y).name == p.At(y).name
  {
    var f := p.frames[|p.frames| - 1];
    if y in p.live {
      EndFate(p, y);
    } else {
      assert Flat(p.frames) == Flat(p.frames[..|p.frames| - 1]) + f;
      assert y !in f by {
        assert y in f ==> y in Flat(p.frames);
      }
      ReleaseAllOther(p.(frames := p.frames[..|p.frames| - 1]), f, y);
    }
  }

  /** An alias that is set while a command is under way has its value when the command ends, unless
      the command uses it and its deletion was put off: then the name is gone. */
  lemma {:induction false} SavedThenEnded(p: Pool, name: string, value: string, nameMem: bool, valueMem: bool)
    requires Inv(p) && p.frames != [] && Save(p, name, value, nameMem, valueMem).code == OK
    ensures var q := Save(p, name, value, nameMem, valueMem).pool;
      && q.frames != []
      && (var e := End(q);
          var y := FindIn(e, e.live, name);
          if Doomed(p, name) then y.None? else y.Some? && e.At(y.value).value == Some(value))
  {
    var q := Save(p, name, value, nameMem, valueMem).pool;
    SaveDefines(p, name, value, nameMem, valueMem);
    SaveKeepsMarks(p, name, value, nameMem, valueMem);
    EndedFate(q, name, value);
  }

  lemma {:induction false} EndedFate(q: Pool, name: string, value: string)
    requires Inv(q) && q.frames != [] && FindIn(q, q.live, name).Some?
    requires q.At(FindIn(q, q.live, name).value).value == Some(value)
    ensures var e := End(q);
      var y := FindIn(e, e.live, name);
      if Doomed(q, name) then y.None? else y.Some? && e.At(y.value).value == Some(value)
  {
    var e, x := End(q), FindIn(q, q.live, name).value;
    EndInv(q);
    EndFate(q, x);
    assert forall y :: y in q.live && q.At(y).name == Some(name) ==> y == x;
    if Doomed(q, name) {
      forall y | y in e.live
        ensures e.At(y).name != Some(name)
      {
        EndOnlyRemoves(q, y);
      }
    } else {
      OnlyName(e, name, x);
    }
  }

  /** It does happen: set, used, removed and set again in one command, the alias is gone behind it. */
  lemma RedefinedIsLost(max: nat, name: string, v: string, w: string)
    requires max >= 1 && name != ""
    ensures var ops := [SaveAlias(name, v, true, true), Begin, ExpandToken(name), RemoveAlias(name)];
      var p := Run(Fresh(max), ops);
      p.frames != [] && Save(p, name, w, true, true).code == OK && Doomed(p, name)
  {
    var p0 := Fresh(max);
    var p1 := Step(p0, SaveAlias(name, v, true, true));
    var p2 := Step(p1, Begin);
    var p3 := Step(p2, ExpandToken(name));
    var p4 := Step(p3, RemoveAlias(name));
    var a := Alias(Some(name), Some(v), false, false);
    FirstSaved(max, name, v);
    FirstExpanded(p2, name, a);
    FirstRemoved(p3, name, a.(exp := true));
    OnlyEntry(p4, name);
    assert 0 in p4.frames[0];
    FourSteps(p0, SaveAlias(name, v, true, true), Begin, ExpandToken(name), RemoveAlias(name));
  }

  lemma {:induction false} FirstSaved(max: nat, name: string, v: string)
    requires max >= 1 && name != ""
    ensures var p := Step(Fresh(max), SaveAlias(name, v, true, true));
      |p.tab| == max && p.live == [0] && p.At(0) == Alias(Some(name), Some(v), false, false) && p.frames == []
  {
    var p := Fresh(max);
    assert p.live == [] && p.free[0] == 0 && FindIn(p, p.live, name).None?;
    assert p.tab[0] == BLANK && [] + [0] == [0];
    assert Step(p, SaveAlias(name, v, true, true)) == Taken(p, Some(name), Some(v));
  }

  lemma {:induction false} OnlyEntry(p: Pool, name: string)
    requires p.live == [0] && p.At(0).name == Some(name)
    ensures FindIn(p, p.live, name) == Some(0)
  {
  }

  lemma {:induction false} FirstExpanded(p: Pool, name: string, a: Alias)
    requires |p.tab| >= 1 && p.live == [0] && p.frames == [[]] && p.At(0) == a
    requires a.name == Some(name) && a.value.Some? && !a.exp
    ensures var q := Step(p, ExpandToken(name));
      |q.tab| == |p.tab| && q.live == [0] && q.frames == [[0]] && q.At(0) == a.(exp := true)
  {
    OnlyEntry(p, name);
    assert p.frames[0] + [0] == [0] && p.frames[0 := [0]] == [[0]];
  }

  lemma {:induction false} FirstRemoved(p: Pool, name: string, a: Alias)
    requires |p.tab| >= 1 && p.live == [0] && p.frames == [[0]] && p.At(0) == a && a.name == Some(name) && a.exp
    ensures var q := Step(p, RemoveAlias(name));
      |q.tab| == |p.tab| && q.live == [0] && q.frames == [[0]] && q.At(0) == a.(rem := true)
  {
    OnlyEntry(p, name);
  }

  lemma {:induction false} FourSteps(p: Pool, a: Op, b: Op, c: Op, d: Op)
    ensures Run(p, [a, b, c, d]) == Step(Step(Step(Step(p, a), b), c), d)
  {
    assert [a, b, c, d][1..] == [b, c, d] && [b, c, d][1..] == [c, d] && [c, d][1..] == [d] && [d][1..] == [];
    assert Run(p, [a, b, c, d]) == Run(Step(p, a), [b, c, d]);
    assert Run(Step(p, a), [b, c, d]) == Run(Step(Step(p, a), b), [c, d]);
    assert Run(Step(Step(p, a), b), [c, d]) == Run(Step(Step(Step(p, a), b), c), [d]);
  }
}
