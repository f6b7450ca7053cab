/** The shell variables: one buffer that holds `name=value` texts one after the other, each with
    its NUL, and that has to behave like a map. */
module Variables {
  import opened CText

  datatype Entry = Entry(name: string, value: string)
  {
    predicate Valid() { NameOk(name) && NulFree(value) }

    function Text(): string { name + "=" + value + "\0" }
  }

  /** A name as the store can handle it: no NUL and no `=` in it. */
  predicate NameOk(name: string) { NulFree(name) && '=' !in name }

  function Encode(es: seq<Entry>): string {
    if es == [] then "" else es[0].Text() + Encode(es[1..])
  }

  ghost predicate Distinct(es: seq<Entry>) {
    forall i, j :: 0 <= i < j < |es| ==> es[i].name != es[j].name
  }

  ghost predicate WellFormed(es: seq<Entry>) {
    Distinct(es) && forall i :: 0 <= i < |es| ==> es[i].Valid()
  }

  /** The position of the entry with this name, or the number of entries. */
  function Find(es: seq<Entry>, name: string): (k: nat)
    ensures k <= |es| && (k < |es| ==> es[k].name == name)
    ensures forall i :: 0 <= i < k ==> es[i].name != name
  {
    if es == [] || es[0].name == name then 0 else 1 + Find(es[1..], name)
  }

  function Remove(es: seq<Entry>, k: nat): seq<Entry>
    requires k < |es|
  {
    es[..k] + es[k + 1..]
  }

  /** The map that the entries stand for. */
  function ToMap(es: seq<Entry>): map<string, string> {
    if es == [] then map[] else ToMap(es[1..])[es[0].name := es[0].value]
  }

  // ---------- entries and the map ----------

  lemma {:induction false} ToMapFind(es: seq<Entry>, name: string)
    ensures name in ToMap(es) <==> Find(es, name) < |es|
    ensures Find(es, name) < |es| ==> ToMap(es)[name] == es[Find(es, name)].value
    decreases |es|
  {
    if es != [] && es[0].name != name {
      ToMapFind(es[1..], name);
    }
  }

  lemma {:induction false} ToMapAppend(es: seq<Entry>, e: Entry)
    requires Find(es, e.name) == |es|
    ensures ToMap(es + [e]) == ToMap(es)[e.name := e.value]
    decreases |es|
  {
    if es == [] {
      assert es + [e] == [e];
    } else {
      assert (es + [e])[1..] == es[1..] + [e];
      assert Find(es, e.name) == 1 + Find(es[1..], e.name);
      ToMapAppend(es[1..], e);
    }
  }

  lemma {:induction false} ToMapRemove(es: seq<Entry>, k: nat)
    requires k < |es| && Distinct(es)
    ensures ToMap(Remove(es, k)) == ToMap(es) - {es[k].name}
    decreases k
  {
    if k == 0 {
      assert Remove(es, 0) == es[1..];
      ToMapAbsent(es[1..], es[0].name);
    } else {
      assert Remove(es, k)[1..] == Remove(es[1..], k - 1);
      ToMapRemove(es[1..], k - 1);
    }
  }

  lemma {:induction false} ToMapAbsent(es: seq<Entry>, name: string)
    requires forall i :: 0 <= i < |es| ==> es[i].name != name
    ensures name !in ToMap(es) && Find(es, name) == |es|
  {
    ToMapFind(es, name);
  }

  lemma RemoveKeeps(es: seq<Entry>, k: nat)
    requires WellFormed(es) && k < |es|
    ensures WellFormed(Remove(es, k))
    ensures Find(Remove(es, k), es[k].name) == |es| - 1
  {
    var rest := Remove(es, k);
    assert forall i :: 0 <= i < |rest| ==> rest[i] == es[if i < k then i else i + 1];
    ToMapAbsent(rest, es[k].name);
  }

  lemma {:induction false} AppendKeeps(es: seq<Entry>, e: Entry)
    requires WellFormed(es) && e.Valid() && Find(es, e.name) == |es|
    ensures WellFormed(es + [e])
  {
  }

  // ---------- entries and the buffer ----------

  lemma {:induction false} EncodeConcat(a: seq<Entry>, b: seq<Entry>)
    ensures Encode(a + b) == Encode(a) + Encode(b)
    decreases |a|
  {
    if a == [] {
      assert a + b == b;
    } else {
      assert (a + b)[1..] == a[1..] + b;
      EncodeConcat(a[1..], b);
    }
  }

  function Offset(es: seq<Entry>, k: nat): nat
    requires k <= |es|
  {
    |Encode(es[..k])|
  }

  /** The buffer around entry `k`. */
  lemma {:induction false} EncodeAt(es: seq<Entry>, k: nat)
    requires k < |es|
    ensures Encode(es) == Encode(es[..k]) + es[k].Text() + Encode(es[k + 1..])
    ensures Offset(es, k + 1) == Offset(es, k) + |es[k].Text()|
  {
    assert es == es[..k] + es[k..] && es[k..][0] == es[k] && es[k..][1..] == es[k + 1..];
    EncodeConcat(es[..k], es[k..]);
    assert es[..k + 1] == es[..k] + [es[k]];
    EncodeConcat(es[..k], [es[k]]);
    assert Encode([es[k]]) == es[k].Text() + Encode([]);
  }

  lemma {:induction false} EncodeRemove(es: seq<Entry>, k: nat)
    requires k < |es|
    ensures Offset(es, k) <= Offset(es, k + 1) <= |Encode(es)|
    ensures Encode(Remove(es, k)) == Encode(es)[..Offset(es, k)] + Encode(es)[Offset(es, k + 1)..]
  {
    EncodeAt(es, k);
    EncodeConcat(es[..k], es[k + 1..]);
    Around(Encode(es), Encode(es[..k]), es[k].Text(), Encode(es[k + 1..]));
  }

  /** The entries without the one at `k` are what the moved text holds. */
  lemma {:induction false} RemoveEntry(es: seq<Entry>, k: nat)
    requires WellFormed(es) && k < |es|
    ensures Offset(es, k) <= Offset(es, k + 1) <= |Encode(es)| && Offset(es, k + 1) == Offset(es, k) + |es[k].Text()|
    ensures WellFormed(Remove(es, k))
    ensures Encode(Remove(es, k)) == Encode(es)[..Offset(es, k)] + Encode(es)[Offset(es, k + 1)..]
  {
    EncodeRemove(es, k);
    RemoveKeeps(es, k);
    EntryAt(Encode(es), es, k);
  }

  lemma Around(b: string, x: string, y: string, z: string)
    requires b == x + y + z
    ensures b[..|x|] + b[|x| + |y|..] == x + z
  {
    assert b[..|x|] == x && b[|x| + |y|..] == z;
  }

  lemma {:induction false} EncodeAppend(es: seq<Entry>, e: Entry)
    ensures Encode(es + [e]) == Encode(es) + e.Text()
  {
    EncodeConcat(es, [e]);
    assert Encode([e]) == e.Text() + Encode([]);
  }

  lemma TextChars(e: Entry)
    requires e.Valid()
    ensures var t := e.Text();
      && |t| == |e.name| + |e.value| + 2 && t[|e.name|] == '=' && t[|t| - 1] == '\0'
      && (forall i :: 0 <= i < |e.name| ==> t[i] == e.name[i])
      && (forall i :: 0 <= i < |t| - 1 ==> t[i] != '\0')
      && t[|e.name| + 1..|t| - 1] == e.value
  {
    var t := e.Text();
    forall i | 0 <= i < |t| - 1
      ensures t[i] != '\0'
    {
      if i > |e.name| { assert t[i] == e.value[i - |e.name| - 1]; }
    }
  }

  /** The entries other than those with this name. */
  function Kept(es: seq<Entry>, name: string): seq<Entry> {
    var k := Find(es, name);
    if k < |es| then Remove(es, k) else es
  }

  /** Entry `k` in the buffer. */
  lemma {:induction false} EntryAt(b: string, es: seq<Entry>, k: nat)
    requires b == Encode(es) && k < |es|
    ensures var p := Offset(es, k); p + |es[k].Text()| <= |b| && b[p..p + |es[k].Text()|] == es[k].Text()
    ensures Offset(es, k + 1) == Offset(es, k) + |es[k].Text()|
  {
    EncodeAt(es, k);
  }

  /** The first entry of a buffer ends at the first NUL. */
  lemma SameFirst(e: Entry, f: Entry, u: string, v: string)
    requires e.Valid() && f.Valid() && e.Text() + u == f.Text() + v
    ensures e == f && u == v
  {
    var s, t := e.Text(), f.Text();
    TextChars(e);
    TextChars(f);
    assert |s| == |t| by {
      assert (s + u)[|s| - 1] == (t + v)[|s| - 1] && (s + u)[|t| - 1] == (t + v)[|t| - 1];
    }
    assert s == (s + u)[..|s|] == (t + v)[..|s|] == t;
    assert u == (s + u)[|s|..] == (t + v)[|s|..] == v;
    assert |e.name| == |f.name| by {
      assert s[|e.name|] == t[|e.name|] && s[|f.name|] == t[|f.name|];
    }
    assert e.name == s[..|e.name|] == f.name;
  }

  /** The buffer determines the entries: no two lists of variables look alike in it. */
  lemma {:induction false} EncodeInjective(a: seq<Entry>, b: seq<Entry>)
    requires (forall i :: 0 <= i < |a| ==> a[i].Valid()) && (forall i :: 0 <= i < |b| ==> b[i].Valid())
    requires Encode(a) == Encode(b)
    ensures a == b
    decreases |a|
  {
    if a != [] && b != [] {
      SameFirst(a[0], b[0], Encode(a[1..]), Encode(b[1..]));
      EncodeInjective(a[1..], b[1..]);
      assert a == [a[0]] + a[1..] && b == [b[0]] + b[1..];
    }
  }

  // ---------- the store ----------

  /** The comparison stopped at `i`: the names are equal exactly when both have ended. */
  lemma Compared(name: string, e: Entry, i: nat)
    requires e.Valid() && NameOk(name) && i <= |name| && i <= |e.name|
    requires forall j :: 0 <= j < i ==> name[j] == e.name[j]
    requires i < |e.Text()| && (if i < |name| then name[i] else '\0') != e.Text()[i]
    ensures name == e.name <==> i == |name| && e.Text()[i] == '='
  {
    TextChars(e);
  }

  lemma Slice(b: string, p: nat, t: string, i: nat, j: nat)
    requires p + |t| <= |b| && b[p..p + |t|] == t && i <= j <= |t|
    ensures b[p + i..p + j] == t[i..j]
  {
    forall k | i <= k < j
      ensures b[p + k] == t[k]
    {
      assert b[p..p + |t|][k] == t[k];
    }
  }

  const INT_MAX := 0x7fff_ffff

  datatype SetResult = SetOk | NoMemory

  class VarStore {
    var varp: array?<char>
    var varsz: nat
    ghost var entries: seq<Entry>

    ghost predicate Valid()
      reads this, varp
    {
      && WellFormed(entries)
      && (varp == null ==> varsz == 0 && entries == [])
      && (varp != null ==> varsz <= varp.Length && varp[..varsz] == Encode(entries))
    }

    ghost function View(): map<string, string>
      reads this
    {
      ToMap(entries)
    }

    constructor ()
      ensures Valid() && View() == map[]
    {
      varp, varsz, entries := null, 0, [];
    }

    /** The character at an offset of the buffer in use. */
    lemma CharOf(p: nat, t: string, i: nat)
      requires varp != null && varsz <= varp.Length && p + |t| <= varsz && varp[..varsz][p..p + |t|] == t && i < |t|
      ensures varp[p + i] == t[i]
    {
      assert varp[..varsz][p..p + |t|][i] == t[i];
    }

    // nsh_cmpname: the texts are compared until they differ; the name must then have ended, and
    // the entry must have come to its `=`.
    method CmpName(name: string, ptr: nat, ghost k: nat) returns (same: bool)
      requires Valid() && NameOk(name) && k < |entries| && ptr == Offset(entries, k)
      ensures same == (name == entries[k].name)
    {
      EntryAt(Encode(entries), entries, k);
      same := CmpText(name, ptr, entries[k]);
    }

    /** The comparison with the entry `e` in the buffer. */
    method CmpText(name: string, ptr: nat, ghost e: Entry) returns (same: bool)
      requires varp != null && varsz <= varp.Length && NameOk(name) && e.Valid()
      requires ptr + |e.Text()| <= varsz && varp[..varsz][ptr..ptr + |e.Text()|] == e.Text()
      ensures same == (name == e.name)
    {
      ghost var t := e.Text();
      TextChars(e);
      var i: nat := 0;
      CharOf(ptr, t, i);
      while (if i < |name| then name[i] else '\0') == varp[ptr + i]
        invariant i <= |name| && i <= |e.name| && forall j :: 0 <= j < i ==> name[j] == e.name[j]
        invariant varp[ptr + i] == t[i]
        decreases |name| - i
      {
        i := i + 1;
        CharOf(ptr, t, i);
      }
      same := i == |name| && varp[ptr + i] == '=';
      Compared(name, e, i);
    }

    // strlen of the text at `ptr`.
    method StrLen(ptr: nat, ghost t: string) returns (n: nat)
      requires varp != null && varsz <= varp.Length && ptr + |t| <= varsz && varp[..varsz][ptr..ptr + |t|] == t
      requires t != "" && (forall i :: 0 <= i < |t| - 1 ==> t[i] != '\0') && t[|t| - 1] == '\0'
      ensures n == |t| - 1
    {
      n := 0;
      CharOf(ptr, t, n);
      while varp[ptr + n] != '\0'
        invariant n < |t| && varp[ptr + n] == t[n]
        decreases |t| - n
      {
        n := n + 1;
        CharOf(ptr, t, n);
      }
    }

    /** Where the entry at `ptr` ends. */
    method Next(ptr: nat, ghost k: nat) returns (next: nat)
      requires Valid() && k < |entries| && ptr == Offset(entries, k)
      ensures next == Offset(entries, k + 1) && ptr < next <= varsz
    {
      EntryAt(Encode(entries), entries, k);
      TextChars(entries[k]);
      var n := StrLen(ptr, entries[k].Text());
      next := ptr + n + 1;
    }

    lemma AtEnd(k: nat)
      requires Valid() && k <= |entries| && varp != null
      ensures Offset(entries, k) <= varsz && (Offset(entries, k) == varsz <==> k == |entries|)
    {
      if k == |entries| {
        assert entries[..k] == entries;
      } else {
        EncodeAt(entries, k);
      }
    }

    // nsh_findvar
    method FindVar(name: string) returns (ptr: Option<nat>, ghost k: nat)
      requires Valid() && NameOk(name)
      ensures k == Find(entries, name)
      ensures ptr.Some? <==> k < |entries|
      ensures ptr.Some? ==> varp != null && ptr.value == Offset(entries, k)
    {
      k := 0;
      if varp == null {
        return None, 0;
      }
      var p: nat := 0;
      assert entries[..0] == [] && entries[0..] == entries;
      AtEnd(0);
      while p < varsz
        invariant k <= |entries| && p == Offset(entries, k) && (p < varsz <==> k < |entries|)
        invariant Find(entries, name) == k + Find(entries[k..], name)
        decreases |entries| - k
      {
        assert entries[k..][0] == entries[k] && entries[k..][1..] == entries[k + 1..];
        var same := CmpName(name, p, k);
        if same {
          return Some(p), k;
        }
        p := Next(p, k);
        k := k + 1;
        AtEnd(k);
      }
      ptr := None;
    }

    // nsh_removevar: the entries behind the removed one move down.
    method RemoveVar(pair: nat, ghost k: nat)
      requires Valid() && varp != null && k < |entries| && pair == Offset(entries, k)
      modifies this, varp
      ensures Valid() && varp == old(varp) && entries == Remove(old(entries), k)
      ensures varsz == old(varsz) - |old(entries)[k].Text()|
    {
      RemoveEntry(entries, k);
      var src := Next(pair, k);
      var len := src - pair;
      MoveTail(pair, src);
      varsz := varsz - len;
      entries := Remove(entries, k);
    }

    method MoveTail(dest: nat, src: nat)
      requires varp != null && dest <= src <= varsz <= varp.Length
      modifies varp
      ensures varp[..varsz - (src - dest)] == old(varp[..varsz][..dest]) + old(varp[..varsz][src..])
    {
      var d, s, count := dest, src, varsz - src;
      while count > 0
        invariant 0 <= count <= varsz - src && d == dest + (varsz - src - count) && s == d + (src - dest)
        invariant forall i :: 0 <= i < dest ==> varp[i] == old(varp[i])
        invariant forall i :: dest <= i < d ==> varp[i] == old(varp[i + (src - dest)])
        invariant forall i :: d <= i < varp.Length ==> varp[i] == old(varp[i])
      {
        varp[d] := varp[s];
        d, s, count := d + 1, s + 1, count - 1;
      }
      ghost var before := old(varp[..varsz]);
      ghost var after := before[..dest] + before[src..];
      forall i | 0 <= i < |after|
        ensures varp[i] == after[i]
      {
        if i >= dest { assert after[i] == before[i + (src - dest)]; }
      }
    }

    // nsh_getvar
    method GetVar(name: string) returns (value: Option<string>)
      requires Valid() && NameOk(name)
      ensures value == if name in View() then Some(View()[name]) else None
    {
      ToMapFind(entries, name);
      ghost var k;
      var pair;
      pair, k := FindVar(name);
      if pair == None {
        return None;
      }
      var v := ValueAt(pair.value, k);
      value := Some(v);
    }

    // The text behind the first `=` of entry `k`.
    method ValueAt(ptr: nat, ghost k: nat) returns (value: string)
      requires Valid() && varp != null && k < |entries| && ptr == Offset(entries, k)
      ensures value == entries[k].value
    {
      EntryAt(Encode(entries), entries, k);
      value := ValueOf(ptr, entries[k]);
    }

    method ValueOf(ptr: nat, ghost e: Entry) returns (value: string)
      requires varp != null && varsz <= varp.Length && ptr + |e.Text()| <= varsz && e.Valid()
      requires varp[..varsz][ptr..ptr + |e.Text()|] == e.Text()
      ensures value == e.value
    {
      ghost var t := e.Text();
      TextChars(e);
      var eq := FindEquals(ptr, e);
      var n := StrLen(ptr, t);
      value := varp[ptr + eq + 1..ptr + n];
      Slice(varp[..varsz], ptr, t, eq + 1, n);
      InUse(ptr + eq + 1, ptr + n);
    }

    lemma InUse(i: nat, j: nat)
      requires varp != null && i <= j <= varsz <= varp.Length
      ensures varp[i..j] == varp[..varsz][i..j]
    {
    }

    // strchr for the first `=` of the entry: its name has none.
    method FindEquals(ptr: nat, ghost e: Entry) returns (i: nat)
      requires varp != null && varsz <= varp.Length && ptr + |e.Text()| <= varsz && e.Valid()
      requires varp[..varsz][ptr..ptr + |e.Text()|] == e.Text()
      ensures i == |e.name|
    {
      ghost var t := e.Text();
      TextChars(e);
      i := 0;
      CharOf(ptr, t, i);
      while varp[ptr + i] != '='
        invariant i <= |e.name| && varp[ptr + i] == t[i]
        decreases |e.name| - i
      {
        i := i + 1;
        CharOf(ptr, t, i);
      }
    }

    // nsh_setvar. `memory` says whether the allocation succeeds. The old entry is removed first, so
    // it is lost when there is no room for the new one.
    method SetVar(name: string, value: string, memory: bool) returns (r: SetResult)
      requires Valid() && NameOk(name) && NulFree(value)
      modifies this, varp
      ensures Valid()
      ensures r == SetOk ==> View() == old(View())[name := value]
      ensures r == NoMemory ==> View() == old(View()) - {name}
      ensures r == SetOk <==>
        memory && (old(varp) == null || |Encode(Kept(old(entries), name))| + |name| + |value| + 2 <= INT_MAX)
    {
      Forget(name);
      var varlen := |name| + |value| + 2;
      if varp != null && varlen > INT_MAX - varsz {
        return NoMemory;
      }
      if !memory {
        return NoMemory;
      }
      Append(name, value);
      r := SetOk;
    }

    // The entry with this name is removed, if there is one.
    method Forget(name: string)
      requires Valid() && NameOk(name)
      modifies this, varp
      ensures Valid() && View() == old(View()) - {name} && Find(entries, name) == |entries|
      ensures varp == old(varp) && entries == Kept(old(entries), name)
    {
      ToMapFind(entries, name);
      ghost var k;
      var pair;
      pair, k := FindVar(name);
      if pair.Some? {
        ToMapRemove(entries, k);
        RemoveKeeps(entries, k);
        RemoveVar(pair.value, k);
      } else {
        assert View() - {name} == View();
      }
    }

    // The buffer is made larger by a copy, and the new entry is written behind the others.
    method Append(name: string, value: string)
      requires Valid() && Entry(name, value).Valid() && Find(entries, name) == |entries|
      modifies this
      ensures Valid() && entries == old(entries) + [Entry(name, value)]
      ensures View() == old(View())[name := value]
      ensures varsz == old(varsz) + |name| + |value| + 2
    {
      var e := Entry(name, value);
      ToMapAppend(entries, e);
      AppendKeeps(entries, e);
      EncodeAppend(entries, e);
      var all := (if varp == null then "" else varp[..varsz]) + e.Text();
      varp := new char[|all|](i requires 0 <= i < |all| => all[i]);
      varsz := |all|;
      entries := entries + [e];
      assert varp[..varsz] == all;
    }

    // nsh_unsetvar. Shrinking the buffer may fail; the variable is gone all the same.
    method UnsetVar(name: string, memory: bool) returns (r: SetResult)
      requires Valid() && NameOk(name)
      modifies this, varp
      ensures Valid() && View() == old(View()) - {name}
      ensures r == NoMemory ==> !memory && name in old(View()) && View() != map[]
    {
      ToMapFind(entries, name);
      ghost var k;
      var pair;
      pair, k := FindVar(name);
      r := SetOk;
      if pair.Some? {
        Forget(name);
        if varsz == 0 {
          AtEnd(|entries|);
          AtEnd(0);
          assert entries[..0] == [];
          varp := null;
        } else if memory {
          var all := varp[..varsz];
          varp := new char[varsz](i requires 0 <= i < |all| => all[i]);
          assert varp[..varsz] == all;
        } else {
          assert entries != [] && entries[0].name in View();
          r := NoMemory;
        }
      } else {
        assert View() - {name} == View();
      }
    }

    // nsh_foreach_var: `stops` says for which entries the callback asks to end the traversal.
    method ForEach(stops: string -> bool) returns (visited: seq<string>, stopped: bool)
      requires Valid()
      ensures |visited| <= |entries|
      ensures forall i :: 0 <= i < |visited| ==> visited[i] == entries[i].name + "=" + entries[i].value
      ensures forall i :: 0 <= i < |visited| - 1 ==> !stops(visited[i])
      ensures stopped ==> visited != [] && stops(visited[|visited| - 1])
      ensures !stopped ==> |visited| == |entries| && (visited != [] ==> !stops(visited[|visited| - 1]))
    {
      visited, stopped := [], false;
      if varp == null {
        return;
      }
      var p: nat, k: nat := 0, 0;
      assert entries[..0] == [];
      AtEnd(0);
      while p < varsz
        invariant k <= |entries| && p == Offset(entries, k) && (p < varsz <==> k < |entries|)
        invariant |visited| == k && forall i :: 0 <= i < k ==>
                    visited[i] == entries[i].name + "=" + entries[i].value && !stops(visited[i])
        decreases |entries| - k
      {
        var next := Next(p, k);
        var text := varp[p..next - 1];
        EntryText(p, k);
        visited := visited + [text];
        if stops(text) {
          return visited, true;
        }
        p, k := next, k + 1;
        AtEnd(k);
      }
    }

    lemma EntryText(p: nat, k: nat)
      requires Valid() && varp != null && k < |entries| && p == Offset(entries, k)
      ensures Offset(entries, k + 1) <= varsz && p < Offset(entries, k + 1)
      ensures varp[p..Offset(entries, k + 1) - 1] == entries[k].name + "=" + entries[k].value
    {
      EntryAt(Encode(entries), entries, k);
      var t := entries[k].Text();
      Slice(varp[..varsz], p, t, 0, |t| - 1);
      InUse(p, p + |t| - 1);
    }
  }
}
