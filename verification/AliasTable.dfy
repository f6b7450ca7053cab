/** The alias table as the shell keeps it, updated in place. */
module AliasTable {
  import opened CText
  import AliasPool

  class Aliases {
    const atab: array<AliasPool.Alias>
    var alist: seq<nat>
    var afreelist: seq<nat>
    // The lists of expanded aliases of the commands under way.
    var expanded: seq<seq<nat>>

    ghost function View(): AliasPool.Pool
      reads this, atab
    {
      AliasPool.Pool(atab[..], alist, afreelist, expanded)
    }

    ghost predicate Valid()
      reads this, atab
    {
      AliasPool.Inv(View())
    }

    // alias_init: all entries are free.
    constructor (max: nat)
      ensures Valid() && View() == AliasPool.Fresh(max) && fresh(atab)
    {
      var tab := new AliasPool.Alias[max](i => AliasPool.BLANK);
      atab := tab;
      alist, expanded := [], [];
      new;
      var free: seq<nat> := [];
      for i := 0 to max
        invariant free == seq(i, k => k)
        invariant alist == [] && expanded == [] && atab == tab
        invariant forall k :: 0 <= k < max ==> atab[k] == AliasPool.BLANK
      {
        free := free + [i];
      }
      afreelist := free;
      assert atab[..] == seq(max, i => AliasPool.BLANK);
      AliasPool.FreshInv(max);
    }

    method Put(x: nat, a: AliasPool.Alias)
      requires x < atab.Length
      modifies atab
      ensures atab[..] == old(atab[..])[x := a]
    {
      atab[x] := a;
    }

    // alias_find
    method Find(name: string) returns (r: Option<nat>)
      requires Valid()
      ensures r == AliasPool.FindIn(View(), alist, name)
    {
      var i := 0;
      assert alist[0..] == alist;
      while i < |alist|
        invariant 0 <= i <= |alist|
        invariant AliasPool.FindIn(View(), alist, name) == AliasPool.FindIn(View(), alist[i..], name)
      {
        assert alist[i] in alist;
        if atab[alist[i]].name == Some(name) {
          return Some(alist[i]);
        }
        assert alist[i..][1..] == alist[i + 1..];
        i := i + 1;
      }
      r := None;
    }

    // alias_delete, also for an entry that has just been filled or emptied.
    method Delete(x: nat)
      requires x < atab.Length
      modifies this, atab
      ensures View() == AliasPool.Delete(old(View()), x)
    {
      if atab[x].exp {
        Put(x, atab[x].(rem := true));
      } else {
        Put(x, AliasPool.BLANK);
        alist := AliasPool.Without(alist, x);
        afreelist := [x] + afreelist;
      }
    }

    // alias_save
    method Save(name: string, value: string, nameMem: bool, valueMem: bool) returns (code: AliasPool.Code)
      requires Valid()
      modifies this, atab
      ensures Valid()
      ensures AliasPool.Saved(View(), code) == AliasPool.Save(old(View()), name, value, nameMem, valueMem)
    {
      AliasPool.SaveInv(View(), name, value, nameMem, valueMem);
      if name == "" {
        return AliasPool.EINVAL;
      }
      var copy := if valueMem then Some(value) else None;
      var alias := Find(name);
      var x;
      if alias.Some? {
        x := alias.value;
        Put(x, atab[x].(value := copy));
      } else if afreelist != [] {
        x := afreelist[0];
        assert x in afreelist;
        Put(x, atab[x].(name := if nameMem then Some(name) else None, value := copy));
        afreelist := afreelist[1..];
        alist := alist + [x];
      } else {
        return AliasPool.ENOMEM;
      }
      if atab[x].name.None? || atab[x].value.None? {
        Delete(x);
        return AliasPool.ENOMEM;
      }
      code := AliasPool.OK;
    }

    // cmd_unalias with a name
    method Unalias(name: string) returns (found: bool)
      requires Valid()
      modifies this, atab
      ensures Valid() && View() == AliasPool.Unalias(old(View()), name)
      ensures found == AliasPool.FindIn(old(View()), old(alist), name).Some?
    {
      AliasPool.UnaliasInv(View(), name);
      var alias := Find(name);
      found := alias.Some?;
      if found {
        Delete(alias.value);
      }
    }

    // alias_removeall: the next alias is fetched before the current one is deleted.
    method RemoveAll()
      requires Valid()
      modifies this, atab
      ensures Valid() && View() == AliasPool.DeleteAll(old(View()), old(alist))
    {
      var next: seq<nat> := alist;
      AliasPool.DeleteAllInv(View(), next);
      assert forall i :: 0 <= i < |next| ==> next[i] in alist;
      while next != []
        invariant forall i :: 0 <= i < |next| ==> next[i] < atab.Length
        invariant AliasPool.DeleteAll(View(), next) == AliasPool.DeleteAll(old(View()), old(alist))
        decreases |next|
      {
        var alias := next[0];
        next := next[1..];
        Delete(alias);
      }
    }

    // A command begins: its list of expanded aliases is empty.
    method Begin()
      requires Valid()
      modifies this
      ensures Valid() && View() == old(View()).(frames := old(expanded) + [[]])
    {
      AliasPool.BeginInv(View());
      expanded := expanded + [[]];
    }

    // nsh_aliasfind, nsh_alist_add and the choice of the text in nsh_aliasexpand
    method Expand(token: string) returns (text: string)
      requires Valid() && expanded != []
      modifies this, atab
      ensures Valid() && View() == AliasPool.Expand(old(View()), token)
      ensures match AliasPool.Expandable(old(View()), token)
              case None => text == token
              case Some(x) => Some(text) == old(View()).At(x).value && x in expanded[|expanded| - 1]
    {
      AliasPool.ExpandInv(View(), token);
      var alias := Find(token);
      if alias.None? || atab[alias.value].exp || atab[alias.value].value.None? {
        return token;
      }
      var x := alias.value;
      text := atab[x].value.value;
      var last := |expanded| - 1;
      AliasPool.RoomToExpand(View(), x);
      if |expanded[last]| < atab.Length {
        Put(x, atab[x].(exp := true));
        expanded := expanded[last := expanded[last] + [x]];
      }
    }

    // nsh_alist_free: the command ends.
    method End()
      requires Valid() && expanded != []
      modifies this, atab
      ensures Valid() && View() == AliasPool.End(old(View()))
    {
      AliasPool.EndInv(View());
      var last := |expanded| - 1;
      var todo: seq<nat> := expanded[last];
      assert AliasPool.Flat(expanded) == AliasPool.Flat(expanded[..last]) + todo;
      assert forall i :: 0 <= i < |todo| ==> todo[i] in AliasPool.Flat(expanded);
      expanded := expanded[..last];
      while todo != []
        invariant forall i :: 0 <= i < |todo| ==> todo[i] < atab.Length
        invariant AliasPool.ReleaseAll(View(), todo) == AliasPool.End(old(View()))
        decreases |todo|
      {
        var x := todo[0];
        todo := todo[1..];
        var marked := atab[x].rem;
        Put(x, atab[x].(exp := false));
        if marked {
          Delete(x);
        }
      }
    }
  }
}
