/** Texts in a character buffer, ended by a NUL, and the loops that look at them. */
module CBuffer {
  import opened CText

  /** The text `s` is in the buffer from `i` on, with its NUL. */
  ghost predicate Holds(buf: array<char>, i: nat, s: string)
    reads buf
  {
    i + |s| < buf.Length && buf[i..i + |s|] == s && buf[i + |s|] == '\0' && NulFree(s)
  }

  lemma HeldAt(buf: array<char>, i: nat, s: string, k: nat)
    requires Holds(buf, i, s) && k <= |s|
    ensures buf[i + k] == if k < |s| then s[k] else '\0'
    ensures k < |s| ==> buf[i + k] != '\0'
  {
    if k < |s| {
      assert buf[i..i + |s|][k] == s[k];
    }
  }

  /** The character at position `k` of the text, or its NUL. */
  method CharAt(buf: array<char>, i: nat, ghost s: string, k: nat) returns (c: char)
    requires Holds(buf, i, s) && k <= |s|
    ensures if k < |s| then c == s[k] && c != '\0' else c == '\0'
  {
    HeldAt(buf, i, s, k);
    c := buf[i + k];
  }

  method Strcspn(buf: array<char>, i: nat, ghost s: string, w: nat, stops: string) returns (k: nat)
    requires Holds(buf, i, s) && w <= |s|
    ensures k == SkipTo(s, w, stops)
  {
    k := w;
    var c := CharAt(buf, i, s, k);
    while c != '\0' && c !in stops
      invariant w <= k <= |s|
      invariant SkipTo(s, w, stops) == SkipTo(s, k, stops)
      invariant if k < |s| then c == s[k] && c != '\0' else c == '\0'
      decreases |s| - k
    {
      k := k + 1;
      c := CharAt(buf, i, s, k);
    }
  }

  method StrChr(buf: array<char>, i: nat, ghost s: string, start: nat, ch: char) returns (k: Option<nat>)
    requires Holds(buf, i, s) && start <= |s| && ch != '\0'
    ensures k == FindUnescaped(s, start, ch, false)
  {
    var ptr, quoted := start, false;
    HeldAt(buf, i, s, ptr);
    while buf[i + ptr] != '\0'
      invariant start <= ptr <= |s|
      invariant FindUnescaped(s, start, ch, false) == FindUnescaped(s, ptr, ch, quoted)
      invariant buf[i + ptr] == if ptr < |s| then s[ptr] else '\0'
      invariant ptr < |s| ==> buf[i + ptr] != '\0'
      decreases |s| - ptr
    {
      if buf[i + ptr] == '\\' && !quoted {
        quoted := true;
      } else if buf[i + ptr] == ch && !quoted {
        return Some(ptr);
      } else {
        quoted := false;
      }
      ptr := ptr + 1;
      HeldAt(buf, i, s, ptr);
    }
    return None;
  }

  /** The first characters of the text, taken out of the buffer. */
  lemma Taken(buf: array<char>, i: nat, s: string, k: nat)
    requires Holds(buf, i, s) && k <= |s|
    ensures buf[i..i + k] == s[..k]
  {
    assert buf[i..i + k] == buf[i..i + |s|][..k];
  }

  lemma Later(buf: array<char>, i: nat, s: string, k: nat)
    requires Holds(buf, i, s) && k <= |s|
    ensures Holds(buf, i + k, s[k..])
  {
    assert buf[i + k..i + |s|] == buf[i..i + |s|][k..];
  }

  method TakeAll(buf: array<char>, i: nat, ghost s: string) returns (t: string)
    requires Holds(buf, i, s)
    ensures t == s
  {
    var k := Strcspn(buf, i, s, 0, "");
    Taken(buf, i, s, k);
    t := buf[i..i + k];
  }

  /** A text in the buffer, character by character. */
  lemma HeldEach(buf: array<char>, base: nat, s: string)
    requires Holds(buf, base, s)
    ensures forall i :: base <= i < base + |s| ==> buf[i] == s[i - base] && buf[i] != '\0'
    ensures buf[base + |s|] == '\0'
  {
    forall i | base <= i < base + |s|
      ensures buf[i] == s[i - base] && buf[i] != '\0'
    {
      HeldAt(buf, base, s, i - base);
    }
  }

  // The first character of `rest`, which stands behind `before`, is removed: the characters
  // after it and the NUL move down by one.
  method MoveDown(buf: array<char>, at: nat, ghost base: nat, ghost before: string, ghost rest: string)
    requires rest != "" && Holds(buf, base, before + rest) && at == base + |before|
    modifies buf
    ensures Holds(buf, base, before + rest[1..])
    ensures forall i :: 0 <= i < base ==> buf[i] == old(buf[i])
    ensures forall i :: base + |before + rest| <= i < buf.Length ==> buf[i] == old(buf[i])
  {
    ghost var s := before + rest;
    ghost var end := base + |s|;
    ghost var b := buf[..];
    HeldEach(buf, base, s);
    var dest := at;
    var ch := buf[dest + 1];
    buf[dest] := ch;
    dest := dest + 1;
    while ch != '\0'
      invariant at < dest <= end && ch == b[dest]
      invariant forall i :: 0 <= i < buf.Length && !(at <= i < dest) ==> buf[i] == b[i]
      invariant forall i :: at <= i < dest ==> buf[i] == b[i + 1]
      decreases end - dest
    {
      ch := buf[dest + 1];
      buf[dest] := ch;
      dest := dest + 1;
    }
    MovedDown(b, buf[..], base, before, rest);
    assert NulFree(before + rest[1..]) by {
      FreeWithout(before, rest);
    }
  }

  lemma FreeWithout(before: string, rest: string)
    requires rest != "" && NulFree(before + rest)
    ensures NulFree(before + rest[1..])
  {
    var s, r := before + rest, before + rest[1..];
    forall i | 0 <= i < |r|
      ensures r[i] != '\0'
    {
      assert s[if i < |before| then i else i + 1] == r[i];
    }
  }

  /** The move, seen on the whole buffer. */
  lemma MovedDown(b: seq<char>, b': seq<char>, base: nat, before: string, rest: string)
    requires rest != "" && base + |before + rest| < |b| == |b'|
    requires b[base..base + |before + rest|] == before + rest
    requires forall i :: base <= i < base + |before| ==> b'[i] == b[i]
    requires forall i :: base + |before| <= i < base + |before + rest| ==> b'[i] == b[i + 1]
    ensures b'[base..base + |before + rest[1..]|] == before + rest[1..]
  {
    var s, r := before + rest, before + rest[1..];
    assert forall i :: 0 <= i < |s| ==> b[base..base + |s|][i] == b[base + i] == s[i];
    forall i | 0 <= i < |r|
      ensures b'[base + i] == r[i]
    {
      assert s[if i < |before| then i else i + 1] == r[i];
    }
  }
}
