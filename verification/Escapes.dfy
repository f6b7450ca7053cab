/** Backslash escapes: which characters they protect, and how they are removed. */
module Escapes {
  import opened CBuffer
  import opened CText
  import opened Guard

  // ---------- which characters are escaped ----------

  /** A forward reading: the character at `i` is protected by a backslash that is not itself
      protected. */
  predicate Escaped(s: string, i: nat)
    requires i <= |s|
  {
    i > 0 && s[i - 1] == '\\' && !Escaped(s, i - 1)
  }

  /** A backward reading: how many backslashes stand right before `i`. */
  function Backslashes(s: string, i: nat): (n: nat)
    requires i <= |s|
    ensures n <= i
  {
    if i > 0 && s[i - 1] == '\\' then 1 + Backslashes(s, i - 1) else 0
  }

  /** The two readings agree at every position. */
  lemma {:induction false} ForwardIsBackward(s: string, i: nat)
    requires i <= |s|
    ensures Escaped(s, i) <==> Backslashes(s, i) % 2 == 1
    decreases i
  {
    if i > 0 && s[i - 1] == '\\' {
      ForwardIsBackward(s, i - 1);
    }
  }

  /** The search of nsh_strchr finds the first unprotected occurrence. */
  lemma {:induction false} FindIsFirst(s: string, i: nat, ch: char)
    requires i <= |s| && ch != '\\'
    ensures match FindUnescaped(s, i, ch, Escaped(s, i))
            case None => forall j :: i <= j < |s| && s[j] == ch ==> Escaped(s, j)
            case Some(k) => !Escaped(s, k) && forall j :: i <= j < k && s[j] == ch ==> Escaped(s, j)
    decreases |s| - i
  {
    if i < |s| && !(s[i] == ch && !Escaped(s, i)) {
      FindIsFirst(s, i + 1, ch);
    }
  }

  /** Escapes of a suffix that begins at an unprotected position are those of the whole. */
  lemma {:induction false} EscapedSuffix(s: string, w: nat, i: nat)
    requires w + i <= |s| && !Escaped(s, w)
    ensures Escaped(s[w..], i) == Escaped(s, w + i)
    decreases i
  {
    if i > 0 {
      EscapedSuffix(s, w, i - 1);
    }
  }

  lemma {:induction false} EscapedPrefix(s: string, t: string, i: nat)
    requires i <= |s|
    ensures Escaped(s + t, i) == Escaped(s, i)
    decreases i
  {
    if i > 0 {
      EscapedPrefix(s, t, i - 1);
    }
  }

  // The count of nsh_argexpand, from `len` backwards to the beginning of the text.
  method IsQuoted(buf: array<char>, working: nat, ghost s: string, len: nat) returns (quoted: bool)
    requires Holds(buf, working, s) && len <= |s|
    ensures quoted == Escaped(s, len)
  {
    var bcount := 0;
    quoted := false;
    var prev := '\0';
    if len > 0 {
      prev := CharAt(buf, working, s, len - 1);
    }
    while bcount < len && prev == '\\'
      invariant bcount <= len
      invariant bcount < len ==> prev == s[len - 1 - bcount]
      invariant Backslashes(s, len) == bcount + Backslashes(s, len - bcount)
      invariant quoted == (bcount % 2 == 1)
      decreases len - bcount
    {
      quoted := !quoted;
      bcount := bcount + 1;
      if bcount < len {
        prev := CharAt(buf, working, s, len - 1 - bcount);
      }
    }
    ForwardIsBackward(s, len);
  }

  // ---------- removing escapes ----------

  function Dequoted(s: string): string
    decreases |s|
  {
    if s == "" then ""
    else if s[0] != '\\' then [s[0]] + Dequoted(s[1..])
    else if |s| == 1 then ""
    else [s[1]] + Dequoted(s[2..])
  }

  lemma {:induction false} DequotedCons(c: char, t: string)
    requires c != '\\'
    ensures Dequoted([c] + t) == [c] + Dequoted(t)
  {
    assert ([c] + t)[1..] == t;
  }

  lemma {:induction false} DequotedPair(c: char, t: string)
    ensures Dequoted(['\\', c] + t) == [c] + Dequoted(t)
  {
    assert (['\\', c] + t)[2..] == t;
  }

  predicate Special(c: char) { c == '\\' || c == '$' || c == '`' }

  /** Every backslash, dollar sign and back-quote gets a backslash. */
  function EscapeAll(s: string): string {
    if s == "" then "" else EscapeOne(s[0]) + EscapeAll(s[1..])
  }

  function EscapeOne(c: char): string { if Special(c) then ['\\', c] else [c] }

  lemma {:induction false} DequoteEscape(s: string, t: string)
    ensures Dequoted(EscapeAll(s) + t) == s + Dequoted(t)
    decreases |s|
  {
    if s == "" {
      assert EscapeAll(s) + t == t;
    } else {
      DequoteEscape(s[1..], t);
      DequoteEscapeOne(s[0], EscapeAll(s[1..]), s[1..], t);
      assert s == [s[0]] + s[1..];
    }
  }

  lemma {:induction false} DequoteEscapeOne(c: char, e: string, s: string, t: string)
    requires Dequoted(e + t) == s + Dequoted(t)
    ensures Dequoted((EscapeOne(c) + e) + t) == ([c] + s) + Dequoted(t)
  {
    assert (EscapeOne(c) + e) + t == EscapeOne(c) + (e + t);
    if Special(c) {
      DequotedPair(c, e + t);
    } else {
      DequotedCons(c, e + t);
    }
    assert [c] + (s + Dequoted(t)) == ([c] + s) + Dequoted(t);
  }

  /** A text does not end in an open escape. */
  predicate Balanced(s: string) { !Escaped(s, |s|) }

  lemma {:induction false} BalancedTail(s: string, k: nat)
    requires Balanced(s) && k <= |s| && !Escaped(s, k)
    ensures Balanced(s[k..])
  {
    EscapedSuffix(s, k, |s| - k);
  }

  lemma BalancedPair(s: string)
    requires Balanced(s) && s != "" && s[0] == '\\'
    ensures |s| >= 2 && Balanced(s[2..])
  {
    assert !Escaped(s, 0) && Escaped(s, 1);
    if |s| >= 2 {
      assert !Escaped(s, 2);
      BalancedTail(s, 2);
    }
  }

  /** Escapes are removed piece by piece, unless a piece ends in an open escape. */
  lemma {:induction false} DequoteConcat(s: string, t: string)
    requires Balanced(s)
    ensures Dequoted(s + t) == Dequoted(s) + Dequoted(t)
    decreases |s|
  {
    if s == "" {
      assert s + t == t;
    } else if s[0] != '\\' {
      var c, u := s[0], s[1..];
      assert !Escaped(s, 1);
      BalancedTail(s, 1);
      DequoteConcat(u, t);
      ConcatCons(c, u, t);
      assert s == [c] + u;
    } else {
      BalancedPair(s);
      var c, u := s[1], s[2..];
      DequoteConcat(u, t);
      ConcatPair(c, u, t);
      assert s == ['\\', c] + u;
    }
  }

  lemma {:induction false} ConcatCons(c: char, u: string, t: string)
    requires c != '\\' && Dequoted(u + t) == Dequoted(u) + Dequoted(t)
    ensures Dequoted(([c] + u) + t) == Dequoted([c] + u) + Dequoted(t)
  {
    DequotedCons(c, u);
    DequotedCons(c, u + t);
    Attach([c], u, t);
    Attach([c], Dequoted(u), Dequoted(t));
  }

  lemma Attach(a: string, b: string, c: string)
    ensures (a + b) + c == a + (b + c)
  {
  }

  lemma {:induction false} ConcatPair(c: char, u: string, t: string)
    requires Dequoted(u + t) == Dequoted(u) + Dequoted(t)
    ensures Dequoted((['\\', c] + u) + t) == Dequoted(['\\', c] + u) + Dequoted(t)
  {
    DequotedPair(c, u);
    DequotedPair(c, u + t);
    Attach(['\\', c], u, t);
    Attach([c], Dequoted(u), Dequoted(t));
  }

  lemma {:induction false} DequotePlain(s: string)
    requires '\\' !in s
    ensures Dequoted(s) == s
    decreases |s|
  {
    if s != "" {
      DequotePlain(s[1..]);
    }
  }

  /** What is left to do for the text `t`; `quoted` says that its first character is protected. */
  function Rest(t: string, quoted: bool): string {
    if quoted && t != "" then [t[0]] + Dequoted(t[1..]) else Dequoted(t)
  }

  lemma RestSkip(t: string)
    requires t != "" && t[0] == '\\'
    ensures Rest(t, false) == Rest(t[1..], true)
  {
    if |t| > 1 {
      assert t[1..][1..] == t[2..];
    }
  }

  /** What has been kept and what is left to do make up the result `goal`; kept closed. */
  ghost predicate Becomes(before: string, rest: string, quoted: bool, goal: string) {
    forall k :: Open(k) ==> before + Rest(rest, quoted) == goal
  }

  lemma BecomesSkip(before: string, rest: string, goal: string)
    requires Becomes(before, rest, false, goal) && rest != "" && rest[0] == '\\'
    ensures Becomes(before, rest[1..], true, goal)
  {
    assert Open(0);
    RestSkip(rest);
  }

  lemma {:induction false} BecomesPass(before: string, rest: string, quoted: bool, goal: string)
    requires Becomes(before, rest, quoted, goal) && rest != "" && (rest[0] != '\\' || quoted)
    ensures Becomes(before + [rest[0]], rest[1..], false, goal)
    ensures before + rest == (before + [rest[0]]) + rest[1..]
  {
    assert Open(0);
    RestPass(rest, quoted);
    var c, t := rest[0], rest[1..];
    HeadTail(rest);
    Regroup(before, c, Rest(t, false));
    Regroup(before, c, t);
  }

  lemma HeadTail(t: string)
    requires t != ""
    ensures t == [t[0]] + t[1..]
  {
  }

  lemma {:induction false} RestPass(t: string, quoted: bool)
    requires t != "" && (t[0] != '\\' || quoted)
    ensures Rest(t, quoted) == [t[0]] + Rest(t[1..], false)
  {
  }

  lemma Regroup(a: string, c: char, b: string)
    ensures a + ([c] + b) == a + [c] + b
  {
  }

  lemma BecomesDone(before: string, quoted: bool, goal: string)
    requires Becomes(before, "", quoted, goal)
    ensures before + "" == goal
  {
    assert Open(0);
  }

  // nsh_dequote on the text at `base`: each backslash that is not protected is removed by moving
  // the rest of the text down, and the character that follows is then passed over.
  method Dequote(buf: array<char>, base: nat, ghost s: string)
    requires Holds(buf, base, s)
    modifies buf
    ensures Holds(buf, base, Dequoted(s))
    ensures forall i :: 0 <= i < base ==> buf[i] == old(buf[i])
    ensures forall i :: base + |s| <= i < buf.Length ==> buf[i] == old(buf[i])
  {
    var ptr := base;
    ghost var before, rest, goal := "", s, Dequoted(s);
    var quoted := false;
    var c := CharAt(buf, base, s, 0);
    assert "" + s == s && "" + goal == goal;
    while c != '\0'
      invariant Holds(buf, base, before + rest) && ptr == base + |before|
      invariant if rest != "" then c == rest[0] && c != '\0' else c == '\0'
      invariant Becomes(before, rest, quoted, goal)
      invariant forall i :: 0 <= i < base ==> buf[i] == old(buf[i])
      invariant forall i :: base + |s| <= i < buf.Length ==> buf[i] == old(buf[i])
      invariant |before| + |rest| <= |s|
      decreases |rest|, !quoted
    {
      if c == '\\' && !quoted {
        BecomesSkip(before, rest, goal);
        MoveDown(buf, ptr, base, before, rest);
        rest := rest[1..];
        quoted := true;
      } else {
        BecomesPass(before, rest, quoted, goal);
        before, rest := before + [rest[0]], rest[1..];
        quoted := false;
        ptr := ptr + 1;
      }
      c := CharAt(buf, base, before + rest, ptr - base);
    }
    BecomesDone(before, quoted, goal);
  }
}
