/** The value of an argument: references to variables are replaced, then escapes are removed
    (nsh_argexpand). The text is taken to have no back-quote that is not escaped. */
module Expansion {
  import opened CBuffer
  import opened CText
  import opened Escapes
  import opened Guard

  const ARG_SEPARATORS := "`$"

  /** The values of variables; a variable that is not set has the value "". */
  type Environment = string -> string

  predicate Unprotected(s: string, i: nat)
    requires i < |s|
  {
    s[i] in ARG_SEPARATORS && !Escaped(s, i)
  }

  predicate NoBackquote(s: string) {
    forall i :: 0 <= i < |s| && s[i] == '`' ==> Escaped(s, i)
  }

  /** The first dollar sign or back-quote from `i` on that is not escaped, or the end. */
  function NextSpecial(s: string, i: nat): (k: nat)
    requires i <= |s|
    ensures i <= k <= |s| && (k < |s| ==> Unprotected(s, k))
    ensures forall j :: i <= j < k ==> !Unprotected(s, j)
    decreases |s| - i
  {
    if i == |s| || Unprotected(s, i) then i else NextSpecial(s, i + 1)
  }

  /** What follows a dollar sign: a variable name and the text behind the reference. Without
      braces the name goes to the end of the argument. */
  datatype Reference = Reference(name: string, rest: string) | NoBrace

  function ReferenceAt(s: string, k: nat): (r: Reference)
    requires k < |s|
    ensures r.Reference? ==> |r.rest| < |s|
  {
    if k + 1 < |s| && s[k + 1] == '{' then
      match FindUnescaped(s, k + 2, '}', false)
      case None => NoBrace
      case Some(e) => Reference(s[k + 2..e], s[e + 1..])
    else Reference(s[k + 1..], "")
  }

  /** The text with every reference replaced by the value of its variable. */
  function Expand(s: string, env: Environment): Option<string>
    decreases |s|
  {
    var k := NextSpecial(s, 0);
    if k == |s| then Some(s)
    else
      match ReferenceAt(s, k)
      case NoBrace => None
      case Reference(name, rest) => Prefixed(s[..k] + env(name), Expand(rest, env))
  }

  function Prefixed(a: string, e: Option<string>): Option<string> {
    match e
    case None => None
    case Some(r) => Some(a + r)
  }

  lemma PrefixedTwice(a: string, b: string, e: Option<string>)
    ensures Prefixed(a, Prefixed(b, e)) == Prefixed(a + b, e)
  {
    if e.Some? {
      assert a + (b + e.value) == a + b + e.value;
    }
  }

  /** An unclosed brace makes the whole argument empty. */
  function ArgValue(s: string, env: Environment): string {
    match Expand(s, env)
    case None => ""
    case Some(r) => Dequoted(r)
  }

  // ---------- the loops ----------

  lemma {:induction false} NextSkip(s: string, i: nat, k: nat)
    requires i <= k <= |s| && forall j :: i <= j < k ==> !Unprotected(s, j)
    ensures NextSpecial(s, i) == NextSpecial(s, k)
    decreases k - i
  {
    if i < k {
      NextSkip(s, i + 1, k);
    }
  }

  // The search for something to expand: find a separator, count the backslashes before it, and
  // go on behind it when it is escaped. Positions are relative to `working`.
  method FindSpecial(buf: array<char>, working: nat, ghost s: string) returns (len: nat)
    requires Holds(buf, working, s)
    ensures len == NextSpecial(s, 0)
  {
    len := Strcspn(buf, working, s, 0, ARG_SEPARATORS);
    NextSkip(s, 0, len);
    var c := CharAt(buf, working, s, len);
    while len > 0 && c != '\0'
      invariant len <= |s| && NextSpecial(s, 0) == NextSpecial(s, len)
      invariant if len < |s| then c == s[len] && c != '\0' && c in ARG_SEPARATORS else c == '\0'
      decreases |s| - len
    {
      var quoted := IsQuoted(buf, working, s, len);
      if !quoted {
        return;
      }
      var next := Strcspn(buf, working, s, len + 1, ARG_SEPARATORS);
      NextSkip(s, len, next);
      len := next;
      c := CharAt(buf, working, s, len);
    }
  }

  /** Expanding `s` comes to `acc` followed by the expansion of `rest`; kept closed. */
  ghost predicate Expands(s: string, env: Environment, acc: string, rest: string) {
    forall k :: Open(k) ==> Expand(s, env) == Prefixed(acc, Expand(rest, env))
  }

  lemma ExpandsStart(s: string, env: Environment)
    ensures Expands(s, env, "", s)
  {
    var e := Expand(s, env);
    if e.Some? {
      assert "" + e.value == e.value;
    }
  }

  lemma {:induction false} ExpandOne(s: string, env: Environment, k: nat, name: string, rest: string)
    requires k == NextSpecial(s, 0) && k < |s| && ReferenceAt(s, k) == Reference(name, rest)
    ensures Expand(s, env) == Prefixed(s[..k] + env(name), Expand(rest, env))
  {
  }

  lemma {:induction false} ExpandsStep(s: string, env: Environment, acc: string, rest: string, k: nat, name: string,
                                       rest': string)
    requires Expands(s, env, acc, rest) && k == NextSpecial(rest, 0) && k < |rest|
    requires ReferenceAt(rest, k) == Reference(name, rest')
    ensures Expands(s, env, acc + (rest[..k] + env(name)), rest')
  {
    assert Expand(s, env) == Prefixed(acc, Expand(rest, env)) by {
      assert Open(0);
    }
    ExpandOne(rest, env, k, name, rest');
    PrefixedTwice(acc, rest[..k] + env(name), Expand(rest', env));
  }

  lemma {:induction false} ExpandsEnd(s: string, env: Environment, acc: string, rest: string)
    requires Expands(s, env, acc, rest)
    ensures var k := NextSpecial(rest, 0);
      && (k == |rest| ==> ArgValue(s, env) == Dequoted(acc + rest))
      && (k < |rest| && ReferenceAt(rest, k).NoBrace? ==> ArgValue(s, env) == "")
  {
    assert Open(0);
  }

  /** What follows a reference has no free back-quote either. */
  lemma {:induction false} NoBackquoteTail(s: string, w: nat)
    requires NoBackquote(s) && w <= |s| && !Escaped(s, w)
    ensures NoBackquote(s[w..])
  {
    forall i | 0 <= i < |s[w..]| && s[w..][i] == '`'
      ensures Escaped(s[w..], i)
    {
      EscapedSuffix(s, w, i);
    }
  }

  // The reference at position `k` of the text at `working`. The dollar sign and the closing
  // brace are overwritten with NUL; the text behind the reference is at `next`.
  method TakeReference(buf: array<char>, working: nat, ghost s: string, k: nat)
      returns (found: bool, name: string, next: nat, ghost rest: string)
    requires Holds(buf, working, s) && k < |s| && NoBackquote(s)
    modifies buf
    ensures found <==> ReferenceAt(s, k).Reference?
    ensures found ==> ReferenceAt(s, k) == Reference(name, rest)
    ensures found ==> Holds(buf, next, rest) && next > working && next + |rest| == working + |s| && NoBackquote(rest)
    ensures forall i :: 0 <= i < working ==> buf[i] == old(buf[i])
    ensures forall i :: working + |s| <= i < buf.Length ==> buf[i] == old(buf[i])
  {
    var c := CharAt(buf, working, s, k + 1);
    if c == '{' {
      found, name, next, rest := TakeBraced(buf, working, s, k);
    } else {
      found := true;
      var n := Strcspn(buf, working, s, k + 1, "");
      name := Between(buf, working, s, k + 1, n);
      Later(buf, working, s, n);
      next, rest := working + n, "";
      buf[working + k] := '\0';
    }
  }

  method TakeBraced(buf: array<char>, working: nat, ghost s: string, k: nat)
      returns (found: bool, name: string, next: nat, ghost rest: string)
    requires Holds(buf, working, s) && k + 1 < |s| && s[k + 1] == '{' && NoBackquote(s)
    modifies buf
    ensures found <==> ReferenceAt(s, k).Reference?
    ensures found ==> ReferenceAt(s, k) == Reference(name, rest)
    ensures found ==> Holds(buf, next, rest) && next > working && next + |rest| == working + |s| && NoBackquote(rest)
    ensures forall i :: 0 <= i < working ==> buf[i] == old(buf[i])
    ensures forall i :: working + |s| <= i < buf.Length ==> buf[i] == old(buf[i])
  {
    var e := StrChr(buf, working, s, k + 2, '}');
    if e == None {
      return false, "", working, "";
    }
    found := true;
    name := Between(buf, working, s, k + 2, e.value);
    next, rest := Cut(buf, working, s, e.value);
    buf[working + k] := '\0';
  }

  // Writes a NUL over the closing brace at `e`; the text behind it stays where it is.
  method Cut(buf: array<char>, working: nat, ghost s: string, e: nat) returns (next: nat, ghost rest: string)
    requires Holds(buf, working, s) && e < |s| && s[e] == '}' && NoBackquote(s)
    modifies buf
    ensures rest == s[e + 1..] && next == working + e + 1 && Holds(buf, next, rest) && NoBackquote(rest)
    ensures forall i :: 0 <= i < working ==> buf[i] == old(buf[i])
    ensures forall i :: working + |s| <= i < buf.Length ==> buf[i] == old(buf[i])
  {
    next, rest := working + e + 1, s[e + 1..];
    Later(buf, working, s, e + 1);
    NoBackquoteTail(s, e + 1);
    buf[working + e] := '\0';
  }

  /** A piece of the text, copied out of the buffer. */
  method Between(buf: array<char>, working: nat, ghost s: string, i: nat, j: nat) returns (t: string)
    requires Holds(buf, working, s) && i <= j <= |s|
    ensures t == s[i..j] && NulFree(t)
  {
    Later(buf, working, s, i);
    Taken(buf, working + i, s[i..], j - i);
    t := buf[working + i..working + j];
    assert s[i..][..j - i] == s[i..j];
  }

  // nsh_dequote on a string of its own.
  method DequoteCopy(s: string) returns (r: string)
    requires NulFree(s)
    ensures r == Dequoted(s)
  {
    var t := s + ['\0'];
    var buf := new char[|t|](i requires 0 <= i < |t| => t[i]);
    assert buf[0..|s|] == s;
    Dequote(buf, 0, s);
    r := TakeAll(buf, 0, Dequoted(s));
  }

  // nsh_argexpand. The result is the text at `base` itself, with its escapes removed in place,
  // or a concatenation of its own when something has been replaced.
  method ArgExpand(buf: array<char>, base: nat, ghost s: string, env: Environment) returns (res: string)
    requires Holds(buf, base, s) && NoBackquote(s)
    requires forall name :: NulFree(env(name))
    modifies buf
    ensures res == ArgValue(s, env)
    ensures forall i :: 0 <= i < base || base + |s| <= i < buf.Length ==> buf[i] == old(buf[i])
  {
    var working := base;
    ghost var rest := s;
    var argument: Option<string> := None;
    ghost var acc := "";
    ExpandsStart(s, env);
    while true
      invariant base <= working && Holds(buf, working, rest) && NoBackquote(rest)
      invariant Expands(s, env, acc, rest)
      invariant if argument.None? then working == base && rest == s && acc == "" else acc == argument.value
      invariant NulFree(acc)
      invariant working + |rest| == base + |s|
      invariant forall i :: 0 <= i < base || base + |s| <= i < buf.Length ==> buf[i] == old(buf[i])
      decreases |rest|
    {
      var len := FindSpecial(buf, working, rest);
      ExpandsEnd(s, env, acc, rest);
      var c := CharAt(buf, working, rest, len);
      if c == '\0' {
        res := Finish(buf, base, working, s, rest, argument);
        return;
      }
      var found, text, name;
      ghost var before := rest;
      text := Between(buf, working, before, 0, len);
      found, name, working, rest := TakeReference(buf, working, before, len);
      if !found {
        return "";
      }
      ExpandsStep(s, env, acc, before, len, name, rest);
      argument, acc := Extend(argument, text, env(name), acc);
    }
  }

  // The concatenation is allocated when the first reference is met.
  method Extend(argument: Option<string>, text: string, value: string, ghost acc: string)
      returns (argument': Option<string>, ghost acc': string)
    requires acc == (if argument.Some? then argument.value else "") && NulFree(acc) && NulFree(text) && NulFree(value)
    ensures acc' == acc + (text + value) && NulFree(acc') && argument' == Some(acc')
  {
    argument' := Some((if argument.Some? then argument.value else "") + (text + value));
    acc' := argument'.value;
  }

  // Nothing is left to replace: add the last part and remove the escapes.
  method Finish(buf: array<char>, base: nat, working: nat, ghost s: string, ghost rest: string,
                argument: Option<string>) returns (res: string)
    requires Holds(buf, working, rest) && base <= working
    requires argument.None? ==> working == base && rest == s
    requires argument.Some? ==> NulFree(argument.value)
    modifies buf
    ensures res == if argument.Some? then Dequoted(argument.value + rest) else Dequoted(rest)
    ensures forall i :: 0 <= i < base || working + |rest| <= i < buf.Length ==> buf[i] == old(buf[i])
  {
    if argument.Some? {
      var tail := TakeAll(buf, working, rest);
      res := DequoteCopy(argument.value + tail);
    } else {
      Dequote(buf, base, rest);
      res := TakeAll(buf, base, Dequoted(rest));
    }
  }

  // ---------- what the value is ----------

  /** A text in which everything special is escaped has itself as its value. */
  lemma {:induction false} EscapeAllQuiet(s: string, i: nat)
    requires i <= |EscapeAll(s)|
    ensures i < |EscapeAll(s)| ==> !Unprotected(EscapeAll(s), i)
    ensures i == |EscapeAll(s)| ==> !Escaped(EscapeAll(s), i)
    decreases |s|
  {
    if s != "" {
      var e := EscapeAll(s[1..]);
      var n := |EscapeOne(s[0])|;
      assert EscapeAll(s) == EscapeOne(s[0]) + e;
      EscapeHead(s[0], e);
      if i >= n {
        EscapeAllQuiet(s[1..], i - n);
        EscapedSuffix(EscapeAll(s), n, i - n);
        assert EscapeAll(s)[n..] == e;
      }
    }
  }

  lemma EscapeHead(c: char, e: string)
    ensures var s := EscapeOne(c) + e;
            && !Escaped(s, |EscapeOne(c)|)
            && forall i :: 0 <= i < |EscapeOne(c)| ==> !Unprotected(s, i)
  {
    var s := EscapeOne(c) + e;
    assert !Escaped(s, 0);
    if Special(c) {
      assert s[0] == '\\' && s[1] == c && Escaped(s, 1);
    } else {
      assert s[0] == c;
    }
  }

  /** For every text: escaping it and taking its value gives it back. */
  lemma {:induction false} EscapeRoundTrip(s: string, env: Environment)
    ensures NoBackquote(EscapeAll(s)) && ArgValue(EscapeAll(s), env) == s
  {
    var e := EscapeAll(s);
    forall i | 0 <= i < |e|
      ensures !Unprotected(e, i)
    {
      EscapeAllQuiet(s, i);
    }
    forall i | 0 <= i < |e| && e[i] == '`'
      ensures Escaped(e, i)
    {
      assert ARG_SEPARATORS[0] == e[i];
      assert !Unprotected(e, i);
    }
    NextSkip(e, 0, |e|);
    DequoteEscape(s, "");
    assert e + "" == e && s + Dequoted("") == s;
  }

  // ---------- templates ----------

  /** A text with variables in it: what a user of `${NAME}` means to write. */
  datatype Part = Literal(text: string) | Variable(name: string)

  /** How a template is written: literal text escaped, variables in braces. */
  function Written(parts: seq<Part>): string {
    if parts == [] then "" else WrittenPart(parts[0]) + Written(parts[1..])
  }

  function WrittenPart(p: Part): string {
    match p
    case Literal(text) => EscapeAll(text)
    case Variable(name) => "${" + name + "}"
  }

  /** What it stands for. */
  function Meant(parts: seq<Part>, env: Environment): string {
    if parts == [] then "" else MeantPart(parts[0], env) + Meant(parts[1..], env)
  }

  function MeantPart(p: Part, env: Environment): string {
    match p
    case Literal(text) => text
    case Variable(name) => Dequoted(env(name))
  }

  /** Names without braces and backslashes, values that do not end in an open escape. */
  predicate Usable(p: Part, env: Environment) {
    p.Variable? ==> '}' !in p.name && '\\' !in p.name && Balanced(env(p.name))
  }

  /** The expansion of a written template, before escapes are removed. */
  function Expanded(parts: seq<Part>, env: Environment): string {
    if parts == [] then "" else ExpandedPart(parts[0], env) + Expanded(parts[1..], env)
  }

  function ExpandedPart(p: Part, env: Environment): string {
    match p
    case Literal(text) => EscapeAll(text)
    case Variable(name) => env(name)
  }

  lemma {:induction false} FindBrace(name: string, pre: string, post: string, i: nat)
    requires |pre| <= i <= |pre| + |name| && '}' !in name && '\\' !in name
    ensures FindUnescaped(pre + name + "}" + post, i, '}', false) == Some(|pre| + |name|)
    decreases |pre| + |name| - i
  {
    var s := pre + name + "}" + post;
    if i < |pre| + |name| {
      assert s[i] == name[i - |pre|] && s[i] in name;
      FindBrace(name, pre, post, i + 1);
    } else {
      assert s[i] == '}';
    }
  }

  /** Escaped text in front changes nothing in what follows it. */
  lemma {:induction false} ExpandAfterLiteral(text: string, t: string, env: Environment)
    ensures Expand(EscapeAll(text) + t, env) == Prefixed(EscapeAll(text), Expand(t, env))
  {
    var e := EscapeAll(text);
    var s := e + t;
    forall i | 0 <= i < |e|
      ensures !Unprotected(s, i)
    {
      EscapeAllQuiet(text, i);
      EscapedPrefix(e, t, i);
    }
    EscapeAllQuiet(text, |e|);
    EscapedPrefix(e, t, |e|);
    ExpandShifted(e, t, env);
  }

  lemma {:induction false} ExpandShifted(e: string, t: string, env: Environment)
    requires !Escaped(e + t, |e|) && forall i :: 0 <= i < |e| ==> !Unprotected(e + t, i)
    ensures Expand(e + t, env) == Prefixed(e, Expand(t, env))
  {
    NextSkip(e + t, 0, |e|);
    NextShifted(e, t, 0);
    var k := NextSpecial(t, 0);
    if k < |t| {
      ReferenceShifted(e, t, k);
      match ReferenceAt(t, k)
      case NoBrace => ExpandFails(t, env, k); ExpandFails(e + t, env, |e| + k);
      case Reference(name, rest) => ExpandShiftedBy(e, t, env, k, name, rest);
    } else {
      ExpandNothing(t, env);
      ExpandNothing(e + t, env);
    }
  }

  lemma {:induction false} ExpandNothing(s: string, env: Environment)
    requires NextSpecial(s, 0) == |s|
    ensures Expand(s, env) == Some(s)
  {
  }

  lemma {:induction false} ExpandFails(s: string, env: Environment, k: nat)
    requires k == NextSpecial(s, 0) && k < |s| && ReferenceAt(s, k) == NoBrace
    ensures Expand(s, env) == None
  {
  }

  lemma {:induction false} ExpandShiftedBy(e: string, t: string, env: Environment, k: nat, name: string, rest: string)
    requires k == NextSpecial(t, 0) && k < |t| && ReferenceAt(t, k) == Reference(name, rest)
    requires NextSpecial(e + t, 0) == |e| + k && ReferenceAt(e + t, |e| + k) == Reference(name, rest)
    ensures Expand(e + t, env) == Prefixed(e, Expand(t, env))
  {
    ExpandOne(t, env, k, name, rest);
    ExpandOne(e + t, env, |e| + k, name, rest);
    FrontOf(e, t, k, env(name));
    PrefixedTwice(e, t[..k] + env(name), Expand(rest, env));
  }

  lemma FrontOf(e: string, t: string, k: nat, v: string)
    requires k <= |t|
    ensures (e + t)[..|e| + k] + v == e + (t[..k] + v)
  {
  }

  lemma {:induction false} NextShifted(e: string, t: string, i: nat)
    requires i <= |t| && !Escaped(e + t, |e|)
    ensures NextSpecial(e + t, |e| + i) == |e| + NextSpecial(t, i)
    decreases |t| - i
  {
    if i < |t| {
      EscapedSuffix(e + t, |e|, i);
      assert (e + t)[|e|..] == t;
      NextShifted(e, t, i + 1);
    }
  }

  lemma {:induction false} FindShifted(e: string, t: string, i: nat, ch: char, quoted: bool)
    requires i <= |t|
    ensures FindUnescaped(e + t, |e| + i, ch, quoted) ==
            (match FindUnescaped(t, i, ch, quoted) case None => None case Some(k) => Some(|e| + k))
    decreases |t| - i
  {
    if i < |t| {
      if t[i] == '\\' && !quoted {
        FindShifted(e, t, i + 1, ch, true);
      } else if !(t[i] == ch && !quoted) {
        FindShifted(e, t, i + 1, ch, false);
      }
    }
  }

  lemma {:induction false} ReferenceShifted(e: string, t: string, k: nat)
    requires k < |t|
    ensures ReferenceAt(e + t, |e| + k) == ReferenceAt(t, k)
  {
    if k + 1 < |t| && t[k + 1] == '{' {
      FindShifted(e, t, k + 2, '}', false);
      var f := FindUnescaped(t, k + 2, '}', false);
      if f.Some? {
        assert (e + t)[|e| + k + 2..|e| + f.value] == t[k + 2..f.value];
        assert (e + t)[|e| + f.value + 1..] == t[f.value + 1..];
      }
    } else {
      assert (e + t)[|e| + k + 1..] == t[k + 1..];
    }
  }

  lemma {:induction false} ExpandVariable(name: string, t: string, env: Environment)
    requires '}' !in name && '\\' !in name
    ensures Expand("${" + name + "}" + t, env) == Prefixed(env(name), Expand(t, env))
  {
    var s := "${" + name + "}" + t;
    FindBrace(name, "${", t, 2);
    assert s[0] == ARG_SEPARATORS[1] && Unprotected(s, 0);
    assert s[2..2 + |name|] == name && s[2 + |name| + 1..] == t;
    ExpandOne(s, env, 0, name, t);
    assert s[..0] + env(name) == env(name);
  }

  /** A template may end in a reference without braces, of which the name goes to the end of the text. */
  function WrittenTo(parts: seq<Part>, last: Option<string>): string { Written(parts) + Bare(last) }

  function Bare(last: Option<string>): string { if last.Some? then "$" + last.value else "" }

  function MeantTo(parts: seq<Part>, last: Option<string>, env: Environment): string {
    Meant(parts, env) + if last.Some? then Dequoted(env(last.value)) else ""
  }

  predicate UsableTo(parts: seq<Part>, last: Option<string>, env: Environment) {
    && (forall i :: 0 <= i < |parts| ==> Usable(parts[i], env))
    && (last.Some? && last.value != "" ==> last.value[0] != '{')
  }

  /** The last reference takes everything that follows the dollar sign as its name. */
  lemma {:induction false} ExpandBare(last: Option<string>, env: Environment)
    requires last.Some? && last.value != "" ==> last.value[0] != '{'
    ensures Expand(Bare(last), env) == Some(if last.Some? then env(last.value) else "")
  {
    assert Expand("", env) == Some("");
    if last.Some? {
      var s := Bare(last);
      assert s[0] == ARG_SEPARATORS[1] && Unprotected(s, 0);
      assert s[1..] == last.value && s[..0] + env(last.value) == env(last.value);
      ExpandOne(s, env, 0, last.value, "");
      assert env(last.value) + "" == env(last.value);
    }
  }

  lemma {:induction false} ExpandPart(p: Part, t: string, env: Environment)
    requires Usable(p, env)
    ensures Expand(WrittenPart(p) + t, env) == Prefixed(ExpandedPart(p, env), Expand(t, env))
  {
    match p
    case Literal(text) => ExpandAfterLiteral(text, t, env);
    case Variable(name) => ExpandVariable(name, t, env);
  }

  lemma {:induction false} ExpandWritten(parts: seq<Part>, t: string, env: Environment)
    requires forall i :: 0 <= i < |parts| ==> Usable(parts[i], env)
    ensures Expand(Written(parts) + t, env) == Prefixed(Expanded(parts, env), Expand(t, env))
    decreases |parts|
  {
    if parts == [] {
      assert Written(parts) + t == t;
      PrefixedNothing(Expand(t, env));
    } else {
      var p, rest := parts[0], parts[1..];
      assert Usable(p, env);
      ExpandWritten(rest, t, env);
      Attach(WrittenPart(p), Written(rest), t);
      ExpandPart(p, Written(rest) + t, env);
      PrefixedTwice(ExpandedPart(p, env), Expanded(rest, env), Expand(t, env));
    }
  }

  lemma PrefixedNothing(e: Option<string>)
    ensures Prefixed("", e) == e
  {
    assert e.Some? ==> "" + e.value == e.value;
  }

  lemma {:induction false} DequotePart(p: Part, t: string, env: Environment)
    requires Usable(p, env)
    ensures Dequoted(ExpandedPart(p, env) + t) == MeantPart(p, env) + Dequoted(t)
  {
    match p
    case Literal(text) => DequoteEscape(text, t);
    case Variable(name) => DequoteConcat(env(name), t);
  }

  lemma {:induction false} DequoteExpanded(parts: seq<Part>, t: string, env: Environment)
    requires forall i :: 0 <= i < |parts| ==> Usable(parts[i], env)
    ensures Dequoted(Expanded(parts, env) + t) == Meant(parts, env) + Dequoted(t)
    decreases |parts|
  {
    if parts == [] {
      assert Expanded(parts, env) + t == t;
    } else {
      var p, rest := parts[0], parts[1..];
      assert Usable(p, env);
      DequoteExpanded(rest, t, env);
      Attach(ExpandedPart(p, env), Expanded(rest, env), t);
      DequotePart(p, Expanded(rest, env) + t, env);
      Attach(MeantPart(p, env), Meant(rest, env), Dequoted(t));
    }
  }

  /** For every template: writing it and taking the value of what is written gives what it stands
      for. The values of variables lose their escapes, like the rest of the argument. */
  lemma {:induction false} TemplateRoundTrip(parts: seq<Part>, last: Option<string>, env: Environment)
    requires UsableTo(parts, last, env)
    ensures ArgValue(WrittenTo(parts, last), env) == MeantTo(parts, last, env)
  {
    var v := if last.Some? then env(last.value) else "";
    ExpandWritten(parts, Bare(last), env);
    ExpandBare(last, env);
    DequoteExpanded(parts, v, env);
  }

  /** In particular: a dollar sign without a brace names the variable of all that follows it. */
  lemma {:induction false} UnbracedRoundTrip(text: string, name: string, env: Environment)
    requires name != "" ==> name[0] != '{'
    ensures ArgValue(EscapeAll(text) + "$" + name, env) == text + Dequoted(env(name))
  {
    var t := Bare(Some(name));
    Attach(EscapeAll(text), "$", name);
    ExpandAfterLiteral(text, t, env);
    ExpandBare(Some(name), env);
    DequoteEscape(text, env(name));
  }

  /** And a brace that is not closed makes the whole argument empty, whatever stands before it. */
  lemma {:induction false} UnclosedBrace(parts: seq<Part>, t: string, env: Environment)
    requires (forall i :: 0 <= i < |parts| ==> Usable(parts[i], env)) && '}' !in t
    ensures ArgValue(Written(parts) + ("${" + t), env) == ""
  {
    var s := "${" + t;
    ExpandWritten(parts, s, env);
    assert s[0] == ARG_SEPARATORS[1] && Unprotected(s, 0);
    NoneFound(s, 2, '}', false);
    ExpandFails(s, env, 0);
  }

  lemma {:induction false} NoneFound(s: string, i: nat, ch: char, quoted: bool)
    requires i <= |s| && forall j :: i <= j < |s| ==> s[j] != ch
    ensures FindUnescaped(s, i, ch, quoted) == None
    decreases |s| - i
  {
    if i < |s| {
      if s[i] == '\\' && !quoted {
        NoneFound(s, i + 1, ch, true);
      } else {
        NoneFound(s, i + 1, ch, false);
      }
    }
  }
}
