/** Taking the arguments of a command one after the other (nsh_argument), with pipelines and
    quoting. Quotation marks are removed in place, so the text behind them moves while
    it is being read. */
module Arguments {
  import opened CBuffer
  import opened CText
  import opened Expansion
  import opened Guard

  const TOKEN_SEPARATORS := " \t\n"

  predicate IsMark(c: char) { c == '\'' || c == '"' || c == '`' }
  predicate IsBlank(c: char) { c == ' ' || c == '\t' || c == '\n' }

  /** A token: its text without quotation marks, what is left of the line, and whether some of
      it was in single quotes. */
  datatype Token = Token(text: string, rest: string, squote: bool) | NoMatch

  /** The character before the one that is looked at: the last one of the token, or the one that
      stands before the token in the buffer. */
  function Before(lead: char, tok: string): char {
    if tok == "" then lead else tok[|tok| - 1]
  }

  // The scan for the end of a token. `tok` is what has been kept of it, `s` is the text to
  // come; at the `first` character there is no character before.
  function ScanToken(lead: char, tok: string, s: string, first: bool, escaped: bool, squote: bool): Token
    decreases |s|
  {
    if s == "" then Token(tok, "", squote)
    else if !first && Before(lead, tok) == '\\' && !escaped then
      ScanToken(lead, tok + [s[0]], s[1..], false, true, squote)
    else if s[0] == '\\' then
      ScanToken(lead, tok + [s[0]], s[1..], false, false, squote)
    else if IsMark(s[0]) then
      match FindUnescaped(s, 1, s[0], false)
      case None => NoMatch
      case Some(k) =>
        if s[0] == '`' then ScanToken(lead, tok + s[..k + 1], s[k + 1..], false, false, squote)
        else ScanToken(lead, tok + s[1..k], s[k + 1..], false, false, squote || s[0] == '\'')
    else if IsBlank(s[0]) then Token(tok, s[1..], squote)
    else ScanToken(lead, tok + [s[0]], s[1..], false, false, squote)
  }

  /** The next argument, the text behind it and the character before that text. */
  datatype Argument = Nothing | Argument(value: string, lead: char, rest: string)

  function SkipBlanks(s: string): (i: nat)
    ensures i <= |s| && (i < |s| ==> !IsBlank(s[i]))
    decreases |s|
  {
    if s == "" || !IsBlank(s[0]) then 0 else 1 + SkipBlanks(s[1..])
  }

  function TokenAt(lead: char, s: string): Token {
    ScanToken(lead, "", s, true, false, false)
  }

  function NextArgument(lead: char, s: string, env: Environment): Argument {
    var i := SkipBlanks(s);
    if i == |s| || s[i] == '#' then Nothing
    else if s[i] == '|' then Argument("|", '|', s[i + 1..])
    else
      match TokenAt(if i == 0 then lead else s[i - 1], s[i..])
      case NoMatch => Nothing
      case Token(text, rest, squote) => Argument(if squote then text else ArgValue(text, env), '\0', rest)
  }

  lemma {:induction false} ScanShrinks(lead: char, tok: string, s: string, first: bool, escaped: bool, squote: bool)
    ensures var t := ScanToken(lead, tok, s, first, escaped, squote);
            t.Token? ==> |t.rest| <= |s| && (s != "" ==> |t.rest| < |s|)
    decreases |s|
  {
    if s == "" {
    } else if !first && Before(lead, tok) == '\\' && !escaped {
      ScanShrinks(lead, tok + [s[0]], s[1..], false, true, squote);
    } else if s[0] == '\\' {
      ScanShrinks(lead, tok + [s[0]], s[1..], false, false, squote);
    } else if IsMark(s[0]) {
      match FindUnescaped(s, 1, s[0], false)
      case None =>
      case Some(k) =>
        ScanShrinks(lead, tok + s[..k + 1], s[k + 1..], false, false, squote);
        ScanShrinks(lead, tok + s[1..k], s[k + 1..], false, false, squote || s[0] == '\'');
    } else if !IsBlank(s[0]) {
      ScanShrinks(lead, tok + [s[0]], s[1..], false, false, squote);
    }
  }

  lemma NextShrinks(lead: char, s: string, env: Environment)
    ensures var a := NextArgument(lead, s, env); a.Argument? ==> |a.rest| < |s|
  {
    var i := SkipBlanks(s);
    ScanShrinks(if i == 0 then lead else s[i - 1], "", s[i..], true, false, false);
  }

  /** All arguments of a command. */
  function AllArguments(lead: char, s: string, env: Environment): seq<string>
    decreases |s|
  {
    match NextArgument(lead, s, env)
    case Nothing => []
    case Argument(value, lead', rest) =>
      NextShrinks(lead, s, env);
      [value] + AllArguments(lead', rest, env)
  }

  // ---------- removing a pair of quotation marks ----------

  // nsh_rmquotes: the text from behind `qbegin` moves down by one up to `qend`, and by two from
  // there on. `s` is the text from `qbegin`, which stands behind `tok`.
  method RemoveQuotes(buf: array<char>, qbegin: nat, qend: nat, ghost base: nat, ghost tok: string, ghost s: string,
                      ghost k: nat)
    requires Holds(buf, base, tok + s) && qbegin == base + |tok|
    requires 0 < k < |s| && qend == qbegin + k
    modifies buf
    ensures Holds(buf, base, tok + s[1..k] + s[k + 1..])
    ensures forall i :: 0 <= i < base ==> buf[i] == old(buf[i])
  {
    ghost var all := tok + s;
    ghost var end := base + |all|;
    ghost var b := buf[..];
    HeldEach(buf, base, all);
    var dst, ptr := qbegin, qbegin + 1;
    var more := true;
    while more
      invariant qbegin <= dst && ptr == (if dst < qend then dst + 1 else dst + 2)
      invariant more ==> dst < end - 1
      invariant !more ==> dst == end - 1 && b[end] == '\0'
      invariant forall i :: 0 <= i < buf.Length && !(qbegin <= i < dst) ==> buf[i] == b[i]
      invariant forall i :: qbegin <= i < dst ==> buf[i] == b[if i < qend - 1 then i + 1 else i + 2]
      decreases end - dst
    {
      if ptr == qend {
        ptr := ptr + 1;
      }
      var ch := buf[ptr];
      buf[dst] := ch;
      ptr := ptr + 1;
      dst := dst + 1;
      more := ch != '\0';
    }
    QuotesGone(b, buf[..], base, tok, s, k);
  }

  lemma QuotesGone(b: seq<char>, c: seq<char>, base: nat, tok: string, s: string, k: nat)
    requires |b| == |c| && 0 < k < |s| && base + |tok + s| < |b|
    requires forall i :: base <= i < base + |tok + s| ==> b[i] == (tok + s)[i - base] && b[i] != '\0'
    requires b[base + |tok + s|] == '\0'
    requires var q := base + |tok|;
      && (forall i :: base <= i < q ==> c[i] == b[i])
      && (forall i :: q <= i < base + |tok + s| - 1 ==> c[i] == b[if i < q + k - 1 then i + 1 else i + 2])
    ensures var r := tok + s[1..k] + s[k + 1..];
            c[base..base + |r|] == r && c[base + |r|] == '\0' && NulFree(r)
  {
    var r := tok + s[1..k] + s[k + 1..];
    var q := base + |tok|;
    assert |r| == |tok + s| - 2;
    forall i | base <= i < base + |r|
      ensures c[i] == r[i - base] && c[i] != '\0'
    {
      if i >= q {
        var j := if i < q + k - 1 then i + 1 else i + 2;
        assert b[j] == (tok + s)[j - base] == s[j - q];
      }
    }
    forall i | 0 <= i < |r|
      ensures c[base..base + |r|][i] == r[i] && r[i] != '\0'
    {
      assert c[base + i] == r[i];
    }
  }

  // ---------- the scan in the buffer ----------

  /** The scan that goes on with `tok` and `s` ends in `goal`; kept closed, see `Guard`. */
  ghost predicate Scans(lead: char, tok: string, s: string, first: bool, escaped: bool, squote: bool, goal: Token) {
    forall k :: Open(k) ==> ScanToken(lead, tok, s, first, escaped, squote) == goal
  }

  /** One character that is kept: escaped, a backslash, or nothing special. */
  lemma ScansKeep(lead: char, tok: string, s: string, first: bool, escaped: bool, squote: bool, goal: Token)
    requires Scans(lead, tok, s, first, escaped, squote, goal) && s != ""
    ensures var protected := !first && Before(lead, tok) == '\\' && !escaped;
      protected || !(IsMark(s[0]) || IsBlank(s[0])) ==>
        Scans(lead, tok + [s[0]], s[1..], false, protected, squote, goal)
  {
    assert Open(0);
  }

  lemma ScansEnd(lead: char, tok: string, s: string, first: bool, escaped: bool, squote: bool, goal: Token)
    requires Scans(lead, tok, s, first, escaped, squote, goal)
    ensures s == "" ==> goal == Token(tok, "", squote)
    ensures s != "" && !(!first && Before(lead, tok) == '\\' && !escaped) && IsBlank(s[0]) ==>
      goal == Token(tok, s[1..], squote)
  {
    assert Open(0);
  }

  lemma {:induction false} ScansMark(lead: char, tok: string, s: string, first: bool, escaped: bool, squote: bool,
                                     goal: Token)
    requires Scans(lead, tok, s, first, escaped, squote, goal)
    requires s != "" && IsMark(s[0]) && !(!first && Before(lead, tok) == '\\' && !escaped)
    ensures match FindUnescaped(s, 1, s[0], false)
      case None => goal == NoMatch
      case Some(k) =>
        if s[0] == '`' then Scans(lead, tok + s[..k + 1], s[k + 1..], false, false, squote, goal)
        else Scans(lead, tok + s[1..k], s[k + 1..], false, false, squote || s[0] == '\'', goal)
  {
    assert Open(0);
  }

  lemma KeepQuotes(tok: string, s: string, k: nat)
    requires k <= |s|
    ensures tok + s[..k] + s[k..] == tok + s
  {
  }

  // The quoted text up to `k` is taken into the token, without its marks unless they are
  // back-quotes.
  method TakeQuoted(buf: array<char>, pbegin: nat, pend: nat, c: char, k: nat, ghost tok: string, ghost s: string)
      returns (next: nat, ghost tok': string, ghost s': string)
    requires Holds(buf, pbegin, tok + s) && pend == pbegin + |tok| && 1 <= k < |s| && c == s[0] == s[k]
    modifies buf
    ensures tok' == (if c == '`' then tok + s[..k + 1] else tok + s[1..k]) && s' == s[k + 1..]
    ensures Holds(buf, pbegin, tok' + s') && next == pbegin + |tok'|
    ensures forall i :: 0 <= i < pbegin ==> buf[i] == old(buf[i])
  {
    s' := s[k + 1..];
    if c == '`' {
      next, tok' := pend + k + 1, tok + s[..k + 1];
      KeepQuotes(tok, s, k + 1);
    } else {
      RemoveQuotes(buf, pend, pend + k, pbegin, tok, s, k);
      next, tok' := pend + k - 1, tok + s[1..k];
    }
  }

  // A quotation mark at `pend`: the closing one is found, and both are removed unless they are
  // back-quotes. The scan goes on at `next`.
  method PassMark(buf: array<char>, pbegin: nat, pend: nat, ghost lead: char, ghost tok: string, ghost s: string,
                  ghost first: bool, ghost escaped: bool, squote: bool, ghost goal: Token)
      returns (matched: bool, next: nat, squote': bool, ghost tok': string, ghost s': string)
    requires Holds(buf, pbegin, tok + s) && pend == pbegin + |tok| && s != "" && IsMark(s[0])
    requires !(!first && Before(lead, tok) == '\\' && !escaped)
    requires Scans(lead, tok, s, first, escaped, squote, goal)
    modifies buf
    ensures !matched ==> goal == NoMatch
    ensures matched ==>
      && Holds(buf, pbegin, tok' + s') && next == pbegin + |tok'| && |s'| < |s|
      && Scans(lead, tok', s', false, false, squote', goal)
    ensures forall i :: 0 <= i < pbegin ==> buf[i] == old(buf[i])
  {
    squote', tok', s' := squote, tok, s;
    assert (tok + s)[|tok|..] == s;
    Later(buf, pbegin, tok + s, |tok|);
    ScansMark(lead, tok, s, first, escaped, squote, goal);
    var c := CharAt(buf, pend, s, 0);
    var qend := StrChr(buf, pend, s, 1, c);
    if qend == None {
      return false, pend, squote, tok, s;
    }
    var k := qend.value;
    matched := true;
    next, tok', s' := TakeQuoted(buf, pbegin, pend, c, k, tok, s);
    squote' := squote || c == '\'';
  }

  /** The character before position `pend`, where `tok` ends. */
  method CharBefore(buf: array<char>, pbegin: nat, pend: nat, lead: char, ghost tok: string, ghost s: string)
      returns (c: char)
    requires Holds(buf, pbegin, tok + s) && pend == pbegin + |tok|
    ensures c == Before(lead, tok)
  {
    if pend == pbegin {
      c := lead;
    } else {
      c := CharAt(buf, pbegin, tok + s, pend - 1 - pbegin);
    }
  }

  /** One more character of the token. */
  lemma Kept(tok: string, s: string)
    requires s != ""
    ensures tok + s == (tok + [s[0]]) + s[1..]
  {
  }

  // The loop of nsh_argument over the characters of the token at `pbegin`. It ends with the text
  // of the token at `pbegin` and what follows it at `next`.
  method FindTokenEnd(buf: array<char>, pbegin: nat, lead: char, ghost line: string)
      returns (matched: bool, pend: nat, next: nat, squote: bool, ghost text: string, ghost rest: string)
    requires Holds(buf, pbegin, line)
    modifies buf
    ensures matched <==> TokenAt(lead, line).Token?
    ensures matched ==>
      && TokenAt(lead, line) == Token(text, rest, squote)
      && Holds(buf, pbegin, text) && pend == pbegin + |text| && pend <= next <= pend + 1 && Holds(buf, next, rest)
      && (rest != "" ==> next == pend + 1 && buf[pend] == '\0')
    ensures forall i :: 0 <= i < pbegin ==> buf[i] == old(buf[i])
  {
    ghost var tok, s, goal := "", line, TokenAt(lead, line);
    pend, squote := pbegin, false;
    var first, escaped := true, false;
    assert "" + line == line;
    while true
      invariant Holds(buf, pbegin, tok + s) && pend == pbegin + |tok|
      invariant Scans(lead, tok, s, first, escaped, squote, goal)
      invariant forall i :: 0 <= i < pbegin ==> buf[i] == old(buf[i])
      decreases |s|
    {
      var c := CharAt(buf, pbegin, tok + s, pend - pbegin);
      var prev := CharBefore(buf, pbegin, pend, lead, tok, s);
      ScansEnd(lead, tok, s, first, escaped, squote, goal);
      if c == '\0' {
        HeldEnd(buf, pbegin, tok, s);
        return true, pend, pend, squote, tok, "";
      }
      var protected := !first && prev == '\\' && !escaped;
      if protected || !(IsMark(c) || IsBlank(c)) {
        // an escaped character, a backslash, or nothing special
        ScansKeep(lead, tok, s, first, escaped, squote, goal);
        Kept(tok, s);
        escaped, first := protected, false;
        tok, s := tok + [s[0]], s[1..];
        pend := pend + 1;
      } else if IsMark(c) {
        matched, pend, squote, tok, s := PassMark(buf, pbegin, pend, lead, tok, s, first, escaped, squote, goal);
        if !matched {
          return false, pend, pend, squote, "", "";
        }
        escaped, first := false, false;
      } else {
        next := EndToken(buf, pbegin, pend, tok, s);
        return true, pend, next, squote, tok, s[1..];
      }
    }
  }

  lemma HeldEnd(buf: array<char>, pbegin: nat, tok: string, s: string)
    requires Holds(buf, pbegin, tok + s) && buf[pbegin + |tok|] == '\0'
    ensures s == "" && Holds(buf, pbegin, tok) && Holds(buf, pbegin + |tok|, "")
  {
    HeldAt(buf, pbegin, tok + s, |tok|);
    assert tok + s == tok;
    Later(buf, pbegin, tok, |tok|);
    assert tok[|tok|..] == "";
  }

  // The blank behind a token becomes its NUL.
  method EndToken(buf: array<char>, pbegin: nat, pend: nat, ghost tok: string, ghost s: string) returns (next: nat)
    requires Holds(buf, pbegin, tok + s) && s != "" && pend == pbegin + |tok|
    modifies buf
    ensures next == pend + 1 && Holds(buf, pbegin, tok) && Holds(buf, next, s[1..]) && buf[pend] == '\0'
    ensures forall i :: 0 <= i < pbegin ==> buf[i] == old(buf[i])
  {
    next := pend + 1;
    Taken(buf, pbegin, tok + s, |tok|);
    Later(buf, pbegin, tok + s, |tok| + 1);
    assert (tok + s)[..|tok|] == tok && (tok + s)[|tok| + 1..] == s[1..];
    buf[pend] := '\0';
  }

  // ---------- the arguments in the buffer ----------

  method PassBlanks(buf: array<char>, saveptr: nat, ghost s: string) returns (i: nat)
    requires Holds(buf, saveptr, s)
    ensures i == SkipBlanks(s)
  {
    i := 0;
    var c := CharAt(buf, saveptr, s, i);
    assert s[0..] == s;
    while c != '\0' && IsBlank(c)
      invariant i <= |s| && SkipBlanks(s) == i + SkipBlanks(s[i..])
      invariant if i < |s| then c == s[i] && c != '\0' else c == '\0'
      decreases |s| - i
    {
      assert s[i..][1..] == s[i + 1..];
      i := i + 1;
      c := CharAt(buf, saveptr, s, i);
    }
  }

  /** The next token has no free back-quote, or is not expanded at all. */
  predicate Quiet(lead: char, s: string) {
    var i := SkipBlanks(s);
    i < |s| ==>
      var t := TokenAt(if i == 0 then lead else s[i - 1], s[i..]);
      t.Token? && !t.squote ==> NoBackquote(t.text)
  }

  // nsh_argument. With pipelines enabled, `<` and `>` have no special treatment here: the branches
  // for them are overridden by the scan for an ordinary token. `lead` is the character before
  // `saveptr`; the scan looks at it when a token begins with an empty pair of quotes.
  method TakeArgument(buf: array<char>, saveptr: nat, lead: char, ghost s: string, env: Environment)
      returns (arg: Option<string>, next: nat, lead': char, ghost rest: string)
    requires Holds(buf, saveptr, s) && Quiet(lead, s) && forall name :: NulFree(env(name))
    modifies buf
    ensures match NextArgument(lead, s, env)
      case Nothing => arg == None
      case Argument(value, l, r) => arg == Some(value) && lead' == l && rest == r && Holds(buf, next, rest)
    ensures forall i :: 0 <= i < saveptr ==> buf[i] == old(buf[i])
  {
    arg, next, lead', rest := None, saveptr, lead, "";
    var i := PassBlanks(buf, saveptr, s);
    var c := CharAt(buf, saveptr, s, i);
    if c == '\0' || c == '#' {
      return;
    }
    if c == '|' {
      next, rest := Behind(buf, saveptr, s, i + 1);
      return Some("|"), next, '|', rest;
    }
    var before := lead;
    if i > 0 {
      before := CharAt(buf, saveptr, s, i - 1);
    }
    ghost var token;
    next, token := Behind(buf, saveptr, s, i);
    arg, next, rest := TakeToken(buf, next, before, token, env);
    lead' := '\0';
  }

  /** The place of the text behind the first `k` characters. */
  method Behind(buf: array<char>, i: nat, ghost s: string, k: nat) returns (next: nat, ghost rest: string)
    requires Holds(buf, i, s) && k <= |s|
    ensures rest == s[k..] && Holds(buf, next, rest) && next >= i
  {
    Later(buf, i, s, k);
    next, rest := i + k, s[k..];
  }

  method TakeToken(buf: array<char>, pbegin: nat, lead: char, ghost s: string, env: Environment)
      returns (arg: Option<string>, next: nat, ghost rest: string)
    requires Holds(buf, pbegin, s) && forall name :: NulFree(env(name))
    requires var t := TokenAt(lead, s); t.Token? && !t.squote ==> NoBackquote(t.text)
    modifies buf
    ensures match TokenAt(lead, s)
      case NoMatch => arg == None
      case Token(text, r, squote) =>
        arg == Some(if squote then text else ArgValue(text, env)) && rest == r && Holds(buf, next, rest)
    ensures forall i :: 0 <= i < pbegin ==> buf[i] == old(buf[i])
  {
    var matched, pend, squote;
    ghost var text;
    matched, pend, next, squote, text, rest := FindTokenEnd(buf, pbegin, lead, s);
    if !matched {
      return None, next, rest;
    }
    var value;
    if squote {
      value := TakeAll(buf, pbegin, text);
    } else {
      value := ExpandToken(buf, pbegin, text, env, next, rest);
    }
    arg := Some(value);
  }

  // The expansion works on the text of the token and leaves what follows it alone.
  method ExpandToken(buf: array<char>, pbegin: nat, ghost text: string, env: Environment, ghost next: nat,
                     ghost rest: string) returns (value: string)
    requires Holds(buf, pbegin, text) && NoBackquote(text) && forall name :: NulFree(env(name))
    requires Holds(buf, next, rest) && pbegin + |text| <= next
    modifies buf
    ensures value == ArgValue(text, env) && Holds(buf, next, rest)
    ensures forall i :: 0 <= i < pbegin ==> buf[i] == old(buf[i])
  {
    value := ArgExpand(buf, pbegin, text, env);
  }

  ghost predicate AllQuiet(lead: char, s: string, env: Environment)
    decreases |s|
  {
    && Quiet(lead, s)
    && match NextArgument(lead, s, env)
       case Nothing => true
       case Argument(_, lead', rest) =>
         NextShrinks(lead, s, env);
         AllQuiet(lead', rest, env)
  }

  method TakeAllArguments(buf: array<char>, saveptr: nat, lead: char, ghost s: string, env: Environment)
      returns (args: seq<string>)
    requires Holds(buf, saveptr, s) && AllQuiet(lead, s, env) && forall name :: NulFree(env(name))
    modifies buf
    ensures args == AllArguments(lead, s, env)
    decreases |s|
  {
    NextShrinks(lead, s, env);
    var arg, next, lead';
    ghost var rest;
    arg, next, lead', rest := TakeArgument(buf, saveptr, lead, s, env);
    if arg == None {
      return [];
    }
    var more := TakeAllArguments(buf, next, lead', rest, env);
    args := [arg.value] + more;
  }
}
