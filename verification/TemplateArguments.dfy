/** Command lines with variables in them: every argument is a template without quotes, a template in
    double quotes, or a text in single quotes. Reading such a line back gives what each argument
    stands for: the first two are expanded, the last is not. */
module TemplateArguments {
  import opened CText
  import opened Escapes
  import opened Expansion
  import opened Arguments
  import opened QuotingRoundTrip

  datatype Form =
    | Unquoted(parts: seq<Part>, last: Option<string>)
    | DoubleQuoted(parts: seq<Part>, last: Option<string>)
    | SingleQuoted(text: string)

  /** An argument and the blanks in front of it. */
  datatype Arg = Arg(gap: string, form: Form)

  function FormText(f: Form): string {
    match f
    case Unquoted(parts, last) => WrittenTo(parts, last)
    case DoubleQuoted(parts, last) => "\"" + WrittenTo(parts, last) + "\""
    case SingleQuoted(text) => Quote(text)
  }

  function FormMeant(f: Form, env: Environment): string {
    match f
    case Unquoted(parts, last) => MeantTo(parts, last, env)
    case DoubleQuoted(parts, last) => MeantTo(parts, last, env)
    case SingleQuoted(text) => text
  }

  function ArgsText(args: seq<Arg>): string {
    if args == [] then "" else args[0].gap + FormText(args[0].form) + ArgsText(args[1..])
  }

  function ArgsMeant(args: seq<Arg>, env: Environment): seq<string> {
    if args == [] then [] else [FormMeant(args[0].form, env)] + ArgsMeant(args[1..], env)
  }

  // ---------- which templates can be written so ----------

  const MARKS := " \t\n'\"`"
  const QUOTE := "\""

  /** Every character of `u` is escaped, an escape, or none of `stops`, and no escape is left open. */
  predicate Steady(u: string, stops: string)
    decreases |u|
  {
    if u == "" then true
    else if u[0] == '\\' then |u| > 1 && Steady(u[2..], stops)
    else u[0] !in stops && Steady(u[1..], stops)
  }

  /** The template can stand where `stops` are special: its literal text holds them only where they
      get a backslash, and its names do not hold them. */
  predicate Free(parts: seq<Part>, last: Option<string>, stops: string) {
    && (forall i :: 0 <= i < |parts| ==> FreePart(parts[i], stops))
    && (last.Some? ==> Steady(last.value, stops))
  }

  predicate FreePart(p: Part, stops: string) {
    match p
    case Literal(text) => forall i :: 0 <= i < |text| ==> Special(text[i]) || text[i] !in stops
    case Variable(name) => forall i :: 0 <= i < |name| ==> name[i] !in stops && name[i] != '\\'
  }

  predicate Good(f: Form, env: Environment) {
    match f
    case Unquoted(parts, last) =>
      && UsableTo(parts, last, env) && Free(parts, last, MARKS)
      && (var u := WrittenTo(parts, last); u != "" && u[0] != '#' && u[0] != '|')
    case DoubleQuoted(parts, last) => UsableTo(parts, last, env) && Free(parts, last, QUOTE)
    case SingleQuoted(text) => Quotable(text)
  }

  /** Behind a closing double quote that follows a backslash, the blank would count as escaped. */
  predicate Closed(f: Form) {
    f.DoubleQuoted? ==> var u := WrittenTo(f.parts, f.last); u == "" || u[|u| - 1] != '\\'
  }

  predicate AllBlank(s: string) { forall i :: 0 <= i < |s| ==> IsBlank(s[i]) }

  // ---------- steady text ----------

  lemma {:induction false} SteadyConcat(u: string, v: string, stops: string)
    requires Steady(u, stops) && Steady(v, stops)
    ensures Steady(u + v, stops)
    decreases |u|
  {
    if u == "" {
      assert u + v == v;
    } else if u[0] == '\\' {
      SteadyConcat(u[2..], v, stops);
      assert (u + v)[2..] == u[2..] + v;
    } else {
      SteadyConcat(u[1..], v, stops);
      assert (u + v)[1..] == u[1..] + v;
    }
  }

  lemma {:induction false} SteadyOne(c: char, stops: string)
    requires Special(c) || c !in stops
    ensures Steady(EscapeOne(c), stops)
  {
    assert EscapeOne(c)[1..] == "" || EscapeOne(c)[2..] == "";
  }

  lemma {:induction false} SteadyEscape(text: string, stops: string)
    requires forall i :: 0 <= i < |text| ==> Special(text[i]) || text[i] !in stops
    ensures Steady(EscapeAll(text), stops)
    decreases |text|
  {
    if text != "" {
      SteadyOne(text[0], stops);
      SteadyEscape(text[1..], stops);
      SteadyConcat(EscapeOne(text[0]), EscapeAll(text[1..]), stops);
    }
  }

  lemma {:induction false} SteadyPlain(u: string, stops: string)
    requires forall i :: 0 <= i < |u| ==> u[i] !in stops && u[i] != '\\'
    ensures Steady(u, stops)
    decreases |u|
  {
    if u != "" {
      SteadyPlain(u[1..], stops);
    }
  }

  lemma {:induction false} SteadyPart(p: Part, stops: string)
    requires FreePart(p, stops) && (stops == MARKS || stops == QUOTE)
    ensures Steady(WrittenPart(p), stops)
  {
    match p
    case Literal(text) => SteadyEscape(text, stops);
    case Variable(name) => SteadyPlain("${" + name + "}", stops);
  }

  lemma {:induction false} SteadyWritten(parts: seq<Part>, stops: string)
    requires (forall i :: 0 <= i < |parts| ==> FreePart(parts[i], stops)) && (stops == MARKS || stops == QUOTE)
    ensures Steady(Written(parts), stops)
    decreases |parts|
  {
    if parts != [] {
      assert FreePart(parts[0], stops);
      SteadyPart(parts[0], stops);
      SteadyWritten(parts[1..], stops);
      SteadyConcat(WrittenPart(parts[0]), Written(parts[1..]), stops);
    }
  }

  lemma {:induction false} SteadyTo(parts: seq<Part>, last: Option<string>, stops: string)
    requires Free(parts, last, stops) && (stops == MARKS || stops == QUOTE)
    ensures Steady(WrittenTo(parts, last), stops)
  {
    SteadyWritten(parts, stops);
    if last.Some? {
      SteadyPlain("$", stops);
      SteadyConcat("$", last.value, stops);
    }
    SteadyConcat(Written(parts), Bare(last), stops);
  }

  // ---------- the scan ----------

  /** The scan passes steady text; `open` says whether the last character was escaped. */
  lemma {:induction false} ScanOver(lead: char, tok: string, u: string, rest: string, first: bool, escaped: bool,
                                    squote: bool) returns (open: bool)
    requires Steady(u, MARKS) && u != "" && (!first && Before(lead, tok) == '\\' ==> escaped)
    ensures ScanToken(lead, tok, u + rest, first, escaped, squote)
         == ScanToken(lead, tok + u, rest, false, open, squote)
    ensures Before(lead, tok + u) == '\\' ==> open
    decreases |u|
  {
    var n := if u[0] == '\\' then 2 else 1;
    var head, more := u[..n], u[n..];
    open := n == 2;
    assert u == head + more && head + (more + rest) == u + rest;
    if n == 2 {
      ScanPair(lead, tok, u[1], more + rest, first, escaped, squote);
      assert head == ['\\', u[1]];
    } else {
      ScanOne(lead, tok, u[0], more + rest, first, escaped, squote);
      assert head == [u[0]];
    }
    if more == "" {
      assert more + rest == rest && head == u;
    } else {
      open := ScanOver(lead, tok + head, more, rest, false, open, squote);
      Attach(tok, head, more);
    }
  }

  /** The scan takes steady text as it is, up to the blank behind it. */
  lemma {:induction false} ScanSteady(lead: char, tok: string, u: string, rest: string, first: bool, escaped: bool)
    requires Steady(u, MARKS) && Ends(rest) && (!first && Before(lead, tok) == '\\' ==> escaped)
    ensures ScanToken(lead, tok, u + rest, first, escaped, false) == Token(tok + u, Passed(rest), false)
  {
    if u == "" {
      assert u + rest == rest && tok + u == tok;
      ScanEnds(lead, tok, rest, first, escaped, false);
    } else {
      var open := ScanOver(lead, tok, u, rest, first, escaped, false);
      ScanEnds(lead, tok + u, rest, false, open, false);
    }
  }

  lemma {:induction false} ScanEnds(lead: char, tok: string, rest: string, first: bool, escaped: bool, squote: bool)
    requires Ends(rest) && (!first && Before(lead, tok) == '\\' ==> escaped)
    ensures ScanToken(lead, tok, rest, first, escaped, squote) == Token(tok, Passed(rest), squote)
  {
  }

  lemma {:induction false} ScanPair(lead: char, tok: string, c: char, s: string, first: bool, escaped: bool,
                                    squote: bool)
    requires !first && Before(lead, tok) == '\\' ==> escaped
    ensures ScanToken(lead, tok, ['\\', c] + s, first, escaped, squote)
         == ScanToken(lead, tok + ['\\', c], s, false, true, squote)
  {
    var t := ['\\', c] + s;
    assert t[1..] == [c] + s && ([c] + s)[1..] == s;
    assert tok + ['\\'] + [c] == tok + ['\\', c];
  }

  lemma {:induction false} ScanOne(lead: char, tok: string, c: char, s: string, first: bool, escaped: bool,
                                   squote: bool)
    requires c != '\\' && c !in MARKS && (!first && Before(lead, tok) == '\\' ==> escaped)
    ensures ScanToken(lead, tok, [c] + s, first, escaped, squote)
         == ScanToken(lead, tok + [c], s, false, false, squote)
  {
    NotMark(c);
    assert ([c] + s)[1..] == s;
  }

  lemma NotMark(c: char)
    requires c !in MARKS
    ensures !IsMark(c) && !IsBlank(c)
  {
    assert MARKS[0] == ' ' && MARKS[1] == '\t' && MARKS[2] == '\n' && MARKS[3] == '\''
        && MARKS[4] == '"' && MARKS[5] == '`';
  }

  /** The closing mark of steady text is the one behind it. */
  lemma {:induction false} FindSteady(s: string, i: nat, u: string, mark: char)
    requires i + |u| < |s| && s[i..i + |u|] == u && s[i + |u|] == mark && Steady(u, [mark]) && mark != '\\'
    ensures FindUnescaped(s, i, mark, false) == Some(i + |u|)
    decreases |u|
  {
    if u != "" {
      assert s[i] == u[0];
      if u[0] == '\\' {
        assert s[i + 1] == u[1] && s[i + 2..i + |u|] == u[2..];
        FindSteady(s, i + 2, u[2..], mark);
      } else {
        assert [mark][0] == mark;
        assert s[i + 1..i + |u|] == u[1..];
        FindSteady(s, i + 1, u[1..], mark);
      }
    }
  }

  lemma {:induction false} DoubleToken(lead: char, u: string, rest: string)
    requires Steady(u, QUOTE) && Ends(rest) && (rest != "" ==> Before(lead, u) != '\\')
    ensures TokenAt(lead, "\"" + u + "\"" + rest) == Token(u, Passed(rest), false)
  {
    var s := "\"" + u + "\"" + rest;
    var k := 1 + |u|;
    assert s[1..k] == u && s[k] == '"' && s[k + 1..] == rest && s[0] == '"';
    assert QUOTE == ['"'];
    FindSteady(s, 1, u, '"');
    AfterDouble(lead, s, k, u, rest);
  }

  lemma {:induction false} AfterDouble(lead: char, s: string, k: nat, u: string, rest: string)
    requires s != "" && s[0] == '"' && FindUnescaped(s, 1, '"', false) == Some(k)
    requires k < |s| && u == s[1..k] && rest == s[k + 1..] && Ends(rest) && (rest != "" ==> Before(lead, u) != '\\')
    ensures TokenAt(lead, s) == Token(u, Passed(rest), false)
  {
    assert "" + u == u;
    assert TokenAt(lead, s) == ScanToken(lead, u, rest, false, false, false);
  }

  lemma {:induction false} SingleToken(lead: char, t: string, rest: string)
    requires Quotable(t) && Ends(rest) && lead != '\\'
    ensures TokenAt(lead, Quote(t) + rest) == Token(t, Passed(rest), true)
  {
    var s := Quote(t) + rest;
    FindClosing(t, 1, rest);
    var k := 1 + |t|;
    assert s[0] == '\'' && s[1..k] == t && s[k + 1..] == rest;
    FromMark(lead, s, k, t, rest);
    assert ScanToken(lead, t, rest, false, false, true) == Token(t, Passed(rest), true);
  }

  // ---------- a token of several parts ----------

  /** A token can be put together from bare text and texts in the three kinds of quotes. */
  datatype Segment = BareText(u: string) | InDouble(u: string) | InSingle(u: string) | InBack(u: string)

  predicate GoodSegment(g: Segment) {
    g.u != "" && match g
    case BareText(u) => Steady(u, MARKS)
    case InDouble(u) => Steady(u, QUOTE) && u[|u| - 1] != '\\'
    case InSingle(u) => Quotable(u)
    case InBack(u) => Steady(u, "`")
  }

  function SegmentText(g: Segment): string {
    match g
    case BareText(u) => u
    case InDouble(u) => "\"" + u + "\""
    case InSingle(u) => Quote(u)
    case InBack(u) => "`" + u + "`"
  }

  /** What is kept of it: quotation marks go, but back-quotes stay. */
  function SegmentKept(g: Segment): string { if g.InBack? then SegmentText(g) else g.u }

  function TokenText(gs: seq<Segment>): string {
    if gs == [] then "" else SegmentText(gs[0]) + TokenText(gs[1..])
  }

  function TokenKept(gs: seq<Segment>): string {
    if gs == [] then "" else SegmentKept(gs[0]) + TokenKept(gs[1..])
  }

  predicate HasSingle(gs: seq<Segment>) {
    exists i :: 0 <= i < |gs| && gs[i].InSingle?
  }

  lemma {:induction false} ScanSegment(lead: char, tok: string, g: Segment, rest: string, first: bool, escaped: bool,
                                       squote: bool) returns (open: bool)
    requires GoodSegment(g) && (!first && Before(lead, tok) == '\\' ==> escaped)
    ensures ScanToken(lead, tok, SegmentText(g) + rest, first, escaped, squote)
         == ScanToken(lead, tok + SegmentKept(g), rest, false, open, squote || g.InSingle?)
    ensures Before(lead, tok + SegmentKept(g)) == '\\' ==> open
  {
    if g.BareText? {
      open := ScanOver(lead, tok, g.u, rest, first, escaped, squote);
    } else {
      open := false;
      var s, k := SegmentText(g) + rest, 1 + |g.u|;
      SegmentMark(g, s, k, rest);
      ScanQuoted(lead, tok, s, MarkOf(g), k, first, escaped, squote);
      KeptEnd(lead, tok, g);
    }
  }

  function MarkOf(g: Segment): char { if g.InDouble? then '"' else if g.InSingle? then '\'' else '`' }

  lemma {:induction false} SegmentMark(g: Segment, s: string, k: nat, rest: string)
    requires GoodSegment(g) && !g.BareText? && s == SegmentText(g) + rest && k == 1 + |g.u|
    ensures k < |s| && s[0] == MarkOf(g) && s[k + 1..] == rest && FindUnescaped(s, 1, MarkOf(g), false) == Some(k)
    ensures (if g.InBack? then s[..k + 1] else s[1..k]) == SegmentKept(g)
  {
    var mark := MarkOf(g);
    assert SegmentText(g) == [mark] + g.u + [mark];
    MarkedSlices(mark, g.u, rest, s);
    if g.InSingle? {
      FindClosing(g.u, 1, rest);
    } else {
      assert QUOTE == ['"'] && "`" == ['`'];
      FindSteady(s, 1, g.u, mark);
    }
  }

  lemma MarkedSlices(mark: char, u: string, rest: string, s: string)
    requires s == [mark] + u + [mark] + rest
    ensures var k := 1 + |u|;
      && k < |s| && s[0] == mark && s[k] == mark && s[1..k] == u && s[k + 1..] == rest
      && s[..k + 1] == [mark] + u + [mark]
  {
    var k := 1 + |u|;
    assert s[k] == mark;
    assert s[1..k] == u;
    assert s[..k + 1] == [mark] + u + [mark];
    assert s[k + 1..] == rest;
  }

  lemma KeptEnd(lead: char, tok: string, g: Segment)
    requires GoodSegment(g) && !g.BareText?
    ensures Before(lead, tok + SegmentKept(g)) != '\\'
  {
    var kept := SegmentKept(g);
    assert (tok + kept)[|tok + kept| - 1] == kept[|kept| - 1];
  }

  lemma {:induction false} ScanQuoted(lead: char, tok: string, s: string, mark: char, k: nat, first: bool,
                                      escaped: bool, squote: bool)
    requires s != "" && s[0] == mark && IsMark(mark) && FindUnescaped(s, 1, mark, false) == Some(k)
    requires !first && Before(lead, tok) == '\\' ==> escaped
    ensures ScanToken(lead, tok, s, first, escaped, squote)
         == ScanToken(lead, tok + (if mark == '`' then s[..k + 1] else s[1..k]), s[k + 1..], false, false,
                      squote || mark == '\'')
  {
  }

  lemma {:induction false} ScanSegments(lead: char, tok: string, gs: seq<Segment>, rest: string, first: bool,
                                        escaped: bool, squote: bool)
    requires (forall i :: 0 <= i < |gs| ==> GoodSegment(gs[i])) && Ends(rest)
    requires !first && Before(lead, tok) == '\\' ==> escaped
    ensures ScanToken(lead, tok, TokenText(gs) + rest, first, escaped, squote)
         == Token(tok + TokenKept(gs), Passed(rest), squote || HasSingle(gs))
    decreases |gs|
  {
    if gs == [] {
      assert TokenText(gs) + rest == rest && tok + TokenKept(gs) == tok;
      ScanEnds(lead, tok, rest, first, escaped, squote);
    } else {
      var g, more := gs[0], gs[1..];
      assert GoodSegment(g);
      assert HasSingle(gs) <==> g.InSingle? || HasSingle(more) by {
        assert forall i :: 1 <= i < |gs| ==> gs[i] == more[i - 1];
        assert forall i :: 0 <= i < |more| ==> more[i] == gs[i + 1];
      }
      Attach(SegmentText(g), TokenText(more), rest);
      var open := ScanSegment(lead, tok, g, TokenText(more) + rest, first, escaped, squote);
      ScanSegments(lead, tok + SegmentKept(g), more, rest, false, open, squote || g.InSingle?);
      Attach(tok, SegmentKept(g), TokenKept(more));
    }
  }

  /** A token goes on through quotes of all kinds up to the blank behind it, and counts as quoted when
      some of it is in single quotes. */
  lemma {:induction false} SegmentsToken(lead: char, gs: seq<Segment>, rest: string)
    requires (forall i :: 0 <= i < |gs| ==> GoodSegment(gs[i])) && Ends(rest)
    ensures TokenAt(lead, TokenText(gs) + rest) == Token(TokenKept(gs), Passed(rest), HasSingle(gs))
  {
    ScanSegments(lead, "", gs, rest, true, false, false);
    assert "" + TokenKept(gs) == TokenKept(gs);
  }

  // ---------- one argument ----------

  lemma {:induction false} SkipGap(g: string, s: string)
    requires AllBlank(g) && (s != "" ==> !IsBlank(s[0]))
    ensures SkipBlanks(g + s) == |g|
    decreases |g|
  {
    if g == "" {
      assert g + s == s;
    } else {
      assert (g + s)[1..] == g[1..] + s;
      SkipGap(g[1..], s);
    }
  }

  /** The token of an argument, and what it is worth. */
  lemma {:induction false} FormToken(lead: char, f: Form, more: string, env: Environment)
    requires Good(f, env) && Ends(more) && lead != '\\' && (more != "" ==> Closed(f))
    ensures var t := TokenAt(lead, FormText(f) + more);
      && t.Token? && t.rest == Passed(more)
      && FormMeant(f, env) == if t.squote then t.text else ArgValue(t.text, env)
  {
    match f
    case Unquoted(parts, last) =>
      var u := WrittenTo(parts, last);
      SteadyTo(parts, last, MARKS);
      ScanSteady(lead, "", u, more, true, false);
      assert "" + u == u;
      TemplateRoundTrip(parts, last, env);
    case DoubleQuoted(parts, last) =>
      SteadyTo(parts, last, QUOTE);
      DoubleToken(lead, WrittenTo(parts, last), more);
      TemplateRoundTrip(parts, last, env);
    case SingleQuoted(text) => SingleToken(lead, text, more);
  }

  lemma FormStart(f: Form, env: Environment)
    requires Good(f, env)
    ensures FormText(f) != "" && !IsBlank(FormText(f)[0]) && FormText(f)[0] != '#' && FormText(f)[0] != '|'
  {
    if f.Unquoted? {
      var u := WrittenTo(f.parts, f.last);
      SteadyTo(f.parts, f.last, MARKS);
      if u[0] != '\\' {
        NotMark(u[0]);
      }
    }
  }

  /** The next argument is what the form stands for, and the line goes on behind it. */
  lemma {:induction false} NextForm(lead: char, g: string, f: Form, more: string, env: Environment)
    requires AllBlank(g) && Good(f, env) && Ends(more) && lead != '\\' && (more != "" ==> Closed(f))
    ensures NextArgument(lead, g + FormText(f) + more, env) == Argument(FormMeant(f, env), '\0', Passed(more))
  {
    var s := FormText(f) + more;
    FormStart(f, env);
    assert g + FormText(f) + more == g + s && s[0] == FormText(f)[0];
    SkipGap(g, s);
    assert (g + s)[|g|..] == s;
    FormToken(if g == "" then lead else g[|g| - 1], f, more, env);
    NextToken(lead, g, s, env);
  }

  lemma {:induction false} NextToken(lead: char, g: string, s: string, env: Environment)
    requires AllBlank(g) && SkipBlanks(g + s) == |g| && s != "" && s[0] != '#' && s[0] != '|'
    ensures NextArgument(lead, g + s, env) ==
      match TokenAt(if g == "" then lead else g[|g| - 1], s)
      case NoMatch => Nothing
      case Token(text, rest, squote) => Argument(if squote then text else ArgValue(text, env), '\0', rest)
  {
    assert (g + s)[|g|] == s[0] && (g + s)[|g|..] == s;
    assert g != "" ==> (g + s)[|g| - 1] == g[|g| - 1];
  }

  // ---------- a whole line ----------

  /** The arguments can be written, and each of them but one at the very end is closed. */
  predicate AllGood(args: seq<Arg>, trail: string, env: Environment) {
    forall i :: 0 <= i < |args| ==>
      && args[i].gap != "" && AllBlank(args[i].gap) && Good(args[i].form, env)
      && (Closed(args[i].form) || (i == |args| - 1 && trail == ""))
  }

  lemma {:induction false} ArgsEnd(args: seq<Arg>, trail: string, env: Environment)
    requires AllGood(args, trail, env) && Ends(trail)
    ensures Ends(ArgsText(args) + trail) && (args != [] ==> ArgsText(args) != "")
  {
    if args == [] {
      assert ArgsText(args) + trail == trail;
    } else {
      assert args[0].gap != "" && AllBlank(args[0].gap);
      assert (ArgsText(args) + trail)[0] == args[0].gap[0];
    }
  }

  /** The arguments of `s` are `values` and then those of `rest`; sealed, see `Guard`. */
  ghost predicate Gives(lead: char, s: string, env: Environment, values: seq<string>, lead': char, rest: string) {
    GivesSeal(lead, s, env, values, lead', rest) == 0
  }

  ghost function GivesSeal(lead: char, s: string, env: Environment, values: seq<string>, lead': char, rest: string)
      : nat
  {
    if AllArguments(lead, s, env) == values + AllArguments(lead', rest, env) then 0 else 1
  }

  lemma GivesNone(lead: char, s: string, env: Environment)
    ensures Gives(lead, s, env, [], lead, s)
  {
    var all := AllArguments(lead, s, env);
    assert [] + all == all;
  }

  lemma GivesMore(lead: char, s: string, env: Environment, value: string, lead1: char, s1: string, values: seq<string>,
                  lead2: char, s2: string)
    requires NextArgument(lead, s, env) == Argument(value, lead1, s1) && Gives(lead1, s1, env, values, lead2, s2)
    ensures Gives(lead, s, env, [value] + values, lead2, s2)
  {
    MoreArguments(lead, s, value, lead1, s1, env);
    AttachValues([value], values, AllArguments(lead2, s2, env));
  }

  lemma AttachValues(a: seq<string>, b: seq<string>, c: seq<string>)
    ensures a + (b + c) == a + b + c
  {
  }

  lemma {:induction false} GivesAll(lead: char, s: string, env: Environment, values: seq<string>, lead': char,
                                    rest: string)
    requires Gives(lead, s, env, values, lead', rest)
    ensures AllArguments(lead, s, env) == values + AllArguments(lead', rest, env)
  {
  }

  /** Whatever stands behind them, the arguments come first, one by one. */
  lemma {:induction false} ArgsThen(lead: char, args: seq<Arg>, trail: string, env: Environment)
    requires AllGood(args, trail, env) && Ends(trail) && lead != '\\'
    ensures Gives(lead, Passed(ArgsText(args) + trail), env, ArgsMeant(args, env),
                  if args == [] then lead else '\0', Passed(trail))
    decreases |args|
  {
    if args == [] {
      assert ArgsText(args) + trail == trail;
      GivesNone(lead, Passed(trail), env);
    } else {
      var a, rest := args[0], args[1..];
      var more := ArgsText(rest) + trail;
      GoodRest(args, trail, env);
      FirstPassed(a, rest, trail, args);
      NextForm(lead, a.gap[1..], a.form, more, env);
      ArgsThen('\0', rest, trail, env);
      GivesMore(lead, a.gap[1..] + FormText(a.form) + more, env, FormMeant(a.form, env), '\0', Passed(more),
                ArgsMeant(rest, env), '\0', Passed(trail));
    }
  }

  lemma {:induction false} GoodRest(args: seq<Arg>, trail: string, env: Environment)
    requires args != [] && AllGood(args, trail, env) && Ends(trail)
    ensures var a, more := args[0], ArgsText(args[1..]) + trail;
      && a.gap != "" && AllBlank(a.gap) && AllBlank(a.gap[1..]) && Good(a.form, env)
      && AllGood(args[1..], trail, env) && Ends(more) && (more != "" ==> Closed(a.form))
  {
    var rest := args[1..];
    assert forall i :: 0 <= i < |rest| ==> rest[i] == args[i + 1];
    ArgsEnd(rest, trail, env);
    assert rest == [] ==> ArgsText(rest) == "";
  }

  lemma {:induction false} MoreArguments(lead: char, s: string, value: string, lead': char, rest: string,
                                         env: Environment)
    requires NextArgument(lead, s, env) == Argument(value, lead', rest)
    ensures AllArguments(lead, s, env) == [value] + AllArguments(lead', rest, env)
  {
    NextShrinks(lead, s, env);
  }

  lemma {:induction false} FirstPassed(a: Arg, rest: seq<Arg>, trail: string, args: seq<Arg>)
    requires args != [] && a == args[0] && rest == args[1..] && a.gap != ""
    ensures Passed(ArgsText(args) + trail) == a.gap[1..] + FormText(a.form) + (ArgsText(rest) + trail)
  {
  }

  /** The line of a plain command word and its arguments, with `trail` behind them. */
  function Line(word: string, args: seq<Arg>, trail: string): string { word + (ArgsText(args) + trail) }

  /** For every such line: the arguments are the word, what the templates stand for and the texts, and
      then those of what stands behind. */
  lemma {:induction false} LineThen(lead: char, word: string, args: seq<Arg>, trail: string, env: Environment)
    requires PlainWord(word) && AllGood(args, trail, env) && Ends(trail)
    ensures AllArguments(lead, Line(word, args, trail), env)
         == [word] + ArgsMeant(args, env) + AllArguments('\0', Passed(trail), env)
  {
    ArgsEnd(args, trail, env);
    PlainArgument(lead, word, ArgsText(args) + trail, env);
    ArgsThen('\0', args, trail, env);
    GivesMore(lead, Line(word, args, trail), env, word, '\0', Passed(ArgsText(args) + trail), ArgsMeant(args, env),
              '\0', Passed(trail));
    GivesAll(lead, Line(word, args, trail), env, [word] + ArgsMeant(args, env), '\0', Passed(trail));
  }

  /** What can stand behind the arguments without being one: blanks, and a comment. */
  predicate Silent(trail: string) {
    AllBlank(trail) || exists k :: 0 < k < |trail| && trail[k] == '#' && AllBlank(trail[..k])
  }

  lemma {:induction false} SilentNothing(lead: char, trail: string, env: Environment)
    requires Silent(trail)
    ensures Ends(trail) && AllArguments(lead, Passed(trail), env) == []
  {
    var s := Passed(trail);
    if AllBlank(trail) {
      SkipGap(s, "");
      assert s + "" == s;
    } else {
      var k :| 0 < k < |trail| && trail[k] == '#' && AllBlank(trail[..k]);
      var g, comment := trail[1..k], trail[k..];
      assert trail[0] == trail[..k][0] && IsBlank(trail[..k][0]);
      assert forall i :: 0 <= i < |g| ==> g[i] == trail[..k][i + 1];
      assert s == g + comment;
      SkipGap(g, comment);
      assert s[|g|] == '#';
    }
  }

  /** Variables are replaced in words without quotes and in double quotes, and not in single quotes; a
      comment ends the line. */
  lemma {:induction false} LineBack(lead: char, word: string, args: seq<Arg>, trail: string, env: Environment)
    requires PlainWord(word) && AllGood(args, trail, env) && Silent(trail)
    ensures AllArguments(lead, Line(word, args, trail), env) == [word] + ArgsMeant(args, env)
  {
    SilentNothing('\0', trail, env);
    LineThen(lead, word, args, trail, env);
    var all := [word] + ArgsMeant(args, env);
    assert all + [] == all;
  }

  /** A bar is an argument by itself, and the arguments of the next command follow. */
  lemma {:induction false} BarBetween(lead: char, word: string, args: seq<Arg>, g: string, rest: string,
                                      env: Environment)
    requires PlainWord(word) && AllGood(args, g + "|" + rest, env) && g != "" && AllBlank(g)
    ensures AllArguments(lead, Line(word, args, g + "|" + rest), env)
         == [word] + ArgsMeant(args, env) + (["|"] + AllArguments('|', rest, env))
  {
    var trail, s := g + "|" + rest, g[1..] + ("|" + rest);
    LineThen(lead, word, args, trail, env);
    assert Passed(trail) == s;
    BarNext('\0', g[1..], rest, env);
    MoreArguments('\0', s, "|", '|', rest, env);
  }

  lemma {:induction false} BarNext(lead: char, g: string, rest: string, env: Environment)
    requires AllBlank(g)
    ensures NextArgument(lead, g + ("|" + rest), env) == Argument("|", '|', rest)
  {
    var s := g + ("|" + rest);
    SkipGap(g, "|" + rest);
    assert s[|g|] == '|' && s[|g| + 1..] == rest;
  }

  /** Why a text in double quotes must not end in a backslash when something follows: the blank behind
      the quote is then taken into the argument. */
  lemma {:induction false} BackslashJoins(lead: char, u: string, w: string)
    requires Steady(u, QUOTE) && u != "" && u[|u| - 1] == '\\' && PlainWord(w)
    ensures TokenAt(lead, "\"" + u + "\"" + (" " + w)) == Token(u + " " + w, "", false)
  {
    var rest := " " + w;
    var s := "\"" + u + "\"" + rest;
    var k := 1 + |u|;
    assert s[1..k] == u && s[k] == '"' && s[k + 1..] == rest && s[0] == '"';
    assert QUOTE == ['"'];
    FindSteady(s, 1, u, '"');
    OpenBlank(lead, s, k, u, w);
    PlainSteady(w);
    ScanSteady(lead, u + " ", w, "", false, true);
    assert w + "" == w;
  }

  lemma {:induction false} OpenBlank(lead: char, s: string, k: nat, u: string, w: string)
    requires s != "" && s[0] == '"' && FindUnescaped(s, 1, '"', false) == Some(k)
    requires k < |s| && u == s[1..k] && u != "" && u[|u| - 1] == '\\' && s[k + 1..] == " " + w
    ensures TokenAt(lead, s) == ScanToken(lead, u + " ", w, false, true, false)
  {
    var rest := " " + w;
    assert "" + u == u && rest[1..] == w;
    assert TokenAt(lead, s) == ScanToken(lead, u, rest, false, false, false);
  }

  lemma {:induction false} PlainSteady(w: string)
    requires PlainWord(w)
    ensures Steady(w, MARKS)
  {
    forall i | 0 <= i < |w|
      ensures w[i] !in MARKS && w[i] != '\\'
    {
      assert PlainChar(w[i]);
    }
    SteadyPlain(w, MARKS);
  }
}
