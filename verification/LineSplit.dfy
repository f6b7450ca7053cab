/** How a line of text is split into commands (nsh_parse). */
module LineSplit {
  import opened CText

  const LINE_SEPARATORS := "\"'#;\n"

  predicate IsQuote(c: char) { c == '"' || c == '\'' }

  /** What ends the command that begins at 0: the end of the line (or a newline or a comment),
      a semicolon, or nothing because a quotation mark is not closed. `top` is where the
      last search began. */
  datatype Cut = Last(top: nat) | Semicolon(at: nat, top: nat) | Unclosed

  // The search of nsh_parse. It goes from one separator to the next, jumps over quoted
  // text, and passes a quotation mark that follows a backslash.
  function Scan(s: string, working: nat): (cut: Cut)
    requires working <= |s|
    ensures cut.Semicolon? ==> working <= cut.top <= cut.at < |s| && s[cut.at] == ';'
    ensures cut.Last? ==> working <= cut.top <= |s|
    decreases |s| - working
  {
    var ptr := SkipTo(s, working, LINE_SEPARATORS);
    if ptr == |s| || s[ptr] == '\n' || s[ptr] == '#' then Last(working)
    else if s[ptr] == ';' then Semicolon(ptr, working)
    else if ptr > 0 && s[ptr - 1] == '\\' then Scan(s, ptr + 1)
    else
      match FindUnescaped(s, ptr + 1, s[ptr], false)
      case None => Unclosed
      case Some(end) => Scan(s, end + 1)
  }

  /** The commands of a line, and whether all its quotation marks are closed. */
  datatype Line = Line(commands: seq<string>, closed: bool)

  function Split(s: string): (l: Line)
    ensures l.closed ==> l.commands != []
    decreases |s|
  {
    match Scan(s, 0)
    case Last(_) => Line([s], true)
    case Unclosed => Line([], false)
    case Semicolon(i, _) =>
      var rest := Split(s[i + 1..]);
      Line([s[..i]] + rest.commands, rest.closed)
  }

  function Join(pieces: seq<string>): string {
    if pieces == [] then ""
    else if |pieces| == 1 then pieces[0]
    else pieces[0] + ";" + Join(pieces[1..])
  }

  // ---------- a character at a time ----------

  /** An automaton that reads the line once: outside of quotes, and whether the previous
      character was a backslash, or inside quotes, and whether it is an escape. */
  datatype Lex = Outside(backslash: bool) | Inside(quote: char, escape: bool)

  function Next(st: Lex, c: char): Lex {
    match st
    case Outside(backslash) =>
      if IsQuote(c) && !backslash then Inside(c, false) else Outside(c == '\\')
    case Inside(q, escape) =>
      if escape then Inside(q, false)
      else if c == '\\' then Inside(q, true)
      else if c == q then Outside(false)
      else st
  }

  function Read(st: Lex, s: string): Lex
    decreases |s|
  {
    if s == "" then st else Read(Next(st, s[0]), s[1..])
  }

  datatype SimpleCut = AtEnd | AtSemicolon(at: nat) | InQuotes

  /** The first separator that stands outside of quotes. */
  function SimpleScan(s: string, i: nat, st: Lex): SimpleCut
    requires i <= |s|
    decreases |s| - i
  {
    if i == |s| then (if st.Inside? then InQuotes else AtEnd)
    else if st.Outside? && s[i] == ';' then AtSemicolon(i)
    else if st.Outside? && (s[i] == '\n' || s[i] == '#') then AtEnd
    else SimpleScan(s, i + 1, Next(st, s[i]))
  }

  function Simple(cut: Cut): SimpleCut {
    match cut
    case Last(_) => AtEnd
    case Semicolon(i, _) => AtSemicolon(i)
    case Unclosed => InQuotes
  }

  predicate AfterBackslash(s: string, i: nat)
    requires i <= |s|
  {
    i > 0 && s[i - 1] == '\\'
  }

  /** Text without separators keeps the automaton outside. */
  lemma {:induction false} PassPlain(s: string, i: nat, k: nat)
    requires i <= k <= |s| && forall j :: i <= j < k ==> s[j] !in LINE_SEPARATORS
    ensures SimpleScan(s, i, Outside(AfterBackslash(s, i))) == SimpleScan(s, k, Outside(AfterBackslash(s, k)))
    decreases k - i
  {
    if i < k {
      assert s[i] !in LINE_SEPARATORS;
      assert '"' in LINE_SEPARATORS && '\'' in LINE_SEPARATORS && ';' in LINE_SEPARATORS;
      assert '#' in LINE_SEPARATORS && '\n' in LINE_SEPARATORS;
      PassPlain(s, i + 1, k);
    }
  }

  /** The search for the closing mark and the automaton inside quotes agree. */
  lemma {:induction false} PassQuoted(s: string, i: nat, q: char, escape: bool)
    requires i <= |s| && IsQuote(q)
    ensures match FindUnescaped(s, i, q, escape)
            case None => SimpleScan(s, i, Inside(q, escape)) == InQuotes
            case Some(end) => SimpleScan(s, i, Inside(q, escape)) == SimpleScan(s, end + 1, Outside(false))
    decreases |s| - i
  {
    if i < |s| {
      if s[i] == '\\' && !escape {
        PassQuoted(s, i + 1, q, true);
      } else if !(s[i] == q && !escape) {
        PassQuoted(s, i + 1, q, false);
      }
    }
  }

  /** The search by jumps finds what the automaton finds. */
  lemma {:induction false} ScanIsSimple(s: string, w: nat)
    requires w <= |s|
    ensures Simple(Scan(s, w)) == SimpleScan(s, w, Outside(AfterBackslash(s, w)))
    decreases |s| - w, 1
  {
    var ptr := SkipTo(s, w, LINE_SEPARATORS);
    PassPlain(s, w, ptr);
    if ptr < |s| {
      SeparatorCases(s[ptr]);
    }
    if ptr < |s| && IsQuote(s[ptr]) {
      MarkIsSimple(s, w, ptr);
    } else {
      ScanOther(s, w, ptr);
    }
  }

  lemma {:induction false} MarkIsSimple(s: string, w: nat, ptr: nat)
    requires w <= |s| && ptr == SkipTo(s, w, LINE_SEPARATORS) && ptr < |s| && IsQuote(s[ptr])
    ensures Simple(Scan(s, w)) == SimpleScan(s, ptr, Outside(AfterBackslash(s, ptr)))
    decreases |s| - w, 0
  {
    ScanMark(s, w, ptr);
    PassMark(s, ptr);
    var next := AfterMark(s, ptr);
    if next.Some? {
      ScanIsSimple(s, next.value);
    }
  }

  /** Where the search goes on after a quotation mark: behind it when a backslash precedes it,
      and behind the quoted text otherwise. */
  ghost function AfterMark(s: string, ptr: nat): (next: Option<nat>)
    requires ptr < |s|
    ensures next.Some? ==> ptr < next.value <= |s|
  {
    if AfterBackslash(s, ptr) then Some(ptr + 1)
    else match FindUnescaped(s, ptr + 1, s[ptr], false)
         case None => None
         case Some(end) => Some(end + 1)
  }

  /** The search at a quotation mark. */
  lemma {:induction false} ScanMark(s: string, w: nat, ptr: nat)
    requires w <= |s| && ptr == SkipTo(s, w, LINE_SEPARATORS) && ptr < |s| && IsQuote(s[ptr])
    ensures Scan(s, w) == match AfterMark(s, ptr) case None => Unclosed case Some(next) => Scan(s, next)
  {
    if AfterBackslash(s, ptr) {
      assert Scan(s, w) == Scan(s, ptr + 1);
    }
  }

  /** The automaton at a quotation mark. */
  lemma {:induction false} PassMark(s: string, ptr: nat)
    requires ptr < |s| && IsQuote(s[ptr])
    ensures SimpleScan(s, ptr, Outside(AfterBackslash(s, ptr)))
         == match AfterMark(s, ptr)
            case None => InQuotes
            case Some(next) => SimpleScan(s, next, Outside(AfterBackslash(s, next)))
  {
    if !AfterBackslash(s, ptr) {
      PassQuoted(s, ptr + 1, s[ptr], false);
    }
  }

  /** The search and the automaton at any other separator, and at the end. */
  lemma {:induction false} ScanOther(s: string, w: nat, ptr: nat)
    requires w <= |s| && ptr == SkipTo(s, w, LINE_SEPARATORS)
    requires ptr == |s| || s[ptr] == '#' || s[ptr] == ';' || s[ptr] == '\n'
    ensures Simple(Scan(s, w)) == SimpleScan(s, ptr, Outside(AfterBackslash(s, ptr)))
  {
  }

  /** The last search began at the beginning exactly when the first separator is no quotation
      mark. */
  lemma {:induction false} TopExactly(s: string)
    requires !Scan(s, 0).Unclosed?
    ensures var ptr := SkipTo(s, 0, LINE_SEPARATORS);
      Scan(s, 0).top == 0 <==> ptr == |s| || !IsQuote(s[ptr])
  {
    var ptr := SkipTo(s, 0, LINE_SEPARATORS);
    if ptr < |s| {
      SeparatorCases(s[ptr]);
      if IsQuote(s[ptr]) {
        ScanMark(s, 0, ptr);
      }
    }
  }

  lemma SeparatorCases(c: char)
    requires c in LINE_SEPARATORS
    ensures IsQuote(c) || c == '#' || c == ';' || c == '\n'
  {
    var k :| 0 <= k < |LINE_SEPARATORS| && LINE_SEPARATORS[k] == c;
  }

  /** No cut falls inside quotes: the automaton is outside at every semicolon that is cut. */
  lemma {:induction false} CutOutside(s: string, i: nat, st: Lex)
    requires i <= |s| && SimpleScan(s, i, st).AtSemicolon?
    ensures var k := SimpleScan(s, i, st).at;
            i <= k < |s| && s[k] == ';' && Read(st, s[i..k]).Outside?
    decreases |s| - i
  {
    if !(st.Outside? && s[i] == ';') {
      CutOutside(s, i + 1, Next(st, s[i]));
      var k := SimpleScan(s, i, st).at;
      assert s[i..k][0] == s[i] && s[i..k][1..] == s[i + 1..k];
    } else {
      assert s[i..i] == "";
    }
  }

  /** The text before a cut is one command by itself. */
  lemma {:induction false} PieceAlone(s: string, i: nat, st: Lex, k: nat)
    requires i <= k <= |s| && SimpleScan(s, i, st) == AtSemicolon(k)
    ensures SimpleScan(s[..k], i, st) == AtEnd
    decreases k - i
  {
    if i < k {
      PieceAlone(s, i + 1, Next(st, s[i]), k);
    } else if !(st.Outside? && s[i] == ';') {
      CutOutside(s, i + 1, Next(st, s[i]));
    }
  }

  lemma {:induction false} SplitOne(s: string)
    requires SimpleScan(s, 0, Outside(false)) == AtEnd
    ensures Split(s) == Line([s], true)
  {
    ScanIsSimple(s, 0);
  }

  lemma {:induction false} SplitMore(s: string, i: nat)
    requires i < |s| && SimpleScan(s, 0, Outside(false)) == AtSemicolon(i)
    ensures Split(s) == Line([s[..i]] + Split(s[i + 1..]).commands, Split(s[i + 1..]).closed)
  {
    ScanCuts(s, i);
  }

  lemma {:induction false} ScanCuts(s: string, i: nat)
    requires i < |s| && SimpleScan(s, 0, Outside(false)) == AtSemicolon(i)
    ensures Scan(s, 0).Semicolon? && Scan(s, 0).at == i
  {
    ScanIsSimple(s, 0);
  }

  lemma {:induction false} JoinMore(first: string, rest: seq<string>)
    requires rest != []
    ensures Join([first] + rest) == first + ";" + Join(rest)
  {
    assert ([first] + rest)[1..] == rest;
  }

  /** The commands of a line with closed quotes, joined by semicolons, are the line. */
  lemma {:induction false} SplitConserves(s: string)
    requires Split(s).closed
    ensures Join(Split(s).commands) == s
    decreases |s|
  {
    var cut := Scan(s, 0);
    if cut.Semicolon? {
      var i := cut.at;
      SplitConserves(s[i + 1..]);
      JoinMore(s[..i], Split(s[i + 1..]).commands);
      assert s == s[..i] + ";" + s[i + 1..];
    }
  }

  /** Each command of a line is one command by itself: no quoted text has been cut. */
  lemma {:induction false} SplitAlone(s: string, k: nat)
    requires Split(s).closed && k < |Split(s).commands|
    ensures Split(Split(s).commands[k]) == Line([Split(s).commands[k]], true)
    decreases |s|
  {
    ScanIsSimple(s, 0);
    if SimpleScan(s, 0, Outside(false)).AtSemicolon? {
      var piece, rest := FirstPiece(s);
      if k > 0 {
        SplitAlone(rest, k - 1);
      }
    } else {
      SplitOne(s);
    }
  }

  /** The command before the first cut, and the rest of the line. */
  lemma {:induction false} FirstPiece(s: string) returns (piece: string, rest: string)
    requires SimpleScan(s, 0, Outside(false)).AtSemicolon?
    ensures |rest| < |s| && Split(piece) == Line([piece], true)
    ensures Split(s) == Line([piece] + Split(rest).commands, Split(rest).closed)
  {
    var i := SimpleScan(s, 0, Outside(false)).at;
    CutOutside(s, 0, Outside(false));
    SplitMore(s, i);
    PieceAlone(s, 0, Outside(false), i);
    SplitOne(s[..i]);
    piece, rest := s[..i], s[i + 1..];
  }

  /** A text that can stand before a semicolon: quotes closed, no newline or comment. */
  predicate Separable(s: string) {
    SimpleScan(s + ";", 0, Outside(false)) == AtSemicolon(|s|)
  }

  lemma {:induction false} ScanPrefix(s: string, t: string, i: nat, st: Lex)
    requires i <= |s| && SimpleScan(s + ";", i, st) == AtSemicolon(|s|)
    ensures SimpleScan(s + ";" + t, i, st) == AtSemicolon(|s|)
    decreases |s| - i
  {
    if i < |s| {
      assert (s + ";")[i] == (s + ";" + t)[i] == s[i];
      if !(st.Outside? && s[i] == ';') {
        ScanPrefix(s, t, i + 1, Next(st, s[i]));
      }
    } else {
      assert (s + ";")[i] == (s + ";" + t)[i] == ';';
    }
  }

  /** Splitting undoes joining, for texts that can stand before a semicolon. */
  lemma {:induction false} SplitJoin(pieces: seq<string>)
    requires pieces != []
    requires forall k :: 0 <= k < |pieces| - 1 ==> Separable(pieces[k])
    requires SimpleScan(pieces[|pieces| - 1], 0, Outside(false)) == AtEnd
    ensures Split(Join(pieces)) == Line(pieces, true)
    decreases |pieces|
  {
    if |pieces| == 1 {
      SplitOne(pieces[0]);
      assert pieces == [pieces[0]];
    } else {
      var first, rest := pieces[0], pieces[1..];
      assert Separable(first);
      SplitJoin(rest);
      SplitJoinMore(first, rest);
      assert pieces == [first] + rest;
    }
  }

  lemma {:induction false} SplitJoinMore(first: string, rest: seq<string>)
    requires Separable(first) && rest != [] && Split(Join(rest)) == Line(rest, true)
    ensures Split(Join([first] + rest)) == Line([first] + rest, true)
  {
    JoinMore(first, rest);
    SplitFirst(first, Join(rest));
  }

  lemma {:induction false} SplitFirst(first: string, rest: string)
    requires Separable(first)
    ensures Split(first + ";" + rest) == Line([first] + Split(rest).commands, Split(rest).closed)
  {
    var s := first + ";" + rest;
    ScanPrefix(first, rest, 0, Outside(false));
    SplitMore(s, |first|);
    assert s[..|first|] == first && s[|first| + 1..] == rest;
  }
}
