/** The loop of nsh_parse: it cuts the line buffer at semicolons, in place, and hands on
    each command. */
module LineParser {
  import opened CBuffer
  import opened CText
  import opened Guard
  import opened LineSplit

  /** What handing on a command comes to: whether it succeeded, and whether it was a `done`
      that goes back to the top of its loop. */
  datatype Outcome = Outcome(ok: bool, jump: bool)

  /** The commands handed on from command `k` of the line, and whether the line ends well. */
  datatype Handed = Handed(commands: seq<string>, ok: bool)

  function Hand(l: Line, k: nat, ignore: bool, outcome: nat -> Outcome): Handed
    requires k <= |l.commands|
    decreases |l.commands| - k
  {
    if k == |l.commands| then Handed([], false)
    else if l.closed && k == |l.commands| - 1 then Handed([l.commands[k]], outcome(k).ok)
    else if !outcome(k).ok && !ignore then Handed([l.commands[k]], false)
    else if outcome(k).jump then Handed([l.commands[k]], true)
    else
      var rest := Hand(l, k + 1, ignore, outcome);
      Handed([l.commands[k]] + rest.commands, rest.ok)
  }

  /** The commands handed on are the first ones of the line, up to the one that stops it. */
  lemma {:induction false} HandPrefix(l: Line, k: nat, ignore: bool, outcome: nat -> Outcome)
    requires k <= |l.commands|
    ensures var h := Hand(l, k, ignore, outcome);
      && h.commands <= l.commands[k..]
      && (forall i :: k <= i < k + |h.commands| - 1 ==> (outcome(i).ok || ignore) && !outcome(i).jump)
      && (k + |h.commands| < |l.commands| ==>
            && h.commands != []
            && (var o := outcome(k + |h.commands| - 1); (!o.ok && !ignore && !h.ok) || (o.jump && h.ok)))
    decreases |l.commands| - k
  {
    if k < |l.commands| {
      HandPrefix(l, k + 1, ignore, outcome);
      assert l.commands[k..] == [l.commands[k]] + l.commands[k + 1..];
    }
  }

  /** When every command succeeds, there is no jump and the quotes close, the commands handed
      on are the whole line. */
  lemma {:induction false} HandAll(l: Line, k: nat, ignore: bool, outcome: nat -> Outcome)
    requires k <= |l.commands| && (l.closed ==> k < |l.commands|)
    requires forall i :: k <= i < |l.commands| ==> outcome(i) == Outcome(true, false)
    ensures Hand(l, k, ignore, outcome) == Handed(l.commands[k..], l.closed)
    decreases |l.commands| - k
  {
    if k < |l.commands| && !(l.closed && k == |l.commands| - 1) {
      HandAll(l, k + 1, ignore, outcome);
    }
  }

  /** The search that goes on at `w` ends in `goal`; kept closed, see `Guard`. */
  ghost predicate Leads(s: string, w: nat, goal: Cut) {
    forall k :: Open(k) ==> w <= |s| && Scan(s, w) == goal
  }

  lemma {:induction false} LeadsEnd(s: string, w: nat, goal: Cut, ptr: nat)
    requires Leads(s, w, goal) && w <= |s| && ptr == SkipTo(s, w, LINE_SEPARATORS)
    ensures ptr == |s| || s[ptr] == '\n' || s[ptr] == '#' ==> goal == Last(w)
    ensures ptr < |s| && s[ptr] == ';' ==> goal == Semicolon(ptr, w)
  {
    assert Open(0);
  }

  /** Passing one character at a time over an escaped quotation mark comes to the same. */
  lemma LeadsEscaped(s: string, w: nat, goal: Cut, ptr: nat)
    requires Leads(s, w, goal) && w <= |s| && ptr == SkipTo(s, w, LINE_SEPARATORS)
    requires ptr < |s| && IsQuote(s[ptr]) && AfterBackslash(s, ptr)
    ensures w < |s| && Leads(s, w + 1, goal)
  {
    assert Open(0);
  }

  lemma {:induction false} LeadsQuoted(s: string, w: nat, goal: Cut, ptr: nat)
    requires Leads(s, w, goal) && w <= |s| && ptr == SkipTo(s, w, LINE_SEPARATORS)
    requires ptr < |s| && IsQuote(s[ptr]) && !AfterBackslash(s, ptr)
    ensures AfterQuoted(s, ptr) == None ==> goal == Unclosed
    ensures AfterQuoted(s, ptr).Some? ==> Leads(s, AfterQuoted(s, ptr).value, goal)
  {
    assert Open(0);
  }

  /** `handed` has been handed on, and `rest` is what is left of the line. */
  ghost predicate Progress(line: string, rest: string, handed: seq<string>, ignore: bool, outcome: nat -> Outcome) {
    && |handed| <= |Split(line).commands|
    && Split(rest) == Line(Split(line).commands[|handed|..], Split(line).closed)
    && (var h := Hand(Split(line), |handed|, ignore, outcome);
        Hand(Split(line), 0, ignore, outcome) == Handed(handed + h.commands, h.ok))
  }

  lemma {:induction false} ProgressLast(line: string, rest: string, handed: seq<string>, ignore: bool,
                                        outcome: nat -> Outcome)
    requires Progress(line, rest, handed, ignore, outcome) && Scan(rest, 0).Last?
    ensures Hand(Split(line), 0, ignore, outcome) == Handed(handed + [rest], outcome(|handed|).ok)
  {
    assert Split(line).commands[|handed|..][0] == rest;
  }

  lemma {:induction false} ProgressUnclosed(line: string, rest: string, handed: seq<string>, ignore: bool,
                                            outcome: nat -> Outcome)
    requires Progress(line, rest, handed, ignore, outcome) && Scan(rest, 0).Unclosed?
    ensures Hand(Split(line), 0, ignore, outcome) == Handed(handed, false)
  {
    assert |handed| == |Split(line).commands|;
    assert handed + [] == handed;
  }

  lemma {:induction false} ProgressNext(line: string, rest: string, handed: seq<string>, ignore: bool,
                                        outcome: nat -> Outcome, i: nat)
    requires Progress(line, rest, handed, ignore, outcome)
    requires Scan(rest, 0).Semicolon? && Scan(rest, 0).at == i
    ensures var more := handed + [rest[..i]];
            var o := outcome(|handed|);
            if !o.ok && !ignore then Hand(Split(line), 0, ignore, outcome) == Handed(more, false)
            else if o.jump then Hand(Split(line), 0, ignore, outcome) == Handed(more, true)
            else Progress(line, rest[i + 1..], more, ignore, outcome)
  {
    var k, l := |handed|, Split(line);
    SplitRest(rest, i);
    FirstOf(l.commands, k, rest[..i], Split(rest[i + 1..]).commands);
    HandAt(l, k, ignore, outcome);
    Regroup(handed, rest[..i], Hand(l, k + 1, ignore, outcome).commands);
    assert handed + [rest[..i]] + [] == handed + [rest[..i]];
  }

  lemma {:induction false} SplitRest(rest: string, i: nat)
    requires Scan(rest, 0).Semicolon? && Scan(rest, 0).at == i
    ensures Split(rest) == Line([rest[..i]] + Split(rest[i + 1..]).commands, Split(rest[i + 1..]).closed)
  {
  }

  /** A command that is not the last one. */
  lemma {:induction false} HandAt(l: Line, k: nat, ignore: bool, outcome: nat -> Outcome)
    requires k < |l.commands| && (l.closed ==> k + 1 < |l.commands|)
    ensures var c, o, rest := l.commands[k], outcome(k), Hand(l, k + 1, ignore, outcome);
      Hand(l, k, ignore, outcome) ==
        if !o.ok && !ignore then Handed([c], false)
        else if o.jump then Handed([c], true)
        else Handed([c] + rest.commands, rest.ok)
  {
  }

  lemma FirstOf(cmds: seq<string>, k: nat, first: string, tail: seq<string>)
    requires k <= |cmds| && cmds[k..] == [first] + tail
    ensures k < |cmds| && cmds[k] == first && cmds[k + 1..] == tail
  {
    assert cmds[k..][0] == first && cmds[k..][1..] == tail;
  }

  lemma Regroup(a: seq<string>, c: string, b: seq<string>)
    ensures a + ([c] + b) == a + [c] + b
  {
  }

  // The passes of the loop that look for the end of the command at `start`; `rest` is the
  // line from there on, and positions are relative to it.
  method FindCut(buf: array<char>, start: nat, ghost rest: string) returns (cut: Cut)
    requires Holds(buf, start, rest)
    ensures cut == Scan(rest, 0)
  {
    var working: nat := 0;
    ghost var goal := Scan(rest, 0);
    while true
      invariant working <= |rest| && Leads(rest, working, goal)
      decreases |rest| - working
    {
      var ptr := Strcspn(buf, start, rest, working, LINE_SEPARATORS);
      var c := CharAt(buf, start, rest, ptr);
      LeadsEnd(rest, working, goal, ptr);
      if c == '\0' || c == '\n' || c == '#' {
        return Last(working);
      } else if c == ';' {
        return Semicolon(ptr, working);
      }
      SeparatorCases(c);
      var next := PassQuote(buf, start, rest, working, ptr, c, goal);
      if next == None {
        return Unclosed;
      }
      working := next.value;
    }
  }

  // Where the search goes on after a quotation mark.
  method PassQuote(buf: array<char>, start: nat, ghost rest: string, working: nat, ptr: nat, c: char, ghost goal: Cut)
      returns (next: Option<nat>)
    requires Holds(buf, start, rest) && working <= |rest| && Leads(rest, working, goal)
    requires ptr == SkipTo(rest, working, LINE_SEPARATORS) && ptr < |rest| && c == rest[ptr] && IsQuote(c)
    ensures next == None ==> goal == Unclosed
    ensures next.Some? ==> working < next.value <= |rest| && Leads(rest, next.value, goal)
  {
    var prev := '\0';
    if ptr > 0 {
      prev := CharAt(buf, start, rest, ptr - 1);
    }
    if prev == '\\' {
      LeadsEscaped(rest, working, goal, ptr);
      return Some(working + 1);
    }
    LeadsQuoted(rest, working, goal, ptr);
    next := PassQuoted(buf, start, rest, ptr, c);
  }

  method PassQuoted(buf: array<char>, start: nat, ghost rest: string, ptr: nat, c: char) returns (next: Option<nat>)
    requires Holds(buf, start, rest) && ptr < |rest| && c == rest[ptr] && IsQuote(c)
    ensures next == AfterQuoted(rest, ptr)
  {
    var end := StrChr(buf, start, rest, ptr + 1, c);
    next := if end == None then None else Some(end.value + 1);
  }

  /** Where the text goes on after the quoted part that begins at `ptr`. */
  function AfterQuoted(s: string, ptr: nat): (next: Option<nat>)
    requires ptr < |s|
    ensures next.Some? ==> ptr < next.value <= |s|
  {
    var end := FindUnescaped(s, ptr + 1, s[ptr], false);
    if end == None then None else Some(end.value + 1)
  }

  method ParseLine(buf: array<char>, ghost line: string, ignore: bool, outcome: nat -> Outcome)
      returns (handed: seq<string>, ok: bool)
    requires Holds(buf, 0, line)
    modifies buf
    ensures Handed(handed, ok) == Hand(Split(line), 0, ignore, outcome)
  {
    var start: nat, jump := 0, false;
    ghost var rest := line;
    handed := [];
    assert Split(line).commands[0..] == Split(line).commands;
    while !jump
      invariant !jump ==> Holds(buf, start, rest) && Progress(line, rest, handed, ignore, outcome)
      invariant jump ==> Handed(handed, true) == Hand(Split(line), 0, ignore, outcome)
      decreases if jump then 0 else 1, |rest|
    {
      var cut := FindCut(buf, start, rest);
      match cut
      case Last(_) =>
        var command := TakeAll(buf, start, rest);
        ok := outcome(|handed|).ok;
        ProgressLast(line, rest, handed, ignore, outcome);
        handed := handed + [command];
        return;
      case Unclosed =>
        ProgressUnclosed(line, rest, handed, ignore, outcome);
        return handed, false;
      case Semicolon(ptr, _) =>
        ProgressNext(line, rest, handed, ignore, outcome, ptr);
        ok := outcome(|handed|).ok;
        jump := outcome(|handed|).jump;
        var command;
        command, start, rest := Terminate(buf, start, rest, ptr);
        handed := handed + [command];
        if !ok && !ignore {
          return;
        }
    }
    ok := true;
  }

  // Ends the command at the semicolon; the text behind it stays in place.
  method Terminate(buf: array<char>, start: nat, ghost rest: string, ptr: nat)
      returns (command: string, next: nat, ghost after: string)
    requires Holds(buf, start, rest) && ptr < |rest|
    modifies buf
    ensures command == rest[..ptr] && Holds(buf, start, command)
    ensures after == rest[ptr + 1..] && Holds(buf, next, after) && next == start + ptr + 1
  {
    next, after := start + ptr + 1, rest[ptr + 1..];
    Taken(buf, start, rest, ptr);
    Later(buf, start, rest, ptr + 1);
    command := buf[start..start + ptr];
    buf[start + ptr] := '\0';
  }
}
