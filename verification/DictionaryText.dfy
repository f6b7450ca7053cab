/** The text handling of the dictionary: the fields shown for a row. */
module DictionaryText {

  import opened CText
  import opened Guard

  predicate Blank(c: char) { c == ' ' || c == '\t' }

  function SkipBlanks(s: string, p: nat): (q: nat)
    requires p <= |s|
    ensures p <= q <= |s| && (forall i :: p <= i < q ==> Blank(s[i])) && (q < |s| ==> !Blank(s[q]))
    decreases |s| - p
  {
    if p < |s| && Blank(s[p]) then SkipBlanks(s, p + 1) else p
  }

  /** The text from `p` on without its bracketed parts and the blanks behind them. */
  function Strip(s: string, p: nat): string
    requires p <= |s|
    decreases |s| - p
  {
    if p == |s| then []
    else if s[p] == '[' && SkipTo(s, p, "]") < |s| then Strip(s, SkipBlanks(s, SkipTo(s, p, "]") + 1))
    else [s[p]] + Strip(s, p + 1)
  }

  function Trim(t: string): (r: string)
    ensures r <= t
  {
    if t != [] && (Blank(t[|t| - 1]) || t[|t| - 1] == '\n') then Trim(t[..|t| - 1]) else t
  }

  function Cut(t: string, room: nat): (r: string)
    ensures r <= t && |r| == if |t| <= room then |t| else room
  {
    if |t| <= room then t else t[..room]
  }

  /** What a field of `room` characters shows for `s`. */
  function Clean(s: string, room: nat): string { Trim(Cut(Strip(s, 0), room)) }

  // copy_field_sanitize
  method CopyFieldSanitize(dst: array<char>, src: Option<string>)
    requires dst.Length >= 1
    modifies dst
    ensures var shown := if src.Some? then Clean(src.value, dst.Length - 1) else "";
      |shown| < dst.Length && dst[..|shown|] == shown && dst[|shown|] == '\0'
  {
    var out := 0;
    if src.Some? {
      out := CopyStripped(dst, src.value);
      out := TrimEnd(dst, out);
    }
    dst[out] := '\0';
  }

  /** The loop that copies. */
  method CopyStripped(dst: array<char>, s: string) returns (out: nat)
    requires dst.Length >= 1
    modifies dst
    ensures out < dst.Length && dst[..out] == Cut(Strip(s, 0), dst.Length - 1)
  {
    var p: nat := 0;
    out := 0;
    ghost var done, goal := "", Strip(s, 0);
    while p < |s| && out < dst.Length - 1
      invariant p <= |s| && out < dst.Length && dst[..out] == done && Leads(done, s, p, goal)
      decreases |s| - p
    {
      var close := SkipTo(s, p, "]");
      if s[p] == '[' && close < |s| {
        LeadsPast(done, s, p, goal);
        p := PassBlanks(s, close + 1);
      } else {
        LeadsKept(done, s, p, goal);
        dst[out] := s[p];
        done := done + [s[p]];
        out, p := out + 1, p + 1;
      }
    }
    LeadsCut(done, s, p, goal, dst.Length - 1);
  }

  /** With what is left of `s` from `p` on, `done` becomes `goal`; kept closed, see `Guard`. */
  ghost predicate Leads(done: string, s: string, p: nat, goal: string) {
    p <= |s| && forall k :: Open(k) ==> done + Strip(s, p) == goal
  }

  lemma {:induction false} LeadsPast(done: string, s: string, p: nat, goal: string)
    requires Leads(done, s, p, goal) && p < |s| && s[p] == '[' && SkipTo(s, p, "]") < |s|
    ensures Leads(done, s, SkipBlanks(s, SkipTo(s, p, "]") + 1), goal)
  {
    assert Open(0);
  }

  lemma {:induction false} LeadsKept(done: string, s: string, p: nat, goal: string)
    requires Leads(done, s, p, goal) && p < |s| && !(s[p] == '[' && SkipTo(s, p, "]") < |s|)
    ensures Leads(done + [s[p]], s, p + 1, goal)
  {
    assert Open(0);
    assert done + ([s[p]] + Strip(s, p + 1)) == done + [s[p]] + Strip(s, p + 1);
  }

  /** The loop ends when there is nothing left, or no room. */
  lemma {:induction false} LeadsCut(done: string, s: string, p: nat, goal: string, room: nat)
    requires Leads(done, s, p, goal) && |done| <= room && (p == |s| || |done| == room)
    ensures done == Cut(goal, room)
  {
    assert Open(0);
  }

  method PassBlanks(s: string, p: nat) returns (q: nat)
    requires p <= |s|
    ensures q == SkipBlanks(s, p)
  {
    q := p;
    while q < |s| && Blank(s[q])
      invariant p <= q <= |s| && SkipBlanks(s, p) == SkipBlanks(s, q)
    {
      q := q + 1;
    }
  }

  /** The loop that drops white space at the end. */
  method TrimEnd(dst: array<char>, len: nat) returns (out: nat)
    requires len < dst.Length
    ensures out <= len && dst[..out] == Trim(dst[..len])
  {
    out := len;
    while out > 0 && (Blank(dst[out - 1]) || dst[out - 1] == '\n')
      invariant 0 <= out <= len
      invariant Trim(dst[..out]) == Trim(dst[..len])
    {
      assert dst[..out][..out - 1] == dst[..out - 1];
      out := out - 1;
    }
  }

  function FirstElement(s: string): string { s[..SkipTo(s, 0, ";")] }

  // copy_first_element
  method CopyFirstElement(dst: array<char>, src: Option<string>)
    requires dst.Length >= 1
    modifies dst
    ensures var shown := if src.Some? then Cut(FirstElement(src.value), dst.Length - 1) else "";
      |shown| < dst.Length && dst[..|shown|] == shown && dst[|shown|] == '\0'
  {
    if src.None? || src.value == "" {
      dst[0] := '\0';
      return;
    }
    var s := src.value;
    var len := SkipTo(s, 0, ";");
    if len >= dst.Length {
      len := dst.Length - 1;
    }
    forall k | 0 <= k < len {
      dst[k] := s[k];
    }
    dst[len] := '\0';
  }

  // ---------- what is shown ----------

  /** No bracket is closed. */
  ghost predicate Unbracketed(t: string) {
    forall i, j :: 0 <= i < j < |t| && t[i] == '[' ==> t[j] != ']'
  }

  lemma {:induction false} StripNoClose(s: string, p: nat)
    requires p <= |s| && forall j :: p <= j < |s| ==> s[j] != ']'
    ensures Strip(s, p) == s[p..]
    decreases |s| - p
  {
    if p < |s| {
      StripNoClose(s, p + 1);
    }
  }

  lemma {:induction false} StripUnbrackets(s: string, p: nat)
    requires p <= |s|
    ensures Unbracketed(Strip(s, p))
    decreases |s| - p
  {
    if p < |s| {
      var close := SkipTo(s, p, "]");
      if s[p] == '[' && close < |s| {
        StripUnbrackets(s, SkipBlanks(s, close + 1));
      } else {
        StripUnbrackets(s, p + 1);
        if s[p] == '[' {
          StripNoClose(s, p + 1);
        }
      }
    }
  }

  lemma {:induction false} StripKeeps(t: string, p: nat)
    requires p <= |t| && Unbracketed(t[p..])
    ensures Strip(t, p) == t[p..]
    decreases |t| - p
  {
    if p < |t| {
      Later(t, p);
      StripKeeps(t, p + 1);
    }
  }

  lemma Later(t: string, p: nat)
    requires p < |t| && Unbracketed(t[p..])
    ensures Unbracketed(t[p + 1..]) && (t[p] == '[' ==> forall j :: p < j < |t| ==> t[j] != ']')
  {
    var r, rest := t[p..], t[p + 1..];
    forall i, j | 0 <= i < j < |rest| && rest[i] == '['
      ensures rest[j] != ']'
    {
      assert r[i + 1] == '[' && r[j + 1] == rest[j];
    }
    if t[p] == '[' {
      forall j | p < j < |t|
        ensures t[j] != ']'
      {
        assert r[0] == '[' && r[j - p] == t[j];
      }
    }
  }

  /** Exactly the texts without a closed bracket are left as they are. */
  lemma {:induction false} StripExactly(t: string)
    ensures Strip(t, 0) == t <==> Unbracketed(t)
  {
    StripUnbrackets(t, 0);
    if Unbracketed(t) {
      assert t[0..] == t;
      StripKeeps(t, 0);
    }
  }

  lemma {:induction false} TrimTrimmed(t: string)
    ensures Trim(Trim(t)) == Trim(t)
  {
    if t != [] && (Blank(t[|t| - 1]) || t[|t| - 1] == '\n') {
      TrimTrimmed(t[..|t| - 1]);
    }
  }

  /** Showing what is shown changes nothing. */
  lemma CleanTwice(s: string, room: nat)
    ensures Unbracketed(Clean(s, room)) && |Clean(s, room)| <= room
    ensures Clean(Clean(s, room), room) == Clean(s, room)
  {
    StripUnbrackets(s, 0);
    var c := Clean(s, room);
    assert Unbracketed(c) && c[0..] == c;
    StripKeeps(c, 0);
    TrimTrimmed(Cut(Strip(s, 0), room));
  }

  /** `t` is what remains of `s`, from `p` on, when some characters are left out. */
  ghost predicate Remains(t: string, s: string, p: nat)
    requires p <= |s|
    decreases |s| - p
  {
    t == [] || (p < |s| && ((t[0] == s[p] && Remains(t[1..], s, p + 1)) || Remains(t, s, p + 1)))
  }

  lemma {:induction false} RemainsLater(t: string, s: string, p: nat, q: nat)
    requires p <= q <= |s| && Remains(t, s, q)
    ensures Remains(t, s, p)
    decreases q - p
  {
    if p < q {
      RemainsLater(t, s, p + 1, q);
    }
  }

  lemma {:induction false} RemainsPrefix(t: string, r: string, s: string, p: nat)
    requires p <= |s| && Remains(t, s, p) && r <= t
    ensures Remains(r, s, p)
    decreases |s| - p
  {
    if r != [] {
      if t[0] == s[p] && Remains(t[1..], s, p + 1) {
        RemainsPrefix(t[1..], r[1..], s, p + 1);
      } else {
        RemainsPrefix(t, r, s, p + 1);
      }
    }
  }

  lemma {:induction false} StripRemains(s: string, p: nat)
    requires p <= |s|
    ensures Remains(Strip(s, p), s, p)
    decreases |s| - p
  {
    if p < |s| {
      var close := SkipTo(s, p, "]");
      if s[p] == '[' && close < |s| {
        var q := SkipBlanks(s, close + 1);
        StripRemains(s, q);
        RemainsLater(Strip(s, q), s, p, q);
      } else {
        StripRemains(s, p + 1);
        assert Strip(s, p)[1..] == Strip(s, p + 1);
      }
    }
  }

  /** Nothing is shown that is not there, in that order. */
  lemma {:induction false} CleanRemains(s: string, room: nat)
    ensures Remains(Clean(s, room), s, 0)
  {
    StripRemains(s, 0);
    RemainsPrefix(Strip(s, 0), Clean(s, room), s, 0);
  }

  // ---------- exactly what is left out ----------

  predicate White(c: char) { c == ' ' || c == '\t' || c == '\n' }

  /** What is shown does not end in white space, and nothing but white space was dropped at the end. */
  lemma {:induction false} TrimExactly(t: string)
    ensures var r := Trim(t);
      && r <= t && (r != "" ==> !White(r[|r| - 1])) && forall i :: |r| <= i < |t| ==> White(t[i])
  {
    if t != [] && White(t[|t| - 1]) {
      TrimExactly(t[..|t| - 1]);
    }
  }

  /** A closed bracket: in front of it some text without `[`, and behind it blanks. */
  datatype Bracketed = Bracketed(before: string, inside: string, gap: string)

  predicate Sound(b: Bracketed) {
    '[' !in b.before && ']' !in b.inside && forall i :: 0 <= i < |b.gap| ==> b.gap[i] == ' ' || b.gap[i] == '\t'
  }

  predicate Visible(t: string) { t != "" ==> t[0] != ' ' && t[0] != '\t' }

  /** The texts behind a bracket do not begin with a blank: that would belong to the gap. */
  predicate GapsWhole(bs: seq<Bracketed>, last: string) {
    (forall i :: 1 <= i < |bs| ==> Visible(bs[i].before)) && (bs != [] ==> Visible(last))
  }

  function Part(b: Bracketed): string { b.before + "[" + b.inside + "]" + b.gap }

  function TextOf(bs: seq<Bracketed>, last: string): string {
    if bs == [] then last else Part(bs[0]) + TextOf(bs[1..], last)
  }

  function KeptOf(bs: seq<Bracketed>, last: string): string {
    if bs == [] then last else bs[0].before + KeptOf(bs[1..], last)
  }

  /** Up to the next `[` the text is kept. */
  lemma {:induction false} StripPast(s: string, p: nat, q: nat, kept: string, rest: string)
    requires p <= q <= |s| && s[p..q] == kept && rest == Strip(s, q) && '[' !in kept
    ensures Strip(s, p) == kept + rest
    decreases q - p
  {
    if p < q {
      StripPast(s, p + 1, q, kept[1..], rest);
      StepPast(s, p, kept[0], kept[1..] + rest);
      Regroup(kept, rest);
    }
  }

  lemma StepPast(s: string, p: nat, c: char, tail: string)
    requires p < |s| && s[p] == c != '[' && Strip(s, p + 1) == tail
    ensures Strip(s, p) == [c] + tail
  {
  }

  lemma Regroup(kept: string, rest: string)
    requires kept != ""
    ensures [kept[0]] + (kept[1..] + rest) == kept + rest
  {
  }

  lemma {:induction false} FindClose(s: string, p: nat, q: nat)
    requires p <= q < |s| && s[q] == ']' && forall i :: p <= i < q ==> s[i] != ']'
    ensures SkipTo(s, p, "]") == q
    decreases q - p
  {
    assert "]"[0] == ']' && forall c :: c in "]" ==> c == ']';
    if p < q {
      FindClose(s, p + 1, q);
    }
  }

  lemma {:induction false} SkipsTo(s: string, p: nat, q: nat)
    requires p <= q <= |s| && (forall i :: p <= i < q ==> Blank(s[i])) && (q < |s| ==> !Blank(s[q]))
    ensures SkipBlanks(s, p) == q
    decreases q - p
  {
    if p < q {
      SkipsTo(s, p + 1, q);
    }
  }

  /** A closed bracket goes with the blanks behind it. */
  lemma {:induction false} StripBracket(s: string, open: nat, close: nat, next: nat)
    requires open < close < next <= |s| && s[open] == '[' && s[close] == ']'
    requires ']' !in s[open + 1..close] && (forall i :: close < i < next ==> Blank(s[i]))
    requires next < |s| ==> !Blank(s[next])
    ensures Strip(s, open) == Strip(s, next)
  {
    forall i | open <= i < close
      ensures s[i] != ']'
    {
      assert i > open ==> s[i] == s[open + 1..close][i - open - 1];
    }
    FindClose(s, open, close);
    SkipsTo(s, close + 1, next);
  }

  /** What was appended stands where the text ended. */
  lemma Stands(a: string, b: string, s: string)
    requires a + b <= s
    ensures a <= s && |a| + |b| <= |s| && s[|a|..|a| + |b|] == b
    ensures b != "" ==> s[|a|] == b[0]
  {
    assert (a + b)[|a|..] == b;
    assert s[..|a| + |b|] == a + b;
  }

  /** One bracketed part from `p` on: the text in front of it is kept. */
  lemma {:induction false} StripOne(s: string, p: nat, b: Bracketed, open: nat, close: nat, next: nat)
    requires Sound(b) && p <= open < close < next <= |s| && s[open] == '[' && s[close] == ']'
    requires s[p..open] == b.before && s[open + 1..close] == b.inside && s[close + 1..next] == b.gap
    requires next < |s| ==> !Blank(s[next])
    ensures Strip(s, p) == b.before + Strip(s, next)
  {
    forall i | close < i < next
      ensures Blank(s[i])
    {
      assert s[i] == s[close + 1..next][i - close - 1];
    }
    StripBracket(s, open, close, next);
    StripPast(s, p, open, b.before, Strip(s, next));
  }

  lemma BracketAt(pre: string, b: Bracketed, rest: string, s: string) returns (next: nat)
    requires Sound(b) && Visible(rest) && s == pre + b.before + "[" + b.inside + "]" + b.gap + rest
    ensures next == |pre| + |b.before| + |b.inside| + |b.gap| + 2 <= |s|
    ensures Strip(s, |pre|) == b.before + Strip(s, next)
  {
    var s1 := pre + b.before;
    var s2 := s1 + "[";
    var s3 := s2 + b.inside;
    var s4 := s3 + "]";
    var s5 := s4 + b.gap;
    Stands(s5, rest, s);
    Stands(s4, b.gap, s);
    Stands(s3, "]", s);
    Stands(s2, b.inside, s);
    Stands(s1, "[", s);
    Stands(pre, b.before, s);
    next := |s5|;
    StripOne(s, |pre|, b, |s1|, |s3|, next);
  }

  lemma Moved(pre: string, b: Bracketed, text: string)
    ensures pre + (Part(b) + text) == pre + b.before + "[" + b.inside + "]" + b.gap + text
  {
  }

  /** What follows a bracketed part does not begin with a blank. */
  lemma {:induction false} StartsVisibly(bs: seq<Bracketed>, last: string)
    requires (bs != [] ==> Visible(bs[0].before)) && (bs == [] ==> Visible(last))
    ensures Visible(TextOf(bs, last))
  {
    if bs != [] {
      var b := bs[0];
      assert Part(b)[0] == if b.before != "" then b.before[0] else '[';
    }
  }

  lemma {:induction false} Kept(bs: seq<Bracketed>, last: string, tail: string)
    requires bs != [] && tail == KeptOf(bs[1..], last)
    ensures bs[0].before + tail == KeptOf(bs, last)
  {
  }

  /** The closed brackets are left out with the blanks behind them, and nothing else is. */
  lemma {:induction false} StripBrackets(pre: string, bs: seq<Bracketed>, last: string, s: string)
    requires s == pre + TextOf(bs, last) && (forall i :: 0 <= i < |bs| ==> Sound(bs[i]))
    requires Unbracketed(last) && GapsWhole(bs, last)
    ensures Strip(s, |pre|) == KeptOf(bs, last)
    decreases |bs|
  {
    if bs == [] {
      assert s[|pre|..] == last;
      StripKeeps(s, |pre|);
    } else {
      var b, rest := bs[0], bs[1..];
      var text := TextOf(rest, last);
      var pre' := pre + b.before + "[" + b.inside + "]" + b.gap;
      Moved(pre, b, text);
      StartsVisibly(rest, last);
      StripBrackets(pre', rest, last, s);
      var next := BracketAt(pre, b, text, s);
      assert |pre'| == next;
      var tail := Strip(s, next);
      Kept(bs, last, tail);
    }
  }

  /** For every such text and every room: the field shows the kept text, cut to the room and trimmed. */
  lemma {:induction false} CleanBrackets(bs: seq<Bracketed>, last: string, room: nat)
    requires (forall i :: 0 <= i < |bs| ==> Sound(bs[i])) && Unbracketed(last) && GapsWhole(bs, last)
    ensures Clean(TextOf(bs, last), room) == Trim(Cut(KeptOf(bs, last), room))
  {
    var s := TextOf(bs, last);
    assert "" + s == s;
    StripBrackets("", bs, last, s);
  }
}
