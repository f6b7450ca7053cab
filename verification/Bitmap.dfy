/** The bitmap converter: palette, quantisation and run-length encoding of a row. */
module Bitmap {

  import opened CText

  datatype Color = Color(r: int, g: int, b: int)

  // ---------- run-length encoding ----------

  datatype Entry = Entry(repeats: nat, color: nat)

  const MAX_REPEATS := 255

  predicate ValidEntries(es: seq<Entry>) {
    forall i :: 0 <= i < |es| ==> 1 <= es[i].repeats <= MAX_REPEATS
  }

  function Repeat(n: nat, c: nat): seq<nat> { if n == 0 then [] else Repeat(n - 1, c) + [c] }

  function Decode(es: seq<Entry>): seq<nat> {
    if es == [] then []
    else Decode(es[..|es| - 1]) + Repeat(es[|es| - 1].repeats, es[|es| - 1].color)
  }

  /** One more pixel: the last entry grows, or a new one begins. */
  function Add(es: seq<Entry>, c: nat): seq<Entry> {
    if es != [] && es[|es| - 1].color == c && es[|es| - 1].repeats < MAX_REPEATS then
      es[..|es| - 1] + [Entry(es[|es| - 1].repeats + 1, c)]
    else es + [Entry(1, c)]
  }

  function Encode(row: seq<nat>): seq<Entry> {
    if row == [] then [] else Add(Encode(row[..|row| - 1]), row[|row| - 1])
  }

  lemma {:induction false} DecodeSnoc(es: seq<Entry>, e: Entry)
    ensures Decode(es + [e]) == Decode(es) + Repeat(e.repeats, e.color)
  {
    assert (es + [e])[..|es|] == es;
  }

  lemma {:induction false} AddDecodes(es: seq<Entry>, c: nat)
    requires ValidEntries(es)
    ensures ValidEntries(Add(es, c)) && Decode(Add(es, c)) == Decode(es) + [c]
  {
    if es != [] && es[|es| - 1].color == c && es[|es| - 1].repeats < MAX_REPEATS {
      var init, last := es[..|es| - 1], es[|es| - 1];
      DecodeSnoc(init, Entry(last.repeats + 1, c));
      Attach(Decode(init), Repeat(last.repeats, c), c);
    } else {
      DecodeSnoc(es, Entry(1, c));
      assert Repeat(1, c) == Repeat(0, c) + [c] == [c];
    }
  }

  lemma Attach(a: seq<nat>, b: seq<nat>, c: nat)
    ensures a + (b + [c]) == a + b + [c]
  {
  }

  lemma {:induction false} EncodeSnoc(row: seq<nat>, init: seq<nat>, c: nat)
    requires row != [] && init == row[..|row| - 1] && c == row[|row| - 1]
    ensures Encode(row) == Add(Encode(init), c) && row == init + [c]
  {
  }

  /** Nothing is lost, and every count fits a byte. */
  lemma {:induction false} EncodeDecodes(row: seq<nat>)
    ensures ValidEntries(Encode(row)) && Decode(Encode(row)) == row
    decreases |row|
  {
    if row != [] {
      var init, c := row[..|row| - 1], row[|row| - 1];
      EncodeDecodes(init);
      AddDecodes(Encode(init), c);
      EncodeSnoc(row, init, c);
    }
  }

  lemma {:induction false} RepeatEnds(n: nat, c: nat)
    requires n >= 1
    ensures Repeat(n, c) != [] && Repeat(n, c)[|Repeat(n, c)| - 1] == c
  {
  }

  lemma {:induction false} LastPixel(f: seq<Entry>)
    requires ValidEntries(f) && f != []
    ensures Decode(f) != [] && Decode(f)[|Decode(f)| - 1] == f[|f| - 1].color
  {
    RepeatEnds(f[|f| - 1].repeats, f[|f| - 1].color);
  }

  /** A list of entries without its last pixel. */
  function Shorter(f: seq<Entry>): seq<Entry>
    requires f != [] && f[|f| - 1].repeats >= 1
  {
    var init, last := f[..|f| - 1], f[|f| - 1];
    if last.repeats == 1 then init else init + [last.(repeats := last.repeats - 1)]
  }

  lemma {:induction false} DropOne(init: seq<Entry>, last: Entry)
    requires last.repeats >= 1
    ensures Decode(init + [last]) == Decode(init) + Repeat(last.repeats - 1, last.color) + [last.color]
  {
    DecodeSnoc(init, last);
    var head, tail := Decode(init), Repeat(last.repeats - 1, last.color);
    assert Repeat(last.repeats, last.color) == tail + [last.color];
    assert head + (tail + [last.color]) == head + tail + [last.color];
  }

  lemma {:induction false} ShorterDecodes(init: seq<Entry>, last: Entry)
    requires last.repeats >= 1
    ensures Decode(Shorter(init + [last])) == Decode(init) + Repeat(last.repeats - 1, last.color)
  {
    assert (init + [last])[..|init|] == init;
    if last.repeats == 1 {
      assert Repeat(0, last.color) == [];
    } else {
      DecodeSnoc(init, last.(repeats := last.repeats - 1));
    }
  }

  lemma {:induction false} DropPixel(f: seq<Entry>)
    requires ValidEntries(f) && f != []
    ensures ValidEntries(Shorter(f)) && Decode(f) == Decode(Shorter(f)) + [f[|f| - 1].color]
  {
    var init, last := f[..|f| - 1], f[|f| - 1];
    assert f == init + [last];
    DropOne(init, last);
    ShorterDecodes(init, last);
  }

  /** Entries `e` are no worse than `f`: fewer, or as many with a last one that is not longer. */
  predicate NoWorse(e: seq<Entry>, f: seq<Entry>) {
    |e| <= |f| && (|e| == |f| && e != [] ==> e[|e| - 1].repeats <= f[|f| - 1].repeats)
  }

  lemma AddNoWorse(e: seq<Entry>, f: seq<Entry>, c: nat)
    requires ValidEntries(f) && f != [] && f[|f| - 1].color == c && NoWorse(e, Shorter(f))
    requires f[|f| - 1].repeats > 1 ==> e != [] && e[|e| - 1].color == c
    ensures NoWorse(Add(e, c), f)
  {
  }

  /** No other list of entries for the row is shorter, and among those of the same length the
      last entry is as short as it can be. */
  lemma {:induction false} EncodeOptimal(row: seq<nat>, f: seq<Entry>)
    requires ValidEntries(f) && Decode(f) == row
    ensures |Encode(row)| <= |f| && NoWorse(Encode(row), f)
    decreases |row|
  {
    if row != [] {
      var init, c := row[..|row| - 1], row[|row| - 1];
      DropPixel(f);
      assert init == Decode(Shorter(f)) && c == f[|f| - 1].color;
      EncodeOptimal(init, Shorter(f));
      if f[|f| - 1].repeats > 1 {
        SameColor(init, Shorter(f), c);
      }
      AddNoWorse(Encode(init), f, c);
    }
  }

  lemma {:induction false} SameColor(row: seq<nat>, f: seq<Entry>, c: nat)
    requires ValidEntries(f) && f != [] && Decode(f) == row && f[|f| - 1].color == c
    ensures Encode(row) != [] && Encode(row)[|Encode(row)| - 1].color == c
  {
    LastPixel(f);
    EncodeLast(row);
  }

  lemma {:induction false} EncodeLast(row: seq<nat>)
    requires row != []
    ensures Encode(row) != [] && Encode(row)[|Encode(row)| - 1].color == row[|row| - 1]
  {
  }

  // ---------- palette and quantisation ----------

  /** A colour of the image and how many pixels have it. */
  datatype Counted = Counted(count: nat, color: Color)

  /** Insertion by falling count, behind those of the same count. */
  function Insert(sorted: seq<Counted>, c: Counted): seq<Counted> {
    if sorted == [] then [c]
    else if sorted[0].count >= c.count then [sorted[0]] + Insert(sorted[1..], c)
    else [c] + sorted
  }

  function SortByCount(colors: seq<Counted>): seq<Counted> {
    if colors == [] then [] else Insert(SortByCount(colors[..|colors| - 1]), colors[|colors| - 1])
  }

  // get_palette
  function GetPalette(colors: seq<Counted>, maxcolors: nat): seq<Color> {
    var sorted := SortByCount(colors);
    var kept := if |sorted| <= maxcolors then sorted else sorted[..maxcolors];
    seq(|kept|, i requires 0 <= i < |kept| => kept[i].color)
  }

  ghost predicate Falling(s: seq<Counted>) {
    forall i, j :: 0 <= i < j < |s| ==> s[i].count >= s[j].count
  }

  lemma {:induction false} InsertKeeps(s: seq<Counted>, c: Counted)
    ensures multiset(Insert(s, c)) == multiset(s) + multiset{c} && |Insert(s, c)| == |s| + 1
    ensures forall x :: x in Insert(s, c) ==> x == c || x in s
    decreases |s|
  {
    if s != [] {
      assert s == [s[0]] + s[1..];
      if s[0].count >= c.count {
        InsertKeeps(s[1..], c);
      }
    }
  }

  lemma {:induction false} InsertSorts(s: seq<Counted>, c: Counted)
    requires Falling(s)
    ensures Falling(Insert(s, c))
    decreases |s|
  {
    if s != [] && s[0].count >= c.count {
      InsertSorts(s[1..], c);
      InsertKeeps(s[1..], c);
      var t := Insert(s[1..], c);
      forall i | 0 <= i < |t|
        ensures s[0].count >= t[i].count
      {
        assert t[i] in t;
      }
    }
  }

  lemma {:induction false} SortSorts(colors: seq<Counted>)
    ensures Falling(SortByCount(colors)) && multiset(SortByCount(colors)) == multiset(colors)
    ensures |SortByCount(colors)| == |colors|
    decreases |colors|
  {
    if colors != [] {
      var init, c := colors[..|colors| - 1], colors[|colors| - 1];
      SortSorts(init);
      InsertSorts(SortByCount(init), c);
      InsertKeeps(SortByCount(init), c);
      assert colors == init + [c];
    }
  }

  /** Those of `s` that are used `n` times, in order. */
  function Used(s: seq<Counted>, n: nat): seq<Counted> {
    if s == [] then [] else (if s[0].count == n then [s[0]] else []) + Used(s[1..], n)
  }

  lemma {:induction false} UsedSnoc(s: seq<Counted>, c: Counted, n: nat)
    ensures Used(s + [c], n) == Used(s, n) + if c.count == n then [c] else []
    decreases |s|
  {
    if s == [] {
      assert s + [c] == [c];
    } else {
      assert (s + [c])[1..] == s[1..] + [c];
      UsedSnoc(s[1..], c, n);
    }
  }

  lemma {:induction false} NoneUsed(s: seq<Counted>, n: nat)
    requires forall i :: 0 <= i < |s| ==> s[i].count != n
    ensures Used(s, n) == []
    decreases |s|
  {
    if s != [] {
      NoneUsed(s[1..], n);
    }
  }

  lemma {:induction false} UsedFirst(c: Counted, s: seq<Counted>, n: nat)
    ensures Used([c] + s, n) == (if c.count == n then [c] else []) + Used(s, n)
  {
    assert ([c] + s)[1..] == s;
  }

  lemma {:induction false} InsertStable(s: seq<Counted>, c: Counted, n: nat)
    requires Falling(s)
    ensures Used(Insert(s, c), n) == Used(s, n) + if c.count == n then [c] else []
    decreases |s|
  {
    if s != [] && s[0].count >= c.count {
      InsertStable(s[1..], c, n);
      UsedFirst(s[0], Insert(s[1..], c), n);
    } else {
      UsedFirst(c, s, n);
      if c.count == n {
        NoneUsed(s, n);
      }
    }
  }

  /** Colours used equally often stay in their order. */
  lemma {:induction false} SortStable(colors: seq<Counted>, n: nat)
    ensures Used(SortByCount(colors), n) == Used(colors, n)
    decreases |colors|
  {
    if colors != [] {
      var init, c := colors[..|colors| - 1], colors[|colors| - 1];
      assert colors == init + [c];
      SortSorts(init);
      SortStable(init, n);
      InsertStable(SortByCount(init), c, n);
      UsedSnoc(init, c, n);
    }
  }

  /** The palette keeps the most used colours. */
  lemma {:induction false} PaletteKeepsMostUsed(colors: seq<Counted>, maxcolors: nat, kept: nat, dropped: nat)
    requires kept < maxcolors <= dropped < |colors|
    ensures |SortByCount(colors)| == |colors| && |GetPalette(colors, maxcolors)| == maxcolors
    ensures SortByCount(colors)[kept].count >= SortByCount(colors)[dropped].count
    ensures GetPalette(colors, maxcolors)[kept] == SortByCount(colors)[kept].color
  {
    SortSorts(colors);
  }

  /** With no more colours than the palette holds, every one is in it. */
  lemma PaletteHasAll(colors: seq<Counted>, maxcolors: nat, k: nat)
    requires |colors| <= maxcolors && k < |colors|
    ensures colors[k].color in GetPalette(colors, maxcolors)
  {
    SortSorts(colors);
    var sorted := SortByCount(colors);
    assert colors[k] in multiset(colors);
    assert colors[k] in multiset(sorted);
    var i :| 0 <= i < |sorted| && sorted[i] == colors[k];
    assert GetPalette(colors, maxcolors)[i] == colors[k].color;
  }

  function Distance(a: Color, b: Color): int {
    (a.r - b.r) * (a.r - b.r) + (a.g - b.g) * (a.g - b.g) + (a.b - b.b) * (a.b - b.b)
  }

  lemma Square(x: int)
    ensures x * x >= 0 && (x * x == 0 <==> x == 0)
  {
  }

  /** Only a colour itself is at no distance. */
  lemma NoDistance(a: Color, b: Color)
    ensures Distance(a, b) >= 0 && (Distance(a, b) == 0 <==> a == b)
  {
    Square(a.r - b.r);
    Square(a.g - b.g);
    Square(a.b - b.b);
  }

  /** Two steps along different channels, with Pythagoras; and a step along one channel. */
  lemma Pythagoras(a: Color, b: Color, c: Color)
    requires (a.r == b.r || b.r == c.r) && (a.g == b.g || b.g == c.g) && (a.b == b.b || b.b == c.b)
    ensures Distance(a, c) == Distance(a, b) + Distance(b, c) && Distance(a, b) == Distance(b, a)
    ensures a.g == b.g && a.b == b.b ==> Distance(a, b) == (a.r - b.r) * (a.r - b.r)
    ensures a.r == b.r && a.b == b.b ==> Distance(a, b) == (a.g - b.g) * (a.g - b.g)
    ensures a.r == b.r && a.g == b.g ==> Distance(a, b) == (a.b - b.b) * (a.b - b.b)
  {
    SameStep(a.r, b.r, c.r);
    SameStep(a.g, b.g, c.g);
    SameStep(a.b, b.b, c.b);
  }

  lemma SameStep(x: int, y: int, z: int)
    requires x == y || y == z
    ensures (x - z) * (x - z) == (x - y) * (x - y) + (y - z) * (y - z) && (x - y) * (x - y) == (y - x) * (y - x)
  {
  }

  function IndexOf(palette: seq<Color>, c: Color): (i: nat)
    ensures i <= |palette| && (i < |palette| ==> palette[i] == c)
    ensures forall j :: 0 <= j < i ==> palette[j] != c
  {
    if palette == [] || palette[0] == c then 0 else 1 + IndexOf(palette[1..], c)
  }

  /** A colour is found where it was when one is added at the end. */
  lemma {:induction false} IndexInFront(palette: seq<Color>, m: Color, last: Color)
    requires palette != [] && last == palette[|palette| - 1]
    ensures var front := palette[..|palette| - 1];
      && (m in front ==> IndexOf(palette, m) == IndexOf(front, m))
      && (last !in front ==> IndexOf(palette, last) == |palette| - 1)
  {
  }

  /** The first palette colour at the least distance: min with a key. */
  function Closest(palette: seq<Color>, c: Color): (m: Color)
    requires palette != []
    ensures m in palette && forall p :: p in palette ==> Distance(c, m) <= Distance(c, p)
    ensures forall j :: 0 <= j < IndexOf(palette, m) ==> Distance(c, palette[j]) > Distance(c, m)
  {
    if |palette| == 1 then palette[0]
    else
      var m := Closest(palette[..|palette| - 1], c);
      var last := palette[|palette| - 1];
      assert palette == palette[..|palette| - 1] + [last];
      IndexInFront(palette, m, last);
      if Distance(c, last) < Distance(c, m) then last else m
  }

  // quantize
  function Quantize(c: Color, palette: seq<Color>): (i: nat)
    requires palette != []
    ensures i < |palette|
    ensures c in palette ==> palette[i] == c
    ensures forall p :: p in palette ==> Distance(c, palette[i]) <= Distance(c, p)
    ensures forall j :: 0 <= j < i ==> Distance(c, palette[j]) > Distance(c, palette[i])
  {
    var i := IndexOf(palette, c);
    if i < |palette| then
      assert forall p {:trigger Distance(c, p)} :: Distance(c, p) >= 0 && (Distance(c, p) == 0 <==> c == p) by {
        forall p { NoDistance(c, p); }
      }
      i
    else IndexOf(palette, Closest(palette, c))
  }

  function QuantizeRow(row: seq<Color>, palette: seq<Color>): (q: seq<nat>)
    requires row != [] ==> palette != []
    ensures |q| == |row| && forall i :: 0 <= i < |q| ==> q[i] < |palette|
  {
    seq(|row|, i requires 0 <= i < |row| => Quantize(row[i], palette))
  }

  // encode_row
  method PixelAt(row: seq<Color>, palette: seq<Color>, x: nat, ghost q: seq<nat>) returns (c: nat)
    requires x < |row| && palette != [] && q == QuantizeRow(row, palette)
    ensures c == q[x]
  {
    c := Quantize(row[x], palette);
  }

  lemma OneMore(q: seq<nat>, x: nat)
    requires x < |q|
    ensures q[..x + 1] == q[..x] + [q[x]]
  {
  }

  method EncodeRow(row: seq<Color>, palette: seq<Color>) returns (entries: seq<Entry>)
    requires row != [] ==> palette != []
    ensures entries == Encode(QuantizeRow(row, palette))
  {
    entries := [];
    var color: Option<nat> := None;
    var repeats := 0;
    ghost var q := QuantizeRow(row, palette);
    ghost var done := [];
    for x := 0 to |row|
      invariant done == q[..x] && Counting(entries, color, repeats, done)
    {
      var c := PixelAt(row, palette, x, q);
      entries, color, repeats := CountPixel(entries, color, repeats, done, c);
      done := done + [c];
      OneMore(q, x);
    }
    assert q[..|row|] == q;
    entries := LastRun(entries, color, repeats, q);
  }

  // one pass of the loop of encode_row
  method CountPixel(entries0: seq<Entry>, color0: Option<nat>, repeats0: nat, ghost done: seq<nat>, c: nat)
      returns (entries: seq<Entry>, color: Option<nat>, repeats: nat)
    requires Counting(entries0, color0, repeats0, done)
    ensures Counting(entries, color, repeats, done + [c])
  {
    CountOne(entries0, color0, repeats0, done, c);
    entries, color, repeats := entries0, color0, repeats0;
    if color == Some(c) && repeats < MAX_REPEATS {
      repeats := repeats + 1;
    } else {
      if color.Some? {
        entries := entries + [Entry(repeats, color.value)];
      }
      repeats := 1;
      color := Some(c);
    }
  }

  // the run that is still being counted at the end
  method LastRun(entries0: seq<Entry>, color: Option<nat>, repeats: nat, ghost done: seq<nat>)
      returns (entries: seq<Entry>)
    requires Counting(entries0, color, repeats, done)
    ensures entries == Encode(done)
  {
    entries := entries0;
    if color.Some? {
      entries := entries + [Entry(repeats, color.value)];
    }
  }

  /** The entries written so far and the run still being counted. */
  ghost function Pending(entries: seq<Entry>, color: Option<nat>, repeats: nat): seq<Entry> {
    if color.Some? then entries + [Entry(repeats, color.value)] else entries
  }

  /** The state of the encoder after the pixels `done`. */
  ghost predicate Counting(entries: seq<Entry>, color: Option<nat>, repeats: nat, done: seq<nat>) {
    (color == None ==> entries == []) && Pending(entries, color, repeats) == Encode(done)
  }

  lemma {:induction false} CountOne(entries: seq<Entry>, color: Option<nat>, repeats: nat, done: seq<nat>, c: nat)
    requires Counting(entries, color, repeats, done)
    ensures if color == Some(c) && repeats < MAX_REPEATS then Counting(entries, color, repeats + 1, done + [c])
            else Counting(Pending(entries, color, repeats), Some(c), 1, done + [c])
  {
    assert (done + [c])[..|done|] == done;
    if color.Some? {
      assert (entries + [Entry(repeats, color.value)])[..|entries|] == entries;
    }
  }

  /** What the display shows for a row of palette indices. */
  function Show(indices: seq<nat>, palette: seq<Color>): seq<Color>
    requires forall i :: 0 <= i < |indices| ==> indices[i] < |palette|
  {
    seq(|indices|, i requires 0 <= i < |indices| => palette[indices[i]])
  }

  /** With at most 255 colours, palette, quantisation and run-length encoding together lose no
      pixel of any row. */
  lemma RowLossless(colors: seq<Counted>, row: seq<Color>)
    requires |colors| <= 255
    requires forall x :: 0 <= x < |row| ==> exists k :: 0 <= k < |colors| && colors[k].color == row[x]
    ensures var palette := GetPalette(colors, 255);
      && (row != [] ==> palette != [])
      && (var indices := Decode(Encode(QuantizeRow(row, palette)));
          && (forall i :: 0 <= i < |indices| ==> indices[i] < |palette|)
          && Show(indices, palette) == row)
  {
    var palette := GetPalette(colors, 255);
    forall x | 0 <= x < |row|
      ensures row[x] in palette
    {
      var k :| 0 <= k < |colors| && colors[k].color == row[x];
      PaletteHasAll(colors, 255, k);
    }
    assert row != [] ==> row[0] in palette;
    EncodeDecodes(QuantizeRow(row, palette));
  }
}
