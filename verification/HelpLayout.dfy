/** The table of command names that `help` prints: column by column, one line at a time. */
module HelpLayout {

  import opened Guard

  const LINELEN := 80
  const TABSIZE := 4
  const BUFFER := LINELEN + TABSIZE + 1

  function Longest(cmds: seq<string>): (w: nat)
    ensures forall k :: 0 <= k < |cmds| ==> |cmds[k]| <= w
  {
    if cmds == [] then 0
    else
      var w := Longest(cmds[..|cmds| - 1]);
      if |cmds[|cmds| - 1]| > w then |cmds[|cmds| - 1]| else w
  }

  function ColumnWidth(cmds: seq<string>): (w: nat)
    ensures w >= TABSIZE
  {
    Longest(cmds) + TABSIZE
  }

  function PerLine(width: nat): (per: nat)
    requires width >= TABSIZE
    ensures per >= 1
  {
    if width > LINELEN then 1 else LINELEN / width
  }

  function Rows(n: nat, per: nat): (rows: nat)
    requires per >= 1
  {
    (n + (per - 1)) / per
  }

  /** The commands on a line, from column `j` on, when the next of them is `k`. */
  function Row(n: nat, per: nat, rows: nat, j: nat, k: nat): (ks: seq<nat>)
    requires j <= per
    ensures forall x :: 0 <= x < |ks| ==> ks[x] < n
    decreases per - j
  {
    if j < per && k < n then [k] + Row(n, per, rows, j + 1, k + rows) else []
  }

  function Spaces(n: nat): (s: string)
    ensures |s| == n && forall i :: 0 <= i < n ==> s[i] == ' '
  {
    seq(n, i => ' ')
  }

  function Padded(cmd: string, width: nat): (s: string)
    requires |cmd| <= width
    ensures |s| == width && cmd <= s
  {
    cmd + Spaces(width - |cmd|)
  }

  function Cells(cmds: seq<string>, ks: seq<nat>, width: nat): string
    requires forall x :: 0 <= x < |ks| ==> ks[x] < |cmds|
    requires forall k :: 0 <= k < |cmds| ==> |cmds[k]| <= width
  {
    if ks == [] then "" else Padded(cmds[ks[0]], width) + Cells(cmds, ks[1..], width)
  }

  function RowOf(cmds: seq<string>, i: nat): (ks: seq<nat>)
    ensures forall x :: 0 <= x < |ks| ==> ks[x] < |cmds|
  {
    var per := PerLine(ColumnWidth(cmds));
    Row(|cmds|, per, Rows(|cmds|, per), 0, i)
  }

  function LineText(cmds: seq<string>, i: nat): string {
    Spaces(TABSIZE) + Cells(cmds, RowOf(cmds, i), ColumnWidth(cmds)) + "\n"
  }

  function RowCount(cmds: seq<string>): nat { Rows(|cmds|, PerLine(ColumnWidth(cmds))) }

  // ---------- every command once ----------

  lemma {:induction false} RowAt(n: nat, per: nat, rows: nat, j: nat, k: nat, x: nat)
    requires j <= per
    ensures x < |Row(n, per, rows, j, k)| <==> j + x < per && k + x * rows < n
    ensures x < |Row(n, per, rows, j, k)| ==> Row(n, per, rows, j, k)[x] == k + x * rows
    decreases per - j
  {
    if j < per && k < n {
      if x > 0 {
        RowAt(n, per, rows, j + 1, k + rows, x - 1);
        assert k + rows + (x - 1) * rows == k + x * rows;
      }
    } else if k >= n {
      assert x * rows >= 0;
    }
  }

  lemma RowsEnough(n: nat, per: nat)
    requires per >= 1
    ensures n <= Rows(n, per) * per
    ensures n > 0 ==> Rows(n, per) >= 1
  {
    var m := n + (per - 1);
    assert m == m / per * per + m % per;
    if n > 0 {
      assert m / per >= 1;
    }
  }

  lemma Coordinates(rows: nat, i: nat, j: nat)
    requires i < rows
    ensures (i + j * rows) % rows == i && (i + j * rows) / rows == j
  {
    var k := i + j * rows;
    assert k == k / rows * rows + k % rows;
    Order(j, k / rows, rows);
    Order(k / rows, j, rows);
  }

  lemma Order(a: nat, b: nat, c: nat)
    ensures a < b ==> a * c + c <= b * c
    ensures a <= b ==> a * c <= b * c
  {
    if a < b {
      Distribute(a + 1, b - a - 1, c);
      Distribute(a, 1, c);
    }
  }

  lemma Distribute(x: nat, y: nat, c: nat)
    ensures (x + y) * c == x * c + y * c
  {
  }

  lemma ColumnInside(n: nat, per: nat, rows: nat, k: nat)
    requires k < n <= rows * per && rows >= 1
    ensures k / rows < per && k % rows + k / rows * rows == k
  {
    assert k == k / rows * rows + k % rows;
    Order(per, k / rows, rows);
  }

  /** Command `k` is printed on line `k % rows` in column `k / rows`, and nowhere else. */
  lemma PrintedOnce(cmds: seq<string>, k: nat, i: nat, j: nat)
    requires k < |cmds| && i < RowCount(cmds)
    ensures RowCount(cmds) >= 1
    ensures j < |RowOf(cmds, i)| && RowOf(cmds, i)[j] == k <==> i == k % RowCount(cmds) && j == k / RowCount(cmds)
  {
    var per, rows := PerLine(ColumnWidth(cmds)), RowCount(cmds);
    RowsEnough(|cmds|, per);
    RowAt(|cmds|, per, rows, 0, i, j);
    Coordinates(rows, i, j);
    ColumnInside(|cmds|, per, rows, k);
  }

  // ---------- what stands where ----------

  /** Behind `at` characters of `line` stands `text`. */
  ghost predicate StandsAt(line: string, at: nat, text: string) {
    at + |text| <= |line| && line[at..at + |text|] == text
  }

  lemma StandsBehind(before: string, line: string, at: nat, text: string, after: string)
    requires StandsAt(line, at, text)
    ensures StandsAt(before + line + after, |before| + at, text)
  {
    var all := before + line + after;
    assert all[|before|..|before| + |line|] == line;
    assert all[|before| + at..|before| + at + |text|] == line[at..at + |text|];
  }

  /** Cell `j` of a line stands behind `j` columns. */
  lemma {:induction false} CellAt(cmds: seq<string>, ks: seq<nat>, width: nat, j: nat)
    requires j < |ks| && (forall x :: 0 <= x < |ks| ==> ks[x] < |cmds|)
    requires forall k :: 0 <= k < |cmds| ==> |cmds[k]| <= width
    ensures StandsAt(Cells(cmds, ks, width), Columns(j, width), Padded(cmds[ks[j]], width))
  {
    var first, rest := Padded(cmds[ks[0]], width), Cells(cmds, ks[1..], width);
    if j > 0 {
      CellAt(cmds, ks[1..], width, j - 1);
      StandsBehind(first, rest, Columns(j - 1, width), Padded(cmds[ks[j]], width), "");
      assert first + rest + "" == first + rest;
    } else {
      assert (first + rest)[..width] == first;
    }
  }

  /** The line with `i` in front shows command `k` behind `j` columns, with blanks up to the next column; the
      margin is blank, and the line ends with its columns. */
  ghost predicate Shows(cmds: seq<string>, i: nat, j: nat, k: nat)
    requires k < |cmds|
  {
    var width, line := ColumnWidth(cmds), LineText(cmds, i);
    var end := TABSIZE + Columns(|RowOf(cmds, i)|, width);
    && |cmds[k]| + TABSIZE <= width
    && StandsAt(line, TABSIZE + Columns(j, width), cmds[k] + Spaces(width - |cmds[k]|))
    && StandsAt(line, 0, Spaces(TABSIZE)) && StandsAt(line, end, "\n") && |line| == end + 1
  }

  lemma {:induction false} ShowsCell(cmds: seq<string>, i: nat, j: nat, k: nat)
    requires k < |cmds| && j < |RowOf(cmds, i)| && RowOf(cmds, i)[j] == k
    ensures Shows(cmds, i, j, k)
  {
    var width, ks := ColumnWidth(cmds), RowOf(cmds, i);
    var cells := Cells(cmds, ks, width);
    CellAt(cmds, ks, width, j);
    StandsBehind(Spaces(TABSIZE), cells, Columns(j, width), Padded(cmds[k], width), "\n");
    CellsLength(cmds, ks, width);
    ColumnsProduct(|ks|, width);
    Ends(Spaces(TABSIZE), cells, "\n");
  }

  /** Command `k` stands on line `k % rows` behind `k / rows` columns. */
  lemma {:induction false} PrintedAt(cmds: seq<string>, k: nat, rows: nat, i: nat, j: nat)
    requires k < |cmds| && rows == RowCount(cmds) && i < rows && k == i + j * rows
    ensures Shows(cmds, i, j, k)
  {
    Coordinates(rows, i, j);
    PrintedOnce(cmds, k, i, j);
    ShowsCell(cmds, i, j, k);
  }

  lemma Ends(a: string, b: string, c: string)
    ensures StandsAt(a + b + c, 0, a) && StandsAt(a + b + c, |a| + |b|, c)
  {
    assert (a + b + c)[..|a|] == a;
  }

  lemma OneMoreColumn(width: nat, per: nat)
    requires width >= TABSIZE && per == PerLine(width)
    ensures (per + 1) * width > LINELEN
  {
    Distribute(per, 1, width);
    if width <= LINELEN {
      assert LINELEN == LINELEN / width * width + LINELEN % width;
    }
  }

  lemma OneRowLess(n: nat, per: nat, rows: nat)
    requires n >= 1 && per >= 1 && rows == Rows(n, per)
    ensures rows >= 1 && (rows - 1) * per < n
  {
    var m := n + (per - 1);
    Quotient(m, per);
    RowsEnough(n, per);
    Distribute(rows - 1, 1, per);
  }

  lemma Quotient(m: nat, c: nat)
    requires c >= 1
    ensures m / c * c <= m
  {
  }

  /** The columns are as narrow, and the lines as few, as they can be: some command fills its column but
      for the margin, another column would not fit, and fewer lines would not hold all commands. */
  lemma {:induction false} LayoutTight(cmds: seq<string>)
    requires cmds != []
    ensures exists k :: 0 <= k < |cmds| && |cmds[k]| + TABSIZE == ColumnWidth(cmds)
    ensures (PerLine(ColumnWidth(cmds)) + 1) * ColumnWidth(cmds) > LINELEN
    ensures (RowCount(cmds) - 1) * PerLine(ColumnWidth(cmds)) < |cmds|
  {
    LongestAttained(cmds);
    var width := ColumnWidth(cmds);
    OneMoreColumn(width, PerLine(width));
    OneRowLess(|cmds|, PerLine(width), RowCount(cmds));
  }

  lemma {:induction false} LongestAttained(cmds: seq<string>)
    requires cmds != []
    ensures exists k :: 0 <= k < |cmds| && |cmds[k]| == Longest(cmds)
  {
    var n := |cmds| - 1;
    if |cmds[n]| > Longest(cmds[..n]) || n == 0 {
      assert n == 0 ==> Longest(cmds[..0]) == 0;
      assert |cmds[n]| == Longest(cmds);
    } else {
      LongestAttained(cmds[..n]);
      var k :| 0 <= k < n && |cmds[..n][k]| == Longest(cmds[..n]);
      assert |cmds[k]| == Longest(cmds);
    }
  }

  // ---------- every line fits ----------

  lemma {:induction false} CellsLength(cmds: seq<string>, ks: seq<nat>, width: nat)
    requires forall x :: 0 <= x < |ks| ==> ks[x] < |cmds|
    requires forall k :: 0 <= k < |cmds| ==> |cmds[k]| <= width
    ensures |Cells(cmds, ks, width)| == |ks| * width
  {
    if ks != [] {
      CellsLength(cmds, ks[1..], width);
      Plus(|ks| - 1, width);
    }
  }

  lemma Plus(a: nat, c: nat)
    ensures c + a * c == (a + 1) * c
  {
  }

  lemma PerLineFits(width: nat, count: nat)
    requires TABSIZE <= width <= LINELEN && count <= PerLine(width)
    ensures count * width <= LINELEN
  {
    Order(count, LINELEN / width, width);
    assert LINELEN == LINELEN / width * width + LINELEN % width;
  }

  lemma LineFits(cmds: seq<string>, i: nat)
    requires ColumnWidth(cmds) <= LINELEN
    ensures |LineText(cmds, i)| <= BUFFER
  {
    var width := ColumnWidth(cmds);
    var per, ks := PerLine(width), RowOf(cmds, i);
    CellsLength(cmds, ks, width);
    RowAt(|cmds|, per, RowCount(cmds), 0, i, per);
    PerLineFits(width, |ks|);
  }

  lemma FirstLineTooLong(cmds: seq<string>)
    requires ColumnWidth(cmds) > LINELEN
    ensures RowCount(cmds) >= 1 && |LineText(cmds, 0)| > BUFFER
  {
    var width, rows := ColumnWidth(cmds), RowCount(cmds);
    RowsEnough(|cmds|, 1);
    RowAt(|cmds|, 1, rows, 0, 0, 0);
    RowAt(|cmds|, 1, rows, 0, 0, 1);
    var ks := RowOf(cmds, 0);
    CellsLength(cmds, ks, width);
    assert |ks| == 1;
    assert |ks| * width == width;
  }

  /** The lines fit the buffer exactly when a column fits a line. */
  lemma FitExactly(cmds: seq<string>)
    ensures (forall i :: 0 <= i < RowCount(cmds) ==> |LineText(cmds, i)| <= BUFFER) <==> ColumnWidth(cmds) <= LINELEN
  {
    if ColumnWidth(cmds) <= LINELEN {
      forall i | 0 <= i < RowCount(cmds)
        ensures |LineText(cmds, i)| <= BUFFER
      {
        LineFits(cmds, i);
      }
    } else {
      FirstLineTooLong(cmds);
    }
  }

  // ---------- the loops ----------

  method PickWidth(cmds: seq<string>) returns (colwidth: nat)
    ensures colwidth == ColumnWidth(cmds)
  {
    colwidth := 0;
    for k := 0 to |cmds|
      invariant colwidth == Longest(cmds[..k])
    {
      assert cmds[..k + 1][..k] == cmds[..k];
      var cmdwidth := |cmds[k]|;
      if cmdwidth > colwidth {
        colwidth := cmdwidth;
      }
    }
    assert cmds[..|cmds|] == cmds;
    colwidth := colwidth + TABSIZE;
  }

  /** A name, with strlcpy, and the spaces behind it. */
  method WriteCell(line: array<char>, at: nat, cmd: string, colwidth: nat) returns (offset: nat)
    requires |cmd| < colwidth && at + colwidth <= line.Length
    modifies line
    ensures offset == at + colwidth && line[..offset] == old(line[..at]) + Padded(cmd, colwidth)
  {
    forall x | 0 <= x < |cmd| {
      line[at + x] := cmd[x];
    }
    line[at + |cmd|] := '\0';
    offset := at + |cmd|;
    var cmdwidth := |cmd|;
    while cmdwidth < colwidth
      invariant |cmd| <= cmdwidth <= colwidth && offset == at + cmdwidth
      invariant line[..offset] == old(line[..at]) + cmd + Spaces(cmdwidth - |cmd|)
    {
      line[offset] := ' ';
      assert line[..offset + 1] == line[..offset] + [' '];
      offset, cmdwidth := offset + 1, cmdwidth + 1;
    }
  }

  /** What is left of a line, from column `j` and command `k` on. */
  ghost function Remaining(cmds: seq<string>, per: nat, rows: nat, j: nat, k: nat, width: nat): string
    requires j <= per && forall x :: 0 <= x < |cmds| ==> |cmds[x]| < width
  {
    Cells(cmds, Row(|cmds|, per, rows, j, k), width)
  }

  lemma {:induction false} NextCell(cmds: seq<string>, per: nat, rows: nat, j: nat, k: nat, width: nat)
      returns (rest: string)
    requires j < per && k < |cmds| && forall x :: 0 <= x < |cmds| ==> |cmds[x]| < width
    ensures rest == Remaining(cmds, per, rows, j + 1, k + rows, width)
    ensures Remaining(cmds, per, rows, j, k, width) == Padded(cmds[k], width) + rest
  {
    var ks := Row(|cmds|, per, rows, j, k);
    assert ks[1..] == Row(|cmds|, per, rows, j + 1, k + rows);
    rest := Remaining(cmds, per, rows, j + 1, k + rows, width);
  }

  /** The width of `j` columns. */
  ghost function Columns(j: nat, width: nat): nat { if j == 0 then 0 else Columns(j - 1, width) + width }

  lemma {:induction false} ColumnsProduct(j: nat, width: nat)
    ensures Columns(j, width) == j * width
  {
    if j > 0 {
      ColumnsProduct(j - 1, width);
      Plus(j - 1, width);
    }
  }

  lemma {:induction false} ColumnsFit(width: nat, j: nat)
    requires TABSIZE <= width <= LINELEN && j <= PerLine(width)
    ensures Columns(j, width) <= LINELEN
  {
    ColumnsProduct(j, width);
    PerLineFits(width, j);
  }

  /** The columns of a line. */
  method WriteCells(cmds: seq<string>, line: array<char>, i: nat, colwidth: nat, per: nat, rows: nat)
      returns (offset: nat)
    requires line.Length == BUFFER && TABSIZE <= colwidth <= LINELEN && per == PerLine(colwidth)
    requires forall x :: 0 <= x < |cmds| ==> |cmds[x]| < colwidth
    requires line[..TABSIZE] == Spaces(TABSIZE)
    modifies line
    ensures offset < BUFFER
    ensures line[..offset] == Spaces(TABSIZE) + Cells(cmds, Row(|cmds|, per, rows, 0, i), colwidth)
  {
    offset := TABSIZE;
    var j: nat, k: nat := 0, i;
    ghost var written, rest := Spaces(TABSIZE), Remaining(cmds, per, rows, 0, i, colwidth);
    ghost var goal := written + rest;
    while j < per && k < |cmds|
      invariant j <= per && offset == TABSIZE + Columns(j, colwidth) <= TABSIZE + LINELEN
      invariant line[..offset] == written && Leads(written, rest, goal)
      invariant rest == Remaining(cmds, per, rows, j, k, colwidth)
      decreases per - j
    {
      ghost var cell := Padded(cmds[k], colwidth);
      ColumnsFit(colwidth, j + 1);
      offset := WriteCell(line, offset, cmds[k], colwidth);
      rest := NextCell(cmds, per, rows, j, k, colwidth);
      LeadsOn(written, cell, rest, goal);
      written := written + cell;
      j, k := j + 1, k + rows;
    }
    LeadsEnd(written, rest, goal);
  }

  /** With `rest`, what is written becomes `goal`; kept closed, see `Guard`. */
  ghost predicate Leads(written: string, rest: string, goal: string) { forall k :: Open(k) ==> written + rest == goal }

  lemma LeadsOn(written: string, cell: string, rest: string, goal: string)
    requires Leads(written, cell + rest, goal)
    ensures Leads(written + cell, rest, goal)
  {
    assert Open(0);
    assert written + (cell + rest) == written + cell + rest;
  }

  lemma LeadsEnd(written: string, rest: string, goal: string)
    requires Leads(written, rest, goal) && rest == ""
    ensures written == goal
  {
    assert Open(0);
    assert written + "" == written;
  }

  /** One line, in the buffer, and the text that is written. */
  method WriteLine(cmds: seq<string>, line: array<char>, i: nat, colwidth: nat, per: nat, rows: nat)
      returns (text: string)
    requires line.Length == BUFFER && TABSIZE <= colwidth <= LINELEN && per == PerLine(colwidth)
    requires forall x :: 0 <= x < |cmds| ==> |cmds[x]| < colwidth
    modifies line
    ensures text == Spaces(TABSIZE) + Cells(cmds, Row(|cmds|, per, rows, 0, i), colwidth) + "\n"
  {
    forall x | 0 <= x < TABSIZE {
      line[x] := ' ';
    }
    var offset := WriteCells(cmds, line, i, colwidth, per, rows);
    line[offset] := '\n';
    text := line[..offset + 1];
    assert text == line[..offset] + "\n";
  }

  // help_cmdlist: the texts written, one per line
  method HelpCmdList(cmds: seq<string>) returns (written: seq<string>)
    requires ColumnWidth(cmds) <= LINELEN
    ensures |written| == RowCount(cmds)
    ensures forall i :: 0 <= i < |written| ==> written[i] == LineText(cmds, i)
  {
    var line := new char[BUFFER];
    var colwidth := PickWidth(cmds);
    var cmdsperline := if colwidth > LINELEN then 1 else LINELEN / colwidth;
    var ncmdrows := (|cmds| + (cmdsperline - 1)) / cmdsperline;
    written := [];
    for i := 0 to ncmdrows
      invariant |written| == i
      invariant forall x :: 0 <= x < i ==> written[x] == LineText(cmds, x)
    {
      var text := WriteLine(cmds, line, i, colwidth, cmdsperline, ncmdrows);
      written := written + [text];
    }
  }
}
