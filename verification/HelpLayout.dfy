/** The column-major command list of help (help_cmdlist in nsh_command.c). */
module HelpLayout {
  const LINELEN: nat := 80
  const TABSIZE: nat := 4
  /** The size of the line buffer. */
  const LINESIZE: nat := LINELEN + TABSIZE + 1

  function Blanks(n: nat): (s: seq<char>)
    ensures |s| == n
  {
    seq(n, _ => ' ')
  }

  /** The longest name's length. */
  function Longest(cmds: seq<string>): (w: nat)
    ensures forall c :: c in cmds ==> |c| <= w
    ensures (cmds == [] && w == 0) || exists c :: c in cmds && |c| == w
  {
    if cmds == [] then 0
    else
      var w, last := Longest(cmds[..|cmds| - 1]), cmds[|cmds| - 1];
      assert cmds == cmds[..|cmds| - 1] + [last];
      assert last in cmds;
      if |last| > w then |last| else w
  }

  function ColWidth(cmds: seq<string>): (w: nat)
    ensures w >= TABSIZE
  {
    Longest(cmds) + TABSIZE
  }

  function PerLine(cmds: seq<string>): (n: nat)
    ensures n >= 1
  {
    var w := ColWidth(cmds);
    if w > LINELEN then 1 else
      DivAtLeastOne(LINELEN, w);
      LINELEN / w
  }

  lemma DivAtLeastOne(a: nat, b: nat)
    requires 0 < b <= a
    ensures a / b >= 1 && a / b * b <= a
  {
  }

  function Rows(cmds: seq<string>): (n: nat) {
    (|cmds| + (PerLine(cmds) - 1)) / PerLine(cmds)
  }

  lemma AtMost(m: nat, w: nat)
    requires w > 0
    ensures m <= 80 / w <==> m * w <= 80
  {
    var q := 80 / w;
    assert q * w <= 80 < (q + 1) * w;
    if m <= q {
      Monotone(m, q, w);
    } else {
      Monotone(q + 1, m, w);
    }
  }

  /** The columns are as wide as the longest name and a tab of four. */
  lemma WidthIs(cmds: seq<string>)
    ensures forall c :: c in cmds ==> |c| + 4 <= ColWidth(cmds)
    ensures if cmds == [] then ColWidth(cmds) == 4 else exists c :: c in cmds && |c| + 4 == ColWidth(cmds)
  {
    if cmds != [] {
      var w := Longest(cmds);
      assert exists c :: c in cmds && |c| == w;
      var c :| c in cmds && |c| == w;
      assert c in cmds && |c| + 4 == ColWidth(cmds);
    }
  }

  /** A line has as many columns as fit in 80 characters, and one if not even one does. */
  lemma MostPerLine(cmds: seq<string>, m: nat)
    ensures m <= PerLine(cmds) <==> m <= 1 || m * ColWidth(cmds) <= 80
  {
    var w := ColWidth(cmds);
    AtMost(m, w);
    if m > 1 && w > 80 {
      Monotone(1, m, w);
    }
  }

  /** And there are as few lines as hold all names. */
  lemma FewestRows(cmds: seq<string>, r: nat)
    ensures Rows(cmds) <= r <==> |cmds| <= r * PerLine(cmds)
  {
    hide PerLine;
    var (n, p) := (|cmds|, PerLine(cmds));
    RowsBound(n, p);
    if Rows(cmds) <= r {
      Monotone(Rows(cmds), r, p);
    } else if n > 0 {
      Monotone(r, Rows(cmds) - 1, p);
    }
  }

  /** A name, padded to the column width. */
  function Cell(cmd: string, width: nat): string {
    cmd + if |cmd| < width then Blanks(width - |cmd|) else []
  }

  /** The names `k`, `k + step`, ... while they last, at most `n` of them. */
  function Cells(cmds: seq<string>, k: nat, step: nat, width: nat, n: nat): string
    decreases n
  {
    if n == 0 || k >= |cmds| then [] else Cell(cmds[k], width) + Cells(cmds, k + step, step, width, n - 1)
  }

  /** One line of the list. */
  function Line(cmds: seq<string>, i: nat): string {
    Blanks(TABSIZE) + Cells(cmds, i, Rows(cmds), ColWidth(cmds), PerLine(cmds)) + "\n"
  }

  /** How far `n` steps go. */
  function Span(n: nat, step: nat): (r: nat) {
    n * step
  }

  // ---------- Every name has exactly one place ----------

  lemma RowsBound(n: nat, p: nat)
    requires p >= 1
    ensures var r := (n + (p - 1)) / p; n <= r * p && (n > 0 ==> 0 < r && (r - 1) * p < n)
  {
    var r := (n + (p - 1)) / p;
    assert r * p + (n + (p - 1)) % p == n + (p - 1);
  }

  /** Row `k % rows` and column `k / rows` are the one place of name `k`. */
  lemma OnePlace(cmds: seq<string>, k: nat, i: nat, j: nat)
    requires k < |cmds|
    ensures Rows(cmds) > 0
    ensures i < Rows(cmds) && j < PerLine(cmds) && k == i + Span(j, Rows(cmds)) <==>
      i == k % Rows(cmds) && j == k / Rows(cmds)
  {
    RowsBound(|cmds|, PerLine(cmds));
    hide Rows, PerLine;
    OneCell(k, |cmds|, Rows(cmds), PerLine(cmds), i, j);
  }

  lemma OneCell(k: nat, n: nat, r: nat, p: nat, i: nat, j: nat)
    requires k < n <= r * p && r > 0
    ensures i < r && j < p && k == i + j * r <==> i == k % r && j == k / r
  {
    DivMod(k, r);
    if i < r && k == i + j * r {
      DivModUnique(k, r, j, i);
    }
    if k / r >= p {
      Monotone(p, k / r, r);
    }
  }

  lemma DivMod(k: nat, r: nat)
    requires r > 0
    ensures k == k % r + k / r * r && k % r < r
  {
  }

  lemma DivModUnique(k: nat, r: nat, j: nat, i: nat)
    requires r > 0 && i < r && k == i + j * r
    ensures i == k % r && j == k / r
  {
    DivMod(k, r);
    if j < k / r {
      Monotone(j + 1, k / r, r);
    } else if j > k / r {
      Monotone(k / r + 1, j, r);
    }
  }

  lemma Monotone(a: nat, b: nat, r: nat)
    requires a <= b
    ensures a * r <= b * r
  {
  }

  lemma SpanStep(n: nat, step: nat)
    ensures n > 0 ==> Span(n, step) == step + Span(n - 1, step)
    ensures n == 0 ==> Span(n, step) == 0
  {
  }

  lemma FirstCell(cmds: seq<string>, k: nat, step: nat, width: nat, n: nat)
    requires n > 0 && k < |cmds| && |cmds[k]| <= width
    ensures |Cell(cmds[k], width)| == width
    ensures Cells(cmds, k, step, width, n) == Cell(cmds[k], width) + Cells(cmds, k + step, step, width, n - 1)
  {
  }

  /** The text of a line at each column is the padded name that belongs there. */
  lemma {:induction false} CellAt(cmds: seq<string>, k: nat, step: nat, width: nat, n: nat, j: nat)
    requires j < n && k + Span(j, step) < |cmds| && forall c :: c in cmds ==> |c| <= width
    ensures var (s, at) := (Cells(cmds, k, step, width, n), Span(j, width));
      at + width <= |s| && s[at..at + width] == Cell(cmds[k + Span(j, step)], width)
    decreases n
  {
    hide Span, Cell, Cells;
    SpanStep(j, step);
    SpanStep(j, width);
    FirstCell(cmds, k, step, width, n);
    var first, rest := Cell(cmds[k], width), Cells(cmds, k + step, step, width, n - 1);
    if j == 0 {
      FirstPart(first, rest);
    } else {
      CellAt(cmds, k + step, step, width, n - 1, j - 1);
      Shifted(first, rest, Span(j - 1, width), width);
    }
  }

  lemma FirstPart(a: string, b: string)
    ensures (a + b)[0..|a|] == a
  {
  }

  lemma CellOnLine(cmds: seq<string>, i: nat, j: nat)
    requires j < PerLine(cmds) && i + Span(j, Rows(cmds)) < |cmds|
    ensures var (s, at, w) := (Line(cmds, i), TABSIZE + Span(j, ColWidth(cmds)), ColWidth(cmds));
      at + w < |s| && s[at..at + w] == Cell(cmds[i + Span(j, Rows(cmds))], w)
  {
    var (w, cells) := (ColWidth(cmds), Cells(cmds, i, Rows(cmds), ColWidth(cmds), PerLine(cmds)));
    NoneWider(cmds);
    LineIs(cmds, i);
    hide *;
    CellAt(cmds, i, Rows(cmds), w, PerLine(cmds), j);
    Framed(Blanks(TABSIZE), cells, "\n", Span(j, w), w);
  }

  /** The name that belongs in line `i` and column `j` stands there, with blanks behind it up
      to the next column. */
  lemma NameOnLine(cmds: seq<string>, i: nat, j: nat)
    requires j < PerLine(cmds) && i + Span(j, Rows(cmds)) < |cmds|
    ensures var (s, at, w) := (Line(cmds, i), 4 + Span(j, ColWidth(cmds)), ColWidth(cmds));
      var name := cmds[i + Span(j, Rows(cmds))];
      && at + w < |s| && |name| + 4 <= w && s[at..at + |name|] == name
      && forall k :: at + |name| <= k < at + w ==> s[k] == ' '
  {
    hide Rows, Span, PerLine, ColWidth, Line, Cell;
    var (name, w) := (cmds[i + Span(j, Rows(cmds))], ColWidth(cmds));
    WidthIs(cmds);
    assert name in cmds;
    CellOnLine(cmds, i, j);
    Padded(Line(cmds, i), 4 + Span(j, w), name, w);
  }

  lemma Padded(s: string, at: nat, name: string, w: nat)
    requires |name| <= w && at + w <= |s| && s[at..at + w] == Cell(name, w)
    ensures s[at..at + |name|] == name
    ensures forall k :: at + |name| <= k < at + w ==> s[k] == ' '
  {
    var cell := Cell(name, w);
    forall k | 0 <= k < w
      ensures s[at + k] == cell[k]
    {
      assert s[at..at + w][k] == cell[k];
    }
    assert cell[..|name|] == name;
    assert forall k :: at + |name| <= k < at + w ==> s[k] == cell[k - at];
  }

  /** Every line begins with four blanks and ends in its only newline character. */
  lemma LineFrame(cmds: seq<string>, i: nat)
    ensures var s := Line(cmds, i);
      |s| >= 5 && s[0..4] == "    " && s[|s| - 1] == '\n'
  {
    LineIs(cmds, i);
    assert Blanks(4) == "    ";
    hide Cells, Rows, ColWidth, PerLine;
  }

  lemma NoneWider(cmds: seq<string>)
    ensures forall c :: c in cmds ==> |c| < ColWidth(cmds)
  {
  }

  lemma Framed(a: string, b: string, c: string, at: nat, n: nat)
    requires at + n <= |b|
    ensures (a + b + c)[|a| + at..|a| + at + n] == b[at..at + n]
  {
  }

  lemma Shifted(a: string, b: string, at: nat, n: nat)
    requires at + n <= |b|
    ensures (a + b)[|a| + at..|a| + at + n] == b[at..at + n]
  {
  }

  lemma Step(j: nat, s: nat)
    requires j > 0
    ensures j * s == s + (j - 1) * s && 0 <= (j - 1) * s
  {
  }

  lemma {:induction false} CellsLength(cmds: seq<string>, k: nat, step: nat, width: nat, n: nat)
    requires forall c :: c in cmds ==> |c| <= width
    ensures exists m: nat :: m <= n && |Cells(cmds, k, step, width, n)| == m * width
    decreases n
  {
    if n > 0 && k < |cmds| {
      CellsLength(cmds, k + step, step, width, n - 1);
      var m: nat :| m <= n - 1 && |Cells(cmds, k + step, step, width, n - 1)| == m * width;
      Step(m + 1, width);
    } else {
      assert |Cells(cmds, k, step, width, n)| == 0 * width;
    }
  }

  // ---------- The buffer holds every line exactly when the columns fit ----------

  lemma FitsIff(cmds: seq<string>)
    ensures (forall i :: 0 <= i < Rows(cmds) ==> |Line(cmds, i)| <= 85) <==> forall c :: c in cmds ==> |c| <= 76
  {
    WidthIs(cmds);
    RowsBound(|cmds|, PerLine(cmds));
    if cmds != [] && ColWidth(cmds) > LINELEN {
      assert Cells(cmds, 0, Rows(cmds), ColWidth(cmds), 1) == Cell(cmds[0], ColWidth(cmds));
      assert |Line(cmds, 0)| > LINESIZE;
    } else {
      forall i | 0 <= i < Rows(cmds)
        ensures |Line(cmds, i)| <= LINESIZE
      {
        LineFits(cmds, i);
      }
    }
  }

  lemma LineFits(cmds: seq<string>, i: nat)
    requires ColWidth(cmds) <= LINELEN
    ensures |Line(cmds, i)| <= LINESIZE
  {
    var (w, p) := (ColWidth(cmds), PerLine(cmds));
    DivAtLeastOne(LINELEN, w);
    CellsLength(cmds, i, Rows(cmds), w, p);
    var m: nat :| m <= p && |Cells(cmds, i, Rows(cmds), w, p)| == m * w;
    Monotone(m, p, w);
  }

  /** No smaller buffer would do. */
  lemma Tight()
    ensures var cmds := [Blanks(76)];
      ColWidth(cmds) == 80 && Rows(cmds) == 1 && |Line(cmds, 0)| == 85
  {
    var cmds := [Blanks(76)];
    assert cmds[0] in cmds;
    assert ColWidth(cmds) == LINELEN && PerLine(cmds) == 1 && Rows(cmds) == 1;
    assert Cells(cmds, 0, 1, LINELEN, 1) == Cell(cmds[0], LINELEN);
  }

  // ---------- The loops ----------

  /** strlcpy of a name, then blanks up to the column width. */
  method WriteCell(line: array<char>, start: nat, cmd: string, width: nat) returns (offset: nat)
    requires |cmd| < width && start + width < line.Length
    modifies line
    ensures offset == start + width
    ensures line[..offset] == old(line[..start]) + Cell(cmd, width)
  {
    for i := 0 to |cmd|
      invariant line[..start + i] == old(line[..start]) + cmd[..i]
    {
      line[start + i] := cmd[i];
    }
    offset := start + |cmd|;
    line[offset] := '\0';
    var cmdwidth := |cmd|;
    while cmdwidth < width
      invariant |cmd| <= cmdwidth <= width && offset == start + cmdwidth
      invariant line[..offset] == old(line[..start]) + cmd + Blanks(cmdwidth - |cmd|)
    {
      line[offset] := ' ';
      offset := offset + 1;
      cmdwidth := cmdwidth + 1;
    }
  }

  /** help_cmdlist: the lines written. */
  method HelpCmdlist(cmds: seq<string>) returns (out: seq<string>)
    requires ColWidth(cmds) <= LINELEN
    ensures |out| == Rows(cmds) && forall i :: 0 <= i < |out| ==> out[i] == Line(cmds, i)
  {
    hide Cell, Blanks, Rows, PerLine, ColWidth;
    var colwidth := Widest(cmds);
    var cmdsperline, ncmdrows := Shape(cmds, colwidth);
    var line := new char[LINESIZE];
    out := [];
    for i := 0 to ncmdrows
      invariant |out| == i && forall i' :: 0 <= i' < i ==> out[i'] == Line(cmds, i')
    {
      var text := WriteLine(cmds, line, colwidth, cmdsperline, ncmdrows, i);
      out := out + [text];
    }
  }

  method Widest(cmds: seq<string>) returns (colwidth: nat)
    ensures colwidth == ColWidth(cmds)
  {
    colwidth := 0;
    for k := 0 to |cmds|
      invariant colwidth == Longest(cmds[..k])
    {
      assert cmds[..k + 1][..k] == cmds[..k];
      if |cmds[k]| > colwidth {
        colwidth := |cmds[k]|;
      }
    }
    assert cmds[..|cmds|] == cmds;
    colwidth := colwidth + TABSIZE;
  }

  method Shape(cmds: seq<string>, colwidth: nat) returns (cmdsperline: nat, ncmdrows: nat)
    requires colwidth == ColWidth(cmds)
    ensures cmdsperline == PerLine(cmds) && ncmdrows == Rows(cmds)
  {
    if colwidth > LINELEN {
      cmdsperline := 1;
    } else {
      cmdsperline := LINELEN / colwidth;
    }
    ncmdrows := (|cmds| + (cmdsperline - 1)) / cmdsperline;
  }

  method Memset(line: array<char>, n: nat)
    requires n <= line.Length
    modifies line
    ensures line[..n] == Blanks(n)
  {
    for i := 0 to n
      invariant line[..i] == Blanks(i)
    {
      line[i] := ' ';
    }
  }

  method EndLine(line: array<char>, start: nat) returns (offset: nat)
    requires start < line.Length
    modifies line
    ensures offset == start + 1 && line[..offset] == old(line[..start]) + "\n"
  {
    line[start] := '\n';
    offset := start + 1;
  }

  /** The names of one line. */
  method WriteCells(cmds: seq<string>, line: array<char>, width: nat, perLine: nat, rows: nat, i: nat)
      returns (offset: nat)
    requires line.Length == LINESIZE && Span(perLine, width) <= LINELEN
    requires forall k :: 0 <= k < |cmds| ==> |cmds[k]| < width
    modifies line
    ensures offset < LINESIZE && line[..offset] == Blanks(TABSIZE) + Cells(cmds, i, rows, width, perLine)
  {
    hide Cell, Cells, Span, Blanks, Rest;
    StartsWith(cmds, i, rows, width, perLine);
    ghost var all, done := Blanks(TABSIZE) + Cells(cmds, i, rows, width, perLine), Blanks(TABSIZE);
    offset := TABSIZE;
    Memset(line, offset);
    var j: nat, k: nat := 0, i;
    while j < perLine && k < |cmds|
      invariant j <= perLine && offset < LINESIZE && line[..offset] == done
      invariant offset + Span(perLine - j, width) <= TABSIZE + LINELEN
      invariant Rest(cmds, k, rows, width, perLine - j, done, all)
      decreases perLine - j
    {
      SpanStep(perLine - j, width);
      OneMore(cmds, k, rows, width, perLine - j, done, all);
      offset := WriteCell(line, offset, cmds[k], width);
      done := done + Cell(cmds[k], width);
      j, k := j + 1, k + rows;
    }
    NoMore(cmds, k, rows, width, perLine - j, done, all);
  }

  method WriteLine(cmds: seq<string>, line: array<char>, width: nat, perLine: nat, rows: nat, i: nat)
      returns (text: string)
    requires line.Length == LINESIZE && width == ColWidth(cmds) <= LINELEN
    requires perLine == PerLine(cmds) && rows == Rows(cmds)
    modifies line
    ensures text == Line(cmds, i)
  {
    WidthFits(cmds);
    Narrower(cmds);
    LineIs(cmds, i);
    hide *;
    var offset := WriteCells(cmds, line, width, perLine, rows, i);
    offset := EndLine(line, offset);
    text := line[..offset];
  }

  /** The text so far, and the names to come, make up the whole line. */
  predicate Rest(cmds: seq<string>, k: nat, step: nat, width: nat, n: nat, done: string, all: string) {
    all == done + Cells(cmds, k, step, width, n)
  }

  lemma Narrower(cmds: seq<string>)
    ensures forall k :: 0 <= k < |cmds| ==> |cmds[k]| < ColWidth(cmds)
  {
    NoneWider(cmds);
    assert forall k :: 0 <= k < |cmds| ==> cmds[k] in cmds;
  }

  lemma WidthFits(cmds: seq<string>)
    requires ColWidth(cmds) <= LINELEN
    ensures Span(PerLine(cmds), ColWidth(cmds)) <= LINELEN
  {
    DivAtLeastOne(LINELEN, ColWidth(cmds));
  }

  lemma OneMore(cmds: seq<string>, k: nat, step: nat, width: nat, n: nat, done: string, all: string)
    requires n > 0 && k < |cmds| && Rest(cmds, k, step, width, n, done, all)
    ensures Rest(cmds, k + step, step, width, n - 1, done + Cell(cmds[k], width), all)
    ensures Span(n - 1, width) >= 0
  {
  }

  lemma StartsWith(cmds: seq<string>, i: nat, step: nat, width: nat, n: nat)
    ensures Rest(cmds, i, step, width, n, Blanks(TABSIZE), Blanks(TABSIZE) + Cells(cmds, i, step, width, n))
  {
  }

  lemma NoMore(cmds: seq<string>, k: nat, step: nat, width: nat, n: nat, done: string, all: string)
    requires (n == 0 || k >= |cmds|) && Rest(cmds, k, step, width, n, done, all)
    ensures done == all
  {
  }

  lemma LineIs(cmds: seq<string>, i: nat)
    ensures Line(cmds, i) == Blanks(TABSIZE) + Cells(cmds, i, Rows(cmds), ColWidth(cmds), PerLine(cmds)) + "\n"
  {
  }
}
