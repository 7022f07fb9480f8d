/** The grid a row of help text stands for: cells separated by tabs, each cell cut into
    lines at vertical tabs. */
module LineGrid {
  import opened Utf8

  const TAB: bv8 := 0x09
  const NEWLINE: bv8 := 0x0A
  const VTAB: bv8 := 0x0B

  // ----- ends of a line, a cell, a row; the end of the text is the terminating 0

  predicate EndsRow(s: Text, i: nat) { i >= |s| || s[i] == NEWLINE }
  predicate EndsCell(s: Text, i: nat) { EndsRow(s, i) || s[i] == TAB }
  predicate EndsLine(s: Text, i: nat) { EndsCell(s, i) || s[i] == VTAB }

  function LineEnd(s: Text, i: nat): (e: nat)
    requires i <= |s|
    ensures i <= e <= |s| && EndsLine(s, e)
    decreases |s| - i
  {
    if EndsLine(s, i) then i else LineEnd(s, i + 1)
  }

  function CellEnd(s: Text, i: nat): (e: nat)
    requires i <= |s|
    ensures i <= e <= |s| && EndsCell(s, e)
    decreases |s| - i
  {
    if EndsCell(s, i) then i else CellEnd(s, i + 1)
  }

  function RowEnd(s: Text, i: nat): (e: nat)
    requires i <= |s|
    ensures i <= e <= |s| && EndsRow(s, e)
    decreases |s| - i
  {
    if EndsRow(s, i) then i else RowEnd(s, i + 1)
  }

  // ----- where lines and cells start

  /** Number of lines of the cell that starts at `i`. */
  function Lines(s: Text, i: nat): (n: nat)
    requires i <= |s|
    ensures n >= 1
    decreases |s| - i
  {
    var e := LineEnd(s, i);
    if EndsCell(s, e) then 1 else 1 + Lines(s, e + 1)
  }

  /** Start of line `l` of the cell that starts at `i`. */
  function LineStart(s: Text, i: nat, l: nat): (p: nat)
    requires i <= |s| && l < Lines(s, i)
    ensures i <= p <= |s|
    decreases l
  {
    if l == 0 then i else LineStart(s, LineEnd(s, i) + 1, l - 1)
  }

  /** Number of cells of the row that starts at `i`. */
  function Cells(s: Text, i: nat): (n: nat)
    requires i <= |s|
    ensures n >= 1
    decreases |s| - i
  {
    var e := CellEnd(s, i);
    if EndsRow(s, e) then 1 else 1 + Cells(s, e + 1)
  }

  function CellStart(s: Text, i: nat, c: nat): (p: nat)
    requires i <= |s| && c < Cells(s, i)
    ensures i <= p <= |s|
    decreases c
  {
    if c == 0 then i else CellStart(s, CellEnd(s, i) + 1, c - 1)
  }

  /** Greatest number of lines among the first `c` cells. */
  function MaxLines(s: Text, row: nat, c: nat): (m: nat)
    requires row <= |s| && c <= Cells(s, row)
  {
    if c == 0 then 0
    else
      var n := Lines(s, CellStart(s, row, c - 1));
      var m := MaxLines(s, row, c - 1);
      if n > m then n else m
  }

  /** Number of lines of the grid. */
  function Height(s: Text, row: nat): nat
    requires row <= |s|
  {
    MaxLines(s, row, Cells(s, row))
  }

  /** Part (line, column) of the grid: that line of the cell, or an empty part at the end of
      a cell that has fewer lines. */
  datatype Part = Part(line: nat, col: nat, pos: nat, len: nat)

  function GridPart(s: Text, row: nat, line: nat, col: nat): (p: Part)
    requires row <= |s| && col < Cells(s, row)
    ensures p.pos + p.len <= |s|
  {
    var cell := CellStart(s, row, col);
    if line < Lines(s, cell) then
      var i := LineStart(s, cell, line);
      Part(line, col, i, LineEnd(s, i) - i)
    else Part(line, col, CellEnd(s, cell), 0)
  }

  // ----- the grid is the split of the row

  function Join(parts: seq<Text>, sep: bv8): Text {
    if parts == [] then [] else if |parts| == 1 then parts[0] else parts[0] + [sep] + Join(parts[1..], sep)
  }

  function LineTexts(s: Text, i: nat): (t: seq<Text>)
    requires i <= |s|
    ensures |t| == Lines(s, i)
    decreases |s| - i
  {
    var e := LineEnd(s, i);
    if EndsCell(s, e) then [s[i..e]] else [s[i..e]] + LineTexts(s, e + 1)
  }

  function CellTexts(s: Text, i: nat): (t: seq<Text>)
    requires i <= |s|
    ensures |t| == Cells(s, i)
    decreases |s| - i
  {
    var e := CellEnd(s, i);
    if EndsRow(s, e) then [s[i..e]] else [s[i..e]] + CellTexts(s, e + 1)
  }

  lemma {:induction false} LineEndInCell(s: Text, i: nat)
    requires i <= |s|
    ensures LineEnd(s, i) <= CellEnd(s, i)
    ensures EndsCell(s, LineEnd(s, i)) ==> CellEnd(s, i) == LineEnd(s, i)
    ensures !EndsCell(s, LineEnd(s, i)) ==> CellEnd(s, i) == CellEnd(s, LineEnd(s, i) + 1)
    decreases |s| - i
  {
    if !EndsLine(s, i) { LineEndInCell(s, i + 1); }
  }

  lemma {:induction false} CellEndInRow(s: Text, i: nat)
    requires i <= |s|
    ensures CellEnd(s, i) <= RowEnd(s, i)
    ensures EndsRow(s, CellEnd(s, i)) ==> RowEnd(s, i) == CellEnd(s, i)
    ensures !EndsRow(s, CellEnd(s, i)) ==> RowEnd(s, i) == RowEnd(s, CellEnd(s, i) + 1)
    decreases |s| - i
  {
    if !EndsCell(s, i) { CellEndInRow(s, i + 1); }
  }

  lemma JoinMore(first: Text, rest: seq<Text>, sep: bv8)
    requires rest != []
    ensures Join([first] + rest, sep) == first + [sep] + Join(rest, sep)
  {
    assert ([first] + rest)[1..] == rest;
  }

  lemma Glue(s: Text, i: nat, e: nat, j: nat)
    requires i <= e < j <= |s|
    ensures s[i..e] + [s[e]] + s[e + 1..j] == s[i..j]
  {
  }

  /** The lines of a cell, joined by vertical tabs, are the cell. */
  lemma {:induction false} LinesMakeCell(s: Text, i: nat)
    requires i <= |s|
    ensures Join(LineTexts(s, i), VTAB) == s[i..CellEnd(s, i)]
    decreases |s| - i
  {
    var e := LineEnd(s, i);
    LineEndInCell(s, i);
    if !EndsCell(s, e) {
      LinesMakeCell(s, e + 1);
      var rest := LineTexts(s, e + 1);
      JoinMore(s[i..e], rest, VTAB);
      Glue(s, i, e, CellEnd(s, i));
    }
  }

  /** The cells of a row, joined by tabs, are the row. */
  lemma {:induction false} CellsMakeRow(s: Text, i: nat)
    requires i <= |s|
    ensures Join(CellTexts(s, i), TAB) == s[i..RowEnd(s, i)]
    decreases |s| - i
  {
    var e := CellEnd(s, i);
    CellEndInRow(s, i);
    if !EndsRow(s, e) {
      CellsMakeRow(s, e + 1);
      var rest := CellTexts(s, e + 1);
      JoinMore(s[i..e], rest, TAB);
      Glue(s, i, e, RowEnd(s, i));
    }
  }

  lemma {:induction false} LineTextAt(s: Text, i: nat, l: nat)
    requires i <= |s| && l < Lines(s, i)
    ensures var p := LineStart(s, i, l); LineTexts(s, i)[l] == s[p..LineEnd(s, p)]
    decreases l
  {
    if l > 0 { LineTextAt(s, LineEnd(s, i) + 1, l - 1); }
  }

  lemma {:induction false} CellTextAt(s: Text, i: nat, c: nat)
    requires i <= |s| && c < Cells(s, i)
    ensures var p := CellStart(s, i, c); CellTexts(s, i)[c] == s[p..CellEnd(s, p)]
    decreases c
  {
    if c > 0 { CellTextAt(s, CellEnd(s, i) + 1, c - 1); }
  }

  /** The text of part (line, column) is that line of that cell of the split row, empty where
      the cell has no such line; the split, joined again, is the row. */
  lemma GridIsSplit(s: Text, row: nat, line: nat, col: nat)
    requires row <= |s| && col < Cells(s, row)
    ensures var p := GridPart(s, row, line, col);
      var cell := CellStart(s, row, col);
      && CellTexts(s, row)[col] == Join(LineTexts(s, cell), VTAB)
      && s[p.pos..p.pos + p.len] == if line < |LineTexts(s, cell)| then LineTexts(s, cell)[line] else []
    ensures Join(CellTexts(s, row), TAB) == s[row..RowEnd(s, row)]
  {
    var cell := CellStart(s, row, col);
    CellsMakeRow(s, row);
    CellTextAt(s, row, col);
    LinesMakeCell(s, cell);
    if line < Lines(s, cell) { LineTextAt(s, cell, line); }
  }

  // ----- stepping through the grid

  datatype Cursor = Before | At(line: nat, col: nat) | Done

  function Successor(s: Text, row: nat, at: Cursor): Cursor
    requires row <= |s|
  {
    match at
    case Before => At(0, 0)
    case Done => Done
    case At(l, c) =>
      if c + 1 < Cells(s, row) then At(l, c + 1) else if l + 1 < Height(s, row) then At(l + 1, 0) else Done
  }

  lemma {:induction false} LinesAtMostHeight(s: Text, row: nat, n: nat, c: nat)
    requires row <= |s| && c < n <= Cells(s, row)
    ensures Lines(s, CellStart(s, row, c)) <= MaxLines(s, row, n)
    decreases n
  {
    if c < n - 1 { LinesAtMostHeight(s, row, n - 1, c); }
  }

  /** All parts from `at` on, in the order of the iteration. */
  function PartsFrom(s: Text, row: nat, line: nat, col: nat): (p: seq<Part>)
    requires row <= |s| && col < Cells(s, row) && line < Height(s, row)
    decreases Height(s, row) - line, Cells(s, row) - col
  {
    [GridPart(s, row, line, col)] +
    match Successor(s, row, At(line, col))
    case At(l, c) => PartsFrom(s, row, l, c)
    case _ => []
  }

  lemma HeightPositive(s: Text, row: nat)
    requires row <= |s|
    ensures Height(s, row) >= 1
  {
    LinesAtMostHeight(s, row, Cells(s, row), 0);
  }

  predicate InGrid(s: Text, row: nat, at: Cursor) {
    row <= |s| && (at.At? ==> at.line < Height(s, row) && at.col < Cells(s, row))
  }

  /** The parts still to come when the iteration is at `at`. */
  function PartsAfter(s: Text, row: nat, at: Cursor): seq<Part>
    requires InGrid(s, row, at)
  {
    HeightPositive(s, row);
    match Successor(s, row, at)
    case At(l, c) => PartsFrom(s, row, l, c)
    case _ => []
  }

  function RowParts(s: Text, row: nat): seq<Part>
    requires row <= |s|
  {
    PartsAfter(s, row, Before)
  }

  /** One part on. */
  lemma PartsStep(s: Text, row: nat, at: Cursor)
    requires InGrid(s, row, at)
    ensures match Successor(s, row, at)
      case At(l, c) =>
        && InGrid(s, row, At(l, c))
        && PartsAfter(s, row, at) == [GridPart(s, row, l, c)] + PartsAfter(s, row, At(l, c))
      case _ => PartsAfter(s, row, at) == []
  {
    hide Cells, Height, GridPart;
    HeightPositive(s, row);
  }

  /** What follows the first part. */
  lemma PartsUnfold(s: Text, row: nat, line: nat, col: nat)
    requires row <= |s| && col < Cells(s, row) && line < Height(s, row)
    ensures PartsFrom(s, row, line, col) == [GridPart(s, row, line, col)] +
      if col + 1 < Cells(s, row) then PartsFrom(s, row, line, col + 1)
      else if line + 1 < Height(s, row) then PartsFrom(s, row, line + 1, 0) else []
  {
    hide Cells, Height, GridPart;
  }

  /** A row of n cells of at most m lines has exactly n * m parts, line by line. */
  lemma {:induction false} PartsCount(s: Text, row: nat, line: nat, col: nat)
    requires row <= |s| && col < Cells(s, row) && line < Height(s, row)
    ensures |PartsFrom(s, row, line, col)| == (Height(s, row) - line) * Cells(s, row) - col
    decreases Height(s, row) - line, Cells(s, row) - col
  {
    hide Cells, Height, GridPart, PartsFrom;
    var n, m := Cells(s, row), Height(s, row);
    PartsUnfold(s, row, line, col);
    if col + 1 < n {
      PartsCount(s, row, line, col + 1);
    } else if line + 1 < m {
      PartsCount(s, row, line + 1, 0);
      assert (m - line) * n == (m - (line + 1)) * n + n;
    } else {
      assert (m - line) * n == n;
    }
  }

  /** Part number `k` of the grid, counted line by line from the start of `line`. */
  function NthPart(s: Text, row: nat, line: nat, k: nat): Part
    requires row <= |s|
  {
    GridPart(s, row, line + k / Cells(s, row), k % Cells(s, row))
  }

  lemma {:induction false} PartsAt(s: Text, row: nat, line: nat, col: nat, k: nat)
    requires row <= |s| && col < Cells(s, row) && line < Height(s, row) && k < |PartsFrom(s, row, line, col)|
    ensures PartsFrom(s, row, line, col)[k] == NthPart(s, row, line, col + k)
    decreases Height(s, row) - line, Cells(s, row) - col
  {
    hide Cells, Height, GridPart, PartsFrom;
    var n := Cells(s, row);
    PartsUnfold(s, row, line, col);
    if k == 0 {
      DivUnique(col, n, 0, col);
    } else if col + 1 < n {
      PartsAt(s, row, line, col + 1, k - 1);
      assert col + 1 + (k - 1) == col + k;
    } else if line + 1 < Height(s, row) {
      PartsAt(s, row, line + 1, 0, k - 1);
      WrapDiv(k - 1, n);
      assert k - 1 + n == col + k;
    }
  }

  lemma WrapDiv(a: nat, n: nat)
    requires n > 0
    ensures (a + n) / n == a / n + 1 && (a + n) % n == a % n
  {
    var q, r := a / n, a % n;
    assert a == q * n + r;
    assert a + n == (q + 1) * n + r;
    DivUnique(a + n, n, q + 1, r);
  }

  lemma DivUnique(a: nat, n: nat, q: nat, r: nat)
    requires n > 0 && a == q * n + r && r < n
    ensures a / n == q && a % n == r
  {
    var d := a / n - q;
    assert a == (a / n) * n + a % n;
    assert d * n == r - a % n;
    Multiple(d, n);
  }

  lemma Multiple(d: int, n: nat)
    ensures d >= 1 ==> d * n >= n
    ensures d <= -1 ==> d * n + n <= 0
  {
  }

  lemma RowStarts(s: Text, row: nat)
    requires row <= |s|
    ensures 0 < Height(s, row) && RowParts(s, row) == PartsFrom(s, row, 0, 0)
  {
    HeightPositive(s, row);
  }

  /** The iteration enumerates the whole grid: with n cells, part number k is part
      (k / n, k mod n). */
  lemma RowPartsAreTheGrid(s: Text, row: nat)
    requires row <= |s|
    ensures |RowParts(s, row)| == Height(s, row) * Cells(s, row)
    ensures forall k :: 0 <= k < |RowParts(s, row)| ==> RowParts(s, row)[k] == NthPart(s, row, 0, k)
  {
    hide Cells, Height, GridPart, PartsFrom, RowParts, NthPart;
    RowStarts(s, row);
    PartsCount(s, row, 0, 0);
    forall k | 0 <= k < |RowParts(s, row)|
      ensures RowParts(s, row)[k] == NthPart(s, row, 0, k)
    {
      PartsAt(s, row, 0, 0, k);
    }
  }

  // ----- parts lie in the text

  predicate Inside(s: Text, parts: seq<Part>) {
    forall i :: 0 <= i < |parts| ==> parts[i].pos + parts[i].len <= |s|
  }

  lemma {:induction false} PartsFromInside(s: Text, row: nat, line: nat, col: nat)
    requires row <= |s| && col < Cells(s, row) && line < Height(s, row)
    ensures Inside(s, PartsFrom(s, row, line, col))
    decreases Height(s, row) - line, Cells(s, row) - col
  {
    hide Cells, Height, GridPart, PartsFrom;
    PartsUnfold(s, row, line, col);
    if col + 1 < Cells(s, row) {
      PartsFromInside(s, row, line, col + 1);
    } else if line + 1 < Height(s, row) {
      PartsFromInside(s, row, line + 1, 0);
    }
  }

  lemma PartsAfterInside(s: Text, row: nat, at: Cursor)
    requires InGrid(s, row, at)
    ensures Inside(s, PartsAfter(s, row, at))
  {
    HeightPositive(s, row);
    match Successor(s, row, at)
    case At(l, c) => PartsFromInside(s, row, l, c);
    case _ =>
  }

  /** The part belongs to a row that uses table separators. */
  predicate Separated(s: Text, p: Part)
    requires p.pos + p.len <= |s|
  {
    var e := p.pos + p.len;
    p.col > 0 || p.line > 0 || (e < |s| && (s[e] == TAB || s[e] == VTAB))
  }

  /** Only a row that uses separators has a second column. */
  lemma MoreIsSeparated(s: Text, row: nat, line: nat, col: nat)
    requires row <= |s| && col + 1 < Cells(s, row)
    ensures Separated(s, GridPart(s, row, line, col))
  {
    if col == 0 && line == 0 { LineEndInCell(s, row); }
  }

  /** Left of a part that is not in the first column stands its neighbour, and that is no
      interjection. */
  predicate InOrder(s: Text, parts: seq<Part>)
    requires Inside(s, parts)
  {
    forall i :: 0 < i < |parts| && parts[i].col > 0 ==>
      parts[i - 1].col + 1 == parts[i].col && Separated(s, parts[i - 1])
  }

  lemma {:induction false} PartsFromInOrder(s: Text, row: nat, line: nat, col: nat)
    requires row <= |s| && col < Cells(s, row) && line < Height(s, row)
    ensures Inside(s, PartsFrom(s, row, line, col)) && InOrder(s, PartsFrom(s, row, line, col))
    ensures PartsFrom(s, row, line, col) != [] && PartsFrom(s, row, line, col)[0].col == col
    decreases Height(s, row) - line, Cells(s, row) - col
  {
    hide Cells, Height, PartsFrom, Separated;
    PartsUnfold(s, row, line, col);
    PartsFromInside(s, row, line, col);
    if col + 1 < Cells(s, row) {
      MoreIsSeparated(s, row, line, col);
      PartsFromInOrder(s, row, line, col + 1);
    } else if line + 1 < Height(s, row) {
      PartsFromInOrder(s, row, line + 1, 0);
    }
  }

  /** The parts of a row begin in its first column. */
  lemma RowPartsInOrder(s: Text, row: nat)
    requires row <= |s|
    ensures Inside(s, RowParts(s, row)) && InOrder(s, RowParts(s, row))
    ensures RowParts(s, row) != [] && RowParts(s, row)[0].col == 0
  {
    HeightPositive(s, row);
    PartsFromInOrder(s, row, 0, 0);
  }
}
