/** The iterator of the usage printer: it finds the parts of the grid by scanning the help
    text again for every line of the row. */
module LineParts {
  import opened Nullables
  import opened Utf8
  import opened LineGrid

  // ----- how line, cell and row ends follow each other

  lemma {:induction false} LineEndSame(s: Text, i: nat, p: nat)
    requires i <= p <= |s| && p <= LineEnd(s, i)
    ensures LineEnd(s, p) == LineEnd(s, i)
    ensures EndsLine(s, p) ==> p == LineEnd(s, i)
    decreases p - i
  {
    if i < p { LineEndSame(s, i + 1, p); }
  }

  lemma {:induction false} RowEndSame(s: Text, i: nat, p: nat)
    requires i <= p <= |s| && p <= RowEnd(s, i)
    ensures RowEnd(s, p) == RowEnd(s, i)
    ensures EndsRow(s, p) ==> p == RowEnd(s, i)
    decreases p - i
  {
    if i < p { RowEndSame(s, i + 1, p); }
  }

  /** The end of line `l` of a cell: the end of the cell if it is the last line, otherwise
      the next line starts behind it. */
  lemma {:induction false} LineFollows(s: Text, i: nat, l: nat)
    requires i <= |s| && l < Lines(s, i)
    ensures var e := LineEnd(s, LineStart(s, i, l));
      && (EndsCell(s, e) <==> l + 1 == Lines(s, i))
      && (if EndsCell(s, e) then e == CellEnd(s, i) else LineStart(s, i, l + 1) == e + 1 <= CellEnd(s, i))
    decreases l
  {
    LineEndInCell(s, i);
    if l > 0 {
      LineFollows(s, LineEnd(s, i) + 1, l - 1);
    } else if !EndsCell(s, LineEnd(s, i)) {
      assert LineStart(s, i, 1) == LineStart(s, LineEnd(s, i) + 1, 0);
    }
  }

  lemma {:induction false} CellFollows(s: Text, i: nat, c: nat)
    requires i <= |s| && c < Cells(s, i)
    ensures var e := CellEnd(s, CellStart(s, i, c));
      && (EndsRow(s, e) <==> c + 1 == Cells(s, i))
      && (if EndsRow(s, e) then e == RowEnd(s, i) else CellStart(s, i, c + 1) == e + 1 <= RowEnd(s, i))
    decreases c
  {
    CellEndInRow(s, i);
    if c > 0 {
      CellFollows(s, CellEnd(s, i) + 1, c - 1);
    } else if !EndsRow(s, CellEnd(s, i)) {
      assert CellStart(s, i, 1) == CellStart(s, CellEnd(s, i) + 1, 0);
    }
  }

  // ----- the scan

  /** `position` lies in line `l` of the cell at `i`. */
  predicate InLine(s: Text, i: nat, l: nat, position: nat)
    requires i <= |s|
  {
    && l < Lines(s, i) && LineStart(s, i, l) <= position <= LineEnd(s, LineStart(s, i, l))
  }

  datatype Scan = Scan(position: nat, col: nat, line: nat, maxLine: nat, target: nat, hit: bool)

  /** What max_line_in_block must be: in the first pass the greatest line index seen so far,
      later the greatest one of the row. */
  function Seen(s: Text, row: nat, target: nat, col: nat, line: nat): nat
    requires row <= |s| && col < Cells(s, row)
  {
    if target > 0 then
      HeightPositive(s, row);
      Height(s, row) - 1
    else if MaxLines(s, row, col) > line + 1 then MaxLines(s, row, col) - 1 else line
  }

  /** The scan is inside cell `k.col`.  With `hit`, the part of this cell has been returned;
      without, it is the part that follows `at` and has not been met. */
  ghost predicate Scanning(s: Text, row: nat, at: Cursor, k: Scan) {
    && row <= |s| && at.At? && at.line < Height(s, row)
    && k.col < Cells(s, row) && InLine(s, CellStart(s, row, k.col), k.line, k.position)
    && k.maxLine == Seen(s, row, k.target, k.col, k.line)
    && if k.hit then
         at == At(k.target, k.col) && (k.line >= k.target || k.position == CellEnd(s, CellStart(s, row, k.col)))
       else Successor(s, row, at) == At(k.target, k.col) && k.line < k.target
  }

  /** The scan has arrived at part (target, col): `k.position` and `len` describe it. */
  ghost predicate Here(s: Text, row: nat, k: Scan, len: nat) {
    && row <= |s| && k.col < Cells(s, row) && k.target < Height(s, row) && k.hit
    && k.maxLine == Seen(s, row, k.target, k.col, k.line)
    && GridPart(s, row, k.target, k.col) == Part(k.target, k.col, k.position, len)
    && var lines := Lines(s, CellStart(s, row, k.col));
       k.line == if k.target < lines then k.target else lines - 1
  }

  /** The state of the scan loop; after the last part it stays at the end of the row. */
  ghost predicate Going(s: Text, row: nat, at: Cursor, k: Scan) {
    && row <= |s|
    && if at == Done then k.hit && k.position == RowEnd(s, row) && k.maxLine < k.target else Scanning(s, row, at, k)
  }

  lemma PositionInRow(s: Text, row: nat, at: Cursor, k: Scan)
    requires Going(s, row, at, k)
    ensures row <= k.position <= RowEnd(s, row) <= |s|
    ensures EndsRow(s, k.position) ==> k.position == RowEnd(s, row)
    ensures if at == Done then EndsRow(s, k.position) && k.hit else Scanning(s, row, at, k)
  {
    if at.At? {
      var cell := CellStart(s, row, k.col);
      LineFollows(s, cell, k.line);
      CellFollows(s, row, k.col);
      RowEndSame(s, row, k.position);
    }
  }

  lemma FirstPart(s: Text, row: nat)
    requires row <= |s|
    ensures Arrived(s, row, Before, Scan(row, 0, 0, 0, 0, true), LineEnd(s, row) - row)
  {
    HeightPositive(s, row);
    assert MaxLines(s, row, 0) == 0;
  }

  /** After a returned part the scan goes on behind it. */
  lemma ScanResumes(s: Text, row: nat, k: Scan, len: nat)
    requires Here(s, row, k, len)
    ensures k.position + len <= |s| && Going(s, row, At(k.target, k.col), k.(position := k.position + len))
  {
    var cell := CellStart(s, row, k.col);
    LineFollows(s, cell, k.line);
  }

  /** default: */
  lemma ScanCharacter(s: Text, row: nat, at: Cursor, k: Scan)
    requires Scanning(s, row, at, k) && k.position < |s| && !EndsLine(s, k.position)
    ensures Scanning(s, row, at, k.(position := k.position + 1))
  {
    var cell := CellStart(s, row, k.col);
    LineEndSame(s, LineStart(s, cell, k.line), k.position);
  }

  /** case '\v': */
  lemma ScanLine(s: Text, row: nat, at: Cursor, k: Scan, next: Scan)
    requires Scanning(s, row, at, k) && k.position < |s| && s[k.position] == VTAB
    requires next == k.(position := k.position + 1, line := k.line + 1,
                        maxLine := if k.maxLine >= k.line + 1 then k.maxLine else k.line + 1)
    ensures if next.line == k.target then
        !k.hit && Arrived(s, row, at, next.(hit := true), LineEnd(s, next.position) - next.position)
      else Scanning(s, row, at, next)
  {
    var cell := CellStart(s, row, k.col);
    LineEndSame(s, LineStart(s, cell, k.line), k.position);
    LineFollows(s, cell, k.line);
    LineFollows(s, cell, k.line + 1);
    LinesAtMostHeight(s, row, Cells(s, row), k.col);
  }

  /** The scan is at the part that follows `at`. */
  ghost predicate Arrived(s: Text, row: nat, at: Cursor, k: Scan, len: nat) {
    row <= |s| && Here(s, row, k, len) && Successor(s, row, at) == At(k.target, k.col)
  }

  /** The end of a cell that has no line with the target index: an empty part. */
  lemma ScanInserts(s: Text, row: nat, at: Cursor, k: Scan)
    requires Scanning(s, row, at, k) && EndsCell(s, k.position) && !k.hit
    ensures Arrived(s, row, at, k.(hit := true), 0)
  {
    var cell := CellStart(s, row, k.col);
    LineEndSame(s, LineStart(s, cell, k.line), k.position);
    LineFollows(s, cell, k.line);
  }

  /** At the end of a cell the scan is in its last line, and the next cell starts behind. */
  lemma AtCellEnd(s: Text, row: nat, at: Cursor, k: Scan)
    requires Scanning(s, row, at, k) && k.position < |s| && s[k.position] == TAB
    ensures k.line + 1 == Lines(s, CellStart(s, row, k.col))
    ensures k.col + 1 < Cells(s, row) && CellStart(s, row, k.col + 1) == k.position + 1
  {
    var cell := CellStart(s, row, k.col);
    LineEndSame(s, LineStart(s, cell, k.line), k.position);
    LineFollows(s, cell, k.line);
    CellFollows(s, row, k.col);
  }

  /** case '\t': */
  lemma ScanCell(s: Text, row: nat, at: Cursor, k: Scan)
    requires Scanning(s, row, at, k) && k.position < |s| && s[k.position] == TAB && k.hit
    ensures var next := k.(position := k.position + 1, line := 0, col := k.col + 1, hit := false);
      if k.target == 0 then Arrived(s, row, at, next.(hit := true), LineEnd(s, next.position) - next.position)
      else Scanning(s, row, at, next)
  {
    hide CellEnd, RowEnd, Cells;
    AtCellEnd(s, row, at, k);
  }

  /** At the end of the row the scan is in the last cell. */
  lemma AtRowsEnd(s: Text, row: nat, at: Cursor, k: Scan)
    requires Scanning(s, row, at, k) && EndsRow(s, k.position) && k.hit
    ensures k.position == RowEnd(s, row) && at == At(k.target, k.col) && k.col + 1 == Cells(s, row)
    ensures k.maxLine + 1 == Height(s, row)
  {
    var cell := CellStart(s, row, k.col);
    LineEndSame(s, LineStart(s, cell, k.line), k.position);
    LineFollows(s, cell, k.line);
    CellFollows(s, row, k.col);
    assert k.target == 0 ==> k.line + 1 == Lines(s, cell);
  }

  /** case 0 and case '\n': */
  lemma ScanRow(s: Text, row: nat, at: Cursor, k: Scan)
    requires Going(s, row, at, k) && EndsRow(s, k.position) && k.hit
    ensures k.position == RowEnd(s, row)
    ensures if k.target + 1 > k.maxLine then Successor(s, row, at) == Done
      else Going(s, row, at, k.(position := row, line := 0, col := 0, hit := false, target := k.target + 1))
  {
    if at.At? {
      AtRowsEnd(s, row, at, k);
      hide RowEnd, Cells, Height, Lines;
    }
  }

  /** At a part the greatest line index is not below the index of the part. */
  lemma TargetIsSeen(s: Text, row: nat, k: Scan, len: nat)
    requires Here(s, row, k, len)
    ensures k.target <= k.maxLine
  {
  }

  // ----- tables and rows

  const NULL := -1

  /** The help texts of the option table; the entry behind the last is the sentinel, whose
      help is NULL.  A table is a maximal run of entries with help. */
  type Usage = u: seq<Nullable<Text>> | forall i :: 0 <= i < |u| && u[i].Value? ==> Proper(u[i].value)

  function Help(usage: Usage, d: nat): Nullable<Text> {
    if d < |usage| then usage[d] else Null
  }

  /** First entry from `d` on that has help, or the sentinel. */
  function TableStart(usage: Usage, d: nat): (t: nat)
    requires d <= |usage|
    ensures d <= t <= |usage| && (t < |usage| ==> Help(usage, t).Value?)
    decreases |usage| - d
  {
    if d < |usage| && usage[d].Null? then TableStart(usage, d + 1) else d
  }

  /** First entry from `d` on that has no help. */
  function TableEnd(usage: Usage, d: nat): (t: nat)
    requires d <= |usage|
    ensures d <= t <= |usage| && Help(usage, t).Null?
    decreases |usage| - d
  {
    if d < |usage| && usage[d].Value? then TableEnd(usage, d + 1) else d
  }

  datatype Row = Row(desc: nat, start: nat)

  predicate IsRow(usage: Usage, r: Row) {
    Help(usage, r.desc).Value? && r.start <= |usage[r.desc].value|
  }

  /** The row after `r`: rows end at a line break or with the help text, and never cross a
      table break. */
  function RowAfter(usage: Usage, r: Row): (n: Nullable<Row>)
    requires IsRow(usage, r)
    ensures n.Value? ==> IsRow(usage, n.value)
  {
    var s := usage[r.desc].value;
    var e := RowEnd(s, r.start);
    if e < |s| then Value(Row(r.desc, e + 1))
    else if Help(usage, r.desc + 1).Value? then Value(Row(r.desc + 1, 0)) else Null
  }

  function RowsFrom(usage: Usage, r: Row): seq<Row>
    requires IsRow(usage, r)
    decreases |usage| - r.desc, |usage[r.desc].value| - r.start
  {
    [r] + match RowAfter(usage, r)
    case Null => []
    case Value(n) => RowsFrom(usage, n)
  }

  function RowText(usage: Usage, r: Row): Text
    requires IsRow(usage, r)
  {
    var s := usage[r.desc].value;
    s[r.start..RowEnd(s, r.start)]
  }

  function RowTexts(usage: Usage, rows: seq<Row>): seq<Text>
    requires forall i :: 0 <= i < |rows| ==> IsRow(usage, rows[i])
  {
    if rows == [] then [] else [RowText(usage, rows[0])] + RowTexts(usage, rows[1..])
  }

  /** The help texts from the one at `d` up to the table break. */
  function Helps(usage: Usage, d: nat): seq<Text>
    decreases |usage| - d
  {
    if d < |usage| && usage[d].Value? then [usage[d].value] + Helps(usage, d + 1) else []
  }

  lemma {:induction false} RowsAreRows(usage: Usage, r: Row)
    requires IsRow(usage, r)
    ensures forall i :: 0 <= i < |RowsFrom(usage, r)| ==> IsRow(usage, RowsFrom(usage, r)[i])
    decreases |usage| - r.desc, |usage[r.desc].value| - r.start
  {
    var n := RowAfter(usage, r);
    if n.Value? { RowsAreRows(usage, n.value); }
  }

  /** The rows of a table, joined by line breaks, are its help texts joined by line breaks. */
  lemma {:induction false} RowsMakeTable(usage: Usage, r: Row)
    requires IsRow(usage, r)
    ensures forall i :: 0 <= i < |RowsFrom(usage, r)| ==> IsRow(usage, RowsFrom(usage, r)[i])
    ensures Join(RowTexts(usage, RowsFrom(usage, r)), NEWLINE) ==
      Join([usage[r.desc].value[r.start..]] + Helps(usage, r.desc + 1), NEWLINE)
    decreases |usage| - r.desc, |usage[r.desc].value| - r.start
  {
    hide Join, RowEnd;
    RowsAreRows(usage, r);
    var s := usage[r.desc].value;
    var e := RowEnd(s, r.start);
    var n := RowAfter(usage, r);
    var later := Helps(usage, r.desc + 1);
    if n.Value? {
      RowsMakeTable(usage, n.value);
      var rest := RowTexts(usage, RowsFrom(usage, n.value));
      assert RowsFrom(usage, r)[1..] == RowsFrom(usage, n.value);
      JoinMore(RowText(usage, r), rest, NEWLINE);
      if e < |s| {
        Resplit(s, r.start, e, later);
      } else {
        assert s[r.start..e] == s[r.start..];
        assert usage[r.desc + 1].value[0..] == usage[r.desc + 1].value;
        JoinMore(s[r.start..], later, NEWLINE);
      }
    } else {
      assert s[r.start..e] == s[r.start..];
      assert RowTexts(usage, [r]) == [RowText(usage, r)];
    }
  }

  /** Splitting the first of some texts at a line break does not change their join. */
  lemma Resplit(s: Text, i: nat, e: nat, later: seq<Text>)
    requires i <= e < |s| && s[e] == NEWLINE
    ensures s[i..e] + [NEWLINE] + Join([s[e + 1..]] + later, NEWLINE) == Join([s[i..]] + later, NEWLINE)
  {
    assert s[i..e] + [NEWLINE] + s[e + 1..] == s[i..];
    if later != [] {
      JoinMore(s[e + 1..], later, NEWLINE);
      JoinMore(s[i..], later, NEWLINE);
    }
  }

  // ----- the length of a part

  /** Reading continuation bytes stays within the line and sees what the line's own text has. */
  lemma {:induction false} ContinueInLine(ch: bv32, s: Text, a: nat, e: nat, i: nat)
    requires a <= i <= e <= |s| && EndsLine(s, e)
    ensures var r := Continue(ch, s, i); r.1 <= e && Continue(ch, s[a..e], i - a) == (r.0, r.1 - a)
    decreases e - i
  {
    if i < e && Continuation(s[i]) { ContinueInLine((ch << 6) ^ (s[i] as bv32) ^ 0x80, s, a, e, i + 1); }
  }

  /** A character of the part is the same character of the whole text, and ends in the part. */
  lemma CharInLine(s: Text, a: nat, i: nat)
    requires Proper(s) && a <= i < |s| && i < LineEnd(s, a)
    ensures Proper(s[a..LineEnd(s, a)]) && i < LineEnd(s, a) <= |s|
    ensures var (c, n) := CharAt(s, i);
      n <= LineEnd(s, a) && CharAt(s[a..LineEnd(s, a)], i - a) == (c, n - a)
  {
    var e := LineEnd(s, a);
    ProperPart(s, a, e);
    if s[i] > 0xC1 { ContinueInLine(Masked(s[i]), s, a, e, i + 1); }
  }

  lemma ProperPart(s: Text, i: nat, j: nat)
    requires Proper(s) && i <= j <= |s|
    ensures Proper(s[i..j])
  {
  }

  /** `done` columns so far, and those of the rest of `t`. */
  function Columns(t: Text, i: nat, done: nat): nat
    requires Proper(t) && i <= |t|
  {
    done + WidthFrom(t, i)
  }

  /** One step of the width of the line at `a`: at its end nothing is left, before it the
      next character is the one of the whole text. */
  lemma LineWidth(s: Text, a: nat, k: nat)
    requires Proper(s) && a <= |s| && a + k <= LineEnd(s, a)
    ensures LineEnd(s, a) <= |s| && Proper(s[a..LineEnd(s, a)])
    ensures EndsLine(s, a + k) <==> a + k == LineEnd(s, a)
    ensures forall d: nat {:trigger Columns(s[a..LineEnd(s, a)], k, d)} :: var t := s[a..LineEnd(s, a)];
      if EndsLine(s, a + k) then Columns(t, k, d) == d
      else
        a + k < |s| && CharAt(s, a + k).1 <= LineEnd(s, a) &&
        Columns(t, CharAt(s, a + k).1 - a, d + CharAt(s, a + k).0) == Columns(t, k, d)
    ensures k == 0 ==> Columns(s[a..LineEnd(s, a)], 0, 0) == Width(s[a..LineEnd(s, a)])
  {
    LineEndSame(s, a, a + k);
    ProperPart(s, a, LineEnd(s, a));
    if a + k < LineEnd(s, a) { CharInLine(s, a, a + k); }
  }

  // ----- the iterator

  class LinePartIterator {
    const usage: Usage
    var tablestart: nat
    var rowdesc: int              // index into usage, or NULL
    var rowstart: int             // index into the help of rowdesc, or NULL
    var ptr: int                  // index into the help of rowdesc, or NULL
    var col: int
    var len: nat
    var screenlen: nat
    var maxLineInBlock: nat
    var lineInBlock: nat
    var targetLineInBlock: nat
    var hitTargetLine: bool

    /** `rowstart` is the start of a row. */
    ghost predicate OnRow()
      reads this
    {
      rowdesc >= 0 && rowstart >= 0 && IsRow(usage, Row(rowdesc, rowstart))
    }

    ghost function CurrentRow(): Row
      requires OnRow()
      reads this
    {
      Row(rowdesc, rowstart)
    }

    ghost function Source(): Text
      requires OnRow()
      reads this
    {
      usage[rowdesc].value
    }

    /** Where the fields point. */
    ghost predicate Placed()
      reads this
    {
      && tablestart <= |usage| && rowdesc >= NULL && rowstart >= NULL && ptr >= NULL
      && (rowstart >= 0 ==> OnRow())
      && (rowdesc >= 0 && rowstart < 0 ==> rowdesc == tablestart == |usage|)
      && (if rowstart < 0 then ptr < 0 else ptr < 0 || rowstart <= ptr <= RowEnd(Source(), rowstart))
    }

    /** Between two rows, that is before the first one of a table: ptr is NULL. */
    ghost predicate AtRowStart()
      reads this
    {
      && OnRow() && ptr == rowstart && col == -1 && len == 0 && hitTargetLine
      && maxLineInBlock == lineInBlock == targetLineInBlock == 0
    }

    ghost function Scanned(): Scan
      requires ptr >= 0 && col >= 0
      reads this
    {
      Scan(ptr, col, lineInBlock, maxLineInBlock, targetLineInBlock, hitTargetLine)
    }

    /** The part the iterator is at. */
    ghost predicate AtPart()
      reads this
    {
      && OnRow() && ptr >= 0 && col >= 0 && Here(Source(), rowstart, Scanned(), len)
      && ptr + len <= |Source()| && screenlen == Width(Source()[ptr..ptr + len])
    }

    /** next() has returned false. */
    ghost predicate RowDone()
      reads this
    {
      && OnRow() && ptr == RowEnd(Source(), rowstart) && col >= 0 && len == 0 && hitTargetLine
      && maxLineInBlock < targetLineInBlock
    }

    ghost function Position(): Cursor
      reads this
    {
      if col < 0 then Before else if targetLineInBlock > maxLineInBlock then Done else At(targetLineInBlock, col)
    }

    ghost predicate Valid()
      reads this
    {
      Placed() && (ptr < 0 || AtRowStart() || AtPart() || RowDone())
    }

    constructor (u: Usage)
      ensures Valid() && usage == u && tablestart == 0 && rowdesc == rowstart == ptr == NULL
    {
      usage := u;
      tablestart, rowdesc, rowstart, ptr := 0, NULL, NULL, NULL;
      col, len, screenlen := -1, 0, 0;
      maxLineInBlock, lineInBlock, targetLineInBlock, hitTargetLine := 0, 0, 0, true;
    }

    /** Determines the length in bytes and in screen columns of the part at `ptr`. */
    method UpdateLength()
      requires OnRow() && 0 <= ptr <= |Source()|
      modifies this`len, this`screenlen
      ensures ptr + len == LineEnd(Source(), ptr)
      ensures screenlen == Width(Source()[ptr..ptr + len])
    {
      hide Columns, Width, WidthFrom, CharAt, Proper, LineEnd, EndsLine, RowEnd;
      var s: Text, p: nat := usage[rowdesc].value, ptr;
      ghost var e := LineEnd(s, p);
      ghost var t := s[p..e];
      LineWidth(s, p, 0);
      screenlen := 0;
      len := 0;
      while !EndsLine(s, p + len)
        invariant p + len <= e
        invariant Columns(t, len, screenlen) == Width(t)
        decreases e - p - len
      {
        LineWidth(s, p, len);
        var columns, charbytes := CharWidth(s, p + len);
        screenlen := screenlen + columns;
        len := len + charbytes;
      }
      LineWidth(s, p, len);
    }

    /** Moves to the next table, or first to the first one. */
    method NextTable() returns (more: bool)
      requires Placed()
      modifies this
      ensures Valid() && ptr < 0 && rowdesc == tablestart
      ensures tablestart ==
        TableStart(usage, if old(rowdesc) < 0 then old(tablestart) else TableEnd(usage, old(tablestart)))
      ensures more == (tablestart < |usage|) == OnRow() && (more ==> CurrentRow() == Row(tablestart, 0))
    {
      ghost var from := if rowdesc < 0 then tablestart else TableEnd(usage, tablestart);
      if rowdesc != NULL {
        while tablestart < |usage| && Help(usage, tablestart).Value?
          invariant tablestart <= |usage| && TableEnd(usage, tablestart) == from
          decreases |usage| - tablestart
        {
          tablestart := tablestart + 1;
        }
      }
      while tablestart < |usage| && Help(usage, tablestart).Null?
        invariant tablestart <= |usage| && TableStart(usage, tablestart) == TableStart(usage, from)
        decreases |usage| - tablestart
      {
        tablestart := tablestart + 1;
      }
      RestartTable();
      more := rowstart != NULL;
    }

    /** Back to the start of the current table. */
    method RestartTable()
      requires tablestart <= |usage| && (Help(usage, tablestart).Value? || tablestart == |usage|)
      modifies this`rowdesc, this`rowstart, this`ptr
      ensures Valid() && ptr < 0 && rowdesc == tablestart
      ensures OnRow() == (tablestart < |usage|) == (rowstart != NULL)
      ensures OnRow() ==> CurrentRow() == Row(tablestart, 0)
    {
      rowdesc := tablestart;
      rowstart := if Help(usage, tablestart).Value? then 0 else NULL;
      ptr := NULL;
    }

    /** Moves to the next row of the table, or first to the first one. */
    method NextRow() returns (more: bool)
      requires Placed()
      modifies this`rowdesc, this`rowstart, this`ptr, this`col, this`len, this`screenlen,
               this`maxLineInBlock, this`lineInBlock, this`targetLineInBlock, this`hitTargetLine
      ensures Placed() && (more ==> Valid() && AtRowStart())
      ensures old(ptr) < 0 ==> more == old(OnRow()) && (more ==> CurrentRow() == old(CurrentRow()))
      ensures old(ptr) >= 0 ==> old(OnRow()) && OnRow() && more == RowAfter(usage, old(CurrentRow())).Value?
      ensures old(ptr) >= 0 ==>
        CurrentRow() == if more then RowAfter(usage, old(CurrentRow())).value else old(CurrentRow())
      ensures old(RowDone()) && !more ==> RowDone()
    {
      if ptr < 0 {
        RestartRow();
        return rowstart != NULL;
      }
      var s := usage[rowdesc].value;
      SkipRow();
      if ptr == |s| {
        if Help(usage, rowdesc + 1).Null? {
          return false;
        }
        rowdesc := rowdesc + 1;
        rowstart := 0;
      } else {
        rowstart := ptr + 1;
      }
      RestartRow();
      return true;
    }

    /** The scan of nextRow() for the end of the row. */
    method SkipRow()
      requires OnRow() && rowstart <= ptr <= RowEnd(Source(), rowstart)
      modifies this`ptr
      ensures ptr == RowEnd(Source(), rowstart)
    {
      var s := usage[rowdesc].value;
      RowEndSame(s, rowstart, ptr);
      while ptr < |s| && s[ptr] != NEWLINE
        invariant rowstart <= ptr <= |s| && RowEnd(s, ptr) == RowEnd(s, rowstart)
        decreases |s| - ptr
      {
        ptr := ptr + 1;
      }
    }

    /** Back to the start of the current row. */
    method RestartRow()
      requires rowstart >= 0 ==> OnRow()
      modifies this`ptr, this`col, this`len, this`screenlen,
               this`maxLineInBlock, this`lineInBlock, this`targetLineInBlock, this`hitTargetLine
      ensures if rowstart < 0 then ptr == rowstart else AtRowStart()
    {
      ptr := rowstart;
      col, len, screenlen := -1, 0, 0;
      maxLineInBlock, lineInBlock, targetLineInBlock := 0, 0, 0;
      hitTargetLine := true;
    }

    // ----- next()

    /** The scan for the part that follows `at` is under way. */
    ghost predicate Searching(at: Cursor)
      reads this
    {
      OnRow() && 0 <= ptr <= |Source()| && col >= 0 && Going(Source(), rowstart, at, Scanned())
    }

    /** The iterator is at the part that follows `at`. */
    ghost predicate Found(at: Cursor)
      reads this
    {
      AtPart() && Position() == Successor(Source(), rowstart, at)
    }

    /** Returns the part at `ptr` to the caller. */
    method Stop(ghost at: Cursor)
      requires OnRow() && 0 <= ptr <= |Source()| && col >= 0
      requires Arrived(Source(), rowstart, at, Scanned().(hit := true), LineEnd(Source(), ptr) - ptr)
      modifies this`len, this`screenlen, this`hitTargetLine
      ensures Found(at)
    {
      hide LineEnd, GridPart, Successor, Width, Lines, Seen;
      TargetIsSeen(Source(), rowstart, Scanned().(hit := true), LineEnd(Source(), ptr) - ptr);
      UpdateLength();
      hitTargetLine := true;
    }

    /** case '\v' */
    method AtVtab(ghost at: Cursor) returns (stop: bool)
      requires Searching(at) && ptr < |Source()| && Source()[ptr] == VTAB
      modifies this`ptr, this`len, this`screenlen, this`maxLineInBlock, this`lineInBlock, this`hitTargetLine
      ensures if stop then Found(at) else Searching(at) && ptr == old(ptr) + 1 && hitTargetLine == old(hitTargetLine)
    {
      hide Scanning, Arrived, GridPart, Successor, Width, Lines, Seen, RowEnd, LineEnd;
      ghost var k := Scanned();
      PositionInRow(Source(), rowstart, at, k);
      lineInBlock := lineInBlock + 1;
      maxLineInBlock := if maxLineInBlock >= lineInBlock then maxLineInBlock else lineInBlock;
      ptr := ptr + 1;
      ScanLine(Source(), rowstart, at, k, Scanned());
      stop := lineInBlock == targetLineInBlock;
      if stop { Stop(at); }
    }

    /** case '\t' */
    method AtTab(ghost at: Cursor) returns (stop: bool)
      requires Searching(at) && ptr < |Source()| && Source()[ptr] == TAB
      modifies this`ptr, this`len, this`screenlen, this`lineInBlock, this`hitTargetLine, this`col
      ensures if stop then Found(at) else Searching(at) && !hitTargetLine && old(hitTargetLine)
    {
      hide Scanning, Arrived, GridPart, Successor, Width, Lines, Seen, RowEnd;
      ghost var k := Scanned();
      PositionInRow(Source(), rowstart, at, k);
      if !hitTargetLine {
        ScanInserts(Source(), rowstart, at, k);
        Stop(at);
        return true;
      }
      ScanCell(Source(), rowstart, at, k);
      hitTargetLine := false;
      lineInBlock := 0;
      col := col + 1;
      ptr := ptr + 1;
      stop := lineInBlock == targetLineInBlock;
      if stop { Stop(at); }
    }

    /** case 0 and case '\n' */
    method AtRowEnd(ghost at: Cursor) returns (stop: bool, more: bool)
      requires Searching(at) && EndsRow(Source(), ptr)
      modifies this`ptr, this`len, this`screenlen, this`lineInBlock, this`targetLineInBlock, this`hitTargetLine,
        this`col
      ensures if stop then if more then Found(at) else RowDone() && Successor(Source(), rowstart, at) == Done
        else Searching(at) && !hitTargetLine && old(hitTargetLine)
    {
      hide Scanning, Arrived, GridPart, Successor, Width, Lines, Seen, RowEnd;
      ghost var k := Scanned();
      PositionInRow(Source(), rowstart, at, k);
      if !hitTargetLine {
        ScanInserts(Source(), rowstart, at, k);
        Stop(at);
        return true, true;
      }
      ScanRow(Source(), rowstart, at, k);
      targetLineInBlock := targetLineInBlock + 1;
      if targetLineInBlock > maxLineInBlock {
        UpdateLength();
        return true, false;
      }
      hitTargetLine := false;
      lineInBlock := 0;
      col := 0;
      ptr := rowstart;
      return false, false;
    }

    /** Moves to the next part of the row, or first to the first one. */
    method Next() returns (more: bool)
      requires Valid()
      modifies this`ptr, this`col, this`len, this`screenlen,
               this`maxLineInBlock, this`lineInBlock, this`targetLineInBlock, this`hitTargetLine
      ensures Valid()
      ensures old(ptr) < 0 ==> !more && ptr < 0
      ensures old(ptr) >= 0 ==> ptr >= 0 && Position() == Successor(Source(), rowstart, old(Position()))
      ensures old(ptr) >= 0 ==> if more then AtPart() else RowDone()
    {
      if ptr < 0 {
        return false;
      }
      hide Going, Scanning, Arrived, GridPart, Successor, Width, Lines, Seen, RowEnd, LineEnd, Here;
      if col == -1 {
        FirstInRow();
        more := true;
      } else {
        more := NextInRow();
      }
      if more { PartInRow(); }
    }

    method FirstInRow()
      requires AtRowStart()
      modifies this`col, this`len, this`screenlen, this`hitTargetLine
      ensures Found(Before)
    {
      hide GridPart, Successor, Width, Lines, Seen, RowEnd, LineEnd, Here;
      col := 0;
      FirstPart(Source(), rowstart);
      Stop(Before);
    }

    lemma PartInRow()
      requires AtPart()
      ensures rowstart <= ptr <= RowEnd(Source(), rowstart)
    {
      ScanResumes(Source(), rowstart, Scanned(), len);
      PositionInRow(Source(), rowstart, At(targetLineInBlock, col), Scanned().(position := ptr + len));
    }

    /** The scan loop of next(). */
    method NextInRow() returns (more: bool)
      requires AtPart() || RowDone()
      modifies this`ptr, this`col, this`len, this`screenlen,
               this`maxLineInBlock, this`lineInBlock, this`targetLineInBlock, this`hitTargetLine
      ensures if more then Found(old(Position()))
        else RowDone() && Successor(Source(), rowstart, old(Position())) == Done
    {
      hide Going, Scanning, Arrived, GridPart, Successor, Width, Lines, Seen, RowEnd, LineEnd;
      ghost var at := Position();
      Resume();
      var s := usage[rowdesc].value;
      ptr := ptr + len;
      while true
        invariant Searching(at)
        decreases hitTargetLine, |s| - ptr
      {
        var stop;
        if ptr == |s| || s[ptr] == NEWLINE {
          stop, more := AtRowEnd(at);
        } else if s[ptr] == TAB {
          stop := AtTab(at);
          more := true;
        } else if s[ptr] == VTAB {
          stop := AtVtab(at);
          more := true;
        } else {
          Character(at);
          ptr := ptr + 1;
          stop := false;
        }
        if stop { return; }
      }
    }

    lemma Resume()
      requires AtPart() || RowDone()
      ensures Going(Source(), rowstart, Position(), Scanned().(position := ptr + len)) && ptr + len <= |Source()|
    {
      if AtPart() {
        TargetIsSeen(Source(), rowstart, Scanned(), len);
        ScanResumes(Source(), rowstart, Scanned(), len);
      }
    }

    lemma Character(at: Cursor)
      requires Searching(at) && !EndsLine(Source(), ptr)
      ensures ptr < |Source()| && Going(Source(), rowstart, at, Scanned().(position := ptr + 1))
    {
      PositionInRow(Source(), rowstart, at, Scanned());
      ScanCharacter(Source(), rowstart, at, Scanned());
    }
  }

  /** The loop body of update_length(): the columns and bytes of one character. */
  method CharWidth(s: Text, i: nat) returns (columns: nat, charbytes: nat)
    requires Proper(s) && i < |s|
    ensures (columns, i + charbytes) == CharAt(s, i)
  {
    columns, charbytes := 1, 1;
    if s[i] > 0xC1 {
      var ch;
      ch, charbytes := Decode(s, i);
      if ch >= 0x1100 && IsWideChar(ch) {
        columns := columns + 1;
      }
    }
  }
}
