/** The usage text in terms of its bytes: what separates tables, rows, cells and lines. */
module GridMeaning {
  import opened Utf8
  import opened LineGrid
  import opened LineParts
  import opened ColumnWidths

  // ----- nothing but the separators is cut away, and they are nowhere else

  predicate Free(t: Text, bytes: set<bv8>) { forall k :: 0 <= k < |t| ==> t[k] !in bytes }

  lemma {:induction false} LineEndIs(s: Text, i: nat)
    requires i <= |s|
    ensures var e := LineEnd(s, i); (e < |s| ==> s[e] in {9, 10, 11}) && Free(s[i..e], {9, 10, 11})
    decreases |s| - i
  {
    if !EndsLine(s, i) {
      LineEndIs(s, i + 1);
      var e := LineEnd(s, i);
      assert s[i..e] == [s[i]] + s[i + 1..e];
    }
  }

  lemma {:induction false} CellEndIs(s: Text, i: nat)
    requires i <= |s|
    ensures var e := CellEnd(s, i); (e < |s| ==> s[e] in {9, 10}) && Free(s[i..e], {9, 10})
    decreases |s| - i
  {
    if !EndsCell(s, i) {
      CellEndIs(s, i + 1);
      var e := CellEnd(s, i);
      assert s[i..e] == [s[i]] + s[i + 1..e];
    }
  }

  lemma {:induction false} RowEndIs(s: Text, i: nat)
    requires i <= |s|
    ensures var e := RowEnd(s, i); (e < |s| ==> s[e] == 10) && Free(s[i..e], {10})
    decreases |s| - i
  {
    if !EndsRow(s, i) {
      RowEndIs(s, i + 1);
      var e := RowEnd(s, i);
      assert s[i..e] == [s[i]] + s[i + 1..e];
    }
  }

  lemma {:induction false} LinesAreFree(s: Text, i: nat, l: nat)
    requires i <= |s| && l < Lines(s, i)
    ensures Free(LineTexts(s, i)[l], {9, 10, 11})
    decreases |s| - i
  {
    LineEndIs(s, i);
    if l > 0 { LinesAreFree(s, LineEnd(s, i) + 1, l - 1); }
  }

  lemma {:induction false} CellsAreFree(s: Text, i: nat, c: nat)
    requires i <= |s| && c < Cells(s, i)
    ensures Free(CellTexts(s, i)[c], {9, 10})
    decreases |s| - i
  {
    CellEndIs(s, i);
    if c > 0 { CellsAreFree(s, CellEnd(s, i) + 1, c - 1); }
  }

  /** The cells of a row contain no tab and no line break, their lines no vertical tab either: the
      split is the one at all separators. */
  lemma SplitIsComplete(s: Text, row: nat, line: nat, col: nat)
    requires row <= |s| && col < Cells(s, row)
    ensures Free(CellTexts(s, row)[col], {9, 10}) && Free(s[row..RowEnd(s, row)], {10})
    ensures var cell := CellStart(s, row, col);
      line < |LineTexts(s, cell)| ==> Free(LineTexts(s, cell)[line], {9, 10, 11})
  {
    CellsAreFree(s, row, col);
    RowEndIs(s, row);
    var cell := CellStart(s, row, col);
    if line < |LineTexts(s, cell)| { LinesAreFree(s, cell, line); }
  }

  /** The grid is as high as its highest cell. */
  lemma HeightIs(s: Text, row: nat)
    requires row <= |s|
    ensures forall c :: 0 <= c < Cells(s, row) ==> |LineTexts(s, CellStart(s, row, c))| <= Height(s, row)
    ensures exists c :: 0 <= c < Cells(s, row) && |LineTexts(s, CellStart(s, row, c))| == Height(s, row)
  {
    forall c | 0 <= c < Cells(s, row)
      ensures |LineTexts(s, CellStart(s, row, c))| <= Height(s, row)
    {
      LinesAtMostHeight(s, row, Cells(s, row), c);
    }
    var c := HighestCell(s, row, Cells(s, row));
    assert |LineTexts(s, CellStart(s, row, c))| == Height(s, row);
  }

  lemma {:induction false} HighestCell(s: Text, row: nat, n: nat) returns (c: nat)
    requires row <= |s| && 0 < n <= Cells(s, row)
    ensures c < n && Lines(s, CellStart(s, row, c)) == MaxLines(s, row, n)
  {
    c := n - 1;
    if n > 1 && Lines(s, CellStart(s, row, n - 1)) <= MaxLines(s, row, n - 1) {
      c := HighestCell(s, row, n - 1);
    }
  }

  // ----- rows that use separators

  predicate UsesSeparators(s: Text, row: nat)
    requires row <= |s|
  {
    exists k :: row <= k < RowEnd(s, row) && s[k] in {9, 11}
  }

  lemma {:induction false} FirstLineEnds(s: Text, row: nat)
    requires row <= |s|
    ensures UsesSeparators(s, row) <==> !EndsRow(s, LineEnd(s, row))
  {
    var e := LineEnd(s, row);
    LineEndIs(s, row);
    LineEndInCell(s, row);
    CellEndInRow(s, row);
    RowEndIs(s, row);
    if EndsRow(s, e) {
      RowEndSame(s, row, e);
      forall k | row <= k < RowEnd(s, row) ensures s[k] !in {9, 11} {
        assert s[row..e][k - row] == s[k];
      }
    } else {
      assert s[e] in {9, 11};
      assert e < RowEnd(s, row);
    }
  }

  lemma OnlyOnePart(s: Text, row: nat)
    requires row <= |s| && EndsRow(s, LineEnd(s, row))
    ensures Cells(s, row) == 1 && Height(s, row) == 1
  {
    LineEndInCell(s, row);
    assert CellEnd(s, row) == LineEnd(s, row);
    assert Lines(s, row) == 1;
    assert MaxLines(s, row, 0) == 0;
    assert MaxLines(s, row, 1) == 1;
  }

  /** A part counts for the layout, and is not an interjection, exactly if a tab or a vertical tab
      occurs anywhere in its row. */
  lemma SeparatedIs(s: Text, row: nat, line: nat, col: nat)
    requires row <= |s| && col < Cells(s, row) && line < Height(s, row)
    ensures Separated(s, GridPart(s, row, line, col)) <==> UsesSeparators(s, row)
  {
    FirstLineEnds(s, row);
    hide UsesSeparators;
    if EndsRow(s, LineEnd(s, row)) {
      OnlyOnePart(s, row);
    } else {
      LineEndInCell(s, row);
    }
  }

  // ----- tables

  /** An entry begins a table if it has help and the one before it has not, or there is none. */
  predicate BeginsTable(usage: Usage, d: nat) {
    Help(usage, d).Value? && (d == 0 || Help(usage, d - 1).Null?)
  }

  lemma {:induction false} StartSkips(usage: Usage, d: nat)
    requires d <= |usage|
    ensures forall k :: d <= k < TableStart(usage, d) ==> Help(usage, k).Null?
    decreases |usage| - d
  {
    if d < |usage| && usage[d].Null? { StartSkips(usage, d + 1); }
  }

  lemma {:induction false} EndSkips(usage: Usage, d: nat)
    requires d <= |usage|
    ensures forall k :: d <= k < TableEnd(usage, d) ==> Help(usage, k).Value?
    decreases |usage| - d
  {
    if d < |usage| && usage[d].Value? { EndSkips(usage, d + 1); }
  }

  // ----- what the search for widths looks at

  /** What is counted of a part. */
  ghost predicate IsSize(s: Text, row: nat, p: Part, size: Size)
    requires row <= |s| && Proper(s) && p.pos + p.len <= |s|
  {
    ProperPart(s, p.pos, p.pos + p.len);
    size == Size(p.col, Width(s[p.pos..p.pos + p.len]), UsesSeparators(s, row))
  }

  lemma {:induction false} SizesFromAre(s: Text, row: nat, line: nat, col: nat)
    requires Proper(s) && row <= |s| && col < Cells(s, row) && line < Height(s, row)
    ensures var parts := PartsFrom(s, row, line, col);
      && Inside(s, parts) && |SizesOf(s, parts)| == |parts|
      && forall i :: 0 <= i < |parts| ==> IsSize(s, row, parts[i], SizesOf(s, parts)[i])
    decreases Height(s, row) - line, Cells(s, row) - col
  {
    hide Cells, Height, GridPart, PartsFrom, UsesSeparators, Separated, Width;
    PartsFromInside(s, row, line, col);
    PartsUnfold(s, row, line, col);
    SeparatedIs(s, row, line, col);
    var p := GridPart(s, row, line, col);
    if col + 1 < Cells(s, row) {
      SizesFromAre(s, row, line, col + 1);
      SizesOne(s, p, PartsFrom(s, row, line, col + 1));
    } else if line + 1 < Height(s, row) {
      SizesFromAre(s, row, line + 1, 0);
      SizesOne(s, p, PartsFrom(s, row, line + 1, 0));
    } else {
      SizesOne(s, p, []);
      assert [p] + [] == [p];
    }
  }

  /** The sizes of a row are those of its parts, one by one. */
  lemma RowSizesAre(s: Text, row: nat)
    requires Proper(s) && row <= |s|
    ensures var parts, sizes := RowParts(s, row), SizesAfter(s, row, Before);
      && Inside(s, parts) && |sizes| == |parts|
      && forall i :: 0 <= i < |parts| ==> IsSize(s, row, parts[i], sizes[i])
  {
    hide SizesOf, PartsFrom, Cells, Height;
    RowStarts(s, row);
    PartsAfterInside(s, row, Before);
    SizesFromAre(s, row, 0, 0);
  }

  /** The sizes of some rows, one row after the other. */
  function SizesOfRows(usage: Usage, rows: seq<Row>): seq<Size>
    requires forall i :: 0 <= i < |rows| ==> IsRow(usage, rows[i])
  {
    if rows == [] then []
    else
      assert IsRow(usage, rows[0]);
      SizesAfter(usage[rows[0].desc].value, rows[0].start, Before) + SizesOfRows(usage, rows[1..])
  }

  /** All rows of a table are looked at, each once. */
  lemma {:induction false} TableSizesAre(usage: Usage, r: Row)
    requires IsRow(usage, r)
    ensures forall i :: 0 <= i < |RowsFrom(usage, r)| ==> IsRow(usage, RowsFrom(usage, r)[i])
    ensures TableSizes(usage, r) == SizesOfRows(usage, RowsFrom(usage, r))
    decreases |usage| - r.desc, |usage[r.desc].value| - r.start
  {
    hide SizesAfter, RowEnd;
    RowsAreRows(usage, r);
    var n := RowAfter(usage, r);
    if n.Value? {
      TableSizesAre(usage, n.value);
      assert RowsFrom(usage, r)[1..] == RowsFrom(usage, n.value);
    } else {
      assert SizesOfRows(usage, []) == [];
      assert RowsFrom(usage, r) == [r] && [r][1..] == [];
    }
  }
}
