/** Where the usage printer breaks a line of a row, and where it does so without need. */
module LineBreaks {
  import opened Nullables
  import opened Utf8
  import opened LineGrid
  import opened LineParts
  import opened ColumnWidths
  import opened Display

  /** The cursor in front of column `c`, when the parts left of it are `w` columns wide. */
  function CursorAt(tabs: seq<nat>, w: seq<nat>, c: nat): int
    requires c <= |w| && c < |tabs|
  {
    if c == 0 then 0 else CursorAfter(CursorAt(tabs, w, c - 1), tabs[c - 1]) + w[c - 1]
  }

  /** Column `c` starts on a new line. */
  predicate Broken(tabs: seq<nat>, w: seq<nat>, c: nat)
    requires c <= |w| && c < |tabs|
  {
    tabs[c] < CursorAt(tabs, w, c)
  }

  predicate Overlong(tabs: seq<nat>, w: seq<nat>, c: nat)
    requires c < |w| && c + 1 < |tabs|
  {
    tabs[c] + w[c] > tabs[c + 1]
  }

  /** The widths are those of plain parts under a layout. */
  ghost predicate PlainLine(lay: Layout, t: nat, w: seq<nat>) {
    && Steps(lay, t) && |w| <= lay.last
    && forall c :: 0 <= c < |w| ==> Fits(lay, t, Size(c, w[c], true))
  }

  /** An overlong part before column `c`, and behind it tab stops 0 only. */
  ghost predicate OverlongBefore(tabs: seq<nat>, w: seq<nat>, b: nat, c: nat) {
    b < c <= |w| && c < |tabs| && Overlong(tabs, w, b) && forall j :: b < j < c ==> tabs[j] == 0
  }

  /** The cursor in front of the next column. */
  lemma BreakStep(lay: Layout, t: nat, w: seq<nat>, c: nat)
    requires PlainLine(lay, t, w) && 0 < c <= |w| && c < |lay.tabstop|
    requires Broken(lay.tabstop, w, c - 1) ==> CursorAt(lay.tabstop, w, c - 1) >= t
    ensures Broken(lay.tabstop, w, c) ==> CursorAt(lay.tabstop, w, c) >= t
    ensures Broken(lay.tabstop, w, c) <==>
      Overlong(lay.tabstop, w, c - 1) || (Broken(lay.tabstop, w, c - 1) && lay.tabstop[c - 1] == 0)
  {
    var tabs, i := lay.tabstop, c - 1;
    assert Fits(lay, t, Size(i, w[i], true));
    assert tabs[i] <= tabs[i + 1] < tabs[i] + t;
  }

  ghost predicate AfterOverlong(tabs: seq<nat>, w: seq<nat>, c: nat) {
    exists b: nat :: OverlongBefore(tabs, w, b, c)
  }

  lemma AfterStep(tabs: seq<nat>, w: seq<nat>, c: nat)
    requires 0 < c <= |w| && c < |tabs|
    ensures AfterOverlong(tabs, w, c) <==>
      Overlong(tabs, w, c - 1) || (tabs[c - 1] == 0 && AfterOverlong(tabs, w, c - 1))
  {
    hide Overlong;
    if Overlong(tabs, w, c - 1) {
      assert OverlongBefore(tabs, w, c - 1, c);
    } else if tabs[c - 1] == 0 {
      assert forall b: nat {:trigger OverlongBefore(tabs, w, b, c)} {:trigger OverlongBefore(tabs, w, b, c - 1)} ::
        OverlongBefore(tabs, w, b, c - 1) <==> OverlongBefore(tabs, w, b, c);
    }
  }

  /** A column starts on a new line exactly if a part left of it is overlong and the tab stops
      of all columns in between are 0. */
  lemma {:induction false} BreaksExactly(lay: Layout, t: nat, w: seq<nat>, c: nat)
    requires PlainLine(lay, t, w) && c <= |w|
    ensures c < |lay.tabstop|
    ensures Broken(lay.tabstop, w, c) <==> AfterOverlong(lay.tabstop, w, c)
    ensures Broken(lay.tabstop, w, c) ==> CursorAt(lay.tabstop, w, c) >= t
  {
    if c > 0 {
      BreaksExactly(lay, t, w, c - 1);
      hide Broken, CursorAt, Overlong, AfterOverlong;
      BreakStep(lay, t, w, c);
      AfterStep(lay.tabstop, w, c);
    }
  }

  /** Behind a part that fits its column the line is broken exactly if that part itself stands on
      a new line at tab stop 0: there the cursor is not where the screen is. */
  lemma NeedlessExactly(lay: Layout, t: nat, w: seq<nat>, c: nat)
    requires PlainLine(lay, t, w) && 0 < c <= |w| && c < |lay.tabstop| && !Overlong(lay.tabstop, w, c - 1)
    ensures Broken(lay.tabstop, w, c) <==> Broken(lay.tabstop, w, c - 1) && lay.tabstop[c - 1] == 0
  {
    BreaksExactly(lay, t, w, c - 1);
    hide Broken, Overlong;
    BreakStep(lay, t, w, c);
  }

  // ----- a usage for which that happens

  lemma {:induction false} EndsAt(s: Text, i: nat, e: nat)
    requires i <= e <= |s| && EndsCell(s, e) && forall k :: i <= k < e ==> !EndsLine(s, k)
    ensures LineEnd(s, i) == CellEnd(s, i) == e && Lines(s, i) == 1
    decreases e - i
  {
    if i < e { EndsAt(s, i + 1, e); }
  }

  lemma {:induction false} PlainWidth(s: Text, i: nat)
    requires i <= |s| && forall k :: 0 <= k < |s| ==> s[k] <= 0xC1
    ensures Proper(s) && WidthFrom(s, i) == |s| - i
    decreases |s| - i
  {
    if i < |s| { PlainWidth(s, i + 1); }
  }

  /** Twelve characters, one, and one: "aaaaaaaaaaaa\tb\tc". */
  const ROW: Text := [97, 97, 97, 97, 97, 97, 97, 97, 97, 97, 97, 97, TAB, 98, TAB, 99]

  lemma RowCells()
    ensures Cells(ROW, 0) == 3 && Height(ROW, 0) == 1
    ensures GridPart(ROW, 0, 0, 0) == Part(0, 0, 0, 12)
    ensures GridPart(ROW, 0, 0, 1) == Part(0, 1, 13, 1)
    ensures GridPart(ROW, 0, 0, 2) == Part(0, 2, 15, 1)
  {
    EndsAt(ROW, 0, 12);
    EndsAt(ROW, 13, 14);
    EndsAt(ROW, 15, 16);
    assert Cells(ROW, 15) == 1;
    assert Cells(ROW, 13) == 2;
    assert CellStart(ROW, 13, 1) == CellStart(ROW, 15, 0);
    assert CellStart(ROW, 0, 1) == CellStart(ROW, 13, 0);
    assert CellStart(ROW, 0, 2) == CellStart(ROW, 13, 1);
    assert MaxLines(ROW, 0, 1) == 1;
    assert MaxLines(ROW, 0, 2) == 1;
  }

  lemma RowPartsAre()
    ensures RowParts(ROW, 0) == [Part(0, 0, 0, 12), Part(0, 1, 13, 1), Part(0, 2, 15, 1)]
  {
    hide Cells, Height, GridPart, PartsFrom;
    RowCells();
    RowStarts(ROW, 0);
    PartsUnfold(ROW, 0, 0, 0);
    PartsUnfold(ROW, 0, 0, 1);
    PartsUnfold(ROW, 0, 0, 2);
  }

  const SIZES := [Size(0, 12, true), Size(1, 1, true), Size(2, 1, true)]

  lemma SizesAre()
    ensures Proper(ROW) && SizesAfter(ROW, 0, LineGrid.Before) == SIZES
  {
    hide RowParts, Separated, Width, SizesAfter, SizeOf;
    PlainWidth(ROW, 0);
    FirstSizes(ROW, 0);
    RowPartsAre();
    var parts := [Part(0, 0, 0, 12), Part(0, 1, 13, 1), Part(0, 2, 15, 1)];
    PartSizes();
    SizesOne(ROW, parts[2], []);
    SizesOne(ROW, parts[1], [parts[2]]);
    SizesOne(ROW, parts[0], [parts[1], parts[2]]);
    assert parts == [parts[0]] + ([parts[1]] + ([parts[2]] + []));
  }

  lemma PartSizes()
    ensures Proper(ROW)
    ensures SizeOf(ROW, Part(0, 0, 0, 12)) == SIZES[0]
    ensures SizeOf(ROW, Part(0, 1, 13, 1)) == SIZES[1]
    ensures SizeOf(ROW, Part(0, 2, 15, 1)) == SIZES[2]
  {
    PlainWidth(ROW, 0);
    PlainWidth(ROW[0..12], 0);
    PlainWidth(ROW[13..14], 0);
    PlainWidth(ROW[15..16], 0);
  }

  /** On a screen 10 columns wide the first part is overlong and counts for nothing. */
  lemma LayoutIs(minPercent: int, ownPercent: int)
    ensures Best(SIZES, 10, OVERLONG) == 12
    ensures var lay := LayoutOf(SIZES, 10, minPercent, ownPercent);
      lay.last == 2 && lay.tabstop[0] == lay.tabstop[1] == 0 && lay.tabstop[2] == 1
  {
    hide Percent, Widest, LastColumn;
    forall t: nat
      ensures Left(SIZES, t) == (if t > 12 then 12 else 0) + (if t > 1 then 1 else 0)
    {
      TotalTwo(t);
    }
    BestFits(SIZES, 10, OVERLONG);
    assert Left(SIZES, 12) == 1;
    TotalTwo(12);
  }

  lemma WidestOne(p: Size, rest: seq<Size>, c: nat, t: nat)
    ensures Widest([p] + rest, c, t) ==
      Max(if p.col == c && p.counts && p.width < t then p.width else 0, Widest(rest, c, t))
    ensures LastColumn([p] + rest) == Max(if p.col < MAX_COLUMNS then p.col else 0, LastColumn(rest))
  {
    assert ([p] + rest)[1..] == rest;
  }

  lemma WidestIs(c: nat, t: nat)
    ensures Widest(SIZES, c, t) == if c == 0 && t > 12 then 12 else if (c == 1 || c == 2) && t > 1 then 1 else 0
    ensures LastColumn(SIZES) == 2
  {
    hide Widest, LastColumn;
    assert SIZES == [SIZES[0]] + ([SIZES[1]] + ([SIZES[2]] + []));
    NoSizes(c, t);
    WidestOne(SIZES[2], [], c, t);
    WidestOne(SIZES[1], [SIZES[2]] + [], c, t);
    WidestOne(SIZES[0], [SIZES[1]] + ([SIZES[2]] + []), c, t);
  }

  lemma NoSizes(c: nat, t: nat)
    ensures Widest([], c, t) == 0 && LastColumn([]) == 0
  {
  }

  lemma TotalTwo(t: nat)
    ensures LastColumn(SIZES) == 2 && Total(SIZES, 0, t) == 0
    ensures Total(SIZES, 1, t) == (if t > 12 then 12 else 0)
    ensures Total(SIZES, 2, t) == (if t > 12 then 12 else 0) + (if t > 1 then 1 else 0)
  {
    hide Widest, LastColumn;
    WidestIs(0, t);
    WidestIs(1, t);
    assert Total(SIZES, 1, t) == Total(SIZES, 0, t) + Widest(SIZES, 0, t);
  }

  /** With this row as the whole usage and 10 columns, the second part fits between its tab stop
      0 and the third tab stop 1, and still the third part goes to a new line: the cursor is
      thought to be in column 13 and is in column 1. */
  lemma NeedlessBreak(minPercent: int, ownPercent: int)
    ensures Proper(ROW)
    ensures var usage: Usage := [Value(ROW)];
      var lay := LayoutOf(TableSizes(usage, Row(0, 0)), 10, minPercent, ownPercent);
      var w := [12, 1];
      && TableSizes(usage, Row(0, 0)) == SIZES && lay.last == 2
      && lay.tabstop[1] + w[1] == lay.tabstop[2] == 1 && !Overlong(lay.tabstop, w, 1)
      && CursorAt(lay.tabstop, w, 2) == 13 && Broken(lay.tabstop, w, 2)
  {
    SizesAre();
    LayoutIs(minPercent, ownPercent);
    hide SizesAfter, CellEnd, Total, Best;
    var usage: Usage := [Value(ROW)];
    TableIs(usage, Row(0, 0));
    assert RowEnd(ROW, 0) == 16 by { RowEndIs(); }
    assert SIZES + [] == SIZES;
    var lay := LayoutOf(SIZES, 10, minPercent, ownPercent);
    assert CursorAt(lay.tabstop, [12, 1], 1) == 12;
  }

  lemma {:induction false} NoRowEnd(s: Text, i: nat)
    requires i <= |s| && NEWLINE !in s
    ensures RowEnd(s, i) == |s|
    decreases |s| - i
  {
    if i < |s| { NoRowEnd(s, i + 1); }
  }

  lemma RowEndIs()
    ensures RowEnd(ROW, 0) == 16
  {
    NoRowEnd(ROW, 0);
  }
}
