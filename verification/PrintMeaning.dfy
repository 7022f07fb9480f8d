/** What the usage printer prints, in terms of the bytes of the usage and the layout. */
module PrintMeaning {
  import opened Utf8
  import opened LineGrid
  import opened LineParts
  import opened ColumnWidths
  import opened Display
  import opened GridMeaning
  import opened PrintRow
  import opened PrintUsage
  import opened LineBreaks

  // ----- tables

  /** The first table from `d` on, and nothing before it or inside it. */
  lemma NextTableIs(usage: Usage, d: nat)
    requires d <= |usage| && (d == 0 || Help(usage, d - 1).Null? || Help(usage, d).Null?)
    ensures var s := TableStart(usage, d);
      && d <= s <= |usage|
      && (forall k: nat :: d <= k < s ==> !BeginsTable(usage, k))
      && (s < |usage| ==>
            var e := TableEnd(usage, s);
            && BeginsTable(usage, s) && s < e <= |usage| && Help(usage, e).Null?
            && forall k: nat :: s < k < e ==> !BeginsTable(usage, k))
      && (s == |usage| ==> forall k: nat :: s <= k ==> !BeginsTable(usage, k))
  {
    hide TableStart, TableEnd;
    StartSkips(usage, d);
    var s := TableStart(usage, d);
    if s < |usage| {
      TableIsLong(usage, s);
      EndSkips(usage, s);
    }
  }

  /** The tables are the maximal runs of entries with help, in order. */
  lemma {:induction false} TablesAre(usage: Usage, d: nat)
    requires d <= |usage| && (d == 0 || Help(usage, d - 1).Null? || Help(usage, d).Null?)
    ensures var t := Tables(usage, d);
      && (forall k: nat :: k in t <==> d <= k && BeginsTable(usage, k))
      && forall i, j :: 0 <= i < j < |t| ==> t[i] < t[j]
    decreases |usage| - d
  {
    hide TableStart, TableEnd, BeginsTable, Tables;
    NextTableIs(usage, d);
    TablesOf(usage, d);
    var s := TableStart(usage, d);
    if s < |usage| {
      var e := TableEnd(usage, s);
      TablesAre(usage, e);
      InFront(s, Tables(usage, e));
    }
  }

  lemma InFront(s: nat, rest: seq<nat>)
    requires (forall k :: k in rest ==> s < k) && forall i, j :: 0 <= i < j < |rest| ==> rest[i] < rest[j]
    ensures var t := [s] + rest; forall i, j :: 0 <= i < j < |t| ==> t[i] < t[j]
  {
    assert forall j :: 0 <= j < |rest| ==> rest[j] in rest;
  }

  // ----- parts

  /** In a row without tabs and vertical tabs everything is wrapped over the whole width.  In other
      rows the parts left of the last column are written as they are, those of the last column
      are wrapped, and those behind it are dropped; a last column that is the first is wrapped
      over the whole width too. */
  lemma KindIs(s: Text, row: nat, line: nat, col: nat, last: nat)
    requires row <= |s| && col < Cells(s, row) && line < Height(s, row)
    ensures KindOf(s, GridPart(s, row, line, col), last) ==
      if !UsesSeparators(s, row) then Interjection
      else if col < last then Plain else if col > last then Dropped else if col == 0 then Interjection else InLast
  {
    SeparatedIs(s, row, line, col);
    if !UsesSeparators(s, row) {
      FirstLineEnds(s, row);
      OnlyOnePart(s, row);
    }
    hide UsesSeparators, Separated;
  }

  // ----- lines

  /** The parts of a row that starts in its first column. */
  ghost predicate IsRowOf(s: Text, parts: seq<Part>, lay: Layout) {
    && Proper(s) && Inside(s, parts) && InOrder(s, parts) && parts != [] && parts[0].col == 0
    && lay.last < |lay.tabstop| && lay.tabstop[0] == 0
  }

  lemma BehindIsRight(s: Text, p: Part, lay: Layout, x: int)
    requires Proper(s) && p.pos + p.len <= |s| && lay.last < |lay.tabstop|
    ensures x >= 0 || p.col == 0 ==> CursorBehind(s, p, lay, x) >= 0
  {
    hide Width, KindOf;
  }

  lemma {:induction false} CursorIsRight(s: Text, parts: seq<Part>, i: nat, lay: Layout)
    requires IsRowOf(s, parts, lay) && i <= |parts|
    ensures if i == 0 then CursorBefore(s, parts, i, lay) == -1 else CursorBefore(s, parts, i, lay) >= 0
  {
    hide CursorBehind;
    if i > 0 {
      CursorIsRight(s, parts, i - 1, lay);
      BehindIsRight(s, parts[i - 1], lay, CursorBefore(s, parts, i - 1, lay));
    }
  }

  /** A part begins a new line if it is in the first column, save the very first, or if the cursor is
      to the right of its tab stop; a dropped one does not. */
  lemma LineBegins(s: Text, parts: seq<Part>, i: nat, lay: Layout)
    requires IsRowOf(s, parts, lay) && i < |parts|
    ensures var p := parts[i];
      LinesBegun(s, parts, i + 1, lay) == LinesBegun(s, parts, i, lay) +
        if p.col == 0 then if i > 0 then 1 else 0
        else if p.col <= lay.last && lay.tabstop[p.col] < CursorBefore(s, parts, i, lay) then 1 else 0
  {
    CursorIsRight(s, parts, i, lay);
    hide CursorBefore;
  }

  /** Widths of the `c` parts in front of part `i`. */
  function WidthsBefore(s: Text, parts: seq<Part>, i: nat, c: nat): (w: seq<nat>)
    requires Proper(s) && Inside(s, parts) && c <= i <= |parts|
    ensures |w| == c
  {
    if c == 0 then []
    else
      var p := parts[i - 1];
      ProperPart(s, p.pos, p.pos + p.len);
      WidthsBefore(s, parts, i - 1, c - 1) + [Width(s[p.pos..p.pos + p.len])]
  }

  lemma {:induction false} CursorOfPrefix(tabs: seq<nat>, w: seq<nat>, x: nat, c: nat)
    requires c <= |w| && c < |tabs|
    ensures CursorAt(tabs, w + [x], c) == CursorAt(tabs, w, c)
  {
    if c > 0 { CursorOfPrefix(tabs, w, x, c - 1); }
  }

  /** In front of a part the cursor is where the widths of the parts left of it in its line put it:
      where the line is broken is decided by these widths alone. */
  lemma {:induction false} CursorOfLine(s: Text, parts: seq<Part>, i: nat, lay: Layout)
    requires IsRowOf(s, parts, lay) && i < |parts| && 0 < parts[i].col <= lay.last
    ensures parts[i].col <= i
    ensures var c := parts[i].col;
      CursorBefore(s, parts, i, lay) == CursorAt(lay.tabstop, WidthsBefore(s, parts, i, c), c)
    decreases parts[i].col
  {
    hide Width, Separated;
    assert i > 0 && parts[i - 1].col + 1 == parts[i].col;
    var c, p := parts[i].col, parts[i - 1];
    assert KindOf(s, p, lay.last) == Plain;
    var x := CursorBefore(s, parts, i - 1, lay);
    if c > 1 {
      CursorOfLine(s, parts, i - 1, lay);
    }
    ProperPart(s, p.pos, p.pos + p.len);
    var w := WidthsBefore(s, parts, i - 1, c - 1);
    CursorOfPrefix(lay.tabstop, w, Width(s[p.pos..p.pos + p.len]), c - 1);
  }

  /** The width a screen gives to be used: nonsense is replaced. */
  lemma WidthIs(width: int)
    ensures SaneWidth(width) == if 1 <= width <= 10000 then width else if width < 1 then 80 else 10000
  {
  }
}
