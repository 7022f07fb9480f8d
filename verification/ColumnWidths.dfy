/** How the usage printer decides how wide the columns of a table are. */
module ColumnWidths {
  import opened Utf8
  import opened LineGrid
  import opened LineParts

  const MAX_COLUMNS := 8
  const OVERLONG := 10000

  function Max(a: nat, b: nat): nat { if a >= b then a else b }

  // ----- what the loop sees of a part

  /** `counts`: not a row without table separators. */
  datatype Size = Size(col: nat, width: nat, counts: bool)

  function SizeOf(s: Text, p: Part): Size
    requires Proper(s) && p.pos + p.len <= |s|
  {
    ProperPart(s, p.pos, p.pos + p.len);
    var e := p.pos + p.len;
    Size(p.col, Width(s[p.pos..e]), Separated(s, p))
  }

  function SizesOf(s: Text, parts: seq<Part>): seq<Size>
    requires Proper(s) && Inside(s, parts)
  {
    if parts == [] then [] else [SizeOf(s, parts[0])] + SizesOf(s, parts[1..])
  }

  /** Sizes of the parts of a row that are still to come. */
  function SizesAfter(s: Text, row: nat, at: Cursor): seq<Size>
    requires Proper(s) && InGrid(s, row, at)
  {
    PartsAfterInside(s, row, at);
    SizesOf(s, PartsAfter(s, row, at))
  }

  /** Sizes of all parts of the rows from `r` on. */
  function TableSizes(usage: Usage, r: Row): seq<Size>
    requires IsRow(usage, r)
    decreases |usage| - r.desc, |usage[r.desc].value| - r.start
  {
    SizesAfter(usage[r.desc].value, r.start, Before) +
    match RowAfter(usage, r)
    case Null => []
    case Value(n) => TableSizes(usage, n)
  }

  function RowsLeft(usage: Usage, r: Row): (n: nat)
    requires IsRow(usage, r)
    decreases |usage| - r.desc, |usage[r.desc].value| - r.start
  {
    match RowAfter(usage, r)
    case Null => 0
    case Value(n) => 1 + RowsLeft(usage, n)
  }

  function LaterSizes(usage: Usage, r: Row): seq<Size>
    requires IsRow(usage, r)
  {
    match RowAfter(usage, r)
    case Null => []
    case Value(n) => TableSizes(usage, n)
  }

  lemma FirstSizes(s: Text, row: nat)
    requires Proper(s) && row <= |s|
    ensures Inside(s, RowParts(s, row)) && SizesAfter(s, row, Before) == SizesOf(s, RowParts(s, row))
  {
    PartsAfterInside(s, row, Before);
  }

  /** One part on. */
  lemma SizesStep(s: Text, row: nat, at: Cursor)
    requires Proper(s) && InGrid(s, row, at)
    ensures match Successor(s, row, at)
      case At(l, c) =>
        && InGrid(s, row, At(l, c))
        && SizesAfter(s, row, at) == [SizeOf(s, GridPart(s, row, l, c))] + SizesAfter(s, row, At(l, c))
      case _ => SizesAfter(s, row, at) == []
  {
    hide Cells, Height, GridPart, SizeOf, PartsAfter, Successor;
    PartsStep(s, row, at);
    PartsAfterInside(s, row, at);
    match Successor(s, row, at)
    case At(l, c) =>
      PartsAfterInside(s, row, At(l, c));
      SizesOne(s, GridPart(s, row, l, c), PartsAfter(s, row, At(l, c)));
    case _ =>
  }

  lemma SizesOne(s: Text, p: Part, rest: seq<Part>)
    requires Proper(s) && p.pos + p.len <= |s| && Inside(s, rest)
    ensures Inside(s, [p] + rest) && SizesOf(s, [p] + rest) == [SizeOf(s, p)] + SizesOf(s, rest)
  {
    assert ([p] + rest)[1..] == rest;
  }

  // ----- widths under a threshold

  /** Greatest width below `t` of the parts of column `c` that count. */
  function Widest(sizes: seq<Size>, c: nat, t: nat): nat {
    if sizes == [] then 0
    else
      var p := sizes[0];
      Max(if p.col == c && p.counts && p.width < t then p.width else 0, Widest(sizes[1..], c, t))
  }

  /** The last column, not counting those beyond the eighth. */
  function LastColumn(sizes: seq<Size>): (c: nat)
    ensures c < MAX_COLUMNS
  {
    if sizes == [] then 0
    else Max(if sizes[0].col < MAX_COLUMNS then sizes[0].col else 0, LastColumn(sizes[1..]))
  }

  /** Total width of the first `n` columns. */
  function Total(sizes: seq<Size>, n: nat, t: nat): nat {
    if n == 0 then 0 else Total(sizes, n - 1, t) + Widest(sizes, n - 1, t)
  }

  /** Width of the widest of the first `n` columns. */
  function Top(sizes: seq<Size>, n: nat, t: nat): nat {
    if n == 0 then 0 else Max(Top(sizes, n - 1, t), Widest(sizes, n - 1, t))
  }

  /** Width of everything left of the last column. */
  function Left(sizes: seq<Size>, t: nat): nat {
    Total(sizes, LastColumn(sizes), t)
  }

  /** The greatest threshold up to `t` under which the columns fit: as few parts as possible
      are left out of account. */
  function Best(sizes: seq<Size>, width: nat, t: nat): (b: nat)
    ensures b <= t
  {
    if t == 0 || Left(sizes, t) <= width then t else Best(sizes, width, t - 1)
  }

  lemma {:induction false} WidestBelow(sizes: seq<Size>, c: nat, t: nat)
    ensures Widest(sizes, c, t) < t || Widest(sizes, c, t) == 0
  {
    if sizes != [] { WidestBelow(sizes[1..], c, t); }
  }

  /** Lowering the threshold to just above the widest part changes nothing. */
  lemma {:induction false} WidestSame(sizes: seq<Size>, c: nat, t: nat, u: nat)
    requires Widest(sizes, c, t) < u <= t
    ensures Widest(sizes, c, u) == Widest(sizes, c, t)
  {
    if sizes != [] { WidestSame(sizes[1..], c, t, u); }
  }

  lemma {:induction false} TotalSame(sizes: seq<Size>, n: nat, t: nat, u: nat)
    requires Top(sizes, n, t) < u <= t
    ensures Total(sizes, n, u) == Total(sizes, n, t)
  {
    if n > 0 {
      TotalSame(sizes, n - 1, t, u);
      WidestSame(sizes, n - 1, t, u);
    }
  }

  lemma {:induction false} TopBelow(sizes: seq<Size>, n: nat, t: nat)
    ensures Top(sizes, n, t) < t || Top(sizes, n, t) == 0
    ensures Top(sizes, n, t) == 0 ==> Total(sizes, n, t) == 0
  {
    if n > 0 {
      TopBelow(sizes, n - 1, t);
      WidestBelow(sizes, n - 1, t);
    }
  }

  lemma {:induction false} BestSame(sizes: seq<Size>, width: nat, t: nat, u: nat)
    requires Left(sizes, t) > width && Top(sizes, LastColumn(sizes), t) <= u <= t
    ensures Best(sizes, width, u) == Best(sizes, width, Top(sizes, LastColumn(sizes), t))
    decreases u
  {
    var n := LastColumn(sizes);
    if u > Top(sizes, n, t) {
      TotalSame(sizes, n, t, u);
      BestSame(sizes, width, t, u - 1);
    }
  }

  /** If the columns do not fit under `t`, none of the thresholds down to the widest column
      helps, so the search may jump there; the jump goes down. */
  lemma BestJumps(sizes: seq<Size>, width: nat, t: nat)
    requires Left(sizes, t) > width
    ensures Top(sizes, LastColumn(sizes), t) < t
    ensures Best(sizes, width, t) == Best(sizes, width, Top(sizes, LastColumn(sizes), t))
  {
    TopBelow(sizes, LastColumn(sizes), t);
    BestSame(sizes, width, t, t);
  }

  lemma {:induction false} NothingBelowZero(sizes: seq<Size>, n: nat)
    ensures Total(sizes, n, 0) == 0
  {
    if n > 0 {
      NothingBelowZero(sizes, n - 1);
      WidestBelow(sizes, n - 1, 0);
    }
  }

  /** Under the best threshold the columns fit; under any greater one they do not. */
  lemma {:induction false} BestFits(sizes: seq<Size>, width: nat, t: nat)
    ensures Left(sizes, Best(sizes, width, t)) <= width
    ensures forall u :: Best(sizes, width, t) < u <= t ==> Left(sizes, u) > width
  {
    if t == 0 {
      NothingBelowZero(sizes, LastColumn(sizes));
    } else if Left(sizes, t) > width {
      BestFits(sizes, width, t - 1);
    }
  }

  // ----- the loops

  /** The columns and the parts still to come give the widths of the whole table. */
  ghost predicate Accumulated(w: seq<nat>, last: nat, rest: seq<Size>, all: seq<Size>, t: nat) {
    && |w| == MAX_COLUMNS && last < MAX_COLUMNS
    && Max(last, LastColumn(rest)) == LastColumn(all)
    && forall c :: 0 <= c < MAX_COLUMNS ==> Max(w[c], Widest(rest, c, t)) == Widest(all, c, t)
  }

  lemma AccumulateNone(w: seq<nat>, all: seq<Size>, t: nat)
    requires |w| == MAX_COLUMNS && forall c :: 0 <= c < MAX_COLUMNS ==> w[c] == 0
    ensures Accumulated(w, 0, all, all, t)
  {
  }

  lemma AccumulateOne(w: seq<nat>, last: nat, p: Size, rest: seq<Size>, all: seq<Size>, t: nat, w': seq<nat>,
                      last': nat)
    requires Accumulated(w, last, [p] + rest, all, t)
    requires last' == if p.col < MAX_COLUMNS then Max(last, p.col) else last
    requires w' == if p.col < MAX_COLUMNS && p.counts && p.width < t then w[p.col := Max(w[p.col], p.width)] else w
    ensures Accumulated(w', last', rest, all, t)
  {
    assert ([p] + rest)[1..] == rest;
    forall c | 0 <= c < MAX_COLUMNS
      ensures Max(w'[c], Widest(rest, c, t)) == Widest(all, c, t)
    {
      assert Widest([p] + rest, c, t) ==
        Max(if p.col == c && p.counts && p.width < t then p.width else 0, Widest(rest, c, t));
    }
  }

  /** The part the iterator is at, as the loop sees it. */
  lemma PartSize(part: LinePartIterator)
    requires part.AtPart()
    ensures part.Position() == At(part.targetLineInBlock, part.col)
    ensures var s, e := part.Source(), part.ptr + part.len;
      && e <= |s| && part.col < Cells(s, part.rowstart) && InGrid(s, part.rowstart, part.Position())
      && SizeOf(s, GridPart(s, part.rowstart, part.targetLineInBlock, part.col)) == Size(part.col, part.screenlen,
        part.col > 0 || part.targetLineInBlock > 0 || (e < |s| && (s[e] == TAB || s[e] == VTAB)))
  {
    hide Width, GridPart, CellStart, LineStart, Lines, Cells, Height, MaxLines;
    TargetIsSeen(part.Source(), part.rowstart, part.Scanned(), part.len);
  }

  lemma TableIs(usage: Usage, r: Row)
    requires IsRow(usage, r)
    ensures TableSizes(usage, r) == SizesAfter(usage[r.desc].value, r.start, Before) + LaterSizes(usage, r)
  {
  }

  /** `rest` begins with the part the iterator is at; the parts behind it follow. */
  ghost predicate Current(part: LinePartIterator, rest: seq<Size>)
    reads part
  {
    && part.AtPart() && rest != []
    && var s, row, line, col := part.Source(), part.rowstart, part.targetLineInBlock, part.col;
       && col < Cells(s, row) && InGrid(s, row, At(line, col))
       && rest[0] == SizeOf(s, GridPart(s, row, line, col)) && rest[1..] == SizesAfter(s, row, At(line, col))
  }

  /** The body of the inner loop. */
  method AddPart(part: LinePartIterator, t: nat, w: array<nat>, last0: nat,
                 ghost rest: seq<Size>, ghost later: seq<Size>, ghost all: seq<Size>)
    returns (last: nat)
    requires Current(part, rest)
    requires w.Length == MAX_COLUMNS && Accumulated(w[..], last0, rest + later, all, t)
    modifies w
    ensures Accumulated(w[..], last, rest[1..] + later, all, t)
  {
    hide SizesAfter, Accumulated, SizeOf, Width, GridPart, Height, Cells, Here, InGrid;
    PartSize(part);
    assert rest + later == [rest[0]] + (rest[1..] + later);
    ghost var before := w[..];
    last := last0;
    if part.col < MAX_COLUMNS {
      last := Max(last, part.col);
      if part.screenlen < t {
        var help := part.usage[part.rowdesc].value;
        var e := part.ptr + part.len;
        if part.col > 0 || part.targetLineInBlock > 0 || (e < |help| && (help[e] == TAB || help[e] == VTAB)) {
          w[part.col] := Max(w[part.col], part.screenlen);
        }
      }
    }
    LastIsSmall(before, last0, rest + later, all, t);
    AccumulateOne(before, last0, rest[0], rest[1..] + later, all, t, w[..], last);
  }

  lemma LastIsSmall(w: seq<nat>, last: nat, rest: seq<Size>, all: seq<Size>, t: nat)
    requires Accumulated(w, last, rest, all, t)
    ensures last < MAX_COLUMNS
  {
  }

  /** The inner loop: one row. */
  method RowWidths(part: LinePartIterator, t: nat, w: array<nat>, last0: nat, ghost all: seq<Size>)
    returns (last: nat)
    requires part.AtRowStart() && part.Valid()
    requires w.Length == MAX_COLUMNS && Accumulated(w[..], last0, TableSizes(part.usage, part.CurrentRow()), all, t)
    modifies part`ptr, part`col, part`len, part`screenlen,
             part`maxLineInBlock, part`lineInBlock, part`targetLineInBlock, part`hitTargetLine, w
    ensures part.Valid() && part.RowDone()
    ensures Accumulated(w[..], last, LaterSizes(part.usage, part.CurrentRow()), all, t)
  {
    hide SizesAfter, LaterSizes, Accumulated, TableSizes;
    ghost var r := part.CurrentRow();
    ghost var later := LaterSizes(part.usage, r);
    ghost var rest := SizesAfter(part.Source(), r.start, Before);
    TableIs(part.usage, r);
    last := last0;
    var more := NextPart(part, rest);
    while more
      invariant part.Valid() && part.OnRow()
      invariant Accumulated(w[..], last, rest + later, all, t)
      invariant if more then Current(part, rest) else part.RowDone() && rest == []
      decreases |rest|
    {
      last := AddPart(part, t, w, last, rest, later, all);
      rest := rest[1..];
      Advance(part);
      more := NextPart(part, rest);
    }
    assert rest + later == later;
  }

  lemma Advance(part: LinePartIterator)
    requires part.AtPart()
    ensures part.Position() == At(part.targetLineInBlock, part.col)
  {
    TargetIsSeen(part.Source(), part.rowstart, part.Scanned(), part.len);
  }

  /** next(), together with what it leaves to come. */
  method NextPart(part: LinePartIterator, ghost rest: seq<Size>) returns (more: bool)
    requires part.Valid() && (part.AtRowStart() || part.AtPart())
    requires InGrid(part.Source(), part.rowstart, part.Position())
    requires rest == SizesAfter(part.Source(), part.rowstart, part.Position())
    modifies part`ptr, part`col, part`len, part`screenlen,
             part`maxLineInBlock, part`lineInBlock, part`targetLineInBlock, part`hitTargetLine
    ensures part.Valid() && part.OnRow()
    ensures if more then Current(part, rest) else part.RowDone() && rest == []
  {
    hide SizesAfter, SizeOf, GridPart, Height, Cells, Here, Successor;
    SizesStep(part.Source(), part.rowstart, part.Position());
    more := part.Next();
    if more {
      PartSize(part);
    }
  }

  /** One pass over the table. */
  method TableWidths(part: LinePartIterator, t: nat, w: array<nat>) returns (last: nat)
    requires part.Placed() && part.rowdesc >= 0 && part.tablestart < |part.usage|
    requires Help(part.usage, part.tablestart).Value? && w.Length == MAX_COLUMNS
    modifies part, w
    ensures part.tablestart == old(part.tablestart) && part.Placed() && part.rowdesc >= 0
    ensures Accumulated(w[..], last, [], TableSizes(part.usage, Row(part.tablestart, 0)), t)
  {
    hide LaterSizes, Accumulated, TableSizes;
    ghost var start := part.tablestart;
    ghost var all := TableSizes(part.usage, Row(part.tablestart, 0));
    last := 0;
    ClearWidths(w);
    AccumulateNone(w[..], all, t);
    part.RestartTable();
    var more := part.NextRow();
    while more
      invariant part.Placed() && part.OnRow() && part.tablestart == start
      invariant if more then
          part.Valid() && part.AtRowStart() &&
            Accumulated(w[..], last, TableSizes(part.usage, part.CurrentRow()), all, t)
        else Accumulated(w[..], last, [], all, t)
      decreases more, if more then RowsLeft(part.usage, part.CurrentRow()) else 0
    {
      last := RowWidths(part, t, w, last, all);
      LaterIs(part.usage, part.CurrentRow());
      more := part.NextRow();
    }
  }

  lemma LaterIs(usage: Usage, r: Row)
    requires IsRow(usage, r)
    ensures match RowAfter(usage, r)
      case Null => LaterSizes(usage, r) == []
      case Value(n) => LaterSizes(usage, r) == TableSizes(usage, n) && RowsLeft(usage, n) < RowsLeft(usage, r)
  {
  }

  method ClearWidths(w: array<nat>)
    modifies w
    ensures forall i :: 0 <= i < w.Length ==> w[i] == 0
  {
    for i := 0 to w.Length
      invariant forall j :: 0 <= j < i ==> w[j] == 0
    {
      w[i] := 0;
    }
  }

  lemma PassDone(w: seq<nat>, last: nat, all: seq<Size>, t: nat)
    requires Accumulated(w, last, [], all, t)
    ensures |w| == MAX_COLUMNS && last == LastColumn(all) < MAX_COLUMNS
    ensures forall c :: 0 <= c < MAX_COLUMNS ==> w[c] == Widest(all, c, t)
  {
  }

  /** Sum and maximum of the columns left of the last. */
  method SumUp(w: array<nat>, last: nat, ghost all: seq<Size>, ghost t: nat) returns (left: nat, top: nat)
    requires last < w.Length && forall c :: 0 <= c < w.Length ==> w[c] == Widest(all, c, t)
    ensures left == Total(all, last, t) && top == Top(all, last, t)
  {
    hide Widest;
    left, top := 0, 0;
    for i := 0 to last
      invariant left == Total(all, i, t) && top == Top(all, i, t)
    {
      left := left + w[i];
      top := Max(top, w[i]);
    }
  }

  /** The do loop: lowers the threshold until the columns fit.  It ends under the greatest
      threshold that lets them fit, though it looks only at the widths that occur. */
  method DetermineWidths(part: LinePartIterator, width: nat, w: array<nat>) returns (last: nat, left: nat)
    requires part.Placed() && part.rowdesc >= 0 && part.tablestart < |part.usage|
    requires Help(part.usage, part.tablestart).Value? && w.Length == MAX_COLUMNS
    modifies part, w
    ensures part.tablestart == old(part.tablestart) && part.Placed() && part.rowdesc >= 0
    ensures var sizes := TableSizes(part.usage, Row(part.tablestart, 0));
      var t := Best(sizes, width, OVERLONG);
      && last == LastColumn(sizes) < MAX_COLUMNS && left == Left(sizes, t) <= width
      && forall c :: 0 <= c < MAX_COLUMNS ==> w[c] == Widest(sizes, c, t)
  {
    hide Accumulated, TableSizes, Top, Total, LastColumn, Widest;
    ghost var start := part.tablestart;
    ghost var sizes := TableSizes(part.usage, Row(part.tablestart, 0));
    var overlong: nat := OVERLONG;
    while true
      invariant part.Placed() && part.rowdesc >= 0 && part.tablestart == start
      invariant Best(sizes, width, overlong) == Best(sizes, width, OVERLONG)
      decreases overlong
    {
      ghost var t := overlong;
      last := TableWidths(part, overlong, w);
      PassDone(w[..], last, sizes, t);
      assert forall c :: 0 <= c < MAX_COLUMNS ==> w[..][c] == w[c];
      left, overlong := SumUp(w, last, sizes, t);
      if left <= width {
        return;
      }
      BestJumps(sizes, width, t);
    }
  }

  // ----- tab stops and the last column

  /** C's division, towards zero. */
  function Quotient(a: int, b: nat): int
    requires b > 0
  {
    if a >= 0 then a / b else -((-a) / b)
  }

  function Percent(width: nat, percent: int): int {
    Quotient(width * percent + 50, 100)
  }

  lemma PercentAtMostAll(width: nat, percent: int)
    requires percent <= 100
    ensures Percent(width, percent) <= width
  {
    if width * percent + 50 >= 0 { assert width * percent <= width * 100; }
  }

  /** The last column and whether it is on lines of its own, the tab stops, the width of the
      screen and that of the last column. */
  datatype Layout = Layout(last: nat, tabstop: seq<nat>, width: nat, right: int, ownLine: bool) {

    /** Where the wrapped texts of the last column start. */
    function LastX(): int { width - right }

    /** The two wrappers are at least two columns wide. */
    function LastWidth(): (w: nat)
      ensures w >= 2
    {
      if right < 2 then 2 else right
    }

    function FullWidth(): (w: nat)
      ensures w >= 2
    {
      if width < 2 then 2 else width
    }
  }

  function SaneWidth(width: int): (w: nat)
    ensures 1 <= w <= 10000
  {
    if width < 1 then 80 else if width > 10000 then 10000 else width
  }

  function OwnWidth(width: nat, ownPercent: int): int {
    var w := Percent(width, ownPercent);
    if w == 0 then 1 else w
  }

  /** The last column has less room than asked for, and less than its widest part needs. */
  predicate Crowded(sizes: seq<Size>, width: nat, t: nat, minPercent: int) {
    var last := LastColumn(sizes);
    var rest := width - Total(sizes, last, t);
    rest < Percent(width, minPercent) && (Widest(sizes, last, t) == 0 || rest < Widest(sizes, last, t))
  }

  /** The layout of a table: the columns under the greatest threshold that lets them fit. */
  function LayoutOf(sizes: seq<Size>, width: nat, minPercent: int, ownPercent: int): (r: Layout) {
    var t := Best(sizes, width, OVERLONG);
    var last, crowded := LastColumn(sizes), Crowded(sizes, width, t, minPercent);
    Layout(last, seq(MAX_COLUMNS, c requires 0 <= c < MAX_COLUMNS => Total(sizes, c, t)), width,
           if crowded then OwnWidth(width, ownPercent) else width - Total(sizes, last, t),
           crowded && last > 0)
  }

  /** Tab stops and the width of the last column. */
  method LayOut(w: array<nat>, last: nat, width: nat, minPercent: int, ownPercent: int) returns (r: Layout)
    requires w.Length == MAX_COLUMNS && last < MAX_COLUMNS
    ensures r.last == last && r.width == width && |r.tabstop| == MAX_COLUMNS && r.tabstop[0] == 0
    ensures forall i :: 0 <= i < MAX_COLUMNS - 1 ==> r.tabstop[i + 1] == r.tabstop[i] + w[i]
    ensures var rest := width - r.tabstop[last];
      var crowded := rest < Percent(width, minPercent) && (w[last] == 0 || rest < w[last]);
      && (r.ownLine <==> crowded && last > 0)
      && r.right == if crowded then OwnWidth(width, ownPercent) else rest
  {
    var minWidth := Percent(width, minPercent);
    var ownWidth := Percent(width, ownPercent);
    if ownWidth == 0 {
      ownWidth := 1;
    }
    var tabstop: seq<nat> := [0];
    for i := 1 to MAX_COLUMNS
      invariant |tabstop| == i && tabstop[0] == 0
      invariant forall j :: 0 <= j < i - 1 ==> tabstop[j + 1] == tabstop[j] + w[j]
    {
      tabstop := tabstop + [tabstop[i - 1] + w[i - 1]];
    }
    var right := width - tabstop[last];
    var ownLine := false;
    if right < minWidth && (w[last] == 0 || right < w[last]) {
      ownLine := true;
      right := ownWidth;
    }
    if last == 0 {
      ownLine := false;
    }
    r := Layout(last, tabstop, width, right, ownLine);
  }

  /** Tab stop number `n` is the total width of the first `n` columns. */
  lemma {:induction false} TabstopIsTotal(tabstop: seq<nat>, w: seq<nat>, sizes: seq<Size>, n: nat, t: nat)
    requires |tabstop| == |w| == MAX_COLUMNS && tabstop[0] == 0 && n < MAX_COLUMNS
    requires forall i :: 0 <= i < MAX_COLUMNS - 1 ==> tabstop[i + 1] == tabstop[i] + w[i]
    requires forall c :: 0 <= c < MAX_COLUMNS ==> w[c] == Widest(sizes, c, t)
    ensures tabstop[n] == Total(sizes, n, t)
  {
    if n > 0 { TabstopIsTotal(tabstop, w, sizes, n - 1, t); }
  }

  /** The search for widths and the tab stops of one table give its layout. */
  method LayOutTable(part: LinePartIterator, width: nat, minPercent: int, ownPercent: int) returns (r: Layout)
    requires part.Placed() && part.rowdesc >= 0 && part.tablestart < |part.usage|
    requires Help(part.usage, part.tablestart).Value?
    modifies part
    ensures part.tablestart == old(part.tablestart) && part.Placed() && part.rowdesc >= 0
    ensures r == LayoutOf(TableSizes(part.usage, Row(part.tablestart, 0)), width, minPercent, ownPercent)
  {
    hide TableSizes, Total, Widest, LastColumn, Best, Percent;
    var w := new nat[MAX_COLUMNS];
    var last, left := DetermineWidths(part, width, w);
    r := LayOut(w, last, width, minPercent, ownPercent);
    ghost var sizes := TableSizes(part.usage, Row(part.tablestart, 0));
    ghost var t := Best(sizes, width, OVERLONG);
    assert forall c :: 0 <= c < MAX_COLUMNS ==> w[..][c] == Widest(sizes, c, t);
    forall c | 0 <= c < MAX_COLUMNS
      ensures r.tabstop[c] == Total(sizes, c, t)
    {
      TabstopIsTotal(r.tabstop, w[..], sizes, c, t);
    }
  }

  lemma PercentInRange(width: nat, percent: int)
    ensures 0 <= percent <= 100 ==> 0 <= Percent(width, percent) <= width
  {
    if 0 <= percent <= 100 { PercentAtMostAll(width, percent); }
  }

  /** The columns left of the last one fit, so the last tab stop lies within the width and, for
      sane percentages, the last column neither starts left of the margin nor has negative
      width.  Only a table of several columns has the last column on lines of its own. */
  lemma LayoutFits(sizes: seq<Size>, width: nat, minPercent: int, ownPercent: int)
    ensures var r := LayoutOf(sizes, width, minPercent, ownPercent);
      && r.tabstop[r.last] <= width && (r.ownLine ==> r.last > 0)
      && (width >= 1 && 0 <= ownPercent <= 100 ==> 0 <= r.right <= width)
  {
    hide Total, Widest, LastColumn, Best, Percent;
    BestFits(sizes, width, OVERLONG);
    PercentInRange(width, ownPercent);
  }

  // ----- the layout and the parts it is made for

  lemma {:induction false} LeftUnderOne(sizes: seq<Size>, n: nat)
    ensures Total(sizes, n, 1) == 0
  {
    if n > 0 {
      LeftUnderOne(sizes, n - 1);
      WidestBelow(sizes, n - 1, 1);
    }
  }

  lemma {:induction false} BestPositive(sizes: seq<Size>, width: nat, t: nat)
    requires t >= 1
    ensures Best(sizes, width, t) >= 1
  {
    LeftUnderOne(sizes, LastColumn(sizes));
    if Left(sizes, t) > width { BestPositive(sizes, width, t - 1); }
  }

  /** A part that counts is as wide as its column at most, or reaches the threshold. */
  lemma {:induction false} WidestIsBound(sizes: seq<Size>, t: nat, i: nat)
    requires i < |sizes| && sizes[i].counts
    ensures sizes[i].width <= Widest(sizes, sizes[i].col, t) || sizes[i].width >= t
  {
    if i > 0 { WidestIsBound(sizes[1..], t, i - 1); }
  }

  /** Every kept column has a tab stop, the first one the left margin; a last column on the same
      line starts at its tab stop. */
  ghost predicate Room(r: Layout) {
    && r.last < |r.tabstop| && r.tabstop[0] == 0 && (r.ownLine ==> r.last > 0)
    && (!r.ownLine && r.last > 0 ==> r.LastX() == r.tabstop[r.last])
  }

  /** Under a layout and its threshold `t`: a column is narrower than `t`, and a part that
      counts fits its column or reaches `t`. */
  ghost predicate Tidy(r: Layout, t: nat, sizes: seq<Size>) {
    Steps(r, t) && forall i :: 0 <= i < |sizes| ==> Fits(r, t, sizes[i])
  }

  ghost predicate Steps(r: Layout, t: nat) {
    Room(r) && forall c :: 0 <= c < r.last ==> r.tabstop[c] <= r.tabstop[c + 1] < r.tabstop[c] + t
  }

  predicate Fits(r: Layout, t: nat, p: Size)
    requires r.last < |r.tabstop|
  {
    p.counts && p.col < r.last ==> r.tabstop[p.col] + p.width <= r.tabstop[p.col + 1] || p.width >= t
  }

  /** Every layout treats the parts of its own table that way. */
  lemma LayoutIsTidy(sizes: seq<Size>, width: nat, minPercent: int, ownPercent: int)
    ensures Tidy(LayoutOf(sizes, width, minPercent, ownPercent), Best(sizes, width, OVERLONG), sizes)
  {
    var r, t := LayoutOf(sizes, width, minPercent, ownPercent), Best(sizes, width, OVERLONG);
    LayoutSteps(sizes, width, minPercent, ownPercent);
    hide LayoutOf, Total, Best, Widest, Steps;
    forall i | 0 <= i < |sizes|
      ensures Fits(r, t, sizes[i])
    {
      if sizes[i].counts { WidestIsBound(sizes, t, i); }
    }
  }

  lemma LayoutSteps(sizes: seq<Size>, width: nat, minPercent: int, ownPercent: int)
    ensures var r, t := LayoutOf(sizes, width, minPercent, ownPercent), Best(sizes, width, OVERLONG);
      && Steps(r, t)
      && forall c :: 0 <= c < r.last ==> r.tabstop[c + 1] == r.tabstop[c] + Widest(sizes, c, t)
  {
    hide Percent, LastColumn, Best, Widest;
    var r, t := LayoutOf(sizes, width, minPercent, ownPercent), Best(sizes, width, OVERLONG);
    BestPositive(sizes, width, OVERLONG);
    forall c | 0 <= c < r.last
      ensures r.tabstop[c + 1] == r.tabstop[c] + Widest(sizes, c, t) < r.tabstop[c] + t
    {
      WidestBelow(sizes, c, t);
    }
  }

  /** The comment at the guard for a single column: unless more than all of the width is asked
      for, a table of one column is never crowded. */
  lemma OneColumnIsNeverCrowded(width: nat, minPercent: int)
    requires minPercent <= 100
    ensures !(width < Percent(width, minPercent))
  {
    PercentAtMostAll(width, minPercent);
  }
}
