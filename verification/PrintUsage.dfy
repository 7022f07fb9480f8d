/** The usage printer as a whole: every table of the usage, row by row, each in its own layout. */
module PrintUsage {
  import opened LineGrid
  import opened LineParts
  import opened ColumnWidths
  import opened Display
  import opened Wrapping
  import opened PrintRow

  // ----- what must be on the screen

  /** Texts on the screen, and the number of lines they take. */
  datatype Piece = Piece(items: seq<Item>, lines: int) {
    function Then(p: Piece): Piece { Piece(items + p.items, lines + p.lines) }
  }

  const NOTHING_SHOWN := Piece([], 0)

  function Shown(out: seq<Out>): Piece { Piece(Placed(0, out), Breaks(out)) }

  lemma ThenTogether(a: Piece, b: Piece, c: Piece)
    ensures a.Then(b).Then(c) == a.Then(b.Then(c)) && a.Then(NOTHING_SHOWN) == a
  {
  }

  function Concat(pieces: seq<Piece>): Piece {
    if pieces == [] then NOTHING_SHOWN else Concat(pieces[..|pieces| - 1]).Then(pieces[|pieces| - 1])
  }

  lemma ConcatMore(pieces: seq<Piece>, piece: Piece)
    ensures Concat(pieces + [piece]) == Concat(pieces).Then(piece)
  {
    assert (pieces + [piece])[..|pieces|] == pieces;
  }

  /** `now` is these rows one after the other, each printed in the layout. */
  ghost predicate RowsPrinted(now: Piece, usage: Usage, rows: seq<Row>, lay: Layout) {
    exists pieces :: now == Concat(pieces) && EachRow(pieces, usage, rows, lay)
  }

  ghost predicate EachRow(pieces: seq<Piece>, usage: Usage, rows: seq<Row>, lay: Layout) {
    && |pieces| == |rows| && lay.last < |lay.tabstop|
    && forall i :: 0 <= i < |rows| ==> RowPrinted(pieces[i].items, pieces[i].lines, usage, rows[i], lay)
  }

  /** The layout of the table that starts at `d`. */
  function TableLayout(usage: Usage, d: nat, width: nat, minPercent: int, ownPercent: int): Layout
    requires Help(usage, d).Value?
  {
    LayoutOf(TableSizes(usage, Row(d, 0)), width, minPercent, ownPercent)
  }

  /** The first entries of the tables from `d` on. */
  function Tables(usage: Usage, d: nat): (t: seq<nat>)
    requires d <= |usage|
    ensures forall i :: 0 <= i < |t| ==> Help(usage, t[i]).Value?
    decreases |usage| - d
  {
    var s := TableStart(usage, d);
    if s == |usage| then []
    else
      TableIsLong(usage, s);
      [s] + Tables(usage, TableEnd(usage, s))
  }

  lemma TableIsLong(usage: Usage, d: nat)
    requires Help(usage, d).Value?
    ensures TableEnd(usage, d) > d
  {
  }

  /** `now` is all rows of these tables, every table in the layout found for it. */
  ghost predicate TablesPrinted(now: Piece, usage: Usage, tables: seq<nat>,
                                width: nat, minPercent: int, ownPercent: int)
    requires forall i :: 0 <= i < |tables| ==> Help(usage, tables[i]).Value?
  {
    exists pieces :: now == Concat(pieces) && EachTable(pieces, usage, tables, width, minPercent, ownPercent)
  }

  ghost predicate EachTable(pieces: seq<Piece>, usage: Usage, tables: seq<nat>,
                            width: nat, minPercent: int, ownPercent: int)
    requires forall i :: 0 <= i < |tables| ==> Help(usage, tables[i]).Value?
  {
    && |pieces| == |tables|
    && forall i :: 0 <= i < |tables| ==>
        RowsPrinted(pieces[i], usage, RowsFrom(usage, Row(tables[i], 0)),
                    TableLayout(usage, tables[i], width, minPercent, ownPercent))
  }

  lemma RowsPrintedMore(now: Piece, usage: Usage, rows: seq<Row>, lay: Layout, piece: Piece, r: Row)
    requires RowsPrinted(now, usage, rows, lay) && lay.last < |lay.tabstop|
    requires RowPrinted(piece.items, piece.lines, usage, r, lay)
    ensures RowsPrinted(now.Then(piece), usage, rows + [r], lay)
  {
    hide RowPrinted, Concat;
    var pieces :| now == Concat(pieces) && EachRow(pieces, usage, rows, lay);
    ConcatMore(pieces, piece);
    assert EachRow(pieces + [piece], usage, rows + [r], lay);
  }

  lemma TablesPrintedMore(now: Piece, usage: Usage, tables: seq<nat>, d: nat, piece: Piece,
                          width: nat, minPercent: int, ownPercent: int)
    requires (forall i :: 0 <= i < |tables| ==> Help(usage, tables[i]).Value?) && Help(usage, d).Value?
    requires TablesPrinted(now, usage, tables, width, minPercent, ownPercent)
    requires RowsPrinted(piece, usage, RowsFrom(usage, Row(d, 0)),
                         TableLayout(usage, d, width, minPercent, ownPercent))
    ensures TablesPrinted(now.Then(piece), usage, tables + [d], width, minPercent, ownPercent)
  {
    hide RowsPrinted, Concat, TableLayout, RowsFrom;
    var pieces :| now == Concat(pieces) && EachTable(pieces, usage, tables, width, minPercent, ownPercent);
    ConcatMore(pieces, piece);
    assert EachTable(pieces + [piece], usage, tables + [d], width, minPercent, ownPercent);
  }

  lemma NonePrinted(usage: Usage, lay: Layout, width: nat, minPercent: int, ownPercent: int)
    requires lay.last < |lay.tabstop|
    ensures RowsPrinted(NOTHING_SHOWN, usage, [], lay)
    ensures TablesPrinted(NOTHING_SHOWN, usage, [], width, minPercent, ownPercent)
  {
    var none: seq<Piece> := [];
    assert Concat(none) == NOTHING_SHOWN;
    assert EachRow(none, usage, [], lay) && EachTable(none, usage, [], width, minPercent, ownPercent);
  }

  // ----- the layout of a table and its rows

  lemma TidySplit(lay: Layout, t: nat, a: seq<Size>, b: seq<Size>)
    requires Tidy(lay, t, a + b)
    ensures Tidy(lay, t, a) && Tidy(lay, t, b)
  {
    hide Fits;
    forall i | 0 <= i < |a| ensures Fits(lay, t, a[i]) { assert a[i] == (a + b)[i]; }
    forall i | 0 <= i < |b| ensures Fits(lay, t, b[i]) { assert b[i] == (a + b)[|a| + i]; }
  }

  /** A table tidily laid out: so is its first row, and so are the rows behind. */
  lemma FirstRowIsTidy(part: LinePartIterator, lay: Layout, t: nat)
    requires part.AtRowStart() && Tidy(lay, t, TableSizes(part.usage, part.CurrentRow()))
    ensures RowLaidOut(part, RowParts(part.Source(), part.rowstart), lay, t)
    ensures Tidy(lay, t, LaterSizes(part.usage, part.CurrentRow()))
  {
    hide SizesOf, TableSizes, RowParts, LaterSizes, PartsAfter;
    var r, s := part.CurrentRow(), part.Source();
    var parts := RowParts(s, r.start);
    TableIs(part.usage, r);
    FirstSizes(s, r.start);
    TidySplit(lay, t, SizesOf(s, parts), LaterSizes(part.usage, r));
    RowIsTidy(s, parts, lay, t);
    RowPartsInOrder(s, r.start);
  }

  /** What is left to do when the iterator is at a row. */
  ghost predicate ToPrint(part: LinePartIterator, more: bool, done: seq<Row>, all: seq<Row>, lay: Layout, t: nat)
    reads part
  {
    && part.OnRow()
    && if more then
         && part.Valid() && part.AtRowStart() && all == done + RowsFrom(part.usage, part.CurrentRow())
         && Tidy(lay, t, TableSizes(part.usage, part.CurrentRow()))
       else all == done
  }

  lemma RowsOf(usage: Usage, r: Row)
    requires IsRow(usage, r)
    ensures match RowAfter(usage, r)
      case Null => RowsFrom(usage, r) == [r]
      case Value(n) => RowsFrom(usage, r) == [r] + RowsFrom(usage, n)
  {
  }

  /** nextRow(), behind a printed row. */
  method RowOn(part: LinePartIterator, ghost done: seq<Row>, ghost all: seq<Row>, ghost lay: Layout, ghost t: nat)
    returns (more: bool)
    requires part.Valid() && part.RowDone() && all == done + RowsFrom(part.usage, part.CurrentRow())
    requires Tidy(lay, t, LaterSizes(part.usage, part.CurrentRow()))
    modifies part`rowdesc, part`rowstart, part`ptr, part`col, part`len, part`screenlen,
             part`maxLineInBlock, part`lineInBlock, part`targetLineInBlock, part`hitTargetLine
    ensures part.Placed() && ToPrint(part, more, done + [old(part.CurrentRow())], all, lay, t)
    ensures more ==> RowsLeft(part.usage, part.CurrentRow()) < old(RowsLeft(part.usage, part.CurrentRow()))
  {
    hide TableSizes, LaterSizes, RowsFrom, RowsLeft, RowAfter, Here, Tidy;
    ghost var r := part.CurrentRow();
    RowsOf(part.usage, r);
    LaterIs(part.usage, r);
    more := part.NextRow();
    if more {
      assert done + ([r] + RowsFrom(part.usage, part.CurrentRow())) ==
        (done + [r]) + RowsFrom(part.usage, part.CurrentRow());
    }
  }

  /** The loop over the rows of a table. */
  method PrintRows(part: LinePartIterator, write: Writer, wl: LineWrapper, wi: LineWrapper, lay: Layout,
                   ghost t: nat)
    returns (ghost now: Piece)
    requires part.Placed() && part.tablestart < |part.usage| && Help(part.usage, part.tablestart).Value?
    requires Idle(wl, wi, lay) && Column(0, write.out) == 0
    requires Room(lay) && Tidy(lay, t, TableSizes(part.usage, Row(part.tablestart, 0)))
    modifies part, write, wl`head, wl`tail, wl`wroteSomething, wl.lenbuf, wl.datbuf,
             wi`head, wi`tail, wi`wroteSomething, wi.lenbuf, wi.datbuf
    ensures part.Placed() && part.tablestart == old(part.tablestart) && part.rowdesc >= 0
    ensures Shown(write.out) == Shown(old(write.out)).Then(now) && Column(0, write.out) == 0
    ensures RowsPrinted(now, part.usage, RowsFrom(part.usage, Row(part.tablestart, 0)), lay)
  {
    hide Tidy, TableSizes, RowsFrom, Placed, Shown, Breaks, Column, RowsPrinted, RowPrinted, Room, Idle,
      Here, RowLaidOut, RowParts;
    ghost var all, done, pre := RowsFrom(part.usage, Row(part.tablestart, 0)), [], Shown(write.out);
    part.RestartTable();
    var more := part.NextRow();
    now := NOTHING_SHOWN;
    LayoutLast(lay);
    NonePrinted(part.usage, lay, 0, 0, 0);
    assert all == [] + all && pre == pre.Then(NOTHING_SHOWN);
    while more
      invariant part.Placed() && part.tablestart == old(part.tablestart) && ToPrint(part, more, done, all, lay, t)
      invariant Idle(wl, wi, lay) && Column(0, write.out) == 0
      invariant Shown(write.out) == pre.Then(now) && RowsPrinted(now, part.usage, done, lay)
      decreases more, if more then RowsLeft(part.usage, part.CurrentRow()) else 0
    {
      ghost var r := part.CurrentRow();
      FirstRowIsTidy(part, lay, t);
      ghost var was := write.out;
      ghost var items, lines := PrintOneRow(part, write, wl, wi, lay, t);
      ghost var piece := Piece(items, lines);
      RowShown(was, write.out, piece);
      ThenTogether(pre, now, piece);
      RowsPrintedMore(now, part.usage, done, lay, piece, r);
      now := now.Then(piece);
      more := RowOn(part, done, all, lay, t);
      done := done + [r];
    }
  }

  lemma RowShown(was: seq<Out>, out: seq<Out>, piece: Piece)
    requires Placed(0, out) == Placed(0, was) + piece.items && Breaks(out) == Breaks(was) + piece.lines
    ensures Shown(out) == Shown(was).Then(piece)
  {
  }

  lemma LayoutLast(lay: Layout)
    requires Room(lay)
    ensures lay.last < |lay.tabstop|
  {
  }

  /** One table: its layout, two new wrappers, its rows. */
  method PrintTable(part: LinePartIterator, write: Writer, width: nat, minPercent: int, ownPercent: int)
    returns (ghost now: Piece)
    requires part.Placed() && part.rowdesc >= 0 && part.tablestart < |part.usage|
    requires Help(part.usage, part.tablestart).Value? && Column(0, write.out) == 0
    modifies part, write
    ensures part.Placed() && part.tablestart == old(part.tablestart) && part.rowdesc >= 0
    ensures Shown(write.out) == Shown(old(write.out)).Then(now) && Column(0, write.out) == 0
    ensures RowsPrinted(now, part.usage, RowsFrom(part.usage, Row(part.tablestart, 0)),
                        TableLayout(part.usage, part.tablestart, width, minPercent, ownPercent))
  {
    hide TableSizes, RowsFrom, Shown, Column, RowsPrinted, LayoutOf, Tidy, Stored, Queued, Used;
    var lay := LayOutTable(part, width, minPercent, ownPercent);
    ghost var t := MadeFor(part.usage, part.tablestart, width, minPercent, ownPercent);
    var wl := new LineWrapper(lay.LastX(), lay.width);
    var wi := new LineWrapper(0, lay.width);
    now := PrintRows(part, write, wl, wi, lay, t);
  }

  lemma MadeFor(usage: Usage, d: nat, width: nat, minPercent: int, ownPercent: int) returns (t: nat)
    requires Help(usage, d).Value?
    ensures var lay := TableLayout(usage, d, width, minPercent, ownPercent);
      Room(lay) && Tidy(lay, t, TableSizes(usage, Row(d, 0)))
  {
    LayoutIsTidy(TableSizes(usage, Row(d, 0)), width, minPercent, ownPercent);
    t := Best(TableSizes(usage, Row(d, 0)), width, OVERLONG);
  }

  lemma TablesOf(usage: Usage, d: nat)
    requires d <= |usage|
    ensures var s := TableStart(usage, d);
      Tables(usage, d) == if s < |usage| then [s] + Tables(usage, TableEnd(usage, s)) else []
  {
  }

  /** The tables printed and those still to come are all tables. */
  ghost predicate TablesLeft(part: LinePartIterator, more: bool, done: seq<nat>)
    reads part
  {
    && part.Placed() && (forall i :: 0 <= i < |done| ==> Help(part.usage, done[i]).Value?)
    && if more then
         && part.tablestart < |part.usage| && Help(part.usage, part.tablestart).Value? && part.rowdesc >= 0
         && Tables(part.usage, 0) ==
            (done + [part.tablestart]) + Tables(part.usage, TableEnd(part.usage, part.tablestart))
       else Tables(part.usage, 0) == done
  }

  /** nextTable(), at the start or behind a printed table. */
  method TableOn(part: LinePartIterator, ghost done: seq<nat>) returns (more: bool)
    requires part.Placed() && forall i :: 0 <= i < |done| ==> Help(part.usage, done[i]).Value?
    requires Tables(part.usage, 0) ==
      done + Tables(part.usage, if part.rowdesc < 0 then part.tablestart else TableEnd(part.usage, part.tablestart))
    modifies part
    ensures TablesLeft(part, more, done)
    ensures old(part.rowdesc >= 0 && Help(part.usage, part.tablestart).Value?) ==>
      part.tablestart > old(part.tablestart)
  {
    hide Tables, TableStart, TableEnd;
    ghost var d := if part.rowdesc < 0 then part.tablestart else TableEnd(part.usage, part.tablestart);
    TablesOf(part.usage, d);
    if part.tablestart < |part.usage| && Help(part.usage, part.tablestart).Value? {
      TableIsLong(part.usage, part.tablestart);
    }
    more := part.NextTable();
    if more {
      ghost var t := part.tablestart;
      assert done + ([t] + Tables(part.usage, TableEnd(part.usage, t))) ==
        (done + [t]) + Tables(part.usage, TableEnd(part.usage, t));
    }
  }

  /** For every usage, width and percentages the printer comes to an end, and what is on the
      screen is every table of the usage, row by row, each in the layout found for it. */
  method PrintUsage(usage: Usage, write: Writer, width0: int, minPercent: int, ownPercent: int)
    returns (ghost now: Piece)
    requires Column(0, write.out) == 0
    modifies write
    ensures Shown(write.out) == Shown(old(write.out)).Then(now) && Column(0, write.out) == 0
    ensures TablesPrinted(now, usage, Tables(usage, 0), SaneWidth(width0), minPercent, ownPercent)
  {
    hide Shown, Column, Tables, TablesPrinted, RowsPrinted, RowsFrom, TableLayout, TableStart, TableEnd;
    var width := SaneWidth(width0);
    ghost var pre, done := Shown(write.out), [];
    now := NOTHING_SHOWN;
    var part := new LinePartIterator(usage);
    NonePrinted(usage, Layout(0, [0], 0, 0, false), width, minPercent, ownPercent);
    assert pre.Then(NOTHING_SHOWN) == pre && [] + Tables(usage, 0) == Tables(usage, 0);
    var more := TableOn(part, []);
    while more
      invariant part.usage == usage && TablesLeft(part, more, done)
      invariant Shown(write.out) == pre.Then(now) && Column(0, write.out) == 0
      invariant TablesPrinted(now, usage, done, width, minPercent, ownPercent)
      decreases |usage| - part.tablestart
    {
      ghost var d := part.tablestart;
      ghost var piece := PrintTable(part, write, width, minPercent, ownPercent);
      TablesPrintedMore(now, usage, done, d, piece, width, minPercent, ownPercent);
      ThenTogether(pre, now, piece);
      now := now.Then(piece);
      done := done + [d];
      more := TableOn(part, done);
    }
  }
}
