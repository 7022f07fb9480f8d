/** How the usage printer prints one row: which part goes to which writer, where it stands on the
    screen, and that nothing of the columns it keeps is lost. */
module PrintRow {
  import opened Utf8
  import opened LineGrid
  import opened LineParts
  import opened ColumnWidths
  import opened Display
  import opened Wrapping

  // ----- where a part goes

  /** Written as it is; wrapped in the last column; wrapped as a row without separators;
      dropped behind the last column. */
  datatype Kind = Plain | InLast | Interjection | Dropped

  function KindOf(s: Text, p: Part, last: nat): Kind
    requires p.pos + p.len <= |s|
  {
    if p.col > last then Dropped
    else if p.col < last && Separated(s, p) then Plain
    else if p.col == 0 then Interjection
    else InLast
  }

  /** The plain parts, each at the tab stop of its column. */
  function PlainItems(s: Text, parts: seq<Part>, lay: Layout): seq<Item>
    requires Inside(s, parts) && lay.last < |lay.tabstop|
  {
    if parts == [] then []
    else
      var n := |parts| - 1;
      var p := parts[n];
      PlainItems(s, parts[..n], lay) +
      if KindOf(s, p, lay.last) == Plain then [Item(s[p.pos..p.pos + p.len], lay.tabstop[p.col])] else []
  }

  /** The chunks of the parts of a kind, all at one column. */
  function ChunkItems(s: Text, parts: seq<Part>, last: nat, kind: Kind, width: nat, x: nat): seq<Item>
    requires Proper(s) && Inside(s, parts) && width >= 2
  {
    if parts == [] then []
    else
      var n := |parts| - 1;
      var p := parts[n];
      ProperPart(s, p.pos, p.pos + p.len);
      ChunkItems(s, parts[..n], last, kind, width, x) +
      if KindOf(s, p, last) == kind then Items(x, Texts(Chunks(s[p.pos..p.pos + p.len], width))) else []
  }

  // ----- what is on the screen

  /** What each of the three has to write, or has written. */
  datatype Printed = Printed(plain: seq<Item>, last: seq<Item>, interjection: seq<Item>)

  /** `out` consists of the three sequences, each in its order. */
  ghost predicate Shuffles(out: seq<Item>, p: Printed)
    decreases |out|
  {
    if out == [] then p == Printed([], [], [])
    else
      var o, t := out[..|out| - 1], out[|out| - 1];
      || (Ends(p.plain, t) && Shuffles(o, p.(plain := Front(p.plain))))
      || (Ends(p.last, t) && Shuffles(o, p.(last := Front(p.last))))
      || (Ends(p.interjection, t) && Shuffles(o, p.(interjection := Front(p.interjection))))
  }

  predicate Ends(s: seq<Item>, t: Item) { s != [] && s[|s| - 1] == t }

  function Front(s: seq<Item>): seq<Item> { if s == [] then [] else s[..|s| - 1] }

  lemma ShufflesOne(out: seq<Item>, p: Printed, t: Item)
    requires Shuffles(out, p)
    ensures Shuffles(out + [t], p.(plain := p.plain + [t]))
    ensures Shuffles(out + [t], p.(last := p.last + [t]))
    ensures Shuffles(out + [t], p.(interjection := p.interjection + [t]))
  {
    var all := out + [t];
    assert all[..|all| - 1] == out;
    assert Front(p.plain + [t]) == p.plain && Front(p.last + [t]) == p.last &&
      Front(p.interjection + [t]) == p.interjection;
  }

  lemma {:induction false} ShufflesMore(out: seq<Item>, p: Printed, t: seq<Item>)
    requires Shuffles(out, p)
    ensures Shuffles(out + t, p.(last := p.last + t))
    ensures Shuffles(out + t, p.(interjection := p.interjection + t))
  {
    hide Shuffles;
    if t == [] {
      assert out + t == out && p.last + t == p.last && p.interjection + t == p.interjection;
    } else {
      var n := |t| - 1;
      ShufflesMore(out, p, t[..n]);
      ShufflesOne(out + t[..n], p.(last := p.last + t[..n]), t[n]);
      ShufflesOne(out + t[..n], p.(interjection := p.interjection + t[..n]), t[n]);
      assert out + t == out + t[..n] + [t[n]];
      assert p.last + t == p.last + t[..n] + [t[n]];
      assert p.interjection + t == p.interjection + t[..n] + [t[n]];
    }
  }

  /** `now` is on the screen; what the two wrappers have queued is still missing from `want`. */
  ghost predicate Printing(now: seq<Item>, ql: seq<Item>, qi: seq<Item>, want: Printed) {
    exists done :: Missing(done, ql, qi, want) && Shuffles(now, done)
  }

  predicate Missing(done: Printed, ql: seq<Item>, qi: seq<Item>, want: Printed) {
    want == Printed(done.plain, done.last + ql, done.interjection + qi)
  }

  lemma PrintingPlain(now: seq<Item>, ql: seq<Item>, qi: seq<Item>, want: Printed, t: Item)
    requires Printing(now, ql, qi, want)
    ensures Printing(now + [t], ql, qi, want.(plain := want.plain + [t]))
  {
    hide Shuffles;
    var done :| Missing(done, ql, qi, want) && Shuffles(now, done);
    ShufflesOne(now, done, t);
    assert Missing(done.(plain := done.plain + [t]), ql, qi, want.(plain := want.plain + [t]));
  }

  /** The wrapper of the last column takes `new_` and writes the first `k` of its queue. */
  lemma PrintingLast(now: seq<Item>, ql: seq<Item>, qi: seq<Item>, want: Printed, new_: seq<Item>, k: nat)
    requires Printing(now, ql, qi, want) && k <= |ql + new_|
    ensures Printing(now + (ql + new_)[..k], (ql + new_)[k..], qi, want.(last := want.last + new_))
  {
    hide Shuffles;
    var all := ql + new_;
    var done :| Missing(done, ql, qi, want) && Shuffles(now, done);
    ShufflesMore(now, done, all[..k]);
    Regroup(done.last, ql, new_, k);
    assert Missing(done.(last := done.last + all[..k]), all[k..], qi, want.(last := want.last + new_));
  }

  lemma PrintingInterjection(now: seq<Item>, ql: seq<Item>, qi: seq<Item>, want: Printed, new_: seq<Item>, k: nat)
    requires Printing(now, ql, qi, want) && k <= |qi + new_|
    ensures Printing(now + (qi + new_)[..k], ql, (qi + new_)[k..], want.(interjection := want.interjection + new_))
  {
    hide Shuffles;
    var all := qi + new_;
    var done :| Missing(done, ql, qi, want) && Shuffles(now, done);
    ShufflesMore(now, done, all[..k]);
    Regroup(done.interjection, qi, new_, k);
    assert Missing(done.(interjection := done.interjection + all[..k]), ql, all[k..],
                   want.(interjection := want.interjection + new_));
  }

  lemma Regroup(a: seq<Item>, q: seq<Item>, n: seq<Item>, k: nat)
    requires k <= |q + n|
    ensures (a + (q + n)[..k]) + (q + n)[k..] == (a + q) + n
  {
    assert (q + n)[..k] + (q + n)[k..] == q + n;
  }

  // ----- what a row has to write

  /** The plain parts, and the chunks of the wrapped ones; with `own`, without the last column. */
  function Wanted(s: Text, parts: seq<Part>, lay: Layout, own: bool): Printed
    requires Proper(s) && Inside(s, parts) && lay.last < |lay.tabstop|
  {
    Printed(PlainItems(s, parts, lay),
            if own then [] else ChunkItems(s, parts, lay.last, InLast, lay.LastWidth(), Margin(lay.LastX())),
            ChunkItems(s, parts, lay.last, Interjection, lay.FullWidth(), 0))
  }

  /** What one part adds. */
  function Added(want: Printed, s: Text, p: Part, lay: Layout, own: bool): Printed
    requires Proper(s) && p.pos + p.len <= |s| && lay.last < |lay.tabstop|
  {
    ProperPart(s, p.pos, p.pos + p.len);
    var t := s[p.pos..p.pos + p.len];
    match KindOf(s, p, lay.last)
    case Plain => want.(plain := want.plain + [Item(t, lay.tabstop[p.col])])
    case InLast => if own then want else AddedLast(want, lay, t)
    case Interjection => AddedInterjection(want, lay, t)
    case Dropped => want
  }

  function AddedLast(want: Printed, lay: Layout, t: Text): Printed
    requires Proper(t)
  {
    want.(last := want.last + Items(Margin(lay.LastX()), Texts(Chunks(t, lay.LastWidth()))))
  }

  function AddedInterjection(want: Printed, lay: Layout, t: Text): Printed
    requires Proper(t)
  {
    want.(interjection := want.interjection + Items(0, Texts(Chunks(t, lay.FullWidth()))))
  }

  /** The same for the first `i` parts. */
  function WantedOf(s: Text, parts: seq<Part>, i: nat, lay: Layout, own: bool): Printed
    requires Proper(s) && Inside(s, parts) && i <= |parts| && lay.last < |lay.tabstop|
  {
    Wanted(s, parts[..i], lay, own)
  }

  lemma WantedMore(s: Text, parts: seq<Part>, i: nat, lay: Layout, own: bool)
    requires i < |parts| && Proper(s) && Inside(s, parts) && lay.last < |lay.tabstop|
    ensures parts[i].pos + parts[i].len <= |s|
    ensures WantedOf(s, parts, i + 1, lay, own) == Added(WantedOf(s, parts, i, lay, own), s, parts[i], lay, own)
  {
    hide KindOf, Chunks, Texts, Items;
    assert parts[..i + 1][..i] == parts[..i];
  }

  lemma WantedEnds(s: Text, parts: seq<Part>, lay: Layout, own: bool)
    requires Proper(s) && Inside(s, parts) && lay.last < |lay.tabstop|
    ensures WantedOf(s, parts, 0, lay, own) == Printed([], [], [])
    ensures WantedOf(s, parts, |parts|, lay, own) == Wanted(s, parts, lay, own)
  {
    assert parts[..0] == [] && parts[..|parts|] == parts;
  }

  // ----- the iterator, with the parts still to come

  ghost predicate Ahead(part: LinePartIterator, rest: seq<Part>)
    reads part
  {
    && part.OnRow() && InGrid(part.Source(), part.rowstart, part.Position())
    && rest == PartsAfter(part.Source(), part.rowstart, part.Position())
  }

  ghost predicate AtHead(part: LinePartIterator, rest: seq<Part>)
    reads part
  {
    && part.AtPart() && rest != [] && Ahead(part, rest[1..])
    && rest[0] == Part(part.targetLineInBlock, part.col, part.ptr, part.len)
  }

  method NextPart(part: LinePartIterator, ghost rest: seq<Part>) returns (more: bool)
    requires part.Valid() && (part.AtRowStart() || part.AtPart()) && Ahead(part, rest)
    modifies part`ptr, part`col, part`len, part`screenlen,
             part`maxLineInBlock, part`lineInBlock, part`targetLineInBlock, part`hitTargetLine
    ensures part.Valid() && part.OnRow()
    ensures if more then AtHead(part, rest) else part.RowDone() && rest == []
  {
    hide GridPart, Height, Cells, Successor, PartsAfter, Width;
    PartsStep(part.Source(), part.rowstart, part.Position());
    more := part.Next();
    if more {
      TargetIsSeen(part.Source(), part.rowstart, part.Scanned(), part.len);
    }
  }

  lemma RowBegins(part: LinePartIterator)
    requires part.AtRowStart()
    ensures Ahead(part, RowParts(part.Source(), part.rowstart))
  {
  }

  // ----- the cursor

  /** In front of column `col` of a line: the cursor is the column on the screen, or so far
      right that a new line is due. */
  predicate Behind(lay: Layout, t: nat, x: int, screen: nat, col: nat)
    requires col < |lay.tabstop|
  {
    if x <= lay.tabstop[col] then screen == x else x >= t
  }

  /** Where the next column finds the cursor. */
  lemma BehindNext(lay: Layout, t: nat, now: int, col: nat, width: nat)
    requires col < lay.last < |lay.tabstop| && Fits(lay, t, Size(col, width, true))
    requires lay.tabstop[col + 1] < lay.tabstop[col] + t
    requires now == lay.tabstop[col] || (lay.tabstop[col] == 0 && now >= t)
    ensures Behind(lay, t, now + width, lay.tabstop[col] + width, col + 1)
  {
  }

  /** The breaks and spaces in front of a part. */
  function Lead(lay: Layout, x: int, col: nat): seq<Out>
    requires col < |lay.tabstop|
  {
    (if col == 0 && x >= 0 then [Break] else []) + Moved(if col == 0 then 0 else x, lay.tabstop[col])
  }

  /** Line breaks among them: one in front of the first column, save in the first line, and one
      where the cursor is already behind the tab stop. */
  function LeadBreaks(lay: Layout, x: int, col: nat): nat
    requires col < |lay.tabstop|
  {
    if col == 0 then if x >= 0 then 1 else 0 else if lay.tabstop[col] < x then 1 else 0
  }

  lemma LeadHasBreaks(lay: Layout, x: int, col: nat)
    requires col < |lay.tabstop|
    ensures Breaks(Lead(lay, x, col)) == LeadBreaks(lay, x, col)
  {
    hide Breaks, Moved;
    BreaksTogether([], []);
    BreaksTogether(if col == 0 && x >= 0 then [Break] else [], Moved(if col == 0 then 0 else x, lay.tabstop[col]));
    MovedBreaks(if col == 0 then 0 else x, lay.tabstop[col]);
  }

  /** The cursor behind a part. */
  function CursorBehind(s: Text, p: Part, lay: Layout, x: int): int
    requires Proper(s) && p.pos + p.len <= |s| && lay.last < |lay.tabstop|
  {
    ProperPart(s, p.pos, p.pos + p.len);
    if p.col > lay.last then x
    else
      CursorAfter(if p.col == 0 then 0 else x, lay.tabstop[p.col]) +
        if KindOf(s, p, lay.last) == Plain then Width(s[p.pos..p.pos + p.len]) else 0
  }

  /** The cursor in front of part `i`. */
  function CursorBefore(s: Text, parts: seq<Part>, i: nat, lay: Layout): int
    requires Proper(s) && Inside(s, parts) && i <= |parts| && lay.last < |lay.tabstop|
  {
    if i == 0 then -1 else CursorBehind(s, parts[i - 1], lay, CursorBefore(s, parts, i - 1, lay))
  }

  /** Lines begun in front of the first `i` parts. */
  function LinesBegun(s: Text, parts: seq<Part>, i: nat, lay: Layout): nat
    requires Proper(s) && Inside(s, parts) && i <= |parts| && lay.last < |lay.tabstop|
  {
    if i == 0 then 0
    else
      var p := parts[i - 1];
      LinesBegun(s, parts, i - 1, lay) +
        if p.col > lay.last then 0 else LeadBreaks(lay, CursorBefore(s, parts, i - 1, lay), p.col)
  }

  /** Parts of a kind among the first `i`. */
  function PartsOf(s: Text, parts: seq<Part>, i: nat, last: nat, kind: Kind): nat
    requires Inside(s, parts) && i <= |parts|
  {
    if i == 0 then 0
    else PartsOf(s, parts, i - 1, last, kind) + if KindOf(s, parts[i - 1], last) == kind then 1 else 0
  }

  /** The wrapped parts that are wrapped in the first loop. */
  function Wraps(s: Text, parts: seq<Part>, i: nat, lay: Layout): nat
    requires Inside(s, parts) && i <= |parts|
  {
    PartsOf(s, parts, i, lay.last, Interjection) + if lay.ownLine then 0 else PartsOf(s, parts, i, lay.last, InLast)
  }

  function Chunked(want: Printed): nat { |want.last| + |want.interjection| }

  /** Between `lines` plus a line for every chunk, and that without one line for each wrapped part. */
  predicate Counted(lay: Layout, load: int, lines: nat, want: Printed, wraps: nat) {
    lay.LastX() >= 0 ==> lines + Chunked(want) - wraps <= load <= lines + Chunked(want)
  }

  // ----- one part

  ghost predicate Ready(wl: LineWrapper, wi: LineWrapper, lay: Layout)
    reads wl, wl.lenbuf, wl.datbuf, wi, wi.lenbuf, wi.datbuf
  {
    && wl.Valid() && wi.Valid()
    && wl != wi && wl.lenbuf != wi.lenbuf && wl.datbuf != wi.datbuf
    && wl.x == lay.LastX() && wl.width == lay.LastWidth() && wi.x == 0 && wi.width == lay.FullWidth()
  }

  /** The screen, the two wrappers, and what of `want` is on the screen. */
  ghost predicate Screen(write: Writer, wl: LineWrapper, wi: LineWrapper, lay: Layout,
                         pre: seq<Item>, now: seq<Item>, want: Printed)
    reads write, wl, wl.lenbuf, wl.datbuf, wi, wi.lenbuf, wi.datbuf
  {
    && Ready(wl, wi, lay) && Placed(0, write.out) == pre + now
    && Printing(now, Items(Margin(lay.LastX()), wl.Queue()), Items(0, wi.Queue()), want)
  }

  /** Lines begun on the screen, and lines still in the queues. */
  ghost function Load(write: Writer, wl: LineWrapper, wi: LineWrapper): nat
    requires wl.Valid() && wi.Valid()
    reads write, wl, wl.lenbuf, wl.datbuf, wi, wi.lenbuf, wi.datbuf
  {
    Breaks(write.out) + |wl.Queue()| + |wi.Queue()|
  }

  /** process() brings the new chunks to screen or queue, and saves one line if it writes any. */
  lemma ProcessLoads(x: int, q: seq<Text>, chunks: seq<Text>)
    requires x >= 0
    ensures var all := q + chunks;
      var k := LineWrapper.Due(|all|);
      |q| + |chunks| - 1 <= Breaks(Lay(x, all[..k])) + |all[k..]| <= |q| + |chunks|
  {
    hide Breaks, Lay;
    var all := q + chunks;
    LayBreaks(x, all[..LineWrapper.Due(|all|)]);
  }

  lemma TakeItems(c: nat, q: seq<Text>, k: nat)
    requires k <= |q|
    ensures Items(c, q)[..k] == Items(c, q[..k]) && Items(c, q)[k..] == Items(c, q[k..])
  {
  }

  lemma Assoc(a: seq<Item>, b: seq<Item>, c: seq<Item>)
    ensures (a + b) + c == a + (b + c)
  {
  }

  /** A line of the last column goes to its wrapper. */
  method WrapLast(write: Writer, wl: LineWrapper, wi: LineWrapper, lay: Layout, text: Text,
                  ghost pre: seq<Item>, ghost now: seq<Item>, ghost want: Printed)
    returns (ghost now': seq<Item>)
    requires Screen(write, wl, wi, lay, pre, now, want) && Proper(text)
    requires Column(0, write.out) == Margin(lay.LastX())
    modifies write, wl`head, wl`tail, wl`wroteSomething, wl.lenbuf, wl.datbuf
    ensures Screen(write, wl, wi, lay, pre, now', AddedLast(want, lay, text))
    ensures old(write.out) <= write.out
    ensures lay.LastX() >= 0 ==>
      -1 <= Load(write, wl, wi) - old(Load(write, wl, wi)) - |Chunks(text, lay.LastWidth())| <= 0
  {
    hide Printing, Stored, Queued, Used, Placed, Column, Lay, Texts, Chunks, Items, Breaks;
    ghost var q, chunks, m := wl.Queue(), Texts(Chunks(text, wl.width)), Margin(lay.LastX());
    ghost var k := LineWrapper.Due(|q + chunks|);
    ghost var out := write.out;
    wl.Process(write, text);
    LayPlaces(wl.x, (q + chunks)[..k]);
    PlacedTogether(0, out, Lay(wl.x, (q + chunks)[..k]));
    now' := now + Items(m, (q + chunks)[..k]);
    Assoc(pre, now, Items(m, (q + chunks)[..k]));
    ItemsTogether(m, q, chunks);
    TakeItems(m, q + chunks, k);
    PrintingLast(now, Items(m, q), Items(0, wi.Queue()), want, Items(m, chunks), k);
    if wl.x >= 0 {
      ProcessLoads(wl.x, q, chunks);
      BreaksTogether(out, Lay(wl.x, (q + chunks)[..k]));
    }
  }

  method WrapInterjection(write: Writer, wl: LineWrapper, wi: LineWrapper, lay: Layout, text: Text,
                          ghost pre: seq<Item>, ghost now: seq<Item>, ghost want: Printed)
    returns (ghost now': seq<Item>)
    requires Screen(write, wl, wi, lay, pre, now, want) && Proper(text) && Column(0, write.out) == 0
    modifies write, wi`head, wi`tail, wi`wroteSomething, wi.lenbuf, wi.datbuf
    ensures Screen(write, wl, wi, lay, pre, now', AddedInterjection(want, lay, text))
    ensures old(write.out) <= write.out
    ensures -1 <= Load(write, wl, wi) - old(Load(write, wl, wi)) - |Chunks(text, lay.FullWidth())| <= 0
  {
    hide Printing, Stored, Queued, Used, Placed, Column, Lay, Texts, Chunks, Items, Breaks;
    ghost var q, chunks := wi.Queue(), Texts(Chunks(text, wi.width));
    ghost var k := LineWrapper.Due(|q + chunks|);
    ghost var out := write.out;
    wi.Process(write, text);
    LayPlaces(0, (q + chunks)[..k]);
    PlacedTogether(0, out, Lay(0, (q + chunks)[..k]));
    now' := now + Items(0, (q + chunks)[..k]);
    Assoc(pre, now, Items(0, (q + chunks)[..k]));
    ItemsTogether(0, q, chunks);
    TakeItems(0, q + chunks, k);
    PrintingInterjection(now, Items(Margin(lay.LastX()), wl.Queue()), Items(0, q), want, Items(0, chunks), k);
    ProcessLoads(0, q, chunks);
    BreaksTogether(out, Lay(0, (q + chunks)[..k]));
  }

  /** A plain text is written as it is. */
  method WritePlain(write: Writer, wl: LineWrapper, wi: LineWrapper, lay: Layout, text: Text,
                    ghost pre: seq<Item>, ghost now: seq<Item>, ghost want: Printed)
    returns (ghost now': seq<Item>)
    requires Screen(write, wl, wi, lay, pre, now, want) && Proper(text)
    modifies write
    ensures write.out == old(write.out) + [Wrote(text)]
    ensures var c := Column(0, old(write.out));
      && Screen(write, wl, wi, lay, pre, now', want.(plain := want.plain + [Item(text, c)]))
      && Column(0, write.out) == c + Width(text) && Load(write, wl, wi) == old(Load(write, wl, wi))
  {
    hide Printing, Stored, Queued, Used, Placed, Column, Items, Breaks;
    ghost var c := Column(0, write.out);
    PlacedOne(0, write.out, Wrote(text));
    BreaksTogether(write.out, [Wrote(text)]);
    TextIsNoBreak(text);
    write.out := write.out + [Wrote(text)];
    now' := now + [Item(text, c)];
    Assoc(pre, now, [Item(text, c)]);
    PrintingPlain(now, Items(Margin(lay.LastX()), wl.Queue()), Items(0, wi.Queue()), want, Item(text, c));
  }

  /** Breaks and spaces write no text. */
  method MoveTo(write: Writer, wl: LineWrapper, wi: LineWrapper, lay: Layout, x: int, column: int,
                ghost pre: seq<Item>, ghost now: seq<Item>, ghost want: Printed)
    returns (x': int)
    requires Screen(write, wl, wi, lay, pre, now, want)
    requires column < x || Column(0, write.out) == x
    modifies write
    ensures Screen(write, wl, wi, lay, pre, now, want) && Column(0, write.out) == Margin(column)
    ensures write.out == old(write.out) + Moved(x, column)
    ensures Load(write, wl, wi) == old(Load(write, wl, wi)) + if column < x then 1 else 0
    ensures x' == CursorAfter(x, column)
  {
    hide Printing, Stored, Queued, Used, Placed, Column, Items, Breaks;
    ghost var out := write.out;
    MovedBreaks(x, column);
    BreaksTogether(out, Moved(x, column));
    x' := Indent(write, x, column);
    MovedTo(Column(0, out), x, column);
    PlacedTogether(0, out, Moved(x, column));
    assert Placed(0, out) + [] == Placed(0, out);
  }

  method BreakLine(write: Writer, wl: LineWrapper, wi: LineWrapper, lay: Layout,
                   ghost pre: seq<Item>, ghost now: seq<Item>, ghost want: Printed)
    requires Screen(write, wl, wi, lay, pre, now, want)
    modifies write
    ensures Screen(write, wl, wi, lay, pre, now, want) && Column(0, write.out) == 0
    ensures write.out == old(write.out) + [Break]
    ensures Load(write, wl, wi) == old(Load(write, wl, wi)) + 1
  {
    hide Printing, Stored, Queued, Used, Placed, Column, Items, Breaks;
    BreaksTogether(write.out, [Break]);
    PlacedOne(0, write.out, Break);
    write.out := write.out + [Break];
    assert Placed(0, old(write.out)) + [] == Placed(0, old(write.out));
  }

  lemma ScreenReady(write: Writer, wl: LineWrapper, wi: LineWrapper, lay: Layout, pre: seq<Item>, now: seq<Item>,
                    want: Printed)
    requires Screen(write, wl, wi, lay, pre, now, want)
    ensures wl.Valid() && wi.Valid()
  {
  }

  /** The first column: a new line, save in the first line of the row. */
  method StartLine(write: Writer, wl: LineWrapper, wi: LineWrapper, lay: Layout, x0: int,
                   ghost pre: seq<Item>, ghost now: seq<Item>, ghost want: Printed)
    requires Screen(write, wl, wi, lay, pre, now, want) && wl.Valid() && wi.Valid()
    requires x0 >= 0 || Column(0, write.out) == 0
    modifies write
    ensures Screen(write, wl, wi, lay, pre, now, want) && wl.Valid() && wi.Valid() && Column(0, write.out) == 0
    ensures write.out == old(write.out) + if x0 >= 0 then [Break] else []
    ensures Load(write, wl, wi) == old(Load(write, wl, wi)) + if x0 >= 0 then 1 else 0
  {
    hide Screen, Column, Load, LineWrapper.Valid;
    if x0 >= 0 {
      BreakLine(write, wl, wi, lay, pre, now, want);
      ScreenReady(write, wl, wi, lay, pre, now, want);
    } else {
      assert write.out + [] == write.out;
    }
  }

  /** Where the move to a part starts and ends. */
  lemma MoveFacts(lay: Layout, t: nat, x0: int, screen: nat, col: nat)
    requires Room(lay) && col <= lay.last && (col > 0 ==> Behind(lay, t, x0, screen, col))
    ensures var x, tab := if col == 0 then 0 else x0, lay.tabstop[col];
      && Lead(lay, x0, col) == (if col == 0 && x0 >= 0 then [Break] else []) + Moved(x, tab)
      && LeadBreaks(lay, x0, col) == (if col == 0 && x0 >= 0 then 1 else 0) + (if tab < x then 1 else 0)
      && (CursorAfter(x, tab) == tab || (CursorAfter(x, tab) >= t && tab == 0))
      && (col > 0 ==> tab < x || screen == x) && Margin(tab) == tab && (col == 0 ==> tab == 0)
  {
  }

  lemma AssocOut(a: seq<Out>, b: seq<Out>, c: seq<Out>)
    ensures (a + b) + c == a + (b + c)
    ensures a + [] == a
  {
  }

  /** The cursor is brought to the tab stop of the part's column. */
  method MoveToPart(write: Writer, wl: LineWrapper, wi: LineWrapper, lay: Layout, x0: int, col: nat, ghost t: nat,
                    ghost pre: seq<Item>, ghost now: seq<Item>, ghost want: Printed)
    returns (x: int)
    requires Screen(write, wl, wi, lay, pre, now, want) && Room(lay) && col <= lay.last
    requires if col == 0 then x0 >= 0 || Column(0, write.out) == 0 else Behind(lay, t, x0, Column(0, write.out), col)
    modifies write
    ensures Screen(write, wl, wi, lay, pre, now, want) && Column(0, write.out) == lay.tabstop[col]
    ensures write.out == old(write.out) + Lead(lay, x0, col)
    ensures Load(write, wl, wi) == old(Load(write, wl, wi)) + LeadBreaks(lay, x0, col)
    ensures x == CursorAfter(if col == 0 then 0 else x0, lay.tabstop[col])
    ensures x == lay.tabstop[col] || (x >= t && lay.tabstop[col] == 0)
  {
    ScreenReady(write, wl, wi, lay, pre, now, want);
    MoveFacts(lay, t, x0, Column(0, write.out), col);
    hide Screen, Column, Moved, Load, LineWrapper.Valid, Lead, LeadBreaks, Behind, CursorAfter, Margin;
    ghost var was := write.out;
    if col == 0 {
      StartLine(write, wl, wi, lay, x0, pre, now, want);
      AssocOut(was, if x0 >= 0 then [Break] else [], Moved(0, lay.tabstop[col]));
      x := MoveTo(write, wl, wi, lay, 0, lay.tabstop[col], pre, now, want);
    } else {
      AssocOut(was, [], Moved(x0, lay.tabstop[col]));
      x := MoveTo(write, wl, wi, lay, x0, lay.tabstop[col], pre, now, want);
    }
  }

  /** Chunks a part brings. */
  function Brought(s: Text, p: Part, lay: Layout): nat
    requires Proper(s) && p.pos + p.len <= |s|
  {
    ProperPart(s, p.pos, p.pos + p.len);
    match KindOf(s, p, lay.last)
    case InLast => if lay.ownLine then 0 else |Chunks(s[p.pos..p.pos + p.len], lay.LastWidth())|
    case Interjection => |Chunks(s[p.pos..p.pos + p.len], lay.FullWidth())|
    case _ => 0
  }

  lemma BroughtIs(want: Printed, s: Text, p: Part, lay: Layout)
    requires Proper(s) && p.pos + p.len <= |s| && lay.last < |lay.tabstop|
    ensures Chunked(Added(want, s, p, lay, lay.ownLine)) == Chunked(want) + Brought(s, p, lay)
  {
    hide Chunks, KindOf;
  }

  /** What one part adds to the lines: its own line break, and a line for each chunk, one less if it
      begins with a chunk. */
  predicate Loaded(s: Text, p: Part, lay: Layout, x: int, load: int)
    requires Proper(s) && p.pos + p.len <= |s| && lay.last < |lay.tabstop|
  {
    var lines := if p.col > lay.last then 0 else LeadBreaks(lay, x, p.col);
    var kind := KindOf(s, p, lay.last);
    var wraps := if kind == Interjection || (kind == InLast && !lay.ownLine) then 1 else 0;
    lay.LastX() >= 0 ==> lines + Brought(s, p, lay) - wraps <= load <= lines + Brought(s, p, lay)
  }

  /** A part that is not plain, with the cursor where it belongs. */
  method WrapPart(part: LinePartIterator, write: Writer, wl: LineWrapper, wi: LineWrapper, lay: Layout,
                  ghost p: Part, ghost pre: seq<Item>, ghost now: seq<Item>, ghost want: Printed)
    returns (ghost now': seq<Item>)
    requires part.AtPart() && p == Part(part.targetLineInBlock, part.col, part.ptr, part.len)
    requires Room(lay) && Screen(write, wl, wi, lay, pre, now, want) && wl.Valid() && wi.Valid()
    requires p.col <= lay.last && KindOf(part.Source(), p, lay.last) != Plain
    requires Column(0, write.out) == lay.tabstop[p.col]
    modifies write, wl`head, wl`tail, wl`wroteSomething, wl.lenbuf, wl.datbuf,
             wi`head, wi`tail, wi`wroteSomething, wi.lenbuf, wi.datbuf
    ensures Screen(write, wl, wi, lay, pre, now', Added(want, part.Source(), p, lay, lay.ownLine))
    ensures wl.Valid() && wi.Valid() && old(write.out) <= write.out
    ensures lay.LastX() >= 0 ==>
      var load := Load(write, wl, wi) - old(Load(write, wl, wi));
      var n := Brought(part.Source(), p, lay);
      load <= n && (load < n ==> load == n - 1 && !(p.col > 0 && lay.ownLine))
  {
    hide Screen, Texts, Chunks, Width, Here, Column, Load, Items;
    now' := now;
    var s, e := part.usage[part.rowdesc].value, part.ptr + part.len;
    ProperPart(s, part.ptr, e);
    if part.col == 0 {
      if !lay.ownLine || part.col != lay.last {
        now' := WrapInterjection(write, wl, wi, lay, s[part.ptr..e], pre, now, want);
      }
    } else {
      if !lay.ownLine || part.col != lay.last {
        now' := WrapLast(write, wl, wi, lay, s[part.ptr..e], pre, now, want);
      }
    }
    ScreenReady(write, wl, wi, lay, pre, now', Added(want, part.Source(), p, lay, lay.ownLine));
  }

  /** The body of the first loop.  A part of a kept column starts at the tab stop of that column,
      behind just the breaks and spaces of `Lead`. */
  method PrintPart(part: LinePartIterator, write: Writer, wl: LineWrapper, wi: LineWrapper, lay: Layout, x0: int,
                   ghost p: Part, ghost t: nat, ghost pre: seq<Item>, ghost now: seq<Item>, ghost want: Printed)
    returns (x: int, ghost now': seq<Item>)
    requires part.AtPart() && p == Part(part.targetLineInBlock, part.col, part.ptr, part.len)
    requires Room(lay) && Screen(write, wl, wi, lay, pre, now, want) && wl.Valid() && wi.Valid()
    requires p.col == 0 ==> x0 >= 0 || Column(0, write.out) == 0
    requires 0 < p.col <= lay.last ==> Behind(lay, t, x0, Column(0, write.out), p.col)
    modifies write, wl`head, wl`tail, wl`wroteSomething, wl.lenbuf, wl.datbuf,
             wi`head, wi`tail, wi`wroteSomething, wi.lenbuf, wi.datbuf
    ensures Screen(write, wl, wi, lay, pre, now', Added(want, part.Source(), p, lay, lay.ownLine))
    ensures wl.Valid() && wi.Valid() && x == CursorBehind(part.Source(), p, lay, x0)
    ensures p.col <= lay.last ==> old(write.out) + Lead(lay, x0, p.col) <= write.out && x >= 0
    ensures p.col > lay.last ==> write.out == old(write.out)
    ensures KindOf(part.Source(), p, lay.last) == Plain ==>
      && write.out == old(write.out) + Lead(lay, x0, p.col) + [Wrote(part.Source()[p.pos..p.pos + p.len])]
      && Column(0, write.out) == lay.tabstop[p.col] + part.screenlen
    ensures Loaded(part.Source(), p, lay, x0, Load(write, wl, wi) - old(Load(write, wl, wi)))
  {
    hide Screen, Texts, Chunks, Width, Here, Column, Lead, Behind, Load, LeadBreaks, Items, Added, CursorAfter;
    x, now' := x0, now;
    if part.col > lay.last {
      Dropping(want, part.Source(), p, lay);
      return;
    }
    var s, e := part.usage[part.rowdesc].value, part.ptr + part.len;
    ProperPart(s, part.ptr, e);
    x := MoveToPart(write, wl, wi, lay, x, part.col, t, pre, now, want);
    ScreenReady(write, wl, wi, lay, pre, now, want);
    if part.col < lay.last &&
       (part.col > 0 || part.targetLineInBlock > 0 || (e < |s| && (s[e] == TAB || s[e] == VTAB))) {
      PlainAdded(want, s, p, lay);
      now' := WritePlain(write, wl, wi, lay, s[part.ptr..e], pre, now, want);
      x := x + part.screenlen;
      ScreenReady(write, wl, wi, lay, pre, now', Added(want, s, p, lay, lay.ownLine));
    } else {
      now' := WrapPart(part, write, wl, wi, lay, p, pre, now, want);
    }
  }

  lemma Dropping(want: Printed, s: Text, p: Part, lay: Layout)
    requires Proper(s) && p.pos + p.len <= |s| && lay.last < |lay.tabstop| && p.col > lay.last
    ensures Added(want, s, p, lay, lay.ownLine) == want
  {
  }

  lemma PlainAdded(want: Printed, s: Text, p: Part, lay: Layout)
    requires Proper(s) && p.pos + p.len <= |s| && lay.last < |lay.tabstop| && KindOf(s, p, lay.last) == Plain
    ensures Added(want, s, p, lay, lay.ownLine) ==
      want.(plain := want.plain + [Item(s[p.pos..p.pos + p.len], lay.tabstop[p.col])])
  {
  }

  // ----- the row

  /** The iterator is at part `i` of the row, or behind the last. */
  ghost predicate Arrived(part: LinePartIterator, parts: seq<Part>, i: nat, more: bool)
    reads part
  {
    && i <= |parts| && part.Valid() && part.OnRow()
    && if more then AtHead(part, parts[i..]) else i == |parts| && part.RowDone()
  }

  method FirstPartOf(part: LinePartIterator, ghost parts: seq<Part>) returns (more: bool)
    requires part.AtRowStart() && part.Valid() && parts == RowParts(part.Source(), part.rowstart)
    modifies part`ptr, part`col, part`len, part`screenlen,
             part`maxLineInBlock, part`lineInBlock, part`targetLineInBlock, part`hitTargetLine
    ensures Arrived(part, parts, 0, more)
  {
    hide RowParts, Here, PartsAfter;
    RowBegins(part);
    assert parts[0..] == parts;
    more := NextPart(part, parts);
  }

  method NextPartOf(part: LinePartIterator, ghost parts: seq<Part>, ghost i: nat) returns (more: bool)
    requires Arrived(part, parts, i, true)
    modifies part`ptr, part`col, part`len, part`screenlen,
             part`maxLineInBlock, part`lineInBlock, part`targetLineInBlock, part`hitTargetLine
    ensures i < |parts| && Arrived(part, parts, i + 1, more)
  {
    hide Here, PartsAfter;
    ghost var rest := parts[i..];
    assert rest[1..] == parts[i + 1..];
    more := NextPart(part, parts[i + 1..]);
  }

  lemma HeadIs(part: LinePartIterator, parts: seq<Part>, i: nat)
    requires Arrived(part, parts, i, true)
    ensures i < |parts| && part.AtPart() && parts[i] == Part(part.targetLineInBlock, part.col, part.ptr, part.len)
  {
  }

  /** In front of part `i`: at the start of a row nothing is written and `x` says so; later a
      part to the right of another one finds the cursor in order. */
  predicate Before(parts: seq<Part>, i: nat, lay: Layout, t: nat, x: int, screen: nat)
    requires lay.last < |lay.tabstop|
  {
    && (if i == 0 then x == -1 && screen == 0 else x >= 0)
    && (i < |parts| && 0 < parts[i].col <= lay.last ==> i > 0 && Behind(lay, t, x, screen, parts[i].col))
  }

  /** The layout treats the parts of a row as it should. */
  ghost predicate TidyRow(s: Text, parts: seq<Part>, lay: Layout, t: nat)
    requires Proper(s) && Inside(s, parts)
  {
    Steps(lay, t) && forall i :: 0 <= i < |parts| ==> Fits(lay, t, SizeOf(s, parts[i]))
  }

  lemma {:induction false} RowIsTidy(s: Text, parts: seq<Part>, lay: Layout, t: nat)
    requires Proper(s) && Inside(s, parts) && Tidy(lay, t, SizesOf(s, parts))
    ensures TidyRow(s, parts, lay, t)
    decreases |parts|
  {
    hide SizeOf, Fits;
    if parts != [] {
      var sizes := SizesOf(s, parts);
      assert sizes[1..] == SizesOf(s, parts[1..]) && sizes[0] == SizeOf(s, parts[0]);
      RowIsTidy(s, parts[1..], lay, t);
      forall i | 0 <= i < |parts|
        ensures Fits(lay, t, SizeOf(s, parts[i]))
      {
        if i > 0 { assert parts[i] == parts[1..][i - 1]; }
      }
    }
  }

  /** After a plain part the cursor is in order for its right neighbour. */
  lemma BeforeNext(s: Text, parts: seq<Part>, i: nat, lay: Layout, t: nat, x0: int, screen0: nat,
                   x: int, screen: nat, width: nat)
    requires Proper(s) && Inside(s, parts) && InOrder(s, parts) && i < |parts| && TidyRow(s, parts, lay, t)
    requires width == Width(s[parts[i].pos..parts[i].pos + parts[i].len])
    requires Before(parts, i, lay, t, x0, screen0) && x >= 0
    requires KindOf(s, parts[i], lay.last) == Plain ==>
      && screen == lay.tabstop[parts[i].col] + width
      && x == CursorAfter(if parts[i].col == 0 then 0 else x0, lay.tabstop[parts[i].col]) + width
    ensures Before(parts, i + 1, lay, t, x, screen)
  {
    hide Width, Separated;
    var p := parts[i];
    if i + 1 < |parts| && 0 < parts[i + 1].col <= lay.last {
      assert parts[i + 1 - 1].col + 1 == parts[i + 1].col && Separated(s, parts[i + 1 - 1]);
      assert Fits(lay, t, SizeOf(s, p));
      BehindNext(lay, t, x - width, p.col, width);
    }
  }

  /** The lines begun so far, counted from `base`, in front of part `i`. */
  predicate CountedAt(s: Text, parts: seq<Part>, i: nat, lay: Layout, load: int)
    requires Proper(s) && Inside(s, parts) && i <= |parts| && lay.last < |lay.tabstop|
  {
    Counted(lay, load, LinesBegun(s, parts, i, lay), WantedOf(s, parts, i, lay, lay.ownLine), Wraps(s, parts, i, lay))
  }

  lemma CountedMore(s: Text, parts: seq<Part>, i: nat, lay: Layout, load: int, more: int)
    requires Proper(s) && Inside(s, parts) && i < |parts| && lay.last < |lay.tabstop|
    requires CountedAt(s, parts, i, lay, load) && Loaded(s, parts[i], lay, CursorBefore(s, parts, i, lay), more)
    ensures CountedAt(s, parts, i + 1, lay, load + more)
  {
    hide WantedOf, Added, Brought, LeadBreaks, CursorBefore, Chunked;
    WantedMore(s, parts, i, lay, lay.ownLine);
    BroughtIs(WantedOf(s, parts, i, lay, lay.ownLine), s, parts[i], lay);
  }

  /** The body of the first loop and the call of next(). */
  method PrintNext(part: LinePartIterator, write: Writer, wl: LineWrapper, wi: LineWrapper, lay: Layout, x0: int,
                   ghost parts: seq<Part>, ghost i: nat, ghost t: nat, ghost base: int,
                   ghost pre: seq<Item>, ghost now: seq<Item>)
    returns (x: int, more: bool, ghost now': seq<Item>)
    requires Arrived(part, parts, i, true) && Proper(part.Source())
    requires Inside(part.Source(), parts) && InOrder(part.Source(), parts) && parts[0].col == 0
    requires Room(lay) && TidyRow(part.Source(), parts, lay, t) && Before(parts, i, lay, t, x0, Column(0, write.out))
    requires Screen(write, wl, wi, lay, pre, now, WantedOf(part.Source(), parts, i, lay, lay.ownLine))
    requires wl.Valid() && wi.Valid() && x0 == CursorBefore(part.Source(), parts, i, lay)
    requires CountedAt(part.Source(), parts, i, lay, Load(write, wl, wi) - base)
    modifies part`ptr, part`col, part`len, part`screenlen,
             part`maxLineInBlock, part`lineInBlock, part`targetLineInBlock, part`hitTargetLine,
             write, wl`head, wl`tail, wl`wroteSomething, wl.lenbuf, wl.datbuf,
             wi`head, wi`tail, wi`wroteSomething, wi.lenbuf, wi.datbuf
    ensures i < |parts| && Arrived(part, parts, i + 1, more)
    ensures Screen(write, wl, wi, lay, pre, now', WantedOf(part.Source(), parts, i + 1, lay, lay.ownLine))
    ensures Before(parts, i + 1, lay, t, x, Column(0, write.out))
    ensures wl.Valid() && wi.Valid() && x == CursorBefore(part.Source(), parts, i + 1, lay)
    ensures CountedAt(part.Source(), parts, i + 1, lay, Load(write, wl, wi) - base)
  {
    hide Screen, Wanted, WantedOf, Added, Here, Arrived, InOrder, TidyRow, Behind, Column, Width, Lead, KindOf,
      CountedAt, Loaded, Load;
    HeadIs(part, parts, i);
    ghost var s, p := part.Source(), parts[i];
    ghost var width, screen, load := part.screenlen, Column(0, write.out), Load(write, wl, wi);
    WantedMore(s, parts, i, lay, lay.ownLine);
    x, now' := PrintPart(part, write, wl, wi, lay, x0, p, t, pre, now, WantedOf(s, parts, i, lay, lay.ownLine));
    CountedMore(s, parts, i, lay, load - base, Load(write, wl, wi) - load);
    BeforeNext(s, parts, i, lay, t, x0, screen, x, Column(0, write.out), width);
    more := NextPartOf(part, parts, i);
  }

  lemma ArrivedIs(part: LinePartIterator, parts: seq<Part>, i: nat, more: bool)
    requires Arrived(part, parts, i, more)
    ensures i <= |parts| && part.Valid() && part.OnRow() && (!more ==> i == |parts| && part.RowDone())
  {
  }

  /** The parts of a row, and a layout made for them. */
  ghost predicate RowLaidOut(part: LinePartIterator, parts: seq<Part>, lay: Layout, t: nat)
    reads part
  {
    && part.OnRow() && Proper(part.Source()) && Inside(part.Source(), parts) && InOrder(part.Source(), parts)
    && parts != [] && parts[0].col == 0 && Room(lay) && TidyRow(part.Source(), parts, lay, t)
  }

  /** The first loop: every part of the row, except a last column on lines of its own. */
  method PrintParts(part: LinePartIterator, write: Writer, wl: LineWrapper, wi: LineWrapper, lay: Layout,
                    ghost parts: seq<Part>, ghost t: nat, ghost base: int, ghost pre: seq<Item>)
    returns (ghost now: seq<Item>)
    requires part.AtRowStart() && part.Valid() && parts == RowParts(part.Source(), part.rowstart)
    requires RowLaidOut(part, parts, lay, t) && Column(0, write.out) == 0
    requires Screen(write, wl, wi, lay, pre, [], Printed([], [], []))
    requires wl.Valid() && wi.Valid() && Load(write, wl, wi) == base
    modifies part`ptr, part`col, part`len, part`screenlen,
             part`maxLineInBlock, part`lineInBlock, part`targetLineInBlock, part`hitTargetLine,
             write, wl`head, wl`tail, wl`wroteSomething, wl.lenbuf, wl.datbuf,
             wi`head, wi`tail, wi`wroteSomething, wi.lenbuf, wi.datbuf
    ensures part.Valid() && part.RowDone()
    ensures Screen(write, wl, wi, lay, pre, now, Wanted(part.Source(), parts, lay, lay.ownLine))
    ensures wl.Valid() && wi.Valid()
    ensures CountedAt(part.Source(), parts, |parts|, lay, Load(write, wl, wi) - base)
  {
    hide Screen, Wanted, WantedOf, Here, RowParts, Arrived, InOrder, Inside, TidyRow, Column, Behind, CountedAt, Load;
    ghost var s, done := part.Source(), 0;
    now := [];
    WantedEnds(s, parts, lay, lay.ownLine);
    CountedNone(s, parts, lay);
    var x := -1;
    var more := FirstPartOf(part, parts);
    ArrivedIs(part, parts, 0, more);
    while more
      invariant done <= |parts| && part.OnRow() && part.Source() == s && Arrived(part, parts, done, more)
      invariant Screen(write, wl, wi, lay, pre, now, WantedOf(s, parts, done, lay, lay.ownLine))
      invariant wl.Valid() && wi.Valid() && x == CursorBefore(s, parts, done, lay)
      invariant CountedAt(s, parts, done, lay, Load(write, wl, wi) - base)
      invariant Before(parts, done, lay, t, x, Column(0, write.out))
      decreases more, |parts| - done
    {
      x, more, now := PrintNext(part, write, wl, wi, lay, x, parts, done, t, base, pre, now);
      done := done + 1;
      ArrivedIs(part, parts, done, more);
    }
    ArrivedIs(part, parts, done, more);
  }

  lemma CountedNone(s: Text, parts: seq<Part>, lay: Layout)
    requires Proper(s) && Inside(s, parts) && lay.last < |lay.tabstop|
    ensures CountedAt(s, parts, 0, lay, 0)
  {
    WantedEnds(s, parts, lay, lay.ownLine);
  }

  /** What is wanted while the second loop is at part `i`. */
  function WantedOwn(s: Text, parts: seq<Part>, i: nat, lay: Layout): Printed
    requires Proper(s) && Inside(s, parts) && i <= |parts| && lay.last < |lay.tabstop|
  {
    Wanted(s, parts, lay, true).(
      last := ChunkItems(s, parts[..i], lay.last, InLast, lay.LastWidth(), Margin(lay.LastX())))
  }

  lemma WantedOwnMore(s: Text, parts: seq<Part>, i: nat, lay: Layout)
    requires i < |parts| && 0 < lay.last < |lay.tabstop| && Proper(s) && Inside(s, parts)
    ensures var p, want := parts[i], WantedOwn(s, parts, i, lay);
      && p.pos + p.len <= |s| && Proper(s[p.pos..p.pos + p.len])
      && WantedOwn(s, parts, i + 1, lay) ==
         if p.col == lay.last then AddedLast(want, lay, s[p.pos..p.pos + p.len]) else want
  {
    hide Chunks, Texts, Items, PlainItems;
    var p := parts[i];
    ProperPart(s, p.pos, p.pos + p.len);
    assert parts[..i + 1][..i] == parts[..i];
  }

  lemma WantedOwnEnds(s: Text, parts: seq<Part>, lay: Layout)
    requires Proper(s) && Inside(s, parts) && lay.last < |lay.tabstop|
    ensures WantedOwn(s, parts, 0, lay) == Wanted(s, parts, lay, true)
    ensures WantedOwn(s, parts, |parts|, lay) == Wanted(s, parts, lay, false)
  {
    assert parts[..0] == [] && parts[..|parts|] == parts;
  }

  /** In the second loop a line of its own for each part of the last column. */
  predicate CountedOwn(s: Text, parts: seq<Part>, i: nat, lay: Layout, load: int)
    requires Proper(s) && Inside(s, parts) && i <= |parts| && lay.last < |lay.tabstop|
  {
    var own := PartsOf(s, parts, i, lay.last, InLast);
    Counted(lay, load, LinesBegun(s, parts, |parts|, lay) + own, WantedOwn(s, parts, i, lay),
            PartsOf(s, parts, |parts|, lay.last, Interjection) + own)
  }

  lemma CountedOwnStarts(s: Text, parts: seq<Part>, lay: Layout, load: int)
    requires Proper(s) && Inside(s, parts) && lay.last < |lay.tabstop| && lay.ownLine
    requires CountedAt(s, parts, |parts|, lay, load)
    ensures CountedOwn(s, parts, 0, lay, load)
  {
    hide LinesBegun, Wanted, WantedOwn, WantedOf;
    WantedEnds(s, parts, lay, true);
    WantedOwnEnds(s, parts, lay);
    assert PartsOf(s, parts, 0, lay.last, InLast) == 0;
  }

  lemma CountedOwnMore(s: Text, parts: seq<Part>, i: nat, lay: Layout, load: int, more: int)
    requires Proper(s) && Inside(s, parts) && i < |parts| && 0 < lay.last < |lay.tabstop|
    requires CountedOwn(s, parts, i, lay, load) && Proper(s[parts[i].pos..parts[i].pos + parts[i].len])
    requires if parts[i].col == lay.last then
        lay.LastX() >= 0 ==>
          0 <= more - |Chunks(s[parts[i].pos..parts[i].pos + parts[i].len], lay.LastWidth())| <= 1
      else more == 0
    ensures CountedOwn(s, parts, i + 1, lay, load + more)
  {
    hide LinesBegun, WantedOwn, Chunks, Separated;
    WantedOwnMore(s, parts, i, lay);
  }

  /** A line of its own for a text of the last column. */
  method WrapOwn(write: Writer, wl: LineWrapper, wi: LineWrapper, lay: Layout, text: Text,
                 ghost pre: seq<Item>, ghost now: seq<Item>, ghost want: Printed)
    returns (ghost now': seq<Item>)
    requires Screen(write, wl, wi, lay, pre, now, want) && Proper(text) && wl.Valid() && wi.Valid()
    modifies write, wl`head, wl`tail, wl`wroteSomething, wl.lenbuf, wl.datbuf
    ensures Screen(write, wl, wi, lay, pre, now', AddedLast(want, lay, text)) && wl.Valid() && wi.Valid()
    ensures lay.LastX() >= 0 ==>
      0 <= Load(write, wl, wi) - old(Load(write, wl, wi)) - |Chunks(text, lay.LastWidth())| <= 1
  {
    hide Screen, AddedLast, Column, Load, Chunks, Moved, LineWrapper.Valid;
    BreakLine(write, wl, wi, lay, pre, now, want);
    ScreenReady(write, wl, wi, lay, pre, now, want);
    var _ := MoveTo(write, wl, wi, lay, 0, lay.LastX(), pre, now, want);
    ScreenReady(write, wl, wi, lay, pre, now, want);
    now' := WrapLast(write, wl, wi, lay, text, pre, now, want);
    ScreenReady(write, wl, wi, lay, pre, now', AddedLast(want, lay, text));
  }

  /** The body of the second loop. */
  method PrintOwnLine(part: LinePartIterator, write: Writer, wl: LineWrapper, wi: LineWrapper, lay: Layout,
                      ghost p: Part, ghost pre: seq<Item>, ghost now: seq<Item>, ghost want: Printed)
    returns (ghost now': seq<Item>)
    requires part.AtPart() && p == Part(part.targetLineInBlock, part.col, part.ptr, part.len)
    requires Screen(write, wl, wi, lay, pre, now, want) && Proper(part.Source()[p.pos..p.pos + p.len])
    requires wl.Valid() && wi.Valid()
    modifies write, wl`head, wl`tail, wl`wroteSomething, wl.lenbuf, wl.datbuf
    ensures Screen(write, wl, wi, lay, pre, now',
        if p.col == lay.last then AddedLast(want, lay, part.Source()[p.pos..p.pos + p.len]) else want)
    ensures wl.Valid() && wi.Valid()
    ensures var more := Load(write, wl, wi) - old(Load(write, wl, wi));
      if p.col == lay.last then
        lay.LastX() >= 0 ==> 0 <= more - |Chunks(part.Source()[p.pos..p.pos + p.len], lay.LastWidth())| <= 1
      else more == 0
  {
    hide Screen, AddedLast, Width, Here, Load, Chunks, LineWrapper.Valid;
    now' := now;
    if part.col == lay.last {
      var text := part.usage[part.rowdesc].value[part.ptr..part.ptr + part.len];
      now' := WrapOwn(write, wl, wi, lay, text, pre, now, want);
    }
  }

  /** The second loop: the last column, on lines of its own. */
  method PrintOwnLines(part: LinePartIterator, write: Writer, wl: LineWrapper, wi: LineWrapper, lay: Layout,
                       ghost parts: seq<Part>, ghost base: int, ghost pre: seq<Item>, ghost now0: seq<Item>)
    returns (ghost now: seq<Item>)
    requires part.AtRowStart() && part.Valid() && parts == RowParts(part.Source(), part.rowstart)
    requires Inside(part.Source(), parts) && 0 < lay.last < |lay.tabstop|
    requires Screen(write, wl, wi, lay, pre, now0, Wanted(part.Source(), parts, lay, true))
    requires Proper(part.Source()) && wl.Valid() && wi.Valid()
    requires CountedOwn(part.Source(), parts, 0, lay, Load(write, wl, wi) - base)
    modifies part`ptr, part`col, part`len, part`screenlen,
             part`maxLineInBlock, part`lineInBlock, part`targetLineInBlock, part`hitTargetLine,
             write, wl`head, wl`tail, wl`wroteSomething, wl.lenbuf, wl.datbuf
    ensures part.Valid() && part.RowDone()
    ensures Screen(write, wl, wi, lay, pre, now, Wanted(part.Source(), parts, lay, false))
    ensures wl.Valid() && wi.Valid() && CountedOwn(part.Source(), parts, |parts|, lay, Load(write, wl, wi) - base)
  {
    hide Screen, Wanted, WantedOwn, Here, RowParts, Arrived, Inside, AddedLast, CountedOwn, Load, Chunks,
      LineWrapper.Valid;
    ghost var s, done := part.Source(), 0;
    now := now0;
    WantedOwnEnds(s, parts, lay);
    var more := FirstPartOf(part, parts);
    ArrivedIs(part, parts, 0, more);
    while more
      invariant done <= |parts| && part.OnRow() && part.Source() == s && Arrived(part, parts, done, more)
      invariant Screen(write, wl, wi, lay, pre, now, WantedOwn(s, parts, done, lay))
      invariant wl.Valid() && wi.Valid() && CountedOwn(s, parts, done, lay, Load(write, wl, wi) - base)
      decreases more, |parts| - done
    {
      HeadIs(part, parts, done);
      WantedOwnMore(s, parts, done, lay);
      ghost var load := Load(write, wl, wi);
      now := PrintOwnLine(part, write, wl, wi, lay, parts[done], pre, now, WantedOwn(s, parts, done, lay));
      CountedOwnMore(s, parts, done, lay, load - base, Load(write, wl, wi) - load);
      more := NextPartOf(part, parts, done);
      done := done + 1;
      ArrivedIs(part, parts, done, more);
    }
    ArrivedIs(part, parts, done, more);
  }

  // ----- the end of a row

  /** What a wrapper still has reaches the screen. */
  method FlushLast(write: Writer, wl: LineWrapper, wi: LineWrapper, lay: Layout,
                   ghost pre: seq<Item>, ghost now: seq<Item>, ghost want: Printed)
    returns (ghost now': seq<Item>)
    requires Screen(write, wl, wi, lay, pre, now, want) && Column(0, write.out) == 0
    requires wl.Valid() && wi.Valid()
    modifies write, wl`tail, wl`wroteSomething
    ensures Screen(write, wl, wi, lay, pre, now', want) && Ready(wl, wi, lay) && wl.Queue() == []
    ensures Column(0, write.out) == 0
    ensures wl.Valid() && wi.Valid() && (lay.LastX() >= 0 ==> Load(write, wl, wi) == old(Load(write, wl, wi)))
  {
    hide Printing, Stored, Queued, Used, Placed, Column, Flushed, Items, Breaks;
    ghost var q, out := wl.Queue(), write.out;
    ghost var items := Items(Margin(lay.LastX()), q);
    FlushPlaces(wl.x, q);
    PlacedTogether(0, out, Flushed(wl.x, q));
    wl.Flush(write);
    now' := now + items;
    Assoc(pre, now, items);
    FlushedLast(now, items, Items(0, wi.Queue()), want);
    NoItems(Margin(lay.LastX()));
    if wl.x >= 0 {
      FlushBreaks(wl.x, q);
      BreaksTogether(out, Flushed(wl.x, q));
    }
  }

  method FlushInterjection(write: Writer, wl: LineWrapper, wi: LineWrapper, lay: Layout,
                           ghost pre: seq<Item>, ghost now: seq<Item>, ghost want: Printed)
    returns (ghost now': seq<Item>)
    requires Screen(write, wl, wi, lay, pre, now, want) && Column(0, write.out) == 0
    requires wl.Valid() && wi.Valid()
    modifies write, wi`tail, wi`wroteSomething
    ensures Screen(write, wl, wi, lay, pre, now', want) && Ready(wl, wi, lay) && wi.Queue() == []
    ensures Column(0, write.out) == 0
    ensures wl.Valid() && wi.Valid() && (Load(write, wl, wi) == old(Load(write, wl, wi)))
  {
    hide Printing, Stored, Queued, Used, Placed, Column, Flushed, Items, Breaks;
    ghost var q, out := wi.Queue(), write.out;
    ghost var items := Items(0, q);
    FlushPlaces(0, q);
    PlacedTogether(0, out, Flushed(0, q));
    wi.Flush(write);
    now' := now + items;
    Assoc(pre, now, items);
    FlushedInterjection(now, Items(Margin(lay.LastX()), wl.Queue()), items, want);
    NoItems(0);
    FlushBreaks(0, q);
    BreaksTogether(out, Flushed(0, q));
  }

  lemma NoItems(c: nat)
    ensures Items(c, []) == []
  {
  }

  lemma FlushedLast(now: seq<Item>, ql: seq<Item>, qi: seq<Item>, want: Printed)
    requires Printing(now, ql, qi, want)
    ensures Printing(now + ql, [], qi, want)
  {
    PrintingLast(now, ql, qi, want, [], |ql|);
    assert (ql + [])[..|ql|] == ql && (ql + [])[|ql|..] == [] && want.last + [] == want.last;
  }

  lemma FlushedInterjection(now: seq<Item>, ql: seq<Item>, qi: seq<Item>, want: Printed)
    requires Printing(now, ql, qi, want)
    ensures Printing(now + qi, ql, [], want)
  {
    PrintingInterjection(now, ql, qi, want, [], |qi|);
    assert (qi + [])[..|qi|] == qi && (qi + [])[|qi|..] == [] && want.interjection + [] == want.interjection;
  }

  /** The last line break and both flushes. */
  method FinishRow(write: Writer, wl: LineWrapper, wi: LineWrapper, lay: Layout,
                   ghost pre: seq<Item>, ghost now: seq<Item>, ghost want: Printed)
    returns (ghost now': seq<Item>)
    requires Screen(write, wl, wi, lay, pre, now, want) && wl.Valid() && wi.Valid()
    modifies write, wl`tail, wl`wroteSomething, wi`tail, wi`wroteSomething
    ensures Ready(wl, wi, lay) && wl.Queue() == wi.Queue() == []
    ensures Placed(0, write.out) == pre + now' && Column(0, write.out) == 0 && Shuffles(now', want)
    ensures lay.LastX() >= 0 ==> Breaks(write.out) == old(Load(write, wl, wi)) + 1
  {
    hide Screen, Shuffles, Column, Placed, Load, Breaks;
    BreakLine(write, wl, wi, lay, pre, now, want);
    ScreenReady(write, wl, wi, lay, pre, now, want);
    now' := FlushLast(write, wl, wi, lay, pre, now, want);
    now' := FlushInterjection(write, wl, wi, lay, pre, now', want);
    ScreenEnd(write, wl, wi, lay, pre, now', want);
    LoadIs(write, wl, wi);
  }

  lemma LoadIs(write: Writer, wl: LineWrapper, wi: LineWrapper)
    requires wl.Valid() && wi.Valid() && wl.Queue() == wi.Queue() == []
    ensures Load(write, wl, wi) == Breaks(write.out)
  {
  }

  lemma ScreenStart(write: Writer, wl: LineWrapper, wi: LineWrapper, lay: Layout, pre: seq<Item>)
    requires Ready(wl, wi, lay) && wl.Queue() == wi.Queue() == [] && pre == Placed(0, write.out)
    ensures Screen(write, wl, wi, lay, pre, [], Printed([], [], []))
  {
    var none := Printed([], [], []);
    assert pre + [] == pre;
    NoItems(0);
    NoItems(Margin(lay.LastX()));
    assert Missing(none, [], [], none) && Shuffles([], none);
  }

  lemma ScreenEnd(write: Writer, wl: LineWrapper, wi: LineWrapper, lay: Layout, pre: seq<Item>, now: seq<Item>,
                  want: Printed)
    requires Screen(write, wl, wi, lay, pre, now, want) && wl.Queue() == wi.Queue() == []
    ensures Placed(0, write.out) == pre + now && Shuffles(now, want)
  {
    hide Shuffles;
    NoItems(0);
    NoItems(Margin(lay.LastX()));
    var done :| Missing(done, [], [], want) && Shuffles(now, done);
    assert done.last + [] == done.last && done.interjection + [] == done.interjection;
    assert done == want;
  }

  // ----- a whole row

  /** Both wrappers are empty. */
  ghost predicate Idle(wl: LineWrapper, wi: LineWrapper, lay: Layout)
    reads wl, wl.lenbuf, wl.datbuf, wi, wi.lenbuf, wi.datbuf
  {
    Ready(wl, wi, lay) && wl.Queue() == wi.Queue() == []
  }

  /** The lines a row takes: one, one more for every further line of the grid and for every column
      that does not find room, and one for each wrapped chunk; a chunk that begins in a line
      already counted saves one, and at most one in each wrapped part. */
  ghost predicate RowLines(s: Text, parts: seq<Part>, lay: Layout, lines: int)
    requires Proper(s) && Inside(s, parts) && lay.last < |lay.tabstop|
  {
    var n := |parts|;
    var begun := 1 + LinesBegun(s, parts, n, lay) + if lay.ownLine then PartsOf(s, parts, n, lay.last, InLast) else 0;
    var wraps := PartsOf(s, parts, n, lay.last, Interjection) + PartsOf(s, parts, n, lay.last, InLast);
    Counted(lay, lines, begun, Wanted(s, parts, lay, false), wraps)
  }

  /** `now`, on so many lines, is the row on the screen: every part left of the last column that uses separators,
      at the tab stop of its column; the chunks of the lines of the last column, where that
      column starts; the chunks of the lines without separators, at the left margin; each in the
      order of the row.  Only parts behind the last column are dropped. */
  ghost predicate RowPrinted(now: seq<Item>, lines: int, usage: Usage, r: Row, lay: Layout)
    requires lay.last < |lay.tabstop|
  {
    && IsRow(usage, r)
    && var s := usage[r.desc].value;
       var parts := RowParts(s, r.start);
       Inside(s, parts) && Shuffles(now, Wanted(s, parts, lay, false)) &&
       (lay.LastX() >= 0 ==> RowLines(s, parts, lay, lines))
  }

  lemma RowIsCounted(s: Text, parts: seq<Part>, lay: Layout, load: int)
    requires Proper(s) && Inside(s, parts) && lay.last < |lay.tabstop|
    requires if lay.ownLine then CountedOwn(s, parts, |parts|, lay, load) else CountedAt(s, parts, |parts|, lay, load)
    ensures RowLines(s, parts, lay, load + 1)
  {
    hide LinesBegun, Wanted, WantedOwn, WantedOf, PartsOf;
    WantedEnds(s, parts, lay, lay.ownLine);
    WantedOwnEnds(s, parts, lay);
  }

  lemma IdleLoad(write: Writer, wl: LineWrapper, wi: LineWrapper, lay: Layout)
    requires Idle(wl, wi, lay)
    ensures wl.Valid() && wi.Valid() && Load(write, wl, wi) == Breaks(write.out)
  {
  }

  lemma IsIdle(wl: LineWrapper, wi: LineWrapper, lay: Layout)
    requires Ready(wl, wi, lay) && wl.Queue() == wi.Queue() == []
    ensures Idle(wl, wi, lay)
  {
  }

  /** Prints a row, with empty wrappers and the cursor at the left margin before and after. */
  method PrintOneRow(part: LinePartIterator, write: Writer, wl: LineWrapper, wi: LineWrapper, lay: Layout,
                     ghost t: nat)
    returns (ghost now: seq<Item>, ghost lines: int)
    requires part.AtRowStart() && part.Valid() && Idle(wl, wi, lay)
    requires RowLaidOut(part, RowParts(part.Source(), part.rowstart), lay, t) && Column(0, write.out) == 0
    modifies part`ptr, part`col, part`len, part`screenlen,
             part`maxLineInBlock, part`lineInBlock, part`targetLineInBlock, part`hitTargetLine,
             write, wl`head, wl`tail, wl`wroteSomething, wl.lenbuf, wl.datbuf,
             wi`head, wi`tail, wi`wroteSomething, wi.lenbuf, wi.datbuf
    ensures part.Valid() && part.RowDone() && Idle(wl, wi, lay)
    ensures Placed(0, write.out) == Placed(0, old(write.out)) + now && Column(0, write.out) == 0
    ensures Breaks(write.out) == Breaks(old(write.out)) + lines
    ensures RowPrinted(now, lines, part.usage, part.CurrentRow(), lay)
  {
    hide Screen, Wanted, Here, RowParts, Shuffles, Inside, InOrder, TidyRow, Column, Placed, Steps, Ready;
    ghost var pre, parts := Placed(0, write.out), RowParts(part.Source(), part.rowstart);
    ScreenStart(write, wl, wi, lay, pre);
    ghost var base := Breaks(write.out);
    IdleLoad(write, wl, wi, lay);
    hide Load, Breaks, CountedAt, CountedOwn, RowLines, LineWrapper.Queue, Idle;
    now := PrintParts(part, write, wl, wi, lay, parts, t, base, pre);
    if lay.ownLine {
      part.RestartRow();
      CountedOwnStarts(part.Source(), parts, lay, Load(write, wl, wi) - base);
      now := PrintOwnLines(part, write, wl, wi, lay, parts, base, pre, now);
    }
    RowIsCounted(part.Source(), parts, lay, Load(write, wl, wi) - base);
    now := FinishRow(write, wl, wi, lay, pre, now, Wanted(part.Source(), parts, lay, false));
    IsIdle(wl, wi, lay);
    lines := Breaks(write.out) - base;
  }
}
