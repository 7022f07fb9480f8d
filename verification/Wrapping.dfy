/** Word wrapping of one column: how a text is cut into chunks that fit the column, and the
    16-slot ring that queues the chunks until a line is written. */
module Wrapping {
  import opened Utf8
  import opened Display

  const SPACE: bv8 := 0x20
  const SLOTS := 16

  // ----- cutting a text

  /** From character start `i`, with `w` columns used: where the line must end. */
  function Fit(s: Text, width: nat, i: nat, w: nat): (r: nat)
    requires Proper(s) && i <= |s|
    ensures i <= r <= |s|
    decreases |s| - i
  {
    if i == |s| || w >= width then i
    else
      var (c, n) := CharAt(s, i);
      if w + c > width then i else Fit(s, width, n, w + c)
  }

  /** Last space at or before `i`. */
  function LastSpace(s: Text, i: nat): (r: int)
    requires i < |s|
    ensures -1 <= r <= i && (r >= 0 ==> s[r] == SPACE)
  {
    if s[i] == SPACE then i else if i == 0 then -1 else LastSpace(s, i - 1)
  }

  /** How a chunk was cut off: at a space, which is dropped; before a character; not at all. */
  datatype Cut = AtSpace | Hard | Rest

  datatype Chunk = Chunk(text: Text, cut: Cut)

  /** The first chunk of a non-empty text. */
  function FirstChunk(s: Text, width: nat): (c: Chunk)
    requires Proper(s) && s != [] && width >= 2
    ensures |c.text| <= |s| && (c.cut != Rest ==> |c.text| < |s|) && (c.cut == Hard ==> c.text != [])
  {
    if |s| <= width then Chunk(s, Rest)
    else
      var maxi := Fit(s, width, 0, 0);
      if maxi == |s| then Chunk(s, Rest)
      else
        var i := LastSpace(s, maxi);
        if i >= 0 then Chunk(s[..i], AtSpace) else Chunk(s[..maxi], Hard)
  }

  /** What follows the first chunk. */
  function AfterChunk(s: Text, c: Chunk): Text
    requires |c.text| <= |s| && (c.cut == AtSpace ==> |c.text| < |s|)
  {
    match c.cut
    case Rest => []
    case Hard => s[|c.text|..]
    case AtSpace => s[|c.text| + 1..]
  }

  function Chunks(s: Text, width: nat): (r: seq<Chunk>)
    requires Proper(s) && width >= 2
    decreases |s|
  {
    if s == [] then []
    else
      var c := FirstChunk(s, width);
      [c] + Chunks(AfterChunk(s, c), width)
  }

  // ----- nothing is lost

  /** The chunks put together again: one space where one was dropped. */
  function Rejoin(c: seq<Chunk>): Text {
    if c == [] then [] else c[0].text + (if c[0].cut == AtSpace then [SPACE] else []) + Rejoin(c[1..])
  }

  lemma FirstChunkIsPrefix(s: Text, width: nat)
    requires Proper(s) && s != [] && width >= 2
    ensures var c := FirstChunk(s, width);
      s == c.text + (if c.cut == AtSpace then [SPACE] else []) + AfterChunk(s, c)
  {
  }

  /** Wrapping loses nothing and reorders nothing. */
  lemma {:induction false} ChunksRejoin(s: Text, width: nat)
    requires Proper(s) && width >= 2
    ensures Rejoin(Chunks(s, width)) == s
    decreases |s|
  {
    if s != [] {
      var c := FirstChunk(s, width);
      ChunksRejoin(AfterChunk(s, c), width);
      FirstChunkIsPrefix(s, width);
      assert Chunks(s, width)[1..] == Chunks(AfterChunk(s, c), width);
    }
  }

  // ----- every chunk fits

  /** Width of the characters of `s` that start at or after `i` and before `p`. */
  function WidthTo(s: Text, i: nat, p: nat): nat
    requires Proper(s) && i <= |s|
    decreases |s| - i
  {
    if i >= p || i == |s| then 0 else CharAt(s, i).0 + WidthTo(s, CharAt(s, i).1, p)
  }

  /** `p` is a character start (or the end) met when scanning from `i`. */
  predicate Boundary(s: Text, i: nat, p: nat)
    requires Proper(s) && i <= |s|
    decreases |s| - i
  {
    i == p || (i < p && i < |s| && Boundary(s, CharAt(s, i).1, p))
  }

  lemma {:induction false} ContinuePrefix(ch: bv32, s: Text, i: nat, p: nat)
    requires i <= p <= |s| && Continue(ch, s, i).1 <= p
    ensures Continue(ch, s[..p], i) == Continue(ch, s, i)
    decreases |s| - i
  {
    if i < |s| && Continuation(s[i]) {
      ContinuePrefix((ch << 6) ^ (s[i] as bv32) ^ 0x80, s, i + 1, p);
    }
  }

  lemma CharPrefix(s: Text, i: nat, p: nat)
    requires Proper(s) && i < p <= |s| && CharAt(s, i).1 <= p
    ensures CharAt(s[..p], i) == CharAt(s, i)
  {
    if s[i] > 0xC1 {
      ContinuePrefix(Masked(s[i]), s, i + 1, p);
    }
  }

  lemma {:induction false} PrefixWidth(s: Text, i: nat, p: nat)
    requires Proper(s) && i <= p <= |s| && Boundary(s, i, p)
    ensures WidthFrom(s[..p], i) == WidthTo(s, i, p)
    decreases |s| - i
  {
    if i < p {
      BoundaryOrder(s, CharAt(s, i).1, p);
      CharPrefix(s, i, p);
      PrefixWidth(s, CharAt(s, i).1, p);
    }
  }

  lemma BoundaryOrder(s: Text, i: nat, p: nat)
    requires Proper(s) && i <= |s| && Boundary(s, i, p)
    ensures i <= p
  {
  }

  lemma {:induction false} FitIsBoundary(s: Text, width: nat, i: nat, w: nat)
    requires Proper(s) && i <= |s| && w <= width
    ensures var p := Fit(s, width, i, w); Boundary(s, i, p) && w + WidthTo(s, i, p) <= width
    decreases |s| - i
  {
    if i < |s| && w < width {
      var (c, n) := CharAt(s, i);
      if w + c <= width { FitIsBoundary(s, width, n, w + c); }
    }
  }

  /** A byte that continues nothing is a character start. */
  lemma {:induction false} PlainByteIsBoundary(s: Text, i: nat, p: nat)
    requires Proper(s) && i <= p < |s| && !Continuation(s[p])
    ensures Boundary(s, i, p)
    decreases |s| - i
  {
    if i < p {
      var n := CharAt(s, i).1;
      assert forall k :: i < k < n ==> Continuation(s[k]);
      PlainByteIsBoundary(s, n, p);
    }
  }

  lemma {:induction false} WidthToGrows(s: Text, i: nat, p: nat, q: nat)
    requires Proper(s) && i <= |s| && p <= q
    ensures WidthTo(s, i, p) <= WidthTo(s, i, q)
    decreases |s| - i
  {
    if i < |s| && i < p { WidthToGrows(s, CharAt(s, i).1, p, q); }
  }

  lemma FirstChunkFits(s: Text, width: nat)
    requires Proper(s) && s != [] && width >= 2
    ensures var c := FirstChunk(s, width); Proper(c.text) && Width(c.text) <= width
  {
    if |s| <= width {
      WidthAtMostLength(s, 0);
    } else {
      var maxi := Fit(s, width, 0, 0);
      FitIsBoundary(s, width, 0, 0);
      if maxi == |s| {
        PrefixWidth(s, 0, |s|);
        assert s[..|s|] == s;
      } else {
        var i := LastSpace(s, maxi);
        var p := if i >= 0 then i else maxi;
        if i >= 0 {
          assert !Continuation(SPACE);
          PlainByteIsBoundary(s, 0, p);
        }
        WidthToGrows(s, 0, p, maxi);
        PrefixWidth(s, 0, p);
      }
    }
  }

  /** No chunk is wider on the screen than the column. */
  lemma {:induction false} ChunksFit(s: Text, width: nat)
    requires Proper(s) && width >= 2
    ensures forall i :: 0 <= i < |Chunks(s, width)| ==>
      Proper(Chunks(s, width)[i].text) && Width(Chunks(s, width)[i].text) <= width
    decreases |s|
  {
    if s != [] {
      FirstChunkFits(s, width);
      ChunksFit(AfterChunk(s, FirstChunk(s, width)), width);
    }
  }

  // ----- chunks are as long as they can be

  lemma {:induction false} FitIsTight(s: Text, width: nat, i: nat, w: nat)
    requires Proper(s) && i <= |s| && w <= width
    ensures var p := Fit(s, width, i, w); p < |s| ==> w + WidthTo(s, i, p + 1) > width
    decreases |s| - i
  {
    if i < |s| && w < width {
      var (c, n) := CharAt(s, i);
      if w + c <= width { FitIsTight(s, width, n, w + c); }
    }
  }

  lemma {:induction false} LastSpaceIsLast(s: Text, i: nat)
    requires i < |s|
    ensures forall k :: LastSpace(s, i) < k <= i ==> s[k] != SPACE
  {
    if s[i] != SPACE && i > 0 { LastSpaceIsLast(s, i - 1); }
  }

  /** A chunk that was cut off could not have ended at any later space, nor at the end. */
  lemma FirstChunkIsGreedy(s: Text, width: nat, q: nat)
    requires Proper(s) && s != [] && width >= 2
    requires FirstChunk(s, width).cut != Rest
    requires |FirstChunk(s, width).text| < q <= |s| && (q == |s| || s[q] == SPACE)
    ensures Width(s[..q]) > width
  {
    var maxi := Fit(s, width, 0, 0);
    FitIsTight(s, width, 0, 0);
    LastSpaceIsLast(s, maxi);
    WidthToGrows(s, 0, maxi + 1, q);
    if q < |s| {
      assert !Continuation(SPACE);
      PlainByteIsBoundary(s, 0, q);
    } else {
      EndIsBoundary(s, 0);
    }
    PrefixWidth(s, 0, q);
  }

  lemma {:induction false} EndIsBoundary(s: Text, i: nat)
    requires Proper(s) && i <= |s|
    ensures Boundary(s, i, |s|)
    decreases |s| - i
  {
    if i < |s| { EndIsBoundary(s, CharAt(s, i).1); }
  }

  /** A chunk that was cut off before a character has no space in it or behind it, and could not
      have had one character more. */
  lemma FirstHardIsTight(s: Text, width: nat, q: nat)
    requires Proper(s) && s != [] && width >= 2 && FirstChunk(s, width).cut == Hard
    ensures var n := |FirstChunk(s, width).text|;
      && n <= |s| && (forall k :: 0 <= k <= n && k < |s| ==> s[k] != SPACE)
      && (n < q <= |s| && Boundary(s, 0, q) ==> Width(s[..q]) > width)
  {
    var maxi := Fit(s, width, 0, 0);
    FitIsTight(s, width, 0, 0);
    LastSpaceIsLast(s, maxi);
    if maxi < q <= |s| && Boundary(s, 0, q) {
      WidthToGrows(s, 0, maxi + 1, q);
      PrefixWidth(s, 0, q);
    }
  }

  /** Where a chunk of the text `s` must end: with the text if that fits; otherwise at the last
      space that lets the chunk fit; without one, behind the last character that does. */
  ghost predicate WellCut(s: Text, c: Chunk, width: nat)
    requires Proper(s)
  {
    && c.text <= s && Width(c.text) <= width
    && (c.cut == Rest <==> Width(s) <= width) && (c.cut == Rest ==> c.text == s)
    && (c.cut == AtSpace ==> |c.text| < |s| && s[|c.text|] == SPACE)
    && (c.cut == AtSpace ==> forall q :: |c.text| < q < |s| && s[q] == SPACE ==> Width(s[..q]) > width)
    && (c.cut == Hard ==> c.text != [] && forall k :: 0 <= k < |s| && k <= |c.text| ==> s[k] != SPACE)
    && (c.cut == Hard ==> forall q :: |c.text| < q <= |s| && Boundary(s, 0, q) ==> Width(s[..q]) > width)
  }

  lemma FirstIsWellCut(s: Text, width: nat)
    requires Proper(s) && s != [] && width >= 2
    ensures WellCut(s, FirstChunk(s, width), width)
  {
    var c := FirstChunk(s, width);
    FirstChunkFits(s, width);
    FirstChunkIsPrefix(s, width);
    hide FirstChunk, Boundary, WidthFrom;
    if c.cut != Rest {
      FirstChunkIsGreedy(s, width, |s|);
      assert s[..|s|] == s;
    }
    if c.cut == AtSpace {
      forall q | |c.text| < q < |s| && s[q] == SPACE
        ensures Width(s[..q]) > width
      {
        FirstChunkIsGreedy(s, width, q);
      }
    }
    if c.cut == Hard {
      FirstHardIsTight(s, width, 0);
      forall q | |c.text| < q <= |s| && Boundary(s, 0, q)
        ensures Width(s[..q]) > width
      {
        FirstHardIsTight(s, width, q);
      }
    }
  }

  /** Every chunk is well cut from the text that was left for it. */
  lemma {:induction false} ChunksAreWellCut(s: Text, width: nat, i: nat)
    requires Proper(s) && width >= 2 && i < |Chunks(s, width)|
    ensures var left := Rejoin(Chunks(s, width)[i..]);
      Proper(left) && WellCut(left, Chunks(s, width)[i], width)
    decreases i
  {
    hide WellCut, FirstChunk, Rejoin;
    ChunksRejoin(s, width);
    FirstIsWellCut(s, width);
    var c, all := FirstChunk(s, width), Chunks(s, width);
    if i == 0 {
      assert all[0..] == all;
    } else {
      ChunksAreWellCut(AfterChunk(s, c), width, i - 1);
      assert all[i..] == Chunks(AfterChunk(s, c), width)[i - 1..];
    }
  }

  // ----- chunks are whole characters

  /** The positions the scan meets are the ends of characters. */
  lemma {:induction false} BoundaryIsEnd(s: Text, i: nat, cs: seq<Text>, p: nat) returns (k: nat)
    requires Characters(cs) && i <= |s| && s[i..] == Flatten(cs) && Proper(s) && Boundary(s, i, p)
    ensures k <= |cs| && p <= |s| && s[i..p] == Flatten(cs[..k]) && s[p..] == Flatten(cs[k..])
    decreases |cs|
  {
    hide CharAt, CharColumns;
    BoundaryOrder(s, i, p);
    if i == p {
      k := 0;
      assert cs[0..] == cs;
    } else {
      FlattenStarts(cs);
      NextCharacter(s, i, cs);
      var n := i + |cs[0]|;
      BoundaryOrder(s, n, p);
      var j := BoundaryIsEnd(s, n, cs[1..], p);
      k := j + 1;
      assert cs[..k][0] == cs[0] && cs[..k][1..] == cs[1..][..j] && cs[k..] == cs[1..][j..];
      assert s[i..] == cs[0] + s[n..];
      assert s[i..p] == cs[0] + s[n..p];
    }
  }

  /** The end of the first chunk is the end of a character. */
  lemma FirstChunkEnds(s: Text, width: nat)
    requires Proper(s) && s != [] && width >= 2
    ensures var p := |FirstChunk(s, width).text|; p <= |s| && Boundary(s, 0, p) && FirstChunk(s, width).text == s[..p]
  {
    EndIsBoundary(s, 0);
    if |s| > width {
      var maxi := Fit(s, width, 0, 0);
      FitIsBoundary(s, width, 0, 0);
      if maxi < |s| && LastSpace(s, maxi) >= 0 {
        assert !Continuation(SPACE);
        PlainByteIsBoundary(s, 0, LastSpace(s, maxi));
      }
    }
    assert s[..|s|] == s;
  }

  /** The first chunk of a text is its first `k` characters; a space at which it was cut is a
      character of its own. */
  lemma FirstChunkIsWhole(cs: seq<Text>, width: nat) returns (k: nat)
    requires Characters(cs) && Proper(Flatten(cs)) && Flatten(cs) != [] && width >= 2
    ensures var c := FirstChunk(Flatten(cs), width);
      var n := if c.cut == AtSpace then k + 1 else k;
      k <= |cs| && n <= |cs| && c.text == Flatten(cs[..k]) && AfterChunk(Flatten(cs), c) == Flatten(cs[n..])
  {
    hide FirstChunk, Flatten, Boundary, Proper, Character;
    var s := Flatten(cs);
    var c := FirstChunk(s, width);
    FirstChunkEnds(s, width);
    FirstChunkIsPrefix(s, width);
    assert s[0..] == s;
    k := BoundaryIsEnd(s, 0, cs, |c.text|);
    var p := |c.text|;
    assert s[0..p] == s[..p];
    if c.cut == AtSpace {
      assert s[p] == SPACE && s[p..] == [SPACE] + s[p + 1..];
      SpaceIsCharacter(cs[k..], s[p + 1..]);
      assert cs[k..][1..] == cs[k + 1..];
    }
  }

  lemma SpaceIsCharacter(cs: seq<Text>, rest: Text)
    requires Characters(cs) && Flatten(cs) == [SPACE] + rest
    ensures cs != [] && cs[0] == [SPACE] && Flatten(cs[1..]) == rest
  {
    CharacterBytes(cs[0]);
    var c := cs[0];
    assert c[0] == (c + Flatten(cs[1..]))[0] == SPACE;
    assert |c| == 1;
    assert (c + Flatten(cs[1..]))[1..] == Flatten(cs[1..]);
    assert ([SPACE] + rest)[1..] == rest;
  }

  ghost predicate Whole(t: Text) { exists cs :: Characters(cs) && t == Flatten(cs) }

  /** No chunk of a well-formed text begins or ends within a character. */
  lemma {:induction false} ChunksAreWhole(cs: seq<Text>, width: nat)
    requires Characters(cs) && width >= 2
    ensures Proper(Flatten(cs))
    ensures forall i :: 0 <= i < |Chunks(Flatten(cs), width)| ==> Whole(Chunks(Flatten(cs), width)[i].text)
    decreases |Flatten(cs)|
  {
    FlattenStarts(cs);
    var s := Flatten(cs);
    if s != [] {
      var k := FirstChunkIsWhole(cs, width);
      var c := FirstChunk(s, width);
      var n := if c.cut == AtSpace then k + 1 else k;
      assert Whole(c.text) by { assert Characters(cs[..k]); }
      ChunksAreWhole(cs[n..], width);
    }
  }

  // ----- output

  /** Chunks on lines of their own, the first one without a break before it. */
  function Lay(x: int, chunks: seq<Text>): seq<Out> {
    if chunks == [] then []
    else
      var n := |chunks| - 1;
      Lay(x, chunks[..n]) + (if n == 0 then [] else NewLine(x)) + [Wrote(chunks[n])]
  }

  function NewLine(x: int): seq<Out> { [Break] + Moved(0, x) }

  function Flushed(x: int, q: seq<Text>): seq<Out> {
    if q == [] then [] else Moved(0, x) + Lay(x, q) + [Break]
  }

  function Texts(c: seq<Chunk>): (t: seq<Text>)
    ensures |t| == |c|
  {
    seq(|c|, i requires 0 <= i < |c| => c[i].text)
  }

  // ----- the ring

  /** The j-th slot behind `tail`. */
  function At(tail: nat, j: nat): nat {
    var i := tail + 1 + j;
    if i < SLOTS then i else i - SLOTS
  }

  /** Number of queued chunks: at most 15, one slot stays free. */
  function Used(tail: nat, head: nat): (n: nat)
    requires head < SLOTS && tail < SLOTS
    ensures n < SLOTS
  {
    if head > tail then head - tail - 1 else head + SLOTS - tail - 1
  }

  ghost predicate Stored(lens: seq<nat>, data: seq<Text>, tail: nat, n: nat) {
    && |lens| == |data| == SLOTS && tail < SLOTS && n < SLOTS
    && forall j :: 0 <= j < n ==> lens[At(tail, j)] <= |data[At(tail, j)]|
  }

  /** The queued chunks, oldest first. */
  ghost function Queued(lens: seq<nat>, data: seq<Text>, tail: nat, n: nat): (q: seq<Text>)
    requires Stored(lens, data, tail, n)
    ensures |q| == n
  {
    seq(n, j requires 0 <= j < n => data[At(tail, j)][..lens[At(tail, j)]])
  }

  /** Storing at `head` appends and overwrites no queued chunk. */
  lemma StoreAppends(lens: seq<nat>, data: seq<Text>, tail: nat, head: nat, d: Text, len: nat)
    requires head < SLOTS && tail < SLOTS && tail != head && Stored(lens, data, tail, Used(tail, head)) && len <= |d|
    ensures var n := Used(tail, head);
      && n + 1 < SLOTS && At(tail, n) == head && Used(tail, At(head, 0)) == n + 1 && At(head, 0) < SLOTS
      && Stored(lens[head := len], data[head := d], tail, n + 1)
      && Queued(lens[head := len], data[head := d], tail, n + 1) == Queued(lens, data, tail, n) + [d[..len]]
  {
    var n := Used(tail, head);
    assert forall j :: 0 <= j < n ==> At(tail, j) != head;
  }

  /** Moving `tail` on removes the oldest chunk. */
  lemma NextRemoves(lens: seq<nat>, data: seq<Text>, tail: nat, head: nat)
    requires head < SLOTS && tail < SLOTS && Used(tail, head) > 0 && Stored(lens, data, tail, Used(tail, head))
    ensures var n, t := Used(tail, head), At(tail, 0);
      && t < SLOTS && Used(t, head) == n - 1 && Stored(lens, data, t, n - 1)
      && Queued(lens, data, t, n - 1) == Queued(lens, data, tail, n)[1..]
      && lens[t] <= |data[t]| && data[t][..lens[t]] == Queued(lens, data, tail, n)[0]
  {
    var n, t := Used(tail, head), At(tail, 0);
    assert forall j :: 0 <= j < n - 1 ==> At(t, j) == At(tail, j + 1);
  }

  class LineWrapper {
    const lenbuf: array<nat>
    const datbuf: array<Text>
    const x: int
    const width: nat
    var head: nat      // index for next write
    var tail: nat      // index for next read - 1
    var wroteSomething: bool

    ghost predicate Valid()
      reads this, lenbuf, datbuf
    {
      && lenbuf.Length == SLOTS && datbuf.Length == SLOTS && width >= 2
      && head < SLOTS && tail < SLOTS
      && Stored(lenbuf[..], datbuf[..], tail, Used(tail, head))
    }

    ghost function Queue(): (q: seq<Text>)
      requires Valid()
      reads this, lenbuf, datbuf
      ensures |q| == Used(tail, head)
    {
      Queued(lenbuf[..], datbuf[..], tail, Used(tail, head))
    }

    constructor (x1: int, x2: int)
      ensures Valid() && Queue() == [] && x == x1 && width == (if x2 - x1 < 2 then 2 else x2 - x1)
      ensures fresh(lenbuf) && fresh(datbuf)
    {
      lenbuf := new nat[SLOTS];
      datbuf := new Text[SLOTS];
      x := x1;
      width := if x2 - x1 < 2 then 2 else x2 - x1;
      head := 0;
      tail := SLOTS - 1;
      wroteSomething := false;
    }

    predicate BufEmpty()
      requires head < SLOTS && tail < SLOTS
      reads this
      ensures BufEmpty() <==> Used(tail, head) == 0
    {
      At(tail, 0) == head
    }

    predicate BufFull()
      requires head < SLOTS && tail < SLOTS
      reads this
      ensures BufFull() <==> Used(tail, head) == SLOTS - 1
    {
      tail == head
    }

    method BufStore(data: Text, len: nat)
      requires Valid() && !BufFull() && len <= |data|
      modifies this`head, lenbuf, datbuf
      ensures Valid() && Queue() == old(Queue()) + [data[..len]]
    {
      StoreAppends(lenbuf[..], datbuf[..], tail, head, data, len);
      ghost var lens, dats := lenbuf[..], datbuf[..];
      lenbuf[head] := len;
      datbuf[head] := data;
      assert lenbuf[..] == lens[head := len] && datbuf[..] == dats[head := data];
      head := At(head, 0);
    }

    /** Takes the oldest chunk. */
    method BufNext()
      requires Valid() && !BufEmpty()
      modifies this`tail
      ensures Valid() && Queue() == old(Queue())[1..]
      ensures lenbuf[tail] <= |datbuf[tail]| && datbuf[tail][..lenbuf[tail]] == old(Queue())[0]
    {
      NextRemoves(lenbuf[..], datbuf[..], tail, head);
      tail := At(tail, 0);
    }

    method WriteOneLine(write: Writer)
      requires Valid()
      modifies this`tail, this`wroteSomething, write
      ensures Valid() && wroteSomething
      ensures write.out == old(write.out) + (if old(wroteSomething) then NewLine(x) else []) +
        (if old(Queue()) == [] then [] else [Wrote(old(Queue())[0])])
      ensures Queue() == if old(Queue()) == [] then [] else old(Queue())[1..]
    {
      if wroteSomething {
        write.out := write.out + [Break];
        var _ := Indent(write, 0, x);
      }
      if !BufEmpty() {
        BufNext();
        write.out := write.out + [Wrote(datbuf[tail][..lenbuf[tail]])];
      }
      wroteSomething := true;
    }

    /** Queues a chunk; a full queue gives up its oldest one first. */
    method Output(write: Writer, data: Text, len: nat)
      requires Valid() && len <= |data|
      modifies this`head, this`tail, this`wroteSomething, lenbuf, datbuf, write
      ensures Valid()
      ensures var q := old(Queue());
        if |q| == SLOTS - 1 then
          && wroteSomething && Queue() == q[1..] + [data[..len]]
          && write.out == old(write.out) + (if old(wroteSomething) then NewLine(x) else []) + [Wrote(q[0])]
        else Queue() == q + [data[..len]] && write.out == old(write.out) && wroteSomething == old(wroteSomething)
    {
      if BufFull() {
        WriteOneLine(write);
      }
      BufStore(data, len);
    }

    /** The loop of flush(). */
    method WriteQueue(write: Writer)
      requires Valid() && !wroteSomething
      modifies this`tail, this`wroteSomething, write
      ensures Valid() && Queue() == []
      ensures write.out == old(write.out) + Lay(x, old(Queue()))
    {
      hide Stored, Queued, Lay, Used, At;
      LayNone(x);
      ghost var was, all, k := write.out, Queue(), 0;
      while !BufEmpty()
        invariant Valid() && k <= |all| && Queue() == all[k..]
        invariant write.out == was + Lay(x, all[..k]) && wroteSomething == (k > 0)
        decreases |Queue()|
      {
        LayMore(was, x, all, k);
        DropOne(all, k);
        WriteOneLine(write);
        k := k + 1;
      }
      assert all[..k] == all;
    }

    /** Writes everything queued, one chunk a line, all indented, with a final line break. */
    method Flush(write: Writer)
      requires Valid()
      modifies this`tail, this`wroteSomething, write
      ensures Valid() && Queue() == []
      ensures write.out == old(write.out) + Flushed(x, old(Queue()))
    {
      hide Stored, Queued, Lay, Used, At;
      if BufEmpty() {
        return;
      }
      var _ := Indent(write, 0, x);
      wroteSomething := false;
      WriteQueue(write);
      write.out := write.out + [Break];
    }

    /** How many of `n` queued chunks one call of process() writes: enough to keep 15, and at
        least one if there is any. */
    static function Due(n: nat): (k: nat)
      ensures k <= n && n - k <= 15 && (n > 0 ==> k > 0) && (k > 1 ==> n - k == 15)
    {
      if n > SLOTS - 1 then n - (SLOTS - 1) else if n > 0 then 1 else 0
    }

    /** Cuts `data` into chunks, queues them behind the old ones and writes the oldest. */
    method Process(write: Writer, data: Text)
      requires Valid() && Proper(data)
      modifies this`head, this`tail, this`wroteSomething, lenbuf, datbuf, write
      ensures Valid()
      ensures var all := old(Queue()) + Texts(Chunks(data, width));
        var k := Due(|all|);
        Queue() == all[k..] && write.out == old(write.out) + Lay(x, all[..k])
    {
      hide Stored, Queued, Lay, Used, Chunks, FirstChunk, AfterChunk, Texts;
      LayNone(x);
      wroteSomething := false;
      var rest := data;
      ghost var all, was, k := Queue() + Texts(Chunks(data, width)), write.out, 0;
      while |rest| > 0
        invariant Valid() && Proper(rest)
        invariant k <= |all| && Queue() + Texts(Chunks(rest, width)) == all[k..]
        invariant write.out == was + Lay(x, all[..k]) && wroteSomething == (k > 0)
        invariant k > 0 ==> |Queue()| == SLOTS - 1
        decreases |rest|
      {
        ghost var q := Queue();
        var keep, next := CutFirst(rest, width);
        ChunksStep(rest, width, keep, next);
        Output(write, rest, keep);
        QueueMoves(all, k, q, rest[..keep], Texts(Chunks(rest[next..], width)));
        if |q| == SLOTS - 1 {
          LayMore(was, x, all, k);
          k := k + 1;
        }
        rest := rest[next..];
      }
      ChunksNone(width);
      assert Queue() + [] == Queue();
      if !wroteSomething {
        LayMore(was, x, all, 0);
        WriteOneLine(write);
      }
    }
  }

  /** Where process() cuts: the bytes to keep on the line and where to go on. */
  method CutFirst(rest: Text, width: nat) returns (keep: nat, next: nat)
    requires Proper(rest) && rest != [] && width >= 2
    ensures keep <= next <= |rest| && next > 0
    ensures rest[..keep] == FirstChunk(rest, width).text && rest[next..] == AfterChunk(rest, FirstChunk(rest, width))
  {
    keep, next := |rest|, |rest|;
    if |rest| > width {
      var maxi := Measure(rest, width);
      if maxi < |rest| {
        var i := FindSpace(rest, maxi);
        if i >= 0 {
          keep, next := i, i + 1;
        } else {
          FitMoves(rest, width);
          keep, next := maxi, maxi;
        }
      }
    }
  }

  /** At least one character fits on a line of two columns. */
  lemma FitMoves(s: Text, width: nat)
    requires Proper(s) && s != [] && width >= 2
    ensures Fit(s, width, 0, 0) > 0
  {
  }

  lemma ChunksNone(width: nat)
    requires width >= 2
    ensures Texts(Chunks([], width)) == []
  {
  }

  lemma ChunksStep(s: Text, width: nat, keep: nat, next: nat)
    requires Proper(s) && s != [] && width >= 2 && keep <= |s| && next <= |s|
    requires s[..keep] == FirstChunk(s, width).text && s[next..] == AfterChunk(s, FirstChunk(s, width))
    ensures Proper(s[next..])
    ensures Texts(Chunks(s, width)) == [s[..keep]] + Texts(Chunks(s[next..], width))
  {
    hide FirstChunk, Texts;
    var c := FirstChunk(s, width);
    TextsMore(c, Chunks(AfterChunk(s, c), width));
  }

  lemma TextsMore(c: Chunk, rest: seq<Chunk>)
    ensures Texts([c] + rest) == [c.text] + Texts(rest)
  {
  }

  lemma QueueMoves(all: seq<Text>, k: nat, q: seq<Text>, t: Text, later: seq<Text>)
    requires k <= |all| && q + ([t] + later) == all[k..]
    ensures (q + [t]) + later == all[k..]
    ensures q != [] ==> k < |all| && q[0] == all[k] && (q[1..] + [t]) + later == all[k + 1..]
  {
    if q != [] {
      assert all[k..][0] == q[0] && all[k..][1..] == all[k + 1..];
      assert (q + ([t] + later))[1..] == (q[1..] + [t]) + later;
    }
  }

  lemma DropOne(all: seq<Text>, k: nat)
    ensures k < |all| ==> all[k..] != [] && all[k..][0] == all[k] && all[k..][1..] == all[k + 1..]
  {
  }

  lemma LayNone(x: int)
    ensures Lay(x, []) == []
  {
  }

  lemma LayMore(was: seq<Out>, x: int, all: seq<Text>, k: nat)
    ensures k < |all| ==>
      was + Lay(x, all[..k + 1]) == was + Lay(x, all[..k]) + (if k > 0 then NewLine(x) else []) + [Wrote(all[k])]
  {
    if k < |all| { assert all[..k + 1][..k] == all[..k]; }
  }

  /** The inner loop of process(): how many bytes fit on the line. */
  method Measure(data: Text, width: nat) returns (maxi: nat)
    requires Proper(data) && width >= 2
    ensures maxi == Fit(data, width, 0, 0)
  {
    var utf8width := 0;
    maxi := 0;
    while maxi < |data| && utf8width < width
      invariant maxi <= |data| && Fit(data, width, 0, 0) == Fit(data, width, maxi, utf8width)
      decreases |data| - maxi
    {
      var charbytes := 1;
      if data[maxi] > 0xC1 {
        var ch;
        ch, charbytes := Decode(data, maxi);
        if ch >= 0x1100 && IsWideChar(ch) {
          if utf8width + 2 > width {
            break;
          }
          utf8width := utf8width + 1;
        }
      }
      utf8width := utf8width + 1;
      maxi := maxi + charbytes;
    }
  }

  method FindSpace(data: Text, maxi: nat) returns (i: int)
    requires maxi < |data|
    ensures i == LastSpace(data, maxi)
  {
    i := maxi;
    while i >= 0 && data[i] != SPACE
      invariant -1 <= i <= maxi
      invariant LastSpace(data, maxi) == if i >= 0 then LastSpace(data, i) else -1
      decreases i + 1
    {
      i := i - 1;
    }
  }

  // ----- what reaches the screen

  lemma NewLinePlaces(c: nat, x: int)
    ensures Column(c, NewLine(x)) == Margin(x) && Placed(c, NewLine(x)) == []
  {
    hide Moved;
    PlacedNone(c);
    PlacedOne(c, [], Break);
    assert [] + [Break] == [Break];
    PlacedTogether(c, [Break], Moved(0, x));
    MovedTo(0, 0, x);
  }

  /** Begun at the margin, laid out chunks all start there, and are just these chunks. */
  lemma {:induction false} LayPlaces(x: int, chunks: seq<Text>)
    ensures Placed(Margin(x), Lay(x, chunks)) == Items(Margin(x), chunks)
  {
    hide Placed, Column, NewLine;
    PlacedNone(Margin(x));
    if chunks != [] {
      var n := |chunks| - 1;
      LayPlaces(x, chunks[..n]);
      LinePlaces(Margin(x), Lay(x, chunks[..n]), x, n == 0, chunks[n]);
      ItemsTogether(Margin(x), chunks[..n], [chunks[n]]);
      assert chunks == chunks[..n] + [chunks[n]];
    }
  }

  lemma LinePlaces(c: nat, out: seq<Out>, x: int, first: bool, t: Text)
    requires first ==> out == [] && c == Margin(x)
    ensures Placed(c, out + (if first then [] else NewLine(x)) + [Wrote(t)]) == Placed(c, out) + Items(Margin(x), [t])
  {
    hide Placed, Column, NewLine;
    var line := if first then [] else NewLine(x);
    PlacedNone(c);
    PlacedTogether(c, out, line);
    NewLinePlaces(Column(c, out), x);
    PlacedOne(c, out + line, Wrote(t));
    assert Items(Margin(x), [t]) == [Item(t, Margin(x))];
    assert Placed(c, out) + [] == Placed(c, out);
  }

  /** Chunks laid out take a line each. */
  lemma {:induction false} LayBreaks(x: int, chunks: seq<Text>)
    requires x >= 0
    ensures Breaks(Lay(x, chunks)) == if chunks == [] then 0 else |chunks| - 1
  {
    hide Breaks, Moved;
    BreaksTogether([], []);
    if chunks != [] {
      var n := |chunks| - 1;
      LayBreaks(x, chunks[..n]);
      MovedBreaks(0, x);
      BreaksTogether([Break], Moved(0, x));
      BreaksTogether(Lay(x, chunks[..n]), if n == 0 then [] else NewLine(x));
      BreaksTogether(Lay(x, chunks[..n]) + (if n == 0 then [] else NewLine(x)), [Wrote(chunks[n])]);
      TextIsNoBreak(chunks[n]);
    }
  }

  lemma TextIsNoBreak(t: Text)
    ensures Breaks([Wrote(t)]) == 0
  {
  }

  lemma FlushBreaks(x: int, q: seq<Text>)
    requires x >= 0
    ensures Breaks(Flushed(x, q)) == |q|
  {
    hide Breaks, Moved, Lay;
    BreaksTogether([], []);
    if q != [] {
      MovedBreaks(0, x);
      LayBreaks(x, q);
      BreaksTogether(Moved(0, x), Lay(x, q));
      BreaksTogether(Moved(0, x) + Lay(x, q), [Break]);
    }
  }

  /** What flush() writes, begun at column 0: the queued chunks at the margin, and a line break. */
  lemma FlushPlaces(x: int, q: seq<Text>)
    ensures var out := Flushed(x, q);
      Placed(0, out) == Items(Margin(x), q) && Column(0, out) == 0
  {
    hide Placed, Column, Lay, Moved;
    PlacedNone(0);
    if q != [] {
      var lines := Moved(0, x) + Lay(x, q);
      MovedTo(0, 0, x);
      LayPlaces(x, q);
      PlacedTogether(0, Moved(0, x), Lay(x, q));
      PlacedOne(0, lines, Break);
      assert Items(Margin(x), q) + [] == Items(Margin(x), q);
    }
  }
}
