/** What the usage printer writes, and where on the screen that puts each text. */
module Display {
  import opened Utf8

  /** What goes to the writer: a text, a line break, or spaces. */
  datatype Out = Wrote(text: Text) | Break | Pad(n: nat)

  class Writer {
    var out: seq<Out>

    constructor ()
      ensures out == []
    {
      out := [];
    }
  }

  // ----- indentation

  /** From column `x` to column `want`, on a new line if that is further left. */
  function Moved(x: int, want: int): seq<Out> {
    var spaces := if want < x then want else want - x;
    (if want < x then [Break] else []) + if spaces > 0 then [Pad(spaces)] else []
  }

  /** Where the cursor is thought to be then. */
  function CursorAfter(x: int, want: int): int { if want < x && want <= 0 then x else want }

  /** Moves the cursor.  It is thought to be at the wanted column afterwards, unless that is 0 or
      less and the line had to be broken. */
  method Indent(write: Writer, x: int, want: int) returns (now: int)
    modifies write
    ensures write.out == old(write.out) + Moved(x, want)
    ensures now == CursorAfter(x, want) && (now == want <==> !(want < x && want <= 0))
    ensures now != want ==> now == x
  {
    now := x;
    var indent := want - x;
    if indent < 0 {
      write.out := write.out + [Break];
      indent := want;
    }
    if indent > 0 {
      write.out := write.out + [Pad(indent)];
      now := want;
    }
  }

  // ----- the screen

  /** Screen columns of a text; only proper texts are ever written. */
  function Extent(t: Text): nat { if Proper(t) then Width(t) else |t| }

  function Onward(c: nat, o: Out): nat {
    match o
    case Wrote(t) => c + Extent(t)
    case Break => 0
    case Pad(n) => c + n
  }

  /** The column behind `out`, begun at column `c`. */
  function Column(c: nat, out: seq<Out>): nat {
    if out == [] then c else Onward(Column(c, out[..|out| - 1]), out[|out| - 1])
  }

  /** A text on the screen, and the column where it starts. */
  datatype Item = Item(text: Text, column: nat)

  /** The texts of `out` and where they are, begun at column `c`. */
  function Placed(c: nat, out: seq<Out>): seq<Item> {
    if out == [] then []
    else
      var before, o := out[..|out| - 1], out[|out| - 1];
      Placed(c, before) + if o.Wrote? then [Item(o.text, Column(c, before))] else []
  }

  lemma PlacedOne(c: nat, out: seq<Out>, o: Out)
    ensures Column(c, out + [o]) == Onward(Column(c, out), o)
    ensures Placed(c, out + [o]) == Placed(c, out) + if o.Wrote? then [Item(o.text, Column(c, out))] else []
  {
    var all := out + [o];
    assert all[..|all| - 1] == out;
  }

  lemma {:induction false} PlacedTogether(c: nat, a: seq<Out>, b: seq<Out>)
    ensures Column(c, a + b) == Column(Column(c, a), b)
    ensures Placed(c, a + b) == Placed(c, a) + Placed(Column(c, a), b)
  {
    hide Column, Placed, Onward;
    if b == [] {
      assert a + b == a;
      PlacedNone(Column(c, a));
      assert Placed(c, a) + [] == Placed(c, a);
    } else {
      var n := |b| - 1;
      PlacedTogether(c, a, b[..n]);
      assert a + b == a + b[..n] + [b[n]];
      assert b == b[..n] + [b[n]];
      PlacedOne(c, a + b[..n], b[n]);
      PlacedOne(Column(c, a), b[..n], b[n]);
    }
  }

  lemma PlacedNone(c: nat)
    ensures Column(c, []) == c && Placed(c, []) == []
  {
  }

  /** The column an indentation from the left margin leads to. */
  function Margin(x: int): nat { if x > 0 then x else 0 }

  /** If the cursor is where the screen is, or a line break is due, moving leads to the wanted
      column; nothing is written. */
  lemma MovedTo(c: nat, x: int, want: int)
    requires want < x || c == x
    ensures Column(c, Moved(x, want)) == Margin(want) && Placed(c, Moved(x, want)) == []
  {
    var spaces := if want < x then want else want - x;
    var pad := if spaces > 0 then [Pad(spaces)] else [];
    PlacedNone(c);
    if want < x {
      PlacedOne(c, [], Break);
      assert [] + [Break] == [Break];
      if spaces > 0 { PlacedOne(c, [Break], Pad(spaces)); }
      assert [Break] + [] == [Break];
    } else if spaces > 0 {
      PlacedOne(c, [], Pad(spaces));
      assert [] + pad == pad;
    }
  }

  /** Some texts, all starting at column `c`. */
  function Items(c: nat, texts: seq<Text>): (s: seq<Item>)
    ensures |s| == |texts|
  {
    seq(|texts|, i requires 0 <= i < |texts| => Item(texts[i], c))
  }

  lemma ItemsTogether(c: nat, a: seq<Text>, b: seq<Text>)
    ensures Items(c, a + b) == Items(c, a) + Items(c, b)
  {
  }

  // ----- lines

  function Breaks(out: seq<Out>): nat { multiset(out)[Break] }

  lemma BreaksTogether(a: seq<Out>, b: seq<Out>)
    ensures Breaks(a + b) == Breaks(a) + Breaks(b)
    ensures Breaks([]) == 0 && Breaks([Break]) == 1
  {
    assert multiset(a + b) == multiset(a) + multiset(b);
  }

  /** Moving breaks the line at most once, and exactly if the wanted column is further left. */
  lemma MovedBreaks(x: int, want: int)
    ensures Breaks(Moved(x, want)) == if want < x then 1 else 0
  {
    var spaces := if want < x then want else want - x;
    BreaksTogether(if want < x then [Break] else [], if spaces > 0 then [Pad(spaces)] else []);
  }
}
