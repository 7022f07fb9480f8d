/** The layout of a table in plain arithmetic: how wide its columns are and what the two
    percentages do. */
module LayoutMeaning {
  import opened ColumnWidths

  // ----- the columns

  /** `w` is the width of the widest part below the threshold `t` in column `c`, interjections not
      counted; 0 if there is none. */
  ghost predicate IsWidest(sizes: seq<Size>, c: nat, t: nat, w: nat) {
    && (forall i :: 0 <= i < |sizes| && sizes[i].col == c && sizes[i].counts && sizes[i].width < t ==>
          sizes[i].width <= w)
    && (w != 0 ==> exists i :: 0 <= i < |sizes| && sizes[i] == Size(c, w, true) && w < t)
  }

  lemma {:induction false} WidestIs(sizes: seq<Size>, c: nat, t: nat)
    ensures IsWidest(sizes, c, t, Widest(sizes, c, t))
  {
    if sizes != [] {
      WidestIs(sizes[1..], c, t);
      var w := Widest(sizes, c, t);
      if w != 0 && w == Widest(sizes[1..], c, t) {
        var i :| 0 <= i < |sizes| - 1 && sizes[1..][i] == Size(c, w, true);
        assert sizes[i + 1] == Size(c, w, true);
      }
      forall i | 0 <= i < |sizes| && sizes[i].col == c && sizes[i].counts && sizes[i].width < t
        ensures sizes[i].width <= w
      {
        if i > 0 { assert sizes[1..][i - 1] == sizes[i]; }
      }
    }
  }

  /** `last` is the last of the first eight columns that has a part. */
  ghost predicate IsLast(sizes: seq<Size>, last: nat) {
    && last < 8 && (forall i :: 0 <= i < |sizes| && sizes[i].col < 8 ==> sizes[i].col <= last)
    && (last != 0 ==> exists i :: 0 <= i < |sizes| && sizes[i].col == last)
  }

  lemma {:induction false} LastIs(sizes: seq<Size>)
    ensures IsLast(sizes, LastColumn(sizes))
  {
    if sizes != [] {
      LastIs(sizes[1..]);
      var last := LastColumn(sizes);
      if last != 0 && last == LastColumn(sizes[1..]) {
        var i :| 0 <= i < |sizes| - 1 && sizes[1..][i].col == last;
        assert sizes[i + 1].col == last;
      }
      forall i | 0 <= i < |sizes| && sizes[i].col < 8
        ensures sizes[i].col <= last
      {
        if i > 0 { assert sizes[1..][i - 1] == sizes[i]; }
      }
    }
  }

  function Sum(w: seq<nat>): nat {
    if w == [] then 0 else Sum(w[..|w| - 1]) + w[|w| - 1]
  }

  /** `w` are the widths of the first columns under threshold `t`. */
  ghost predicate AreWidths(sizes: seq<Size>, t: nat, w: seq<nat>) {
    forall c :: 0 <= c < |w| ==> IsWidest(sizes, c, t, w[c])
  }

  lemma {:induction false} TotalIsSum(sizes: seq<Size>, t: nat, w: seq<nat>)
    requires forall c :: 0 <= c < |w| ==> w[c] == Widest(sizes, c, t)
    ensures Total(sizes, |w|, t) == Sum(w)
  {
    hide Widest;
    if w != [] { TotalIsSum(sizes, t, w[..|w| - 1]); }
  }

  lemma {:induction false} WidestOnlyOne(sizes: seq<Size>, c: nat, t: nat, w: nat)
    requires IsWidest(sizes, c, t, w)
    ensures w == Widest(sizes, c, t)
  {
    WidestIs(sizes, c, t);
  }

  /** Under the threshold of the layout everything left of the last column fits; under any greater
      one, up to 10000, it would not. */
  lemma ThresholdIsGreatest(sizes: seq<Size>, width: nat, u: nat, w: seq<nat>)
    requires AreWidths(sizes, u, w) && |w| == LastColumn(sizes)
    ensures u == Best(sizes, width, 10000) ==> Sum(w) <= width
    ensures Best(sizes, width, 10000) < u <= 10000 ==> Sum(w) > width
  {
    forall c | 0 <= c < |w| ensures w[c] == Widest(sizes, c, u) { WidestOnlyOne(sizes, c, u, w[c]); }
    TotalIsSum(sizes, u, w);
    assert Left(sizes, u) == Sum(w);
    BestFits(sizes, width, 10000);
  }

  // ----- the percentages

  /** Percentages are rounded to the nearest, halves up. */
  lemma PercentIs(width: nat, percent: int)
    ensures var p, n := Percent(width, percent), width * percent + 50;
      if n >= 0 then 100 * p <= n < 100 * p + 100 else 100 * p - 100 < n <= 100 * p
  {
    var n := width * percent + 50;
    if n < 0 {
      assert -n == 100 * ((-n) / 100) + (-n) % 100;
    }
  }

  /** How wide a last column on lines of its own is: the share asked for, rounded, and never 0. */
  predicate OwnShare(width: nat, percent: int, right: int) {
    var n := width * percent + 50;
    if -100 < n < 100 then right == 1
    else if n >= 0 then 100 * right <= n < 100 * right + 100
    else 100 * right - 100 < n <= 100 * right
  }

  /** What the last column gets.  The line has `rest` columns left for it.  If that is less than the
      share asked for, and less than its widest part needs, it gets its own share of the width
      and, unless it is the only column, lines of its own; otherwise it gets the rest. */
  lemma LastColumnGets(sizes: seq<Size>, width: nat, minPercent: int, ownPercent: int, w: nat)
    requires IsWidest(sizes, LastColumn(sizes), Best(sizes, width, 10000), w)
    ensures var r := LayoutOf(sizes, width, minPercent, ownPercent);
      && r.last < |r.tabstop| && r.width == width
      && var rest := width - r.tabstop[r.last];
         var crowded := 100 * rest + 100 <= width * minPercent + 50 && (w == 0 || rest < w);
         && (r.ownLine <==> crowded && r.last > 0)
         && (crowded ==> OwnShare(width, ownPercent, r.right))
         && (!crowded ==> r.right == rest)
  {
    var t := Best(sizes, width, 10000);
    WidestOnlyOne(sizes, LastColumn(sizes), t, w);
    PercentIs(width, minPercent);
    PercentIs(width, ownPercent);
    LayoutFits(sizes, width, minPercent, ownPercent);
    hide Percent, Widest, Total, LastColumn, Best;
  }

  /** Tab stops: the first is the margin, and from one to the next it is the width of the column. */
  lemma TabStopsAre(sizes: seq<Size>, width: nat, minPercent: int, ownPercent: int)
    ensures var r := LayoutOf(sizes, width, minPercent, ownPercent);
      && |r.tabstop| == 8 && IsLast(sizes, r.last) && r.tabstop[0] == 0
      && forall c :: 0 <= c < 7 ==>
           r.tabstop[c] <= r.tabstop[c + 1] &&
           IsWidest(sizes, c, Best(sizes, width, 10000), r.tabstop[c + 1] - r.tabstop[c])
  {
    hide Percent, Widest, LastColumn, Best, IsWidest;
    LastIs(sizes);
    forall c: nat | c < 7
      ensures IsWidest(sizes, c, Best(sizes, width, 10000), Widest(sizes, c, Best(sizes, width, 10000)))
    {
      WidestIs(sizes, c, Best(sizes, width, 10000));
    }
  }
}
