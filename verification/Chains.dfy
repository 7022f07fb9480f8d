/** Which tables are harmless, said of single words: how chains of words that take one another
    shift by one string when a word takes the first of them. */
module Chains {
  import opened Nullables
  import opened OptionTable
  import opened OptionSyntax
  import opened Reparse
  import opened Reordering
  import opened Sizing

  /** A word and the string it takes as its argument. */
  datatype Link = Link(taker: string, taken: string)

  /** The word that takes, or is to take, what follows the links. */
  function Taker(w: string, links: seq<Link>): string {
    if links == [] then w else links[|links| - 1].taken
  }

  predicate IsLink(cfg: Settings, l: Link) {
    OptionWord(l.taker) && OptionWord(l.taken) && ParseWord(cfg, l.taker, Value(l.taken)).eats
  }

  /** `w` can take the first taker; then the word that was taken is left and can take the next
      taker, and so on. */
  predicate Chain(cfg: Settings, w: string, links: seq<Link>) {
    && OptionWord(w)
    && (links != [] ==>
          var n := |links| - 1;
          && IsLink(cfg, links[n]) && Chain(cfg, w, links[..n])
          && ParseWord(cfg, Taker(w, links[..n]), Value(links[n].taker)).eats)
  }

  /** Options of the links as they stand. */
  function Pays(cfg: Settings, w: string, links: seq<Link>): nat
    requires Chain(cfg, w, links)
  {
    if links == [] then 0
    else
      var n := |links| - 1;
      Pays(cfg, w, links[..n]) + |ParseWord(cfg, links[n].taker, Value(links[n].taken)).opts|
  }

  /** Options after `w` has taken the first taker, with `y` behind the links: every word that was
      taken now stands in front of the next taker. */
  function Gains(cfg: Settings, w: string, links: seq<Link>, y: string): nat
    requires Chain(cfg, w, links)
  {
    if links == [] then 0
    else
      var n := |links| - 1;
      Gains(cfg, w, links[..n], links[n].taker) + |ParseWord(cfg, links[n].taken, Value(y)).opts|
  }

  predicate Starts(cfg: Settings, w: string, x: string) {
    OptionWord(w) && NonOption(x) && Quiet(cfg, w, Value(x))
  }

  /** No chain that begins with a word that leaves a non-option alone gains more than it pays;
      for a GNU pass none can take the terminator. */
  ghost predicate Balanced(cfg: Settings, again: bool) {
    forall w, x, links, y ::
      Starts(cfg, w, x) && Chain(cfg, w, links) ==>
        && Gains(cfg, w, links, y) <= Pays(cfg, w, links)
        && (again && Terminator(y) ==> !TakenBy(cfg, w, links, y))
  }

  lemma ChainTaker(cfg: Settings, w: string, links: seq<Link>)
    requires Chain(cfg, w, links)
    ensures OptionWord(Taker(w, links))
  {
  }

  predicate TakenBy(cfg: Settings, w: string, links: seq<Link>, y: string)
    requires Chain(cfg, w, links)
  {
    ChainTaker(cfg, w, links);
    ParseWord(cfg, Taker(w, links), Value(y)).eats
  }

  /** One link more. */
  lemma ChainMore(cfg: Settings, w: string, links: seq<Link>, l: Link)
    requires Chain(cfg, w, links) && IsLink(cfg, l) && TakenBy(cfg, w, links, l.taker)
    ensures var more := links + [l];
      && Chain(cfg, w, more) && Taker(w, more) == l.taken
      && Pays(cfg, w, more) == Pays(cfg, w, links) + |ParseWord(cfg, l.taker, Value(l.taken)).opts|
      && forall y :: Gains(cfg, w, more, y) ==
           Gains(cfg, w, links, l.taker) + |ParseWord(cfg, l.taken, Value(y)).opts|
  {
    hide ParseWord;
    var more := links + [l];
    assert more[..|more| - 1] == links;
  }

  // ----- balanced tables are harmless

  /** What is to be shown of a chain, a rest of the vector and the non-options in front of it. */
  ghost predicate Shifted(cfg: Settings, again: bool, w: string, links: seq<Link>, before: seq<string>,
                          tail: seq<string>)
    requires Chain(cfg, w, links)
  {
    var t := Run(cfg, true, tail);
    t.front != [] && TakenBy(cfg, w, links, t.front[0]) ==>
      Options(cfg, again, t.front[1..] + (before + t.NonOptions())) + Gains(cfg, w, links, t.front[0]) <=
      Options(cfg, true, tail) + Pays(cfg, w, links)
  }

  ghost predicate Small(cfg: Settings, again: bool, before: seq<string>, tail: seq<string>, n: nat) {
    Balanced(cfg, again) && HarmlessBelow(cfg, again, n) && |tail| <= n && before != [] && AllNonOptions(before)
  }

  lemma BalancedIs(cfg: Settings, again: bool, w: string, x: string, links: seq<Link>, y: string)
    requires Balanced(cfg, again) && Starts(cfg, w, x) && Chain(cfg, w, links)
    ensures Gains(cfg, w, links, y) <= Pays(cfg, w, links)
    ensures again && Terminator(y) ==> !TakenBy(cfg, w, links, y)
  {
    hide Chain, Starts, Gains, Pays, TakenBy;
  }

  lemma ShiftedSkip(cfg: Settings, again: bool, w: string, links: seq<Link>, before: seq<string>, tail: seq<string>)
    requires Chain(cfg, w, links) && tail != [] && NonOption(tail[0])
    requires Shifted(cfg, again, w, links, before + [tail[0]], tail[1..])
    ensures Shifted(cfg, again, w, links, before, tail)
  {
    hide Run, ParseWord, Chain, Gains, Pays, Options, TakenBy;
    UnfoldSkip(cfg, tail);
    OptionsSkip(cfg, tail);
    var u := Run(cfg, true, tail[1..]);
    var t := Run(cfg, true, tail);
    assert t.front == u.front && t.NonOptions() == [tail[0]] + u.NonOptions();
    assert before + t.NonOptions() == (before + [tail[0]]) + u.NonOptions();
  }

  lemma ShiftedEnd(cfg: Settings, again: bool, w: string, x: string, links: seq<Link>, before: seq<string>,
                   tail: seq<string>, n: nat)
    requires Starts(cfg, w, x) && Chain(cfg, w, links) && Small(cfg, again, before, tail, n)
    requires tail != [] && Terminator(tail[0])
    ensures Shifted(cfg, again, w, links, before, tail)
  {
    hide Run, ParseWord, Chain, Balanced, Gains, Pays, Options, TakenBy, Starts;
    UnfoldEnd(cfg, true, tail);
    BalancedIs(cfg, again, w, x, links, tail[0]);
    var t := Run(cfg, true, tail);
    var rest := before + t.NonOptions();
    assert t.front[1..] + rest == rest;
    assert rest[0] == before[0];
    OptionsSkip(cfg, rest);
  }

  /** The word that is taken takes nothing itself: the rest is in step again. */
  lemma ShiftedQuiet(cfg: Settings, again: bool, w: string, x: string, links: seq<Link>, before: seq<string>,
                     tail: seq<string>, n: nat)
    requires Starts(cfg, w, x) && Chain(cfg, w, links) && Small(cfg, again, before, tail, n)
    requires tail != [] && OptionWord(tail[0]) && Quiet(cfg, tail[0], Next(tail))
    ensures Shifted(cfg, again, w, links, before, tail)
  {
    hide Run, ParseWord, Chain, Balanced, HarmlessBelow, Gains, Pays, Options, TakenBy, Starts;
    QuietIs(cfg, tail[0], Next(tail));
    UnfoldWord(cfg, true, tail);
    OptionsWord(cfg, true, tail);
    ReplayNoMore(cfg, tail[1..], again, before, n);
    BalancedIs(cfg, again, w, x, links, tail[0]);
    var t, u := Run(cfg, true, tail), Run(cfg, true, tail[1..]);
    assert t.front[1..] + (before + t.NonOptions()) == Reordered(cfg, tail[1..], before);
  }

  /** It takes the next string: that string is left. */
  lemma ShiftedRest(cfg: Settings, before: seq<string>, tail: seq<string>)
    requires tail != [] && OptionWord(tail[0]) && ParseWord(cfg, tail[0], Next(tail)).eats
    ensures |tail| > 1 && Next(tail) == Value(tail[1])
    ensures var t := Run(cfg, true, tail);
      && t.front != [] && t.front[0] == tail[0]
      && t.front[1..] + (before + t.NonOptions()) == [tail[1]] + Reordered(cfg, tail[2..], before)
    ensures Options(cfg, true, tail) ==
      |ParseWord(cfg, tail[0], Value(tail[1])).opts| + Options(cfg, true, tail[2..])
  {
    hide Run, ParseWord, Options;
    TakesLegal(cfg, tail[0], Next(tail));
    UnfoldWord(cfg, true, tail);
    OptionsWord(cfg, true, tail);
    var t, u := Run(cfg, true, tail), Run(cfg, true, tail[2..]);
    assert t.front == tail[..2] + u.front;
    assert tail[..2][1..] == [tail[1]];
    assert t.front[1..] == [tail[1]] + u.front;
  }

  /** No chain goes on behind a string that is no option word. */
  lemma ShiftedStop(cfg: Settings, again: bool, w: string, x: string, links: seq<Link>, before: seq<string>,
                    tail: seq<string>, n: nat)
    requires Starts(cfg, w, x) && Chain(cfg, w, links) && Small(cfg, again, before, tail, n)
    requires tail != [] && OptionWord(tail[0]) && ParseWord(cfg, tail[0], Next(tail)).eats
    requires |tail| > 1 && !OptionWord(tail[1])
    ensures Shifted(cfg, again, w, links, before, tail)
  {
    hide Run, ParseWord, Chain, Balanced, HarmlessBelow, Gains, Pays, Options, TakenBy, Starts, Reordered;
    ShiftedRest(cfg, before, tail);
    ReplayNoMore(cfg, tail[2..], again, before, n);
    BalancedIs(cfg, again, w, x, links, tail[0]);
    var rest := [tail[1]] + Reordered(cfg, tail[2..], before);
    assert rest[1..] == Reordered(cfg, tail[2..], before);
    if NonOption(tail[1]) {
      OptionsSkip(cfg, rest);
    } else {
      OptionsEnd(cfg, again, rest);
    }
  }

  /** The word that was taken is left, and is one link of the chain more. */
  lemma ShiftedLink(cfg: Settings, again: bool, w: string, x: string, links: seq<Link>, before: seq<string>,
                    tail: seq<string>, n: nat)
    requires Starts(cfg, w, x) && Chain(cfg, w, links) && Small(cfg, again, before, tail, n)
    requires tail != [] && OptionWord(tail[0]) && ParseWord(cfg, tail[0], Next(tail)).eats
    requires |tail| > 1 && OptionWord(tail[1]) && IsLink(cfg, Link(tail[0], tail[1]))
    requires TakenBy(cfg, w, links, tail[0])
    requires Chain(cfg, w, links + [Link(tail[0], tail[1])]) &&
      Shifted(cfg, again, w, links + [Link(tail[0], tail[1])], before, tail[2..])
    ensures Shifted(cfg, again, w, links, before, tail)
  {
    hide Run, ParseWord, Chain, Balanced, HarmlessBelow, Gains, Pays, Options, TakenBy, Starts, Reordered, IsLink;
    ShiftedRest(cfg, before, tail);
    ReplayNoMore(cfg, tail[2..], again, before, n);
    var more, left := links + [Link(tail[0], tail[1])], Reordered(cfg, tail[2..], before);
    ChainMore(cfg, w, links, Link(tail[0], tail[1]));
    ReorderedStarts(cfg, tail[2..], before);
    BalancedIs(cfg, again, w, x, more, left[0]);
    var rest := [tail[1]] + left;
    assert rest[1..] == left && rest[2..] == left[1..] && Next(rest) == Value(left[0]);
    OptionsWord(cfg, again, rest);
    if ParseWord(cfg, tail[1], Value(left[0])).eats {
      TakerTakes(cfg, w, more, left[0]);
      if Run(cfg, true, tail[2..]).front == [] {
        ReplayNoMore(cfg, tail[2..], again, before[1..], n);
      }
    }
  }

  lemma TakerTakes(cfg: Settings, w: string, links: seq<Link>, y: string)
    requires Chain(cfg, w, links) && OptionWord(Taker(w, links)) && ParseWord(cfg, Taker(w, links), Value(y)).eats
    ensures TakenBy(cfg, w, links, y)
  {
  }

  lemma ReorderedStarts(cfg: Settings, words: seq<string>, before: seq<string>)
    requires before != []
    ensures var t, left := Run(cfg, true, words), Reordered(cfg, words, before);
      && left != [] && left[0] == (if t.front == [] then before[0] else t.front[0])
      && left[1..] == if t.front == [] then Reordered(cfg, words, before[1..])
                      else t.front[1..] + (before + t.NonOptions())
  {
    hide Run;
  }

  /** After a taken word the rest is in step again, or the string that word took is left as a
      word of its own and the chain goes on. */
  lemma {:induction false} ShiftedAll(cfg: Settings, again: bool, w: string, x: string, links: seq<Link>,
                                      before: seq<string>, tail: seq<string>, n: nat)
    requires Starts(cfg, w, x) && Chain(cfg, w, links) && Small(cfg, again, before, tail, n)
    ensures Shifted(cfg, again, w, links, before, tail)
    decreases |tail|
  {
    hide Run, ParseWord, Chain, Balanced, HarmlessBelow, Gains, Pays, Options, Starts, TakenBy, Shifted, IsLink;
    RunEmpty(cfg, true);
    if tail == [] {
      ShiftedNone(cfg, again, w, links, before, tail);
    } else if NonOption(tail[0]) {
      ShiftedAll(cfg, again, w, x, links, before + [tail[0]], tail[1..], n);
      ShiftedSkip(cfg, again, w, links, before, tail);
    } else if Terminator(tail[0]) {
      ShiftedEnd(cfg, again, w, x, links, before, tail, n);
    } else if ParseWord(cfg, tail[0], Next(tail)).illegal {
      UnfoldIllegal(cfg, true, tail);
      ShiftedNone(cfg, again, w, links, before, tail);
    } else if !ParseWord(cfg, tail[0], Next(tail)).eats {
      QuietIs(cfg, tail[0], Next(tail));
      ShiftedQuiet(cfg, again, w, x, links, before, tail, n);
    } else {
      ShiftedRest(cfg, before, tail);
      if !OptionWord(tail[1]) {
        ShiftedStop(cfg, again, w, x, links, before, tail, n);
      } else if !TakenBy(cfg, w, links, tail[0]) {
        ShiftedNone(cfg, again, w, links, before, tail);
      } else {
        LinkIs(cfg, tail[0], tail[1]);
        ChainMore(cfg, w, links, Link(tail[0], tail[1]));
        ShiftedAll(cfg, again, w, x, links + [Link(tail[0], tail[1])], before, tail[2..], n);
        ShiftedLink(cfg, again, w, x, links, before, tail, n);
      }
    }
  }

  lemma LinkIs(cfg: Settings, v: string, z: string)
    requires OptionWord(v) && OptionWord(z) && ParseWord(cfg, v, Value(z)).eats
    ensures IsLink(cfg, Link(v, z))
  {
  }

  lemma ShiftedNone(cfg: Settings, again: bool, w: string, links: seq<Link>, before: seq<string>, tail: seq<string>)
    requires Chain(cfg, w, links)
    requires Run(cfg, true, tail).front == [] || !TakenBy(cfg, w, links, Run(cfg, true, tail).front[0])
    ensures Shifted(cfg, again, w, links, before, tail)
  {
    hide Run, Options, Chain, Gains, Pays, TakenBy;
  }

  lemma {:induction false} BelowIsHarmless(cfg: Settings, again: bool, n: nat)
    requires Balanced(cfg, again)
    ensures HarmlessBelow(cfg, again, n)
  {
    hide Run, ParseWord, Balanced, Options, HarmlessBelow;
    if n == 0 {
      NoneBelow(cfg, again);
    } else {
      BelowIsHarmless(cfg, again, n - 1);
      OneMoreBelow(cfg, again, n - 1);
    }
  }

  lemma NoneBelow(cfg: Settings, again: bool)
    ensures HarmlessBelow(cfg, again, 0)
  {
  }

  lemma OneMoreBelow(cfg: Settings, again: bool, n: nat)
    requires Balanced(cfg, again) && HarmlessBelow(cfg, again, n)
    ensures HarmlessBelow(cfg, again, n + 1)
  {
    hide Run, ParseWord, Balanced, Options;
    forall w, x, before, tail | |tail| < n + 1 && OptionWord(w) && NonOption(x) && AllNonOptions(before) &&
        TakesFirst(cfg, w, x, tail)
      ensures Options(cfg, again, WithoutFirst(cfg, x, before, tail)) <= Options(cfg, true, tail)
    {
      var t, front := Run(cfg, true, tail), before + [x];
      ShiftedAll(cfg, again, w, x, [], front, tail, n);
      assert front + t.NonOptions() == before + ([x] + t.NonOptions());
    }
  }

  /** If no chain gains more than it pays, no vector at all has a second pass with more options. */
  lemma BalancedIsHarmless(cfg: Settings, again: bool)
    requires Balanced(cfg, again)
    ensures Harmless(cfg, again) && forall words :: NoMore(cfg, words, again)
  {
    hide Run, ParseWord, Balanced, Options, TakesFirst;
    forall w, x, before, tail | OptionWord(w) && NonOption(x) && AllNonOptions(before) && TakesFirst(cfg, w, x, tail)
      ensures Options(cfg, again, WithoutFirst(cfg, x, before, tail)) <= Options(cfg, true, tail)
    {
      BelowIsHarmless(cfg, again, |tail| + 1);
    }
    NoMoreExactlyWhenHarmless(cfg, again);
  }

  // ----- harmless tables are balanced

  /** The strings of the links. */
  function Strings(links: seq<Link>): seq<string> {
    if links == [] then [] else Strings(links[..|links| - 1]) + [links[|links| - 1].taker, links[|links| - 1].taken]
  }

  /** In front of any tail a GNU pass consumes the links one by one. */
  lemma {:induction false} LinksAreConsumed(cfg: Settings, w: string, links: seq<Link>, tail: seq<string>)
    requires Chain(cfg, w, links)
    ensures var r, t := Run(cfg, true, Strings(links) + tail), Run(cfg, true, tail);
      r.front == Strings(links) + t.front && r.NonOptions() == t.NonOptions()
    ensures Options(cfg, true, Strings(links) + tail) == Pays(cfg, w, links) + Options(cfg, true, tail)
    decreases |links|
  {
    hide Run, ParseWord, Options;
    if links == [] {
      assert Strings(links) + tail == tail;
    } else {
      var n := |links| - 1;
      var pair := [links[n].taker, links[n].taken];
      var more := pair + tail;
      assert Strings(links) + tail == Strings(links[..n]) + more;
      LinksAreConsumed(cfg, w, links[..n], more);
      TakesLegal(cfg, more[0], Value(more[1]));
      UnfoldWord(cfg, true, more);
      OptionsWord(cfg, true, more);
      assert more[2..] == tail && more[..2] == pair;
      assert Strings(links[..n]) + (pair + Run(cfg, true, tail).front) == Strings(links) + Run(cfg, true, tail).front;
    }
  }

  /** What a pass performs in front of `rest` that has come upon the word `q`. */
  function Left(cfg: Settings, again: bool, q: string, rest: seq<string>): nat
    requires OptionWord(q) && rest != []
  {
    var p := ParseWord(cfg, q, Value(rest[0]));
    if p.illegal then 0 else if p.eats then Options(cfg, again, rest[1..]) else Options(cfg, again, rest)
  }

  lemma LeftIs(cfg: Settings, again: bool, q: string, rest: seq<string>)
    requires OptionWord(q) && rest != []
    ensures Options(cfg, again, [q] + rest) == |ParseWord(cfg, q, Value(rest[0])).opts| + Left(cfg, again, q, rest)
  {
    hide ParseWord, Options;
    var all := [q] + rest;
    assert all[1..] == rest && all[2..] == rest[1..] && Next(all) == Value(rest[0]);
    OptionsWord(cfg, again, all);
    if ParseWord(cfg, q, Value(rest[0])).eats { TakesLegal(cfg, q, Value(rest[0])); }
  }

  /** Without its first string, the chain is read one string further on. */
  lemma {:induction false} LinksShifted(cfg: Settings, again: bool, w: string, links: seq<Link>, rest: seq<string>)
    requires Chain(cfg, w, links) && links != [] && rest != []
    ensures OptionWord(Taker(w, links)) && Strings(links) != []
    ensures Options(cfg, again, Strings(links)[1..] + rest) ==
      Gains(cfg, w, links, rest[0]) + Left(cfg, again, Taker(w, links), rest)
    decreases |links|
  {
    hide ParseWord, Options, Left;
    var n := |links| - 1;
    var v, z := links[n].taker, links[n].taken;
    LeftIs(cfg, again, z, rest);
    if n == 0 {
      assert Strings(links) == [v, z];
      assert Strings(links)[1..] + rest == [z] + rest;
    } else {
      var more := [v, z] + rest;
      LinksShifted(cfg, again, w, links[..n], more);
      assert Strings(links)[1..] + rest == Strings(links[..n])[1..] + more;
      TakesLegal(cfg, Taker(w, links[..n]), Value(v));
      LeftTakes(cfg, again, Taker(w, links[..n]), more);
      assert more[1..] == [z] + rest;
    }
  }

  lemma LeftTakes(cfg: Settings, again: bool, q: string, rest: seq<string>)
    requires OptionWord(q) && rest != [] && ParseWord(cfg, q, Value(rest[0])).eats
    ensures Left(cfg, again, q, rest) == Options(cfg, again, rest[1..])
  {
    TakesLegal(cfg, q, Value(rest[0]));
  }

  /** The first taker is the first string. */
  lemma {:induction false} ChainStarts(cfg: Settings, w: string, links: seq<Link>)
    requires Chain(cfg, w, links) && links != []
    ensures Strings(links) != [] && ParseWord(cfg, w, Value(Strings(links)[0])).eats
    decreases |links|
  {
    hide ParseWord;
    if |links| > 1 {
      ChainStarts(cfg, w, links[..|links| - 1]);
    } else {
      assert links[..0] == [];
    }
  }

  /** A vector for a chain and a string behind it that is no option word. */
  lemma ChainCosts(cfg: Settings, again: bool, w: string, x: string, links: seq<Link>, y: string)
    requires Harmless(cfg, again) && Starts(cfg, w, x) && Chain(cfg, w, links) && !OptionWord(y)
    ensures Gains(cfg, w, links, y) <= Pays(cfg, w, links)
  {
    hide Run, ParseWord, Options, Chain, Left, Gains, Pays;
    if links == [] {
      NoLinks(cfg, w, y);
    } else {
      var end := if NonOption(y) then [] else [y];
      var before := if NonOption(y) then [y] else [];
      RunEmpty(cfg, true);
      OptionsNone(cfg, true);
      if !NonOption(y) { UnfoldEnd(cfg, true, end); OptionsEnd(cfg, true, end); }
      assert end != [] ==> end[1..] == [] && end[..1] == end;
      LinksAreConsumed(cfg, w, links, end);
      ChainStarts(cfg, w, links);
      var tail := Strings(links) + end;
      assert TakesFirst(cfg, w, x, tail);
      var rest := end + (before + [x]);
      assert WithoutFirst(cfg, x, before, tail) == Strings(links)[1..] + rest;
      LinksShifted(cfg, again, w, links, rest);
    }
  }

  lemma NoLinks(cfg: Settings, w: string, y: string)
    requires Chain(cfg, w, [])
    ensures Gains(cfg, w, [], y) == Pays(cfg, w, []) == 0
  {
  }

  function Many(w: string, x: string, n: nat): seq<string> {
    if n == 0 then [] else [w, x] + Many(w, x, n - 1)
  }

  lemma {:induction false} ManyOptions(cfg: Settings, w: string, x: string, n: nat)
    requires Starts(cfg, w, x)
    ensures Options(cfg, true, Many(w, x, n)) == n * |ParseWord(cfg, w, Value(x)).opts|
  {
    hide Run, ParseWord, Options;
    if n == 0 {
      OptionsNone(cfg, true);
    } else {
      var all, rest := Many(w, x, n), Many(w, x, n - 1);
      var one := |ParseWord(cfg, w, Value(x)).opts|;
      ManyOptions(cfg, w, x, n - 1);
      QuietIs(cfg, w, Value(x));
      OptionsWord(cfg, true, all);
      OptionsSkip(cfg, all[1..]);
      assert all[1..][1..] == rest;
      assert n * one == one + (n - 1) * one;
    }
  }

  /** A word that takes one string and leaves another alone performs an option. */
  lemma TakerPerforms(cfg: Settings, w: string, x: string, y: string)
    requires Starts(cfg, w, x) && ParseWord(cfg, w, Value(y)).eats
    ensures |ParseWord(cfg, w, Value(x)).opts| > 0
  {
    hide ParseWord;
    TakesLegal(cfg, w, Value(y));
    WordTakes(cfg, w, Value(x), Value(y));
  }

  /** For a GNU pass: with the terminator gone, everything behind it is parsed. */
  lemma ChainLeavesTerminator(cfg: Settings, w: string, x: string, links: seq<Link>, y: string)
    requires Harmless(cfg, true) && Starts(cfg, w, x) && Chain(cfg, w, links) && Terminator(y)
    ensures !TakenBy(cfg, w, links, y)
  {
    hide Run, ParseWord, Options, Chain, Starts, Gains, Pays, Left, TakesFirst, WithoutFirst, Terminator;
    if TakenBy(cfg, w, links, y) {
      var many := Many(w, x, Pays(cfg, w, links) + 1);
      var tail := [y] + many;
      UnfoldEnd(cfg, true, tail);
      OptionsEnd(cfg, true, tail);
      assert tail[1..] == many && tail[..1] == [y];
      LinksAreConsumed(cfg, w, links, tail);
      TakenFirst(cfg, w, x, links, y, many);
      TakenCounts(cfg, w, x, links, y, many);
      HarmlessHere(cfg, w, x, Strings(links) + tail);
      ManyIsMore(cfg, w, x, Strings(links) + tail, Pays(cfg, w, links));
    }
  }

  lemma HarmlessHere(cfg: Settings, w: string, x: string, tail: seq<string>)
    requires Harmless(cfg, true) && Starts(cfg, w, x) && TakesFirst(cfg, w, x, tail)
    ensures Options(cfg, true, WithoutFirst(cfg, x, [], tail)) <= Options(cfg, true, tail)
  {
    hide Options, TakesFirst, WithoutFirst;
  }

  lemma TakenFirst(cfg: Settings, w: string, x: string, links: seq<Link>, y: string, many: seq<string>)
    requires Starts(cfg, w, x) && Chain(cfg, w, links) && Terminator(y) && TakenBy(cfg, w, links, y)
    ensures TakesFirst(cfg, w, x, Strings(links) + ([y] + many))
  {
    hide Run, ParseWord;
    var tail := [y] + many;
    UnfoldEnd(cfg, true, tail);
    LinksAreConsumed(cfg, w, links, tail);
    if links == [] {
      assert Strings(links) == [] && tail[..1] == [y];
    } else {
      ChainStarts(cfg, w, links);
    }
  }

  lemma TakenCounts(cfg: Settings, w: string, x: string, links: seq<Link>, y: string, many: seq<string>)
    requires Starts(cfg, w, x) && Chain(cfg, w, links) && Terminator(y) && TakenBy(cfg, w, links, y)
    ensures Options(cfg, true, many) <=
      Options(cfg, true, WithoutFirst(cfg, x, [], Strings(links) + ([y] + many)))
  {
    hide Run, ParseWord, Options, Left;
    var tail := [y] + many;
    UnfoldEnd(cfg, true, tail);
    assert tail[1..] == many && tail[..1] == [y];
    LinksAreConsumed(cfg, w, links, tail);
    OptionsSkip(cfg, [x] + many);
    assert ([x] + many)[1..] == many;
    var all := WithoutFirst(cfg, x, [], Strings(links) + tail);
    if links == [] {
      assert Strings(links) == [] && [y][1..] == [];
      assert all == [x] + many;
    } else {
      var rest := [y] + ([x] + many);
      assert all == Strings(links)[1..] + rest;
      LinksShifted(cfg, true, w, links, rest);
      LeftTakes(cfg, true, Taker(w, links), rest);
      assert rest[1..] == [x] + many;
    }
  }

  lemma ManyIsMore(cfg: Settings, w: string, x: string, tail: seq<string>, n: nat)
    requires Starts(cfg, w, x) && TakesFirst(cfg, w, x, tail)
    ensures Options(cfg, true, Many(w, x, n + 1)) > n
  {
    hide Run, ParseWord, Options;
    ManyOptions(cfg, w, x, n + 1);
    TakerPerforms(cfg, w, x, Run(cfg, true, tail).front[0]);
    var one := |ParseWord(cfg, w, Value(x)).opts|;
    assert (n + 1) * one >= n + 1;
  }

  /** No word performs more in front of some string than in front of each one that is no option
      word: what it rejects there it rejects everywhere. */
  ghost predicate Fair(cfg: Settings) {
    forall z, y :: OptionWord(z) ==> FairAt(cfg, z, y)
  }

  ghost predicate FairAt(cfg: Settings, z: string, y: string)
    requires OptionWord(z)
  {
    exists y' :: !OptionWord(y') && |ParseWord(cfg, z, Value(y)).opts| <= |ParseWord(cfg, z, Value(y')).opts|
  }

  /** A check that accepts or declines some separate argument does so with one that is no option
      word. */
  ghost predicate FairCheck(check: CheckArg) {
    forall name, y :: Unattached(name) && check(name, Value(y)) != ArgIllegal ==> Lenient(check, name)
  }

  ghost predicate Lenient(check: CheckArg, name: string) {
    exists y' :: !OptionWord(y') && check(name, Value(y')) != ArgIllegal
  }

  /** The check of option `desc` does not reject `y'` if it does not reject `y`. */
  predicate NoWorse(usage: seq<Descriptor>, desc: nat, name: string, y: string, y': string) {
    desc < |usage| && usage[desc].check(name, Value(y)) != ArgIllegal ==>
      usage[desc].check(name, Value(y')) != ArgIllegal
  }

  lemma {:induction false} ShortRunNoWorse(usage: seq<Descriptor>, param: string, k: nat, y: string, y': string)
    requires k < |param|
    requires var last := param[|param| - 1];
      NoWorse(usage, Resolve(usage, First(usage, Short(last), 0)), [last], y, y')
    ensures |ShortRun(usage, param, k, Value(y)).opts| <= |ShortRun(usage, param, k, Value(y')).opts|
    decreases |param| - k
  {
    hide First;
    if k + 1 < |param| {
      ShortRunNoWorse(usage, param, k + 1, y, y');
    } else {
      assert param[k..] == [param[k]];
      assert ShortRun(usage, param, k + 1, Value(y)) == ShortRun(usage, param, k + 1, Value(y')) == NOTHING;
    }
  }

  lemma FairWitness(usage: seq<Descriptor>, desc: nat, name: string, y: string) returns (y': string)
    requires (forall i :: 0 <= i < |usage| ==> FairCheck(usage[i].check)) && Unattached(name)
    ensures !OptionWord(y') && NoWorse(usage, desc, name, y, y')
  {
    y' := "";
    if desc < |usage| && usage[desc].check(name, Value(y)) != ArgIllegal {
      assert FairCheck(usage[desc].check);
      assert Lenient(usage[desc].check, name);
      y' :| !OptionWord(y') && usage[desc].check(name, Value(y')) != ArgIllegal;
    }
  }

  lemma LongFair(cfg: Settings, param: string, longName: string, idx: nat, y: string) returns (y': string)
    requires forall i :: 0 <= i < |cfg.usage| ==> FairCheck(cfg.usage[i].check)
    requires idx <= |cfg.usage| && (param == "-" + longName || param == "--" + longName)
    ensures !OptionWord(y')
    ensures |LongStep(cfg.usage, param, longName, idx, Value(y)).opts| <=
      |LongStep(cfg.usage, param, longName, idx, Value(y')).opts|
  {
    y' := "";
    if Equals(longName) == |longName| {
      var dashes := if param == "-" + longName then "-" else "--";
      EqualsPrefix(dashes[1..], longName);
      assert param[1..] == dashes[1..] + longName;
      y' := FairWitness(cfg.usage, Resolve(cfg.usage, idx), param, y);
    }
  }

  /** Fairness of every check makes a table fair. */
  lemma FairChecks(cfg: Settings)
    requires forall i :: 0 <= i < |cfg.usage| ==> FairCheck(cfg.usage[i].check)
    ensures Fair(cfg)
  {
    hide ShortRun, LongStep, FairCheck, NoWorse, First, FindLong;
    forall z, y | OptionWord(z)
      ensures FairAt(cfg, z, y)
    {
      var y';
      if z[1] == '-' {
        assert z == "--" + z[2..];
        y' := LongFair(cfg, z, z[2..], FindLong(cfg, z[2..]), y);
      } else if cfg.singleMinus && FindLong(cfg, z[1..]) < |cfg.usage| {
        assert z == "-" + z[1..];
        y' := LongFair(cfg, z, z[1..], FindLong(cfg, z[1..]), y);
      } else {
        var last := z[|z| - 1];
        y' := FairWitness(cfg.usage, Resolve(cfg.usage, First(cfg.usage, Short(last), 0)), [last], y);
        ShortRunNoWorse(cfg.usage, z, 1, y, y');
      }
    }
  }

  lemma GainsGrow(cfg: Settings, w: string, links: seq<Link>, y: string, y': string)
    requires Chain(cfg, w, links) && OptionWord(Taker(w, links))
    requires |ParseWord(cfg, Taker(w, links), Value(y)).opts| <= |ParseWord(cfg, Taker(w, links), Value(y')).opts|
    ensures Gains(cfg, w, links, y) <= Gains(cfg, w, links, y')
  {
  }

  /** The sizing promise for vectors reordered by the sizing pass, decided by chains of words: if
      the table is fair, it holds for every vector exactly if no chain gains more than it pays. */
  lemma NoMoreExactlyWhenBalanced(cfg: Settings, again: bool)
    requires Fair(cfg)
    ensures Balanced(cfg, again) <==> forall words :: NoMore(cfg, words, again)
  {
    hide NoMore, Harmless, Run, ParseWord, Options, Chain, Starts, Gains, Pays, TakenBy;
    NoMoreExactlyWhenHarmless(cfg, again);
    if Balanced(cfg, again) { BalancedIsHarmless(cfg, again); }
    if Harmless(cfg, again) {
      forall w, x, links, y | Starts(cfg, w, x) && Chain(cfg, w, links)
        ensures Gains(cfg, w, links, y) <= Pays(cfg, w, links)
        ensures again && Terminator(y) ==> !TakenBy(cfg, w, links, y)
      {
        ChainTaker(cfg, w, links);
        assert FairAt(cfg, Taker(w, links), y);
        var y' :| !OptionWord(y') && |ParseWord(cfg, Taker(w, links), Value(y)).opts| <=
          |ParseWord(cfg, Taker(w, links), Value(y')).opts|;
        ChainCosts(cfg, again, w, x, links, y');
        GainsGrow(cfg, w, links, y, y');
        if again && Terminator(y) { ChainLeavesTerminator(cfg, w, x, links, y); }
      }
    }
  }
}
