/** Exactly when a vector reordered by a GNU pass means the same to a second pass. */
module Reordering {
  import opened Nullables
  import opened OptionTable
  import opened OptionSyntax
  import opened Reparse

  // ----- words that leave the next string alone

  /** The option word `w`, followed by `x`, is accepted and does not take `x`. */
  predicate Quiet(cfg: Settings, w: string, x: Nullable<string>)
    requires OptionWord(w)
  {
    var p := ParseWord(cfg, w, x);
    !p.illegal && !p.eats
  }

  /** Two words that differ in what they do with the next string: where `p` kept its last
      option without argument, `q` gave it the string. */
  predicate Takes(p: Word, q: Word) {
    |p.opts| == |q.opts| > 0 && p.opts[|p.opts| - 1].arg == Null && q.opts[|q.opts| - 1].arg.Value?
  }

  lemma {:induction false} ShortRunTakes(usage: seq<Descriptor>, param: string, k: nat, x: Nullable<string>,
                                         y: Nullable<string>)
    requires var p := ShortRun(usage, param, k, x); !p.illegal && !p.eats
    requires !ShortRun(usage, param, k, y).illegal
    ensures var p, q := ShortRun(usage, param, k, x), ShortRun(usage, param, k, y);
      if q.eats then Takes(p, q) else p == q
    decreases |param| - k
  {
    if k + 1 == |param| {
      LastTakes(usage, param, x, y);
    } else if k + 1 < |param| {
      var desc := Resolve(usage, First(usage, Short(param[k]), 0));
      if desc == |usage| || usage[desc].check(param[k..], Value(param[k + 1..])) !in {ArgIllegal, ArgOk} {
        ShortRunTakes(usage, param, k + 1, x, y);
      }
    }
  }

  lemma LastTakes(usage: seq<Descriptor>, param: string, x: Nullable<string>, y: Nullable<string>)
    requires param != ""
    requires var p := ShortRun(usage, param, |param| - 1, x); !p.illegal && !p.eats
    requires !ShortRun(usage, param, |param| - 1, y).illegal
    ensures var p, q := ShortRun(usage, param, |param| - 1, x), ShortRun(usage, param, |param| - 1, y);
      if q.eats then Takes(p, q) else p == q
  {
    var k := |param| - 1;
    assert ShortRun(usage, param, k + 1, x) == ShortRun(usage, param, k + 1, y) == NOTHING;
  }

  /** A quiet word, accepted in front of another string too, either takes that string or is
      the same word. */
  lemma WordTakes(cfg: Settings, w: string, x: Nullable<string>, y: Nullable<string>)
    requires OptionWord(w) && Quiet(cfg, w, x) && !ParseWord(cfg, w, y).illegal
    ensures var p, q := ParseWord(cfg, w, x), ParseWord(cfg, w, y); if q.eats then Takes(p, q) else p == q
  {
    if w[1] != '-' && !(cfg.singleMinus && FindLong(cfg, w[1..]) < |cfg.usage|) {
      ShortRunTakes(cfg.usage, w, 1, x, y);
    }
  }

  // ----- the condition

  /** `y` can begin a vector that a GNU pass accepts. */
  ghost predicate Starts(cfg: Settings, y: string) {
    OptionWord(y) && exists rest :: Run(cfg, true, [y] + rest).Ok()
  }

  /** Reordering can put `y` behind an option word that had `x` (or nothing) behind it. */
  ghost predicate MayFollow(cfg: Settings, x: Nullable<string>, y: string) {
    NonOption(y) || (x.Value? && (Terminator(y) || Starts(cfg, y)))
  }

  /** A word that leaves the non-option behind it alone, or needs nothing behind it, also
      leaves alone whatever reordering can put there. */
  ghost predicate Settled(cfg: Settings) {
    forall w, x: Nullable<string>, y ::
      OptionWord(w) && (x.Value? ==> NonOption(x.value)) && Quiet(cfg, w, x) && MayFollow(cfg, x, y) ==>
        Quiet(cfg, w, Value(y))
  }

  /** The second pass over the reordered vector performs the same options, reports the same
      non-options and moves nothing. */
  ghost predicate Stable(cfg: Settings, words: seq<string>, again: bool) {
    var r := Run(cfg, true, words);
    r.Ok() ==>
      var s := Run(cfg, again, r.Vector());
      s.Ok() && s.Performed() == r.Performed() && s.NonOptions() == r.NonOptions() && s.Vector() == r.Vector()
  }

  /** Where the hypothesis on the checks holds, the condition does. */
  lemma SteadyIsSettled(cfg: Settings)
    requires Steady(cfg.usage)
    ensures Settled(cfg)
  {
    forall w, x: Nullable<string>, y |
      OptionWord(w) && (x.Value? ==> NonOption(x.value)) && Quiet(cfg, w, x) && MayFollow(cfg, x, y)
      ensures Quiet(cfg, w, Value(y))
    {
      WordKeeps(cfg, w, x, Value(y));
    }
  }

  // ----- the condition is enough

  /** What comes first behind a quiet word after reordering: the string that was there, or one
      that may follow it. */
  lemma NewNeighbour(cfg: Settings, tail: seq<string>, before: seq<string>)
    requires Run(cfg, true, tail).Ok() && forall w :: w in before ==> NonOption(w)
    ensures var t := Run(cfg, true, tail);
      var x, y := Next(["-"] + tail), Next(["-"] + (t.front + (before + t.NonOptions())));
      y == x || (y.Value? && (x.Value? ==> NonOption(x.value)) && MayFollow(cfg, x, y.value))
  {
    hide Run, Interleaves;
    var t := Run(cfg, true, tail);
    RunInterleaves(cfg, true, tail);
    GnuRest(cfg, tail, true);
    FrontStarts(cfg, tail);
    RunEmpty(cfg, true);
    var all := t.front + (before + t.NonOptions());
    if t.front != [] {
      assert all[0] == t.front[0];
    } else if before != [] {
      assert all[0] == before[0];
    } else {
      assert all == t.NonOptions();
    }
  }

  /** The first consumed string: the terminator, or an option word that starts an accepted
      vector; with nothing consumed, the pass ran to the end of the non-options. */
  lemma {:induction false} FrontStarts(cfg: Settings, words: seq<string>)
    requires Run(cfg, true, words).Ok()
    ensures var r := Run(cfg, true, words);
      if r.front == [] then r.stop == AtEnd && r.skipped == words && (forall w :: w in words ==> NonOption(w))
      else
        && (Terminator(r.front[0]) || Starts(cfg, r.front[0]))
        && (!NonOption(words[0]) ==> r.front[0] == words[0])
        && (NonOption(words[0]) ==> r.skipped != [] && r.skipped[0] == words[0])
    decreases |words|
  {
    hide Run, ParseWord;
    RunEmpty(cfg, true);
    if words != [] {
      if NonOption(words[0]) {
        UnfoldSkip(cfg, words);
        FrontStarts(cfg, words[1..]);
        assert words == [words[0]] + words[1..];
      } else if Terminator(words[0]) {
        UnfoldEnd(cfg, true, words);
      } else {
        assert words == [words[0]] + words[1..];
        UnfoldAccepted(cfg, words);
      }
    }
  }

  lemma UnfoldAccepted(cfg: Settings, words: seq<string>)
    requires words != [] && OptionWord(words[0]) && Run(cfg, true, words).Ok()
    ensures !ParseWord(cfg, words[0], Next(words)).illegal
    ensures var w := ParseWord(cfg, words[0], Next(words));
      var n := if w.eats then 2 else 1;
      && n <= |words| && Run(cfg, true, words[n..]).Ok()
      && Run(cfg, true, words) == Run(cfg, true, words[n..]).After(w.opts, words[..n], [])
  {
    if !ParseWord(cfg, words[0], Next(words)).illegal { UnfoldWord(cfg, true, words); }
  }

  /** The consumed strings, put before the non-options, are consumed again with the same
      options; `before` are the non-options skipped earlier. */
  lemma {:induction false} ReplaySettled(cfg: Settings, words: seq<string>, again: bool, before: seq<string>)
    requires Settled(cfg) && Run(cfg, true, words).Ok() && forall w :: w in before ==> NonOption(w)
    ensures var r := Run(cfg, true, words);
      var tail := before + r.NonOptions();
      Run(cfg, again, r.front + tail) == Replayed(cfg, r, again, tail)
    decreases |words|
  {
    hide Run, ParseWord, Settled, Quiet, MayFollow;
    var r := Run(cfg, true, words);
    var tail := before + r.NonOptions();
    RunEmpty(cfg, true);
    if words == [] {
      assert r.front + tail == tail;
    } else if NonOption(words[0]) {
      UnfoldSkip(cfg, words);
      ReplaySettled(cfg, words[1..], again, before + [words[0]]);
      var t := Run(cfg, true, words[1..]);
      assert before + [words[0]] + t.NonOptions() == tail;
      assert r.front == t.front && r.opts == t.opts;
    } else if Terminator(words[0]) {
      UnfoldEnd(cfg, true, words);
      UnfoldEnd(cfg, again, r.front + tail);
      assert (r.front + tail)[..1] == words[..1] && (r.front + tail)[1..] == tail;
    } else {
      UnfoldAccepted(cfg, words);
      var w := ParseWord(cfg, words[0], Next(words));
      var n := if w.eats then 2 else 1;
      var t := Run(cfg, true, words[n..]);
      ReplaySettled(cfg, words[n..], again, before);
      assert before + t.NonOptions() == tail;
      var all := words[..n] + (t.front + tail);
      assert r.front + tail == all;
      if !w.eats {
        QuietIs(cfg, words[0], Next(words));
        QuietKeeps(cfg, words, before);
        assert all == [words[0]] + (t.front + tail);
      }
      ReplayOne(cfg, words[..n], again, t, tail, w);
    }
  }

  /** The first word of `words`, which takes nothing, means the same behind reordering. */
  lemma QuietKeeps(cfg: Settings, words: seq<string>, before: seq<string>)
    requires Settled(cfg) && words != [] && OptionWord(words[0]) && Quiet(cfg, words[0], Next(words))
    requires Run(cfg, true, words[1..]).Ok() && forall w :: w in before ==> NonOption(w)
    ensures var t := Run(cfg, true, words[1..]);
      ParseWord(cfg, words[0], Next([words[0]] + (t.front + (before + t.NonOptions())))) ==
        ParseWord(cfg, words[0], Next(words))
  {
    hide Run, ParseWord, MayFollow, Quiet;
    var t := Run(cfg, true, words[1..]);
    NewNeighbour(cfg, words[1..], before);
    var x, y := Next(words), Next([words[0]] + (t.front + (before + t.NonOptions())));
    NextIgnoresHead(words[0], t.front + (before + t.NonOptions()));
    NextIgnoresHead(words[0], words[1..]);
    assert words == [words[0]] + words[1..];
    if y != x {
      assert Quiet(cfg, words[0], Value(y.value));
      QuietIs(cfg, words[0], y);
      WordTakes(cfg, words[0], x, y);
    }
  }

  lemma QuietIs(cfg: Settings, w: string, x: Nullable<string>)
    requires OptionWord(w)
    ensures Quiet(cfg, w, x) <==> !ParseWord(cfg, w, x).illegal && !ParseWord(cfg, w, x).eats
  {
  }

  lemma NextIgnoresHead(w: string, rest: seq<string>)
    ensures Next([w] + rest) == Next(["-"] + rest)
  {
  }

  /** One accepted word in front of a replayed pass. */
  lemma ReplayOne(cfg: Settings, head: seq<string>, again: bool, t: Pass, tail: seq<string>, w: Word)
    requires head != [] && OptionWord(head[0]) && |head| == (if w.eats then 2 else 1) && !w.illegal
    requires ParseWord(cfg, head[0], Next(head + (t.front + tail))) == w
    requires t.Ok() && Run(cfg, again, t.front + tail) == Replayed(cfg, t, again, tail)
    ensures Run(cfg, again, head + (t.front + tail)) == Replayed(cfg, t.After(w.opts, head, []), again, tail)
  {
    hide Run, ParseWord;
    var all := head + (t.front + tail);
    assert all[0] == head[0] && all[|head|..] == t.front + tail && all[..|head|] == head;
    UnfoldWord(cfg, again, all);
    if t.stop != AtTerminator {
      var u := Run(cfg, again, tail);
      assert w.opts + (t.opts + u.opts) == (w.opts + t.opts) + u.opts;
      assert head + (t.front + u.front) == (head + t.front) + u.front;
      assert [] + ([] + u.skipped) == u.skipped;
    }
  }

  lemma SettledIsStable(cfg: Settings, words: seq<string>, again: bool)
    requires Settled(cfg)
    ensures Stable(cfg, words, again)
  {
    hide Run, Interleaves, Settled;
    var r := Run(cfg, true, words);
    if r.Ok() {
      ReplaySettled(cfg, words, again, []);
      assert [] + r.NonOptions() == r.NonOptions();
      GnuRest(cfg, words, again);
      RunInterleaves(cfg, true, words);
      if r.stop == AtEnd {
        RunEmpty(cfg, again);
        SkipNonOptions(cfg, r.skipped, []);
        assert r.skipped + [] == r.skipped == r.NonOptions();
        assert r.opts + [] == r.opts && r.front + [] == r.front;
      }
    }
  }

  /** GNU reordering is stable for checks that are steady about a separate argument: after a
      successful GNU pass, a second pass in either mode performs the same options, reports
      the same non-options and moves nothing. */
  lemma ReorderingIsStable(cfg: Settings, words: seq<string>, again: bool)
    requires Steady(cfg.usage)
    ensures Stable(cfg, words, again)
  {
    SteadyIsSettled(cfg);
    SettledIsStable(cfg, words, again);
  }

  // ----- the condition is needed

  /** A second pass that meets `w` with a string it rejects or takes does not perform what the
      first pass did. */
  lemma MeetsOther(cfg: Settings, again: bool, w: string, x: Nullable<string>, all: seq<string>, performed: seq<Parsed>)
    requires OptionWord(w) && Quiet(cfg, w, x)
    requires |all| > 1 && all[0] == w && !Quiet(cfg, w, Value(all[1]))
    requires ParseWord(cfg, w, x).opts <= performed
    ensures !(Run(cfg, again, all).Ok() && Run(cfg, again, all).Performed() == performed)
  {
    hide Run, ParseWord;
    var p, q := ParseWord(cfg, w, x), ParseWord(cfg, w, Value(all[1]));
    if q.illegal {
      UnfoldIllegal(cfg, again, all);
    } else {
      WordTakes(cfg, w, x, Value(all[1]));
      UnfoldWord(cfg, again, all);
      var k := |p.opts| - 1;
      assert Run(cfg, again, all).opts[k] == q.opts[k];
      assert performed[k] == p.opts[k];
    }
  }

  /** A quiet word is consumed alone. */
  lemma ConsumeQuiet(cfg: Settings, w: string, rest: seq<string>)
    requires OptionWord(w) && Quiet(cfg, w, Next([w] + rest))
    ensures Run(cfg, true, [w] + rest) ==
      Run(cfg, true, rest).After(ParseWord(cfg, w, Next([w] + rest)).opts, [w], [])
  {
    hide Run;
    var all := [w] + rest;
    UnfoldWord(cfg, true, all);
    assert all[1..] == rest && all[..1] == [w];
  }

  lemma SkipOne(cfg: Settings, x: string, rest: seq<string>)
    requires NonOption(x)
    ensures Run(cfg, true, [x] + rest) == Run(cfg, true, rest).After([], [], [x])
  {
    var all := [x] + rest;
    UnfoldSkip(cfg, all);
    assert all[1..] == rest;
  }

  /** A vector whose reordering puts `y` behind `w`. */
  ghost predicate Moves(cfg: Settings, words: seq<string>, w: string, x: Nullable<string>, y: string)
    requires OptionWord(w)
  {
    var r := Run(cfg, true, words);
    && r.Ok() && |r.Vector()| > 1 && r.Vector()[0] == w && r.Vector()[1] == y
    && ParseWord(cfg, w, x).opts <= r.Performed()
  }

  lemma MovesNonOption(cfg: Settings, w: string, x: Nullable<string>, y: string)
    requires OptionWord(w) && Quiet(cfg, w, x) && NonOption(y) && (x.Value? ==> NonOption(x.value))
    ensures Moves(cfg, [y] + ([w] + if x.Value? then [x.value] else []), w, x, y)
  {
    hide Run, ParseWord;
    var rest := if x.Value? then [x.value] else [];
    RunEmpty(cfg, true);
    SkipOne(cfg, y, [w] + rest);
    assert Next([w] + rest) == x;
    ConsumeQuiet(cfg, w, rest);
    if x.Value? {
      SkipOne(cfg, x.value, []);
      assert [x.value] + [] == rest;
    }
  }

  lemma MovesConsumed(cfg: Settings, w: string, x: string, tail: seq<string>)
    requires OptionWord(w) && Quiet(cfg, w, Value(x)) && NonOption(x)
    requires Run(cfg, true, tail).Ok() && Run(cfg, true, tail).front != []
    ensures Moves(cfg, [w] + ([x] + tail), w, Value(x), Run(cfg, true, tail).front[0])
  {
    hide Run, ParseWord;
    SkipOne(cfg, x, tail);
    assert Next([w] + ([x] + tail)) == Value(x);
    ConsumeQuiet(cfg, w, [x] + tail);
  }

  lemma SomeVectorMoves(cfg: Settings, w: string, x: Nullable<string>, y: string) returns (words: seq<string>)
    requires OptionWord(w) && Quiet(cfg, w, x) && (x.Value? ==> NonOption(x.value)) && MayFollow(cfg, x, y)
    ensures Moves(cfg, words, w, x, y)
  {
    hide Run, ParseWord, Moves;
    if NonOption(y) {
      MovesNonOption(cfg, w, x, y);
      words := [y] + ([w] + if x.Value? then [x.value] else []);
    } else {
      var tail := [y];
      if Terminator(y) {
        UnfoldEnd(cfg, true, tail);
      } else {
        var rest :| Run(cfg, true, [y] + rest).Ok();
        tail := [y] + rest;
      }
      FrontStarts(cfg, tail);
      MovesConsumed(cfg, w, x.value, tail);
      words := [w] + ([x.value] + tail);
    }
  }

  /** The documented claim holds for every vector, in either mode of the second pass, exactly
      for the tables that are settled. */
  lemma StableExactlyWhenSettled(cfg: Settings, again: bool)
    ensures Settled(cfg) <==> forall words :: Stable(cfg, words, again)
  {
    if Settled(cfg) {
      forall words
        ensures Stable(cfg, words, again)
      {
        SettledIsStable(cfg, words, again);
      }
    } else {
      hide Run, ParseWord, Quiet, MayFollow;
      var w, x: Nullable<string>, y :|
        OptionWord(w) && (x.Value? ==> NonOption(x.value)) && Quiet(cfg, w, x) && MayFollow(cfg, x, y) &&
          !Quiet(cfg, w, Value(y));
      var words := SomeVectorMoves(cfg, w, x, y);
      var r := Run(cfg, true, words);
      MeetsOther(cfg, again, w, x, r.Vector(), r.Performed());
      assert !Stable(cfg, words, again);
    }
  }

  /** One option `-x` that takes a separate argument, but does without one. */
  const OPTIONAL_ARGUMENT: Settings :=
    Settings([Descriptor(0, 0, "x", "", (name, arg) => if arg == Null then ArgIgnore else ArgOk)], false, 0)

  /** With that table the claim fails: `5 -x` has the option -x and the non-option 5 and is
      reordered to `-x 5`, which has the option -x with argument 5 and no non-option. */
  lemma UnstableForOptionalArgument(again: bool)
    ensures Run(OPTIONAL_ARGUMENT, true, ["5", "-x"]) == Pass([Parsed(0, "x", Null)], AtEnd, ["-x"], ["5"], [])
    ensures var s := Run(OPTIONAL_ARGUMENT, again, ["-x", "5"]);
      s.Ok() && s.Performed() == [Parsed(0, "x", Value("5"))] && s.NonOptions() == []
    ensures !Stable(OPTIONAL_ARGUMENT, ["5", "-x"], again)
  {
    var cfg := OPTIONAL_ARGUMENT;
    assert First(cfg.usage, Short('x'), 0) == 0;
    assert ShortRun(cfg.usage, "-x", 1, Null) == Word([Parsed(0, "x", Null)], false, false);
    assert ShortRun(cfg.usage, "-x", 1, Value("5")) == Word([Parsed(0, "x", Value("5"))], true, false);
    RunEmpty(cfg, true);
    RunEmpty(cfg, again);
    assert ["5"] + ["-x"] == ["5", "-x"] && ["-x"] + [] == ["-x"];
    SkipOne(cfg, "5", ["-x"]);
    ConsumeQuiet(cfg, "-x", []);
    UnfoldWord(cfg, again, ["-x", "5"]);
    assert ["-x", "5"][2..] == [];
  }
}
