/** How many options a second pass performs over the vector a GNU pass has reordered, compared
    with that pass. */
module Sizing {
  import opened Nullables
  import opened OptionTable
  import opened OptionSyntax
  import opened Reparse
  import opened Reordering

  /** Number of options a pass performs. */
  function Options(cfg: Settings, gnu: bool, words: seq<string>): nat {
    |Run(cfg, gnu, words).Performed()|
  }

  /** The second pass performs no more options than the GNU pass that left the vector behind. */
  ghost predicate NoMore(cfg: Settings, words: seq<string>, again: bool) {
    Options(cfg, again, Run(cfg, true, words).Vector()) <= Options(cfg, true, words)
  }

  predicate AllNonOptions(words: seq<string>) { forall w :: w in words ==> NonOption(w) }

  /** When a word that leaves a non-option alone takes the first string that a pass over `tail`
      consumes, the rest of that pass's vector has no more options than the pass. */
  ghost predicate Harmless(cfg: Settings, again: bool) {
    forall w, x, before, tail ::
      OptionWord(w) && NonOption(x) && AllNonOptions(before) && TakesFirst(cfg, w, x, tail) ==>
      Options(cfg, again, WithoutFirst(cfg, x, before, tail)) <= Options(cfg, true, tail)
  }

  /** The same for tails of fewer than `n` strings. */
  ghost predicate HarmlessBelow(cfg: Settings, again: bool, n: nat) {
    forall w, x, before, tail ::
      |tail| < n && OptionWord(w) && NonOption(x) && AllNonOptions(before) && TakesFirst(cfg, w, x, tail) ==>
      Options(cfg, again, WithoutFirst(cfg, x, before, tail)) <= Options(cfg, true, tail)
  }

  predicate TakesFirst(cfg: Settings, w: string, x: string, tail: seq<string>)
    requires OptionWord(w)
  {
    var t := Run(cfg, true, tail);
    t.front != [] && Quiet(cfg, w, Value(x)) && ParseWord(cfg, w, Value(t.front[0])).eats
  }

  /** The reordered vector of `tail` without its first string, the non-options `before` and `x`
      in front of its own. */
  function WithoutFirst(cfg: Settings, x: string, before: seq<string>, tail: seq<string>): seq<string> {
    var t := Run(cfg, true, tail);
    (if t.front == [] then [] else t.front[1..]) + (before + ([x] + t.NonOptions()))
  }

  // ----- counting

  /** However a quiet word ends before another string, it performs no more options. */
  lemma {:induction false} ShortRunAtMost(usage: seq<Descriptor>, param: string, k: nat, x: Nullable<string>,
                                          y: Nullable<string>)
    requires var p := ShortRun(usage, param, k, x); !p.illegal && !p.eats
    ensures |ShortRun(usage, param, k, y).opts| <= |ShortRun(usage, param, k, x).opts|
    decreases |param| - k
  {
    if k + 1 == |param| {
      LastAtMost(usage, param, x, y);
    } else if k + 1 < |param| {
      var desc := Resolve(usage, First(usage, Short(param[k]), 0));
      if desc == |usage| || usage[desc].check(param[k..], Value(param[k + 1..])) !in {ArgIllegal, ArgOk} {
        ShortRunAtMost(usage, param, k + 1, x, y);
      }
    }
  }

  lemma LastAtMost(usage: seq<Descriptor>, param: string, x: Nullable<string>, y: Nullable<string>)
    requires param != ""
    requires var p := ShortRun(usage, param, |param| - 1, x); !p.illegal && !p.eats
    ensures |ShortRun(usage, param, |param| - 1, y).opts| <= |ShortRun(usage, param, |param| - 1, x).opts|
  {
    var k := |param| - 1;
    assert ShortRun(usage, param, k + 1, x) == ShortRun(usage, param, k + 1, y) == NOTHING;
  }

  lemma WordAtMost(cfg: Settings, w: string, x: Nullable<string>, y: Nullable<string>)
    requires OptionWord(w) && Quiet(cfg, w, x)
    ensures |ParseWord(cfg, w, y).opts| <= |ParseWord(cfg, w, x).opts|
  {
    if w[1] != '-' && !(cfg.singleMinus && FindLong(cfg, w[1..]) < |cfg.usage|) {
      ShortRunAtMost(cfg.usage, w, 1, x, y);
    }
  }

  lemma OptionsNone(cfg: Settings, gnu: bool)
    ensures Options(cfg, gnu, []) == 0
  {
    RunEmpty(cfg, gnu);
  }

  lemma OptionsSkip(cfg: Settings, words: seq<string>)
    requires words != [] && NonOption(words[0])
    ensures Options(cfg, true, words) == Options(cfg, true, words[1..])
    ensures Options(cfg, false, words) == 0
  {
    hide Run;
    UnfoldSkip(cfg, words);
    UnfoldPosixEnd(cfg, words);
  }

  lemma OptionsEnd(cfg: Settings, gnu: bool, words: seq<string>)
    requires words != [] && Terminator(words[0])
    ensures Options(cfg, gnu, words) == 0
  {
    hide Run;
    UnfoldEnd(cfg, gnu, words);
  }

  lemma OptionsWord(cfg: Settings, gnu: bool, words: seq<string>)
    requires words != [] && OptionWord(words[0])
    ensures var w := ParseWord(cfg, words[0], Next(words));
      var n := if w.eats then 2 else 1;
      if w.illegal then Options(cfg, gnu, words) == |w.opts|
      else n <= |words| && Options(cfg, gnu, words) == |w.opts| + Options(cfg, gnu, words[n..])
  {
    hide Run, ParseWord;
    if ParseWord(cfg, words[0], Next(words)).illegal {
      UnfoldIllegal(cfg, gnu, words);
    } else {
      UnfoldWord(cfg, gnu, words);
    }
  }

  /** Non-options in front add no options. */
  lemma {:induction false} OptionsBehind(cfg: Settings, again: bool, before: seq<string>, words: seq<string>)
    requires AllNonOptions(before)
    ensures Options(cfg, again, before + words) <= Options(cfg, again, words)
    ensures again ==> Options(cfg, again, before + words) == Options(cfg, again, words)
  {
    hide Options;
    if before == [] {
      assert before + words == words;
    } else {
      var all := before + words;
      assert all[1..] == before[1..] + words && all[0] == before[0];
      OptionsSkip(cfg, all);
      OptionsBehind(cfg, again, before[1..], words);
    }
  }

  // ----- the first consumed string

  /** A pass consumes first a terminator or an option word, and the first string at all unless
      that is a non-option; what it does not consume keeps its order. */
  lemma {:induction false} FirstConsumed(cfg: Settings, words: seq<string>)
    ensures var t := Run(cfg, true, words);
      && (t.front != [] ==> words != [] && (NonOption(words[0]) || t.front[0] == words[0]) && !NonOption(t.front[0]))
      && (t.front == [] ==> t.NonOptions() == words)
    decreases |words|
  {
    hide Run, ParseWord;
    RunEmpty(cfg, true);
    if words == [] {
    } else if NonOption(words[0]) {
      UnfoldSkip(cfg, words);
      FirstConsumed(cfg, words[1..]);
    } else if Terminator(words[0]) {
      UnfoldEnd(cfg, true, words);
    } else {
      UnfoldAny(cfg, true, words);
    }
  }

  // ----- harmless tables, and no others

  /** The reordered vector of `words`, with the non-options `before` in front of its own. */
  function Reordered(cfg: Settings, words: seq<string>, before: seq<string>): seq<string> {
    var r := Run(cfg, true, words);
    r.front + (before + r.NonOptions())
  }

  lemma {:induction false} ReplayNoMore(cfg: Settings, words: seq<string>, again: bool, before: seq<string>, n: nat)
    requires HarmlessBelow(cfg, again, n) && |words| <= n && AllNonOptions(before)
    ensures Options(cfg, again, Reordered(cfg, words, before)) <= Options(cfg, true, words)
    decreases |words|, |before|
  {
    hide Run, ParseWord, HarmlessBelow, Options;
    var r := Run(cfg, true, words);
    RunEmpty(cfg, true);
    OptionsNone(cfg, again);
    if words == [] {
      OptionsBehind(cfg, again, before, []);
      assert Reordered(cfg, words, before) == before + [];
    } else if NonOption(words[0]) {
      UnfoldSkip(cfg, words);
      OptionsSkip(cfg, words);
      ReplayNoMore(cfg, words[1..], again, before + [words[0]], n);
      assert Reordered(cfg, words, before) == Reordered(cfg, words[1..], before + [words[0]]);
    } else if Terminator(words[0]) {
      UnfoldEnd(cfg, true, words);
      OptionsEnd(cfg, again, Reordered(cfg, words, before));
    } else {
      UnfoldAny(cfg, true, words);
      OptionsWord(cfg, true, words);
      var w := ParseWord(cfg, words[0], Next(words));
      if w.illegal {
        OptionsBehind(cfg, again, before, words);
        OptionsWord(cfg, again, words);
        assert Reordered(cfg, words, before) == before + words;
      } else if w.eats {
        ReplayNoMore(cfg, words[2..], again, before, n);
        SameWord(cfg, words, again, before, 2);
      } else {
        QuietIs(cfg, words[0], Next(words));
        ReplayQuiet(cfg, words, again, before, n);
      }
    }
  }

  /** A word that means the same in front of the reordered rest. */
  lemma SameWord(cfg: Settings, words: seq<string>, again: bool, before: seq<string>, n: nat)
    requires words != [] && OptionWord(words[0]) && n <= |words|
    requires var w := ParseWord(cfg, words[0], Next(words)); !w.illegal && n == if w.eats then 2 else 1
    requires n == 2 || Next(Reordered(cfg, words, before)) == Next(words)
    requires Options(cfg, again, Reordered(cfg, words[n..], before)) <= Options(cfg, true, words[n..])
    ensures Options(cfg, again, Reordered(cfg, words, before)) <= Options(cfg, true, words)
  {
    hide Run, ParseWord, Options;
    UnfoldAny(cfg, true, words);
    var all, rest := Reordered(cfg, words, before), Reordered(cfg, words[n..], before);
    assert all == words[..n] + rest;
    assert all[0] == words[0] && all[n..] == rest;
    assert n == 2 ==> all[1] == words[1];
    OptionsWord(cfg, true, words);
    OptionsWord(cfg, again, all);
  }

  /** A quiet word in front of the reordered rest: it is the same, or ends the pass, or takes a
      string that was a non-option before, or does what `Harmless` is about. */
  lemma {:induction false} ReplayQuiet(cfg: Settings, words: seq<string>, again: bool, before: seq<string>, n: nat)
    requires HarmlessBelow(cfg, again, n) && |words| <= n && AllNonOptions(before)
    requires words != [] && OptionWord(words[0]) && Quiet(cfg, words[0], Next(words))
    ensures Options(cfg, again, Reordered(cfg, words, before)) <= Options(cfg, true, words)
    decreases |words|, |before|, 0
  {
    hide Run, ParseWord, HarmlessBelow, Options;
    QuietIs(cfg, words[0], Next(words));
    UnfoldAny(cfg, true, words);
    OptionsWord(cfg, true, words);
    var t := Run(cfg, true, words[1..]);
    var all, rest := Reordered(cfg, words, before), Reordered(cfg, words[1..], before);
    assert all == [words[0]] + rest;
    assert all[1..] == rest;
    if Next(all) == Next(words) {
      ReplayNoMore(cfg, words[1..], again, before, n);
      SameWord(cfg, words, again, before, 1);
    } else {
      FirstConsumed(cfg, words[1..]);
      OptionsWord(cfg, again, all);
      var q := ParseWord(cfg, words[0], Next(all));
      if q.illegal {
        WordAtMost(cfg, words[0], Next(words), Next(all));
      } else {
        WordTakes(cfg, words[0], Next(words), Next(all));
        if !q.eats {
          ReplayNoMore(cfg, words[1..], again, before, n);
        } else if t.front == [] {
          assert before != [];
          ReplayNoMore(cfg, words[1..], again, before[1..], n);
          assert all[2..] == Reordered(cfg, words[1..], before[1..]);
        } else {
          TakesConsumed(cfg, words, again, before, n);
        }
      }
    }
  }

  lemma BelowIs(cfg: Settings, again: bool, n: nat, w: string, x: string, before: seq<string>, tail: seq<string>)
    requires HarmlessBelow(cfg, again, n) && |tail| < n
    requires OptionWord(w) && NonOption(x) && AllNonOptions(before) && TakesFirst(cfg, w, x, tail)
    ensures Options(cfg, again, WithoutFirst(cfg, x, before, tail)) <= Options(cfg, true, tail)
  {
    hide Run, Options, TakesFirst, WithoutFirst;
  }

  lemma FirstIsTaken(cfg: Settings, words: seq<string>, tail: seq<string>)
    requires |words| > 1 && OptionWord(words[0]) && Quiet(cfg, words[0], Next(words))
    requires var t := Run(cfg, true, tail); t.front != [] && ParseWord(cfg, words[0], Value(t.front[0])).eats
    ensures TakesFirst(cfg, words[0], words[1], tail)
  {
    hide Run, ParseWord;
  }

  lemma ReorderedQuiet(cfg: Settings, words: seq<string>, before: seq<string>)
    requires words != [] && OptionWord(words[0]) && Quiet(cfg, words[0], Next(words))
    ensures Reordered(cfg, words, before) == [words[0]] + Reordered(cfg, words[1..], before)
  {
    hide Run, ParseWord;
    QuietIs(cfg, words[0], Next(words));
    UnfoldWord(cfg, true, words);
    var t := Run(cfg, true, words[1..]);
    assert words[..1] + t.front + (before + t.NonOptions()) == [words[0]] + (t.front + (before + t.NonOptions()));
  }

  /** Without its first string the reordered vector is the one `Harmless` is about. */
  lemma ReorderedSkip(cfg: Settings, words: seq<string>, before: seq<string>)
    requires words != [] && NonOption(words[0]) && Run(cfg, true, words).front != []
    ensures Run(cfg, true, words[1..]).front == Run(cfg, true, words).front
    ensures Reordered(cfg, words, before)[1..] == WithoutFirst(cfg, words[0], before, words[1..])
  {
    hide Run;
    UnfoldSkip(cfg, words);
    var t, u := Run(cfg, true, words), Run(cfg, true, words[1..]);
    assert t.front == u.front && t.NonOptions() == [words[0]] + u.NonOptions();
  }

  lemma TakesConsumed(cfg: Settings, words: seq<string>, again: bool, before: seq<string>, n: nat)
    requires HarmlessBelow(cfg, again, n) && |words| <= n && AllNonOptions(before)
    requires words != [] && OptionWord(words[0]) && Quiet(cfg, words[0], Next(words))
    requires Next(Reordered(cfg, words, before)) != Next(words)
    requires var t := Run(cfg, true, words[1..]); t.front != [] && ParseWord(cfg, words[0], Value(t.front[0])).eats
    ensures |Reordered(cfg, words, before)| >= 2
    ensures Options(cfg, again, Reordered(cfg, words, before)[2..]) <= Options(cfg, true, words[1..])
  {
    hide Run, ParseWord, Options, HarmlessBelow, TakesFirst, WithoutFirst, Quiet;
    ReorderedQuiet(cfg, words, before);
    FirstConsumed(cfg, words[1..]);
    var rest := Reordered(cfg, words[1..], before);
    assert rest[0] == Run(cfg, true, words[1..]).front[0];
    assert NonOption(words[1]);
    ReorderedSkip(cfg, words[1..], before);
    OptionsSkip(cfg, words[1..]);
    var tail := words[1..][1..];
    FirstIsTaken(cfg, words, tail);
    BelowIs(cfg, again, n, words[0], words[1], before, tail);
    assert ([words[0]] + rest)[2..] == rest[1..];
  }

  /** The other direction: such a word makes a vector whose second pass performs what the rest
      performs, in place of what the rest performed before. */
  lemma TakingVector(cfg: Settings, again: bool, w: string, x: string, before: seq<string>, tail: seq<string>)
    requires OptionWord(w) && NonOption(x) && AllNonOptions(before) && TakesFirst(cfg, w, x, tail)
    ensures var words := before + ([w] + ([x] + tail));
      Options(cfg, again, Run(cfg, true, words).Vector()) - Options(cfg, true, words) ==
      Options(cfg, again, WithoutFirst(cfg, x, before, tail)) - Options(cfg, true, tail)
  {
    hide Run, ParseWord, Options;
    var rest := [w] + ([x] + tail);
    SkipNonOptions(cfg, before, rest);
    OptionsBehind(cfg, true, before, rest);
    ConsumeQuiet(cfg, w, [x] + tail);
    SkipOne(cfg, x, tail);
    var t := Run(cfg, true, tail);
    var all := Run(cfg, true, before + rest).Vector();
    assert all == [w] + (t.front + (before + ([x] + t.NonOptions())));
    assert Next(rest) == Value(x) && rest[1..] == [x] + tail && ([x] + tail)[1..] == tail;
    OptionsWord(cfg, true, rest);
    OptionsSkip(cfg, [x] + tail);
    QuietIs(cfg, w, Value(x));
    assert Next(all) == Value(t.front[0]);
    assert all[2..] == WithoutFirst(cfg, x, before, tail);
    TakesLegal(cfg, w, Value(t.front[0]));
    OptionsWord(cfg, again, all);
    WordTakes(cfg, w, Value(x), Value(t.front[0]));
  }

  lemma {:induction false} ShortRunLegal(usage: seq<Descriptor>, param: string, k: nat, next: Nullable<string>)
    ensures ShortRun(usage, param, k, next).eats ==> !ShortRun(usage, param, k, next).illegal
    decreases |param| - k
  {
    if k < |param| { ShortRunLegal(usage, param, k + 1, next); }
  }

  lemma TakesLegal(cfg: Settings, w: string, y: Nullable<string>)
    requires OptionWord(w) && ParseWord(cfg, w, y).eats
    ensures !ParseWord(cfg, w, y).illegal
  {
    ShortRunLegal(cfg.usage, w, 1, y);
  }

  /** The sizing promise for vectors reordered by the sizing pass holds, for every vector,
      exactly for the harmless tables. */
  lemma NoMoreExactlyWhenHarmless(cfg: Settings, again: bool)
    ensures Harmless(cfg, again) <==> forall words :: NoMore(cfg, words, again)
  {
    hide Run, Options, TakesFirst, WithoutFirst;
    if Harmless(cfg, again) {
      forall words
        ensures NoMore(cfg, words, again)
      {
        ReplayNoMore(cfg, words, again, [], |words|);
        var r := Run(cfg, true, words);
        assert [] + r.NonOptions() == r.NonOptions();
      }
    } else {
      var w, x, before, tail :|
        OptionWord(w) && NonOption(x) && AllNonOptions(before) && TakesFirst(cfg, w, x, tail) &&
        Options(cfg, again, WithoutFirst(cfg, x, before, tail)) > Options(cfg, true, tail);
      TakingVector(cfg, again, w, x, before, tail);
      assert !NoMore(cfg, before + ([w] + ([x] + tail)), again);
    }
  }

  // ----- conditions on single words

  /** A word that leaves a non-option alone takes no string that starts with '-' either, save
      the lone minus. */
  ghost predicate Modest(cfg: Settings) {
    forall w, x, y ::
      OptionWord(w) && NonOption(x) && Quiet(cfg, w, Value(x)) && !NonOption(y) ==> !ParseWord(cfg, w, Value(y)).eats
  }

  /** A table whose checks each never take or always need a separate argument is modest: the
      tool's is. */
  lemma SteadyIsModest(cfg: Settings)
    requires Steady(cfg.usage)
    ensures Modest(cfg)
  {
    hide ParseWord, Steady;
    forall w, x, y | OptionWord(w) && NonOption(x) && Quiet(cfg, w, Value(x))
      ensures !ParseWord(cfg, w, Value(y)).eats
    {
      WordKeeps(cfg, w, Value(x), Value(y));
    }
  }

  /** Modest tables are harmless: whatever the vector, accepted or rejected, and whatever the
      mode of the second pass. */
  lemma ModestIsHarmless(cfg: Settings, again: bool)
    requires Modest(cfg)
    ensures Harmless(cfg, again)
  {
    hide Run, ParseWord, Options, Quiet;
    forall w, x, tail | OptionWord(w) && NonOption(x)
      ensures !TakesFirst(cfg, w, x, tail)
    {
      FirstConsumed(cfg, tail);
    }
  }

  /** A harmless table has no such word that takes the terminator: in GNU mode the strings
      behind it would be parsed after all. */
  lemma HarmlessLeavesTerminator(cfg: Settings, w: string, x: string)
    requires Harmless(cfg, true) && OptionWord(w) && NonOption(x) && Quiet(cfg, w, Value(x))
    ensures !ParseWord(cfg, w, Value("--")).eats
  {
    hide Run, ParseWord, Options;
    var tail := ["--", w, x];
    UnfoldEnd(cfg, true, tail);
    OptionsEnd(cfg, true, tail);
    var behind := [x] + [w, x];
    assert tail[1..] == [w, x] && tail[..1] == ["--"];
    assert WithoutFirst(cfg, x, [], tail) == behind;
    if ParseWord(cfg, w, Value("--")).eats {
      assert TakesFirst(cfg, w, x, tail);
      OptionsSkip(cfg, behind);
      assert behind[1..] == [w, x];
      OptionsWord(cfg, true, [w, x]);
      QuietIs(cfg, w, Value(x));
      TakesLegal(cfg, w, Value("--"));
      WordTakes(cfg, w, Value(x), Value("--"));
    }
  }

  /** And where it takes an option `v` that itself takes an option word `z`, `z` must not
      perform more options than `v`: a group of flags does. */
  lemma HarmlessCostsNoGroup(cfg: Settings, again: bool, w: string, x: string, v: string, z: string)
    requires Harmless(cfg, again) && OptionWord(w) && NonOption(x) && Quiet(cfg, w, Value(x))
    requires OptionWord(v) && OptionWord(z)
    requires ParseWord(cfg, w, Value(v)).eats && ParseWord(cfg, v, Value(z)).eats
    ensures |ParseWord(cfg, z, Value(x)).opts| <= |ParseWord(cfg, v, Value(z)).opts|
  {
    hide Run, ParseWord, Options;
    var tail := [v, z];
    TakesLegal(cfg, v, Value(z));
    UnfoldWord(cfg, true, tail);
    OptionsWord(cfg, true, tail);
    RunEmpty(cfg, true);
    OptionsNone(cfg, true);
    assert tail[2..] == [] && tail[..2] == tail;
    assert Run(cfg, true, tail).front == tail && Run(cfg, true, tail).NonOptions() == [];
    assert TakesFirst(cfg, w, x, tail);
    assert WithoutFirst(cfg, x, [], tail) == [z, x];
    OptionsWord(cfg, again, [z, x]);
  }

  // ----- a vector whose second pass performs more

  /** `-w` takes a separate argument only if it starts with '-', `-v` always takes one, and
      `-a`, `-b`, `-c` take none. */
  const GREEDY: Settings := Settings([
      Descriptor(0, 0, "w", "", (name: string, arg: Nullable<string>) =>
        if arg.Value? && "-" <= arg.value then ArgOk else ArgIgnore),
      Descriptor(1, 0, "v", "", (name: string, arg: Nullable<string>) => if arg.Value? then ArgOk else ArgIllegal),
      Descriptor(2, 0, "abc", "", (name: string, arg: Nullable<string>) => ArgNone)], false, 0)

  /** Sized over `-w n -v -abc`, the buffer has three slots for the two options -w and -v -abc;
      the parse of the vector left behind performs -w -v, -a, -b and -c. */
  lemma GreedyOverruns(again: bool)
    ensures Run(GREEDY, true, ["-w", "n", "-v", "-abc"]).Vector() == ["-w", "-v", "-abc", "n"]
    ensures Options(GREEDY, true, ["-w", "n", "-v", "-abc"]) == 2
    ensures Options(GREEDY, again, ["-w", "-v", "-abc", "n"]) == 4
    ensures !Harmless(GREEDY, again)
  {
    var first, second := ["-w", "n", "-v", "-abc"], ["-w", "-v", "-abc", "n"];
    GreedyWords();
    hide ParseWord, Run, Harmless;
    RunEmpty(GREEDY, true);
    OptionsNone(GREEDY, true);
    UnfoldWord(GREEDY, true, first);
    UnfoldSkip(GREEDY, first[1..]);
    UnfoldWord(GREEDY, true, first[2..]);
    assert first[1..][1..] == first[2..] && first[2..][2..] == [] && first[2..][..2] == ["-v", "-abc"] &&
      first[..1] == ["-w"];
    assert Run(GREEDY, true, first).Vector() == second;
    OptionsWord(GREEDY, again, second);
    OptionsWord(GREEDY, again, second[2..]);
    OptionsBehind(GREEDY, again, ["n"], []);
    OptionsNone(GREEDY, again);
    assert second[2..][1..] == ["n"] + [];
    assert !NoMore(GREEDY, first, again);
    NoMoreExactlyWhenHarmless(GREEDY, again);
  }

  lemma GreedyWords()
    ensures ParseWord(GREEDY, "-w", Value("n")) == Word([Parsed(0, "w", Null)], false, false)
    ensures ParseWord(GREEDY, "-w", Value("-v")) == Word([Parsed(0, "w", Value("-v"))], true, false)
    ensures ParseWord(GREEDY, "-v", Value("-abc")) == Word([Parsed(1, "v", Value("-abc"))], true, false)
    ensures var p := ParseWord(GREEDY, "-abc", Value("n")); |p.opts| == 3 && !p.eats && !p.illegal
  {
    var u := GREEDY.usage;
    assert First(u, Short('w'), 0) == 0;
    assert First(u, Short('v'), 0) == 1 by { assert First(u, Short('v'), 1) == 1; }
    hide First, ShortRun;
    LoneLetter(u, 'w', Value("n"));
    LoneLetter(u, 'w', Value("-v"));
    LoneLetter(u, 'v', Value("-abc"));
    GreedyGroup();
    assert "-v"[0] == '-' && "n"[0] != '-';
  }

  /** A short option on its own. */
  lemma LoneLetter(usage: seq<Descriptor>, c: char, next: Nullable<string>)
    requires First(usage, Short(c), 0) < |usage|
    ensures ShortRun(usage, ['-', c], 1, next) == Step(usage, First(usage, Short(c), 0), [c], next, true)
  {
    hide First;
    var s := ['-', c];
    assert s[1..] == [c];
    assert ShortRun(usage, s, 2, next) == NOTHING;
  }

  lemma GreedyLetter(c: char)
    requires c in "abc"
    ensures First(GREEDY.usage, Short(c), 0) == 2
  {
    assert First(GREEDY.usage, Short(c), 2) == 2;
    assert First(GREEDY.usage, Short(c), 1) == 2;
  }

  lemma GreedyGroup()
    ensures var p := ShortRun(GREEDY.usage, "-abc", 1, Value("n")); |p.opts| == 3 && !p.eats && !p.illegal
  {
    hide First;
    var u, s := GREEDY.usage, "-abc";
    assert s[1] in "abc" && s[2] in "abc" && s[3] in "abc";
    GreedyLetter(s[1]);
    GreedyLetter(s[2]);
    GreedyLetter(s[3]);
    assert ShortRun(u, s, 4, Value("n")) == NOTHING;
    var three := ShortRun(u, s, 3, Value("n"));
    assert |three.opts| == 1 && !three.eats && !three.illegal;
    var two := ShortRun(u, s, 2, Value("n"));
    assert |two.opts| == 2 && !two.eats && !two.illegal;
  }
}
