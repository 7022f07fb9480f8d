/** What a second pass over an already reordered argument vector sees, and which
    spellings of a command line are the same command line. */
module Reparse {
  import opened Nullables
  import opened OptionTable
  import opened OptionSyntax

  // ----- how a check treats a separate argument

  /** No text is left after the option name, so an argument can only be the next string. */
  predicate Unattached(name: string) { NameLength(name) >= |name| }

  datatype Answer = Skips | Takes | Rejects

  /** ARG_OK for an absent argument takes nothing, like ARG_IGNORE. */
  function Ask(check: CheckArg, name: string, arg: Nullable<string>): (a: Answer) {
    match check(name, arg)
    case ArgIllegal => Rejects
    case ArgOk => if arg.Value? then Takes else Skips
    case ArgIgnore => Skips
    case ArgNone => Skips
  }

  ghost predicate NeverTakes(check: CheckArg) {
    forall name, arg :: Unattached(name) ==> Ask(check, name, arg) == Skips
  }

  ghost predicate NeedsArgument(check: CheckArg) {
    forall name, arg :: Unattached(name) ==> Ask(check, name, arg) != Skips
  }

  ghost predicate Steady(usage: seq<Descriptor>) {
    forall i :: 0 <= i < |usage| ==> NeverTakes(usage[i].check) || NeedsArgument(usage[i].check)
  }

  // ----- a word keeps its meaning when its neighbour changes

  lemma {:induction false} EqualsAbsent(name: string)
    requires '=' !in name
    ensures Equals(name) == |name|
  {
    if name != "" { EqualsAbsent(name[1..]); }
  }

  lemma {:induction false} EqualsPrefix(c: string, name: string)
    requires '=' !in c
    ensures Equals(c + name) == |c| + Equals(name)
  {
    if c != "" {
      assert (c + name)[1..] == c[1..] + name;
      EqualsPrefix(c[1..], name);
    } else {
      assert c + name == name;
    }
  }

  /** A check that is asked about the next string and does not reject gives the same word
      whatever that string is, unless it takes it. */
  lemma StepKeeps(usage: seq<Descriptor>, desc: nat, name: string, next: Nullable<string>, next': Nullable<string>)
    requires Steady(usage) && desc < |usage| && Unattached(name)
    requires var w := Step(usage, desc, name, next, true); !w.illegal && (w.eats ==> next' == next)
    ensures Step(usage, desc, name, next', true) == Step(usage, desc, name, next, true)
    ensures Ask(usage[desc].check, name, next) == Ask(usage[desc].check, name, next')
  {
    var c := usage[desc].check;
    assert NeverTakes(c) || NeedsArgument(c);
    assert Ask(c, name, next) != Rejects;
    if Ask(c, name, next) == Skips {
      assert Ask(c, name, next') == Skips;
    }
  }

  lemma {:induction false} ShortRunKeeps(usage: seq<Descriptor>, param: string, k: nat, next: Nullable<string>,
                                         next': Nullable<string>)
    requires Steady(usage)
    requires var w := ShortRun(usage, param, k, next); !w.illegal && (w.eats ==> next' == next)
    ensures ShortRun(usage, param, k, next') == ShortRun(usage, param, k, next)
    decreases |param| - k
  {
    if k < |param| {
      var desc := Resolve(usage, First(usage, Short(param[k]), 0));
      if desc == |usage| {
        ShortRunKeeps(usage, param, k + 1, next, next');
      } else if k + 1 == |param| {
        assert Unattached(param[k..]);
        StepKeeps(usage, desc, param[k..], next, next');
      } else if usage[desc].check(param[k..], Value(param[k + 1..])) !in {ArgIllegal, ArgOk} {
        ShortRunKeeps(usage, param, k + 1, next, next');
      }
    }
  }

  lemma LongStepKeeps(usage: seq<Descriptor>, dashes: string, longName: string, idx: nat, next: Nullable<string>,
                      next': Nullable<string>)
    requires Steady(usage) && idx <= |usage| && dashes in {"-", "--"}
    requires var w := LongStep(usage, dashes + longName, longName, idx, next); !w.illegal && (w.eats ==> next' == next)
    ensures LongStep(usage, dashes + longName, longName, idx, next') ==
      LongStep(usage, dashes + longName, longName, idx, next)
  {
    var param := dashes + longName;
    var desc := Resolve(usage, idx);
    if desc < |usage| && Equals(longName) == |longName| {
      EqualsPrefix(dashes[1..], longName);
      assert param[1..] == dashes[1..] + longName;
      StepKeeps(usage, desc, param, next, next');
    }
  }

  lemma WordKeeps(cfg: Settings, param: string, next: Nullable<string>, next': Nullable<string>)
    requires Steady(cfg.usage) && OptionWord(param)
    requires var w := ParseWord(cfg, param, next); !w.illegal && (w.eats ==> next' == next)
    ensures ParseWord(cfg, param, next') == ParseWord(cfg, param, next)
  {
    if param[1] == '-' {
      assert param == "--" + param[2..];
      LongStepKeeps(cfg.usage, "--", param[2..], FindLong(cfg, param[2..]), next, next');
    } else if cfg.singleMinus && FindLong(cfg, param[1..]) < |cfg.usage| {
      assert param == "-" + param[1..];
      LongStepKeeps(cfg.usage, "-", param[1..], FindLong(cfg, param[1..]), next, next');
    } else {
      ShortRunKeeps(cfg.usage, param, 1, next, next');
    }
  }

  // ----- reordering is stable

  /** What a pass over r.front + tail must give when `r` is a GNU pass. */
  function Replayed(cfg: Settings, r: Pass, again: bool, tail: seq<string>): Pass {
    if r.stop == AtTerminator then Pass(r.opts, AtTerminator, r.front, [], tail)
    else Run(cfg, again, tail).After(r.opts, r.front, [])
  }

  /** The consumed strings of a pass, put before any other tail, are consumed again with
      the same options; then the pass goes on with that tail (or stops, if the consumed
      strings end in the terminator). */
  lemma {:induction false} Replay(cfg: Settings, words: seq<string>, again: bool, tail: seq<string>)
    requires Steady(cfg.usage)
    ensures var r := Run(cfg, true, words); Run(cfg, again, r.front + tail) == Replayed(cfg, r, again, tail)
    decreases |words|
  {
    hide Run, ParseWord, Steady;
    var r := Run(cfg, true, words);
    var all := r.front + tail;
    RunEmpty(cfg, true);
    if words == [] {
      assert all == tail;
    } else if NonOption(words[0]) {
      UnfoldSkip(cfg, words);
      Replay(cfg, words[1..], again, tail);
      var t := Run(cfg, true, words[1..]);
      assert r.front == t.front && r.opts == t.opts && r.stop == t.stop;
    } else if Terminator(words[0]) {
      UnfoldEnd(cfg, true, words);
      UnfoldEnd(cfg, again, all);
      assert all[..1] == words[..1] && all[1..] == tail;
    } else if ParseWord(cfg, words[0], Next(words)).illegal {
      UnfoldIllegal(cfg, true, words);
      assert all == tail;
    } else {
      UnfoldWord(cfg, true, words);
      Replay(cfg, words[if ParseWord(cfg, words[0], Next(words)).eats then 2 else 1..], again, tail);
      ReplayWord(cfg, words, again, tail);
    }
  }

  lemma ReplayWord(cfg: Settings, words: seq<string>, again: bool, tail: seq<string>)
    requires Steady(cfg.usage) && words != [] && OptionWord(words[0])
    requires !ParseWord(cfg, words[0], Next(words)).illegal
    requires var t := Run(cfg, true, words[if ParseWord(cfg, words[0], Next(words)).eats then 2 else 1..]);
      Run(cfg, again, t.front + tail) == Replayed(cfg, t, again, tail)
    ensures var r := Run(cfg, true, words); Run(cfg, again, r.front + tail) == Replayed(cfg, r, again, tail)
  {
    hide Run, ParseWord, Steady;
    var w := ParseWord(cfg, words[0], Next(words));
    UnfoldWord(cfg, true, words);
    var n := if w.eats then 2 else 1;
    var t := Run(cfg, true, words[n..]);
    var r := Run(cfg, true, words);
    assert r == t.After(w.opts, words[..n], []);
    var all := r.front + tail;
    assert all == words[..n] + (t.front + tail);
    assert all[0] == words[0] && all[n..] == t.front + tail && all[..n] == words[..n];
    WordKeeps(cfg, words[0], Next(words), Next(all));
    UnfoldWord(cfg, again, all);
    if t.stop != AtTerminator {
      var u := Run(cfg, again, tail);
      assert w.opts + (t.opts + u.opts) == r.opts + u.opts;
      assert words[..n] + (t.front + u.front) == r.front + u.front;
      assert [] + ([] + u.skipped) == u.skipped;
    }
  }

  /** Skipped strings are passed over again by a GNU pass, and end a POSIX one. */
  lemma {:induction false} SkipNonOptions(cfg: Settings, skipped: seq<string>, tail: seq<string>)
    requires forall w :: w in skipped ==> NonOption(w)
    ensures Run(cfg, true, skipped + tail) == Run(cfg, true, tail).After([], [], skipped)
    ensures skipped != [] ==> Run(cfg, false, skipped + tail) == Pass([], AtNonOption, [], [], skipped + tail)
  {
    hide Run;
    var all := skipped + tail;
    if skipped == [] {
      assert all == tail;
    } else {
      UnfoldSkip(cfg, all);
      UnfoldPosixEnd(cfg, all);
      assert all[1..] == skipped[1..] + tail;
      assert all[0] == skipped[0] && NonOption(all[0]);
      SkipNonOptions(cfg, skipped[1..], tail);
      var t := Run(cfg, true, tail);
      assert [skipped[0]] + (skipped[1..] + t.skipped) == skipped + t.skipped;
    }
  }

  /** In GNU mode nothing is left over after a pass that ran to the end, and what is left
      over after a rejection is rejected at once. */
  lemma {:induction false} GnuRest(cfg: Settings, words: seq<string>, again: bool)
    ensures var r := Run(cfg, true, words);
      && !r.stop.AtNonOption?
      && (r.stop == AtEnd ==> r.rest == [])
      && (r.stop.AtIllegal? ==> Run(cfg, again, r.rest) == Pass([], r.stop, [], [], r.rest))
    decreases |words|
  {
    if words != [] {
      if NonOption(words[0]) {
        GnuRest(cfg, words[1..], again);
      } else if !Terminator(words[0]) {
        var w := ParseWord(cfg, words[0], Next(words));
        if !w.illegal {
          GnuRest(cfg, words[if w.eats then 2 else 1..], again);
        }
      }
    }
  }

  /** A GNU pass that was rejected is rejected again by a second GNU pass, after the same
      options; a POSIX pass performs no more options than the first one did. */
  lemma RejectionIsStable(cfg: Settings, words: seq<string>)
    requires Steady(cfg.usage) && !Run(cfg, true, words).Ok()
    ensures var r := Run(cfg, true, words);
      && !Run(cfg, true, r.Vector()).Ok() && Run(cfg, true, r.Vector()).Performed() == r.Performed()
      && Run(cfg, false, r.Vector()).Performed() <= r.Performed()
  {
    hide Run, Interleaves, Steady;
    var r := Run(cfg, true, words);
    GnuRest(cfg, words, true);
    GnuRest(cfg, words, false);
    RunInterleaves(cfg, true, words);
    SkipNonOptions(cfg, r.skipped, r.rest);
    Replay(cfg, words, true, r.NonOptions());
    Replay(cfg, words, false, r.NonOptions());
    if r.skipped == [] {
      assert r.NonOptions() == r.rest;
    }
  }

  // ----- grouping

  /** The options of a pass without the name pointers. */
  function Meaning(opts: seq<Parsed>): (m: seq<(nat, Nullable<string>)>)
    ensures |m| == |opts|
  {
    seq(|opts|, i requires 0 <= i < |opts| => (opts[i].desc, opts[i].arg))
  }

  lemma MeaningConcat(a: seq<Parsed>, b: seq<Parsed>)
    ensures Meaning(a + b) == Meaning(a) + Meaning(b)
  {
  }

  ghost predicate Flag(check: CheckArg) {
    forall name, arg :: check(name, arg) in {ArgNone, ArgIgnore}
  }

  /** `c` is dropped as unknown or stands for an option without argument. */
  ghost predicate FlagChar(usage: seq<Descriptor>, c: char) {
    var d := Resolve(usage, First(usage, Short(c), 0));
    c != '-' && (d < |usage| ==> Flag(usage[d].check))
  }

  function Singles(g: string): seq<string> {
    if g == "" then [] else [['-', g[0]]] + Singles(g[1..])
  }

  /** Only the characters from the cursor on matter. */
  lemma {:induction false} ShortRunLocal(usage: seq<Descriptor>, p: string, i: nat, q: string, j: nat,
                                         next: Nullable<string>)
    requires i <= |p| && j <= |q| && p[i..] == q[j..]
    ensures ShortRun(usage, p, i, next) == ShortRun(usage, q, j, next)
    decreases |p| - i
  {
    if i < |p| {
      assert p[i..][0] == q[j..][0];
      assert p[i + 1..] == p[i..][1..] == q[j..][1..] == q[j + 1..];
      ShortRunLocal(usage, p, i + 1, q, j + 1, next);
    }
  }

  /** Same options apart from name pointers, same verdict, same non-options. */
  ghost predicate Alike(r: Pass, s: Pass) {
    && r.Ok() == s.Ok() && Meaning(r.Performed()) == Meaning(s.Performed())
    && (r.Ok() ==> r.NonOptions() == s.NonOptions())
  }

  lemma AlikeAfter(r: Pass, s: Pass, o: seq<Parsed>, o': seq<Parsed>, f: seq<string>, f': seq<string>)
    requires Alike(r, s) && Meaning(o) == Meaning(o')
    ensures Alike(r.After(o, f, []), s.After(o', f', []))
  {
    MeaningConcat(o, r.Performed());
    MeaningConcat(o', s.Performed());
    assert r.After(o, f, []).Performed() == o + r.Performed();
    assert s.After(o', f', []).Performed() == o' + s.Performed();
    assert r.After(o, f, []).NonOptions() == r.NonOptions();
    assert s.After(o', f', []).NonOptions() == s.NonOptions();
  }

  /** The options of the single flag -c, named by the text `name`. */
  function FlagOpts(usage: seq<Descriptor>, c: char, name: string): seq<Parsed> {
    var d := Resolve(usage, First(usage, Short(c), 0));
    if d == |usage| then [] else [Parsed(d, name, Null)]
  }

  lemma FlagWord(cfg: Settings, c: char, next: Nullable<string>)
    requires !cfg.singleMinus && FlagChar(cfg.usage, c)
    ensures ParseWord(cfg, ['-', c], next) == Word(FlagOpts(cfg.usage, c, [c]), false, false)
  {
    assert ['-', c][1..] == [c];
    assert ShortRun(cfg.usage, ['-', c], 2, next) == NOTHING;
  }

  lemma FlagInGroup(cfg: Settings, c: char, t: string, next: Nullable<string>)
    requires !cfg.singleMinus && FlagChar(cfg.usage, c) && t != "" && t[0] != '-'
    ensures var w := ParseWord(cfg, "-" + t, next);
      ParseWord(cfg, ['-', c] + t, next) == Word(FlagOpts(cfg.usage, c, [c] + t) + w.opts, w.eats, w.illegal)
  {
    var one := ['-', c] + t;
    assert one[1..] == [c] + t && one[2..] == t;
    assert ("-" + t)[1..] == t;
    ShortRunLocal(cfg.usage, one, 2, "-" + t, 1, next);
  }

  lemma UngroupOne(cfg: Settings, gnu: bool, c: char, t: string, rest: seq<string>)
    requires !cfg.singleMinus && FlagChar(cfg.usage, c) && t != "" && t[0] != '-'
    ensures Alike(Run(cfg, gnu, [['-', c] + t] + rest), Run(cfg, gnu, [['-', c], "-" + t] + rest))
  {
    var grouped, apart, last := [['-', c] + t] + rest, [['-', c], "-" + t] + rest, ["-" + t] + rest;
    assert Next(last) == Next(grouped);
    FlagInGroup(cfg, c, t, Next(grouped));
    FlagWord(cfg, c, Next(apart));
    UnfoldWord(cfg, gnu, apart);
    assert apart[1..] == last && apart[..1] == [['-', c]];
    UngroupRest(cfg, gnu, grouped, last, FlagOpts(cfg.usage, c, [c] + t), FlagOpts(cfg.usage, c, [c]), [['-', c]]);
  }

  /** Two vectors that differ in the first word only, where the first word of `grouped`
      parses to some options `o` followed by those of the first word of `last`. */
  lemma UngroupRest(cfg: Settings, gnu: bool, grouped: seq<string>, last: seq<string>, o: seq<Parsed>,
                    o': seq<Parsed>, f: seq<string>)
    requires grouped != [] && last != [] && grouped[1..] == last[1..] && OptionWord(grouped[0]) && OptionWord(last[0])
    requires var w := ParseWord(cfg, last[0], Next(last));
      ParseWord(cfg, grouped[0], Next(grouped)) == Word(o + w.opts, w.eats, w.illegal)
    requires Meaning(o) == Meaning(o')
    ensures Alike(Run(cfg, gnu, grouped), Run(cfg, gnu, last).After(o', f, []))
  {
    hide Run, ParseWord;
    var w := ParseWord(cfg, last[0], Next(last));
    var r, s := Run(cfg, gnu, grouped), Run(cfg, gnu, last);
    MeaningConcat(o, w.opts);
    MeaningConcat(o', w.opts);
    if w.illegal {
      UnfoldIllegal(cfg, gnu, grouped);
      UnfoldIllegal(cfg, gnu, last);
      assert r.Performed() == o + w.opts;
      assert s.After(o', f, []).Performed() == o' + w.opts;
    } else {
      UnfoldWord(cfg, gnu, grouped);
      UnfoldWord(cfg, gnu, last);
      var n := if w.eats then 2 else 1;
      assert grouped[n..] == grouped[1..][n - 1..] == last[1..][n - 1..] == last[n..];
      var u := Run(cfg, gnu, last[n..]);
      AlikeAfter(u, u, o + w.opts, o' + w.opts, grouped[..n], f + last[..n]);
      assert (o' + w.opts) + u.opts == o' + (w.opts + u.opts);
      assert (f + last[..n]) + u.front == f + (last[..n] + u.front);
      assert [] + u.skipped == u.skipped;
    }
  }

  /** Short options can be grouped: `-ABCt` reads like `-A -B -C -t`, whatever `t` is (more
      options, or an option with an attached argument), as long as the options before it
      take no argument, no character in option position is '-', and single-minus long
      options are off. */
  lemma {:induction false} GroupingIsNotation(cfg: Settings, gnu: bool, g: string, t: string, rest: seq<string>)
    requires !cfg.singleMinus && t != "" && t[0] != '-'
    requires forall i :: 0 <= i < |g| ==> FlagChar(cfg.usage, g[i])
    ensures Alike(Run(cfg, gnu, ["-" + g + t] + rest), Run(cfg, gnu, Singles(g) + ["-" + t] + rest))
    decreases |g|
  {
    hide Run, Flag;
    if g == "" {
      assert "-" + g + t == "-" + t;
      assert Singles(g) + ["-" + t] == ["-" + t];
    } else {
      var c := g[0];
      var t' := g[1..] + t;
      assert "-" + g + t == ['-', c] + t';
      UngroupOne(cfg, gnu, c, t', rest);
      assert "-" + t' == "-" + g[1..] + t;
      GroupingIsNotation(cfg, gnu, g[1..], t, rest);
      var a, b := ["-" + t'] + rest, Singles(g[1..]) + ["-" + t] + rest;
      assert [['-', c], "-" + t'] + rest == [['-', c]] + a;
      assert Singles(g) + ["-" + t] + rest == [['-', c]] + b;
      PrependFlag(cfg, gnu, c, a);
      PrependFlag(cfg, gnu, c, b);
      var o := FlagOpts(cfg.usage, c, [c]);
      AlikeAfter(Run(cfg, gnu, a), Run(cfg, gnu, b), o, o, [['-', c]], [['-', c]]);
    }
  }

  lemma PrependFlag(cfg: Settings, gnu: bool, c: char, a: seq<string>)
    requires !cfg.singleMinus && FlagChar(cfg.usage, c)
    ensures Run(cfg, gnu, [['-', c]] + a) == Run(cfg, gnu, a).After(FlagOpts(cfg.usage, c, [c]), [['-', c]], [])
  {
    var all := [['-', c]] + a;
    FlagWord(cfg, c, Next(all));
    UnfoldWord(cfg, gnu, all);
    assert all[1..] == a && all[..1] == [['-', c]];
  }

  // ----- the options of a pass and their checks

  /** An option kept with an argument has one its check accepted; one kept without was
      accepted without, or its check declined what it was offered. */
  ghost predicate Obeys(usage: seq<Descriptor>, p: Parsed) {
    p.desc < |usage| &&
    if p.arg.Value? then usage[p.desc].check(p.name, p.arg) == ArgOk
    else exists a :: Ask(usage[p.desc].check, p.name, a) == Skips
  }

  ghost predicate AllObey(usage: seq<Descriptor>, opts: seq<Parsed>) {
    forall i :: 0 <= i < |opts| ==> Obeys(usage, opts[i])
  }

  lemma StepObeys(usage: seq<Descriptor>, desc: nat, name: string, arg: Nullable<string>, separate: bool)
    requires desc < |usage|
    ensures AllObey(usage, Step(usage, desc, name, arg, separate).opts)
  {
    var a := Ask(usage[desc].check, name, arg);
  }

  lemma {:induction false} ShortRunObeys(usage: seq<Descriptor>, param: string, k: nat, next: Nullable<string>)
    ensures AllObey(usage, ShortRun(usage, param, k, next).opts)
    decreases |param| - k
  {
    if k < |param| {
      hide Obeys;
      var desc := Resolve(usage, First(usage, Short(param[k]), 0));
      ShortRunObeys(usage, param, k + 1, next);
      if desc < |usage| {
        StepObeys(usage, desc, param[k..], if k + 1 == |param| then next else Value(param[k + 1..]), k + 1 == |param|);
      }
    }
  }

  lemma WordObeys(cfg: Settings, param: string, next: Nullable<string>)
    requires OptionWord(param)
    ensures AllObey(cfg.usage, ParseWord(cfg, param, next).opts)
  {
    hide Obeys, Step, ShortRun;
    ShortRunObeys(cfg.usage, param, 1, next);
    var long := if param[1] == '-' then param[2..] else param[1..];
    var desc := Resolve(cfg.usage, FindLong(cfg, long));
    if desc < |cfg.usage| {
      var e := Equals(long);
      StepObeys(cfg.usage, desc, param, if e < |long| then Value(long[e + 1..]) else next, e == |long|);
    }
  }

  lemma {:induction false} PassObeys(cfg: Settings, gnu: bool, words: seq<string>)
    ensures AllObey(cfg.usage, Run(cfg, gnu, words).Performed())
    decreases |words|
  {
    hide Run, ParseWord, Obeys;
    RunEmpty(cfg, gnu);
    if words == [] {
    } else if NonOption(words[0]) {
      if gnu {
        UnfoldSkip(cfg, words);
        PassObeys(cfg, gnu, words[1..]);
        assert Run(cfg, gnu, words).Performed() == Run(cfg, gnu, words[1..]).Performed();
      } else {
        UnfoldPosixEnd(cfg, words);
      }
    } else if Terminator(words[0]) {
      UnfoldEnd(cfg, gnu, words);
    } else {
      WordObeys(cfg, words[0], Next(words));
      var w := ParseWord(cfg, words[0], Next(words));
      if w.illegal {
        UnfoldIllegal(cfg, gnu, words);
      } else {
        UnfoldWord(cfg, gnu, words);
        var t := Run(cfg, gnu, words[if w.eats then 2 else 1..]);
        PassObeys(cfg, gnu, words[if w.eats then 2 else 1..]);
        assert Run(cfg, gnu, words).Performed() == w.opts + t.Performed();
      }
    }
  }
}
