/** What one left-to-right pass over an argument vector means: the options found, the
    strings consumed, the non-options skipped and the untouched rest. */
module OptionSyntax {
  import opened Nullables
  import opened OptionTable

  /** A parsed option: position of its descriptor in the table, name pointer, argument. */
  datatype Parsed = Parsed(desc: nat, name: string, arg: Nullable<string>)

  /** The outcome of one option word: its options in order, whether the following string
      was taken as an argument, whether a check rejected it. */
  datatype Word = Word(opts: seq<Parsed>, eats: bool, illegal: bool)

  const NOTHING := Word([], false, false)

  predicate NonOption(w: string) { |w| == 0 || w[0] != '-' || |w| == 1 }

  predicate Terminator(w: string) { |w| == 2 && w[0] == '-' && w[1] == '-' }

  predicate OptionWord(w: string) { !NonOption(w) && !Terminator(w) }

  /** The descriptor used for a table search that ended at `idx`: unknown options go to
      the first dummy entry; without one (result |usage|) they are dropped. */
  function Resolve(usage: seq<Descriptor>, idx: nat): (r: nat)
    requires idx <= |usage|
    ensures r <= |usage|
  {
    if idx < |usage| then idx else First(usage, Dummy, 0)
  }

  /** One check of option `desc` named `name`; `separate` says that a present argument is
      the next string of the vector. */
  function Step(usage: seq<Descriptor>, desc: nat, name: string, arg: Nullable<string>, separate: bool): (w: Word)
    requires desc < |usage|
    ensures w.eats ==> separate && arg.Value?
    ensures |w.opts| == if w.illegal then 0 else 1
  {
    match usage[desc].check(name, arg)
    case ArgIllegal => Word([], false, true)
    case ArgOk => Word([Parsed(desc, name, arg)], separate && arg.Value?, false)
    case ArgIgnore => Word([Parsed(desc, name, Null)], false, false)
    case ArgNone => Word([Parsed(desc, name, Null)], false, false)
  }

  /** Where the attached argument of a long option starts, if there is one. */
  function Equals(name: string): (k: nat)
    ensures k <= |name|
  {
    if name == [] || name[0] == '=' then 0 else 1 + Equals(name[1..])
  }

  /** `namelen` as the Option constructor computes it. */
  function NameLength(name: string): (n: nat) {
    if name != "" && name[0] == '-' then 1 + Equals(name[1..]) else 1
  }

  /** The long option `param`, whose table search for `longName` ended at `idx`. */
  function LongStep(usage: seq<Descriptor>, param: string, longName: string, idx: nat,
                    next: Nullable<string>): (w: Word)
    requires idx <= |usage|
    ensures w.eats ==> next.Value?
  {
    var e := Equals(longName);
    var attached := e < |longName|;
    var desc := Resolve(usage, idx);
    if desc == |usage| then NOTHING
    else Step(usage, desc, param, if attached then Value(longName[e + 1..]) else next, !attached)
  }

  /** The short options of `param` from character `k` on. */
  function ShortRun(usage: seq<Descriptor>, param: string, k: nat, next: Nullable<string>): (w: Word)
    ensures w.eats ==> next.Value?
    decreases |param| - k
  {
    if k >= |param| then NOTHING
    else
      var desc := Resolve(usage, First(usage, Short(param[k]), 0));
      if desc == |usage| then ShortRun(usage, param, k + 1, next)
      else
        var separate := k + 1 == |param|;
        var arg := if separate then next else Value(param[k + 1..]);
        var w := Step(usage, desc, param[k..], arg, separate);
        if usage[desc].check(param[k..], arg) in {ArgIllegal, ArgOk} then w
        else
          var r := ShortRun(usage, param, k + 1, next);
          Word(w.opts + r.opts, r.eats, r.illegal)
  }

  function ParseWord(cfg: Settings, param: string, next: Nullable<string>): (w: Word)
    requires OptionWord(param)
    ensures w.eats ==> next.Value?
  {
    if param[1] == '-' then
      LongStep(cfg.usage, param, param[2..], FindLong(cfg, param[2..]), next)
    else if cfg.singleMinus && FindLong(cfg, param[1..]) < |cfg.usage| then
      LongStep(cfg.usage, param, param[1..], FindLong(cfg, param[1..]), next)
    else
      ShortRun(cfg.usage, param, 1, next)
  }

  /** Why a pass ended; a rejected word still performs the options before the rejection. */
  datatype Stop = AtEnd | AtTerminator | AtNonOption | AtIllegal(partial: seq<Parsed>)

  /** The result of a pass.  The vector ends as front + skipped + rest: consumed strings
      (with the terminating "--", if met), non-options passed over, untouched suffix. */
  datatype Pass = Pass(opts: seq<Parsed>, stop: Stop, front: seq<string>, skipped: seq<string>, rest: seq<string>) {
    predicate Ok() { !stop.AtIllegal? }
    function Performed(): seq<Parsed> { if stop.AtIllegal? then opts + stop.partial else opts }
    function NonOptions(): seq<string> { skipped + rest }
    function Vector(): seq<string> { front + NonOptions() }
    /** This pass with a part already done put before it. */
    function After(o: seq<Parsed>, f: seq<string>, s: seq<string>): Pass {
      Pass(o + opts, stop, f + front, s + skipped, rest)
    }
  }

  function Next(words: seq<string>): Nullable<string> { if |words| > 1 then Value(words[1]) else Null }

  function Run(cfg: Settings, gnu: bool, words: seq<string>): Pass
    decreases |words|
  {
    if words == [] then Pass([], AtEnd, [], [], [])
    else if NonOption(words[0]) then
      if gnu then Run(cfg, gnu, words[1..]).After([], [], [words[0]])
      else Pass([], AtNonOption, [], [], words)
    else if Terminator(words[0]) then Pass([], AtTerminator, words[..1], [], words[1..])
    else
      var w := ParseWord(cfg, words[0], Next(words));
      if w.illegal then Pass([], AtIllegal(w.opts), [], [], words)
      else
        var n := if w.eats then 2 else 1;
        Run(cfg, gnu, words[n..]).After(w.opts, words[..n], [])
  }

  // ----- one step of a pass

  lemma RunEmpty(cfg: Settings, gnu: bool)
    ensures Run(cfg, gnu, []) == Pass([], AtEnd, [], [], [])
  {
  }

  lemma UnfoldSkip(cfg: Settings, all: seq<string>)
    requires all != [] && NonOption(all[0])
    ensures Run(cfg, true, all) == Run(cfg, true, all[1..]).After([], [], [all[0]])
  {
  }

  lemma UnfoldPosixEnd(cfg: Settings, all: seq<string>)
    requires all != [] && NonOption(all[0])
    ensures Run(cfg, false, all) == Pass([], AtNonOption, [], [], all)
  {
  }

  lemma UnfoldEnd(cfg: Settings, gnu: bool, all: seq<string>)
    requires all != [] && Terminator(all[0])
    ensures Run(cfg, gnu, all) == Pass([], AtTerminator, all[..1], [], all[1..])
  {
  }

  lemma UnfoldIllegal(cfg: Settings, gnu: bool, all: seq<string>)
    requires all != [] && OptionWord(all[0]) && ParseWord(cfg, all[0], Next(all)).illegal
    ensures Run(cfg, gnu, all) == Pass([], AtIllegal(ParseWord(cfg, all[0], Next(all)).opts), [], [], all)
  {
  }

  lemma UnfoldWord(cfg: Settings, gnu: bool, all: seq<string>)
    requires all != [] && OptionWord(all[0]) && !ParseWord(cfg, all[0], Next(all)).illegal
    ensures var w := ParseWord(cfg, all[0], Next(all));
      var n := if w.eats then 2 else 1;
      n <= |all| && Run(cfg, gnu, all) == Run(cfg, gnu, all[n..]).After(w.opts, all[..n], [])
  {
  }

  /** Both cases of an option word. */
  lemma UnfoldAny(cfg: Settings, gnu: bool, rest: seq<string>)
    requires rest != [] && OptionWord(rest[0])
    ensures var w := ParseWord(cfg, rest[0], Next(rest));
      var r := Run(cfg, gnu, rest);
      && w.opts <= r.Performed()
      && (w.illegal ==> r == Pass([], AtIllegal(w.opts), [], [], rest))
      && (!w.illegal ==>
            var n := if w.eats then 2 else 1;
            n <= |rest| && r == Run(cfg, gnu, rest[n..]).After(w.opts, rest[..n], []))
  {
    hide Run, ParseWord;
    if ParseWord(cfg, rest[0], Next(rest)).illegal {
      UnfoldIllegal(cfg, gnu, rest);
    } else {
      UnfoldWord(cfg, gnu, rest);
    }
  }

  // ----- a pass only moves strings

  /** `words` is an order-preserving merge of `kept` and `moved`. */
  ghost predicate Interleaves(words: seq<string>, kept: seq<string>, moved: seq<string>)
    decreases |words|
  {
    if words == [] then kept == [] && moved == []
    else
      || (kept != [] && kept[0] == words[0] && Interleaves(words[1..], kept[1..], moved))
      || (moved != [] && moved[0] == words[0] && Interleaves(words[1..], kept, moved[1..]))
  }

  lemma {:induction false} InterleavesKeep(n: nat, words: seq<string>, kept: seq<string>, moved: seq<string>)
    requires n <= |words| && Interleaves(words[n..], kept, moved)
    ensures Interleaves(words, words[..n] + kept, moved)
    decreases n
  {
    if n == 0 {
      assert words[..0] + kept == kept;
    } else {
      assert words[1..][n - 1..] == words[n..];
      InterleavesKeep(n - 1, words[1..], kept, moved);
      assert (words[..n] + kept)[1..] == words[1..][..n - 1] + kept;
    }
  }

  lemma {:induction false} InterleavesMove(words: seq<string>)
    ensures Interleaves(words, [], words)
  {
    if words != [] { InterleavesMove(words[1..]); }
  }

  lemma {:induction false} InterleavesPermutes(words: seq<string>, kept: seq<string>, moved: seq<string>)
    requires Interleaves(words, kept, moved)
    ensures multiset(kept + moved) == multiset(words)
    decreases |words|
  {
    if words != [] {
      assert words == [words[0]] + words[1..];
      if kept != [] && kept[0] == words[0] && Interleaves(words[1..], kept[1..], moved) {
        InterleavesPermutes(words[1..], kept[1..], moved);
        assert kept + moved == [kept[0]] + (kept[1..] + moved);
      } else {
        InterleavesPermutes(words[1..], kept, moved[1..]);
        assert moved == [moved[0]] + moved[1..];
      }
    }
  }

  /** A pass only moves strings: the consumed strings and the non-options each keep the
      order they had, together they are all the strings there were, and what was skipped
      are non-options. */
  lemma {:induction false} RunInterleaves(cfg: Settings, gnu: bool, words: seq<string>)
    ensures var r := Run(cfg, gnu, words);
      Interleaves(words, r.front, r.NonOptions()) && forall w :: w in r.skipped ==> NonOption(w)
    decreases |words|
  {

    hide Run, ParseWord;
    RunEmpty(cfg, gnu);
    var r := Run(cfg, gnu, words);
    if words == [] {
    } else if NonOption(words[0]) {
      if gnu {
        UnfoldSkip(cfg, words);
        RunInterleaves(cfg, gnu, words[1..]);
        var t := Run(cfg, gnu, words[1..]);
        assert r.front == t.front;
        assert r.NonOptions() == [words[0]] + t.NonOptions();
      } else {
        UnfoldPosixEnd(cfg, words);
        InterleavesMove(words);
        assert r.NonOptions() == words;
      }
    } else if Terminator(words[0]) {
      UnfoldEnd(cfg, gnu, words);
      InterleavesMove(words[1..]);
      InterleavesKeep(1, words, [], words[1..]);
      assert r.NonOptions() == words[1..] && r.front == words[..1] + [];
    } else if ParseWord(cfg, words[0], Next(words)).illegal {
      UnfoldIllegal(cfg, gnu, words);
      InterleavesMove(words);
      assert r.NonOptions() == words;
    } else {
      UnfoldWord(cfg, gnu, words);
      var n := if ParseWord(cfg, words[0], Next(words)).eats then 2 else 1;
      RunInterleaves(cfg, gnu, words[n..]);
      var t := Run(cfg, gnu, words[n..]);
      assert r.NonOptions() == t.NonOptions();
      InterleavesKeep(n, words, t.front, t.NonOptions());
    }
  }

  lemma RunPermutes(cfg: Settings, gnu: bool, words: seq<string>)
    ensures multiset(Run(cfg, gnu, words).Vector()) == multiset(words)
  {
    hide Run, Interleaves;
    var r := Run(cfg, gnu, words);
    RunInterleaves(cfg, gnu, words);
    InterleavesPermutes(words, r.front, r.NonOptions());
  }
}
