/** Sizing the parser's arrays with a first pass and filling them with a second one. */
module TwoPass {
  import opened Nullables
  import opened OptionTable
  import opened OptionSyntax
  import opened OptionRing
  import opened OptionStore
  import opened ParserLoop
  import opened Reparse
  import opened Reordering
  import opened Sizing

  function Min(a: int, b: int): int { if a <= b then a else b }

  /** Stats::add: enough room for every index of the table, and for every option that the
      parse of the same vector performs, plus one sentinel each. */
  method StatsAdd(cfg: Settings, gnu: bool, args: ArgVector, argc: int, bufferMax0: nat, optionsMax0: nat)
    returns (bufferMax: nat, optionsMax: nat)
    requires Readable(args[..], argc) && bufferMax0 <= INT_MAX
    modifies args
    ensures optionsMax >= optionsMax0 && forall i :: 0 <= i < |cfg.usage| ==> cfg.usage[i].index + 1 < optionsMax
    ensures optionsMax == optionsMax0 || exists i :: 0 <= i < |cfg.usage| && optionsMax == cfg.usage[i].index + 2
    ensures var words := Words(old(args[..]), argc);
      && bufferMax == Min(bufferMax0 + Options(cfg, gnu, words), INT_MAX)
      && (bufferMax0 + Options(cfg, gnu, words) <= INT_MAX ==>
            args[..] == Lift(Run(cfg, gnu, words).Vector()) + old(args[..])[|words|..])
      && (!gnu ==> args[..] == old(args[..]))
  {
    hide Run, Words, Lift;
    optionsMax := optionsMax0;
    var i := 0;
    while i < |cfg.usage|
      invariant i <= |cfg.usage| && optionsMax >= optionsMax0
      invariant forall k :: 0 <= k < i ==> cfg.usage[k].index + 1 < optionsMax
      invariant optionsMax == optionsMax0 || exists k :: 0 <= k < i && optionsMax == cfg.usage[k].index + 2
    {
      if cfg.usage[i].index + 1 >= optionsMax {
        optionsMax := cfg.usage[i].index + 1 + 1;
      }
      i := i + 1;
    }
    ghost var words := Words(args[..], argc);
    var counter := new CountOptionsAction(bufferMax0);
    ghost var st := State([], bufferMax0, (0, 0));
    var _, st' := Workhorse(cfg, gnu, args, argc, Counting(counter), st);
    PerformAllIs(true, st, Run(cfg, gnu, words).Performed());
    bufferMax := counter.bufferMax;
  }

  /** How many options a store that starts with `used` in an unbounded buffer accepts. */
  function Room(n: nat, used: nat, bufmax: int): int {
    if bufmax >= 0 then n else Min(n, INT_MAX - used)
  }

  lemma PassInTable(cfg: Settings, gnu: bool, words: seq<string>)
    ensures forall i :: 0 <= i < |Run(cfg, gnu, words).Performed()| ==>
      Run(cfg, gnu, words).Performed()[i].desc < |cfg.usage|
  {
    hide Run;
    PassObeys(cfg, gnu, words);
    var opts := Run(cfg, gnu, words).Performed();
    assert forall i :: 0 <= i < |opts| ==> Obeys(cfg.usage, opts[i]);
  }

  ghost function Started(store: StoreOptionAction): State
    requires store.parser.opCount <= INT_MAX
    reads store.parser
  {
    State([], if store.bufmax < 0 then store.parser.opCount else 0, (store.parser.nonopCount, store.parser.nonopArgs))
  }

  lemma StoreStarts(store: StoreOptionAction, usage: seq<Descriptor>, opts: seq<Parsed>)
    requires store.Valid() && store.log == [] && store.slots.usage == usage
    requires forall i :: 0 <= i < |usage| ==> usage[i].index < |store.slots.options|
    requires forall i :: 0 <= i < |opts| ==> opts[i].desc < |usage|
    requires store.bufmax < 0 ==> Min(store.parser.opCount + |opts|, INT_MAX) <= |store.slots.buffer|
    ensures var st := Started(store);
      var room := Room(|opts|, store.parser.opCount, store.bufmax);
      var (s, accepted) := PerformAll(Storing(store).Counted(), st, opts);
      && Storing(store).Represents(st) && Storing(store).Fits(usage, st, opts)
      && s.log == opts[..room] && s.nonops == st.nonops && accepted == (room == |opts|)
  {
    hide Slots.Contains;
    PerformAllIs(Storing(store).Counted(), Started(store), opts);
    var room := Room(|opts|, store.parser.opCount, store.bufmax);
    assert [] + opts[..room] == opts[..room];
  }

  lemma StoreEnds(store: StoreOptionAction, st: State)
    requires Storing(store).Represents(st)
    ensures store.Valid() && store.log == st.log && (store.parser.nonopCount, store.parser.nonopArgs) == st.nonops
  {
  }

  /** A pass with a freshly made store action. */
  method RunStore(store: StoreOptionAction, cfg: Settings, gnu: bool, args: ArgVector, argc: int) returns (ok: bool)
    requires Readable(args[..], argc) && store.Valid() && store.log == [] && store.slots.usage == cfg.usage
    requires forall i :: 0 <= i < |cfg.usage| ==> cfg.usage[i].index < |store.slots.options|
    requires store.bufmax < 0 ==>
      Min(store.parser.opCount + Options(cfg, gnu, Words(args[..], argc)), INT_MAX) <= |store.slots.buffer|
    modifies args, store, store.parser, store.slots.options, store.slots.buffer
    ensures var words := Words(old(args[..]), argc);
      var r := Run(cfg, gnu, words);
      var room := Room(|r.Performed()|, old(store.parser.opCount), store.bufmax);
      var accepted := room == |r.Performed()|;
      && store.Valid() && store.log == r.Performed()[..room]
      && ok == (r.Ok() && accepted)
      && (store.parser.nonopCount, store.parser.nonopArgs) ==
           (if ok && Reported(argc, r) > 0 then (Reported(argc, r), |r.front|)
            else old((store.parser.nonopCount, store.parser.nonopArgs)))
      && (accepted ==> args[..] == Lift(r.Vector()) + old(args[..])[|words|..])
  {
    ghost var words := Words(args[..], argc);
    ghost var opts := Run(cfg, gnu, words).Performed();
    PassInTable(cfg, gnu, words);
    StoreStarts(store, cfg.usage, opts);
    hide Run, Words, Lift, Action.Represents, Action.Fits, PerformAll;
    ghost var st := Started(store);
    ok, st := Workhorse(cfg, gnu, args, argc, Storing(store), st);
    StoreEnds(store, st);
  }

  /** Parser::parse into arrays that already contain `before`.  What the pass performs is
      appended to it, as far as `bufmax` and the overflow guard allow; the remembered
      non-options are replaced by a non-empty list only. */
  method Parse(parser: Parser, cfg: Settings, gnu: bool, args: ArgVector, argc: int, slots: Slots, bufmax: int,
               ghost before: seq<Parsed>)
    requires Readable(args[..], argc) && cfg.usage == slots.usage
    requires slots.Contains(before) && bufmax <= |slots.buffer| && bufmax <= INT_MAX
    requires forall i :: 0 <= i < |cfg.usage| ==> cfg.usage[i].index < |slots.options|
    requires bufmax < 0 ==> |before| < |slots.buffer| && |before| < INT_MAX
    requires bufmax < 0 ==> Min(|before| + Options(cfg, gnu, Words(args[..], argc)), INT_MAX) <= |slots.buffer|
    modifies args, parser, slots.options, slots.buffer
    ensures var words := Words(old(args[..]), argc);
      var r := Run(cfg, gnu, words);
      var room := Room(|r.Performed()|, |before|, bufmax);
      var accepted := room == |r.Performed()|;
      var stored := Kept(before, r.Performed()[..room], bufmax);
      && parser.err == !(r.Ok() && accepted)
      && slots.Contains(stored) && parser.opCount == (if 0 <= bufmax < |stored| then bufmax else |stored|)
      && (parser.nonopCount, parser.nonopArgs) ==
           (if !parser.err && Reported(argc, r) > 0 then (Reported(argc, r), |r.front|)
            else old((parser.nonopCount, parser.nonopArgs)))
      && (accepted ==> args[..] == Lift(r.Vector()) + old(args[..])[|words|..])
  {
    hide Run, Words, Lift, Slots.Contains, Reported;
    var store := new StoreOptionAction(parser, slots, bufmax, before);
    var ok := RunStore(store, cfg, gnu, args, argc);
    parser.err := !ok;
  }

  /** The vector a pass leaves behind is read as r's vector by the next one. */
  lemma {:induction false} WordsAgain(v: seq<string>, tail: seq<Nullable<string>>, argc: int)
    requires argc == |v| || (tail != [] && tail[0] == Null && (argc < 0 || |v| < argc))
    ensures Words(Lift(v) + tail, argc) == v
    decreases |v|
  {
    var a := Lift(v) + tail;
    if v != [] {
      assert a[1..] == Lift(v[1..]) + tail;
      WordsAgain(v[1..], tail, if argc > 0 then argc - 1 else argc);
    } else {
      assert a == tail;
    }
  }

  lemma ReadableAgain(a: seq<Nullable<string>>, argc: int, v: seq<string>)
    requires Readable(a, argc) && |v| == |Words(a, argc)|
    ensures var b := Lift(v) + a[|v|..]; Readable(b, argc) && Words(b, argc) == v
  {
    WordsEnd(a, argc);
    var n := |v|;
    var b := Lift(v) + a[n..];
    if !(0 <= argc <= |a|) {
      assert a[n] == Null && b[n] == Null;
    }
    WordsAgain(v, a[n..], argc);
  }

  /** The second pass does what the first one did in POSIX mode, where nothing moves, and after a
      successful GNU pass if the table is settled, in either mode of the second pass. */
  lemma SecondPass(cfg: Settings, gnu: bool, again: bool, words: seq<string>)
    requires if gnu then Settled(cfg) && Run(cfg, true, words).Ok() else !again
    ensures var r := Run(cfg, gnu, words);
      var s := Run(cfg, again, r.Vector());
      s.Ok() == r.Ok() && s.Performed() == r.Performed() && s.NonOptions() == r.NonOptions()
  {
    hide Run, Settled;
    if gnu {
      SettledIsStable(cfg, words, again);
    } else {
      PosixMovesNothing(cfg, words);
    }
  }

  /** A buffer of the reported size holds every option that the second pass performs. */
  ghost predicate Suffices(cfg: Settings, gnu: bool, again: bool, words: seq<string>) {
    Min(Options(cfg, again, Run(cfg, gnu, words).Vector()), INT_MAX) <= Min(1 + Options(cfg, gnu, words), INT_MAX)
  }

  /** It does when both passes are POSIX, when a successful GNU pass sized it for a settled
      table, and whenever a GNU pass sized it for a harmless table. */
  lemma WhenItSuffices(cfg: Settings, gnu: bool, again: bool, words: seq<string>)
    requires if gnu then Harmless(cfg, again) || (Settled(cfg) && Run(cfg, true, words).Ok()) else !again
    ensures Suffices(cfg, gnu, again, words)
    ensures Options(cfg, again, Run(cfg, gnu, words).Vector()) <= Options(cfg, gnu, words)
  {
    hide Run, Settled, Harmless;
    if gnu && Harmless(cfg, again) {
      NoMoreExactlyWhenHarmless(cfg, again);
      assert NoMore(cfg, words, again);
    } else {
      SecondPass(cfg, gnu, again, words);
    }
  }

  /** It does not for the table and the vector of `GreedyOverruns`: the parser would write a
      fourth option into three slots. */
  lemma ItNeedNotSuffice(again: bool)
    ensures !Suffices(GREEDY, true, again, ["-w", "n", "-v", "-abc"])
  {
    hide Run, Options;
    GreedyOverruns(again);
  }

  // ----- as many options as one likes

  /** One flag without argument. */
  const FLAG: Settings := Settings([
      Descriptor(0, 0, "a", "", (name: string, arg: Nullable<string>) => ArgNone)], false, 0)

  /** `-aa...a` with n flags. */
  function Flags(n: nat): string { "-" + seq(n, _ => 'a') }

  lemma {:induction false} FlagRun(n: nat, k: nat)
    requires 0 < k <= n + 1
    ensures var w := ShortRun(FLAG.usage, Flags(n), k, Null); |w.opts| == n + 1 - k && !w.eats && !w.illegal
    decreases n + 1 - k
  {
    if k <= n {
      assert Flags(n)[k] == 'a' && First(FLAG.usage, Short('a'), 0) == 0;
      FlagRun(n, k + 1);
    }
  }

  /** A single string can perform any number of options. */
  lemma FlagsPerform(n: nat)
    requires n > 0
    ensures Options(FLAG, false, [Flags(n)]) == n
    ensures Run(FLAG, false, [Flags(n)]).Ok() && Run(FLAG, false, [Flags(n)]).Vector() == [Flags(n)]
  {
    var word, words := Flags(n), [Flags(n)];
    assert word[1] == 'a';
    FlagRun(n, 1);
    hide Run, ShortRun, Flags;
    RunEmpty(FLAG, false);
    UnfoldWord(FLAG, false, words);
    assert words[1..] == [] && words[..1] == words;
  }

  /** From 2^31 - 1 flags on, and for no fewer, the reported size leaves no slot for the sentinel. */
  lemma SentinelIsUsed(n: nat)
    requires n > 0
    ensures Suffices(FLAG, false, false, [Flags(n)])
    ensures var m := Options(FLAG, false, Run(FLAG, false, [Flags(n)]).Vector());
      Min(m, INT_MAX) == Min(1 + Options(FLAG, false, [Flags(n)]), INT_MAX) <==> n >= INT_MAX
  {
    hide Run, Options;
    FlagsPerform(n);
  }

  /** A fresh array of unused options. */
  method NewOptions(n: nat) returns (s: seq<Option>)
    ensures |s| == n && Distinct(s) && fresh(s) && forall i :: 0 <= i < n ==> s[i].Unused()
  {
    s := [];
    while |s| < n
      invariant |s| <= n && Distinct(s) && fresh(s) && forall i :: 0 <= i < |s| ==> s[i].Unused()
      decreases n - |s|
    {
      var o := new Option();
      s := s + [o];
    }
  }

  lemma UnusedIsEmpty(slots: Slots)
    requires slots.Separate()
    requires forall i :: 0 <= i < |slots.options| ==> slots.options[i].Unused()
    requires forall i :: 0 <= i < |slots.buffer| ==> slots.buffer[i].Unused()
    ensures slots.Contains([])
  {
    forall idx | 0 <= idx < |slots.options|
      ensures slots.RingInside([], idx) && slots.Chained([], idx)
    {
      var o := slots.options[idx];
      assert slots.RingOf([], idx) == [o];
      assert o.Unused();
      RingIsRingOn([o]);
      assert Snap([o])[0] == o.Now();
    }
  }

  /** nonOption(0..count) read through the pointer `at` are `strings`. */
  ghost predicate Views(a: seq<Nullable<string>>, at: nat, count: nat, strings: seq<string>) {
    count == |strings| && (count > 0 ==> at + count <= |a| && a[at..at + count] == Lift(strings))
  }

  lemma VectorReads(s: Pass, tail: seq<Nullable<string>>)
    ensures Views(Lift(s.Vector()) + tail, |s.front|, |s.NonOptions()|, s.NonOptions())
  {
    assert Lift(s.Vector()) == Lift(s.front) + Lift(s.NonOptions());
  }

  /** A parse into new arrays of the given sizes. */
  method ParseFresh(cfg: Settings, gnu: bool, args: ArgVector, argc: int, bufferMax: nat, optionsMax: nat)
    returns (parser: Parser, slots: Slots)
    requires Readable(args[..], argc)
    requires 0 < bufferMax && Min(Options(cfg, gnu, Words(args[..], argc)), INT_MAX) <= bufferMax
    requires forall i :: 0 <= i < |cfg.usage| ==> cfg.usage[i].index + 1 < optionsMax
    modifies args
    ensures var words := Words(old(args[..]), argc);
      var r := Run(cfg, gnu, words);
      var n := |r.Performed()|;
      && slots.usage == cfg.usage && |slots.buffer| == bufferMax && |slots.options| == optionsMax
      && slots.Contains(r.Performed()[..Min(n, INT_MAX)]) && parser.opCount == Min(n, INT_MAX)
      && parser.err == !(r.Ok() && n <= INT_MAX)
      && (!parser.err ==>
            args[..] == Lift(r.Vector()) + old(args[..])[|words|..] &&
            (Reported(argc, r) == |r.NonOptions()| ==>
              Views(args[..], parser.nonopArgs, parser.nonopCount, r.NonOptions())))
  {
    hide Run, Words, Lift, Slots.Contains;
    var options := NewOptions(optionsMax);
    var buffer := NewOptions(bufferMax);
    slots := Slots(cfg.usage, options, buffer);
    UnusedIsEmpty(slots);
    parser := new Parser();
    ghost var words := Words(args[..], argc);
    ghost var r := Run(cfg, gnu, words);
    VectorReads(r, args[..][|words|..]);
    assert [] + r.Performed()[..Min(|r.Performed()|, INT_MAX)] == r.Performed()[..Min(|r.Performed()|, INT_MAX)];
    Parse(parser, cfg, gnu, args, argc, slots, -1, []);
  }

  /** What the second pass reads after the first one has moved the strings. */
  lemma SecondVector(cfg: Settings, gnu: bool, a: seq<Nullable<string>>, argc: int, b: seq<Nullable<string>>)
    requires Readable(a, argc)
    requires b == Lift(Run(cfg, gnu, Words(a, argc)).Vector()) + a[|Words(a, argc)|..] || (!gnu && b == a)
    ensures Readable(b, argc) && Words(b, argc) == Run(cfg, gnu, Words(a, argc)).Vector()
    ensures |Words(b, argc)| == |Words(a, argc)|
  {
    hide Run;
    var words := Words(a, argc);
    var r := Run(cfg, gnu, words);
    assert |r.Vector()| == |words| by {
      RunPermutes(cfg, gnu, words);
      assert |multiset(r.Vector())| == |multiset(words)|;
    }
    ReadableAgain(a, argc, r.Vector());
    if !gnu { PosixMovesNothing(cfg, words); }
  }

  /** Stats, arrays of exactly the size it reports, then Parser, over the same vector, each in its
      own mode.  As long as the size suffices every write is in range, verdict, options and
      non-options are those of the second pass, and the sentinel slot of the buffer stays
      unused exactly if the second pass performs no more options than the first and fewer
      than INT_MAX. */
  method ParseMeasured(cfg: Settings, gnu: bool, again: bool, args: ArgVector, argc: int)
    returns (parser: Parser, slots: Slots)
    requires Readable(args[..], argc) && Suffices(cfg, gnu, again, Words(args[..], argc))
    requires gnu ==> Options(cfg, gnu, Words(args[..], argc)) < INT_MAX
    modifies args
    ensures var words := Words(old(args[..]), argc);
      var r := Run(cfg, gnu, words);
      var s := Run(cfg, again, r.Vector());
      var n, m := |r.Performed()|, |s.Performed()|;
      && slots.usage == cfg.usage && |slots.buffer| == Min(1 + n, INT_MAX)
      && slots.Contains(s.Performed()[..Min(m, INT_MAX)])
      && parser.opCount == Min(m, INT_MAX)
      && parser.err == !(s.Ok() && m <= INT_MAX)
      && (parser.opCount < |slots.buffer| <==> m <= n && m < INT_MAX)
      && (forall i :: 0 <= i < |cfg.usage| ==> cfg.usage[i].index < |slots.options| - 1)
      && (!parser.err && (argc < 0 || argc == |words|) ==>
        Views(args[..], parser.nonopArgs, parser.nonopCount, s.NonOptions()))
  {
    hide Run, Words, Lift, Slots.Contains, Reported, Views;
    ghost var was := args[..];
    var bufferMax, optionsMax := StatsAdd(cfg, gnu, args, argc, 1, 1);
    SecondVector(cfg, gnu, was, argc, args[..]);
    HonestCount(cfg, again, args[..], argc);
    parser, slots := ParseFresh(cfg, again, args, argc, bufferMax, optionsMax);
  }
}
