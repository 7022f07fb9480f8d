/** The parsing loop itself: it walks the argument vector with a pointer and a count,
    moves options in front of skipped non-options in place, and hands each option to an
    action. */
module ParserLoop {
  import opened Nullables
  import opened OptionTable
  import opened OptionSyntax
  import opened OptionRing
  import opened OptionStore

  type ArgVector = array<Nullable<string>>

  // ----- the two actions

  /** What an action has done: the options it accepted, how many it has counted against the
      overflow guard, and the (count, offset) of the non-options it remembers. */
  datatype State = State(log: seq<Parsed>, used: Count, nonops: (nat, nat))

  type Count = n: nat | n <= INT_MAX

  /** The dynamic type of the `Action&` parameter. */
  datatype Action = Counting(counter: CountOptionsAction) | Storing(store: StoreOptionAction) {

    ghost function Repr(): set<object> {
      match this
      case Counting(c) => {c}
      case Storing(s) => {s, s.parser} + (set o: Option | o in s.slots.options) + (set o: Option | o in s.slots.buffer)
    }

    /** Every accepted option is counted; a bounded buffer drops some silently instead. */
    predicate Counted() { Storing? ==> store.bufmax < 0 }

    ghost predicate Represents(st: State)
      reads Repr()
    {
      match this
      case Counting(c) =>
        c.Valid() && st == State(c.log, c.bufferMax, (0, 0))
      case Storing(s) =>
        && s.Valid()
        && st == State(s.log, if s.bufmax < 0 then s.parser.opCount else 0, (s.parser.nonopCount, s.parser.nonopArgs))
    }

    /** From state `st`, performing `opts` stays inside the two arrays. */
    ghost predicate Fits(usage: seq<Descriptor>, st: State, opts: seq<Parsed>) {
      Storing? ==>
        && store.slots.usage == usage
        && (forall i :: 0 <= i < |opts| ==>
              opts[i].desc < |usage| && usage[opts[i].desc].index < |store.slots.options|)
        && (Counted() ==> st.used + |opts| <= |store.slots.buffer| || INT_MAX <= |store.slots.buffer|)
    }

    method Perform(opt: Parsed, ghost st: State, ghost usage: seq<Descriptor>, ghost opts: seq<Parsed>)
      returns (ok: bool, ghost st': State)
      requires Represents(st) && opts != [] && opts[0] == opt && Fits(usage, st, opts)
      modifies Repr()
      ensures Represents(st') && (st', ok) == PerformOne(Counted(), st, opt)
      ensures ok ==> Fits(usage, st', opts[1..])
    {
      match this {
        case Counting(c) => ok := c.Perform(opt);
        case Storing(s) => ok := s.Perform(opt);
      }
      st' := PerformOne(Counted(), st, opt).0;
    }

    /** Replaces the remembered non-options, but only by a non-empty list. */
    method Finished(numargs: int, at: nat, ghost st: State) returns (ok: bool, ghost st': State)
      requires Represents(st)
      modifies Repr()
      ensures ok && Represents(st') && st' ==
        st.(nonops := if Storing? && numargs > 0 then (numargs, at) else st.nonops)
    {
      st' := st;
      if Storing? && numargs > 0 {
        store.parser.nonopCount := numargs;
        store.parser.nonopArgs := at;
        st' := st.(nonops := (numargs, at));
      }
      return true, st';
    }
  }

  /** The overflow guard: no option is accepted once INT_MAX are counted. */
  function PerformOne(counted: bool, st: State, opt: Parsed): (State, bool) {
    if counted && st.used == INT_MAX then (st, false)
    else (st.(log := st.log + [opt], used := if counted then st.used + 1 else st.used), true)
  }

  /** Performing options one by one until one is refused. */
  ghost function PerformAll(counted: bool, st: State, opts: seq<Parsed>): (State, bool)
    decreases |opts|
  {
    if opts == [] then (st, true)
    else
      var (st', ok) := PerformOne(counted, st, opts[0]);
      if ok then PerformAll(counted, st', opts[1..]) else (st', false)
  }

  lemma {:induction false} PerformAllConcat(counted: bool, st: State, a: seq<Parsed>, b: seq<Parsed>)
    ensures var (s, ok) := PerformAll(counted, st, a);
      PerformAll(counted, st, a + b) == if ok then PerformAll(counted, s, b) else (s, false)
    decreases |a|
  {
    if a == [] {
      assert a + b == b;
    } else {
      assert (a + b)[1..] == a[1..] + b;
      PerformAllConcat(counted, PerformOne(counted, st, a[0]).0, a[1..], b);
    }
  }

  /** Below the guard every option is accepted, in order; above it exactly as many as fit. */
  lemma {:induction false} PerformAllIs(counted: bool, st: State, opts: seq<Parsed>)
    ensures var room := if counted && st.used + |opts| > INT_MAX then INT_MAX - st.used else |opts|;
      PerformAll(counted, st, opts) ==
        (State(st.log + opts[..room], if counted then st.used + room else st.used, st.nonops), room == |opts|)
    decreases |opts|
  {
    if opts != [] && !(counted && st.used == INT_MAX) {
      var st' := PerformOne(counted, st, opts[0]).0;
      PerformAllIs(counted, st', opts[1..]);
      var room := if counted && st.used + |opts| > INT_MAX then INT_MAX - st.used else |opts|;
      assert st'.log + opts[1..][..room - 1] == st.log + opts[..room];
    } else {
      assert st.log + [] == st.log;
    }
  }

  // ----- the argument vector

  /** The strings to parse: up to the first NULL, and at most `argc` unless it is negative. */
  function Words(a: seq<Nullable<string>>, argc: int): (w: seq<string>)
    ensures |w| <= |a| && (argc >= 0 ==> |w| <= argc)
    ensures forall i :: 0 <= i < |w| ==> a[i] == Value(w[i])
  {
    if a == [] || argc == 0 || a[0] == Null then []
    else [a[0].value] + Words(a[1..], if argc > 0 then argc - 1 else argc)
  }

  /** What a caller must provide: `argc` counts existing elements, or a NULL ends the list. */
  ghost predicate Readable(a: seq<Nullable<string>>, argc: int) {
    0 <= argc <= |a| || Null in a
  }

  lemma {:induction false} WordsEnd(a: seq<Nullable<string>>, argc: int)
    requires Readable(a, argc)
    ensures var n := |Words(a, argc)|; n == argc || (n < |a| && a[n] == Null)
  {
    if a == [] || argc == 0 || a[0] == Null {
    } else {
      assert a == [a[0]] + a[1..];
      WordsEnd(a[1..], if argc > 0 then argc - 1 else argc);
    }
  }

  /** An argument count of -1 on a NULL-terminated vector means the exact count. */
  lemma {:induction false} CountOrTerminator(a: seq<Nullable<string>>, n: nat)
    requires n < |a| && a[n] == Null && forall i :: 0 <= i < n ==> a[i] != Null
    ensures Words(a, -1) == Words(a, n) && |Words(a, n)| == n
  {
    if n > 0 {
      CountOrTerminator(a[1..], n - 1);
    }
  }

  function Lift(w: seq<string>): (a: seq<Nullable<string>>)
    ensures |a| == |w|
  {
    seq(|w|, i requires 0 <= i < |w| => Value(w[i]))
  }

  /** Rotates args[at - count .. at] right by one: element `at` comes first. */
  method Shift(args: ArgVector, at: nat, count: nat)
    requires count <= at < args.Length
    modifies args
    ensures args[..] == old(args[..at - count] + [args[at]] + args[at - count..at] + args[at + 1..])
  {
    var i: int := 0;
    while i > 0 - count
      invariant 0 - count <= i <= 0
      invariant args[..] == old(args[..at + i] + [args[at]] + args[at + i..at] + args[at + 1..])
    {
      args[at + i], args[at + i - 1] := args[at + i - 1], args[at + i];
      i := i - 1;
    }
  }

  // ----- one option word

  method SkipToEquals(s: string) returns (k: nat)
    ensures k == Equals(s)
  {
    k := 0;
    while k < |s| && s[k] != '='
      invariant k <= |s| && Equals(s) == k + Equals(s[k..])
    {
      assert s[k..][1..] == s[k + 1..];
      k := k + 1;
    }
  }

  /** The long-option part of the loop body: where the table search ends, and the argument
      after '=' or, failing that, the next string. */
  method LongOption(cfg: Settings, longName: string, next: Nullable<string>)
    returns (idx: nat, optarg: Nullable<string>, separate: bool)
    ensures idx == FindLong(cfg, longName)
    ensures var e := Equals(longName);
      separate == (e == |longName|) && optarg == if e < |longName| then Value(longName[e + 1..]) else next
  {
    idx := SearchLong(cfg, longName);
    var e := SkipToEquals(longName);
    separate := e == |longName|;
    optarg := if separate then next else Value(longName[e + 1..]);
  }

  method DescriptorFor(usage: seq<Descriptor>, idx: nat) returns (d: nat)
    requires idx <= |usage|
    ensures d == Resolve(usage, idx)
  {
    d := idx;
    if d == |usage| {
      d := Search(usage, Dummy, 0);
    }
  }

  /** The word of one option, or the empty one for an unknown option without a dummy entry. */
  ghost function OneWord(usage: seq<Descriptor>, d: nat, name: string, optarg: Nullable<string>, separate: bool): Word
    requires d <= |usage|
  {
    if d < |usage| then Step(usage, d, name, optarg, separate) else NOTHING
  }

  ghost predicate Stops(usage: seq<Descriptor>, d: nat, name: string, optarg: Nullable<string>)
    requires d <= |usage|
  {
    d < |usage| && usage[d].check(name, optarg) in {ArgIllegal, ArgOk}
  }

  lemma OneWordFacts(usage: seq<Descriptor>, d: nat, name: string, optarg: Nullable<string>, separate: bool)
    requires d <= |usage|
    ensures var w := OneWord(usage, d, name, optarg, separate);
      && |w.opts| <= 1 && (w.illegal ==> w.opts == [] && Stops(usage, d, name, optarg))
      && w.eats == (Stops(usage, d, name, optarg) && !w.illegal && separate && optarg.Value?)
  {
  }

  /** The second half of the loop body: checks option `d` and, unless rejected, has it
      performed.  `taken`: its argument was accepted, so the word ends here. */
  method OneOption(usage: seq<Descriptor>, d: nat, name: string, optarg: Nullable<string>, separate: bool,
                   action: Action, ghost st: State, ghost opts: seq<Parsed>)
    returns (ok: bool, taken: bool, ghost st': State)
    requires d <= |usage| && action.Represents(st) && action.Fits(usage, st, opts)
    requires OneWord(usage, d, name, optarg, separate).opts <= opts
    modifies action.Repr()
    ensures action.Represents(st')
    ensures var w := OneWord(usage, d, name, optarg, separate);
      var (s, accepted) := PerformAll(action.Counted(), st, w.opts);
      && st' == s && ok == (!w.illegal && accepted)
      && (ok ==> taken == Stops(usage, d, name, optarg) && action.Fits(usage, st', opts[|w.opts|..]))
  {
    if d == |usage| {
      return true, false, st;
    }
    var status := usage[d].check(name, optarg);
    var arg := optarg;
    taken := false;
    match status {
      case ArgIllegal => return false, false, st;
      case ArgOk => taken := true;
      case ArgIgnore => arg := Null;
      case ArgNone => arg := Null;
    }
    assert OneWord(usage, d, name, optarg, separate).opts == [Parsed(d, name, arg)] == opts[..1];
    ok, st' := action.Perform(Parsed(d, name, arg), st, usage, opts);
  }

  /** What is left to parse of the word `param` when the option pointer stands at `p`. */
  ghost function Remaining(cfg: Settings, param: string, p: nat, next: Nullable<string>): Word
    requires OptionWord(param)
  {
    if p == 0 then ParseWord(cfg, param, next) else ShortRun(cfg.usage, param, p + 1, next)
  }

  /** A word that is, or turns out to be, a long option. */
  lemma ReadLong(cfg: Settings, param: string, longName: string, next: Nullable<string>)
    requires OptionWord(param) && longName == (if param[1] == '-' then param[2..] else param[1..])
    requires param[1] == '-' || (cfg.singleMinus && FindLong(cfg, longName) < |cfg.usage|)
    ensures var e := Equals(longName);
      var d := Resolve(cfg.usage, FindLong(cfg, longName));
      Remaining(cfg, param, 0, next) ==
        if d == |cfg.usage| then NOTHING
        else Step(cfg.usage, d, param, if e < |longName| then Value(longName[e + 1..]) else next, e == |longName|)
  {
  }

  /** A word that is a group of short options. */
  lemma ReadGroup(cfg: Settings, param: string, next: Nullable<string>)
    requires OptionWord(param) && param[1] != '-' && (cfg.singleMinus ==> FindLong(cfg, param[1..]) == |cfg.usage|)
    ensures Remaining(cfg, param, 0, next) == ShortRun(cfg.usage, param, 1, next)
  {
  }

  /** The short option at character `k`. */
  lemma ReadShort(usage: seq<Descriptor>, param: string, k: nat, next: Nullable<string>)
    requires k < |param|
    ensures var d := Resolve(usage, First(usage, Short(param[k]), 0));
      var arg := if k + 1 == |param| then next else Value(param[k + 1..]);
      var w := if d < |usage| then Step(usage, d, param[k..], arg, k + 1 == |param|) else NOTHING;
      var r := ShortRun(usage, param, k + 1, next);
      ShortRun(usage, param, k, next) ==
        if d < |usage| && usage[d].check(param[k..], arg) in {ArgIllegal, ArgOk} then w
        else Word(w.opts + r.opts, r.eats, r.illegal)
  {
  }

  lemma NoCharacterLeft(usage: seq<Descriptor>, param: string, next: Nullable<string>)
    ensures ShortRun(usage, param, |param|, next) == NOTHING
  {
  }

  /** The first half of the loop body: reads the option at or after pointer `p`.
      `more`: there is one; `short`: it is a short option, so the group may go on. */
  method ReadOption(cfg: Settings, param: string, p: nat, next: Nullable<string>)
    returns (more: bool, d: nat, q: nat, optarg: Nullable<string>, separate: bool, short: bool)
    requires OptionWord(param) && p < |param| && (p > 0 ==> param[1] != '-')
    ensures !more ==> Remaining(cfg, param, p, next) == NOTHING
    ensures more ==>
      && d <= |cfg.usage| && p <= q < |param| && (short ==> p < q && param[1] != '-')
      && Remaining(cfg, param, p, next) == Continued(cfg, param, next, d, q, optarg, separate, short)
  {
    hide First, FindLong, ParseWord, ShortRun, Resolve;
    var idx := 0;
    q, optarg, separate, short := p, Null, false, p > 0 || param[1] != '-';
    if p == 0 && (!short || cfg.singleMinus) {
      var longName := if param[1] == '-' then param[2..] else param[1..];
      idx, optarg, separate := LongOption(cfg, longName, next);
      if idx < |cfg.usage| {
        short := false;
      }
      if !short { ReadLong(cfg, param, longName, next); }
    }
    if short {
      if p == 0 { ReadGroup(cfg, param, next); }
      q := q + 1;
      if q == |param| {
        NoCharacterLeft(cfg.usage, param, next);
        return false, 0, q, optarg, separate, short;
      }
      ReadShort(cfg.usage, param, q, next);
      idx := Search(cfg.usage, Short(param[q]), 0);
      separate := q + 1 == |param|;
      optarg := if separate then next else Value(param[q + 1..]);
    }
    d := DescriptorFor(cfg.usage, idx);
    more := true;
  }

  /** The meaning of the word from an option that was read as `d` at `q`. */
  ghost function Continued(cfg: Settings, param: string, next: Nullable<string>,
                           d: nat, q: nat, optarg: Nullable<string>, separate: bool, short: bool): Word
    requires OptionWord(param) && d <= |cfg.usage| && q < |param| && (short ==> q > 0)
  {
    var w := OneWord(cfg.usage, d, param[q..], optarg, separate);
    if !short || Stops(cfg.usage, d, param[q..], optarg) then w
    else
      var r := Remaining(cfg, param, q, next);
      Word(w.opts + r.opts, r.eats, r.illegal)
  }

  lemma ContinuedOpts(cfg: Settings, param: string, next: Nullable<string>,
                      d: nat, q: nat, optarg: Nullable<string>, separate: bool, short: bool)
    requires OptionWord(param) && d <= |cfg.usage| && q < |param| && (short ==> q > 0)
    ensures var w := OneWord(cfg.usage, d, param[q..], optarg, separate);
      var all := Continued(cfg, param, next, d, q, optarg, separate, short);
      && w.opts <= all.opts
      && (w.illegal ==> all == w)
      && (if !short || Stops(cfg.usage, d, param[q..], optarg) then all == w
          else
            var r := Remaining(cfg, param, q, next);
            all.opts[|w.opts|..] == r.opts && all.eats == r.eats && all.illegal == r.illegal && !w.illegal)
  {
  }

  /** The do-while loop over the options of one word.  `next` is args[1] when referencing
      it is allowed.  A rejected check or a refusing action ends the parse. */
  method HandleWord(cfg: Settings, param: string, next: Nullable<string>, action: Action, ghost st: State)
    returns (ok: bool, eats: bool, ghost st': State)
    requires OptionWord(param) && action.Represents(st)
    requires action.Fits(cfg.usage, st, ParseWord(cfg, param, next).opts)
    modifies action.Repr()
    ensures action.Represents(st')
    ensures var w := ParseWord(cfg, param, next);
      var (s, accepted) := PerformAll(action.Counted(), st, w.opts);
      st' == s && ok == (!w.illegal && accepted) && (ok ==> eats == w.eats)
  {
    hide ParseWord, ShortRun, Step, Stops, OneWord, Continued, Action.Represents, Action.Fits;
    var p := 0;
    ghost var whole := ParseWord(cfg, param, next);
    st' := st;
    while true
      invariant p < |param| && (p > 0 ==> param[1] != '-')
      invariant var r := Remaining(cfg, param, p, next);
        && PerformAll(action.Counted(), st, whole.opts) == PerformAll(action.Counted(), st', r.opts)
        && whole.eats == r.eats && whole.illegal == r.illegal
        && action.Fits(cfg.usage, st', r.opts)
      invariant action.Represents(st')
      decreases |param| - p
    {
      ghost var was := Remaining(cfg, param, p, next);
      var more, d, q, optarg, separate, short := ReadOption(cfg, param, p, next);
      if !more {
        return true, false, st';
      }
      p := q;
      ghost var w := OneWord(cfg.usage, d, param[p..], optarg, separate);
      OneWordFacts(cfg.usage, d, param[p..], optarg, separate);
      ContinuedOpts(cfg, param, next, d, p, optarg, separate, short);
      assert was.opts == w.opts + was.opts[|w.opts|..];
      PerformAllConcat(action.Counted(), st', w.opts, was.opts[|w.opts|..]);
      var performed, taken;
      performed, taken, st' := OneOption(cfg.usage, d, param[p..], optarg, separate, action, st', was.opts);
      if !performed {
        return false, false, st';
      }
      if taken || !short {
        return true, taken && separate && optarg.Value?, st';
      }
    }
  }

  // ----- the whole vector

  /** The state of the vector between two words: front, then skipped, then the untouched
      suffix of the original. */
  ghost predicate Split(now: seq<Nullable<string>>, was: seq<Nullable<string>>, front: seq<string>,
                        skipped: seq<string>) {
    var f, at := |front|, |front| + |skipped|;
    && |now| == |was| && at <= |was|
    && (forall i :: 0 <= i < f ==> now[i] == Value(front[i]))
    && (forall i :: f <= i < at ==> now[i] == Value(skipped[i - f]))
    && (forall i :: at <= i < |was| ==> now[i] == was[i])
  }

  lemma SplitStart(was: seq<Nullable<string>>)
    ensures Split(was, was, [], [])
  {
  }

  /** The string at the split point is still in its original place. */
  lemma SplitAt(now: seq<Nullable<string>>, was: seq<Nullable<string>>, front: seq<string>, skipped: seq<string>,
                i: nat)
    requires Split(now, was, front, skipped) && |front| + |skipped| <= i < |was|
    ensures |now| == |was| && now[i] == was[i]
  {
  }

  lemma SplitSame(now: seq<Nullable<string>>, was: seq<Nullable<string>>, front: seq<string>, skipped: seq<string>)
    requires Split(now, was, front, skipped)
    ensures |now| == |was|
  {
  }

  /** Stepping over a string keeps the vector split. */
  lemma SplitSkip(now: seq<Nullable<string>>, was: seq<Nullable<string>>, front: seq<string>, skipped: seq<string>,
                  w: string)
    requires Split(now, was, front, skipped)
    requires |front| + |skipped| < |was| && was[|front| + |skipped|] == Value(w)
    ensures Split(now, was, front, skipped + [w])
  {
  }

  /** With nothing skipped nothing has moved. */
  lemma SplitStill(now: seq<Nullable<string>>, was: seq<Nullable<string>>, words: seq<string>, n: nat)
    requires n <= |words| <= |was| && forall i :: 0 <= i < |words| ==> was[i] == Value(words[i])
    ensures Split(now, was, words[..n], []) ==> now == was
  {
  }

  /** Rotating a string before the skipped ones keeps the vector split. */
  lemma SplitShift(now: seq<Nullable<string>>, was: seq<Nullable<string>>, front: seq<string>, skipped: seq<string>,
                   w: string)
    requires Split(now, was, front, skipped)
    requires |front| + |skipped| < |was| && was[|front| + |skipped|] == Value(w)
    ensures var f, at := |front|, |front| + |skipped|;
      Split(now[..f] + [now[at]] + now[f..at] + now[at + 1..], was, front + [w], skipped)
  {
    var f, at := |front|, |front| + |skipped|;
    var after := now[..f] + [now[at]] + now[f..at] + now[at + 1..];
    forall i | f + 1 <= i < at + 1
      ensures after[i] == Value(skipped[i - (f + 1)])
    {
      assert after[i] == now[f..at][i - f - 1] == now[i - 1];
    }
  }

  /** Moves the string at `at` in front of the skipped ones. */
  method MoveBack(args: ArgVector, at: nat, nonops: nat,
                  ghost was: seq<Nullable<string>>, ghost front: seq<string>, ghost skipped: seq<string>,
                  ghost w: string)
    requires Split(args[..], was, front, skipped) && at == |front| + |skipped| < |was| && nonops == |skipped|
    requires was[at] == Value(w)
    modifies args
    ensures Split(args[..], was, front + [w], skipped)
  {
    SplitShift(args[..], was, front, skipped, w);
    Shift(args, at, nonops);
    assert args[..] == old(args[..at - nonops] + [args[at]] + args[at - nonops..at] + args[at + 1..]);
  }

  /** Moves an option word, and its separate argument if it took one, in front of the
      skipped strings. */
  method Consume(args: ArgVector, at: nat, nonops: nat, eats: bool,
                 ghost was: seq<Nullable<string>>, ghost front: seq<string>, ghost skipped: seq<string>,
                 ghost rest: seq<string>)
    returns (next: nat)
    requires Split(args[..], was, front, skipped) && at == |front| + |skipped| && nonops == |skipped|
    requires |rest| >= (if eats then 2 else 1) && at + |rest| <= |was|
    requires forall i :: 0 <= i < |rest| ==> was[at + i] == Value(rest[i])
    modifies args
    ensures next == (if eats then at + 2 else at + 1)
    ensures Split(args[..], was, front + rest[..next - at], skipped)
  {
    next := at;
    ghost var f := front;
    if eats {
      MoveBack(args, next, nonops, was, f, skipped, rest[0]);
      f := f + [rest[0]];
      next := next + 1;
    }
    MoveBack(args, next, nonops, was, f, skipped, rest[next - at]);
    assert front + rest[..next + 1 - at] == f + [rest[next - at]];
    next := next + 1;
  }

  lemma SplitIsVector(now: seq<Nullable<string>>, was: seq<Nullable<string>>, words: seq<string>, r: Pass)
    requires |now| == |was| && Split(now, was, r.front, r.skipped) && |words| <= |was|
    requires Stopped(r, words) && forall i :: 0 <= i < |words| ==> was[i] == Value(words[i])
    ensures now == Lift(r.Vector()) + was[|words|..]
  {
    var v := Lift(r.Vector());
    forall i | 0 <= i < |words|
      ensures now[i] == v[i]
    {
      assert v[i] == Value(r.Vector()[i]);
    }
  }

  /** The non-option count a pass reports.  A caller whose `argc` goes past a NULL gets it
      corrected only when nothing is left over. */
  function Reported(argc: int, r: Pass): int {
    |r.skipped| +
      if r.rest == [] then 0 else if argc < 0 then |r.rest| else argc - |r.front| - |r.skipped|
  }

  /** The reported count is the number of non-options exactly if `argc` is honest or negative,
      or nothing is left over: it is wrong for an overlong `argc` with strings left over. */
  lemma HonestCount(cfg: Settings, gnu: bool, a: seq<Nullable<string>>, argc: int)
    ensures var r := Run(cfg, gnu, Words(a, argc));
      Reported(argc, r) == |r.NonOptions()| <==> argc < 0 || argc == |Words(a, argc)| || r.rest == []
  {
    hide Run;
    RunPermutes(cfg, gnu, Words(a, argc));
    var r := Run(cfg, gnu, Words(a, argc));
    assert |multiset(r.Vector())| == |r.Vector()|;
  }

  /** `t` is what is left of pass `r` once `front` and `skipped` are done. */
  ghost predicate Left(counted: bool, r: Pass, t: Pass, front: seq<string>, skipped: seq<string>, st: State,
                       now: State) {
    && r.front == front + t.front && r.skipped == skipped + t.skipped && r.rest == t.rest && r.Ok() == t.Ok()
    && PerformAll(counted, st, r.Performed()) == PerformAll(counted, now, t.Performed())
  }

  lemma LeftStart(counted: bool, r: Pass, st: State)
    ensures Left(counted, r, r, [], [], st, st)
  {
  }

  lemma LeftSkip(counted: bool, r: Pass, t: Pass, u: Pass, front: seq<string>, skipped: seq<string>, st: State,
                 now: State, w: string)
    requires Left(counted, r, t, front, skipped, st, now) && t == u.After([], [], [w])
    ensures Left(counted, r, u, front, skipped + [w], st, now) && t.Performed() == u.Performed()
  {
    hide PerformAll;
    assert t.Performed() == u.Performed();
    assert skipped + ([w] + u.skipped) == (skipped + [w]) + u.skipped;
  }

  lemma LeftWord(counted: bool, r: Pass, t: Pass, u: Pass, front: seq<string>, skipped: seq<string>, st: State,
                 now: State, opts: seq<Parsed>, f: seq<string>)
    requires Left(counted, r, t, front, skipped, st, now) && t == u.After(opts, f, [])
    ensures var (s, ok) := PerformAll(counted, now, opts);
      && (ok ==> Left(counted, r, u, front + f, skipped, st, s))
      && (!ok ==> PerformAll(counted, st, r.Performed()) == (s, false))
      && t.Performed() == opts + u.Performed()
  {
    hide PerformAll;
    assert t.Performed() == opts + u.Performed();
    PerformAllConcat(counted, now, opts, u.Performed());
    assert front + (f + u.front) == (front + f) + u.front;
  }

  /** What an option word contributes to the rest of a pass. */
  lemma FitsPart(action: Action, usage: seq<Descriptor>, st: State, all: seq<Parsed>, part: seq<Parsed>)
    requires action.Fits(usage, st, all) && part <= all
    ensures action.Fits(usage, st, part)
    ensures var (s, ok) := PerformAll(action.Counted(), st, part); ok ==> action.Fits(usage, s, all[|part|..])
  {
    PerformAllIs(action.Counted(), st, part);
  }

  ghost predicate Ended(r: Pass, front: seq<string>, skipped: seq<string>, rest: seq<string>) {
    r.Ok() && r.front == front && r.skipped == skipped && r.rest == rest
  }

  lemma LeftEnd(counted: bool, r: Pass, t: Pass, front: seq<string>, skipped: seq<string>, st: State, now: State)
    requires Left(counted, r, t, front, skipped, st, now) && t.Ok() && t.opts == [] && t.skipped == []
    ensures Ended(r, front + t.front, skipped, t.rest) && PerformAll(counted, st, r.Performed()) == (now, true)
  {
  }

  /** One option word of the vector, at `at`: its options are performed, then it is moved. */
  method OneWordOfVector(cfg: Settings, args: ArgVector, at: nat, numargs: int, nonops: nat, action: Action,
                         ghost was: seq<Nullable<string>>, ghost front: seq<string>, ghost skipped: seq<string>,
                         ghost rest: seq<string>, ghost st: State)
    returns (ok: bool, to: nat, ghost st': State)
    requires Split(args[..], was, front, skipped) && at == |front| + |skipped| && nonops == |skipped|
    requires rest != [] && at + |rest| <= |was| && forall i :: 0 <= i < |rest| ==> was[at + i] == Value(rest[i])
    requires OptionWord(rest[0]) && numargs != 0 && (numargs > 0 ==> numargs >= |rest|)
    requires (numargs > 0 && |rest| == numargs) || (at + |rest| < |was| && was[at + |rest|] == Null)
    requires action.Represents(st) && action.Fits(cfg.usage, st, ParseWord(cfg, rest[0], Next(rest)).opts)
    requires args !in action.Repr()
    modifies args, action.Repr()
    ensures action.Represents(st')
    ensures var w := ParseWord(cfg, rest[0], Next(rest));
      var (s, accepted) := PerformAll(action.Counted(), st, w.opts);
      && st' == s && ok == (!w.illegal && accepted)
      && to == (if !ok then at else if w.eats then at + 2 else at + 1)
      && Split(args[..], was, front + if ok then rest[..to - at] else [], skipped)
  {
    hide ParseWord, Action.Represents, Action.Fits, PerformAll;
    var param := args[at].value;
    var next := if numargs > 1 || numargs < 0 then args[at + 1] else Null;
    var eats;
    ok, eats, st' := HandleWord(cfg, param, next, action, st);
    to := at;
    if ok {
      to := Consume(args, at, nonops, eats, was, front, skipped, rest);
    } else {
      assert front + [] == front;
    }
  }

  /** A parse that ends inside a word has performed what the whole pass would have. */
  lemma LeftStop(counted: bool, r: Pass, t: Pass, opts: seq<Parsed>, front: seq<string>, skipped: seq<string>,
                 st: State, now: State)
    requires Left(counted, r, t, front, skipped, st, now) && opts <= t.Performed()
    requires !PerformAll(counted, now, opts).1 || t == Pass([], AtIllegal(opts), [], [], t.rest)
    ensures PerformAll(counted, st, r.Performed()) == PerformAll(counted, now, opts)
    ensures PerformAll(counted, now, opts).1 ==>
      !r.Ok() && r.front == front && r.skipped == skipped && r.rest == t.rest
  {
    hide PerformAll;
    assert front + [] == front && skipped + [] == skipped;
    assert t.stop == AtIllegal(opts) && t.opts == [] ==> t.Performed() == opts;
    assert t.Performed() == opts + t.Performed()[|opts|..];
    PerformAllConcat(counted, now, opts, t.Performed()[|opts|..]);
  }

  /** A POSIX pass skips nothing. */
  ghost predicate Unmoved(gnu: bool, words: seq<string>, at: nat, front: seq<string>, skipped: seq<string>)
    requires at <= |words|
  {
    !gnu ==> skipped == [] && front == words[..at]
  }

  /** The progress of the outer loop: `at` strings are done, `now` is the action's state and
      the rest of the pass is what remains to be done. */
  ghost predicate Progress(cfg: Settings, gnu: bool, argc: int, words: seq<string>, counted: bool, st: State,
                           at: nat, numargs: int, front: seq<string>, skipped: seq<string>, now: State)
  {
    && at == |front| + |skipped| <= |words|
    && numargs == (if argc < 0 then argc else argc - at)
    && Unmoved(gnu, words, at, front, skipped)
    && Left(counted, Run(cfg, gnu, words), Run(cfg, gnu, words[at..]), front, skipped, st, now)
  }

  /** What the option word at `at` does to the progress. */
  lemma WordProgress(cfg: Settings, gnu: bool, argc: int, words: seq<string>, action: Action, st: State,
                     at: nat, numargs: int, front: seq<string>, skipped: seq<string>, now: State)
    requires at < |words| && OptionWord(words[at]) && (argc < 0 || |words| <= argc)
    requires Progress(cfg, gnu, argc, words, action.Counted(), st, at, numargs, front, skipped, now)
    requires action.Fits(cfg.usage, now, Run(cfg, gnu, words[at..]).Performed())
    ensures var w := ParseWord(cfg, words[at], Next(words[at..]));
      var (s, accepted) := PerformAll(action.Counted(), now, w.opts);
      var r := Run(cfg, gnu, words);
      var n := if w.eats then 2 else 1;
      && action.Fits(cfg.usage, now, w.opts)
      && (!w.illegal && accepted ==>
            && at + n <= |words|
            && Progress(cfg, gnu, argc, words, action.Counted(), st,
                        at + n, if numargs > 0 then numargs - n else numargs,
                        front + words[at..at + n], skipped, s)
            && action.Fits(cfg.usage, s, Run(cfg, gnu, words[at + n..]).Performed()))
      && (!(!w.illegal && accepted) ==>
            && PerformAll(action.Counted(), st, r.Performed()) == (s, accepted)
            && !(r.Ok() && accepted)
            && (accepted ==> r.front == front && r.skipped == skipped && r.rest == words[at..]))
  {
    hide Action.Fits, Run, ParseWord, PerformAll, Left;
    var rest := words[at..];
    UnfoldAny(cfg, gnu, rest);
    var r, t, w := Run(cfg, gnu, words), Run(cfg, gnu, rest), ParseWord(cfg, words[at], Next(rest));
    FitsPart(action, cfg.usage, now, t.Performed(), w.opts);
    if !w.illegal && PerformAll(action.Counted(), now, w.opts).1 {
      var n := if w.eats then 2 else 1;
      assert rest[n..] == words[at + n..] && rest[..n] == words[at..at + n];
      LeftWord(action.Counted(), r, t, Run(cfg, gnu, words[at + n..]), front, skipped, st, now, w.opts, rest[..n]);
      assert t.Performed()[|w.opts|..] == Run(cfg, gnu, words[at + n..]).Performed();
    } else {
      LeftStop(action.Counted(), r, t, w.opts, front, skipped, st, now);
    }
  }

  lemma ProgressIs(cfg: Settings, gnu: bool, argc: int, words: seq<string>, counted: bool, st: State,
                   at: nat, numargs: int, front: seq<string>, skipped: seq<string>, now: State)
    requires Progress(cfg, gnu, argc, words, counted, st, at, numargs, front, skipped, now)
    ensures at == |front| + |skipped| <= |words| && numargs == if argc < 0 then argc else argc - at
    ensures Unmoved(gnu, words, at, front, skipped)
  {
  }

  lemma ProgressStart(cfg: Settings, gnu: bool, argc: int, words: seq<string>, counted: bool, st: State)
    ensures Progress(cfg, gnu, argc, words, counted, st, 0, argc, [], [], st)
  {
    assert words[0..] == words && words[..0] == [];
    LeftStart(counted, Run(cfg, gnu, words), st);
  }

  lemma UnmovedSplit(gnu: bool, now: seq<Nullable<string>>, was: seq<Nullable<string>>, words: seq<string>, at: nat,
                     front: seq<string>, skipped: seq<string>)
    requires at <= |words| <= |was| && forall i :: 0 <= i < |words| ==> was[i] == Value(words[i])
    requires Unmoved(gnu, words, at, front, skipped)
    ensures Split(now, was, front, skipped) && !gnu ==> now == was
  {
    SplitStill(now, was, words, at);
  }

  /** One option word, seen from the whole pass. */
  method WordStep(cfg: Settings, gnu: bool, args: ArgVector, argc: int, action: Action, at: nat, numargs: int,
                  nonops: nat, ghost was: seq<Nullable<string>>, ghost words: seq<string>,
                  ghost front: seq<string>, ghost skipped: seq<string>,
                  ghost st: State, ghost now: State)
    returns (ok: bool, to: nat, ghost now': State)
    requires Readable(was, argc) && words == Words(was, argc) && at < |words| && OptionWord(words[at])
    requires Progress(cfg, gnu, argc, words, action.Counted(), st, at, numargs, front, skipped, now)
    requires Split(args[..], was, front, skipped) && nonops == |skipped|
    requires action.Represents(now) && action.Fits(cfg.usage, now, Run(cfg, gnu, words[at..]).Performed())
    requires args !in action.Repr()
    modifies args, action.Repr()
    ensures action.Represents(now')
    ensures ok ==>
      && at < to <= |words| && Split(args[..], was, front + words[at..to], skipped)
      && Progress(cfg, gnu, argc, words, action.Counted(), st, to, if numargs > 0 then numargs - (to - at) else numargs,
                  front + words[at..to], skipped, now')
      && action.Fits(cfg.usage, now', Run(cfg, gnu, words[to..]).Performed())
    ensures !ok && !gnu ==> args[..] == was
    ensures !ok ==>
      var r := Run(cfg, gnu, words);
      var (s, accepted) := PerformAll(action.Counted(), st, r.Performed());
      && now' == s && !(r.Ok() && accepted)
      && (accepted ==> |args[..]| == |was| && Split(args[..], was, r.front, r.skipped) && Stopped(r, words))
  {
    hide Action.Represents, Action.Fits, Action.Repr, Action.Counted, Run, ParseWord, PerformAll, Left, Split, Lift,
      Words, Unmoved, Progress;
    WordsEnd(was, argc);
    ProgressIs(cfg, gnu, argc, words, action.Counted(), st, at, numargs, front, skipped, now);
    WordProgress(cfg, gnu, argc, words, action, st, at, numargs, front, skipped, now);
    ghost var rest := words[at..];
    assert rest[0] == words[at];
    ok, to, now' := OneWordOfVector(cfg, args, at, numargs, nonops, action, was, front, skipped, rest, now);
    SplitSame(args[..], was, front + if ok then rest[..to - at] else [], skipped);
    assert front + [] == front;
    if ok { assert rest[..to - at] == words[at..to]; }
    UnmovedSplit(gnu, args[..], was, words, at, front, skipped);
  }

  /** Front, skipped and rest of a pass make up the words. */
  ghost predicate Stopped(r: Pass, words: seq<string>) {
    |r.front| + |r.skipped| <= |words| && r.rest == words[|r.front| + |r.skipped|..]
  }

  lemma LiftedWords(a: seq<Nullable<string>>, words: seq<string>)
    requires |words| <= |a| && forall i :: 0 <= i < |words| ==> a[i] == Value(words[i])
    ensures Lift(words) + a[|words|..] == a
  {
  }

  lemma EndedIsVector(now: seq<Nullable<string>>, was: seq<Nullable<string>>, words: seq<string>, r: Pass,
                      front: seq<string>, skipped: seq<string>)
    requires |front| + |skipped| <= |words| <= |was| && forall i :: 0 <= i < |words| ==> was[i] == Value(words[i])
    requires Split(now, was, front, skipped) && Ended(r, front, skipped, words[|front| + |skipped|..])
    ensures now == Lift(r.Vector()) + was[|words|..]
  {
    SplitIsVector(now, was, words, r);
  }

  /** What follows the outer loop: the count of non-options is corrected or completed. */
  method Finish(args: ArgVector, argc: int, at: nat, numargs0: int, nonops: nat, action: Action,
                ghost was: seq<Nullable<string>>, ghost words: seq<string>, ghost r: Pass,
                ghost front: seq<string>, ghost skipped: seq<string>, ghost now: State)
    returns (ok: bool, ghost st': State)
    requires Readable(was, argc) && words == Words(was, argc)
    requires Split(args[..], was, front, skipped) && at == |front| + |skipped| <= |words| && nonops == |skipped|
    requires Ended(r, front, skipped, words[at..])
    requires numargs0 == (if argc < 0 then argc else argc - at)
    requires action.Represents(now)
    modifies action.Repr()
    requires args !in action.Repr()
    ensures ok && action.Represents(st')
    ensures st' == if action.Storing? && Reported(argc, r) > 0
      then now.(nonops := (Reported(argc, r), |r.front|)) else now
    ensures args[..] == Lift(r.Vector()) + was[|words|..] && (r.Vector() == words ==> args[..] == was)
  {
    hide Action.Represents, Action.Repr, Words;
    EndedIsVector(args[..], was, words, r, front, skipped);
    LiftedWords(was, words);
    WordsEnd(was, argc);
    var numargs := numargs0;
    if numargs > 0 && args[at] == Null {
      numargs := 0;
    }
    if numargs < 0 {
      numargs := 0;
      while args[at + numargs] != Null
        invariant 0 <= numargs <= |words| - at
        decreases |words| - at - numargs
      {
        numargs := numargs + 1;
      }
    }
    ok, st' := action.Finished(numargs + nonops, at - nonops, now);
  }

  lemma NonOptionProgress(cfg: Settings, argc: int, words: seq<string>, action: Action, st: State,
                          at: nat, numargs: int, front: seq<string>, skipped: seq<string>, now: State)
    requires at < |words| && NonOption(words[at]) && (argc < 0 || |words| <= argc)
    requires Progress(cfg, true, argc, words, action.Counted(), st, at, numargs, front, skipped, now)
    ensures Progress(cfg, true, argc, words, action.Counted(), st, at + 1, if numargs > 0 then numargs - 1 else numargs,
                     front, skipped + [words[at]], now)
    ensures Run(cfg, true, words[at..]).Performed() == Run(cfg, true, words[at + 1..]).Performed()
  {
    hide Run, Left;
    var rest := words[at..];
    assert rest[1..] == words[at + 1..];
    UnfoldSkip(cfg, rest);
    LeftSkip(action.Counted(), Run(cfg, true, words), Run(cfg, true, rest), Run(cfg, true, rest[1..]), front, skipped,
      st, now, words[at]);
  }

  /** The three regular ends of the outer loop. */
  lemma EndProgress(cfg: Settings, gnu: bool, argc: int, words: seq<string>, counted: bool, st: State,
                    at: nat, numargs: int, front: seq<string>, skipped: seq<string>, now: State)
    requires Progress(cfg, gnu, argc, words, counted, st, at, numargs, front, skipped, now)
    requires at == |words| || Terminator(words[at]) || (!gnu && NonOption(words[at]))
    ensures var r := Run(cfg, gnu, words);
      var n := if at < |words| && Terminator(words[at]) then 1 else 0;
      r.Ok() && Ended(r, front + words[at..at + n], skipped, words[at + n..]) &&
        PerformAll(counted, st, r.Performed()) == (now, true)
  {
    hide Run, Left, PerformAll;
    var rest := words[at..];
    RunEmpty(cfg, gnu);
    if at < |words| && Terminator(words[at]) {
      UnfoldEnd(cfg, gnu, rest);
      assert rest[..1] == words[at..at + 1] && rest[1..] == words[at + 1..];
    } else if at < |words| {
      UnfoldPosixEnd(cfg, rest);
    }
    LeftEnd(counted, Run(cfg, gnu, words), Run(cfg, gnu, rest), front, skipped, st, now);
  }

  lemma StoppedIsVector(now: seq<Nullable<string>>, was: seq<Nullable<string>>, words: seq<string>, r: Pass)
    requires |words| <= |was| && forall i :: 0 <= i < |words| ==> was[i] == Value(words[i])
    ensures |now| == |was| && Split(now, was, r.front, r.skipped) && Stopped(r, words) ==>
      now == Lift(r.Vector()) + was[|words|..]
  {
    if |now| == |was| && Split(now, was, r.front, r.skipped) && Stopped(r, words) {
      SplitIsVector(now, was, words, r);
    }
  }

  /** The "--" at `at` is moved before the skipped strings; what follows are non-options. */
  method TerminatorStep(args: ArgVector, argc: int, at: nat, numargs: int, nonops: nat, action: Action,
                        ghost was: seq<Nullable<string>>, ghost words: seq<string>, ghost r: Pass,
                        ghost front: seq<string>, ghost skipped: seq<string>, ghost now: State)
    returns (ok: bool, ghost st': State)
    requires Readable(was, argc) && words == Words(was, argc)
    requires Split(args[..], was, front, skipped) && at == |front| + |skipped| < |words| && nonops == |skipped|
    requires Ended(r, front + words[at..at + 1], skipped, words[at + 1..])
    requires numargs == (if argc < 0 then argc else argc - at)
    requires action.Represents(now) && args !in action.Repr()
    modifies args, action.Repr()
    ensures ok && action.Represents(st')
    ensures st' == if action.Storing? && Reported(argc, r) > 0
      then now.(nonops := (Reported(argc, r), |r.front|)) else now
    ensures args[..] == Lift(r.Vector()) + was[|words|..] && (r.Vector() == words ==> args[..] == was)
  {
    hide Action.Represents, Words;
    MoveBack(args, at, nonops, was, front, skipped, words[at]);
    assert words[at..at + 1] == [words[at]];
    ok, st' := Finish(args, argc, at + 1, if numargs > 0 then numargs - 1 else numargs, nonops, action,
                      was, words, r, front + [words[at]], skipped, now);
  }

  /** A POSIX pass leaves every string where it was. */
  lemma {:induction false} PosixMovesNothing(cfg: Settings, words: seq<string>)
    ensures Run(cfg, false, words).Vector() == words && Run(cfg, false, words).skipped == []
    decreases |words|
  {
    hide Run, ParseWord;
    RunEmpty(cfg, false);
    var r := Run(cfg, false, words);
    if words == [] {
    } else if NonOption(words[0]) {
      UnfoldPosixEnd(cfg, words);
    } else if Terminator(words[0]) {
      UnfoldEnd(cfg, false, words);
    } else if ParseWord(cfg, words[0], Next(words)).illegal {
      UnfoldIllegal(cfg, false, words);
    } else {
      UnfoldWord(cfg, false, words);
      var n := if ParseWord(cfg, words[0], Next(words)).eats then 2 else 1;
      PosixMovesNothing(cfg, words[n..]);
      assert r.Vector() == words[..n] + Run(cfg, false, words[n..]).Vector();
    }
  }

  /** Parser::workhorse.  `r` is the pass over the strings the caller passed.  The parse
      succeeds exactly when `r` does and no option is refused; the action performs r's
      options in order, up to a refused one.  Unless one is refused, the vector ends as `r`
      says (elements behind the parsed strings untouched), and on success the action
      remembers r's non-options, if any, at their place. */
  method Workhorse(cfg: Settings, gnu: bool, args: ArgVector, argc: int, action: Action, ghost st: State)
    returns (ok: bool, ghost st': State)
    requires Readable(args[..], argc) && action.Represents(st) && args !in action.Repr()
    requires action.Fits(cfg.usage, st, Run(cfg, gnu, Words(args[..], argc)).Performed())
    modifies args, action.Repr()
    ensures action.Represents(st')
    ensures var words := Words(old(args[..]), argc);
      var r := Run(cfg, gnu, words);
      var (s, accepted) := PerformAll(action.Counted(), st, r.Performed());
      && ok == (r.Ok() && accepted)
      && st' == (if ok && action.Storing? && Reported(argc, r) > 0
                 then s.(nonops := (Reported(argc, r), |r.front|)) else s)
      && (accepted ==> args[..] == Lift(r.Vector()) + old(args[..])[|words|..])
      && (!gnu ==> args[..] == old(args[..]))
  {
    hide Action.Represents, Action.Fits, Action.Repr, Action.Counted, Run, ParseWord, PerformAll, Left, Split, Lift,
      Words, Progress, Ended;
    ghost var was := args[..];
    ghost var words := Words(was, argc);
    ghost var counted := action.Counted();
    WordsEnd(was, argc);
    PosixMovesNothing(cfg, words);
    var numargs, nonops, at := argc, 0, 0;
    ghost var front: seq<string>, skipped: seq<string> := [], [];
    st' := st;
    ProgressStart(cfg, gnu, argc, words, counted, st);
    SplitStart(was);
    assert words[0..] == words;
    while numargs != 0 && args[at] != Null
      invariant Progress(cfg, gnu, argc, words, counted, st, at, numargs, front, skipped, st')
      invariant at == |front| + |skipped| <= |words| && numargs == if argc < 0 then argc else argc - at
      invariant Split(args[..], was, front, skipped) && nonops == |skipped|
      invariant action.Represents(st') && action.Fits(cfg.usage, st', Run(cfg, gnu, words[at..]).Performed())
      decreases |words| - at
    {
      SplitAt(args[..], was, front, skipped, at);
      var param := args[at].value;
      // in POSIX mode the first non-option ends the options; a lone minus is a non-option
      if |param| == 0 || param[0] != '-' || |param| == 1 {
        if !gnu {
          break;
        }
        SplitSkip(args[..], was, front, skipped, param);
        NonOptionProgress(cfg, argc, words, action, st, at, numargs, front, skipped, st');
        skipped := skipped + [param];
        nonops := nonops + 1;
        at := at + 1;
        if numargs > 0 { numargs := numargs - 1; }
        continue;
      }
      // "--" ends the options and is itself skipped
      if param[1] == '-' && |param| == 2 {
        EndProgress(cfg, gnu, argc, words, counted, st, at, numargs, front, skipped, st');
        ok, st' := TerminatorStep(args, argc, at, numargs, nonops, action, was, words, Run(cfg, gnu, words), front,
          skipped, st');
        return;
      }
      var proceed, to;
      proceed, to, st' := WordStep(cfg, gnu, args, argc, action, at, numargs, nonops, was, words, front, skipped, st,
        st');
      if !proceed {
        StoppedIsVector(args[..], was, words, Run(cfg, gnu, words));
        return false, st';
      }
      front := front + words[at..to];
      if numargs > 0 { numargs := numargs - (to - at); }
      at := to;
    }
    if at < |words| { SplitAt(args[..], was, front, skipped, at); }
    EndProgress(cfg, gnu, argc, words, counted, st, at, numargs, front, skipped, st');
    assert front + words[at..at] == front;
    ok, st' := Finish(args, argc, at, numargs, nonops, action, was, words, Run(cfg, gnu, words), front, skipped, st');
  }
}
