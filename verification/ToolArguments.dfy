/** The option table of the spy tool and what its command line does to the settings. */
module ToolArguments {
  import opened Nullables
  import opened OptionTable
  import opened OptionSyntax
  import opened OptionStore
  import opened ParserLoop
  import opened Reparse
  import opened TwoPass

  // ----- the table

  const UNKNOWN_OPT: Index := 0
  const HELP: Index := 1
  const CONFIGURATION_FILE: Index := 2
  const RELOAD_TIME: Index := 3
  const ACTIVATE_DEBUG: Index := 4
  const VERSION: Index := 5
  const LOG_FILTER: Index := 6
  const LOG_VERBOSITY: Index := 7
  const DOMAIN: Index := 8

  const MAX_DOMAIN_ID := 232
  const LOG_KINDS := ["error", "warning", "info"]

  predicate IsSpace(c: char) { c in " \t\n\r" || c == '\U{0B}' || c == '\U{0C}' }

  predicate Digits(s: string) { forall i :: 0 <= i < |s| ==> '0' <= s[i] <= '9' }

  /** The text strtol consumes completely: white space, a sign, at least one digit. */
  predicate IsInteger(s: string)
    decreases |s|
  {
    s != "" &&
    if IsSpace(s[0]) then IsInteger(s[1..])
    else if s[0] in "+-" then |s| > 1 && Digits(s[1..])
    else Digits(s)
  }

  function DigitsValue(s: string): nat
    requires Digits(s)
  {
    if s == "" then 0 else 10 * DigitsValue(s[..|s| - 1]) + (s[|s| - 1] as int - '0' as int)
  }

  function IntegerValue(s: string): int
    requires IsInteger(s)
    decreases |s|
  {
    if IsSpace(s[0]) then IntegerValue(s[1..])
    else if s[0] == '-' then 0 - DigitsValue(s[1..])
    else if s[0] == '+' then DigitsValue(s[1..])
    else DigitsValue(s)
  }

  function Needs(accepts: string -> bool): CheckArg {
    (name: string, arg: Nullable<string>) => if arg.Value? && accepts(arg.value) then ArgOk else ArgIllegal
  }

  const NO_ARGUMENT: CheckArg := (name: string, arg: Nullable<string>) => ArgNone

  /** What each index accepts as argument. */
  function Accepts(readable: string -> bool, index: Index, arg: string): bool {
    if index == CONFIGURATION_FILE then readable(arg)
    else if index in {RELOAD_TIME, DOMAIN} then IsInteger(arg)
    else if index == LOG_FILTER then true
    else if index == LOG_VERBOSITY then arg in LOG_KINDS
    else false
  }

  predicate TakesArgument(index: Index) {
    index in {CONFIGURATION_FILE, RELOAD_TIME, DOMAIN, LOG_FILTER, LOG_VERBOSITY}
  }

  /** One row of the table; help texts are not part of the parse. */
  function Row(readable: string -> bool, index: Index, shortopt: string, longopt: string): Descriptor {
    Descriptor(index, 0, shortopt, longopt,
               if TakesArgument(index) then Needs(a => Accepts(readable, index, a)) else NO_ARGUMENT)
  }

  function ToolUsage(readable: string -> bool): seq<Descriptor> {
    [ Row(readable, UNKNOWN_OPT, "", ""),
      Row(readable, UNKNOWN_OPT, "", ""),
      Row(readable, HELP, "h", "help"),
      Row(readable, VERSION, "v", "version"),
      Row(readable, UNKNOWN_OPT, "", ""),
      Row(readable, CONFIGURATION_FILE, "c", "config-path"),
      Row(readable, RELOAD_TIME, "r", "reload-time"),
      Row(readable, DOMAIN, "", "domain"),
      Row(readable, UNKNOWN_OPT, "", ""),
      Row(readable, ACTIVATE_DEBUG, "d", "debug"),
      Row(readable, LOG_FILTER, "", "log-filter"),
      Row(readable, LOG_VERBOSITY, "", "log-verbosity"),
      Row(readable, UNKNOWN_OPT, "", "") ]
  }

  function Tool(readable: string -> bool): Settings { Settings(ToolUsage(readable), false, 0) }

  lemma RowsOf(readable: string -> bool, i: nat)
    requires i < |ToolUsage(readable)|
    ensures exists index, s, l :: ToolUsage(readable)[i] == Row(readable, index, s, l)
  {
    var d := ToolUsage(readable)[i];
    assert d == Row(readable, d.index, d.shortopt, d.longopt);
  }

  /** The tool's own table meets the hypothesis of the reordering theorems. */
  lemma ToolTableIsSteady(readable: string -> bool)
    ensures Steady(ToolUsage(readable))
  {
    forall i | 0 <= i < |ToolUsage(readable)|
      ensures NeverTakes(ToolUsage(readable)[i].check) || NeedsArgument(ToolUsage(readable)[i].check)
    {
      RowsOf(readable, i);
    }
  }

  /** The index of a parsed option. */
  function IndexOf(usage: seq<Descriptor>, p: Parsed): Index
    requires p.desc < |usage|
  {
    usage[p.desc].index
  }

  /** Whatever the arguments are, every option a tool parse keeps belongs to the table, has
      an argument exactly if its kind takes one, and then an acceptable one. */
  lemma ToolOptionsCarryArguments(readable: string -> bool, gnu: bool, words: seq<string>, k: nat)
    requires k < |Run(Tool(readable), gnu, words).Performed()|
    ensures var p := Run(Tool(readable), gnu, words).Performed()[k];
      && p.desc < |ToolUsage(readable)|
      && (p.arg.Value? <==> TakesArgument(IndexOf(ToolUsage(readable), p)))
      && (p.arg.Value? ==> Accepts(readable, IndexOf(ToolUsage(readable), p), p.arg.value))
  {
    hide Run;
    PassObeys(Tool(readable), gnu, words);
    var p := Run(Tool(readable), gnu, words).Performed()[k];
    assert Obeys(ToolUsage(readable), p);
    RowsOf(readable, p.desc);
  }

  // ----- the settings

  datatype Verbosity = Error | Warning | Info

  datatype Outcome = Success | HelpArgument | VersionArgument | IncorrectArgument | OutOfRange

  /** The settings the command line writes; `domain == Null` is the default domain 0. */
  datatype Args = Args(oneShot: seq<string>, filePath: string, reloadMillis: int,
                       logFilter: map<Verbosity, string>, verbosity: Verbosity, domain: Nullable<nat>)

  predicate FitsLong(n: int) { -0x8000_0000_0000_0000 <= n <= 0x7fff_ffff_ffff_ffff }

  function LogKind(s: string): Verbosity {
    if s == "error" then Error else if s == "warning" then Warning else Info
  }

  /** An argument the option's own check accepted. */
  ghost predicate Acceptable(index: Index, arg: Nullable<string>) {
    && (arg.Value? <==> TakesArgument(index))
    && (index in {RELOAD_TIME, DOMAIN} ==> arg.Value? && IsInteger(arg.value))
  }

  predicate DomainOk(arg: string)
    requires IsInteger(arg)
  {
    0 <= IntegerValue(arg) <= MAX_DOMAIN_ID
  }

  /** The switch statement: the effect of one option, and a result other than Success if
      it ends the function.  std::stol throws on a value that does not fit: for the domain
      the exception is caught, for the reload time it is not. */
  function Apply(a: Args, index: Index, arg: Nullable<string>): (r: (Args, Outcome))
    requires Acceptable(index, arg)
  {
    if index == CONFIGURATION_FILE then (a.(filePath := arg.value), Success)
    else if index == RELOAD_TIME then
      if FitsLong(IntegerValue(arg.value)) then (a.(reloadMillis := IntegerValue(arg.value) * 1000), Success)
      else (a, OutOfRange)
    else if index == ACTIVATE_DEBUG then
      (a.(logFilter := map[Error := "", Warning := "FASTDDSSPY", Info := "FASTDDSSPY"], verbosity := Info), Success)
    else if index == LOG_FILTER then
      (a.(logFilter := map[Error := arg.value, Warning := arg.value, Info := arg.value]), Success)
    else if index == LOG_VERBOSITY then (a.(verbosity := LogKind(arg.value)), Success)
    else if index == DOMAIN then
      if DomainOk(arg.value) then (a.(domain := Value(IntegerValue(arg.value))), Success) else (a, IncorrectArgument)
    else if index == UNKNOWN_OPT then (a, IncorrectArgument)
    else (a, Success)
  }

  datatype Setting = Setting(index: Index, arg: Nullable<string>)

  ghost predicate AllAcceptable(opts: seq<Setting>) {
    forall i :: 0 <= i < |opts| ==> Acceptable(opts[i].index, opts[i].arg)
  }

  ghost function ApplyAll(a: Args, opts: seq<Setting>): (Args, Outcome)
    requires AllAcceptable(opts)
    decreases |opts|
  {
    if opts == [] then (a, Success)
    else
      var (b, o) := Apply(a, opts[0].index, opts[0].arg);
      if o == Success then ApplyAll(b, opts[1..]) else (b, o)
  }

  function Has(opts: seq<Setting>, index: Index): bool {
    exists i :: 0 <= i < |opts| && opts[i].index == index
  }

  /** The argument of the last occurrence of an option. */
  function Last(opts: seq<Setting>, index: Index): Nullable<string> {
    if opts == [] then Null
    else if opts[|opts| - 1].index == index then opts[|opts| - 1].arg
    else Last(opts[..|opts| - 1], index)
  }

  predicate Ends(s: Setting)
    requires s.index in {RELOAD_TIME, DOMAIN} ==> s.arg.Value? && IsInteger(s.arg.value)
  {
    || s.index == UNKNOWN_OPT
    || (s.index == DOMAIN && !DomainOk(s.arg.value))
    || (s.index == RELOAD_TIME && !FitsLong(IntegerValue(s.arg.value)))
  }

  predicate IsDomain(arg: Nullable<string>, domain: Nullable<nat>) {
    arg.Value? && IsInteger(arg.value) && DomainOk(arg.value) && domain == Value(IntegerValue(arg.value))
  }

  /** The loop runs to its end exactly when no option is unknown, no domain is outside
      0..232 and no reload time overflows; then for each of these settings the last
      occurrence on the command line wins and a missing option leaves the old value. */
  lemma {:induction false} LastOccurrenceWins(a: Args, opts: seq<Setting>)
    requires AllAcceptable(opts)
    ensures var (b, o) := ApplyAll(a, opts);
      && (o == Success <==> forall i :: 0 <= i < |opts| ==> !Ends(opts[i]))
      && (o == Success ==>
            && b.oneShot == a.oneShot
            && b.filePath == (var l := Last(opts, CONFIGURATION_FILE); if l.Value? then l.value else a.filePath)
            && (!Has(opts, DOMAIN) ==> b.domain == a.domain)
            && (Has(opts, DOMAIN) ==> IsDomain(Last(opts, DOMAIN), b.domain)))
    decreases |opts|
  {
    if opts != [] {
      var n := |opts| - 1;
      LastOccurrenceWins(a, opts[..n]);
      ApplySnoc(a, opts);
      assert forall i :: 0 <= i < n ==> opts[..n][i] == opts[i];
      assert Has(opts, DOMAIN) <==> Has(opts[..n], DOMAIN) || opts[n].index == DOMAIN;
    }
  }

  lemma {:induction false} ApplySnoc(a: Args, opts: seq<Setting>)
    requires opts != [] && AllAcceptable(opts)
    ensures var n := |opts| - 1;
      AllAcceptable(opts[..n]) &&
      var (b, o) := ApplyAll(a, opts[..n]);
      ApplyAll(a, opts) == if o == Success then Apply(b, opts[n].index, opts[n].arg) else (b, o)
    decreases |opts|
  {
    var n := |opts| - 1;
    if n > 0 {
      var (b, o) := Apply(a, opts[0].index, opts[0].arg);
      assert opts[..n][1..] == opts[1..][..n - 1];
      if o == Success {
        ApplySnoc(b, opts[1..]);
      }
    } else {
      assert opts[..0] == [] && opts[1..] == [];
    }
  }

  /** The last of the settings that write a field. */
  function LastAmong(opts: seq<Setting>, writers: set<Index>): Nullable<Setting> {
    if opts == [] then Null
    else if opts[|opts| - 1].index in writers then Value(opts[|opts| - 1])
    else LastAmong(opts[..|opts| - 1], writers)
  }

  function Millis(arg: Nullable<string>): int {
    if arg.Value? && IsInteger(arg.value) then IntegerValue(arg.value) * 1000 else 0
  }

  function FilterOf(s: Setting): map<Verbosity, string> {
    if s.index == LOG_FILTER && s.arg.Value? then map[Error := s.arg.value, Warning := s.arg.value, Info := s.arg.value]
    else map[Error := "", Warning := "FASTDDSSPY", Info := "FASTDDSSPY"]
  }

  function VerbosityOf(s: Setting): Verbosity {
    if s.index == LOG_VERBOSITY && s.arg == Value("error") then Error
    else if s.index == LOG_VERBOSITY && s.arg == Value("warning") then Warning
    else Info
  }

  /** Debug mode writes both the log filter and the verbosity, so for these the last of two
      kinds of options decides; reload times are in seconds, the setting in milliseconds. */
  lemma {:induction false} LastLogOptionWins(a: Args, opts: seq<Setting>)
    requires AllAcceptable(opts) && ApplyAll(a, opts).1 == Success
    ensures var b := ApplyAll(a, opts).0;
      var reload, filter, verbosity :=
        LastAmong(opts, {RELOAD_TIME}), LastAmong(opts, {ACTIVATE_DEBUG, LOG_FILTER}),
        LastAmong(opts, {ACTIVATE_DEBUG, LOG_VERBOSITY});
      && b.reloadMillis == (if reload.Value? then Millis(reload.value.arg) else a.reloadMillis)
      && b.logFilter == (if filter.Value? then FilterOf(filter.value) else a.logFilter)
      && b.verbosity == (if verbosity.Value? then VerbosityOf(verbosity.value) else a.verbosity)
    decreases |opts|
  {
    if opts != [] {
      var n := |opts| - 1;
      ApplySnoc(a, opts);
      LastLogOptionWins(a, opts[..n]);
    }
  }

  // ----- parse_arguments

  class CommandlineArgsSpy {
    var oneShotCommand: seq<string>
    var filePath: string
    var reloadTime: int
    var logFilter: map<Verbosity, string>
    var logVerbosity: Verbosity
    var domain: Nullable<nat>

    function Now(): Args
      reads this
    {
      Args(oneShotCommand, filePath, reloadTime, logFilter, logVerbosity, domain)
    }

    /** The switch over one option; `r` other than Success leaves the function. */
    method ApplyOption(index: Index, arg: Nullable<string>) returns (r: Outcome)
      requires Acceptable(index, arg)
      modifies this
      ensures (Now(), r) == Apply(old(Now()), index, arg)
    {
      r := Success;
      if index == CONFIGURATION_FILE {
        filePath := arg.value;
      } else if index == RELOAD_TIME {
        var v := IntegerValue(arg.value);
        if !FitsLong(v) {
          return OutOfRange;
        }
        reloadTime := v * 1000;
      } else if index == ACTIVATE_DEBUG {
        logFilter := map[Error := "", Warning := "FASTDDSSPY", Info := "FASTDDSSPY"];
        logVerbosity := Info;
      } else if index == LOG_FILTER {
        logFilter := map[Error := arg.value, Warning := arg.value, Info := arg.value];
      } else if index == LOG_VERBOSITY {
        logVerbosity := LogKind(arg.value);
      } else if index == DOMAIN {
        var v := IntegerValue(arg.value);
        if !FitsLong(v) || v < 0 || v > MAX_DOMAIN_ID {
          return IncorrectArgument;
        }
        domain := Value(v);
      } else if index == UNKNOWN_OPT {
        return IncorrectArgument;
      }
    }
  }

  /** The options of a tool parse as (index, argument) pairs. */
  function SettingsOf(usage: seq<Descriptor>, opts: seq<Parsed>): (s: seq<Setting>)
    requires forall i :: 0 <= i < |opts| ==> opts[i].desc < |usage|
    ensures |s| == |opts|
  {
    seq(|opts|, i requires 0 <= i < |opts| => Setting(IndexOf(usage, opts[i]), opts[i].arg))
  }

  /** The whole command line as a specification: the verdict of the parse, then help, then
      version, then the options in order. */
  ghost function Outcomes(a: Args, r: Pass, opts: seq<Setting>): (Args, Outcome)
    requires AllAcceptable(opts)
  {
    if !r.Ok() || |opts| > INT_MAX then (a, IncorrectArgument)
    else
      var b := a.(oneShot := a.oneShot + r.NonOptions());
      if Has(opts, HELP) then (b, HelpArgument)
      else if Has(opts, VERSION) then (b, VersionArgument)
      else ApplyAll(b, opts)
  }

  lemma ToolSettings(readable: string -> bool, words: seq<string>)
    ensures var opts := Run(Tool(readable), false, words).Performed();
      (forall i :: 0 <= i < |opts| ==> opts[i].desc < |ToolUsage(readable)|) &&
      AllAcceptable(SettingsOf(ToolUsage(readable), opts))
  {
    hide Run;
    var opts := Run(Tool(readable), false, words).Performed();
    forall k | 0 <= k < |opts|
      ensures opts[k].desc < |ToolUsage(readable)| && Acceptable(IndexOf(ToolUsage(readable), opts[k]), opts[k].arg)
    {
      ToolOptionsCarryArguments(readable, false, words, k);
    }
  }

  lemma HasSlot(slots: Slots, stored: seq<Parsed>, idx: Index)
    requires slots.Contains(stored) && idx < |slots.options|
    requires forall i :: 0 <= i < |stored| ==> stored[i].desc < |slots.usage|
    ensures slots.options[idx].desc != Null <==> Has(SettingsOf(slots.usage, stored), idx)
  {
    SlotUsed(slots, stored, idx);
    var s := SettingsOf(slots.usage, stored);
    assert forall i :: 0 <= i < |s| ==> s[i].index == slots.usage[stored[i].desc].index;
  }

  method PushNonOptions(args: ArgVector, at: nat, count: nat, cla: CommandlineArgsSpy, ghost strings: seq<string>)
    requires Views(args[..], at, count, strings)
    modifies cla
    ensures cla.Now() == old(cla.Now()).(oneShot := old(cla.oneShotCommand) + strings)
  {
    ghost var before := cla.Now();
    var i := 0;
    while i < count
      invariant i <= count && cla.Now() == before.(oneShot := before.oneShot + strings[..i])
    {
      assert args[..][at..at + count][i] == Value(strings[i]);
      cla.oneShotCommand := cla.oneShotCommand + [args[at + i].value];
      i := i + 1;
    }
    assert strings[..count] == strings;
  }

  /** The loop over the buffer slots that the parser filled. */
  method ApplyOptions(slots: Slots, count: nat, cla: CommandlineArgsSpy, ghost stored: seq<Parsed>)
    returns (code: Outcome)
    requires count == |stored| <= |slots.buffer| && slots.Filled(stored) && slots.Indexed(stored)
    requires AllAcceptable(SettingsOf(slots.usage, stored))
    modifies cla
    ensures (cla.Now(), code) == ApplyAll(old(cla.Now()), SettingsOf(slots.usage, stored))
  {
    hide Acceptable, Apply;
    ghost var opts := SettingsOf(slots.usage, stored);
    var i := 0;
    while i < count
      invariant i <= count && ApplyAll(old(cla.Now()), opts) == ApplyAll(cla.Now(), opts[i..])
    {
      assert slots.buffer[i].Now().Holds(stored[i]);
      assert opts[i..][0] == opts[i] == Setting(slots.usage[stored[i].desc].index, stored[i].arg);
      assert opts[i..][1..] == opts[i + 1..];
      code := cla.ApplyOption(slots.usage[slots.buffer[i].desc.value].index, slots.buffer[i].arg);
      if code != Success {
        return;
      }
      i := i + 1;
    }
    code := Success;
  }

  /** What parse_arguments does once the vector is parsed without error. */
  method ActOnOptions(args: ArgVector, parser: Parser, slots: Slots, cla: CommandlineArgsSpy, ghost r: Pass)
    returns (code: Outcome)
    requires r.Ok() && |r.Performed()| <= INT_MAX && slots.Contains(r.Performed()) && parser.opCount == |r.Performed()|
    requires AllAcceptable(SettingsOf(slots.usage, r.Performed()))
    requires HELP < |slots.options| && VERSION < |slots.options|
    requires Views(args[..], parser.nonopArgs, parser.nonopCount, r.NonOptions())
    modifies cla
    ensures (cla.Now(), code) == Outcomes(old(cla.Now()), r, SettingsOf(slots.usage, r.Performed()))
  {
    ghost var stored := r.Performed();
    HasSlot(slots, stored, HELP);
    HasSlot(slots, stored, VERSION);
    assert slots.Filled(stored) && slots.Indexed(stored);
    hide Acceptable, Has, ApplyAll, Views, Slots.Chained, Slots.Filled, Slots.Contains;
    PushNonOptions(args, parser.nonopArgs, parser.nonopCount, cla, r.NonOptions());
    if slots.options[HELP].desc != Null {
      return HelpArgument;
    }
    if slots.options[VERSION].desc != Null {
      return VersionArgument;
    }
    code := ApplyOptions(slots, parser.opCount, cla, stored);
  }

  /** parse_arguments, after the program name has been dropped from the vector. */
  method ParseArguments(args: ArgVector, argc: nat, cla: CommandlineArgsSpy, readable: string -> bool)
    returns (code: Outcome)
    requires argc <= args.Length && argc == |Words(args[..], argc)|
    modifies args, cla
    ensures var r := Run(Tool(readable), false, Words(old(args[..]), argc));
      (forall i :: 0 <= i < |r.Performed()| ==> r.Performed()[i].desc < |ToolUsage(readable)|) &&
      AllAcceptable(SettingsOf(ToolUsage(readable), r.Performed())) &&
      (cla.Now(), code) == Outcomes(old(cla.Now()), r, SettingsOf(ToolUsage(readable), r.Performed()))
  {
    ghost var words := Words(args[..], argc);
    ghost var r := Run(Tool(readable), false, words);
    ToolSettings(readable, words);
    ToolIndices(readable);
    hide Run, Words, ToolUsage, Acceptable, Has, ApplyAll, Views, Slots.Contains, AllAcceptable;
    assert Tool(readable).usage == ToolUsage(readable);
    WhenItSuffices(Tool(readable), false, false, words);
    SecondPass(Tool(readable), false, false, words);
    var parser, slots := ParseMeasured(Tool(readable), false, false, args, argc);
    if parser.err {
      return IncorrectArgument;
    }
    assert r.Performed()[..|r.Performed()|] == r.Performed();
    code := ActOnOptions(args, parser, slots, cla, r);
  }

  lemma ToolIndices(readable: string -> bool)
    ensures exists i :: 0 <= i < |ToolUsage(readable)| && ToolUsage(readable)[i].index == HELP
    ensures exists i :: 0 <= i < |ToolUsage(readable)| && ToolUsage(readable)[i].index == VERSION
  {
    assert ToolUsage(readable)[2].index == HELP;
    assert ToolUsage(readable)[3].index == VERSION;
  }
}
