/** What the tool's command line means to its user: which number a text is, which spelling sets
    what, which result a vector has. */
module ToolMeaning {
  import opened Nullables
  import opened OptionTable
  import opened OptionSyntax
  import opened OptionMeaning
  import opened ToolArguments

  // ----- numbers

  function DigitChar(d: nat): char
    requires d < 10
  {
    ('0' as int + d) as char
  }

  /** The decimal numeral of `n`. */
  function Numeral(n: nat): string {
    if n < 10 then [DigitChar(n)] else Numeral(n / 10) + [DigitChar(n % 10)]
  }

  function Zeros(k: nat): string { seq(k, _ => '0') }

  /** The text is the number `n`: spaces, a sign or none, and a numeral that may begin with zeros. */
  ghost predicate Denotes(s: string, n: int) {
    exists spaces, sign, k: nat, m: nat :: Composed(s, n, spaces, sign, k, m)
  }

  predicate Composed(s: string, n: int, spaces: string, sign: string, k: nat, m: nat) {
    && s == spaces + (sign + (Zeros(k) + Numeral(m)))
    && (forall c :: c in spaces ==> c in {' ', '\t', '\n', '\r', '\U{0B}', '\U{0C}'})
    && sign in {"", "+", "-"} && n == if sign == "-" then 0 - m else m
  }

  /** One digit more is worth ten times as much, and the digit. */
  lemma DigitMore(s: string, d: nat)
    requires Digits(s) && d < 10
    ensures Digits(s + [DigitChar(d)]) && DigitsValue(s + [DigitChar(d)]) == 10 * DigitsValue(s) + d
  {
    assert (s + [DigitChar(d)])[..|s|] == s;
  }

  lemma DigitsNone()
    ensures Digits("") && DigitsValue("") == 0
  {
  }

  lemma {:induction false} ZerosValue(k: nat)
    ensures Digits(Zeros(k)) && DigitsValue(Zeros(k)) == 0
  {
    hide Digits, DigitsValue;
    DigitsNone();
    if k > 0 {
      ZerosValue(k - 1);
      DigitMore(Zeros(k - 1), 0);
      assert Zeros(k) == Zeros(k - 1) + [DigitChar(0)];
    } else {
      assert Zeros(k) == "";
    }
  }

  /** A numeral is worth its number, and zeros in front change nothing. */
  lemma {:induction false} NumeralValue(k: nat, n: nat)
    ensures Digits(Zeros(k) + Numeral(n)) && DigitsValue(Zeros(k) + Numeral(n)) == n
    decreases n
  {
    hide Digits, DigitsValue, Zeros;
    if n < 10 {
      ZerosValue(k);
      DigitMore(Zeros(k), n);
    } else {
      NumeralValue(k, n / 10);
      DigitMore(Zeros(k) + Numeral(n / 10), n % 10);
      Regroup(Zeros(k), Numeral(n / 10), [DigitChar(n % 10)]);
    }
  }

  lemma Regroup(a: string, b: string, c: string)
    ensures a + (b + c) == (a + b) + c
  {
  }

  lemma NumeralMore(n: nat, d: nat)
    requires d < 10 && n > 0
    ensures Numeral(10 * n + d) == Numeral(n) + [DigitChar(d)]
  {
    assert (10 * n + d) / 10 == n && (10 * n + d) % 10 == d;
  }

  lemma LastDigit(s: string) returns (d: nat)
    requires Digits(s) && s != ""
    ensures d < 10 && s == s[..|s| - 1] + [DigitChar(d)] && Digits(s[..|s| - 1])
    ensures DigitsValue(s) == 10 * DigitsValue(s[..|s| - 1]) + d
  {
    d := s[|s| - 1] as int - '0' as int;
  }

  lemma ZerosMore(k: nat)
    ensures Zeros(k) + [DigitChar(0)] == Zeros(k + 1)
    ensures Zeros(0) == ""
  {
  }

  /** Every text of digits is the numeral of its value, behind zeros. */
  lemma {:induction false} DigitsAreNumeral(s: string) returns (k: nat)
    requires Digits(s) && s != ""
    ensures s == Zeros(k) + Numeral(DigitsValue(s))
  {
    hide Digits, DigitsValue, Zeros, Numeral;
    var d := LastDigit(s);
    var t := s[..|s| - 1];
    k := 0;
    ZerosMore(0);
    NumeralSmall(d);
    DigitsNone();
    if t != "" {
      k := DigitsAreNumeral(t);
      var v := DigitsValue(t);
      if v == 0 {
        NumeralSmall(0);
        ZerosMore(k);
        k := k + 1;
      } else {
        NumeralMore(v, d);
        Regroup(Zeros(k), Numeral(v), [DigitChar(d)]);
      }
    }
  }

  lemma NumeralSmall(d: nat)
    requires d < 10
    ensures Numeral(d) == [DigitChar(d)]
  {
  }

  // ----- signs and spaces

  lemma SpacesSkip(c: char, s: string)
    requires IsSpace(c)
    ensures IsInteger([c] + s) == IsInteger(s)
    ensures IsInteger(s) ==> IntegerValue([c] + s) == IntegerValue(s)
  {
    assert ([c] + s)[1..] == s;
  }

  lemma SignedIs(sign: string, s: string)
    requires sign in {"", "+", "-"} && Digits(s) && s != ""
    ensures IsInteger(sign + s)
    ensures IntegerValue(sign + s) == if sign == "-" then 0 - DigitsValue(s) else DigitsValue(s)
  {
    assert sign != "" ==> (sign + s)[1..] == s;
    assert "" + s == s;
  }

  lemma {:induction false} SpacedIs(spaces: string, s: string)
    requires forall c :: c in spaces ==> IsSpace(c)
    ensures IsInteger(spaces + s) == IsInteger(s)
    ensures IsInteger(s) ==> IntegerValue(spaces + s) == IntegerValue(s)
  {
    if spaces == "" {
      assert spaces + s == s;
    } else {
      SpacedIs(spaces[1..], s);
      SpacesSkip(spaces[0], spaces[1..] + s);
      assert spaces + s == [spaces[0]] + (spaces[1..] + s);
    }
  }

  lemma SpaceIs(c: char)
    ensures IsSpace(c) <==> c in {' ', '\t', '\n', '\r', '\U{0B}', '\U{0C}'}
  {
  }

  lemma DenotedValue(s: string, n: int)
    requires Denotes(s, n)
    ensures IsInteger(s) && IntegerValue(s) == n
  {
    var spaces, sign, k: nat, m: nat :| Composed(s, n, spaces, sign, k, m);
    hide Numeral, Zeros, IsInteger, IntegerValue, IsSpace, Digits, DigitsValue;
    NumeralValue(k, m);
    NumeralNotEmpty(m);
    SignedIs(sign, Zeros(k) + Numeral(m));
    forall c | c in spaces ensures IsSpace(c) { SpaceIs(c); }
    SpacedIs(spaces, sign + (Zeros(k) + Numeral(m)));
  }

  lemma NumeralNotEmpty(n: nat)
    ensures Numeral(n) != ""
  {
  }

  lemma SpaceInFront(c: char, s: string, n: int)
    requires IsSpace(c) && Denotes(s, n)
    ensures Denotes([c] + s, n)
  {
    hide Numeral, Zeros;
    var spaces, sign, k: nat, m: nat :| Composed(s, n, spaces, sign, k, m);
    SpaceIs(c);
    Regroup([c], spaces, sign + (Zeros(k) + Numeral(m)));
    assert Composed([c] + s, n, [c] + spaces, sign, k, m);
  }

  lemma SignedParts(s: string) returns (sign: string, d: string)
    requires IsInteger(s) && !IsSpace(s[0])
    ensures s == sign + d && sign in {"", "+", "-"} && Digits(d) && d != ""
  {
    if s[0] in "+-" {
      sign, d := [s[0]], s[1..];
    } else {
      sign, d := "", s;
      assert "" + s == s;
    }
  }

  lemma SignedDenotes(s: string)
    requires IsInteger(s) && !IsSpace(s[0])
    ensures Denotes(s, IntegerValue(s))
  {
    var sign, d := SignedParts(s);
    hide Numeral, Zeros, DigitsValue, IsSpace, IntegerValue, IsInteger, Digits;
    var k := DigitsAreNumeral(d);
    SignedIs(sign, d);
    assert s == "" + (sign + d);
    assert Composed(s, IntegerValue(s), "", sign, k, DigitsValue(d));
  }

  lemma {:induction false} IntegerDenotes(s: string)
    requires IsInteger(s)
    ensures Denotes(s, IntegerValue(s))
    decreases |s|
  {
    hide Denotes, IsSpace;
    if IsSpace(s[0]) {
      IntegerDenotes(s[1..]);
      SpaceInFront(s[0], s[1..], IntegerValue(s[1..]));
      assert s == [s[0]] + s[1..];
    } else {
      SignedDenotes(s);
    }
  }

  /** What a numeric check accepts are the texts of numbers, and it reads each as its number. */
  lemma IntegersAreNumbers(s: string)
    ensures IsInteger(s) <==> exists n: int :: Denotes(s, n)
    ensures forall n: int :: Denotes(s, n) ==> IntegerValue(s) == n
  {
    hide IsInteger, IntegerValue, Denotes;
    if IsInteger(s) { IntegerDenotes(s); }
    forall n: int | Denotes(s, n) ensures IsInteger(s) && IntegerValue(s) == n { DenotedValue(s, n); }
  }

  // ----- spellings

  /** What the letters stand for; all others are unknown. */
  function LetterIndex(c: char): Index {
    match c
    case 'h' => HELP
    case 'v' => VERSION
    case 'c' => CONFIGURATION_FILE
    case 'r' => RELOAD_TIME
    case 'd' => ACTIVATE_DEBUG
    case _ => UNKNOWN_OPT
  }

  /** What the long names stand for, alone or in front of '='; all others are unknown. */
  function NameIndex(name: string): Index {
    match name
    case "help" => HELP
    case "version" => VERSION
    case "config-path" => CONFIGURATION_FILE
    case "reload-time" => RELOAD_TIME
    case "domain" => DOMAIN
    case "debug" => ACTIVATE_DEBUG
    case "log-filter" => LOG_FILTER
    case "log-verbosity" => LOG_VERBOSITY
    case _ => UNKNOWN_OPT
  }

  predicate NameOf(text: string, name: string) {
    '=' !in name && (text == name || name + "=" <= text)
  }

  lemma SameName(text: string, l: string, name: string)
    requires NameOf(text, name) && '=' !in l
    ensures (text == l || l + "=" <= text) <==> l == name
  {
    if l + "=" <= text { assert l == text[..|l|] && text[|l|] == (l + "=")[|l|] == '='; }
    if name + "=" <= text { assert name == text[..|name|] && text[|name|] == (name + "=")[|name|] == '='; }
  }

  predicate Spelled(index: Index, shortopt: string, longopt: string) {
    '=' !in longopt && index == NameIndex(longopt) && forall c :: c in shortopt ==> index == LetterIndex(c)
  }

  lemma SpelledRows()
    ensures Spelled(UNKNOWN_OPT, "", "") && Spelled(HELP, "h", "help") && Spelled(VERSION, "v", "version")
    ensures Spelled(CONFIGURATION_FILE, "c", "config-path") && Spelled(RELOAD_TIME, "r", "reload-time")
    ensures Spelled(DOMAIN, "", "domain") && Spelled(ACTIVATE_DEBUG, "d", "debug")
    ensures Spelled(LOG_FILTER, "", "log-filter") && Spelled(LOG_VERBOSITY, "", "log-verbosity")
  {
  }

  /** The rows and their names. */
  lemma ToolRows(readable: string -> bool)
    ensures var u := ToolUsage(readable);
      && |u| == 13 && (forall d :: 0 <= d < 13 ==> Spelled(u[d].index, u[d].shortopt, u[d].longopt))
      && u[0].shortopt == u[0].longopt == "" && u[0].index == UNKNOWN_OPT
  {
    SpelledRows();
    hide Spelled;
  }

  /** Every known name is in some row. */
  lemma ToolNamesOccur(readable: string -> bool, name: string) returns (d: nat)
    requires NameIndex(name) != UNKNOWN_OPT
    ensures d < |ToolUsage(readable)| && ToolUsage(readable)[d].longopt == name
  {
    var u := ToolUsage(readable);
    d := match name
      case "help" => 2
      case "version" => 3
      case "config-path" => 5
      case "reload-time" => 6
      case "domain" => 7
      case "debug" => 9
      case "log-filter" => 10
      case _ => 11;
  }

  lemma ToolLettersOccur(readable: string -> bool, c: char) returns (d: nat)
    requires LetterIndex(c) != UNKNOWN_OPT
    ensures d < |ToolUsage(readable)| && c in ToolUsage(readable)[d].shortopt
  {
    d := match c
      case 'h' => 2
      case 'v' => 3
      case 'c' => 5
      case 'r' => 6
      case _ => 9;
  }

  /** A name belongs to the row with its index, and an unknown one to the dummy row. */
  lemma ToolName(readable: string -> bool, text: string, name: string, d: nat)
    requires NameOf(text, name) && RowOfLong(Tool(readable), text, d)
    ensures d < |ToolUsage(readable)| && ToolUsage(readable)[d].index == NameIndex(name)
  {
    ToolRows(readable);
    var u := ToolUsage(readable);
    forall k | 0 <= k < 13
      ensures (text == u[k].longopt || u[k].longopt + "=" <= text) <==> u[k].longopt == name
    {
      SameName(text, u[k].longopt, name);
    }
    hide ToolUsage;
    if NameIndex(name) != UNKNOWN_OPT {
      var k := ToolNamesOccur(readable, name);
    }
  }

  lemma ToolLetter(readable: string -> bool, c: char, d: nat)
    requires RowOfShort(ToolUsage(readable), c, d)
    ensures d < |ToolUsage(readable)| && ToolUsage(readable)[d].index == LetterIndex(c)
  {
    ToolRows(readable);
    hide ToolUsage;
    if LetterIndex(c) != UNKNOWN_OPT {
      var k := ToolLettersOccur(readable, c);
    }
  }

  // ----- arguments

  /** The options that need an argument, and the arguments they accept. */
  ghost predicate Valid(readable: string -> bool, index: Index, arg: string) {
    match index
    case 2 => readable(arg)                          // configuration file
    case 3 => exists n: int :: Denotes(arg, n)       // reload time
    case 8 => exists n: int :: Denotes(arg, n)       // domain
    case 6 => true                                   // log filter
    case 7 => arg == "error" || arg == "warning" || arg == "info"
    case _ => false
  }

  predicate Flag(index: Index) { index !in {2, 3, 8, 6, 7} }

  lemma ToolChecks(readable: string -> bool, d: nat, name: string, arg: Nullable<string>)
    requires d < |ToolUsage(readable)|
    ensures var e := ToolUsage(readable)[d];
      e.check(name, arg) ==
        if Flag(e.index) then ArgNone
        else if arg.Value? && Valid(readable, e.index, arg.value) then ArgOk else ArgIllegal
  {
    RowsOf(readable, d);
    if arg.Value? { IntegersAreNumbers(arg.value); }
    hide IsInteger, Denotes;
  }

  /** What one option of the tool makes of a word: rejected, or performed with an argument, the
      next string if that is the only one there is, or performed without. */
  ghost predicate ToolReads(readable: string -> bool, index: Index, attached: Nullable<string>, next: Nullable<string>,
                            w: Word) {
    var u := ToolUsage(readable);
    var arg := if attached.Value? then attached else next;
    if Flag(index) then PerformedAs(u, w, index, Null) && !w.eats
    else if arg.Value? && Valid(readable, index, arg.value) then
      PerformedAs(u, w, index, arg) && w.eats == attached.Null?
    else w.illegal && w.opts == []
  }

  predicate PerformedAs(usage: seq<Descriptor>, w: Word, index: Index, arg: Nullable<string>) {
    && !w.illegal && |w.opts| == 1 && w.opts[0].desc < |usage|
    && usage[w.opts[0].desc].index == index && w.opts[0].arg == arg
  }

  lemma ToolAsked(readable: string -> bool, d: nat, name: string, attached: Nullable<string>, next: Nullable<string>,
                  w: Word)
    requires d < |ToolUsage(readable)|
    requires Asked(ToolUsage(readable), d, name, if attached.Value? then attached else next, attached.Null?, w)
    ensures ToolReads(readable, ToolUsage(readable)[d].index, attached, next, w)
  {
    ToolChecks(readable, d, name, if attached.Value? then attached else next);
    hide ToolUsage, Valid;
  }

  lemma LongReadIs(cfg: Settings, param: string, text: string, next: Nullable<string>, w: Word) returns (d: nat)
    requires LongRead(cfg, param, text, next, w)
    ensures RowOfLong(cfg, text, d)
    ensures d == |cfg.usage| || (if '=' in text then AttachedRead(cfg, d, param, text, w)
                                 else Asked(cfg.usage, d, param, next, true, w))
  {
    hide RowOfLong, Asked;
    d :| RowOfLong(cfg, text, d) &&
      if d == |cfg.usage| then w == Word([], false, false)
      else if '=' in text then AttachedRead(cfg, d, param, text, w)
      else Asked(cfg.usage, d, param, next, true, w);
  }

  lemma LongTextOfTool(readable: string -> bool, param: string, name: string, attached: Nullable<string>,
                       next: Nullable<string>, w: Word)
    requires '=' !in name
    requires LongRead(Tool(readable), param, name + (if attached.Value? then "=" + attached.value else ""), next, w)
    ensures ToolReads(readable, NameIndex(name), attached, next, w)
  {
    hide ToolUsage, RowOfLong, Asked, ToolReads, NameIndex, LongRead, AttachedRead;
    var text := name + if attached.Value? then "=" + attached.value else "";
    var d := LongReadIs(Tool(readable), param, text, next, w);
    assert Tool(readable).usage == ToolUsage(readable);
    assert NameOf(text, name);
    ToolName(readable, text, name, d);
    if attached.Value? {
      assert text[|name|] == '=';
      assert text == name + "=" + attached.value;
      AttachedIs(Tool(readable), d, param, name, attached.value, w);
    } else {
      assert text == name;
    }
    ToolAsked(readable, d, param, attached, next, w);
  }

  /** `--name` and `--name=value`. */
  lemma LongOfTool(readable: string -> bool, name: string, attached: Nullable<string>, next: Nullable<string>)
    requires '=' !in name && (name != "" || attached.Value?)
    ensures var param := "--" + (name + if attached.Value? then "=" + attached.value else "");
      OptionWord(param) && ToolReads(readable, NameIndex(name), attached, next, ParseWord(Tool(readable), param, next))
  {
    hide ToolUsage, ParseWord, ToolReads, NameIndex, LongRead;
    var text := name + if attached.Value? then "=" + attached.value else "";
    var param := "--" + text;
    assert param[2..] == text && param[1] == '-';
    WordIsRead(Tool(readable), param, next);
    LongTextOfTool(readable, param, name, attached, next, ParseWord(Tool(readable), param, next));
  }

  lemma NotBehind(text: string, a: nat, e: nat)
    requires a < |text| && text[a] == '=' && e <= |text| && '=' !in text[..e]
    ensures e <= a
  {
    assert forall i :: 0 <= i < e ==> text[i] == text[..e][i];
  }

  lemma AttachedIs(cfg: Settings, d: nat, param: string, name: string, value: string, w: Word)
    requires '=' !in name && AttachedRead(cfg, d, param, name + "=" + value, w)
    ensures Asked(cfg.usage, d, param, Value(value), false, w)
  {
    hide Asked;
    var text := name + "=" + value;
    var e: nat :| e < |text| && text[e] == '=' && '=' !in text[..e] &&
      Asked(cfg.usage, d, param, Value(text[e + 1..]), false, w);
    assert text[..|name|] == name;
    NotBehind(text, |name|, e);
    NotBehind(text, e, |name|);
    assert text[e + 1..] == value;
  }

  /** A flag in a group: performed, and the group goes on. */
  ghost predicate FlagThen(readable: string -> bool, index: Index, rest: string, next: Nullable<string>, w: Word) {
    exists u, d: nat, name ::
      GroupRead(ToolUsage(readable), rest, next, u) && FlagAndRest(readable, index, d, name, u, w)
  }

  predicate FlagAndRest(readable: string -> bool, index: Index, d: nat, name: string, u: Word, w: Word) {
    && d < |ToolUsage(readable)| && ToolUsage(readable)[d].index == index
    && w == Word([Parsed(d, name, Null)] + u.opts, u.eats, u.illegal)
  }

  /** `-x...`: the letters are options; one that needs an argument takes what is behind it or, as
      the last one, the next string. */
  lemma LettersOfTool(readable: string -> bool, text: string, next: Nullable<string>, w: Word)
    requires text != "" && GroupRead(ToolUsage(readable), text, next, w)
    ensures var index := LetterIndex(text[0]);
      if Flag(index) then FlagThen(readable, index, text[1..], next, w)
      else ToolReads(readable, index, if |text| > 1 then Value(text[1..]) else Null, next, w)
  {
    hide ToolUsage, ToolReads, Flag, RowOfShort, Asked, GroupRead, LetterIndex;
    var d := GroupLetter(ToolUsage(readable), text, next, w);
    ToolLetter(readable, text[0], d);
    var attached := if |text| > 1 then Value(text[1..]) else Null;
    var arg := if attached.Value? then attached else next;
    ToolChecks(readable, d, text, arg);
    hide Valid;
    if ToolUsage(readable)[d].check(text, arg) in {ArgIllegal, ArgOk} {
      ToolAsked(readable, d, text, attached, next, w);
    } else {
      var u :| GroupRead(ToolUsage(readable), text[1..], next, u) &&
        w == Word([Parsed(d, text, Null)] + u.opts, u.eats, u.illegal);
      assert FlagAndRest(readable, LetterIndex(text[0]), d, text, u, w);
    }
  }

  lemma GroupLetter(usage: seq<Descriptor>, text: string, next: Nullable<string>, w: Word) returns (d: nat)
    requires text != "" && GroupRead(usage, text, next, w)
    ensures RowOfShort(usage, text[0], d) && LetterRead(usage, d, text, next, w)
  {
    d :| RowOfShort(usage, text[0], d) && LetterRead(usage, d, text, next, w);
  }

  // ----- unknown options

  /** A letter of the group is unknown, and none before it takes what is behind it. */
  predicate UnknownLetter(text: string) {
    text != "" &&
    (LetterIndex(text[0]) == UNKNOWN_OPT || (Flag(LetterIndex(text[0])) && UnknownLetter(text[1..])))
  }

  /** The last letter of the group needs an argument, and none before it does. */
  predicate OpenLetter(text: string) {
    text != "" &&
    if |text| == 1 then !Flag(LetterIndex(text[0])) else Flag(LetterIndex(text[0])) && OpenLetter(text[1..])
  }

  /** The name in front of the first '='. */
  function NameIn(text: string): (n: string)
    ensures NameOf(text, n)
  {
    if text == "" || text[0] == '=' then
      assert text != "" ==> text[..1] == "" + "=";
      ""
    else
      var n := NameIn(text[1..]);
      assert text == [text[0]] + text[1..];
      assert [text[0]] + n + "=" == [text[0]] + (n + "=");
      [text[0]] + n
  }

  predicate UnknownWord(w: string)
    requires |w| >= 2
  {
    if w[1] == '-' then NameIndex(NameIn(w[2..])) == UNKNOWN_OPT else UnknownLetter(w[1..])
  }

  /** The word needs the next string. */
  predicate OpenWord(w: string)
    requires |w| >= 2
  {
    if w[1] == '-' then !Flag(NameIndex(NameIn(w[2..]))) && NameIn(w[2..]) == w[2..] else OpenLetter(w[1..])
  }

  /** Going through the vector, some word has an unknown option. */
  predicate UnknownIn(words: seq<string>)
    decreases |words|
  {
    && words != [] && |words[0]| >= 2 && words[0][0] == '-' && words[0] != "--"
    && (UnknownWord(words[0]) ||
        if OpenWord(words[0]) then |words| > 1 && UnknownIn(words[2..]) else UnknownIn(words[1..]))
  }

  ghost predicate HasIndex(usage: seq<Descriptor>, opts: seq<Parsed>, index: Index) {
    exists i :: 0 <= i < |opts| && opts[i].desc < |usage| && usage[opts[i].desc].index == index
  }

  lemma HasTogether(usage: seq<Descriptor>, a: seq<Parsed>, b: seq<Parsed>, index: Index)
    ensures HasIndex(usage, a + b, index) <==> HasIndex(usage, a, index) || HasIndex(usage, b, index)
  {
    var all := a + b;
    assert forall i :: 0 <= i < |a| ==> all[i] == a[i];
    assert forall i :: 0 <= i < |b| ==> all[|a| + i] == b[i];
  }

  lemma HasOne(usage: seq<Descriptor>, p: Parsed, index: Index)
    requires p.desc < |usage|
    ensures HasIndex(usage, [p], index) <==> usage[p.desc].index == index
    ensures !HasIndex(usage, [], index)
  {
    assert [p][0] == p;
  }

  lemma ReadsUnknown(readable: string -> bool, index: Index, attached: Nullable<string>, next: Nullable<string>,
                     w: Word)
    requires ToolReads(readable, index, attached, next, w) && !w.illegal
    ensures HasIndex(ToolUsage(readable), w.opts, UNKNOWN_OPT) <==> index == UNKNOWN_OPT
    ensures w.eats <==> !Flag(index) && attached.Null?
  {
    hide ToolUsage, Valid;
    assert w.opts == [w.opts[0]];
  }

  lemma FlagThenIs(readable: string -> bool, index: Index, rest: string, next: Nullable<string>, w: Word)
    returns (u: Word)
    requires FlagThen(readable, index, rest, next, w)
    ensures GroupRead(ToolUsage(readable), rest, next, u) && w.eats == u.eats && w.illegal == u.illegal
    ensures HasIndex(ToolUsage(readable), w.opts, UNKNOWN_OPT) <==>
      index == UNKNOWN_OPT || HasIndex(ToolUsage(readable), u.opts, UNKNOWN_OPT)
  {
    hide ToolUsage, GroupRead, HasIndex;
    var d: nat, name;
    u, d, name :| GroupRead(ToolUsage(readable), rest, next, u) && FlagAndRest(readable, index, d, name, u, w);
    HasTogether(ToolUsage(readable), [Parsed(d, name, Null)], u.opts, UNKNOWN_OPT);
    HasOne(ToolUsage(readable), Parsed(d, name, Null), UNKNOWN_OPT);
  }

  lemma GroupNone(usage: seq<Descriptor>, next: Nullable<string>, w: Word)
    requires GroupRead(usage, "", next, w)
    ensures w == Word([], false, false) && !HasIndex(usage, w.opts, UNKNOWN_OPT)
  {
  }

  lemma {:induction false} GroupUnknown(readable: string -> bool, text: string, next: Nullable<string>, w: Word)
    requires GroupRead(ToolUsage(readable), text, next, w) && !w.illegal
    ensures HasIndex(ToolUsage(readable), w.opts, UNKNOWN_OPT) <==> UnknownLetter(text)
    ensures w.eats <==> OpenLetter(text)
    decreases |text|
  {
    hide ToolUsage, GroupRead, HasIndex, LetterIndex, ToolReads, FlagThen;
    if text == "" {
      GroupNone(ToolUsage(readable), next, w);
    } else {
      LettersOfTool(readable, text, next, w);
      var index := LetterIndex(text[0]);
      if Flag(index) {
        var u := FlagThenIs(readable, index, text[1..], next, w);
        GroupUnknown(readable, text[1..], next, u);
        assert |text| == 1 ==> !OpenLetter(text[1..]);
      } else {
        ReadsUnknown(readable, index, if |text| > 1 then Value(text[1..]) else Null, next, w);
      }
    }
  }

  lemma CutBehind(text: string, n: string)
    requires n + "=" <= text
    ensures |n| < |text| && text[|n|] == '=' && text == n + ("=" + text[|n| + 1..])
  {
    var m := n + "=";
    assert text == m + text[|m|..];
    assert text[|n|] == m[|n|];
  }

  lemma NameSplit(text: string)
    ensures var n := NameIn(text);
      (n == text <==> '=' !in text) && (n != text ==> |n| < |text| && text == n + ("=" + text[|n| + 1..]))
  {
    var n := NameIn(text);
    hide NameIn;
    if n != text { CutBehind(text, n); }
  }

  /** In an accepted word: which words have an unknown option, and which take the next string. */
  lemma WordUnknown(readable: string -> bool, param: string, next: Nullable<string>)
    requires OptionWord(param) && !ParseWord(Tool(readable), param, next).illegal
    ensures var w := ParseWord(Tool(readable), param, next);
      && (HasIndex(ToolUsage(readable), w.opts, UNKNOWN_OPT) <==> UnknownWord(param))
      && (w.eats <==> OpenWord(param))
  {
    hide ToolUsage, GroupRead, HasIndex, NameIndex, ToolReads, LongRead, ParseWord, UnknownLetter, OpenLetter, NameIn;
    var w := ParseWord(Tool(readable), param, next);
    WordIsRead(Tool(readable), param, next);
    if param[1] == '-' {
      var text := param[2..];
      var n := NameIn(text);
      NameSplit(text);
      var attached := if n == text then Null else Value(text[|n| + 1..]);
      assert text == n + if attached.Value? then "=" + attached.value else "";
      LongTextOfTool(readable, param, n, attached, next, w);
      ReadsUnknown(readable, NameIndex(n), attached, next, w);
    } else {
      GroupUnknown(readable, param[1..], next, w);
    }
  }

  /** An accepted vector performs the option for unknown ones exactly if it has one: `--foo` is no
      option of the tool and does not go unnoticed. */
  lemma {:induction false} VectorUnknown(readable: string -> bool, words: seq<string>)
    requires Run(Tool(readable), false, words).Ok()
    ensures HasIndex(ToolUsage(readable), Run(Tool(readable), false, words).Performed(), UNKNOWN_OPT) <==>
      UnknownIn(words)
    decreases |words|
  {
    hide ToolUsage, HasIndex, ParseWord, Run, UnknownWord, OpenWord;
    var cfg := Tool(readable);
    RunEmpty(cfg, false);
    var u := ToolUsage(readable);
    NoneHas(u);
    if words != [] {
      WordKinds(words[0]);
      if Terminator(words[0]) {
        UnfoldEnd(cfg, false, words);
      } else if NonOption(words[0]) {
        UnfoldPosixEnd(cfg, words);
      } else {
        UnfoldAny(cfg, false, words);
        WordUnknown(readable, words[0], Next(words));
        var w := ParseWord(cfg, words[0], Next(words));
        var n := if w.eats then 2 else 1;
        var t := Run(cfg, false, words[n..]);
        VectorUnknown(readable, words[n..]);
        assert Run(cfg, false, words).Performed() == w.opts + t.Performed();
        HasTogether(u, w.opts, t.Performed(), UNKNOWN_OPT);
      }
    }
  }

  lemma NoneHas(usage: seq<Descriptor>)
    ensures !HasIndex(usage, [], UNKNOWN_OPT)
  {
  }

  // ----- the result of a command line

  /** The texts of numbers a domain, or a reload time, can be. */
  ghost predicate Between(arg: string, low: int, high: int) {
    exists n: int :: Denotes(arg, n) && low <= n <= high
  }

  ghost predicate BadDomain(s: Setting) {
    s.index == DOMAIN && s.arg.Value? && !Between(s.arg.value, 0, 232)
  }

  ghost predicate BadReloadTime(s: Setting) {
    s.index == RELOAD_TIME && s.arg.Value? && !Between(s.arg.value, -0x8000_0000_0000_0000, 0x7fff_ffff_ffff_ffff)
  }

  lemma BetweenIs(arg: string, low: int, high: int)
    requires IsInteger(arg)
    ensures Between(arg, low, high) <==> low <= IntegerValue(arg) <= high
  {
    hide IsInteger, IntegerValue, Denotes;
    IntegersAreNumbers(arg);
  }

  lemma EndsIs(s: Setting)
    requires Acceptable(s.index, s.arg)
    ensures Ends(s) <==> s.index == UNKNOWN_OPT || BadDomain(s) || BadReloadTime(s)
  {
    hide IsInteger, IntegerValue, Between;
    if s.index == DOMAIN { BetweenIs(s.arg.value, 0, 232); }
    if s.index == RELOAD_TIME { BetweenIs(s.arg.value, -0x8000_0000_0000_0000, 0x7fff_ffff_ffff_ffff); }
  }

  /** Only a reload time can be out of range, and the other results are these two. */
  lemma {:induction false} LoopResults(a: Args, opts: seq<Setting>)
    requires AllAcceptable(opts)
    ensures var o := ApplyAll(a, opts).1;
      && o in {Success, IncorrectArgument, OutOfRange}
      && (o == OutOfRange ==> exists i :: 0 <= i < |opts| && BadReloadTime(opts[i]))
      && ApplyAll(a, opts).0.oneShot == a.oneShot
    decreases |opts|
  {
    if opts != [] {
      var (b, o) := Apply(a, opts[0].index, opts[0].arg);
      if o == Success {
        assert forall i :: 0 <= i < |opts| - 1 ==> opts[1..][i] == opts[i + 1];
        LoopResults(b, opts[1..]);
      } else {
        EndsIs(opts[0]);
      }
    }
  }

  ghost predicate Accepted(r: Pass) { r.Ok() && |r.Performed()| < 0x8000_0000 }

  lemma HasIs(readable: string -> bool, opts: seq<Parsed>, index: Index)
    requires forall i :: 0 <= i < |opts| ==> opts[i].desc < |ToolUsage(readable)|
    ensures Has(SettingsOf(ToolUsage(readable), opts), index) <==> HasIndex(ToolUsage(readable), opts, index)
  {
    hide ToolUsage;
    var s := SettingsOf(ToolUsage(readable), opts);
    assert forall i :: 0 <= i < |opts| ==> s[i].index == ToolUsage(readable)[opts[i].desc].index;
  }

  /** Which result a command line has: a rejected one is incorrect and changes nothing; help goes
      before version, and both before everything else; then it succeeds exactly if no option is
      unknown and every number is in its range. */
  lemma ResultOf(a: Args, readable: string -> bool, words: seq<string>)
    ensures WellFormed(readable, words)
    ensures var r := Run(Tool(readable), false, words);
      var u, s := ToolUsage(readable), SettingsOf(ToolUsage(readable), r.Performed());
      var (b, o) := Outcomes(a, r, s);
      && (!Accepted(r) ==> (b, o) == (a, IncorrectArgument))
      && (Accepted(r) ==> b.oneShot == a.oneShot + r.NonOptions())
      && (o == HelpArgument <==> Accepted(r) && HasIndex(u, r.Performed(), HELP))
      && (o == VersionArgument <==>
            Accepted(r) && !HasIndex(u, r.Performed(), HELP) && HasIndex(u, r.Performed(), VERSION))
      && (o in {HelpArgument, VersionArgument} ==> b == a.(oneShot := a.oneShot + r.NonOptions()))
      && (o == Success <==>
            && Accepted(r) && !HasIndex(u, r.Performed(), HELP) && !HasIndex(u, r.Performed(), VERSION)
            && !UnknownIn(words) && forall i :: 0 <= i < |s| ==> !BadDomain(s[i]) && !BadReloadTime(s[i]))
      && (o == OutOfRange ==> exists i :: 0 <= i < |s| && BadReloadTime(s[i]))
  {
    hide Run, ToolUsage, HasIndex, Has, ApplyAll, Acceptable, BadDomain, BadReloadTime, UnknownIn, Ends;
    ToolSettings(readable, words);
    var r := Run(Tool(readable), false, words);
    var s := SettingsOf(ToolUsage(readable), r.Performed());
    HasIs(readable, r.Performed(), HELP);
    HasIs(readable, r.Performed(), VERSION);
    HasIs(readable, r.Performed(), UNKNOWN_OPT);
    if r.Ok() { VectorUnknown(readable, words); }
    var b := a.(oneShot := a.oneShot + r.NonOptions());
    LoopResults(b, s);
    LastOccurrenceWins(b, s);
    AllEndsIs(s);
  }

  lemma AllEndsIs(s: seq<Setting>)
    requires AllAcceptable(s)
    ensures (forall i :: 0 <= i < |s| ==> !Ends(s[i])) <==>
      !Has(s, UNKNOWN_OPT) && forall i :: 0 <= i < |s| ==> !BadDomain(s[i]) && !BadReloadTime(s[i])
  {
    hide Ends, BadDomain, BadReloadTime;
    forall i | 0 <= i < |s|
      ensures Acceptable(s[i].index, s[i].arg)
      ensures Ends(s[i]) <==> s[i].index == UNKNOWN_OPT || BadDomain(s[i]) || BadReloadTime(s[i])
    {
      EndsIs(s[i]);
    }
  }

  /** Every performed option has a row, and an argument where it needs one. */
  ghost predicate WellFormed(readable: string -> bool, words: seq<string>) {
    var opts := Run(Tool(readable), false, words).Performed();
    && (forall i :: 0 <= i < |opts| ==> opts[i].desc < |ToolUsage(readable)|)
    && AllAcceptable(SettingsOf(ToolUsage(readable), opts))
  }
}
