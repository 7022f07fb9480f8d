/** What a command line says, told without searches and scans: which row of the table a name
    belongs to, what one word asks for, what a whole vector contains.  The pass of the parser
    does what is said here. */
module OptionMeaning {
  import opened Nullables
  import opened OptionTable
  import opened OptionSyntax

  // ----- kinds of words

  /** The three kinds of strings: "--", options, and everything else, a lone minus included. */
  lemma WordKinds(w: string)
    ensures Terminator(w) <==> w == "--"
    ensures NonOption(w) <==> w == "" || w == "-" || w[0] != '-'
    ensures OptionWord(w) <==> |w| >= 2 && w[0] == '-' && w != "--"
  {
  }

  // ----- the row of a name

  ghost predicate FirstRow(usage: seq<Descriptor>, hit: Descriptor -> bool, d: nat) {
    d < |usage| && hit(usage[d]) && forall k :: 0 <= k < d ==> !hit(usage[k])
  }

  ghost predicate SomeRow(usage: seq<Descriptor>, hit: Descriptor -> bool) {
    exists k :: 0 <= k < |usage| && hit(usage[k])
  }

  /** Where an unknown option goes: to the first row that has neither name, or, if every row
      has a name, nowhere. */
  ghost predicate RowOfUnknown(usage: seq<Descriptor>, d: nat) {
    var blank := (e: Descriptor) => e.shortopt == "" && e.longopt == "";
    if SomeRow(usage, blank) then FirstRow(usage, blank, d) else d == |usage|
  }

  /** The row of a short option: the first one that lists the character. */
  ghost predicate RowOfShort(usage: seq<Descriptor>, c: char, d: nat) {
    var lists := (e: Descriptor) => c in e.shortopt;
    if SomeRow(usage, lists) then FirstRow(usage, lists, d) else RowOfUnknown(usage, d)
  }

  /** `l` and `text` agree in exactly their first `k` characters. */
  predicate AgreeFor(l: string, text: string, k: nat) {
    && k <= |l| && k <= |text| && l[..k] == text[..k]
    && (k == |l| || k == |text| || l[k] != text[k])
  }

  ghost predicate Abbreviates(l: string, text: string, min: int) {
    exists k: nat :: AgreeFor(l, text, k) && (k == |l| || k >= min) && (k == |text| || text[k] == '=')
  }

  /** The row of a long option: the first one with that name, alone or in front of '='; without
      one, the only row the name abbreviates, if abbreviations are on. */
  ghost predicate RowOfLong(cfg: Settings, text: string, d: nat) {
    var named := (e: Descriptor) => text == e.longopt || e.longopt + "=" <= text;
    if SomeRow(cfg.usage, named) then FirstRow(cfg.usage, named, d)
    else if cfg.minAbbr > 0 && Unambiguous(cfg, text) then OnlyAbbreviation(cfg, text, d)
    else RowOfUnknown(cfg.usage, d)
  }

  ghost predicate OnlyAbbreviation(cfg: Settings, text: string, d: nat) {
    d < |cfg.usage| &&
    forall k :: 0 <= k < |cfg.usage| ==> (Abbreviates(cfg.usage[k].longopt, text, cfg.minAbbr) <==> k == d)
  }

  ghost predicate Unambiguous(cfg: Settings, text: string) {
    exists d: nat :: OnlyAbbreviation(cfg, text, d)
  }

  // ----- the searches find these rows

  lemma FirstIsFirstRow(usage: seq<Descriptor>, q: Query, hit: Descriptor -> bool)
    requires forall e :: hit(e) <==> Hits(q, e)
    ensures var r := First(usage, q, 0);
      if SomeRow(usage, hit) then FirstRow(usage, hit, r) else r == |usage|
  {
    FirstIsFirst(usage, q, 0);
  }

  lemma UnknownIsFound(usage: seq<Descriptor>)
    ensures RowOfUnknown(usage, First(usage, Dummy, 0))
  {
    FirstIsFirstRow(usage, Dummy, (e: Descriptor) => e.shortopt == "" && e.longopt == "");
  }

  lemma ShortIsFound(usage: seq<Descriptor>, c: char)
    ensures RowOfShort(usage, c, Resolve(usage, First(usage, Short(c), 0)))
  {
    FirstIsFirstRow(usage, Short(c), (e: Descriptor) => c in e.shortopt);
    UnknownIsFound(usage);
  }

  lemma NamedIs(l: string, text: string)
    ensures LongMatches(l, text) <==> text == l || l + "=" <= text
  {
    if l <= text && |text| > |l| && text[|l|] == '=' { assert text[..|l| + 1] == l + "="; }
    if l + "=" <= text { assert text[..|l|] == l && text[|l|] == (l + "=")[|l|]; }
  }

  lemma AbbreviatesIs(l: string, text: string, min: int)
    requires min > 0
    ensures AbbreviationMatches(l, text, min) <==> Abbreviates(l, text, min)
  {
    CommonAgrees(l, text);
    var c := Common(l, text);
    CommonEnds(l, text);
    assert AgreeFor(l, text, c);
    forall k: nat | AgreeFor(l, text, k) ensures k == c {
      CommonFrom(l, text, k);
    }
  }

  lemma {:induction false} CommonEnds(s: string, t: string)
    ensures var k := Common(s, t); k == |s| || k == |t| || s[k] != t[k]
  {
    if s != "" && t != "" && s[0] == t[0] { CommonEnds(s[1..], t[1..]); }
  }

  lemma LongIsFound(cfg: Settings, text: string)
    ensures RowOfLong(cfg, text, Resolve(cfg.usage, FindLong(cfg, text)))
    ensures FindLong(cfg, text) < |cfg.usage| <==> LongKnown(cfg, text)
  {
    var named := (e: Descriptor) => text == e.longopt || e.longopt + "=" <= text;
    forall e: Descriptor ensures named(e) <==> Hits(Long(text), e) { NamedIs(e.longopt, text); }
    FirstIsFirstRow(cfg.usage, Long(text), named);
    UnknownIsFound(cfg.usage);
    if cfg.minAbbr > 0 { AbbreviationIsFound(cfg, text); }
  }

  /** Some row, and not the one for unknown options, belongs to the name. */
  ghost predicate LongKnown(cfg: Settings, text: string) {
    || SomeRow(cfg.usage, (e: Descriptor) => text == e.longopt || e.longopt + "=" <= text)
    || (cfg.minAbbr > 0 && Unambiguous(cfg, text))
  }

  lemma AbbreviationIsFound(cfg: Settings, text: string)
    requires cfg.minAbbr > 0
    ensures var q := Abbreviated(text, cfg.minAbbr);
      var i := First(cfg.usage, q, 0);
      if i < |cfg.usage| && First(cfg.usage, q, i + 1) == |cfg.usage| then OnlyAbbreviation(cfg, text, i)
      else !Unambiguous(cfg, text)
    ensures forall d: nat, d': nat :: OnlyAbbreviation(cfg, text, d) && OnlyAbbreviation(cfg, text, d') ==> d == d'
  {
    var q := Abbreviated(text, cfg.minAbbr);
    forall k | 0 <= k < |cfg.usage|
      ensures Hits(q, cfg.usage[k]) <==> Abbreviates(cfg.usage[k].longopt, text, cfg.minAbbr)
    {
      AbbreviatesIs(cfg.usage[k].longopt, text, cfg.minAbbr);
    }
    hide Abbreviates;
    FirstIsFirst(cfg.usage, q, 0);
    var i := First(cfg.usage, q, 0);
    if i < |cfg.usage| { FirstIsFirst(cfg.usage, q, i + 1); }
    if Unambiguous(cfg, text) {
      var d: nat :| OnlyAbbreviation(cfg, text, d);
      assert Hits(q, cfg.usage[d]);
      assert forall k :: 0 <= k < |cfg.usage| && Hits(q, cfg.usage[k]) ==> k == d;
    }
  }

  // ----- what a word asks for

  /** Row `d` is asked about an option with this argument, and the answer makes the word `w`:
      rejected; performed with the argument, which is the next string if it is `separate`;
      performed without. */
  ghost predicate Asked(usage: seq<Descriptor>, d: nat, name: string, arg: Nullable<string>, separate: bool, w: Word) {
    d < |usage| &&
    match usage[d].check(name, arg)
    case ArgIllegal => w == Word([], false, true)
    case ArgOk => w == Word([Parsed(d, name, arg)], separate && arg.Value?, false)
    case _ => w == Word([Parsed(d, name, Null)], false, false)
  }

  /** The long option `param`: behind the first '=' stands its argument, otherwise the next string
      may be. */
  ghost predicate LongRead(cfg: Settings, param: string, text: string, next: Nullable<string>, w: Word) {
    exists d: nat :: RowOfLong(cfg, text, d) &&
      if d == |cfg.usage| then w == Word([], false, false)
      else if '=' in text then AttachedRead(cfg, d, param, text, w)
      else Asked(cfg.usage, d, param, next, true, w)
  }

  ghost predicate AttachedRead(cfg: Settings, d: nat, param: string, text: string, w: Word) {
    exists e: nat :: e < |text| && text[e] == '=' && '=' !in text[..e] &&
      Asked(cfg.usage, d, param, Value(text[e + 1..]), false, w)
  }

  /** The short options `text`: each character is an option; the argument may be what is behind it
      or, behind the last one, the next string.  An option that takes it is the last. */
  ghost predicate GroupRead(usage: seq<Descriptor>, text: string, next: Nullable<string>, w: Word)
    decreases |text|, 1
  {
    if text == "" then w == Word([], false, false)
    else exists d: nat :: RowOfShort(usage, text[0], d) && LetterRead(usage, d, text, next, w)
  }

  ghost predicate LetterRead(usage: seq<Descriptor>, d: nat, text: string, next: Nullable<string>, w: Word)
    requires text != ""
    decreases |text|, 0
  {
    var arg := if |text| > 1 then Value(text[1..]) else next;
    if d >= |usage| then GroupRead(usage, text[1..], next, w)
    else if usage[d].check(text, arg) in {ArgIllegal, ArgOk} then Asked(usage, d, text, arg, |text| == 1, w)
    else
      exists u :: GroupRead(usage, text[1..], next, u) &&
        w == Word([Parsed(d, text, Null)] + u.opts, u.eats, u.illegal)
  }

  /** An option word: long behind two minuses, or behind one if those are allowed and it is
      known; otherwise a group of short options. */
  ghost predicate WordRead(cfg: Settings, param: string, next: Nullable<string>, w: Word)
    requires |param| >= 2
  {
    if param[1] == '-' then LongRead(cfg, param, param[2..], next, w)
    else if cfg.singleMinus && LongKnown(cfg, param[1..]) then LongRead(cfg, param, param[1..], next, w)
    else GroupRead(cfg.usage, param[1..], next, w)
  }

  lemma StepIsAsked(usage: seq<Descriptor>, d: nat, name: string, arg: Nullable<string>, separate: bool)
    requires d < |usage|
    ensures Asked(usage, d, name, arg, separate, Step(usage, d, name, arg, separate))
  {
  }

  lemma {:induction false} EqualsIs(name: string)
    ensures var e := Equals(name); '=' !in name[..e] && (e < |name| ==> name[e] == '=')
  {
    if name != [] && name[0] != '=' {
      EqualsIs(name[1..]);
      var e := Equals(name);
      assert name[..e] == [name[0]] + name[1..][..e - 1];
    }
  }

  lemma LongIsRead(cfg: Settings, param: string, text: string, next: Nullable<string>)
    ensures LongRead(cfg, param, text, next, LongStep(cfg.usage, param, text, FindLong(cfg, text), next))
  {
    hide RowOfLong, FindLong, Asked;
    LongIsFound(cfg, text);
    EqualsIs(text);
    var e := Equals(text);
    var d := Resolve(cfg.usage, FindLong(cfg, text));
    assert text[..|text|] == text;
    if d < |cfg.usage| {
      if e < |text| {
        assert '=' in text;
        StepIsAsked(cfg.usage, d, param, Value(text[e + 1..]), false);
        assert AttachedRead(cfg, d, param, text, LongStep(cfg.usage, param, text, FindLong(cfg, text), next));
      } else {
        StepIsAsked(cfg.usage, d, param, next, true);
      }
    }
    assert RowOfLong(cfg, text, d);
  }

  lemma {:induction false} GroupIsRead(usage: seq<Descriptor>, param: string, k: nat, next: Nullable<string>)
    requires k <= |param|
    ensures GroupRead(usage, param[k..], next, ShortRun(usage, param, k, next))
    decreases |param| - k
  {
    hide RowOfShort, First;
    if k < |param| {
      var text := param[k..];
      var d := Resolve(usage, First(usage, Short(param[k]), 0));
      assert text[0] == param[k] && text[1..] == param[k + 1..];
      ShortIsFound(usage, param[k]);
      GroupIsRead(usage, param, k + 1, next);
      assert LetterRead(usage, d, text, next, ShortRun(usage, param, k, next));
    }
  }

  lemma WordIsRead(cfg: Settings, param: string, next: Nullable<string>)
    requires OptionWord(param)
    ensures |param| >= 2 && WordRead(cfg, param, next, ParseWord(cfg, param, next))
  {
    hide LongRead, GroupRead, LongStep, ShortRun, FindLong, LongKnown;
    if param[1] == '-' {
      LongIsRead(cfg, param, param[2..], next);
    } else {
      LongIsFound(cfg, param[1..]);
      LongIsRead(cfg, param, param[1..], next);
      GroupIsRead(cfg.usage, param, 1, next);
    }
  }

  /** The length of an option's name: a single character, or all in front of the first '='. */
  lemma NameLengthIs(name: string)
    ensures var n := NameLength(name);
      if name == "" || name[0] != '-' then n == 1
      else 1 <= n <= |name| && '=' !in name[1..n] && (n < |name| ==> name[n] == '=')
  {
    if name != "" && name[0] == '-' {
      EqualsIs(name[1..]);
      var e := Equals(name[1..]);
      assert name[1..][..e] == name[1..1 + e];
    }
  }

  // ----- what a vector contains

  /** A pass over `words` performs `opts`, is accepted or not, and if it is reports `nonOptions`.
      Everything behind "--" is a non-option; so is every other string that is no option, and in
      POSIX mode all that follows it; a word may take the next string. */
  ghost predicate VectorRead(cfg: Settings, gnu: bool, words: seq<string>, opts: seq<Parsed>, ok: bool,
                             nonOptions: seq<string>)
    decreases |words|
  {
    if words == [] then opts == [] && ok && nonOptions == []
    else if words[0] == "--" then opts == [] && ok && nonOptions == words[1..]
    else if |words[0]| >= 2 && words[0][0] == '-' then
      exists w :: WordRead(cfg, words[0], Next(words), w) &&
        if w.illegal then opts == w.opts && !ok
        else
          && w.opts <= opts && (w.eats ==> |words| >= 2)
          && VectorRead(cfg, gnu, words[if w.eats then 2 else 1..], opts[|w.opts|..], ok, nonOptions)
    else if gnu then
      if ok then nonOptions != [] && nonOptions[0] == words[0] &&
        VectorRead(cfg, gnu, words[1..], opts, ok, nonOptions[1..])
      else VectorRead(cfg, gnu, words[1..], opts, ok, nonOptions)
    else opts == [] && ok && nonOptions == words
  }

  /** If the pass is rejected nothing is said of the non-options. */
  lemma {:induction false} RejectedAnyway(cfg: Settings, gnu: bool, words: seq<string>, opts: seq<Parsed>,
                                          a: seq<string>, b: seq<string>)
    requires VectorRead(cfg, gnu, words, opts, false, a)
    ensures VectorRead(cfg, gnu, words, opts, false, b)
    decreases |words|
  {
    hide WordRead;
    if words != [] && words[0] != "--" {
      if |words[0]| >= 2 && words[0][0] == '-' {
        var w :| WordRead(cfg, words[0], Next(words), w) &&
          if w.illegal then opts == w.opts
          else
            && w.opts <= opts && (w.eats ==> |words| >= 2)
            && VectorRead(cfg, gnu, words[if w.eats then 2 else 1..], opts[|w.opts|..], false, a);
        if !w.illegal {
          RejectedAnyway(cfg, gnu, words[if w.eats then 2 else 1..], opts[|w.opts|..], a, b);
        }
      } else if gnu {
        RejectedAnyway(cfg, gnu, words[1..], opts, a, b);
      }
    }
  }

  /** The pass of the parser is that. */
  lemma {:induction false} PassIsRead(cfg: Settings, gnu: bool, words: seq<string>)
    ensures var r := Run(cfg, gnu, words); VectorRead(cfg, gnu, words, r.Performed(), r.Ok(), r.NonOptions())
    decreases |words|
  {
    hide Run, ParseWord, WordRead;
    RunEmpty(cfg, gnu);
    if words != [] {
      WordKinds(words[0]);
      if Terminator(words[0]) {
        UnfoldEnd(cfg, gnu, words);
      } else if OptionWord(words[0]) {
        WordIsRead(cfg, words[0], Next(words));
        UnfoldAny(cfg, gnu, words);
        var w := ParseWord(cfg, words[0], Next(words));
        if !w.illegal {
          var n := if w.eats then 2 else 1;
          PassIsRead(cfg, gnu, words[n..]);
          var t := Run(cfg, gnu, words[n..]);
          assert Run(cfg, gnu, words).Performed() == w.opts + t.Performed();
          assert Run(cfg, gnu, words).NonOptions() == t.NonOptions();
        }
      } else if gnu {
        UnfoldSkip(cfg, words);
        PassIsRead(cfg, gnu, words[1..]);
        var r, t := Run(cfg, gnu, words), Run(cfg, gnu, words[1..]);
        assert r.Performed() == t.Performed() && r.NonOptions() == [words[0]] + t.NonOptions();
        if !r.Ok() { RejectedAnyway(cfg, gnu, words[1..], r.Performed(), t.NonOptions(), r.NonOptions()); }
      } else {
        UnfoldPosixEnd(cfg, words);
      }
    }
  }
}
