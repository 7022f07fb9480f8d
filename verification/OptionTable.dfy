/** The option table that drives the command-line parser, and the text matching
    the parser does against it.

    A C string is a Dafny string without its terminator: reading "the character at
    the terminator" is reading at index |s|.  A pointer that may be NULL is a
    `Nullable`.  The all-zero sentinel that closes the C table is the end of `usage`. */
module OptionTable {
  import opened Nullables

  datatype ArgStatus = ArgNone | ArgOk | ArgIgnore | ArgIllegal

  /** A check sees the option's name pointer (the text from the name to the end of the
      argv string) and the candidate argument. */
  type CheckArg = (string, Nullable<string>) -> ArgStatus

  /** `int idx = desc->index` makes larger values meaningless. */
  type Index = n: nat | n < 0x7fff_ffff

  datatype Descriptor = Descriptor(index: Index, kind: int, shortopt: string, longopt: string, check: CheckArg)

  datatype Settings = Settings(usage: seq<Descriptor>, singleMinus: bool, minAbbr: int)

  // ----- text matching

  /** `longopt` is a prefix of `name`, and `name` ends there or continues with '='. */
  predicate LongMatches(longopt: string, name: string) {
    longopt <= name && (|name| == |longopt| || name[|longopt|] == '=')
  }

  method StrEq(st1: string, st2: string) returns (r: bool)
    ensures r == LongMatches(st1, st2)
  {
    var i := 0;
    while i < |st1|
      invariant i <= |st1| && i <= |st2|
      invariant st1[..i] == st2[..i]
    {
      if i == |st2| || st1[i] != st2[i] {
        return false;
      }
      i := i + 1;
    }
    return i == |st2| || st2[i] == '=';
  }

  /** Length of the longest common prefix. */
  function Common(s: string, t: string): (k: nat)
    ensures k <= |s| && k <= |t|
  {
    if s == [] || t == [] || s[0] != t[0] then 0 else 1 + Common(s[1..], t[1..])
  }

  lemma {:induction false} CommonAgrees(s: string, t: string)
    ensures var k := Common(s, t); s[..k] == t[..k]
  {
    if s != [] && t != [] && s[0] == t[0] {
      CommonAgrees(s[1..], t[1..]);
      var k := Common(s[1..], t[1..]);
      assert s[..k + 1] == [s[0]] + s[1..][..k] && t[..k + 1] == [t[0]] + t[1..][..k];
    }
  }

  predicate AbbreviationMatches(longopt: string, name: string, min: int) {
    var k := Common(longopt, name);
    (k == |longopt| || (min > 0 && k >= min)) && (k == |name| || name[k] == '=')
  }

  lemma {:induction false} CommonFrom(s: string, t: string, i: nat)
    requires i <= |s| && i <= |t| && s[..i] == t[..i]
    requires i == |s| || i == |t| || s[i] != t[i]
    ensures Common(s, t) == i
  {
    if i > 0 {
      assert s[0] == s[..i][0] == t[..i][0] == t[0];
      assert s[1..][..i - 1] == s[..i][1..] == t[..i][1..] == t[1..][..i - 1];
      CommonFrom(s[1..], t[1..], i - 1);
    }
  }

  method StrEqAbbr(st1: string, st2: string, min: int) returns (r: bool)
    ensures r == AbbreviationMatches(st1, st2, min)
  {
    var i := 0;
    while i < |st1| && i < |st2| && st1[i] == st2[i]
      invariant i <= |st1| && i <= |st2| && st1[..i] == st2[..i]
    {
      i := i + 1;
    }
    CommonFrom(st1, st2, i);
    return (i == |st1| || (min > 0 && i >= min)) && (i == |st2| || st2[i] == '=');
  }

  /** With abbreviations off the two comparisons are the same, and whatever matches in
      full matches as an abbreviation too, for every minimum length. */
  lemma AbbreviationExtendsExact(longopt: string, name: string, min: int)
    ensures LongMatches(longopt, name) ==> AbbreviationMatches(longopt, name, min)
    ensures min <= 0 ==> (AbbreviationMatches(longopt, name, min) <==> LongMatches(longopt, name))
  {
    CommonAgrees(longopt, name);
    if longopt <= name {
      CommonFrom(longopt, name, |longopt|);
    }
  }

  method InStr(ch: char, st: string) returns (r: bool)
    ensures r == (ch in st)
  {
    var i := 0;
    while i < |st| && st[i] != ch
      invariant i <= |st| && ch !in st[..i]
    {
      i := i + 1;
    }
    return i < |st|;
  }

  // ----- searches of the table

  datatype Query = Long(name: string) | Abbreviated(name: string, min: int) | Short(c: char) | Dummy

  predicate Hits(q: Query, d: Descriptor) {
    match q
    case Long(name) => LongMatches(d.longopt, name)
    case Abbreviated(name, min) => AbbreviationMatches(d.longopt, name, min)
    case Short(c) => c in d.shortopt
    case Dummy => d.shortopt == "" && d.longopt == ""
  }

  /** First position at or after `i` that the query hits; |usage| when there is none. */
  function First(usage: seq<Descriptor>, q: Query, i: nat): (r: nat)
    requires i <= |usage|
    ensures i <= r <= |usage|
    decreases |usage| - i
  {
    if i == |usage| || Hits(q, usage[i]) then i else First(usage, q, i + 1)
  }

  lemma {:induction false} FirstIsFirst(usage: seq<Descriptor>, q: Query, i: nat)
    requires i <= |usage|
    ensures var r := First(usage, q, i);
      (r < |usage| ==> Hits(q, usage[r])) && forall k :: i <= k < r ==> !Hits(q, usage[k])
    decreases |usage| - i
  {
    if i < |usage| && !Hits(q, usage[i]) { FirstIsFirst(usage, q, i + 1); }
  }

  method Search(usage: seq<Descriptor>, q: Query, from: nat) returns (idx: nat)
    requires from <= |usage|
    ensures idx == First(usage, q, from)
  {
    idx := from;
    while idx < |usage|
      invariant from <= idx <= |usage|
      invariant First(usage, q, from) == First(usage, q, idx)
    {
      var hit;
      match q {
        case Long(name) => hit := StrEq(usage[idx].longopt, name);
        case Abbreviated(name, min) => hit := StrEqAbbr(usage[idx].longopt, name, min);
        case Short(c) => hit := InStr(c, usage[idx].shortopt);
        case Dummy => hit := |usage[idx].shortopt| == 0 && |usage[idx].longopt| == 0;
      }
      if hit {
        return;
      }
      idx := idx + 1;
    }
  }

  /** The long option named by `name`: the first exact match, else the only abbreviation
      match when abbreviations are on, else none. */
  function FindLong(cfg: Settings, name: string): (r: nat)
    ensures r <= |cfg.usage|
  {
    var exact := First(cfg.usage, Long(name), 0);
    if exact < |cfg.usage| || cfg.minAbbr <= 0 then exact
    else
      var i1 := First(cfg.usage, Abbreviated(name, cfg.minAbbr), 0);
      if i1 < |cfg.usage| && First(cfg.usage, Abbreviated(name, cfg.minAbbr), i1 + 1) == |cfg.usage| then i1
      else exact
  }

  method SearchLong(cfg: Settings, name: string) returns (idx: nat)
    ensures idx == FindLong(cfg, name)
  {
    idx := Search(cfg.usage, Long(name), 0);
    if idx == |cfg.usage| && cfg.minAbbr > 0 {
      var i1 := Search(cfg.usage, Abbreviated(name, cfg.minAbbr), 0);
      if i1 < |cfg.usage| {
        var i2 := Search(cfg.usage, Abbreviated(name, cfg.minAbbr), i1 + 1);
        if i2 == |cfg.usage| {
          idx := i1;
        }
      }
    }
  }

  /** What `FindLong` promises: an exact match wins and is the first one; otherwise a hit
      is the one and only abbreviation in the table. */
  lemma LongIsExactOrUnambiguous(cfg: Settings, name: string)
    ensures var r := FindLong(cfg, name);
      var n := |cfg.usage|;
      && ((exists k :: 0 <= k < n && LongMatches(cfg.usage[k].longopt, name)) ==>
            r < n && LongMatches(cfg.usage[r].longopt, name) &&
            forall k :: 0 <= k < r ==> !LongMatches(cfg.usage[k].longopt, name))
      && (r < n && !LongMatches(cfg.usage[r].longopt, name) ==>
            cfg.minAbbr > 0 &&
            forall k :: 0 <= k < n ==>
              (AbbreviationMatches(cfg.usage[k].longopt, name, cfg.minAbbr) <==> k == r))
  {
    FirstIsFirst(cfg.usage, Long(name), 0);
    var q := Abbreviated(name, cfg.minAbbr);
    var i1 := First(cfg.usage, q, 0);
    FirstIsFirst(cfg.usage, q, 0);
    if i1 < |cfg.usage| {
      FirstIsFirst(cfg.usage, q, i1 + 1);
    }
    assert forall d :: Hits(Long(name), d) <==> LongMatches(d.longopt, name);
    assert forall d :: Hits(q, d) <==> AbbreviationMatches(d.longopt, name, cfg.minAbbr);
  }
}
