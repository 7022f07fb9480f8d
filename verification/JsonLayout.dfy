/** Where the JSON printer puts line breaks and spaces: a rule about two neighbouring tokens and the
    brackets around them, without recursion over the value. */
module JsonLayout {
  import opened Nullables
  import opened JsonPrinter

  predicate Opens(t: Token) { t == Punct('{') || t == Punct('[') }
  predicate Closes(t: Token) { t == Punct('}') || t == Punct(']') }

  /** What is to the left: the number of brackets open, the nearest bracket, the last token. */
  datatype Context = Context(depth: int, near: Nullable<char>, prev: Nullable<Token>)

  const START := Context(0, Null, Null)

  function Seen(c: Context, t: Token): Context {
    if Opens(t) then Context(c.depth + 1, Value(t.c), Value(t))
    else if Closes(t) then Context(c.depth - 1, Value(t.c), Value(t))
    else c.(prev := Value(t))
  }

  /** The nearest bracket to the right. */
  function NearRight(ts: seq<Token>): Nullable<char> {
    if ts == [] then Null else if Opens(ts[0]) || Closes(ts[0]) then Value(ts[0].c) else NearRight(ts[1..])
  }

  /** Inside an array that contains no bracket. */
  predicate Inline(c: Context, ts: seq<Token>) { c.near == Value('[') && NearRight(ts) == Value(']') }

  function Indented(indent: nat, step: nat, depth: int): string {
    "\n" + if depth >= 0 then Spaces(indent + step * depth) else ""
  }

  /** What stands in front of the next token.  Behind a colon, and behind a comma of an array without
      brackets, one space; elsewhere in such an array nothing.  A closing bracket begins a line, with
      the indentation its opening bracket's line has; so does everything behind an opening bracket or
      a comma, one level deeper.  An empty object has an empty line inside. */
  function Gap(indent: nat, step: nat, c: Context, ts: seq<Token>): string
    requires ts != []
  {
    var next := ts[0];
    if c.prev == Null then ""
    else if c.prev == Value(Punct(':')) then " "
    else if next == Punct(':') || next == Punct(',') then ""
    else if Inline(c, ts) then if c.prev == Value(Punct(',')) then " " else ""
    else if Closes(next) then (if Opens(c.prev.value) then "\n" else "") + Indented(indent, step, c.depth - 1)
    else if Opens(c.prev.value) || c.prev == Value(Punct(',')) then Indented(indent, step, c.depth)
    else ""
  }

  function Show(t: Token): string {
    match t
    case Punct(c) => [c]
    case Lit(text) => text
    case Bad => ""
  }

  /** Tokens with these gaps. */
  function Spread(indent: nat, step: nat, c: Context, ts: seq<Token>): string
    decreases |ts|
  {
    if ts == [] then ""
    else Gap(indent, step, c, ts) + Show(ts[0]) + Spread(indent, step, Seen(c, ts[0]), ts[1..])
  }

  // ----- steps

  lemma SpreadOne(indent: nat, step: nat, c: Context, t: Token, r: seq<Token>)
    ensures Spread(indent, step, c, [t] + r) ==
      Gap(indent, step, c, [t] + r) + (Show(t) + Spread(indent, step, Seen(c, t), r))
  {
    hide Gap;
    var ts := [t] + r;
    assert ts[0] == t && ts[1..] == r;
    Assoc(Gap(indent, step, c, ts), Show(t), Spread(indent, step, Seen(c, t), r));
  }

  lemma NearOne(t: Token, r: seq<Token>)
    ensures NearRight([t] + r) == if Opens(t) || Closes(t) then Value(t.c) else NearRight(r)
  {
    assert ([t] + r)[0] == t && ([t] + r)[1..] == r;
  }

  /** The context behind a value. */
  function Behind(c: Context, j: Json): Context {
    match j
    case Scalar(t) => c.(prev := Value(Lit(t)))
    case Arr(_) => Context(c.depth, Value(']'), Value(Punct(']')))
    case Obj(_) => Context(c.depth, Value('}'), Value(Punct('}')))
  }

  lemma TokensSplit(j: Json, r: seq<Token>)
    ensures j.Scalar? ==> Tokens(j) + r == [Lit(j.text)] + r
    ensures j.Obj? ==> Tokens(j) + r == [Punct('{')] + (MemberTokens(j.members) + ([Punct('}')] + r))
    ensures j.Arr? ==> Tokens(j) + r == [Punct('[')] + (ItemTokens(j.items) + ([Punct(']')] + r))
  {
    hide MemberTokens, ItemTokens;
    match j {
      case Scalar(_) =>
      case Obj(m) =>
        Assoc([Punct('{')] + MemberTokens(m), [Punct('}')], r);
        Assoc([Punct('{')], MemberTokens(m), [Punct('}')] + r);
      case Arr(a) =>
        Assoc([Punct('[')] + ItemTokens(a), [Punct(']')], r);
        Assoc([Punct('[')], ItemTokens(a), [Punct(']')] + r);
    }
  }

  lemma NearOfValue(j: Json, r: seq<Token>)
    ensures NearRight(Tokens(j) + r) ==
      if j.Scalar? then NearRight(r) else if j.Obj? then Value('{') else Value('[')
  {
    hide Tokens, NearRight;
    TokensSplit(j, r);
    match j {
      case Scalar(t) => NearOne(Lit(t), r);
      case Obj(m) => NearOne(Punct('{'), MemberTokens(m) + ([Punct('}')] + r));
      case Arr(a) => NearOne(Punct('['), ItemTokens(a) + ([Punct(']')] + r));
    }
  }

  lemma {:induction false} NearOfItems(a: seq<Json>, r: seq<Token>)
    ensures if AllPrimitive(a) then NearRight(ItemTokens(a) + r) == NearRight(r)
            else NearRight(ItemTokens(a) + r) in {Value('{'), Value('[')}
    decreases |a|
  {
    hide Tokens, NearRight;
    if a == [] {
      assert ItemTokens(a) + r == r;
    } else {
      ItemTokensShape(a, r);
      var more := if |a| == 1 then r else [Punct(',')] + (ItemTokens(a[1..]) + r);
      NearOfValue(a[0], more);
      if |a| > 1 {
        NearOne(Punct(','), ItemTokens(a[1..]) + r);
        NearOfItems(a[1..], r);
        assert AllPrimitive(a) <==> a[0].Scalar? && AllPrimitive(a[1..]) by { PrimitiveSplit(a); }
      }
    }
  }

  lemma PrimitiveSplit(a: seq<Json>)
    requires a != []
    ensures AllPrimitive(a) <==> a[0].Scalar? && AllPrimitive(a[1..])
  {
    assert forall i :: 1 <= i < |a| ==> a[i] == a[1..][i - 1];
  }

  // ----- the printed text is its tokens with these gaps

  /** Spaces in front of a line of the value whose bracket is the innermost open one. */
  function Margin(indent: nat, step: nat, c: Context): nat
    requires c.depth >= 0
  {
    indent + step * c.depth
  }

  /** A value in any context: the gap, its text, and what follows. */
  ghost predicate ValueSpread(indent: nat, step: nat, c: Context, j: Json, r: seq<Token>)
    requires c.depth >= 0
  {
    Tokens(j) + r != [] &&
    Spread(indent, step, c, Tokens(j) + r) ==
      Gap(indent, step, c, Tokens(j) + r) +
        (Text(j, Margin(indent, step, c), step) + Spread(indent, step, Behind(c, j), r))
  }

  /** A closing bracket on a line of its own. */
  lemma CloseSpread(indent: nat, step: nat, c: Context, ch: char, r: seq<Token>)
    requires ch in {'}', ']'} && c.depth >= 1 && c.prev.Value? && c.prev != Value(Punct(':'))
    requires !Opens(c.prev.value) && (ch == ']' ==> c.near != Value('['))
    ensures Spread(indent, step, c, [Punct(ch)] + r) ==
      Close(indent + step * (c.depth - 1), ch,
            Spread(indent, step, Context(c.depth - 1, Value(ch), Value(Punct(ch))), r))
  {
    hide Spread, Spaces;
    NearOne(Punct(ch), r);
    SpreadOne(indent, step, c, Punct(ch), r);
    var s := Spread(indent, step, Context(c.depth - 1, Value(ch), Value(Punct(ch))), r);
    var line := "\n" + Spaces(indent + step * (c.depth - 1));
    assert Gap(indent, step, c, [Punct(ch)] + r) == line by { assert "" + line == line; }
    Assoc(line, [ch], s);
  }

  /** Behind a value that is not the last of its list. */
  lemma CommaSpread(indent: nat, step: nat, c: Context, r: seq<Token>)
    requires c.prev.Value? && c.prev != Value(Punct(':'))
    ensures Spread(indent, step, c, [Punct(',')] + r) ==
      "," + Spread(indent, step, c.(prev := Value(Punct(','))), r)
  {
    hide Spread;
    SpreadOne(indent, step, c, Punct(','), r);
    var s := Spread(indent, step, c.(prev := Value(Punct(','))), r);
    assert "" + ("," + s) == "," + s;
  }

  lemma FirstIs(j: Json, r: seq<Token>)
    ensures Tokens(j) + r != [] && !Closes((Tokens(j) + r)[0])
    ensures (Tokens(j) + r)[0] != Punct(':') && (Tokens(j) + r)[0] != Punct(',')
  {
    hide MemberTokens, ItemTokens;
    TokensSplit(j, r);
  }

  lemma ScalarSpread(indent: nat, step: nat, c: Context, j: Json, r: seq<Token>)
    requires c.depth >= 0 && j.Scalar?
    ensures ValueSpread(indent, step, c, j, r)
  {
    hide Spread, Gap;
    SpreadOne(indent, step, c, Lit(j.text), r);
  }

  /** Members, behind the brace or a comma. */
  ghost predicate MembersSpread(indent: nat, step: nat, c: Context, m: seq<Member>, r: seq<Token>)
    requires c.depth >= 1
  {
    var ind := indent + step * (c.depth - 1);
    Spread(indent, step, c, MemberTokens(m) + ([Punct('}')] + r)) ==
      "\n" + (MembersText(m, ind, step) +
        Close(ind, '}', Spread(indent, step, Context(c.depth - 1, Value('}'), Value(Punct('}'))), r)))
  }

  /** The first member: a new line, the name, a colon, a space, the value. */
  lemma MemberSpread(indent: nat, step: nat, c: Context, key: string, j: Json, r: seq<Token>)
    requires c.depth >= 1 && c.near != Value('[') && c.prev in {Value(Punct('{')), Value(Punct(','))}
    requires ValueSpread(indent, step, c.(prev := Value(Punct(':'))), j, r)
    ensures Spread(indent, step, c, [Lit(key)] + ([Punct(':')] + (Tokens(j) + r))) ==
      "\n" + (Spaces(indent + step * c.depth) + (key + ([':'] + ([' '] +
        (Text(j, indent + step * c.depth, step) + Spread(indent, step, Behind(c, j), r))))))
  {
    hide Spread, Spaces, Tokens, Text;
    var ts := [Punct(':')] + (Tokens(j) + r);
    SpreadOne(indent, step, c, Lit(key), ts);
    SpreadOne(indent, step, c.(prev := Value(Lit(key))), Punct(':'), Tokens(j) + r);
    FirstIs(j, r);
    var d := c.(prev := Value(Punct(':')));
    assert Behind(d, j) == Behind(c, j);
    var v := Text(j, indent + step * c.depth, step) + Spread(indent, step, Behind(c, j), r);
    assert Spread(indent, step, d, Tokens(j) + r) == [' '] + v;
    assert "" + ([':'] + ([' '] + v)) == [':'] + ([' '] + v);
    Assoc("\n", Spaces(indent + step * c.depth), key + ([':'] + ([' '] + v)));
  }

  lemma {:induction false} SpreadMembers(indent: nat, step: nat, c: Context, m: seq<Member>, r: seq<Token>)
    requires m != [] && c.depth >= 1 && c.near != Value('[') && c.prev in {Value(Punct('{')), Value(Punct(','))}
    ensures MembersSpread(indent, step, c, m, r)
    decreases m, 0
  {
    hide Spread, Spaces, Tokens, Text, MembersText, MemberTokens, Close, Gap;
    var close, ind := [Punct('}')] + r, indent + step * (c.depth - 1);
    var j, b := m[0].value, Behind(c, m[0].value);
    var s := Close(ind, '}', Spread(indent, step, Context(c.depth - 1, Value('}'), Value(Punct('}'))), r));
    MemberTokensShape(m, close);
    MembersShape(m, ind, step, s);
    assert ind + step == indent + step * c.depth;
    var more := if |m| == 1 then close else [Punct(',')] + (MemberTokens(m[1..]) + close);
    SpreadText(indent, step, c.(prev := Value(Punct(':'))), j, more);
    MemberSpread(indent, step, c, m[0].key, j, more);
    if |m| == 1 {
      CloseSpread(indent, step, b, '}', r);
    } else {
      CommaSpread(indent, step, b, MemberTokens(m[1..]) + close);
      SpreadMembers(indent, step, b.(prev := Value(Punct(','))), m[1..], r);
      var left := MembersText(m[1..], ind, step) + s;
      assert [','] + ("\n" + left) == [',', '\n'] + left;
    }
  }

  lemma EmptyObject(indent: nat, step: nat, c: Context, r: seq<Token>)
    requires c.depth >= 1 && c.prev == Value(Punct('{'))
    ensures MembersSpread(indent, step, c, [], r)
  {
    hide Spread, Spaces;
    SpreadOne(indent, step, c, Punct('}'), r);
    NearOne(Punct('}'), r);
    var ind := indent + step * (c.depth - 1);
    var s := Spread(indent, step, Context(c.depth - 1, Value('}'), Value(Punct('}'))), r);
    assert MemberTokens([]) + ([Punct('}')] + r) == [Punct('}')] + r;
    Assoc("\n", "\n" + Spaces(ind), ['}'] + s);
    Assoc("\n" + Spaces(ind), ['}'], s);
    assert "" + Close(ind, '}', s) == Close(ind, '}', s);
  }

  /** Elements of an array, behind the bracket or a comma. */
  ghost predicate ItemsSpread(indent: nat, step: nat, c: Context, a: seq<Json>, r: seq<Token>)
    requires c.depth >= 1
  {
    var ind := indent + step * (c.depth - 1);
    Spread(indent, step, c, ItemTokens(a) + ([Punct(']')] + r)) ==
      "\n" + (ItemsText(a, ind, step) +
        Close(ind, ']', Spread(indent, step, Context(c.depth - 1, Value(']'), Value(Punct(']'))), r)))
  }

  /** The first element on a line of its own. */
  lemma ItemSpread(indent: nat, step: nat, c: Context, j: Json, r: seq<Token>)
    requires c.depth >= 1 && c.prev in {Value(Punct('[')), Value(Punct(','))}
    requires ValueSpread(indent, step, c, j, r) && (c.near == Value('[') ==> NearRight(Tokens(j) + r) != Value(']'))
    ensures Spread(indent, step, c, Tokens(j) + r) ==
      "\n" + (Spaces(indent + step * c.depth) +
        (Text(j, indent + step * c.depth, step) + Spread(indent, step, Behind(c, j), r)))
  {
    hide Spread, Spaces, Tokens, Text;
    FirstIs(j, r);
    Assoc("\n", Spaces(indent + step * c.depth),
          Text(j, indent + step * c.depth, step) + Spread(indent, step, Behind(c, j), r));
  }

  lemma ItemsShape(a: seq<Json>, indent: nat, step: nat, s: string)
    requires a != []
    ensures ItemsText(a, indent, step) + s == Spaces(indent + step) + (Text(a[0], indent + step, step) +
      if |a| == 1 then s else "," + ("\n" + (ItemsText(a[1..], indent, step) + s)))
  {
    hide Text, Spaces;
    var sp, t := Spaces(indent + step), Text(a[0], indent + step, step);
    var tail := if |a| == 1 then "" else ",\n" + ItemsText(a[1..], indent, step);
    assert ItemsText(a, indent, step) == (sp + t) + tail;
    hide ItemsText;
    Assoc(sp + t, tail, s);
    Assoc(sp, t, tail + s);
    if |a| == 1 {
      assert "" + s == s;
    } else {
      Assoc(",\n", ItemsText(a[1..], indent, step), s);
      assert ",\n" == "," + "\n";
      Assoc(",", "\n", ItemsText(a[1..], indent, step) + s);
    }
  }

  lemma {:induction false} SpreadItems(indent: nat, step: nat, c: Context, a: seq<Json>, r: seq<Token>)
    requires a != [] && c.depth >= 1 && c.prev in {Value(Punct('[')), Value(Punct(','))}
    requires c.near != Value('[') || !AllPrimitive(a)
    ensures ItemsSpread(indent, step, c, a, r)
    decreases a, 0
  {
    hide Spread, Spaces, Tokens, Text, ItemsText, ItemTokens, Close, Gap, NearRight, AllPrimitive;
    var close, ind := [Punct(']')] + r, indent + step * (c.depth - 1);
    var b := Behind(c, a[0]);
    var s := Close(ind, ']', Spread(indent, step, Context(c.depth - 1, Value(']'), Value(Punct(']'))), r));
    PrimitiveSplit(a);
    PrimitiveNone();
    ItemTokensShape(a, close);
    ItemsShape(a, ind, step, s);
    NearOfItems(a, close);
    assert ind + step == indent + step * c.depth;
    var more := if |a| == 1 then close else [Punct(',')] + (ItemTokens(a[1..]) + close);
    SpreadText(indent, step, c, a[0], more);
    ItemSpread(indent, step, c, a[0], more);
    if |a| == 1 {
      assert a[1..] == [];
      CloseSpread(indent, step, b, ']', r);
    } else {
      CommaSpread(indent, step, b, ItemTokens(a[1..]) + close);
      SpreadItems(indent, step, b.(prev := Value(Punct(','))), a[1..], r);
    }
  }

  lemma PrimitiveNone()
    ensures AllPrimitive([])
  {
  }

  /** Elements of an array without brackets. */
  lemma {:induction false} SpreadInline(indent: nat, step: nat, c: Context, a: seq<Json>, r: seq<Token>)
    requires AllPrimitive(a) && c.near == Value('[')
    requires c.prev == Value(Punct('[')) || (c.prev == Value(Punct(',')) && a != [])
    ensures Spread(indent, step, c, ItemTokens(a) + ([Punct(']')] + r)) ==
      (if c.prev == Value(Punct(',')) then " " else "") + (InlineText(a) +
        ("]" + Spread(indent, step, Context(c.depth - 1, Value(']'), Value(Punct(']'))), r)))
    decreases |a|
  {
    hide Spread, NearRight;
    var close := [Punct(']')] + r;
    var s := Spread(indent, step, Context(c.depth - 1, Value(']'), Value(Punct(']'))), r);
    NearOfItems(a, close);
    NearOne(Punct(']'), r);
    if a == [] {
      SpreadOne(indent, step, c, Punct(']'), r);
      assert ItemTokens(a) + close == close;
      assert "" + ("" + ("]" + s)) == "" + ("]" + s);
    } else {
      InlineFirst(indent, step, c, a, r);
      ItemTokensShape(a, close);
      InlineShape(a, "]" + s);
      hide ItemTokens, InlineText;
      var b := c.(prev := Value(Lit(a[0].text)));
      if |a| == 1 {
        SpreadOne(indent, step, b, Punct(']'), r);
        assert "" + ("]" + s) == "]" + s;
      } else {
        CommaSpread(indent, step, b, ItemTokens(a[1..]) + close);
        SpreadInline(indent, step, b.(prev := Value(Punct(','))), a[1..], r);
      }
    }
  }

  lemma InlineFirst(indent: nat, step: nat, c: Context, a: seq<Json>, r: seq<Token>)
    requires a != [] && AllPrimitive(a) && c.near == Value('[')
    requires c.prev == Value(Punct('[')) || c.prev == Value(Punct(','))
    ensures var more := if |a| == 1 then [Punct(']')] + r else [Punct(',')] + (ItemTokens(a[1..]) + ([Punct(']')] + r));
      Spread(indent, step, c, ItemTokens(a) + ([Punct(']')] + r)) ==
      (if c.prev == Value(Punct(',')) then " " else "") +
        (a[0].text + Spread(indent, step, c.(prev := Value(Lit(a[0].text))), more))
  {
    hide Spread, NearRight;
    var close := [Punct(']')] + r;
    NearOfItems(a, close);
    NearOne(Punct(']'), r);
    ItemTokensShape(a, close);
    hide ItemTokens;
    var more := if |a| == 1 then close else [Punct(',')] + (ItemTokens(a[1..]) + close);
    SpreadOne(indent, step, c, Lit(a[0].text), more);
  }

  lemma InlineShape(a: seq<Json>, s: string)
    requires a != [] && AllPrimitive(a)
    ensures InlineText(a) + s == a[0].text + if |a| == 1 then s else "," + (" " + (InlineText(a[1..]) + s))
  {
    var t := a[0].text;
    var tail := if |a| == 1 then "" else ", " + InlineText(a[1..]);
    assert InlineText(a) == t + tail;
    hide InlineText;
    Assoc(t, tail, s);
    if |a| == 1 {
      assert "" + s == s;
    } else {
      Assoc(", ", InlineText(a[1..]), s);
      assert ", " == "," + " ";
      Assoc(",", " ", InlineText(a[1..]) + s);
    }
  }

  lemma ObjectSpread(indent: nat, step: nat, c: Context, m: seq<Member>, r: seq<Token>)
    requires c.depth >= 0
    requires MembersSpread(indent, step, Context(c.depth + 1, Value('{'), Value(Punct('{'))), m, r)
    ensures ValueSpread(indent, step, c, Obj(m), r)
  {
    hide Spread, Spaces, MembersText, MemberTokens, Close, Gap;
    var j, ind := Obj(m), indent + step * c.depth;
    TokensSplit(j, r);
    SpreadOne(indent, step, c, Punct('{'), MemberTokens(m) + ([Punct('}')] + r));
    var s := Spread(indent, step, Behind(c, j), r);
    TextShape(j, ind, step, s);
    Assoc("{", "\n", MembersText(m, ind, step) + Close(ind, '}', s));
    assert "{" + "\n" == ['{', '\n'];
  }

  lemma ArraySpread(indent: nat, step: nat, c: Context, a: seq<Json>, r: seq<Token>)
    requires c.depth >= 0 && !AllPrimitive(a)
    requires ItemsSpread(indent, step, Context(c.depth + 1, Value('['), Value(Punct('['))), a, r)
    ensures ValueSpread(indent, step, c, Arr(a), r)
  {
    hide Spread, Spaces, ItemsText, ItemTokens, Close, Gap, AllPrimitive;
    var j, ind := Arr(a), indent + step * c.depth;
    TokensSplit(j, r);
    SpreadOne(indent, step, c, Punct('['), ItemTokens(a) + ([Punct(']')] + r));
    var s := Spread(indent, step, Behind(c, j), r);
    TextShape(j, ind, step, s);
    Assoc("[", "\n", ItemsText(a, ind, step) + Close(ind, ']', s));
    assert "[" + "\n" == ['[', '\n'];
  }

  lemma InlineSpread(indent: nat, step: nat, c: Context, a: seq<Json>, r: seq<Token>)
    requires c.depth >= 0 && AllPrimitive(a)
    ensures ValueSpread(indent, step, c, Arr(a), r)
  {
    hide Spread, InlineText, ItemTokens, Gap, AllPrimitive;
    var j := Arr(a);
    TokensSplit(j, r);
    SpreadOne(indent, step, c, Punct('['), ItemTokens(a) + ([Punct(']')] + r));
    SpreadInline(indent, step, Context(c.depth + 1, Value('['), Value(Punct('['))), a, r);
    var s := Spread(indent, step, Behind(c, j), r);
    TextShape(j, indent + step * c.depth, step, s);
    assert "" + (InlineText(a) + ("]" + s)) == InlineText(a) + ("]" + s);
  }

  /** In every context a value is spread out as it is printed at that depth. */
  lemma {:induction false} SpreadText(indent: nat, step: nat, c: Context, j: Json, r: seq<Token>)
    requires c.depth >= 0
    ensures ValueSpread(indent, step, c, j, r)
    decreases j, 1
  {
    hide ValueSpread, MembersSpread, ItemsSpread, AllPrimitive;
    match j {
      case Scalar(_) => ScalarSpread(indent, step, c, j, r);
      case Obj(m) =>
        var d := Context(c.depth + 1, Value('{'), Value(Punct('{')));
        if m == [] { EmptyObject(indent, step, d, r); } else { SpreadMembers(indent, step, d, m, r); }
        ObjectSpread(indent, step, c, m, r);
      case Arr(a) =>
        if AllPrimitive(a) {
          InlineSpread(indent, step, c, a, r);
        } else {
          PrimitiveNone();
          SpreadItems(indent, step, Context(c.depth + 1, Value('['), Value(Punct('['))), a, r);
          ArraySpread(indent, step, c, a, r);
        }
    }
  }

  /** For every value, indentation and step, the printed text is its own tokens with these gaps
      between them. */
  lemma TextIsSpread(j: Json, indent: nat, step: nat)
    requires Dumped(j)
    ensures Text(j, indent, step) == Spread(indent, step, START, Lex(Text(j, indent, step)))
  {
    hide Text, Tokens, Spread, Lex;
    SpreadText(indent, step, START, j, []);
    LexText(j, indent, step, "");
    assert Text(j, indent, step) + "" == Text(j, indent, step) && Tokens(j) + [] == Tokens(j);
    LexEmpty();
    SpreadEmpty(indent, step, Behind(START, j));
    assert Tokens(j) + Lex("") == Tokens(j);
    var t := Text(j, indent, step);
    assert "" + (t + "") == t;
  }

  lemma LexEmpty()
    ensures Lex("") == []
  {
  }

  lemma SpreadEmpty(indent: nat, step: nat, c: Context)
    ensures Spread(indent, step, c, []) == ""
  {
  }
}
