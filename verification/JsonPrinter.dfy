/** The indenting JSON printer that keeps arrays of primitives on one line, and a reader for
    RFC 8259 texts (structure of sections 2, 4 and 5; scalars are taken as written). */
module JsonPrinter {
  import opened Nullables

  /** A scalar is the text its dump() gives; so is the name of a member. */
  datatype Json = Scalar(text: string) | Arr(items: seq<Json>) | Obj(members: seq<Member>)
  datatype Member = Member(key: string, value: Json)

  // ----- the texts

  function Spaces(n: nat): (s: string)
    ensures |s| == n
  {
    seq(n, i => ' ')
  }

  predicate AllPrimitive(items: seq<Json>) { forall i :: 0 <= i < |items| ==> items[i].Scalar? }

  /** What the printer writes for `j`. */
  function Text(j: Json, indent: nat, step: nat): string
    decreases j, 1
  {
    match j
    case Scalar(t) => t
    case Obj(m) => "{\n" + MembersText(m, indent, step) + "\n" + Spaces(indent) + "}"
    case Arr(a) =>
      if AllPrimitive(a) then "[" + InlineText(a) + "]"
      else "[\n" + ItemsText(a, indent, step) + "\n" + Spaces(indent) + "]"
  }

  function MembersText(m: seq<Member>, indent: nat, step: nat): string
    decreases m, 0
  {
    if m == [] then ""
    else MemberText(m[0], indent, step) + MembersLeft(m, 1, indent, step)
  }

  function MemberText(m: Member, indent: nat, step: nat): string
    decreases m, 0
  {
    Spaces(indent + step) + m.key + ": " + Text(m.value, indent + step, step)
  }

  /** From the separator before member `i` on. */
  function MembersLeft(m: seq<Member>, i: nat, indent: nat, step: nat): string
    requires 0 < i <= |m|
    decreases m[i..], 1
  {
    if i == |m| then "" else ",\n" + MembersText(m[i..], indent, step)
  }

  function ItemsText(a: seq<Json>, indent: nat, step: nat): string
    decreases a, 0
  {
    if a == [] then ""
    else ItemText(a[0], indent, step) + ItemsLeft(a, 1, indent, step)
  }

  function ItemText(j: Json, indent: nat, step: nat): string
    decreases j, 2
  {
    Spaces(indent + step) + Text(j, indent + step, step)
  }

  function ItemsLeft(a: seq<Json>, i: nat, indent: nat, step: nat): string
    requires 0 < i <= |a|
    decreases a[i..], 1
  {
    if i == |a| then "" else ",\n" + ItemsText(a[i..], indent, step)
  }

  function InlineText(a: seq<Json>): string
    requires AllPrimitive(a)
    decreases |a|, 0
  {
    if a == [] then "" else a[0].text + InlineLeft(a, 1)
  }

  function InlineLeft(a: seq<Json>, i: nat): string
    requires 0 < i <= |a| && AllPrimitive(a)
    decreases |a| - i, 1
  {
    if i == |a| then "" else ", " + InlineText(a[i..])
  }

  /** The compact form, without insignificant white space. */
  function Compact(j: Json): string
    decreases j, 1
  {
    match j
    case Scalar(t) => t
    case Obj(m) => "{" + CompactMembers(m) + "}"
    case Arr(a) => "[" + CompactItems(a) + "]"
  }

  function CompactMembers(m: seq<Member>): string
    decreases m, 0
  {
    if m == [] then ""
    else m[0].key + ":" + Compact(m[0].value) + if |m| == 1 then "" else "," + CompactMembers(m[1..])
  }

  function CompactItems(a: seq<Json>): string
    decreases a, 0
  {
    if a == [] then "" else Compact(a[0]) + if |a| == 1 then "" else "," + CompactItems(a[1..])
  }

  // ----- tokens

  datatype Token = Punct(c: char) | Lit(text: string) | Bad

  predicate White(c: char) { c == ' ' || c == '\n' || c == '\t' || c == '\r' }
  predicate Structural(c: char) { c == '{' || c == '}' || c == '[' || c == ']' || c == ':' || c == ',' }
  predicate Delimiter(c: char) { White(c) || Structural(c) || c == '"' }

  /** Position after the closing quote of the string literal whose contents start at `i`;
      0 if it is not closed. */
  function StringEnd(s: string, i: nat): (n: nat)
    requires i <= |s|
    ensures n == 0 || i < n <= |s|
    decreases |s| - i
  {
    if i == |s| then 0
    else if s[i] == '"' then i + 1
    else if s[i] == '\\' then if i + 1 == |s| then 0 else StringEnd(s, i + 2)
    else StringEnd(s, i + 1)
  }

  function WordEnd(s: string, i: nat): (n: nat)
    requires i <= |s|
    ensures i <= n <= |s|
    decreases |s| - i
  {
    if i == |s| || Delimiter(s[i]) then i else WordEnd(s, i + 1)
  }

  function Lex(s: string): seq<Token>
    decreases |s|
  {
    if s == "" then []
    else if White(s[0]) then Lex(s[1..])
    else if Structural(s[0]) then [Punct(s[0])] + Lex(s[1..])
    else if s[0] == '"' then
      var n := StringEnd(s, 1);
      if n == 0 then [Bad] else [Lit(s[..n])] + Lex(s[n..])
    else
      var n := WordEnd(s, 1);
      [Lit(s[..n])] + Lex(s[n..])
  }

  /** A complete string literal; control characters, line breaks among them, are escaped. */
  predicate StringToken(t: string) {
    |t| >= 2 && t[0] == '"' && StringEnd(t, 1) == |t| && forall i :: 0 <= i < |t| ==> t[i] >= ' '
  }

  /** A number, true, false or null, as far as the lexer can tell. */
  predicate WordToken(t: string) {
    t != "" && forall i :: 0 <= i < |t| ==> !Delimiter(t[i])
  }

  /** Scalars and names are what dump() produces: tokens. */
  ghost predicate Dumped(j: Json) {
    match j
    case Scalar(t) => StringToken(t) || WordToken(t)
    case Arr(a) => forall i :: 0 <= i < |a| ==> Dumped(a[i])
    case Obj(m) => forall i :: 0 <= i < |m| ==> StringToken(m[i].key) && Dumped(m[i].value)
  }

  function Tokens(j: Json): seq<Token>
    decreases j, 1
  {
    match j
    case Scalar(t) => [Lit(t)]
    case Obj(m) => [Punct('{')] + MemberTokens(m) + [Punct('}')]
    case Arr(a) => [Punct('[')] + ItemTokens(a) + [Punct(']')]
  }

  function MemberTokens(m: seq<Member>): seq<Token>
    decreases m, 0
  {
    if m == [] then []
    else [Lit(m[0].key), Punct(':')] + Tokens(m[0].value) + if |m| == 1 then [] else [Punct(',')] + MemberTokens(m[1..])
  }

  function ItemTokens(a: seq<Json>): seq<Token>
    decreases a, 0
  {
    if a == [] then [] else Tokens(a[0]) + if |a| == 1 then [] else [Punct(',')] + ItemTokens(a[1..])
  }

  // ----- reading a text from its front

  lemma LexWhite(c: char, s: string)
    requires White(c)
    ensures Lex([c] + s) == Lex(s)
  {
  }

  lemma LexPunct(c: char, s: string)
    requires Structural(c)
    ensures Lex([c] + s) == [Punct(c)] + Lex(s)
  {
  }

  lemma {:induction false} LexSpaces(n: nat, s: string)
    ensures Lex(Spaces(n) + s) == Lex(s)
  {
    if n > 0 {
      LexSpaces(n - 1, s);
      assert Spaces(n) + s == [' '] + (Spaces(n - 1) + s);
    } else {
      assert Spaces(0) + s == s;
    }
  }

  lemma {:induction false} StringEndPrefix(t: string, s: string, i: nat)
    requires i <= |t| && StringEnd(t, i) != 0
    ensures StringEnd(t + s, i) == StringEnd(t, i)
    decreases |t| - i
  {
    if i < |t| && t[i] != '"' {
      if t[i] == '\\' {
        StringEndPrefix(t, s, i + 2);
      } else {
        StringEndPrefix(t, s, i + 1);
      }
    }
  }

  lemma {:induction false} WordEndPrefix(t: string, s: string, i: nat)
    requires i <= |t| && WordToken(t) && (s == "" || Delimiter(s[0]))
    ensures WordEnd(t + s, i) == |t|
    decreases |t| - i
  {
    if i < |t| {
      assert (t + s)[i] == t[i];
      WordEndPrefix(t, s, i + 1);
    }
  }

  lemma LexToken(t: string, s: string)
    requires StringToken(t) || (WordToken(t) && (s == "" || Delimiter(s[0])))
    ensures Lex(t + s) == [Lit(t)] + Lex(s)
  {
    assert (t + s)[..|t|] == t && (t + s)[|t|..] == s;
    if StringToken(t) {
      StringEndPrefix(t, s, 1);
    } else {
      WordEndPrefix(t, s, 1);
    }
  }

  /** An opening bracket and a line break; a line break, indentation and a closing bracket. */
  lemma LexOpen(c: char, s: string)
    requires Structural(c)
    ensures Lex([c, '\n'] + s) == [Punct(c)] + Lex(s)
  {
    assert [c, '\n'] + s == [c] + (['\n'] + s);
    LexPunct(c, ['\n'] + s);
    LexWhite('\n', s);
  }

  lemma LexClose(indent: nat, c: char, s: string)
    requires Structural(c)
    ensures Lex(Close(indent, c, s)) == [Punct(c)] + Lex(s)
  {
    assert "\n" + Spaces(indent) + [c] + s == ['\n'] + (Spaces(indent) + ([c] + s));
    LexWhite('\n', Spaces(indent) + ([c] + s));
    LexSpaces(indent, [c] + s);
    LexPunct(c, s);
  }

  // ----- texts followed by a rest

  function AfterMember(m: seq<Member>, indent: nat, step: nat, s: string): string
    requires m != []
  {
    if |m| == 1 then s else [',', '\n'] + (MembersText(m[1..], indent, step) + s)
  }

  lemma Assoc<T>(a: seq<T>, b: seq<T>, c: seq<T>)
    ensures (a + b) + c == a + (b + c)
  {
  }

  lemma MembersShape(m: seq<Member>, indent: nat, step: nat, s: string)
    requires m != []
    ensures MembersText(m, indent, step) + s ==
      Spaces(indent + step) +
        (m[0].key + ([':'] + ([' '] + (Text(m[0].value, indent + step, step) + AfterMember(m, indent, step, s)))))
  {
    hide Text, Spaces;
    var sp, key, t := Spaces(indent + step), m[0].key, Text(m[0].value, indent + step, step);
    var tail := if |m| == 1 then "" else ",\n" + MembersText(m[1..], indent, step);
    var more := AfterMember(m, indent, step, s);
    assert MembersText(m, indent, step) == sp + key + ": " + t + tail;
    hide MembersText;
    assert tail + s == more by {
      if |m| == 1 { assert "" + s == s; } else { Assoc(",\n", MembersText(m[1..], indent, step), s); }
    }
    Assoc(sp + key + ": " + t, tail, s);
    Assoc(sp + key + ": ", t, more);
    Assoc(sp + key, ": ", t + more);
    Assoc(sp, key, ": " + (t + more));
    assert ": " == [':'] + [' '];
    Assoc([':'], [' '], t + more);
  }

  function AfterCompactMember(m: seq<Member>, s: string): string
    requires m != []
  {
    if |m| == 1 then s else [','] + (CompactMembers(m[1..]) + s)
  }

  lemma CompactMembersShape(m: seq<Member>, s: string)
    requires m != []
    ensures CompactMembers(m) + s == m[0].key + ([':'] + (Compact(m[0].value) + AfterCompactMember(m, s)))
  {
    hide Compact;
    var key, t, more := m[0].key, Compact(m[0].value), AfterCompactMember(m, s);
    var tail := if |m| == 1 then "" else "," + CompactMembers(m[1..]);
    assert CompactMembers(m) == key + ":" + t + tail;
    hide CompactMembers;
    assert tail + s == more by {
      if |m| == 1 { assert "" + s == s; } else { Assoc(",", CompactMembers(m[1..]), s); }
    }
    Assoc(key + ":" + t, tail, s);
    Assoc(key + ":", t, more);
    Assoc(key, ":", t + more);
  }

  lemma MemberTokensShape(m: seq<Member>, r: seq<Token>)
    requires m != []
    ensures MemberTokens(m) + r == [Lit(m[0].key)] + ([Punct(':')] + (Tokens(m[0].value) +
      if |m| == 1 then r else [Punct(',')] + (MemberTokens(m[1..]) + r)))
  {
    hide Tokens;
    var head, t := [Lit(m[0].key), Punct(':')], Tokens(m[0].value);
    var more := if |m| == 1 then r else [Punct(',')] + (MemberTokens(m[1..]) + r);
    var tail := if |m| == 1 then [] else [Punct(',')] + MemberTokens(m[1..]);
    assert MemberTokens(m) == head + t + tail;
    hide MemberTokens;
    assert tail + r == more by {
      if |m| > 1 { Assoc([Punct(',')], MemberTokens(m[1..]), r); }
    }
    Assoc(head + t, tail, r);
    Assoc(head, t, more);
    assert head == [Lit(m[0].key)] + [Punct(':')];
    Assoc([Lit(m[0].key)], [Punct(':')], t + more);
  }

  function Close(indent: nat, c: char, s: string): string { "\n" + Spaces(indent) + [c] + s }

  lemma TextShape(j: Json, indent: nat, step: nat, s: string)
    requires !j.Scalar?
    ensures j.Obj? ==>
      Text(j, indent, step) + s == ['{', '\n'] + (MembersText(j.members, indent, step) + Close(indent, '}', s))
    ensures j.Arr? && AllPrimitive(j.items) ==> Text(j, indent, step) + s == ['['] + (InlineText(j.items) + ([']'] + s))
    ensures j.Arr? && !AllPrimitive(j.items) ==>
      Text(j, indent, step) + s == ['[', '\n'] + (ItemsText(j.items, indent, step) + Close(indent, ']', s))
  {
    hide MembersText, ItemsText, InlineText, Spaces;
    match j {
      case Obj(m) => Bracketed("{\n", MembersText(m, indent, step), "\n" + Spaces(indent), "}", s);
      case Arr(a) =>
        if AllPrimitive(a) {
          Assoc("[" + InlineText(a), "]", s);
          Assoc("[", InlineText(a), "]" + s);
        } else {
          Bracketed("[\n", ItemsText(a, indent, step), "\n" + Spaces(indent), "]", s);
        }
    }
  }

  lemma Bracketed(open: string, middle: string, line: string, close: string, s: string)
    ensures open + middle + line + close + s == open + (middle + (line + close + s))
    ensures forall a, b :: a + b == line ==> open + middle + a + b + close + s == open + (middle + (line + close + s))
  {
  }

  // ----- the printed text and the compact one have the same tokens

  lemma {:induction false} LexText(j: Json, indent: nat, step: nat, s: string)
    requires Dumped(j) && (s == "" || Delimiter(s[0]))
    ensures Lex(Text(j, indent, step) + s) == Tokens(j) + Lex(s)
    decreases j, 1
  {
    hide Lex, StringToken, WordToken, MembersText, ItemsText, InlineText, MemberTokens, ItemTokens, Spaces;
    match j {
      case Scalar(t) => LexToken(t, s);
      case Obj(m) =>
        TextShape(j, indent, step, s);
        hide Text;
        LexOpen('{', MembersText(m, indent, step) + Close(indent, '}', s));
        LexMembers(m, indent, step, Close(indent, '}', s));
        LexClose(indent, '}', s);
      case Arr(a) =>
        TextShape(j, indent, step, s);
        hide Text;
        if AllPrimitive(a) {
          LexPunct('[', InlineText(a) + ([']'] + s));
          LexInline(a, [']'] + s);
          LexPunct(']', s);
        } else {
          LexOpen('[', ItemsText(a, indent, step) + Close(indent, ']', s));
          LexItems(a, indent, step, Close(indent, ']', s));
          LexClose(indent, ']', s);
        }
    }
  }

  lemma {:induction false} LexMembers(m: seq<Member>, indent: nat, step: nat, s: string)
    requires forall i :: 0 <= i < |m| ==> StringToken(m[i].key) && Dumped(m[i].value)
    requires s != "" && Delimiter(s[0])
    ensures Lex(MembersText(m, indent, step) + s) == MemberTokens(m) + Lex(s)
    decreases m, 0
  {
    hide Lex, StringToken, WordToken, Dumped, Text, Spaces, Tokens;
    if m == [] {
      assert "" + s == s;
    } else {
      MembersShape(m, indent, step, s);
      MemberTokensShape(m, Lex(s));
      hide MembersText, MemberTokens;
      var more := AfterMember(m, indent, step, s);
      var value := Text(m[0].value, indent + step, step) + more;
      LexSpaces(indent + step, m[0].key + ([':'] + ([' '] + value)));
      LexToken(m[0].key, [':'] + ([' '] + value));
      LexPunct(':', [' '] + value);
      LexWhite(' ', value);
      LexText(m[0].value, indent + step, step, more);
      if |m| > 1 {
        LexOpen(',', MembersText(m[1..], indent, step) + s);
        LexMembers(m[1..], indent, step, s);
      }
    }
  }

  lemma {:induction false} LexItems(a: seq<Json>, indent: nat, step: nat, s: string)
    requires forall i :: 0 <= i < |a| ==> Dumped(a[i])
    requires s != "" && Delimiter(s[0])
    ensures Lex(ItemsText(a, indent, step) + s) == ItemTokens(a) + Lex(s)
    decreases a, 0
  {
    hide Lex, StringToken, WordToken, StringEnd, WordEnd;
    if a == [] {
      assert "" + s == s;
    } else {
      var more := if |a| == 1 then s else ",\n" + (ItemsText(a[1..], indent, step) + s);
      var value := Text(a[0], indent + step, step) + more;
      assert ItemsText(a, indent, step) + s == Spaces(indent + step) + value;
      LexSpaces(indent + step, value);
      LexText(a[0], indent + step, step, more);
      if |a| > 1 {
        LexOpen(',', ItemsText(a[1..], indent, step) + s);
        LexItems(a[1..], indent, step, s);
      }
    }
  }

  lemma {:induction false} LexInline(a: seq<Json>, s: string)
    requires AllPrimitive(a) && forall i :: 0 <= i < |a| ==> Dumped(a[i])
    requires s != "" && Delimiter(s[0])
    ensures Lex(InlineText(a) + s) == ItemTokens(a) + Lex(s)
    decreases a
  {
    hide Lex, StringToken, WordToken, StringEnd, WordEnd;
    if a == [] {
      assert "" + s == s;
    } else {
      var more := if |a| == 1 then s else [','] + ([' '] + (InlineText(a[1..]) + s));
      assert InlineText(a) + s == a[0].text + more;
      LexToken(a[0].text, more);
      if |a| > 1 {
        LexPunct(',', [' '] + (InlineText(a[1..]) + s));
        LexWhite(' ', InlineText(a[1..]) + s);
        LexInline(a[1..], s);
      }
    }
  }

  lemma {:induction false} LexCompact(j: Json, s: string)
    requires Dumped(j) && (s == "" || Delimiter(s[0]))
    ensures Lex(Compact(j) + s) == Tokens(j) + Lex(s)
    decreases j, 1
  {
    hide Lex, StringToken, WordToken, StringEnd, WordEnd;
    match j {
      case Scalar(t) => LexToken(t, s);
      case Obj(m) =>
        assert Compact(j) + s == ['{'] + (CompactMembers(m) + (['}'] + s));
        LexPunct('{', CompactMembers(m) + (['}'] + s));
        LexCompactMembers(m, ['}'] + s);
        LexPunct('}', s);
      case Arr(a) =>
        assert Compact(j) + s == ['['] + (CompactItems(a) + ([']'] + s));
        LexPunct('[', CompactItems(a) + ([']'] + s));
        LexCompactItems(a, [']'] + s);
        LexPunct(']', s);
    }
  }

  lemma {:induction false} LexCompactMembers(m: seq<Member>, s: string)
    requires forall i :: 0 <= i < |m| ==> StringToken(m[i].key) && Dumped(m[i].value)
    requires s != "" && Delimiter(s[0])
    ensures Lex(CompactMembers(m) + s) == MemberTokens(m) + Lex(s)
    decreases m, 0
  {
    hide Lex, StringToken, WordToken, StringEnd, WordEnd;
    if m == [] {
      assert "" + s == s;
    } else {
      CompactMembersShape(m, s);
      MemberTokensShape(m, Lex(s));
      hide CompactMembers, Compact, Tokens, Dumped, MemberTokens;
      var more := AfterCompactMember(m, s);
      LexToken(m[0].key, [':'] + (Compact(m[0].value) + more));
      LexPunct(':', Compact(m[0].value) + more);
      LexCompact(m[0].value, more);
      if |m| > 1 {
        LexPunct(',', CompactMembers(m[1..]) + s);
        LexCompactMembers(m[1..], s);
      }
    }
  }

  lemma {:induction false} LexCompactItems(a: seq<Json>, s: string)
    requires forall i :: 0 <= i < |a| ==> Dumped(a[i])
    requires s != "" && Delimiter(s[0])
    ensures Lex(CompactItems(a) + s) == ItemTokens(a) + Lex(s)
    decreases a, 0
  {
    hide Lex, StringToken, WordToken, StringEnd, WordEnd;
    if a == [] {
      assert "" + s == s;
    } else {
      var more := if |a| == 1 then s else [','] + (CompactItems(a[1..]) + s);
      assert CompactItems(a) + s == Compact(a[0]) + more;
      LexCompact(a[0], more);
      if |a| > 1 {
        LexPunct(',', CompactItems(a[1..]) + s);
        LexCompactItems(a[1..], s);
      }
    }
  }

  // ----- the reader

  datatype Parsed<T> = Failed | Ok(value: T, rest: seq<Token>)

  /** value = scalar / array / object (RFC 8259, section 3). */
  function ParseValue(ts: seq<Token>): (r: Parsed<Json>)
    ensures r.Ok? ==> |r.rest| < |ts|
    decreases |ts|, 0
  {
    if ts == [] then Failed
    else
      match ts[0]
      case Lit(t) => Ok(Scalar(t), ts[1..])
      case Bad => Failed
      case Punct(c) =>
        if c == '[' then
          if |ts| > 1 && ts[1] == Punct(']') then Ok(Arr([]), ts[2..])
          else
            var r := ParseItems(ts[1..]);
            if r.Ok? then Ok(Arr(r.value), r.rest) else Failed
        else if c == '{' then
          if |ts| > 1 && ts[1] == Punct('}') then Ok(Obj([]), ts[2..])
          else
            var r := ParseMembers(ts[1..]);
            if r.Ok? then Ok(Obj(r.value), r.rest) else Failed
        else Failed
  }

  function ParseItems(ts: seq<Token>): (r: Parsed<seq<Json>>)
    ensures r.Ok? ==> |r.rest| < |ts|
    decreases |ts|, 1
  {
    var v := ParseValue(ts);
    if v.Failed? || v.rest == [] then Failed
    else if v.rest[0] == Punct(']') then Ok([v.value], v.rest[1..])
    else if v.rest[0] == Punct(',') then
      var r := ParseItems(v.rest[1..]);
      if r.Ok? then Ok([v.value] + r.value, r.rest) else Failed
    else Failed
  }

  function ParseMembers(ts: seq<Token>): (r: Parsed<seq<Member>>)
    ensures r.Ok? ==> |r.rest| < |ts|
    decreases |ts|, 1
  {
    if |ts| < 2 || !ts[0].Lit? || !StringToken(ts[0].text) || ts[1] != Punct(':') then Failed
    else
      var v := ParseValue(ts[2..]);
      if v.Failed? || v.rest == [] then Failed
      else if v.rest[0] == Punct('}') then Ok([Member(ts[0].text, v.value)], v.rest[1..])
      else if v.rest[0] == Punct(',') then
        var r := ParseMembers(v.rest[1..]);
        if r.Ok? then Ok([Member(ts[0].text, v.value)] + r.value, r.rest) else Failed
      else Failed
  }

  /** A text is read as one value with nothing after it. */
  function Parse(s: string): Nullable<Json> {
    var r := ParseValue(Lex(s));
    if r.Ok? && r.rest == [] then Value(r.value) else Null
  }

  lemma {:induction false} ParseTokens(j: Json, r: seq<Token>)
    requires Dumped(j)
    ensures ParseValue(Tokens(j) + r) == Ok(j, r)
    decreases j, 1
  {
    hide StringToken, WordToken;
    var ts := Tokens(j) + r;
    match j {
      case Scalar(t) => assert ts[1..] == r;
      case Obj(m) =>
        if m == [] {
          assert MemberTokens(m) == [];
          assert ts == [Punct('{'), Punct('}')] + r;
          assert ts[2..] == r;
        } else {
          assert ts[1..] == MemberTokens(m) + ([Punct('}')] + r);
          ParseMemberTokens(m, r);
        }
      case Arr(a) =>
        if a == [] {
          assert ItemTokens(a) == [];
          assert ts == [Punct('['), Punct(']')] + r;
          assert ts[2..] == r;
        } else {
          assert ts[1..] == ItemTokens(a) + ([Punct(']')] + r);
          ParseItemTokens(a, r);
          FirstToken(a[0]);
        }
    }
  }

  lemma FirstToken(j: Json)
    ensures Tokens(j) != [] && Tokens(j)[0] != Punct(']') && Tokens(j)[0] != Punct('}')
  {
  }

  lemma HeadTail<T>(s: seq<T>)
    requires s != []
    ensures [s[0]] + s[1..] == s
  {
  }

  lemma Single<T>(s: seq<T>)
    requires |s| == 1
    ensures [s[0]] == s
  {
  }

  lemma LastItem(body: seq<Token>, v: Json, r: seq<Token>)
    requires ParseValue(body) == Ok(v, [Punct(']')] + r)
    ensures ParseItems(body) == Ok([v], r)
  {
    assert ([Punct(']')] + r)[1..] == r;
  }

  lemma MoreItems(body: seq<Token>, v: Json, rest: seq<Token>, vs: seq<Json>, r: seq<Token>)
    requires ParseValue(body) == Ok(v, [Punct(',')] + rest) && ParseItems(rest) == Ok(vs, r)
    ensures ParseItems(body) == Ok([v] + vs, r)
  {
    assert ([Punct(',')] + rest)[1..] == rest;
  }

  lemma ItemTokensShape(a: seq<Json>, r: seq<Token>)
    requires a != []
    ensures ItemTokens(a) + r == Tokens(a[0]) + if |a| == 1 then r else [Punct(',')] + (ItemTokens(a[1..]) + r)
  {
    hide Tokens;
    var t := Tokens(a[0]);
    var tail := if |a| == 1 then [] else [Punct(',')] + ItemTokens(a[1..]);
    assert ItemTokens(a) == t + tail;
    hide ItemTokens;
    Assoc(t, tail, r);
    if |a| > 1 { Assoc([Punct(',')], ItemTokens(a[1..]), r); }
  }

  lemma {:induction false} ParseItemTokens(a: seq<Json>, r: seq<Token>)
    requires a != [] && forall i :: 0 <= i < |a| ==> Dumped(a[i])
    ensures ParseItems(ItemTokens(a) + ([Punct(']')] + r)) == Ok(a, r)
    decreases a, 0
  {
    hide Tokens, Dumped, ParseItems, ParseValue;
    var close := [Punct(']')] + r;
    ItemTokensShape(a, close);
    hide ItemTokens;
    if |a| == 1 {
      ParseTokens(a[0], close);
      LastItem(Tokens(a[0]) + close, a[0], r);
      Single(a);
    } else {
      var rest := ItemTokens(a[1..]) + close;
      ParseTokens(a[0], [Punct(',')] + rest);
      ParseItemTokens(a[1..], r);
      MoreItems(Tokens(a[0]) + ([Punct(',')] + rest), a[0], rest, a[1..], r);
      HeadTail(a);
    }
  }

  lemma LastMember(key: string, body: seq<Token>, v: Json, r: seq<Token>)
    requires StringToken(key) && ParseValue(body) == Ok(v, [Punct('}')] + r)
    ensures ParseMembers([Lit(key)] + ([Punct(':')] + body)) == Ok([Member(key, v)], r)
  {
    hide StringToken;
    assert ([Lit(key)] + ([Punct(':')] + body))[2..] == body;
    assert ([Punct('}')] + r)[1..] == r;
  }

  lemma MoreMembers(key: string, body: seq<Token>, v: Json, rest: seq<Token>, ms: seq<Member>, r: seq<Token>)
    requires StringToken(key) && ParseValue(body) == Ok(v, [Punct(',')] + rest) && ParseMembers(rest) == Ok(ms, r)
    ensures ParseMembers([Lit(key)] + ([Punct(':')] + body)) == Ok([Member(key, v)] + ms, r)
  {
    hide StringToken;
    assert ([Lit(key)] + ([Punct(':')] + body))[2..] == body;
    assert ([Punct(',')] + rest)[1..] == rest;
  }

  lemma {:induction false} ParseMemberTokens(m: seq<Member>, r: seq<Token>)
    requires m != [] && forall i :: 0 <= i < |m| ==> StringToken(m[i].key) && Dumped(m[i].value)
    ensures ParseMembers(MemberTokens(m) + ([Punct('}')] + r)) == Ok(m, r)
    decreases m, 0
  {
    hide StringToken, Tokens, Dumped, ParseMembers, ParseValue;
    var close := [Punct('}')] + r;
    MemberTokensShape(m, close);
    hide MemberTokens;
    if |m| == 1 {
      ParseTokens(m[0].value, close);
      LastMember(m[0].key, Tokens(m[0].value) + close, m[0].value, r);
      assert Member(m[0].key, m[0].value) == m[0];
      Single(m);
    } else {
      var rest := MemberTokens(m[1..]) + close;
      ParseTokens(m[0].value, [Punct(',')] + rest);
      ParseMemberTokens(m[1..], r);
      MoreMembers(m[0].key, Tokens(m[0].value) + ([Punct(',')] + rest), m[0].value, rest, m[1..], r);
      assert Member(m[0].key, m[0].value) == m[0];
      HeadTail(m);
    }
  }

  // ----- the printer

  /** Printing is faithful: for every value, indentation and step the printed text has the
      tokens of the compact form, and reading it gives the value back. */
  lemma PrintedTextReadsBack(j: Json, indent: nat, step: nat)
    requires Dumped(j)
    ensures Lex(Text(j, indent, step)) == Lex(Compact(j))
    ensures Parse(Text(j, indent, step)) == Value(j) == Parse(Compact(j))
  {
    hide Text, Compact, Tokens;
    LexText(j, indent, step, "");
    LexCompact(j, "");
    ParseTokens(j, []);
    assert Text(j, indent, step) + "" == Text(j, indent, step) && Compact(j) + "" == Compact(j);
    assert Tokens(j) + [] == Tokens(j);
  }

  /** Formatting what was formatted, with any step, formats the value itself. */
  lemma FormattingIsIdempotent(j: Json, step: nat, step': nat)
    requires Dumped(j)
    ensures var r := Parse(Text(j, 0, step)); r.Value? && Text(r.value, 0, step') == Text(j, 0, step')
  {
    PrintedTextReadsBack(j, 0, step);
  }

  /** An array of primitives is written without a line break. */
  lemma {:induction false} PrimitiveArrayOnOneLine(a: seq<Json>, indent: nat, step: nat)
    requires AllPrimitive(a) && Dumped(Arr(a))
    ensures '\n' !in Text(Arr(a), indent, step)
  {
    InlineOnOneLine(a);
  }

  lemma {:induction false} InlineOnOneLine(a: seq<Json>)
    requires AllPrimitive(a) && forall i :: 0 <= i < |a| ==> Dumped(a[i])
    ensures '\n' !in InlineText(a)
  {
    if a != [] {
      InlineOnOneLine(a[1..]);
      assert Dumped(a[0]);
      assert '\n' !in a[0].text;
    }
  }

  class Stream {
    var text: string

    method Write(s: string)
      modifies this
      ensures text == old(text) + s
    {
      text := text + s;
    }
  }

  /** print_json_arrays_inline. */
  method PrintJsonArraysInline(j: Json, o: Stream, indent: nat, step: nat)
    modifies o
    ensures o.text == old(o.text) + Text(j, indent, step)
    decreases j, 1
  {
    TextParts(j, indent, step);
    hide Text, MembersText, ItemsText, InlineText, Spaces;
    match j {
      case Scalar(t) => o.Write(t);
      case Obj(m) =>
        o.Write("{\n");
        PrintMembers(m, o, indent, step);
        o.Write("\n" + Spaces(indent) + "}");
        Glue(old(o.text), "{\n", MembersText(m, indent, step), "\n" + Spaces(indent) + "}");
      case Arr(a) =>
        if AllPrimitive(a) {
          o.Write("[");
          PrintInline(a, o);
          o.Write("]");
          Glue(old(o.text), "[", InlineText(a), "]");
        } else {
          o.Write("[\n");
          PrintItems(a, o, indent, step);
          o.Write("\n" + Spaces(indent) + "]");
          Glue(old(o.text), "[\n", ItemsText(a, indent, step), "\n" + Spaces(indent) + "]");
        }
    }
  }

  lemma EndLine(text: string, sp: string, close: string)
    ensures text + "\n" + sp + close == text + ("\n" + sp + close)
  {
  }

  lemma TextParts(j: Json, indent: nat, step: nat)
    ensures j.Scalar? ==> Text(j, indent, step) == j.text
    ensures j.Obj? ==>
      Text(j, indent, step) == "{\n" + MembersText(j.members, indent, step) + ("\n" + Spaces(indent) + "}")
    ensures j.Arr? && AllPrimitive(j.items) ==> Text(j, indent, step) == "[" + InlineText(j.items) + "]"
    ensures j.Arr? && !AllPrimitive(j.items) ==>
      Text(j, indent, step) == "[\n" + ItemsText(j.items, indent, step) + ("\n" + Spaces(indent) + "]")
  {
    hide MembersText, ItemsText, InlineText, Spaces;
    match j {
      case Scalar(_) =>
      case Obj(m) => EndLine("{\n" + MembersText(m, indent, step), Spaces(indent), "}");
      case Arr(a) => EndLine("[\n" + ItemsText(a, indent, step), Spaces(indent), "]");
    }
  }

  lemma Glue(was: string, open: string, middle: string, close: string)
    ensures was + open + middle + close == was + (open + middle + close)
  {
  }

  method PrintMember(m: Member, o: Stream, indent: nat, step: nat)
    modifies o
    ensures o.text == old(o.text) + MemberText(m, indent, step)
    decreases m, 0
  {
    hide Text, Spaces;
    var sp := Spaces(indent + step);
    o.Write(sp);
    o.Write(m.key + ": ");
    PrintJsonArraysInline(m.value, o, indent + step, step);
    GlueThree(old(o.text), sp, m.key, ": ", Text(m.value, indent + step, step));
  }

  lemma GlueThree(was: string, a: string, b: string, c: string, d: string)
    ensures was + a + (b + c) + d == was + (a + b + c + d)
  {
  }

  /** Writing a separator and a piece moves them from what is left to what is written. */
  lemma Moved(was: string, separator: string, piece: string, left: string)
    ensures was + (separator + (piece + left)) == was + separator + piece + left
  {
  }

  method PrintMembers(m: seq<Member>, o: Stream, indent: nat, step: nat)
    modifies o
    ensures o.text == old(o.text) + MembersText(m, indent, step)
    decreases m, 0
  {
    hide MemberText;
    var i := 0;
    if |m| == 0 {
      assert o.text + "" == o.text;
      return;
    }
    PrintMember(m[0], o, indent, step);
    i := 1;
    Assoc(old(o.text), MemberText(m[0], indent, step), MembersLeft(m, 1, indent, step));
    while i < |m|
      invariant 1 <= i <= |m|
      invariant o.text + MembersLeft(m, i, indent, step) == old(o.text) + MembersText(m, indent, step)
    {
      MembersMove(m, i, indent, step);
      Moved(o.text, ",\n", MemberText(m[i], indent, step), MembersLeft(m, i + 1, indent, step));
      hide MembersLeft, MembersText;
      o.Write(",\n");
      PrintMember(m[i], o, indent, step);
      i := i + 1;
    }
    assert o.text + "" == o.text;
  }

  lemma MembersMove(m: seq<Member>, i: nat, indent: nat, step: nat)
    requires 0 < i < |m|
    ensures MembersLeft(m, i, indent, step) ==
      ",\n" + (MemberText(m[i], indent, step) + MembersLeft(m, i + 1, indent, step))
  {
    hide MemberText;
    assert m[i..][0] == m[i] && m[i..][1..] == m[i + 1..];
    assert MembersLeft(m[i..], 1, indent, step) == MembersLeft(m, i + 1, indent, step);
  }

  method PrintItems(a: seq<Json>, o: Stream, indent: nat, step: nat)
    modifies o
    ensures o.text == old(o.text) + ItemsText(a, indent, step)
    decreases a, 0
  {
    hide Text, Spaces;
    var i := 0;
    if |a| == 0 {
      assert o.text + "" == o.text;
      return;
    }
    o.Write(Spaces(indent + step));
    PrintJsonArraysInline(a[0], o, indent + step, step);
    i := 1;
    Assoc(old(o.text), Spaces(indent + step), Text(a[0], indent + step, step));
    Assoc(old(o.text), ItemText(a[0], indent, step), ItemsLeft(a, 1, indent, step));
    while i < |a|
      invariant 1 <= i <= |a|
      invariant o.text + ItemsLeft(a, i, indent, step) == old(o.text) + ItemsText(a, indent, step)
    {
      ItemsMove(a, i, indent, step);
      Moved(o.text, ",\n", ItemText(a[i], indent, step), ItemsLeft(a, i + 1, indent, step));
      hide ItemsLeft, ItemsText;
      ghost var was := o.text;
      o.Write(",\n" + Spaces(indent + step));
      PrintJsonArraysInline(a[i], o, indent + step, step);
      GlueItem(was, Spaces(indent + step), Text(a[i], indent + step, step));
      i := i + 1;
    }
    assert o.text + "" == o.text;
  }

  lemma GlueItem(was: string, sp: string, t: string)
    ensures was + (",\n" + sp) + t == was + ",\n" + (sp + t)
  {
  }

  lemma ItemsMove(a: seq<Json>, i: nat, indent: nat, step: nat)
    requires 0 < i < |a|
    ensures ItemsLeft(a, i, indent, step) == ",\n" + (ItemText(a[i], indent, step) + ItemsLeft(a, i + 1, indent, step))
  {
    hide ItemText;
    assert a[i..][0] == a[i] && a[i..][1..] == a[i + 1..];
    assert ItemsLeft(a[i..], 1, indent, step) == ItemsLeft(a, i + 1, indent, step);
  }

  method PrintInline(a: seq<Json>, o: Stream)
    requires AllPrimitive(a)
    modifies o
    ensures o.text == old(o.text) + InlineText(a)
  {
    var i := 0;
    if |a| == 0 {
      assert o.text + "" == o.text;
      return;
    }
    o.Write(a[0].text);
    i := 1;
    Assoc(old(o.text), a[0].text, InlineLeft(a, 1));
    while i < |a|
      invariant 1 <= i <= |a|
      invariant o.text + InlineLeft(a, i) == old(o.text) + InlineText(a)
    {
      InlineMove(a, i);
      Moved(o.text, ", ", a[i].text, InlineLeft(a, i + 1));
      Assoc(o.text, ", ", a[i].text);
      hide InlineLeft, InlineText;
      o.Write(", " + a[i].text);
      i := i + 1;
    }
    assert o.text + "" == o.text;
  }

  lemma InlineMove(a: seq<Json>, i: nat)
    requires 0 < i < |a| && AllPrimitive(a)
    ensures InlineLeft(a, i) == ", " + (a[i].text + InlineLeft(a, i + 1))
  {
    assert a[i..][0] == a[i] && a[i..][1..] == a[i + 1..];
    assert InlineLeft(a[i..], 1) == InlineLeft(a, i + 1);
  }
}
