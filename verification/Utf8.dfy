/** The UTF-8 step the usage printer takes to find the screen width of a text, on bytes. */
module Utf8 {
  type Text = seq<bv8>

  /** No byte is 0xFF: that byte never occurs in UTF-8, and the printer asks for the leading
      zeros of its complement, which is 0. */
  predicate Proper(s: Text) { forall i :: 0 <= i < |s| ==> s[i] != 0xFF }

  predicate IsWideChar(ch: bv32) {
    ch != 0x303F &&
    ( (0x1100 <= ch && ch <= 0x115F) || (0x2329 <= ch && ch <= 0x232A) || (0x2E80 <= ch && ch <= 0xA4C6)
   || (0xA960 <= ch && ch <= 0xA97C) || (0xAC00 <= ch && ch <= 0xD7FB) || (0xF900 <= ch && ch <= 0xFAFF)
   || (0xFE10 <= ch && ch <= 0xFE6B) || (0xFF01 <= ch && ch <= 0xFF60) || (0xFFE0 <= ch && ch <= 0xFFE6)
   || 0x1B000 <= ch)
  }

  /** __builtin_clz for the complement of a byte. */
  function LeadingZeros(x: bv32): (n: bv32)
    requires 0 < x && x < 0x100
  {
    if x >= 0x80 then 24 else if x >= 0x40 then 25 else if x >= 0x20 then 26 else if x >= 0x10 then 27
    else if x >= 8 then 28 else if x >= 4 then 29 else if x >= 2 then 30 else 31
  }

  /** The start byte without its length bits. */
  function Masked(b: bv8): bv32
    requires b != 0xFF
  {
    (b as bv32) & (0xFFFF_FFFF >> LeadingZeros(b as bv32 ^ 0xFF))
  }

  predicate Continuation(b: bv8) { b ^ 0x80 <= 0x3F }

  /** Adds the continuation bytes from `i` on to the code; the end of them. */
  function Continue(ch: bv32, s: Text, i: nat): (r: (bv32, nat))
    requires i <= |s|
    ensures i <= r.1 <= |s|
    ensures forall k :: i <= k < r.1 ==> Continuation(s[k])
    ensures r.1 < |s| ==> !Continuation(s[r.1])
    decreases |s| - i
  {
    if i < |s| && Continuation(s[i]) then Continue((ch << 6) ^ (s[i] as bv32) ^ 0x80, s, i + 1) else (ch, i)
  }

  /** A start byte without continuation bytes is never a wide character. */
  lemma LoneStartIsNarrow(s: Text, i: nat)
    requires Proper(s) && i < |s| && s[i] > 0xC1
    ensures Continue(Masked(s[i]), s, i + 1).1 == i + 1 ==> Continue(Masked(s[i]), s, i + 1).0 < 0x1100
  {
  }

  /** The character that starts at `i`: its width on the screen and where the next starts. */
  function CharAt(s: Text, i: nat): (r: (nat, nat))
    requires Proper(s) && i < |s|
    ensures 1 <= r.0 <= 2 && r.0 <= r.1 - i && r.1 <= |s|
  {
    if s[i] <= 0xC1 then (1, i + 1)
    else
      var (ch, n) := Continue(Masked(s[i]), s, i + 1);
      LoneStartIsNarrow(s, i);
      (if ch >= 0x1100 && IsWideChar(ch) then 2 else 1, n)
  }

  /** Screen width of s[i..]. */
  function WidthFrom(s: Text, i: nat): nat
    requires Proper(s) && i <= |s|
    decreases |s| - i
  {
    if i == |s| then 0 else CharAt(s, i).0 + WidthFrom(s, CharAt(s, i).1)
  }

  function Width(s: Text): nat
    requires Proper(s)
  {
    WidthFrom(s, 0)
  }

  /** No text is wider on the screen than it has bytes. */
  lemma {:induction false} WidthAtMostLength(s: Text, i: nat)
    requires Proper(s) && i <= |s|
    ensures WidthFrom(s, i) <= |s| - i
    decreases |s| - i
  {
    if i < |s| { WidthAtMostLength(s, CharAt(s, i).1); }
  }

  // ----- RFC 3629

  predicate Tail(b: bv8) { 0x80 <= b && b <= 0xBF }

  /** UTF8-2, UTF8-3 and UTF8-4 of section 4. */
  predicate WellFormed(b: Text) {
    || (|b| == 2 && 0xC2 <= b[0] && b[0] <= 0xDF && Tail(b[1]))
    || (|b| == 3 && Tail(b[1]) && Tail(b[2]) &&
          ( (b[0] == 0xE0 && 0xA0 <= b[1]) || (0xE1 <= b[0] && b[0] <= 0xEC)
         || (b[0] == 0xED && b[1] <= 0x9F) || (0xEE <= b[0] && b[0] <= 0xEF)))
    || (|b| == 4 && Tail(b[1]) && Tail(b[2]) && Tail(b[3]) &&
          ((b[0] == 0xF0 && 0x90 <= b[1]) || (0xF1 <= b[0] && b[0] <= 0xF3) || (b[0] == 0xF4 && b[1] <= 0x8F)))
  }

  function Low(b: bv8): bv32 { b as bv32 & 0x3F }

  /** The character number: the x bits of the table of section 3, in order. */
  function CodePoint(b: Text): bv32
    requires WellFormed(b)
  {
    if |b| == 2 then Bits2(b[0], b[1])
    else if |b| == 3 then Bits3(b[0], b[1], b[2])
    else Bits4(b[0], b[1], b[2], b[3])
  }

  function Bits2(b0: bv8, b1: bv8): bv32 { ((b0 as bv32 & 0x1F) << 6) | Low(b1) }

  function Bits3(b0: bv8, b1: bv8, b2: bv8): bv32 { ((b0 as bv32 & 0x0F) << 12) | (Low(b1) << 6) | Low(b2) }

  function Bits4(b0: bv8, b1: bv8, b2: bv8, b3: bv8): bv32 {
    ((b0 as bv32 & 0x07) << 18) | (Low(b1) << 12) | (Low(b2) << 6) | Low(b3)
  }

  lemma ContinuationIsTail(b: bv8)
    ensures Continuation(b) <==> Tail(b)
  {
  }

  function Add(ch: bv32, b: bv8): bv32 { (ch << 6) ^ (b as bv32) ^ 0x80 }

  lemma TwoBytes(b0: bv8, b1: bv8)
    requires 0xC2 <= b0 && b0 <= 0xDF && Tail(b1)
    ensures Add(Masked(b0), b1) == Bits2(b0, b1)
  {
  }

  lemma ThreeBytes(b0: bv8, b1: bv8, b2: bv8)
    requires 0xE0 <= b0 && b0 <= 0xEF && Tail(b1) && Tail(b2)
    ensures Add(Add(Masked(b0), b1), b2) == Bits3(b0, b1, b2)
  {
  }

  lemma FourBytes(b0: bv8, b1: bv8, b2: bv8, b3: bv8)
    requires 0xF0 <= b0 && b0 <= 0xF4 && Tail(b1) && Tail(b2) && Tail(b3)
    ensures Add(Add(Add(Masked(b0), b1), b2), b3) == Bits4(b0, b1, b2, b3)
  {
  }

  lemma ContinueOne(ch: bv32, s: Text, i: nat)
    requires i < |s| && Tail(s[i])
    ensures Continue(ch, s, i) == Continue(Add(ch, s[i]), s, i + 1)
  {
    ContinuationIsTail(s[i]);
  }

  /** The mask-and-shift loop computes the character number of every well-formed sequence
      and stops behind it. */
  lemma DecodesCodePoint(s: Text, i: nat, k: nat)
    requires i + k <= |s| && WellFormed(s[i..i + k]) && (i + k == |s| || !Continuation(s[i + k]))
    ensures s[i] > 0xC1 && s[i] != 0xFF
    ensures Continue(Masked(s[i]), s, i + 1) == (CodePoint(s[i..i + k]), i + k)
  {
    hide Masked, Low, Add, Bits2, Bits3, Bits4, Continuation, Continue;
    var b := s[i..i + k];
    var m := Masked(s[i]);
    assert b[0] == s[i] && b[1] == s[i + 1] && (k > 2 ==> b[2] == s[i + 2]) && (k > 3 ==> b[3] == s[i + 3]);
    var ch := Add(m, s[i + 1]);
    ContinueOne(m, s, i + 1);
    if k == 2 {
      TwoBytes(s[i], s[i + 1]);
    } else {
      ContinueOne(ch, s, i + 2);
      ch := Add(ch, s[i + 2]);
      if k == 3 {
        ThreeBytes(s[i], s[i + 1], s[i + 2]);
      } else {
        ContinueOne(ch, s, i + 3);
        ch := Add(ch, s[i + 3]);
        FourBytes(s[i], s[i + 1], s[i + 2], s[i + 3]);
      }
    }
    ContinueStops(ch, s, i + k);
  }

  lemma ContinueStops(ch: bv32, s: Text, i: nat)
    requires i <= |s| && (i == |s| || !Continuation(s[i]))
    ensures Continue(ch, s, i) == (ch, i)
  {
  }

  // ----- whole texts

  /** UTF8-char of section 4: a one-byte character or one of the longer forms. */
  predicate Character(b: Text) { (|b| == 1 && b[0] <= 0x7F) || WellFormed(b) }

  predicate Characters(cs: seq<Text>) { forall i :: 0 <= i < |cs| ==> Character(cs[i]) }

  function Number(b: Text): bv32
    requires Character(b)
  {
    if |b| == 1 then b[0] as bv32 else CodePoint(b)
  }

  function CharColumns(b: Text): nat
    requires Character(b)
  {
    if IsWideChar(Number(b)) then 2 else 1
  }

  function Flatten(cs: seq<Text>): Text { if cs == [] then [] else cs[0] + Flatten(cs[1..]) }

  function TotalColumns(cs: seq<Text>): nat
    requires Characters(cs)
  {
    if cs == [] then 0 else CharColumns(cs[0]) + TotalColumns(cs[1..])
  }

  lemma CharacterBytes(b: Text)
    requires Character(b)
    ensures Proper(b) && b != [] && !Continuation(b[0])
  {
    ContinuationIsTail(b[0]);
  }

  lemma {:induction false} FlattenStarts(cs: seq<Text>)
    requires Characters(cs)
    ensures Proper(Flatten(cs)) && (cs != [] ==> Flatten(cs) != [] && !Continuation(Flatten(cs)[0]))
    ensures cs == [] ==> Flatten(cs) == []
  {
    if cs != [] {
      FlattenStarts(cs[1..]);
      CharacterBytes(cs[0]);
    }
  }

  /** In front of another character, or of the end, the decoding step sees one whole character. */
  lemma CharAtIs(s: Text, i: nat, k: nat)
    requires Proper(s) && i + k <= |s| && Character(s[i..i + k]) && (i + k == |s| || !Continuation(s[i + k]))
    ensures i < |s| && CharAt(s, i) == (CharColumns(s[i..i + k]), i + k)
  {
    var b := s[i..i + k];
    assert b[0] == s[i];
    hide WellFormed, CodePoint, Masked, Continue, Continuation;
    if k == 1 && s[i] <= 0x7F {
      NarrowAscii(s[i]);
    } else {
      DecodesCodePoint(s, i, k);
      OneByteIsAscii(b);
      assert IsWideChar(CodePoint(b)) ==> CodePoint(b) >= 0x1100;
    }
  }

  lemma NarrowAscii(b: bv8)
    requires b <= 0x7F
    ensures !IsWideChar(b as bv32)
  {
  }

  lemma OneByteIsAscii(b: Text)
    requires WellFormed(b)
    ensures |b| != 1
  {
  }

  /** The first character of what is left. */
  lemma NextCharacter(s: Text, i: nat, cs: seq<Text>)
    requires Characters(cs) && cs != [] && i <= |s| && s[i..] == Flatten(cs) && Proper(s)
    ensures var n := i + |cs[0]|;
      i < |s| && n <= |s| && CharAt(s, i) == (CharColumns(cs[0]), n) && s[n..] == Flatten(cs[1..])
  {
    var c, rest := cs[0], Flatten(cs[1..]);
    var n := i + |c|;
    CharacterBytes(c);
    FlattenStarts(cs[1..]);
    assert s[i..] == c + rest;
    assert s[i..][..|c|] == c && s[i..][|c|..] == rest;
    assert s[i..n] == c && s[n..] == rest;
    if n < |s| { assert s[n] == rest[0]; }
    hide Character, CharAt, CharColumns;
    CharAtIs(s, i, |c|);
  }

  lemma {:induction false} WidthOfRest(s: Text, i: nat, cs: seq<Text>)
    requires Characters(cs) && i <= |s| && s[i..] == Flatten(cs) && Proper(s)
    ensures WidthFrom(s, i) == TotalColumns(cs)
    decreases |cs|
  {
    hide CharAt, CharColumns;
    if cs == [] {
      assert i == |s|;
    } else {
      NextCharacter(s, i, cs);
      WidthOfRest(s, i + |cs[0]|, cs[1..]);
    }
  }

  /** The screen width of a text is the sum over its characters: 2 columns for those whose number
      is that of a wide character, 1 for the others. */
  lemma TextWidth(cs: seq<Text>)
    requires Characters(cs)
    ensures Proper(Flatten(cs)) && Width(Flatten(cs)) == TotalColumns(cs)
  {
    FlattenStarts(cs);
    assert Flatten(cs)[0..] == Flatten(cs);
    WidthOfRest(Flatten(cs), 0, cs);
  }

  /** The loop both width computations contain: the code of the character that starts at
      `i` and the number of its bytes. */
  method Decode(s: Text, i: nat) returns (ch: bv32, charbytes: nat)
    requires Proper(s) && i < |s| && s[i] > 0xC1
    ensures (ch, i + charbytes) == Continue(Masked(s[i]), s, i + 1)
  {
    hide Masked;
    ch, charbytes := Masked(s[i]), 1;
    while i + charbytes < |s| && Continuation(s[i + charbytes])
      invariant 1 <= charbytes && i + charbytes <= |s|
      invariant Continue(Masked(s[i]), s, i + 1) == Continue(ch, s, i + charbytes)
      decreases |s| - i - charbytes
    {
      ch := (ch << 6) ^ (s[i + charbytes] as bv32) ^ 0x80;
      charbytes := charbytes + 1;
    }
  }

  /** The ranges of wide characters. */
  const WIDE: seq<(bv32, bv32)> :=
    [(0x1100, 0x115F), (0x2329, 0x232A), (0x2E80, 0xA4C6), (0xA960, 0xA97C), (0xAC00, 0xD7FB), (0xF900, 0xFAFF),
     (0xFE10, 0xFE6B), (0xFF01, 0xFF60), (0xFFE0, 0xFFE6), (0x1B000, 0xFFFF_FFFF)]

  /** Wide are the characters of these ranges, save one. */
  lemma WideIs(ch: bv32)
    ensures IsWideChar(ch) <==> ch != 0x303F && exists i :: 0 <= i < |WIDE| && WIDE[i].0 <= ch <= WIDE[i].1
  {
    if IsWideChar(ch) {
      var i := if ch <= 0x115F then 0 else if ch <= 0x232A then 1 else if ch <= 0xA4C6 then 2
        else if ch <= 0xA97C then 3 else if ch <= 0xD7FB then 4 else if ch <= 0xFAFF then 5 else if ch <= 0xFE6B then 6
        else if ch <= 0xFF60 then 7 else if ch <= 0xFFE6 then 8 else 9;
      assert WIDE[i].0 <= ch <= WIDE[i].1;
    }
  }
}
