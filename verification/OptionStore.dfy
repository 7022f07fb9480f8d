/** What the parser does with each parsed option: `Stats` counts them, `Parser` stores
    them in caller-provided arrays and links those of the same index. */
module OptionStore {
  import opened Nullables
  import opened OptionTable
  import opened OptionSyntax
  import opened OptionRing

  const INT_MAX := 0x7fff_ffff

  class CountOptionsAction {
    var bufferMax: nat
    ghost const start: nat
    ghost var log: seq<Parsed>

    ghost predicate Valid()
      reads this
    {
      bufferMax == start + |log| && bufferMax <= INT_MAX
    }

    constructor (bufferMax_: nat)
      requires bufferMax_ <= INT_MAX
      ensures Valid() && log == [] && start == bufferMax_ && bufferMax == bufferMax_
    {
      bufferMax := bufferMax_;
      start, log := bufferMax_, [];
    }

    method Perform(opt: Parsed) returns (ok: bool)
      requires Valid()
      modifies this
      ensures Valid()
      ensures ok == (old(bufferMax) < INT_MAX)
      ensures log == if ok then old(log) + [opt] else old(log)
    {
      if bufferMax == INT_MAX {
        return false;
      }
      bufferMax := bufferMax + 1;
      log := log + [opt];
      return true;
    }
  }

  /** Positions in `stored` of the options with index `idx`, in command-line order. */
  ghost function Positions(usage: seq<Descriptor>, stored: seq<Parsed>, idx: nat): (p: seq<nat>)
    ensures forall i :: 0 <= i < |p| ==>
      p[i] < |stored| && stored[p[i]].desc < |usage| && usage[stored[p[i]].desc].index == idx
    ensures forall i, j :: 0 <= i < j < |p| ==> p[i] < p[j]
  {
    if stored == [] then []
    else
      var n := |stored| - 1;
      var rest := Positions(usage, stored[..n], idx);
      if stored[n].desc < |usage| && usage[stored[n].desc].index == idx then rest + [n] else rest
  }

  /** The two arrays of Option objects a caller hands to the parser. */
  datatype Slots = Slots(usage: seq<Descriptor>, options: seq<Option>, buffer: seq<Option>) {

    ghost predicate Separate() {
      && Distinct(options) && Distinct(buffer)
      && (forall i, k :: 0 <= i < |options| && 0 <= k < |buffer| ==> options[i] != buffer[k])
    }

    /** The list of index `idx`: the slot in `options` (a copy of the first option), then the
        buffer slots of the later options. */
    ghost function RingOf(stored: seq<Parsed>, idx: nat): (r: seq<Option>)
      requires idx < |options| && |stored| <= |buffer|
      ensures |r| >= 1 && r[0] == options[idx]
    {
      var p := Positions(usage, stored, idx);
      if |p| <= 1 then [options[idx]]
      else [options[idx]] + seq(|p| - 1, i requires 0 <= i < |p| - 1 => buffer[p[i + 1]])
    }

    ghost function HeadOf(stored: seq<Parsed>, idx: nat): Nullable<Parsed> {
      var p := Positions(usage, stored, idx);
      if p == [] then Null else Value(stored[p[0]])
    }

    ghost predicate Chained(stored: seq<Parsed>, idx: nat)
      requires idx < |options| && |stored| <= |buffer|
      reads options, buffer
    {
      RingInside(stored, idx) && List(RingOf(stored, idx), HeadOf(stored, idx))
    }

    ghost predicate Filled(stored: seq<Parsed>)
      requires |stored| <= |buffer|
      reads buffer
    {
      && (forall k :: 0 <= k < |stored| ==> buffer[k].Now().Holds(stored[k]))
      && (forall k :: |stored| <= k < |buffer| ==> buffer[k].desc == Null)
    }

    ghost predicate Indexed(stored: seq<Parsed>) {
      forall k :: 0 <= k < |stored| ==> stored[k].desc < |usage| && usage[stored[k].desc].index < |options|
    }

    /** The arrays contain exactly `stored`. */
    ghost predicate Contains(stored: seq<Parsed>)
      reads options, buffer
    {
      && Separate() && |stored| <= |buffer| && Filled(stored) && Indexed(stored)
      && (forall idx :: 0 <= idx < |options| ==> Chained(stored, idx))
    }

    ghost predicate RingInside(stored: seq<Parsed>, idx: nat)
      requires idx < |options| && |stored| <= |buffer|
    {
      forall o :: o in RingOf(stored, idx) ==> o in options || o in buffer
    }
  }

  ghost predicate List(ring: seq<Option>, head: Nullable<Parsed>)
    requires |ring| > 0
    reads ring
  {
    ListOn(ring, Snap(ring), head)
  }

  ghost predicate ListOn(ring: seq<Option>, f: seq<Fields>, head: Nullable<Parsed>) {
    RingOn(ring, f) && if head == Null then f[0].desc == Null else f[0].Holds(head.value)
  }

  class Parser {
    var opCount: nat
    var nonopCount: nat
    var nonopArgs: nat   // offset of the first non-option in the argument vector
    var err: bool

    constructor ()
      ensures opCount == 0 && nonopCount == 0 && !err
    {
      opCount, nonopCount, nonopArgs, err := 0, 0, 0, false;
    }
  }

  lemma PositionsSnoc(usage: seq<Descriptor>, stored: seq<Parsed>, opt: Parsed, idx: nat)
    requires opt.desc < |usage|
    ensures Positions(usage, stored + [opt], idx) ==
      Positions(usage, stored, idx) + if usage[opt.desc].index == idx then [|stored|] else []
  {
    assert (stored + [opt])[..|stored|] == stored;
  }

  /** Which objects a list consists of. */
  lemma RingMembers(slots: Slots, stored: seq<Parsed>, idx: nat, o: Option)
    requires idx < |slots.options| && |stored| <= |slots.buffer| && o in slots.RingOf(stored, idx)
    ensures o == slots.options[idx] ||
      exists k :: 0 <= k < |stored| && o == slots.buffer[k] && stored[k].desc < |slots.usage| &&
                  slots.usage[stored[k].desc].index == idx
  {
    var p := Positions(slots.usage, stored, idx);
    var r := slots.RingOf(stored, idx);
    var i :| 0 <= i < |r| && r[i] == o;
    if i > 0 {
      assert o == slots.buffer[p[i]];
    }
  }

  lemma RingAvoids(slots: Slots, stored: seq<Parsed>, idx: nat, b: Option)
    requires idx < |slots.options| && |stored| < |slots.buffer| && b == slots.buffer[|stored|] && slots.Separate()
    ensures b !in slots.RingOf(stored, idx)
  {
    if b in slots.RingOf(stored, idx) {
      RingMembers(slots, stored, idx, b);
      assert false;
    }
  }

  lemma RingStaysInside(slots: Slots, stored: seq<Parsed>, idx: nat)
    requires idx < |slots.options| && |stored| <= |slots.buffer|
    ensures slots.RingInside(stored, idx)
  {
    forall o | o in slots.RingOf(stored, idx)
      ensures o in slots.options || o in slots.buffer
    {
      RingMembers(slots, stored, idx, o);
    }
  }

  /** Lists of different indices share no object. */
  lemma RingsDisjoint(slots: Slots, stored: seq<Parsed>, i: nat, j: nat)
    requires i < |slots.options| && j < |slots.options| && i != j && |stored| <= |slots.buffer| && slots.Separate()
    ensures forall o :: o in slots.RingOf(stored, i) ==> o !in slots.RingOf(stored, j)
  {
    forall o | o in slots.RingOf(stored, i) && o in slots.RingOf(stored, j)
      ensures false
    {
      RingMembers(slots, stored, i, o);
      RingMembers(slots, stored, j, o);
    }
  }

  lemma RingGrows(slots: Slots, stored: seq<Parsed>, opt: Parsed, j: nat)
    requires j < |slots.options| && |stored| < |slots.buffer| && opt.desc < |slots.usage|
    ensures slots.RingOf(stored + [opt], j) ==
      if slots.usage[opt.desc].index == j && Positions(slots.usage, stored, j) != [] then
        slots.RingOf(stored, j) + [slots.buffer[|stored|]]
      else slots.RingOf(stored, j)
  {
    hide Positions;
    PositionsSnoc(slots.usage, stored, opt, j);
    var p := Positions(slots.usage, stored, j);
    if slots.usage[opt.desc].index == j && p != [] {
      var ring, longer := slots.RingOf(stored, j), slots.RingOf(stored + [opt], j);
      assert |longer| == |ring| + 1 && longer[|ring|] == slots.buffer[|stored|];
      assert forall i :: 0 <= i < |ring| ==> longer[i] == ring[i];
    } else {
      assert p + [] == p;
    }
  }

  class StoreOptionAction {
    const parser: Parser
    const slots: Slots
    const bufmax: int
    ghost const start: seq<Parsed>
    ghost var stored: seq<Parsed>
    ghost var log: seq<Parsed>

    ghost predicate Valid()
      reads this, parser, slots.options, slots.buffer
    {
      && slots.Contains(stored)
      && parser.opCount == Seen(|stored|, bufmax) && parser.opCount <= INT_MAX
      && bufmax <= |slots.buffer| && bufmax <= INT_MAX
      && stored == Kept(start, log, bufmax)
    }

    /** Looks for the first unused slot among the first `bufmax`; without a bound there is one
        (the sentinel). */
    constructor (parser_: Parser, slots_: Slots, bufmax_: int, ghost before: seq<Parsed>)
      requires slots_.Contains(before) && bufmax_ <= |slots_.buffer| && bufmax_ <= INT_MAX
      requires bufmax_ < 0 ==> |before| < |slots_.buffer| && |before| <= INT_MAX
      modifies parser_
      ensures Valid() && log == [] && start == before
      ensures parser == parser_ && slots == slots_ && bufmax == bufmax_
      ensures parser.nonopCount == old(parser_.nonopCount) && parser.nonopArgs == old(parser_.nonopArgs)
    {
      parser, slots, bufmax := parser_, slots_, bufmax_;
      start, stored, log := before, before, [];
      new;
      var bufidx := 0;
      while (bufmax < 0 || bufidx < bufmax) && slots.buffer[bufidx].desc != Null
        invariant bufidx <= |before| && (bufmax >= 0 ==> bufidx <= bufmax)
        decreases |before| - bufidx
      {
        bufidx := bufidx + 1;
      }
      parser.opCount := bufidx;
      KeptNone(before, bufmax);
    }

    method Perform(opt: Parsed) returns (ok: bool)
      requires Valid()
      requires opt.desc < |slots.usage| && slots.usage[opt.desc].index < |slots.options|
      requires bufmax < 0 && parser.opCount < INT_MAX ==> parser.opCount < |slots.buffer|
      modifies this, parser`opCount, slots.options, slots.buffer
      ensures Valid()
      ensures ok == (bufmax >= 0 || old(parser.opCount) < INT_MAX)
      ensures log == if ok then old(log) + [opt] else old(log)
      ensures bufmax < 0 && ok ==> parser.opCount == old(parser.opCount) + 1
    {
      hide Slots.Contains;
      if bufmax < 0 || parser.opCount < bufmax {
        if parser.opCount == INT_MAX {
          return false;
        }
        Store(opt);
      }
      KeptOne(start, log, opt, bufmax);
      log := log + [opt];
      return true;
    }

    method Store(opt: Parsed)
      requires slots.Contains(stored) && parser.opCount == |stored| < |slots.buffer|
      requires opt.desc < |slots.usage| && slots.usage[opt.desc].index < |slots.options|
      modifies this`stored, parser`opCount, slots.options, slots.buffer
      ensures slots.Contains(stored) && stored == old(stored) + [opt] && parser.opCount == |stored|
    {
      hide Slots.RingOf, Slots.HeadOf, Slots.Chained, Slots.RingInside, Positions, ListOn, Ring;
      StoreInto(slots, parser.opCount, opt, stored);
      stored := stored + [opt];
      parser.opCount := parser.opCount + 1;
    }
  }

  /** Writes `opt` into slot `n` of the buffer and into the list of its index. */
  method StoreInto(slots: Slots, n: nat, opt: Parsed, ghost stored: seq<Parsed>)
    requires slots.Contains(stored) && n == |stored| < |slots.buffer|
    requires opt.desc < |slots.usage| && slots.usage[opt.desc].index < |slots.options|
    modifies slots.options, slots.buffer
    ensures slots.Filled(stored + [opt])
    ensures forall j :: 0 <= j < |slots.options| ==> slots.Chained(stored + [opt], j)
  {
    hide Slots.RingOf, Slots.HeadOf, Positions, ListOn, Ring;
    var idx := slots.usage[opt.desc].index;
    ghost var b, ring := slots.buffer[n], slots.RingOf(stored, idx);
    assert slots.Chained(stored, idx);
    RingAvoids(slots, stored, idx, b);
    ListGrows(slots, stored, opt, idx);
    assert forall i :: 0 <= i < |ring| ==> ring[i] in slots.options || ring[i] in slots.buffer;
    Link(opt, slots.buffer[n], slots.options[idx], ring, slots.HeadOf(stored, idx));
    forall j | 0 <= j < |slots.options|
      ensures slots.Chained(stored + [opt], j)
    {
      RingStaysInside(slots, stored + [opt], j);
      ListGrows(slots, stored, opt, j);
      if j != idx {
        ghost var other := slots.RingOf(stored, j);
        assert old(slots.Chained(stored, j));
        RingsDisjoint(slots, stored, idx, j);
        RingAvoids(slots, stored, j, b);
        assert forall i :: 0 <= i < |other| ==> other[i] != b && other[i] !in ring;
        assert Snap(other) == old(Snap(other));
      }
    }
    forall k | 0 <= k < |slots.buffer| && k != n
      ensures slots.buffer[k].Now().desc == old(slots.buffer[k].Now()).desc
      ensures forall p :: old(slots.buffer[k].Now()).Holds(p) ==> slots.buffer[k].Now().Holds(p)
    {
      if slots.buffer[k] !in ring {
        assert slots.buffer[k].Now() == old(slots.buffer[k].Now());
      }
    }
  }

  /** How `RingOf` and `HeadOf` change when `opt` is stored in the next free slot. */
  lemma ListGrows(slots: Slots, stored: seq<Parsed>, opt: Parsed, j: nat)
    requires j < |slots.options| && |stored| < |slots.buffer| && opt.desc < |slots.usage|
    ensures var r, h := slots.RingOf(stored, j), slots.HeadOf(stored, j);
      var r', h' := slots.RingOf(stored + [opt], j), slots.HeadOf(stored + [opt], j);
      && (h == Null ==> |r| == 1)
      && (if slots.usage[opt.desc].index != j then r' == r && h' == h
          else if h == Null then r' == r && h' == Value(opt)
          else r' == r + [slots.buffer[|stored|]] && h' == h)
  {
    RingGrows(slots, stored, opt, j);
    PositionsSnoc(slots.usage, stored, opt, j);
  }

  /** Writes `opt` into the free slot `b` and appends it to the list headed by `o`, or
      copies it into `o` when that list is still unused. */
  method Link(opt: Parsed, b: Option, o: Option, ghost ring: seq<Option>, ghost head: Nullable<Parsed>)
    requires |ring| > 0 && ring[0] == o && List(ring, head) && b !in ring && (head == Null ==> |ring| == 1)
    modifies b, ring
    ensures b.Now().Holds(opt)
    ensures head == Null ==> List(ring, Value(opt))
    ensures head != Null ==> List(ring + [b], head) && KeepsContents(ring)
  {
    RingIsRingOn(ring);
    assert Snap(ring)[0] == o.Now();
    hide Ring, RingOn;
    b.Init(opt.desc, opt.name, opt.arg);
    assert Ring(ring);
    if o.desc != Null {
      o.Append(b, ring, 0);
      RingIsRingOn(ring + [b]);
      assert Snap(ring + [b])[0] == o.Now();
    } else {
      o.Init(opt.desc, opt.name, opt.arg);
      assert ring == [o];
      RingIsRingOn(ring);
      assert Snap(ring)[0] == o.Now();
    }
  }

  twostate predicate KeepsContents(s: seq<Option>)
    reads s
  {
    forall o :: o in s ==>
      o.desc == old(o.desc) && o.name == old(o.name) && o.arg == old(o.arg) && o.namelen == old(o.namelen)
  }

  /** What the buffer contains after `added` came to `before`: a full buffer, or one that was more
      than full already, drops options silently. */
  ghost function Kept(before: seq<Parsed>, added: seq<Parsed>, bufmax: int): seq<Parsed> {
    if bufmax < 0 || |before| + |added| <= bufmax then before + added
    else if bufmax <= |before| then before
    else before + added[..bufmax - |before|]
  }

  /** What is kept is a beginning of everything there was and came, at least what there was, and not
      more than the bound unless that was exceeded before. */
  lemma KeptIs(before: seq<Parsed>, added: seq<Parsed>, bufmax: int)
    ensures var k, all := Kept(before, added, bufmax), before + added;
      && k <= all && |before| <= |k|
      && (bufmax < 0 ==> k == all)
      && (bufmax >= 0 && k != all ==> |k| == bufmax || (|k| == |before| && bufmax < |before|))
      && (bufmax >= 0 ==> |k| <= bufmax || k == before)
  {
  }

  /** The number of options the parser reports: it does not look behind `bufmax`. */
  function Seen(n: nat, bufmax: int): nat {
    if 0 <= bufmax < n then bufmax else n
  }

  lemma KeptNone(before: seq<Parsed>, bufmax: int)
    ensures Kept(before, [], bufmax) == before
  {
    assert before + [] == before;
  }

  lemma KeptOne(before: seq<Parsed>, added: seq<Parsed>, opt: Parsed, bufmax: int)
    ensures var f := Kept(before, added, bufmax);
      Kept(before, added + [opt], bufmax) == if bufmax < 0 || |f| < bufmax then f + [opt] else f
  {
    if bufmax < 0 || |before| + |added| < bufmax {
      assert before + (added + [opt]) == (before + added) + [opt];
    } else if |before| < bufmax {
      assert (added + [opt])[..bufmax - |before|] == added[..bufmax - |before|];
      assert added[..bufmax - |before|] == added || |before| + |added| > bufmax;
    }
  }

  // ----- reading a list back

  /** The options of index `idx` among `stored`, in order. */
  function OfIndex(usage: seq<Descriptor>, stored: seq<Parsed>, idx: nat): seq<Parsed> {
    if stored == [] then []
    else
      var n := |stored| - 1;
      OfIndex(usage, stored[..n], idx) +
        if stored[n].desc < |usage| && usage[stored[n].desc].index == idx then [stored[n]] else []
  }

  lemma {:induction false} PositionsOfIndex(usage: seq<Descriptor>, stored: seq<Parsed>, idx: nat)
    ensures var p := Positions(usage, stored, idx);
      |OfIndex(usage, stored, idx)| == |p| &&
      forall i :: 0 <= i < |p| ==> OfIndex(usage, stored, idx)[i] == stored[p[i]]
  {
    if stored != [] {
      PositionsOfIndex(usage, stored[..|stored| - 1], idx);
    }
  }

  /** Element `i` of a list holds the i-th option of its index, and wraps nothing else. */
  lemma ListElement(slots: Slots, stored: seq<Parsed>, idx: nat, i: nat)
    requires slots.Contains(stored) && idx < |slots.options| && i < |OfIndex(slots.usage, stored, idx)|
    ensures |slots.RingOf(stored, idx)| == |OfIndex(slots.usage, stored, idx)|
    ensures slots.RingOf(stored, idx)[i].Now().Holds(OfIndex(slots.usage, stored, idx)[i])
  {
    PositionsOfIndex(slots.usage, stored, idx);
    var p := Positions(slots.usage, stored, idx);
    var ring := slots.RingOf(stored, idx);
    assert slots.Chained(stored, idx);
    if i == 0 {
      assert Snap(ring)[0] == ring[0].Now();
    } else {
      assert ring[i] == slots.buffer[p[i]];
    }
  }

  ghost predicate Reads(o: Option, p: Parsed)
    reads o
  {
    o.desc == Value(p.desc) && o.name == Value(p.name) && o.arg == p.arg
  }

  lemma ListFacts(slots: Slots, stored: seq<Parsed>, idx: nat)
    requires slots.Contains(stored) && idx < |slots.options|
    ensures var ring, want := slots.RingOf(stored, idx), OfIndex(slots.usage, stored, idx);
      && Ring(ring)
      && (want == [] ==> ring[0].desc == Null && |ring| == 1)
      && (want != [] ==> |ring| == |want| && ring[0].desc != Null)
      && forall i :: 0 <= i < |want| ==> Reads(ring[i], want[i])
  {
    var ring, want := slots.RingOf(stored, idx), OfIndex(slots.usage, stored, idx);
    PositionsOfIndex(slots.usage, stored, idx);
    assert slots.Chained(stored, idx);
    RingIsRingOn(ring);
    assert Snap(ring)[0] == ring[0].Now();
    forall i | 0 <= i < |want| ensures |ring| == |want| && ring[i].Now().Holds(want[i]) {
      ListElement(slots, stored, idx, i);
    }
  }

  /** The loop `for (o = head; o; o = o->next())`. */
  method Walk(head: Option, ghost ring: seq<Option>, ghost want: seq<Parsed>) returns (found: seq<Parsed>)
    requires Ring(ring) && ring[0] == head && (head.desc == Null <==> want == []) && (want != [] ==> |ring| == |want|)
    requires forall i :: 0 <= i < |want| ==> Reads(ring[i], want[i])
    ensures found == want
  {
    found := [];
    if head.desc != Null {
      var o: Option? := head;
      ghost var k := 0;
      while o != null
        invariant 0 <= k <= |want| && found == want[..k]
        invariant o == if k < |ring| then ring[k] else null
        decreases |ring| - k
      {
        assert Reads(ring[k], want[k]);
        found := found + [Parsed(o.desc.value, o.name.value, o.arg)];
        o := o.Next(ring, k);
        k := k + 1;
      }
    }
  }

  /** Walking a list from its slot in `options` with next() yields exactly the stored
      options of that index in command-line order, and count() is their number. */
  method Collect(slots: Slots, idx: nat, ghost stored: seq<Parsed>) returns (found: seq<Parsed>, n: nat)
    requires slots.Contains(stored) && idx < |slots.options|
    ensures found == OfIndex(slots.usage, stored, idx) && n == |found|
  {
    ghost var ring := slots.RingOf(stored, idx);
    ListFacts(slots, stored, idx);
    found := Walk(slots.options[idx], ring, OfIndex(slots.usage, stored, idx));
    n := slots.options[idx].Count(ring, 0);
  }

  lemma {:induction false} OfIndexEmpty(usage: seq<Descriptor>, stored: seq<Parsed>, idx: nat)
    ensures OfIndex(usage, stored, idx) == [] <==>
      forall k :: 0 <= k < |stored| ==> !(stored[k].desc < |usage| && usage[stored[k].desc].index == idx)
  {
    if stored != [] {
      var n := |stored| - 1;
      OfIndexEmpty(usage, stored[..n], idx);
      assert forall k :: 0 <= k < n ==> stored[..n][k] == stored[k];
    }
  }

  /** `if (options[idx])` tests whether an option of that index was given. */
  lemma SlotUsed(slots: Slots, stored: seq<Parsed>, idx: nat)
    requires slots.Contains(stored) && idx < |slots.options|
    ensures slots.options[idx].desc != Null <==>
      exists k :: 0 <= k < |stored| && stored[k].desc < |slots.usage| && slots.usage[stored[k].desc].index == idx
  {
    ListFacts(slots, stored, idx);
    OfIndexEmpty(slots.usage, stored, idx);
  }
}
