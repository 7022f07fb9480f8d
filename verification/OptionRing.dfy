/** Parsed options as linked objects: a circular doubly linked list whose wrap-around
    pointers are tagged, and the array layout the parser stores options in. */
module OptionRing {
  import opened Nullables
  import opened OptionSyntax

  /** A tagged pointer is a reference and its tag bit.  `desc == Null` marks an unused
      option; otherwise it is a position in the option table. */
  class Option {
    var next_: Option
    var nextTagged: bool
    var prev_: Option
    var prevTagged: bool
    var desc: Nullable<nat>
    var name: Nullable<string>
    var arg: Nullable<string>
    var namelen: nat

    ghost function Now(): Fields
      reads this
    {
      Fields(next_, nextTagged, prev_, prevTagged, desc, name, arg, namelen)
    }

    ghost predicate Unused()
      reads this
    {
      desc == Null && Ring([this])
    }

    constructor ()
      ensures Unused()
    {
      next_, nextTagged := this, true;
      prev_, prevTagged := this, true;
      desc, name, arg, namelen := Null, Null, Null, 0;
    }

    /** `operator=`: takes the contents and becomes a one-element list. */
    method Init(desc_: nat, name_: string, arg_: Nullable<string>)
      modifies this
      ensures Now().Holds(Parsed(desc_, name_, arg_)) && Ring([this])
    {
      desc, name, arg := Value(desc_), Value(name_), arg_;
      prev_, prevTagged := this, true;
      next_, nextTagged := this, true;
      namelen := 1;
      if |name_| > 0 && name_[0] == '-' {
        while namelen < |name_| && name_[namelen] != '='
          invariant 1 <= namelen <= |name_|
          invariant NameLength(name_) == namelen + Equals(name_[namelen..])
          invariant desc == Value(desc_) && name == Value(name_) && arg == arg_
          invariant prev_ == next_ == this && prevTagged && nextTagged
        {
          assert name_[namelen..][1..] == name_[namelen + 1..];
          namelen := namelen + 1;
        }
      }
    }

    method First(ghost ring: seq<Option>, ghost k: nat) returns (p: Option)
      requires Ring(ring) && k < |ring| && ring[k] == this
      ensures p == ring[0]
    {
      p := this;
      ghost var i := k;
      while !p.prevTagged
        invariant 0 <= i < |ring| && p == ring[i]
        decreases i
      {
        p := p.prev_;
        i := i - 1;
      }
    }

    method Last(ghost ring: seq<Option>, ghost k: nat) returns (p: Option)
      requires Ring(ring) && k < |ring| && ring[k] == this
      ensures p == ring[|ring| - 1]
    {
      p := First(ring, k);
      p := p.prev_;
    }

    method Prev(ghost ring: seq<Option>, ghost k: nat) returns (p: Option?)
      requires Ring(ring) && k < |ring| && ring[k] == this
      ensures p == if k == 0 then null else ring[k - 1]
    {
      p := if prevTagged then null else prev_;
    }

    method Next(ghost ring: seq<Option>, ghost k: nat) returns (p: Option?)
      requires Ring(ring) && k < |ring| && ring[k] == this
      ensures p == if k == |ring| - 1 then null else ring[k + 1]
    {
      p := if nextTagged then null else next_;
    }

    /** Number of list elements, from any of them; 0 for an unused option. */
    method Count(ghost ring: seq<Option>, ghost k: nat) returns (c: nat)
      requires Ring(ring) && k < |ring| && ring[k] == this
      requires desc == Null ==> |ring| == 1
      ensures c == if desc == Null then 0 else |ring|
    {
      c := if desc == Null then 0 else 1;
      var p := First(ring, k);
      ghost var i := 0;
      while !p.nextTagged
        invariant 0 <= i < |ring| && p == ring[i]
        invariant c == (if desc == Null then 0 else 1) + i
        decreases |ring| - i
      {
        c := c + 1;
        p := p.next_;
        i := i + 1;
      }
    }

    /** Chains `b` in after the last element, whichever element this is. */
    method Append(b: Option, ghost ring: seq<Option>, ghost k: nat)
      requires Ring(ring) && k < |ring| && ring[k] == this && b !in ring
      modifies ring[0], ring[|ring| - 1], b
      ensures Ring(ring + [b])
      ensures forall o :: o in ring || o == b ==>
        o.desc == old(o.desc) && o.name == old(o.name) && o.arg == old(o.arg) && o.namelen == old(o.namelen)
    {
      var p := Last(ring, k);
      var f := First(ring, k);
      p.next_, p.nextTagged := b, false;
      b.prev_, b.prevTagged := p, false;
      b.next_, b.nextTagged := f, true;
      f.prev_, f.prevTagged := b, true;
    }
  }

  ghost predicate Distinct(s: seq<Option>) {
    forall i, j :: 0 <= i < j < |s| ==> s[i] != s[j]
  }

  /** All fields of an Option as a value. */
  datatype Fields = Fields(next: Option, nextTagged: bool, prev: Option, prevTagged: bool,
                           desc: Nullable<nat>, name: Nullable<string>, arg: Nullable<string>, namelen: nat)
  {
    ghost predicate Holds(p: Parsed) {
      desc == Value(p.desc) && name == Value(p.name) && arg == p.arg && namelen == NameLength(p.name)
    }
  }

  ghost function Snap(s: seq<Option>): (f: seq<Fields>)
    reads s
    ensures |f| == |s|
  {
    seq(|s|, i requires 0 <= i < |s| reads s => s[i].Now())
  }

  /** `s` is a whole list, from first to last; only the wrap-around links are tagged. */
  ghost predicate Ring(s: seq<Option>)
    reads s
  {
    && |s| > 0 && Distinct(s)
    && (forall i :: 0 <= i < |s| - 1 ==> s[i].next_ == s[i + 1] && !s[i].nextTagged)
    && s[|s| - 1].next_ == s[0] && s[|s| - 1].nextTagged
    && (forall i :: 1 <= i < |s| ==> s[i].prev_ == s[i - 1] && !s[i].prevTagged)
    && s[0].prev_ == s[|s| - 1] && s[0].prevTagged
  }

  /** The same, said of the objects and the values of their fields. */
  ghost predicate RingOn(s: seq<Option>, f: seq<Fields>) {
    && |s| == |f| > 0 && Distinct(s)
    && (forall i :: 0 <= i < |s| - 1 ==> f[i].next == s[i + 1] && !f[i].nextTagged)
    && f[|s| - 1].next == s[0] && f[|s| - 1].nextTagged
    && (forall i :: 1 <= i < |s| ==> f[i].prev == s[i - 1] && !f[i].prevTagged)
    && f[0].prev == s[|s| - 1] && f[0].prevTagged
  }

  lemma RingIsRingOn(s: seq<Option>)
    ensures Ring(s) <==> RingOn(s, Snap(s))
  {
    if Ring(s) {
      RingGivesRingOn(s);
    }
    if RingOn(s, Snap(s)) {
      RingOnGivesRing(s);
    }
  }

  lemma RingGivesRingOn(s: seq<Option>)
    requires Ring(s)
    ensures RingOn(s, Snap(s))
  {
  }

  lemma RingOnGivesRing(s: seq<Option>)
    requires RingOn(s, Snap(s))
    ensures Ring(s)
  {
    var f := Snap(s);
    forall i | 0 <= i < |s|
      ensures f[i].next == s[i].next_ && f[i].nextTagged == s[i].nextTagged
      ensures f[i].prev == s[i].prev_ && f[i].prevTagged == s[i].prevTagged
    {
      assert f[i] == s[i].Now();
    }
    hide Snap, Option.Now;
  }
}
