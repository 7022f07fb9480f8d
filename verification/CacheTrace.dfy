/** What a run of the cache amounts to: a sequence of writer registrations and removals. */
module CacheTrace {
  import opened Nullables
  import opened CacheState
  import opened CacheProtocol
  import opened Endpoints

  /** The moments at which a run takes effect: a sample is registered, discovery reports a
      writer as gone from a topic, the cache removes it. */
  datatype Effect =
    | Put(topic: string, h: Handle, w: Guid)
    | Left(topic: string, w: Guid)
    | Gone(topic: string, w: Guid)

  /** Fast-path adds take effect under the first lock, slow-path adds at the relock. */
  function EffectOf(s: System, e: Event): seq<Effect> {
    if !Enabled(s, e) then []
    else
      match e
      case BeginAdd(_, topic, ty, x, _) =>
        if Begun(s.cache, topic, ty, x).1 == Answered(true) then [Put(topic, x.handle, x.writer)] else []
      case EndAdd(t) =>
        var a := s.threads[t];
        if a.key == "" then [] else [Put(a.topic, a.s.handle, a.s.writer)]
      case Discover(x) => if Departs(x) then [Left(x.info.topicName, x.info.guid)] else []
      case RemoveWriter(r) => [Gone(r.topic, r.writer)]
      case WriteBack(_, _) => []
      case Clear => []
  }

  function Effects(n: nat, run: seq<Event>): seq<Effect> {
    if run == [] then []
    else
      var k := |run| - 1;
      Effects(n, run[..k]) + EffectOf(After(n, run[..k]), run[k])
  }

  /** `w` published (topic, h), and has not been removed from the topic since. */
  ghost predicate Publishes(f: seq<Effect>, topic: string, h: Handle, w: Guid) {
    exists i :: 0 <= i < |f| && f[i] == Put(topic, h, w) && forall j :: i < j < |f| ==> f[j] != Gone(topic, w)
  }

  lemma PublishesSnoc(f: seq<Effect>, e: Effect, topic: string, h: Handle, w: Guid)
    ensures Publishes(f + [e], topic, h, w) <==>
      (e == Put(topic, h, w) || (Publishes(f, topic, h, w) && e != Gone(topic, w)))
  {
    var g := f + [e];
    assert forall i :: 0 <= i < |f| ==> g[i] == f[i];
    if Publishes(g, topic, h, w) {
      var i :| 0 <= i < |g| && g[i] == Put(topic, h, w) && forall j :: i < j < |g| ==> g[j] != Gone(topic, w);
      if i < |f| { assert g[|f|] == e; }
    }
    if e == Put(topic, h, w) { assert g[|f|] == e; }
    if Publishes(f, topic, h, w) && e != Gone(topic, w) {
      var i :| 0 <= i < |f| && f[i] == Put(topic, h, w) && forall j :: i < j < |f| ==> f[j] != Gone(topic, w);
      assert g[i] == Put(topic, h, w);
    }
  }

  /** How one effect changes who publishes what. */
  ghost predicate Reflects(c: Cache, d: Cache, f: seq<Effect>) {
    if f == [] then forall topic, h :: d.WritersOf(topic, h) == c.WritersOf(topic, h)
    else
      |f| == 1 &&
      match f[0]
      case Left(_, _) => forall topic, h :: d.WritersOf(topic, h) == c.WritersOf(topic, h)
      case Put(t, i, w) =>
        forall topic, h ::
          d.WritersOf(topic, h) == c.WritersOf(topic, h) + if topic == t && h == i then {w} else {}
      case Gone(t, w) =>
        forall topic, h :: d.WritersOf(topic, h) == c.WritersOf(topic, h) - if topic == t then {w} else {}
  }

  lemma CommitReflects(c: Cache, topic: string, h: Handle, w: Guid, key: string)
    ensures Reflects(c, Committed(c, topic, h, w, key), [Put(topic, h, w)])
  {
  }

  lemma RemovalReflects(c: Cache, topic: string, w: Guid)
    ensures Reflects(c, WriterGone(c, topic, w), [Gone(topic, w)])
  {
  }

  lemma BeginReflects(c: Cache, topic: string, ty: Nullable<DynType>, x: Sample)
    ensures var (d, v) := Begun(c, topic, ty, x);
      Reflects(c, d, if v == Answered(true) then [Put(topic, x.handle, x.writer)] else [])
  {
    var (d, v) := Begun(c, topic, ty, x);
    if ty != Null {
      var e := Extracted(c, topic, ty.value);
      assert Reflects(c, e, []);
      if e.KeysOf(topic) != [] {
        var f := if topic in e.instances then e else e.(instances := e.instances[topic := map[]]);
        assert Reflects(c, f, []);
        if v == Answered(true) {
          CommitReflects(f, topic, x.handle, x.writer, f.On(topic)[x.handle].key);
        }
      }
    }
  }

  lemma StepReflects(s: System, e: Event)
    requires !e.Clear?
    ensures Reflects(s.cache, Next(s, e).cache, EffectOf(s, e))
  {
    if Enabled(s, e) {
      match e {
        case BeginAdd(_, topic, ty, x, _) => BeginReflects(s.cache, topic, ty, x);
        case EndAdd(t) =>
          var a := s.threads[t];
          CommitReflects(s.cache, a.topic, a.s.handle, a.s.writer, a.key);
        case RemoveWriter(r) => RemovalReflects(s.cache, r.topic, r.writer);
        case _ =>
      }
    }
  }

  /** Every interleaving refines the trace: after a run without clear(), the writers of an
      instance are exactly those that published it and were not removed from the topic
      since, and the instance is stored exactly if there is one. */
  lemma {:induction false} WritersArePublishers(n: nat, run: seq<Event>, topic: string, h: Handle, w: Guid)
    requires Clear !in run
    ensures w in After(n, run).cache.WritersOf(topic, h) <==> Publishes(Effects(n, run), topic, h, w)
  {
    if run != [] {
      var k := |run| - 1;
      var s := After(n, run[..k]);
      assert run == run[..k] + [run[k]];
      WritersArePublishers(n, run[..k], topic, h, w);
      StepReflects(s, run[k]);
      var f := EffectOf(s, run[k]);
      if f != [] {
        assert f == [f[0]];
        PublishesSnoc(Effects(n, run[..k]), f[0], topic, h, w);
      } else {
        assert Effects(n, run) == Effects(n, run[..k]);
      }
    }
  }

  lemma StoredExactlyIfPublished(n: nat, run: seq<Event>, topic: string, h: Handle)
    requires Clear !in run
    ensures h in After(n, run).cache.On(topic) <==> exists w :: Publishes(Effects(n, run), topic, h, w)
  {
    Reachable(n, run);
    hide After, Effects, Publishes;
    var c := After(n, run).cache;
    if h in c.On(topic) {
      assert Sound(c);
      var w :| w in c.On(topic)[h].writers;
      WritersArePublishers(n, run, topic, h, w);
    }
    forall w | Publishes(Effects(n, run), topic, h, w)
      ensures h in c.On(topic)
    {
      WritersArePublishers(n, run, topic, h, w);
    }
  }

  // ----- discovery and cache

  /** What discovery said last about `w`. */
  function LastReport(run: seq<Event>, w: Guid): Nullable<EndpointInfoData> {
    if run == [] then Null
    else
      var e := run[|run| - 1];
      if e.Discover? && e.e.info.guid == w then Value(e.e) else LastReport(run[..|run| - 1], w)
  }

  predicate Departed(run: seq<Event>, topic: string, w: Guid) {
    var r := LastReport(run, w);
    r.Value? && Departs(r.value) && r.value.info.topicName == topic
  }

  /** `w` was reported as gone from the topic and afterwards removed from it; `a` is the last
      such report. */
  ghost predicate RemovedSince(f: seq<Effect>, topic: string, w: Guid, a: nat) {
    && a < |f| && f[a] == Left(topic, w) && (forall k :: a < k < |f| ==> f[k] != Left(topic, w))
    && exists i :: a < i < |f| && f[i] == Gone(topic, w)
  }

  /** A sample of `w` was registered after a removal that followed report `a`, and no removal
      came after it. */
  ghost predicate LateSample(f: seq<Effect>, topic: string, h: Handle, w: Guid, a: nat) {
    exists i, j :: a < i < j < |f| && f[i] == Gone(topic, w) && f[j] == Put(topic, h, w) &&
      forall k :: j < k < |f| ==> f[k] != Gone(topic, w)
  }

  /** Every report that a writer is gone is followed by its removal, unless that is still to
      come. */
  ghost predicate Followed(f: seq<Effect>, pending: multiset<Removal>, topic: string, w: Guid) {
    Left(topic, w) in f ==> Removal(topic, w) in pending || exists a :: RemovedSince(f, topic, w, a)
  }

  lemma FollowedSnoc(f: seq<Effect>, e: Effect, p: multiset<Removal>, q: multiset<Removal>, topic: string, w: Guid)
    requires Followed(f, p, topic, w)
    requires e == Left(topic, w) ==> Removal(topic, w) in q
    requires e == Gone(topic, w) ==> Removal(topic, w) in p
    requires e != Gone(topic, w) && Removal(topic, w) in p ==> Removal(topic, w) in q
    ensures Followed(f + [e], q, topic, w)
  {
    var g := f + [e];
    assert forall i :: 0 <= i < |f| ==> g[i] == f[i];
    if Left(topic, w) in g && Removal(topic, w) !in q {
      assert Left(topic, w) in f;
      if e == Gone(topic, w) {
        var a := LastLeft(f, topic, w);
        assert g[|f|] == e;
        assert RemovedSince(g, topic, w, a);
      } else {
        var a :| RemovedSince(f, topic, w, a);
        assert RemovedSince(g, topic, w, a);
      }
    }
  }

  lemma {:induction false} LastLeft(f: seq<Effect>, topic: string, w: Guid) returns (a: nat)
    requires Left(topic, w) in f
    ensures a < |f| && f[a] == Left(topic, w) && forall k :: a < k < |f| ==> f[k] != Left(topic, w)
  {
    var n := |f| - 1;
    if f[n] == Left(topic, w) {
      a := n;
    } else {
      assert f == f[..n] + [f[n]];
      a := LastLeft(f[..n], topic, w);
    }
  }

  /** Reports and removals are the only steps that touch what is still to come. */
  lemma RemovalsStep(s: System, e: Event, r: Removal)
    ensures var q := Next(s, e).removals;
      if EffectOf(s, e) == [Left(r.topic, r.writer)] then r in q
      else if EffectOf(s, e) == [Gone(r.topic, r.writer)] then r in s.removals
      else r in s.removals ==> r in q
    ensures |EffectOf(s, e)| <= 1
  {
    hide Begun;
  }

  lemma {:induction false} ReportsAreFollowed(n: nat, run: seq<Event>, topic: string, w: Guid)
    ensures Followed(Effects(n, run), After(n, run).removals, topic, w)
  {
    if run != [] {
      var k := |run| - 1;
      var s, f := After(n, run[..k]), Effects(n, run[..k]);
      ReportsAreFollowed(n, run[..k], topic, w);
      var e := EffectOf(s, run[k]);
      RemovalsStep(s, run[k], Removal(topic, w));
      hide Followed, EffectOf, Next;
      if e != [] {
        assert e == [e[0]];
        FollowedSnoc(f, e[0], s.removals, Next(s, run[k]).removals, topic, w);
      } else {
        assert f + [] == f;
        FollowedMore(f, s.removals, Next(s, run[k]).removals, topic, w);
      }
    }
  }

  lemma FollowedMore(f: seq<Effect>, p: multiset<Removal>, q: multiset<Removal>, topic: string, w: Guid)
    requires Followed(f, p, topic, w) && (Removal(topic, w) in p ==> Removal(topic, w) in q)
    ensures Followed(f, q, topic, w)
  {
  }

  lemma {:induction false} DepartedLeft(n: nat, run: seq<Event>, topic: string, w: Guid)
    requires Departed(run, topic, w)
    ensures Left(topic, w) in Effects(n, run)
  {
    var k := |run| - 1;
    if run[k].Discover? && run[k].e.info.guid == w {
      assert EffectOf(After(n, run[..k]), run[k]) == [Left(topic, w)];
    } else {
      DepartedLeft(n, run[..k], topic, w);
    }
  }

  /** A writer that discovery has reported as gone, and whose removal is done, is listed with an
      instance exactly if a sample of it was registered late: after a removal that followed
      the last report.  While the removal is still to come, it is listed as if nothing had
      been reported. */
  lemma RemovedButListed(n: nat, run: seq<Event>, topic: string, h: Handle, w: Guid)
    requires Clear !in run && Departed(run, topic, w)
    ensures var s, f := After(n, run), Effects(n, run);
      if Removal(topic, w) in s.removals then
        w in s.cache.WritersOf(topic, h) <==> Publishes(f, topic, h, w)
      else
        && (exists a :: RemovedSince(f, topic, w, a))
        && forall a :: RemovedSince(f, topic, w, a) ==>
          (w in s.cache.WritersOf(topic, h) <==> LateSample(f, topic, h, w, a))
  {
    hide After, Effects, Departed;
    var s, f := After(n, run), Effects(n, run);
    ReportsAreFollowed(n, run, topic, w);
    DepartedLeft(n, run, topic, w);
    WritersArePublishers(n, run, topic, h, w);
    forall a | RemovedSince(f, topic, w, a)
      ensures w in s.cache.WritersOf(topic, h) <==> LateSample(f, topic, h, w, a)
    {
      LateIsPublished(f, topic, h, w, a);
    }
  }

  lemma LateIsPublished(f: seq<Effect>, topic: string, h: Handle, w: Guid, a: nat)
    requires RemovedSince(f, topic, w, a)
    ensures Publishes(f, topic, h, w) <==> LateSample(f, topic, h, w, a)
  {
    if Publishes(f, topic, h, w) {
      var j :| 0 <= j < |f| && f[j] == Put(topic, h, w) && forall k :: j < k < |f| ==> f[k] != Gone(topic, w);
      var i :| a < i < |f| && f[i] == Gone(topic, w);
      assert i < j;
    }
  }

  /** Both cases occur with a single adding thread.  Here a writer is reported and removed while
      its sample is being serialised. */
  lemma RemovedWriterCanStay(ty: DynType, x: Sample, key: string, e: EndpointInfoData)
    requires ty.keys.Names? && ty.keys.names != [] && key != "" && Departs(e) && e.info.guid == x.writer
    ensures var topic := e.info.topicName;
      var run := [BeginAdd(0, topic, Value(ty), x, key), Discover(e), RemoveWriter(RemovalOf(e)), EndAdd(0)];
      && Departed(run, topic, x.writer) && RemovalOf(e) !in After(1, run).removals
      && x.writer in After(1, run).cache.WritersOf(topic, x.handle)
  {
    hide Begun, Committed, WriterGone;
    var topic := e.info.topicName;
    var b, g, r := BeginAdd(0, topic, Value(ty), x, key), Discover(e), RemoveWriter(RemovalOf(e));
    var s0 := Start(1);
    FirstAdd(s0, b);
    RunOfFour(b, g, r, EndAdd(0));
    assert RemovalOf(e) in Next(Next(s0, b), g).removals;
    Listed(Next(Next(Next(s0, b), g), r).cache, topic, x.handle, x.writer, key);
    ReportLast([b], g, [r, EndAdd(0)], x.writer);
    assert [b] + [g] + [r, EndAdd(0)] == [b, g, r, EndAdd(0)];
  }

  /** Here it is reported and not yet removed. */
  lemma ReportedNotYetRemoved(ty: DynType, x: Sample, key: string, e: EndpointInfoData)
    requires ty.keys.Names? && ty.keys.names != [] && key != "" && Departs(e) && e.info.guid == x.writer
    ensures var topic := e.info.topicName;
      var run := [BeginAdd(0, topic, Value(ty), x, key), EndAdd(0), Discover(e)];
      && Departed(run, topic, x.writer) && RemovalOf(e) in After(1, run).removals
      && x.writer in After(1, run).cache.WritersOf(topic, x.handle)
  {
    hide Begun, Committed, WriterGone;
    var topic := e.info.topicName;
    var b, g := BeginAdd(0, topic, Value(ty), x, key), Discover(e);
    var s0 := Start(1);
    FirstAdd(s0, b);
    RunOfThree(b, EndAdd(0), g);
    Listed(Next(s0, b).cache, topic, x.handle, x.writer, key);
    ReportLast([b, EndAdd(0)], g, [], x.writer);
    assert [b, EndAdd(0)] + [g] + [] == [b, EndAdd(0), g];
  }

  lemma FirstAdd(s: System, b: Event)
    requires s == Start(1) && b.BeginAdd? && b.t == 0 && b.ty.Value? && b.ty.value.keys.Names? &&
      b.ty.value.keys.names != []
    ensures Next(s, b).threads == [Adding(b.topic, b.s, b.key)] && Next(s, b).removals == multiset{}
  {
  }

  lemma Listed(c: Cache, topic: string, h: Handle, w: Guid, key: string)
    ensures w in Committed(c, topic, h, w, key).WritersOf(topic, h)
  {
  }

  lemma RunOfThree(a: Event, b: Event, c: Event)
    ensures After(1, [a, b, c]) == Next(Next(Next(Start(1), a), b), c)
  {
    hide Next;
    AfterSnoc(1, [], a);
    AfterSnoc(1, [a], b);
    AfterSnoc(1, [a, b], c);
    assert [] + [a] == [a] && [a] + [b] == [a, b] && [a, b] + [c] == [a, b, c];
  }

  lemma RunOfFour(a: Event, b: Event, c: Event, d: Event)
    ensures After(1, [a, b, c, d]) == Next(Next(Next(Next(Start(1), a), b), c), d)
  {
    hide Next;
    RunOfThree(a, b, c);
    AfterSnoc(1, [a, b, c], d);
    assert [a, b, c] + [d] == [a, b, c, d];
  }

  lemma {:induction false} ReportLast(before: seq<Event>, e: Event, later: seq<Event>, w: Guid)
    requires e.Discover? && e.e.info.guid == w && forall i :: 0 <= i < |later| ==> !later[i].Discover?
    ensures LastReport(before + [e] + later, w) == Value(e.e)
  {
    var run := before + [e] + later;
    if later != [] {
      var n := |later| - 1;
      assert run[..|run| - 1] == before + [e] + later[..n];
      ReportLast(before, e, later[..n], w);
    }
  }

  // ----- filter and cache

  /** The run without the writes of the partition filter. */
  function Unfiltered(run: seq<Event>): seq<Event> {
    if run == [] then []
    else
      var e := run[|run| - 1];
      Unfiltered(run[..|run| - 1]) + if e.WriteBack? then [] else [e]
  }

  ghost predicate SameButDatabase(s: System, u: System) {
    s.cache == u.cache && s.threads == u.threads && s.removals == u.removals
  }

  lemma StepAlike(s: System, u: System, e: Event)
    requires SameButDatabase(s, u) && !e.WriteBack?
    ensures SameButDatabase(Next(s, e), Next(u, e)) && EffectOf(s, e) == EffectOf(u, e)
  {
    hide Begun, Committed, WriterGone;
  }

  lemma WriteBackIs(s: System, e: Event)
    requires e.WriteBack?
    ensures SameButDatabase(Next(s, e), s) && EffectOf(s, e) == []
  {
  }

  lemma EffectsSnoc(n: nat, run: seq<Event>, e: Event)
    ensures Effects(n, run + [e]) == Effects(n, run) + EffectOf(After(n, run), e)
  {
    assert (run + [e])[..|run|] == run;
  }

  ghost predicate Alike(n: nat, run: seq<Event>, other: seq<Event>) {
    SameButDatabase(After(n, run), After(n, other)) && Effects(n, run) == Effects(n, other)
  }

  lemma OneMore(n: nat, run: seq<Event>, other: seq<Event>, e: Event)
    requires Alike(n, run, other)
    ensures Alike(n, run + [e], other + if e.WriteBack? then [] else [e])
  {
    hide After, Effects, Next, EffectOf;
    EffectsSnoc(n, run, e);
    AfterSnoc(n, run, e);
    if e.WriteBack? {
      WriteBackIs(After(n, run), e);
      assert other + [] == other;
      assert Effects(n, run) + [] == Effects(n, run);
    } else {
      EffectsSnoc(n, other, e);
      AfterSnoc(n, other, e);
      StepAlike(After(n, run), After(n, other), e);
    }
  }

  /** The partition filter never touches the cache: a writer it hides stays listed, and one it
      shows again does not come back. */
  lemma {:induction false} FilterLeavesCacheAlone(n: nat, run: seq<Event>)
    ensures Alike(n, run, Unfiltered(run))
  {
    if run != [] {
      hide Alike;
      var k := |run| - 1;
      FilterLeavesCacheAlone(n, run[..k]);
      OneMore(n, run[..k], Unfiltered(run[..k]), run[k]);
      assert run == run[..k] + [run[k]];
    }
  }

  lemma KeyFieldsStep(s: System, e: Event, topic: string)
    requires !e.Clear? && s.cache.KeysOf(topic) != []
    ensures Next(s, e).cache.KeysOf(topic) == s.cache.KeysOf(topic)
  {
  }

  /** Key fields, once found, stay until clear(). */
  lemma {:induction false} KeyFieldsStay(n: nat, run: seq<Event>, later: seq<Event>, topic: string)
    requires Clear !in later && After(n, run).cache.KeysOf(topic) != []
    ensures After(n, run + later).cache.KeysOf(topic) == After(n, run).cache.KeysOf(topic)
  {
    hide Next;
    if later == [] {
      assert run + later == run;
    } else {
      var k := |later| - 1;
      KeyFieldsStay(n, run, later[..k], topic);
      AfterSnoc(n, run + later[..k], later[k]);
      assert run + later == run + later[..k] + [later[k]];
      KeyFieldsStep(After(n, run + later[..k]), later[k], topic);
    }
  }

  // ----- the reported count

  ghost predicate DistinctKeys(m: Instances) {
    forall h, i :: h in m && i in m && h != i ==> m[h].key != m[i].key
  }

  function Without1(m: Instances, h: Handle): Instances { map i | i in m && i != h :: m[i] }

  lemma KeysSplit(m: Instances, h: Handle)
    requires h in m && forall h :: h in m ==> m[h].writers != {}
    ensures ActiveKeys(m) == ActiveKeys(Without1(m, h)) + {m[h].key}
  {
    var rest := Without1(m, h);
    forall k | k in ActiveKeys(m) ensures k in ActiveKeys(rest) + {m[h].key} {
      var i :| i in m && m[i].writers != {} && m[i].key == k;
      if i != h { assert i in rest && rest[i] == m[i]; }
    }
    forall k | k in ActiveKeys(rest) ensures k in ActiveKeys(m) {
      var i :| i in rest && rest[i].writers != {} && rest[i].key == k;
      assert i in m && m[i] == rest[i];
    }
  }

  lemma DistinctSplit(m: Instances, h: Handle)
    requires h in m && forall i :: i in m ==> m[i].writers != {}
    ensures var rest := Without1(m, h);
      DistinctKeys(m) <==> DistinctKeys(rest) && m[h].key !in ActiveKeys(rest)
  {
    var rest := Without1(m, h);
    assert forall i :: i in rest <==> i in m && i != h;
    assert forall i :: i in rest ==> rest[i] == m[i] && rest[i].key in ActiveKeys(rest);
    if m[h].key in ActiveKeys(rest) {
      var i :| i in rest && rest[i].writers != {} && rest[i].key == m[h].key;
      assert m[i].key == m[h].key;
    }
  }

  lemma {:induction false} KeyCount(m: Instances)
    requires forall h :: h in m ==> m[h].writers != {}
    ensures |ActiveKeys(m)| <= |m| && (|ActiveKeys(m)| == |m| <==> DistinctKeys(m))
    decreases |m|
  {
    if m == map[] {
      assert ActiveKeys(m) == {};
    } else {
      var h :| h in m;
      var rest := Without1(m, h);
      assert rest.Keys == m.Keys - {h};
      KeysSplit(m, h);
      DistinctSplit(m, h);
      hide ActiveKeys, DistinctKeys;
      KeyCount(rest);
      if m[h].key in ActiveKeys(rest) {
        assert ActiveKeys(m) == ActiveKeys(rest);
      }
    }
  }

  /** The count the tool reports is the number of stored handles exactly if no two stored
      handles of the topic have the same key text. */
  lemma ReportedCount(n: nat, run: seq<Event>, topic: string)
    ensures var m := After(n, run).cache.On(topic);
      |ActiveKeys(m)| <= |m| && (|ActiveKeys(m)| == |m| <==> DistinctKeys(m))
  {
    Reachable(n, run);
    assert Sound(After(n, run).cache);
    KeyCount(After(n, run).cache.On(topic));
  }
}
