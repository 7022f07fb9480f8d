/** The cache under concurrent use: threads adding samples in two lock sections, while endpoint
    discovery updates the endpoint database and then removes writers, and the partition
    filter rewrites the same database. */
module CacheProtocol {
  import opened Nullables
  import opened CacheState
  import opened Endpoints

  /** A thread inside add_or_update_instance between its lock sections holds its sample and
      the serialised key (empty if serialising failed). */
  datatype Thread = Idle | Adding(topic: string, s: Sample, key: string)

  /** The call of on_writer_changed that a discovery thread has still to make. */
  datatype Removal = Removal(topic: string, writer: Guid)

  datatype System = System(cache: Cache, threads: seq<Thread>, endpoints: Database, removals: multiset<Removal>)

  /** One atomic step: a lock section of the cache, or a write to the database.  `WriteBack` is
      a write of update_endpoints: some copy of the entry, with `active` as the filter says. */
  datatype Event =
    | BeginAdd(t: nat, topic: string, ty: Nullable<DynType>, s: Sample, key: string)
    | EndAdd(t: nat)
    | Discover(e: EndpointInfoData)
    | RemoveWriter(r: Removal)
    | WriteBack(guid: Guid, e: EndpointInfoData)
    | Clear

  predicate Enabled(s: System, e: Event) {
    match e
    case BeginAdd(t, _, _, _, _) => t < |s.threads| && s.threads[t].Idle?
    case EndAdd(t) => t < |s.threads| && s.threads[t].Adding?
    case Discover(_) => true
    case RemoveWriter(r) => r in s.removals
    case WriteBack(guid, _) => guid in s.endpoints
    case Clear => forall t :: 0 <= t < |s.threads| ==> s.threads[t].Idle?
  }

  /** A writer is reported as gone. */
  predicate Departs(e: EndpointInfoData) { e.info.kind == Writer && !e.info.active }

  function RemovalOf(e: EndpointInfoData): Removal { Removal(e.info.topicName, e.info.guid) }

  /** new_endpoint_info_ up to its second call: the database is written, and for a writer that
      is gone the removal from the cache is still to come. */
  function Announced(s: System, e: EndpointInfoData): System {
    s.(endpoints := s.endpoints[e.info.guid := e],
       removals := if Departs(e) then s.removals + multiset{RemovalOf(e)} else s.removals)
  }

  function Removed(s: System, r: Removal): System {
    s.(cache := WriterGone(s.cache, r.topic, r.writer), removals := s.removals - multiset{r})
  }

  /** A step that is not enabled does nothing. */
  function Next(s: System, e: Event): System {
    if !Enabled(s, e) then s
    else
      match e
      case BeginAdd(t, topic, ty, x, key) =>
        var (c, v) := Begun(s.cache, topic, ty, x);
        s.(cache := c, threads := if v == Serialise then s.threads[t := Adding(topic, x, key)] else s.threads)
      case EndAdd(t) =>
        var a := s.threads[t];
        s.(cache := if a.key == "" then s.cache else Committed(s.cache, a.topic, a.s.handle, a.s.writer, a.key),
           threads := s.threads[t := Idle])
      case Discover(x) => Announced(s, x)
      case RemoveWriter(r) => Removed(s, r)
      case WriteBack(guid, x) => s.(endpoints := s.endpoints[guid := x])
      case Clear => s.(cache := EMPTY)
  }

  function Start(n: nat): System { System(EMPTY, seq(n, i => Idle), map[], multiset{}) }

  /** The state after a run of `n` threads. */
  function After(n: nat, run: seq<Event>): System {
    if run == [] then Start(n) else Next(After(n, run[..|run| - 1]), run[|run| - 1])
  }

  lemma AfterSnoc(n: nat, run: seq<Event>, e: Event)
    ensures After(n, run + [e]) == Next(After(n, run), e)
  {
    assert (run + [e])[..|run|] == run;
  }

  // ----- what every reachable state satisfies

  function On(a: Thread, topic: string): nat { if a.Adding? && a.topic == topic then 1 else 0 }

  /** Adds pending between their two lock sections. */
  function Pending(threads: seq<Thread>, topic: string): nat {
    if threads == [] then 0 else On(threads[0], topic) + Pending(threads[1..], topic)
  }

  lemma {:induction false} PendingUpdate(threads: seq<Thread>, t: nat, a: Thread, topic: string)
    requires t < |threads|
    ensures Pending(threads[t := a], topic) == Pending(threads, topic) - On(threads[t], topic) + On(a, topic)
  {
    if t > 0 {
      assert threads[t := a][1..] == threads[1..][t - 1 := a];
      PendingUpdate(threads[1..], t - 1, a, topic);
    }
  }

  lemma {:induction false} PendingAtMostThreads(threads: seq<Thread>, topic: string)
    ensures Pending(threads, topic) <= |threads|
  {
    if threads != [] { PendingAtMostThreads(threads[1..], topic); }
  }

  /** Each stored instance has a key and a writer, and its topic has key fields. */
  ghost predicate Sound(c: Cache) {
    forall topic, h :: h in c.On(topic) ==>
      c.On(topic)[h].key != "" && c.On(topic)[h].writers != {} && c.KeysOf(topic) != []
  }

  /** A pending add has found key fields, and its reference into the map is good. */
  ghost predicate PendingSound(s: System) {
    forall t :: 0 <= t < |s.threads| && s.threads[t].Adding? ==>
      s.cache.KeysOf(s.threads[t].topic) != [] && s.threads[t].topic in s.cache.instances
  }

  ghost predicate Bounded(s: System) {
    forall topic :: |s.cache.On(topic)| + Pending(s.threads, topic) <= MAX_INSTANCES_PER_TOPIC + |s.threads| - 1
  }

  ghost predicate Invariant(s: System) { Sound(s.cache) && PendingSound(s) && Bounded(s) }

  lemma SizeGrows(m: Instances, h: Handle, i: InstanceInfo)
    ensures |m[h := i]| == if h in m then |m| else |m| + 1
  {
    assert m[h := i].Keys == m.Keys + {h};
  }

  lemma SizeShrinks(m: Instances, w: Guid)
    ensures |Without(m, w)| <= |m|
  {
    assert Without(m, w).Keys <= m.Keys;
    SubsetSize(Without(m, w).Keys, m.Keys);
  }

  lemma {:induction false} SubsetSize(a: set<Handle>, b: set<Handle>)
    requires a <= b
    ensures |a| <= |b|
    decreases a
  {
    if a != {} {
      var x :| x in a;
      SubsetSize(a - {x}, b - {x});
    }
  }

  lemma CommittedOn(c: Cache, topic: string, h: Handle, w: Guid, key: string)
    ensures var d := Committed(c, topic, h, w, key);
      && d.keyFields == c.keyFields && d.instances.Keys == c.instances.Keys + {topic}
      && forall t ::
        d.On(t) == if t == topic then c.On(t)[h := InstanceInfo(key, c.WritersOf(topic, h) + {w})] else c.On(t)
  {
  }

  lemma CommitKeeps(c: Cache, topic: string, h: Handle, w: Guid, key: string)
    requires Sound(c) && key != "" && c.KeysOf(topic) != []
    ensures Sound(Committed(c, topic, h, w, key))
    ensures Committed(c, topic, h, w, key).keyFields == c.keyFields
    ensures Committed(c, topic, h, w, key).instances.Keys == c.instances.Keys + {topic}
    ensures forall t ::
      |Committed(c, topic, h, w, key).On(t)| <= |c.On(t)| + if t == topic && h !in c.On(t) then 1 else 0
  {
    hide Committed, Cache.On, Cache.WritersOf;
    CommittedOn(c, topic, h, w, key);
    var d := Committed(c, topic, h, w, key);
    forall t, i | i in d.On(t)
      ensures d.On(t)[i].key != "" && d.On(t)[i].writers != {} && d.KeysOf(t) != []
    {
      assert i in c.On(t) || (t == topic && i == h);
      assert d.KeysOf(t) == c.KeysOf(t);
      assert w in c.WritersOf(topic, h) + {w};
    }
    SizeGrows(c.On(topic), h, InstanceInfo(key, c.WritersOf(topic, h) + {w}));
  }

  lemma RemovalKeeps(c: Cache, topic: string, w: Guid)
    requires Sound(c)
    ensures Sound(WriterGone(c, topic, w)) && WriterGone(c, topic, w).keyFields == c.keyFields
    ensures forall t :: |WriterGone(c, topic, w).On(t)| <= |c.On(t)|
    ensures WriterGone(c, topic, w).instances.Keys == c.instances.Keys
  {
    var d := WriterGone(c, topic, w);
    assert forall t :: d.On(t) == if t == topic then Without(c.On(t), w) else c.On(t);
    SizeShrinks(c.On(topic), w);
  }

  lemma BeginKeeps(c: Cache, topic: string, ty: Nullable<DynType>, x: Sample)
    requires Sound(c)
    ensures var (d, v) := Begun(c, topic, ty, x);
      && Sound(d)
      && (forall t :: |d.On(t)| <= |c.On(t)|)
      && (forall t :: c.KeysOf(t) != [] ==> d.KeysOf(t) == c.KeysOf(t))
      && c.instances.Keys <= d.instances.Keys
      && (v == Serialise ==> |c.On(topic)| < MAX_INSTANCES_PER_TOPIC && d.KeysOf(topic) != [] && topic in d.instances)
  {
    var (d, v) := Begun(c, topic, ty, x);
    if ty != Null {
      var e := Extracted(c, topic, ty.value);
      assert forall t :: e.On(t) == c.On(t);
      assert Sound(e);
      if e.KeysOf(topic) == [] {
        assert forall t :: d.On(t) == e.On(t) && d.KeysOf(t) == e.KeysOf(t);
      } else {
        var f := if topic in e.instances then e else e.(instances := e.instances[topic := map[]]);
        assert forall t :: f.On(t) == c.On(t);
        assert Sound(f);
        if v == Answered(true) {
          CommitKeeps(f, topic, x.handle, x.writer, f.On(topic)[x.handle].key);
        }
      }
    }
  }

  lemma {:induction false} PendingIdle(threads: seq<Thread>, topic: string)
    requires forall t :: 0 <= t < |threads| ==> threads[t].Idle?
    ensures Pending(threads, topic) == 0
  {
    if threads != [] { PendingIdle(threads[1..], topic); }
  }

  lemma BeginStep(s: System, e: Event)
    requires Invariant(s) && e.BeginAdd? && Enabled(s, e)
    ensures Invariant(Next(s, e))
  {
    var (c, v) := Begun(s.cache, e.topic, e.ty, e.s);
    var s' := Next(s, e);
    BeginKeeps(s.cache, e.topic, e.ty, e.s);
    hide Begun;
    forall topic
      ensures |s'.cache.On(topic)| + Pending(s'.threads, topic) <= MAX_INSTANCES_PER_TOPIC + |s'.threads| - 1
    {
      PendingUpdate(s.threads, e.t, Adding(e.topic, e.s, e.key), topic);
      PendingAtMostThreads(s'.threads, topic);
    }
  }

  /** A step that only changes what one thread does, and adds at most one instance where
      a pending add ends, keeps the bound. */
  lemma BoundKept(s: System, s': System, t: nat, topic: string)
    requires Bounded(s) && t < |s.threads| && s'.threads == s.threads[t := Idle]
    requires |s'.cache.On(topic)| <= |s.cache.On(topic)| + On(s.threads[t], topic)
    ensures |s'.cache.On(topic)| + Pending(s'.threads, topic) <= MAX_INSTANCES_PER_TOPIC + |s'.threads| - 1
  {
    PendingUpdate(s.threads, t, Idle, topic);
  }

  lemma EndStep(s: System, e: Event)
    requires Invariant(s) && e.EndAdd? && Enabled(s, e)
    ensures Invariant(Next(s, e))
  {
    var a := s.threads[e.t];
    var s' := Next(s, e);
    hide Committed, Sound;
    if a.key != "" {
      CommitKeeps(s.cache, a.topic, a.s.handle, a.s.writer, a.key);
    }
    assert Bounded(s') by {
      forall topic
        ensures |s'.cache.On(topic)| + Pending(s'.threads, topic) <= MAX_INSTANCES_PER_TOPIC + |s'.threads| - 1
      {
        BoundKept(s, s', e.t, topic);
      }
    }
    assert PendingSound(s');
  }

  lemma OtherStep(s: System, e: Event)
    requires Invariant(s) && !e.BeginAdd? && !e.EndAdd? && Enabled(s, e)
    ensures Invariant(Next(s, e))
  {
    var s' := Next(s, e);
    if e.RemoveWriter? {
      RemovalKeeps(s.cache, e.r.topic, e.r.writer);
    } else if e.Clear? {
      forall topic
        ensures |s'.cache.On(topic)| + Pending(s'.threads, topic) <= MAX_INSTANCES_PER_TOPIC + |s'.threads| - 1
      {
        PendingIdle(s.threads, topic);
      }
    }
  }

  /** Every reachable state: stored instances have a key, a writer and key fields, and size
      plus pending adds of a topic stay below the limit plus the number of threads. */
  lemma {:induction false} Reachable(n: nat, run: seq<Event>)
    ensures Invariant(After(n, run)) && |After(n, run).threads| == n
  {
    if run == [] {
      forall topic ensures Pending(Start(n).threads, topic) == 0 { PendingIdle(Start(n).threads, topic); }
    } else {
      var s, e := After(n, run[..|run| - 1]), run[|run| - 1];
      Reachable(n, run[..|run| - 1]);
      hide Invariant;
      if Enabled(s, e) {
        match e {
          case BeginAdd(_, _, _, _, _) => BeginStep(s, e);
          case EndAdd(_) => EndStep(s, e);
          case _ => OtherStep(s, e);
        }
      }
    }
  }

  /** With n threads adding, no topic ever has more than 1000 + n - 1 instances. */
  lemma InstanceBound(n: nat, run: seq<Event>, topic: string)
    ensures var s := After(n, run);
      |s.cache.On(topic)| + Pending(s.threads, topic) <= MAX_INSTANCES_PER_TOPIC + n - 1
  {
    Reachable(n, run);
    assert Bounded(After(n, run));
  }
}
