/** Which key texts and key fields the cache holds after any run, and how each add is answered. */
module CacheKeys {
  import opened Nullables
  import opened CacheState
  import opened CacheProtocol
  import opened CacheTrace
  import opened Endpoints

  // ----- the first lock section

  /** The key fields an add finds: those known, or else those its type has. */
  function Found(c: Cache, topic: string, ty: DynType): seq<string> {
    if c.KeysOf(topic) != [] then c.KeysOf(topic) else if ty.keys.Names? then ty.keys.names else []
  }

  /** `d` has the instances of `c`. */
  ghost predicate SameInstances(c: Cache, d: Cache) { forall t :: d.On(t) == c.On(t) }

  /** `d` has the instances of `c`, save that `w` is a writer of (topic, h). */
  ghost predicate WriterAdded(c: Cache, d: Cache, topic: string, h: Handle, w: Guid) {
    forall t :: if t != topic then d.On(t) == c.On(t)
      else
        && h in c.On(t) && d.On(t).Keys == c.On(t).Keys
        && (forall i :: i in c.On(t) && i != h ==> d.On(t)[i] == c.On(t)[i])
        && d.On(t)[h] == InstanceInfo(c.On(t)[h].key, c.On(t)[h].writers + {w})
  }

  /** What is known of key fields, and noted, after the first lock section. */
  lemma BeginFields(c: Cache, topic: string, ty: DynType, x: Sample)
    ensures var d, keys := Begun(c, topic, Value(ty), x).0, Found(c, topic, ty);
      && (forall t :: d.KeysOf(t) == if t == topic then keys else c.KeysOf(t))
      && d.warned == if keys == [] then c.warned + {topic} else c.warned
  {
    hide Cache.On, Cache.WritersOf;
  }

  lemma BeginInstances(c: Cache, topic: string, ty: DynType, x: Sample)
    requires Sound(c)
    ensures var (d, v) := Begun(c, topic, Value(ty), x);
      if Found(c, topic, ty) == [] then v == Answered(false) && SameInstances(c, d)
      else if x.handle in c.On(topic) then v == Answered(true) && WriterAdded(c, d, topic, x.handle, x.writer)
      else SameInstances(c, d) && v == if |c.On(topic)| >= 1000 then Answered(false) else Serialise
  {
    var e := Extracted(c, topic, ty);
    assert forall t :: e.On(t) == c.On(t);
    assert e.KeysOf(topic) == Found(c, topic, ty);
    hide Extracted, Found;
    if e.KeysOf(topic) != [] && x.handle in c.On(topic) {
      assert c.On(topic)[x.handle].key != "";
    }
  }

  /** How an add is answered under the first lock: not without a type or key fields; at once for an
      instance already stored, whose key stays as it is; not at the limit; and otherwise the key
      is serialised.  Key fields are remembered, and a topic without any is noted. */
  lemma BeginAnswers(c: Cache, topic: string, ty: Nullable<DynType>, x: Sample)
    requires Sound(c)
    ensures var (d, v) := Begun(c, topic, ty, x);
      if ty.Null? then d == c && v == Answered(false)
      else
        var keys := Found(c, topic, ty.value);
        && (forall t :: d.KeysOf(t) == if t == topic then keys else c.KeysOf(t))
        && d.warned == (if keys == [] then c.warned + {topic} else c.warned)
        && if keys == [] then v == Answered(false) && SameInstances(c, d)
           else if x.handle in c.On(topic) then v == Answered(true) && WriterAdded(c, d, topic, x.handle, x.writer)
           else SameInstances(c, d) && v == if |c.On(topic)| >= 1000 then Answered(false) else Serialise
  {
    if ty.Value? {
      BeginFields(c, topic, ty.value, x);
      BeginInstances(c, topic, ty.value, x);
      hide Begun, Found, SameInstances, WriterAdded;
    }
  }

  // ----- key texts

  /** The key text serialised for (topic, h) by an add that now ends. */
  function KeyOf(s: System, e: Event, topic: string, h: Handle): Nullable<string> {
    if e.EndAdd? && Enabled(s, e) then
      var a := s.threads[e.t];
      if a.topic == topic && a.s.handle == h && a.key != "" then Value(a.key) else Null
    else Null
  }

  /** The last of these in a run. */
  function LastKey(n: nat, run: seq<Event>, topic: string, h: Handle): Nullable<string> {
    if run == [] then Null
    else
      var k := |run| - 1;
      var key := KeyOf(After(n, run[..k]), run[k], topic, h);
      if key.Value? then key else LastKey(n, run[..k], topic, h)
  }

  lemma BeginKeepsKey(c: Cache, topic: string, ty: Nullable<DynType>, x: Sample, t: string, h: Handle)
    requires Sound(c)
    ensures var d := Begun(c, topic, ty, x).0;
      (h in d.On(t) <==> h in c.On(t)) && (h in c.On(t) ==> d.On(t)[h].key == c.On(t)[h].key)
  {
    BeginAnswers(c, topic, ty, x);
    hide Begun;
  }

  /** One step: an ending add sets the key it has serialised; nothing else changes a key. */
  lemma KeyStep(s: System, e: Event, topic: string, h: Handle)
    requires Sound(s.cache) && !e.Clear? && h in Next(s, e).cache.On(topic)
    ensures var key := Next(s, e).cache.On(topic)[h].key;
      if KeyOf(s, e, topic, h).Value? then key == KeyOf(s, e, topic, h).value
      else h in s.cache.On(topic) && key == s.cache.On(topic)[h].key
  {
    if Enabled(s, e) {
      match e {
        case BeginAdd(_, t, ty, x, _) =>
          BeginKeepsKey(s.cache, t, ty, x, topic, h);
          hide Begun;
        case EndAdd(t) =>
          var a := s.threads[t];
          CommittedOn(s.cache, a.topic, a.s.handle, a.s.writer, a.key);
          hide Committed;
        case _ =>
      }
    }
  }

  /** In every run without clear(), an instance that is stored has the key text serialised last for
      it. */
  lemma {:induction false} KeysAreLastSerialised(n: nat, run: seq<Event>, topic: string, h: Handle)
    requires Clear !in run && h in After(n, run).cache.On(topic)
    ensures LastKey(n, run, topic, h) == Value(After(n, run).cache.On(topic)[h].key)
  {
    if run != [] {
      var k := |run| - 1;
      assert run == run[..k] + [run[k]];
      Reachable(n, run[..k]);
      var s := After(n, run[..k]);
      assert Sound(s.cache);
      hide Next;
      KeyStep(s, run[k], topic, h);
      if KeyOf(s, run[k], topic, h).Null? { KeysAreLastSerialised(n, run[..k], topic, h); }
    }
  }

  /** What an add that is pending will register: topic, sample and key of its own first section. */
  ghost predicate BegunAs(run: seq<Event>, t: nat, a: Thread)
    requires a.Adding?
  {
    exists i, ty :: 0 <= i < |run| && run[i] == BeginAdd(t, a.topic, ty, a.s, a.key)
  }

  lemma {:induction false} PendingIsItsAdd(n: nat, run: seq<Event>, t: nat)
    requires t < |After(n, run).threads| && After(n, run).threads[t].Adding?
    ensures BegunAs(run, t, After(n, run).threads[t])
  {
    if run != [] {
      hide Begun, Committed;
      var k := |run| - 1;
      var s, a := After(n, run[..k]), After(n, run).threads[t];
      if t < |s.threads| && s.threads[t] == a {
        PendingIsItsAdd(n, run[..k], t);
        var i, ty :| 0 <= i < k && run[..k][i] == BeginAdd(t, a.topic, ty, a.s, a.key);
        assert run[i] == run[..k][i];
      } else {
        assert run[k].BeginAdd?;
        assert run[k] == BeginAdd(t, a.topic, run[k].ty, a.s, a.key);
      }
    }
  }

  lemma PublishedKey(n: nat, run: seq<Event>, topic: string, h: Handle, w: Guid, key: string)
    requires Clear !in run && Publishes(Effects(n, run), topic, h, w) && LastKey(n, run, topic, h) == Value(key)
    ensures key in ActiveKeys(After(n, run).cache.On(topic))
  {
    hide After, Effects, Publishes, LastKey;
    var m := After(n, run).cache.On(topic);
    WritersArePublishers(n, run, topic, h, w);
    assert h in m && w in m[h].writers;
    KeysAreLastSerialised(n, run, topic, h);
    assert m[h].writers != {} && m[h].key == key;
  }

  lemma StoredKey(n: nat, run: seq<Event>, topic: string, h: Handle) returns (w: Guid)
    requires Clear !in run && h in After(n, run).cache.On(topic)
    ensures Publishes(Effects(n, run), topic, h, w)
    ensures LastKey(n, run, topic, h) == Value(After(n, run).cache.On(topic)[h].key)
  {
    hide After, Effects, Publishes, LastKey;
    KeysAreLastSerialised(n, run, topic, h);
    StoredExactlyIfPublished(n, run, topic, h);
    w :| Publishes(Effects(n, run), topic, h, w);
  }

  /** The key texts reported for a topic are those last serialised for the instances that some
      writer publishes. */
  lemma ReportedKeys(n: nat, run: seq<Event>, topic: string, key: string)
    requires Clear !in run
    ensures key in ActiveKeys(After(n, run).cache.On(topic)) <==>
      exists h, w :: Publishes(Effects(n, run), topic, h, w) && LastKey(n, run, topic, h) == Value(key)
  {
    hide After, Effects, Publishes, LastKey;
    var m := After(n, run).cache.On(topic);
    if key in ActiveKeys(m) {
      var h :| h in m && m[h].writers != {} && m[h].key == key;
      var w := StoredKey(n, run, topic, h);
    }
    forall h, w | Publishes(Effects(n, run), topic, h, w) && LastKey(n, run, topic, h) == Value(key)
      ensures key in ActiveKeys(m)
    {
      PublishedKey(n, run, topic, h, w, key);
    }
  }

  // ----- key fields

  /** The key fields a step makes known for a topic: those of the type an add brings. */
  predicate Tells(s: System, e: Event, topic: string) {
    e.BeginAdd? && Enabled(s, e) && e.topic == topic && e.ty.Value? && e.ty.value.keys.Names? &&
    e.ty.value.keys.names != []
  }

  /** The first such fields of a run. */
  function FirstKeys(n: nat, run: seq<Event>, topic: string): seq<string> {
    if run == [] then []
    else
      var k := |run| - 1;
      var before := FirstKeys(n, run[..k], topic);
      if before == [] && Tells(After(n, run[..k]), run[k], topic) then run[k].ty.value.keys.names else before
  }

  lemma FieldsStep(s: System, e: Event, topic: string)
    requires Sound(s.cache) && !e.Clear?
    ensures Next(s, e).cache.KeysOf(topic) ==
      if s.cache.KeysOf(topic) == [] && Tells(s, e, topic) then e.ty.value.keys.names else s.cache.KeysOf(topic)
  {
    if e.BeginAdd? && Enabled(s, e) {
      BeginAnswers(s.cache, e.topic, e.ty, e.s);
    }
    hide Begun;
  }

  /** In every run without clear(), the key fields of a topic are those of the first type brought by
      an add on it that has any. */
  lemma {:induction false} KeyFieldsAreTheTypes(n: nat, run: seq<Event>, topic: string)
    requires Clear !in run
    ensures After(n, run).cache.KeysOf(topic) == FirstKeys(n, run, topic)
  {
    if run != [] {
      var k := |run| - 1;
      assert run == run[..k] + [run[k]];
      KeyFieldsAreTheTypes(n, run[..k], topic);
      Reachable(n, run[..k]);
      assert Sound(After(n, run[..k]).cache);
      hide Next, Tells;
      FieldsStep(After(n, run[..k]), run[k], topic);
    }
  }

  /** The topics noted as being without key fields, in every run without clear(): those for which an
      add with a type found none. */
  predicate Noted(s: System, e: Event, topic: string) {
    && e.BeginAdd? && Enabled(s, e) && e.topic == topic && e.ty.Value? && s.cache.KeysOf(topic) == []
    && (e.ty.value.keys.Names? ==> e.ty.value.keys.names == [])
  }

  lemma NotedStep(s: System, e: Event, topic: string)
    requires Sound(s.cache) && !e.Clear?
    ensures topic in Next(s, e).cache.warned <==> topic in s.cache.warned || Noted(s, e, topic)
  {
    if e.BeginAdd? && Enabled(s, e) {
      BeginAnswers(s.cache, e.topic, e.ty, e.s);
    }
    hide Begun;
  }

  lemma {:induction false} NotedTopics(n: nat, run: seq<Event>, topic: string)
    requires Clear !in run
    ensures topic in After(n, run).cache.warned <==>
      exists i :: 0 <= i < |run| && Noted(After(n, run[..i]), run[i], topic)
  {
    if run != [] {
      var k := |run| - 1;
      assert run == run[..k] + [run[k]];
      NotedTopics(n, run[..k], topic);
      Reachable(n, run[..k]);
      assert Sound(After(n, run[..k]).cache);
      hide Next, Noted;
      NotedStep(After(n, run[..k]), run[k], topic);
      assert forall i :: 0 <= i < k ==> run[..k][..i] == run[..i] && run[..k][i] == run[i];
    }
  }

  // ----- reports

  /** Only a writer that is no longer active is reported as gone, from the topic it was on, and only
      that brings a removal. */
  lemma GoneIsWriter(s: System, x: EndpointInfoData)
    ensures EffectOf(s, Discover(x)) ==
      if x.info.kind == Writer && !x.info.active then [Left(x.info.topicName, x.info.guid)] else []
    ensures var u := Next(s, Discover(x));
      && u.cache == s.cache && u.threads == s.threads && u.endpoints == s.endpoints[x.info.guid := x]
      && (x.info.kind != Writer || x.info.active ==> u.removals == s.removals)
      && (x.info.kind == Writer && !x.info.active ==>
            u.removals == s.removals + multiset{Removal(x.info.topicName, x.info.guid)})
  {
  }
}
