/** The streamer that hands samples to a user callback and to the instance cache, and the
    participant step that feeds discovery into both the endpoint database and the cache. */
module Streaming {
  import opened Nullables
  import opened CacheState
  import opened CacheProtocol
  import opened CacheTrace
  import opened Endpoints

  datatype DdsTopic = DdsTopic(name: string, typeName: string)

  /** A wildcard filter; how it matches is the business of `Foreign.matches`. */
  datatype Filter = Filter(pattern: string)

  /** A callback is known by its identity. */
  type Callback = nat

  /** One invocation of a callback. */
  datatype Call = Call(callback: Callback, topic: DdsTopic, ty: DynType, s: Sample)

  /** Foreign functions: filter matching, and key serialisation ("" when it fails). */
  datatype Foreign = Foreign(matches: (Filter, DdsTopic) -> bool, serialize: (DynType, Sample) -> string)

  datatype Streamer = Streamer(activated: bool, all: bool, filter: Filter, callback: Nullable<Callback>,
                               types: map<string, DynType>, cache: Cache)

  /** add_or_update_instance without interference. */
  function Added(c: Cache, topic: string, ty: DynType, s: Sample, key: string): Cache {
    var (d, v) := Begun(c, topic, Value(ty), s);
    if v == Serialise && key != "" then Committed(d, topic, s.handle, s.writer, key) else d
  }

  // ----- a run of the streamer

  datatype Op =
    | ActivateAll(cb: Callback)
    | Activate(f: Filter, cb: Callback)
    | Deactivate
    | AddSchema(ty: DynType)
    | AddData(topic: DdsTopic, s: Sample)
    | OnWriter(guid: Guid, name: string, active: bool)

  const FRESH := Streamer(false, false, Filter(""), Null, map[], EMPTY)

  function Step(g: Foreign, x: Streamer, op: Op): Streamer {
    match op
    case ActivateAll(cb) => x.(activated := true, all := true, callback := Value(cb))
    case Activate(f, cb) => x.(activated := true, all := false, filter := f, callback := Value(cb))
    case Deactivate => x.(activated := false, callback := Null)
    case AddSchema(ty) => x.(types := x.types[ty.name := ty])
    case AddData(topic, s) =>
      if topic.typeName !in x.types then x
      else
        var ty := x.types[topic.typeName];
        x.(cache := Added(x.cache, topic.name, ty, s, g.serialize(ty, s)))
    case OnWriter(guid, name, active) => if active then x else x.(cache := WriterGone(x.cache, name, guid))
  }

  /** Whether add_data calls the callback in state `x`. */
  predicate Wanted(g: Foreign, x: Streamer, topic: DdsTopic) {
    topic.typeName in x.types && x.activated && (x.all || g.matches(x.filter, topic))
  }

  function Streamed(g: Foreign, ops: seq<Op>): Streamer {
    if ops == [] then FRESH else Step(g, Streamed(g, ops[..|ops| - 1]), ops[|ops| - 1])
  }

  // ----- the same, from the history alone

  datatype Selection = All(cb: Callback) | Only(f: Filter, cb: Callback)

  /** The selection in force: the last activation, unless deactivated since. */
  function InForce(ops: seq<Op>): Nullable<Selection> {
    if ops == [] then Null
    else
      match ops[|ops| - 1]
      case ActivateAll(cb) => Value(All(cb))
      case Activate(f, cb) => Value(Only(f, cb))
      case Deactivate => Null
      case _ => InForce(ops[..|ops| - 1])
  }

  predicate Selected(g: Foreign, sel: Selection, topic: DdsTopic) {
    sel.All? || g.matches(sel.f, topic)
  }

  /** `ty` was the last type added under `name`. */
  ghost predicate Schema(ops: seq<Op>, name: string, ty: DynType) {
    ty.name == name &&
    exists i :: 0 <= i < |ops| && ops[i] == AddSchema(ty) &&
      forall j :: i < j < |ops| ==> !(ops[j].AddSchema? && ops[j].ty.name == name)
  }

  /** In every run: a callback is set exactly while activated, it is the one of the selection
      in force, and the known types are the last ones added under their names. */
  lemma {:induction false} StateIsHistory(g: Foreign, ops: seq<Op>)
    ensures var x := Streamed(g, ops);
      && (x.activated <==> x.callback.Value?)
      && (x.activated <==> InForce(ops).Value?)
      && (x.activated ==>
            InForce(ops) == Value(if x.all then All(x.callback.value) else Only(x.filter, x.callback.value)))
  {
    if ops != [] { StateIsHistory(g, ops[..|ops| - 1]); }
  }

  lemma {:induction false} TypesAreHistory(g: Foreign, ops: seq<Op>, name: string, ty: DynType)
    ensures name in Streamed(g, ops).types && Streamed(g, ops).types[name] == ty <==> Schema(ops, name, ty)
  {
    if ops != [] {
      var n := |ops| - 1;
      var before := ops[..n];
      TypesAreHistory(g, before, name, ty);
      assert forall i :: 0 <= i < n ==> before[i] == ops[i];
      if ops[n].AddSchema? && ops[n].ty.name == name {
        if Schema(ops, name, ty) {
          var i :| 0 <= i < |ops| && ops[i] == AddSchema(ty) && forall j :: i < j < |ops| ==>
            !(ops[j].AddSchema? && ops[j].ty.name == name);
          assert i == n;
        } else if ops[n] == AddSchema(ty) {
          assert Schema(ops, name, ty);
        }
      } else {
        assert Streamed(g, ops).types == Streamed(g, before).types || (ops[n].AddSchema? && ops[n].ty.name != name);
        if Schema(before, name, ty) {
          var i :| 0 <= i < n && before[i] == AddSchema(ty) && forall j :: i < j < n ==>
            !(before[j].AddSchema? && before[j].ty.name == name);
          assert ops[i] == AddSchema(ty);
        }
        if Schema(ops, name, ty) {
          var i :| 0 <= i < |ops| && ops[i] == AddSchema(ty) && forall j :: i < j < |ops| ==>
            !(ops[j].AddSchema? && ops[j].ty.name == name);
          assert before[i] == AddSchema(ty);
        }
      }
    }
  }

  // ----- the classes

  class DataStreamer {
    const g: Foreign
    const cache: InstanceCache
    var activated: bool
    var activatedAll: bool
    var activatedTopic: Filter
    var callback: Nullable<Callback>
    var typesDiscovered: map<string, DynType>

    function Now(): Streamer
      reads this, cache
    {
      Streamer(activated, activatedAll, activatedTopic, callback, typesDiscovered, cache.Now())
    }

    constructor (g_: Foreign)
      ensures Now() == FRESH && g == g_ && fresh(cache)
    {
      g := g_;
      cache := new InstanceCache();
      activated, activatedAll, activatedTopic, callback, typesDiscovered := false, false, Filter(""), Null, map[];
    }

    method ActivateAllTopics(cb: Callback)
      modifies this
      ensures Now() == Step(g, old(Now()), ActivateAll(cb))
    {
      activated := true;
      activatedAll := true;
      callback := Value(cb);
    }

    method ActivateTopic(f: Filter, cb: Callback)
      modifies this
      ensures Now() == Step(g, old(Now()), Activate(f, cb))
    {
      activated := true;
      activatedTopic := f;
      activatedAll := false;
      callback := Value(cb);
    }

    method DeactivateStream()
      modifies this
      ensures Now() == Step(g, old(Now()), Deactivate)
    {
      activated := false;
      callback := Null;
    }

    method AddSchemaType(ty: DynType)
      modifies this
      ensures Now() == Step(g, old(Now()), AddSchema(ty))
    {
      typesDiscovered := typesDiscovered[ty.name := ty];
    }

    /** `call` is the invocation of the callback, if there is one.  The callback is
        dereferenced after the lock is released, so a caller must not have deactivated
        meanwhile; in a sequential run it is always set when it is needed. */
    method AddSample(topic: DdsTopic, s: Sample) returns (call: Nullable<Call>)
      requires activated ==> callback.Value?
      modifies this, cache
      ensures Now() == Step(g, old(Now()), AddData(topic, s))
      ensures old(Wanted(g, Now(), topic) ==> callback.Value?)
      ensures call == if old(Wanted(g, Now(), topic)) then
        Value(Call(old(callback).value, topic, old(typesDiscovered)[topic.typeName], s)) else Null
    {
      if topic.typeName !in typesDiscovered {
        return Null;
      }
      var dynType := typesDiscovered[topic.typeName];
      var shouldCallCallback := false;
      if activated {
        if activatedAll || g.matches(activatedTopic, topic) {
          shouldCallCallback := true;
        }
      }
      var _ := cache.AddOrUpdateInstance(topic.name, Value(dynType), s, g.serialize(dynType, s));
      if shouldCallCallback {
        return Value(Call(callback.value, topic, dynType, s));
      }
      return Null;
    }

    method OnWriterDiscovered(guid: Guid, name: string, active: bool)
      modifies cache
      ensures Now() == Step(g, old(Now()), OnWriter(guid, name, active))
    {
      cache.OnWriterChanged(guid, name, active);
    }
  }

  /** In every sequential run a sample reaches a callback exactly if its type was added before
      and the selection in force at that moment matches its topic; the callback is the one
      of that selection and the type the last one added. */
  lemma CallsFollowHistory(g: Foreign, ops: seq<Op>, topic: DdsTopic, ty: DynType)
    ensures var x := Streamed(g, ops);
      Wanted(g, x, topic) && x.types[topic.typeName] == ty <==>
        Schema(ops, topic.typeName, ty) && InForce(ops).Value? && Selected(g, InForce(ops).value, topic)
  {
    StateIsHistory(g, ops);
    TypesAreHistory(g, ops, topic.typeName, ty);
  }

  /** A sample of a type never added leaves the whole state alone, the cache included. */
  lemma UnknownTypeIsIgnored(g: Foreign, ops: seq<Op>, topic: DdsTopic, s: Sample)
    requires forall i :: 0 <= i < |ops| && ops[i].AddSchema? ==> ops[i].ty.name != topic.typeName
    ensures Streamed(g, ops + [AddData(topic, s)]) == Streamed(g, ops)
  {
    assert (ops + [AddData(topic, s)])[..|ops|] == ops;
    if topic.typeName in Streamed(g, ops).types {
      TypesAreHistory(g, ops, topic.typeName, Streamed(g, ops).types[topic.typeName]);
      assert false;
    }
  }

  // ----- the streamer as a thread of the protocol

  /** A report that a writer is gone. */
  function GoneWriter(guid: Guid, topic: string): EndpointInfoData {
    EndpointInfoData(EndpointInfo(guid, Writer, topic, "", map[], false), "")
  }

  /** The steps of the protocol that an operation in state `x` consists of. */
  function EventsOf(g: Foreign, x: Streamer, op: Op): seq<Event> {
    match op
    case AddData(topic, s) =>
      if topic.typeName !in x.types then []
      else
        var ty := x.types[topic.typeName];
        [BeginAdd(0, topic.name, Value(ty), s, g.serialize(ty, s)), EndAdd(0)]
    case OnWriter(guid, name, active) =>
      if active then [] else [Discover(GoneWriter(guid, name)), RemoveWriter(Removal(name, guid))]
    case _ => []
  }

  function AsRun(g: Foreign, ops: seq<Op>): seq<Event> {
    if ops == [] then []
    else AsRun(g, ops[..|ops| - 1]) + EventsOf(g, Streamed(g, ops[..|ops| - 1]), ops[|ops| - 1])
  }

  lemma AfterTwo(n: nat, run: seq<Event>, d: Event, e: Event)
    ensures After(n, run + [d, e]) == Next(Next(After(n, run), d), e)
  {
    hide Next, After;
    AfterSnoc(n, run, d);
    AfterSnoc(n, run + [d], e);
    assert run + [d, e] == run + [d] + [e];
  }

  /** A whole add on an idle thread is the add without interference. */
  lemma WholeAdd(s: System, topic: string, ty: DynType, x: Sample, key: string)
    requires |s.threads| == 1 && s.threads[0].Idle?
    ensures var u := Next(Next(s, BeginAdd(0, topic, Value(ty), x, key)), EndAdd(0));
      u.cache == Added(s.cache, topic, ty, x, key) && |u.threads| == 1 && u.threads[0].Idle?
  {
    hide Begun, Committed;
  }

  ghost predicate Matches(s: System, x: Streamer) {
    s.cache == x.cache && |s.threads| == 1 && s.threads[0].Idle?
  }

  lemma OpIsRun(g: Foreign, x: Streamer, run: seq<Event>, op: Op)
    requires Matches(After(1, run), x)
    ensures Matches(After(1, run + EventsOf(g, x, op)), Step(g, x, op))
  {
    hide After, Begun, Committed, WriterGone;
    match op {
      case AddData(topic, y) =>
        if topic.typeName in x.types {
          var ty := x.types[topic.typeName];
          AfterTwo(1, run, BeginAdd(0, topic.name, Value(ty), y, g.serialize(ty, y)), EndAdd(0));
          WholeAdd(After(1, run), topic.name, ty, y, g.serialize(ty, y));
        } else {
          assert run + [] == run;
        }
      case OnWriter(guid, name, active) =>
        if active {
          assert run + [] == run;
        } else {
          AfterTwo(1, run, Discover(GoneWriter(guid, name)), RemoveWriter(Removal(name, guid)));
          WholeRemoval(After(1, run), GoneWriter(guid, name));
        }
      case _ =>
        assert run + [] == run;
    }
  }

  /** A whole report: the database and then the cache. */
  lemma WholeRemoval(s: System, e: EndpointInfoData)
    requires Departs(e)
    ensures var u := Next(Next(s, Discover(e)), RemoveWriter(RemovalOf(e)));
      u == s.(endpoints := s.endpoints[e.info.guid := e], cache := WriterGone(s.cache, e.info.topicName, e.info.guid))
  {
    var r := RemovalOf(e);
    assert r in Announced(s, e).removals;
    assert s.removals + multiset{r} - multiset{r} == s.removals;
  }

  /** Every sequential run of the streamer is a run of the protocol with one thread. */
  lemma {:induction false} StreamerIsProtocol(g: Foreign, ops: seq<Op>)
    ensures Matches(After(1, AsRun(g, ops)), Streamed(g, ops))
  {
    if ops != [] {
      hide After, Step, EventsOf, Matches;
      var n := |ops| - 1;
      StreamerIsProtocol(g, ops[..n]);
      OpIsRun(g, Streamed(g, ops[..n]), AsRun(g, ops[..n]), ops[n]);
    }
  }

  /** So in a sequential run no topic ever exceeds the limit, and a writer is listed exactly if
      its last registered sample is later than its last removal. */
  lemma SequentialCache(g: Foreign, ops: seq<Op>, topic: string, h: Handle, w: Guid)
    ensures |Streamed(g, ops).cache.On(topic)| <= MAX_INSTANCES_PER_TOPIC
    ensures w in Streamed(g, ops).cache.WritersOf(topic, h) <==>
      Publishes(Effects(1, AsRun(g, ops)), topic, h, w)
  {
    hide After, Effects, Publishes;
    StreamerIsProtocol(g, ops);
    InstanceBound(1, AsRun(g, ops), topic);
    NoClear(g, ops);
    WritersArePublishers(1, AsRun(g, ops), topic, h, w);
  }

  lemma {:induction false} NoClear(g: Foreign, ops: seq<Op>)
    ensures Clear !in AsRun(g, ops)
  {
    if ops != [] {
      NoClear(g, ops[..|ops| - 1]);
      assert Clear !in EventsOf(g, Streamed(g, ops[..|ops| - 1]), ops[|ops| - 1]);
    }
  }

  // ----- discovery

  class SpyModel {
    const streamer: DataStreamer
    var endpointDatabase: Database

    constructor (g: Foreign)
      ensures endpointDatabase == map[] && streamer.Now() == FRESH && fresh(streamer) && fresh(streamer.cache)
    {
      streamer := new DataStreamer(g);
      endpointDatabase := map[];
    }

    /** The system of the protocol with these threads and these removals still to come. */
    ghost function Seen(threads: seq<Thread>, removals: multiset<Removal>): System
      reads this, streamer, streamer.cache
    {
      System(streamer.cache.Now(), threads, endpointDatabase, removals)
    }

    /** SpyParticipant::new_endpoint_info_, when no other thread comes between its two calls: the
        database step of the protocol and then, for a writer that is gone, the removal. */
    method NewEndpointInfo(e: EndpointInfoData)
      modifies this, streamer.cache
      ensures forall threads, removals ::
        Seen(threads, removals) ==
        var s := Next(old(Seen(threads, removals)), Discover(e));
        if Departs(e) then Next(s, RemoveWriter(RemovalOf(e))) else s
      ensures streamer.Now() == old(streamer.Now()).(cache := streamer.cache.Now())
    {
      ghost var before, database := streamer.cache.Now(), endpointDatabase;
      AddOrModify(e);
      if e.info.kind == Writer {
        streamer.OnWriterDiscovered(e.info.guid, e.info.topicName, e.info.active);
      }
      forall threads, removals | Departs(e)
        ensures Next(Next(System(before, threads, database, removals), Discover(e)), RemoveWriter(RemovalOf(e))) ==
          System(streamer.cache.Now(), threads, endpointDatabase, removals)
      {
        WholeRemoval(System(before, threads, database, removals), e);
      }
    }

    /** The first call of new_endpoint_info_, a critical section of its own. */
    method AddOrModify(e: EndpointInfoData)
      modifies this`endpointDatabase
      ensures endpointDatabase == old(endpointDatabase)[e.info.guid := e]
    {
      endpointDatabase := endpointDatabase[e.info.guid := e];
    }
  }
}
