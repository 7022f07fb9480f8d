/** The cache of keyed instances: for each topic, the instances seen and the writers that
    publish them.  Every lock section is one method, proved against a function on values. */
module CacheState {
  import opened Nullables

  type Handle = nat

  datatype Guid = Guid(prefix: nat, entity: nat)

  /** What asking a dynamic type for its key members gives: their names (none when the type
      reports an error), or an exception. */
  datatype KeyQuery = Names(names: seq<string>) | Threw

  datatype DynType = DynType(name: string, keys: KeyQuery)

  datatype Sample = Sample(handle: Handle, writer: Guid, payload: seq<nat>)

  datatype InstanceInfo = InstanceInfo(key: string, writers: set<Guid>)

  type Instances = map<Handle, InstanceInfo>

  const MAX_INSTANCES_PER_TOPIC := 1000

  /** The three containers. */
  datatype Cache = Cache(instances: map<string, Instances>, keyFields: map<string, seq<string>>, warned: set<string>) {

    /** The instances of a topic; a topic never touched has none. */
    function On(topic: string): Instances {
      if topic in instances then instances[topic] else map[]
    }

    function KeysOf(topic: string): seq<string> {
      if topic in keyFields then keyFields[topic] else []
    }

    function WritersOf(topic: string, h: Handle): set<Guid> {
      if h in On(topic) then On(topic)[h].writers else {}
    }
  }

  const EMPTY := Cache(map[], map[], {})

  /** How an add leaves its first lock section: answered, or on its way to serialise the key. */
  datatype Verdict = Answered(result: bool) | Serialise

  // ----- the lock sections as functions

  /** Key names are looked up until a non-empty list is known. */
  function Extracted(c: Cache, topic: string, ty: DynType): (r: Cache) {
    if c.KeysOf(topic) == [] && ty.keys.Names? then c.(keyFields := c.keyFields[topic := ty.keys.names]) else c
  }

  function Begun(c: Cache, topic: string, ty: Nullable<DynType>, s: Sample): (r: (Cache, Verdict)) {
    if ty == Null then (c, Answered(false))
    else
      var d := Extracted(c, topic, ty.value);
      if d.KeysOf(topic) == [] then (d.(warned := d.warned + {topic}), Answered(false))
      else
        var m := d.On(topic);
        var e := if topic in d.instances then d else d.(instances := d.instances[topic := map[]]);
        if s.handle in m && m[s.handle].key != ""
          then (Committed(e, topic, s.handle, s.writer, m[s.handle].key), Answered(true))
        else if s.handle !in m && |m| >= MAX_INSTANCES_PER_TOPIC then (e, Answered(false))
        else (e, Serialise)
  }

  /** The instance carries `key`, and `writer` is among its writers. */
  function Committed(c: Cache, topic: string, h: Handle, writer: Guid, key: string): (r: Cache) {
    c.(instances := c.instances[topic := c.On(topic)[h := InstanceInfo(key, c.WritersOf(topic, h) + {writer})]])
  }

  /** `writer` is no writer of any instance of the topic, and instances without a writer
      are gone. */
  function Without(m: Instances, writer: Guid): (r: Instances) {
    map h | h in m && m[h].writers - {writer} != {} :: InstanceInfo(m[h].key, m[h].writers - {writer})
  }

  function WriterGone(c: Cache, topic: string, writer: Guid): (r: Cache) {
    if topic in c.instances then c.(instances := c.instances[topic := Without(c.instances[topic], writer)]) else c
  }

  function ActiveKeys(m: Instances): (r: set<string>) {
    set h | h in m && m[h].writers != {} :: m[h].key
  }

  // ----- the class

  class InstanceCache {
    var instancesByTopic: map<string, Instances>
    var keyFieldsCache: map<string, seq<string>>
    var noKeyMetadataWarnedTopics: set<string>

    function Now(): Cache
      reads this
    {
      Cache(instancesByTopic, keyFieldsCache, noKeyMetadataWarnedTopics)
    }

    constructor ()
      ensures Now() == EMPTY
    {
      instancesByTopic, keyFieldsCache, noKeyMetadataWarnedTopics := map[], map[], {};
    }

    method ExtractKeyFieldNames(topic: string, ty: DynType)
      modifies this`keyFieldsCache
      ensures Now() == Extracted(old(Now()), topic, ty)
    {
      if topic in keyFieldsCache && keyFieldsCache[topic] != [] {
        return;
      }
      if ty.keys.Names? {
        keyFieldsCache := keyFieldsCache[topic := ty.keys.names];
      }
    }

    /** First lock section of add_or_update_instance. */
    method BeginAdd(topic: string, ty: Nullable<DynType>, s: Sample) returns (v: Verdict)
      modifies this
      ensures (Now(), v) == Begun(old(Now()), topic, ty, s)
    {
      if ty == Null {
        return Answered(false);
      }
      ExtractKeyFieldNames(topic, ty.value);
      if topic !in keyFieldsCache || keyFieldsCache[topic] == [] {
        noKeyMetadataWarnedTopics := noKeyMetadataWarnedTopics + {topic};
        return Answered(false);
      }
      if topic !in instancesByTopic {
        instancesByTopic := instancesByTopic[topic := map[]];
      }
      var m := instancesByTopic[topic];
      var cached := s.handle in m && m[s.handle].key != "";
      if cached {
        var info := m[s.handle];
        instancesByTopic := instancesByTopic[topic := m[s.handle := info.(writers := info.writers + {s.writer})]];
        assert Now().instances == Begun(old(Now()), topic, ty, s).0.instances;
        return Answered(true);
      }
      if |m| >= MAX_INSTANCES_PER_TOPIC && s.handle !in m {
        return Answered(false);
      }
      return Serialise;
    }

    /** Second lock section: operator[] creates the instance if it is (again) missing. */
    method CommitAdd(topic: string, s: Sample, key: string)
      requires topic in instancesByTopic
      modifies this`instancesByTopic
      ensures Now() == Committed(old(Now()), topic, s.handle, s.writer, key)
    {
      var m := instancesByTopic[topic];
      var info := if s.handle in m then m[s.handle] else InstanceInfo("", {});
      info := info.(key := key);
      info := info.(writers := info.writers + {s.writer});
      instancesByTopic := instancesByTopic[topic := m[s.handle := info]];
    }

    /** add_or_update_instance when no other thread runs: `key` is the serialised key, empty
        if serialising fails. */
    method AddOrUpdateInstance(topic: string, ty: Nullable<DynType>, s: Sample, key: string) returns (r: bool)
      modifies this
      ensures var (c, v) := Begun(old(Now()), topic, ty, s);
        if v.Answered? then Now() == c && r == v.result
        else if key == "" then Now() == c && !r
        else Now() == Committed(c, topic, s.handle, s.writer, key) && r
    {
      var v := BeginAdd(topic, ty, s);
      if v.Answered? {
        return v.result;
      }
      if key == "" {
        return false;
      }
      CommitAdd(topic, s, key);
      return true;
    }

    /** Iterates over the instances of the topic, erasing while it goes. */
    method OnWriterChanged(writer: Guid, topic: string, active: bool)
      modifies this`instancesByTopic
      ensures Now() == if active then old(Now()) else WriterGone(old(Now()), topic, writer)
    {
      if active || topic !in instancesByTopic {
        return;
      }
      ghost var was := instancesByTopic[topic];
      var todo := instancesByTopic[topic].Keys;
      while todo != {}
        invariant todo <= was.Keys
        invariant topic in instancesByTopic &&
          instancesByTopic == old(instancesByTopic)[topic := instancesByTopic[topic]]
        invariant var m := instancesByTopic[topic];
          && m.Keys == todo + Without(was, writer).Keys
          && (forall h :: h in todo ==> m[h] == was[h])
          && (forall h :: h in Without(was, writer) && h !in todo ==> m[h] == Without(was, writer)[h])
        decreases todo
      {
        var h :| h in todo;
        var m := instancesByTopic[topic];
        var info := m[h].(writers := m[h].writers - {writer});
        if info.writers == {} {
          instancesByTopic := instancesByTopic[topic := m - {h}];
        } else {
          instancesByTopic := instancesByTopic[topic := m[h := info]];
        }
        todo := todo - {h};
      }
      assert instancesByTopic[topic] == Without(was, writer);
    }

    method GetActiveInstances(topic: string) returns (r: set<string>)
      ensures r == ActiveKeys(Now().On(topic))
    {
      r := {};
      if topic !in instancesByTopic {
        return;
      }
      var m := instancesByTopic[topic];
      var todo := m.Keys;
      while todo != {}
        invariant todo <= m.Keys
        invariant r == set h | h in m && h !in todo && m[h].writers != {} :: m[h].key
        decreases todo
      {
        var h :| h in todo;
        if m[h].writers != {} {
          r := r + {m[h].key};
        }
        todo := todo - {h};
      }
    }

    method GetKeyFields(topic: string) returns (r: seq<string>)
      ensures r == Now().KeysOf(topic)
    {
      r := if topic in keyFieldsCache then keyFieldsCache[topic] else [];
    }

    method Clear()
      modifies this
      ensures Now() == EMPTY
    {
      instancesByTopic, keyFieldsCache, noKeyMetadataWarnedTopics := map[], map[], {};
    }
  }
}
