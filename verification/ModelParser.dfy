/** The views of the model the tool prints: endpoints grouped by topic, counts and lists of
    the endpoints of a topic. */
module ModelParser {
  import opened Nullables
  import opened CacheState   // Guid
  import opened Endpoints

  /** Foreign functions: how ROS 2 names and guids are written. */
  datatype Naming = Naming(ros2: bool, demangleTopic: string -> string, demangleType: string -> string,
                           text: Guid -> string) {
    function Topic(name: string): string { if ros2 then demangleTopic(name) else name }
    function Type(name: string): string { if ros2 then demangleType(name) else name }
  }

  /** An entry of the endpoint database. */
  datatype Entry = Entry(key: Guid, info: EndpointInfo)

  /** The order in which the database is gone through: every key once. */
  predicate Lists(order: seq<Guid>, db: Database) {
    && (forall i :: 0 <= i < |order| ==> order[i] in db)
    && (forall g :: g in db ==> g in order)
    && (forall i, j :: 0 <= i < j < |order| ==> order[i] != order[j])
  }

  function Entries(order: seq<Guid>, db: Database): (r: seq<Entry>)
    requires forall i :: 0 <= i < |order| ==> order[i] in db
    ensures |r| == |order|
  {
    seq(|order|, i requires 0 <= i < |order| => Entry(order[i], db[order[i]].info))
  }

  // ----- grouping by topic

  datatype EndpointCount = EndpointCount(topicName: string, topicType: string, number: nat)

  predicate Occurs(l: seq<Entry>, topic: string) {
    exists i :: 0 <= i < |l| && l[i].info.topicName == topic
  }

  /** The first entry of every topic, in order. */
  function Firsts(l: seq<Entry>): (f: seq<Entry>)
    ensures |f| <= |l|
  {
    if l == [] then []
    else
      var (init, e) := (l[..|l| - 1], l[|l| - 1]);
      if Occurs(init, e.info.topicName) then Firsts(init) else Firsts(init) + [e]
  }

  /** Number of entries on a topic. */
  function Count(l: seq<Entry>, topic: string): nat {
    if l == [] then 0
    else Count(l[..|l| - 1], topic) + if l[|l| - 1].info.topicName == topic then 1 else 0
  }

  function Grouped(n: Naming, l: seq<Entry>): seq<EndpointCount> {
    seq(|Firsts(l)|, i requires 0 <= i < |Firsts(l)| =>
      var e := Firsts(l)[i].info;
      EndpointCount(n.Topic(e.topicName), n.Type(e.typeName), Count(l, e.topicName)))
  }

  /** The index knows where each topic is, and knows no other topics. */
  ghost predicate Indexes(index: map<string, nat>, l: seq<Entry>) {
    && (forall t :: t in index <==> Occurs(l, t))
    && (forall t :: t in index ==> index[t] < |Firsts(l)| && Firsts(l)[index[t]].info.topicName == t)
    && (forall i :: 0 <= i < |Firsts(l)| ==>
          Firsts(l)[i].info.topicName in index && index[Firsts(l)[i].info.topicName] == i)
  }

  lemma OccursMore(l: seq<Entry>, e: Entry, t: string)
    ensures Occurs(l + [e], t) <==> Occurs(l, t) || e.info.topicName == t
  {
    var m := l + [e];
    if Occurs(l, t) {
      var i :| 0 <= i < |l| && l[i].info.topicName == t;
      assert m[i].info.topicName == t;
    }
    if e.info.topicName == t { assert m[|l|].info.topicName == t; }
  }

  lemma GroupMore(l: seq<Entry>, e: Entry)
    ensures Firsts(l + [e]) == if Occurs(l, e.info.topicName) then Firsts(l) else Firsts(l) + [e]
    ensures forall t :: Count(l + [e], t) == Count(l, t) + if e.info.topicName == t then 1 else 0
  {
    var m := l + [e];
    assert m[..|m| - 1] == l;
  }

  lemma {:induction false} CountOccurs(l: seq<Entry>, t: string)
    ensures Occurs(l, t) <==> Count(l, t) > 0
  {
    if l != [] {
      var n := |l| - 1;
      CountOccurs(l[..n], t);
      OccursMore(l[..n], l[n], t);
      assert l[..n] + [l[n]] == l;
    }
  }

  // ----- properties of the groups

  /** No topic twice, every topic of the list once. */
  lemma {:induction false} FirstsAreTopics(l: seq<Entry>)
    ensures forall t :: Occurs(Firsts(l), t) <==> Occurs(l, t)
    ensures forall i, j :: 0 <= i < j < |Firsts(l)| ==> Firsts(l)[i].info.topicName != Firsts(l)[j].info.topicName
  {
    if l != [] {
      var n := |l| - 1;
      var init, e := l[..n], l[n];
      FirstsAreTopics(init);
      assert init + [e] == l;
      forall t
        ensures Occurs(Firsts(l), t) <==> Occurs(l, t)
      {
        OccursMore(init, e, t);
        OccursMore(Firsts(init), e, t);
      }
      forall i | 0 <= i < |Firsts(init)|
        ensures Occurs(init, Firsts(init)[i].info.topicName)
      {
        assert Occurs(Firsts(init), Firsts(init)[i].info.topicName);
      }
    }
  }

  /** The groups come in the order in which their topics first occur. */
  predicate FirstAt(l: seq<Entry>, e: Entry, p: nat) {
    p < |l| && l[p] == e && forall k :: 0 <= k < p ==> l[k].info.topicName != e.info.topicName
  }

  function Positions(l: seq<Entry>): (r: seq<nat>)
  {
    if l == [] then []
    else
      var n := |l| - 1;
      if Occurs(l[..n], l[n].info.topicName) then Positions(l[..n]) else Positions(l[..n]) + [n]
  }

  lemma {:induction false} FirstSeenOrder(l: seq<Entry>)
    ensures var p := Positions(l);
      && |p| == |Firsts(l)|
      && (forall i, j :: 0 <= i < j < |p| ==> p[i] < p[j])
      && (forall i :: 0 <= i < |p| ==> FirstAt(l, Firsts(l)[i], p[i]))
  {
    if l != [] {
      var n := |l| - 1;
      var init := l[..n];
      FirstSeenOrder(init);
      forall e: Entry, p | FirstAt(init, e, p)
        ensures FirstAt(l, e, p)
      {
      }
      if !Occurs(init, l[n].info.topicName) {
        assert forall k :: 0 <= k < n ==> init[k] == l[k];
        assert FirstAt(l, l[n], n);
      }
    }
  }

  /** Entries of `l` on the topics of `f`. */
  function Sum(l: seq<Entry>, f: seq<Entry>): nat {
    if f == [] then 0 else Sum(l, f[..|f| - 1]) + Count(l, f[|f| - 1].info.topicName)
  }

  predicate Distinct(f: seq<Entry>) {
    forall i, j :: 0 <= i < j < |f| ==> f[i].info.topicName != f[j].info.topicName
  }

  lemma {:induction false} SumMore(l: seq<Entry>, e: Entry, f: seq<Entry>)
    requires Distinct(f)
    ensures Sum(l + [e], f) == Sum(l, f) + if Occurs(f, e.info.topicName) then 1 else 0
  {
    if f != [] {
      var n := |f| - 1;
      SumMore(l, e, f[..n]);
      GroupMore(l, e);
      OccursMore(f[..n], f[n], e.info.topicName);
      assert f[..n] + [f[n]] == f;
      if f[n].info.topicName == e.info.topicName {
        assert !Occurs(f[..n], e.info.topicName);
      }
    }
  }

  /** The numbers of all groups together are the number of entries: every endpoint is counted
      once. */
  lemma {:induction false} NumbersAddUp(l: seq<Entry>)
    ensures Sum(l, Firsts(l)) == |l|
  {
    if l != [] {
      var n := |l| - 1;
      var init, e := l[..n], l[n];
      assert init + [e] == l;
      NumbersAddUp(init);
      FirstsAreTopics(init);
      SumMore(init, e, Firsts(init));
      GroupMore(init, e);
      if !Occurs(init, e.info.topicName) {
        var f := Firsts(init);
        assert (f + [e])[..|f|] == f;
        CountOccurs(init, e.info.topicName);
      }
    }
  }

  /** The sum of the numbers of a vector of groups. */
  function Numbers(v: seq<EndpointCount>): nat {
    if v == [] then 0 else Numbers(v[..|v| - 1]) + v[|v| - 1].number
  }

  lemma {:induction false} NumbersAreSum(n: Naming, l: seq<Entry>, k: nat)
    requires k <= |Firsts(l)|
    ensures Numbers(Grouped(n, l)[..k]) == Sum(l, Firsts(l)[..k])
  {
    if k > 0 {
      NumbersAreSum(n, l, k - 1);
      assert Grouped(n, l)[..k][..k - 1] == Grouped(n, l)[..k - 1];
      assert Firsts(l)[..k][..k - 1] == Firsts(l)[..k - 1];
    }
  }

  // ----- add_endpoint_to_vector

  /** A vector of groups with its index. */
  class EndpointVector {
    var alreadyEndpointsIndex: map<string, nat>
    var endpoints: seq<EndpointCount>

    /** The groups of the entries added so far. */
    ghost predicate Holds(n: Naming, l: seq<Entry>)
      reads this
    {
      Indexes(alreadyEndpointsIndex, l) && endpoints == Grouped(n, l)
    }

    constructor ()
      ensures alreadyEndpointsIndex == map[] && endpoints == []
    {
      alreadyEndpointsIndex, endpoints := map[], [];
    }

    method AddEndpoint(n: Naming, endpoint: Entry, ghost l: seq<Entry>)
      requires Holds(n, l)
      modifies this
      ensures Holds(n, l + [endpoint])
    {
      hide Indexes, Grouped;
      var topic := endpoint.info.topicName;
      IndexFinds(n, l, alreadyEndpointsIndex, topic);
      if topic !in alreadyEndpointsIndex {
        NewTopic(n, l, alreadyEndpointsIndex, endpoint);
        alreadyEndpointsIndex := alreadyEndpointsIndex[topic := |endpoints|];
        endpoints := endpoints + [EndpointCount(n.Topic(topic), n.Type(endpoint.info.typeName), 1)];
      } else {
        KnownTopic(n, l, alreadyEndpointsIndex, endpoint);
        var i := alreadyEndpointsIndex[topic];
        endpoints := endpoints[i := endpoints[i].(number := endpoints[i].number + 1)];
      }
    }
  }

  lemma IndexFinds(n: Naming, l: seq<Entry>, index: map<string, nat>, topic: string)
    requires Indexes(index, l)
    ensures |Grouped(n, l)| == |Firsts(l)| && (topic in index <==> Occurs(l, topic))
    ensures topic in index ==> index[topic] < |Grouped(n, l)|
  {
  }

  lemma NewTopic(n: Naming, l: seq<Entry>, index: map<string, nat>, e: Entry)
    requires Indexes(index, l) && !Occurs(l, e.info.topicName)
    ensures Indexes(index[e.info.topicName := |Firsts(l)|], l + [e])
    ensures Grouped(n, l + [e]) ==
      Grouped(n, l) + [EndpointCount(n.Topic(e.info.topicName), n.Type(e.info.typeName), 1)]
  {
    IndexNew(l, index, e);
    TopicsOccur(l, index);
    GroupedNew(n, l, e);
  }

  lemma GroupedNew(n: Naming, l: seq<Entry>, e: Entry)
    requires !Occurs(l, e.info.topicName)
    requires forall i :: 0 <= i < |Firsts(l)| ==> Occurs(l, Firsts(l)[i].info.topicName)
    ensures Grouped(n, l + [e]) ==
      Grouped(n, l) + [EndpointCount(n.Topic(e.info.topicName), n.Type(e.info.typeName), 1)]
  {
    hide Occurs, Firsts, Count, Naming.Topic, Naming.Type;
    GroupMore(l, e);
    CountOccurs(l, e.info.topicName);
    assert forall i :: 0 <= i < |Firsts(l)| ==> Grouped(n, l + [e])[i] == Grouped(n, l)[i];
  }

  lemma TopicsOccur(l: seq<Entry>, index: map<string, nat>)
    requires Indexes(index, l)
    ensures forall i :: 0 <= i < |Firsts(l)| ==> Occurs(l, Firsts(l)[i].info.topicName)
  {
  }

  lemma IndexNew(l: seq<Entry>, index: map<string, nat>, e: Entry)
    requires Indexes(index, l) && !Occurs(l, e.info.topicName)
    ensures Indexes(index[e.info.topicName := |Firsts(l)|], l + [e])
  {
    GroupMore(l, e);
    TopicsOccur(l, index);
    hide Occurs, Firsts, Count;
    forall t
      ensures Occurs(l + [e], t) <==> Occurs(l, t) || e.info.topicName == t
    {
      OccursMore(l, e, t);
    }
  }

  lemma KnownTopic(n: Naming, l: seq<Entry>, index: map<string, nat>, e: Entry)
    requires Indexes(index, l) && Occurs(l, e.info.topicName)
    ensures Indexes(index, l + [e])
    ensures var i, g := index[e.info.topicName], Grouped(n, l);
      Grouped(n, l + [e]) == g[i := g[i].(number := g[i].number + 1)]
  {
    GroupMore(l, e);
    IndexKept(index, l, e);
    hide Occurs, Firsts, Count, Naming.Topic, Naming.Type;
  }

  lemma IndexKept(index: map<string, nat>, l: seq<Entry>, e: Entry)
    requires Indexes(index, l) && Occurs(l, e.info.topicName)
    ensures Indexes(index, l + [e])
  {
    GroupMore(l, e);
    forall t
      ensures Occurs(l + [e], t) <==> Occurs(l, t)
    {
      OccursMore(l, e, t);
    }
  }

  // ----- participants(model, guid)

  predicate Belongs(e: Entry, prefix: nat, kind: EndpointKind) {
    e.info.guid.prefix == prefix && e.info.kind == kind
  }

  function If(b: bool, e: Entry): seq<Entry> { if b then [e] else [] }

  /** The entries of one participant and kind. */
  function OfParticipant(l: seq<Entry>, prefix: nat, kind: EndpointKind): seq<Entry> {
    if l == [] then []
    else
      var e := l[|l| - 1];
      OfParticipant(l[..|l| - 1], prefix, kind) + If(Belongs(e, prefix, kind), e)
  }

  datatype ComplexParticipantData = ComplexParticipantData(guid: Nullable<Guid>, name: string,
                                                           writers: seq<EndpointCount>, readers: seq<EndpointCount>)

  /** `valid` is Guid::is_valid. */
  method Participants(n: Naming, valid: Guid -> bool, participants: map<Guid, string>, db: Database,
                      order: seq<Guid>, guid: Guid)
    returns (result: ComplexParticipantData)
    requires Lists(order, db)
    ensures guid in participants && valid(guid) ==>
      result == ComplexParticipantData(Value(guid), participants[guid],
        Grouped(n, OfParticipant(Entries(order, db), guid.prefix, Writer)),
        Grouped(n, OfParticipant(Entries(order, db), guid.prefix, Reader)))
    ensures guid !in participants || !valid(guid) ==> result.writers == result.readers == []
    ensures guid !in participants ==> result.guid == Null
  {
    result := ComplexParticipantData(Null, "", [], []);
    if guid in participants {
      result := result.(guid := Value(guid), name := participants[guid]);
    }
    if result.guid.Null? || !valid(result.guid.value) {
      return;
    }
    hide Grouped, Indexes, OfParticipant, Lists;
    var prefix := result.guid.value.prefix;
    var writers := new EndpointVector();
    var readers := new EndpointVector();
    ghost var all := Entries(order, db);
    NoGroups(n, prefix);
    OrderInDatabase(order, db);
    for i := 0 to |order|
      invariant fresh(writers) && fresh(readers) && writers != readers
      invariant writers.Holds(n, OfParticipant(all[..i], prefix, Writer))
      invariant readers.Holds(n, OfParticipant(all[..i], prefix, Reader))
    {
      var endpoint := Entry(order[i], db[order[i]].info);
      OfParticipantMore(all, i, prefix, Writer);
      OfParticipantMore(all, i, prefix, Reader);
      if endpoint.info.guid.prefix == prefix {
        if endpoint.info.kind == Reader {
          readers.AddEndpoint(n, endpoint, OfParticipant(all[..i], prefix, Reader));
        } else if endpoint.info.kind == Writer {
          writers.AddEndpoint(n, endpoint, OfParticipant(all[..i], prefix, Writer));
        }
      }
    }
    assert all[..|all|] == all;
    result := result.(writers := writers.endpoints, readers := readers.endpoints);
  }

  lemma OrderInDatabase(order: seq<Guid>, db: Database)
    requires Lists(order, db)
    ensures forall i :: 0 <= i < |order| ==> order[i] in db
  {
  }

  lemma NoGroups(n: Naming, prefix: nat)
    ensures Indexes(map[], []) && Grouped(n, []) == []
    ensures OfParticipant([], prefix, Writer) == [] && OfParticipant([], prefix, Reader) == []
  {
  }

  lemma OfParticipantMore(l: seq<Entry>, i: nat, prefix: nat, kind: EndpointKind)
    requires i < |l|
    ensures OfParticipant(l[..i + 1], prefix, kind) ==
      if Belongs(l[i], prefix, kind) then OfParticipant(l[..i], prefix, kind) + [l[i]]
        else OfParticipant(l[..i], prefix, kind)
  {
    assert l[..i + 1][..i] == l[..i];
  }

  /** The numbers shown for a participant add up to its endpoints of that kind, one group per
      topic. */
  lemma ParticipantNumbers(n: Naming, l: seq<Entry>, prefix: nat, kind: EndpointKind)
    ensures var own := OfParticipant(l, prefix, kind);
      && Numbers(Grouped(n, own)) == |own|
      && |own| == |Places(l, prefix, kind)|
  {
    var own := OfParticipant(l, prefix, kind);
    NumbersAreSum(n, own, |Firsts(own)|);
    NumbersAddUp(own);
    assert Grouped(n, own)[..|Firsts(own)|] == Grouped(n, own);
    assert Firsts(own)[..|Firsts(own)|] == Firsts(own);
    OwnSize(l, prefix, kind);
  }

  ghost function Places(l: seq<Entry>, prefix: nat, kind: EndpointKind): set<nat> {
    set i | 0 <= i < |l| && Belongs(l[i], prefix, kind)
  }

  lemma PlacesMore(l: seq<Entry>, prefix: nat, kind: EndpointKind)
    requires l != []
    ensures var n := |l| - 1;
      && n !in Places(l[..n], prefix, kind)
      && Places(l, prefix, kind) == Places(l[..n], prefix, kind) + if Belongs(l[n], prefix, kind) then {n} else {}
  {
  }

  lemma {:induction false} OwnSize(l: seq<Entry>, prefix: nat, kind: EndpointKind)
    ensures |OfParticipant(l, prefix, kind)| == |Places(l, prefix, kind)|
  {
    if l == [] {
      assert Places(l, prefix, kind) == {};
    } else {
      hide Places, Belongs;
      OwnSize(l[..|l| - 1], prefix, kind);
      PlacesMore(l, prefix, kind);
    }
  }

  // ----- topics

  predicate Listed(e: Entry, topic: string, kind: EndpointKind) {
    e.info.active && e.info.topicName == topic && e.info.kind == kind
  }

  /** The active entries of a kind on a topic. */
  function OnTopic(l: seq<Entry>, topic: string, kind: EndpointKind): seq<Entry> {
    if l == [] then []
    else
      var e := l[|l| - 1];
      OnTopic(l[..|l| - 1], topic, kind) + If(Listed(e, topic, kind), e)
  }

  lemma OnTopicMore(l: seq<Entry>, i: nat, topic: string, kind: EndpointKind)
    requires i < |l|
    ensures OnTopic(l[..i + 1], topic, kind) ==
      if Listed(l[i], topic, kind) then OnTopic(l[..i], topic, kind) + [l[i]] else OnTopic(l[..i], topic, kind)
  {
    assert l[..i + 1][..i] == l[..i];
  }

  /** The counting loop of simple_topic_data(). */
  method SimpleTopicData(db: Database, order: seq<Guid>, topic: string) returns (datawriters: nat, datareaders: nat)
    requires Lists(order, db)
    ensures datawriters == |OnTopic(Entries(order, db), topic, Writer)|
    ensures datareaders == |OnTopic(Entries(order, db), topic, Reader)|
  {
    hide OnTopic;
    ghost var all := Entries(order, db);
    datawriters, datareaders := 0, 0;
    NothingOnTopic(topic);
    for i := 0 to |order|
      invariant datawriters == |OnTopic(all[..i], topic, Writer)| && datareaders == |OnTopic(all[..i], topic, Reader)|
    {
      var info := db[order[i]].info;
      OnTopicMore(all, i, topic, Writer);
      OnTopicMore(all, i, topic, Reader);
      if info.active && info.topicName == topic {
        if info.kind == Reader {
          datareaders := datareaders + 1;
        }
        if info.kind == Writer {
          datawriters := datawriters + 1;
        }
      }
    }
    assert all[..|all|] == all;
  }

  lemma NothingOnTopic(topic: string)
    ensures OnTopic([], topic, Writer) == [] && OnTopic([], topic, Reader) == []
  {
  }

  datatype TopicEndpoint = TopicEndpoint(guid: Guid, partition: string)

  /** The partition set an endpoint is shown with: the one stored under its own guid. */
  function Shown(n: Naming, e: Entry): TopicEndpoint {
    var key := n.text(e.key);
    TopicEndpoint(e.key, if key in e.info.specificPartitions then e.info.specificPartitions[key] else "")
  }

  function AllShown(n: Naming, l: seq<Entry>): (r: seq<TopicEndpoint>)
    ensures |r| == |l|
  {
    seq(|l|, i requires 0 <= i < |l| => Shown(n, l[i]))
  }

  /** The listing loop of complex_topic_data(). */
  method ComplexTopicData(n: Naming, db: Database, order: seq<Guid>, topic: string)
    returns (datawriters: seq<TopicEndpoint>, datareaders: seq<TopicEndpoint>)
    requires Lists(order, db)
    ensures datawriters == AllShown(n, OnTopic(Entries(order, db), topic, Writer))
    ensures datareaders == AllShown(n, OnTopic(Entries(order, db), topic, Reader))
  {
    hide OnTopic;
    ghost var all := Entries(order, db);
    datawriters, datareaders := [], [];
    NothingOnTopic(topic);
    for i := 0 to |order|
      invariant datawriters == AllShown(n, OnTopic(all[..i], topic, Writer))
      invariant datareaders == AllShown(n, OnTopic(all[..i], topic, Reader))
    {
      var e := Entry(order[i], db[order[i]].info);
      OnTopicMore(all, i, topic, Writer);
      OnTopicMore(all, i, topic, Reader);
      if e.info.active && topic == e.info.topicName {
        var key := n.text(e.key);
        var partition := "";
        if key in e.info.specificPartitions {
          partition := e.info.specificPartitions[key];
        }
        if e.info.kind == Reader {
          datareaders := datareaders + [TopicEndpoint(e.key, partition)];
        }
        if e.info.kind == Writer {
          datawriters := datawriters + [TopicEndpoint(e.key, partition)];
        }
      }
    }
    assert all[..|all|] == all;
  }

  predicate Passes(match_: Matcher, filters: set<string>, e: Entry, topic: string, kind: EndpointKind) {
    Active(match_, filters, e.info.specificPartitions) && e.info.topicName == topic && e.info.kind == kind
  }

  /** Guids of the entries of a kind on a topic whose partitions pass the filter. */
  function Passing(match_: Matcher, filters: set<string>, l: seq<Entry>, topic: string, kind: EndpointKind): seq<Guid> {
    if l == [] then []
    else
      var e := l[|l| - 1];
      Passing(match_, filters, l[..|l| - 1], topic, kind) +
      if Passes(match_, filters, e, topic, kind) then [e.key] else []
  }

  function Keys(l: seq<Entry>): (r: seq<Guid>)
    ensures |r| == |l|
  {
    seq(|l|, i requires 0 <= i < |l| => l[i].key)
  }

  lemma KeysMore(l: seq<Entry>, e: Entry)
    ensures Keys(l + [e]) == Keys(l) + [e.key]
  {
  }

  lemma PassingMore(match_: Matcher, filters: set<string>, l: seq<Entry>, i: nat, topic: string, kind: EndpointKind)
    requires i < |l|
    ensures Passing(match_, filters, l[..i + 1], topic, kind) ==
      if Passes(match_, filters, l[i], topic, kind) then Passing(match_, filters, l[..i], topic, kind) + [l[i].key]
      else Passing(match_, filters, l[..i], topic, kind)
  {
    assert l[..i + 1][..i] == l[..i];
  }

  /** `u` is `l` after the filter has been applied. */
  ghost predicate Filtered(match_: Matcher, filters: set<string>, l: seq<Entry>, u: seq<Entry>) {
    && |l| == |u|
    && forall i :: 0 <= i < |l| ==>
      u[i] == Entry(l[i].key, l[i].info.(active := Active(match_, filters, l[i].info.specificPartitions)))
  }

  lemma {:induction false} FilteredKeys(match_: Matcher, filters: set<string>, l: seq<Entry>, u: seq<Entry>, i: nat,
                                        topic: string, kind: EndpointKind)
    requires Filtered(match_, filters, l, u) && i <= |l|
    ensures Keys(OnTopic(u[..i], topic, kind)) == Passing(match_, filters, l[..i], topic, kind)
  {
    if i > 0 {
      FilteredKeys(match_, filters, l, u, i - 1, topic, kind);
      PassingMore(match_, filters, l, i - 1, topic, kind);
      OnTopicMore(u, i - 1, topic, kind);
      KeysMore(OnTopic(u[..i - 1], topic, kind), u[i - 1]);
      hide Passing, OnTopic, Active, Keys;
    }
  }

  /** After update_endpoints() the views show exactly the endpoints whose partitions pass the
      filter, whatever was active before. */
  lemma ViewsFollowFilter(match_: Matcher, filters: set<string>, db: Database, order: seq<Guid>, topic: string,
                          kind: EndpointKind)
    requires Lists(order, db)
    ensures Lists(order, Updated(match_, filters, db))
    ensures Keys(OnTopic(Entries(order, Updated(match_, filters, db)), topic, kind)) ==
      Passing(match_, filters, Entries(order, db), topic, kind)
  {
    hide Active, OnTopic, Passing;
    var l, u := Entries(order, db), Entries(order, Updated(match_, filters, db));
    FilteredKeys(match_, filters, l, u, |l|, topic, kind);
    assert l[..|l|] == l && u[..|u|] == u;
  }
}
