/** What the views of the model show, told by selecting from the database. */
module ViewMeaning {
  import opened Endpoints
  import opened ModelParser

  /** The entries that are wanted, in order. */
  function Select(l: seq<Entry>, wanted: EndpointInfo -> bool): seq<Entry> {
    if l == [] then []
    else Select(l[..|l| - 1], wanted) + if wanted(l[|l| - 1].info) then [l[|l| - 1]] else []
  }

  /** The endpoints of a participant are those with its guid prefix. */
  lemma {:induction false} ParticipantsOwn(l: seq<Entry>, prefix: nat, kind: EndpointKind)
    ensures OfParticipant(l, prefix, kind) ==
      Select(l, (e: EndpointInfo) => e.guid.prefix == prefix && e.kind == kind)
  {
    if l != [] { ParticipantsOwn(l[..|l| - 1], prefix, kind); }
  }

  /** The endpoints of a topic are the active ones with its name. */
  lemma {:induction false} TopicsOwn(l: seq<Entry>, topic: string, kind: EndpointKind)
    ensures OnTopic(l, topic, kind) ==
      Select(l, (e: EndpointInfo) => e.active && e.topicName == topic && e.kind == kind)
  {
    if l != [] { TopicsOwn(l[..|l| - 1], topic, kind); }
  }

  lemma {:induction false} CountIs(l: seq<Entry>, topic: string)
    ensures Count(l, topic) == |Select(l, (e: EndpointInfo) => e.topicName == topic)|
  {
    if l != [] { CountIs(l[..|l| - 1], topic); }
  }

  /** A group has the names of the first endpoint on its topic, demangled in ROS 2 mode, and the
      number of endpoints on that topic. */
  lemma GroupIs(n: Naming, l: seq<Entry>, i: nat)
    requires i < |Grouped(n, l)|
    ensures |Grouped(n, l)| == |Firsts(l)|
    ensures var e := Firsts(l)[i].info;
      Grouped(n, l)[i] == EndpointCount(
        if n.ros2 then n.demangleTopic(e.topicName) else e.topicName,
        if n.ros2 then n.demangleType(e.typeName) else e.typeName,
        |Select(l, (x: EndpointInfo) => x.topicName == e.topicName)|)
  {
    CountIs(l, Firsts(l)[i].info.topicName);
  }

  /** An endpoint is shown with the partition stored under the text of its own guid, or with none. */
  lemma ShownIs(n: Naming, l: seq<Entry>, i: nat)
    requires i < |l|
    ensures var e, s := l[i], AllShown(n, l)[i];
      && s.guid == e.key
      && (n.text(e.key) in e.info.specificPartitions ==> s.partition == e.info.specificPartitions[n.text(e.key)])
      && (n.text(e.key) !in e.info.specificPartitions ==> s.partition == "")
  {
  }
}
