/** The endpoint database and the partition filter that switches its endpoints on and off. */
module Endpoints {
  import opened CacheState   // Guid

  datatype EndpointKind = Invalid | Writer | Reader

  datatype EndpointInfo = EndpointInfo(guid: Guid, kind: EndpointKind, topicName: string, typeName: string,
                                       specificPartitions: map<string, string>, active: bool)

  datatype EndpointInfoData = EndpointInfoData(info: EndpointInfo, typeIdl: string)

  type Database = map<Guid, EndpointInfoData>

  /** utils::match_pattern. */
  type Matcher = (string, string) -> bool

  const BAR := '|'

  // ----- the partitions of an endpoint

  /** The pieces of `s` between bars; a text without a bar is one piece, even if empty. */
  function Split(s: string): (r: seq<string>)
    ensures r != []
  {
    if s == [] then [""]
    else if s[0] == BAR then [""] + Split(s[1..])
    else
      var rest := Split(s[1..]);
      [[s[0]] + rest[0]] + rest[1..]
  }

  function JoinBars(parts: seq<string>): string {
    if parts == [] then "" else if |parts| == 1 then parts[0] else parts[0] + [BAR] + JoinBars(parts[1..])
  }

  predicate BarFree(parts: seq<string>) {
    forall i :: 0 <= i < |parts| ==> BAR !in parts[i]
  }

  /** Splitting is the inverse of joining: the pieces are the only bar-free texts that give
      `s` when joined by bars. */
  lemma {:induction false} SplitJoins(s: string)
    ensures BarFree(Split(s)) && JoinBars(Split(s)) == s
  {
    if s != [] {
      SplitJoins(s[1..]);
      var rest := Split(s[1..]);
      if s[0] == BAR {
        assert ([""] + rest)[1..] == rest;
      } else {
        var r := [[s[0]] + rest[0]] + rest[1..];
        assert r[1..] == rest[1..];
        assert JoinBars(r) == [s[0]] + JoinBars(rest);
      }
    }
  }

  lemma {:induction false} JoinSplits(parts: seq<string>)
    requires parts != [] && BarFree(parts)
    ensures Split(JoinBars(parts)) == parts
    decreases |parts|, |parts[0]|
  {
    var s := JoinBars(parts);
    if parts[0] == [] {
      if |parts| > 1 {
        JoinSplits(parts[1..]);
        assert s == [BAR] + JoinBars(parts[1..]);
        assert s[1..] == JoinBars(parts[1..]);
      }
    } else {
      var shorter := [parts[0][1..]] + parts[1..];
      assert shorter[1..] == parts[1..];
      JoinSplits(shorter);
      assert s[1..] == JoinBars(shorter);
      assert s[0] == parts[0][0] != BAR;
      assert [s[0]] + parts[0][1..] == parts[0];
    }
  }

  // ----- which endpoints are active

  predicate MatchesFilter(match_: Matcher, filters: set<string>, partition: string) {
    exists f :: f in filters && (match_(f, partition) || match_(partition, f))
  }

  /** Some piece of `s` matches. */
  predicate AnyPiece(match_: Matcher, filters: set<string>, s: string) {
    exists p :: p in Split(s) && MatchesFilter(match_, filters, p)
  }

  predicate Active(match_: Matcher, filters: set<string>, partitions: map<string, string>) {
    filters == {} || exists k :: k in partitions && AnyPiece(match_, filters, partitions[k])
  }

  function Updated(match_: Matcher, filters: set<string>, db: Database): Database {
    map g | g in db :: SetActive(db[g], Active(match_, filters, db[g].info.specificPartitions))
  }

  function SetActive(e: EndpointInfoData, active: bool): EndpointInfoData {
    e.(info := e.info.(active := active))
  }

  /** Setting a filter forgets the filters set before; without a filter everything is active. */
  lemma LastFilterWins(match_: Matcher, before: set<string>, filters: set<string>, db: Database)
    ensures Updated(match_, filters, Updated(match_, before, db)) == Updated(match_, filters, db)
    ensures forall g :: g in db ==> Updated(match_, {}, Updated(match_, before, db))[g].info.active
  {
    var once := Updated(match_, before, db);
    assert forall g :: g in db ==> g in once && once[g].info.specificPartitions == db[g].info.specificPartitions;
  }

  /** A filter matches a piece in either direction: as the pattern or as the text. */
  ghost predicate PassesBy(match_: Matcher, partition: string, pieces: seq<string>, i: nat, filter: string) {
    && i < |pieces| && JoinBars(pieces) == partition && (forall k :: 0 <= k < |pieces| ==> '|' !in pieces[k])
    && (match_(filter, pieces[i]) || match_(pieces[i], filter))
  }

  /** Some partition set of the endpoint, cut at its bars, has a piece that some filter matches. */
  ghost predicate PassesFilters(match_: Matcher, filters: set<string>, partitions: map<string, string>) {
    exists k, pieces, i: nat, f ::
      k in partitions && f in filters && PassesBy(match_, partitions[k], pieces, i, f)
  }

  lemma ActiveIs(match_: Matcher, filters: set<string>, partitions: map<string, string>)
    ensures Active(match_, filters, partitions) <==> filters == {} || PassesFilters(match_, filters, partitions)
  {
    if filters != {} && Active(match_, filters, partitions) {
      var k :| k in partitions && AnyPiece(match_, filters, partitions[k]);
      var p :| p in Split(partitions[k]) && MatchesFilter(match_, filters, p);
      var f :| f in filters && (match_(f, p) || match_(p, f));
      SplitJoins(partitions[k]);
      var i: nat :| i < |Split(partitions[k])| && Split(partitions[k])[i] == p;
      assert PassesBy(match_, partitions[k], Split(partitions[k]), i, f);
    }
    if PassesFilters(match_, filters, partitions) {
      var k, pieces, i: nat, f :| k in partitions && f in filters && PassesBy(match_, partitions[k], pieces, i, f);
      JoinSplits(pieces);
      assert pieces[i] in Split(partitions[k]) && MatchesFilter(match_, filters, pieces[i]);
    }
  }

  /** After an update every endpoint is as before, and active exactly if there is no filter or its
      partitions pass one. */
  lemma UpdatedIs(match_: Matcher, filters: set<string>, db: Database, g: Guid)
    ensures g in Updated(match_, filters, db) <==> g in db
    ensures g in db ==>
      var e, u := db[g], Updated(match_, filters, db)[g];
      && (u.info.active <==> filters == {} || PassesFilters(match_, filters, e.info.specificPartitions))
      && u == EndpointInfoData(EndpointInfo(e.info.guid, e.info.kind, e.info.topicName, e.info.typeName,
                                            e.info.specificPartitions, u.info.active), e.typeIdl)
  {
    if g in db { ActiveIs(match_, filters, db[g].info.specificPartitions); }
  }

  // ----- the loops

  /** The piece read so far is the beginning of the next piece of the text. */
  function PiecesFrom(curr: string, rest: string): (r: seq<string>)
    ensures r != []
  {
    var pieces := Split(rest);
    [curr + pieces[0]] + pieces[1..]
  }

  ghost predicate AnyOf(match_: Matcher, filters: set<string>, pieces: seq<string>) {
    exists p :: p in pieces && MatchesFilter(match_, filters, p)
  }

  lemma PiecesStep(curr: string, rest: string)
    requires rest != []
    ensures PiecesFrom(curr, rest) == if rest[0] == BAR then [curr] + PiecesFrom("", rest[1..])
      else PiecesFrom(curr + [rest[0]], rest[1..])
  {
    var pieces, later := Split(rest), Split(rest[1..]);
    if rest[0] == BAR {
      assert pieces == [""] + later;
      BarStep(curr, later);
    } else {
      assert pieces == [[rest[0]] + later[0]] + later[1..];
      CharStep(curr, rest[0], later);
    }
  }

  lemma BarStep(curr: string, later: seq<string>)
    requires later != []
    ensures var pieces := [""] + later;
      [curr + pieces[0]] + pieces[1..] == [curr] + (["" + later[0]] + later[1..])
  {
    assert "" + later[0] == later[0];
    assert curr + "" == curr;
  }

  lemma CharStep(curr: string, c: char, later: seq<string>)
    requires later != []
    ensures var pieces := [[c] + later[0]] + later[1..];
      [curr + pieces[0]] + pieces[1..] == [(curr + [c]) + later[0]] + later[1..]
  {
    assert curr + ([c] + later[0]) == (curr + [c]) + later[0];
  }

  lemma PiecesEnds(curr: string)
    ensures PiecesFrom(curr, "") == [curr]
  {
    assert curr + "" == curr;
  }

  lemma PiecesAll(s: string)
    ensures PiecesFrom("", s) == Split(s)
  {
    var pieces := Split(s);
    assert "" + pieces[0] == pieces[0];
    assert [pieces[0]] + pieces[1..] == pieces;
  }

  lemma AnyOfMore(match_: Matcher, filters: set<string>, p: string, later: seq<string>)
    ensures AnyOf(match_, filters, [p] + later) <==> MatchesFilter(match_, filters, p) || AnyOf(match_, filters, later)
    ensures !AnyOf(match_, filters, [])
  {
    var all := [p] + later;
    if AnyOf(match_, filters, later) {
      var q :| q in later && MatchesFilter(match_, filters, q);
      assert q in all;
    }
    if MatchesFilter(match_, filters, p) {
      assert all[0] == p;
    }
  }

  /** The loop over the filters, which stops at the first match. */
  method CheckFilters(match_: Matcher, filters: set<string>, partition: string) returns (found: bool)
    ensures found <==> MatchesFilter(match_, filters, partition)
  {
    var left := filters;
    while left != {}
      invariant left <= filters
      invariant MatchesFilter(match_, filters, partition) <==> MatchesFilter(match_, left, partition)
      decreases |left|
    {
      var f :| f in left;
      if match_(f, partition) || match_(partition, f) {
        return true;
      }
      left := left - {f};
    }
    return false;
  }

  /** The character loop over one partition text: cuts at bars and checks every piece. */
  method ScanPartitions(match_: Matcher, filters: set<string>, text: string, active: bool) returns (r: bool)
    ensures r == (active || AnyPiece(match_, filters, text))
  {
    hide MatchesFilter, PiecesFrom, AnyOf, Split;
    r := active;
    var i, n := 0, |text|;
    var curr := "";
    assert text[0..] == text;
    PiecesAll(text);
    AnyPieceIs(match_, filters, text);
    while i < n
      invariant 0 <= i <= n
      invariant (r || AnyOf(match_, filters, PiecesFrom(curr, text[i..]))) ==
        (active || AnyPiece(match_, filters, text))
    {
      PiecesStep(curr, text[i..]);
      assert text[i..][1..] == text[i + 1..];
      if text[i] == BAR {
        AnyOfMore(match_, filters, curr, PiecesFrom("", text[i + 1..]));
        var found := CheckFilters(match_, filters, curr);
        if found {
          r := true;
        }
        curr := "";
      } else {
        curr := curr + [text[i]];
      }
      i := i + 1;
    }
    assert text[n..] == "";
    PiecesEnds(curr);
    AnyOfMore(match_, filters, curr, []);
    assert [curr] + [] == [curr];
    var found := CheckFilters(match_, filters, curr);
    if found {
      r := true;
    }
  }

  lemma AnyPieceIs(match_: Matcher, filters: set<string>, text: string)
    ensures AnyPiece(match_, filters, text) == AnyOf(match_, filters, Split(text))
  {
  }

  /** The loop over the partition sets of an endpoint, when there is a filter. */
  method CheckEndpoint(match_: Matcher, filters: set<string>, partitions: map<string, string>) returns (active: bool)
    requires filters != {}
    ensures active == Active(match_, filters, partitions)
  {
    hide AnyPiece;
    active := false;
    var left := partitions.Keys;
    while left != {}
      invariant left <= partitions.Keys
      invariant Active(match_, filters, partitions) <==>
        active || exists k :: k in left && AnyPiece(match_, filters, partitions[k])
      decreases |left|
    {
      var k :| k in left;
      active := ScanPartitions(match_, filters, partitions[k], active);
      left := left - {k};
    }
  }

  class Controller {
    var endpointDatabase: Database
    var partitionFilterSet: set<string>

    constructor (database: Database)
      ensures endpointDatabase == database && partitionFilterSet == {}
    {
      endpointDatabase := database;
      partitionFilterSet := {};
    }

    method SetPartitionFilter(filters: set<string>)
      modifies this`partitionFilterSet
      ensures partitionFilterSet == filters
    {
      partitionFilterSet := filters;
    }

    /** First finds out which endpoints are active, then writes it to the database: no key comes
        or goes and nothing but `active` changes. */
    method UpdateEndpoints(match_: Matcher)
      modifies this`endpointDatabase
      ensures endpointDatabase == Updated(match_, partitionFilterSet, old(endpointDatabase))
    {
      var guidActive := CollectActive(match_);
      ghost var was := endpointDatabase;
      var i := 0;
      while i < |guidActive|
        invariant 0 <= i <= |guidActive|
        invariant Between(was, Updated(match_, partitionFilterSet, was), Guids(guidActive[..i]), endpointDatabase)
      {
        var (guid, active) := guidActive[i];
        GuidsMore(guidActive, i);
        var endpoint := endpointDatabase[guid];
        endpointDatabase := endpointDatabase[guid := SetActive(endpoint, active)];
        i := i + 1;
      }
      assert guidActive[..|guidActive|] == guidActive;
    }

    /** The first loop of update_endpoints(). */
    method CollectActive(match_: Matcher) returns (r: seq<(Guid, bool)>)
      ensures Guids(r) == endpointDatabase.Keys && Checked(match_, partitionFilterSet, endpointDatabase, r)
    {
      hide Active, Guids, Checked;
      var partitionsExist := partitionFilterSet != {};
      r := [];
      CheckedNone(match_, partitionFilterSet, endpointDatabase);
      var left := endpointDatabase.Keys;
      while left != {}
        invariant left <= endpointDatabase.Keys && Guids(r) == endpointDatabase.Keys - left
        invariant Checked(match_, partitionFilterSet, endpointDatabase, r)
        decreases |left|
      {
        var g :| g in left;
        var active := !partitionsExist;
        if active {
          NoFilter(match_, endpointDatabase[g].info.specificPartitions);
        } else {
          active := CheckEndpoint(match_, partitionFilterSet, endpointDatabase[g].info.specificPartitions);
        }
        GuidsAppend(r, (g, active));
        CheckedAppend(match_, partitionFilterSet, endpointDatabase, r, g, active);
        r := r + [(g, active)];
        left := left - {g};
      }
    }
  }

  /** The entries of `done` are those of `after`, the others those of `before`. */
  ghost predicate Between(before: Database, after: Database, done: set<Guid>,
                          now: Database)
  {
    && before.Keys == after.Keys == now.Keys
    && forall g :: g in now ==> now[g] == if g in done then after[g] else before[g]
  }

  lemma NoFilter(match_: Matcher, partitions: map<string, string>)
    ensures Active(match_, {}, partitions)
  {
  }

  function Guids(r: seq<(Guid, bool)>): set<Guid> {
    set i | 0 <= i < |r| :: r[i].0
  }

  /** Every pair holds what the filter says about its endpoint. */
  ghost predicate Checked(match_: Matcher, filters: set<string>, db: Database, r: seq<(Guid, bool)>) {
    forall i :: 0 <= i < |r| ==>
      r[i].0 in db && r[i].1 == Active(match_, filters, db[r[i].0].info.specificPartitions)
  }

  lemma CheckedNone(match_: Matcher, filters: set<string>, db: Database)
    ensures Checked(match_, filters, db, []) && Guids([]) == {}
  {
  }

  lemma CheckedAppend(match_: Matcher, filters: set<string>, db: Database, r: seq<(Guid, bool)>,
                      g: Guid, active: bool)
    requires Checked(match_, filters, db, r) && g in db
    requires active == Active(match_, filters, db[g].info.specificPartitions)
    ensures Checked(match_, filters, db, r + [(g, active)])
  {
  }

  lemma GuidsAppend(r: seq<(Guid, bool)>, x: (Guid, bool))
    ensures Guids(r + [x]) == Guids(r) + {x.0}
  {
    var t := r + [x];
    forall g | g in Guids(r) + {x.0}
      ensures g in Guids(t)
    {
      if g == x.0 {
        assert t[|r|].0 == g;
      } else {
        var i :| 0 <= i < |r| && r[i].0 == g;
        assert t[i].0 == g;
      }
    }
  }

  lemma GuidsMore(r: seq<(Guid, bool)>, i: nat)
    requires i < |r|
    ensures Guids(r[..i + 1]) == Guids(r[..i]) + {r[i].0}
  {
    assert r[..i + 1] == r[..i] + [r[i]];
    GuidsAppend(r[..i], r[i]);
  }
}
