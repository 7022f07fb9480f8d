/** Discovery and partition filter as two writers of one endpoint database: who is shown after
    any sequence of reports, filter changes and updates. */
module EndpointHistory {
  import opened CacheState   // Guid
  import opened Endpoints

  datatype Op =
    | Report(e: EndpointInfoData)          // new_endpoint_info_
    | SetFilter(filters: set<string>)      // set_partition_filter and the filter commands
    | Update                               // update_endpoints

  datatype State = State(db: Database, filters: set<string>)

  function Step(match_: Matcher, s: State, op: Op): State {
    match op
    case Report(e) => s.(db := s.db[e.info.guid := e])
    case SetFilter(f) => s.(filters := f)
    case Update => s.(db := Updated(match_, s.filters, s.db))
  }

  function After(match_: Matcher, ops: seq<Op>): State {
    if ops == [] then State(map[], {}) else Step(match_, After(match_, ops[..|ops| - 1]), ops[|ops| - 1])
  }

  // ----- the same, from the history alone

  predicate Reports(op: Op, w: Guid) { op.Report? && op.e.info.guid == w }

  /** Position `d` holds the last report about `w`. */
  predicate LastReport(ops: seq<Op>, w: Guid, d: nat) {
    d < |ops| && Reports(ops[d], w) && forall k :: d < k < |ops| ==> !Reports(ops[k], w)
  }

  /** Position `u` holds the last update. */
  predicate LastUpdate(ops: seq<Op>, u: nat) {
    u < |ops| && ops[u] == Update && forall k :: u < k < |ops| ==> ops[k] != Update
  }

  /** The filter set last. */
  function FilterOf(ops: seq<Op>): set<string> {
    if ops == [] then {}
    else if ops[|ops| - 1].SetFilter? then ops[|ops| - 1].filters
    else FilterOf(ops[..|ops| - 1])
  }

  lemma {:induction false} FilterIsLast(match_: Matcher, ops: seq<Op>)
    ensures After(match_, ops).filters == FilterOf(ops)
  {
    if ops != [] { FilterIsLast(match_, ops[..|ops| - 1]); }
  }

  /** An update came after the report at `d`, and the last update's filter passes its partitions. */
  ghost predicate PassedBy(match_: Matcher, ops: seq<Op>, d: nat)
    requires d < |ops| && ops[d].Report?
  {
    exists u: nat ::
      d < u && LastUpdate(ops, u) && Active(match_, FilterOf(ops[..u]), ops[d].e.info.specificPartitions)
  }

  /** What the last step that touched `w` made of it: its last report, or an update since then
      and the filter in force at that update. */
  ghost predicate ShownBy(match_: Matcher, ops: seq<Op>, w: Guid, d: nat)
    requires d < |ops| && ops[d].Report?
  {
    if exists u: nat :: d < u && LastUpdate(ops, u) then PassedBy(match_, ops, d) else ops[d].e.info.active
  }

  lemma ShownByMore(match_: Matcher, ops: seq<Op>, op: Op, w: Guid, d: nat)
    requires d < |ops| && ops[d].Report?
    ensures ShownBy(match_, ops + [op], w, d) <==>
      if op == Update then Active(match_, FilterOf(ops), ops[d].e.info.specificPartitions)
        else ShownBy(match_, ops, w, d)
  {
    hide Active, FilterOf;
    var all := ops + [op];
    assert forall i :: 0 <= i < |ops| ==> all[i] == ops[i];
    assert all[..|ops|] == ops;
    assert forall u: nat :: u < |ops| ==> all[..u] == ops[..u];
    if op == Update {
      assert LastUpdate(all, |ops|);
    } else {
      assert forall u: nat :: LastUpdate(all, u) <==> LastUpdate(ops, u);
    }
  }

  /** In every run an endpoint is in the database exactly if it was reported; its entry is the
      last report, and it is shown exactly if the last step that touched it was a report of
      it as active, or an update whose filter it passes. */
  lemma {:induction false} ShownExactly(match_: Matcher, ops: seq<Op>, w: Guid)
    ensures var db := After(match_, ops).db;
      && (w in db <==> exists d: nat :: LastReport(ops, w, d))
      && forall d: nat :: LastReport(ops, w, d) ==> w in db && db[w] == SetActive(ops[d].e, ShownBy(match_, ops, w, d))
  {
    if ops != [] {
      var n := |ops| - 1;
      var before, op := ops[..n], ops[n];
      ShownExactly(match_, before, w);
      FilterIsLast(match_, before);
      assert ops == before + [op];
      hide After, ShownBy, FilterOf, Active;
      StepIs(match_, before, op);
      if Reports(op, w) {
        assert LastReport(ops, w, n);
        ShownFresh(match_, ops, w);
      } else {
        assert forall d: nat :: LastReport(ops, w, d) <==> LastReport(before, w, d);
        forall d: nat | LastReport(ops, w, d)
          ensures w in After(match_, ops).db &&
            After(match_, ops).db[w] == SetActive(ops[d].e, ShownBy(match_, ops, w, d))
        {
          ShownByMore(match_, before, op, w, d);
        }
      }
    }
  }

  lemma StepIs(match_: Matcher, ops: seq<Op>, op: Op)
    ensures After(match_, ops + [op]) == Step(match_, After(match_, ops), op)
  {
    assert (ops + [op])[..|ops|] == ops;
  }

  lemma ShownFresh(match_: Matcher, ops: seq<Op>, w: Guid)
    requires ops != [] && ops[|ops| - 1].Report?
    ensures ShownBy(match_, ops, w, |ops| - 1) == ops[|ops| - 1].e.info.active
  {
  }

  /** An endpoint whose last report says it is gone is shown again exactly if an update came
      after that report, and the filter in force at the last update passes it: with no
      filter at that update it always is. */
  lemma DepartedShownAgain(match_: Matcher, ops: seq<Op>, w: Guid, d: nat)
    requires LastReport(ops, w, d) && !ops[d].e.info.active
    ensures var db := After(match_, ops).db;
      && w in db
      && (db[w].info.active <==> PassedBy(match_, ops, d))
      && (forall u: nat :: d < u && LastUpdate(ops, u) && FilterOf(ops[..u]) == {} ==> db[w].info.active)
  {
    ShownExactly(match_, ops, w);
    hide After, FilterOf;
  }

  /** Such runs exist: one report and one update without a filter. */
  lemma GoneIsShownAgain(match_: Matcher, e: EndpointInfoData)
    requires !e.info.active
    ensures var db := After(match_, [Report(e), Update]).db;
      e.info.guid in db && db[e.info.guid].info.active
  {
    var ops := [Report(e), Update];
    assert LastReport(ops, e.info.guid, 0) && LastUpdate(ops, 1);
    assert ops[..1] == [Report(e)] && FilterOf([Report(e)]) == {};
    DepartedShownAgain(match_, ops, e.info.guid, 0);
  }
}
