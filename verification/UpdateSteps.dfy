/** The update of the endpoints taken apart: each endpoint is checked, found and written back in
    steps of its own, and discovery may report in between.  When is a report lost? */
module UpdateSteps {
  import opened Nullables
  import opened CacheState   // Guid
  import opened Endpoints

  datatype Op =
    | Report(e: EndpointInfoData)        // new_endpoint_info_
    | SetFilter(filters: set<string>)    // set_partition_filter
    | Check(guid: Guid)                  // first loop of update_endpoints, one endpoint
    | Find(guid: Guid)                   // second loop: the copy is taken and marked
    | Write                              // second loop: the copy is written back

  /** `decided`: the pairs found by the first loop; `held`: the copy of the second loop. */
  datatype State = State(db: Database, filters: set<string>, decided: map<Guid, bool>, held: Nullable<EndpointInfoData>)

  const START := State(map[], {}, map[], Null)

  predicate Enabled(s: State, op: Op) {
    match op
    case Report(_) => true
    case SetFilter(_) => s.held.Null?
    case Check(g) => g in s.db && s.held.Null?
    case Find(g) => g in s.db && g in s.decided && s.held.Null?
    case Write => s.held.Value?
  }

  function Step(match_: Matcher, s: State, op: Op): State
    requires Enabled(s, op)
  {
    match op
    case Report(e) => s.(db := s.db[e.info.guid := e])
    case SetFilter(f) => s.(filters := f)
    case Check(g) => s.(decided := s.decided[g := Active(match_, s.filters, s.db[g].info.specificPartitions)])
    case Find(g) => s.(held := Value(SetActive(s.db[g], s.decided[g])))
    case Write => s.(db := s.db[s.held.value.info.guid := s.held.value], held := Null)
  }

  predicate Run(match_: Matcher, ops: seq<Op>)
    decreases |ops|, 0
  {
    ops == [] || (Run(match_, ops[..|ops| - 1]) && Enabled(After(match_, ops[..|ops| - 1]), ops[|ops| - 1]))
  }

  function After(match_: Matcher, ops: seq<Op>): State
    requires Run(match_, ops)
    decreases |ops|, 1
  {
    if ops == [] then START else Step(match_, After(match_, ops[..|ops| - 1]), ops[|ops| - 1])
  }

  lemma RunMore(match_: Matcher, ops: seq<Op>, op: Op)
    ensures Run(match_, ops + [op]) <==> Run(match_, ops) && Enabled(After(match_, ops), op)
    ensures Run(match_, ops + [op]) ==> After(match_, ops + [op]) == Step(match_, After(match_, ops), op)
  {
    assert (ops + [op])[..|ops|] == ops;
  }

  lemma {:induction false} RunBefore(match_: Matcher, ops: seq<Op>, k: nat)
    requires Run(match_, ops) && k <= |ops|
    ensures Run(match_, ops[..k])
    decreases |ops|
  {
    if k < |ops| {
      RunBefore(match_, ops[..|ops| - 1], k);
      assert ops[..|ops| - 1][..k] == ops[..k];
    } else {
      assert ops[..k] == ops;
    }
  }

  // ----- from the history alone

  predicate Reports(op: Op, w: Guid) { op.Report? && op.e.info.guid == w }

  /** Position `d` holds the last report about `w`. */
  predicate LastReport(ops: seq<Op>, w: Guid, d: nat) {
    d < |ops| && Reports(ops[d], w) && forall k :: d < k < |ops| ==> !Reports(ops[k], w)
  }

  /** The copy taken at `f` is written at `u`. */
  predicate CopyWritten(ops: seq<Op>, w: Guid, f: nat, u: nat) {
    f < u < |ops| && ops[f] == Find(w) && ops[u] == Write && forall k :: f < k < u ==> ops[k] != Write
  }

  /** A copy of `w` found before the report at `d` is written after it. */
  ghost predicate Stale(ops: seq<Op>, w: Guid, d: nat, f: nat) {
    f < d && exists u: nat :: d < u && CopyWritten(ops, w, f, u)
  }

  /** The copy taken at `f` is still to be written. */
  predicate CopyHeld(ops: seq<Op>, w: Guid, f: nat) {
    f < |ops| && ops[f] == Find(w) && forall k :: f < k < |ops| ==> ops[k] != Write
  }

  /** Everything but the mark. */
  function Data(e: EndpointInfoData): EndpointInfoData { SetActive(e, false) }

  /** `e` has the data of the report at `d`. */
  predicate LastIs(ops: seq<Op>, w: Guid, d: nat, e: EndpointInfoData)
    requires LastReport(ops, w, d)
  {
    Data(e) == Data(ops[d].e)
  }

  /** The entry of `w` is the last report or, if a stale copy was written, what it was when that
      copy was taken; a copy not yet written is the entry of that time. */
  ghost predicate Follows(match_: Matcher, ops: seq<Op>, w: Guid)
    requires Run(match_, ops)
  {
    var s := After(match_, ops);
    && (forall g :: g in s.db ==> s.db[g].info.guid == g)
    && (w in s.db <==> exists d: nat :: LastReport(ops, w, d))
    && (forall d: nat :: LastReport(ops, w, d) && (forall f: nat :: !Stale(ops, w, d, f)) ==>
          w in s.db && LastIs(ops, w, d, s.db[w]))
    && (forall d: nat, f: nat :: LastReport(ops, w, d) && Stale(ops, w, d, f) ==>
          w in s.db && FoundAs(match_, ops, w, f, s.db[w]))
  }

  /** `e` has the data `w` had when it was found at `f`. */
  ghost predicate FoundAs(match_: Matcher, ops: seq<Op>, w: Guid, f: nat, e: EndpointInfoData)
    requires Run(match_, ops)
  {
    && f <= |ops|
    && (RunBefore(match_, ops, f);
        var s := After(match_, ops[..f]);
        w in s.db && Data(e) == Data(s.db[w]))
  }

  /** The copy in hand. */
  ghost predicate Holding(match_: Matcher, ops: seq<Op>, w: Guid)
    requires Run(match_, ops)
  {
    var s := After(match_, ops);
    && (s.held.Value? && s.held.value.info.guid == w ==> exists f: nat :: CopyHeld(ops, w, f))
    && forall f: nat :: CopyHeld(ops, w, f) ==>
         && s.held.Value? && s.held.value.info.guid == w && w in s.db && FoundAs(match_, ops, w, f, s.held.value)
         && forall d: nat :: LastReport(ops, w, d) && d < f ==> Data(s.held.value) == Data(s.db[w])
  }

  // ----- one step more

  lemma LastReportMore(ops: seq<Op>, op: Op, w: Guid)
    ensures Reports(op, w) ==> forall d: nat :: LastReport(ops + [op], w, d) <==> d == |ops|
    ensures !Reports(op, w) ==> forall d: nat :: LastReport(ops + [op], w, d) <==> LastReport(ops, w, d)
  {
    var all := ops + [op];
    assert forall k :: 0 <= k < |ops| ==> all[k] == ops[k];
    assert all[|ops|] == op;
    if Reports(op, w) {
      assert LastReport(all, w, |ops|);
    }
  }

  lemma CopyMore(ops: seq<Op>, op: Op, w: Guid)
    ensures forall f: nat, u: nat :: u < |ops| ==> (CopyWritten(ops + [op], w, f, u) <==> CopyWritten(ops, w, f, u))
    ensures forall f: nat :: CopyWritten(ops + [op], w, f, |ops|) <==> op == Write && CopyHeld(ops, w, f)
    ensures op == Write ==> forall f: nat :: !CopyHeld(ops + [op], w, f)
    ensures op != Write ==> forall f: nat ::
      CopyHeld(ops + [op], w, f) <==> CopyHeld(ops, w, f) || (f == |ops| && op == Find(w))
  {
    var all := ops + [op];
    assert forall k :: 0 <= k < |ops| ==> all[k] == ops[k];
    assert all[|ops|] == op;
  }

  lemma StaleMore(ops: seq<Op>, op: Op, w: Guid, d: nat, f: nat)
    requires d < |ops|
    ensures Stale(ops + [op], w, d, f) <==> Stale(ops, w, d, f) || (op == Write && f < d && CopyHeld(ops, w, f))
  {
    hide CopyWritten, CopyHeld;
    CopyMore(ops, op, w);
    var all := ops + [op];
    if Stale(all, w, d, f) {
      var u: nat :| d < u && CopyWritten(all, w, f, u);
      CopyWrittenInside(all, w, f, u);
      if u < |ops| { assert CopyWritten(ops, w, f, u); }
    }
    if Stale(ops, w, d, f) {
      var u: nat :| d < u && CopyWritten(ops, w, f, u);
      CopyWrittenInside(ops, w, f, u);
      assert CopyWritten(all, w, f, u);
    }
    if op == Write && f < d && CopyHeld(ops, w, f) {
      assert CopyWritten(all, w, f, |ops|);
    }
  }

  lemma CopyWrittenInside(ops: seq<Op>, w: Guid, f: nat, u: nat)
    requires CopyWritten(ops, w, f, u)
    ensures f < u < |ops|
  {
  }

  lemma NothingStale(ops: seq<Op>, w: Guid, f: nat)
    requires ops != []
    ensures !Stale(ops, w, |ops| - 1, f)
  {
  }

  lemma FoundMore(match_: Matcher, ops: seq<Op>, op: Op, w: Guid, f: nat, e: EndpointInfoData)
    requires Run(match_, ops + [op]) && Run(match_, ops) && FoundAs(match_, ops, w, f, e)
    ensures FoundAs(match_, ops + [op], w, f, e)
  {
    assert (ops + [op])[..f] == ops[..f];
  }

  ghost predicate Kept(match_: Matcher, ops: seq<Op>, w: Guid)
    requires Run(match_, ops)
  {
    Follows(match_, ops, w) && Holding(match_, ops, w)
  }

  lemma KeptReport(match_: Matcher, ops: seq<Op>, op: Op, w: Guid)
    requires Run(match_, ops) && Run(match_, ops + [op]) && Kept(match_, ops, w) && Reports(op, w)
    ensures Kept(match_, ops + [op], w)
  {
    hide Run, After, CopyHeld, LastReport, Stale, FoundAs;
    var all := ops + [op];
    RunMore(match_, ops, op);
    LastReportMore(ops, op, w);
    CopyMore(ops, op, w);
    HeldInside(ops, w);
    assert LastReport(all, w, |ops|) && all[|ops|] == op;
    forall f: nat ensures !Stale(all, w, |ops|, f) { NothingStale(all, w, f); }
    forall f: nat, e | FoundAs(match_, ops, w, f, e) ensures FoundAs(match_, all, w, f, e) {
      FoundMore(match_, ops, op, w, f, e);
    }
  }

  lemma HeldInside(ops: seq<Op>, w: Guid)
    ensures forall f: nat :: CopyHeld(ops, w, f) ==> f < |ops|
  {
  }

  lemma LastInside(ops: seq<Op>, w: Guid)
    ensures forall d: nat :: LastReport(ops, w, d) ==> d < |ops|
  {
  }

  /** A step that neither reports `w` nor touches the copy. */
  lemma KeptOther(match_: Matcher, ops: seq<Op>, op: Op, w: Guid)
    requires Run(match_, ops) && Run(match_, ops + [op]) && Kept(match_, ops, w)
    requires !Reports(op, w) && !op.Find? && op != Write
    ensures Kept(match_, ops + [op], w)
  {
    hide Run, After, CopyHeld, LastReport, Stale, FoundAs;
    var all := ops + [op];
    RunMore(match_, ops, op);
    LastReportMore(ops, op, w);
    LastInside(ops, w);
    CopyMore(ops, op, w);
    HeldInside(ops, w);
    forall d: nat, f: nat | d < |ops| ensures Stale(all, w, d, f) <==> Stale(ops, w, d, f) {
      StaleMore(ops, op, w, d, f);
    }
    forall f: nat, e | FoundAs(match_, ops, w, f, e) ensures FoundAs(match_, all, w, f, e) {
      FoundMore(match_, ops, op, w, f, e);
    }
  }

  lemma KeptFind(match_: Matcher, ops: seq<Op>, op: Op, w: Guid)
    requires Run(match_, ops) && Run(match_, ops + [op]) && Kept(match_, ops, w) && op.Find?
    ensures Kept(match_, ops + [op], w)
  {
    hide Run, After, CopyHeld, LastReport, Stale, FoundAs;
    var all := ops + [op];
    RunMore(match_, ops, op);
    LastReportMore(ops, op, w);
    LastInside(ops, w);
    CopyMore(ops, op, w);
    forall d: nat, f: nat | d < |ops| ensures Stale(all, w, d, f) <==> Stale(ops, w, d, f) {
      StaleMore(ops, op, w, d, f);
    }
    forall f: nat, e | FoundAs(match_, ops, w, f, e) ensures FoundAs(match_, all, w, f, e) {
      FoundMore(match_, ops, op, w, f, e);
    }
    var s := After(match_, ops);
    assert s.held.Null?;
    if op == Find(w) {
      FoundNow(match_, ops, op, w, SetActive(s.db[w], s.decided[w]));
      assert CopyHeld(all, w, |ops|);
    }
  }

  lemma FoundNow(match_: Matcher, ops: seq<Op>, op: Op, w: Guid, e: EndpointInfoData)
    requires Run(match_, ops) && Run(match_, ops + [op])
    requires var s := After(match_, ops); w in s.db && Data(e) == Data(s.db[w])
    ensures FoundAs(match_, ops + [op], w, |ops|, e)
  {
    assert (ops + [op])[..|ops|] == ops;
  }

  /** Between a stale write and a later copy. */
  lemma HeldAfterStale(ops: seq<Op>, w: Guid, d: nat, f: nat, f': nat)
    requires Stale(ops, w, d, f) && CopyHeld(ops, w, f')
    ensures d < f'
  {
    var u: nat :| d < u && CopyWritten(ops, w, f, u);
    assert ops[u] == Write;
  }

  lemma HeldIsFind(ops: seq<Op>, w: Guid, d: nat, f: nat)
    requires LastReport(ops, w, d) && CopyHeld(ops, w, f)
    ensures f != d
  {
  }

  lemma KeptWrite(match_: Matcher, ops: seq<Op>, w: Guid)
    requires Run(match_, ops) && Run(match_, ops + [Write]) && Kept(match_, ops, w)
    ensures Kept(match_, ops + [Write], w)
  {
    hide Run, After, CopyHeld, LastReport, Stale, FoundAs;
    var all := ops + [Write];
    RunMore(match_, ops, Write);
    LastReportMore(ops, Write, w);
    LastInside(ops, w);
    CopyMore(ops, Write, w);
    forall d: nat, f: nat | d < |ops|
      ensures Stale(all, w, d, f) <==> Stale(ops, w, d, f) || (f < d && CopyHeld(ops, w, f))
    {
      StaleMore(ops, Write, w, d, f);
    }
    forall f: nat, e | FoundAs(match_, ops, w, f, e) ensures FoundAs(match_, all, w, f, e) {
      FoundMore(match_, ops, Write, w, f, e);
    }
    var s := After(match_, ops);
    if s.held.value.info.guid == w {
      var f': nat :| CopyHeld(ops, w, f');
      forall d: nat, f: nat | LastReport(ops, w, d) && Stale(ops, w, d, f)
        ensures FoundAs(match_, ops, w, f, s.held.value)
      {
        HeldAfterStale(ops, w, d, f, f');
        FoundSame(match_, ops, w, f, s.db[w], s.held.value);
      }
    }
    forall d: nat | LastReport(ops, w, d) && forall f: nat :: !Stale(all, w, d, f)
      ensures w in s.db && LastIs(ops, w, d, After(match_, all).db[w])
    {
      forall f: nat ensures !Stale(ops, w, d, f) { assert !Stale(all, w, d, f); }
      assert LastIs(ops, w, d, s.db[w]);
      if s.held.value.info.guid == w {
        var f': nat :| CopyHeld(ops, w, f');
        HeldIsFind(ops, w, d, f');
        assert !Stale(all, w, d, f');
      }
    }
  }

  lemma FoundSame(match_: Matcher, ops: seq<Op>, w: Guid, f: nat, e: EndpointInfoData, e': EndpointInfoData)
    requires Run(match_, ops) && FoundAs(match_, ops, w, f, e) && Data(e) == Data(e')
    ensures FoundAs(match_, ops, w, f, e')
  {
  }

  lemma {:induction false} AllKept(match_: Matcher, ops: seq<Op>, w: Guid)
    requires Run(match_, ops)
    ensures Kept(match_, ops, w)
    decreases |ops|
  {
    if ops == [] {
      assert forall d: nat :: !LastReport(ops, w, d);
    } else {
      var n := |ops| - 1;
      var before, op := ops[..n], ops[n];
      assert ops == before + [op];
      RunBefore(match_, ops, n);
      AllKept(match_, before, w);
      hide Kept, After;
      if Reports(op, w) {
        KeptReport(match_, before, op, w);
      } else if op.Find? {
        KeptFind(match_, before, op, w);
      } else if op == Write {
        KeptWrite(match_, before, w);
      } else {
        KeptOther(match_, before, op, w);
      }
    }
  }

  /** In every run of discovery beside an update taken apart, the entry of an endpoint has the data
      of its last report, unless a copy found before that report was written after it: then it
      has the data the entry had when that copy was found. */
  lemma LostExactly(match_: Matcher, ops: seq<Op>, w: Guid)
    requires Run(match_, ops)
    ensures Follows(match_, ops, w)
  {
    hide Follows;
    AllKept(match_, ops, w);
  }

  /** Discovery reports a new state of an endpoint between the two calls: the update puts the old
      state back, marked by what it decided about that, here without a filter. */
  lemma ReportIsLost(match_: Matcher, e: EndpointInfoData, e': EndpointInfoData)
    requires e.info.guid == e'.info.guid
    ensures var w := e.info.guid;
      var ops := [Report(e), Check(w), Find(w), Report(e'), Write];
      && Run(match_, ops) && LastReport(ops, w, 3) && Stale(ops, w, 3, 2)
      && After(match_, ops).db == map[w := SetActive(e, true)]
  {
    var w := e.info.guid;
    FoundUnfiltered(match_, e);
    hide Run, After, Active, SetActive;
    var found := [Report(e), Check(w), Find(w)];
    RunMore(match_, found, Report(e'));
    RunMore(match_, found + [Report(e')], Write);
    var ops := [Report(e), Check(w), Find(w), Report(e'), Write];
    assert found + [Report(e')] + [Write] == ops;
    assert CopyWritten(ops, w, 2, 4);
  }

  lemma FoundUnfiltered(match_: Matcher, e: EndpointInfoData)
    ensures var w := e.info.guid;
      var ops := [Report(e), Check(w), Find(w)];
      && Run(match_, ops)
      && After(match_, ops) == State(map[w := e], {}, map[w := true], Value(SetActive(e, true)))
      && SetActive(e, true).info.guid == w
  {
    var w := e.info.guid;
    var r := Report(e);
    RunMore(match_, [], r);
    assert [] + [r] == [r];
    hide Run, SetActive;
    RunMore(match_, [r], Check(w));
    assert [r] + [Check(w)] == [r, Check(w)];
    hide After;
    RunMore(match_, [r, Check(w)], Find(w));
    assert [r, Check(w)] + [Find(w)] == [r, Check(w), Find(w)];
  }
}
