/**
 The counting, observation and timeline parts of the egress checker: `n` protected runs, `n` raw runs
 and one stopped run, against the application's audit, the History, the observer and the timeline.
 */
module Egress {
  import opened Counting
  import opened Decimals

  datatype Process = Process(pid: int, startTicks: int, instance: string)
  datatype Cell = Cell(generation: int, identity: Process, started: int, stopped: int)

  /** A run whose source is lost and whose replacement completes. */
  datatype Run = Run(run: int, key: string, operationId: string, source: Cell, replacement: Cell)
  datatype Stop = Stop(key: string, operationId: string, source: Cell)

  datatype Delivery = Delivery(ordinal: int, operationId: string, committed: int)
  datatype Operation = Operation(id: string, requestHash: string)
  datatype Observation = Observation(
    operationId: string, count: int, requestHash: string, outcome: string, observed: int)
  datatype Moment = Moment(event: string, sequence: int, time: int, operationId: string, committed: int, stopped: int)

  datatype Evidence = Evidence(
    protected: seq<Run>, raw: seq<Run>, stop: Stop, audit: seq<Delivery>,
    prepared: seq<Operation>, succeeded: seq<string>,
    queries: int, outcomes: map<string, int>, observations: seq<Observation>, timeline: seq<Moment>)

  /** `_operation_id`: a digest of the key, of which nothing is assumed. */
  type OperationId = string -> string

  predicate IsKey(s: string) {
    |s| == 32 && forall i :: 0 <= i < 32 ==> '0' <= s[i] <= '9' || 'a' <= s[i] <= 'f'
  }

  // ----- Runs and cells -----

  predicate RunOk(opId: OperationId, r: Run, index: int, protected: bool) {
    && r.run == index
    && IsKey(r.key)
    && r.operationId == if protected then opId(r.key) else r.key
  }

  predicate RunsOk(opId: OperationId, runs: seq<Run>, protected: bool) {
    forall i :: 0 <= i < |runs| ==> RunOk(opId, runs[i], i + 1, protected)
  }

  function Keys(runs: seq<Run>): seq<string> {
    seq(|runs|, i requires 0 <= i < |runs| => runs[i].key)
  }

  function Cells(runs: seq<Run>): seq<Cell> {
    if runs == [] then []
    else Cells(runs[..|runs| - 1]) + [runs[|runs| - 1].source, runs[|runs| - 1].replacement]
  }

  function Identities(cells: seq<Cell>): set<Process> {
    set c | c in cells :: c.identity
  }

  /** Cells are started in turn after `generation` others, and share no identity with them or each other. */
  predicate Follow(cells: seq<Cell>, generation: nat, seen: set<Process>) {
    cells == [] ||
    var before, last := cells[..|cells| - 1], cells[|cells| - 1];
    && Follow(before, generation, seen)
    && last.generation == generation + |cells|
    && last.started < last.stopped
    && last.identity !in seen + Identities(before)
  }

  function AllKeys(e: Evidence): seq<string> {
    Keys(e.protected) + Keys(e.raw) + [e.stop.key]
  }

  function AllCells(e: Evidence): seq<Cell> {
    Cells(e.protected) + Cells(e.raw) + [e.stop.source]
  }

  predicate ComparisonOk(opId: OperationId, n: int, e: Evidence) {
    && |e.protected| == n && |e.raw| == n
    && RunsOk(opId, e.protected, true)
    && RunsOk(opId, e.raw, false)
    && IsKey(e.stop.key) && e.stop.operationId == e.stop.key
    && Follow(AllCells(e), 0, {})
    && Distinct(AllKeys(e))
  }

  lemma FollowOne(cells: seq<Cell>, cell: Cell, generation: nat, seen: set<Process>)
    ensures
      Follow(cells + [cell], generation, seen) <==>
      && Follow(cells, generation, seen)
      && cell.generation == generation + |cells| + 1
      && cell.started < cell.stopped
      && cell.identity !in seen + Identities(cells)
  {
    assert (cells + [cell])[..|cells|] == cells;
  }

  lemma IdentitiesOne(cells: seq<Cell>, cell: Cell)
    ensures Identities(cells + [cell]) == Identities(cells) + {cell.identity}
  {
    forall p | p in Identities(cells) + {cell.identity} ensures p in Identities(cells + [cell]) {
      if p == cell.identity {
        assert cell in cells + [cell];
      } else {
        var c :| c in cells && c.identity == p;
        assert c in cells + [cell];
      }
    }
  }

  lemma FollowPrefix(cells: seq<Cell>, more: seq<Cell>, generation: nat, seen: set<Process>)
    requires Follow(cells + more, generation, seen)
    ensures Follow(cells, generation, seen)
    decreases |more|
  {
    if more == [] {
      assert cells + more == cells;
    } else {
      assert (cells + more)[..|cells + more| - 1] == cells + more[..|more| - 1];
      FollowPrefix(cells, more[..|more| - 1], generation, seen);
    }
  }

  /** One cell of the loops over the runs. */
  method AddCell(cell: Cell, generation: nat, seen: set<Process>, ghost before: seq<Cell>)
    returns (ok: bool, seen': set<Process>)
    requires generation == |before| && seen == Identities(before) && Follow(before, 0, {})
    ensures ok <==> Follow(before + [cell], 0, {})
    ensures ok ==> seen' == Identities(before + [cell])
  {
    FollowOne(before, cell, 0, {});
    IdentitiesOne(before, cell);
    ok := cell.generation == generation + 1 && cell.started < cell.stopped && cell.identity !in seen;
    seen' := seen + {cell.identity};
  }

  /** One turn of the loops over the runs. */
  method AddRun(
    opId: OperationId, r: Run, index: int, protected: bool,
    generation: nat, seen: set<Process>, ghost before: seq<Cell>)
    returns (ok: bool, seen': set<Process>)
    requires generation == |before| && seen == Identities(before) && Follow(before, 0, {})
    ensures ok <==> RunOk(opId, r, index, protected) && Follow(before + [r.source, r.replacement], 0, {})
    ensures ok ==> seen' == Identities(before + [r.source, r.replacement])
  {
    assert before + [r.source, r.replacement] == before + [r.source] + [r.replacement];
    if Follow(before + [r.source, r.replacement], 0, {}) {
      FollowPrefix(before + [r.source], [r.replacement], 0, {});
    }
    ok, seen' := AddCell(r.source, generation, seen, before);
    if ok {
      ok, seen' := AddCell(r.replacement, generation + 1, seen', before + [r.source]);
    }
    ok := ok && RunOk(opId, r, index, protected);
  }

  /** One of the two loops over the runs, after the cells in `before`. */
  method CheckRuns(
    opId: OperationId, runs: seq<Run>, protected: bool, generation: nat, seen: set<Process>, ghost before: seq<Cell>)
    returns (ok: bool, generation': nat, seen': set<Process>, keys: seq<string>)
    requires generation == |before| && seen == Identities(before) && Follow(before, 0, {})
    ensures ok <==> RunsOk(opId, runs, protected) && Follow(before + Cells(runs), 0, {})
    ensures ok ==>
      && generation' == |before + Cells(runs)| && seen' == Identities(before + Cells(runs)) && keys == Keys(runs)
  {
    generation', seen', keys := generation, seen, [];
    ghost var done := before;
    assert before + [] == before;
    for i := 0 to |runs|
      invariant done == before + Cells(runs[..i])
      invariant RunsOk(opId, runs[..i], protected) && keys == Keys(runs[..i])
      invariant Follow(done, 0, {}) && generation' == |done| && seen' == Identities(done)
    {
      RunsOneMore(opId, runs, i, protected);
      RunsCells(runs, i);
      FollowRest(before, runs, i);
      assert before + (Cells(runs[..i]) + [runs[i].source, runs[i].replacement])
          == done + [runs[i].source, runs[i].replacement];
      var good, more := AddRun(opId, runs[i], i + 1, protected, generation', seen', done);
      if !good {
        return false, generation', seen', keys;
      }
      generation', seen', keys := generation' + 2, more, keys + [runs[i].key];
      done := done + [runs[i].source, runs[i].replacement];
    }
    assert runs[..|runs|] == runs;
    ok := true;
  }

  lemma RunsOneMore(opId: OperationId, runs: seq<Run>, i: nat, protected: bool)
    requires i < |runs|
    ensures RunsOk(opId, runs[..i + 1], protected) <==>
      RunsOk(opId, runs[..i], protected) && RunOk(opId, runs[i], i + 1, protected)
    ensures Keys(runs[..i + 1]) == Keys(runs[..i]) + [runs[i].key]
    ensures RunsOk(opId, runs, protected) ==> RunOk(opId, runs[i], i + 1, protected)
  {
    var some := runs[..i + 1];
    assert forall j :: 0 <= j < i ==> some[j] == runs[..i][j];
    assert some[i] == runs[i];
  }

  lemma {:induction false} RunsCells(runs: seq<Run>, i: nat)
    requires i < |runs|
    ensures Cells(runs[..i + 1]) == Cells(runs[..i]) + [runs[i].source, runs[i].replacement]
  {
    assert runs[..i + 1][..i] == runs[..i];
  }

  lemma {:induction false} CellsSplit(runs: seq<Run>, i: nat)
    requires i <= |runs|
    ensures Cells(runs) == Cells(runs[..i]) + Cells(runs[i..])
    decreases |runs| - i
  {
    if i == |runs| {
      assert runs[..i] == runs && runs[i..] == [];
      assert Cells(runs) + [] == Cells(runs);
    } else {
      var n := |runs| - 1;
      CellsSplit(runs[..n], i);
      assert runs[..n][..i] == runs[..i] && runs[..n][i..] == runs[i..][..n - i];
      var last := [runs[n].source, runs[n].replacement];
      assert Cells(runs[i..]) == Cells(runs[i..][..n - i]) + last;
      assert Cells(runs[..i]) + (Cells(runs[..n][i..]) + last) == Cells(runs[..i]) + Cells(runs[..n][i..]) + last;
    }
  }

  /** If all the cells follow, so do those of the first runs. */
  lemma {:induction false} FollowRest(before: seq<Cell>, runs: seq<Run>, i: nat)
    requires i < |runs|
    ensures Follow(before + Cells(runs), 0, {}) ==> Follow(before + Cells(runs[..i + 1]), 0, {})
  {
    if Follow(before + Cells(runs), 0, {}) {
      CellsSplit(runs, i + 1);
      var more := Cells(runs[i + 1..]);
      assert before + Cells(runs) == before + Cells(runs[..i + 1]) + more;
      FollowPrefix(before + Cells(runs[..i + 1]), more, 0, {});
    }
  }

  method CheckComparison(opId: OperationId, n: int, e: Evidence) returns (ok: bool)
    ensures ok <==> ComparisonOk(opId, n, e)
  {
    if |e.protected| != n || |e.raw| != n {
      return false;
    }
    ghost var a, b := Cells(e.protected), Cells(e.raw);
    assert [] + a == a;
    assert AllCells(e) == a + b + [e.stop.source];
    if Follow(AllCells(e), 0, {}) {
      FollowPrefix(a + b, [e.stop.source], 0, {});
      FollowPrefix(a, b, 0, {});
    }
    var first, generation, seen, keys := CheckRuns(opId, e.protected, true, 0, {}, []);
    if !first {
      return false;
    }
    var second, generation', seen', more := CheckRuns(opId, e.raw, false, generation, seen, a);
    if !second {
      return false;
    }
    keys := keys + more + [e.stop.key];
    var third, _ := AddCell(e.stop.source, generation', seen', a + b);
    DistinctIff(keys);
    ok := IsKey(e.stop.key) && e.stop.operationId == e.stop.key && third && |Elements(keys)| == |keys|;
  }

  // ----- Deliveries -----

  predicate AuditOk(n: int, audit: seq<Delivery>) {
    && |audit| == 3 * n + 1
    && forall i :: 0 <= i < |audit| ==> audit[i].ordinal == i + 1 && audit[i].committed > 0
  }

  /** The deliveries of one operation, in the order of the audit. */
  function Deliveries(audit: seq<Delivery>, id: string): seq<Delivery> {
    if audit == [] then []
    else
      var before, last := Deliveries(audit[..|audit| - 1], id), audit[|audit| - 1];
      if last.operationId == id then before + [last] else before
  }

  /** The loop that fills `by_operation`. */
  method GroupDeliveries(n: int, audit: seq<Delivery>) returns (ok: bool, grouped: map<string, seq<Delivery>>)
    ensures ok <==> AuditOk(n, audit)
    ensures ok ==>
      && (forall id :: id in grouped <==> Deliveries(audit, id) != [])
      && forall id :: id in grouped ==> grouped[id] == Deliveries(audit, id)
  {
    ok, grouped := |audit| == 3 * n + 1, map[];
    if !ok {
      return;
    }
    for i := 0 to |audit|
      invariant forall j :: 0 <= j < i ==> audit[j].ordinal == j + 1 && audit[j].committed > 0
      invariant forall id :: id in grouped <==> Deliveries(audit[..i], id) != []
      invariant forall id :: id in grouped ==> grouped[id] == Deliveries(audit[..i], id)
    {
      var record := audit[i];
      assert audit[..i + 1][..i] == audit[..i];
      if record.ordinal != i + 1 || record.committed <= 0 {
        return false, grouped;
      }
      var earlier := if record.operationId in grouped then grouped[record.operationId] else [];
      assert earlier == Deliveries(audit[..i], record.operationId);
      grouped := grouped[record.operationId := earlier + [record]];
    }
    assert audit[..|audit|] == audit;
  }

  /** The dictionary that says how often each operation must have been delivered. */
  function SetAll(counts: map<string, nat>, ids: seq<string>, count: nat): map<string, nat> {
    if ids == [] then counts else SetAll(counts, ids[..|ids| - 1], count)[ids[|ids| - 1] := count]
  }

  function OperationIds(opId: OperationId, runs: seq<Run>): seq<string> {
    seq(|runs|, i requires 0 <= i < |runs| => opId(runs[i].key))
  }

  function ExpectedCounts(opId: OperationId, e: Evidence): map<string, nat> {
    SetAll(SetAll(map[], OperationIds(opId, e.protected), 1), Keys(e.raw), 2)[e.stop.key := 1]
  }

  method SetEach(counts: map<string, nat>, ids: seq<string>, count: nat) returns (counts': map<string, nat>)
    ensures counts' == SetAll(counts, ids, count)
  {
    counts' := counts;
    for i := 0 to |ids|
      invariant counts' == SetAll(counts, ids[..i], count)
    {
      assert ids[..i + 1][..i] == ids[..i];
      counts' := counts'[ids[i] := count];
    }
    assert ids[..|ids|] == ids;
  }

  /** Every operation was delivered as often as `counts` says, and nothing else was delivered. */
  ghost predicate Delivered(audit: seq<Delivery>, counts: map<string, nat>) {
    && (forall id :: id in counts <==> Deliveries(audit, id) != [])
    && (forall id :: id in counts ==> |Deliveries(audit, id)| == counts[id])
  }

  method CheckDeliveries(opId: OperationId, n: int, e: Evidence) returns (ok: bool, grouped: map<string, seq<Delivery>>)
    ensures ok <==> AuditOk(n, e.audit) && Delivered(e.audit, ExpectedCounts(opId, e))
    ensures ok ==> forall id :: id in grouped <==> Deliveries(e.audit, id) != []
    ensures ok ==> forall id :: id in grouped ==> grouped[id] == Deliveries(e.audit, id)
  {
    ok, grouped := GroupDeliveries(n, e.audit);
    if !ok {
      return;
    }
    var expected := SetEach(map[], OperationIds(opId, e.protected), 1);
    expected := SetEach(expected, Keys(e.raw), 2);
    expected := expected[e.stop.key := 1];
    var counted := map id | id in grouped :: |grouped[id]|;
    ok := counted == expected;
    if Delivered(e.audit, expected) {
      assert counted.Keys == expected.Keys;
      assert counted == expected;
    }
  }

  // ----- The History -----

  predicate HistoryOk(opId: OperationId, n: int, e: Evidence) {
    var ids := Elements(OperationIds(opId, e.protected));
    && |e.prepared| == n && |e.succeeded| == n
    && (set p | p in e.prepared :: p.id) == ids
    && Elements(e.succeeded) == ids
  }

  /** `prepared_by_id`: the request hash last prepared under an identifier. */
  function RequestHash(prepared: seq<Operation>, id: string): string {
    if prepared == [] then ""
    else if prepared[|prepared| - 1].id == id then prepared[|prepared| - 1].requestHash
    else RequestHash(prepared[..|prepared| - 1], id)
  }

  // ----- Observations -----

  datatype Expectation = Expectation(operationId: string, count: int, requestHash: string)

  /** A request hash of zeroes. */
  const NO_REQUEST := Zeros(64)

  function ProtectedFour(prepared: seq<Operation>, r: Run): seq<Expectation> {
    var id := r.operationId;
    [ Expectation(id, 1, NO_REQUEST), Expectation(id, 1, NO_REQUEST),
      Expectation(id, 1, RequestHash(prepared, id)), Expectation(id, 1, NO_REQUEST) ]
  }

  function ProtectedExpected(prepared: seq<Operation>, runs: seq<Run>): seq<Expectation> {
    if runs == [] then []
    else ProtectedExpected(prepared, runs[..|runs| - 1]) + ProtectedFour(prepared, runs[|runs| - 1])
  }

  function RawTwo(r: Run): seq<Expectation> {
    [Expectation(r.operationId, 1, NO_REQUEST), Expectation(r.operationId, 2, NO_REQUEST)]
  }

  function RawExpected(runs: seq<Run>): seq<Expectation> {
    if runs == [] then [] else RawExpected(runs[..|runs| - 1]) + RawTwo(runs[|runs| - 1])
  }

  function Expected(e: Evidence): seq<Expectation> {
    ProtectedExpected(e.prepared, e.protected) + RawExpected(e.raw) + [Expectation(e.stop.key, 1, NO_REQUEST)]
  }

  method ExpectObservations(e: Evidence) returns (expected: seq<Expectation>)
    ensures expected == Expected(e)
  {
    expected := [];
    for i := 0 to |e.protected|
      invariant expected == ProtectedExpected(e.prepared, e.protected[..i])
    {
      assert e.protected[..i + 1][..i] == e.protected[..i];
      expected := expected + ProtectedFour(e.prepared, e.protected[i]);
    }
    assert e.protected[..|e.protected|] == e.protected;
    ghost var first := expected;
    assert expected == first + RawExpected(e.raw[..0]);
    for i := 0 to |e.raw|
      invariant expected == first + RawExpected(e.raw[..i])
    {
      assert e.raw[..i + 1][..i] == e.raw[..i];
      expected := expected + RawTwo(e.raw[i]);
    }
    assert e.raw[..|e.raw|] == e.raw;
    expected := expected + [Expectation(e.stop.key, 1, NO_REQUEST)];
  }

  predicate ObservationOk(o: Observation, x: Expectation) {
    && o.operationId == x.operationId && o.count == x.count && o.requestHash == x.requestHash
    && o.outcome == (if x.count == 1 then "succeeded" else "inconclusive")
    && o.observed > 0
  }

  predicate ObservationsOk(n: int, e: Evidence) {
    var expected := Expected(e);
    && e.queries == |expected|
    && e.outcomes == map["succeeded" := 5 * n + 1, "inconclusive" := n]
    && |e.observations| == |expected|
    && (forall k :: 0 <= k < |expected| ==> ObservationOk(e.observations[k], expected[k]))
    && (forall j, k :: 0 <= j < k < |e.observations| ==> e.observations[j].observed < e.observations[k].observed)
  }

  // ----- The timeline -----

  const PROTECTED_EVENTS :=
    [ "protected_commit_observed", "protected_source_vmm_killed", "old_generation_rejected",
      "protected_replacement_completed" ]
  const RAW_EVENTS := ["raw_commit_observed", "raw_replacement_completed"]

  function Repeated(events: seq<string>, count: nat): seq<string> {
    if count == 0 then [] else Repeated(events, count - 1) + events
  }

  function ExpectedEvents(e: Evidence): seq<string> {
    Repeated(PROTECTED_EVENTS, |e.protected|) + Repeated(RAW_EVENTS, |e.raw|) + ["stop_control_ended"]
  }

  predicate TimelineOk(e: Evidence) {
    && |e.timeline| == |ExpectedEvents(e)|
    && (forall k :: 0 <= k < |e.timeline| ==>
          e.timeline[k].event == ExpectedEvents(e)[k] && e.timeline[k].sequence == k + 1)
    && (forall j, k :: 0 <= j < k < |e.timeline| ==> e.timeline[j].time <= e.timeline[k].time)
  }

  // ----- The barriers -----

  predicate ProtectedBarrier(e: Evidence, i: nat)
    requires i < |e.protected| && 4 * i + 1 < |e.timeline| && 4 * i < |e.observations|
    requires Deliveries(e.audit, e.protected[i].operationId) != []
  {
    var item, commit, killed := e.protected[i], e.timeline[4 * i], e.timeline[4 * i + 1];
    var delivery := Deliveries(e.audit, item.operationId)[0];
    && commit.operationId == item.operationId
    && commit.committed == delivery.committed
    && killed.stopped == item.source.stopped
    && delivery.committed <= e.observations[4 * i].observed <= commit.time <= item.source.stopped <= killed.time
  }

  predicate RawBarrier(e: Evidence, n: nat, i: nat)
    requires i < |e.raw| && 4 * n + 2 * i + 1 < |e.timeline| && 4 * n + 2 * i + 1 < |e.observations|
    requires |Deliveries(e.audit, e.raw[i].operationId)| >= 2
  {
    var item, at := e.raw[i], 4 * n + 2 * i;
    var delivered := Deliveries(e.audit, item.operationId);
    && e.timeline[at].operationId == item.operationId
    && delivered[0].committed <= e.observations[at].observed <= e.timeline[at].time
         <= item.source.stopped <= e.timeline[at + 1].time
    && delivered[1].committed <= e.observations[at + 1].observed
  }

  predicate StopBarrier(e: Evidence)
    requires e.timeline != [] && e.observations != [] && Deliveries(e.audit, e.stop.key) != []
  {
    Deliveries(e.audit, e.stop.key)[0].committed <= e.observations[|e.observations| - 1].observed
      <= e.stop.source.stopped <= e.timeline[|e.timeline| - 1].time
  }

  /** Everything that must hold before the barriers can be looked up. */
  ghost predicate CountedOk(opId: OperationId, n: int, e: Evidence) {
    && ComparisonOk(opId, n, e)
    && AuditOk(n, e.audit) && Delivered(e.audit, ExpectedCounts(opId, e))
    && HistoryOk(opId, n, e)
    && ObservationsOk(n, e)
    && TimelineOk(e)
  }
}
