/**
 What the counts of the egress checker force: exactly-once delivery by grouping and pigeonhole, with
 nothing assumed of the digest, and index arithmetic that picks out each run's own entries.
 */
module EgressTheorems {
  import opened Counting
  import opened Egress

  // ----- Counting deliveries -----

  /** How many deliveries are of operations in `ids`. */
  function CountIn(audit: seq<Delivery>, ids: set<string>): nat {
    if audit == [] then 0
    else CountIn(audit[..|audit| - 1], ids) + if audit[|audit| - 1].operationId in ids then 1 else 0
  }

  lemma {:induction false} CountOne(audit: seq<Delivery>, id: string)
    ensures CountIn(audit, {id}) == |Deliveries(audit, id)|
    decreases |audit|
  {
    if audit != [] {
      CountOne(audit[..|audit| - 1], id);
    }
  }

  lemma {:induction false} CountJoin(audit: seq<Delivery>, a: set<string>, b: set<string>)
    requires a !! b
    ensures CountIn(audit, a + b) == CountIn(audit, a) + CountIn(audit, b)
    decreases |audit|
  {
    if audit != [] {
      CountJoin(audit[..|audit| - 1], a, b);
    }
  }

  lemma OneMoreTimes(count: nat, k: nat)
    ensures count * k + count == count * (k + 1)
  {
  }

  lemma WithoutOne(ids: set<string>, id: string)
    requires id in ids
    ensures |ids - {id}| + 1 == |ids|
  {
  }

  lemma {:induction false} CountUniform(audit: seq<Delivery>, ids: set<string>, count: nat)
    requires forall id :: id in ids ==> |Deliveries(audit, id)| == count
    ensures CountIn(audit, ids) == count * |ids|
    decreases |ids|
  {
    if ids == {} {
      CountNone(audit);
    } else {
      var id :| id in ids;
      WithoutOne(ids, id);
      CountUniform(audit, ids - {id}, count);
      CountOneMore(audit, ids, id);
      OneMoreTimes(count, |ids - {id}|);
    }
  }

  lemma {:induction false} CountOneMore(audit: seq<Delivery>, ids: set<string>, id: string)
    requires id in ids
    ensures CountIn(audit, ids) == CountIn(audit, ids - {id}) + |Deliveries(audit, id)|
  {
    CountJoin(audit, ids - {id}, {id});
    CountOne(audit, id);
    assert ids == (ids - {id}) + {id};
  }

  lemma {:induction false} CountNone(audit: seq<Delivery>)
    ensures CountIn(audit, {}) == 0
    decreases |audit|
  {
    if audit != [] {
      CountNone(audit[..|audit| - 1]);
    }
  }

  lemma {:induction false} CountAll(audit: seq<Delivery>, ids: set<string>)
    requires forall i :: 0 <= i < |audit| ==> audit[i].operationId in ids
    ensures CountIn(audit, ids) == |audit|
    decreases |audit|
  {
    if audit != [] {
      CountAll(audit[..|audit| - 1], ids);
    }
  }

  lemma {:induction false} DeliveryGrouped(audit: seq<Delivery>, i: nat)
    requires i < |audit|
    ensures Deliveries(audit, audit[i].operationId) != []
    decreases |audit|
  {
    if i < |audit| - 1 {
      DeliveryGrouped(audit[..|audit| - 1], i);
    }
  }

  // ----- The expected counts -----

  lemma {:induction false} SetAllIs(counts: map<string, nat>, ids: seq<string>, count: nat)
    ensures SetAll(counts, ids, count).Keys == counts.Keys + Elements(ids)
    ensures forall id :: id in SetAll(counts, ids, count) ==>
      SetAll(counts, ids, count)[id] == if id in ids then count else counts[id]
    decreases |ids|
  {
    if ids != [] {
      var front, last := ids[..|ids| - 1], ids[|ids| - 1];
      SetAllIs(counts, front, count);
      assert ids == front + [last];
    }
  }

  /** Which operations are expected how often, whatever the digest does. */
  lemma {:induction false} ExpectedIs(opId: OperationId, e: Evidence)
    ensures
      var counts := ExpectedCounts(opId, e);
      && counts.Keys == Elements(OperationIds(opId, e.protected)) + Elements(Keys(e.raw)) + {e.stop.key}
      && forall id :: id in counts ==>
           counts[id] == if id == e.stop.key then 1 else if id in Keys(e.raw) then 2 else 1
  {
    SetAllIs(map[], OperationIds(opId, e.protected), 1);
    SetAllIs(SetAll(map[], OperationIds(opId, e.protected), 1), Keys(e.raw), 2);
  }

  // ----- Pigeonhole -----

  lemma KeysApart(e: Evidence)
    requires Distinct(AllKeys(e))
    ensures Distinct(Keys(e.raw)) && e.stop.key !in Keys(e.raw)
  {
    var all, n := AllKeys(e), |e.protected|;
    assert forall i :: 0 <= i < |e.raw| ==> all[n + i] == Keys(e.raw)[i];
    assert all[|all| - 1] == e.stop.key;
    forall i, j | 0 <= i < j < |e.raw| ensures Keys(e.raw)[i] != Keys(e.raw)[j] {
      assert all[n + i] != all[n + j];
    }
    forall i | 0 <= i < |e.raw| ensures Keys(e.raw)[i] != e.stop.key {
      assert all[n + i] != all[|all| - 1];
    }
  }

  /** The protected operations that are neither a raw key nor the stopped key make up `n` deliveries. */
  lemma {:induction false} ProtectedCount(opId: OperationId, n: int, e: Evidence)
    requires ComparisonOk(opId, n, e) && AuditOk(n, e.audit) && Delivered(e.audit, ExpectedCounts(opId, e))
    ensures |Elements(OperationIds(opId, e.protected)) - Elements(Keys(e.raw)) - {e.stop.key}| == n
  {
    var raw, stop := Elements(Keys(e.raw)), {e.stop.key};
    var others := Elements(OperationIds(opId, e.protected)) - raw - stop;
    var counts := ExpectedCounts(opId, e);
    ExpectedIs(opId, e);
    KeysApart(e);
    DistinctIff(Keys(e.raw));
    assert |raw| == n;
    CountUniform(e.audit, raw, 2);
    CountUniform(e.audit, stop, 1);
    CountUniform(e.audit, others, 1);
    CountJoin(e.audit, others, raw);
    CountJoin(e.audit, others + raw, stop);
    assert counts.Keys == others + raw + stop;
    forall i | 0 <= i < |e.audit| ensures e.audit[i].operationId in others + raw + stop {
      DeliveryGrouped(e.audit, i);
      assert e.audit[i].operationId in counts;
    }
    CountAll(e.audit, others + raw + stop);
  }

  /**
   The protected operation ids are pairwise distinct, and none of them is a raw or the stopped key.
   Only counting is used: were two of them equal, the audit would be too short.
   */
  lemma {:induction false} OperationsAreDistinct(opId: OperationId, n: int, e: Evidence)
    requires ComparisonOk(opId, n, e) && AuditOk(n, e.audit) && Delivered(e.audit, ExpectedCounts(opId, e))
    ensures Distinct(OperationIds(opId, e.protected) + Keys(e.raw) + [e.stop.key])
  {
    var ids, raw := OperationIds(opId, e.protected), Keys(e.raw);
    var others := Elements(ids) - Elements(raw) - {e.stop.key};
    ProtectedCount(opId, n, e);
    AtMostLength(ids);
    assert others <= Elements(ids);
    SubsetSize(others, Elements(ids));
    DistinctIff(ids);
    KeysApart(e);
    assert forall i :: 0 <= i < |ids| ==> ids[i] in others;
    JoinDistinct(ids, raw, e.stop.key);
  }

  lemma JoinDistinct(a: seq<string>, b: seq<string>, last: string)
    requires Distinct(a) && Distinct(b)
    requires forall i :: 0 <= i < |a| ==> a[i] !in b && a[i] != last
    requires last !in b
    ensures Distinct(a + b + [last])
  {
    var all := a + b + [last];
    forall i, j | 0 <= i < j < |all| ensures all[i] != all[j] {
      if j < |a| {
        assert a[i] != a[j];
      } else if i < |a| {
        assert all[i] == a[i];
      } else if j < |a| + |b| {
        assert b[i - |a|] != b[j - |a|];
      }
    }
  }

  /**
   Each protected operation was delivered once and each raw key twice, the stopped key once, and every
   delivery belongs to one of them.
   */
  lemma {:induction false} DeliveredExactly(opId: OperationId, n: int, e: Evidence)
    requires ComparisonOk(opId, n, e) && AuditOk(n, e.audit) && Delivered(e.audit, ExpectedCounts(opId, e))
    ensures forall i :: 0 <= i < n ==> |Deliveries(e.audit, e.protected[i].operationId)| == 1
    ensures forall i :: 0 <= i < n ==> |Deliveries(e.audit, e.raw[i].operationId)| == 2
    ensures |Deliveries(e.audit, e.stop.operationId)| == 1
    ensures forall k :: 0 <= k < |e.audit| ==>
      || e.audit[k].operationId == e.stop.operationId
      || (exists i :: 0 <= i < n && e.audit[k].operationId == e.raw[i].operationId)
      || (exists i :: 0 <= i < n && e.audit[k].operationId == e.protected[i].operationId)
  {
    var ids, raw, counts := OperationIds(opId, e.protected), Keys(e.raw), ExpectedCounts(opId, e);
    ExpectedIs(opId, e);
    KeysApart(e);
    OperationsAreDistinct(opId, n, e);
    var all := ids + raw + [e.stop.key];
    forall i | 0 <= i < n ensures |Deliveries(e.audit, e.protected[i].operationId)| == 1 {
      assert RunOk(opId, e.protected[i], i + 1, true);
      assert ids[i] in counts;
      assert all[i] == ids[i] && all[|all| - 1] == e.stop.key;
      assert forall j :: 0 <= j < n ==> all[n + j] == raw[j];
    }
    forall i | 0 <= i < n ensures |Deliveries(e.audit, e.raw[i].operationId)| == 2 {
      assert RunOk(opId, e.raw[i], i + 1, false);
      assert raw[i] in counts;
    }
    assert e.stop.key in counts;
    forall k | 0 <= k < |e.audit|
      ensures
        || e.audit[k].operationId == e.stop.operationId
        || (exists i :: 0 <= i < n && e.audit[k].operationId == e.raw[i].operationId)
        || (exists i :: 0 <= i < n && e.audit[k].operationId == e.protected[i].operationId)
    {
      Attributed(opId, n, e, k);
    }
  }

  lemma {:induction false} Attributed(opId: OperationId, n: int, e: Evidence, k: nat)
    requires ComparisonOk(opId, n, e) && Delivered(e.audit, ExpectedCounts(opId, e)) && k < |e.audit|
    ensures
      || e.audit[k].operationId == e.stop.operationId
      || (exists i :: 0 <= i < n && e.audit[k].operationId == e.raw[i].operationId)
      || (exists i :: 0 <= i < n && e.audit[k].operationId == e.protected[i].operationId)
  {
    var id := e.audit[k].operationId;
    ExpectedIs(opId, e);
    DeliveryGrouped(e.audit, k);
    assert id in ExpectedCounts(opId, e);
    if id in Keys(e.raw) {
      var i :| 0 <= i < n && id == Keys(e.raw)[i];
      assert RunOk(opId, e.raw[i], i + 1, false);
      assert id == e.raw[i].operationId;
    } else if id != e.stop.key {
      var i :| 0 <= i < n && id == OperationIds(opId, e.protected)[i];
      assert RunOk(opId, e.protected[i], i + 1, true);
      assert id == e.protected[i].operationId;
    }
  }

  // ----- The History -----

  function PreparedIds(prepared: seq<Operation>): seq<string> {
    seq(|prepared|, i requires 0 <= i < |prepared| => prepared[i].id)
  }

  lemma PreparedElements(prepared: seq<Operation>)
    ensures Elements(PreparedIds(prepared)) == set p | p in prepared :: p.id
  {
    var ids := PreparedIds(prepared);
    forall i | 0 <= i < |prepared| ensures ids[i] in (set p | p in prepared :: p.id) {
      assert prepared[i] in prepared;
    }
    forall p | p in prepared ensures p.id in ids {
      var i :| 0 <= i < |prepared| && prepared[i] == p;
      assert ids[i] == p.id;
    }
  }

  /** Every protected operation was prepared exactly once and succeeded exactly once, and no other was. */
  lemma {:induction false} PreparedAndSucceededOnce(opId: OperationId, n: int, e: Evidence)
    requires ComparisonOk(opId, n, e) && AuditOk(n, e.audit) && Delivered(e.audit, ExpectedCounts(opId, e))
    requires HistoryOk(opId, n, e)
    ensures multiset(PreparedIds(e.prepared)) == multiset(OperationIds(opId, e.protected))
    ensures multiset(e.succeeded) == multiset(OperationIds(opId, e.protected))
    ensures Distinct(OperationIds(opId, e.protected))
  {
    var ids := OperationIds(opId, e.protected);
    OperationsAreDistinct(opId, n, e);
    var all := ids + Keys(e.raw) + [e.stop.key];
    assert forall i :: 0 <= i < |ids| ==> all[i] == ids[i];
    assert Distinct(ids);
    PreparedElements(e.prepared);
    SameElementsOnce(PreparedIds(e.prepared), ids);
    SameElementsOnce(e.succeeded, ids);
  }

  lemma {:induction false} SameElementsOnce(s: seq<string>, ids: seq<string>)
    requires |s| == |ids| && Distinct(ids) && Elements(s) == Elements(ids)
    ensures multiset(s) == multiset(ids)
  {
    DistinctIff(s);
    DistinctIff(ids);
    forall x ensures multiset(s)[x] == multiset(ids)[x] {
      OnceOrNever(s, x);
      OnceOrNever(ids, x);
      assert x in Elements(s) <==> x in Elements(ids);
    }
  }

  // ----- Cells -----

  /** The cells are numbered 1 to 4n + 1, and no two share a VMM identity. */
  lemma {:induction false} CellsAreDistinct(opId: OperationId, n: int, e: Evidence)
    requires ComparisonOk(opId, n, e)
    ensures |AllCells(e)| == 4 * n + 1
    ensures forall k :: 0 <= k < |AllCells(e)| ==> AllCells(e)[k].generation == k + 1
    ensures forall j, k :: 0 <= j < k < |AllCells(e)| ==> AllCells(e)[j].identity != AllCells(e)[k].identity
  {
    CellsLength(e.protected);
    CellsLength(e.raw);
    FollowNumbers(AllCells(e));
  }

  lemma {:induction false} CellsLength(runs: seq<Run>)
    ensures |Cells(runs)| == 2 * |runs|
    decreases |runs|
  {
    if runs != [] {
      CellsLength(runs[..|runs| - 1]);
    }
  }

  lemma {:induction false} FollowNumbers(cells: seq<Cell>)
    requires Follow(cells, 0, {})
    ensures forall k :: 0 <= k < |cells| ==> cells[k].generation == k + 1
    ensures forall j, k :: 0 <= j < k < |cells| ==> cells[j].identity != cells[k].identity
    decreases |cells|
  {
    if cells != [] {
      var front, last := cells[..|cells| - 1], cells[|cells| - 1];
      FollowNumbers(front);
      forall j | 0 <= j < |front| ensures cells[j].identity != last.identity {
        assert front[j] in front;
        assert front[j].identity in Identities(front);
      }
    }
  }

  // ----- Offsets -----

  lemma {:induction false} ProtectedAt(prepared: seq<Operation>, runs: seq<Run>, i: nat, j: nat)
    requires i < |runs| && j < 4
    ensures |ProtectedExpected(prepared, runs)| == 4 * |runs|
    ensures ProtectedExpected(prepared, runs)[4 * i + j] == ProtectedFour(prepared, runs[i])[j]
    decreases |runs|
  {
    var front := runs[..|runs| - 1];
    ProtectedLength(prepared, front);
    if i < |front| {
      ProtectedAt(prepared, front, i, j);
    }
  }

  lemma {:induction false} ProtectedLength(prepared: seq<Operation>, runs: seq<Run>)
    ensures |ProtectedExpected(prepared, runs)| == 4 * |runs|
    decreases |runs|
  {
    if runs != [] {
      ProtectedLength(prepared, runs[..|runs| - 1]);
    }
  }

  lemma {:induction false} RawAt(runs: seq<Run>, i: nat, j: nat)
    requires i < |runs| && j < 2
    ensures |RawExpected(runs)| == 2 * |runs|
    ensures RawExpected(runs)[2 * i + j] == RawTwo(runs[i])[j]
    decreases |runs|
  {
    var front := runs[..|runs| - 1];
    RawLength(front);
    if i < |front| {
      RawAt(front, i, j);
    }
  }

  lemma {:induction false} RawLength(runs: seq<Run>)
    ensures |RawExpected(runs)| == 2 * |runs|
    decreases |runs|
  {
    if runs != [] {
      RawLength(runs[..|runs| - 1]);
    }
  }

  /** Which run entry `k` of the observations belongs to. */
  function Owner(n: nat, k: nat): nat {
    if k < 4 * n then k / 4 else if k < 6 * n then n + (k - 4 * n) / 2 else 2 * n
  }

  /** The operation of the run with number `owner`: protected runs first, then raw runs, then the stopped one. */
  function OwnerId(e: Evidence, owner: nat): string
    requires owner <= |e.protected| + |e.raw|
  {
    var n := |e.protected|;
    if owner < n then e.protected[owner].operationId
    else if owner < n + |e.raw| then e.raw[owner - n].operationId
    else e.stop.key
  }

  lemma {:induction false} ExpectedAt(e: Evidence, k: nat)
    requires |e.protected| == |e.raw| && k < 6 * |e.raw| + 1
    ensures |Expected(e)| == 6 * |e.raw| + 1
    ensures Expected(e)[k].operationId == OwnerId(e, Owner(|e.raw|, k))
    ensures Expected(e)[k].count == if 4 * |e.raw| <= k < 6 * |e.raw| && (k - 4 * |e.raw|) % 2 == 1 then 2 else 1
  {
    var n := |e.raw|;
    ProtectedLength(e.prepared, e.protected);
    RawLength(e.raw);
    if k < 4 * n {
      ProtectedAt(e.prepared, e.protected, k / 4, k % 4);
    } else if k < 6 * n {
      RawAt(e.raw, (k - 4 * n) / 2, (k - 4 * n) % 2);
    }
  }

  lemma ShiftedBy(a: seq<Expectation>, b: seq<Expectation>, c: seq<Expectation>, k: nat)
    requires k < |b|
    ensures (a + b + c)[|a| + k] == b[k]
  {
  }

  lemma {:induction false} TwoExpected(e: Evidence, n: nat, i: nat)
    requires |e.protected| == |e.raw| == n && i < n
    ensures
      var id, all := e.raw[i].operationId, Expected(e);
      && |all| == 6 * n + 1
      && all[4 * n + 2 * i] == Expectation(id, 1, NO_REQUEST)
      && all[4 * n + 2 * i + 1] == Expectation(id, 2, NO_REQUEST)
  {
    var a, b, c := ProtectedExpected(e.prepared, e.protected), RawExpected(e.raw),
      [Expectation(e.stop.key, 1, NO_REQUEST)];
    ProtectedLength(e.prepared, e.protected);
    RawAt(e.raw, i, 0);
    RawAt(e.raw, i, 1);
    ShiftedBy(a, b, c, 2 * i + 0);
    ShiftedBy(a, b, c, 2 * i + 1);
  }

  /** The two observations at `at` are of raw run `i`, one row and then two. */
  predicate IsPairAt(e: Evidence, i: nat, at: nat)
    requires i < |e.raw|
  {
    && at + 1 < |e.observations|
    && e.observations[at].operationId == e.raw[i].operationId && e.observations[at].count == 1
    && e.observations[at + 1].operationId == e.raw[i].operationId && e.observations[at + 1].count == 2
  }

  lemma {:induction false} RawPair(n: int, e: Evidence, i: nat, at: nat)
    requires |e.protected| == |e.raw| == n && ObservationsOk(n, e) && i < n && at == 4 * n + 2 * i
    ensures IsPairAt(e, i, at)
  {
    TwoExpected(e, n, i);
    assert ObservationOk(e.observations[at], Expected(e)[at]);
    assert ObservationOk(e.observations[at + 1], Expected(e)[at + 1]);
  }

  lemma OwnersAreDistinct(opId: OperationId, n: int, e: Evidence, a: nat, b: nat)
    requires ComparisonOk(opId, n, e) && AuditOk(n, e.audit) && Delivered(e.audit, ExpectedCounts(opId, e))
    requires a < b <= 2 * n
    ensures OwnerId(e, a) != OwnerId(e, b)
  {
    OperationsAreDistinct(opId, n, e);
    var all := OperationIds(opId, e.protected) + Keys(e.raw) + [e.stop.key];
    forall o: nat | o <= 2 * n ensures all[o] == OwnerId(e, o) {
      if o < n {
        assert RunOk(opId, e.protected[o], o + 1, true);
      } else if o < 2 * n {
        assert RunOk(opId, e.raw[o - n], o - n + 1, false);
      }
    }
  }

  /**
   The offsets select exactly the entries of their own run: entry `k` of the 6n + 1 observations is
   about run `o` if and only if `o` is the run that the offsets assign it to.
   */
  lemma {:induction false} ObservationsOfTheirRun(opId: OperationId, n: int, e: Evidence, k: nat, o: nat)
    requires CountedOk(opId, n, e) && k < |e.observations| && o <= 2 * n
    ensures |e.observations| == 6 * n + 1
    ensures e.observations[k].operationId == OwnerId(e, o) <==> o == Owner(n, k)
  {
    ExpectedAt(e, 0);
    ExpectedAt(e, k);
    assert ObservationOk(e.observations[k], Expected(e)[k]);
    var owner := Owner(n, k);
    if o < owner {
      OwnersAreDistinct(opId, n, e, o, owner);
    } else if owner < o {
      OwnersAreDistinct(opId, n, e, owner, o);
    }
  }

  // ----- Outcomes -----

  function CountOutcome(observations: seq<Observation>, outcome: string): nat {
    if observations == [] then 0
    else
      CountOutcome(observations[..|observations| - 1], outcome)
      + if observations[|observations| - 1].outcome == outcome then 1 else 0
  }

  /** Entry `k` is the second observation of a raw run. */
  predicate IsSecond(n: nat, k: nat) {
    4 * n <= k < 6 * n && (k - 4 * n) % 2 == 1
  }

  /** How many of the first `k` entries are. */
  function SecondsAmong(n: nat, k: nat): nat {
    if k <= 4 * n then 0 else if k <= 6 * n then (k - 4 * n) / 2 else n
  }

  lemma OneMoreSecond(n: nat, k: nat)
    ensures SecondsAmong(n, k + 1) == SecondsAmong(n, k) + if IsSecond(n, k) then 1 else 0
  {
  }

  ghost predicate AsExpected(e: Evidence) {
    && |e.protected| == |e.raw| && |e.observations| == 6 * |e.raw| + 1 == |Expected(e)|
    && forall j :: 0 <= j < |Expected(e)| ==> ObservationOk(e.observations[j], Expected(e)[j])
  }

  lemma OutcomeAt(e: Evidence, k: nat)
    requires AsExpected(e) && k < |e.observations|
    ensures e.observations[k].outcome == if IsSecond(|e.raw|, k) then "inconclusive" else "succeeded"
  {
    ExpectedAt(e, k);
    assert ObservationOk(e.observations[k], Expected(e)[k]);
  }

  lemma CountSnoc(observations: seq<Observation>, k: nat, outcome: string)
    requires k < |observations|
    ensures
      CountOutcome(observations[..k + 1], outcome)
      == CountOutcome(observations[..k], outcome) + if observations[k].outcome == outcome then 1 else 0
  {
    assert observations[..k + 1][..k] == observations[..k];
  }

  lemma {:induction false} SecondsCounted(observations: seq<Observation>, n: nat, k: nat, outcome: string)
    requires k <= |observations|
    requires forall j :: 0 <= j < |observations| ==> (observations[j].outcome == outcome <==> IsSecond(n, j))
    ensures CountOutcome(observations[..k], outcome) == SecondsAmong(n, k)
    decreases k
  {
    if k > 0 {
      SecondsCounted(observations, n, k - 1, outcome);
      OneMoreSecond(n, k - 1);
      CountSnoc(observations, k - 1, outcome);
    }
  }

  lemma {:induction false} OthersCounted(observations: seq<Observation>, n: nat, k: nat, outcome: string)
    requires k <= |observations|
    requires forall j :: 0 <= j < |observations| ==> (observations[j].outcome == outcome <==> !IsSecond(n, j))
    ensures CountOutcome(observations[..k], outcome) == k - SecondsAmong(n, k)
    decreases k
  {
    if k > 0 {
      OthersCounted(observations, n, k - 1, outcome);
      OneMoreSecond(n, k - 1);
      CountSnoc(observations, k - 1, outcome);
    }
  }

  lemma {:induction false} CountedAsExpected(opId: OperationId, n: int, e: Evidence)
    requires CountedOk(opId, n, e)
    ensures AsExpected(e) && |e.raw| == n
    ensures e.outcomes == map["succeeded" := 5 * n + 1, "inconclusive" := n]
  {
    ExpectedAt(e, 0);
  }

  lemma {:induction false} AllOutcomes(e: Evidence)
    requires AsExpected(e)
    ensures CountOutcome(e.observations, "succeeded") == 5 * |e.raw| + 1
    ensures CountOutcome(e.observations, "inconclusive") == |e.raw|
  {
    var n, observations := |e.raw|, e.observations;
    forall k | 0 <= k < |observations|
      ensures observations[k].outcome == if IsSecond(n, k) then "inconclusive" else "succeeded"
    {
      OutcomeAt(e, k);
    }
    assert "succeeded"[0] != "inconclusive"[0];
    SecondsCounted(observations, n, |observations|, "inconclusive");
    OthersCounted(observations, n, |observations|, "succeeded");
    assert observations[..|observations|] == observations;
  }

  lemma ReportedOutcomes(outcomes: map<string, int>, n: int)
    requires outcomes == map["succeeded" := 5 * n + 1, "inconclusive" := n]
    ensures "succeeded" in outcomes && outcomes["succeeded"] == 5 * n + 1
    ensures "inconclusive" in outcomes && outcomes["inconclusive"] == n
  {
    assert "succeeded"[0] != "inconclusive"[0];
  }

  /** The observer reports as many outcomes of each kind as the observations have. */
  ghost predicate Reported(n: int, e: Evidence) {
    && |e.observations| == 6 * n + 1
    && "succeeded" in e.outcomes && CountOutcome(e.observations, "succeeded") == 5 * n + 1 == e.outcomes["succeeded"]
    && "inconclusive" in e.outcomes && CountOutcome(e.observations, "inconclusive") == n == e.outcomes["inconclusive"]
  }

  /** Of the 6n + 1 observations, 5n + 1 succeeded and n are inconclusive, as the observer reports. */
  lemma {:induction false} OutcomesCounted(opId: OperationId, n: int, e: Evidence)
    requires CountedOk(opId, n, e)
    ensures Reported(n, e)
  {
    CountedAsExpected(opId, n, e);
    AllOutcomes(e);
    ReportedOutcomes(e.outcomes, n);
  }

  // ----- Events -----

  lemma {:induction false} RepeatedAt(events: seq<string>, count: nat, i: nat, j: nat)
    requires i < count && j < |events|
    ensures i * |events| + j < |Repeated(events, count)|
    ensures Repeated(events, count)[i * |events| + j] == events[j]
    decreases count
  {
    RepeatedLength(events, count - 1);
    RepeatedLength(events, count);
    if i < count - 1 {
      RepeatedAt(events, count - 1, i, j);
    }
  }

  lemma {:induction false} RepeatedLength(events: seq<string>, count: nat)
    ensures |Repeated(events, count)| == count * |events|
  {
    if count > 0 {
      RepeatedLength(events, count - 1);
      assert count * |events| == (count - 1) * |events| + |events|;
    }
  }

  lemma EventsLength(e: Evidence)
    ensures |Repeated(PROTECTED_EVENTS, |e.protected|)| == 4 * |e.protected|
    ensures |Repeated(RAW_EVENTS, |e.raw|)| == 2 * |e.raw|
    ensures |ExpectedEvents(e)| == 4 * |e.protected| + 2 * |e.raw| + 1
  {
    RepeatedLength(PROTECTED_EVENTS, |e.protected|);
    RepeatedLength(RAW_EVENTS, |e.raw|);
  }

  lemma {:induction false} ProtectedEvents(e: Evidence, i: nat)
    requires i < |e.protected|
    ensures |ExpectedEvents(e)| == 4 * |e.protected| + 2 * |e.raw| + 1
    ensures ExpectedEvents(e)[4 * i] == "protected_commit_observed"
    ensures ExpectedEvents(e)[4 * i + 1] == "protected_source_vmm_killed"
  {
    EventsLength(e);
    RepeatedAt(PROTECTED_EVENTS, |e.protected|, i, 0);
    RepeatedAt(PROTECTED_EVENTS, |e.protected|, i, 1);
  }

  lemma {:induction false} RawEvents(e: Evidence, i: nat)
    requires i < |e.raw|
    ensures |ExpectedEvents(e)| == 4 * |e.protected| + 2 * |e.raw| + 1
    ensures ExpectedEvents(e)[4 * |e.protected| + 2 * i] == "raw_commit_observed"
    ensures ExpectedEvents(e)[4 * |e.protected| + 2 * i + 1] == "raw_replacement_completed"
  {
    EventsLength(e);
    RepeatedAt(RAW_EVENTS, |e.raw|, i, 0);
    RepeatedAt(RAW_EVENTS, |e.raw|, i, 1);
  }

  /** The offsets into the timeline select a commit and what ended that run's source. */
  lemma {:induction false} EventsOfTheirRun(opId: OperationId, n: int, e: Evidence, i: nat)
    requires CountedOk(opId, n, e) && i < n
    ensures |e.timeline| == 6 * n + 1
    ensures e.timeline[4 * i].event == "protected_commit_observed"
    ensures e.timeline[4 * i + 1].event == "protected_source_vmm_killed"
    ensures e.timeline[4 * n + 2 * i].event == "raw_commit_observed"
    ensures e.timeline[4 * n + 2 * i + 1].event == "raw_replacement_completed"
    ensures e.timeline[|e.timeline| - 1].event == "stop_control_ended"
  {
    EventsLength(e);
    ProtectedEvents(e, i);
    RawEvents(e, i);
  }
}
