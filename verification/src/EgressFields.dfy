/**
 Exactly which evidence is accepted, said place by place of the fields of runs, deliveries, operations,
 observations and timeline entries, without the lists and groups that the checker builds.
 */
module EgressFields {
  import opened Counting
  import opened Decimals
  import opened Egress
  import opened EgressTheorems
  import opened EgressCheck

  // ----- How much there is -----

  ghost predicate SizesHold(n: int, e: Evidence) {
    && 0 <= n == |e.protected| == |e.raw| == |e.prepared| == |e.succeeded|
    && |e.audit| == 3 * n + 1
    && |e.observations| == |e.timeline| == e.queries == 6 * n + 1
  }

  // ----- Runs -----

  predicate IsHexKey(s: string) {
    |s| == 32 && forall i :: 0 <= i < 32 ==> IsHexDigit(s[i])
  }

  lemma HexKeyIff(s: string)
    ensures IsKey(s) <==> IsHexKey(s)
  {
    forall i | 0 <= i < |s| ensures IsHexDigit(s[i]) <==> '0' <= s[i] <= '9' || 'a' <= s[i] <= 'f' {
      HexDigitIff(s[i]);
    }
  }

  predicate ProtectedRun(opId: OperationId, r: Run, i: nat) {
    r.run == i + 1 && IsHexKey(r.key) && r.operationId == opId(r.key)
  }

  predicate RawRun(r: Run, i: nat) {
    r.run == i + 1 && IsHexKey(r.key) && r.operationId == r.key
  }

  /** The key of run `o`: protected runs come first, then raw runs, then the stopped one. */
  function KeyAt(n: nat, e: Evidence, o: nat): string
    requires |e.protected| == |e.raw| == n && o <= 2 * n
  {
    if o < n then e.protected[o].key else if o < 2 * n then e.raw[o - n].key else e.stop.key
  }

  /** The cell that was started after `g` others. */
  function CellAt(n: nat, e: Evidence, g: nat): Cell
    requires |e.protected| == |e.raw| == n && g <= 4 * n
  {
    if g == 4 * n then e.stop.source
    else
      var r := if g < 2 * n then e.protected[g / 2] else e.raw[(g - 2 * n) / 2];
      if g % 2 == 0 then r.source else r.replacement
  }

  ghost predicate CellHolds(n: nat, e: Evidence, g: nat)
    requires |e.protected| == |e.raw| == n && g <= 4 * n
  {
    CellAt(n, e, g).generation == g + 1 && CellAt(n, e, g).started < CellAt(n, e, g).stopped
  }

  /** Runs are numbered and well formed, no two share a key, and no two cells share an identity. */
  ghost predicate RunsHold(opId: OperationId, n: nat, e: Evidence)
    requires |e.protected| == |e.raw| == n
  {
    && (forall i :: 0 <= i < n ==> ProtectedRun(opId, e.protected[i], i) && RawRun(e.raw[i], i))
    && IsHexKey(e.stop.key) && e.stop.operationId == e.stop.key
    && (forall a: nat, b: nat :: a < b <= 2 * n ==> KeyAt(n, e, a) != KeyAt(n, e, b))
    && (forall g: nat :: g <= 4 * n ==> CellHolds(n, e, g))
    && (forall g: nat, h: nat :: g < h <= 4 * n ==> CellAt(n, e, g).identity != CellAt(n, e, h).identity)
  }

  lemma {:induction false} CellsOfRun(runs: seq<Run>, g: nat)
    requires g < 2 * |runs|
    ensures |Cells(runs)| == 2 * |runs|
    ensures Cells(runs)[g] == if g % 2 == 0 then runs[g / 2].source else runs[g / 2].replacement
    decreases |runs|
  {
    CellsLength(runs);
    CellsLength(runs[..|runs| - 1]);
    if g < 2 * |runs| - 2 {
      CellsOfRun(runs[..|runs| - 1], g);
    }
  }

  lemma {:induction false} AllCellsLength(n: nat, e: Evidence)
    requires |e.protected| == |e.raw| == n
    ensures |Cells(e.protected)| == |Cells(e.raw)| == 2 * n && |AllCells(e)| == 4 * n + 1
  {
    CellsLength(e.protected);
    CellsLength(e.raw);
  }

  lemma EvenApart(n: nat, g: nat)
    requires g >= 2 * n
    ensures (g - 2 * n) % 2 == g % 2
  {
  }

  lemma {:induction false} AllCellsAt(n: nat, e: Evidence, g: nat)
    requires |e.protected| == |e.raw| == n && g <= 4 * n
    ensures |AllCells(e)| == 4 * n + 1 && AllCells(e)[g] == CellAt(n, e, g)
  {
    AllCellsLength(n, e);
    if g < 2 * n {
      CellsOfRun(e.protected, g);
    } else if g < 4 * n {
      CellsOfRun(e.raw, g - 2 * n);
      EvenApart(n, g);
    }
  }

  /** The cells are numbered from one and were started before they stopped, each with its own identity. */
  ghost predicate Numbered(cells: seq<Cell>) {
    && (forall k :: 0 <= k < |cells| ==> cells[k].generation == k + 1 && cells[k].started < cells[k].stopped)
    && (forall j, k :: 0 <= j < k < |cells| ==> cells[j].identity != cells[k].identity)
  }

  lemma IdentityIn(cells: seq<Cell>, p: Process)
    ensures p in Identities(cells) <==> exists j :: 0 <= j < |cells| && cells[j].identity == p
  {
    if p in Identities(cells) {
      var c :| c in cells && c.identity == p;
      var j :| 0 <= j < |cells| && cells[j] == c;
      assert cells[j].identity == p;
    }
  }

  lemma NumberedSnoc(cells: seq<Cell>, cell: Cell)
    ensures
      Numbered(cells + [cell]) <==>
      && Numbered(cells)
      && cell.generation == |cells| + 1 && cell.started < cell.stopped && cell.identity !in Identities(cells)
  {
    var all, n := cells + [cell], |cells|;
    IdentityIn(cells, cell.identity);
    assert forall k :: 0 <= k < n ==> all[k] == cells[k];
    assert all[n] == cell;
    if Numbered(all) {
      forall k | 0 <= k < n ensures cells[k].generation == k + 1 && cells[k].started < cells[k].stopped {
        assert all[k].generation == k + 1 && all[k].started < all[k].stopped;
      }
      forall j, k | 0 <= j < k < n ensures cells[j].identity != cells[k].identity {
        assert all[j].identity != all[k].identity;
      }
      forall j | 0 <= j < n ensures cells[j].identity != cell.identity {
        assert all[j].identity != all[n].identity;
      }
    }
  }

  lemma {:induction false} FollowIff(cells: seq<Cell>)
    ensures Follow(cells, 0, {}) <==> Numbered(cells)
    decreases |cells|
  {
    if cells != [] {
      var front, last := cells[..|cells| - 1], cells[|cells| - 1];
      FollowIff(front);
      FollowOne(front, last, 0, {});
      NumberedSnoc(front, last);
      assert cells == front + [last];
    }
  }

  lemma {:induction false} CellsHoldIff(n: nat, e: Evidence)
    requires |e.protected| == |e.raw| == n
    ensures
      Follow(AllCells(e), 0, {}) <==>
      && (forall g: nat :: g <= 4 * n ==> CellHolds(n, e, g))
      && (forall g: nat, h: nat :: g < h <= 4 * n ==> CellAt(n, e, g).identity != CellAt(n, e, h).identity)
  {
    var cells := AllCells(e);
    FollowIff(cells);
    AllCellsAt(n, e, 0);
    forall g: nat | g <= 4 * n ensures cells[g] == CellAt(n, e, g) { AllCellsAt(n, e, g); }
    if Numbered(cells) {
      forall g: nat | g <= 4 * n ensures CellHolds(n, e, g) {
        assert cells[g] == CellAt(n, e, g);
      }
      forall g: nat, h: nat | g < h <= 4 * n ensures CellAt(n, e, g).identity != CellAt(n, e, h).identity {
        assert cells[g].identity != cells[h].identity;
      }
    }
    if (forall g: nat :: g <= 4 * n ==> CellHolds(n, e, g))
       && forall g: nat, h: nat :: g < h <= 4 * n ==> CellAt(n, e, g).identity != CellAt(n, e, h).identity
    {
      forall k: nat | k < |cells| ensures cells[k].generation == k + 1 && cells[k].started < cells[k].stopped {
        assert CellHolds(n, e, k);
      }
      forall j: nat, k: nat | j < k < |cells| ensures cells[j].identity != cells[k].identity {
        assert CellAt(n, e, j).identity != CellAt(n, e, k).identity;
      }
    }
  }

  lemma {:induction false} KeysDifferIff(n: nat, e: Evidence)
    requires |e.protected| == |e.raw| == n
    ensures
      Distinct(AllKeys(e)) <==> forall a: nat, b: nat :: a < b <= 2 * n ==> KeyAt(n, e, a) != KeyAt(n, e, b)
  {
    var all := AllKeys(e);
    assert |all| == 2 * n + 1 && forall o: nat :: o <= 2 * n ==> all[o] == KeyAt(n, e, o);
    if Distinct(all) {
      forall a: nat, b: nat | a < b <= 2 * n ensures KeyAt(n, e, a) != KeyAt(n, e, b) {
        assert all[a] != all[b];
      }
    }
    if forall a: nat, b: nat :: a < b <= 2 * n ==> KeyAt(n, e, a) != KeyAt(n, e, b) {
      forall a: nat, b: nat | a < b < |all| ensures all[a] != all[b] {
        assert KeyAt(n, e, a) != KeyAt(n, e, b);
      }
    }
  }

  lemma RunIff(opId: OperationId, r: Run, i: nat)
    ensures RunOk(opId, r, i + 1, true) <==> ProtectedRun(opId, r, i)
    ensures RunOk(opId, r, i + 1, false) <==> RawRun(r, i)
  {
    HexKeyIff(r.key);
  }

  lemma {:induction false} ComparisonIff(opId: OperationId, n: nat, e: Evidence)
    requires |e.protected| == |e.raw| == n
    ensures ComparisonOk(opId, n, e) <==> RunsHold(opId, n, e)
  {
    forall i: nat | i < n
      ensures RunOk(opId, e.protected[i], i + 1, true) <==> ProtectedRun(opId, e.protected[i], i)
      ensures RunOk(opId, e.raw[i], i + 1, false) <==> RawRun(e.raw[i], i)
    {
      RunIff(opId, e.protected[i], i);
      RunIff(opId, e.raw[i], i);
    }
    HexKeyIff(e.stop.key);
    CellsHoldIff(n, e);
    KeysDifferIff(n, e);
  }

  // ----- Deliveries -----

  /** The places of the deliveries of one operation. */
  function DeliveredAt(audit: seq<Delivery>, id: string): set<int> {
    set k | 0 <= k < |audit| && audit[k].operationId == id
  }

  lemma DeliveredSnoc(audit: seq<Delivery>, d: Delivery, id: string)
    ensures |DeliveredAt(audit + [d], id)| == |DeliveredAt(audit, id)| + if d.operationId == id then 1 else 0
  {
    assert |audit| !in DeliveredAt(audit, id);
    assert DeliveredAt(audit + [d], id) == DeliveredAt(audit, id) + if d.operationId == id then {|audit|} else {};
  }

  lemma {:induction false} DeliveriesCounted(audit: seq<Delivery>, id: string)
    ensures |Deliveries(audit, id)| == |DeliveredAt(audit, id)|
    decreases |audit|
  {
    if audit != [] {
      var front, last := audit[..|audit| - 1], audit[|audit| - 1];
      DeliveriesCounted(front, id);
      DeliveredSnoc(front, last, id);
      assert audit == front + [last];
    }
  }

  /** The delivery at place `k` stands in its group behind those that came before it. */
  lemma {:induction false} DeliveryStands(audit: seq<Delivery>, id: string, k: nat)
    requires k in DeliveredAt(audit, id)
    ensures
      var before, all := Deliveries(audit[..k], id), Deliveries(audit, id);
      |before| < |all| && all[|before|] == audit[k]
    decreases |audit|
  {
    var front := audit[..|audit| - 1];
    if k < |front| {
      DeliveryStands(front, id, k);
      assert front[..k] == audit[..k];
    } else {
      assert front == audit[..k];
    }
  }

  lemma {:induction false} OnlyDelivery(audit: seq<Delivery>, id: string, k: nat)
    requires k in DeliveredAt(audit, id) && |Deliveries(audit, id)| == 1
    ensures Deliveries(audit, id)[0] == audit[k]
  {
    DeliveryStands(audit, id, k);
  }

  lemma {:induction false} TwoDeliveries(audit: seq<Delivery>, id: string, j: nat, k: nat)
    requires j in DeliveredAt(audit, id) && k in DeliveredAt(audit, id) && j < k && |Deliveries(audit, id)| == 2
    ensures Deliveries(audit, id)[0] == audit[j] && Deliveries(audit, id)[1] == audit[k]
  {
    DeliveryStands(audit, id, j);
    DeliveryStands(audit, id, k);
    DeliveryStands(audit[..k], id, j);
    assert audit[..k][..j] == audit[..j];
  }

  /** The delivery at `k` is of a run. */
  ghost predicate OfSomeRun(e: Evidence, k: nat)
    requires k < |e.audit|
  {
    || e.audit[k].operationId == e.stop.operationId
    || (exists i :: 0 <= i < |e.raw| && e.audit[k].operationId == e.raw[i].operationId)
    || (exists i :: 0 <= i < |e.protected| && e.audit[k].operationId == e.protected[i].operationId)
  }

  /**
   Deliveries are numbered and committed; each protected run has one, each raw run two and the stopped run
   one, and every delivery is of a run.
   */
  ghost predicate DeliveriesHold(n: nat, e: Evidence)
    requires |e.protected| == |e.raw| == n
  {
    && (forall k :: 0 <= k < |e.audit| ==> e.audit[k].ordinal == k + 1 && e.audit[k].committed > 0)
    && (forall i :: 0 <= i < n ==> |DeliveredAt(e.audit, e.protected[i].operationId)| == 1)
    && (forall i :: 0 <= i < n ==> |DeliveredAt(e.audit, e.raw[i].operationId)| == 2)
    && |DeliveredAt(e.audit, e.stop.operationId)| == 1
    && forall k :: 0 <= k < |e.audit| ==> OfSomeRun(e, k)
  }

  lemma {:induction false} DeliveriesDoHold(opId: OperationId, n: nat, e: Evidence)
    requires ComparisonOk(opId, n, e) && AuditOk(n, e.audit) && Delivered(e.audit, ExpectedCounts(opId, e))
    ensures DeliveriesHold(n, e)
  {
    DeliveredExactly(opId, n, e);
    forall i | 0 <= i < n
      ensures |DeliveredAt(e.audit, e.protected[i].operationId)| == 1
      ensures |DeliveredAt(e.audit, e.raw[i].operationId)| == 2
    {
      DeliveriesCounted(e.audit, e.protected[i].operationId);
      DeliveriesCounted(e.audit, e.raw[i].operationId);
    }
    DeliveriesCounted(e.audit, e.stop.operationId);
    forall k | 0 <= k < |e.audit| ensures OfSomeRun(e, k) {
    }
  }

  lemma {:induction false} SomeDelivery(audit: seq<Delivery>, id: string) returns (k: nat)
    requires Deliveries(audit, id) != []
    ensures k < |audit| && audit[k].operationId == id
    decreases |audit|
  {
    if audit[|audit| - 1].operationId == id {
      k := |audit| - 1;
    } else {
      k := SomeDelivery(audit[..|audit| - 1], id);
    }
  }

  /** How often an operation must have been delivered. */
  lemma {:induction false} CountOf(opId: OperationId, n: nat, e: Evidence, id: string)
    requires ComparisonOk(opId, n, e) && DeliveriesHold(n, e) && id in ExpectedCounts(opId, e)
    ensures |Deliveries(e.audit, id)| == ExpectedCounts(opId, e)[id] > 0
  {
    ExpectedIs(opId, e);
    DeliveriesCounted(e.audit, id);
    if id == e.stop.key {
    } else if id in Keys(e.raw) {
      var i :| 0 <= i < n && Keys(e.raw)[i] == id;
      assert RunOk(opId, e.raw[i], i + 1, false);
    } else {
      var i :| 0 <= i < n && OperationIds(opId, e.protected)[i] == id;
      assert RunOk(opId, e.protected[i], i + 1, true);
    }
  }

  lemma {:induction false} CountedOf(opId: OperationId, n: nat, e: Evidence, id: string)
    requires ComparisonOk(opId, n, e) && DeliveriesHold(n, e) && Deliveries(e.audit, id) != []
    ensures id in ExpectedCounts(opId, e)
  {
    ExpectedIs(opId, e);
    var k := SomeDelivery(e.audit, id);
    assert OfSomeRun(e, k);
    if i :| 0 <= i < n && id == e.raw[i].operationId {
      assert RunOk(opId, e.raw[i], i + 1, false);
      assert Keys(e.raw)[i] == id;
    } else if i :| 0 <= i < n && id == e.protected[i].operationId {
      assert RunOk(opId, e.protected[i], i + 1, true);
      assert OperationIds(opId, e.protected)[i] == id;
    }
  }

  lemma {:induction false} DeliveriesIff(opId: OperationId, n: nat, e: Evidence)
    requires ComparisonOk(opId, n, e) && |e.audit| == 3 * n + 1
    ensures
      AuditOk(n, e.audit) && Delivered(e.audit, ExpectedCounts(opId, e)) <==> DeliveriesHold(n, e)
  {
    if AuditOk(n, e.audit) && Delivered(e.audit, ExpectedCounts(opId, e)) {
      DeliveriesDoHold(opId, n, e);
    }
    if DeliveriesHold(n, e) {
      forall id | id in ExpectedCounts(opId, e)
        ensures |Deliveries(e.audit, id)| == ExpectedCounts(opId, e)[id] > 0
      {
        CountOf(opId, n, e, id);
      }
      forall id | Deliveries(e.audit, id) != [] ensures id in ExpectedCounts(opId, e) {
        CountedOf(opId, n, e, id);
      }
    }
  }

  // ----- The History -----

  /** The operations that were prepared, and those that succeeded, are those of the protected runs. */
  ghost predicate HistoryHolds(e: Evidence) {
    && (forall p :: 0 <= p < |e.prepared| ==> IsProtected(e, e.prepared[p].id))
    && (forall p :: 0 <= p < |e.succeeded| ==> IsProtected(e, e.succeeded[p]))
    && (forall i :: 0 <= i < |e.protected| ==> IsPrepared(e, e.protected[i].operationId))
    && (forall i :: 0 <= i < |e.protected| ==> HasSucceeded(e, e.protected[i].operationId))
  }

  ghost predicate IsProtected(e: Evidence, id: string) {
    exists i :: 0 <= i < |e.protected| && e.protected[i].operationId == id
  }

  ghost predicate IsPrepared(e: Evidence, id: string) {
    exists p :: 0 <= p < |e.prepared| && e.prepared[p].id == id
  }

  ghost predicate HasSucceeded(e: Evidence, id: string) {
    exists p :: 0 <= p < |e.succeeded| && e.succeeded[p] == id
  }

  lemma {:induction false} IdsAre(opId: OperationId, n: nat, e: Evidence, id: string)
    requires ComparisonOk(opId, n, e)
    ensures id in Elements(OperationIds(opId, e.protected)) <==> IsProtected(e, id)
  {
    var ids := OperationIds(opId, e.protected);
    forall i | 0 <= i < n ensures ids[i] == e.protected[i].operationId {
      assert RunOk(opId, e.protected[i], i + 1, true);
    }
    if i :| 0 <= i < n && e.protected[i].operationId == id {
      assert ids[i] == id;
    }
    if id in Elements(ids) {
      var i :| 0 <= i < |ids| && ids[i] == id;
      assert e.protected[i].operationId == id;
    }
  }

  /** The set holds the operations of the protected runs, and no others. */
  ghost predicate AreProtected(e: Evidence, ids: set<string>) {
    forall id :: id in ids <==> IsProtected(e, id)
  }

  lemma {:induction false} PreparedIff(e: Evidence, ids: set<string>)
    requires AreProtected(e, ids)
    ensures
      (set p | p in e.prepared :: p.id) == ids <==>
      && (forall p :: 0 <= p < |e.prepared| ==> IsProtected(e, e.prepared[p].id))
      && (forall i :: 0 <= i < |e.protected| ==> IsPrepared(e, e.protected[i].operationId))
  {
    var prepared := set p | p in e.prepared :: p.id;
    forall p | 0 <= p < |e.prepared| ensures e.prepared[p].id in prepared {
      assert e.prepared[p] in e.prepared;
    }
    forall i | 0 <= i < |e.protected| ensures e.protected[i].operationId in ids {
      assert IsProtected(e, e.protected[i].operationId);
    }
    if prepared == ids {
      forall i | 0 <= i < |e.protected| ensures IsPrepared(e, e.protected[i].operationId) {
        assert e.protected[i].operationId in prepared;
        var q :| q in e.prepared && q.id == e.protected[i].operationId;
      }
    } else if forall i :: 0 <= i < |e.protected| ==> IsPrepared(e, e.protected[i].operationId) {
      assert ids <= prepared;
      var id :| id in prepared && id !in ids;
      var q :| q in e.prepared && q.id == id;
      var p :| 0 <= p < |e.prepared| && e.prepared[p] == q;
      assert !IsProtected(e, e.prepared[p].id);
    }
  }

  lemma {:induction false} SucceededIff(e: Evidence, ids: set<string>)
    requires AreProtected(e, ids)
    ensures
      Elements(e.succeeded) == ids <==>
      && (forall p :: 0 <= p < |e.succeeded| ==> IsProtected(e, e.succeeded[p]))
      && (forall i :: 0 <= i < |e.protected| ==> HasSucceeded(e, e.protected[i].operationId))
  {
    var succeeded := Elements(e.succeeded);
    forall i | 0 <= i < |e.protected| ensures e.protected[i].operationId in ids {
      assert IsProtected(e, e.protected[i].operationId);
    }
    if succeeded == ids {
      forall i | 0 <= i < |e.protected| ensures HasSucceeded(e, e.protected[i].operationId) {
        assert e.protected[i].operationId in e.succeeded;
      }
    } else if forall i :: 0 <= i < |e.protected| ==> HasSucceeded(e, e.protected[i].operationId) {
      assert ids <= succeeded;
      var id :| id in succeeded && id !in ids;
      var p :| 0 <= p < |e.succeeded| && e.succeeded[p] == id;
      assert !IsProtected(e, e.succeeded[p]);
    }
  }

  lemma {:induction false} HistoryIff(opId: OperationId, n: nat, e: Evidence)
    requires ComparisonOk(opId, n, e) && |e.prepared| == |e.succeeded| == n
    ensures HistoryOk(opId, n, e) <==> HistoryHolds(e)
  {
    var ids := Elements(OperationIds(opId, e.protected));
    forall id ensures id in ids <==> IsProtected(e, id) { IdsAre(opId, n, e, id); }
    PreparedIff(e, ids);
    SucceededIff(e, ids);
  }

  // ----- Observations -----

  /** The observation is about this operation, with this many rows, this request hash and this outcome. */
  predicate Observes(o: Observation, id: string, count: int, requestHash: string, outcome: string) {
    && o.operationId == id && o.count == count && o.requestHash == requestHash && o.outcome == outcome
    && o.observed > 0
  }

  predicate ObservesOne(o: Observation, id: string) {
    Observes(o, id, 1, seq(64, k => '0'), "succeeded")
  }

  predicate ObservesTwo(o: Observation, id: string) {
    Observes(o, id, 2, seq(64, k => '0'), "inconclusive")
  }

  /** The last operation that was prepared under this identifier. */
  predicate IsLastPrepared(prepared: seq<Operation>, id: string, p: int) {
    0 <= p < |prepared| && prepared[p].id == id && forall q :: p < q < |prepared| ==> prepared[q].id != id
  }

  /** The observation shows the request hash of the operation, which was prepared. */
  ghost predicate ObservesPrepared(e: Evidence, o: Observation, id: string) {
    exists p :: IsLastPrepared(e.prepared, id, p) && Observes(o, id, 1, e.prepared[p].requestHash, "succeeded")
  }

  ghost predicate ProtectedObserved(e: Evidence, i: nat)
    requires i < |e.protected| && 4 * i + 3 < |e.observations|
  {
    var id := e.protected[i].operationId;
    && ObservesOne(e.observations[4 * i], id) && ObservesOne(e.observations[4 * i + 1], id)
    && ObservesPrepared(e, e.observations[4 * i + 2], id) && ObservesOne(e.observations[4 * i + 3], id)
  }

  ghost predicate RawObserved(n: nat, e: Evidence, i: nat)
    requires i < |e.raw| && 4 * n + 2 * i + 1 < |e.observations|
  {
    var id, at := e.raw[i].operationId, 4 * n + 2 * i;
    ObservesOne(e.observations[at], id) && ObservesTwo(e.observations[at + 1], id)
  }

  /**
   Four observations for each protected run, two for each raw run and one for the stopped run, in this
   order and at increasing times; the summary counts them.
   */
  ghost predicate ObservationsHold(n: nat, e: Evidence)
    requires SizesHold(n, e)
  {
    && e.outcomes == map["succeeded" := 5 * n + 1, "inconclusive" := n]
    && (forall i: nat :: i < n ==> ProtectedObserved(e, i))
    && (forall i: nat :: i < n ==> RawObserved(n, e, i))
    && ObservesOne(e.observations[6 * n], e.stop.key)
    && forall j, k :: 0 <= j < k < |e.observations| ==> e.observations[j].observed < e.observations[k].observed
  }

  lemma {:induction false} LastPrepared(prepared: seq<Operation>, id: string, p: nat)
    requires IsLastPrepared(prepared, id, p)
    ensures RequestHash(prepared, id) == prepared[p].requestHash
    decreases |prepared|
  {
    var front, n := prepared[..|prepared| - 1], |prepared| - 1;
    if p < n {
      assert prepared[n].id != id;
      assert IsLastPrepared(front, id, p);
      LastPrepared(front, id, p);
    }
  }

  lemma {:induction false} FindLastPrepared(prepared: seq<Operation>, id: string, p: nat) returns (q: nat)
    requires p < |prepared| && prepared[p].id == id
    ensures IsLastPrepared(prepared, id, q)
    decreases |prepared|
  {
    var front, n := prepared[..|prepared| - 1], |prepared| - 1;
    if prepared[n].id == id {
      q := n;
    } else {
      q := FindLastPrepared(front, id, p);
      assert forall k :: q < k < n ==> front[k].id != id;
    }
  }

  lemma ObservesOneIff(o: Observation, id: string)
    ensures ObservationOk(o, Expectation(id, 1, NO_REQUEST)) <==> ObservesOne(o, id)
    ensures ObservationOk(o, Expectation(id, 2, NO_REQUEST)) <==> ObservesTwo(o, id)
  {
    assert NO_REQUEST == seq(64, k => '0');
  }

  lemma {:induction false} ObservesPreparedIff(e: Evidence, o: Observation, id: string)
    requires IsPrepared(e, id)
    ensures ObservationOk(o, Expectation(id, 1, RequestHash(e.prepared, id))) <==> ObservesPrepared(e, o, id)
  {
    var p :| 0 <= p < |e.prepared| && e.prepared[p].id == id;
    var q := FindLastPrepared(e.prepared, id, p);
    LastPrepared(e.prepared, id, q);
    if r :| IsLastPrepared(e.prepared, id, r) {
      LastPrepared(e.prepared, id, r);
    }
  }

  /** The observation at `k` is the one that is expected there. */
  predicate ExpectedHere(e: Evidence, k: nat) {
    k < |e.observations| && k < |Expected(e)| && ObservationOk(e.observations[k], Expected(e)[k])
  }

  lemma {:induction false} FourExpected(e: Evidence, i: nat)
    requires |e.protected| == |e.raw| && i < |e.protected|
    ensures
      var id, all := e.protected[i].operationId, Expected(e);
      && |all| == 6 * |e.raw| + 1
      && all[4 * i] == all[4 * i + 1] == all[4 * i + 3] == Expectation(id, 1, NO_REQUEST)
      && all[4 * i + 2] == Expectation(id, 1, RequestHash(e.prepared, id))
  {
    ExpectedAt(e, 0);
    ProtectedAt(e.prepared, e.protected, i, 0);
    ProtectedAt(e.prepared, e.protected, i, 1);
    ProtectedAt(e.prepared, e.protected, i, 2);
    ProtectedAt(e.prepared, e.protected, i, 3);
    var some := ProtectedExpected(e.prepared, e.protected);
    assert forall k :: 0 <= k < |some| ==> Expected(e)[k] == some[k];
  }

  lemma {:induction false} ProtectedObservedIff(n: nat, e: Evidence, i: nat)
    requires SizesHold(n, e) && i < n && IsPrepared(e, e.protected[i].operationId)
    ensures
      ProtectedObserved(e, i) <==>
      && ExpectedHere(e, 4 * i) && ExpectedHere(e, 4 * i + 1)
      && ExpectedHere(e, 4 * i + 2) && ExpectedHere(e, 4 * i + 3)
  {
    var id, o := e.protected[i].operationId, e.observations;
    FourExpected(e, i);
    ObservesOneIff(o[4 * i], id);
    ObservesOneIff(o[4 * i + 1], id);
    ObservesPreparedIff(e, o[4 * i + 2], id);
    ObservesOneIff(o[4 * i + 3], id);
  }

  lemma {:induction false} RawObservedIff(n: nat, e: Evidence, i: nat)
    requires SizesHold(n, e) && i < n
    ensures RawObserved(n, e, i) <==> ExpectedHere(e, 4 * n + 2 * i) && ExpectedHere(e, 4 * n + 2 * i + 1)
  {
    TwoExpected(e, n, i);
    ObservesOneIff(e.observations[4 * n + 2 * i], e.raw[i].operationId);
    ObservesOneIff(e.observations[4 * n + 2 * i + 1], e.raw[i].operationId);
  }

  lemma {:induction false} StopObservedIff(n: nat, e: Evidence)
    requires SizesHold(n, e)
    ensures ObservesOne(e.observations[6 * n], e.stop.key) <==> ExpectedHere(e, 6 * n)
  {
    ExpectedAt(e, 0);
    assert Expected(e)[6 * n] == Expectation(e.stop.key, 1, NO_REQUEST);
    ObservesOneIff(e.observations[6 * n], e.stop.key);
  }

  lemma Fourth(n: nat, k: nat)
    requires k < 4 * n
    ensures k / 4 < n && k % 4 < 4 && k == 4 * (k / 4) + k % 4
  {
  }

  lemma Half(n: nat, k: nat)
    requires k < 2 * n
    ensures k / 2 < n && k % 2 < 2 && k == 2 * (k / 2) + k % 2
  {
  }

  /** Place `k` is the one numbered `j` among those of a run. */
  predicate IsOf(n: nat, k: nat, i: nat, j: nat) {
    i < n && if k < 4 * n then j < 4 && k == 4 * i + j else j < 2 && k == 4 * n + 2 * i + j
  }

  /** Every place but the last is one of a run's. */
  lemma PlaceOfRun(n: nat, k: nat) returns (i: nat, j: nat)
    requires k < 6 * n
    ensures IsOf(n, k, i, j)
  {
    if k < 4 * n {
      Fourth(n, k);
      i, j := k / 4, k % 4;
    } else {
      Half(n, k - 4 * n);
      i, j := (k - 4 * n) / 2, (k - 4 * n) % 2;
    }
  }

  /** The observations of every run are as they should be. */
  ghost predicate RunsObserved(n: nat, e: Evidence)
    requires SizesHold(n, e)
  {
    && (forall i: nat :: i < n ==> ProtectedObserved(e, i))
    && (forall i: nat :: i < n ==> RawObserved(n, e, i))
    && ObservesOne(e.observations[6 * n], e.stop.key)
  }

  lemma {:induction false} ProtectedHere(n: nat, e: Evidence, k: nat, i: nat, j: nat)
    requires SizesHold(n, e) && i < n && j < 4 && k == 4 * i + j
    requires IsPrepared(e, e.protected[i].operationId) && ProtectedObserved(e, i)
    ensures ExpectedHere(e, k)
  {
    ProtectedObservedIff(n, e, i);
    OneOfFour(k, i, j);
  }

  lemma OneOfFour(k: nat, i: nat, j: nat)
    requires j < 4 && k == 4 * i + j
    ensures k == 4 * i || k == 4 * i + 1 || k == 4 * i + 2 || k == 4 * i + 3
  {
  }

  lemma {:induction false} RawHere(n: nat, e: Evidence, k: nat, i: nat, j: nat)
    requires SizesHold(n, e) && i < n && j < 2 && k == 4 * n + 2 * i + j && RawObserved(n, e, i)
    ensures ExpectedHere(e, k)
  {
    RawObservedIff(n, e, i);
  }

  lemma {:induction false} ObservedHere(n: nat, e: Evidence, k: nat)
    requires SizesHold(n, e) && HistoryHolds(e) && RunsObserved(n, e) && k < 6 * n + 1
    ensures ExpectedHere(e, k)
  {
    if k == 6 * n {
      StopObservedIff(n, e);
    } else {
      var i, j := PlaceOfRun(n, k);
      if k < 4 * n {
        ProtectedHere(n, e, k, i, j);
      } else {
        RawHere(n, e, k, i, j);
      }
    }
  }

  lemma {:induction false} HereObserved(n: nat, e: Evidence)
    requires SizesHold(n, e) && HistoryHolds(e) && forall k: nat :: k < 6 * n + 1 ==> ExpectedHere(e, k)
    ensures RunsObserved(n, e)
  {
    forall i: nat | i < n ensures ProtectedObserved(e, i) && RawObserved(n, e, i) {
      ProtectedObservedIff(n, e, i);
      RawObservedIff(n, e, i);
    }
    StopObservedIff(n, e);
  }

  lemma {:induction false} ObservationsIff(n: nat, e: Evidence)
    requires SizesHold(n, e) && HistoryHolds(e)
    ensures ObservationsOk(n, e) <==> ObservationsHold(n, e)
  {
    ExpectedAt(e, 0);
    if ObservationsOk(n, e) {
      forall k: nat | k < 6 * n + 1 ensures ExpectedHere(e, k) {
      }
      HereObserved(n, e);
    }
    if ObservationsHold(n, e) {
      forall k: nat | k < |Expected(e)| ensures ObservationOk(e.observations[k], Expected(e)[k]) {
        ObservedHere(n, e, k);
      }
    }
  }

  // ----- The timeline -----

  ghost predicate ProtectedEvented(e: Evidence, i: nat)
    requires 4 * i + 3 < |e.timeline|
  {
    && e.timeline[4 * i].event == "protected_commit_observed"
    && e.timeline[4 * i + 1].event == "protected_source_vmm_killed"
    && e.timeline[4 * i + 2].event == "old_generation_rejected"
    && e.timeline[4 * i + 3].event == "protected_replacement_completed"
  }

  ghost predicate RawEvented(n: nat, e: Evidence, i: nat)
    requires 4 * n + 2 * i + 1 < |e.timeline|
  {
    && e.timeline[4 * n + 2 * i].event == "raw_commit_observed"
    && e.timeline[4 * n + 2 * i + 1].event == "raw_replacement_completed"
  }

  /** Four events for each protected run, two for each raw run and one at the end, numbered and in order. */
  ghost predicate TimelineHolds(n: nat, e: Evidence)
    requires SizesHold(n, e)
  {
    && (forall i: nat :: i < n ==> ProtectedEvented(e, i))
    && (forall i: nat :: i < n ==> RawEvented(n, e, i))
    && e.timeline[6 * n].event == "stop_control_ended"
    && (forall k :: 0 <= k < |e.timeline| ==> e.timeline[k].sequence == k + 1)
    && forall j, k :: 0 <= j < k < |e.timeline| ==> e.timeline[j].time <= e.timeline[k].time
  }

  /** The event at `k` is the one that is expected there. */
  predicate EventHere(e: Evidence, k: nat) {
    k < |e.timeline| && k < |ExpectedEvents(e)| && e.timeline[k].event == ExpectedEvents(e)[k]
  }

  lemma {:induction false} FourEvents(e: Evidence, i: nat)
    requires i < |e.protected|
    ensures
      var all := ExpectedEvents(e);
      && |all| == 4 * |e.protected| + 2 * |e.raw| + 1
      && all[4 * i] == "protected_commit_observed" && all[4 * i + 1] == "protected_source_vmm_killed"
      && all[4 * i + 2] == "old_generation_rejected" && all[4 * i + 3] == "protected_replacement_completed"
  {
    EventsLength(e);
    RepeatedAt(PROTECTED_EVENTS, |e.protected|, i, 0);
    RepeatedAt(PROTECTED_EVENTS, |e.protected|, i, 1);
    RepeatedAt(PROTECTED_EVENTS, |e.protected|, i, 2);
    RepeatedAt(PROTECTED_EVENTS, |e.protected|, i, 3);
    var some := Repeated(PROTECTED_EVENTS, |e.protected|);
    assert forall k :: 0 <= k < |some| ==> ExpectedEvents(e)[k] == some[k];
  }

  lemma {:induction false} ProtectedEventedIff(n: nat, e: Evidence, i: nat)
    requires SizesHold(n, e) && i < n
    ensures
      ProtectedEvented(e, i) <==>
      EventHere(e, 4 * i) && EventHere(e, 4 * i + 1) && EventHere(e, 4 * i + 2) && EventHere(e, 4 * i + 3)
  {
    FourEvents(e, i);
  }

  lemma {:induction false} RawEventedIff(n: nat, e: Evidence, i: nat)
    requires SizesHold(n, e) && i < n
    ensures RawEvented(n, e, i) <==> EventHere(e, 4 * n + 2 * i) && EventHere(e, 4 * n + 2 * i + 1)
  {
    EventsLength(e);
    RawEvents(e, i);
  }

  lemma {:induction false} LastEventIff(n: nat, e: Evidence)
    requires SizesHold(n, e)
    ensures e.timeline[6 * n].event == "stop_control_ended" <==> EventHere(e, 6 * n)
  {
    EventsLength(e);
  }

  lemma {:induction false} ProtectedEventHere(n: nat, e: Evidence, k: nat, i: nat, j: nat)
    requires SizesHold(n, e) && i < n && j < 4 && k == 4 * i + j && ProtectedEvented(e, i)
    ensures EventHere(e, k)
  {
    ProtectedEventedIff(n, e, i);
    OneOfFour(k, i, j);
  }

  lemma {:induction false} RawEventHere(n: nat, e: Evidence, k: nat, i: nat, j: nat)
    requires SizesHold(n, e) && i < n && j < 2 && k == 4 * n + 2 * i + j && RawEvented(n, e, i)
    ensures EventHere(e, k)
  {
    RawEventedIff(n, e, i);
  }

  lemma {:induction false} EventedHere(n: nat, e: Evidence, k: nat)
    requires SizesHold(n, e) && TimelineHolds(n, e) && k < 6 * n + 1
    ensures EventHere(e, k)
  {
    if k == 6 * n {
      LastEventIff(n, e);
    } else {
      var i, j := PlaceOfRun(n, k);
      if k < 4 * n {
        ProtectedEventHere(n, e, k, i, j);
      } else {
        RawEventHere(n, e, k, i, j);
      }
    }
  }

  lemma {:induction false} TimelineIff(n: nat, e: Evidence)
    requires SizesHold(n, e)
    ensures TimelineOk(e) <==> TimelineHolds(n, e)
  {
    EventsLength(e);
    if TimelineOk(e) {
      forall k: nat | k < 6 * n + 1 ensures EventHere(e, k) {
      }
      forall i: nat | i < n ensures ProtectedEvented(e, i) && RawEvented(n, e, i) {
        ProtectedEventedIff(n, e, i);
        RawEventedIff(n, e, i);
      }
      LastEventIff(n, e);
    }
    if TimelineHolds(n, e) {
      forall k: nat | k < |e.timeline| ensures e.timeline[k].event == ExpectedEvents(e)[k] {
        EventedHere(n, e, k);
      }
    }
  }

  // ----- Barriers -----

  /**
   The delivery of a protected run was committed before it was first observed, that was before the
   commit's entry, then the source stopped, and then came the entry of its end; the two entries agree.
   */
  ghost predicate ProtectedOrdered(n: nat, e: Evidence, i: nat)
    requires SizesHold(n, e) && i < n
  {
    var r, commit, killed := e.protected[i], e.timeline[4 * i], e.timeline[4 * i + 1];
    && commit.operationId == r.operationId && killed.stopped == r.source.stopped
    && forall k :: k in DeliveredAt(e.audit, r.operationId) ==>
         && commit.committed == e.audit[k].committed
         && e.audit[k].committed <= e.observations[4 * i].observed <= commit.time <= r.source.stopped <= killed.time
  }

  /** So it was with the first delivery of a raw run; the second was committed before it was last observed. */
  ghost predicate RawOrdered(n: nat, e: Evidence, i: nat)
    requires SizesHold(n, e) && i < n
  {
    var r, at := e.raw[i], 4 * n + 2 * i;
    && e.timeline[at].operationId == r.operationId
    && forall j, k :: j in DeliveredAt(e.audit, r.operationId) && k in DeliveredAt(e.audit, r.operationId) && j < k ==>
         && e.audit[j].committed <= e.observations[at].observed <= e.timeline[at].time
              <= r.source.stopped <= e.timeline[at + 1].time
         && e.audit[k].committed <= e.observations[at + 1].observed
  }

  ghost predicate StopOrderedBy(n: nat, e: Evidence)
    requires SizesHold(n, e)
  {
    forall k :: k in DeliveredAt(e.audit, e.stop.key) ==>
      e.audit[k].committed <= e.observations[6 * n].observed <= e.stop.source.stopped <= e.timeline[6 * n].time
  }

  ghost predicate BarriersHold(n: nat, e: Evidence)
    requires SizesHold(n, e)
  {
    && (forall i: nat :: i < n ==> ProtectedOrdered(n, e, i))
    && (forall i: nat :: i < n ==> RawOrdered(n, e, i))
    && StopOrderedBy(n, e)
  }

  lemma {:induction false} ProtectedOrderedIff(n: nat, e: Evidence, i: nat)
    requires SizesHold(n, e) && Ready(n, e) && i < n
    ensures ProtectedBarrier(e, i) <==> ProtectedOrdered(n, e, i)
  {
    var id := e.protected[i].operationId;
    DeliveriesCounted(e.audit, id);
    forall k: nat | k in DeliveredAt(e.audit, id) ensures Deliveries(e.audit, id)[0] == e.audit[k] {
      OnlyDelivery(e.audit, id, k);
    }
    var k := Element(DeliveredAt(e.audit, id));
  }

  lemma {:induction false} RawOrderedIff(n: nat, e: Evidence, i: nat)
    requires SizesHold(n, e) && Ready(n, e) && i < n
    ensures RawBarrier(e, n, i) <==> RawOrdered(n, e, i)
  {
    var id := e.raw[i].operationId;
    var all := DeliveredAt(e.audit, id);
    DeliveriesCounted(e.audit, id);
    forall j: nat, k: nat | j in all && k in all && j < k
      ensures Deliveries(e.audit, id)[0] == e.audit[j] && Deliveries(e.audit, id)[1] == e.audit[k]
    {
      TwoDeliveries(e.audit, id, j, k);
    }
    var a, b := TwoOf(all);
    assert a < b ==> Deliveries(e.audit, id)[0] == e.audit[a];
  }

  lemma Element<T>(s: set<T>) returns (x: T)
    requires |s| > 0
    ensures x in s && |s - {x}| == |s| - 1
  {
    x :| x in s;
  }

  lemma TwoOf(s: set<int>) returns (a: int, b: int)
    requires |s| == 2
    ensures a in s && b in s && a < b
  {
    var x := Element(s);
    var y := Element(s - {x});
    a, b := if x < y then x else y, if x < y then y else x;
  }

  lemma {:induction false} StopOrderedIff(n: nat, e: Evidence)
    requires SizesHold(n, e) && Ready(n, e)
    ensures StopBarrier(e) <==> StopOrderedBy(n, e)
  {
    DeliveriesCounted(e.audit, e.stop.key);
    forall k: nat | k in DeliveredAt(e.audit, e.stop.key)
      ensures Deliveries(e.audit, e.stop.key)[0] == e.audit[k]
    {
      OnlyDelivery(e.audit, e.stop.key, k);
    }
    var k := Element(DeliveredAt(e.audit, e.stop.key));
  }

  lemma {:induction false} BarriersIff(n: nat, e: Evidence)
    requires SizesHold(n, e) && Ready(n, e)
    ensures BarriersOk(n, e) <==> BarriersHold(n, e)
  {
    forall i: nat | i < n
      ensures ProtectedBarrier(e, i) <==> ProtectedOrdered(n, e, i)
      ensures RawBarrier(e, n, i) <==> RawOrdered(n, e, i)
    {
      ProtectedOrderedIff(n, e, i);
      RawOrderedIff(n, e, i);
    }
    StopOrderedIff(n, e);
  }

  // ----- The whole -----

  /** What the counts demand. */
  ghost predicate CountsHold(opId: OperationId, n: nat, e: Evidence)
    requires SizesHold(n, e)
  {
    && RunsHold(opId, n, e) && DeliveriesHold(n, e) && HistoryHolds(e)
    && ObservationsHold(n, e) && TimelineHolds(n, e)
  }

  lemma {:induction false} SizesDoHold(opId: OperationId, n: int, e: Evidence)
    requires CountedOk(opId, n, e)
    ensures SizesHold(n, e)
  {
    ExpectedAt(e, 0);
    EventsLength(e);
  }

  lemma {:induction false} CountsIff(opId: OperationId, n: nat, e: Evidence)
    requires SizesHold(n, e)
    ensures CountedOk(opId, n, e) <==> CountsHold(opId, n, e)
  {
    ComparisonIff(opId, n, e);
    if ComparisonOk(opId, n, e) {
      DeliveriesIff(opId, n, e);
      HistoryIff(opId, n, e);
      TimelineIff(n, e);
      if HistoryHolds(e) {
        ObservationsIff(n, e);
      }
    }
  }

  /**
   Exactly which evidence is accepted: there is as much of everything as `n` runs of either kind and one
   stopped run make, every place holds what it should, and commit, observation and stop are in order.
   */
  lemma {:induction false} AcceptedIff(opId: OperationId, n: int, e: Evidence)
    ensures
      Accepted(opId, n, e) <==> SizesHold(n, e) && CountsHold(opId, n, e) && BarriersHold(n, e)
  {
    if CountedOk(opId, n, e) {
      SizesDoHold(opId, n, e);
      CountedIsReady(opId, n, e);
    }
    if SizesHold(n, e) {
      CountsIff(opId, n, e);
      if Ready(n, e) {
        BarriersIff(n, e);
      }
    }
  }
}
