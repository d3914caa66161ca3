/** The rest of the egress checker, which can look everything up because of what the counts force. */
module EgressCheck {
  import opened Egress
  import opened EgressTheorems

  predicate Increasing(times: seq<int>) {
    forall j, k :: 0 <= j < k < |times| ==> times[j] < times[k]
  }

  method CheckObservations(n: int, e: Evidence) returns (ok: bool)
    ensures ok <==> ObservationsOk(n, e)
  {
    var expected := ExpectObservations(e);
    if e.queries != |expected| || e.outcomes != map["succeeded" := 5 * n + 1, "inconclusive" := n]
       || |e.observations| != |expected| {
      return false;
    }
    var times := [];
    for k := 0 to |expected|
      invariant |times| == k
      invariant forall j :: 0 <= j < k ==> times[j] == e.observations[j].observed
      invariant forall j :: 0 <= j < k ==> ObservationOk(e.observations[j], expected[j])
    {
      if !ObservationOk(e.observations[k], expected[k]) {
        return false;
      }
      times := times + [e.observations[k].observed];
    }
    ok := Increasing(times);
  }

  method ExpectEvents(e: Evidence) returns (events: seq<string>)
    ensures events == ExpectedEvents(e)
  {
    events := [];
    for i := 0 to |e.protected|
      invariant events == Repeated(PROTECTED_EVENTS, i)
    {
      events := events + PROTECTED_EVENTS;
    }
    ghost var first := events;
    assert first + Repeated(RAW_EVENTS, 0) == first;
    for i := 0 to |e.raw|
      invariant events == first + Repeated(RAW_EVENTS, i)
    {
      events := events + RAW_EVENTS;
      assert events == first + (Repeated(RAW_EVENTS, i) + RAW_EVENTS);
    }
    events := events + ["stop_control_ended"];
  }

  method CheckTimeline(e: Evidence) returns (ok: bool)
    ensures ok <==> TimelineOk(e)
  {
    var events := ExpectEvents(e);
    if |e.timeline| != |events| {
      return false;
    }
    ok :=
      && (forall k :: 0 <= k < |events| ==> e.timeline[k].event == events[k])
      && (forall k :: 0 <= k < |e.timeline| ==> e.timeline[k].sequence == k + 1)
      && (forall j, k :: 0 <= j < k < |e.timeline| ==> e.timeline[j].time <= e.timeline[k].time);
  }

  // ----- Barriers -----

  /** Every entry that the barriers look up is there. */
  ghost predicate Ready(n: int, e: Evidence) {
    && 0 <= n == |e.protected| == |e.raw|
    && |e.timeline| == 6 * n + 1 == |e.observations|
    && (forall i :: 0 <= i < n ==> |Deliveries(e.audit, e.protected[i].operationId)| == 1)
    && (forall i :: 0 <= i < n ==> |Deliveries(e.audit, e.raw[i].operationId)| == 2)
    && |Deliveries(e.audit, e.stop.key)| == 1
  }

  /** No lookup of the barriers can fail. */
  lemma {:induction false} CountedIsReady(opId: OperationId, n: int, e: Evidence)
    requires CountedOk(opId, n, e)
    ensures Ready(n, e)
  {
    DeliveredExactly(opId, n, e);
    ExpectedAt(e, 0);
    EventsLength(e);
  }

  ghost predicate BarriersOk(n: int, e: Evidence)
    requires Ready(n, e)
  {
    && (forall i :: 0 <= i < n ==> ProtectedBarrier(e, i))
    && (forall i :: 0 <= i < n ==> RawBarrier(e, n, i))
    && StopBarrier(e)
  }

  method CheckBarriers(n: int, e: Evidence, grouped: map<string, seq<Delivery>>) returns (ok: bool)
    requires Ready(n, e)
    requires forall id :: id in grouped <==> Deliveries(e.audit, id) != []
    requires forall id :: id in grouped ==> grouped[id] == Deliveries(e.audit, id)
    ensures ok <==> BarriersOk(n, e)
  {
    for i := 0 to n
      invariant forall j :: 0 <= j < i ==> ProtectedBarrier(e, j)
    {
      var item, commit, killed := e.protected[i], e.timeline[4 * i], e.timeline[4 * i + 1];
      var delivery := grouped[item.operationId][0];
      if commit.operationId != item.operationId || commit.committed != delivery.committed
         || killed.stopped != item.source.stopped
         || !(delivery.committed <= e.observations[4 * i].observed <= commit.time
                <= item.source.stopped <= killed.time) {
        assert !ProtectedBarrier(e, i);
        return false;
      }
    }
    for i := 0 to n
      invariant forall j :: 0 <= j < i ==> RawBarrier(e, n, j)
    {
      var item, at := e.raw[i], 4 * n + 2 * i;
      var delivered := grouped[item.operationId];
      if e.timeline[at].operationId != item.operationId
         || !(delivered[0].committed <= e.observations[at].observed <= e.timeline[at].time
                <= item.source.stopped <= e.timeline[at + 1].time)
         || delivered[1].committed > e.observations[at + 1].observed {
        assert !RawBarrier(e, n, i);
        return false;
      }
    }
    var last, delivery := |e.observations| - 1, grouped[e.stop.key][0];
    ok := delivery.committed <= e.observations[last].observed
      <= e.stop.source.stopped <= e.timeline[|e.timeline| - 1].time;
  }

  ghost predicate Accepted(opId: OperationId, n: int, e: Evidence) {
    CountedOk(opId, n, e) && Ready(n, e) && BarriersOk(n, e)
  }

  /** `check`, on the parts of the evidence that are modelled. */
  method Check(opId: OperationId, n: int, e: Evidence) returns (ok: bool)
    ensures ok <==> Accepted(opId, n, e)
  {
    ok := CheckComparison(opId, n, e);
    if !ok {
      return;
    }
    var grouped;
    ok, grouped := CheckDeliveries(opId, n, e);
    if !ok || !HistoryOk(opId, n, e) {
      return false;
    }
    var observed := CheckObservations(n, e);
    var timed := CheckTimeline(e);
    if !observed || !timed {
      return false;
    }
    CountedIsReady(opId, n, e);
    ok := CheckBarriers(n, e, grouped);
  }

  // ----- The order of events in an accepted run -----

  lemma OwnerStarts(n: nat, i: nat, k: nat)
    requires i < n
    ensures Owner(n, 4 * i) == i
    ensures Owner(n, k) == i ==> 4 * i <= k
  {
  }

  /**
   In every protected run the only commit precedes every observation of that run; the first of them
   precedes the source's stop.
   */
  lemma {:induction false} ProtectedRunInOrder(opId: OperationId, n: int, e: Evidence, i: nat, k: nat)
    requires Accepted(opId, n, e) && i < n
    requires k < |e.observations| && e.observations[k].operationId == e.protected[i].operationId
    ensures
      var delivered := Deliveries(e.audit, e.protected[i].operationId);
      && |delivered| == 1
      && delivered[0].committed <= e.observations[4 * i].observed <= e.observations[k].observed
      && e.observations[4 * i].operationId == e.protected[i].operationId
      && e.observations[4 * i].observed <= e.protected[i].source.stopped
  {
    ObservationsOfTheirRun(opId, n, e, k, i);
    ObservationsOfTheirRun(opId, n, e, 4 * i, i);
    OwnerStarts(n, i, k);
    assert OwnerId(e, i) == e.protected[i].operationId;
    assert ProtectedBarrier(e, i);
    assert 4 * i < k ==> e.observations[4 * i].observed < e.observations[k].observed;
  }

  /** The first commit is seen before the source stops, and the second is seen later. */
  ghost predicate CommitsSeen(n: int, e: Evidence, i: nat)
    requires Ready(n, e) && i < n
  {
    var delivered, at := Deliveries(e.audit, e.raw[i].operationId), 4 * n + 2 * i;
    && |delivered| == 2
    && delivered[0].committed <= e.observations[at].observed <= e.raw[i].source.stopped
    && delivered[1].committed <= e.observations[at + 1].observed
  }

  lemma CommitsAreSeen(n: int, e: Evidence, i: nat)
    requires Ready(n, e) && BarriersOk(n, e) && i < n
    ensures CommitsSeen(n, e, i)
  {
    assert RawBarrier(e, n, i);
  }

  lemma RawOrder(n: int, e: Evidence, i: nat)
    requires Ready(n, e) && BarriersOk(n, e) && ObservationsOk(n, e) && i < n
    ensures CommitsSeen(n, e, i) && IsPairAt(e, i, 4 * n + 2 * i)
  {
    CommitsAreSeen(n, e, i);
    RawPair(n, e, i, 4 * n + 2 * i);
  }

  lemma AcceptedParts(opId: OperationId, n: int, e: Evidence)
    requires Accepted(opId, n, e)
    ensures Ready(n, e) && BarriersOk(n, e) && ObservationsOk(n, e)
  {
  }

  /** In every raw run the first commit precedes the source's stop, and both precede what is seen after them. */
  lemma RawRunInOrder(opId: OperationId, n: int, e: Evidence, i: nat)
    requires Accepted(opId, n, e) && i < n
    ensures CommitsSeen(n, e, i) && IsPairAt(e, i, 4 * n + 2 * i)
  {
    AcceptedParts(opId, n, e);
    RawOrder(n, e, i);
  }

  lemma LastOwner(n: nat, k: nat)
    ensures Owner(n, k) == 2 * n ==> k >= 6 * n
  {
  }

  /** The observation `k` is the last, and lies between the only commit and the source's stop. */
  ghost predicate StopInOrder(n: int, e: Evidence, k: nat)
    requires Ready(n, e) && k < |e.observations|
  {
    && k == |e.observations| - 1
    && Deliveries(e.audit, e.stop.key)[0].committed <= e.observations[k].observed <= e.stop.source.stopped
  }

  lemma StopOrdered(n: int, e: Evidence, k: nat)
    requires Ready(n, e) && BarriersOk(n, e) && k < |e.observations| && k >= 6 * n
    ensures StopInOrder(n, e, k)
  {
  }

  /** In the stopped run the only commit precedes the only observation, which precedes the source's stop. */
  lemma {:induction false} StoppedRunInOrder(opId: OperationId, n: int, e: Evidence, k: nat)
    requires Accepted(opId, n, e)
    requires k < |e.observations| && e.observations[k].operationId == e.stop.key
    ensures |Deliveries(e.audit, e.stop.key)| == 1 && StopInOrder(n, e, k)
  {
    ObservationsOfTheirRun(opId, n, e, k, 2 * n);
    LastOwner(n, k);
    StopOrdered(n, e, k);
  }

  lemma CommitsOfTheirRun(n: int, e: Evidence, i: nat)
    requires Ready(n, e) && BarriersOk(n, e) && i < n
    ensures e.timeline[4 * i].operationId == OwnerId(e, i)
    ensures e.timeline[4 * n + 2 * i].operationId == OwnerId(e, n + i)
  {
    assert ProtectedBarrier(e, i) && RawBarrier(e, n, i);
  }

  /** No two runs have the same operation. */
  ghost predicate OwnersDiffer(n: int, e: Evidence)
    requires Ready(n, e)
  {
    forall a: nat, b: nat :: a < b <= 2 * n ==> OwnerId(e, a) != OwnerId(e, b)
  }

  lemma CountedOwnersDiffer(opId: OperationId, n: int, e: Evidence)
    requires CountedOk(opId, n, e) && Ready(n, e)
    ensures OwnersDiffer(n, e)
  {
    forall a: nat, b: nat | a < b <= 2 * n ensures OwnerId(e, a) != OwnerId(e, b) {
      OwnersAreDistinct(opId, n, e, a, b);
    }
  }

  /** The timeline entry `k` is about run `o`: protected runs come first, then raw runs. */
  ghost predicate IsAbout(n: int, e: Evidence, k: nat, o: nat)
    requires Ready(n, e) && k < |e.timeline| && o <= 2 * n
  {
    e.timeline[k].operationId == OwnerId(e, o)
  }

  lemma CommitIsAbout(n: int, e: Evidence, i: nat, o: nat)
    requires Ready(n, e) && BarriersOk(n, e) && OwnersDiffer(n, e) && i < n && o <= 2 * n
    ensures IsAbout(n, e, 4 * i, o) <==> o == i
    ensures IsAbout(n, e, 4 * n + 2 * i, o) <==> o == n + i
  {
    CommitsOfTheirRun(n, e, i);
    assert o < i ==> OwnerId(e, o) != OwnerId(e, i);
    assert i < o ==> OwnerId(e, i) != OwnerId(e, o);
    var r: nat := n + i;
    assert o < r ==> OwnerId(e, o) != OwnerId(e, r);
    assert r < o ==> OwnerId(e, r) != OwnerId(e, o);
  }

  /**
   The offsets into the timeline select exactly the entries of their own run: the entry at 4i is about
   protected run i and no other run, and the entry at 4n + 2i about raw run i and no other run.
   */
  lemma {:induction false} TimelineOfTheirRun(opId: OperationId, n: int, e: Evidence, i: nat, o: nat)
    requires Accepted(opId, n, e) && i < n && o <= 2 * n
    ensures IsAbout(n, e, 4 * i, o) <==> o == i
    ensures IsAbout(n, e, 4 * n + 2 * i, o) <==> o == n + i
  {
    CountedOwnersDiffer(opId, n, e);
    CommitIsAbout(n, e, i, o);
  }
}
