/**
 The mediation logic of the result checker: run summaries against the raw protocol log, and sink
 outcomes against run summaries.
 */
module Results {
  import opened Options
  import opened Counting

  // ----- Documents -----

  /** A tool call as a run summarises it. */
  datatype ToolCall = ToolCall(
    threadId: Option<string>, turnId: Option<string>, callId: Option<string>, tool: Option<string>,
    effectId: Option<string>, rpc: Option<string>)

  /** A run: its tool calls, the histories its topology events name, and the effects its sink recorded. */
  datatype Run = Run(
    caseId: string, policy: string, calls: seq<ToolCall>, histories: seq<Option<string>>,
    outcomes: seq<Option<string>>, dispatchAccepted: bool)

  datatype RequestId = Number(n: int) | Named(name: string)

  datatype Params = Params(
    threadId: Option<string>, turnId: Option<string>, callId: Option<string>, tool: Option<string>,
    effectId: Option<string>, startedId: Option<string>)

  datatype Payload = Payload(rpc: Option<string>, id: Option<RequestId>, hasResult: bool, params: Option<Params>)

  /** A line of the raw log; the payload is absent when it is not an object. */
  datatype RawRecord = RawRecord(direction: string, payload: Option<Payload>)

  const POLICIES := ["P0", "P1", "P2", "P3"]

  /** Python's `str`, on a text or None. */
  function Shown(o: Option<string>): string {
    if o.Some? then o.value else "None"
  }

  /** What a summary and a raw callback have in common. */
  datatype Signature = Signature(threadId: string, turnId: string, callId: string, tool: string, effectId: string)

  function Summarised(c: ToolCall): Signature {
    Signature(Shown(c.threadId), Shown(c.turnId), Shown(c.callId), Shown(c.tool), Shown(c.effectId))
  }

  // ----- The raw log -----

  predicate FromServer(r: RawRecord, name: string) {
    r.direction == "server_to_client" && r.payload.Some? && r.payload.value.rpc == Some(name)
  }

  predicate IsCall(r: RawRecord) {
    FromServer(r, "item/tool/call")
  }

  predicate IsCallback(r: RawRecord) {
    IsCall(r) && r.payload.value.params.Some?
  }

  function CalledBack(r: RawRecord): Signature
    requires IsCallback(r)
  {
    var p := r.payload.value.params.value;
    Signature(Shown(p.threadId), Shown(p.turnId), Shown(p.callId), Shown(p.tool), Shown(p.effectId))
  }

  predicate IsResponse(r: RawRecord) {
    r.direction == "client_to_server" && r.payload.Some? && r.payload.value.id.Some? && r.payload.value.hasResult
  }

  predicate IsFork(r: RawRecord) {
    r.direction == "client_to_server" && r.payload.Some? && !IsResponse(r) && r.payload.value.rpc == Some("thread/fork")
  }

  predicate StartsHistory(r: RawRecord) {
    FromServer(r, "thread/started") && r.payload.value.params.Some? && r.payload.value.params.value.startedId.Some?
  }

  /** The running state of the loop over the raw log. */
  datatype Tally = Tally(
    malformed: nat, calls: multiset<Signature>, requests: set<RequestId>, responses: set<RequestId>,
    started: set<string>, forks: nat)

  const NOTHING := Tally(0, multiset{}, {}, {}, {}, 0)

  /** What one line of the log adds. */
  function Counted(t: Tally, r: RawRecord): Tally {
    if IsCall(r) then
      if !IsCallback(r) then t.(malformed := t.malformed + 1)
      else
        t.(
          calls := t.calls + multiset{CalledBack(r)},
          requests := t.requests + if r.payload.value.id.Some? then {r.payload.value.id.value} else {})
    else if IsResponse(r) then t.(responses := t.responses + {r.payload.value.id.value})
    else if IsFork(r) then t.(forks := t.forks + 1)
    else if StartsHistory(r) then t.(started := t.started + {r.payload.value.params.value.startedId.value})
    else t
  }

  function Tallied(records: seq<RawRecord>): Tally {
    if records == [] then NOTHING else Counted(Tallied(records[..|records| - 1]), records[|records| - 1])
  }

  // ----- The summaries -----

  function CallsOf(calls: seq<ToolCall>): multiset<Signature> {
    if calls == [] then multiset{} else CallsOf(calls[..|calls| - 1]) + multiset{Summarised(calls[|calls| - 1])}
  }

  function SummarisedCalls(runs: seq<Run>): multiset<Signature> {
    if runs == [] then multiset{} else SummarisedCalls(runs[..|runs| - 1]) + CallsOf(runs[|runs| - 1].calls)
  }

  function Histories(runs: seq<Run>): set<string> {
    if runs == [] then {}
    else Histories(runs[..|runs| - 1]) + set h | h in runs[|runs| - 1].histories && h.Some? :: h.value
  }

  datatype Failure =
    | MalformedParams | CallsDiffer | Unanswered | MissingHistories | ForkCount
    | RunCount | DuplicateRun | MissingRuns | ExtraRuns
    | DuplicateOutcomes | Unmediated | MissingToolCalls

  /** The summaries agree with the raw log. */
  predicate RawOk(runs: seq<Run>, records: seq<RawRecord>) {
    var t := Tallied(records);
    && t.malformed == 0
    && t.calls == SummarisedCalls(runs)
    && t.requests <= t.responses
    && Histories(runs) <= t.started
    && t.forks == |Histories(runs)|
  }

  method AddCalls(calls: multiset<Signature>, summary: seq<ToolCall>) returns (calls': multiset<Signature>)
    ensures calls' == calls + CallsOf(summary)
  {
    calls' := calls;
    for j := 0 to |summary|
      invariant calls' == calls + CallsOf(summary[..j])
    {
      assert summary[..j + 1][..j] == summary[..j];
      calls' := calls' + multiset{Summarised(summary[j])};
    }
    assert summary[..|summary|] == summary;
  }

  method SummariseRuns(runs: seq<Run>) returns (calls: multiset<Signature>, histories: set<string>)
    ensures calls == SummarisedCalls(runs) && histories == Histories(runs)
  {
    calls, histories := multiset{}, {};
    for i := 0 to |runs|
      invariant calls == SummarisedCalls(runs[..i]) && histories == Histories(runs[..i])
    {
      assert runs[..i + 1][..i] == runs[..i];
      calls := AddCalls(calls, runs[i].calls);
      histories := histories + set h | h in runs[i].histories && h.Some? :: h.value;
    }
    assert runs[..|runs|] == runs;
  }

  /** The loop over the raw log. */
  method TallyRecords(records: seq<RawRecord>) returns (failures: seq<Failure>, t: Tally)
    ensures t == Tallied(records)
    ensures |failures| == t.malformed
  {
    t, failures := NOTHING, [];
    for i := 0 to |records|
      invariant t == Tallied(records[..i])
      invariant |failures| == t.malformed
    {
      assert records[..i + 1][..i] == records[..i];
      if IsCall(records[i]) && !IsCallback(records[i]) {
        failures := failures + [MalformedParams];
      }
      t := Counted(t, records[i]);
    }
    assert records[..|records|] == records;
  }

  /** `_check_raw_protocol`, on the decoded lines of the log. */
  method CheckRawProtocol(runs: seq<Run>, records: seq<RawRecord>) returns (failures: seq<Failure>, callCount: nat)
    ensures failures == [] <==> RawOk(runs, records)
    ensures callCount == |Tallied(records).calls|
  {
    var expectedCalls, expectedHistories := SummariseRuns(runs);
    var t;
    failures, t := TallyRecords(records);
    if t.calls != expectedCalls {
      failures := failures + [CallsDiffer];
    }
    NothingLeft(t.requests, t.responses);
    if t.requests - t.responses != {} {
      failures := failures + [Unanswered];
    }
    NothingLeft(expectedHistories, t.started);
    if expectedHistories - t.started != {} {
      failures := failures + [MissingHistories];
    }
    if t.forks != |expectedHistories| {
      failures := failures + [ForkCount];
    }
    callCount := |t.calls|;
  }

  // ----- The document -----

  datatype RunKey = RunKey(caseId: string, policy: string)

  function KeyOfRun(r: Run): RunKey {
    RunKey(r.caseId, r.policy)
  }

  /** The dictionary of runs, in which a later run replaces an earlier one. */
  function Indexed(runs: seq<Run>): map<RunKey, Run> {
    if runs == [] then map[] else Indexed(runs[..|runs| - 1])[KeyOfRun(runs[|runs| - 1]) := runs[|runs| - 1]]
  }

  predicate DistinctRuns(runs: seq<Run>) {
    forall i, j :: 0 <= i < j < |runs| ==> KeyOfRun(runs[i]) != KeyOfRun(runs[j])
  }

  function ExpectedKeys(suite: seq<string>): set<RunKey> {
    set c, p | c in suite && p in POLICIES :: RunKey(c, p)
  }

  /** `_sink_counts` raises when an outcome has no effect. */
  predicate OutcomesNamed(r: Run) {
    forall o :: o in r.outcomes ==> Shown(o) != "None"
  }

  function EffectCounts(r: Run): multiset<string> {
    multiset(seq(|r.outcomes|, i requires 0 <= i < |r.outcomes| => Shown(r.outcomes[i])))
  }

  /** The effects that some App Server callback of the run asked for. */
  function Mediated(r: Run): set<string> {
    set c |
      && c in r.calls && c.effectId.Some? && c.rpc == Some("item/tool/call")
      && c.callId.Some? && c.callId.value != []
      :: Shown(c.effectId)
  }

  predicate NoDuplicates(r: Run) {
    forall effect :: effect in EffectCounts(r) ==> EffectCounts(r)[effect] <= 1
  }

  predicate AllMediated(r: Run) {
    forall o :: o in r.outcomes ==> Shown(o) in Mediated(r)
  }

  predicate RunPasses(r: Run) {
    && NoDuplicates(r)
    && AllMediated(r)
    && (r.dispatchAccepted ==> r.calls != [])
  }

  /** Every run that the suite asks for, where there is one, satisfies `P`. */
  predicate Visited(suite: seq<string>, runs: map<RunKey, Run>, P: Run -> bool) {
    forall c, p :: c in suite && p in POLICIES && RunKey(c, p) in runs ==> P(runs[RunKey(c, p)])
  }

  predicate Passes(suite: seq<string>, runs: seq<Run>, records: Option<seq<RawRecord>>) {
    && (records.Some? ==> RawOk(runs, records.value))
    && |runs| == |suite| * |POLICIES|
    && DistinctRuns(runs)
    && Indexed(runs).Keys == ExpectedKeys(suite)
    && Visited(suite, Indexed(runs), RunPasses)
  }

  lemma {:induction false} IndexedIs(runs: seq<Run>)
    ensures forall key :: key in Indexed(runs) <==> exists r :: r in runs && KeyOfRun(r) == key
    ensures forall key :: key in Indexed(runs) ==> Indexed(runs)[key] in runs && KeyOfRun(Indexed(runs)[key]) == key
    decreases |runs|
  {
    if runs != [] {
      var front, last := runs[..|runs| - 1], runs[|runs| - 1];
      IndexedIs(front);
      assert runs == front + [last];
      forall key ensures key in Indexed(runs) <==> exists r :: r in runs && KeyOfRun(r) == key {
        if key == KeyOfRun(last) {
          assert last in runs;
        } else if key in Indexed(front) {
          assert Indexed(front)[key] in runs;
        }
      }
    }
  }

  /** The loop that fills the dictionary of runs. */
  method IndexRuns(runs: seq<Run>) returns (failures: seq<Failure>, index: map<RunKey, Run>)
    ensures index == Indexed(runs)
    ensures failures == [] <==> DistinctRuns(runs)
  {
    failures, index := [], map[];
    for i := 0 to |runs|
      invariant index == Indexed(runs[..i])
      invariant failures == [] <==> DistinctRuns(runs[..i])
    {
      assert runs[..i + 1][..i] == runs[..i];
      IndexedIs(runs[..i]);
      DistinctOneMore(runs, i);
      var key := KeyOfRun(runs[i]);
      if key in index {
        failures := failures + [DuplicateRun];
      }
      index := index[key := runs[i]];
    }
    assert runs[..|runs|] == runs;
  }

  lemma DistinctOneMore(runs: seq<Run>, i: nat)
    requires i < |runs|
    ensures
      DistinctRuns(runs[..i + 1]) <==>
      DistinctRuns(runs[..i]) && !exists r :: r in runs[..i] && KeyOfRun(r) == KeyOfRun(runs[i])
  {
    var before, some := runs[..i], runs[..i + 1];
    assert forall j :: 0 <= j < i ==> some[j] == before[j];
    if DistinctRuns(some) {
      forall r | r in before ensures KeyOfRun(r) != KeyOfRun(runs[i]) {
        var j :| 0 <= j < i && before[j] == r;
        assert KeyOfRun(some[j]) != KeyOfRun(some[i]);
      }
      assert DistinctRuns(before);
    }
    if DistinctRuns(before) && !exists r :: r in before && KeyOfRun(r) == KeyOfRun(runs[i]) {
      forall j, k | 0 <= j < k < |some| ensures KeyOfRun(some[j]) != KeyOfRun(some[k]) {
        assert before[j] in before;
      }
    }
  }

  /** What the loop over the suite does with one run. */
  method CheckRun(r: Run) returns (failures: seq<Failure>)
    requires OutcomesNamed(r)
    ensures failures == [] <==> RunPasses(r)
  {
    failures := [];
    var counts := EffectCounts(r);
    if exists effect :: effect in counts && counts[effect] > 1 {
      failures := failures + [DuplicateOutcomes];
    }
    var mediated := Mediated(r);
    var unmediated: seq<string> := [];
    for i := 0 to |r.outcomes|
      invariant unmediated == [] <==> forall j :: 0 <= j < i ==> Shown(r.outcomes[j]) in mediated
    {
      if Shown(r.outcomes[i]) !in mediated {
        unmediated := unmediated + [Shown(r.outcomes[i])];
      }
    }
    assert AllMediated(r) <==> forall j :: 0 <= j < |r.outcomes| ==> Shown(r.outcomes[j]) in mediated;
    if unmediated != [] {
      failures := failures + [Unmediated];
    }
    if r.dispatchAccepted && r.calls == [] {
      failures := failures + [MissingToolCalls];
    }
  }

  /** The loop over the policies of one case. */
  method CheckCase(c: string, index: map<RunKey, Run>) returns (malformed: bool, failures: seq<Failure>)
    ensures !malformed <==> Visited([c], index, OutcomesNamed)
    ensures !malformed ==> (failures == [] <==> Visited([c], index, RunPasses))
  {
    failures := [];
    for j := 0 to |POLICIES|
      invariant
        forall k :: 0 <= k < j && RunKey(c, POLICIES[k]) in index ==> OutcomesNamed(index[RunKey(c, POLICIES[k])])
      invariant failures == [] <==>
        forall k :: 0 <= k < j && RunKey(c, POLICIES[k]) in index ==> RunPasses(index[RunKey(c, POLICIES[k])])
    {
      var key := RunKey(c, POLICIES[j]);
      if key in index {
        if !OutcomesNamed(index[key]) {
          assert POLICIES[j] in POLICIES && c in [c];
          return true, failures;
        }
        var more := CheckRun(index[key]);
        failures := failures + more;
      }
    }
    malformed := false;
    assert forall k :: 0 <= k < |POLICIES| ==> POLICIES[k] in POLICIES && c in [c];
  }

  lemma VisitedOneMore(suite: seq<string>, index: map<RunKey, Run>, P: Run -> bool, i: nat)
    requires i < |suite|
    ensures Visited(suite[..i + 1], index, P) <==> Visited(suite[..i], index, P) && Visited([suite[i]], index, P)
    ensures Visited(suite, index, P) ==> Visited([suite[i]], index, P)
  {
    assert suite[..i + 1] == suite[..i] + [suite[i]];
  }

  /** The loop over the suite. */
  method CheckSuite(suite: seq<string>, index: map<RunKey, Run>) returns (malformed: bool, failures: seq<Failure>)
    ensures !malformed <==> Visited(suite, index, OutcomesNamed)
    ensures !malformed ==> (failures == [] <==> Visited(suite, index, RunPasses))
  {
    failures := [];
    for i := 0 to |suite|
      invariant Visited(suite[..i], index, OutcomesNamed)
      invariant failures == [] <==> Visited(suite[..i], index, RunPasses)
    {
      VisitedOneMore(suite, index, OutcomesNamed, i);
      VisitedOneMore(suite, index, RunPasses, i);
      var bad, more := CheckCase(suite[i], index);
      if bad {
        return true, failures;
      }
      failures := failures + more;
    }
    assert suite[..|suite|] == suite;
    malformed := false;
  }

  /** What `check_document` reports about the modelled gates. */
  datatype Report = Report(failures: seq<Failure>, rawCallCount: Option<nat>)

  /** The modelled gates of `check_document`; `None` stands for ResultFormatError. */
  method CheckDocument(suite: seq<string>, runs: seq<Run>, records: Option<seq<RawRecord>>)
    returns (report: Option<Report>)
    ensures report.Some? <==> Visited(suite, Indexed(runs), OutcomesNamed)
    ensures report.Some? ==> (report.value.failures == [] <==> Passes(suite, runs, records))
    ensures report.Some? ==>
      report.value.rawCallCount == if records.Some? then Some(|Tallied(records.value).calls|) else None
  {
    var failures: seq<Failure> := [];
    var count := None;
    if records.Some? {
      var rawFailures, calls := CheckRawProtocol(runs, records.value);
      failures, count := rawFailures, Some(calls);
    }
    if |runs| != |suite| * |POLICIES| {
      failures := failures + [RunCount];
    }
    var duplicates, index := IndexRuns(runs);
    failures := failures + duplicates;
    var expected := ExpectedKeys(suite);
    if expected - index.Keys != {} {
      failures := failures + [MissingRuns];
    }
    if index.Keys - expected != {} {
      failures := failures + [ExtraRuns];
    }
    NothingLeft(expected, index.Keys);
    NothingLeft(index.Keys, expected);
    var malformed, more := CheckSuite(suite, index);
    report := if malformed then None else Some(Report(failures + more, count));
  }
}
