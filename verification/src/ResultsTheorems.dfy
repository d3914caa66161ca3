/** When the report has no failures: sink outcomes are mediated by raw callbacks, and callbacks answered. */
module ResultsTheorems {
  import opened Options
  import opened Counting
  import opened Results

  // ----- Every run of the document is visited -----

  lemma {:induction false} IndexedAt(runs: seq<Run>, i: nat)
    requires DistinctRuns(runs) && i < |runs|
    ensures KeyOfRun(runs[i]) in Indexed(runs) && Indexed(runs)[KeyOfRun(runs[i])] == runs[i]
    decreases |runs|
  {
    var front, last := runs[..|runs| - 1], runs[|runs| - 1];
    if i < |front| {
      IndexedAt(front, i);
      assert KeyOfRun(runs[i]) != KeyOfRun(last);
    }
  }

  lemma {:induction false} EveryRunPasses(suite: seq<string>, runs: seq<Run>, records: Option<seq<RawRecord>>, r: Run)
    requires Passes(suite, runs, records) && r in runs
    ensures RunPasses(r)
  {
    var i :| 0 <= i < |runs| && runs[i] == r;
    IndexedAt(runs, i);
    assert KeyOfRun(r) in ExpectedKeys(suite);
    assert RunKey(r.caseId, r.policy) in Indexed(runs);
  }

  // ----- Counting outcomes and calls -----

  function Effects(r: Run): seq<string> {
    seq(|r.outcomes|, i requires 0 <= i < |r.outcomes| => Shown(r.outcomes[i]))
  }

  lemma {:induction false} OnceEach(s: seq<string>)
    requires forall x :: x in multiset(s) ==> multiset(s)[x] <= 1
    ensures Distinct(s)
  {
    forall i, j | 0 <= i < j < |s| ensures s[i] != s[j] {
      assert s == s[..j] + s[j..];
      assert s[i] in s[..j] && s[j] in s[j..];
      assert multiset(s) == multiset(s[..j]) + multiset(s[j..]);
      assert s[i] in multiset(s[..j]) && s[j] in multiset(s[j..]) && s[i] in multiset(s);
    }
  }

  lemma {:induction false} ImageAtMost(calls: seq<ToolCall>, effects: set<string>)
    requires forall effect :: effect in effects ==> exists c :: c in calls && Shown(c.effectId) == effect
    ensures |effects| <= |calls|
  {
    var shown := seq(|calls|, i requires 0 <= i < |calls| => Shown(calls[i].effectId));
    AtMostLength(shown);
    forall effect | effect in effects ensures effect in Elements(shown) {
      var c :| c in calls && Shown(c.effectId) == effect;
      var i :| 0 <= i < |calls| && calls[i] == c;
      assert shown[i] == effect;
    }
    SubsetSize(effects, Elements(shown));
  }

  /** A run that passes has no more outcomes than tool calls. */
  lemma {:induction false} OutcomesAtMostCalls(r: Run)
    requires RunPasses(r)
    ensures |r.outcomes| <= |r.calls|
  {
    var effects := Effects(r);
    assert EffectCounts(r) == multiset(effects);
    OnceEach(effects);
    DistinctIff(effects);
    forall effect | effect in Elements(effects) ensures exists c :: c in r.calls && Shown(c.effectId) == effect {
      var i :| 0 <= i < |effects| && effects[i] == effect;
      assert r.outcomes[i] in r.outcomes;
      assert effect in Mediated(r);
    }
    ImageAtMost(r.calls, Elements(effects));
  }

  function TotalOutcomes(runs: seq<Run>): nat {
    if runs == [] then 0 else TotalOutcomes(runs[..|runs| - 1]) + |runs[|runs| - 1].outcomes|
  }

  lemma {:induction false} CallsSize(calls: seq<ToolCall>)
    ensures |CallsOf(calls)| == |calls|
    decreases |calls|
  {
    if calls != [] {
      CallsSize(calls[..|calls| - 1]);
    }
  }

  lemma {:induction false} TotalAtMost(runs: seq<Run>)
    requires forall r :: r in runs ==> RunPasses(r)
    ensures TotalOutcomes(runs) <= |SummarisedCalls(runs)|
    decreases |runs|
  {
    if runs != [] {
      var front, last := runs[..|runs| - 1], runs[|runs| - 1];
      assert runs == front + [last];
      TotalAtMost(front);
      OutcomesAtMostCalls(last);
      CallsSize(last.calls);
    }
  }

  // ----- What the tally of the raw log means -----

  function CountCallbacks(records: seq<RawRecord>): nat {
    if records == [] then 0
    else CountCallbacks(records[..|records| - 1]) + if IsCallback(records[|records| - 1]) then 1 else 0
  }

  lemma {:induction false} TallyCounts(records: seq<RawRecord>)
    ensures |Tallied(records).calls| == CountCallbacks(records)
    decreases |records|
  {
    if records != [] {
      TallyCounts(records[..|records| - 1]);
    }
  }

  lemma {:induction false} TalliedCall(records: seq<RawRecord>, s: Signature) returns (k: nat)
    requires s in Tallied(records).calls
    ensures k < |records| && IsCallback(records[k]) && CalledBack(records[k]) == s
    decreases |records|
  {
    var front, last := records[..|records| - 1], records[|records| - 1];
    if IsCallback(last) && CalledBack(last) == s {
      k := |front|;
    } else {
      k := TalliedCall(front, s);
    }
  }

  lemma {:induction false} TalliedRequest(records: seq<RawRecord>, k: nat)
    requires k < |records| && IsCallback(records[k]) && records[k].payload.value.id.Some?
    ensures records[k].payload.value.id.value in Tallied(records).requests
    decreases |records|
  {
    if k < |records| - 1 {
      TalliedRequest(records[..|records| - 1], k);
    }
  }

  lemma {:induction false} TalliedResponse(records: seq<RawRecord>, id: RequestId) returns (k: nat)
    requires id in Tallied(records).responses
    ensures k < |records| && IsResponse(records[k]) && records[k].payload.value.id == Some(id)
    decreases |records|
  {
    var front, last := records[..|records| - 1], records[|records| - 1];
    if IsResponse(last) && last.payload.value.id == Some(id) {
      k := |front|;
    } else {
      k := TalliedResponse(front, id);
    }
  }

  // ----- The results -----

  /** Over all runs there are at most as many sink outcomes as raw `item/tool/call` callbacks. */
  lemma {:induction false} OutcomesAtMostCallbacks(suite: seq<string>, runs: seq<Run>, records: seq<RawRecord>)
    requires Passes(suite, runs, Some(records))
    ensures TotalOutcomes(runs) <= |Tallied(records).calls| == CountCallbacks(records)
  {
    forall r | r in runs ensures RunPasses(r) {
      EveryRunPasses(suite, runs, Some(records), r);
    }
    TotalAtMost(runs);
    TallyCounts(records);
  }

  lemma {:induction false} CallSummarised(calls: seq<ToolCall>, c: ToolCall)
    requires c in calls
    ensures Summarised(c) in CallsOf(calls)
    decreases |calls|
  {
    var front, last := calls[..|calls| - 1], calls[|calls| - 1];
    assert calls == front + [last];
    if c != last {
      CallSummarised(front, c);
    }
  }

  lemma {:induction false} RunSummarised(runs: seq<Run>, r: Run, s: Signature)
    requires r in runs && s in CallsOf(r.calls)
    ensures s in SummarisedCalls(runs)
    decreases |runs|
  {
    var front, last := runs[..|runs| - 1], runs[|runs| - 1];
    assert runs == front + [last];
    if r != last {
      RunSummarised(front, r, s);
    }
  }

  /** The call went through the App Server and names its effect. */
  predicate IsMediating(c: ToolCall) {
    c.rpc == Some("item/tool/call") && c.effectId.Some? && c.callId.Some? && c.callId.value != []
  }

  /** A summarised call and the parameters of a raw callback agree in all five fields that both have. */
  predicate Corresponds(c: ToolCall, p: Params) {
    && Shown(c.threadId) == Shown(p.threadId) && Shown(c.turnId) == Shown(p.turnId)
    && Shown(c.callId) == Shown(p.callId) && Shown(c.tool) == Shown(p.tool)
    && Shown(c.effectId) == Shown(p.effectId)
  }

  /** Every sink outcome has a raw callback, for a call of the same run, that carries its effect. */
  lemma {:induction false} EveryOutcomeHasCallback(
    suite: seq<string>, runs: seq<Run>, records: seq<RawRecord>, r: Run, o: Option<string>)
    returns (c: ToolCall, k: nat)
    requires Passes(suite, runs, Some(records)) && r in runs && o in r.outcomes
    ensures c in r.calls && Shown(c.effectId) == Shown(o) && IsMediating(c)
    ensures k < |records| && IsCallback(records[k]) && Corresponds(c, records[k].payload.value.params.value)
  {
    EveryRunPasses(suite, runs, Some(records), r);
    assert Shown(o) in Mediated(r);
    c :| c in r.calls && Shown(c.effectId) == Shown(o) && IsMediating(c);
    CallSummarised(r.calls, c);
    RunSummarised(runs, r, Summarised(c));
    k := TalliedCall(records, Summarised(c));
  }

  /** Every raw callback that carries a request id has a response with that id. */
  lemma {:induction false} EveryCallbackAnswered(suite: seq<string>, runs: seq<Run>, records: seq<RawRecord>, k: nat)
    returns (answer: nat)
    requires Passes(suite, runs, Some(records))
    requires k < |records| && IsCallback(records[k]) && records[k].payload.value.id.Some?
    ensures answer < |records| && IsResponse(records[answer])
    ensures records[answer].payload.value.id == records[k].payload.value.id
  {
    TalliedRequest(records, k);
    answer := TalliedResponse(records, records[k].payload.value.id.value);
  }

  // ----- Calls, forks and histories -----

  /** The places of the raw callbacks with this signature. */
  function CallbacksOf(records: seq<RawRecord>, s: Signature): set<int> {
    set k | 0 <= k < |records| && IsCallback(records[k]) && CalledBack(records[k]) == s
  }

  lemma CountedCalls(t: Tally, r: RawRecord)
    ensures Counted(t, r).calls == if IsCallback(r) then t.calls + multiset{CalledBack(r)} else t.calls
  {
  }

  lemma CallbacksSnoc(records: seq<RawRecord>, r: RawRecord, s: Signature)
    ensures
      |CallbacksOf(records + [r], s)|
      == |CallbacksOf(records, s)| + if IsCallback(r) && CalledBack(r) == s then 1 else 0
  {
    var n, some := |records|, CallbacksOf(records, s);
    assert n !in some;
    assert CallbacksOf(records + [r], s) == some + if IsCallback(r) && CalledBack(r) == s then {n} else {};
  }

  lemma {:induction false} CallbacksCounted(records: seq<RawRecord>, s: Signature)
    ensures Tallied(records).calls[s] == |CallbacksOf(records, s)|
    decreases |records|
  {
    if records != [] {
      var front, last := records[..|records| - 1], records[|records| - 1];
      CallbacksCounted(front, s);
      CountedCalls(Tallied(front), last);
      CallbacksSnoc(front, last, s);
      assert records == front + [last];
    }
  }

  /** The places, run by run, of the summarised calls with this signature. */
  function CallsWith(runs: seq<Run>, s: Signature): set<(int, int)> {
    set i, j | 0 <= i < |runs| && 0 <= j < |runs[i].calls| && Summarised(runs[i].calls[j]) == s :: (i, j)
  }

  function CallsAt(n: int, calls: seq<ToolCall>, s: Signature): set<(int, int)> {
    set j | 0 <= j < |calls| && Summarised(calls[j]) == s :: (n, j)
  }

  lemma {:induction false} CallsAtCounted(n: int, calls: seq<ToolCall>, s: Signature)
    ensures |CallsAt(n, calls, s)| == CallsOf(calls)[s]
    decreases |calls|
  {
    if calls != [] {
      var front, m := calls[..|calls| - 1], |calls| - 1;
      CallsAtCounted(n, front, s);
      assert (n, m) !in CallsAt(n, front, s);
      assert CallsAt(n, calls, s) == CallsAt(n, front, s) + if Summarised(calls[m]) == s then {(n, m)} else {};
    }
  }

  lemma CallsWithSnoc(runs: seq<Run>, r: Run, s: Signature)
    ensures |CallsWith(runs + [r], s)| == |CallsWith(runs, s)| + |CallsAt(|runs|, r.calls, s)|
  {
    var n, all := |runs|, runs + [r];
    var some, more := CallsWith(runs, s), CallsAt(n, r.calls, s);
    assert some !! more;
    forall p ensures p in CallsWith(all, s) <==> p in some + more {
      assert p.0 < n ==> (p in CallsWith(all, s) <==> p in some);
      assert p.0 >= n ==> (p in CallsWith(all, s) <==> p in more);
    }
    assert CallsWith(all, s) == some + more;
  }

  lemma {:induction false} CallsCounted(runs: seq<Run>, s: Signature)
    ensures SummarisedCalls(runs)[s] == |CallsWith(runs, s)|
    decreases |runs|
  {
    if runs != [] {
      var front, last := runs[..|runs| - 1], runs[|runs| - 1];
      CallsCounted(front, s);
      CallsAtCounted(|front|, last.calls, s);
      CallsWithSnoc(front, last, s);
      assert runs == front + [last];
    }
  }

  /** Each combination of the five fields comes as often among the raw callbacks as among the summarised calls. */
  lemma {:induction false} CallsCorrespond(suite: seq<string>, runs: seq<Run>, records: seq<RawRecord>, s: Signature)
    requires Passes(suite, runs, Some(records))
    ensures |CallbacksOf(records, s)| == |CallsWith(runs, s)|
  {
    CallbacksCounted(records, s);
    CallsCounted(runs, s);
  }

  /** Two calls have one signature exactly when they agree in all five fields. */
  lemma SignatureShowsFields(c: ToolCall, r: RawRecord)
    requires IsCallback(r)
    ensures Summarised(c) == CalledBack(r) <==> Corresponds(c, r.payload.value.params.value)
  {
  }

  /** No line of the log is a tool call without parameters. */
  lemma {:induction false} EveryCallWellFormed(suite: seq<string>, runs: seq<Run>, records: seq<RawRecord>, k: nat)
    requires Passes(suite, runs, Some(records)) && k < |records| && IsCall(records[k])
    ensures records[k].payload.value.params.Some?
  {
    if !IsCallback(records[k]) {
      MalformedCounted(records, k);
    }
  }

  lemma {:induction false} MalformedCounted(records: seq<RawRecord>, k: nat)
    requires k < |records| && IsCall(records[k]) && !IsCallback(records[k])
    ensures Tallied(records).malformed > 0
    decreases |records|
  {
    if k < |records| - 1 {
      MalformedCounted(records[..|records| - 1], k);
    }
  }

  lemma {:induction false} StartedInLog(records: seq<RawRecord>, h: string) returns (k: nat)
    requires h in Tallied(records).started
    ensures k < |records| && FromServer(records[k], "thread/started") && records[k].payload.value.params.Some?
    ensures records[k].payload.value.params.value.startedId == Some(h)
    decreases |records|
  {
    var front, last := records[..|records| - 1], records[|records| - 1];
    if StartsHistory(last) && last.payload.value.params.value.startedId.value == h && h !in Tallied(front).started {
      k := |front|;
    } else {
      k := StartedInLog(front, h);
    }
  }

  /** A run names the history in one of its topology events. */
  ghost predicate IsNamed(runs: seq<Run>, h: string) {
    exists r :: r in runs && Some(h) in r.histories
  }

  lemma {:induction false} HistoriesAre(runs: seq<Run>)
    ensures forall h :: h in Histories(runs) <==> IsNamed(runs, h)
    decreases |runs|
  {
    if runs != [] {
      var front, last := runs[..|runs| - 1], runs[|runs| - 1];
      HistoriesAre(front);
      assert runs == front + [last];
      forall h ensures h in Histories(runs) <==> IsNamed(runs, h) {
        if IsNamed(front, h) {
          var r :| r in front && Some(h) in r.histories;
          assert r in runs;
        }
        if Some(h) in last.histories {
          assert last in runs;
        }
        if h in Histories(runs) && h !in Histories(front) {
          assert Some(h) in last.histories;
        }
      }
    }
  }

  /** Every history that a run names was started, as the raw log shows. */
  lemma {:induction false} EveryHistoryStarted(suite: seq<string>, runs: seq<Run>, records: seq<RawRecord>, h: string)
    returns (k: nat)
    requires Passes(suite, runs, Some(records)) && IsNamed(runs, h)
    ensures k < |records| && FromServer(records[k], "thread/started") && records[k].payload.value.params.Some?
    ensures records[k].payload.value.params.value.startedId == Some(h)
  {
    HistoriesAre(runs);
    k := StartedInLog(records, h);
  }

  /** A line of the client that asks for a fork, and is no response. */
  predicate AsksFork(r: RawRecord) {
    && r.direction == "client_to_server" && r.payload.Some? && r.payload.value.rpc == Some("thread/fork")
    && !(r.payload.value.id.Some? && r.payload.value.hasResult)
  }

  function Forks(records: seq<RawRecord>): set<int> {
    set k | 0 <= k < |records| && AsksFork(records[k])
  }

  lemma CountedForks(t: Tally, r: RawRecord)
    ensures Counted(t, r).forks == t.forks + if AsksFork(r) then 1 else 0
  {
  }

  lemma ForksSnoc(records: seq<RawRecord>, r: RawRecord)
    ensures |Forks(records + [r])| == |Forks(records)| + if AsksFork(r) then 1 else 0
  {
    var n, some := |records|, Forks(records);
    assert n !in some;
    assert Forks(records + [r]) == some + if AsksFork(r) then {n} else {};
  }

  lemma {:induction false} ForksTallied(records: seq<RawRecord>)
    ensures Tallied(records).forks == |Forks(records)|
    decreases |records|
  {
    if records != [] {
      var front, last := records[..|records| - 1], records[|records| - 1];
      ForksTallied(front);
      CountedForks(Tallied(front), last);
      ForksSnoc(front, last);
      assert records == front + [last];
    }
  }

  /** As many forks were asked for as different histories are named by the runs. */
  lemma {:induction false} ForksCounted(suite: seq<string>, runs: seq<Run>, records: seq<RawRecord>, named: set<string>)
    requires Passes(suite, runs, Some(records)) && forall h :: h in named <==> IsNamed(runs, h)
    ensures |Forks(records)| == |named|
  {
    HistoriesAre(runs);
    ForksTallied(records);
    assert named == Histories(runs);
  }

  // ----- The runs of the suite -----

  /** Some run is of this case and policy. */
  ghost predicate IsRun(runs: seq<Run>, caseId: string, policy: string) {
    exists i :: 0 <= i < |runs| && runs[i].caseId == caseId && runs[i].policy == policy
  }

  lemma {:induction false} IsRunIff(runs: seq<Run>, caseId: string, policy: string)
    ensures RunKey(caseId, policy) in Indexed(runs) <==> IsRun(runs, caseId, policy)
    decreases |runs|
  {
    if runs != [] {
      var front, n := runs[..|runs| - 1], |runs| - 1;
      IsRunIff(front, caseId, policy);
      if IsRun(front, caseId, policy) {
        var i :| 0 <= i < n && front[i].caseId == caseId && front[i].policy == policy;
        assert runs[i] == front[i];
      }
      if i :| 0 <= i < |runs| && runs[i].caseId == caseId && runs[i].policy == policy && i != n {
        assert front[i] == runs[i];
      }
    }
  }

  predicate IsPolicy(policy: string) {
    policy == "P0" || policy == "P1" || policy == "P2" || policy == "P3"
  }

  lemma ExpectedKeyIff(suite: seq<string>, caseId: string, policy: string)
    ensures RunKey(caseId, policy) in ExpectedKeys(suite) <==> caseId in suite && IsPolicy(policy)
  {
    assert policy in POLICIES <==> IsPolicy(policy);
  }

  /** Every case of the suite was run once under each policy, and nothing else was run. */
  lemma {:induction false} RunsAreTheSuite(
    suite: seq<string>, runs: seq<Run>, records: Option<seq<RawRecord>>, caseId: string, policy: string)
    requires Passes(suite, runs, records)
    ensures IsRun(runs, caseId, policy) <==> caseId in suite && IsPolicy(policy)
    ensures forall i, j :: 0 <= i < j < |runs| ==> runs[i].caseId != runs[j].caseId || runs[i].policy != runs[j].policy
    ensures |runs| == 4 * |suite|
  {
    IsRunIff(runs, caseId, policy);
    ExpectedKeyIff(suite, caseId, policy);
    RunsDiffer(runs);
  }

  lemma RunsDiffer(runs: seq<Run>)
    requires DistinctRuns(runs)
    ensures forall i, j :: 0 <= i < j < |runs| ==> runs[i].caseId != runs[j].caseId || runs[i].policy != runs[j].policy
  {
    forall i, j | 0 <= i < j < |runs|
      ensures runs[i].caseId != runs[j].caseId || runs[i].policy != runs[j].policy
    {
      assert KeyOfRun(runs[i]) != KeyOfRun(runs[j]);
    }
  }

  /** No run records two outcomes of one effect, and a run that dispatched has tool calls. */
  lemma {:induction false} OutcomesAreSingle(
    suite: seq<string>, runs: seq<Run>, records: Option<seq<RawRecord>>, r: Run, i: nat, j: nat)
    requires Passes(suite, runs, records) && r in runs
    ensures i < j < |r.outcomes| ==> Shown(r.outcomes[i]) != Shown(r.outcomes[j])
    ensures r.dispatchAccepted ==> r.calls != []
  {
    EveryRunPasses(suite, runs, records, r);
    assert EffectCounts(r) == multiset(Effects(r));
    OnceEach(Effects(r));
    assert i < j < |r.outcomes| ==> Effects(r)[i] != Effects(r)[j];
  }
}
