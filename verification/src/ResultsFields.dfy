/** Exactly which documents pass the modelled gates, said of the fields of runs and log lines. */
module ResultsFields {
  import opened Options
  import opened Counting
  import opened Results
  import opened ResultsTheorems

  // ----- The log -----

  /** A line of the server with this name. */
  predicate ServerLine(r: RawRecord, name: string) {
    r.direction == "server_to_client" && r.payload.Some? && r.payload.value.rpc == Some(name)
  }

  /** The line is the server's call of a tool, with this request id. */
  predicate AsksUnder(r: RawRecord, id: RequestId) {
    ServerLine(r, "item/tool/call") && r.payload.value.params.Some? && r.payload.value.id == Some(id)
  }

  /** The line is the client's response to this request id. */
  predicate AnswersUnder(r: RawRecord, id: RequestId) {
    && r.direction == "client_to_server" && r.payload.Some? && r.payload.value.hasResult
    && r.payload.value.id == Some(id)
  }

  predicate AskedAt(records: seq<RawRecord>, k: int, id: RequestId) {
    0 <= k < |records| && AsksUnder(records[k], id)
  }

  predicate AnsweredAt(records: seq<RawRecord>, k: int, id: RequestId) {
    0 <= k < |records| && AnswersUnder(records[k], id)
  }

  /** The line at `k` says that the history was started. */
  predicate StartedAt(records: seq<RawRecord>, k: int, h: string) {
    && 0 <= k < |records| && ServerLine(records[k], "thread/started") && records[k].payload.value.params.Some?
    && records[k].payload.value.params.value.startedId == Some(h)
  }

  ghost predicate IsAsked(records: seq<RawRecord>, id: RequestId) {
    exists k :: AskedAt(records, k, id)
  }

  ghost predicate IsAnswered(records: seq<RawRecord>, id: RequestId) {
    exists k :: AnsweredAt(records, k, id)
  }

  ghost predicate IsStarted(records: seq<RawRecord>, h: string) {
    exists k :: StartedAt(records, k, h)
  }

  /** The histories that the runs name. */
  function NamedIn(runs: seq<Run>): set<string> {
    set r, h | r in runs && h in r.histories && h.Some? :: h.value
  }

  /** Each combination of the five fields comes as often in the log as in the summaries. */
  ghost predicate CallsAgree(runs: seq<Run>, records: seq<RawRecord>) {
    forall s :: |CallbacksOf(records, s)| == |CallsWith(runs, s)|
  }

  /**
   Every tool call of the log has parameters; the calls are those of the summaries, and are answered;
   every history that is named was started, and there are as many forks as histories named.
   */
  ghost predicate LogHolds(runs: seq<Run>, records: seq<RawRecord>) {
    && (forall k :: 0 <= k < |records| && ServerLine(records[k], "item/tool/call") ==>
          records[k].payload.value.params.Some?)
    && CallsAgree(runs, records)
    && (forall id :: IsAsked(records, id) ==> IsAnswered(records, id))
    && (forall h :: h in NamedIn(runs) ==> IsStarted(records, h))
    && |Forks(records)| == |NamedIn(runs)|
  }

  lemma {:induction false} NoneMalformed(records: seq<RawRecord>)
    requires
      forall k :: 0 <= k < |records| && ServerLine(records[k], "item/tool/call") ==>
        records[k].payload.value.params.Some?
    ensures Tallied(records).malformed == 0
    decreases |records|
  {
    if records != [] {
      NoneMalformed(records[..|records| - 1]);
      assert IsCall(records[|records| - 1]) ==> ServerLine(records[|records| - 1], "item/tool/call");
    }
  }

  lemma CountedIds(t: Tally, r: RawRecord)
    ensures forall id :: id in Counted(t, r).requests <==> id in t.requests || AsksUnder(r, id)
    ensures forall id :: id in Counted(t, r).responses <==> id in t.responses || AnswersUnder(r, id)
  {
  }

  lemma AskedSnoc(records: seq<RawRecord>, r: RawRecord, id: RequestId)
    ensures IsAsked(records + [r], id) <==> IsAsked(records, id) || AsksUnder(r, id)
  {
    var all, n := records + [r], |records|;
    assert all[n] == r;
    if k :| AskedAt(records, k, id) {
      assert AskedAt(all, k, id);
    }
    if k :| AskedAt(all, k, id) {
      assert k < n ==> AskedAt(records, k, id);
    }
    assert AsksUnder(r, id) ==> AskedAt(all, n, id);
  }

  lemma AnsweredSnoc(records: seq<RawRecord>, r: RawRecord, id: RequestId)
    ensures IsAnswered(records + [r], id) <==> IsAnswered(records, id) || AnswersUnder(r, id)
  {
    var all, n := records + [r], |records|;
    assert all[n] == r;
    if k :| AnsweredAt(records, k, id) {
      assert AnsweredAt(all, k, id);
    }
    if k :| AnsweredAt(all, k, id) {
      assert k < n ==> AnsweredAt(records, k, id);
    }
    assert AnswersUnder(r, id) ==> AnsweredAt(all, n, id);
  }

  lemma {:induction false} TalliedIds(records: seq<RawRecord>, id: RequestId)
    ensures id in Tallied(records).requests <==> IsAsked(records, id)
    ensures id in Tallied(records).responses <==> IsAnswered(records, id)
    decreases |records|
  {
    if records != [] {
      var front, last := records[..|records| - 1], records[|records| - 1];
      TalliedIds(front, id);
      CountedIds(Tallied(front), last);
      AskedSnoc(front, last, id);
      AnsweredSnoc(front, last, id);
      assert records == front + [last];
    }
  }

  lemma CountedStarts(t: Tally, r: RawRecord, h: string)
    ensures
      h in Counted(t, r).started <==> h in t.started || StartedAt([r], 0, h)
  {
  }

  lemma StartedSnoc(records: seq<RawRecord>, r: RawRecord, h: string)
    ensures IsStarted(records + [r], h) <==> IsStarted(records, h) || StartedAt([r], 0, h)
  {
    var all, n := records + [r], |records|;
    assert all[n] == r;
    if k :| StartedAt(records, k, h) {
      assert StartedAt(all, k, h);
    }
    if k :| StartedAt(all, k, h) {
      assert k < n ==> StartedAt(records, k, h);
    }
    assert StartedAt([r], 0, h) ==> StartedAt(all, n, h);
  }

  lemma {:induction false} TalliedStarts(records: seq<RawRecord>, h: string)
    ensures h in Tallied(records).started <==> IsStarted(records, h)
    decreases |records|
  {
    if records != [] {
      var front, last := records[..|records| - 1], records[|records| - 1];
      TalliedStarts(front, h);
      CountedStarts(Tallied(front), last, h);
      StartedSnoc(front, last, h);
      assert records == front + [last];
    }
  }

  lemma {:induction false} NamedIs(runs: seq<Run>)
    ensures NamedIn(runs) == Histories(runs)
  {
    HistoriesAre(runs);
    forall h ensures h in NamedIn(runs) <==> IsNamed(runs, h) {
      if r :| r in runs && Some(h) in r.histories {
        assert r in runs && Some(h) in r.histories && Some(h).value == h;
      }
    }
  }

  lemma {:induction false} CallsAgreeIff(runs: seq<Run>, records: seq<RawRecord>)
    ensures Tallied(records).calls == SummarisedCalls(runs) <==> CallsAgree(runs, records)
  {
    var a, b := Tallied(records).calls, SummarisedCalls(runs);
    forall s ensures a[s] == |CallbacksOf(records, s)| && b[s] == |CallsWith(runs, s)| {
      CallbacksCounted(records, s);
      CallsCounted(runs, s);
    }
    if CallsAgree(runs, records) {
      assert forall s :: |CallbacksOf(records, s)| == |CallsWith(runs, s)|;
      assert forall s :: a[s] == b[s];
      assert a == b;
    }
  }

  lemma {:induction false} RawOkIff(runs: seq<Run>, records: seq<RawRecord>)
    ensures RawOk(runs, records) <==> LogHolds(runs, records)
  {
    var t := Tallied(records);
    CallsAgreeIff(runs, records);
    NamedIs(runs);
    ForksTallied(records);
    forall id ensures (id in t.requests <==> IsAsked(records, id)) && (id in t.responses <==> IsAnswered(records, id)) {
      TalliedIds(records, id);
    }
    forall h ensures h in t.started <==> IsStarted(records, h) {
      TalliedStarts(records, h);
    }
    if t.malformed == 0 {
      forall k | 0 <= k < |records| && ServerLine(records[k], "item/tool/call")
        ensures records[k].payload.value.params.Some?
      {
        if records[k].payload.value.params.None? {
          MalformedCounted(records, k);
        }
      }
    } else if forall k :: 0 <= k < |records| && ServerLine(records[k], "item/tool/call") ==>
                records[k].payload.value.params.Some?
    {
      NoneMalformed(records);
    }
  }

  // ----- The runs -----

  /** Some call of the run went through the App Server and names this effect. */
  ghost predicate IsMediated(r: Run, effect: string) {
    exists c :: c in r.calls && Shown(c.effectId) == effect && IsMediating(c)
  }

  /** No two outcomes show one effect, every outcome is mediated, and a run that dispatched has tool calls. */
  ghost predicate RunHolds(r: Run) {
    && (forall i, j :: 0 <= i < j < |r.outcomes| ==> Shown(r.outcomes[i]) != Shown(r.outcomes[j]))
    && (forall i :: 0 <= i < |r.outcomes| ==> IsMediated(r, Shown(r.outcomes[i])))
    && (r.dispatchAccepted ==> r.calls != [])
  }

  lemma {:induction false} NoDuplicatesIff(r: Run)
    ensures
      NoDuplicates(r) <==>
      forall i, j :: 0 <= i < j < |r.outcomes| ==> Shown(r.outcomes[i]) != Shown(r.outcomes[j])
  {
    var effects := Effects(r);
    assert EffectCounts(r) == multiset(effects);
    if NoDuplicates(r) {
      OnceEach(effects);
      forall i, j | 0 <= i < j < |r.outcomes| ensures Shown(r.outcomes[i]) != Shown(r.outcomes[j]) {
        assert effects[i] != effects[j];
      }
    }
    if forall i, j :: 0 <= i < j < |r.outcomes| ==> Shown(r.outcomes[i]) != Shown(r.outcomes[j]) {
      forall x ensures multiset(effects)[x] <= 1 {
        OnceOrNever(effects, x);
      }
    }
  }

  lemma {:induction false} RunPassesIff(r: Run)
    ensures RunPasses(r) <==> RunHolds(r)
  {
    NoDuplicatesIff(r);
    forall effect ensures effect in Mediated(r) <==> IsMediated(r, effect) {
    }
    assert forall i :: 0 <= i < |r.outcomes| ==> r.outcomes[i] in r.outcomes;
  }

  // ----- The document -----

  /** Every case of the suite was run under each of the four policies, once, and nothing else was run. */
  ghost predicate SuiteRun(suite: seq<string>, runs: seq<Run>) {
    && |runs| == 4 * |suite|
    && (forall i, j :: 0 <= i < j < |runs| ==> runs[i].caseId != runs[j].caseId || runs[i].policy != runs[j].policy)
    && (forall c, p :: IsRun(runs, c, p) <==> c in suite && IsPolicy(p))
  }

  lemma {:induction false} KeysIff(suite: seq<string>, runs: seq<Run>)
    ensures
      Indexed(runs).Keys == ExpectedKeys(suite) <==>
      forall c, p :: IsRun(runs, c, p) <==> c in suite && IsPolicy(p)
  {
    forall c, p
      ensures
        && (RunKey(c, p) in Indexed(runs) <==> IsRun(runs, c, p))
        && (RunKey(c, p) in ExpectedKeys(suite) <==> c in suite && IsPolicy(p))
    {
      IsRunIff(runs, c, p);
      ExpectedKeyIff(suite, c, p);
    }
    if forall c, p :: IsRun(runs, c, p) <==> c in suite && IsPolicy(p) {
      forall key: RunKey ensures key in Indexed(runs).Keys <==> key in ExpectedKeys(suite) {
        assert key == RunKey(key.caseId, key.policy);
        assert IsRun(runs, key.caseId, key.policy) <==> key.caseId in suite && IsPolicy(key.policy);
      }
    }
  }

  lemma DistinctRunsIff(runs: seq<Run>)
    ensures
      DistinctRuns(runs) <==>
      forall i, j :: 0 <= i < j < |runs| ==> runs[i].caseId != runs[j].caseId || runs[i].policy != runs[j].policy
  {
    if DistinctRuns(runs) {
      RunsDiffer(runs);
    }
  }

  /** A run that is in the dictionary passes if every run does. */
  lemma {:induction false} VisitedRuns(suite: seq<string>, runs: seq<Run>)
    requires forall r :: r in runs ==> RunPasses(r)
    ensures Visited(suite, Indexed(runs), RunPasses)
  {
    IndexedIs(runs);
  }

  /**
   Exactly which documents pass: the log agrees with the summaries, the runs are those of the suite, and
   every run holds.
   */
  lemma {:induction false} PassesIff(suite: seq<string>, runs: seq<Run>, records: Option<seq<RawRecord>>)
    ensures
      Passes(suite, runs, records) <==>
      && (records.Some? ==> LogHolds(runs, records.value))
      && SuiteRun(suite, runs)
      && forall r :: r in runs ==> RunHolds(r)
  {
    if records.Some? {
      RawOkIff(runs, records.value);
    }
    KeysIff(suite, runs);
    DistinctRunsIff(runs);
    forall r ensures RunPasses(r) <==> RunHolds(r) { RunPassesIff(r); }
    if Passes(suite, runs, records) {
      forall r | r in runs ensures RunPasses(r) { EveryRunPasses(suite, runs, records, r); }
    } else if forall r :: r in runs ==> RunHolds(r) {
      VisitedRuns(suite, runs);
    }
  }

  // ----- When the document is malformed -----

  /** No later run has its case and policy. */
  predicate IsLast(runs: seq<Run>, i: int) {
    && 0 <= i < |runs|
    && forall j :: i < j < |runs| ==> runs[j].caseId != runs[i].caseId || runs[j].policy != runs[i].policy
  }

  lemma {:induction false} LastIndexed(runs: seq<Run>, i: nat)
    requires IsLast(runs, i)
    ensures KeyOfRun(runs[i]) in Indexed(runs) && Indexed(runs)[KeyOfRun(runs[i])] == runs[i]
    decreases |runs|
  {
    var front, n := runs[..|runs| - 1], |runs| - 1;
    if i < n {
      assert IsLast(front, i);
      LastIndexed(front, i);
      assert KeyOfRun(runs[i]) != KeyOfRun(runs[n]);
    }
  }

  lemma {:induction false} LastOf(runs: seq<Run>, key: RunKey) returns (i: nat)
    requires key in Indexed(runs)
    ensures IsLast(runs, i) && KeyOfRun(runs[i]) == key && Indexed(runs)[key] == runs[i]
    decreases |runs|
  {
    var front, n := runs[..|runs| - 1], |runs| - 1;
    if KeyOfRun(runs[n]) == key {
      i := n;
    } else {
      i := LastOf(front, key);
      assert IsLast(runs, i);
    }
  }

  /** The run is looked at: it is the last of its case and policy, which are those of the suite. */
  ghost predicate IsLookedAt(suite: seq<string>, runs: seq<Run>, i: int) {
    IsLast(runs, i) && runs[i].caseId in suite && IsPolicy(runs[i].policy)
  }

  /** The effect is missing, or is the text that a missing one is shown as. */
  predicate Unnamed(o: Option<string>) {
    o.None? || o.value == "None"
  }

  /** The checker raises its format error if and only if a run that it looks at records an unnamed outcome. */
  lemma {:induction false} MalformedIff(suite: seq<string>, runs: seq<Run>)
    ensures
      Visited(suite, Indexed(runs), OutcomesNamed) <==>
      forall i, o :: IsLookedAt(suite, runs, i) && o in runs[i].outcomes ==> !Unnamed(o)
  {
    assert forall o: Option<string> :: Shown(o) == "None" <==> Unnamed(o);
    assert forall p :: p in POLICIES <==> IsPolicy(p);
    if Visited(suite, Indexed(runs), OutcomesNamed) {
      forall i, o | IsLookedAt(suite, runs, i) && o in runs[i].outcomes ensures !Unnamed(o) {
        LastIndexed(runs, i);
        assert RunKey(runs[i].caseId, runs[i].policy) in Indexed(runs);
      }
    }
    if forall i, o :: IsLookedAt(suite, runs, i) && o in runs[i].outcomes ==> !Unnamed(o) {
      forall c, p | c in suite && p in POLICIES && RunKey(c, p) in Indexed(runs)
        ensures OutcomesNamed(Indexed(runs)[RunKey(c, p)])
      {
        var i := LastOf(runs, RunKey(c, p));
        assert IsLookedAt(suite, runs, i);
      }
    }
  }
}
