/**
 What holds in every state that any run of the client can reach.
 */
module ClientTheorems {
  import opened Options
  import opened ClientState
  import opened ClientRuns

  // ----- The invariant -----

  predicate PastCheck(c: Caller) {
    c.Checked? || c.Waiting?
  }

  predicate Unwritten(c: Caller) {
    c.Registered? || c.Checked?
  }

  /** What may stand in the queue of request `rid`: a response bearing that id, or the fatal error. */
  predicate Fits(fatal: Option<Error>, rid: int, p: Payload) {
    match p
    case Response(m) => Answers(m, rid)
    case Failure(e) => fatal == Some(e)
  }

  predicate OutcomeFits(fatal: Option<Error>, rid: int, outcome: Outcome) {
    outcome.Got? ==> Fits(fatal, rid, outcome.payload)
  }

  /** Request `rid` owns queue `rid - 1`, and no other request ever does. */
  ghost predicate TableOk(tb: Table, fatal: Option<Error>) {
    && tb.nextId == |tb.queues| + 1
    && (forall rid :: rid in tb.pending ==> 1 <= rid < tb.nextId && tb.pending[rid] == rid - 1)
    && (forall q :: 0 <= q < |tb.queues| && tb.queues[q].Some? ==> Fits(fatal, q + 1, tb.queues[q].value))
  }

  ghost predicate FanOk(tb: Table, fatal: Option<Error>, fan: Fan) {
    match fan
    case NotStarted => fatal.None?
    case Snapshot(e) => fatal == Some(e)
    case Deliver(e, rest) => fatal == Some(e) && forall q :: q in rest ==> q < |tb.queues|
    case Finished => fatal.Some?
  }

  predicate ReaderOk(tb: Table, r: Reader) {
    r.Holding? ==> r.q < |tb.queues| && Answers(r.held, r.q + 1)
  }

  /** The fan-out still owes queue `q` its error. */
  predicate Owed(fan: Fan, q: nat) {
    fan.Snapshot? || (fan.Deliver? && q in fan.rest)
  }

  /**
   A call is in the pending table exactly until it returns, with its own queue.  Once there is a
   fatal error, a caller that had passed the check has its queue filled or is still owed the error.
   */
  predicate CallerOk(tb: Table, fatal: Option<Error>, fan: Fan, rid: int, c: Caller) {
    && 1 <= rid < tb.nextId
    && (rid in tb.pending <==> !c.Returned?)
    && (!c.Returned? ==> c.q == rid - 1)
    && (PastCheck(c) && fatal.Some? ==> Full(tb, c.q) || Owed(fan, c.q))
    && (c.Leaving? || c.Returned? ==> OutcomeFits(fatal, rid, c.outcome))
  }

  ghost predicate CallersOk(tb: Table, fatal: Option<Error>, fan: Fan, callers: map<int, Caller>) {
    && (forall rid :: rid in callers ==> CallerOk(tb, fatal, fan, rid, callers[rid]))
    && (forall rid :: 1 <= rid < tb.nextId ==> rid in callers)
  }

  ghost predicate WireOk(wire: seq<Sent>, callers: map<int, Caller>) {
    && (forall i :: 0 <= i < |wire| && wire[i].Request? ==>
          wire[i].rid in callers && !Unwritten(callers[wire[i].rid]))
    && (forall i, j :: 0 <= i < j < |wire| && wire[i].Request? && wire[j].Request? ==> wire[i].rid != wire[j].rid)
  }

  ghost predicate CallsOk(c: Calls, fatal: Option<Error>) {
    && TableOk(c.table, fatal)
    && FanOk(c.table, fatal, c.fan)
    && ReaderOk(c.table, c.out)
    && ReaderOk(c.table, c.err)
    && CallersOk(c.table, fatal, c.fan, c.callers)
    && WireOk(c.wire, c.callers)
  }

  /** A sleeping waiter has nothing to wake up for. */
  ghost predicate SleepersIdle(m: Mail) {
    forall t :: t in m.waiters && m.waiters[t].Sleeping? ==>
      m.box.fatal.None? && NoMatch(m.box.events, m.waiters[t].wants)
  }

  ghost predicate MailOk(m: Mail) {
    && SleepersIdle(m)
    && multiset(m.arrived) == multiset(m.taken) + multiset(m.box.events)
  }

  ghost predicate Inv(s: State) {
    CallsOk(s.calls, s.mail.box.fatal) && MailOk(s.mail)
  }

  // ----- Every action keeps it -----

  predicate Calling(a: Action) {
    a.Begin? || a.Check? || a.Write? || a.Leave? || a.Expire?
  }

  predicate Queueing(a: Action) {
    a.Get? || a.Put? || a.FanOut?
  }

  lemma CallingKeeps(c: Calls, fatal: Option<Error>, a: Action)
    requires Calling(a) && CallsOk(c, fatal)
    ensures CallsOk(CallStep(c, fatal, a), fatal)
  {
    match a
    case Begin => BeginKeeps(c, fatal);
    case Leave(rid) => LeaveKeeps(c, fatal, rid);
    case Write(rid, ok, e) => WriteKeeps(c, fatal, rid, ok, e);
    case _ =>
  }

  lemma BeginKeeps(c: Calls, fatal: Option<Error>)
    requires CallsOk(c, fatal)
    ensures CallsOk(BeginStep(c), fatal)
  {
  }

  lemma WriteKeeps(c: Calls, fatal: Option<Error>, rid: int, ok: bool, error: Error)
    requires CallsOk(c, fatal)
    ensures CallsOk(WriteStep(c, rid, ok, error), fatal)
  {
  }

  lemma LeaveKeeps(c: Calls, fatal: Option<Error>, rid: int)
    requires CallsOk(c, fatal)
    ensures CallsOk(LeaveStep(c, rid), fatal)
  {
  }

  lemma QueueingKeeps(c: Calls, fatal: Option<Error>, a: Action)
    requires Queueing(a) && CallsOk(c, fatal)
    ensures CallsOk(CallStep(c, fatal, a), fatal)
  {
    match a
    case Put(e) => PutKeeps(c, fatal, e);
    case Get(rid) => GetKeeps(c, fatal, rid);
    case FanOut(q) => FanOutKeeps(c, fatal, q);
  }

  lemma GetKeeps(c: Calls, fatal: Option<Error>, rid: int)
    requires CallsOk(c, fatal)
    ensures CallsOk(GetStep(c, rid), fatal)
  {
  }

  lemma FanOutKeeps(c: Calls, fatal: Option<Error>, q: nat)
    requires CallsOk(c, fatal)
    ensures CallsOk(FanOutStep(c, q), fatal)
  {
  }

  lemma PutKeeps(c: Calls, fatal: Option<Error>, error: Error)
    requires CallsOk(c, fatal)
    ensures CallsOk(PutStep(c, error), fatal)
  {
  }

  lemma LaterFatalKeeps(c: Calls, fatal: Option<Error>, isOut: bool)
    requires CallsOk(c, fatal) && (fatal.Some? || !ReaderOf(c, isOut).Failing?)
    ensures CallsOk(SetFatalStep(c, fatal, isOut), fatal)
  {
  }

  lemma FirstFatalKeeps(c: Calls, isOut: bool)
    requires CallsOk(c, None) && ReaderOf(c, isOut).Failing?
    ensures CallsOk(SetFatalStep(c, None, isOut), Some(ReaderOf(c, isOut).error))
  {
  }

  lemma SetFatalKeeps(c: Calls, m: Mail, isOut: bool)
    requires CallsOk(c, m.box.fatal)
    ensures CallsOk(SetFatalStep(c, m.box.fatal, isOut), MailStep(m, c, SetFatal(isOut)).box.fatal)
  {
    if m.box.fatal.Some? || !ReaderOf(c, isOut).Failing? {
      LaterFatalKeeps(c, m.box.fatal, isOut);
    } else {
      FirstFatalKeeps(c, isOut);
    }
  }

  lemma RouteKeeps(c: Calls, fatal: Option<Error>, error: Error)
    requires CallsOk(c, fatal)
    ensures CallsOk(RouteStep(c, error), fatal)
  {
  }

  lemma SnapshotKeeps(c: Calls, fatal: Option<Error>)
    requires CallsOk(c, fatal)
    ensures CallsOk(TakeSnapshotStep(c), fatal)
  {
  }

  lemma NotifyWriteKeeps(c: Calls, fatal: Option<Error>, t: nat, ok: bool)
    requires CallsOk(c, fatal)
    ensures CallsOk(NotifyWriteStep(c, t, ok), fatal)
  {
  }

  lemma OtherKeeps(c: Calls, fatal: Option<Error>, a: Action)
    requires !Calling(a) && !Queueing(a) && !a.SetFatal? && CallsOk(c, fatal)
    ensures CallsOk(CallStep(c, fatal, a), fatal)
  {
    match a
    case Route(e) => RouteKeeps(c, fatal, e);
    case TakeSnapshot => SnapshotKeeps(c, fatal);
    case NotifyWrite(t, ok) => NotifyWriteKeeps(c, fatal, t, ok);
    case _ =>
  }

  lemma RemoveOne(events: seq<Message>, i: nat)
    requires i < |events|
    ensures multiset(events) == multiset(RemoveAt(events, i)) + multiset{events[i]}
    ensures forall w :: NoMatch(events, w) ==> NoMatch(RemoveAt(events, i), w)
  {
    assert events == events[..i] + ([events[i]] + events[i + 1..]);
  }

  lemma TakeKeeps(m: Mail, t: nat, wants: Message -> bool, i: nat)
    requires MailOk(m) && i < |m.box.events|
    ensures MailOk(HandOut(m, t, wants, i).(waiters := m.waiters[t := Away]))
  {
    RemoveOne(m.box.events, i);
  }

  lemma LookKeeps(m: Mail, t: nat, expired: bool)
    requires MailOk(m)
    ensures MailOk(LookStep(m, t, expired))
  {
    if WaiterOf(m, t).Ready? && m.box.fatal.None? {
      var i := FirstMatch(m.box.events, WaiterOf(m, t).wants);
      if i < |m.box.events| {
        TakeKeeps(m, t, WaiterOf(m, t).wants, i);
      } else {
        assert m.box.events[..i] == m.box.events;
      }
    }
  }

  lemma ArriveKeeps(m: Mail, event: Message)
    requires MailOk(m)
    ensures MailOk(ArriveStep(m, event))
  {
  }

  lemma FailKeeps(m: Mail, e: Error)
    requires MailOk(m)
    ensures MailOk(FailStep(m, e))
  {
  }

  lemma ReadyKeeps(m: Mail, t: nat, wants: Message -> bool)
    requires MailOk(m)
    ensures MailOk(m.(waiters := m.waiters[t := Ready(wants)]))
  {
  }

  /** What the actions do to the mail, for any property of it. */
  lemma MailCases(P: Mail -> bool, m: Mail, c: Calls, a: Action)
    requires P(m)
    requires a.Look? ==> P(LookStep(m, a.t, a.expired))
    requires a.Route? && c.out.Routing? ==> P(ArriveStep(m, c.out.message))
    requires a.SetFatal? && ReaderOf(c, a.isOut).Failing? ==> P(FailStep(m, ReaderOf(c, a.isOut).error))
    requires a.Wait? ==> P(m.(waiters := m.waiters[a.t := Ready(a.wants)]))
    requires a.Wake? && WaiterOf(m, a.t).Sleeping? ==> P(m.(waiters := m.waiters[a.t := Ready(m.waiters[a.t].wants)]))
    ensures P(MailStep(m, c, a))
  {
  }

  lemma MailKeeps(m: Mail, c: Calls, a: Action)
    requires MailOk(m)
    ensures MailOk(MailStep(m, c, a))
  {
    match a {
      case Look(t, expired) => LookKeeps(m, t, expired);
      case Route(_) => if c.out.Routing? { ArriveKeeps(m, c.out.message); }
      case SetFatal(isOut) => if ReaderOf(c, isOut).Failing? { FailKeeps(m, ReaderOf(c, isOut).error); }
      case Wait(t, wants) => ReadyKeeps(m, t, wants);
      case Wake(t) => if WaiterOf(m, t).Sleeping? { ReadyKeeps(m, t, m.waiters[t].wants); }
      case _ =>
    }
    MailCases(x => MailOk(x), m, c, a);
  }

  lemma FatalOnlySet(m: Mail, c: Calls, a: Action)
    requires !a.SetFatal?
    ensures MailStep(m, c, a).box.fatal == m.box.fatal
  {
  }

  lemma StepKeeps(s: State, a: Action)
    requires Inv(s)
    ensures Inv(Step(s, a))
  {
    MailKeeps(s.mail, s.calls, a);
    if !a.SetFatal? {
      FatalOnlySet(s.mail, s.calls, a);
    }
    if Calling(a) {
      CallingKeeps(s.calls, s.mail.box.fatal, a);
    } else if Queueing(a) {
      QueueingKeeps(s.calls, s.mail.box.fatal, a);
    } else if a.SetFatal? {
      SetFatalKeeps(s.calls, s.mail, a.isOut);
    } else {
      OtherKeeps(s.calls, s.mail.box.fatal, a);
    }
  }

  lemma {:induction false} RunKeeps(s: State, actions: seq<Action>)
    requires Inv(s)
    ensures Inv(Run(s, actions))
  {
    if actions != [] {
      RunKeeps(s, actions[..|actions| - 1]);
      StepKeeps(Run(s, actions[..|actions| - 1]), actions[|actions| - 1]);
    }
  }

  lemma {:induction false} Reachable(actions: seq<Action>)
    ensures Inv(Run(START, actions))
  {
    RunKeeps(START, actions);
  }

  // ----- Requests -----

  /**
   Once the fan-out of the first fatal error has finished, every caller still blocked on its queue
   has something in it: it can no longer time out, and taking the item ends its wait with a response
   bearing its own id or with that error.
   */
  lemma {:induction false} BlockedCallersAreWoken(actions: seq<Action>, rid: int)
    requires
      var s := Run(START, actions);
      s.calls.fan.Finished? && rid in s.calls.callers && s.calls.callers[rid].Waiting?
    ensures
      var s := Run(START, actions);
      var q := s.calls.callers[rid].q;
      && Full(s.calls.table, q)
      && Step(s, Expire(rid)) == s
      && var s' := Step(s, Get(rid));
         && s'.calls.callers[rid] == Leaving(q, Got(s.calls.table.queues[q].value))
         && Fits(s.mail.box.fatal, rid, s.calls.table.queues[q].value)
  {
    Reachable(actions);
  }

  lemma {:induction false} RunCons(s: State, a: Action, more: seq<Action>)
    ensures Run(s, [a] + more) == Run(Step(s, a), more)
    decreases |more|
  {
    var actions := [a] + more;
    if more == [] {
      assert actions[..0] == [];
    } else {
      assert actions[..|actions| - 1] == [a] + more[..|more| - 1];
      RunCons(s, a, more[..|more| - 1]);
    }
  }

  /** Where the fan-out still has to go. */
  function Outstanding(c: Calls): set<nat> {
    match c.fan
    case Snapshot(_) => Destinations(c.table)
    case Deliver(_, rest) => rest
    case _ => {}
  }

  lemma FilledOneMore(queues: seq<Option<Payload>>, rest: set<nat>, q: nat, e: Error)
    requires q in rest && forall d :: d in rest ==> d < |queues|
    ensures
      var put := if queues[q].None? then queues[q := Some(Failure(e))] else queues;
      Filled(put, rest - {q}, e) == Filled(queues, rest, e)
  {
  }

  /** One delivery changes nothing about where the fan-out ends. */
  lemma DeliverOne(s: State, q: nat)
    requires s.calls.fan.Deliver? && q in s.calls.fan.rest
    requires forall d :: d in s.calls.fan.rest ==> d < |s.calls.table.queues|
    ensures
      var s', e := Step(s, FanOut(q)), s.calls.fan.error;
      && s' == State(s.calls.(fan := s'.calls.fan, table := s.calls.table.(queues := s'.calls.table.queues)), s.mail)
      && s'.calls.fan == Deliver(e, s.calls.fan.rest - {q})
      && |s'.calls.table.queues| == |s.calls.table.queues|
      && Filled(s'.calls.table.queues, s.calls.fan.rest - {q}, e) == Filled(s.calls.table.queues, s.calls.fan.rest, e)
  {
    FilledOneMore(s.calls.table.queues, s.calls.fan.rest, q, s.calls.fan.error);
  }

  predicate FanStep(a: Action) {
    a.TakeSnapshot? || a.FanOut? || a.FanDone?
  }

  /**
   Nothing can block the fan-out: from any state in which it has started, its own steps finish it, and
   leave the error in every outstanding queue that was empty.
   */
  lemma {:induction false} FanOutFinishes(s: State) returns (actions: seq<Action>)
    requires s.calls.fan.Snapshot? || s.calls.fan.Deliver?
    requires forall q :: q in Outstanding(s.calls) ==> q < |s.calls.table.queues|
    ensures
      var s', error := Run(s, actions), s.calls.fan.error;
      var queues := Filled(s.calls.table.queues, Outstanding(s.calls), error);
      s' == State(s.calls.(fan := Finished, table := s.calls.table.(queues := queues)), s.mail)
    ensures forall i :: 0 <= i < |actions| ==> FanStep(actions[i])
    decreases s.calls.fan.Snapshot?, |Outstanding(s.calls)|
  {
    if s.calls.fan.Snapshot? {
      var more := FanOutFinishes(Step(s, TakeSnapshot));
      actions := [TakeSnapshot] + more;
      RunCons(s, TakeSnapshot, more);
    } else if s.calls.fan.rest == {} {
      actions := [FanDone];
      assert [FanDone][..0] == [];
      assert Filled(s.calls.table.queues, {}, s.calls.fan.error) == s.calls.table.queues;
    } else {
      var q :| q in s.calls.fan.rest;
      assert Outstanding(s.calls) == s.calls.fan.rest;
      DeliverOne(s, q);
      var more := FanOutFinishes(Step(s, FanOut(q)));
      actions := [FanOut(q)] + more;
      RunCons(s, FanOut(q), more);
    }
  }

  /**
   `_set_fatal` run by one reader without interruption is a run of its steps: from any reachable state
   with a reader about to report the first error, they store it and leave the queues as the method
   `SetFatal` of the client does.
   */
  lemma {:induction false} SetFatalIsARun(s: State, isOut: bool) returns (actions: seq<Action>)
    requires Inv(s) && s.mail.box.fatal.None? && ReaderOf(s.calls, isOut).Failing?
    ensures
      var s', error := Run(s, actions), ReaderOf(s.calls, isOut).error;
      && s'.mail.box == FailIn(s.mail.box, error)
      && s'.calls.table.nextId == s.calls.table.nextId && s'.calls.table.pending == s.calls.table.pending
      && s'.calls.table.queues == Filled(s.calls.table.queues, Destinations(s.calls.table), error)
      && s'.calls.callers == s.calls.callers && s'.calls.fan.Finished?
  {
    var first := Step(s, SetFatal(isOut));
    var more := FanOutFinishes(first);
    actions := [SetFatal(isOut)] + more;
    RunCons(s, SetFatal(isOut), more);
  }

  /**
   Request ids are never reused: the next id is above every id drawn so far, no id is written to the
   server twice, and the pending table holds exactly the calls that have not returned.
   */
  lemma {:induction false} IdsAreFresh(actions: seq<Action>)
    ensures
      var c := Run(START, actions).calls;
      && (forall rid :: rid in c.callers ==> 1 <= rid < c.table.nextId)
      && (forall rid :: rid in c.table.pending <==> rid in c.callers && !c.callers[rid].Returned?)
      && (forall i, j :: 0 <= i < j < |c.wire| && c.wire[i].Request? && c.wire[j].Request? ==>
            c.wire[i].rid != c.wire[j].rid)
  {
    Reachable(actions);
  }

  predicate Delivered(c: Calls, rid: int, m: Message) {
    && rid in c.callers
    && (c.callers[rid].Leaving? || c.callers[rid].Returned?)
    && c.callers[rid].outcome == Got(Response(m))
  }

  /**
   A response is only ever delivered to the request whose id it bears, however late it comes, so one
   response is never delivered to two requests; a queue never holds anything else but the error.
   */
  lemma {:induction false} ResponsesReachTheirRequest(actions: seq<Action>)
    ensures
      var s := Run(START, actions);
      && (forall q :: 0 <= q < |s.calls.table.queues| && s.calls.table.queues[q].Some? ==>
            Fits(s.mail.box.fatal, q + 1, s.calls.table.queues[q].value))
      && (forall rid, m :: Delivered(s.calls, rid, m) ==> Answers(m, rid))
      && (forall a, b, m :: Delivered(s.calls, a, m) && Delivered(s.calls, b, m) ==> a == b)
  {
    Reachable(actions);
  }

  /** No request from `first` on has passed the check, or was written. */
  ghost predicate LateCalls(c: Calls, first: int) {
    && first <= c.table.nextId
    && (forall rid :: rid in c.callers && first <= rid ==> !PastCheck(c.callers[rid]))
    && (forall i :: 0 <= i < |c.wire| && c.wire[i].Request? ==> c.wire[i].rid < first)
  }

  /** From the state in which the fatal error appeared with `first` as the next request id. */
  ghost predicate LateIsSilent(s: State, first: int) {
    s.mail.box.fatal.Some? && LateCalls(s.calls, first)
  }

  lemma LateCallingKeeps(c: Calls, fatal: Option<Error>, a: Action, first: int)
    requires Calling(a) && fatal.Some? && LateCalls(c, first)
    ensures LateCalls(CallStep(c, fatal, a), first)
  {
  }

  lemma LateOtherKeeps(c: Calls, fatal: Option<Error>, a: Action, first: int)
    requires !Calling(a) && fatal.Some? && LateCalls(c, first)
    ensures LateCalls(CallStep(c, fatal, a), first)
  {
  }

  lemma FatalStays(m: Mail, c: Calls, a: Action)
    requires m.box.fatal.Some?
    ensures MailStep(m, c, a).box.fatal == m.box.fatal
  {
  }

  lemma LateStepKeeps(s: State, a: Action, first: int)
    requires LateIsSilent(s, first)
    ensures LateIsSilent(Step(s, a), first)
    ensures Step(s, a).mail.box.fatal == s.mail.box.fatal
  {
    FatalStays(s.mail, s.calls, a);
    if Calling(a) {
      LateCallingKeeps(s.calls, s.mail.box.fatal, a, first);
    } else {
      LateOtherKeeps(s.calls, s.mail.box.fatal, a, first);
    }
  }

  /**
   The first fatal error is kept for good, and a request registered once it is set is never written
   to the server, whatever happens afterwards.
   */
  lemma {:induction false} LateRequestsAreNeverSent(actions: seq<Action>, more: seq<Action>)
    requires Run(START, actions).mail.box.fatal.Some?
    ensures
      var s, s' := Run(START, actions), Run(Run(START, actions), more);
      && s'.mail.box.fatal == s.mail.box.fatal
      && forall i :: 0 <= i < |s'.calls.wire| && s'.calls.wire[i].Request? ==>
           s'.calls.wire[i].rid < s.calls.table.nextId
  {
    Reachable(actions);
    LateFrom(Run(START, actions), more, Run(START, actions).calls.table.nextId);
  }

  lemma {:induction false} LateFrom(s: State, more: seq<Action>, first: int)
    requires LateIsSilent(s, first)
    ensures LateIsSilent(Run(s, more), first)
    ensures Run(s, more).mail.box.fatal == s.mail.box.fatal
  {
    if more != [] {
      var before := more[..|more| - 1];
      LateFrom(s, before, first);
      LateStepKeeps(Run(s, before), more[|more| - 1], first);
    }
  }

  lemma ThreeSteps(s: State, a: Action, b: Action, c: Action)
    ensures Run(s, [a, b, c]) == Step(Step(Step(s, a), b), c)
  {
    assert [a, b, c][..2] == [a, b] && [a, b][..1] == [a] && [a][..0] == [];
    assert Run(s, [a]) == Step(s, a);
  }

  lemma RoutedToQueue(s: State, rid: int, m: Message, e: Error)
    requires Inv(s) && s.calls.out.Reading? && rid in s.calls.table.pending && Answers(m, rid)
    ensures Step(Step(s, Receive(m)), Route(e)) == State(s.calls.(out := Holding(rid - 1, m)), s.mail)
  {
  }

  /**
   Not every duplicate response is fatal.  A response to a request still in the table is absorbed
   exactly when the queue is empty, and the queue is empty again between `get` and the `finally`
   clause: a second answer that comes then fills it in silence.
   */
  lemma {:induction false} AbsorbedIffQueueEmpty(s: State, rid: int, m: Message, e: Error)
    requires Inv(s) && s.calls.out.Reading?
    requires rid in s.calls.table.pending && Answers(m, rid)
    ensures
      var q, s' := rid - 1, Run(s, [Receive(m), Route(e), Put(e)]);
      && s'.mail == s.mail
      && (Full(s.calls.table, q) ==> s'.calls == s.calls.(out := Failing(e, NextLine)))
      && (!Full(s.calls.table, q) ==>
            s'.calls == s.calls.(table := s.calls.table.(queues := s.calls.table.queues[q := Some(Response(m))])))
  {
    ThreeSteps(s, Receive(m), Route(e), Put(e));
    RoutedToQueue(s, rid, m, e);
  }

  /** Taking the answer leaves the entry in the table with an empty queue. */
  lemma GetEmptiesQueue(s: State, rid: int)
    requires Inv(s)
    requires rid in s.calls.callers && s.calls.callers[rid].Waiting? && Full(s.calls.table, s.calls.callers[rid].q)
    ensures
      var s' := Step(s, Get(rid));
      rid in s'.calls.table.pending && !Full(s'.calls.table, rid - 1) && s'.calls.callers[rid].Leaving?
  {
  }

  /**
   What becomes of a response that the reader has looked up, whatever other threads did since: it is
   refused as a duplicate if and only if the queue is full, and otherwise put into the queue of the
   request whose id it bears, in silence.
   */
  lemma {:induction false} HeldResponseIsPutIff(actions: seq<Action>, e: Error)
    requires Run(START, actions).calls.out.Holding?
    ensures
      var s := Run(START, actions);
      var Holding(q, m) := s.calls.out;
      && Answers(m, q + 1) && q + 1 in s.calls.callers && q < |s.calls.table.queues|
      && Step(s, Put(e)) ==
           if Full(s.calls.table, q) then s.(calls := s.calls.(out := Failing(e, NextLine)))
           else
             s.(calls := s.calls.(
               table := s.calls.table.(queues := s.calls.table.queues[q := Some(Response(m))]), out := Reading))
  {
    Reachable(actions);
  }

  /** The call has its outcome. */
  predicate Settled(c: Calls, rid: int) {
    rid in c.callers && (c.callers[rid].Leaving? || c.callers[rid].Returned?)
  }

  lemma SettledStaysCalling(c: Calls, fatal: Option<Error>, a: Action, rid: int)
    requires Calling(a) && Settled(c, rid) && rid < c.table.nextId
    ensures
      Settled(CallStep(c, fatal, a), rid) && CallStep(c, fatal, a).callers[rid].outcome == c.callers[rid].outcome
  {
  }

  lemma SettledStaysOtherwise(c: Calls, fatal: Option<Error>, a: Action, rid: int)
    requires !Calling(a) && Settled(c, rid)
    ensures
      Settled(CallStep(c, fatal, a), rid) && CallStep(c, fatal, a).callers[rid].outcome == c.callers[rid].outcome
  {
  }

  lemma SettledStays(s: State, a: Action, rid: int)
    requires rid < s.calls.table.nextId && Settled(s.calls, rid)
    ensures Settled(Step(s, a).calls, rid) && Step(s, a).calls.callers[rid].outcome == s.calls.callers[rid].outcome
  {
    if Calling(a) {
      SettledStaysCalling(s.calls, s.mail.box.fatal, a, rid);
    } else {
      SettledStaysOtherwise(s.calls, s.mail.box.fatal, a, rid);
    }
  }

  lemma {:induction false} OutcomeIsFinal(s: State, more: seq<Action>, rid: int)
    requires Inv(s) && Settled(s.calls, rid)
    ensures
      var s' := Run(s, more);
      Settled(s'.calls, rid) && s'.calls.callers[rid].outcome == s.calls.callers[rid].outcome
  {
    if more != [] {
      var before := more[..|more| - 1];
      OutcomeIsFinal(s, before, rid);
      RunKeeps(s, before);
      KnownIds(Run(s, before), rid);
      SettledStays(Run(s, before), more[|more| - 1], rid);
    }
  }

  /**
   A response that is put once its request has its outcome, after an answer or a timeout, is lost: no
   error is reported, and the outcome of the request stays what it was in every continuation.
   */
  lemma {:induction false} AbsorbedIsLost(actions: seq<Action>, e: Error, more: seq<Action>)
    requires
      var c := Run(START, actions).calls;
      c.out.Holding? && Settled(c, c.out.q + 1) && !Full(c.table, c.out.q)
    ensures
      var s := Run(START, actions);
      var rid, s' := s.calls.out.q + 1, Step(s, Put(e));
      && s'.calls.out == Reading && s'.mail == s.mail
      && Settled(Run(s', more).calls, rid)
      && Run(s', more).calls.callers[rid].outcome == s.calls.callers[rid].outcome
  {
    var s := Run(START, actions);
    var rid := s.calls.out.q + 1;
    Reachable(actions);
    StepKeeps(s, Put(e));
    PutIntoEmpty(s, e);
    KnownIds(s, rid);
    SettledStays(s, Put(e), rid);
    OutcomeIsFinal(Step(s, Put(e)), more, rid);
  }

  lemma KnownIds(s: State, rid: int)
    requires Inv(s) && rid in s.calls.callers
    ensures rid < s.calls.table.nextId
  {
  }

  lemma PutIntoEmpty(s: State, e: Error)
    requires Inv(s) && s.calls.out.Holding? && !Full(s.calls.table, s.calls.out.q)
    ensures Step(s, Put(e)).calls.out == Reading && Step(s, Put(e)).mail == s.mail
  {
  }

  lemma {:induction false} RunConcat(s: State, a: seq<Action>, b: seq<Action>)
    ensures Run(s, a + b) == Run(Run(s, a), b)
    decreases |b|
  {
    if b == [] {
      assert a + b == a;
    } else {
      assert (a + b)[..|a + b| - 1] == a + b[..|b| - 1];
      RunConcat(s, a, b[..|b| - 1]);
    }
  }

  /** One request, as far as it has come, with one queue and nothing else going on. */
  function Alone(queue: Option<Payload>, caller: Caller, out: Reader): State {
    State(
      Calls(Table(2, map[1 := 0], [queue]), map[1 := caller], map[], out, Reading, NotStarted, false, [Request(1)]),
      START.mail)
  }

  lemma RequestSent(e: Error)
    ensures Run(START, [Begin, Check(1), Write(1, true, e)]) == Alone(None, Waiting(0), Reading)
  {
    ThreeSteps(START, Begin, Check(1), Write(1, true, e));
    assert EMPTY_TABLE.queues + [None] == [None] && START.calls.wire + [Request(1)] == [Request(1)];
    assert map[1 := Registered(0)][1 := Checked(0)][1 := Waiting(0)] == map[1 := Waiting(0)];
  }

  lemma AnswerHeld(m: Message, e: Error, queue: Option<Payload>, caller: Caller)
    requires Answers(m, 1)
    ensures Step(Step(Alone(queue, caller, Reading), Receive(m)), Route(e)) == Alone(queue, caller, Holding(0, m))
  {
  }

  lemma AnswerPut(m: Message, e: Error, caller: Caller)
    ensures Step(Alone(None, caller, Holding(0, m)), Put(e)) == Alone(Some(Response(m)), caller, Reading)
  {
    assert [None][0 := Some(Response(m))] == [Some(Response(m))];
  }

  lemma AnswerTaken(m: Message)
    ensures
      Step(Alone(Some(Response(m)), Waiting(0), Reading), Get(1)) == Alone(None, Leaving(0, Got(Response(m))), Reading)
  {
    assert [Some(Response(m))][0 := None] == [None];
    assert map[1 := Waiting(0)][1 := Leaving(0, Got(Response(m)))] == map[1 := Leaving(0, Got(Response(m)))];
  }

  /**
   The promise that every duplicate is fatal fails in this run: the request is sent, answered and its
   answer taken; a second answer then comes before the call leaves the table, and nobody is told.
   */
  lemma {:induction false} SecondAnswerAbsorbed(m: Message, m': Message, e: Error)
    requires Answers(m, 1) && Answers(m', 1)
    ensures
      Run(START, [Begin, Check(1), Write(1, true, e)]
                 + [Receive(m), Route(e), Put(e)] + [Get(1)] + [Receive(m'), Route(e), Put(e)])
      == Alone(Some(Response(m')), Leaving(0, Got(Response(m))), Reading)
  {
    var sent, first, got, second :=
      [Begin, Check(1), Write(1, true, e)], [Receive(m), Route(e), Put(e)], [Get(1)], [Receive(m'), Route(e), Put(e)];
    RunConcat(START, sent + first + got, second);
    RunConcat(START, sent + first, got);
    RunConcat(START, sent, first);
    RequestSent(e);
    ThreeSteps(Alone(None, Waiting(0), Reading), Receive(m), Route(e), Put(e));
    AnswerHeld(m, e, None, Waiting(0));
    AnswerPut(m, e, Waiting(0));
    assert [Get(1)][..0] == [];
    AnswerTaken(m);
    ThreeSteps(Alone(None, Leaving(0, Got(Response(m))), Reading), Receive(m'), Route(e), Put(e));
    AnswerHeld(m', e, None, Leaving(0, Got(Response(m))));
    AnswerPut(m', e, Leaving(0, Got(Response(m))));
  }

  lemma TwoSteps(s: State, a: Action, b: Action)
    ensures Run(s, [a, b]) == Step(Step(s, a), b)
  {
    assert [a, b][..1] == [a] && [a][..0] == [];
    assert Run(s, [a]) == Step(s, a);
  }

  /** The request has timed out and left the table. */
  function Deserted(queue: Option<Payload>, out: Reader): State {
    State(
      Calls(
        Table(2, map[], [queue]), map[1 := Returned(TimedOut)], map[], out, Reading, NotStarted, false, [Request(1)]),
      START.mail)
  }

  lemma CallerExpires(m: Message)
    ensures
      Step(Alone(None, Waiting(0), Holding(0, m)), Expire(1)) == Alone(None, Leaving(0, TimedOut), Holding(0, m))
  {
    assert map[1 := Waiting(0)][1 := Leaving(0, TimedOut)] == map[1 := Leaving(0, TimedOut)];
  }

  lemma CallerLeaves(m: Message)
    ensures Step(Alone(None, Leaving(0, TimedOut), Holding(0, m)), Leave(1)) == Deserted(None, Holding(0, m))
  {
    assert map[1 := Leaving(0, TimedOut)][1 := Returned(TimedOut)] == map[1 := Returned(TimedOut)];
    assert map[1 := 0] - {1} == map[];
  }

  lemma OrphanPut(m: Message, e: Error)
    ensures Step(Deserted(None, Holding(0, m)), Put(e)) == Deserted(Some(Response(m)), Reading)
  {
    assert [None][0 := Some(Response(m))] == [Some(Response(m))];
  }

  /**
   A response that is looked up before its caller times out and leaves is put into a queue that nobody
   holds any more, and nobody is told either.
   */
  lemma {:induction false} OrphanAnswerAbsorbed(m: Message, e: Error)
    requires Answers(m, 1)
    ensures
      Run(START, [Begin, Check(1), Write(1, true, e)] + [Receive(m), Route(e), Expire(1)] + [Leave(1), Put(e)])
      == Deserted(Some(Response(m)), Reading)
  {
    var sent, held, left := [Begin, Check(1), Write(1, true, e)], [Receive(m), Route(e), Expire(1)], [Leave(1), Put(e)];
    RunConcat(START, sent + held, left);
    RunConcat(START, sent, held);
    RequestSent(e);
    ThreeSteps(Alone(None, Waiting(0), Reading), Receive(m), Route(e), Expire(1));
    AnswerHeld(m, e, None, Waiting(0));
    CallerExpires(m);
    TwoSteps(Alone(None, Leaving(0, TimedOut), Holding(0, m)), Leave(1), Put(e));
    CallerLeaves(m);
    OrphanPut(m, e);
  }

  // ----- Events -----

  /** A waiter never sleeps through the fatal error or through a queued message it wants. */
  lemma {:induction false} NoMissedWakeUp(actions: seq<Action>, t: nat)
    requires WaiterOf(Run(START, actions).mail, t).Sleeping?
    ensures
      var m := Run(START, actions).mail;
      m.box.fatal.None? && NoMatch(m.box.events, m.waiters[t].wants)
  {
    Reachable(actions);
  }

  /** Every event that arrived is either still queued or was handed to exactly one waiter. */
  lemma {:induction false} EventsAreConserved(actions: seq<Action>)
    ensures
      var m := Run(START, actions).mail;
      multiset(m.arrived) == multiset(m.taken) + multiset(m.box.events)
  {
    Reachable(actions);
  }

  /** `a` is what is left of `b` after some of its messages are crossed out. */
  predicate Subsequence(a: seq<Message>, b: seq<Message>) {
    a == [] ||
    (b != [] &&
     var a', b' := a[..|a| - 1], b[..|b| - 1];
     (a[|a| - 1] == b[|b| - 1] && Subsequence(a', b')) || Subsequence(a, b'))
  }

  lemma SubsequenceSnoc(a: seq<Message>, b: seq<Message>, x: Message)
    requires Subsequence(a, b)
    ensures Subsequence(a + [x], b + [x])
  {
    assert (a + [x])[..|a|] == a && (b + [x])[..|b|] == b;
  }

  lemma CutSnoc(a: seq<Message>, i: nat)
    requires i < |a| - 1
    ensures RemoveAt(a, i) == RemoveAt(a[..|a| - 1], i) + [a[|a| - 1]]
  {
  }

  lemma CutLast(a: seq<Message>)
    requires a != []
    ensures RemoveAt(a, |a| - 1) == a[..|a| - 1]
  {
  }

  lemma FrontAndLast(a: seq<Message>)
    requires a != []
    ensures a == a[..|a| - 1] + [a[|a| - 1]]
  {
  }

  lemma {:induction false} SubsequenceCut(a: seq<Message>, b: seq<Message>, i: nat)
    requires Subsequence(a, b) && i < |a|
    ensures Subsequence(RemoveAt(a, i), b)
    decreases |b|
  {
    var a', b', last := a[..|a| - 1], b[..|b| - 1], a[|a| - 1];
    if Subsequence(a, b') {
      SubsequenceCut(a, b', i);
    } else if i == |a| - 1 {
      CutLast(a);
    } else {
      SubsequenceCut(a', b', i);
      SubsequenceSnoc(RemoveAt(a', i), b', last);
      CutSnoc(a, i);
      FrontAndLast(b);
    }
  }

  lemma OrderKept(m: Mail, c: Calls, a: Action)
    requires Subsequence(m.box.events, m.arrived)
    ensures Subsequence(MailStep(m, c, a).box.events, MailStep(m, c, a).arrived)
  {
    if a.Route? && c.out.Routing? && IsEvent(c.out.message) {
      SubsequenceSnoc(m.box.events, m.arrived, c.out.message);
    } else if a.Look? && WaiterOf(m, a.t).Ready? && m.box.fatal.None? {
      var i := FirstMatch(m.box.events, WaiterOf(m, a.t).wants);
      if i < |m.box.events| {
        SubsequenceCut(m.box.events, m.arrived, i);
      }
    }
  }

  /** The queue is what arrived minus what was handed out, in the order of arrival. */
  lemma {:induction false} QueueKeepsArrivalOrder(actions: seq<Action>)
    ensures
      var m := Run(START, actions).mail;
      && Subsequence(m.box.events, m.arrived)
      && multiset(m.box.events) == multiset(m.arrived) - multiset(m.taken)
  {
    if actions != [] {
      var before := actions[..|actions| - 1];
      QueueKeepsArrivalOrder(before);
      OrderKept(Run(START, before).mail, Run(START, before).calls, actions[|actions| - 1]);
    }
    EventsAreConserved(actions);
  }

  ghost predicate Compatible(w: Message -> bool, p: Message -> bool) {
    SameWants(w, p) || DisjointWants(w, p)
  }

  ghost predicate WaitersCompatible(m: Mail, p: Message -> bool) {
    forall t :: t in m.waiters && !m.waiters[t].Away? ==> Compatible(m.waiters[t].wants, p)
  }

  ghost predicate InOrder(m: Mail, p: Message -> bool) {
    Filter(p, m.arrived) == Filter(p, m.taken) + Filter(p, m.box.events)
  }

  lemma Moved(all: seq<Message>, taken: seq<Message>, one: seq<Message>, rest: seq<Message>)
    requires all == taken + (one + rest)
    ensures all == (taken + one) + rest
  {
  }

  lemma {:induction false} TakenInOrder(m: Mail, t: nat, w: Message -> bool, p: Message -> bool)
    requires InOrder(m, p) && Compatible(w, p) && FirstMatch(m.box.events, w) < |m.box.events|
    ensures InOrder(HandOut(m, t, w, FirstMatch(m.box.events, w)), p)
  {
    var i := FirstMatch(m.box.events, w);
    var one := [m.box.events[i]];
    FilterRemoveFirst(p, w, m.box.events);
    FilterConcat(p, m.taken, one);
    Moved(Filter(p, m.arrived), Filter(p, m.taken), Filter(p, one), Filter(p, RemoveAt(m.box.events, i)));
  }

  lemma ArrivedInOrder(m: Mail, event: Message, p: Message -> bool)
    requires InOrder(m, p)
    ensures InOrder(ArriveStep(m, event), p)
  {
    FilterConcat(p, m.arrived, [event]);
    FilterConcat(p, m.box.events, [event]);
  }

  lemma {:induction false} CompatibleKept(m: Mail, c: Calls, a: Action, p: Message -> bool)
    requires WaitersCompatible(m, p) && (a.Wait? ==> Compatible(a.wants, p))
    ensures WaitersCompatible(MailStep(m, c, a), p)
  {
  }

  lemma {:induction false} LookInOrder(m: Mail, t: nat, expired: bool, p: Message -> bool)
    requires InOrder(m, p) && (WaiterOf(m, t).Ready? ==> Compatible(WaiterOf(m, t).wants, p))
    ensures InOrder(LookStep(m, t, expired), p)
  {
    if WaiterOf(m, t).Ready? && m.box.fatal.None? {
      var w := WaiterOf(m, t).wants;
      if FirstMatch(m.box.events, w) < |m.box.events| {
        TakenInOrder(m, t, w, p);
      }
    }
  }

  lemma {:induction false} InOrderKept(m: Mail, c: Calls, a: Action, p: Message -> bool)
    requires InOrder(m, p) && WaitersCompatible(m, p)
    ensures InOrder(MailStep(m, c, a), p)
  {
    if a.Route? && c.out.Routing? && IsEvent(c.out.message) {
      ArrivedInOrder(m, c.out.message, p);
    } else if a.Look? {
      LookInOrder(m, a.t, a.expired, p);
    }
  }

  /**
   When every waiter either wants exactly the messages `p` describes or none of them, those messages
   are handed out first come first served: what was taken is a prefix of what arrived, and the queue
   holds the rest in order.
   */
  lemma {:induction false} FirstComeFirstServed(actions: seq<Action>, p: Message -> bool)
    requires forall i :: 0 <= i < |actions| && actions[i].Wait? ==> Compatible(actions[i].wants, p)
    ensures InOrder(Run(START, actions).mail, p)
    ensures WaitersCompatible(Run(START, actions).mail, p)
  {
    if actions != [] {
      var before := actions[..|actions| - 1];
      FirstComeFirstServed(before, p);
      var s := Run(START, before);
      InOrderKept(s.mail, s.calls, actions[|actions| - 1], p);
      CompatibleKept(s.mail, s.calls, actions[|actions| - 1], p);
    }
  }
}
