/**
 What gets written and what comes back: nothing that was not checked before the fatal error is sent after
 it, nobody is handed an event after it, and no call and no waiter is ever stuck.
 */
module ClientProgress {
  import opened Options
  import opened ClientState
  import opened ClientRuns
  import opened ClientTheorems

  // ----- Nothing unchecked is sent once there is an error -----

  /** The call or the notice had passed the check for a fatal error, and was not written yet. */
  ghost predicate WasChecked(c: Calls, sent: Sent) {
    match sent
    case Request(rid) => rid in c.callers && c.callers[rid].Checked?
    case Notice(m) => exists t :: t in c.notifiers && c.notifiers[t] == Cleared(m)
  }

  /** From `c0` on nothing was written but what had been checked there, and nothing has been checked since. */
  ghost predicate OnlyChecked(c0: Calls, c: Calls) {
    && |c0.wire| <= |c.wire| && c.wire[..|c0.wire|] == c0.wire
    && (forall i :: |c0.wire| <= i < |c.wire| ==> WasChecked(c0, c.wire[i]))
    && (forall rid :: rid in c.callers && c.callers[rid].Checked? ==> WasChecked(c0, Request(rid)))
    && (forall t :: t in c.notifiers && c.notifiers[t].Cleared? ==> WasChecked(c0, Notice(c.notifiers[t].notice)))
  }

  lemma OnlyCheckedStart(c: Calls)
    ensures OnlyChecked(c, c)
  {
  }

  lemma {:induction false} OnlyCheckedWrite(c0: Calls, c: Calls, sent: Sent)
    requires OnlyChecked(c0, c) && WasChecked(c0, sent)
    ensures OnlyChecked(c0, c.(wire := c.wire + [sent]))
  {
  }

  lemma OnlyCheckedSame(c0: Calls, c: Calls, c': Calls)
    requires OnlyChecked(c0, c) && c'.wire == c.wire
    requires forall rid :: rid in c'.callers && c'.callers[rid].Checked? ==> rid in c.callers && c.callers[rid].Checked?
    requires forall t ::
      t in c'.notifiers && c'.notifiers[t].Cleared? ==> t in c.notifiers && c.notifiers[t] == c'.notifiers[t]
    ensures OnlyChecked(c0, c')
  {
  }

  lemma {:induction false} OnlyCheckedWriteStep(c0: Calls, c: Calls, rid: int, ok: bool, error: Error)
    requires OnlyChecked(c0, c)
    ensures OnlyChecked(c0, WriteStep(c, rid, ok, error))
  {
    if rid in c.callers && c.callers[rid].Checked? && ok {
      OnlyCheckedWrite(c0, c, Request(rid));
      OnlyCheckedSame(c0, c.(wire := c.wire + [Request(rid)]), WriteStep(c, rid, ok, error));
    } else {
      OnlyCheckedSame(c0, c, WriteStep(c, rid, ok, error));
    }
  }

  lemma {:induction false} OnlyCheckedNotifyStep(c0: Calls, c: Calls, t: nat, ok: bool)
    requires OnlyChecked(c0, c)
    ensures OnlyChecked(c0, NotifyWriteStep(c, t, ok))
  {
    if t in c.notifiers && c.notifiers[t].Cleared? && ok {
      var sent := Notice(c.notifiers[t].notice);
      OnlyCheckedWrite(c0, c, sent);
      OnlyCheckedSame(c0, c.(wire := c.wire + [sent]), NotifyWriteStep(c, t, ok));
    } else {
      OnlyCheckedSame(c0, c, NotifyWriteStep(c, t, ok));
    }
  }

  /** The step writes nothing, and no call and no notice has passed the check by it. */
  ghost predicate WritesNothing(c: Calls, c': Calls) {
    && c'.wire == c.wire
    && (forall rid :: rid in c'.callers && c'.callers[rid].Checked? ==> rid in c.callers && c.callers[rid].Checked?)
    && forall t ::
         t in c'.notifiers && c'.notifiers[t].Cleared? ==> t in c.notifiers && c.notifiers[t] == c'.notifiers[t]
  }

  lemma CallsWriteNothing(c: Calls, fatal: Option<Error>, a: Action)
    requires fatal.Some? && Calling(a) && !a.Write?
    ensures WritesNothing(c, CallStep(c, fatal, a))
  {
  }

  lemma OthersWriteNothing(c: Calls, fatal: Option<Error>, a: Action)
    requires fatal.Some? && !Calling(a) && !a.NotifyWrite?
    ensures WritesNothing(c, CallStep(c, fatal, a))
  {
  }

  lemma {:induction false} OnlyCheckedOthers(c0: Calls, c: Calls, fatal: Option<Error>, a: Action)
    requires OnlyChecked(c0, c) && fatal.Some? && !a.Write? && !a.NotifyWrite?
    ensures OnlyChecked(c0, CallStep(c, fatal, a))
  {
    if Calling(a) {
      CallsWriteNothing(c, fatal, a);
    } else {
      OthersWriteNothing(c, fatal, a);
    }
    OnlyCheckedSame(c0, c, CallStep(c, fatal, a));
  }

  lemma WriteIsWriteStep(c: Calls, fatal: Option<Error>, a: Action)
    ensures a.Write? ==> CallStep(c, fatal, a) == WriteStep(c, a.rid, a.ok, a.error)
    ensures a.NotifyWrite? ==> CallStep(c, fatal, a) == NotifyWriteStep(c, a.t, a.ok)
  {
  }

  lemma {:induction false} OnlyCheckedKept(c0: Calls, c: Calls, fatal: Option<Error>, a: Action)
    requires OnlyChecked(c0, c) && fatal.Some?
    ensures OnlyChecked(c0, CallStep(c, fatal, a))
  {
    WriteIsWriteStep(c, fatal, a);
    if a.Write? {
      OnlyCheckedWriteStep(c0, c, a.rid, a.ok, a.error);
    } else if a.NotifyWrite? {
      OnlyCheckedNotifyStep(c0, c, a.t, a.ok);
    } else {
      OnlyCheckedOthers(c0, c, fatal, a);
    }
  }

  /**
   Once the fatal error is set, whatever happens afterwards: the lines written until then stay, and every
   line written later is of a request or a notice that had passed the check by then.
   */
  lemma {:induction false} OnlyCheckedIsSent(s: State, more: seq<Action>)
    requires s.mail.box.fatal.Some?
    ensures OnlyChecked(s.calls, Run(s, more).calls) && Run(s, more).mail.box.fatal.Some?
  {
    if more == [] {
      OnlyCheckedStart(s.calls);
    } else {
      var before, last := Run(s, more[..|more| - 1]), more[|more| - 1];
      OnlyCheckedIsSent(s, more[..|more| - 1]);
      OnlyCheckedKept(s.calls, before.calls, before.mail.box.fatal, last);
      FatalStays(before.mail, before.calls, last);
    }
  }

  // ----- What is sent is what was given -----

  ghost predicate WasGiven(actions: seq<Action>, m: Message) {
    exists i :: 0 <= i < |actions| && actions[i].Notify? && actions[i].notice == m
  }

  /** Every notice that was written or is still on its way was given to `notify` or `respond`. */
  ghost predicate NoticesGiven(actions: seq<Action>, c: Calls) {
    && (forall i :: 0 <= i < |c.wire| && c.wire[i].Notice? ==> WasGiven(actions, c.wire[i].message))
    && (forall t :: t in c.notifiers && !c.notifiers[t].Over? ==> WasGiven(actions, c.notifiers[t].notice))
  }

  lemma {:induction false} GivenStill(actions: seq<Action>, a: Action, c: Calls)
    requires NoticesGiven(actions, c)
    ensures NoticesGiven(actions + [a], c)
    ensures a.Notify? ==> WasGiven(actions + [a], a.notice)
  {
    var all := actions + [a];
    assert all[|actions|] == a;
    forall m | WasGiven(actions, m) ensures WasGiven(all, m) {
      var i :| 0 <= i < |actions| && actions[i].Notify? && actions[i].notice == m;
      assert all[i] == actions[i];
    }
  }

  lemma {:induction false} GivenCallingKept(given: seq<Action>, c: Calls, fatal: Option<Error>, a: Action)
    requires NoticesGiven(given, c) && Calling(a)
    ensures NoticesGiven(given, CallStep(c, fatal, a))
  {
  }

  lemma {:induction false} GivenOtherKept(given: seq<Action>, c: Calls, fatal: Option<Error>, a: Action)
    requires NoticesGiven(given, c) && !Calling(a) && (a.Notify? ==> WasGiven(given, a.notice))
    ensures NoticesGiven(given, CallStep(c, fatal, a))
  {
  }

  /** In every run, only notices that were given are written. */
  lemma {:induction false} NoticesAreGiven(actions: seq<Action>)
    ensures NoticesGiven(actions, Run(START, actions).calls)
  {
    if actions != [] {
      var front, last := actions[..|actions| - 1], actions[|actions| - 1];
      var s := Run(START, front);
      assert actions == front + [last];
      NoticesAreGiven(front);
      GivenStill(front, last, s.calls);
      if Calling(last) {
        GivenCallingKept(actions, s.calls, s.mail.box.fatal, last);
      } else {
        GivenOtherKept(actions, s.calls, s.mail.box.fatal, last);
      }
    }
  }

  lemma NoticeStaysCalling(c: Calls, fatal: Option<Error>, a: Action, t: nat)
    requires t in c.notifiers && !c.notifiers[t].Over? && Calling(a)
    ensures CallStep(c, fatal, a).notifiers == c.notifiers
  {
  }

  /** Until its own thread checks or writes it, a notice stays as it was given, whatever anybody else does. */
  lemma {:induction false} NoticeStays(s: State, a: Action, t: nat)
    requires t in s.calls.notifiers && !s.calls.notifiers[t].Over?
    requires a != NotifyCheck(t) && a != NotifyWrite(t, true) && a != NotifyWrite(t, false)
    ensures t in Step(s, a).calls.notifiers && Step(s, a).calls.notifiers[t] == s.calls.notifiers[t]
  {
    if Calling(a) {
      NoticeStaysCalling(s.calls, s.mail.box.fatal, a, t);
    }
  }

  lemma {:induction false} NoticeIsSent(s: State, t: nat, m: Message)
    requires s.mail.box.fatal.None? && (t in s.calls.notifiers ==> s.calls.notifiers[t].Over?)
    ensures Run(s, [Notify(t, m), NotifyCheck(t), NotifyWrite(t, true)]).calls.wire == s.calls.wire + [Notice(m)]
  {
    ThreeSteps(s, Notify(t, m), NotifyCheck(t), NotifyWrite(t, true));
  }

  lemma {:induction false} RequestIsSent(s: State, rid: int, error: Error)
    requires s.mail.box.fatal.None? && rid == s.calls.table.nextId
    ensures
      var s' := Run(s, [Begin, Check(rid), Write(rid, true, error)]);
      && s'.calls.wire == s.calls.wire + [Request(rid)]
      && rid in s'.calls.callers && s'.calls.callers[rid] == Waiting(|s.calls.table.queues|)
  {
    ThreeSteps(s, Begin, Check(rid), Write(rid, true, error));
  }

  /** While there is no error, a notice and a request that meet no obstacle are written, and nothing else is. */
  lemma {:induction false} UndisturbedIsSent(s: State, t: nat, m: Message, error: Error)
    requires s.mail.box.fatal.None? && (t in s.calls.notifiers ==> s.calls.notifiers[t].Over?)
    ensures Run(s, [Notify(t, m), NotifyCheck(t), NotifyWrite(t, true)]).calls.wire == s.calls.wire + [Notice(m)]
    ensures
      var rid := s.calls.table.nextId;
      var s' := Run(s, [Begin, Check(rid), Write(rid, true, error)]);
      && s'.calls.wire == s.calls.wire + [Request(rid)]
      && rid in s'.calls.callers && s'.calls.callers[rid] == Waiting(|s.calls.table.queues|)
  {
    NoticeIsSent(s, t, m);
    RequestIsSent(s, s.calls.table.nextId, error);
  }

  // ----- No call is stuck -----

  /** A step of the call of `request` with this id. */
  predicate CallStepOf(a: Action, rid: int) {
    a == Check(rid) || a == Get(rid) || a == Expire(rid) || a == Leave(rid) || (a.Write? && a.rid == rid)
  }

  /** How many steps the call still has to make. */
  function StepsLeft(c: Caller): nat {
    match c
    case Registered(_) => 4
    case Checked(_) => 3
    case Waiting(_) => 2
    case Leaving(_, _) => 1
    case Returned(_) => 0
  }

  function NextStep(c: Calls, rid: int, error: Error): Action
    requires rid in c.callers
  {
    match c.callers[rid]
    case Registered(_) => Check(rid)
    case Checked(_) => Write(rid, true, error)
    case Waiting(q) => if Full(c.table, q) then Get(rid) else Expire(rid)
    case Leaving(_, _) => Leave(rid)
    case Returned(_) => Leave(rid)
  }

  lemma NextStepAdvances(s: State, rid: int, error: Error)
    requires rid in s.calls.callers && !s.calls.callers[rid].Returned?
    ensures
      var s' := Step(s, NextStep(s.calls, rid, error));
      && rid in s'.calls.callers && StepsLeft(s'.calls.callers[rid]) < StepsLeft(s.calls.callers[rid])
      && s'.mail == s.mail
  {
  }

  /**
   From every reachable state every call returns by its own steps, in whatever state the others are, and
   then the table has forgotten it.
   */
  lemma {:induction false} CallsReturn(s: State, rid: int, error: Error) returns (own: seq<Action>)
    requires Inv(s) && rid in s.calls.callers
    ensures forall i :: 0 <= i < |own| ==> CallStepOf(own[i], rid)
    ensures
      var s' := Run(s, own);
      rid in s'.calls.callers && s'.calls.callers[rid].Returned? && rid !in s'.calls.table.pending
    decreases StepsLeft(s.calls.callers[rid])
  {
    if s.calls.callers[rid].Returned? {
      own := [];
    } else {
      var a := NextStep(s.calls, rid, error);
      NextStepAdvances(s, rid, error);
      StepKeeps(s, a);
      var more := CallsReturn(Step(s, a), rid, error);
      RunCons(s, a, more);
      own := [a] + more;
    }
  }

  /** A call that finds the error set when it checks is refused with that error. */
  lemma CheckRefuses(s: State, rid: int)
    requires s.mail.box.fatal.Some? && rid in s.calls.callers && s.calls.callers[rid].Registered?
    ensures
      Step(s, Check(rid)).calls.callers[rid]
      == Leaving(s.calls.callers[rid].q, Unsent(s.mail.box.fatal.value))
  {
  }

  /** A call whose line cannot be written is refused with the error, and nothing is written. */
  lemma WriteFails(s: State, rid: int, error: Error)
    requires rid in s.calls.callers && (s.calls.callers[rid].Registered? || s.calls.callers[rid].Checked?)
    ensures
      var c := s.calls;
      Step(s, Write(rid, false, error))
      == State(c.(callers := c.callers[rid := Leaving(c.callers[rid].q, Unsent(error))]), s.mail)
  {
  }

  // ----- Waiters -----

  /** Whoever begins to wait looks at once, and disturbs nothing. */
  lemma WaitBegins(s: State, t: nat, wants: Message -> bool)
    requires t in s.mail.waiters ==> s.mail.waiters[t].Away?
    ensures Step(s, Wait(t, wants)) == State(s.calls, s.mail.(waiters := s.mail.waiters[t := Ready(wants)]))
  {
  }

  lemma HandedAfterError(m: Mail, c: Calls, a: Action)
    requires m.box.fatal.Some?
    ensures MailStep(m, c, a).handed == m.handed && MailStep(m, c, a).taken == m.taken
  {
  }

  /** Once the fatal error is set, no waiter is handed an event any more. */
  lemma {:induction false} NothingHandedAfterError(s: State, more: seq<Action>)
    requires s.mail.box.fatal.Some?
    ensures
      var m' := Run(s, more).mail;
      m'.box.fatal.Some? && m'.handed == s.mail.handed && m'.taken == s.mail.taken
  {
    if more != [] {
      var before, last := Run(s, more[..|more| - 1]), more[|more| - 1];
      NothingHandedAfterError(s, more[..|more| - 1]);
      HandedAfterError(before.mail, before.calls, last);
      FatalStays(before.mail, before.calls, last);
    }
  }

  /** A routed event joins the end of the queue, and the reader reads on. */
  lemma {:induction false} EventArrives(s: State, event: Message, error: Error)
    requires s.calls.out.Reading? && "method" in event
    ensures
      var s' := Run(s, [Receive(event), Route(error)]);
      && s'.mail.box == s.mail.box.(events := s.mail.box.events + [event])
      && s'.mail.arrived == s.mail.arrived + [event]
      && s'.calls == s.calls
  {
    TwoSteps(s, Receive(event), Route(error));
  }

  /** What a waiter that looks finds: the error, or the earliest event it wants, or a reason to wait or give up. */
  lemma {:induction false} LookFinds(s: State, t: nat, wants: Message -> bool, expired: bool)
    requires WaiterOf(s.mail, t) == Ready(wants)
    ensures
      var m, m' := s.mail, Step(s, Look(t, expired)).mail;
      && (m.box.fatal.Some? ==> m' == m.(waiters := m.waiters[t := Away]))
      && (m.box.fatal.None? && NoMatch(m.box.events, wants) ==>
            m' == m.(waiters := m.waiters[t := if expired then Away else Sleeping(wants)]))
      && (m.box.fatal.None? && !NoMatch(m.box.events, wants) ==>
            && |m'.taken| == |m.taken| + 1 && wants(m'.taken[|m.taken|]) && WaiterOf(m', t).Away?
            && |m'.box.events| == |m.box.events| - 1)
  {
    var i := FirstMatch(s.mail.box.events, wants);
    assert s.mail.box.events[..|s.mail.box.events|] == s.mail.box.events;
  }

  /** Whoever waits can stop waiting: a waiter whose time is up wakes, looks, and is handed something or gives up. */
  lemma {:induction false} WaitersEnd(s: State, t: nat)
    requires !WaiterOf(s.mail, t).Away?
    ensures WaiterOf(Run(s, [Wake(t), Look(t, true)]).mail, t).Away?
    ensures s.mail.waiters[t].Ready? ==> Run(s, [Wake(t), Look(t, true)]) == Step(s, Look(t, true))
  {
    TwoSteps(s, Wake(t), Look(t, true));
  }

  /** Whoever waits is awake as soon as there is an error or an event that is wanted. */
  lemma {:induction false} WaiterIsAwake(actions: seq<Action>, t: nat)
    requires
      var m := Run(START, actions).mail;
      && !WaiterOf(m, t).Away?
      && (m.box.fatal.Some? || !NoMatch(m.box.events, WaiterOf(m, t).wants))
    ensures WaiterOf(Run(START, actions).mail, t).Ready?
  {
    Reachable(actions);
  }
}
