/**
 Failures that a reader meets are reported: the end of the stdout reader, whatever brings it about, and
 every message that cannot be routed set the fatal error, and the error reaches every waiting caller.
 */
module ClientFailures {
  import opened Options
  import opened ClientState
  import opened ClientRuns
  import opened ClientTheorems

  // ----- Stopping -----

  predicate NeverStops(actions: seq<Action>) {
    forall i :: 0 <= i < |actions| ==> !actions[i].Stop?
  }

  lemma StoppingOnlySet(s: State, a: Action)
    ensures Step(s, a).calls.stopping <==> s.calls.stopping || a.Stop?
  {
  }

  /** The client is stopping exactly when it was told to. */
  lemma {:induction false} StoppingIff(actions: seq<Action>)
    ensures Run(START, actions).calls.stopping <==> !NeverStops(actions)
  {
    if actions != [] {
      var front, last := actions[..|actions| - 1], actions[|actions| - 1];
      assert actions == front + [last];
      StoppingIff(front);
      StoppingOnlySet(Run(START, front), last);
    }
  }

  lemma {:induction false} StillRunning(s: State, more: seq<Action>)
    requires !s.calls.stopping && NeverStops(more)
    ensures !Run(s, more).calls.stopping
  {
    if more != [] {
      StillRunning(s, more[..|more| - 1]);
      StoppingOnlySet(Run(s, more[..|more| - 1]), more[|more| - 1]);
    }
  }

  // ----- The stdout reader never ends in silence -----

  /** The stdout reader has not ended without an error being set, unless the client is stopping. */
  predicate Told(c: Calls, fatal: Option<Error>) {
    && (c.out.Gone? ==> c.stopping || fatal.Some?)
    && (c.out.FanningOut? ==> fatal.Some?)
  }

  lemma ToldCalling(c: Calls, fatal: Option<Error>, a: Action)
    requires Told(c, fatal) && Calling(a)
    ensures Told(CallStep(c, fatal, a), fatal)
  {
  }

  lemma ToldOther(c: Calls, fatal: Option<Error>, a: Action)
    requires Told(c, fatal) && !Calling(a) && !a.SetFatal?
    ensures Told(CallStep(c, fatal, a), fatal)
  {
  }

  lemma ToldSetFatal(s: State, isOut: bool)
    requires Told(s.calls, s.mail.box.fatal)
    ensures Told(Step(s, SetFatal(isOut)).calls, Step(s, SetFatal(isOut)).mail.box.fatal)
  {
  }

  lemma ToldKept(s: State, a: Action)
    requires Told(s.calls, s.mail.box.fatal)
    ensures Told(Step(s, a).calls, Step(s, a).mail.box.fatal)
  {
    if a.SetFatal? {
      ToldSetFatal(s, a.isOut);
    } else {
      FatalOnlySet(s.mail, s.calls, a);
      if Calling(a) {
        ToldCalling(s.calls, s.mail.box.fatal, a);
      } else {
        ToldOther(s.calls, s.mail.box.fatal, a);
      }
    }
  }

  /** In every run, when the stdout reader has ended the client was stopped or the fatal error is set. */
  lemma {:induction false} EndIsReported(actions: seq<Action>)
    ensures
      var s := Run(START, actions);
      && Told(s.calls, s.mail.box.fatal)
      && (s.calls.out.Gone? && NeverStops(actions) ==> s.mail.box.fatal.Some?)
  {
    StoppingIff(actions);
    if actions != [] {
      EndIsReported(actions[..|actions| - 1]);
      ToldKept(Run(START, actions[..|actions| - 1]), actions[|actions| - 1]);
    }
  }

  // ----- Who fans out -----

  /** While the error is being put into queues, one reader and only one is at it; before and after, who may be. */
  predicate Owned(c: Calls) {
    && (c.fan.NotStarted? ==> !c.out.FanningOut? && !c.err.FanningOut?)
    && (c.fan.Snapshot? || c.fan.Deliver? ==> c.out.FanningOut? != c.err.FanningOut?)
    && !(c.out.FanningOut? && c.err.FanningOut?)
  }

  lemma OwnedCalling(c: Calls, fatal: Option<Error>, a: Action)
    requires Owned(c) && Calling(a)
    ensures Owned(CallStep(c, fatal, a))
  {
  }

  lemma OwnedOther(c: Calls, fatal: Option<Error>, a: Action)
    requires Owned(c) && !Calling(a) && (fatal.None? ==> c.fan.NotStarted?)
    ensures Owned(CallStep(c, fatal, a))
  {
  }

  /**
   In every run, the reader that began the fan-out is still at it until it is finished: `_set_fatal` does
   not return before.
   */
  lemma {:induction false} FanHasOwner(actions: seq<Action>)
    ensures Owned(Run(START, actions).calls)
  {
    if actions != [] {
      var front, last := actions[..|actions| - 1], actions[|actions| - 1];
      var s := Run(START, front);
      FanHasOwner(front);
      Reachable(front);
      if Calling(last) {
        OwnedCalling(s.calls, s.mail.box.fatal, last);
      } else {
        OwnedOther(s.calls, s.mail.box.fatal, last);
      }
    }
  }

  // ----- What has to be reported -----

  /** The id names no request of the table. */
  ghost predicate Unknown(tb: Table, id: Json) {
    forall rid :: rid in tb.pending ==> !Names(id, rid)
  }

  /** Neither an event nor a response to a request of the table. */
  ghost predicate Unroutable(tb: Table, m: Message) {
    "method" !in m && ("id" !in m || !Hashable(m["id"]) || Unknown(tb, m["id"]))
  }

  /** The stdout reader meets a line that is no message, a read error, the end of the file, or a message like that. */
  ghost predicate IsTrouble(c: Calls, a: Action) {
    || a.BadLine? || a.ReadError? || a.EndOfFile?
    || (a.Receive? && Unroutable(c.table, a.message))
  }

  /** The reader has a failure still to report. */
  predicate Owes(r: Reader) {
    r.Failing? || r.Closing?
  }

  /** What the reader does with it at once: a message is routed, everything else ends the loop. */
  function Meeting(a: Action, error: Error): seq<Action> {
    if a.Receive? then [a, Route(error)] else [a]
  }

  lemma {:induction false} TroubleIsMet(s: State, a: Action, error: Error)
    requires s.calls.out.Reading? && !s.calls.stopping && IsTrouble(s.calls, a)
    ensures Owes(Run(s, Meeting(a, error)).calls.out) && Run(s, Meeting(a, error)).mail == s.mail
  {
    if a.Receive? {
      TwoSteps(s, a, Route(error));
    } else {
      assert [a][..0] == [];
      assert Run(s, [a]) == Step(s, a);
    }
  }

  lemma OwedStep(s: State, a: Action, isOut: bool)
    requires Owes(ReaderOf(s.calls, isOut)) && (isOut ==> !s.calls.stopping) && (!isOut ==> s.calls.err.Failing?)
    ensures
      var s' := Step(s, a);
      || s'.mail.box.fatal.Some?
      || (Owes(ReaderOf(s'.calls, isOut)) && (!isOut ==> s'.calls.err.Failing?))
  {
  }

  /** Whatever other threads do in between, a failure stays to be reported until the fatal error is set. */
  lemma {:induction false} OwedUntilSet(s: State, more: seq<Action>, isOut: bool)
    requires Owes(ReaderOf(s.calls, isOut)) && (!isOut ==> s.calls.err.Failing?)
    requires isOut ==> !s.calls.stopping && NeverStops(more)
    ensures
      var s' := Run(s, more);
      || s'.mail.box.fatal.Some?
      || (Owes(ReaderOf(s'.calls, isOut)) && (!isOut ==> s'.calls.err.Failing?))
  {
    if more != [] {
      var before, last := more[..|more| - 1], more[|more| - 1];
      OwedUntilSet(s, before, isOut);
      if isOut {
        StillRunning(s, before);
      }
      if Run(s, before).mail.box.fatal.Some? {
        FatalStays(Run(s, before).mail, Run(s, before).calls, last);
      } else {
        OwedStep(Run(s, before), last, isOut);
      }
    }
  }

  /**
   In every run that does not stop the client, once the stdout reader has met trouble the fatal error is
   set, or the reader still has it to report: it never reads on as if nothing had happened.
   */
  lemma {:induction false} TroubleIsKept(
    actions: seq<Action>, a: Action, error: Error, more: seq<Action>)
    requires Run(START, actions).calls.out.Reading? && IsTrouble(Run(START, actions).calls, a)
    requires NeverStops(actions) && NeverStops(more)
    ensures
      var s := Run(Run(Run(START, actions), Meeting(a, error)), more);
      s.mail.box.fatal.Some? || Owes(s.calls.out)
  {
    var s := Run(START, actions);
    StoppingIff(actions);
    TroubleIsMet(s, a, error);
    StillRunning(s, Meeting(a, error));
    OwedUntilSet(Run(s, Meeting(a, error)), more, true);
  }

  // ----- It is reported, by the reader's own steps -----

  /** A step of this reader after it has met trouble. */
  predicate OwnStep(a: Action, isOut: bool) {
    FanStep(a) || a == SetFatal(isOut) || a == FatalReturns(isOut) || (isOut && a.Finish?)
  }

  predicate OwnSteps(actions: seq<Action>, isOut: bool) {
    forall i :: 0 <= i < |actions| ==> OwnStep(actions[i], isOut)
  }

  /** The error is set, it has been put into every queue, and every caller still waiting has something to take. */
  ghost predicate Reported(s: State) {
    && s.mail.box.fatal.Some? && s.calls.fan.Finished?
    && forall rid :: rid in s.calls.callers && s.calls.callers[rid].Waiting? ==>
         Full(s.calls.table, s.calls.callers[rid].q)
  }

  lemma FinishedIsReported(s: State)
    requires Inv(s) && s.calls.fan.Finished?
    ensures Reported(s)
  {
  }

  /** Whoever has begun the fan-out, its steps finish it. */
  lemma {:induction false} FinishFan(s: State) returns (own: seq<Action>)
    requires Inv(s) && s.mail.box.fatal.Some?
    ensures forall i :: 0 <= i < |own| ==> FanStep(own[i])
    ensures Inv(Run(s, own)) && Reported(Run(s, own)) && Run(s, own).mail == s.mail
    ensures Run(s, own).calls.out == s.calls.out && Run(s, own).calls.err == s.calls.err
    ensures Run(s, own).calls.stopping == s.calls.stopping
  {
    if s.calls.fan.Finished? {
      own := [];
    } else {
      own := FanOutFinishes(s);
      RunKeeps(s, own);
    }
    FinishedIsReported(Run(s, own));
  }

  /** The first step of `_set_fatal`: it stores a first error and goes on to the fan-out, or returns. */
  lemma SetFatalMoves(s: State, isOut: bool)
    requires ReaderOf(s.calls, isOut).Failing?
    ensures
      var r, s' := ReaderOf(s.calls, isOut), Step(s, SetFatal(isOut));
      && s'.mail.box == FailIn(s.mail.box, r.error) && s'.calls.stopping == s.calls.stopping
      && ReaderOf(s'.calls, isOut) == if s.mail.box.fatal.None? then FanningOut(r.resume) else After(r.resume)
  {
  }

  /** The last step of `_set_fatal`, once the fan-out is finished. */
  lemma ReturnMoves(s: State, isOut: bool)
    requires Inv(s) && Reported(s) && ReaderOf(s.calls, isOut).FanningOut?
    ensures
      var s' := Step(s, FatalReturns(isOut));
      && Inv(s') && Reported(s') && s'.mail == s.mail && s'.calls.stopping == s.calls.stopping
      && ReaderOf(s'.calls, isOut) == After(ReaderOf(s.calls, isOut).resume)
  {
    StepKeeps(s, FatalReturns(isOut));
  }

  /** The steps that remain after the first one: the fan-out and, if it is this reader's own, the return. */
  lemma {:induction false} RestOfReport(s: State, isOut: bool, resume: Resume) returns (own: seq<Action>)
    requires Inv(s) && s.mail.box.fatal.Some?
    requires ReaderOf(s.calls, isOut) == FanningOut(resume) || ReaderOf(s.calls, isOut) == After(resume)
    ensures OwnSteps(own, isOut)
    ensures
      var s' := Run(s, own);
      && Inv(s') && Reported(s') && s'.mail == s.mail && s'.calls.stopping == s.calls.stopping
      && ReaderOf(s'.calls, isOut) == After(resume)
  {
    own := FinishFan(s);
    var finished := Run(s, own);
    assert ReaderOf(finished.calls, isOut) == ReaderOf(s.calls, isOut);
    if ReaderOf(s.calls, isOut).FanningOut? {
      ReturnMoves(finished, isOut);
      RunSnoc(s, own, FatalReturns(isOut));
      own := own + [FatalReturns(isOut)];
    }
  }

  /** `_set_fatal` by this reader, from its first step to its return. */
  lemma {:induction false} ReportOne(s: State, isOut: bool) returns (own: seq<Action>)
    requires Inv(s) && ReaderOf(s.calls, isOut).Failing?
    ensures OwnSteps(own, isOut)
    ensures
      var s', r := Run(s, own), ReaderOf(s.calls, isOut);
      && Inv(s') && Reported(s') && s'.mail.box == FailIn(s.mail.box, r.error)
      && ReaderOf(s'.calls, isOut) == After(r.resume) && s'.calls.stopping == s.calls.stopping
  {
    var first := Step(s, SetFatal(isOut));
    StepKeeps(s, SetFatal(isOut));
    SetFatalMoves(s, isOut);
    var more := RestOfReport(first, isOut, ReaderOf(s.calls, isOut).resume);
    RunCons(s, SetFatal(isOut), more);
    own := [SetFatal(isOut)] + more;
  }

  lemma RunSnoc(s: State, actions: seq<Action>, a: Action)
    ensures Run(s, actions + [a]) == Step(Run(s, actions), a)
  {
    assert (actions + [a])[..|actions|] == actions;
  }

  /** From the end of its loop, the stdout reader reports that its input ended, and ends. */
  lemma {:induction false} ReportEnd(s: State, error: Error) returns (own: seq<Action>)
    requires Inv(s) && s.calls.out.Closing? && !s.calls.stopping
    ensures OwnSteps(own, true) && Inv(Run(s, own)) && Reported(Run(s, own)) && Run(s, own).calls.out.Gone?
    ensures Run(s, own).mail.box == FailIn(s.mail.box, error)
  {
    StepKeeps(s, Finish(error));
    var more := ReportOne(Step(s, Finish(error)), true);
    own := [Finish(error)] + more;
    RunCons(s, Finish(error), more);
  }

  /** What the reader goes on with after its report: the next line, or nothing any more. */
  predicate GoesOn(r: Reader, r': Reader) {
    if r.Failing? && r.resume.NextLine? then r'.Reading? else r'.Gone?
  }

  /**
   From every reachable state of a client that is not stopping, a reader with a failure to report sets the
   fatal error by its own steps, if no other thread has set one before, and finishes the fan-out: then every
   waiting caller has something to take, and the reader reads on or has ended, as it should.
   */
  lemma {:induction false} OwedIsReported(actions: seq<Action>, isOut: bool, error: Error) returns (own: seq<Action>)
    requires NeverStops(actions)
    requires
      var r := ReaderOf(Run(START, actions).calls, isOut);
      if isOut then Owes(r) else r.Failing?
    ensures OwnSteps(own, isOut)
    ensures
      var s, s' := Run(START, actions), Run(Run(START, actions), own);
      var r := ReaderOf(s.calls, isOut);
      && Reported(s')
      && s'.mail.box.fatal == (if s.mail.box.fatal.Some? then s.mail.box.fatal
                               else Some(if r.Failing? then r.error else error))
      && (isOut ==> GoesOn(r, s'.calls.out))
      && (!isOut ==> s'.calls.err == After(r.resume))
  {
    var s := Run(START, actions);
    Reachable(actions);
    StoppingIff(actions);
    if ReaderOf(s.calls, isOut).Failing? {
      own := ReportOne(s, isOut);
      var s' := Run(s, own);
      if isOut && s'.calls.out.Closing? {
        var more := ReportEnd(s', error);
        RunConcat(s, own, more);
        own := own + more;
      }
    } else {
      own := ReportEnd(s, error);
    }
  }

  /**
   From every reachable state of a client that is not stopping in which the stdout reader is reading, a line
   that is no message, a read error, the end of the file, and a message that cannot be routed are all
   reported: the reader's own steps set the fatal error and wake every waiting caller.
   */
  lemma {:induction false} TroubleIsReported(actions: seq<Action>, a: Action, error: Error) returns (own: seq<Action>)
    requires Run(START, actions).calls.out.Reading? && NeverStops(actions)
    requires IsTrouble(Run(START, actions).calls, a)
    ensures OwnSteps(own, true)
    ensures Reported(Run(Run(START, actions), Meeting(a, error) + own))
  {
    var s, met := Run(START, actions), Meeting(a, error);
    StoppingIff(actions);
    TroubleIsMet(s, a, error);
    RunConcat(START, actions, met);
    own := OwedIsReported(actions + met, true, error);
    RunConcat(s, met, own);
  }

  lemma StderrMoves(s: State, error: Error)
    requires s.calls.err.Reading? && !s.calls.stopping
    ensures Step(s, ErrReadError(error)) == State(s.calls.(err := Failing(error, Exit)), s.mail)
    ensures Step(s, ErrEndOfFile) == State(s.calls.(err := Gone), s.mail)
  {
  }

  /** A read error of the stderr reader is reported in the same way; the mere end of stderr is not. */
  lemma {:induction false} StderrErrorIsReported(actions: seq<Action>, error: Error) returns (own: seq<Action>)
    requires Run(START, actions).calls.err.Reading? && NeverStops(actions)
    ensures OwnSteps(own, false)
    ensures
      var s := Run(START, actions);
      && Reported(Run(s, [ErrReadError(error)] + own))
      && Step(s, ErrEndOfFile) == State(s.calls.(err := Gone), s.mail)
  {
    var s := Run(START, actions);
    StoppingIff(actions);
    StderrMoves(s, error);
    RunSnoc(START, actions, ErrReadError(error));
    own := OwedIsReported(actions + [ErrReadError(error)], false, error);
    RunCons(s, ErrReadError(error), own);
  }

  // ----- A client that is stopping reports no end of input -----

  /** The id of a response that makes looking it up raise an exception. */
  predicate IsUnhashable(m: Message) {
    "method" !in m && "id" in m && (m["id"].List? || m["id"].Dict?)
  }

  lemma {:induction false} QuietEnd(s: State, a: Action, error: Error)
    requires s.calls.stopping && s.calls.out.Reading? && (a.EndOfFile? || a.ReadError?)
    ensures Run(s, [a, Finish(error)]) == State(s.calls.(out := Gone), s.mail)
  {
    TwoSteps(s, a, Finish(error));
  }

  lemma {:induction false} QuietRaise(s: State, m: Message, error: Error)
    requires s.calls.stopping && s.calls.out.Reading? && IsUnhashable(m)
    ensures Run(s, [Receive(m), Route(error), Finish(error)]) == State(s.calls.(out := Gone), s.mail)
  {
    ThreeSteps(s, Receive(m), Route(error), Finish(error));
  }

  /** Once the client is stopping, the end of its input and exceptions in a reader end the readers in silence. */
  lemma {:induction false} StoppingIsQuiet(s: State, m: Message, error: Error)
    requires s.calls.stopping
    ensures s.calls.out.Reading? ==>
      && Run(s, [EndOfFile, Finish(error)]) == State(s.calls.(out := Gone), s.mail)
      && Run(s, [ReadError(error), Finish(error)]) == State(s.calls.(out := Gone), s.mail)
      && (IsUnhashable(m) ==> Run(s, [Receive(m), Route(error), Finish(error)]) == State(s.calls.(out := Gone), s.mail))
    ensures s.calls.err.Reading? ==> Step(s, ErrReadError(error)) == State(s.calls.(err := Gone), s.mail)
  {
    if s.calls.out.Reading? {
      QuietEnd(s, EndOfFile, error);
      QuietEnd(s, ReadError(error), error);
      if IsUnhashable(m) {
        QuietRaise(s, m, error);
      }
    }
  }

  /** A message that cannot be routed, and can be looked up, is reported even while the client is stopping. */
  lemma {:induction false} UnroutableWhileStopping(s: State, m: Message, error: Error)
    requires s.calls.out.Reading? && Unroutable(s.calls.table, m) && !IsUnhashable(m)
    ensures Run(s, [Receive(m), Route(error)]) == State(s.calls.(out := Failing(error, NextLine)), s.mail)
  {
    TwoSteps(s, Receive(m), Route(error));
  }
}
