/**
 Every interleaving of the client's threads: any number of callers in `request`, `notify` and
 `wait_for_message`, the stdout reader and the stderr reader.  One action is one section that the
 source runs under a single lock (or one queue operation), and every other thread may act in
 between.  A disabled action leaves the state alone, so a run is any sequence of actions.
 */
module ClientRuns {
  import opened Options
  import opened ClientState

  /** Where a reader goes once `_set_fatal` has returned. */
  datatype Resume = NextLine | Close | Exit

  datatype Reader =
    | Reading
    | Routing(message: Message)
    | Holding(q: nat, held: Message)
    | Failing(error: Error, resume: Resume)
    | FanningOut(resume: Resume)
    | Closing
    | Gone

  /**
   The rest of `_set_fatal` in the thread that stored the first error.  Later calls return before
   this point, so there is one fan-out in the life of a client and its locals need no owner.
   */
  datatype Fan = NotStarted | Snapshot(error: Error) | Deliver(error: Error, rest: set<nat>) | Finished

  datatype Outcome = Got(payload: Payload) | TimedOut | Unsent(error: Error)

  /** How far one call of `request` has come; calls are told apart by the id they drew. */
  datatype Caller =
    | Registered(q: nat)
    | Checked(q: nat)
    | Waiting(q: nat)
    | Leaving(q: nat, outcome: Outcome)
    | Returned(outcome: Outcome)

  /** How far one call of `notify` or `respond` has come. */
  datatype Notifier = Unchecked(notice: Message) | Cleared(notice: Message) | Over

  datatype Waiter = Away | Ready(wants: Message -> bool) | Sleeping(wants: Message -> bool)

  datatype Sent = Request(rid: int) | Notice(message: Message)

  /** Callers and readers; `wire` lists the lines written to the server. */
  datatype Calls = Calls(
    table: Table,
    callers: map<int, Caller>,
    notifiers: map<nat, Notifier>,
    out: Reader,
    err: Reader,
    fan: Fan,
    stopping: bool,
    wire: seq<Sent>)

  /** Who was handed an event, what that waiter wanted, and which of the arrived events it was. */
  datatype Handed = Handed(waiter: nat, wants: Message -> bool, index: nat)

  /**
   Waiters; `arrived` and `taken` list the events that came in and those handed out.  `queued` says which
   of the arrived events are in the box, and `handed` to whom those that are not were handed.
   */
  datatype Mail = Mail(
    box: Mailbox,
    waiters: map<nat, Waiter>,
    arrived: seq<Message>,
    queued: seq<nat>,
    taken: seq<Message>,
    handed: seq<Handed>)

  datatype State = State(calls: Calls, mail: Mail)

  const START := State(Calls(EMPTY_TABLE, map[], map[], Reading, Reading, NotStarted, false, []),
                       Mail(EMPTY_MAILBOX, map[], [], [], [], []))

  datatype Action =
    // request
    | Begin
    | Check(rid: int)
    | Write(rid: int, ok: bool, error: Error)
    | Get(rid: int)
    | Expire(rid: int)
    | Leave(rid: int)
    // notify and respond
    | Notify(t: nat, notice: Message)
    | NotifyCheck(t: nat)
    | NotifyWrite(t: nat, ok: bool)
    // stdout reader
    | Receive(message: Message)
    | BadLine(error: Error)
    | ReadError(error: Error)
    | EndOfFile
    | Route(error: Error)
    | Put(error: Error)
    | Finish(error: Error)
    // stderr reader
    | ErrReadError(error: Error)
    | ErrEndOfFile
    // _set_fatal, by either reader
    | SetFatal(isOut: bool)
    | TakeSnapshot
    | FanOut(q: nat)
    | FanDone
    | FatalReturns(isOut: bool)
    // wait_for_message
    | Wait(t: nat, wants: Message -> bool)
    | Look(t: nat, expired: bool)
    | Wake(t: nat)
    | Stop

  // ----- Callers -----

  function Move(c: Calls, rid: int, to: Caller): Calls {
    c.(callers := c.callers[rid := to])
  }

  function BeginStep(c: Calls): Calls {
    Move(c.(table := RegisterIn(c.table)), c.table.nextId, Registered(|c.table.queues|))
  }

  /** `_raise_if_fatal` inside `_send`. */
  function CheckStep(c: Calls, fatal: Option<Error>, rid: int): Calls {
    if rid in c.callers && c.callers[rid].Registered? then
      var q := c.callers[rid].q;
      Move(c, rid, if fatal.Some? then Leaving(q, Unsent(fatal.value)) else Checked(q))
    else c
  }

  /** Under the send lock; `ok` is false when the process is gone or its pipe is closed. */
  function WriteStep(c: Calls, rid: int, ok: bool, error: Error): Calls {
    if rid in c.callers && c.callers[rid].Checked? && ok then
      Move(c.(wire := c.wire + [Request(rid)]), rid, Waiting(c.callers[rid].q))
    else if rid in c.callers && (c.callers[rid].Checked? || c.callers[rid].Registered?) && !ok then
      Move(c, rid, Leaving(c.callers[rid].q, Unsent(error)))
    else c
  }

  function GetStep(c: Calls, rid: int): Calls {
    if rid in c.callers && c.callers[rid].Waiting? && Full(c.table, c.callers[rid].q) then
      var q := c.callers[rid].q;
      Move(c.(table := TakeIn(c.table, q)), rid, Leaving(q, Got(c.table.queues[q].value)))
    else c
  }

  /** `queue.Empty` is raised only while the queue is empty. */
  function ExpireStep(c: Calls, rid: int): Calls {
    if rid in c.callers && c.callers[rid].Waiting? && !Full(c.table, c.callers[rid].q) then
      Move(c, rid, Leaving(c.callers[rid].q, TimedOut))
    else c
  }

  /** The `finally` clause of `request`. */
  function LeaveStep(c: Calls, rid: int): Calls {
    if rid in c.callers && c.callers[rid].Leaving? then
      Move(c.(table := ForgetIn(c.table, rid)), rid, Returned(c.callers[rid].outcome))
    else c
  }

  function NotifyStep(c: Calls, t: nat, m: Message): Calls {
    if t in c.notifiers && !c.notifiers[t].Over? then c else c.(notifiers := c.notifiers[t := Unchecked(m)])
  }

  function NotifyCheckStep(c: Calls, fatal: Option<Error>, t: nat): Calls {
    if t in c.notifiers && c.notifiers[t].Unchecked? then
      c.(notifiers := c.notifiers[t := if fatal.Some? then Over else Cleared(c.notifiers[t].notice)])
    else c
  }

  function NotifyWriteStep(c: Calls, t: nat, ok: bool): Calls {
    if t in c.notifiers && c.notifiers[t].Cleared? then
      c.(wire := if ok then c.wire + [Notice(c.notifiers[t].notice)] else c.wire,
         notifiers := c.notifiers[t := Over])
    else c
  }

  // ----- Readers -----

  function ReaderOf(c: Calls, isOut: bool): Reader {
    if isOut then c.out else c.err
  }

  function MoveReader(c: Calls, isOut: bool, r: Reader): Calls {
    if isOut then c.(out := r) else c.(err := r)
  }

  function After(resume: Resume): Reader {
    match resume
    case NextLine => Reading
    case Close => Closing
    case Exit => Gone
  }

  /** The branches of `_route_message`; a response is looked up here and put by a later action. */
  function Routed(c: Calls, m: Message, error: Error): Reader {
    if IsResponse(m) then
      if !Hashable(m["id"]) then (if c.stopping then Closing else Failing(error, Close))
      else
        var found := Lookup(c.table, m["id"]);
        if found.None? then Failing(error, NextLine) else Holding(found.value, m)
    else if !IsEvent(m) then Failing(error, NextLine)
    else Reading
  }

  function RouteStep(c: Calls, error: Error): Calls {
    if c.out.Routing? then c.(out := Routed(c, c.out.message, error)) else c
  }

  function PutStep(c: Calls, error: Error): Calls {
    if !c.out.Holding? then c
    else if Full(c.table, c.out.q) then c.(out := Failing(error, NextLine))
    else c.(table := PutIn(c.table, c.out.q, Response(c.out.held)), out := Reading)
  }

  function SetFatalStep(c: Calls, fatal: Option<Error>, isOut: bool): Calls {
    var r := ReaderOf(c, isOut);
    if !r.Failing? then c
    else if fatal.Some? then MoveReader(c, isOut, After(r.resume))
    else MoveReader(c.(fan := Snapshot(r.error)), isOut, FanningOut(r.resume))
  }

  function FatalReturnsStep(c: Calls, isOut: bool): Calls {
    var r := ReaderOf(c, isOut);
    if r.FanningOut? && c.fan.Finished? then MoveReader(c, isOut, After(r.resume)) else c
  }

  /** The queues of the pending table. */
  function Destinations(tb: Table): set<nat> {
    set rid | rid in tb.pending :: tb.pending[rid]
  }

  function TakeSnapshotStep(c: Calls): Calls {
    if c.fan.Snapshot? then c.(fan := Deliver(c.fan.error, Destinations(c.table))) else c
  }

  /** One `put_nowait` of the fan-out, in any order. */
  function FanOutStep(c: Calls, q: nat): Calls {
    if c.fan.Deliver? && q in c.fan.rest then
      c.(table := PutIn(c.table, q, Failure(c.fan.error)), fan := c.fan.(rest := c.fan.rest - {q}))
    else c
  }

  function FanDoneStep(c: Calls): Calls {
    if c.fan.Deliver? && c.fan.rest == {} then c.(fan := Finished) else c
  }

  function CallStep(c: Calls, fatal: Option<Error>, a: Action): Calls {
    match a
    case Begin => BeginStep(c)
    case Check(rid) => CheckStep(c, fatal, rid)
    case Write(rid, ok, e) => WriteStep(c, rid, ok, e)
    case Get(rid) => GetStep(c, rid)
    case Expire(rid) => ExpireStep(c, rid)
    case Leave(rid) => LeaveStep(c, rid)
    case Notify(t, m) => NotifyStep(c, t, m)
    case NotifyCheck(t) => NotifyCheckStep(c, fatal, t)
    case NotifyWrite(t, ok) => NotifyWriteStep(c, t, ok)
    case Receive(m) => if c.out.Reading? then c.(out := Routing(m)) else c
    case BadLine(e) => if c.out.Reading? then c.(out := Failing(e, Close)) else c
    case ReadError(e) => if c.out.Reading? then c.(out := if c.stopping then Closing else Failing(e, Close)) else c
    case EndOfFile => if c.out.Reading? then c.(out := Closing) else c
    case Route(e) => RouteStep(c, e)
    case Put(e) => PutStep(c, e)
    case Finish(e) => if c.out.Closing? then c.(out := if c.stopping then Gone else Failing(e, Exit)) else c
    case ErrReadError(e) => if c.err.Reading? then c.(err := if c.stopping then Gone else Failing(e, Exit)) else c
    case ErrEndOfFile => if c.err.Reading? then c.(err := Gone) else c
    case SetFatal(isOut) => SetFatalStep(c, fatal, isOut)
    case TakeSnapshot => TakeSnapshotStep(c)
    case FanOut(q) => FanOutStep(c, q)
    case FanDone => FanDoneStep(c)
    case FatalReturns(isOut) => FatalReturnsStep(c, isOut)
    case Stop => c.(stopping := true)
    case Wait(_, _) => c
    case Look(_, _) => c
    case Wake(_) => c
  }

  // ----- Waiters -----

  function WaiterOf(m: Mail, t: nat): Waiter {
    if t in m.waiters then m.waiters[t] else Away
  }

  /** `notify_all`: no waiter stays asleep. */
  function WakeAll(ws: map<nat, Waiter>): map<nat, Waiter> {
    map t | t in ws :: if ws[t].Sleeping? then Ready(ws[t].wants) else ws[t]
  }

  function ArriveStep(m: Mail, event: Message): Mail {
    m.(box := AppendIn(m.box, event),
       waiters := WakeAll(m.waiters),
       arrived := m.arrived + [event],
       queued := m.queued + [|m.arrived|])
  }

  function FailStep(m: Mail, e: Error): Mail {
    if m.box.fatal.Some? then m else m.(box := FailIn(m.box, e), waiters := WakeAll(m.waiters))
  }

  /** Which of the arrived events is queued at `i`; there is one for every queued event. */
  function ArrivalOf(m: Mail, i: nat): nat {
    if i < |m.queued| then m.queued[i] else |m.arrived|
  }

  /** The event queued at `i` is taken off the queue and goes to the waiter. */
  function HandOut(m: Mail, t: nat, wants: Message -> bool, i: nat): Mail
    requires i < |m.box.events|
  {
    m.(box := m.box.(events := RemoveAt(m.box.events, i)),
       queued := if i < |m.queued| then RemoveAt(m.queued, i) else m.queued,
       taken := m.taken + [m.box.events[i]],
       handed := m.handed + [Handed(t, wants, ArrivalOf(m, i))])
  }

  /** One turn of the loop in `wait_for_message`, all of it under the condition's lock. */
  function LookStep(m: Mail, t: nat, expired: bool): Mail {
    match WaiterOf(m, t)
    case Ready(wants) =>
      if m.box.fatal.Some? then m.(waiters := m.waiters[t := Away])
      else
        var i := FirstMatch(m.box.events, wants);
        if i < |m.box.events| then
          HandOut(m, t, wants, i).(waiters := m.waiters[t := Away])
        else m.(waiters := m.waiters[t := if expired then Away else Sleeping(wants)])
    case _ => m
  }

  function MailStep(m: Mail, c: Calls, a: Action): Mail {
    match a
    case Route(_) => if c.out.Routing? && IsEvent(c.out.message) then ArriveStep(m, c.out.message) else m
    case SetFatal(isOut) => if ReaderOf(c, isOut).Failing? then FailStep(m, ReaderOf(c, isOut).error) else m
    case Wait(t, wants) => if WaiterOf(m, t).Away? then m.(waiters := m.waiters[t := Ready(wants)]) else m
    case Look(t, expired) => LookStep(m, t, expired)
    case Wake(t) =>
      if WaiterOf(m, t).Sleeping? then m.(waiters := m.waiters[t := Ready(m.waiters[t].wants)]) else m
    case _ => m
  }

  // ----- Runs -----

  function Step(s: State, a: Action): State {
    State(CallStep(s.calls, s.mail.box.fatal, a), MailStep(s.mail, s.calls, a))
  }

  function Run(s: State, actions: seq<Action>): State {
    if actions == [] then s else Step(Run(s, actions[..|actions| - 1]), actions[|actions| - 1])
  }
}
