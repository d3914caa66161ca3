/** The QMP trace of a machine: commands, and the responses that answer them. */
module Qmp {
  import opened Options

  datatype Status = Status(name: string, running: bool)

  /** What a response returned, as far as it is looked at: a status when both its fields are well formed. */
  datatype Returned = Returned(status: Option<Status>)

  datatype Payload = Payload(
    execute: Option<string>, id: Option<string>, commandLine: Option<string>, result: Option<Returned>, hasError: bool)

  datatype Record = Record(direction: string, payload: Payload, time: Option<int>)

  /** The command line is absent when the arguments of a monitor command are not an object. */
  datatype Command = Command(name: string, argument: string)
  datatype Timed = Timed(name: string, time: int)

  /** The lists and the two collections that the loop updates. */
  datatype Trace = Trace(
    commands: seq<Command>, statuses: seq<Status>, times: seq<Timed>,
    pending: map<string, string>, returned: set<string>)

  const EMPTY := Trace([], [], [], map[], {})

  predicate IsCommand(r: Record) {
    r.direction == "client_to_server"
  }

  predicate IsReply(r: Record) {
    r.direction == "server_to_client" && r.payload.id.Some?
  }

  predicate CommandOk(t: Trace, r: Record) {
    && r.payload.execute.Some? && r.payload.id.Some?
    && (r.payload.execute.value == "human-monitor-command" ==> r.payload.commandLine.Some?)
    && r.time.Some? && r.time.value > 0
    && r.payload.id.value !in t.pending
  }

  function Commanded(t: Trace, r: Record): Trace
    requires CommandOk(t, r)
  {
    var name := r.payload.execute.value;
    var argument := if name == "human-monitor-command" then r.payload.commandLine.value else "";
    t.(
      commands := t.commands + [Command(name, argument)],
      times := t.times + [Timed(name, r.time.value)],
      pending := t.pending[r.payload.id.value := name])
  }

  predicate Asked(t: Trace, r: Record)
    requires r.payload.id.Some?
  {
    r.payload.id.value in t.pending && t.pending[r.payload.id.value] == "query-status"
  }

  predicate ReplyOk(t: Trace, r: Record)
    requires IsReply(r)
  {
    && r.payload.id.value in t.pending && r.payload.id.value !in t.returned
    && r.payload.result.Some? && !r.payload.hasError
    && (Asked(t, r) ==> r.payload.result.value.status.Some?)
  }

  function Replied(t: Trace, r: Record): Trace
    requires IsReply(r) && ReplyOk(t, r)
  {
    t.(
      returned := t.returned + {r.payload.id.value},
      statuses := if Asked(t, r) then t.statuses + [r.payload.result.value.status.value] else t.statuses)
  }

  /** One turn of the loop; `None` stands for EvidenceError. */
  function Next(t: Trace, r: Record): Option<Trace> {
    if IsCommand(r) then if CommandOk(t, r) then Some(Commanded(t, r)) else None
    else if IsReply(r) then if ReplyOk(t, r) then Some(Replied(t, r)) else None
    else Some(t)
  }

  function Traced(records: seq<Record>): Option<Trace> {
    if records == [] then Some(EMPTY)
    else
      var before := Traced(records[..|records| - 1]);
      if before.None? then None else Next(before.value, records[|records| - 1])
  }

  predicate Accepted(records: seq<Record>) {
    Traced(records).Some? && Traced(records).value.pending.Keys == Traced(records).value.returned
  }

  lemma {:induction false} RefusedStaysRefused(records: seq<Record>, i: nat)
    requires i <= |records| && Traced(records[..i]).None?
    ensures Traced(records).None?
    decreases |records|
  {
    if i == |records| {
      assert records[..i] == records;
    } else {
      var front := records[..|records| - 1];
      assert front[..i] == records[..i];
      RefusedStaysRefused(front, i);
    }
  }

  /** The loop of `_qmp_commands`. */
  method QmpCommands(records: seq<Record>)
    returns (ok: bool, commands: seq<Command>, statuses: seq<Status>, times: seq<Timed>)
    ensures ok <==> Accepted(records)
    ensures ok ==>
      var t := Traced(records).value;
      commands == t.commands && statuses == t.statuses && times == t.times
    ensures ok ==> CommandsListed(records, commands, times)
  {
    commands, statuses, times := [], [], [];
    var pending: map<string, string> := map[];
    var returned: set<string> := {};
    for i := 0 to |records|
      invariant Traced(records[..i]) == Some(Trace(commands, statuses, times, pending, returned))
    {
      ghost var t := Trace(commands, statuses, times, pending, returned);
      var r := records[i];
      assert records[..i + 1][..i] == records[..i];
      if Next(t, r).None? {
        RefusedStaysRefused(records, i + 1);
      }
      if IsCommand(r) {
        if r.payload.execute.None? || r.payload.id.None? {
          return false, commands, statuses, times;
        }
        var name, id, argument := r.payload.execute.value, r.payload.id.value, "";
        if name == "human-monitor-command" {
          if r.payload.commandLine.None? {
            return false, commands, statuses, times;
          }
          argument := r.payload.commandLine.value;
        }
        if r.time.None? || r.time.value <= 0 || id in pending {
          return false, commands, statuses, times;
        }
        commands := commands + [Command(name, argument)];
        times := times + [Timed(name, r.time.value)];
        pending := pending[id := name];
      } else if IsReply(r) {
        var id := r.payload.id.value;
        if id !in pending || id in returned || r.payload.result.None? || r.payload.hasError {
          return false, commands, statuses, times;
        }
        returned := returned + {id};
        if pending[id] == "query-status" {
          if r.payload.result.value.status.None? {
            return false, commands, statuses, times;
          }
          statuses := statuses + [r.payload.result.value.status.value];
        }
      }
    }
    assert records[..|records|] == records;
    ok := pending.Keys == returned;
    if ok {
      CommandsInOrder(records);
    }
  }

  // ----- One to one -----

  predicate CommandAt(records: seq<Record>, i: int, id: string) {
    0 <= i < |records| && records[i].direction == "client_to_server" && records[i].payload.id == Some(id)
  }

  predicate ReplyAt(records: seq<Record>, j: int, id: string) {
    0 <= j < |records| && records[j].direction == "server_to_client" && records[j].payload.id == Some(id)
  }

  predicate Succeeded(r: Record) {
    r.payload.result.Some? && !r.payload.hasError
  }

  /** Every command has its own identity; `pending` holds exactly the commands, under their names. */
  ghost predicate PendingIs(records: seq<Record>, pending: map<string, string>) {
    && (forall i :: 0 <= i < |records| && IsCommand(records[i]) ==> records[i].payload.id.Some?)
    && (forall i, j, id :: CommandAt(records, i, id) && CommandAt(records, j, id) ==> i == j)
    && (forall i, id :: CommandAt(records, i, id) ==>
          id in pending && records[i].payload.execute == Some(pending[id]))
    && (forall id :: id in pending ==> exists i :: CommandAt(records, i, id))
  }

  /** Every response answers one earlier command, successfully, and is the only one to do so. */
  ghost predicate ReturnedIs(records: seq<Record>, returned: set<string>) {
    && (forall i, j, id :: ReplyAt(records, i, id) && ReplyAt(records, j, id) ==> i == j)
    && (forall j, id :: ReplyAt(records, j, id) ==> id in returned && Succeeded(records[j]))
    && (forall j, id :: ReplyAt(records, j, id) ==> exists i :: i < j && CommandAt(records, i, id))
    && (forall id :: id in returned ==> exists j :: ReplyAt(records, j, id))
  }

  lemma At(records: seq<Record>, r: Record)
    ensures forall i, id :: CommandAt(records + [r], i, id) <==>
      CommandAt(records, i, id) || (i == |records| && IsCommand(r) && r.payload.id == Some(id))
    ensures forall j, id :: ReplyAt(records + [r], j, id) <==>
      ReplyAt(records, j, id) || (j == |records| && IsReply(r) && r.payload.id == Some(id))
  {
  }

  lemma {:induction false} PendingKept(records: seq<Record>, t: Trace, r: Record)
    requires PendingIs(records, t.pending) && Next(t, r).Some?
    ensures PendingIs(records + [r], Next(t, r).value.pending)
  {
    var all, pending := records + [r], Next(t, r).value.pending;
    At(records, r);
    forall i, id | CommandAt(all, i, id) ensures id in pending && all[i].payload.execute == Some(pending[id]) {
    }
    forall id | id in pending ensures exists i :: CommandAt(all, i, id) {
      if id in t.pending {
        var i :| CommandAt(records, i, id);
        assert CommandAt(all, i, id);
      } else {
        assert CommandAt(all, |records|, id);
      }
    }
  }

  lemma {:induction false} ReturnedKept(records: seq<Record>, t: Trace, r: Record)
    requires PendingIs(records, t.pending) && ReturnedIs(records, t.returned) && Next(t, r).Some?
    ensures ReturnedIs(records + [r], Next(t, r).value.returned)
  {
    var all, returned := records + [r], Next(t, r).value.returned;
    At(records, r);
    forall j, id | ReplyAt(all, j, id) ensures exists i :: i < j && CommandAt(all, i, id) {
      var i :| CommandAt(records, i, id) && i < j;
      assert CommandAt(all, i, id);
    }
    forall id | id in returned ensures exists j :: ReplyAt(all, j, id) {
      if id in t.returned {
        var j :| ReplyAt(records, j, id);
        assert ReplyAt(all, j, id);
      } else {
        assert ReplyAt(all, |records|, id);
      }
    }
  }

  lemma {:induction false} TraceIs(records: seq<Record>)
    requires Traced(records).Some?
    ensures PendingIs(records, Traced(records).value.pending) && ReturnedIs(records, Traced(records).value.returned)
    decreases |records|
  {
    if records != [] {
      var front, last := records[..|records| - 1], records[|records| - 1];
      TraceIs(front);
      PendingKept(front, Traced(front).value, last);
      ReturnedKept(front, Traced(front).value, last);
      assert records == front + [last];
    }
  }

  /**
   In an accepted trace of any length, commands and identified responses correspond one to one: every
   command has its own identity and exactly one response, which comes later and succeeded, and every
   response has exactly one command, which came earlier.
   */
  lemma {:induction false} OneToOne(records: seq<Record>)
    requires Accepted(records)
    ensures forall i, j, id :: CommandAt(records, i, id) && CommandAt(records, j, id) ==> i == j
    ensures forall i, j, id :: ReplyAt(records, i, id) && ReplyAt(records, j, id) ==> i == j
    ensures forall i :: 0 <= i < |records| && IsCommand(records[i]) ==> records[i].payload.id.Some?
    ensures forall i, id :: CommandAt(records, i, id) ==>
      exists j :: i < j && ReplyAt(records, j, id) && Succeeded(records[j])
    ensures forall j, id :: ReplyAt(records, j, id) ==> exists i :: i < j && CommandAt(records, i, id)
  {
    TraceIs(records);
    forall i, id | CommandAt(records, i, id)
      ensures exists j :: i < j && ReplyAt(records, j, id) && Succeeded(records[j])
    {
      assert id in Traced(records).value.pending;
      assert id in Traced(records).value.returned;
      var j :| ReplyAt(records, j, id);
      var k :| k < j && CommandAt(records, k, id);
    }
  }

  // ----- Exactly which traces are accepted -----

  /** A command with a name, an identity and a time, and with a command line if the monitor is addressed. */
  predicate WellFormed(r: Record) {
    && r.payload.execute.Some? && r.payload.id.Some? && r.time.Some? && r.time.value > 0
    && (r.payload.execute == Some("human-monitor-command") ==> r.payload.commandLine.Some?)
  }

  /** The response succeeds, and holds a status if the status was asked for. */
  predicate Answers(command: Record, reply: Record) {
    && Succeeded(reply)
    && (command.payload.execute == Some("query-status") ==> reply.payload.result.value.status.Some?)
  }

  ghost predicate AnsweredAt(records: seq<Record>, j: int, id: string) {
    ReplyAt(records, j, id) ==> exists i :: i < j && CommandAt(records, i, id) && Answers(records[i], records[j])
  }

  /** Commands are well formed with identities of their own; every response answers an earlier command, once. */
  ghost predicate Sound(records: seq<Record>) {
    && (forall i :: 0 <= i < |records| && IsCommand(records[i]) ==> WellFormed(records[i]))
    && (forall i, j, id :: CommandAt(records, i, id) && CommandAt(records, j, id) ==> i == j)
    && (forall i, j, id :: ReplyAt(records, i, id) && ReplyAt(records, j, id) ==> i == j)
    && (forall j, id :: AnsweredAt(records, j, id))
  }

  lemma {:induction false} SoundBefore(records: seq<Record>, r: Record)
    requires Sound(records + [r])
    ensures Sound(records)
  {
    var all := records + [r];
    At(records, r);
    forall i | 0 <= i < |records| && IsCommand(records[i]) ensures WellFormed(records[i]) {
      assert all[i] == records[i];
    }
    forall j, id ensures AnsweredAt(records, j, id) {
      assert AnsweredAt(all, j, id);
    }
  }

  lemma {:induction false} SoundAfterCommand(records: seq<Record>, t: Trace, r: Record)
    requires PendingIs(records, t.pending) && Sound(records) && IsCommand(r)
    ensures Sound(records + [r]) <==> CommandOk(t, r)
  {
    var all := records + [r];
    At(records, r);
    assert all[|records|] == r;
    if Sound(all) && r.payload.id.value in t.pending {
      var i :| CommandAt(records, i, r.payload.id.value);
      assert CommandAt(all, i, r.payload.id.value) && CommandAt(all, |records|, r.payload.id.value);
    }
    if CommandOk(t, r) {
      forall j, id ensures AnsweredAt(all, j, id) {
        assert AnsweredAt(records, j, id);
      }
    }
  }

  lemma {:induction false} SoundAfterReply(records: seq<Record>, t: Trace, r: Record)
    requires PendingIs(records, t.pending) && ReturnedIs(records, t.returned) && Sound(records)
    requires IsReply(r)
    ensures Sound(records + [r]) <==> ReplyOk(t, r)
  {
    var all, n, id := records + [r], |records|, r.payload.id.value;
    At(records, r);
    assert all[n] == r && ReplyAt(all, n, id);
    if Sound(all) {
      assert AnsweredAt(all, n, id);
      var i :| i < n && CommandAt(all, i, id) && Answers(all[i], all[n]);
      assert CommandAt(records, i, id);
    }
    if ReplyOk(t, r) {
      var i :| CommandAt(records, i, id);
      assert CommandAt(all, i, id) && Answers(all[i], r);
      forall j, other ensures AnsweredAt(all, j, other) {
        assert AnsweredAt(records, j, other);
      }
    }
  }

  lemma {:induction false} SoundAfterOther(records: seq<Record>, r: Record)
    requires Sound(records) && !IsCommand(r) && !IsReply(r)
    ensures Sound(records + [r])
  {
    var all := records + [r];
    At(records, r);
    forall j, id ensures AnsweredAt(all, j, id) {
      assert AnsweredAt(records, j, id);
    }
  }

  lemma {:induction false} TracedIff(records: seq<Record>)
    ensures Traced(records).Some? <==> Sound(records)
    decreases |records|
  {
    if records != [] {
      var front, last := records[..|records| - 1], records[|records| - 1];
      assert records == front + [last];
      TracedIff(front);
      if Traced(front).None? {
        if Sound(records) {
          SoundBefore(front, last);
        }
      } else {
        TraceIs(front);
        if IsCommand(last) {
          SoundAfterCommand(front, Traced(front).value, last);
        } else if IsReply(last) {
          SoundAfterReply(front, Traced(front).value, last);
        } else {
          SoundAfterOther(front, last);
        }
      }
    }
  }

  /** A trace is accepted if and only if it is sound and every command has a response. */
  lemma {:induction false} AcceptedIff(records: seq<Record>)
    ensures
      Accepted(records) <==>
      Sound(records) && forall i, id :: CommandAt(records, i, id) ==> exists j :: ReplyAt(records, j, id)
  {
    TracedIff(records);
    if Traced(records).Some? {
      TraceIs(records);
      var t := Traced(records).value;
      if Accepted(records) {
        forall i, id | CommandAt(records, i, id) ensures exists j :: ReplyAt(records, j, id) {
          assert id in t.returned;
        }
      } else if forall i, id :: CommandAt(records, i, id) ==> exists j :: ReplyAt(records, j, id) {
        forall id ensures id in t.pending <==> id in t.returned {
          if id in t.pending {
            var i :| CommandAt(records, i, id);
            var j :| ReplyAt(records, j, id);
          }
          if id in t.returned {
            var j :| ReplyAt(records, j, id);
            var i :| CommandAt(records, i, id);
          }
        }
      }
    }
  }

  // ----- The results of the trace -----

  /** The name of the command with this identity, looked up in the whole trace. */
  function NameOf(records: seq<Record>, id: string): Option<string> {
    if records == [] then None
    else if IsCommand(records[0]) && records[0].payload.id == Some(id) then records[0].payload.execute
    else NameOf(records[1..], id)
  }

  lemma {:induction false} NameAt(records: seq<Record>, i: nat, id: string)
    requires CommandAt(records, i, id)
    requires forall j, k :: CommandAt(records, j, id) && CommandAt(records, k, id) ==> j == k
    ensures NameOf(records, id) == records[i].payload.execute
    decreases i
  {
    if i > 0 {
      assert !CommandAt(records, 0, id);
      forall j, k | CommandAt(records[1..], j, id) && CommandAt(records[1..], k, id) ensures j == k {
        assert CommandAt(records, j + 1, id) && CommandAt(records, k + 1, id);
      }
      NameAt(records[1..], i - 1, id);
    }
  }

  /** The response answers a `query-status` command of the trace. */
  predicate AnswersQuery(whole: seq<Record>, r: Record) {
    IsReply(r) && NameOf(whole, r.payload.id.value) == Some("query-status")
  }

  /** The statuses in those responses, in the order of the responses. */
  function QueriedStatuses(whole: seq<Record>, records: seq<Record>): seq<Status> {
    if records == [] then []
    else
      var before, r := QueriedStatuses(whole, records[..|records| - 1]), records[|records| - 1];
      if AnswersQuery(whole, r) && r.payload.result.Some? && r.payload.result.value.status.Some?
      then before + [r.payload.result.value.status.value]
      else before
  }

  lemma {:induction false} StatusesSoFar(whole: seq<Record>, k: nat)
    requires k <= |whole| && Traced(whole).Some?
    ensures Traced(whole[..k]).Some? && Traced(whole[..k]).value.statuses == QueriedStatuses(whole, whole[..k])
    decreases k
  {
    if Traced(whole[..k]).None? {
      RefusedStaysRefused(whole, k);
    }
    if k > 0 {
      StatusesSoFar(whole, k - 1);
      var r, t := whole[k - 1], Traced(whole[..k - 1]).value;
      assert whole[..k][..k - 1] == whole[..k - 1];
      if IsReply(r) && !IsCommand(r) {
        var id := r.payload.id.value;
        TraceIs(whole);
        TraceIs(whole[..k - 1]);
        var i :| CommandAt(whole[..k - 1], i, id);
        assert CommandAt(whole, i, id);
        NameAt(whole, i, id);
      }
    }
  }

  /** The returned statuses are exactly those of the `query-status` commands, in response order. */
  lemma {:induction false} StatusesInOrder(records: seq<Record>)
    requires Accepted(records)
    ensures Traced(records).value.statuses == QueriedStatuses(records, records)
  {
    StatusesSoFar(records, |records|);
    assert records[..|records|] == records;
  }

  /** Command and time are those of this client record; only a monitor command has an argument, its command line. */
  predicate IsEntry(r: Record, command: Command, timed: Timed) {
    && r.payload.execute == Some(command.name) && r.payload.execute == Some(timed.name)
    && r.time == Some(timed.time) && timed.time > 0
    && (command.name == "human-monitor-command" ==> r.payload.commandLine == Some(command.argument))
    && (command.name != "human-monitor-command" ==> command.argument == "")
  }

  /** `at` lists the places of the client records, in order, and the entries are those of the records there. */
  ghost predicate ListsCommands(records: seq<Record>, at: seq<nat>, commands: seq<Command>, times: seq<Timed>) {
    && |at| == |commands| == |times|
    && (forall k, l :: 0 <= k < l < |at| ==> at[k] < at[l])
    && (forall i: nat :: i in at <==> i < |records| && records[i].direction == "client_to_server")
    && (forall k :: 0 <= k < |at| && at[k] < |records| ==> IsEntry(records[at[k]], commands[k], times[k]))
  }

  /** One command and one time for every client record, in the order of the records. */
  ghost predicate CommandsListed(records: seq<Record>, commands: seq<Command>, times: seq<Timed>) {
    exists at :: ListsCommands(records, at, commands, times)
  }

  lemma {:induction false} ListsOneMore(
    records: seq<Record>, r: Record, at: seq<nat>, commands: seq<Command>, times: seq<Timed>, c: Command, t: Timed)
    requires ListsCommands(records, at, commands, times) && r.direction == "client_to_server" && IsEntry(r, c, t)
    ensures ListsCommands(records + [r], at + [|records|], commands + [c], times + [t])
  {
    forall k | 0 <= k < |at| ensures at[k] < |records| { assert at[k] in at; }
    forall i: nat
      ensures i in at + [|records|] <==> i < |records + [r]| && (records + [r])[i].direction == "client_to_server"
    {
      assert i in at + [|records|] <==> i in at || i == |records|;
    }
  }

  lemma {:induction false} ListsOther(
    records: seq<Record>, r: Record, at: seq<nat>, commands: seq<Command>, times: seq<Timed>)
    requires ListsCommands(records, at, commands, times) && r.direction != "client_to_server"
    ensures ListsCommands(records + [r], at, commands, times)
  {
    forall k | 0 <= k < |at| ensures at[k] < |records| { assert at[k] in at; }
  }

  lemma {:induction false} CommandsSoFar(records: seq<Record>) returns (at: seq<nat>)
    requires Traced(records).Some?
    ensures ListsCommands(records, at, Traced(records).value.commands, Traced(records).value.times)
    decreases |records|
  {
    if records == [] {
      at := [];
    } else {
      var front, last := records[..|records| - 1], records[|records| - 1];
      var t, t' := Traced(front).value, Traced(records).value;
      assert records == front + [last];
      at := CommandsSoFar(front);
      if IsCommand(last) {
        var c, timed := t'.commands[|t.commands|], t'.times[|t.times|];
        assert t'.commands == t.commands + [c] && t'.times == t.times + [timed];
        ListsOneMore(front, last, at, t.commands, t.times, c, timed);
        at := at + [|front|];
      } else {
        ListsOther(front, last, at, t.commands, t.times);
      }
    }
  }

  /**
   The commands and times of an accepted trace have one entry for every client record, in the order of
   the records: its name and its time, and its command line if it is a monitor command.
   */
  lemma {:induction false} CommandsInOrder(records: seq<Record>)
    requires Accepted(records)
    ensures CommandsListed(records, Traced(records).value.commands, Traced(records).value.times)
  {
    var at := CommandsSoFar(records);
  }
}
