/**
 The state that the threads of one App Server client share, and what each
 lock-protected section of adapter/app_server.py does to it.
 */
module ClientState {
  import opened Options

  datatype Json =
    | Null
    | Bool(b: bool)
    | Int(n: int)
    | Float(x: real)
    | Str(s: string)
    | List(items: seq<Json>)
    | Dict(members: map<string, Json>)

  type Message = map<string, Json>
  type Error = string

  /** What a one-shot queue can hold: a response message, or the process-wide failure. */
  datatype Payload = Response(message: Message) | Failure(error: Error)

  /**
   What `_pending_lock` and the one-shot queues protect.  Queues are heap objects in the source; here
   a queue is an index into `queues`.
   */
  datatype Table = Table(nextId: int, pending: map<int, nat>, queues: seq<Option<Payload>>)

  /** What `_events_condition` protects. */
  datatype Mailbox = Mailbox(events: seq<Message>, fatal: Option<Error>)

  const EMPTY_TABLE := Table(1, map[], [])
  const EMPTY_MAILBOX := Mailbox([], None)

  /** Dictionary keys compare with `==`, so the JSON values `true`, `1` and `1.0` name the same request. */
  function KeyOf(id: Json): Option<int> {
    match id
    case Int(n) => Some(n)
    case Float(x) => if x == x.Floor as real then Some(x.Floor) else None
    case Bool(b) => Some(if b then 1 else 0)
    case _ => None
  }

  predicate Names(id: Json, request: int) {
    KeyOf(id) == Some(request)
  }

  /** A request is named by its number, written as an integer or as a float, and 0 and 1 by truth values too. */
  lemma NamesIff(id: Json, request: int)
    ensures
      Names(id, request) <==>
      || id == Int(request) || id == Float(request as real)
      || (id == Bool(true) && request == 1) || (id == Bool(false) && request == 0)
  {
    if id.Float? && id.x == request as real {
      assert id.x.Floor == request;
    }
  }

  predicate Hashable(id: Json) {
    !id.List? && !id.Dict?
  }

  predicate IsResponse(m: Message) {
    "id" in m && "method" !in m
  }

  predicate IsEvent(m: Message) {
    "method" in m
  }

  predicate Answers(m: Message, request: int) {
    IsResponse(m) && Names(m["id"], request)
  }

  predicate Full(tb: Table, q: nat) {
    q < |tb.queues| && tb.queues[q].Some?
  }

  function Lookup(tb: Table, id: Json): Option<nat> {
    var key := KeyOf(id);
    if key.Some? && key.value in tb.pending then Some(tb.pending[key.value]) else None
  }

  function RegisterIn(tb: Table): Table {
    Table(tb.nextId + 1, tb.pending[tb.nextId := |tb.queues|], tb.queues + [None])
  }

  /** `put_nowait`: a full queue keeps what it has. */
  function PutIn(tb: Table, q: nat, p: Payload): Table {
    if q < |tb.queues| && tb.queues[q].None? then tb.(queues := tb.queues[q := Some(p)]) else tb
  }

  function TakeIn(tb: Table, q: nat): Table {
    if q < |tb.queues| then tb.(queues := tb.queues[q := None]) else tb
  }

  /** The queues after the error was put, without waiting, into those that `destinations` names. */
  function Filled(queues: seq<Option<Payload>>, destinations: set<nat>, e: Error): seq<Option<Payload>> {
    seq(|queues|, q requires 0 <= q < |queues| =>
      if q in destinations && queues[q].None? then Some(Failure(e)) else queues[q])
  }

  function ForgetIn(tb: Table, rid: int): Table {
    tb.(pending := tb.pending - {rid})
  }

  function AppendIn(mb: Mailbox, m: Message): Mailbox {
    mb.(events := mb.events + [m])
  }

  /** Only the first failure is kept. */
  function FailIn(mb: Mailbox, e: Error): Mailbox {
    if mb.fatal.None? then mb.(fatal := Some(e)) else mb
  }

  predicate NoMatch(events: seq<Message>, wants: Message -> bool) {
    forall i :: 0 <= i < |events| ==> !wants(events[i])
  }

  /** The index of the earliest queued message a waiter wants, or the length when there is none. */
  function FirstMatch(events: seq<Message>, wants: Message -> bool): (i: nat)
    ensures i <= |events|
    ensures i < |events| ==> wants(events[i])
    ensures NoMatch(events[..i], wants)
  {
    if events == [] || wants(events[0]) then 0
    else
      var i := 1 + FirstMatch(events[1..], wants);
      assert events[..i] == [events[0]] + events[1..][..i - 1];
      i
  }

  function RemoveAt<T>(s: seq<T>, i: nat): seq<T>
    requires i < |s|
  {
    s[..i] + s[i + 1..]
  }

  /** The messages of `s` that satisfy `p`, in order. */
  ghost function Filter(p: Message -> bool, s: seq<Message>): seq<Message> {
    if s == [] then []
    else if p(s[0]) then [s[0]] + Filter(p, s[1..])
    else Filter(p, s[1..])
  }

  lemma {:induction false} FilterConcat(p: Message -> bool, a: seq<Message>, b: seq<Message>)
    ensures Filter(p, a + b) == Filter(p, a) + Filter(p, b)
  {
    if a == [] {
      assert a + b == b;
    } else {
      assert (a + b)[1..] == a[1..] + b;
      FilterConcat(p, a[1..], b);
    }
  }

  lemma {:induction false} FilterNone(p: Message -> bool, s: seq<Message>)
    requires NoMatch(s, p)
    ensures Filter(p, s) == []
  {
    if s != [] {
      assert NoMatch(s[1..], p) by {
        forall i | 0 <= i < |s[1..]| ensures !p(s[1..][i]) { assert s[1..][i] == s[i + 1]; }
      }
      FilterNone(p, s[1..]);
    }
  }

  ghost predicate SameWants(w: Message -> bool, p: Message -> bool) {
    forall m :: w(m) == p(m)
  }

  ghost predicate DisjointWants(w: Message -> bool, p: Message -> bool) {
    forall m :: !(w(m) && p(m))
  }

  /**
   Removing the first message a waiter wants takes the head of the `p` messages when the waiter
   wants exactly `p`, and leaves the `p` messages alone when the two never want the same message.
   */
  lemma {:induction false} FilterRemoveFirst(p: Message -> bool, w: Message -> bool, s: seq<Message>)
    requires SameWants(w, p) || DisjointWants(w, p)
    requires FirstMatch(s, w) < |s|
    ensures
      var i := FirstMatch(s, w);
      Filter(p, s) == Filter(p, [s[i]]) + Filter(p, RemoveAt(s, i))
  {
    var i := FirstMatch(s, w);
    assert s == s[..i] + ([s[i]] + s[i + 1..]);
    FilterConcat(p, s[..i], [s[i]] + s[i + 1..]);
    FilterConcat(p, [s[i]], s[i + 1..]);
    FilterConcat(p, s[..i], s[i + 1..]);
    if SameWants(w, p) {
      assert NoMatch(s[..i], p);
      FilterNone(p, s[..i]);
    } else {
      assert w(s[i]) && !p(s[i]);
      assert NoMatch([s[i]], p);
      FilterNone(p, [s[i]]);
    }
  }

  // The predicates that wait_protected_call and wait_turn_completed hand to wait_for_message.

  predicate HasText(m: map<string, Json>, name: string, value: string) {
    name in m && m[name] == Str(value)
  }

  function Params(m: Message): Option<map<string, Json>> {
    if "params" in m && m["params"].Dict? then Some(m["params"].members) else None
  }

  predicate WantsProtectedCall(m: Message, thread: string, turn: string, tool: string) {
    && HasText(m, "method", "item/tool/call")
    && "id" in m
    && Params(m).Some?
    && HasText(Params(m).value, "threadId", thread)
    && HasText(Params(m).value, "turnId", turn)
    && HasText(Params(m).value, "tool", tool)
  }

  predicate WantsTurnCompleted(m: Message, thread: string, turn: string) {
    && HasText(m, "method", "turn/completed")
    && Params(m).Some?
    && HasText(Params(m).value, "threadId", thread)
    && "turn" in Params(m).value
    && Params(m).value["turn"].Dict?
    && HasText(Params(m).value["turn"].members, "id", turn)
  }

  function ProtectedCall(thread: string, turn: string, tool: string): Message -> bool {
    m => WantsProtectedCall(m, thread, turn, tool)
  }

  function TurnCompleted(thread: string, turn: string): Message -> bool {
    m => WantsTurnCompleted(m, thread, turn)
  }

  /** Two protected-call waiters compete for a message only when thread, turn and tool all agree. */
  lemma ProtectedCallsDisjoint(a: string, b: string, c: string, x: string, y: string, z: string)
    ensures DisjointWants(ProtectedCall(a, b, c), ProtectedCall(x, y, z)) <==> (a, b, c) != (x, y, z)
  {
    if (a, b, c) == (x, y, z) {
      var m: Message := map["method" := Str("item/tool/call"), "id" := Int(0),
                            "params" := Dict(map["threadId" := Str(a), "turnId" := Str(b), "tool" := Str(c)])];
      assert ProtectedCall(a, b, c)(m);
    }
  }

  /** Two turn-completed waiters compete for a message only when thread and turn agree. */
  lemma TurnCompletedDisjoint(a: string, b: string, x: string, y: string)
    ensures DisjointWants(TurnCompleted(a, b), TurnCompleted(x, y)) <==> (a, b) != (x, y)
  {
    if (a, b) == (x, y) {
      var m: Message := map["method" := Str("turn/completed"),
                            "params" := Dict(map["threadId" := Str(a), "turn" := Dict(map["id" := Str(b)])])];
      assert TurnCompleted(a, b)(m);
    }
  }

  /** Only a message that can be answered is wanted as a protected call. */
  lemma WantedCallHasId(a: string, b: string, c: string, m: Message)
    requires ProtectedCall(a, b, c)(m)
    ensures IsEvent(m) && "id" in m
  {
  }

  /** A protected-call waiter and a turn-completed waiter never compete, whatever they wait for. */
  lemma CallAndCompletionDisjoint(a: string, b: string, c: string, x: string, y: string)
    ensures DisjointWants(ProtectedCall(a, b, c), TurnCompleted(x, y))
  {
    assert "item/tool/call"[0] != "turn/completed"[0];
  }
}
