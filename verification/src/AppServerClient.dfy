/**
 The client object.  Each method is one critical section of the source, or a whole source method as
 one thread runs it; its contract is the transition that the runs are made of.
 */
module AppServerClient {
  import opened Options
  import opened ClientState
  import opened ClientRuns

  /** How routing a message ends: done, with `_set_fatal` called, or with an exception in the reader. */
  datatype Routing = Succeeds | Fails | Raises

  class Client {
    var nextRequestId: int
    var pending: map<int, nat>
    var queues: seq<Option<Payload>>
    var events: seq<Message>
    var fatal: Option<Error>

    function TableView(): Table
      reads this
    {
      Table(nextRequestId, pending, queues)
    }

    function MailboxView(): Mailbox
      reads this
    {
      Mailbox(events, fatal)
    }

    constructor ()
      ensures TableView() == START.calls.table
      ensures MailboxView() == START.mail.box
    {
      nextRequestId := 1;
      pending := map[];
      queues := [];
      events := [];
      fatal := None;
    }

    /** The section of `request` under `_pending_lock`. */
    method Register() returns (rid: int, q: nat)
      modifies this`nextRequestId, this`pending, this`queues
      ensures rid == old(nextRequestId) && q == |old(queues)|
      ensures TableView() == RegisterIn(old(TableView()))
    {
      rid := nextRequestId;
      nextRequestId := nextRequestId + 1;
      q := |queues|;
      queues := queues + [None];
      pending := pending[rid := q];
    }

    method PutNowait(q: nat, p: Payload) returns (full: bool)
      requires q < |queues|
      modifies this`queues
      ensures full == Full(old(TableView()), q)
      ensures TableView() == PutIn(old(TableView()), q, p)
    {
      full := queues[q].Some?;
      if !full {
        queues := queues[q := Some(p)];
      }
    }

    /** `destination.get`, when the queue has an item. */
    method Take(q: nat) returns (p: Payload)
      requires Full(TableView(), q)
      modifies this`queues
      ensures Some(p) == old(queues)[q]
      ensures TableView() == TakeIn(old(TableView()), q)
    {
      p := queues[q].value;
      queues := queues[q := None];
    }

    method Forget(rid: int)
      modifies this`pending
      ensures TableView() == ForgetIn(old(TableView()), rid)
    {
      pending := pending - {rid};
    }

    /**
     `_set_fatal`, undisturbed: a first error is stored and every pending queue that was empty now
     holds it, every other queue is as it was; a later error changes nothing.
     */
    method SetFatal(error: Error)
      requires forall rid :: rid in pending ==> pending[rid] < |queues|
      modifies this`fatal, this`queues
      ensures MailboxView() == FailIn(old(MailboxView()), error)
      ensures old(fatal).Some? ==> queues == old(queues)
      ensures old(fatal).None? ==> queues == Filled(old(queues), Destinations(old(TableView())), error)
    {
      if fatal.Some? {
        return;
      }
      fatal := Some(error);
      var destinations := Destinations(TableView());
      assert destinations == Destinations(old(TableView()));
      var rest := destinations;
      while rest != {}
        invariant rest <= destinations && fatal == Some(error)
        invariant queues == Filled(old(queues), destinations - rest, error)
        decreases rest
      {
        var q :| q in rest;
        var full := PutNowait(q, Failure(error));
        rest := rest - {q};
      }
      assert destinations - rest == destinations;
    }

    /**
     `_route_message`, undisturbed.  An id that cannot be a dictionary key raises.  It fails exactly
     when the message is a response whose id is not pending or whose queue is full, or is neither a
     response nor an event; otherwise a response reaches the queue registered under its id and an
     event joins the end of the list.
     */
    method RouteMessage(m: Message) returns (routing: Routing)
      requires forall rid :: rid in pending ==> pending[rid] < |queues|
      modifies this`queues, this`events
      ensures routing.Raises? <==> IsResponse(m) && !Hashable(m["id"])
      ensures routing.Fails? <==>
        if IsResponse(m) then
          && Hashable(m["id"])
          && (Lookup(old(TableView()), m["id"]).None? ||
              Full(old(TableView()), Lookup(old(TableView()), m["id"]).value))
        else !IsEvent(m)
      ensures MailboxView() == if IsEvent(m) then AppendIn(old(MailboxView()), m) else old(MailboxView())
      ensures TableView() ==
        if IsResponse(m) && routing.Succeeds?
        then PutIn(old(TableView()), Lookup(old(TableView()), m["id"]).value, Response(m))
        else old(TableView())
    {
      routing := Succeeds;
      if "id" in m && "method" !in m {
        if !Hashable(m["id"]) {
          return Raises;
        }
        var destination := Lookup(TableView(), m["id"]);
        if destination.None? {
          return Fails;
        }
        var full := PutNowait(destination.value, Response(m));
        if full {
          routing := Fails;
        }
      } else if "method" !in m {
        routing := Fails;
      } else {
        events := events + [m];
      }
    }

    /**
     One turn of the loop in `wait_for_message`: the earliest queued message that is wanted leaves
     the list and no other message moves; with nothing wanted the list stays as it is.
     */
    method TakeFirst(wants: Message -> bool) returns (found: Option<Message>)
      modifies this`events
      ensures found.None? <==> NoMatch(old(events), wants)
      ensures found.None? ==> events == old(events)
      ensures found.Some? ==>
        var i := FirstMatch(old(events), wants);
        i < |old(events)| && found == Some(old(events)[i]) && events == RemoveAt(old(events), i)
    {
      var index := 0;
      while index < |events|
        invariant 0 <= index <= |events|
        invariant events == old(events)
        invariant NoMatch(events[..index], wants)
      {
        if wants(events[index]) {
          FirstMatchIs(events, wants, index);
          found := Some(events[index]);
          events := events[..index] + events[index + 1..];
          return;
        }
        index := index + 1;
      }
      assert events[..index] == events;
      found := None;
    }
  }

  lemma FirstMatchIs(events: seq<Message>, wants: Message -> bool, i: nat)
    requires i < |events| && wants(events[i]) && NoMatch(events[..i], wants)
    ensures FirstMatch(events, wants) == i
  {
    var first := FirstMatch(events, wants);
    assert forall k :: 0 <= k < first ==> events[..first][k] == events[k];
    assert forall k :: 0 <= k < i ==> events[..i][k] == events[k];
  }
}
