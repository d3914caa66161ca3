/**
 Which waiter got which event, in every run: nobody is handed an event that was handed out before, and
 everybody gets the earliest event that is left of those wanted.
 */
module Deliveries {
  import opened ClientState
  import opened ClientRuns

  predicate WasHanded(handed: seq<Handed>, index: nat) {
    exists p :: 0 <= p < |handed| && handed[p].index == index
  }

  /** The event queued at `k` is one of those that arrived, after those queued before it, and not handed out. */
  ghost predicate QueuedOk(m: Mail, k: int) {
    0 <= k < |m.queued| == |m.box.events| ==>
      && m.queued[k] < |m.arrived| && m.arrived[m.queued[k]] == m.box.events[k]
      && !WasHanded(m.handed, m.queued[k])
      && forall j :: 0 <= j < k ==> m.queued[j] < m.queued[k]
  }

  /** The events that arrived are those that are queued and those that were handed out. */
  ghost predicate Listed(m: Mail) {
    && |m.queued| == |m.box.events| && |m.handed| == |m.taken|
    && (forall k :: QueuedOk(m, k))
    && forall i: nat :: i < |m.arrived| ==> i in m.queued || WasHanded(m.handed, i)
  }

  /** The event that was the `p`th to be handed out had not been before, and its waiter wanted it. */
  ghost predicate IsOwn(m: Mail, p: int) {
    0 <= p < |m.handed| == |m.taken| ==>
      var h := m.handed[p];
      && h.index < |m.arrived| && m.taken[p] == m.arrived[h.index] && h.wants(m.taken[p])
      && !WasHanded(m.handed[..p], h.index)
  }

  /** Whatever arrived before it and was wanted by its waiter had been handed out by then. */
  ghost predicate IsEarliest(m: Mail, p: int) {
    0 <= p < |m.handed| ==>
      var h := m.handed[p];
      forall i: nat :: i < h.index && i < |m.arrived| && h.wants(m.arrived[i]) ==> WasHanded(m.handed[..p], i)
  }

  ghost predicate Fair(m: Mail) {
    forall p :: IsOwn(m, p) && IsEarliest(m, p)
  }

  lemma HandedSnoc(handed: seq<Handed>, h: Handed, index: nat)
    ensures WasHanded(handed + [h], index) <==> WasHanded(handed, index) || h.index == index
  {
    var all := handed + [h];
    assert all[|handed|] == h;
    if WasHanded(handed, index) {
      var p :| 0 <= p < |handed| && handed[p].index == index;
      assert all[p].index == index;
    }
  }

  // ----- An event arrives -----

  lemma NewIsNotHanded(m: Mail)
    requires Fair(m) && |m.handed| == |m.taken|
    ensures !WasHanded(m.handed, |m.arrived|)
  {
    forall p | 0 <= p < |m.handed| ensures m.handed[p].index < |m.arrived| { assert IsOwn(m, p); }
  }

  lemma {:induction false} ArriveListed(m: Mail, event: Message)
    requires Listed(m) && Fair(m)
    ensures Listed(ArriveStep(m, event))
  {
    var m' := ArriveStep(m, event);
    var n := |m.arrived|;
    NewIsNotHanded(m);
    forall k ensures QueuedOk(m', k) {
      assert QueuedOk(m, k);
      if k == |m.queued| {
        forall j | 0 <= j < k ensures m'.queued[j] < n { assert QueuedOk(m, j); }
      }
    }
    forall i: nat | i < |m'.arrived| ensures i in m'.queued || WasHanded(m'.handed, i) {
      assert m'.queued[|m.queued|] == n;
    }
  }

  lemma {:induction false} ArriveFair(m: Mail, event: Message)
    requires Fair(m) && |m.handed| == |m.taken|
    ensures Fair(ArriveStep(m, event))
  {
    var m' := ArriveStep(m, event);
    forall p ensures IsOwn(m', p) && IsEarliest(m', p) {
      assert IsOwn(m, p) && IsEarliest(m, p);
    }
  }

  // ----- An event is handed out -----

  /** What the waiter looks for is found at `i`. */
  ghost predicate Finds(m: Mail, wants: Message -> bool, i: nat) {
    i == FirstMatch(m.box.events, wants) && i < |m.box.events|
  }

  lemma WithoutOne(s: seq<nat>, i: nat, x: nat)
    requires i < |s| && x in s
    ensures x in RemoveAt(s, i) || x == s[i]
  {
    var k :| 0 <= k < |s| && s[k] == x;
    assert k < i ==> RemoveAt(s, i)[k] == x;
    assert k > i ==> RemoveAt(s, i)[k - 1] == x;
  }

  lemma {:induction false} HandOutListed(m: Mail, t: nat, wants: Message -> bool, i: nat)
    requires Listed(m) && i < |m.box.events|
    ensures Listed(HandOut(m, t, wants, i))
  {
    var m' := HandOut(m, t, wants, i);
    var h := Handed(t, wants, m.queued[i]);
    forall k ensures QueuedOk(m', k) {
      if 0 <= k < |m'.queued| {
        var k' := if k < i then k else k + 1;
        assert QueuedOk(m, k') && QueuedOk(m, i);
        assert m'.queued[k] == m.queued[k'] && m'.box.events[k] == m.box.events[k'];
        HandedSnoc(m.handed, h, m.queued[k']);
        forall j | 0 <= j < k ensures m'.queued[j] < m'.queued[k] {
          assert m'.queued[j] == m.queued[if j < i then j else j + 1];
        }
      }
    }
    forall x: nat | x < |m'.arrived| ensures x in m'.queued || WasHanded(m'.handed, x) {
      HandedSnoc(m.handed, h, x);
      if x in m.queued { WithoutOne(m.queued, i, x); }
    }
  }

  /** An earlier event that the waiter wanted is not in the queue any more. */
  lemma {:induction false} EarlierIsGone(m: Mail, wants: Message -> bool, i: nat, x: nat)
    requires Listed(m) && Finds(m, wants, i)
    requires x < m.queued[i] && x < |m.arrived| && wants(m.arrived[x])
    ensures WasHanded(m.handed, x)
  {
    forall k | 0 <= k < |m.queued| ensures m.queued[k] != x {
      assert QueuedOk(m, k) && QueuedOk(m, i);
      if k < i {
        assert m.box.events[..i][k] == m.box.events[k];
      }
    }
  }

  lemma {:induction false} HandOutFair(m: Mail, t: nat, wants: Message -> bool, i: nat)
    requires Listed(m) && Fair(m) && Finds(m, wants, i)
    ensures Fair(HandOut(m, t, wants, i))
  {
    var m' := HandOut(m, t, wants, i);
    forall p ensures IsOwn(m', p) && IsEarliest(m', p) {
      assert IsOwn(m, p) && IsEarliest(m, p);
      if 0 <= p < |m.handed| {
        assert m'.handed[..p] == m.handed[..p];
      } else if p == |m.handed| {
        LastIsFair(m, t, wants, i);
      }
    }
  }

  lemma {:induction false} LastIsFair(m: Mail, t: nat, wants: Message -> bool, i: nat)
    requires Listed(m) && Finds(m, wants, i)
    ensures
      var m' := HandOut(m, t, wants, i);
      IsOwn(m', |m.handed|) && IsEarliest(m', |m.handed|)
  {
    var m' := HandOut(m, t, wants, i);
    assert m'.handed[..|m.handed|] == m.handed;
    assert QueuedOk(m, i);
    forall x: nat | x < m.queued[i] && x < |m.arrived| && wants(m.arrived[x]) ensures WasHanded(m.handed, x) {
      EarlierIsGone(m, wants, i, x);
    }
  }

  // ----- Runs -----

  /** Waiters that come, go or fall asleep change nothing of this. */
  lemma SameLedger(m: Mail, m': Mail)
    requires Listed(m) && Fair(m)
    requires m'.box.events == m.box.events && m'.arrived == m.arrived && m'.queued == m.queued
    requires m'.taken == m.taken && m'.handed == m.handed
    ensures Listed(m') && Fair(m')
  {
    forall k ensures QueuedOk(m', k) { assert QueuedOk(m, k); }
    forall p ensures IsOwn(m', p) && IsEarliest(m', p) { assert IsOwn(m, p) && IsEarliest(m, p); }
  }

  lemma {:induction false} LookFair(m: Mail, t: nat, expired: bool)
    requires Listed(m) && Fair(m)
    ensures Listed(LookStep(m, t, expired)) && Fair(LookStep(m, t, expired))
  {
    if WaiterOf(m, t).Ready? && m.box.fatal.None? {
      var wants := WaiterOf(m, t).wants;
      var i := FirstMatch(m.box.events, wants);
      if i < |m.box.events| {
        HandOutListed(m, t, wants, i);
        HandOutFair(m, t, wants, i);
        SameLedger(HandOut(m, t, wants, i), LookStep(m, t, expired));
      } else {
        SameLedger(m, LookStep(m, t, expired));
      }
    } else {
      SameLedger(m, LookStep(m, t, expired));
    }
  }

  lemma {:induction false} StepFair(m: Mail, c: Calls, a: Action)
    requires Listed(m) && Fair(m)
    ensures Listed(MailStep(m, c, a)) && Fair(MailStep(m, c, a))
  {
    if a.Route? && c.out.Routing? && IsEvent(c.out.message) {
      ArriveListed(m, c.out.message);
      ArriveFair(m, c.out.message);
    } else if a.Look? {
      LookFair(m, a.t, a.expired);
    } else {
      SameLedger(m, MailStep(m, c, a));
    }
  }

  lemma {:induction false} RunFair(actions: seq<Action>)
    ensures Listed(Run(START, actions).mail) && Fair(Run(START, actions).mail)
  {
    if actions != [] {
      var before := Run(START, actions[..|actions| - 1]);
      RunFair(actions[..|actions| - 1]);
      StepFair(before.mail, before.calls, actions[|actions| - 1]);
    }
  }

  /**
   In every run, the `p`th event to be handed out went to a waiter that wanted it and had gone to nobody
   before, and every event that arrived earlier and that this waiter wanted as well had gone to somebody.
   */
  lemma {:induction false} EarliestMatchIsHanded(actions: seq<Action>, p: nat)
    requires p < |Run(START, actions).mail.handed|
    ensures
      var m := Run(START, actions).mail;
      var h := m.handed[p];
      && |m.taken| == |m.handed| && h.index < |m.arrived|
      && m.taken[p] == m.arrived[h.index] && h.wants(m.arrived[h.index])
      && !WasHanded(m.handed[..p], h.index)
      && forall i: nat :: i < h.index && h.wants(m.arrived[i]) ==> WasHanded(m.handed[..p], i)
  {
    RunFair(actions);
    var m := Run(START, actions).mail;
    assert IsOwn(m, p) && IsEarliest(m, p);
  }

  /** In every run, an event that arrived is queued, in order of arrival, if and only if it was not handed out. */
  lemma {:induction false} QueuedIffNotHanded(actions: seq<Action>, i: nat)
    requires i < |Run(START, actions).mail.arrived|
    ensures
      var m := Run(START, actions).mail;
      && (i in m.queued <==> !WasHanded(m.handed, i))
      && |m.queued| == |m.box.events|
      && forall k :: 0 <= k < |m.queued| && m.queued[k] == i ==> m.box.events[k] == m.arrived[i]
  {
    RunFair(actions);
    var m := Run(START, actions).mail;
    forall k | 0 <= k < |m.queued| && m.queued[k] == i
      ensures m.box.events[k] == m.arrived[i] && !WasHanded(m.handed, i)
    {
      assert QueuedOk(m, k);
    }
  }

  // ----- What the waiters of the client are handed -----

  /** In every run, the `p`th event to be handed out went to a waiter that wanted exactly what `w` does. */
  ghost predicate HandedFor(actions: seq<Action>, p: nat, w: Message -> bool) {
    var m := Run(START, actions).mail;
    p < |m.handed| && |m.taken| == |m.handed| && SameWants(m.handed[p].wants, w)
  }

  /**
   In every run, an event handed to a waiter for the end of a turn is the end of that very turn, in that
   thread, and no waiter for another turn, for another thread or for a protected call wants it.
   */
  lemma {:induction false} CompletionIsOwn(actions: seq<Action>, p: nat, thread: string, turn: string)
    requires HandedFor(actions, p, TurnCompleted(thread, turn))
    ensures
      var event := Run(START, actions).mail.taken[p];
      && TurnCompleted(thread, turn)(event)
      && (forall x, y :: (x, y) != (thread, turn) ==> !TurnCompleted(x, y)(event))
      && forall x, y, z :: !ProtectedCall(x, y, z)(event)
  {
    EarliestMatchIsHanded(actions, p);
    var event := Run(START, actions).mail.taken[p];
    forall x, y | (x, y) != (thread, turn) ensures !TurnCompleted(x, y)(event) {
      TurnCompletedDisjoint(thread, turn, x, y);
    }
    forall x, y, z ensures !ProtectedCall(x, y, z)(event) {
      CallAndCompletionDisjoint(x, y, z, thread, turn);
    }
  }

  /**
   In every run, an event handed to a waiter for a protected call can be answered, and no waiter for a call
   in another thread or turn, of another tool, or for the end of a turn wants it.
   */
  lemma {:induction false} CallIsOwn(actions: seq<Action>, p: nat, thread: string, turn: string, tool: string)
    requires HandedFor(actions, p, ProtectedCall(thread, turn, tool))
    ensures
      var event := Run(START, actions).mail.taken[p];
      && ProtectedCall(thread, turn, tool)(event) && "id" in event
      && (forall x, y, z :: (x, y, z) != (thread, turn, tool) ==> !ProtectedCall(x, y, z)(event))
      && forall x, y :: !TurnCompleted(x, y)(event)
  {
    EarliestMatchIsHanded(actions, p);
    var event := Run(START, actions).mail.taken[p];
    forall x, y, z | (x, y, z) != (thread, turn, tool) ensures !ProtectedCall(x, y, z)(event) {
      ProtectedCallsDisjoint(thread, turn, tool, x, y, z);
    }
    forall x, y ensures !TurnCompleted(x, y)(event) {
      CallAndCompletionDisjoint(thread, turn, tool, x, y);
    }
  }
}
