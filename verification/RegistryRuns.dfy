/** What the registry holds after any run of the server. */
module RegistryRuns {
  import opened Registry

  function Start(): State {
    State(map[], {}, {})
  }

  function After(code: string, events: seq<Event>): State
    decreases |events|
  {
    if events == [] then Start()
    else Next(After(code, events[..|events| - 1]), code, events[|events| - 1])
  }

  ghost predicate Legal(code: string, events: seq<Event>)
    decreases |events|
  {
    || events == []
    || (&& Legal(code, events[..|events| - 1])
        && Possible(After(code, events[..|events| - 1]), events[|events| - 1]))
  }

  /** The session was started and not closed since. */
  ghost predicate Live(events: seq<Event>, id: Id) {
    exists i :: 0 <= i < |events| && events[i] == Started(id) && NotClosedFrom(events, i, id)
  }

  ghost predicate NotClosedFrom(events: seq<Event>, i: nat, id: Id) {
    forall j | i <= j < |events| :: events[j] != Closed(id)
  }

  lemma LiveStep(past: seq<Event>, e: Event, id: Id)
    ensures Live(past + [e], id) <==> e == Started(id) || (Live(past, id) && e != Closed(id))
  {
    var events := past + [e];
    if e == Started(id) {
      assert events[|past|] == e && NotClosedFrom(events, |past|, id);
    }
    if Live(past, id) && e != Closed(id) {
      var i :| 0 <= i < |past| && past[i] == Started(id) && NotClosedFrom(past, i, id);
      assert events[i] == Started(id) && NotClosedFrom(events, i, id);
    }
    if Live(events, id) && e != Started(id) {
      var i :| 0 <= i < |events| && events[i] == Started(id) && NotClosedFrom(events, i, id);
      assert past[i] == Started(id);
      assert events[|past|] != Closed(id);
      assert NotClosedFrom(past, i, id) by {
        forall j | i <= j < |past| ensures past[j] != Closed(id) {
          assert events[j] == past[j];
        }
      }
    }
  }

  /** In every run the registered sessions are exactly those started and not closed. */
  lemma {:induction false} KeysAreLive(code: string, events: seq<Event>, id: Id)
    requires Legal(code, events)
    ensures id in After(code, events).queues <==> Live(events, id)
    decreases |events|
  {
    if events != [] {
      var past, e := events[..|events| - 1], events[|events| - 1];
      assert events == past + [e];
      KeysAreLive(code, past, id);
      LiveStep(past, e, id);
      var s := After(code, past);
      assert id in Next(s, code, e).queues <==> e == Started(id) || (id in s.queues && e != Closed(id));
    }
  }

  /** A push stems from a request with the right code that another session sent before. */
  ghost predicate Justified(events: seq<Event>, code: string, id: Id, out: Outgoing) {
    out.Push? ==> exists i :: 0 <= i < |events| && Requests(events[i], code, id, out.event)
  }

  predicate Requests(e: Event, code: string, to: Id, event: KeyEvent) {
    e.Received? && e.id != to && e.message == Request(code, event)
  }

  ghost predicate AllJustified(events: seq<Event>, code: string, id: Id, queue: seq<Outgoing>) {
    forall k | 0 <= k < |queue| :: Justified(events, code, id, queue[k])
  }

  lemma JustifiedLater(past: seq<Event>, e: Event, code: string, id: Id, queue: seq<Outgoing>)
    requires AllJustified(past, code, id, queue)
    ensures AllJustified(past + [e], code, id, queue)
  {
    var events := past + [e];
    forall k | 0 <= k < |queue| ensures Justified(events, code, id, queue[k]) {
      assert Justified(past, code, id, queue[k]);
      if queue[k].Push? {
        var i :| 0 <= i < |past| && Requests(past[i], code, id, queue[k].event);
        assert events[i] == past[i];
      }
    }
  }

  lemma {:induction false} PushesJustified(code: string, events: seq<Event>, id: Id)
    requires Legal(code, events) && id in After(code, events).queues
    ensures AllJustified(events, code, id, After(code, events).queues[id])
    decreases |events|
  {
    var past, e := events[..|events| - 1], events[|events| - 1];
    assert events == past + [e];
    var s := After(code, past);
    if e != Started(id) {
      PushesJustified(code, past, id);
      JustifiedLater(past, e, code, id, s.queues[id]);
      StepAdds(s, code, e, id);
      assert events[|past|] == e;
    }
  }

  // ----- What a session may and what it must have been queued -----

  /** What one event brings a session that was there before. */
  function Brings(e: Event, code: string, id: Id): seq<Outgoing> {
    match e
    case Inactive(i, time) => if i == id then [PingOut(time)] else []
    case Received(sender, Ping(time), _) => if sender == id then [PongBack(time)] else []
    case Received(sender, Request(authorization, event), _) =>
      if sender == id then [Response(authorization == code)]
      else if authorization == code then [Push(event)] else []
    case _ => []
  }

  /** All that a session gets since it was started, told from the events alone. */
  function Inbox(events: seq<Event>, code: string, id: Id): seq<Outgoing>
    decreases |events|
  {
    if events == [] then []
    else
      var e := events[|events| - 1];
      if e == Started(id) then [] else Inbox(events[..|events| - 1], code, id) + Brings(e, code, id)
  }

  /** A step adds to a session's queue all that the event brings it, or nothing. */
  lemma StepAdds(s: State, code: string, e: Event, id: Id)
    requires Possible(s, e) && id in s.queues && id in Next(s, code, e).queues && e != Started(id)
    ensures
      var q, q' := s.queues[id], Next(s, code, e).queues[id];
      q' == q || q' == q + Brings(e, code, id)
  {
    match e
    case Received(sender, Request(authorization, event), order) =>
      if authorization == code {
        RequestAdds(s, code, sender, event, order, id);
      }
    case _ =>
  }

  lemma RequestAdds(s: State, code: string, sender: Id, event: KeyEvent, order: seq<Id>, id: Id)
    requires sender in s.queues && Walks(order, s) && id in s.queues
    ensures
      var q, q' := s.queues[id], Receive(s, code, sender, Request(code, event), order).0.queues[id];
      q' == q || (id != sender && q' == q + [Push(event)]) || (id == sender && q' == q + [Response(true)])
  {
    BroadcastReaches(s, sender, Push(event), order);
    ReachedInWalk(s, sender, order);
  }

  /** a is b with some elements left out. */
  ghost predicate Subsequence(a: seq<Outgoing>, b: seq<Outgoing>)
    decreases |b|
  {
    || a == []
    || (b != [] && (|| Subsequence(a, b[..|b| - 1])
                    || (a[|a| - 1] == b[|b| - 1] && Subsequence(a[..|a| - 1], b[..|b| - 1]))))
  }

  lemma SubsequenceAdd(a: seq<Outgoing>, b: seq<Outgoing>, more: seq<Outgoing>)
    requires Subsequence(a, b) && |more| <= 1
    ensures Subsequence(a, b + more) && Subsequence(a + more, b + more)
  {
    if more == [] {
      assert a + more == a && b + more == b;
    } else {
      assert (b + more)[..|b|] == b && (a + more)[..|a|] == a;
    }
  }

  /**
   In every run a session has been queued a selection, in order, of what the events since its start promise it: no
   push twice for one request, none without one.
   */
  lemma {:induction false} QueueWithinInbox(code: string, events: seq<Event>, id: Id)
    requires Legal(code, events) && id in After(code, events).queues
    ensures Subsequence(After(code, events).queues[id], Inbox(events, code, id))
    decreases |events|
  {
    var past, e := events[..|events| - 1], events[|events| - 1];
    var s := After(code, past);
    if e != Started(id) {
      QueueWithinInbox(code, past, id);
      StepAdds(s, code, e, id);
      SubsequenceAdd(s.queues[id], Inbox(past, code, id), Brings(e, code, id));
    }
  }

  /** An authorised request finds the receivers of all other registered sessions open. */
  predicate Unhindered(s: State, code: string, e: Event) {
    e.Received? && e.message.Request? && e.message.authorization == code ==> s.queues.Keys - {e.id} <= s.open
  }

  predicate AllUnhindered(code: string, events: seq<Event>)
    decreases |events|
  {
    || events == []
    || (&& AllUnhindered(code, events[..|events| - 1])
        && Unhindered(After(code, events[..|events| - 1]), code, events[|events| - 1]))
  }

  /** A session with an open receiver gets all that the event brings it. */
  lemma OpenStep(s: State, code: string, e: Event, id: Id)
    requires Possible(s, e) && Unhindered(s, code, e) && e != Started(id) && e != Closed(id)
    requires id in s.queues && id in s.open
    ensures id in Next(s, code, e).queues && Next(s, code, e).queues[id] == s.queues[id] + Brings(e, code, id)
  {
    assert s.queues[id] + [] == s.queues[id];
    match e
    case Received(sender, Request(authorization, event), order) =>
      if authorization == code {
        RequestDelivers(s, code, sender, event, order);
      }
    case _ =>
  }

  /**
   If no authorised request of the run met a closed receiver, a session whose own receiver is still open has been
   queued exactly what the events since its start promise it, whoever else came and went.
   */
  lemma {:induction false} QueueIsInbox(code: string, events: seq<Event>, id: Id)
    requires Legal(code, events) && AllUnhindered(code, events)
    requires id in After(code, events).queues && id in After(code, events).open
    ensures After(code, events).queues[id] == Inbox(events, code, id)
    decreases |events|
  {
    var past, e := events[..|events| - 1], events[|events| - 1];
    var s := After(code, past);
    if e != Started(id) {
      assert id in s.queues && id in s.open && e != Closed(id);
      QueueIsInbox(code, past, id);
      OpenStep(s, code, e, id);
    }
  }

  // ----- What a failed relay costs -----

  lemma {:induction false} LegalPrefix(code: string, events: seq<Event>, n: nat)
    requires Legal(code, events) && n <= |events|
    ensures Legal(code, events[..n])
    ensures n < |events| ==> Possible(After(code, events[..n]), events[n])
    ensures n < |events| ==> After(code, events[..n + 1]) == Next(After(code, events[..n]), code, events[n])
    decreases |events|
  {
    if n < |events| {
      var past := events[..|events| - 1];
      assert events[..n + 1][..n] == events[..n];
      if n < |past| {
        LegalPrefix(code, past, n);
        assert past[..n] == events[..n] && past[..n + 1] == events[..n + 1];
      }
    } else {
      assert events[..n] == events;
    }
  }

  /** Only registered sessions are open or ending, and a registered session that is not ending has its receiver open. */
  lemma {:induction false} OpenUnlessEnding(code: string, events: seq<Event>)
    requires Legal(code, events)
    ensures
      var s := After(code, events);
      s.open <= s.queues.Keys && s.ending <= s.queues.Keys && s.queues.Keys - s.ending <= s.open
    decreases |events|
  {
    if events != [] {
      OpenUnlessEnding(code, events[..|events| - 1]);
    }
  }

  lemma EndingStays(s: State, code: string, e: Event, id: Id)
    requires Possible(s, e) && id in s.ending && id in s.queues && e != Closed(id)
    ensures id in Next(s, code, e).ending
  {
  }

  /** A session that is ending handles no message any more until it is closed. */
  lemma {:induction false} EndingReadsNoMore(code: string, events: seq<Event>, id: Id, i: nat, j: nat)
    requires Legal(code, events) && i <= j < |events| && id in After(code, events[..i]).ending
    requires forall k | i <= k < j :: events[k] != Closed(id)
    ensures id in After(code, events[..j]).ending && !(events[j].Received? && events[j].id == id)
    decreases j
  {
    if i < j {
      EndingReadsNoMore(code, events, id, i, j - 1);
      LegalPrefix(code, events, j - 1);
      OpenUnlessEnding(code, events[..j - 1]);
      EndingStays(After(code, events[..j - 1]), code, events[j - 1], id);
    }
    StillPossible(code, events, j);
  }

  lemma StillPossible(code: string, events: seq<Event>, j: nat)
    requires Legal(code, events) && j < |events|
    ensures events[j].Received? ==> events[j].id !in After(code, events[..j]).ending
  {
    LegalPrefix(code, events, j);
  }

  /**
   In every run an authorised request whose relay meets a closed receiver, and only such a one, ends its sender's
   session: the sender gets no response, and no further message of its session is handled.
   */
  lemma ClosedReceiverCostsSession(code: string, events: seq<Event>, i: nat)
    requires Legal(code, events) && i < |events|
    requires events[i].Received? && events[i].message.Request? && events[i].message.authorization == code
    ensures
      var s, s', id := After(code, events[..i]), After(code, events[..i + 1]), events[i].id;
      && (id in s'.ending <==> !(s.queues.Keys - {id} <= s.open))
      && (id in s'.ending ==> id in s'.queues && id in s.queues && s'.queues[id] == s.queues[id])
      && (id in s'.ending ==>
            forall j | i < j < |events| && (forall k | i < k < j :: events[k] != Closed(id)) ::
              !(events[j].Received? && events[j].id == id))
  {
    var s, e := After(code, events[..i]), events[i];
    LegalPrefix(code, events, i);
    OpenUnlessEnding(code, events[..i]);
    RequestDelivers(s, code, e.id, e.message.event, e.order);
    if e.id in After(code, events[..i + 1]).ending {
      forall j | i < j < |events| && (forall k | i < k < j :: events[k] != Closed(e.id))
        ensures !(events[j].Received? && events[j].id == e.id)
      {
        EndingReadsNoMore(code, events, e.id, i + 1, j);
      }
    }
  }
}
