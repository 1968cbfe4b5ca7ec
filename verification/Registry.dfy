/** The server's session registry and its relay of media-key requests (rmc-server). */
module Registry {

  type Id = nat

  const U32: nat := 0x1_0000_0000

  // ----- Session numbers -----

  /** The number handed out when the counter shows c: the counter's value, skipping zero. */
  function FreshId(c: nat): nat {
    if c == 0 then 1 else c
  }

  function Following(id: nat): nat {
    if id + 1 == U32 then 0 else id + 1
  }

  class SessionCounter {
    var counter: nat

    constructor ()
      ensures counter == 0
    {
      counter := 0;
    }

    /** `create_session_id`: fetches and adds, with wrap-around, until the number is not zero. */
    method CreateSessionId() returns (id: nat)
      requires counter < U32
      modifies this
      ensures counter < U32
      ensures id == FreshId(old(counter)) && counter == Following(id)
    {
      while true
        invariant counter < U32
        invariant counter == old(counter) || (old(counter) == 0 && counter == 1)
        decreases if counter == 0 then 1 else 0
      {
        id := counter;
        counter := Following(counter);
        if id > 0 {
          return;
        }
      }
    }
  }

  /** The counter after n numbers have been handed out. */
  function CounterAfter(c: nat, n: nat): nat
    requires c < U32
    ensures CounterAfter(c, n) < U32
  {
    if n == 0 then c else Following(FreshId(CounterAfter(c, n - 1)))
  }

  function NthId(c: nat, n: nat): nat
    requires c < U32
  {
    FreshId(CounterAfter(c, n))
  }

  /** Counting on by one, modulo the number of nonzero 32-bit numbers. */
  lemma ModuloStep(a: nat)
    ensures (a + 1) % 0xFFFF_FFFF == if a % 0xFFFF_FFFF == 0xFFFF_FFFE then 0 else a % 0xFFFF_FFFF + 1
  {
  }

  /** The nth number is found by counting round the nonzero 32-bit numbers. */
  lemma {:induction false} NthIdCounts(c: nat, n: nat)
    requires c < U32
    ensures 1 <= NthId(c, n) < U32
    ensures NthId(c, n) - 1 == (FreshId(c) - 1 + n) % 0xFFFF_FFFF
  {
    if n == 0 {
      assert FreshId(c) - 1 < 0xFFFF_FFFF;
    } else {
      NthIdCounts(c, n - 1);
      ModuloStep(FreshId(c) - 1 + (n - 1));
    }
  }

  lemma ModuloApart(a: nat, d: nat)
    ensures (a + d) % 0xFFFF_FFFF == a % 0xFFFF_FFFF <==> d % 0xFFFF_FFFF == 0
  {
  }

  /** Two sessions get the same number exactly if a multiple of 2^32 - 1 lies between them. */
  lemma IdsRepeatIff(c: nat, m: nat, n: nat)
    requires c < U32 && m <= n
    ensures NthId(c, m) == NthId(c, n) <==> (n - m) % 0xFFFF_FFFF == 0
  {
    NthIdCounts(c, m);
    NthIdCounts(c, n);
    ModuloApart(FreshId(c) - 1 + m, n - m);
  }

  // ----- Messages -----

  datatype KeyEvent = KeyEvent(action: int, code: int, token: string)

  datatype Message =
    | Ping(time: nat)
    | Pong(time: nat)
    | Request(authorization: string, event: KeyEvent)
    | Other

  datatype Outgoing =
    | PingOut(time: nat)
    | PongBack(time: nat)
    | Push(event: KeyEvent)
    | Response(ok: bool)

  /**
   The registered sessions with what has been queued for each; `open` are those whose receiver still takes messages,
   which ends before the session is removed; `ending` those that read no more because writing or a message failed.
   */
  datatype State = State(queues: map<Id, seq<Outgoing>>, open: set<Id>, ending: set<Id>)

  datatype Event =
    | Started(id: Id)
    | ReceiverClosed(id: Id)
    | Closed(id: Id)
      /** The session's ping task found it inactive. */
    | Inactive(id: Id, time: nat)
      /** order is the order in which the map of players is walked. */
    | Received(id: Id, message: Message, order: seq<Id>)

  ghost predicate Walks(order: seq<Id>, s: State) {
    && (forall i, j | 0 <= i < j < |order| :: order[i] != order[j])
    && (forall id: Id :: id in order <==> id in s.queues)
  }

  ghost predicate Possible(s: State, e: Event) {
    match e
    case Started(id) => id !in s.queues
    case ReceiverClosed(id) => id in s.queues
    case Closed(id) => id in s.queues
    case Inactive(id, _) => id in s.queues
    case Received(id, _, order) => id in s.queues && id !in s.ending && Walks(order, s)
  }

  /** `send_message`: fails if the receiver is closed. */
  function Send(s: State, id: Id, out: Outgoing): (r: (State, bool))
    ensures r.0.open == s.open && r.0.ending == s.ending && r.0.queues.Keys == s.queues.Keys
  {
    if id in s.open && id in s.queues then (s.(queues := s.queues[id := s.queues[id] + [out]]), true) else (s, false)
  }

  /** A push to every session of the walk but the sender, up to the first that fails. */
  function Broadcast(s: State, sender: Id, out: Outgoing, order: seq<Id>): (r: (State, bool))
    ensures r.0.open == s.open && r.0.ending == s.ending && r.0.queues.Keys == s.queues.Keys
    decreases |order|
  {
    if order == [] then (s, true)
    else if order[0] == sender then Broadcast(s, sender, out, order[1..])
    else
      var sent := Send(s, order[0], out);
      if sent.1 then Broadcast(sent.0, sender, out, order[1..]) else sent
  }

  /** `on_recv_message`; the flag is false if it ends with an error. */
  function Receive(s: State, code: string, id: Id, m: Message, order: seq<Id>): (r: (State, bool))
    ensures r.0.open == s.open && r.0.ending == s.ending && r.0.queues.Keys == s.queues.Keys
  {
    match m
    case Ping(time) => Send(s, id, PongBack(time))
    case Pong(_) => (s, true)
    case Other => (s, true)
    case Request(authorization, event) =>
      if authorization == code then
        var pushed := Broadcast(s, id, Push(event), order);
        if pushed.1 then Send(pushed.0, id, Response(true)) else pushed
      else Send(s, id, Response(false))
  }

  function Next(s: State, code: string, e: Event): State {
    match e
    case Started(id) => State(s.queues[id := []], s.open + {id}, s.ending - {id})
    case ReceiverClosed(id) => s.(open := s.open - {id}, ending := s.ending + {id})
    case Closed(id) => State(s.queues - {id}, s.open - {id}, s.ending - {id})
    case Inactive(id, time) => Send(s, id, PingOut(time)).0
    case Received(id, m, order) =>
      var r := Receive(s, code, id, m, order);
      if r.1 then r.0 else r.0.(ending := r.0.ending + {id})
  }

  /** A session that is started and closed leaves no trace. */
  lemma CloseUndoesStart(s: State, code: string, id: Id)
    requires Possible(s, Started(id)) && s.open <= s.queues.Keys && s.ending <= s.queues.Keys
    ensures Next(Next(s, code, Started(id)), code, Closed(id)) == s
  {
    assert s.queues[id := []] - {id} == s.queues;
  }

  // ----- One request -----

  /** The part of a walk that a broadcast gets through: up to the first other session whose receiver is closed. */
  function Reached(s: State, sender: Id, order: seq<Id>): set<Id>
    decreases |order|
  {
    if order == [] then {}
    else if order[0] == sender then Reached(s, sender, order[1..])
    else if order[0] in s.open then {order[0]} + Reached(s, sender, order[1..])
    else {}
  }

  ghost predicate Appended(before: State, after: State, to: set<Id>, out: Outgoing) {
    && after.queues.Keys == before.queues.Keys
    && forall id | id in before.queues ::
         after.queues[id] == if id in to then before.queues[id] + [out] else before.queues[id]
  }

  predicate AllTake(s: State, sender: Id, order: seq<Id>) {
    forall i | 0 <= i < |order| && order[i] != sender :: order[i] in s.open
  }

  /** Exactly the reached sessions get the push, once; the walk ends well exactly if all other receivers are open. */
  lemma {:induction false} BroadcastReaches(s: State, sender: Id, out: Outgoing, order: seq<Id>)
    requires forall i, j | 0 <= i < j < |order| :: order[i] != order[j]
    requires forall i | 0 <= i < |order| :: order[i] in s.queues
    ensures Appended(s, Broadcast(s, sender, out, order).0, Reached(s, sender, order), out)
    ensures Broadcast(s, sender, out, order).1 <==> AllTake(s, sender, order)
    decreases |order|
  {
    if order != [] {
      var rest := order[1..];
      assert forall i | 0 <= i < |rest| :: rest[i] == order[i + 1];
      if order[0] == sender {
        BroadcastReaches(s, sender, out, rest);
        assert AllTake(s, sender, rest) ==> AllTake(s, sender, order);
      } else if order[0] in s.open {
        var s' := Send(s, order[0], out).0;
        BroadcastReaches(s', sender, out, rest);
        ReachedSame(s, s', sender, rest);
        assert order[0] !in Reached(s, sender, rest) by { ReachedInWalk(s, sender, rest); }
        assert AllTake(s, sender, rest) ==> AllTake(s, sender, order);
      }
    }
  }

  lemma {:induction false} ReachedSame(s: State, s': State, sender: Id, order: seq<Id>)
    requires s.open == s'.open
    ensures Reached(s, sender, order) == Reached(s', sender, order)
    ensures AllTake(s, sender, order) == AllTake(s', sender, order)
    decreases |order|
  {
    if order != [] {
      ReachedSame(s, s', sender, order[1..]);
    }
  }

  lemma {:induction false} ReachedInWalk(s: State, sender: Id, order: seq<Id>)
    ensures forall id | id in Reached(s, sender, order) :: id in order && id != sender && id in s.open
    decreases |order|
  {
    if order != [] {
      ReachedInWalk(s, sender, order[1..]);
    }
  }

  /** With all other receivers open, all other sessions are reached. */
  lemma {:induction false} AllReached(s: State, sender: Id, order: seq<Id>)
    requires AllTake(s, sender, order)
    ensures forall id :: id in Reached(s, sender, order) <==> id in order && id != sender
    decreases |order|
  {
    if order != [] {
      var rest := order[1..];
      assert forall i | 0 <= i < |rest| :: rest[i] == order[i + 1];
      AllReached(s, sender, rest);
      assert order == [order[0]] + rest;
    }
  }

  /** Whether an authorised request reaches everyone, and what it does then, does not depend on the walk. */
  lemma RequestDelivers(s: State, code: string, sender: Id, event: KeyEvent, order: seq<Id>)
    requires sender in s.queues && Walks(order, s)
    ensures
      var r := Receive(s, code, sender, Request(code, event), order);
      var others := s.queues.Keys - {sender};
      && (r.1 <==> others <= s.open && sender in s.open)
      && (others <= s.open <==> forall id | id in others :: r.0.queues[id] == s.queues[id] + [Push(event)])
      && r.0.queues[sender] == if r.1 then s.queues[sender] + [Response(true)] else s.queues[sender]
  {
    var out, others := Push(event), s.queues.Keys - {sender};
    var pushed := Broadcast(s, sender, out, order);
    var reached := Reached(s, sender, order);
    BroadcastReaches(s, sender, out, order);
    ReachedInWalk(s, sender, order);
    if AllTake(s, sender, order) {
      AllReached(s, sender, order);
      assert others <= s.open;
    } else {
      var i :| 0 <= i < |order| && order[i] != sender && order[i] !in s.open;
      assert order[i] in others;
      assert pushed.0.queues[order[i]] == s.queues[order[i]];
    }
  }
}
