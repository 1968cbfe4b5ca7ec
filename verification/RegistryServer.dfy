/** The registry as the server updates it in place. */
module RegistryServer {
  import opened Registry

  class Server {
    const code: string
    var queues: map<Id, seq<Outgoing>>
    var open: set<Id>
    var ending: set<Id>

    function View(): State
      reads this
    {
      State(queues, open, ending)
    }

    constructor (authorization: string)
      ensures code == authorization && View() == State(map[], {}, {})
    {
      code := authorization;
      queues, open, ending := map[], {}, {};
    }

    /** Every other session keeps its registration, its queue and its receiver. */
    twostate predicate OthersKept(id: Id)
      reads this
    {
      forall j: Id | j != id ::
        && (j in queues <==> j in old(queues)) && (j in open <==> j in old(open)) && (j in ending <==> j in old(ending))
        && (j in queues ==> queues[j] == old(queues)[j])
    }

    /** `on_session_start`: the session can be reached from now on, and nothing waits for it yet. */
    method OnSessionStart(id: Id)
      modifies this
      ensures id in queues && queues[id] == [] && id in open
      ensures OthersKept(id) && View() == Next(old(View()), code, Started(id))
    {
      queues := queues[id := []];
      open, ending := open + {id}, ending - {id};
    }

    /** The end of `poll_write`, which closes the receiver: sending to the session fails, but it is still registered. */
    method CloseReceiver(id: Id)
      modifies this
      ensures id !in open && queues == old(queues)
      ensures OthersKept(id) && View() == Next(old(View()), code, ReceiverClosed(id))
    {
      open, ending := open - {id}, ending + {id};
    }

    /** `on_session_close`: the session is neither registered nor reached any more. */
    method OnSessionClose(id: Id)
      modifies this
      ensures id !in queues && id !in open
      ensures OthersKept(id) && View() == Next(old(View()), code, Closed(id))
    {
      queues := queues - {id};
      open, ending := open - {id}, ending - {id};
    }

    /** `send_message`. */
    method SendMessage(id: Id, out: Outgoing) returns (ok: bool)
      modifies this
      ensures (View(), ok) == Send(old(View()), id, out)
    {
      ok := id in open && id in queues;
      if ok {
        queues := queues[id := queues[id] + [out]];
      }
    }

    /** The loop over the players: an error at one of them ends it. */
    method PushToOthers(sender: Id, out: Outgoing, order: seq<Id>) returns (ok: bool)
      modifies this
      ensures (View(), ok) == Broadcast(old(View()), sender, out, order)
    {
      var i := 0;
      assert order[0..] == order;
      while i < |order|
        invariant i <= |order|
        invariant Broadcast(View(), sender, out, order[i..]) == Broadcast(old(View()), sender, out, order)
      {
        assert order[i..][1..] == order[i + 1..];
        if order[i] != sender {
          ok := SendMessage(order[i], out);
          if !ok {
            return;
          }
        }
        i := i + 1;
      }
      assert order[i..] == [];
      ok := true;
    }

    /** `on_recv_message`. */
    method OnRecvMessage(id: Id, m: Message, order: seq<Id>) returns (ok: bool)
      modifies this
      ensures (View(), ok) == Receive(old(View()), code, id, m, order)
    {
      match m
      case Ping(time) => ok := SendMessage(id, PongBack(time));
      case Pong(_) => ok := true;
      case Other => ok := true;
      case Request(authorization, event) =>
        if authorization == code {
          ok := PushToOthers(id, Push(event), order);
          if ok {
            ok := SendMessage(id, Response(true));
          }
        } else {
          ok := SendMessage(id, Response(false));
        }
    }

    /** A message in the read loop, which an error ends and with it the session. */
    method HandleMessage(id: Id, m: Message, order: seq<Id>)
      modifies this
      ensures View() == Next(old(View()), code, Received(id, m, order))
    {
      var ok := OnRecvMessage(id, m, order);
      if !ok {
        ending := ending + {id};
      }
    }
  }
}
