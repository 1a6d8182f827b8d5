/** The hub goroutine over its own map and channels, proved step for step against `HubModel`. */
module WebSocketHub {
  import opened HubModel

  /** A client's bounded send channel. Closing it twice, or sending once it is closed, would panic: both are
      ruled out by precondition. */
  class WsClient {
    var buffer: seq<Message>
    var open: bool

    constructor ()
      ensures buffer == [] && open
    {
      buffer, open := [], true;
    }

    method TrySend(message: Message) returns (sent: bool)
      requires open
      modifies this`buffer
      ensures sent == (|old(buffer)| < CAPACITY)
      ensures buffer == if sent then old(buffer) + [message] else old(buffer)
    {
      sent := |buffer| < CAPACITY;
      if sent {
        buffer := buffer + [message];
      }
    }

    method Close()
      requires open
      modifies this`open
      ensures !open
    {
      open := false;
    }

    method Receive() returns (message: Message)
      requires buffer != []
      modifies this`buffer
      ensures [message] + buffer == old(buffer)
    {
      message := buffer[0];
      buffer := buffer[1..];
    }
  }

  class Server {
    var clients: set<WsClient>
    ghost var model: Hub<WsClient>

    /** The map and every channel are what the model says. */
    ghost predicate Mirrors()
      reads this, model.conns.Keys
    {
      && clients == model.clients
      && forall c | c in model.conns :: c.buffer == model.conns[c].buffer && c.open == model.conns[c].open
    }

    ghost predicate Valid()
      reads this, model.conns.Keys
    {
      Mirrors() && Inv(model)
    }

    constructor ()
      ensures Valid() && model == NewHub()
    {
      clients, model := {}, NewHub();
    }

    method Register(client: WsClient)
      requires Valid() && Enabled(model, HubModel.Register(client))
      requires client.buffer == [] && client.open
      modifies this
      ensures Valid() && Running(model) == Step(old(model), HubModel.Register(client))
    {
      StepKeepsInv(model, HubModel.Register(client));
      clients := clients + {client};
      model := Step(model, HubModel.Register(client)).hub;
    }

    method Unregister(client: WsClient)
      requires Valid() && Enabled(model, HubModel.Unregister(client))
      modifies this, client`open
      ensures Valid() && Running(model) == Step(old(model), HubModel.Unregister(client))
    {
      StepKeepsInv(model, HubModel.Unregister(client));
      assert ClientInv(model, client);
      if client in clients {
        clients := clients - {client};
        client.Close();
      }
      model := Step(model, HubModel.Unregister(client)).hub;
    }

    /** One iteration of the broadcast loop. */
    method VisitOne(client: WsClient, message: Message)
      requires Mirrors() && Enabled(model, Visit(client)) && Step(model, Visit(client)).Running?
      requires message == model.history[|model.history| - 1]
      modifies this, client
      ensures Mirrors() && Running(model) == Step(old(model), Visit(client))
    {
      var sent := client.TrySend(message);
      if !sent {
        client.Close();
        clients := clients - {client};
      }
      model := Step(model, Visit(client)).hub;
    }

    /** Ranges over the client map in whatever order, deleting as it goes; the result is the pointwise one. */
    method Broadcast(message: Message)
      requires Valid() && model.todo == {}
      modifies this, model.conns.Keys
      ensures Valid() && model == DeliverAll(old(model), message)
    {
      ghost var before := model;
      var todo := clients;
      StartsPartWay(before, message);
      model := PartWay(before, message, todo);
      while todo != {}
        invariant todo <= before.clients
        invariant Mirrors() && model == PartWay(before, message, todo)
      {
        var client :| client in todo;
        VisitAdvances(before, message, todo, client);
        VisitOne(client, message);
        todo := todo - {client};
      }
      EndsPartWay(before, message);
    }

    /** The writer goroutine's receive. */
    method Take(client: WsClient) returns (message: Message)
      requires Valid() && Enabled(model, HubModel.Take(client))
      modifies this`model, client`buffer
      ensures Valid() && Running(model) == Step(old(model), HubModel.Take(client))
      ensures model.conns[client].taken == old(model).conns[client].taken + [message]
    {
      StepKeepsInv(model, HubModel.Take(client));
      message := client.Receive();
      model := Step(model, HubModel.Take(client)).hub;
    }
  }
}
