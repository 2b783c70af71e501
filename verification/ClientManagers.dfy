/** Registered clients by identifier, with a limit and replacement of a client that reconnects. */
module ClientManagers {
  import opened Options
  import opened Messages
  import opened TopicRegistries

  // A connection stands for the client object that owns it.
  type Connection = nat

  /** Refused when the limit is reached, unless an entry with this identifier is replaced. */
  predicate Refused(clients: map<Name, Connection>, maxClients: nat, id: Name) {
    |clients| >= maxClients && id !in clients
  }

  class ClientManager {
    const maxClients: nat
    var clients: map<Name, Connection>

    constructor (maxClients: nat)
      ensures this.maxClients == maxClients && clients == map[]
    {
      this.maxClients, clients := maxClients, map[];
    }

    /** True exactly when no identifier at all would be refused by Add. */
    method CanAccept() returns (ok: bool)
      ensures ok <==> forall id :: !Refused(clients, maxClients, id)
    {
      FullRefusesSome(clients, maxClients);
      return |clients| < maxClients;
    }

    /** `closed` is the connection of the client that was replaced. */
    method Add(id: Name, conn: Connection) returns (err: bool, closed: Option<Connection>)
      modifies this
      ensures err == Refused(old(clients), maxClients, id)
      ensures id in old(clients) ==> !err
      ensures id !in old(clients) ==> (err <==> |old(clients)| >= maxClients)
      ensures clients == if err then old(clients) else old(clients)[id := conn]
      ensures closed == if !err && id in old(clients) then Some(old(clients)[id]) else None
      ensures |old(clients)| <= maxClients ==> |clients| <= maxClients
    {
      closed := None;
      if |clients| >= maxClients {
        if id !in clients {
          return true, None;
        }
      }
      if id in clients {
        closed := Some(clients[id]);
      }
      AddedSize(clients, id, conn);
      clients := clients[id := conn];
      return false, closed;
    }

    method Remove(id: Name)
      modifies this
      ensures clients == old(clients) - {id}
    {
      clients := clients - {id};
    }
  }

  /** Below the limit nobody is refused; at the limit some identifier is. */
  lemma FullRefusesSome(clients: map<Name, Connection>, maxClients: nat)
    ensures |clients| < maxClients <==> forall id :: !Refused(clients, maxClients, id)
  {
    var unused := UnusedName(clients.Keys);
    assert |clients| >= maxClients ==> Refused(clients, maxClients, unused);
  }

  /** There is always an identifier that is not registered. */
  lemma UnusedName(names: set<Name>) returns (unused: Name)
    ensures unused !in names
  {
    var bound: nat := 0;
    var rest := names;
    while rest != {}
      invariant rest <= names
      invariant forall n :: n in names && n !in rest ==> |n| <= bound
      decreases |rest|
    {
      var n :| n in rest;
      rest := rest - {n};
      if bound < |n| { bound := |n|; }
    }
    unused := seq(bound + 1, i => 0);
  }

  lemma AddedSize(clients: map<Name, Connection>, id: Name, conn: Connection)
    ensures |clients[id := conn]| == |clients| + if id in clients then 0 else 1
  {
    assert clients[id := conn].Keys == clients.Keys + {id};
  }

  lemma RemovedSize(clients: map<Name, Connection>, id: Name)
    ensures |clients - {id}| <= |clients|
  {
    assert (clients - {id}).Keys == clients.Keys - {id};
  }
}
