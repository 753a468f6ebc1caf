/** The socket client (client/clilib/client.go): connections that talk to the server, and the handler
    that registers them. */
module SocketClient {
  import opened Wrappers
  import opened Protocol
  import opened ClientSpec
  import opened Socket
  import Operations

  /** One connection: the server behind it, the bytes the server has not completed to a line, and the
      replies not read yet. */
  class Client {
    const server: Server
    var partial: Bytes
    var inbox: Bytes

    ghost predicate Valid()
      reads this, server, server.db, server.db.SubDICKs, set s, o | s in server.db.SubDICKs && o in s.Repr :: o
    {
      server.Valid() && this !in server.db.Objects()
    }

    ghost function Link(): Conn
      reads this, server
    {
      Conn(server.Flags(), partial, inbox)
    }

    constructor (server: Server)
      requires server.Valid() && server.Flags() == FRESH
      ensures Valid() && this.server == server && Link() == CONNECTED
    {
      this.server := server;
      partial, inbox := [], [];
    }

    /** Write a request, then read one line. */
    method Roundtrip(request: Bytes) returns (reply: Option<Bytes>)
      requires Valid() && server.Load() + |partial| + |request| <= Operations.MAX_ENTRIES
      modifies this, server, server.db.Objects()
      ensures Valid() && fresh(server.db.Objects() - old(server.db.Objects()))
      ensures (Link(), server.db.M, reply) == Exchange(old(Link()), old(server.db.M), request)
    {
      hide ClientSpec.Serve, ReadLine, Consistent, Operations.Stores;
      var out, left := server.Serve(partial + request);
      partial := left;
      inbox := inbox + out;
      var read := ReadLine(inbox);
      match read
      case None => reply := None;
      case Some((line, rest)) =>
        inbox := rest;
        reply := Some(line);
    }

    method SOCK_Set(key: Bytes, val: Bytes) returns (resp: Option<Bytes>)
      requires Valid() && server.Load() + |partial| + |SetRequest(key, val)| <= Operations.MAX_ENTRIES
      modifies this, server, server.db.Objects()
      ensures Valid() && fresh(server.db.Objects() - old(server.db.Objects()))
      ensures (Link(), server.db.M, resp) == SockSet(old(Link()), old(server.db.M), key, val)
    {
      hide Exchange, SetRequest;
      var reply := Roundtrip(SetRequest(key, val));
      if reply == None || |reply.value| == 0 { return None; }
      resp := reply;
    }

    /** The out-pointers start from what they held before; an error leaves them alone. */
    method SOCK_Get(key: Bytes, prior: Answered) returns (err: bool, found: bool, resp: Bytes, nfk: Option<Bytes>)
      requires Valid() && server.Load() + |partial| + |GetRequest(key)| <= Operations.MAX_ENTRIES
      modifies this, server, server.db.Objects()
      ensures Valid() && fresh(server.db.Objects() - old(server.db.Objects()))
      ensures (Link(), server.db.M, if err then None else Some(Answered(found, resp, nfk))) ==
              SockGet(old(Link()), old(server.db.M), key, prior)
    {
      hide Exchange, GetRequest;
      err, found, resp, nfk := false, prior.found, prior.resp, prior.nfk;
      var reply := Roundtrip(GetRequest(key));
      if reply == None {
        err := true;
        return;
      }
      var line := reply.value;
      if |line| > 0 {
        if line[0] == 0 {
          found := false;
          if nfk != None && |line| > 1 {
            nfk := Some(line[1..]);
            return;
          }
        }
        found := true;
        resp := line;
      }
    }
  }

  /** The slice of clients, indexed by id from 1 and doubled when full. */
  class CliHandler {
    var id: nat
    var slots: nat
    var clients: array<Client?>
    ghost var registered: seq<Client>

    ghost predicate Valid()
      reads this, clients
    {
      && id == |registered|
      && 1 <= slots <= clients.Length && id < clients.Length
      && (id > 0 ==> id < slots)
      && (forall i :: 0 < i <= id ==> clients[i] == registered[i - 1])
      && forall i :: (i == 0 || id < i) && 0 <= i < clients.Length ==> clients[i] == null
    }

    constructor ()
      ensures Valid() && registered == [] && fresh(clients)
    {
      clients := new Client?[2](_ => null);
      slots, id, registered := 1, 0, [];
    }

    /** `NewCli` after a successful connect: the client gets the next id, and no earlier one moves. */
    method Register(client: Client)
      requires Valid()
      modifies this, clients
      ensures Valid() && registered == old(registered) + [client]
      ensures id == old(id) + 1 && (clients == old(clients) || fresh(clients))
    {
      id := id + 1;
      ExpandSlice();
      clients[id] := client;
      registered := registered + [client];
    }

    method ExpandSlice()
      requires id == |registered| + 1 && 1 <= slots <= clients.Length && id <= slots
      requires forall i :: 0 < i < id && i < clients.Length ==> clients[i] == registered[i - 1]
      requires forall i :: (i == 0 || id <= i) && 0 <= i < clients.Length ==> clients[i] == null
      modifies this`slots, this`clients, clients
      ensures id < slots <= clients.Length && (clients == old(clients) || fresh(clients))
      ensures slots == if old(slots) > id then old(slots) else 2 * old(slots)
      ensures forall i :: 0 < i < id ==> clients[i] == registered[i - 1]
      ensures forall i :: (i == 0 || id <= i) && 0 <= i < clients.Length ==> clients[i] == null
    {
      if slots > id { return; }
      var newslots := slots * 2;
      var bigger := new Client?[newslots](_ => null);
      var n := 0;
      while n < clients.Length
        invariant 0 <= n <= clients.Length && bigger != clients && clients == old(clients)
        invariant forall i :: 0 <= i < n && i < newslots ==> bigger[i] == old(clients[i])
        invariant forall i :: n <= i < newslots ==> bigger[i] == null
        invariant forall i :: n <= i < clients.Length ==> clients[i] == old(clients[i])
      {
        if clients[n] != null {
          bigger[n] := clients[n];
          clients[n] := null;
        }
        n := n + 1;
      }
      clients := bigger;
      slots := newslots;
    }
  }
}
