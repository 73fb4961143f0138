/** The shared registry of connected clients (registry.rs). */
module ClientRegistry {
  import opened Common

  const RESERVED_SUBDOMAINS: seq<string> := ["dashboard", "connect", "api", "www", "admin"]

  lemma ReservedExactly(name: string)
    ensures name in RESERVED_SUBDOMAINS <==>
            name == "dashboard" || name == "connect" || name == "api" || name == "www" || name == "admin"
  {
  }

  datatype RegisterError = Reserved | AlreadyRegistered

  /** The effect of register on the map, for any kind of entry. */
  function Registering<E>(clients: map<string, E>, id: string, entry: E): Result<map<string, E>, RegisterError> {
    if id in RESERVED_SUBDOMAINS then Failure(Reserved)
    else if id in clients then Failure(AlreadyRegistered)
    else Success(clients[id := entry])
  }

  /** What one client's entry holds; requests share it through an Arc, so it can
      outlive its place in the map. */
  class ClientEntry {
    const clientId: string
    const handle: nat
    const supportsHeartbeat: bool
    var requests: u64
    var activeStreams: u64

    constructor (clientId: string, handle: nat, supportsHeartbeat: bool)
      ensures this.clientId == clientId && this.handle == handle
      ensures this.supportsHeartbeat == supportsHeartbeat
      ensures requests == 0 && activeStreams == 0
    {
      this.clientId, this.handle, this.supportsHeartbeat := clientId, handle, supportsHeartbeat;
      requests, activeStreams := 0, 0;
    }

    function Info(): ClientInfo
      reads this
    {
      ClientInfo(clientId, requests, activeStreams)
    }
  }

  datatype ClientInfo = ClientInfo(clientId: string, totalRequests: u64, activeStreams: u64)

  predicate Listed(infos: seq<ClientInfo>, id: string) {
    exists i :: 0 <= i < |infos| && infos[i].clientId == id
  }

  class Registry {
    var clients: map<string, ClientEntry>

    /** Every entry is filed under its own name, and no reserved name is filed. */
    ghost predicate Valid()
      reads this
    {
      forall id :: id in clients ==> clients[id].clientId == id && id !in RESERVED_SUBDOMAINS
    }

    constructor ()
      ensures Valid() && clients == map[]
    {
      clients := map[];
    }

    method Register(id: string, handle: nat, supportsHeartbeat: bool)
      returns (r: Result<ClientEntry, RegisterError>)
      requires Valid()
      modifies this
      ensures Valid()
      ensures r.Failure? <==> id in RESERVED_SUBDOMAINS || id in old(clients)
      ensures r.Failure? ==> clients == old(clients)
      ensures r == Failure(Reserved) <==> id in RESERVED_SUBDOMAINS
      ensures r.Success? ==> fresh(r.value) && Registering(old(clients), id, r.value) == Success(clients)
      ensures r.Success? ==> r.value.clientId == id && r.value.handle == handle
      ensures r.Success? ==> r.value.supportsHeartbeat == supportsHeartbeat
      ensures r.Success? ==> r.value.requests == 0 && r.value.activeStreams == 0
    {
      if id in RESERVED_SUBDOMAINS {
        return Failure(Reserved);
      }
      var entry := new ClientEntry(id, handle, supportsHeartbeat);
      if id in clients {
        return Failure(AlreadyRegistered);
      }
      clients := clients[id := entry];
      return Success(entry);
    }

    method Unregister(id: string)
      requires Valid()
      modifies this
      ensures Valid() && clients == old(clients) - {id}
    {
      clients := clients - {id};
    }

    method Get(id: string) returns (e: Option<ClientEntry>)
      requires Valid()
      ensures e.Some? <==> id in clients
      ensures e.Some? ==> e.value == clients[id] && e.value.clientId == id
    {
      if id in clients {
        return Some(clients[id]);
      }
      return None;
    }

    /** The connected clients with their figures, each exactly once, in no particular order. */
    method List() returns (infos: seq<ClientInfo>)
      requires Valid()
      ensures forall i :: 0 <= i < |infos| ==>
                infos[i].clientId in clients && infos[i] == clients[infos[i].clientId].Info()
      ensures forall id :: id in clients <==> Listed(infos, id)
      ensures |infos| == |clients|
    {
      infos := [];
      var rest := clients.Keys;
      while rest != {}
        invariant rest <= clients.Keys
        invariant forall i :: 0 <= i < |infos| ==>
                    infos[i].clientId in clients.Keys - rest && infos[i] == clients[infos[i].clientId].Info()
        invariant forall name :: name in clients.Keys - rest ==> Listed(infos, name)
        invariant |infos| + |rest| == |clients.Keys|
        decreases |rest|
      {
        var id :| id in rest;
        ghost var before, waiting := infos, rest;
        infos, rest := infos + [clients[id].Info()], rest - {id};
        forall name | name in clients.Keys - rest ensures Listed(infos, name) {
          if name == id {
            assert infos[|before|].clientId == id;
          } else {
            assert name in clients.Keys - waiting;
            assert Listed(before, name);
            var i :| 0 <= i < |before| && before[i].clientId == name;
            assert infos[i].clientId == name;
          }
        }
      }
      assert clients.Keys - rest == clients.Keys;
    }
  }
}
