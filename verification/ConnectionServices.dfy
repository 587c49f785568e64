/** The channels and clients services over their two tables, write by write. */
module ConnectionServices {
  import opened Outcomes
  import opened Connections

  class Services {
    var channels: map<string, Entity>
    var clients: map<string, Entity>
    var local: set<Conn>
    var remote: set<Conn>

    constructor ()
      ensures Abs() == State(map[], map[], {}, {})
    {
      channels, clients, local, remote := map[], map[], {}, {};
    }

    ghost function Abs(): State
      reads this
    {
      State(channels, clients, local, remote)
    }

    /** The entity checks at the head of `Connect` and `Disconnect`. */
    method CheckEntities(entities: map<string, Entity>, ids: seq<string>, domain: string, mustBeEnabled: bool)
        returns (ok: bool)
      ensures ok == Eligible(entities, ids, domain, mustBeEnabled)
    {
      for i := 0 to |ids|
        invariant forall k :: 0 <= k < i ==>
          ids[k] in entities && entities[ids[k]].domain == domain && (mustBeEnabled ==> entities[ids[k]].enabled)
      {
        if ids[i] !in entities { return false; }
        if mustBeEnabled && !entities[ids[i]].enabled { return false; }
        if entities[ids[i]].domain != domain { return false; }
      }
      return true;
    }

    method ConnectAll(domain: string, channelIDs: seq<string>, clientIDs: seq<string>, types: seq<nat>, read: Outcome,
        far: Outcome, near: Outcome)
      returns (reply: Reply)
      modifies this`local, this`remote
      ensures (Abs(), reply) == Step(old(Abs()), Connect(domain, channelIDs, clientIDs, types, read, far, near))
    {
      if read != Done { return Failed; }
      var ok := CheckEntities(channels, channelIDs, domain, true);
      if !ok { return Failed; }
      ok := CheckEntities(clients, clientIDs, domain, true);
      if !ok { return Failed; }
      var conns := BuildConnections(domain, channelIDs, clientIDs, types);
      for i := 0 to |conns|
        invariant forall k :: 0 <= k < i ==> conns[k] !in local
      {
        if conns[i] in local {
          assert conns[i] in conns;
          return Failed;
        }
      }
      if far == Refused || !CanAdd(remote, conns) { return Failed; }
      remote := remote + Rows(conns);
      if far == Lost || near == Refused || !CanAdd(local, conns) { return Failed; }
      local := local + Rows(conns);
      return if near == Done then Ok else Failed;
    }

    method DisconnectAll(domain: string, channelIDs: seq<string>, clientIDs: seq<string>, types: seq<nat>,
        read: Outcome, far: Outcome, near: Outcome)
      returns (reply: Reply)
      modifies this`local, this`remote
      ensures (Abs(), reply) == Step(old(Abs()), Disconnect(domain, channelIDs, clientIDs, types, read, far, near))
    {
      if read != Done { return Failed; }
      var ok := CheckEntities(channels, channelIDs, domain, false);
      if !ok { return Failed; }
      ok := CheckEntities(clients, clientIDs, domain, false);
      if !ok { return Failed; }
      var conns := BuildConnections(domain, channelIDs, clientIDs, types);
      if far == Refused { return Failed; }
      for i := 0 to |conns|
        invariant forall k :: 0 <= k < i ==> 1 <= conns[k].ctype <= 2
      {
        if conns[i].ctype < 1 || conns[i].ctype > 2 { return Failed; }
      }
      remote := RemoveRemote(remote, conns);
      if far == Lost || near == Refused { return Failed; }
      local := RemoveLocal(local, conns);
      return if near == Done then Ok else Failed;
    }

    method RemoveChannelByID(id: string, read: Outcome, purge: Outcome, status: Outcome, rest: Outcome,
        remove: Outcome) returns (reply: Reply)
      modifies this
      ensures (Abs(), reply) == Step(old(Abs()), RemoveChannel(id, read, purge, status, rest, remove))
    {
      if read != Done { return Failed; }
      if OfChannel(local, id) != {} {
        if purge == Refused { return Failed; }
        remote := remote - OfChannel(remote, id);
        if purge == Lost { return Failed; }
      }
      if status == Refused || id !in channels { return Failed; }
      channels := channels[id := channels[id].(enabled := false)];
      if status == Lost || rest != Done || remove == Refused { return Failed; }
      var domain := channels[id].domain;
      channels := channels - {id};
      local := set c | c in local && !(c.channel == id && c.domain == domain);
      return if remove == Done then Ok else Failed;
    }

    method DeleteClientByID(id: string, read: Outcome, purge: Outcome, status: Outcome, rest: Outcome,
        remove: Outcome) returns (reply: Reply)
      modifies this
      ensures (Abs(), reply) == Step(old(Abs()), DeleteClient(id, read, purge, status, rest, remove))
    {
      if read != Done { return Failed; }
      if OfClient(remote, id) != {} {
        if purge == Refused { return Failed; }
        local := local - OfClient(local, id);
        if purge == Lost { return Failed; }
      }
      if status == Refused || id !in clients { return Failed; }
      clients := clients[id := clients[id].(enabled := false)];
      if status == Lost || rest != Done || remove == Refused { return Failed; }
      var domain := clients[id].domain;
      clients := clients - {id};
      remote := set c | c in remote && !(c.client == id && c.domain == domain);
      return if remove == Done then Ok else Failed;
    }
  }
}
