/** What each request leaves in the two connection tables, and exactly when it succeeds. */
module ConnectionEffects {
  import opened Outcomes
  import opened Connections

  // ----- Repeats -----

  predicate NoRepeats<T(==)>(s: seq<T>) {
    forall i, j :: 0 <= i < j < |s| ==> s[i] != s[j]
  }

  predicate Disjoint<T(==)>(a: seq<T>, b: seq<T>) {
    forall x :: x in a ==> x !in b
  }

  lemma AppendNoRepeats<T>(a: seq<T>, b: seq<T>)
    ensures NoRepeats(a + b) <==> NoRepeats(a) && NoRepeats(b) && Disjoint(a, b)
  {
    var all := a + b;
    assert forall i :: 0 <= i < |a| ==> all[i] == a[i];
    assert forall j :: 0 <= j < |b| ==> all[|a| + j] == b[j];
    if NoRepeats(all) {
      forall i, j | 0 <= i < j < |b|
        ensures b[i] != b[j]
      {
        assert all[|a| + i] != all[|a| + j];
      }
      forall i, j | 0 <= i < |a| && 0 <= j < |b|
        ensures a[i] != b[j]
      {
        assert all[i] != all[|a| + j];
      }
    } else {
      var i, j :| 0 <= i < j < |all| && all[i] == all[j];
      if i >= |a| {
        assert b[i - |a|] == b[j - |a|];
      } else if j >= |a| {
        assert a[i] == b[j - |a|] && a[i] in a;
      }
    }
  }

  lemma {:induction false} TypesNoRepeats(domain: string, ch: string, cl: string, types: seq<nat>, k: nat)
    requires k <= |types|
    ensures NoRepeats(OfTypes(domain, ch, cl, types, k)) <==> NoRepeats(types[..k])
  {
    if k > 0 {
      TypesNoRepeats(domain, ch, cl, types, k - 1);
      var front, last := OfTypes(domain, ch, cl, types, k - 1), Conn(cl, ch, domain, types[k - 1]);
      assert types[..k] == types[..k - 1] + [types[k - 1]];
      AppendNoRepeats(front, [last]);
      AppendNoRepeats(types[..k - 1], [types[k - 1]]);
      InOfTypes(domain, ch, cl, types, k - 1, last);
    }
  }

  /** Two lists that meet only if `repeated`, and then at `c`. */
  lemma DisjointUnless(front: seq<Conn>, last: seq<Conn>, c: Conn, repeated: bool)
    requires forall x :: x in front && x in last ==> repeated
    requires repeated ==> c in front && c in last
    ensures Disjoint(front, last) <==> !repeated
  {
  }

  lemma ClientMeets(domain: string, ch: string, clients: seq<string>, types: seq<nat>, j: nat, c: Conn)
    requires 0 < j <= |clients|
    ensures c in OfClients(domain, ch, clients, types, j - 1)
        && c in OfTypes(domain, ch, clients[j - 1], types, |types|)
       <==> c.client in clients[..j - 1] && c == Conn(clients[j - 1], ch, domain, c.ctype) && c.ctype in types
  {
    InOfClients(domain, ch, clients, types, j - 1, c);
    InOfTypes(domain, ch, clients[j - 1], types, |types|, c);
    assert types[..|types|] == types;
  }

  lemma ClientShared(domain: string, ch: string, clients: seq<string>, types: seq<nat>, j: nat)
    requires 0 < j <= |clients| && types != []
    ensures Disjoint(OfClients(domain, ch, clients, types, j - 1), OfTypes(domain, ch, clients[j - 1], types, |types|))
       <==> clients[j - 1] !in clients[..j - 1]
  {
    var front := OfClients(domain, ch, clients, types, j - 1);
    var last := OfTypes(domain, ch, clients[j - 1], types, |types|);
    var c, repeated := Conn(clients[j - 1], ch, domain, types[0]), clients[j - 1] in clients[..j - 1];
    forall x | x in front && x in last
      ensures repeated
    {
      ClientMeets(domain, ch, clients, types, j, x);
    }
    ClientMeets(domain, ch, clients, types, j, c);
    DisjointUnless(front, last, c, repeated);
  }

  lemma {:induction false} ClientsNoRepeats(domain: string, ch: string, clients: seq<string>, types: seq<nat>, j: nat)
    requires j <= |clients| && types != []
    ensures NoRepeats(OfClients(domain, ch, clients, types, j))
        <==> j == 0 || (NoRepeats(types) && NoRepeats(clients[..j]))
  {
    if j > 0 {
      ClientsNoRepeats(domain, ch, clients, types, j - 1);
      TypesNoRepeats(domain, ch, clients[j - 1], types, |types|);
      assert types[..|types|] == types && clients[..j] == clients[..j - 1] + [clients[j - 1]];
      AppendNoRepeats(OfClients(domain, ch, clients, types, j - 1),
          OfTypes(domain, ch, clients[j - 1], types, |types|));
      AppendNoRepeats(clients[..j - 1], [clients[j - 1]]);
      ClientShared(domain, ch, clients, types, j);
    }
  }

  lemma ChannelMeets(domain: string, channels: seq<string>, clients: seq<string>, types: seq<nat>, i: nat, c: Conn)
    requires 0 < i <= |channels|
    ensures c in OfChannels(domain, channels, clients, types, i - 1)
            && c in OfClients(domain, channels[i - 1], clients, types, |clients|)
       <==> c.channel in channels[..i - 1] && c == Conn(c.client, channels[i - 1], domain, c.ctype)
            && c.client in clients && c.ctype in types
  {
    InOfChannels(domain, channels, clients, types, i - 1, c);
    InOfClients(domain, channels[i - 1], clients, types, |clients|, c);
    assert clients[..|clients|] == clients;
  }

  lemma ChannelShared(domain: string, channels: seq<string>, clients: seq<string>, types: seq<nat>, i: nat)
    requires 0 < i <= |channels| && types != [] && clients != []
    ensures Disjoint(OfChannels(domain, channels, clients, types, i - 1),
                     OfClients(domain, channels[i - 1], clients, types, |clients|))
       <==> channels[i - 1] !in channels[..i - 1]
  {
    var front := OfChannels(domain, channels, clients, types, i - 1);
    var last := OfClients(domain, channels[i - 1], clients, types, |clients|);
    var c, repeated := Conn(clients[0], channels[i - 1], domain, types[0]), channels[i - 1] in channels[..i - 1];
    forall x | x in front && x in last
      ensures repeated
    {
      ChannelMeets(domain, channels, clients, types, i, x);
    }
    ChannelMeets(domain, channels, clients, types, i, c);
    DisjointUnless(front, last, c, repeated);
  }

  lemma {:induction false} ChannelsNoRepeats(domain: string, channels: seq<string>, clients: seq<string>,
      types: seq<nat>,
                                             i: nat)
    requires i <= |channels| && types != [] && clients != []
    ensures NoRepeats(OfChannels(domain, channels, clients, types, i))
       <==> i == 0 || (NoRepeats(types) && NoRepeats(clients) && NoRepeats(channels[..i]))
  {
    if i > 0 {
      ChannelsNoRepeats(domain, channels, clients, types, i - 1);
      ClientsNoRepeats(domain, channels[i - 1], clients, types, |clients|);
      assert clients[..|clients|] == clients && channels[..i] == channels[..i - 1] + [channels[i - 1]];
      AppendNoRepeats(OfChannels(domain, channels, clients, types, i - 1),
                      OfClients(domain, channels[i - 1], clients, types, |clients|));
      AppendNoRepeats(channels[..i - 1], [channels[i - 1]]);
      ChannelShared(domain, channels, clients, types, i);
    }
  }

  // ----- Connect -----

  /** A successful connection adds every requested combination to both tables, and nothing else. */
  lemma ConnectEffect(s: State, op: Op, c: Conn)
    requires op.Connect? && Step(s, op).1 == Ok
    ensures var t := Step(s, op).0;
      && (c in t.local <==> c in s.local || InRequest(op, c))
      && (c in t.remote <==> c in s.remote || InRequest(op, c))
      && t.channels == s.channels && t.clients == s.clients
  {
    InProduct(op.domain, op.channelIDs, op.clientIDs, op.types, c);
  }

  /** All named entities are known, of the domain, and enabled. */
  predicate Enabled(entities: map<string, Entity>, ids: seq<string>, domain: string) {
    forall i :: 0 <= i < |ids| ==> ids[i] in entities && entities[ids[i]] == Entity(domain, true)
  }

  /** Something is requested, without repeats and for real types only. */
  predicate WellRequested(op: Op)
    requires op.Connect?
  {
    && op.channelIDs != [] && op.clientIDs != [] && op.types != []
    && NoRepeats(op.channelIDs) && NoRepeats(op.clientIDs) && NoRepeats(op.types)
    && forall i :: 0 <= i < |op.types| ==> op.types[i] == 1 || op.types[i] == 2
  }

  ghost predicate NoneConnected(op: Op, table: set<Conn>)
    requires op.Connect?
  {
    forall c :: c in table ==> !InRequest(op, c)
  }

  lemma ListCanBeAdded(op: Op, table: set<Conn>)
    requires op.Connect?
    ensures CanAdd(table, ConnsOf(op)) <==> WellRequested(op) && NoneConnected(op, table)
  {
    var conns := ConnsOf(op);
    forall c
      ensures c in conns <==> InRequest(op, c)
    {
      InProduct(op.domain, op.channelIDs, op.clientIDs, op.types, c);
    }
    assert |conns| > 0 ==> conns[0] in conns;
    if op.channelIDs != [] && op.clientIDs != [] && op.types != [] {
      var first := Conn(op.clientIDs[0], op.channelIDs[0], op.domain, op.types[0]);
      assert InRequest(op, first) && first in conns;
      ChannelsNoRepeats(op.domain, op.channelIDs, op.clientIDs, op.types, |op.channelIDs|);
      assert op.channelIDs[..|op.channelIDs|] == op.channelIDs;
      ListIsTyped(op);
      assert (forall i :: 0 <= i < |conns| ==> conns[i] !in table) <==> NoneConnected(op, table) by {
        assert forall i :: 0 <= i < |conns| ==> conns[i] in conns;
      }
    }
  }

  lemma ListIsTyped(op: Op)
    requires op.Connect? && op.channelIDs != [] && op.clientIDs != []
    ensures (forall i :: 0 <= i < |ConnsOf(op)| ==> 1 <= ConnsOf(op)[i].ctype <= 2)
       <==> forall i :: 0 <= i < |op.types| ==> op.types[i] == 1 || op.types[i] == 2
  {
    var conns := ConnsOf(op);
    forall i | 0 <= i < |conns|
      ensures conns[i].ctype in op.types
    {
      assert conns[i] in conns;
      InProduct(op.domain, op.channelIDs, op.clientIDs, op.types, conns[i]);
    }
    forall i | 0 <= i < |op.types|
      ensures exists k :: 0 <= k < |conns| && conns[k].ctype == op.types[i]
    {
      var c := Conn(op.clientIDs[0], op.channelIDs[0], op.domain, op.types[i]);
      InProduct(op.domain, op.channelIDs, op.clientIDs, op.types, c);
      var k :| 0 <= k < |conns| && conns[k] == c;
    }
  }

  /** Without store failures a connection succeeds exactly when all named entities are known, of
      the domain and enabled, something is requested without repeats and for real types, and
      nothing of it is connected yet in either table. */
  lemma ConnectOkIff(s: State, op: Op)
    requires op.Connect? && op.read == op.far == op.near == Done
    ensures Step(s, op).1 == Ok
       <==> (Enabled(s.channels, op.channelIDs, op.domain) && Enabled(s.clients, op.clientIDs, op.domain)
             && WellRequested(op) && NoneConnected(op, s.local) && NoneConnected(op, s.remote))
    ensures Step(s, op).1 == Failed && NoneConnected(op, s.local) ==> Step(s, op).0 == s
  {
    ListCanBeAdded(op, s.local);
    ListCanBeAdded(op, s.remote);
    assert Eligible(s.channels, op.channelIDs, op.domain, true) <==> Enabled(s.channels, op.channelIDs, op.domain);
    assert Eligible(s.clients, op.clientIDs, op.domain, true) <==> Enabled(s.clients, op.clientIDs, op.domain);
    if c :| c in ConnsOf(op) && c in s.local {
      InProduct(op.domain, op.channelIDs, op.clientIDs, op.types, c);
    }
  }

  // ----- Disconnect -----

  /** A successful disconnection takes every requested combination out of both tables, and keeps
      the rest. */
  lemma DisconnectEffect(s: State, op: Op, c: Conn)
    requires op.Disconnect? && Step(s, op).1 == Ok
    ensures var t := Step(s, op).0;
      && (c in t.local <==> c in s.local && !InRequest(op, c))
      && (c in t.remote <==> c in s.remote && !InRequest(op, c))
      && t.channels == s.channels && t.clients == s.clients
  {
    var conns := ConnsOf(op);
    if InRequest(op, c) {
      RequestRemoved(s, op, c);
    } else {
      LocalRemoved(s.local, conns, 0, false, c);
      RemoteRemoved(s.remote, conns, 0, c);
      OutsideMissed(op, c);
    }
  }

  predicate Known(entities: map<string, Entity>, ids: seq<string>, domain: string) {
    forall i :: 0 <= i < |ids| ==> ids[i] in entities && entities[ids[i]].domain == domain
  }

  /** Without store failures a disconnection succeeds exactly when all named entities are known
      and of the domain, and it names no type but the real ones, or no connection at all. */
  lemma DisconnectOkIff(s: State, op: Op)
    requires op.Disconnect? && op.read == op.far == op.near == Done
    ensures Step(s, op).1 == Ok
       <==> (Known(s.channels, op.channelIDs, op.domain) && Known(s.clients, op.clientIDs, op.domain)
             && (op.channelIDs == [] || op.clientIDs == []
                 || forall i :: 0 <= i < |op.types| ==> op.types[i] == 1 || op.types[i] == 2))
    ensures Step(s, op).1 == Failed ==> Step(s, op).0 == s
  {
    assert Eligible(s.channels, op.channelIDs, op.domain, false) <==> Known(s.channels, op.channelIDs, op.domain);
    assert Eligible(s.clients, op.clientIDs, op.domain, false) <==> Known(s.clients, op.clientIDs, op.domain);
    var conns := ConnsOf(op);
    forall i | 0 <= i < |conns|
      ensures conns[i].ctype in op.types && op.channelIDs != [] && op.clientIDs != []
    {
      assert conns[i] in conns;
      InProduct(op.domain, op.channelIDs, op.clientIDs, op.types, conns[i]);
    }
    if op.channelIDs != [] && op.clientIDs != [] {
      forall i | 0 <= i < |op.types|
        ensures exists k :: 0 <= k < |conns| && conns[k].ctype == op.types[i]
      {
        var c := Conn(op.clientIDs[0], op.channelIDs[0], op.domain, op.types[i]);
        InProduct(op.domain, op.channelIDs, op.clientIDs, op.types, c);
        var k :| 0 <= k < |conns| && conns[k] == c;
      }
    }
  }

  // ----- Removing a channel or a client -----

  /** A successful removal takes the channel and its local rows, and its remote rows if there were
      local ones; all other entities and rows stay. */
  lemma RemoveChannelEffect(s: State, op: Op, c: Conn)
    requires op.RemoveChannel? && Constrained(s) && Step(s, op).1 == Ok
    ensures var t := Step(s, op).0;
      && (c in t.local <==> c in s.local && c.channel != op.id)
      && (c in t.remote <==> c in s.remote && !(c.channel == op.id && exists l :: l in s.local && l.channel == op.id))
      && t.clients == s.clients && t.channels == s.channels - {op.id}
  {
    assert c in s.local ==> ChannelKnown(s, c);
    if l :| l in s.local && l.channel == op.id {
      assert l in OfChannel(s.local, op.id);
    }
  }

  /** The same for a client, with the tables exchanged. */
  lemma DeleteClientEffect(s: State, op: Op, c: Conn)
    requires op.DeleteClient? && Constrained(s) && Step(s, op).1 == Ok
    ensures var t := Step(s, op).0;
      && (c in t.remote <==> c in s.remote && c.client != op.id)
      && (c in t.local <==> c in s.local && !(c.client == op.id && exists l :: l in s.remote && l.client == op.id))
      && t.channels == s.channels && t.clients == s.clients - {op.id}
  {
    assert c in s.remote ==> ClientKnown(s, c);
    if l :| l in s.remote && l.client == op.id {
      assert l in OfClient(s.remote, op.id);
    }
  }

  /** Without store failures both succeed exactly when the entity exists. */
  lemma RemovalOkIff(s: State, op: Op)
    requires op.RemoveChannel? || op.DeleteClient?
    requires op.read == op.purge == op.status == op.rest == op.remove == Done
    ensures Step(s, op).1 == Ok <==> op.id in if op.RemoveChannel? then s.channels else s.clients
  {
  }
}
