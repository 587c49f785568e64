/**
 Connections between clients and channels, held twice: in the channels service's table and in
 the clients service's table. The channels service writes the remote table first, then its own.
 */
module Connections {
  import opened Outcomes

  /** `ctype` is 1 (publish) or 2 (subscribe) in a table; a removal may also say 0, any type. */
  datatype Conn = Conn(client: string, channel: string, domain: string, ctype: nat)

  datatype Entity = Entity(domain: string, enabled: bool)

  /** `local` is the channels service's table and `remote` the clients service's. */
  datatype State = State(channels: map<string, Entity>, clients: map<string, Entity>, local: set<Conn>,
      remote: set<Conn>)

  // ----- The list of requested connections -----

  function OfTypes(domain: string, ch: string, cl: string, types: seq<nat>, k: nat): seq<Conn>
    requires k <= |types|
  {
    if k == 0 then [] else OfTypes(domain, ch, cl, types, k - 1) + [Conn(cl, ch, domain, types[k - 1])]
  }

  function OfClients(domain: string, ch: string, clients: seq<string>, types: seq<nat>, j: nat): seq<Conn>
    requires j <= |clients|
  {
    if j == 0 then []
    else OfClients(domain, ch, clients, types, j - 1) + OfTypes(domain, ch, clients[j - 1], types, |types|)
  }

  function OfChannels(domain: string, channels: seq<string>, clients: seq<string>, types: seq<nat>, i: nat): seq<Conn>
    requires i <= |channels|
  {
    if i == 0 then []
    else
      var last := OfClients(domain, channels[i - 1], clients, types, |clients|);
      OfChannels(domain, channels, clients, types, i - 1) + last
  }

  function Product(domain: string, channels: seq<string>, clients: seq<string>, types: seq<nat>): seq<Conn> {
    OfChannels(domain, channels, clients, types, |channels|)
  }

  /** The three nested loops of `Connect` and `Disconnect`, innermost first. */
  method AppendTypes(conns: seq<Conn>, domain: string, ch: string, cl: string, types: seq<nat>) returns (all: seq<Conn>)
    ensures all == conns + OfTypes(domain, ch, cl, types, |types|)
  {
    all := conns;
    for k := 0 to |types|
      invariant all == conns + OfTypes(domain, ch, cl, types, k)
    {
      all := all + [Conn(cl, ch, domain, types[k])];
    }
  }

  method AppendClients(conns: seq<Conn>, domain: string, ch: string, clients: seq<string>, types: seq<nat>)
      returns (all: seq<Conn>)
    ensures all == conns + OfClients(domain, ch, clients, types, |clients|)
  {
    all := conns;
    for j := 0 to |clients|
      invariant all == conns + OfClients(domain, ch, clients, types, j)
    {
      all := AppendTypes(all, domain, ch, clients[j], types);
    }
  }

  method BuildConnections(domain: string, channels: seq<string>, clients: seq<string>, types: seq<nat>)
      returns (conns: seq<Conn>)
    ensures conns == Product(domain, channels, clients, types)
  {
    conns := [];
    for i := 0 to |channels|
      invariant conns == OfChannels(domain, channels, clients, types, i)
    {
      conns := AppendClients(conns, domain, channels[i], clients, types);
    }
  }

  lemma {:induction false} InOfTypes(domain: string, ch: string, cl: string, types: seq<nat>, k: nat, c: Conn)
    requires k <= |types|
    ensures c in OfTypes(domain, ch, cl, types, k)
        <==> c.channel == ch && c.client == cl && c.domain == domain && c.ctype in types[..k]
  {
    if k > 0 {
      InOfTypes(domain, ch, cl, types, k - 1, c);
      assert types[..k] == types[..k - 1] + [types[k - 1]];
    }
  }

  lemma {:induction false} InOfClients(domain: string, ch: string, clients: seq<string>, types: seq<nat>, j: nat,
      c: Conn)
    requires j <= |clients|
    ensures c in OfClients(domain, ch, clients, types, j)
        <==> c.channel == ch && c.client in clients[..j] && c.domain == domain && c.ctype in types
  {
    if j > 0 {
      InOfClients(domain, ch, clients, types, j - 1, c);
      InOfTypes(domain, ch, clients[j - 1], types, |types|, c);
      assert types[..|types|] == types;
      assert clients[..j] == clients[..j - 1] + [clients[j - 1]];
    }
  }

  lemma {:induction false} InOfChannels(domain: string, channels: seq<string>, clients: seq<string>, types: seq<nat>,
      i: nat, c: Conn)
    requires i <= |channels|
    ensures c in OfChannels(domain, channels, clients, types, i)
       <==> c.channel in channels[..i] && c.client in clients && c.domain == domain && c.ctype in types
  {
    if i > 0 {
      InOfChannels(domain, channels, clients, types, i - 1, c);
      InOfClients(domain, channels[i - 1], clients, types, |clients|, c);
      assert clients[..|clients|] == clients;
      assert channels[..i] == channels[..i - 1] + [channels[i - 1]];
    }
  }

  /** The list holds every combination of the request and nothing else. */
  lemma InProduct(domain: string, channels: seq<string>, clients: seq<string>, types: seq<nat>, c: Conn)
    ensures c in Product(domain, channels, clients, types)
       <==> c.channel in channels && c.client in clients && c.domain == domain && c.ctype in types
  {
    InOfChannels(domain, channels, clients, types, |channels|, c);
    assert channels[..|channels|] == channels;
  }

  // ----- The two tables -----

  /** One INSERT of all rows: primary key, type check and foreign key; an empty list is an error. */
  predicate CanAdd(table: set<Conn>, conns: seq<Conn>) {
    && conns != []
    && (forall i :: 0 <= i < |conns| ==> conns[i] !in table && 1 <= conns[i].ctype <= 2)
    && (forall i, j :: 0 <= i < j < |conns| ==> conns[i] != conns[j])
  }

  predicate ClientKnown(s: State, c: Conn) {
    c.client in s.clients && s.clients[c.client].domain == c.domain
  }

  predicate ChannelKnown(s: State, c: Conn) {
    c.channel in s.channels && s.channels[c.channel].domain == c.domain
  }

  function Rows(conns: seq<Conn>): set<Conn> {
    set c | c in conns
  }

  predicate SamePair(a: Conn, b: Conn) {
    a.client == b.client && a.channel == b.channel && a.domain == b.domain
  }

  /** The clients service's DELETE for one connection; type 0 matches every type. */
  predicate Hits(conn: Conn, row: Conn) {
    SamePair(conn, row) && (conn.ctype > 0 ==> conn.ctype == row.ctype)
  }

  /** Whether the channels service's query text already has the type condition at position `i`:
      the text is extended in the loop and never reset. */
  predicate Typed(conns: seq<Conn>, i: nat)
    requires i <= |conns|
  {
    exists j :: 0 <= j < i && conns[j].ctype > 0
  }

  predicate HitsTyped(conn: Conn, typed: bool, row: Conn) {
    SamePair(conn, row) && (typed ==> conn.ctype == row.ctype)
  }

  function Hit(table: set<Conn>, conn: Conn): set<Conn> {
    set row | row in table && Hits(conn, row)
  }

  function HitTyped(table: set<Conn>, conn: Conn, typed: bool): set<Conn> {
    set row | row in table && HitsTyped(conn, typed, row)
  }

  function RemoteRemoveFrom(table: set<Conn>, conns: seq<Conn>, i: nat): set<Conn>
    requires i <= |conns|
    decreases |conns| - i
  {
    if i == |conns| then table else RemoteRemoveFrom(table - Hit(table, conns[i]), conns, i + 1)
  }

  function LocalRemoveFrom(table: set<Conn>, conns: seq<Conn>, i: nat, typed: bool): set<Conn>
    requires i <= |conns|
    decreases |conns| - i
  {
    if i == |conns| then table
    else
      var typed' := typed || conns[i].ctype > 0;
      LocalRemoveFrom(table - HitTyped(table, conns[i], typed'), conns, i + 1, typed')
  }

  function RemoteRemove(table: set<Conn>, conns: seq<Conn>): set<Conn> {
    RemoteRemoveFrom(table, conns, 0)
  }

  function LocalRemove(table: set<Conn>, conns: seq<Conn>): set<Conn> {
    LocalRemoveFrom(table, conns, 0, false)
  }

  /** The clients repository's loop. */
  method RemoveRemote(table: set<Conn>, conns: seq<Conn>) returns (left: set<Conn>)
    ensures left == RemoteRemove(table, conns)
  {
    left := table;
    for i := 0 to |conns|
      invariant RemoteRemove(table, conns) == RemoteRemoveFrom(left, conns, i)
    {
      var conn := conns[i];
      var gone := if conn.ctype > 0
                  then set row | row in left && SamePair(conn, row) && row.ctype == conn.ctype
                  else set row | row in left && SamePair(conn, row);
      assert gone == Hit(left, conn);
      left := left - gone;
    }
  }

  /** The channels repository's loop, with the query text growing across iterations. */
  method RemoveLocal(table: set<Conn>, conns: seq<Conn>) returns (left: set<Conn>)
    ensures left == LocalRemove(table, conns)
  {
    left := table;
    var typed := false;
    for i := 0 to |conns|
      invariant LocalRemove(table, conns) == LocalRemoveFrom(left, conns, i, typed)
    {
      var conn := conns[i];
      if conn.ctype > 0 { typed := true; }
      var gone := set row | row in left && SamePair(conn, row) && (typed ==> row.ctype == conn.ctype);
      assert gone == HitTyped(left, conn, typed);
      left := left - gone;
    }
  }

  lemma {:induction false} RemoteRemoved(table: set<Conn>, conns: seq<Conn>, i: nat, row: Conn)
    requires i <= |conns|
    ensures row in RemoteRemoveFrom(table, conns, i)
        <==> row in table && forall k :: i <= k < |conns| ==> !Hits(conns[k], row)
    decreases |conns| - i
  {
    if i < |conns| {
      RemoteRemoved(table - Hit(table, conns[i]), conns, i + 1, row);
    }
  }

  lemma {:induction false} LocalRemoved(table: set<Conn>, conns: seq<Conn>, i: nat, typed: bool, row: Conn)
    requires i <= |conns| && typed == Typed(conns, i)
    ensures row in LocalRemoveFrom(table, conns, i, typed)
       <==> row in table && forall k :: i <= k < |conns| ==> !HitsTyped(conns[k], Typed(conns, k + 1), row)
    decreases |conns| - i
  {
    if i < |conns| {
      var typed' := typed || conns[i].ctype > 0;
      assert typed' == Typed(conns, i + 1);
      LocalRemoved(table - HitTyped(table, conns[i], typed'), conns, i + 1, typed', row);
    }
  }

  /** Rows the CHECK constraint allows. */
  ghost predicate ValidTable(table: set<Conn>) {
    forall row :: row in table ==> 1 <= row.ctype <= 2
  }

  /** The growing query removes the row at some position of the list. */
  predicate Reached(conns: seq<Conn>, row: Conn) {
    exists i :: 0 <= i < |conns| && HitsTyped(conns[i], Typed(conns, i + 1), row)
  }

  /** Every pair asked to lose all its types loses them under the growing query as well. */
  predicate Covered(conns: seq<Conn>) {
    forall j, t :: 0 <= j < |conns| && 1 <= t <= 2 && conns[j].ctype == 0 ==> Reached(conns, conns[j].(ctype := t))
  }

  /** The two loops leave the same rows. */
  predicate RemoveAlike(table: set<Conn>, conns: seq<Conn>) {
    LocalRemove(table, conns) == RemoteRemove(table, conns)
  }

  /** Both removals leave the same rows of every valid table exactly when the list is covered. */
  lemma RemovalsAgreeIff(conns: seq<Conn>)
    ensures (forall table :: ValidTable(table) ==> RemoveAlike(table, conns)) <==> Covered(conns)
  {
    if Covered(conns) {
      forall table | ValidTable(table) ensures RemoveAlike(table, conns) {
        RemovalsAgree(table, conns);
      }
    } else {
      var j, row := FindUncovered(conns);
      UncoveredDiffers(conns, j, row);
    }
  }

  lemma FindUncovered(conns: seq<Conn>) returns (j: nat, row: Conn)
    requires !Covered(conns)
    ensures j < |conns| && Hits(conns[j], row) && 1 <= row.ctype <= 2 && !Reached(conns, row)
  {
    var i, t :| 0 <= i < |conns| && 1 <= t <= 2 && conns[i].ctype == 0 && !Reached(conns, conns[i].(ctype := t));
    j, row := i, conns[i].(ctype := t);
  }

  lemma UncoveredDiffers(conns: seq<Conn>, j: nat, row: Conn)
    requires j < |conns| && Hits(conns[j], row) && 1 <= row.ctype <= 2 && !Reached(conns, row)
    ensures ValidTable({row}) && !RemoveAlike({row}, conns)
  {
    LocalRemoved({row}, conns, 0, false, row);
    RemoteRemoved({row}, conns, 0, row);
  }

  lemma RemovalsAgree(table: set<Conn>, conns: seq<Conn>)
    requires ValidTable(table) && Covered(conns)
    ensures LocalRemove(table, conns) == RemoteRemove(table, conns)
  {
    forall row | row in table ensures row in LocalRemove(table, conns) <==> row in RemoteRemove(table, conns) {
      LocalRemoved(table, conns, 0, false, row);
      RemoteRemoved(table, conns, 0, row);
      if k :| 0 <= k < |conns| && Hits(conns[k], row) {
        if conns[k].ctype > 0 {
          assert HitsTyped(conns[k], Typed(conns, k + 1), row);
        } else {
          assert conns[k].(ctype := row.ctype) == row;
        }
      }
      if k :| 0 <= k < |conns| && HitsTyped(conns[k], Typed(conns, k + 1), row) {
        assert Hits(conns[k], row);
      }
    }
    forall row ensures row in LocalRemove(table, conns) ==> row in table {
      LocalRemoved(table, conns, 0, false, row);
    }
    forall row ensures row in RemoteRemove(table, conns) ==> row in table {
      RemoteRemoved(table, conns, 0, row);
    }
  }

  /** Naming only real types, or only "any type", is always covered. */
  lemma UniformCovered(conns: seq<Conn>)
    requires (forall i :: 0 <= i < |conns| ==> conns[i].ctype > 0)
        || (forall i :: 0 <= i < |conns| ==> conns[i].ctype == 0)
    ensures Covered(conns)
  {
    forall j, t | 0 <= j < |conns| && 1 <= t <= 2 && conns[j].ctype == 0
      ensures Reached(conns, conns[j].(ctype := t))
    {
      assert HitsTyped(conns[j], Typed(conns, j + 1), conns[j].(ctype := t));
    }
  }

  // ----- Operations -----

  /** In every operation `read` stands for all the lookups before the first write. */
  datatype Op =
    | Connect(domain: string, channelIDs: seq<string>, clientIDs: seq<string>, types: seq<nat>, read: Outcome,
        far: Outcome, near: Outcome)
    | Disconnect(domain: string, channelIDs: seq<string>, clientIDs: seq<string>, types: seq<nat>, read: Outcome,
        far: Outcome, near: Outcome)
      /** `status`, `rest` and `remove` are the status change, the cache and role cleanup, and the DELETE. */
    | RemoveChannel(id: string, read: Outcome, purge: Outcome, status: Outcome, rest: Outcome, remove: Outcome)
    | DeleteClient(id: string, read: Outcome, purge: Outcome, status: Outcome, rest: Outcome, remove: Outcome)
      /** Other requests: new channels and clients, and status changes. */
    | SaveChannel(id: string, domain: string, enabled: bool)
    | SaveClient(id: string, domain: string, enabled: bool)

  datatype Reply = Ok | Failed

  function ConnsOf(op: Op): seq<Conn>
    requires op.Connect? || op.Disconnect?
  {
    Product(op.domain, op.channelIDs, op.clientIDs, op.types)
  }

  /** All named entities exist in the domain and, for a connection, are enabled. */
  predicate Eligible(entities: map<string, Entity>, ids: seq<string>, domain: string, mustBeEnabled: bool) {
    forall id :: id in ids
        ==> id in entities && entities[id].domain == domain && (mustBeEnabled ==> entities[id].enabled)
  }

  function ConnectStep(s: State, op: Op): (State, Reply)
    requires op.Connect?
  {
    var conns := ConnsOf(op);
    if op.read != Done || !Eligible(s.channels, op.channelIDs, op.domain, true)
        || !Eligible(s.clients, op.clientIDs, op.domain, true) then (s, Failed)
    else if exists c :: c in conns && c in s.local then (s, Failed)
    else if op.far == Refused || !CanAdd(s.remote, conns) then (s, Failed)
    else
      var s1 := s.(remote := s.remote + Rows(conns));
      if op.far == Lost || op.near == Refused || !CanAdd(s.local, conns) then (s1, Failed)
      else (s1.(local := s.local + Rows(conns)), if op.near == Done then Ok else Failed)
  }

  /** The clients service's decoder refuses a list that names anything but a real type. */
  predicate Decodable(conns: seq<Conn>) {
    forall i :: 0 <= i < |conns| ==> 1 <= conns[i].ctype <= 2
  }

  function DisconnectStep(s: State, op: Op): (State, Reply)
    requires op.Disconnect?
  {
    var conns := ConnsOf(op);
    if op.read != Done || !Eligible(s.channels, op.channelIDs, op.domain, false)
        || !Eligible(s.clients, op.clientIDs, op.domain, false) then (s, Failed)
    else if op.far == Refused || !Decodable(conns) then (s, Failed)
    else
      var s1 := s.(remote := RemoteRemove(s.remote, conns));
      if op.far == Lost || op.near == Refused then (s1, Failed)
      else (s1.(local := LocalRemove(s.local, conns)), if op.near == Done then Ok else Failed)
  }

  function OfChannel(table: set<Conn>, id: string): set<Conn> {
    set c | c in table && c.channel == id
  }

  function OfClient(table: set<Conn>, id: string): set<Conn> {
    set c | c in table && c.client == id
  }

  /** Purge the remote rows only if there are local ones; deleting the channel row cascades. */
  function RemoveChannelStep(s: State, op: Op): (State, Reply)
    requires op.RemoveChannel?
  {
    var id := op.id;
    var connected := OfChannel(s.local, id) != {};
    if op.read != Done || (connected && op.purge == Refused) then (s, Failed)
    else
      var s1 := if connected then s.(remote := s.remote - OfChannel(s.remote, id)) else s;
      if (connected && op.purge == Lost) || op.status == Refused || id !in s.channels then (s1, Failed)
      else
        var s2 := s1.(channels := s1.channels[id := s1.channels[id].(enabled := false)]);
        if op.status == Lost || op.rest != Done || op.remove == Refused then (s2, Failed)
        else
          (s2.(channels := s2.channels - {id}, local := set c | c in s2.local
              && !(c.channel == id && c.domain == s2.channels[id].domain)),
           if op.remove == Done then Ok else Failed)
  }

  function DeleteClientStep(s: State, op: Op): (State, Reply)
    requires op.DeleteClient?
  {
    var id := op.id;
    var connected := OfClient(s.remote, id) != {};
    if op.read != Done || (connected && op.purge == Refused) then (s, Failed)
    else
      var s1 := if connected then s.(local := s.local - OfClient(s.local, id)) else s;
      if (connected && op.purge == Lost) || op.status == Refused || id !in s.clients then (s1, Failed)
      else
        var s2 := s1.(clients := s1.clients[id := s1.clients[id].(enabled := false)]);
        if op.status == Lost || op.rest != Done || op.remove == Refused then (s2, Failed)
        else
          (s2.(clients := s2.clients - {id}, remote := set c | c in s2.remote
              && !(c.client == id && c.domain == s2.clients[id].domain)),
           if op.remove == Done then Ok else Failed)
  }

  function Step(s: State, op: Op): (State, Reply) {
    match op
    case Connect(_, _, _, _, _, _, _) => ConnectStep(s, op)
    case Disconnect(_, _, _, _, _, _, _) => DisconnectStep(s, op)
    case RemoveChannel(_, _, _, _, _, _) => RemoveChannelStep(s, op)
    case DeleteClient(_, _, _, _, _, _) => DeleteClientStep(s, op)
    // identifiers keep their domain
    case SaveChannel(id, domain, enabled) =>
      if id in s.channels && s.channels[id].domain != domain then (s, Failed)
      else (s.(channels := s.channels[id := Entity(domain, enabled)]), Ok)
    case SaveClient(id, domain, enabled) =>
      if id in s.clients && s.clients[id].domain != domain then (s, Failed)
      else (s.(clients := s.clients[id := Entity(domain, enabled)]), Ok)
  }

  function Run(s: State, ops: seq<Op>): State
    decreases |ops|
  {
    if ops == [] then s else Run(Step(s, ops[0]).0, ops[1..])
  }

  // ----- What every step keeps -----

  /** Foreign keys and type checks of both tables. */
  ghost predicate Constrained(s: State) {
    && (forall c :: c in s.local ==> ChannelKnown(s, c)) && (forall c :: c in s.remote ==> ClientKnown(s, c))
    && ValidTable(s.local) && ValidTable(s.remote)
  }

  lemma ConnectConstrained(s: State, op: Op)
    requires op.Connect? && Constrained(s)
    ensures Constrained(Step(s, op).0)
  {
    var s' := Step(s, op).0;
    forall c | c in ConnsOf(op)
        ensures c.channel in op.channelIDs && c.client in op.clientIDs && c.domain == op.domain {
      InProduct(op.domain, op.channelIDs, op.clientIDs, op.types, c);
    }
    forall c | c in s'.local ensures ChannelKnown(s', c) && 1 <= c.ctype <= 2 {
    }
    forall c | c in s'.remote ensures ClientKnown(s', c) && 1 <= c.ctype <= 2 {
    }
  }

  lemma DisconnectConstrained(s: State, op: Op)
    requires op.Disconnect? && Constrained(s)
    ensures Constrained(Step(s, op).0)
  {
    RemovalsShrink(s.local, s.remote, ConnsOf(op));
  }

  lemma RemovalsShrink(local: set<Conn>, remote: set<Conn>, conns: seq<Conn>)
    ensures LocalRemove(local, conns) <= local && RemoteRemove(remote, conns) <= remote
  {
    forall c | c in LocalRemove(local, conns) ensures c in local {
      LocalRemoved(local, conns, 0, false, c);
    }
    forall c | c in RemoteRemove(remote, conns) ensures c in remote {
      RemoteRemoved(remote, conns, 0, c);
    }
  }

  lemma StepConstrained(s: State, op: Op)
    requires Constrained(s)
    ensures Constrained(Step(s, op).0)
  {
    match op
    case Connect(_, _, _, _, _, _, _) => ConnectConstrained(s, op);
    case Disconnect(_, _, _, _, _, _, _) => DisconnectConstrained(s, op);
    case _ =>
  }

  // ----- Agreement -----

  ghost predicate Agree(s: State) {
    s.local == s.remote
  }

  /** No store call fails. */
  predicate Sound(op: Op) {
    match op
    case Connect(_, _, _, _, read, far, near) => read == Done && far == Done && near == Done
    case Disconnect(_, _, _, _, read, far, near) => read == Done && far == Done && near == Done
    case RemoveChannel(_, read, purge, status, rest, remove) => read == purge == status == rest == remove == Done
    case DeleteClient(_, read, purge, status, rest, remove) => read == purge == status == rest == remove == Done
    case _ => true
  }

  lemma StepAgrees(s: State, op: Op)
    requires Constrained(s) && Agree(s) && Sound(op)
    ensures Agree(Step(s, op).0)
  {
    match op
    case Disconnect(_, _, _, _, _, _, _) =>
      if Decodable(ConnsOf(op)) {
        UniformCovered(ConnsOf(op));
        RemovalsAgree(s.local, ConnsOf(op));
      }
    case RemoveChannel(id, _, _, _, _, _) =>
      assert id in s.channels ==> forall c :: c in s.local && c.channel == id ==> ChannelKnown(s, c);
      var s' := Step(s, op).0;
      forall c ensures c in s'.local <==> c in s'.remote {
        if c in s.local && c.channel == id { assert c in OfChannel(s.local, id); }
      }
    case DeleteClient(id, _, _, _, _, _) =>
      assert id in s.clients ==> forall c :: c in s.remote && c.client == id ==> ClientKnown(s, c);
      var s' := Step(s, op).0;
      forall c ensures c in s'.local <==> c in s'.remote {
        if c in s.remote && c.client == id { assert c in OfClient(s.remote, id); }
      }
    case _ =>
  }

  /** The two tables stay equal over every run without store failures, whatever the replies. */
  lemma {:induction false} RunAgrees(s: State, ops: seq<Op>)
    requires Constrained(s) && Agree(s) && forall op :: op in ops ==> Sound(op)
    ensures Agree(Run(s, ops))
    decreases |ops|
  {
    if ops != [] {
      StepConstrained(s, ops[0]);
      StepAgrees(s, ops[0]);
      RunAgrees(Step(s, ops[0]).0, ops[1..]);
    }
  }

  // ----- After a failure -----

  /** The row lies in the product of the request. */
  predicate InRequest(op: Op, c: Conn)
    requires op.Connect? || op.Disconnect?
  {
    c.channel in op.channelIDs && c.client in op.clientIDs && c.domain == op.domain && c.ctype in op.types
  }

  /** The tables differ only inside the request. */
  ghost predicate DifferInside(s: State, op: Op)
    requires op.Connect? || op.Disconnect?
  {
    forall c :: !InRequest(op, c) ==> (c in s.local <==> c in s.remote)
  }

  /** A disconnection that both services carry out touches no row outside its product. */
  lemma OutsideMissed(op: Op, c: Conn)
    requires op.Disconnect? && Decodable(ConnsOf(op)) && !InRequest(op, c)
    ensures forall k :: 0 <= k < |ConnsOf(op)| ==>
      !Hits(ConnsOf(op)[k], c) && !HitsTyped(ConnsOf(op)[k], Typed(ConnsOf(op), k + 1), c)
  {
    var conns := ConnsOf(op);
    forall k | 0 <= k < |conns| ensures !Hits(conns[k], c) && !HitsTyped(conns[k], Typed(conns, k + 1), c) {
      assert conns[k] in conns;
      InProduct(op.domain, op.channelIDs, op.clientIDs, op.types, conns[k]);
    }
  }

  /** After a connection or disconnection that failed anywhere, the tables differ only inside
      the product of that request. */
  lemma FailureIsContained(s: State, op: Op)
    requires (op.Connect? || op.Disconnect?) && DifferInside(s, op)
    ensures DifferInside(Step(s, op).0, op)
  {
    var s', conns := Step(s, op).0, ConnsOf(op);
    forall c | !InRequest(op, c) ensures c in s'.local <==> c in s'.remote {
      InProduct(op.domain, op.channelIDs, op.clientIDs, op.types, c);
      if op.Disconnect? && Decodable(conns) {
        LocalRemoved(s.local, conns, 0, false, c);
        RemoteRemoved(s.remote, conns, 0, c);
        OutsideMissed(op, c);
      }
    }
  }

  /** A disconnection that both services carry out takes its whole product out of both tables. */
  lemma RequestRemoved(s: State, op: Op, c: Conn)
    requires op.Disconnect? && Decodable(ConnsOf(op)) && InRequest(op, c)
    ensures c !in LocalRemove(s.local, ConnsOf(op)) && c !in RemoteRemove(s.remote, ConnsOf(op))
  {
    var conns := ConnsOf(op);
    LocalRemoved(s.local, conns, 0, false, c);
    RemoteRemoved(s.remote, conns, 0, c);
    InProduct(op.domain, op.channelIDs, op.clientIDs, op.types, c);
    var k :| 0 <= k < |conns| && conns[k] == c;
    assert Hits(conns[k], c) && HitsTyped(conns[k], Typed(conns, k + 1), c);
  }

  /** A successful disconnection repairs any difference inside its product. */
  lemma DisconnectRepairs(s: State, op: Op)
    requires op.Disconnect? && DifferInside(s, op) && Step(s, op).1 == Ok
    ensures Agree(Step(s, op).0)
  {
    var s', conns := Step(s, op).0, ConnsOf(op);
    forall c ensures c in s'.local <==> c in s'.remote {
      if InRequest(op, c) {
        RequestRemoved(s, op, c);
      } else {
        LocalRemoved(s.local, conns, 0, false, c);
        RemoteRemoved(s.remote, conns, 0, c);
        OutsideMissed(op, c);
      }
    }
  }

  /** A connection that failed half-way, leaving rows in a table, fails whenever it is repeated:
      the local check or the remote insert meets them. */
  lemma HalfConnectSticks(s: State, first: Op, again: Op)
    requires first.Connect? && Step(s, first).1 == Failed && Step(s, first).0 != s
    requires again.Connect? && ConnsOf(again) == ConnsOf(first)
    ensures Step(Step(s, first).0, again) == (Step(s, first).0, Failed)
  {
    var t, conns := Step(s, first).0, ConnsOf(first);
    assert conns[0] in conns && conns[0] in t.remote;
    assert !CanAdd(t.remote, conns);
  }

  /** After a connection that failed, its repetition succeeds exactly when the first left nothing
      behind and the request can succeed at all. */
  lemma RetryConnectIff(s: State, first: Op, again: Op)
    requires first.Connect? && Step(s, first).1 == Failed
    requires again.Connect? && ConnsOf(again) == ConnsOf(first)
    ensures Step(Step(s, first).0, again).1 == Ok <==> Step(s, first).0 == s && Step(s, again).1 == Ok
  {
    if Step(s, first).0 != s {
      HalfConnectSticks(s, first, again);
    }
  }

  /** After a successful removal of a channel no row of it is left in either table exactly when
      the local table had one or the remote table had none: the local test is enough only for
      tables that agree. */
  lemma RemoveChannelCleanIff(s: State, op: Op)
    requires op.RemoveChannel? && Constrained(s) && Step(s, op).1 == Ok
    ensures OfChannel(Step(s, op).0.local, op.id) == {}
    ensures OfChannel(Step(s, op).0.remote, op.id) == {}
        <==> OfChannel(s.local, op.id) != {} || OfChannel(s.remote, op.id) == {}
  {
    var s' := Step(s, op).0;
    forall c | c in s'.local ensures c.channel != op.id {
      assert c in s.local && ChannelKnown(s, c);
    }
    if OfChannel(s.local, op.id) != {} {
      assert forall c :: c in s'.remote ==> c.channel != op.id;
    } else {
      assert s'.remote == s.remote;
    }
  }
}
