/** When the cache agrees with the table it speeds up, and exactly which operations break it. */
module PatScopeCoherence {
  import opened Outcomes
  import opened Text
  import opened EntityTypes
  import opened PatScopes
  import opened PatScopeWildcards

  predicate KnownRow(row: Row) {
    PlainGroup(row.group) && Parse(row.group.entityType).Some?
  }

  /** Rows belong to existing tokens and have colon-free fields and known types. */
  ghost predicate WellFormed(s: State) {
    && (forall id :: id in s.rows ==> s.rows[id].group.patID in s.pats && KnownRow(s.rows[id]))
    && (forall p :: p in s.pats ==> PlainId(s.pats[p]))
  }

  /** A cached key and ID are those of a live row under its token's owner. */
  predicate Backed(s: State, key: string, id: string) {
    id in s.rows && s.rows[id].group.patID in s.pats && key == Key(s.pats[s.rows[id].group.patID], s.rows[id])
  }

  /** Row `id` is `row`, and its token belongs to `user`. */
  predicate Lives(s: State, user: string, row: Row, id: string) {
    id in s.rows && s.rows[id] == row && row.group.patID in s.pats && s.pats[row.group.patID] == user
  }

  ghost predicate Coherent(s: State) {
    forall key :: key in s.cache ==> Backed(s, key, s.cache[key].id)
  }

  /** The request names the owner of the token, with colon-free identifiers. */
  predicate NamesOwner(s: State, user: string, patID: string) {
    PlainId(user) && (patID in s.pats ==> s.pats[patID] == user)
  }

  predicate KnownScope(sc: Scope) {
    sc.id != "" && !sc.entityType.Other? && PlainGroup(RowOf(sc).group)
  }

  /** The requests of the plain cache theorem: every one names the owner; additions do not
      target a group that already has a row with a wildcard; removals that reach the database
      finish their scan. */
  predicate Gentle(s: State, op: Op) {
    match op
    case SavePat(user, _, _) => PlainId(user)
    case AddScope(user, scopes, _, _, _) =>
      forall k :: 0 <= k < |scopes|
          ==> KnownScope(scopes[k]) && NamesOwner(s, user, scopes[k].patID) && !Overlaps(s.rows, scopes[k])
    case CheckScope(user, patID, _, domainID, operation, entityID, _, _, _, _) =>
      NamesOwner(s, user, patID) && PlainId(patID) && PlainId(domainID) && PlainId(operation)
    case RemoveScope(user, ids, delete, keys, stop, _) =>
      && delete != Lost && stop == |keys|
      && forall id :: id in ids && id in s.rows ==> NamesOwner(s, user, s.rows[id].group.patID)
    case RemoveAllPat(user, delete, keys, stop, _) => delete != Lost && stop == |keys|
    case RemovePat(_, _, _) => false
    case RemoveAllScope(_, _, _) => false
    case Tick(_) => true
  }

  /** A wildcard request on a group that already has a row. */
  predicate Overlaps(rows: map<string, Row>, sc: Scope) {
    sc.entityID == ANY_IDS && GroupIds(rows, RowOf(sc).group) != {}
  }

  // ----- CheckScope agrees with the table -----

  lemma StoredNameOfRow(row: Row)
    requires Parse(row.group.entityType).Some?
    ensures ToString(Parse(row.group.entityType).value) == row.group.entityType
  {
  }

  lemma HitIsAllowed(s: State, op: Op)
    requires op.CheckScope? && WellFormed(s) && Coherent(s) && Gentle(s, op) && CacheHit(s, op)
    ensures Allows(s.rows, GroupOf(op), op.entityID)
  {
    ParseOfToString(op.entityType);
    var exact, wild := Row(GroupOf(op), op.entityID), Row(GroupOf(op), ANY_IDS);
    assert PlainGroup(exact.group) && PlainGroup(wild.group);
    var row := if Key(op.user, exact) in s.cache then exact else wild;
    var id := s.cache[Key(op.user, row)].id;
    assert Backed(s, Key(op.user, row), id);
    KeyInjective(op.user, row, s.pats[s.rows[id].group.patID], s.rows[id]);
    assert Grants(s.rows[id], GroupOf(op), op.entityID);
  }

  /** On a coherent state a grant means that the table allows the request, and when no store
      call fails the answer is exactly the table's; the final re-check never rejects. */
  lemma CheckScopeExact(s: State, op: Op)
    requires op.CheckScope? && WellFormed(s) && Coherent(s) && Gentle(s, op) && Possible(s, op)
    ensures Step(s, op).1 == Granted ==> Allows(s.rows, GroupOf(op), op.entityID)
    ensures op.query == Done && op.store == Done ==>
      Step(s, op).1 == if Allows(s.rows, GroupOf(op), op.entityID) then Granted else Denied
  {
    if CacheHit(s, op) {
      HitIsAllowed(s, op);
    }
  }

  // ----- Coherence is kept -----

  /** Caching a live row under its own key keeps coherence. */
  lemma CacheLiveRow(s: State, user: string, row: Row, id: string, expires: Option<nat>)
    requires Coherent(s) && Lives(s, user, row, id)
    ensures Coherent(s.(cache := s.cache[Key(user, row) := Entry(id, expires)]))
  {
    var s' := s.(cache := s.cache[Key(user, row) := Entry(id, expires)]);
    forall key | key in s'.cache ensures Backed(s', key, s'.cache[key].id) {
      assert key in s.cache ==> Backed(s, key, s.cache[key].id);
    }
  }

  lemma CheckScopeCoherent(s: State, op: Op)
    requires op.CheckScope? && WellFormed(s) && Coherent(s) && Gentle(s, op) && Possible(s, op)
    ensures WellFormed(Step(s, op).0) && Coherent(Step(s, op).0)
  {
    var s' := Step(s, op).0;
    if s' != s {
      var row := s.rows[op.pick];
      StoredNameOfRow(row);
      CacheLiveRow(s, op.user, row, op.pick, Expiry(s.now, s.duration));
    }
  }

  /** Without overlap the loop changes no row and rejects or keeps every scope for insertion. */
  lemma {:induction false} ProcessFromInserts(rows: map<string, Row>, scopes: seq<Scope>, steps: seq<Outcome>, i: nat,
      acc: seq<Scope>)
    requires i <= |scopes| && acc == scopes[..i]
    requires forall k :: 0 <= k < |scopes| ==> scopes[k].id != "" && !Overlaps(rows, scopes[k])
    ensures var (rows', r) := ProcessFrom(rows, scopes, steps, i, acc); rows' == rows && (r.Some? ==> r.value == scopes)
    decreases |scopes| - i
  {
    if i < |scopes| {
      assert acc + [scopes[i]] == scopes[..i + 1];
      if Process(rows, scopes[i], At(steps, i)).1 == Insert {
        ProcessFromInserts(rows, scopes, steps, i + 1, acc + [scopes[i]]);
      }
    }
  }

  /** Saving scopes whose rows are live keeps coherence, wherever it stops. */
  lemma {:induction false} SaveFromCoherent(s: State, user: string, scopes: seq<Scope>, saves: seq<Outcome>, i: nat)
    requires i <= |scopes| && Coherent(s)
    requires forall k :: 0 <= k < |scopes| ==> Lives(s, user, RowOf(scopes[k]), scopes[k].id)
    ensures Coherent(s.(cache := SaveFrom(s.cache, Expiry(s.now, s.duration), user, scopes, saves, i).0))
    decreases |scopes| - i
  {
    if i < |scopes| {
      var key := Key(user, RowOf(scopes[i]));
      var s' := if At(saves, i).Applied()
          then s.(cache := s.cache[key := Entry(scopes[i].id, Expiry(s.now, s.duration))]) else s;
      CacheLiveRow(s, user, RowOf(scopes[i]), scopes[i].id, Expiry(s.now, s.duration));
      if At(saves, i) == Done {
        SaveFromCoherent(s', user, scopes, saves, i + 1);
      }
    }
  }

  lemma AddScopeCoherent(s: State, op: Op)
    requires op.AddScope? && WellFormed(s) && Coherent(s) && Gentle(s, op)
    ensures WellFormed(Step(s, op).0) && Coherent(Step(s, op).0)
  {
    var scopes := op.scopes;
    var (rows, stored) := StoreScopes(s, scopes, op.steps, op.insert);
    var s1 := s.(rows := rows);
    StoredRows(s, op);
    forall key | key in s1.cache ensures Backed(s1, key, s1.cache[key].id) {
      assert Backed(s, key, s.cache[key].id);
    }
    if stored {
      SaveFromCoherent(s1, op.user, scopes, op.saves, 0);
    }
  }

  /** What an INSERT of all scopes can leave. */
  predicate InsertShape(pats: map<string, string>, rows: map<string, Row>, scopes: seq<Scope>, rows': map<string, Row>,
      stored: bool) {
    if stored || rows' != rows then CanInsert(pats, rows, scopes) && rows' == InsertAll(rows, scopes) else rows' == rows
  }

  lemma InsertScopesShape(pats: map<string, string>, rows: map<string, Row>, scopes: seq<Scope>, insert: Outcome)
    ensures var (rows', stored) := InsertScopes(pats, rows, scopes, insert);
      InsertShape(pats, rows, scopes, rows', stored)
  {
    if scopes == [] {
      assert InsertAll(rows, scopes) == rows;
    }
  }

  /** The table after an addition without overlap is the old one, possibly with all scopes inserted. */
  lemma StoredShape(s: State, scopes: seq<Scope>, steps: seq<Outcome>, insert: Outcome)
    requires forall k :: 0 <= k < |scopes| ==> scopes[k].id != "" && !Overlaps(s.rows, scopes[k])
    ensures var (rows, stored) := StoreScopes(s, scopes, steps, insert);
      InsertShape(s.pats, s.rows, scopes, rows, stored)
  {
    ProcessFromInserts(s.rows, scopes, steps, 0, []);
    var (rows, r) := ProcessFrom(s.rows, scopes, steps, 0, []);
    if r.Some? {
      assert r.value == scopes;
      assert StoreScopes(s, scopes, steps, insert) == InsertScopes(s.pats, s.rows, scopes, insert);
      InsertScopesShape(s.pats, s.rows, scopes, insert);
    } else {
      assert StoreScopes(s, scopes, steps, insert) == (s.rows, false);
    }
  }

  lemma InsertedRows(s: State, user: string, scopes: seq<Scope>)
    requires WellFormed(s) && CanInsert(s.pats, s.rows, scopes)
    requires forall k :: 0 <= k < |scopes| ==> KnownScope(scopes[k]) && NamesOwner(s, user, scopes[k].patID)
    ensures var s' := s.(rows := InsertAll(s.rows, scopes));
      && WellFormed(s')
      && (forall id :: id in s.rows ==> id in s'.rows && s'.rows[id] == s.rows[id])
      && forall k :: 0 <= k < |scopes| ==> Lives(s', user, RowOf(scopes[k]), scopes[k].id)
  {
    InsertAllRows(s.rows, scopes);
    var s' := s.(rows := InsertAll(s.rows, scopes));
    forall id | id in s'.rows ensures s'.rows[id].group.patID in s'.pats && KnownRow(s'.rows[id]) {
      if id !in s.rows {
        var k :| 0 <= k < |scopes| && scopes[k].id == id;
        ParseOfToString(scopes[k].entityType);
      }
    }
  }

  lemma StoredRows(s: State, op: Op)
    requires op.AddScope? && WellFormed(s) && Gentle(s, op)
    ensures var (rows, stored) := StoreScopes(s, op.scopes, op.steps, op.insert);
      && WellFormed(s.(rows := rows))
      && (forall id :: id in s.rows ==> id in rows && rows[id] == s.rows[id])
      && (stored ==> forall k :: 0 <= k < |op.scopes| ==>
          Lives(s.(rows := rows), op.user, RowOf(op.scopes[k]), op.scopes[k].id))
  {
    StoredShape(s, op.scopes, op.steps, op.insert);
    if CanInsert(s.pats, s.rows, op.scopes) {
      InsertedRows(s, op.user, op.scopes);
    }
  }

  /** An interrupted or finished scan removes just the visited keys of these scopes. */
  lemma {:induction false} EvictFromShrinks(cache: map<string, Entry>, keys: seq<string>, ids: seq<string>, i: nat,
      stop: nat)
    requires i <= stop <= |keys|
    ensures var c := EvictFrom(cache, keys, ids, i, stop);
      && (forall k :: k in c ==> k in cache && c[k] == cache[k])
      && (forall k :: k in c && k in keys[i..stop] ==> c[k].id !in ids)
      && (forall k :: k in cache && (k !in keys[i..stop] || cache[k].id !in ids) ==> k in c)
    decreases stop - i
  {
    if i < stop {
      var cache' := if keys[i] in cache && cache[keys[i]].id in ids then cache - {keys[i]} else cache;
      EvictFromShrinks(cache', keys, ids, i + 1, stop);
      assert keys[i..stop] == [keys[i]] + keys[i + 1..stop];
    }
  }

  lemma {:induction false} DropFromShrinks(cache: map<string, Entry>, keys: seq<string>, i: nat, stop: nat)
    requires i <= stop <= |keys|
    ensures var c := DropFrom(cache, keys, i, stop);
      && (forall k :: k in c ==> k in cache && c[k] == cache[k])
      && (forall k :: k in c <==> k in cache && k !in keys[i..stop])
    decreases stop - i
  {
    if i < stop {
      DropFromShrinks(cache - {keys[i]}, keys, i + 1, stop);
      assert keys[i..stop] == [keys[i]] + keys[i + 1..stop];
    }
  }

  lemma RemoveScopeCoherent(s: State, op: Op)
    requires op.RemoveScope? && WellFormed(s) && Coherent(s) && Gentle(s, op) && Possible(s, op)
    ensures Coherent(Step(s, op).0)
  {
    var s' := Step(s, op).0;
    EvictFromShrinks(s.cache, op.keys, op.ids, 0, op.stop);
    assert op.keys[0..op.stop] == op.keys;
    forall key | key in s'.cache ensures Backed(s', key, s'.cache[key].id) {
      var id := s.cache[key].id;
      assert Backed(s, key, id);
      if id in op.ids {
        KeyHasPrefix(op.user, s.rows[id]);
      }
    }
  }

  lemma RemoveAllPatCoherent(s: State, op: Op)
    requires op.RemoveAllPat? && WellFormed(s) && Coherent(s) && Gentle(s, op) && Possible(s, op)
    ensures Coherent(Step(s, op).0)
  {
    var s' := Step(s, op).0;
    DropFromShrinks(s.cache, op.keys, 0, op.stop);
    assert op.keys[0..op.stop] == op.keys;
    forall key | key in s'.cache ensures Backed(s', key, s'.cache[key].id) {
      var id := s.cache[key].id;
      assert Backed(s, key, id);
      KeyHasPrefix(s.pats[s.rows[id].group.patID], s.rows[id]);
    }
  }

  lemma StepCoherent(s: State, op: Op)
    requires WellFormed(s) && Coherent(s) && Possible(s, op) && Gentle(s, op)
    ensures WellFormed(Step(s, op).0) && Coherent(Step(s, op).0)
  {
    match op
    case AddScope(_, _, _, _, _) => AddScopeCoherent(s, op);
    case CheckScope(_, _, _, _, _, _, _, _, _, _) => CheckScopeCoherent(s, op);
    case RemoveScope(_, _, _, _, _, _) => RemoveScopeCoherent(s, op);
    case RemoveAllPat(_, _, _, _, _) => RemoveAllPatCoherent(s, op);
    case SavePat(_, _, _) => assert forall key :: key in s.cache ==> Backed(s, key, s.cache[key].id);
    case Tick(_) => assert forall key :: key in s.cache ==> Backed(s, key, s.cache[key].id);
  }

  predicate GentleRun(s: State, ops: seq<Op>)
    decreases |ops|
  {
    ops == [] || (Possible(s, ops[0]) && Gentle(s, ops[0]) && GentleRun(Step(s, ops[0]).0, ops[1..]))
  }

  /** Over every gentle run from an empty cache the cache stays coherent, so every permission
      check in it answers as the plain table query would. */
  lemma {:induction false} GentleRunExact(s: State, ops: seq<Op>, n: nat)
    requires WellFormed(s) && Coherent(s) && GentleRun(s, ops)
    requires n < |ops| && ops[n].CheckScope? && ops[n].query == Done && ops[n].store == Done
    ensures ValidRun(s, ops[..n])
    ensures var t := Run(s, ops[..n]);
      Possible(t, ops[n])
      && Step(t, ops[n]).1 == if Allows(t.rows, GroupOf(ops[n]), ops[n].entityID) then Granted else Denied
    decreases n
  {
    if n == 0 {
      CheckScopeExact(s, ops[0]);
    } else {
      StepCoherent(s, ops[0]);
      GentleRunExact(Step(s, ops[0]).0, ops[1..], n - 1);
      assert ops[1..][..n - 1] == ops[..n][1..];
    }
  }

  // ----- Exactly when the other operations keep coherence -----

  /** Some cached permission belongs to the token. */
  ghost predicate Cached(s: State, patID: string) {
    exists key :: key in s.cache && s.cache[key].id in s.rows && s.rows[s.cache[key].id].group.patID == patID
  }

  /** Deleting a token leaves its cached permissions behind. */
  lemma RemovePatCoherentIff(s: State, op: Op)
    requires op.RemovePat? && op.delete.Applied() && op.patID in s.pats && s.pats[op.patID] == op.user
    requires WellFormed(s) && Coherent(s)
    ensures Coherent(Step(s, op).0) <==> !Cached(s, op.patID)
  {
    var s' := Step(s, op).0;
    assert s'.cache == s.cache;
    forall key | key in s.cache
      ensures Backed(s', key, s.cache[key].id) <==> s.rows[s.cache[key].id].group.patID != op.patID
    {
      assert Backed(s, key, s.cache[key].id);
    }
  }

  /** Removing scopes by ID keeps the cache coherent exactly when the rows stay, or the scan, run
      after a deletion that was seen to work, visits every cached entry of these scopes. */
  lemma RemoveScopeCoherentIff(s: State, op: Op)
    requires op.RemoveScope? && Coherent(s) && Possible(s, op)
    ensures Coherent(Step(s, op).0)
       <==> op.delete == Refused
            || forall key :: key in s.cache && s.cache[key].id in op.ids
                ==> op.delete == Done && key in op.keys[..op.stop]
  {
    if op.delete.Applied() {
      var s' := Step(s, op).0;
      EvictFromShrinks(s.cache, op.keys, op.ids, 0, op.stop);
      assert op.keys[0..op.stop] == op.keys[..op.stop];
      forall key | key in s.cache
        ensures Backed(s, key, s.cache[key].id)
        ensures key in s'.cache && s.cache[key].id !in op.ids ==> Backed(s', key, s'.cache[key].id)
        ensures s.cache[key].id in op.ids ==> !Backed(s', key, s.cache[key].id)
        ensures s.cache[key].id in op.ids ==> (key in s'.cache <==> op.delete != Done || key !in op.keys[..op.stop])
      {
        assert Backed(s, key, s.cache[key].id);
      }
    }
  }

  /** Removing all tokens of a user keeps the cache coherent exactly when the rows stay, or the
      scan, run after a deletion that was seen to work, visits every cached entry of the user. */
  lemma RemoveAllPatCoherentIff(s: State, op: Op)
    requires op.RemoveAllPat? && Coherent(s) && Possible(s, op)
    ensures Coherent(Step(s, op).0)
       <==> op.delete == Refused
            || forall key :: key in s.cache && s.pats[s.rows[s.cache[key].id].group.patID] == op.user
                ==> op.delete == Done && key in op.keys[..op.stop]
  {
    if op.delete.Applied() {
      var s' := Step(s, op).0;
      DropFromShrinks(s.cache, op.keys, 0, op.stop);
      assert op.keys[0..op.stop] == op.keys[..op.stop];
      forall key | key in s.cache
        ensures Backed(s, key, s.cache[key].id)
        ensures key in s'.cache <==> op.delete != Done || key !in op.keys[..op.stop]
        ensures Backed(s', key, s.cache[key].id) <==> s.pats[s.rows[s.cache[key].id].group.patID] != op.user
      {
        assert Backed(s, key, s.cache[key].id);
      }
    }
  }

  /** The key that `RemoveAllScope` asks Redis for is never the key of a scope. */
  lemma PurgeMisses(user: string, row: Row, patID: string)
    requires PlainId(user) && PlainId(patID)
    ensures Key(user, row) != "pat::" + patID
  {
    var fields := KeyParts(user, row);
    var rest := Join(fields[1..][1..], ':');
    assert Join(fields[1..], ':') == user + [':'] + rest;
    assert Key(user, row) == "pat" + [':'] + (user + [':'] + rest);
    assert rest == fields[2] + [':'] + Join(fields[1..][1..][1..], ':') && rest[|fields[2]|] == ':';
    if Key(user, row) == "pat::" + patID {
      assert "pat::" + patID == "pat" + [':'] + ("" + [':'] + patID);
      CutInjective("pat", user + [':'] + rest, "pat", "" + [':'] + patID, ':');
      CutInjective(user, rest, "", patID, ':');
      assert false;
    }
  }

  /** Removing all scopes of a token leaves its cached permissions behind. */
  lemma RemoveAllScopeCoherentIff(s: State, op: Op)
    requires op.RemoveAllScope? && op.delete.Applied() && PlainId(op.patID)
    requires WellFormed(s) && Coherent(s)
    ensures Step(s, op).0.cache == s.cache
    ensures Coherent(Step(s, op).0) <==> !Cached(s, op.patID)
  {
    var s' := Step(s, op).0;
    forall key | key in s.cache
      ensures key != "pat::" + op.patID
      ensures Backed(s', key, s.cache[key].id) <==> s.rows[s.cache[key].id].group.patID != op.patID
    {
      var id := s.cache[key].id;
      assert Backed(s, key, id);
      PurgeMisses(s.pats[s.rows[id].group.patID], s.rows[id], op.patID);
    }
    assert s'.cache == s.cache;
  }

  lemma OverlapsSame(rows: map<string, Row>, rows': map<string, Row>, sc: Scope)
    requires rows'.Keys == rows.Keys && forall id :: id in rows ==> rows'[id].group == rows[id].group
    ensures Overlaps(rows', sc) == Overlaps(rows, sc)
  {
    assert GroupIds(rows', RowOf(sc).group) == GroupIds(rows, RowOf(sc).group);
  }

  /** An overlapping scope is never inserted. */
  lemma {:induction false} ProcessFromSkips(rows: map<string, Row>, scopes: seq<Scope>, steps: seq<Outcome>, i: nat,
      acc: seq<Scope>)
    requires i <= |scopes|
    requires forall sc :: sc in acc ==> sc in scopes && !Overlaps(rows, sc)
    ensures var r := ProcessFrom(rows, scopes, steps, i, acc).1;
      r.Some? ==> forall sc :: sc in r.value ==> sc in scopes && !Overlaps(rows, sc)
    decreases |scopes| - i
  {
    if i < |scopes| {
      var (rows', r) := Process(rows, scopes[i], At(steps, i));
      ProcessWidens(rows, scopes[i], At(steps, i));
      forall sc ensures Overlaps(rows', sc) == Overlaps(rows, sc) {
        OverlapsSame(rows, rows', sc);
      }
      if r == Widened {
        ProcessFromSkips(rows', scopes, steps, i + 1, acc);
      } else if r == Insert {
        var acc' := if scopes[i].id != "" then acc + [scopes[i]] else acc;
        assert forall sc :: sc in acc' ==> sc in acc || sc == scopes[i];
        ProcessFromSkips(rows', scopes, steps, i + 1, acc');
      }
    }
  }

  /** A saved key holds the ID of some scope with that key. */
  lemma {:induction false} SaveFromEntry(cache: map<string, Entry>, expires: Option<nat>, user: string,
      scopes: seq<Scope>, saves: seq<Outcome>, i: nat, key: string)
    requires i <= |scopes| && SaveFrom(cache, expires, user, scopes, saves, i).1
    ensures var c := SaveFrom(cache, expires, user, scopes, saves, i).0;
      if exists j :: i <= j < |scopes| && Key(user, RowOf(scopes[j])) == key
      then key in c && exists j :: i <= j < |scopes| && Key(user, RowOf(scopes[j])) == key && c[key].id == scopes[j].id
      else (key in c <==> key in cache) && (key in c ==> c[key] == cache[key])
    decreases |scopes| - i
  {
    if i < |scopes| {
      var cache' := cache[Key(user, RowOf(scopes[i])) := Entry(scopes[i].id, expires)];
      SaveFromEntry(cache', expires, user, scopes, saves, i + 1, key);
    }
  }

  /** A successful `AddScope` keeps coherence exactly when no wildcard of the request targets a
      group that already has a row: widening caches the new ID while the row keeps its old one. */
  lemma AddScopeCoherentIff(s: State, op: Op)
    requires op.AddScope? && WellFormed(s) && Coherent(s) && Step(s, op).1 == Ok
    requires forall k :: 0 <= k < |op.scopes| ==>
      KnownScope(op.scopes[k]) && NamesOwner(s, op.user, op.scopes[k].patID) && op.scopes[k].id !in s.rows
    requires forall j, k :: 0 <= j < k < |op.scopes| ==> op.scopes[j].id != op.scopes[k].id
    ensures Coherent(Step(s, op).0) <==> forall k :: 0 <= k < |op.scopes| ==> !Overlaps(s.rows, op.scopes[k])
  {
    if k :| 0 <= k < |op.scopes| && Overlaps(s.rows, op.scopes[k]) {
      OverlapBreaks(s, op, k);
    } else {
      AddScopeCoherent(s, op);
    }
  }

  lemma OverlapBreaks(s: State, op: Op, k: nat)
    requires op.AddScope? && Step(s, op).1 == Ok && k < |op.scopes| && Overlaps(s.rows, op.scopes[k])
    requires PlainId(op.user)
    requires forall k :: 0 <= k < |op.scopes| ==> KnownScope(op.scopes[k]) && op.scopes[k].id !in s.rows
    requires forall j, k :: 0 <= j < k < |op.scopes| ==> op.scopes[j].id != op.scopes[k].id
    ensures !Coherent(Step(s, op).0)
  {
    var s', scopes := Step(s, op).0, op.scopes;
    var key := Key(op.user, RowOf(scopes[k]));
    SaveFromEntry(s.cache, Expiry(s.now, s.duration), op.user, scopes, op.saves, 0, key);
    var j :| 0 <= j < |scopes| && Key(op.user, RowOf(scopes[j])) == key && s'.cache[key].id == scopes[j].id;
    KeyInjective(op.user, RowOf(scopes[j]), op.user, RowOf(scopes[k]));
    NotInserted(s, scopes, op.steps, op.insert, j);
  }

  lemma NotInserted(s: State, scopes: seq<Scope>, steps: seq<Outcome>, insert: Outcome, j: nat)
    requires j < |scopes| && Overlaps(s.rows, scopes[j]) && scopes[j].id !in s.rows
    requires forall j, k :: 0 <= j < k < |scopes| ==> scopes[j].id != scopes[k].id
    ensures scopes[j].id !in StoreScopes(s, scopes, steps, insert).0
  {
    var (rows, r) := ProcessFrom(s.rows, scopes, steps, 0, []);
    ProcessFromWidens(s.rows, scopes, steps, 0, []);
    ProcessFromSkips(s.rows, scopes, steps, 0, []);
    if r.Some? && scopes[j].id in InsertScopes(s.pats, rows, r.value, insert).0 {
      var k := NewRow(rows, r.value, scopes[j].id);
      assert r.value[k] in r.value;
      var n :| 0 <= n < |scopes| && scopes[n] == r.value[k];
      assert false;
    }
  }

  /** The stale grant in full: widen a group, then remove all its rows by ID with a finished
      scan; the table denies every entity of the group and the check still grants. */
  lemma StaleAfterWidening(s: State, add: Op, remove: Op, check: Op)
    requires add.AddScope? && |add.scopes| == 1 && Overlaps(s.rows, add.scopes[0]) && Step(s, add).1 == Ok
    requires remove.RemoveScope? && remove.delete == Done && Possible(Step(s, add).0, remove)
    requires add.scopes[0].id !in remove.ids && add.scopes[0].id !in s.rows
    requires forall id :: id in GroupIds(s.rows, RowOf(add.scopes[0]).group) ==> id in remove.ids
    requires check.CheckScope? && check.lookup == Done && check.user == add.user
        && GroupOf(check) == RowOf(add.scopes[0]).group
    requires Possible(Step(Step(s, add).0, remove).0, check)
    ensures var t := Step(Step(s, add).0, remove).0;
      Step(t, check).1 == Granted && !Allows(t.rows, GroupOf(check), check.entityID)
  {
    var s1, sc := Step(s, add).0, add.scopes[0];
    var key := Key(add.user, RowOf(sc));
    SaveFromEntry(s.cache, Expiry(s.now, s.duration), add.user, add.scopes, add.saves, 0, key);
    assert s1.cache[key].id == sc.id;
    assert ProcessFrom(s.rows, add.scopes, add.steps, 0, []).1 == Some([]);
    ProcessFromWidens(s.rows, add.scopes, add.steps, 0, []);
    EvictFromShrinks(s1.cache, remove.keys, remove.ids, 0, remove.stop);
  }
}
