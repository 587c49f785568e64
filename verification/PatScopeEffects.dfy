/** What each request leaves in the scope table, read off its fields, and what the table always keeps. */
module PatScopeEffects {
  import opened Outcomes
  import opened EntityTypes
  import opened PatScopes
  import opened PatScopeWildcards
  import opened PatScopeCoherence

  // ----- Adding -----

  /** The scope, field by field, permits the operation on the entity. */
  predicate Permits(sc: Scope, g: Group, entityID: string) {
    && sc.patID == g.patID && ToString(sc.entityType) == g.entityType
    && sc.domainID == g.domainID && sc.operation == g.operation
    && (sc.entityID == entityID || sc.entityID == "*")
  }

  ghost predicate Requested(scopes: seq<Scope>, g: Group, entityID: string) {
    exists k :: 0 <= k < |scopes| && Permits(scopes[k], g, entityID)
  }

  lemma PermitsGrants(sc: Scope, g: Group, entityID: string)
    ensures Permits(sc, g, entityID) <==> Grants(RowOf(sc), g, entityID)
  {
  }

  /** The row was there before, or is that of a requested scope. */
  ghost predicate FromRequest(rows: map<string, Row>, scopes: seq<Scope>, id: string, row: Row) {
    (id in rows && rows[id] == row) || exists k :: 0 <= k < |scopes| && RowOf(scopes[k]) == row
  }

  lemma ProcessRows(rows: map<string, Row>, sc: Scope, o: Outcome, id: string)
    requires id in Process(rows, sc, o).0
    ensures id in rows && (Process(rows, sc, o).0[id] == rows[id] || Process(rows, sc, o).0[id] == RowOf(sc))
  {
  }

  lemma {:induction false} ProcessFromRows(rows: map<string, Row>, scopes: seq<Scope>, steps: seq<Outcome>, i: nat,
                                           acc: seq<Scope>, id: string)
    requires i <= |scopes| && id in ProcessFrom(rows, scopes, steps, i, acc).0
    ensures FromRequest(rows, scopes, id, ProcessFrom(rows, scopes, steps, i, acc).0[id])
    decreases |scopes| - i
  {
    if i < |scopes| {
      var (rows', r) := Process(rows, scopes[i], At(steps, i));
      if r != Rejected {
        var acc' := if r == Insert && scopes[i].id != "" then acc + [scopes[i]] else acc;
        ProcessFromRows(rows', scopes, steps, i + 1, acc', id);
      }
      if id in rows' {
        ProcessRows(rows, scopes[i], At(steps, i), id);
      }
    }
  }

  lemma {:induction false} ProcessFromKept(rows: map<string, Row>, scopes: seq<Scope>, steps: seq<Outcome>, i: nat,
                                           acc: seq<Scope>)
    requires i <= |scopes| && forall sc :: sc in acc ==> sc in scopes
    ensures var r := ProcessFrom(rows, scopes, steps, i, acc).1;
      r.Some? ==> forall sc :: sc in r.value ==> sc in scopes
    decreases |scopes| - i
  {
    if i < |scopes| {
      var (rows', r) := Process(rows, scopes[i], At(steps, i));
      var acc' := if r == Insert && scopes[i].id != "" then acc + [scopes[i]] else acc;
      assert forall sc :: sc in acc' ==> sc in acc || sc == scopes[i];
      if r != Rejected {
        ProcessFromKept(rows', scopes, steps, i + 1, acc');
      }
    }
  }

  lemma StoredFromRequest(s: State, scopes: seq<Scope>, steps: seq<Outcome>, insert: Outcome, id: string)
    requires id in StoreScopes(s, scopes, steps, insert).0
    ensures FromRequest(s.rows, scopes, id, StoreScopes(s, scopes, steps, insert).0[id])
  {
    var (rows, r) := ProcessFrom(s.rows, scopes, steps, 0, []);
    ProcessFromKept(s.rows, scopes, steps, 0, []);
    if id in rows {
      ProcessFromRows(s.rows, scopes, steps, 0, [], id);
      if r.Some? && CanInsert(s.pats, rows, r.value) {
        InsertAllRows(rows, r.value);
      }
    } else {
      var k := NewRow(rows, r.value, id);
      assert r.value[k] in r.value && r.value[k] in scopes;
    }
  }

  /** Adding scopes, whatever fails, allows nothing new but what was requested. */
  lemma AddScopeAdds(s: State, op: Op, g: Group, entityID: string)
    requires op.AddScope? && Allows(Step(s, op).0.rows, g, entityID)
    ensures Allows(s.rows, g, entityID) || Requested(op.scopes, g, entityID)
  {
    var rows := StoreScopes(s, op.scopes, op.steps, op.insert).0;
    var id :| id in rows && Grants(rows[id], g, entityID);
    StoredFromRequest(s, op.scopes, op.steps, op.insert, id);
    if !(id in s.rows && s.rows[id] == rows[id]) {
      var k :| 0 <= k < |op.scopes| && RowOf(op.scopes[k]) == rows[id];
      PermitsGrants(op.scopes[k], g, entityID);
    }
  }

  /** A successful addition allows exactly what was allowed and what was requested. */
  lemma AddScopeExact(s: State, op: Op, g: Group, entityID: string)
    requires op.AddScope? && Step(s, op).1 == Ok && forall sc :: sc in op.scopes ==> sc.id != ""
    ensures Allows(Step(s, op).0.rows, g, entityID)
        <==> Allows(s.rows, g, entityID) || Requested(op.scopes, g, entityID)
    ensures Step(s, op).0.pats == s.pats
  {
    var rows := StoreScopes(s, op.scopes, op.steps, op.insert).0;
    if Allows(rows, g, entityID) {
      AddScopeAdds(s, op, g, entityID);
    }
    if Allows(s.rows, g, entityID) {
      AddScopeMonotone(s, op, g, entityID);
    }
    if k :| 0 <= k < |op.scopes| && Permits(op.scopes[k], g, entityID) {
      StoreScopesPlaces(s, op.scopes, op.steps, op.insert, k);
      PermitsGrants(op.scopes[k], g, entityID);
      var id :| id in rows && rows[id] == RowOf(op.scopes[k]);
    }
  }

  /** Without failures, and with no wildcard meeting an occupied group, an addition succeeds exactly
      when no group has the wildcard, IDs and rows are new, and the tokens exist. */
  lemma AddScopeOkIff(s: State, op: Op)
    requires op.AddScope? && op.steps == [] && op.insert == Done && op.saves == []
    requires forall k :: 0 <= k < |op.scopes| ==> op.scopes[k].id != "" && !Overlaps(s.rows, op.scopes[k])
    ensures Step(s, op).1 == Ok
       <==> ((forall k :: 0 <= k < |op.scopes| ==>
                op.scopes[k].id !in s.rows && op.scopes[k].patID in s.pats
                && forall id :: id in s.rows ==>
                     s.rows[id] != RowOf(op.scopes[k]) && s.rows[id] != Row(RowOf(op.scopes[k]).group, "*"))
             && (forall j, k :: 0 <= j < k < |op.scopes| ==>
                   op.scopes[j].id != op.scopes[k].id && RowOf(op.scopes[j]) != RowOf(op.scopes[k])))
  {
    ProcessFromInserts(s.rows, op.scopes, [], 0, []);
    InsertsUnlessCovered(s.rows, op.scopes, 0, []);
    SaveAllDone(s.cache, Expiry(s.now, s.duration), op.user, op.scopes, 0);
  }

  lemma {:induction false} InsertsUnlessCovered(rows: map<string, Row>, scopes: seq<Scope>, i: nat, acc: seq<Scope>)
    requires i <= |scopes| && acc == scopes[..i]
    requires forall k :: 0 <= k < |scopes| ==> scopes[k].id != "" && !Overlaps(rows, scopes[k])
    ensures ProcessFrom(rows, scopes, [], i, acc).1.Some?
       <==> forall k :: i <= k < |scopes| ==> !HasWildcard(rows, RowOf(scopes[k]).group)
    decreases |scopes| - i
  {
    if i < |scopes| {
      assert acc + [scopes[i]] == scopes[..i + 1];
      if !HasWildcard(rows, RowOf(scopes[i]).group) {
        InsertsUnlessCovered(rows, scopes, i + 1, acc + [scopes[i]]);
      }
    }
  }

  lemma {:induction false} SaveAllDone(cache: map<string, Entry>, expires: Option<nat>, user: string,
      scopes: seq<Scope>, i: nat)
    requires i <= |scopes|
    ensures SaveFrom(cache, expires, user, scopes, [], i).1
    decreases |scopes| - i
  {
    if i < |scopes| {
      SaveAllDone(cache[Key(user, RowOf(scopes[i])) := Entry(scopes[i].id, expires)], expires, user, scopes, i + 1);
    }
  }

  lemma WidenStores(s: State, sc: Scope, insert: Outcome)
    requires Overlaps(s.rows, sc)
    ensures var g := RowOf(sc).group;
      StoreScopes(s, [sc], [], insert)
      == if !HasWildcard(s.rows, g) && |GroupIds(s.rows, g)| == 1 then (Widen(s.rows, g), true) else (s.rows, false)
  {
    var (rows, r) := Process(s.rows, sc, Done);
    if r == Widened {
      assert ProcessFrom(rows, [sc], [], 1, []) == (rows, Some([]));
    }
  }

  lemma OnlyOne(ids: set<string>, id: string)
    requires id in ids && |ids| == 1
    ensures ids == {id}
  {
    assert |ids - {id}| == 0;
    assert forall x :: x in ids && x != id ==> x in ids - {id};
  }

  /** Without failures, one wildcard for an occupied group succeeds exactly when the group has one
      row and it is not the wildcard; that row, under its old ID, becomes the wildcard. */
  lemma WidenOkIff(s: State, op: Op, sc: Scope)
    requires op.AddScope? && op.scopes == [sc] && op.steps == [] && op.saves == [] && Overlaps(s.rows, sc)
    ensures Step(s, op).1 == Ok
        <==> exists id :: GroupIds(s.rows, RowOf(sc).group) == {id} && s.rows[id].entityID != "*"
    ensures Step(s, op).0.rows.Keys == s.rows.Keys
    ensures forall id :: Step(s, op).1 == Ok && id in s.rows ==>
              Step(s, op).0.rows[id] == if s.rows[id].group == RowOf(sc).group then RowOf(sc) else s.rows[id]
  {
    var g := RowOf(sc).group;
    var ids := GroupIds(s.rows, g);
    WidenStores(s, sc, op.insert);
    SaveAllDone(s.cache, Expiry(s.now, s.duration), op.user, op.scopes, 0);
    var id :| id in ids;
    assert s.rows[id] == Row(g, s.rows[id].entityID);
    if |ids| == 1 {
      OnlyOne(ids, id);
      assert HasWildcard(s.rows, g) ==> s.rows[id].entityID == "*" by {
        assert forall w :: w in s.rows && s.rows[w] == Row(g, ANY_IDS) ==> w in ids;
      }
    } else {
      assert forall other :: ids == {other} ==> |ids| == 1;
    }
  }

  // ----- Removing -----

  ghost predicate Owned(pats: map<string, string>, rows: map<string, Row>) {
    forall id :: id in rows ==> rows[id].group.patID in pats
  }

  /** Every scope row belongs to a token. */
  ghost predicate RowsOwned(s: State) {
    Owned(s.pats, s.rows)
  }

  /** When rows only disappear, and those of a group do so together, so does what they allow. */
  lemma AllowsFewer(rows: map<string, Row>, rows': map<string, Row>, g: Group, entityID: string, gone: bool)
    requires forall id :: id in rows' ==> id in rows && rows'[id] == rows[id]
    requires forall id :: id in rows && rows[id].group == g ==> (id in rows' <==> !gone)
    ensures Allows(rows', g, entityID) <==> Allows(rows, g, entityID) && !gone
  {
    if id :| id in rows && Grants(rows[id], g, entityID) {
      assert !gone ==> id in rows' && Grants(rows'[id], g, entityID);
    }
  }

  /** Deleting a token that took effect takes the token and all it allowed, and nothing else; a
      deletion under another user, or without effect, changes nothing. */
  lemma RemovePatEffect(s: State, op: Op, g: Group, entityID: string)
    requires op.RemovePat? && RowsOwned(s)
    ensures var t, gone := Step(s, op).0, op.delete != Refused && op.patID in s.pats && s.pats[op.patID] == op.user;
      && (Allows(t.rows, g, entityID) <==> Allows(s.rows, g, entityID) && !(gone && g.patID == op.patID))
      && (forall id :: id in t.rows <==> id in s.rows && !(gone && s.rows[id].group.patID == op.patID))
      && (forall id :: id in t.rows ==> t.rows[id] == s.rows[id])
      && (forall p :: p in t.pats <==> p in s.pats && !(gone && p == op.patID))
      && (forall p :: p in t.pats ==> t.pats[p] == s.pats[p])
      && t.cache == s.cache && t.now == s.now
    ensures Step(s, op).1 == Ok <==> op.delete == Done
  {
    var gone := op.delete != Refused && op.patID in s.pats && s.pats[op.patID] == op.user;
    AllowsFewer(s.rows, Step(s, op).0.rows, g, entityID, gone && g.patID == op.patID);
  }

  /** The same for all tokens of a user. */
  lemma RemoveAllPatEffect(s: State, op: Op, g: Group, entityID: string)
    requires op.RemoveAllPat? && Possible(s, op) && RowsOwned(s)
    ensures var t, done := Step(s, op).0, op.delete != Refused;
      && (Allows(t.rows, g, entityID)
          <==> Allows(s.rows, g, entityID) && !(done && g.patID in s.pats && s.pats[g.patID] == op.user))
      && (forall id :: id in t.rows <==> id in s.rows && !(done && s.pats[s.rows[id].group.patID] == op.user))
      && (forall id :: id in t.rows ==> t.rows[id] == s.rows[id])
      && (forall p :: p in t.pats <==> p in s.pats && !(done && s.pats[p] == op.user))
      && (forall p :: p in t.pats ==> t.pats[p] == s.pats[p])
      && t.now == s.now
  {
    var gone := op.delete != Refused && g.patID in s.pats && s.pats[g.patID] == op.user;
    AllowsFewer(s.rows, Step(s, op).0.rows, g, entityID, gone);
  }

  /** Removing all scopes of a token takes all it allowed, and keeps the token and other rows. */
  lemma RemoveAllScopeEffect(s: State, op: Op, g: Group, entityID: string)
    requires op.RemoveAllScope?
    ensures var t, done := Step(s, op).0, op.delete != Refused;
      && (Allows(t.rows, g, entityID) <==> Allows(s.rows, g, entityID) && !(done && g.patID == op.patID))
      && (forall id :: id in t.rows <==> id in s.rows && !(done && s.rows[id].group.patID == op.patID))
      && (forall id :: id in t.rows ==> t.rows[id] == s.rows[id])
      && t.pats == s.pats && t.now == s.now
  {
    AllowsFewer(s.rows, Step(s, op).0.rows, g, entityID, op.delete != Refused && g.patID == op.patID);
  }

  /** Removing scopes by ID takes exactly the named rows, cached or not; it succeeds exactly when
      one of them existed, the deletion was seen to work and the scan ended well. */
  lemma RemoveScopeEffect(s: State, op: Op)
    requires op.RemoveScope? && Possible(s, op)
    ensures var t := Step(s, op).0;
      && (forall id :: id in t.rows <==> id in s.rows && !(op.delete != Refused && id in op.ids))
      && (forall id :: id in t.rows ==> t.rows[id] == s.rows[id])
      && t.pats == s.pats && t.now == s.now
    ensures Step(s, op).1 == Ok
       <==> op.delete == Done && op.stop == |op.keys| && op.clean && exists id :: id in op.ids && id in s.rows
  {
  }

  /** The removals by ID and of all tokens take just the visited keys, by ID only those of the
      named scopes, and only after a deletion that was seen to work. */
  lemma RemovalCache(s: State, op: Op, key: string)
    requires (op.RemoveScope? || op.RemoveAllPat?) && Possible(s, op)
    ensures var t := Step(s, op).0;
      && (key in t.cache ==> key in s.cache && t.cache[key] == s.cache[key])
      && (key in s.cache && op.RemoveAllPat? ==> (key !in t.cache <==> op.delete == Done && key in op.keys[..op.stop]))
      && (key in s.cache && op.RemoveScope? ==>
            (key !in t.cache
             <==> op.delete == Done && key in op.keys[..op.stop] && s.cache[key].id in op.ids
                  && exists id :: id in op.ids && id in s.rows))
    ensures op.RemoveAllPat? ==> (Step(s, op).1 == Ok <==> op.delete == Done && op.stop == |op.keys| && op.clean)
  {
    assert op.keys[0..op.stop] == op.keys[..op.stop];
    if op.RemoveScope? {
      var gone := set id | id in op.ids && id in s.rows;
      assert gone != {} <==> exists id :: id in op.ids && id in s.rows by {
        if id :| id in op.ids && id in s.rows {
          assert id in gone;
        }
      }
      EvictFromShrinks(s.cache, op.keys, op.ids, 0, op.stop);
    } else {
      DropFromShrinks(s.cache, op.keys, 0, op.stop);
    }
  }

  /** A new token is recorded under its user, and an existing one is never taken over. */
  lemma SavePatEffect(s: State, op: Op)
    requires op.SavePat?
    ensures var t := Step(s, op).0;
      && t == s.(pats := t.pats)
      && t.pats == if op.save != Refused && op.patID !in s.pats then s.pats[op.patID := op.user] else s.pats
    ensures Step(s, op).1 == Ok <==> op.save == Done && op.patID !in s.pats
  {
  }

  /** Time takes exactly the keys whose expiry it reaches. */
  lemma TickEffect(s: State, op: Op, key: string)
    requires op.Tick?
    ensures var t := Step(s, op).0;
      && t.now == s.now + op.ticks && t.rows == s.rows && t.pats == s.pats && t.duration == s.duration
      && (key in t.cache <==> key in s.cache && (s.cache[key].expires.Some? ==> t.now < s.cache[key].expires.value))
      && (key in t.cache ==> t.cache[key] == s.cache[key])
  {
  }

  /** A check leaves the table alone. After one that asked the table and stored its answer, the
      same check is granted from the cache alone until one cache duration later. */
  lemma CheckIsCached(s: State, op: Op, tick: Op, again: Op)
    requires op.CheckScope? && Possible(s, op) && Step(s, op).1 == Granted && !CacheHit(s, op)
    requires tick.Tick? && (s.duration == 0 || tick.ticks < s.duration)
    requires again == op.(lookup := Done, query := Refused)
    ensures Step(s, op).0.rows == s.rows && Step(s, op).0.pats == s.pats
    ensures var t := Step(Step(s, op).0, tick).0; Possible(t, again) && Step(t, again).1 == Granted
  {
    var row := s.rows[op.pick];
    StoredNameOfRow(row);
    var key := Key(op.user, row);
    var s' := Step(s, op).0;
    assert key in s'.cache && s'.cache[key].expires == Expiry(s.now, s.duration);
    TickEffect(s', tick, key);
    assert row == Row(GroupOf(op), op.entityID) || row == Row(GroupOf(op), ANY_IDS);
    assert GroupOf(again) == GroupOf(op);
  }

  // ----- What every step keeps -----

  /** No two rows are the same. */
  ghost predicate Unique(rows: map<string, Row>) {
    forall i, j :: i in rows && j in rows && rows[i] == rows[j] ==> i == j
  }

  lemma ProcessUnique(rows: map<string, Row>, sc: Scope, o: Outcome)
    requires Unique(rows)
    ensures Unique(Process(rows, sc, o).0)
  {
    var g := RowOf(sc).group;
    var rows' := Process(rows, sc, o).0;
    if rows' != rows {
      forall i, j | i in rows' && j in rows' && rows'[i] == rows'[j]
        ensures i == j
      {
        assert i in rows && j in rows && rows'[i].group == rows[i].group && rows'[j].group == rows[j].group;
        if rows[i].group == g && i != j {
          assert i in GroupIds(rows, g) && j in GroupIds(rows, g);
          CardAtLeastTwo(GroupIds(rows, g), i, j);
        }
      }
    }
  }

  lemma {:induction false} ProcessFromUnique(rows: map<string, Row>, scopes: seq<Scope>, steps: seq<Outcome>, i: nat,
                                             acc: seq<Scope>)
    requires i <= |scopes| && Unique(rows)
    ensures Unique(ProcessFrom(rows, scopes, steps, i, acc).0)
    decreases |scopes| - i
  {
    if i < |scopes| {
      ProcessUnique(rows, scopes[i], At(steps, i));
      var (rows', r) := Process(rows, scopes[i], At(steps, i));
      if r != Rejected {
        var acc' := if r == Insert && scopes[i].id != "" then acc + [scopes[i]] else acc;
        ProcessFromUnique(rows', scopes, steps, i + 1, acc');
      }
    }
  }

  lemma InsertUnique(pats: map<string, string>, rows: map<string, Row>, newScopes: seq<Scope>)
    requires Unique(rows) && CanInsert(pats, rows, newScopes)
    ensures Unique(InsertAll(rows, newScopes))
  {
    var rows' := InsertAll(rows, newScopes);
    InsertAllRows(rows, newScopes);
    forall i, j | i in rows' && j in rows' && rows'[i] == rows'[j]
      ensures i == j
    {
      if i !in rows {
        var k := NewRow(rows, newScopes, i);
        if j !in rows {
          var m := NewRow(rows, newScopes, j);
        }
      } else if j !in rows {
        var m := NewRow(rows, newScopes, j);
      }
    }
  }

  lemma StoreScopesUnique(s: State, scopes: seq<Scope>, steps: seq<Outcome>, insert: Outcome)
    requires Unique(s.rows)
    ensures Unique(StoreScopes(s, scopes, steps, insert).0)
  {
    ProcessFromUnique(s.rows, scopes, steps, 0, []);
    var (rows, r) := ProcessFrom(s.rows, scopes, steps, 0, []);
    if r.Some? && CanInsert(s.pats, rows, r.value) {
      InsertUnique(s.pats, rows, r.value);
    }
  }

  lemma InsertOwned(pats: map<string, string>, rows: map<string, Row>, newScopes: seq<Scope>)
    requires CanInsert(pats, rows, newScopes) && Owned(pats, rows)
    ensures Owned(pats, InsertAll(rows, newScopes))
  {
    var rows' := InsertAll(rows, newScopes);
    InsertAllRows(rows, newScopes);
    forall id | id in rows'
      ensures rows'[id].group.patID in pats
    {
      if id !in rows {
        var k := NewRow(rows, newScopes, id);
      }
    }
  }

  lemma StoreScopesOwned(s: State, scopes: seq<Scope>, steps: seq<Outcome>, insert: Outcome)
    requires RowsOwned(s)
    ensures Owned(s.pats, StoreScopes(s, scopes, steps, insert).0)
  {
    ProcessFromWidens(s.rows, scopes, steps, 0, []);
    var (rows, r) := ProcessFrom(s.rows, scopes, steps, 0, []);
    assert Owned(s.pats, rows);
    if r.Some? && CanInsert(s.pats, rows, r.value) {
      InsertOwned(s.pats, rows, r.value);
    }
  }

  lemma StepKept(s: State, op: Op)
    requires Possible(s, op) && RowsOwned(s) && Unique(s.rows)
    ensures RowsOwned(Step(s, op).0) && Unique(Step(s, op).0.rows)
  {
    match op
    case AddScope(_, scopes, steps, insert, _) =>
      StoreScopesUnique(s, scopes, steps, insert);
      StoreScopesOwned(s, scopes, steps, insert);
    case RemovePat(_, _, _) => RemovePatEffect(s, op, Group("", "", "", ""), "");
    case RemoveAllPat(_, _, _, _, _) => RemoveAllPatEffect(s, op, Group("", "", "", ""), "");
    case RemoveAllScope(_, _, _) => RemoveAllScopeEffect(s, op, Group("", "", "", ""), "");
    case RemoveScope(_, _, _, _, _, _) => RemoveScopeEffect(s, op);
    case _ =>
  }

  /** Over any run with any failures every scope row belongs to a token and no two rows are the
      same. */
  lemma {:induction false} RunKept(s: State, ops: seq<Op>)
    requires RowsOwned(s) && Unique(s.rows) && ValidRun(s, ops)
    ensures RowsOwned(Run(s, ops)) && Unique(Run(s, ops).rows)
    decreases |ops|
  {
    if ops != [] {
      StepKept(s, ops[0]);
      RunKept(Step(s, ops[0]).0, ops[1..]);
    }
  }

  /** The final re-check accepts a scope of the same type and operation, for this domain or for
      none, that permits the entity. */
  lemma AuthorizedPermits(sc: Scope, entityType: EntityType, domainID: string, operation: string, entityID: string)
    ensures Authorized(sc, entityType, domainID, operation, entityID)
       <==> (sc.entityType == entityType && (sc.domainID == "" || sc.domainID == domainID)
             && Permits(sc, Group(sc.patID, ToString(entityType), sc.domainID, operation), entityID))
  {
  }
}
