/** How stale a grant can be, with no restriction on the operations or their failures. */
module PatScopeStaleness {
  import opened Outcomes
  import opened EntityTypes
  import opened PatScopes
  import opened PatScopeWildcards
  import opened PatScopeCoherence

  /** All states of a run, oldest first, after the states `h`. */
  ghost function History(h: seq<State>, ops: seq<Op>): (all: seq<State>)
    requires h != [] && ValidRun(h[|h| - 1], ops)
    ensures h <= all
    decreases |ops|
  {
    if ops == [] then h else History(h + [Step(h[|h| - 1], ops[0]).0], ops[1..])
  }

  /** Which users and rows the requests may name. */
  type Admits = (string, Row) -> bool

  /** Only requests about admitted users and rows; scope IDs are assigned. */
  predicate Within(admits: Admits, op: Op) {
    match op
    case AddScope(user, scopes, _, _, _) => forall k :: 0 <= k < |scopes| ==>
        scopes[k].id != "" && admits(user, RowOf(scopes[k]))
    case CheckScope(user, _, _, _, _, entityID, _, _, _, _) =>
      admits(user, Row(GroupOf(op), entityID)) && admits(user, Row(GroupOf(op), ANY_IDS))
    case _ => true
  }

  /** The row of some scope. */
  ghost predicate OfScope(row: Row) {
    exists et :: row.group.entityType == ToString(et)
  }

  ghost predicate Cacheable(admits: Admits, user: string, row: Row) {
    admits(user, row) && OfScope(row)
  }

  /** The table held a row with this key, for some user. */
  ghost predicate HeldKey(admits: Admits, rows: map<string, Row>, key: string) {
    exists user, id :: id in rows && Cacheable(admits, user, rows[id]) && key == Key(user, rows[id])
  }

  /** The key's row was in the table at most one cache duration before the key expires. */
  ghost predicate Recent(admits: Admits, h: seq<State>, d: nat, key: string, e: Entry) {
    e.expires.Some? && exists m :: 0 <= m < |h| && e.expires.value <= h[m].now + d && HeldKey(admits, h[m].rows, key)
  }

  ghost predicate Bounded(admits: Admits, h: seq<State>, d: nat) {
    && h != [] && d > 0
    && (forall m :: 0 <= m < |h| ==> h[m].now <= h[|h| - 1].now)
    && var s := h[|h| - 1];
       && s.duration == d
       && forall key :: key in s.cache ==> Recent(admits, h, d, key, s.cache[key]) && s.now < s.cache[key].expires.value
  }

  // ----- One step -----

  lemma RecentExtends(admits: Admits, h: seq<State>, s: State, d: nat, key: string, e: Entry)
    requires Recent(admits, h, d, key, e)
    ensures Recent(admits, h + [s], d, key, e)
  {
    var m :| 0 <= m < |h| && e.expires.value <= h[m].now + d && HeldKey(admits, h[m].rows, key);
    assert (h + [s])[m] == h[m];
  }

  lemma RecentNow(admits: Admits, h: seq<State>, s: State, d: nat, key: string, id: string)
    requires HeldKey(admits, s.rows, key)
    ensures Recent(admits, h + [s], d, key, Entry(id, Some(s.now + d)))
  {
    assert (h + [s])[|h|] == s;
  }

  /** Each key after saving is an old one or one of the scopes', with the new expiry. */
  lemma {:induction false} SaveFromKeys(cache: map<string, Entry>, expires: Option<nat>, user: string,
      scopes: seq<Scope>, saves: seq<Outcome>, i: nat, key: string)
    requires i <= |scopes| && key in SaveFrom(cache, expires, user, scopes, saves, i).0
    ensures var e := SaveFrom(cache, expires, user, scopes, saves, i).0[key];
      (key in cache && e == cache[key])
          || (e.expires == expires && exists j :: 0 <= j < |scopes| && key == Key(user, RowOf(scopes[j])))
    decreases |scopes| - i
  {
    if i < |scopes| {
      var cache' := if At(saves, i).Applied() then cache[Key(user, RowOf(scopes[i])) := Entry(scopes[i].id, expires)]
          else cache;
      if At(saves, i) == Done {
        SaveFromKeys(cache', expires, user, scopes, saves, i + 1, key);
      }
    }
  }

  /** The cache after a step: each key is an old live one, or backed by the new table. */
  ghost predicate CacheStep(admits: Admits, s: State, s': State, key: string) {
    key in s'.cache ==>
      || (key in s.cache && s'.cache[key] == s.cache[key]
          && (s.cache[key].expires.Some? ==> s'.now < s.cache[key].expires.value || s'.now == s.now))
      || (s'.now == s.now && s'.cache[key].expires == Expiry(s.now, s.duration) && HeldKey(admits, s'.rows, key))
  }

  lemma AddScopeCacheStep(admits: Admits, s: State, op: Op, key: string)
    requires op.AddScope? && Within(admits, op)
    ensures CacheStep(admits, s, Step(s, op).0, key)
  {
    var s' := Step(s, op).0;
    var (rows, stored) := StoreScopes(s, op.scopes, op.steps, op.insert);
    if stored && key in s'.cache {
      SaveFromKeys(s.cache, Expiry(s.now, s.duration), op.user, op.scopes, op.saves, 0, key);
      if j :| 0 <= j < |op.scopes| && key == Key(op.user, RowOf(op.scopes[j])) {
        StoreScopesPlaces(s, op.scopes, op.steps, op.insert, j);
        var id :| id in rows && rows[id] == RowOf(op.scopes[j]);
        assert RowOf(op.scopes[j]).group.entityType == ToString(op.scopes[j].entityType);
        assert Cacheable(admits, op.user, rows[id]);
        assert HeldKey(admits, s'.rows, key);
      }
    }
  }

  lemma CheckScopeCacheStep(admits: Admits, s: State, op: Op, key: string)
    requires op.CheckScope? && Within(admits, op) && Possible(s, op)
    ensures CacheStep(admits, s, Step(s, op).0, key)
  {
    if Step(s, op).0 != s {
      var row := s.rows[op.pick];
      StoredNameOfRow(row);
      assert row == Row(GroupOf(op), op.entityID) || row == Row(GroupOf(op), ANY_IDS);
      assert Cacheable(admits, op.user, s.rows[op.pick]);
      assert HeldKey(admits, s.rows, Key(op.user, row));
    }
  }

  lemma StepCache(admits: Admits, s: State, op: Op, key: string)
    requires Within(admits, op) && Possible(s, op)
    ensures CacheStep(admits, s, Step(s, op).0, key)
  {
    match op
    case AddScope(_, _, _, _, _) => AddScopeCacheStep(admits, s, op, key);
    case CheckScope(_, _, _, _, _, _, _, _, _, _) => CheckScopeCacheStep(admits, s, op, key);
    case RemoveScope(_, ids, _, keys, stop, _) => EvictFromShrinks(s.cache, keys, ids, 0, stop);
    case RemoveAllPat(_, _, keys, stop, _) => DropFromShrinks(s.cache, keys, 0, stop);
    case _ =>
  }

  lemma StepClock(s: State, op: Op)
    requires Possible(s, op)
    ensures Step(s, op).0.duration == s.duration && s.now <= Step(s, op).0.now
  {
  }

  lemma StepBounded(admits: Admits, h: seq<State>, d: nat, op: Op)
    requires Bounded(admits, h, d) && Within(admits, op) && Possible(h[|h| - 1], op)
    ensures Bounded(admits, h + [Step(h[|h| - 1], op).0], d)
  {
    var s := h[|h| - 1];
    var s' := Step(s, op).0;
    StepClock(s, op);
    forall key | key in s'.cache
        ensures Recent(admits, h + [s'], d, key, s'.cache[key]) && s'.now < s'.cache[key].expires.value {
      StepCache(admits, s, op, key);
      if key in s.cache && s'.cache[key] == s.cache[key] {
        RecentExtends(admits, h, s', d, key, s.cache[key]);
      } else {
        RecentNow(admits, h, s', d, key, s'.cache[key].id);
      }
    }
  }

  lemma {:induction false} RunBounded(admits: Admits, h: seq<State>, d: nat, ops: seq<Op>)
    requires Bounded(admits, h, d) && ValidRun(h[|h| - 1], ops)
    requires forall op :: op in ops ==> Within(admits, op)
    ensures Bounded(admits, History(h, ops), d) && History(h, ops)[|History(h, ops)| - 1] == Run(h[|h| - 1], ops)
    decreases |ops|
  {
    if ops != [] {
      var s' := Step(h[|h| - 1], ops[0]).0;
      assert ops[0] in ops;
      StepBounded(admits, h, d, ops[0]);
      assert (h + [s'])[|h + [s']| - 1] == s';
      RunBounded(admits, h + [s'], d, ops[1..]);
    }
  }

  // ----- The bound -----

  /** The two keys a check looks up. */
  predicate LooksUp(check: Op, key: string)
    requires check.CheckScope?
  {
    key == Key(check.user, Row(GroupOf(check), check.entityID)) || key == Key(check.user, Row(GroupOf(check), ANY_IDS))
  }

  /** No admitted row has a key the check looks up unless the row grants the check. */
  ghost predicate Unambiguous(admits: Admits, check: Op)
    requires check.CheckScope?
  {
    forall user, row :: Cacheable(admits, user, row) && LooksUp(check, Key(user, row))
        ==> Grants(row, GroupOf(check), check.entityID)
  }

  /** At some moment of the last `d` ticks of the history the table allowed the request. */
  ghost predicate AllowedRecently(h: seq<State>, d: nat, check: Op)
    requires h != [] && check.CheckScope?
  {
    exists m :: 0 <= m < |h| && h[m].now <= h[|h| - 1].now <= h[m].now + d
        && Allows(h[m].rows, GroupOf(check), check.entityID)
  }

  lemma HitIsRecent(admits: Admits, h: seq<State>, d: nat, check: Op, key: string)
    requires Bounded(admits, h, d) && check.CheckScope? && Unambiguous(admits, check) && LooksUp(check, key)
        && key in h[|h| - 1].cache
    ensures AllowedRecently(h, d, check)
  {
    var s := h[|h| - 1];
    assert Recent(admits, h, d, key, s.cache[key]);
    var m :| 0 <= m < |h| && s.cache[key].expires.value <= h[m].now + d && HeldKey(admits, h[m].rows, key);
    var user, id :| id in h[m].rows && Cacheable(admits, user, h[m].rows[id]) && key == Key(user, h[m].rows[id]);
    assert Grants(h[m].rows[id], GroupOf(check), check.entityID);
  }

  lemma GrantIsRecent(admits: Admits, h: seq<State>, d: nat, check: Op)
    requires Bounded(admits, h, d) && check.CheckScope? && (check.lookup != Done || Unambiguous(admits, check))
    requires Possible(h[|h| - 1], check) && Step(h[|h| - 1], check).1 == Granted
    ensures AllowedRecently(h, d, check)
  {
    var s := h[|h| - 1];
    if CacheHit(s, check) {
      var exact, wild := Key(check.user, Row(GroupOf(check), check.entityID)),
          Key(check.user, Row(GroupOf(check), ANY_IDS));
      HitIsRecent(admits, h, d, check, if exact in s.cache then exact else wild);
    } else {
      assert Allows(h[|h| - 1].rows, GroupOf(check), check.entityID);
    }
  }

  /** A run of admitted requests from an empty cache of positive duration, through deletions,
      widening and partly failed requests, after which the check can be made. */
  ghost predicate Leads(admits: Admits, s: State, ops: seq<Op>, check: Op) {
    && s.cache == map[] && s.duration > 0 && ValidRun(s, ops) && (forall op :: op in ops ==> Within(admits, op))
    && Possible(Run(s, ops), check)
  }

  /** After any such run, if the check's keys are unambiguous, a check that grants at time t does
      so because at some moment of the last `duration` ticks the table held a row allowing it. */
  lemma StalenessBound(admits: Admits, s: State, ops: seq<Op>, check: Op)
    requires check.CheckScope? && Leads(admits, s, ops, check) && Step(Run(s, ops), check).1 == Granted
    requires check.lookup != Done || Unambiguous(admits, check)
    ensures AllowedRecently(History([s], ops), s.duration, check)
  {
    var h := [s];
    assert Bounded(admits, h, s.duration) && h[|h| - 1] == s;
    RunBounded(admits, h, s.duration, ops);
    GrantIsRecent(admits, History([s], ops), s.duration, check);
  }

  // ----- Exactly when it holds -----

  lemma InsertFirst(pats: map<string, string>, sc: Scope)
    requires sc.patID in pats
    ensures InsertScopes(pats, map[], [sc], Done) == (map[sc.id := RowOf(sc)], true)
  {
    var rows: map<string, Row> := map[];
    assert CanInsert(pats, rows, [sc]);
    InsertAllRows(rows, [sc]);
    assert [sc][0] == sc;
    assert InsertAll(rows, [sc]) == map[sc.id := RowOf(sc)];
  }

  lemma FirstScope(s: State, sc: Scope)
    requires s.rows == map[] && sc.id != "" && sc.patID in s.pats
    ensures StoreScopes(s, [sc], [], Done) == (map[sc.id := RowOf(sc)], true)
  {
    assert Process(s.rows, sc, Done) == (s.rows, Insert);
    assert [] + [sc] == [sc];
    assert ProcessFrom(s.rows, [sc], [], 0, []) == ProcessFrom(s.rows, [sc], [], 1, [sc]);
    InsertFirst(s.pats, sc);
  }

  /** If a scope's key is one the check looks up and the scope does not grant the check, adding
      the scope to an empty table grants the check, which no table allowed. */
  lemma CollisionGrants(s: State, user: string, sc: Scope, check: Op)
    requires s.rows == map[] && s.cache == map[] && sc.id != "" && sc.patID in s.pats
    requires check.CheckScope? && check.lookup == Done && !Grants(RowOf(sc), GroupOf(check), check.entityID)
    requires LooksUp(check, Key(user, RowOf(sc)))
    ensures var t := Step(s, AddScope(user, [sc], [], Done, [])).0;
      && t.now == s.now && Possible(t, check) && Step(t, check).1 == Granted
      && !Allows(s.rows, GroupOf(check), check.entityID) && !Allows(t.rows, GroupOf(check), check.entityID)
  {
    FirstScope(s, sc);
    SaveFromEntry(s.cache, Expiry(s.now, s.duration), user, [sc], [], 0, Key(user, RowOf(sc)));
    assert Key(user, RowOf([sc][0])) == Key(user, RowOf(sc));
  }

  /** An ambiguous key makes a run that breaks the bound. */
  lemma AmbiguityBreaks(admits: Admits, check: Op) returns (s: State, ops: seq<Op>)
    requires check.CheckScope? && check.lookup == Done && !Unambiguous(admits, check)
    ensures Leads(admits, s, ops, check) && Step(Run(s, ops), check).1 == Granted
    ensures !AllowedRecently(History([s], ops), s.duration, check)
  {
    var user, row :| Cacheable(admits, user, row) && LooksUp(check, Key(user, row))
        && !Grants(row, GroupOf(check), check.entityID);
    var et :| row.group.entityType == ToString(et);
    var sc := Scope("1", row.group.patID, row.group.domainID, et, row.entityID, row.group.operation);
    assert RowOf(sc) == row;
    s := State(0, 1, map[sc.patID := user], map[], map[]);
    var add := AddScope(user, [sc], [], Done, []);
    ops := [add];
    assert Within(admits, add);
    CollisionGrants(s, user, sc, check);
    var t := Step(s, add).0;
    assert ops[1..] == [] && Run(s, ops) == t;
    assert [s] + [t] == [s, t] && History([s], ops) == [s, t];
  }

  ghost predicate BoundHolds(admits: Admits, check: Op)
    requires check.CheckScope?
  {
    forall s, ops :: Leads(admits, s, ops, check) && Step(Run(s, ops), check).1 == Granted
        ==> AllowedRecently(History([s], ops), s.duration, check)
  }

  /** The bound holds for a check after all runs exactly when the cache cannot be read, or no
      admitted row has a key the check looks up without granting it. */
  lemma StalenessIff(admits: Admits, check: Op)
    requires check.CheckScope?
    ensures BoundHolds(admits, check) <==> check.lookup != Done || Unambiguous(admits, check)
  {
    if check.lookup != Done || Unambiguous(admits, check) {
      forall s, ops | Leads(admits, s, ops, check) && Step(Run(s, ops), check).1 == Granted
        ensures AllowedRecently(History([s], ops), s.duration, check)
      {
        StalenessBound(admits, s, ops, check);
      }
    } else {
      var s, ops := AmbiguityBreaks(admits, check);
    }
  }

  /** With no colon in users, tokens, domains and operations every check is unambiguous, whatever
      the entity IDs. */
  lemma PlainUnambiguous(admits: Admits, check: Op)
    requires check.CheckScope? && PlainId(check.user) && PlainGroup(GroupOf(check))
    requires forall user, row :: admits(user, row) ==> PlainId(user) && PlainGroup(row.group)
    ensures Unambiguous(admits, check)
  {
    forall user, row | Cacheable(admits, user, row) && LooksUp(check, Key(user, row))
      ensures Grants(row, GroupOf(check), check.entityID)
    {
      if Key(user, row) == Key(check.user, Row(GroupOf(check), check.entityID)) {
        KeyInjective(user, row, check.user, Row(GroupOf(check), check.entityID));
      } else {
        KeyInjective(user, row, check.user, Row(GroupOf(check), ANY_IDS));
      }
    }
  }

  /** Validation accepts any operation on clients: a scope for `view:a` on entity `b` grants
      `view` on entity `a:b`, for every user, token and domain. */
  lemma CollisionExample(user: string, patID: string, domainID: string)
    ensures var sc := Scope("1", patID, domainID, Clients, "b", "view:a");
      var check := CheckScope(user, patID, Clients, domainID, "view", "a:b", Done, Done, "", Done);
      var t := Step(State(0, 1, map[patID := user], map[], map[]), AddScope(user, [sc], [], Done, [])).0;
      Possible(t, check) && Step(t, check).1 == Granted && !Allows(t.rows, GroupOf(check), "a:b")
  {
    var sc := Scope("1", patID, domainID, Clients, "b", "view:a");
    var check := CheckScope(user, patID, Clients, domainID, "view", "a:b", Done, Done, "", Done);
    KeyCollision(user, patID, "clients", domainID, "view", "a", "b");
    assert "view" + ":" + "a" == "view:a" && "a" + ":" + "b" == "a:b";
    assert |"view:a"| != |"view"| && RowOf(sc).group != GroupOf(check);
    CollisionGrants(State(0, 1, map[patID := user], map[], map[]), user, sc, check);
  }
}
