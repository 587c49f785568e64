/** The repository over its table and cache, statement by statement. Each method is proved
    to have the effect and the reply that `PatScopes.Step` gives. */
module PatScopeRepo {
  import opened Outcomes
  import opened EntityTypes
  import opened PatScopes

  class PatRepo {
    var now: nat
    const duration: nat
    var pats: map<string, string>
    var rows: map<string, Row>
    var cache: map<string, Entry>

    constructor (duration: nat)
      ensures Abs() == State(0, duration, map[], map[], map[])
    {
      this.duration := duration;
      now, pats, rows, cache := 0, map[], map[], map[];
    }

    ghost function Abs(): State
      reads this
    {
      State(now, duration, pats, rows, cache)
    }

    /** `patCache.Save` */
    method SaveToCache(user: string, scopes: seq<Scope>, saves: seq<Outcome>) returns (ok: bool)
      modifies this`cache
      ensures (cache, ok) == SaveFrom(old(cache), Expiry(now, duration), user, scopes, saves, 0)
    {
      var i := 0;
      while i < |scopes|
        invariant i <= |scopes|
        invariant SaveFrom(old(cache), Expiry(now, duration), user, scopes, saves, 0)
               == SaveFrom(cache, Expiry(now, duration), user, scopes, saves, i)
      {
        var key := Key(user, RowOf(scopes[i]));
        if At(saves, i).Applied() {
          cache := cache[key := Entry(scopes[i].id, if duration == 0 then None else Some(now + duration))];
        }
        if At(saves, i) != Done { return false; }
        i := i + 1;
      }
      return true;
    }

    /** `patCache.Remove`, broken off after `stop` scanned keys, with an error unless it is `clean`. */
    method RemoveFromCache(ids: seq<string>, keys: seq<string>, stop: nat, clean: bool) returns (ok: bool)
      requires stop <= |keys|
      modifies this`cache
      ensures cache == EvictFrom(old(cache), keys, ids, 0, stop)
      ensures ok == (ids != [] && stop == |keys| && clean)
    {
      if ids == [] {
        EvictNothing(cache, keys, 0, stop);
        return false;
      }
      var i := 0;
      while i < stop
        invariant i <= stop
        invariant EvictFrom(old(cache), keys, ids, 0, stop) == EvictFrom(cache, keys, ids, i, stop)
      {
        if keys[i] in cache {
          var val := cache[keys[i]].id;
          var j := 0;
          while j < |ids| && ids[j] != val
            invariant j <= |ids| && forall k :: 0 <= k < j ==> ids[k] != val
          {
            j := j + 1;
          }
          if j < |ids| { cache := cache - {keys[i]}; }
        }
        i := i + 1;
      }
      return stop == |keys| && clean;
    }

    /** `patCache.RemoveUserAllScope`, broken off after `stop` scanned keys, with an error unless it is `clean`. */
    method RemoveUserFromCache(keys: seq<string>, stop: nat, clean: bool) returns (ok: bool)
      requires stop <= |keys|
      modifies this`cache
      ensures cache == DropFrom(old(cache), keys, 0, stop)
      ensures ok == (stop == |keys| && clean)
    {
      var i := 0;
      while i < stop
        invariant i <= stop
        invariant DropFrom(old(cache), keys, 0, stop) == DropFrom(cache, keys, i, stop)
      {
        cache := cache - {keys[i]};
        i := i + 1;
      }
      return stop == |keys| && clean;
    }

    method ProcessScope(sc: Scope, o: Outcome) returns (r: Processed)
      modifies this`rows
      ensures (rows, r) == Process(old(rows), sc, o)
    {
      var g := RowOf(sc).group;
      if HasWildcard(rows, g) { return Rejected; }
      if o == Refused { return Rejected; }
      if sc.entityID == ANY_IDS {
        var ids := set id | id in rows && rows[id].group == g;
        assert ids == GroupIds(rows, g);
        if ids != {} {
          if |ids| > 1 { return Rejected; }
          rows := map id | id in rows :: if id in ids then Row(g, ANY_IDS) else rows[id];
          assert rows == Widen(old(rows), g);
          return if o == Done then Widened else Rejected;
        }
      }
      return if o == Done then Insert else Rejected;
    }

    method AddScopes(user: string, scopes: seq<Scope>, steps: seq<Outcome>, insert: Outcome, saves: seq<Outcome>)
        returns (reply: Reply)
      modifies this
      ensures (Abs(), reply) == Step(old(Abs()), AddScope(user, scopes, steps, insert, saves))
    {
      var newScopes: seq<Scope> := [];
      var i := 0;
      while i < |scopes|
        invariant i <= |scopes| && cache == old(cache) && pats == old(pats) && now == old(now)
        invariant ProcessFrom(old(rows), scopes, steps, 0, []) == ProcessFrom(rows, scopes, steps, i, newScopes)
      {
        var processed := ProcessScope(scopes[i], At(steps, i));
        if processed == Rejected { return Failed; }
        if processed == Insert && scopes[i].id != "" {
          newScopes := newScopes + [scopes[i]];
        }
        i := i + 1;
      }
      if newScopes != [] {
        if insert == Refused || !CanInsert(pats, rows, newScopes) { return Failed; }
        rows := InsertAll(rows, newScopes);
        if insert == Lost { return Failed; }
      }
      var saved := SaveToCache(user, scopes, saves);
      return if saved then Ok else Failed;
    }

    method Check(user: string, patID: string, entityType: EntityType, domainID: string, operation: string,
                 entityID: string, lookup: Outcome, query: Outcome, pick: string, store: Outcome) returns (reply: Reply)
      requires Possible(Abs(),
          CheckScope(user, patID, entityType, domainID, operation, entityID, lookup, query, pick, store))
      modifies this`cache
      ensures (Abs(), reply) == Step(old(Abs()),
          CheckScope(user, patID, entityType, domainID, operation, entityID, lookup, query, pick, store))
    {
      var g := Group(patID, ToString(entityType), domainID, operation);
      var exactKey, wildcardKey := Key(user, Row(g, entityID)), Key(user, Row(g, ANY_IDS));
      if lookup == Done && (exactKey in cache || wildcardKey in cache) { return Granted; }
      if query != Done { return Failed; }
      if pick !in rows || !Grants(rows[pick], g, entityID) { return Denied; }
      var row := rows[pick];
      match Parse(row.group.entityType)
      case None => return Failed;
      case Some(et) =>
        var sc := Scope(pick, row.group.patID, row.group.domainID, et, row.entityID, row.group.operation);
        var saved := SaveToCache(user, [sc], [store]);
        if !saved { return Failed; }
        return if Authorized(sc, et, domainID, operation, entityID) then Granted else Denied;
    }

    method RemoveScopes(user: string, ids: seq<string>, delete: Outcome, keys: seq<string>, stop: nat, clean: bool)
        returns (reply: Reply)
      requires Possible(Abs(), RemoveScope(user, ids, delete, keys, stop, clean))
      modifies this`rows, this`cache
      ensures (Abs(), reply) == Step(old(Abs()), RemoveScope(user, ids, delete, keys, stop, clean))
    {
      if delete == Refused { return Failed; }
      var gone := set id | id in ids && id in rows;
      rows := rows - gone;
      if delete == Lost || gone == {} { return Failed; }
      var removed := RemoveFromCache(ids, keys, stop, clean);
      return if removed then Ok else Failed;
    }

    method RemoveAllPats(user: string, delete: Outcome, keys: seq<string>, stop: nat, clean: bool)
        returns (reply: Reply)
      requires Possible(Abs(), RemoveAllPat(user, delete, keys, stop, clean))
      modifies this`pats, this`rows, this`cache
      ensures (Abs(), reply) == Step(old(Abs()), RemoveAllPat(user, delete, keys, stop, clean))
    {
      if delete == Refused { return Failed; }
      pats := map p | p in pats && pats[p] != user :: pats[p];
      rows := map id | id in rows && rows[id].group.patID in pats :: rows[id];
      if delete == Lost { return Failed; }
      var removed := RemoveUserFromCache(keys, stop, clean);
      return if removed then Ok else Failed;
    }

    method Save(user: string, patID: string, save: Outcome) returns (reply: Reply)
      modifies this`pats
      ensures (Abs(), reply) == Step(old(Abs()), SavePat(user, patID, save))
    {
      if save == Refused || patID in pats { return Failed; }
      pats := pats[patID := user];
      return if save == Done then Ok else Failed;
    }

    method Remove(user: string, patID: string, delete: Outcome) returns (reply: Reply)
      modifies this`pats, this`rows
      ensures (Abs(), reply) == Step(old(Abs()), RemovePat(user, patID, delete))
    {
      if delete == Refused { return Failed; }
      if patID in pats && pats[patID] == user {
        pats := pats - {patID};
      }
      assert pats == map p | p in old(pats) && !(p == patID && old(pats)[p] == user) :: old(pats)[p];
      rows := map id | id in rows && rows[id].group.patID in pats :: rows[id];
      return if delete == Done then Ok else Failed;
    }

    method RemoveAllScopes(patID: string, delete: Outcome, purge: Outcome) returns (reply: Reply)
      modifies this`rows, this`cache
      ensures (Abs(), reply) == Step(old(Abs()), RemoveAllScope(patID, delete, purge))
    {
      if delete == Refused { return Failed; }
      rows := map id | id in rows && rows[id].group.patID != patID :: rows[id];
      if delete == Lost { return Failed; }
      if purge.Applied() {
        cache := cache - {"pat::" + patID};
      }
      return if purge == Done then Ok else Failed;
    }
  }

  lemma {:induction false} EvictNothing(cache: map<string, Entry>, keys: seq<string>, i: nat, stop: nat)
    requires i <= stop <= |keys|
    ensures EvictFrom(cache, keys, [], i, stop) == cache
    decreases stop - i
  {
    if i < stop {
      EvictNothing(cache, keys, i + 1, stop);
    }
  }
}
