/**
 The scopes of personal access tokens: the `pat_scopes` table with wildcard widening and
 its unique constraint, and the Redis mirror that answers permission checks. `Step` gives
 the effect of every repository operation under arbitrary store failures.
 */
module PatScopes {
  import opened Outcomes
  import opened Text
  import opened EntityTypes

  const ANY_IDS := "*"

  /** Everything in a scope but its entity ID; `entityType` is the stored name. */
  datatype Group = Group(patID: string, entityType: string, domainID: string, operation: string)

  datatype Row = Row(group: Group, entityID: string)

  datatype Scope = Scope(id: string, patID: string, domainID: string, entityType: EntityType, entityID: string,
      operation: string)

  datatype Entry = Entry(id: string, expires: Option<nat>)

  /** `pats` maps a token to its owner, `rows` is `pat_scopes` by ID, and `cache` holds the
      Redis keys that have not expired at `now`. A `duration` of zero means keys never expire. */
  datatype State = State(now: nat, duration: nat, pats: map<string, string>, rows: map<string, Row>,
                         cache: map<string, Entry>)

  function RowOf(sc: Scope): Row {
    Row(Group(sc.patID, ToString(sc.entityType), sc.domainID, sc.operation), sc.entityID)
  }

  function KeyPrefix(user: string): string {
    "pat:" + user + ":"
  }

  /** `generateKey`: the fields joined by colons. */
  function Key(user: string, row: Row): string {
    Join(KeyParts(user, row), ':')
  }

  function KeyParts(user: string, row: Row): seq<string> {
    ["pat", user, row.group.patID, row.group.entityType, row.group.domainID, row.group.operation, row.entityID]
  }

  /** The plain table query behind a permission check. */
  predicate Allows(rows: map<string, Row>, g: Group, entityID: string) {
    exists id :: id in rows && Grants(rows[id], g, entityID)
  }

  predicate Grants(row: Row, g: Group, entityID: string) {
    row.group == g && (row.entityID == entityID || row.entityID == ANY_IDS)
  }

  // ----- AddScope -----

  predicate HasWildcard(rows: map<string, Row>, g: Group) {
    exists id :: id in rows && rows[id] == Row(g, ANY_IDS)
  }

  function GroupIds(rows: map<string, Row>, g: Group): set<string> {
    set id | id in rows && rows[id].group == g
  }

  function Widen(rows: map<string, Row>, g: Group): map<string, Row> {
    map id | id in rows :: if rows[id].group == g then Row(g, ANY_IDS) else rows[id]
  }

  datatype Processed = Rejected | Widened | Insert

  /** `processScope`: a wildcard already covers the group; or the wildcard replaces the one
      row of the group (the unique constraint refuses it for two or more); or insert later. */
  function Process(rows: map<string, Row>, sc: Scope, o: Outcome): (map<string, Row>, Processed) {
    var g := RowOf(sc).group;
    if HasWildcard(rows, g) || o == Refused then (rows, Rejected)
    else if sc.entityID == ANY_IDS && GroupIds(rows, g) != {} then
      if |GroupIds(rows, g)| > 1 then (rows, Rejected)
      else (Widen(rows, g), if o == Done then Widened else Rejected)
    else (rows, if o == Done then Insert else Rejected)
  }

  /** The loop over the requested scopes from the `i`-th on; `None` when one was rejected. */
  function ProcessFrom(rows: map<string, Row>, scopes: seq<Scope>, steps: seq<Outcome>, i: nat, newScopes: seq<Scope>)
    : (map<string, Row>, Option<seq<Scope>>)
    requires i <= |scopes|
    decreases |scopes| - i
  {
    if i == |scopes| then (rows, Some(newScopes))
    else
      var (rows', r) := Process(rows, scopes[i], At(steps, i));
      match r
      case Rejected => (rows', None)
      case Widened => ProcessFrom(rows', scopes, steps, i + 1, newScopes)
      case Insert =>
        ProcessFrom(rows', scopes, steps, i + 1, if scopes[i].id != "" then newScopes + [scopes[i]] else newScopes)
  }

  /** Primary key, unique constraint and foreign key of one multi-row INSERT. */
  predicate CanInsert(pats: map<string, string>, rows: map<string, Row>, newScopes: seq<Scope>) {
    && (forall k :: 0 <= k < |newScopes| ==>
          newScopes[k].id !in rows && newScopes[k].patID in pats && forall id :: id in rows ==>
              rows[id] != RowOf(newScopes[k]))
    && (forall j, k :: 0 <= j < k < |newScopes| ==>
          newScopes[j].id != newScopes[k].id && RowOf(newScopes[j]) != RowOf(newScopes[k]))
  }

  function InsertAll(rows: map<string, Row>, newScopes: seq<Scope>): map<string, Row>
    requires forall j, k :: 0 <= j < k < |newScopes| ==> newScopes[j].id != newScopes[k].id
  {
    rows + map k | 0 <= k < |newScopes| :: newScopes[k].id := RowOf(newScopes[k])
  }

  lemma InsertAllRows(rows: map<string, Row>, newScopes: seq<Scope>)
    requires forall j, k :: 0 <= j < k < |newScopes| ==> newScopes[j].id != newScopes[k].id
    requires forall k :: 0 <= k < |newScopes| ==> newScopes[k].id !in rows
    ensures var rows' := InsertAll(rows, newScopes);
      && (forall id :: id in rows ==> id in rows' && rows'[id] == rows[id])
      && (forall k :: 0 <= k < |newScopes| ==>
          newScopes[k].id in rows' && rows'[newScopes[k].id] == RowOf(newScopes[k]))
      && (forall id :: id in rows' && id !in rows ==> exists k :: 0 <= k < |newScopes| && newScopes[k].id == id)
  {
  }

  function Expiry(now: nat, duration: nat): Option<nat> {
    if duration == 0 then None else Some(now + duration)
  }

  /** The loop of `patCache.Save` from the `i`-th scope on. */
  function SaveFrom(cache: map<string, Entry>, expires: Option<nat>, user: string, scopes: seq<Scope>,
      saves: seq<Outcome>, i: nat)
    : (map<string, Entry>, bool)
    requires i <= |scopes|
    decreases |scopes| - i
  {
    if i == |scopes| then (cache, true)
    else
      var cache' := if At(saves, i).Applied() then cache[Key(user, RowOf(scopes[i])) := Entry(scopes[i].id, expires)]
          else cache;
      if At(saves, i) != Done then (cache', false) else SaveFrom(cache', expires, user, scopes, saves, i + 1)
  }

  // ----- Removal from the cache -----

  /** The scan loop of `patCache.Remove`: delete the visited keys whose value is in `ids`. */
  function EvictFrom(cache: map<string, Entry>, keys: seq<string>, ids: seq<string>, i: nat, stop: nat)
    : map<string, Entry>
    requires i <= stop <= |keys|
    decreases stop - i
  {
    if i == stop then cache
    else
      var cache' := if keys[i] in cache && cache[keys[i]].id in ids then cache - {keys[i]} else cache;
      EvictFrom(cache', keys, ids, i + 1, stop)
  }

  /** The scan loop of `RemoveUserAllScope`: delete the visited keys. */
  function DropFrom(cache: map<string, Entry>, keys: seq<string>, i: nat, stop: nat): map<string, Entry>
    requires i <= stop <= |keys|
    decreases stop - i
  {
    if i == stop then cache else DropFrom(cache - {keys[i]}, keys, i + 1, stop)
  }

  /** A SCAN visits every key with the prefix, in any order, possibly more than once. */
  predicate Scans(keys: seq<string>, cache: map<string, Entry>, prefix: string) {
    forall key :: key in cache && prefix <= key ==> key in keys
  }

  // ----- Operations -----

  datatype Op =
    | SavePat(user: string, patID: string, save: Outcome)
    | AddScope(user: string, scopes: seq<Scope>, steps: seq<Outcome>, insert: Outcome, saves: seq<Outcome>)
      /** `pick` is the row that LIMIT 1 returns, when some row matches. */
    | CheckScope(user: string, patID: string, entityType: EntityType, domainID: string, operation: string,
                 entityID: string, lookup: Outcome, query: Outcome, pick: string, store: Outcome)
      /** `keys` is the scan, broken off after `stop` keys; it can also report an error at its
          end, when it is not `clean`. */
    | RemoveScope(user: string, ids: seq<string>, delete: Outcome, keys: seq<string>, stop: nat, clean: bool)
    | RemoveAllPat(user: string, delete: Outcome, keys: seq<string>, stop: nat, clean: bool)
    | RemovePat(user: string, patID: string, delete: Outcome)
    | RemoveAllScope(patID: string, delete: Outcome, purge: Outcome)
    | Tick(ticks: nat)

  datatype Reply = Ok | Granted | Denied | Failed

  function GroupOf(op: Op): Group
    requires op.CheckScope?
  {
    Group(op.patID, ToString(op.entityType), op.domainID, op.operation)
  }

  /** `patCache.CheckScope`: the exact or the wildcard key exists; an error counts as absent. */
  predicate CacheHit(s: State, op: Op)
    requires op.CheckScope?
  {
    op.lookup == Done
    && (Key(op.user, Row(GroupOf(op), op.entityID)) in s.cache || Key(op.user, Row(GroupOf(op), ANY_IDS)) in s.cache)
  }

  /** Requests the environment can make of this state: scans and picks are possible ones. */
  predicate Possible(s: State, op: Op) {
    match op
    case CheckScope(_, _, _, _, _, entityID, _, _, pick, _) =>
      Allows(s.rows, GroupOf(op), entityID) ==> pick in s.rows && Grants(s.rows[pick], GroupOf(op), entityID)
    case RemoveScope(user, _, _, keys, stop, _) => stop <= |keys| && Scans(keys, s.cache, KeyPrefix(user))
    case RemoveAllPat(user, _, keys, stop, _) => stop <= |keys| && Scans(keys, s.cache, KeyPrefix(user))
    case _ => true
  }

  /** The INSERT after the loop, which is skipped when nothing is left to insert. */
  function InsertScopes(pats: map<string, string>, rows: map<string, Row>, newScopes: seq<Scope>,
      insert: Outcome): (map<string, Row>, bool) {
    if newScopes == [] then (rows, true)
    else if insert == Refused || !CanInsert(pats, rows, newScopes) then (rows, false)
    else (InsertAll(rows, newScopes), insert == Done)
  }

  /** The database part of `AddScope`: the rows it leaves, and whether it succeeded. */
  function StoreScopes(s: State, scopes: seq<Scope>, steps: seq<Outcome>, insert: Outcome): (map<string, Row>, bool) {
    var (rows, newScopes) := ProcessFrom(s.rows, scopes, steps, 0, []);
    if newScopes.None? then (rows, false) else InsertScopes(s.pats, rows, newScopes.value, insert)
  }

  function AddScopeStep(s: State, user: string, scopes: seq<Scope>, steps: seq<Outcome>, insert: Outcome,
      saves: seq<Outcome>): (State, Reply) {
    var (rows, stored) := StoreScopes(s, scopes, steps, insert);
    if !stored then (s.(rows := rows), Failed)
    else
      var (cache, saved) := SaveFrom(s.cache, Expiry(s.now, s.duration), user, scopes, saves, 0);
      (s.(rows := rows, cache := cache), if saved then Ok else Failed)
  }

  /** `Scope.Authorized` on a scope read back from the table. */
  predicate Authorized(sc: Scope, entityType: EntityType, domainID: string, operation: string, entityID: string) {
    && sc.entityType == entityType
    && (sc.domainID == "" || sc.domainID == domainID)
    && sc.operation == operation
    && (sc.entityID == ANY_IDS || sc.entityID == entityID)
  }

  function CheckScopeStep(s: State, op: Op): (State, Reply)
    requires op.CheckScope? && Possible(s, op)
  {
    if CacheHit(s, op) then (s, Granted)
    else if op.query != Done then (s, Failed)
    else if !Allows(s.rows, GroupOf(op), op.entityID) then (s, Denied)
    else
      var row := s.rows[op.pick];
      match Parse(row.group.entityType)
      case None => (s, Failed)
      case Some(et) =>
        var sc := Scope(op.pick, row.group.patID, row.group.domainID, et, row.entityID, row.group.operation);
        var s' := if op.store.Applied()
            then s.(cache := s.cache[Key(op.user, RowOf(sc)) := Entry(sc.id, Expiry(s.now, s.duration))]) else s;
        if op.store != Done then (s', Failed)
        else (s', if Authorized(sc, et, op.domainID, op.operation, op.entityID) then Granted else Denied)
  }

  function Step(s: State, op: Op): (State, Reply)
    requires Possible(s, op)
  {
    match op
    case SavePat(user, patID, save) =>
      if save == Refused || patID in s.pats then (s, Failed)
      else (s.(pats := s.pats[patID := user]), if save == Done then Ok else Failed)
    case AddScope(user, scopes, steps, insert, saves) => AddScopeStep(s, user, scopes, steps, insert, saves)
    case CheckScope(_, _, _, _, _, _, _, _, _, _) => CheckScopeStep(s, op)
    case RemoveScope(user, ids, delete, keys, stop, clean) =>
      var gone := set id | id in ids && id in s.rows;
      if delete == Refused then (s, Failed)
      else
        var s' := s.(rows := s.rows - gone);
        if delete == Lost || gone == {} then (s', Failed)
        else (s'.(cache := EvictFrom(s.cache, keys, ids, 0, stop)), if stop == |keys| && clean then Ok else Failed)
    case RemoveAllPat(user, delete, keys, stop, clean) =>
      if delete == Refused then (s, Failed)
      else
        var s' := Cascade(s, map p | p in s.pats && s.pats[p] != user :: s.pats[p]);
        if delete == Lost then (s', Failed)
        else (s'.(cache := DropFrom(s.cache, keys, 0, stop)), if stop == |keys| && clean then Ok else Failed)
    case RemovePat(user, patID, delete) =>
      if delete == Refused then (s, Failed)
      else (Cascade(s, map p | p in s.pats && !(p == patID && s.pats[p] == user) :: s.pats[p]), if delete == Done
          then Ok else Failed)
    case RemoveAllScope(patID, delete, purge) =>
      if delete == Refused then (s, Failed)
      else
        var s' := s.(rows := map id | id in s.rows && s.rows[id].group.patID != patID :: s.rows[id]);
        if delete == Lost then (s', Failed)
        // the scan pattern names no user and has no trailing wildcard: it is this one key
        else (if purge.Applied() then s'.(cache := s.cache - {"pat::" + patID}) else s', if purge == Done then Ok
            else Failed)
    case Tick(ticks) =>
      var now := s.now + ticks;
      (s.(now := now, cache := map k | k in s.cache
          && !(s.cache[k].expires.Some? && s.cache[k].expires.value <= now) :: s.cache[k]), Ok)
  }

  /** ON DELETE CASCADE: the scope rows of removed tokens go with them. */
  function Cascade(s: State, pats: map<string, string>): State {
    s.(pats := pats, rows := map id | id in s.rows && s.rows[id].group.patID in pats :: s.rows[id])
  }

  predicate ValidRun(s: State, ops: seq<Op>)
    decreases |ops|
  {
    ops == [] || (Possible(s, ops[0]) && ValidRun(Step(s, ops[0]).0, ops[1..]))
  }

  function Run(s: State, ops: seq<Op>): State
    requires ValidRun(s, ops)
    decreases |ops|
  {
    if ops == [] then s else Run(Step(s, ops[0]).0, ops[1..])
  }

  // ----- Keys -----

  predicate PlainId(s: string) {
    ':' !in s
  }

  predicate PlainGroup(g: Group) {
    PlainId(g.patID) && PlainId(g.entityType) && PlainId(g.domainID) && PlainId(g.operation)
  }

  /** Fields that are free of colons, up to the entity ID, can be read back from a key, and so
      can the entity ID, whatever it is. */
  lemma KeyInjective(u: string, r: Row, u': string, r': Row)
    requires PlainId(u) && PlainGroup(r.group) && PlainId(u') && PlainGroup(r'.group)
    requires Key(u, r) == Key(u', r')
    ensures u == u' && r == r'
  {
    var a, b := KeyParts(u, r), KeyParts(u', r');
    JoinInjective(a, b, ':');
    assert a[1] == b[1] && a[2] == b[2] && a[3] == b[3] && a[4] == b[4] && a[5] == b[5] && a[6] == b[6];
  }

  lemma JoinLastTwo(fields: seq<string>, x: string, y: string)
    ensures Join(fields + [x, y], ':') == Join(fields + [x + ":" + y], ':')
    decreases |fields|
  {
    if fields == [] {
      assert [] + [x, y] == [x, y] && [x, y][1..] == [y];
      assert Join([x, y], ':') == x + [':'] + y;
      assert [] + [x + ":" + y] == [x + ":" + y];
    } else {
      JoinLastTwo(fields[1..], x, y);
      assert (fields + [x, y])[1..] == fields[1..] + [x, y];
      assert (fields + [x + ":" + y])[1..] == fields[1..] + [x + ":" + y];
    }
  }

  /** A colon in the operation makes the key that of a shorter operation on another entity. */
  lemma KeyCollision(user: string, patID: string, entityType: string, domainID: string, operation: string, a: string,
      b: string)
    ensures Key(user, Row(Group(patID, entityType, domainID, operation + ":" + a), b))
         == Key(user, Row(Group(patID, entityType, domainID, operation), a + ":" + b))
  {
    var front := ["pat", user, patID, entityType, domainID];
    var r, r' := Row(Group(patID, entityType, domainID, operation + ":" + a), b),
        Row(Group(patID, entityType, domainID, operation), a + ":" + b);
    JoinLastTwo(front, operation + ":" + a, b);
    JoinLastTwo(front, operation, a + ":" + b);
    assert KeyParts(user, r) == front + [operation + ":" + a, b];
    assert KeyParts(user, r') == front + [operation, a + ":" + b];
    assert operation + ":" + a + ":" + b == operation + ":" + (a + ":" + b);
  }

  lemma KeyHasPrefix(u: string, r: Row)
    ensures KeyPrefix(u) <= Key(u, r)
  {
    var parts := KeyParts(u, r);
    assert Join(parts, ':') == "pat" + [':'] + Join(parts[1..], ':');
    assert Join(parts[1..], ':') == u + [':'] + Join(parts[1..][1..], ':');
    assert Key(u, r) == KeyPrefix(u) + Join(parts[1..][1..], ':');
  }
}
