/**
 Refresh-token sessions. A login creates a session ID, kept in Redis as a key with a time to
 live and as a member of the user's sorted set; refreshing reissues tokens under the same ID;
 revoking deletes it. Times are milliseconds; scores and token expiries have whole seconds.
 */
module Sessions {
  import opened Outcomes

  const SECOND := 1000

  function Sec(t: int): int {
    t / SECOND
  }

  datatype Kind = Access | Refresh

  /** The claims of a signed token; `expSec` is in seconds, as RFC 7519 numeric dates are. */
  datatype Claims = Claims(id: string, kind: Kind, subject: string, role: nat, expSec: int, verified: bool)

  datatype Entry = Entry(description: string, expires: Option<int>)

  datatype Config = Config(keyDuration: int, loginDuration: int, refreshDuration: int)

  /** What was fixed when a session ID was issued. */
  datatype Login = Login(time: int, subject: string, role: nat)

  /** `keys` are the live session keys and `sets` the sorted sets; `issued` are the tokens handed
      out and `logins` the issued session IDs, both kept for the statements about runs. */
  datatype State = State(now: int, keys: map<string, Entry>, sets: map<string, map<string, int>>,
                         issued: set<Claims>, logins: map<string, Login>)

  const INIT := State(0, map[], map[], {}, map[])

  function SetOf(s: State, user: string): map<string, int> {
    if user in s.sets then s.sets[user] else map[]
  }

  function Min(a: int, b: int): int {
    if a < b then a else b
  }

  /** `SaveActive`. Redis sets no expiry when the duration is not positive. */
  function Save(cfg: Config, s: State, user: string, id: string, description: string, expiry: int): State {
    var ttl := Min(cfg.keyDuration, expiry - s.now);
    s.(keys := s.keys[id := Entry(description, if ttl > 0 then Some(s.now + ttl) else None)],
       sets := s.sets[user := SetOf(s, user)[id := Sec(s.now + ttl)]])
  }

  datatype Op =
      /** `id` comes from the ID provider; `roleOk` is the answer of the role check. */
    | LogIn(subject: string, description: string, role: nat, verified: bool, id: string, roleOk: bool, save: Outcome)
    | Renew(token: Claims, verified: bool, roleOk: bool, lookup: Outcome)
    | Revoke(user: string, id: string, remove: Outcome)
    | List(user: string, prune: Outcome)
    | Tick(ticks: nat)

  datatype Reply = Tokens(access: Claims, refresh: Claims) | Denied | Fine

  function Tokenize(id: string, kind: Kind, subject: string, role: nat, expires: int, verified: bool): Claims {
    Claims(id, kind, subject, role, Sec(expires), verified)
  }

  /** `Parse` rejects expired tokens and unknown roles. */
  predicate Parses(token: Claims, now: int) {
    Sec(now) < token.expSec && 1 <= token.role <= 2
  }

  function LogInStep(cfg: Config, s: State, op: Op): (State, Reply)
    requires op.LogIn?
  {
    if !op.roleOk then (s, Denied)
    else
      var expires := s.now + cfg.refreshDuration;
      var access := Tokenize("", Access, op.subject, op.role, s.now + cfg.loginDuration, op.verified);
      var refresh := Tokenize(op.id, Refresh, op.subject, op.role, expires, op.verified);
      var s1 := s.(logins := s.logins[op.id := Login(s.now, op.subject, op.role)]);
      var active := op.subject != "" && expires > s.now;
      var s2 := if active && op.save.Applied() then Save(cfg, s1, op.subject, op.id, op.description, expires) else s1;
      if active && op.save != Done then (s2, Denied)
      else (s2.(issued := s2.issued + {access, refresh}), Tokens(access, refresh))
  }

  function RenewStep(cfg: Config, s: State, op: Op): (State, Reply)
    requires op.Renew?
  {
    var k := op.token;
    if !Parses(k, s.now) || k.kind != Refresh || op.lookup != Done || k.id !in s.keys || !op.roleOk then (s, Denied)
    else
      var access := Tokenize(k.id, Access, k.subject, k.role, s.now + cfg.loginDuration, op.verified);
      var refresh := Tokenize(k.id, Refresh, k.subject, k.role, k.expSec * SECOND, op.verified);
      (s.(issued := s.issued + {access, refresh}), Tokens(access, refresh))
  }

  function Without(m: map<string, int>, id: string): map<string, int> {
    m - {id}
  }

  /** What is left of a sorted set after the scores up to `now` are removed. */
  function Pruned(m: map<string, int>, now: int): map<string, int> {
    map id | id in m && m[id] > Sec(now) :: m[id]
  }

  function Step(cfg: Config, s: State, op: Op): (State, Reply) {
    match op
    case LogIn(_, _, _, _, _, _, _) => LogInStep(cfg, s, op)
    case Renew(_, _, _, _) => RenewStep(cfg, s, op)
    case Revoke(user, id, remove) =>
      (if remove.Applied() then s.(keys := s.keys - {id}, sets := s.sets[user := Without(SetOf(s, user), id)]) else s,
       if remove == Done then Fine else Denied)
    case List(user, prune) =>
      (if prune.Applied() then s.(sets := s.sets[user := Pruned(SetOf(s, user), s.now)]) else s,
       if prune == Done then Fine else Denied)
    case Tick(ticks) =>
      var now := s.now + ticks;
      (s.(now := now, keys := map id | id in s.keys
          && (s.keys[id].expires.Some? ==> now < s.keys[id].expires.value) :: s.keys[id]), Fine)
  }

  /** Session IDs are fresh, and only tokens that were handed out carry a valid signature. */
  predicate Possible(s: State, op: Op) {
    match op
    case LogIn(_, _, _, _, id, _, _) => id !in s.logins
    case Renew(token, _, _, _) => token in s.issued
    case _ => true
  }

  predicate ValidRun(cfg: Config, s: State, ops: seq<Op>)
    decreases |ops|
  {
    ops == [] || (Possible(s, ops[0]) && ValidRun(cfg, Step(cfg, s, ops[0]).0, ops[1..]))
  }

  function Run(cfg: Config, s: State, ops: seq<Op>): State
    requires ValidRun(cfg, s, ops)
    decreases |ops|
  {
    if ops == [] then s else Run(cfg, Step(cfg, s, ops[0]).0, ops[1..])
  }

  // ----- Families of tokens -----

  /** A refresh token still carries what its login fixed. */
  predicate OfFamily(cfg: Config, s: State, c: Claims) {
    c.id in s.logins && c.subject == s.logins[c.id].subject && c.role == s.logins[c.id].role
    && c.expSec == Sec(s.logins[c.id].time + cfg.refreshDuration)
  }

  ghost predicate Families(cfg: Config, s: State) {
    forall c :: c in s.issued && c.kind == Refresh ==> OfFamily(cfg, s, c)
  }

  lemma StepFamilies(cfg: Config, s: State, op: Op)
    requires Families(cfg, s) && Possible(s, op)
    ensures Families(cfg, Step(cfg, s, op).0)
    ensures forall id :: id in s.logins ==>
        id in Step(cfg, s, op).0.logins && Step(cfg, s, op).0.logins[id] == s.logins[id]
  {
    var s' := Step(cfg, s, op).0;
    forall c | c in s'.issued && c.kind == Refresh ensures OfFamily(cfg, s', c) {
      assert c in s.issued ==> OfFamily(cfg, s, c);
    }
  }

  /** Over any run, however deep the chain of refreshes, every refresh token handed out has the
      ID, subject, role and expiry of the login it descends from. */
  lemma {:induction false} RunFamilies(cfg: Config, s: State, ops: seq<Op>)
    requires Families(cfg, s) && ValidRun(cfg, s, ops)
    ensures Families(cfg, Run(cfg, s, ops))
    decreases |ops|
  {
    if ops != [] {
      StepFamilies(cfg, s, ops[0]);
      RunFamilies(cfg, Step(cfg, s, ops[0]).0, ops[1..]);
    }
  }

  /** After any run, a refresh that succeeds hands out a refresh token with the ID, subject, role
      and expiry of the one presented, which are those the login fixed. */
  lemma RenewKeepsFamily(cfg: Config, ops: seq<Op>, op: Op)
    requires ValidRun(cfg, INIT, ops) && op.Renew? && Possible(Run(cfg, INIT, ops), op)
    requires Step(cfg, Run(cfg, INIT, ops), op).1.Tokens?
    ensures var (s', reply) := Step(cfg, Run(cfg, INIT, ops), op);
      && reply.refresh == op.token.(verified := op.verified) && OfFamily(cfg, s', reply.refresh)
      && reply.access.id == op.token.id && reply.access.subject == op.token.subject
          && reply.access.role == op.token.role
  {
    RunFamilies(cfg, INIT, ops);
    assert OfFamily(cfg, Run(cfg, INIT, ops), op.token);
  }

  // ----- How long a session can be refreshed -----

  /** Session keys expire within both durations of their login. */
  predicate InTime(cfg: Config, s: State, id: string)
    requires id in s.keys
  {
    && id in s.logins
    && (cfg.keyDuration > 0 ==>
          s.keys[id].expires.Some?
              && s.keys[id].expires.value <= s.logins[id].time + Min(cfg.keyDuration, cfg.refreshDuration))
    && (s.keys[id].expires.Some? ==> s.now < s.keys[id].expires.value)
  }

  ghost predicate AllInTime(cfg: Config, s: State) {
    forall id :: id in s.keys ==> InTime(cfg, s, id)
  }

  lemma StepInTime(cfg: Config, s: State, op: Op)
    requires AllInTime(cfg, s) && Possible(s, op)
    ensures AllInTime(cfg, Step(cfg, s, op).0)
  {
    var s' := Step(cfg, s, op).0;
    forall id | id in s'.keys ensures InTime(cfg, s', id) {
      assert id in s.keys ==> InTime(cfg, s, id);
    }
  }

  lemma {:induction false} RunInTime(cfg: Config, s: State, ops: seq<Op>)
    requires AllInTime(cfg, s) && ValidRun(cfg, s, ops)
    ensures AllInTime(cfg, Run(cfg, s, ops))
    decreases |ops|
  {
    if ops != [] {
      StepInTime(cfg, s, ops[0]);
      RunInTime(cfg, Step(cfg, s, ops[0]).0, ops[1..]);
    }
  }

  /** After any run, a refresh that succeeds happens before the login time plus the refresh
      duration, and before the login time plus the cache duration when that is positive. */
  lemma RenewInTime(cfg: Config, ops: seq<Op>, op: Op)
    requires ValidRun(cfg, INIT, ops) && op.Renew? && Possible(Run(cfg, INIT, ops), op)
    requires Step(cfg, Run(cfg, INIT, ops), op).1.Tokens?
    ensures var s := Run(cfg, INIT, ops);
      && op.token.id in s.logins
      && s.now < s.logins[op.token.id].time + cfg.refreshDuration
      && (cfg.keyDuration > 0 ==> s.now < s.logins[op.token.id].time + Min(cfg.keyDuration, cfg.refreshDuration))
  {
    RunFamilies(cfg, INIT, ops);
    RunInTime(cfg, INIT, ops);
    var s := Run(cfg, INIT, ops);
    assert OfFamily(cfg, s, op.token);
    assert InTime(cfg, s, op.token.id);
  }

  // ----- Which sessions are active -----

  /** The time that passes during the requests. */
  function Elapsed(ops: seq<Op>): nat
    decreases |ops|
  {
    if ops == [] then 0 else (if ops[0].Tick? then ops[0].ticks else 0) + Elapsed(ops[1..])
  }

  function Life(cfg: Config): int {
    Min(cfg.keyDuration, cfg.refreshDuration)
  }

  /** A login that stored the session. */
  predicate Opens(cfg: Config, op: Op, id: string) {
    op.LogIn? && op.id == id && op.roleOk && op.subject != "" && cfg.refreshDuration > 0 && op.save.Applied()
  }

  predicate Closes(op: Op, id: string) {
    op.Revoke? && op.id == id && op.remove.Applied()
  }

  predicate NoneCloses(ops: seq<Op>, id: string) {
    forall k :: 0 <= k < |ops| ==> !Closes(ops[k], id)
  }

  /** Request `c` opened the session, nothing revoked it since, and its life has not passed. */
  predicate ActiveSince(cfg: Config, ops: seq<Op>, id: string, c: int) {
    0 <= c < |ops| && Opens(cfg, ops[c], id) && NoneCloses(ops[c + 1..], id)
        && (Life(cfg) > 0 ==> Elapsed(ops[c + 1..]) < Life(cfg))
  }

  ghost predicate ActiveByHistory(cfg: Config, ops: seq<Op>, id: string) {
    exists c :: ActiveSince(cfg, ops, id, c)
  }

  lemma NoneClosesHead(ops: seq<Op>, id: string)
    requires ops != []
    ensures NoneCloses(ops, id) <==> !Closes(ops[0], id) && NoneCloses(ops[1..], id)
  {
    assert forall k :: 0 <= k < |ops[1..]| ==> ops[1..][k] == ops[k + 1];
    assert forall k :: 0 < k < |ops| ==> ops[k] == ops[1..][k - 1];
  }

  /** A key stays exactly until a revocation or its expiry. */
  lemma {:induction false} KeyStays(cfg: Config, s: State, ops: seq<Op>, id: string)
    requires ValidRun(cfg, s, ops) && id in s.logins
        && (id in s.keys && s.keys[id].expires.Some? ==> s.now < s.keys[id].expires.value)
    ensures id in Run(cfg, s, ops).keys
       <==> (id in s.keys && NoneCloses(ops, id)
             && (s.keys[id].expires.Some? ==> s.now + Elapsed(ops) < s.keys[id].expires.value))
    decreases |ops|
  {
    if ops != [] {
      NoneClosesHead(ops, id);
      KeyStays(cfg, Step(cfg, s, ops[0]).0, ops[1..], id);
    }
  }

  /** An ID that was issued is not issued again. */
  lemma {:induction false} IssuedOnce(cfg: Config, s: State, ops: seq<Op>, id: string, c: nat)
    requires ValidRun(cfg, s, ops) && id in s.logins && c < |ops|
    ensures !Opens(cfg, ops[c], id)
    decreases c
  {
    if c > 0 {
      IssuedOnce(cfg, Step(cfg, s, ops[0]).0, ops[1..], id, c - 1);
    }
  }

  lemma SinceTail(cfg: Config, ops: seq<Op>, id: string, c: int)
    requires 0 < c <= |ops|
    ensures ActiveSince(cfg, ops, id, c) <==> ActiveSince(cfg, ops[1..], id, c - 1)
  {
    if c < |ops| {
      assert ops[1..][c - 1] == ops[c] && ops[1..][c..] == ops[c + 1..];
    }
  }

  lemma HistoryTail(cfg: Config, ops: seq<Op>, id: string)
    requires ops != [] && !Opens(cfg, ops[0], id)
    ensures ActiveByHistory(cfg, ops, id) <==> ActiveByHistory(cfg, ops[1..], id)
  {
    if c :| ActiveSince(cfg, ops, id, c) {
      SinceTail(cfg, ops, id, c);
    }
    if c :| ActiveSince(cfg, ops[1..], id, c) {
      SinceTail(cfg, ops, id, c + 1);
    }
  }

  lemma {:induction false} NewKey(cfg: Config, s: State, ops: seq<Op>, id: string)
    requires ValidRun(cfg, s, ops) && id !in s.logins && id !in s.keys
    ensures id in Run(cfg, s, ops).keys <==> ActiveByHistory(cfg, ops, id)
    decreases |ops|
  {
    if ops != [] {
      var s', rest := Step(cfg, s, ops[0]).0, ops[1..];
      if ops[0].LogIn? && ops[0].id == id && ops[0].roleOk {
        KeyStays(cfg, s', rest, id);
        if c :| ActiveSince(cfg, ops, id, c) && c > 0 {
          IssuedOnce(cfg, s', rest, id, c - 1);
          assert false;
        }
        assert ActiveByHistory(cfg, ops, id) <==> ActiveSince(cfg, ops, id, 0);
      } else {
        HistoryTail(cfg, ops, id);
        NewKey(cfg, s', rest, id);
      }
    }
  }

  /** After any run a session is active exactly when a login opened it, no revocation of its ID
      took effect since, and less than its life has passed. */
  lemma ActiveIff(cfg: Config, ops: seq<Op>, id: string)
    requires ValidRun(cfg, INIT, ops)
    ensures id in Run(cfg, INIT, ops).keys <==> ActiveByHistory(cfg, ops, id)
  {
    NewKey(cfg, INIT, ops, id);
  }

  // ----- Revocation -----

  /** An issued session ID without a key. */
  predicate Dead(s: State, id: string) {
    id in s.logins && id !in s.keys
  }

  /** Once the key of an issued ID is gone, no run brings it back. */
  lemma {:induction false} DeadForever(cfg: Config, s: State, ops: seq<Op>, id: string)
    requires Dead(s, id) && ValidRun(cfg, s, ops)
    ensures Dead(Run(cfg, s, ops), id)
    decreases |ops|
  {
    if ops != [] {
      DeadForever(cfg, Step(cfg, s, ops[0]).0, ops[1..], id);
    }
  }

  /** After a revocation took effect, no token of the family is accepted for refresh again,
      whatever happens in between and whichever token of the family is presented. */
  lemma RevokedForever(cfg: Config, s: State, revoke: Op, ops: seq<Op>, renew: Op)
    requires revoke.Revoke? && revoke.remove.Applied() && revoke.id in s.logins
    requires ValidRun(cfg, Step(cfg, s, revoke).0, ops)
    requires renew.Renew? && renew.token.id == revoke.id
    ensures Step(cfg, Run(cfg, Step(cfg, s, revoke).0, ops), renew).1 == Denied
  {
    DeadForever(cfg, Step(cfg, s, revoke).0, ops, revoke.id);
  }

  // ----- Listing -----

  /** The IDs that `ListUserTokens` returns. */
  function Listed(s: State, user: string): set<string> {
    set id | id in Pruned(SetOf(s, user), s.now) && id in s.keys
  }

  /** The session is the user's, is active, and is not in the last partial second of its life. */
  predicate Showing(s: State, user: string, id: string) {
    id in s.keys && id in s.logins && s.logins[id].subject == user && s.keys[id].expires.Some?
        && Sec(s.now) < Sec(s.keys[id].expires.value)
  }

  /** A sorted set holds only its user's sessions, with the second of their expiry as score (a
      score in the past for a session without expiry), and holds all that are showing. */
  predicate IndexedAt(s: State, u: string, id: string) {
    && (id in s.keys ==> id in s.logins)
    && (Showing(s, u, id) ==> id in SetOf(s, u))
    && (id in SetOf(s, u) ==>
        && id in s.logins && s.logins[id].subject == u
        && (id in s.keys ==>
              if s.keys[id].expires.Some? then SetOf(s, u)[id] == Sec(s.keys[id].expires.value)
              else SetOf(s, u)[id] <= Sec(s.now)))
  }

  ghost predicate Indexed(s: State) {
    forall u, id :: IndexedAt(s, u, id)
  }

  lemma SaveIndexedAt(cfg: Config, s: State, user: string, saved: string, description: string, expiry: int, u: string,
      id: string)
    requires IndexedAt(s, u, id) && saved in s.logins && s.logins[saved].subject == user
    requires id == saved ==> id !in s.keys && id !in SetOf(s, u)
    ensures IndexedAt(Save(cfg, s, user, saved, description, expiry), u, id)
  {
  }

  lemma LogInIndexedAt(cfg: Config, s: State, op: Op, u: string, id: string)
    requires op.LogIn? && IndexedAt(s, u, id) && Possible(s, op)
    ensures IndexedAt(Step(cfg, s, op).0, u, id)
  {
    var s1 := s.(logins := s.logins[op.id := Login(s.now, op.subject, op.role)]);
    NewLoginIndexedAt(s, s1, op.id, u, id);
    if id == op.id {
      assert id !in s.keys && id !in SetOf(s, u);
    }
    SaveIndexedAt(cfg, s1, op.subject, op.id, op.description, s.now + cfg.refreshDuration, u, id);
    var s2 := Save(cfg, s1, op.subject, op.id, op.description, s.now + cfg.refreshDuration);
    var s' := Step(cfg, s, op).0;
    if op.roleOk && op.subject != "" && s.now + cfg.refreshDuration > s.now && op.save.Applied() {
      SameIndexedAt(s2, s', u, id);
    } else if op.roleOk {
      SameIndexedAt(s1, s', u, id);
    }
  }

  /** Only the clock, the logins, the keys and the sets matter. */
  lemma SameIndexedAt(s: State, s': State, u: string, id: string)
    requires IndexedAt(s, u, id) && s' == s.(issued := s'.issued)
    ensures IndexedAt(s', u, id)
  {
  }

  lemma NewLoginIndexedAt(s: State, s': State, added: string, u: string, id: string)
    requires IndexedAt(s, u, id) && added !in s.logins && s' == s.(logins := s'.logins)
    requires forall i :: i != added ==>
        ((i in s'.logins <==> i in s.logins) && (i in s.logins ==> s'.logins[i] == s.logins[i]))
    requires added in s'.logins
    ensures IndexedAt(s', u, id)
  {
  }

  lemma StepIndexedAt(cfg: Config, s: State, op: Op, u: string, id: string)
    requires IndexedAt(s, u, id) && Possible(s, op)
    ensures IndexedAt(Step(cfg, s, op).0, u, id)
  {
    if op.LogIn? {
      LogInIndexedAt(cfg, s, op, u, id);
    }
  }

  lemma StepIndexed(cfg: Config, s: State, op: Op)
    requires Indexed(s) && Possible(s, op)
    ensures Indexed(Step(cfg, s, op).0)
  {
    forall u, id ensures IndexedAt(Step(cfg, s, op).0, u, id) {
      StepIndexedAt(cfg, s, op, u, id);
    }
  }

  lemma {:induction false} RunIndexed(cfg: Config, s: State, ops: seq<Op>)
    requires Indexed(s) && ValidRun(cfg, s, ops)
    ensures Indexed(Run(cfg, s, ops))
    decreases |ops|
  {
    if ops != [] {
      StepIndexed(cfg, s, ops[0]);
      RunIndexed(cfg, Step(cfg, s, ops[0]).0, ops[1..]);
    }
  }

  /** After any run the listing of a user is exactly the user's active sessions that are not in
      the last partial second of their life; in particular everything listed is active, even
      after a revocation under another user's ID. */
  lemma ListedIff(cfg: Config, ops: seq<Op>, user: string, id: string)
    requires ValidRun(cfg, INIT, ops)
    ensures id in Listed(Run(cfg, INIT, ops), user) <==> Showing(Run(cfg, INIT, ops), user, id)
  {
    RunIndexed(cfg, INIT, ops);
    assert IndexedAt(Run(cfg, INIT, ops), user, id);
  }

  // ----- The cache itself -----

  datatype TokenInfo = TokenInfo(id: string, description: string)

  class TokensCache {
    const keyDuration: int
    var now: int
    var keys: map<string, Entry>
    var sets: map<string, map<string, int>>

    constructor (duration: int)
      ensures keyDuration == duration && keys == map[] && sets == map[]
    {
      keyDuration, now, keys, sets := duration, 0, map[], map[];
    }

    function Members(user: string): map<string, int>
      reads this
    {
      if user in sets then sets[user] else map[]
    }

    ghost function Abs(issued: set<Claims>, logins: map<string, Login>): State
      reads this
    {
      State(now, keys, sets, issued, logins)
    }

    method SaveActive(user: string, id: string, description: string, expiry: int, save: Outcome,
                      ghost cfg: Config, ghost issued: set<Claims>, ghost logins: map<string, Login>) returns (ok: bool)
      requires cfg.keyDuration == keyDuration
      modifies this`keys, this`sets
      ensures Abs(issued, logins)
           == if save.Applied() then Save(cfg, old(Abs(issued, logins)), user, id, description, expiry)
               else old(Abs(issued, logins))
      ensures ok <==> save == Done
    {
      var ttl := if keyDuration < expiry - now then keyDuration else expiry - now;
      if save.Applied() {
        keys := keys[id := Entry(description, if ttl > 0 then Some(now + ttl) else None)];
        sets := sets[user := Members(user)[id := (now + ttl) / SECOND]];
      }
      return save == Done;
    }

    /** `ops` is the run that led to the present keys. */
    method IsActive(id: string, lookup: Outcome, ghost cfg: Config, ghost ops: seq<Op>) returns (active: bool, ok: bool)
      requires ValidRun(cfg, INIT, ops) && keys == Run(cfg, INIT, ops).keys
      ensures ok <==> lookup == Done
      ensures active <==> ok && ActiveByHistory(cfg, ops, id)
    {
      if lookup != Done { return false, false; }
      ActiveIff(cfg, ops, id);
      return id in keys, true;
    }

    method RemoveActive(user: string, id: string, remove: Outcome, ghost cfg: Config, ghost issued: set<Claims>,
        ghost logins: map<string, Login>)
      returns (ok: bool)
      modifies this`keys, this`sets
      ensures Abs(issued, logins) == Step(cfg, old(Abs(issued, logins)), Revoke(user, id, remove)).0
      ensures ok <==> remove == Done
    {
      if remove.Applied() {
        keys := keys - {id};
        sets := sets[user := Members(user) - {id}];
      }
      return remove == Done;
    }

    method Prune(user: string, prune: Outcome,
                 ghost cfg: Config, ghost issued: set<Claims>, ghost logins: map<string, Login>)
      modifies this`sets
      ensures Abs(issued, logins) == Step(cfg, old(Abs(issued, logins)), List(user, prune)).0
    {
      if prune.Applied() {
        sets := sets[user := map id | id in Members(user) && Members(user)[id] > now / SECOND :: Members(user)[id]];
      }
    }

    /** The loop over the answers of the second pipeline: members without a key are skipped. */
    method Descriptions(order: seq<string>) returns (valid: seq<TokenInfo>)
      requires forall i, j :: 0 <= i < j < |order| ==> order[i] != order[j]
      ensures forall t :: t in valid ==> t.id in order && t.id in keys && t.description == keys[t.id].description
      ensures forall id :: id in order && id in keys ==> TokenInfo(id, keys[id].description) in valid
      ensures forall i, j :: 0 <= i < j < |valid| ==> valid[i].id != valid[j].id
    {
      valid := [];
      for i := 0 to |order|
        invariant forall t :: t in valid ==>
            t.id in order[..i] && t.id in keys && t.description == keys[t.id].description
        invariant forall k :: 0 <= k < i && order[k] in keys ==>
            TokenInfo(order[k], keys[order[k]].description) in valid
        invariant forall k, m :: 0 <= k < m < |valid| ==> valid[k].id != valid[m].id
      {
        assert order[..i + 1] == order[..i] + [order[i]];
        if order[i] in keys {
          assert forall t :: t in valid ==> t.id != order[i];
          valid := valid + [TokenInfo(order[i], keys[order[i]].description)];
        }
      }
      assert order[..|order|] == order;
    }

    /** `order` is the range Redis returns: the members above the current second, each once. */
    method ListUserTokens(user: string, order: seq<string>, prune: Outcome, lookup: Outcome,
                          ghost cfg: Config, ghost issued: set<Claims>, ghost logins: map<string, Login>)
      returns (valid: seq<TokenInfo>, ok: bool)
      requires forall id :: id in order <==> id in Members(user) && Members(user)[id] > now / SECOND
      requires forall i, j :: 0 <= i < j < |order| ==> order[i] != order[j]
      modifies this`sets
      ensures Abs(issued, logins) == Step(cfg, old(Abs(issued, logins)), List(user, prune)).0
      ensures ok <==> prune == Done && (order == [] || lookup == Done)
      ensures !ok ==> valid == []
      ensures forall t :: t in valid ==>
          t.id in Listed(old(Abs(issued, logins)), user) && t.description == keys[t.id].description
      ensures ok ==> forall id :: id in Listed(old(Abs(issued, logins)), user) ==>
          TokenInfo(id, keys[id].description) in valid
      ensures forall i, j :: 0 <= i < j < |valid| ==> valid[i].id != valid[j].id
    {
      Prune(user, prune, cfg, issued, logins);
      if prune != Done { return [], false; }
      if order != [] && lookup != Done { return [], false; }
      valid := Descriptions(order);
      assert forall id :: id in Listed(old(Abs(issued, logins)), user) <==> id in order && id in keys;
      return valid, true;
    }
  }
}
