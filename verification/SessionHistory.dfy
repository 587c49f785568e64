/** Tokens, keys and listings read off the requests that were made, and the replies in full. */
module SessionHistory {
  import opened Outcomes
  import opened Sessions

  // ----- Replies -----

  /** A login succeeds exactly when the role check passes and the session, if one is kept, was seen
      to be stored; both tokens carry the subject and role of the request. */
  lemma LogInReply(cfg: Config, s: State, op: Op)
    requires op.LogIn?
    ensures Step(cfg, s, op).1.Tokens?
       <==> op.roleOk && (op.subject == "" || cfg.refreshDuration <= 0 || op.save == Done)
    ensures Step(cfg, s, op).1.Tokens? ==>
              var r := Step(cfg, s, op).1;
              && r.access == Claims("", Access, op.subject, op.role, (s.now + cfg.loginDuration) / 1000, op.verified)
              && r.refresh == Claims(op.id, Refresh, op.subject, op.role, (s.now + cfg.refreshDuration) / 1000,
                  op.verified)
              && Step(cfg, s, op).0.issued == s.issued + {r.access, r.refresh}
    ensures !Step(cfg, s, op).1.Tokens? ==> Step(cfg, s, op).0.issued == s.issued
  {
  }

  /** After any run a refresh succeeds exactly for an unexpired refresh token of a known role whose
      session is active by its history, when the role check passes. The access token is for the
      same session, subject and role, for the login duration; nothing but the tokens changes. */
  lemma RenewReply(cfg: Config, ops: seq<Op>, op: Op)
    requires ValidRun(cfg, INIT, ops) && op.Renew?
    ensures var s := Run(cfg, INIT, ops);
      Step(cfg, s, op).1.Tokens?
      <==> (op.token.kind == Refresh && Elapsed(ops) / 1000 < op.token.expSec
          && (op.token.role == 1 || op.token.role == 2)
            && op.lookup == Done && op.roleOk && ActiveByHistory(cfg, ops, op.token.id))
    ensures var (s', r) := Step(cfg, Run(cfg, INIT, ops), op);
      r.Tokens? ==>
        && r.refresh == op.token.(verified := op.verified)
        && r.access == Claims(op.token.id, Access, op.token.subject, op.token.role,
                              (Elapsed(ops) + cfg.loginDuration) / 1000, op.verified)
        && s' == Run(cfg, INIT, ops).(issued := Run(cfg, INIT, ops).issued + {r.access, r.refresh})
    ensures !Step(cfg, Run(cfg, INIT, ops), op).1.Tokens?
        ==> Step(cfg, Run(cfg, INIT, ops), op).0 == Run(cfg, INIT, ops)
  {
    ActiveIff(cfg, ops, op.token.id);
    RunClock(cfg, INIT, ops);
  }

  lemma {:induction false} RunClock(cfg: Config, s: State, ops: seq<Op>)
    requires ValidRun(cfg, s, ops)
    ensures Run(cfg, s, ops).now == s.now + Elapsed(ops)
    decreases |ops|
  {
    if ops != [] {
      RunClock(cfg, Step(cfg, s, ops[0]).0, ops[1..]);
    }
  }

  // ----- Which login a token comes from -----

  /** Request `n` is the login that issued the ID. */
  predicate Issues(op: Op, id: string) {
    op.LogIn? && op.id == id && op.roleOk
  }

  /** The record of a login says what request `n` said. */
  predicate RecordedAt(s: State, ops: seq<Op>, id: string, login: Login, n: int) {
    && 0 <= n < |ops| && Issues(ops[n], id)
    && login == Login(s.now + Elapsed(ops[..n]), ops[n].subject, ops[n].role)
  }

  lemma RecordedTail(s: State, s': State, ops: seq<Op>, id: string, login: Login, n: int)
    requires ops != [] && s'.now == s.now + Elapsed(ops[..1]) && RecordedAt(s', ops[1..], id, login, n)
    ensures RecordedAt(s, ops, id, login, n + 1)
  {
    assert ops[..n + 1][1..] == ops[1..][..n] && ops[..n + 1][0] == ops[0];
    assert ops[..1][0] == ops[0] && ops[..1][1..] == [];
  }

  /** A login records and stores what it says. */
  lemma IssuingStep(cfg: Config, s: State, op: Op, id: string)
    requires Issues(op, id) && id !in s.keys
    ensures var s' := Step(cfg, s, op).0;
      && id in s'.logins && s'.logins[id] == Login(s.now, op.subject, op.role)
      && (id in s'.keys <==> Opens(cfg, op, id)) && (id in s'.keys ==> s'.keys[id] == KeyOf(cfg, op, s.now))
  {
  }

  /** Any other request leaves the record, and the key unless it takes it. */
  lemma OtherStep(cfg: Config, s: State, op: Op, id: string)
    requires !Issues(op, id)
    ensures var s' := Step(cfg, s, op).0;
      && (id in s'.logins <==> id in s.logins) && (id in s'.logins ==> s'.logins[id] == s.logins[id])
      && (id in s'.keys ==> id in s.keys && s'.keys[id] == s.keys[id])
  {
  }

  lemma FirstElapsed(cfg: Config, s: State, ops: seq<Op>)
    requires ops != []
    ensures Step(cfg, s, ops[0]).0.now == s.now + Elapsed(ops[..1])
  {
    assert ops[..1][0] == ops[0] && ops[..1][1..] == [];
  }

  lemma {:induction false} LoginRecorded(cfg: Config, s: State, ops: seq<Op>, id: string)
    requires ValidRun(cfg, s, ops) && id in Run(cfg, s, ops).logins && (forall k :: k in s.keys ==> k in s.logins)
    ensures var login := Run(cfg, s, ops).logins[id];
      (id in s.logins && s.logins[id] == login) || exists n :: RecordedAt(s, ops, id, login, n)
    decreases |ops|
  {
    if ops != [] {
      var s', login := Step(cfg, s, ops[0]).0, Run(cfg, s, ops).logins[id];
      KeysIssued(cfg, s, ops[0]);
      LoginRecorded(cfg, s', ops[1..], id);
      if n :| RecordedAt(s', ops[1..], id, login, n) {
        FirstElapsed(cfg, s, ops);
        RecordedTail(s, s', ops, id, login, n);
      } else if Issues(ops[0], id) {
        IssuingStep(cfg, s, ops[0], id);
        assert RecordedAt(s, ops, id, login, 0);
      } else {
        OtherStep(cfg, s, ops[0], id);
      }
    }
  }

  lemma KeysIssued(cfg: Config, s: State, op: Op)
    requires forall k :: k in s.keys ==> k in s.logins
    ensures var s' := Step(cfg, s, op).0; forall k :: k in s'.keys ==> k in s'.logins
  {
  }

  /** A refresh token that request `n` accounts for. */
  predicate FromRequest(cfg: Config, ops: seq<Op>, c: Claims, n: int) {
    && 0 <= n < |ops| && Issues(ops[n], c.id) && c.subject == ops[n].subject && c.role == ops[n].role
    && c.expSec == (Elapsed(ops[..n]) + cfg.refreshDuration) / 1000
  }

  /** After any run, every refresh token handed out, however many refreshes deep, has the subject
      and role of the login request that named its ID, and expires one refresh duration after it. */
  lemma TokensFromRequests(cfg: Config, ops: seq<Op>, c: Claims)
    requires ValidRun(cfg, INIT, ops) && c in Run(cfg, INIT, ops).issued && c.kind == Refresh
    ensures exists n :: FromRequest(cfg, ops, c, n)
  {
    RunFamilies(cfg, INIT, ops);
    var s := Run(cfg, INIT, ops);
    assert OfFamily(cfg, s, c);
    LoginRecorded(cfg, INIT, ops, c.id);
    var n :| RecordedAt(INIT, ops, c.id, s.logins[c.id], n);
    assert FromRequest(cfg, ops, c, n);
  }

  // ----- Keys and listings -----

  /** What a login that stored the session at `time` left as its key. */
  function KeyOf(cfg: Config, op: Op, time: int): Entry
    requires op.LogIn?
  {
    Entry(op.description, if Life(cfg) > 0 then Some(time + Life(cfg)) else None)
  }

  predicate KeptAt(cfg: Config, s: State, ops: seq<Op>, t: State, id: string, n: int) {
    && 0 <= n < |ops| && Opens(cfg, ops[n], id) && id in t.keys && id in t.logins
    && t.keys[id] == KeyOf(cfg, ops[n], s.now + Elapsed(ops[..n])) && t.logins[id].subject == ops[n].subject
  }

  lemma {:induction false} EntryStays(cfg: Config, s: State, ops: seq<Op>, id: string)
    requires ValidRun(cfg, s, ops) && id in s.logins && id in Run(cfg, s, ops).keys
    ensures var t := Run(cfg, s, ops);
      id in s.keys && t.keys[id] == s.keys[id] && id in t.logins && t.logins[id] == s.logins[id]
    decreases |ops|
  {
    if ops != [] {
      EntryStays(cfg, Step(cfg, s, ops[0]).0, ops[1..], id);
    }
  }

  lemma KeptTail(cfg: Config, s: State, s': State, ops: seq<Op>, t: State, id: string, n: int)
    requires ops != [] && s'.now == s.now + Elapsed(ops[..1]) && KeptAt(cfg, s', ops[1..], t, id, n)
    ensures KeptAt(cfg, s, ops, t, id, n + 1)
  {
    assert ops[..n + 1][1..] == ops[1..][..n] && ops[..n + 1][0] == ops[0];
    assert ops[..1][0] == ops[0] && ops[..1][1..] == [];
  }

  lemma {:induction false} KeyKept(cfg: Config, s: State, ops: seq<Op>, id: string)
    requires ValidRun(cfg, s, ops) && id !in s.logins && id !in s.keys && id in Run(cfg, s, ops).keys
    ensures exists n :: KeptAt(cfg, s, ops, Run(cfg, s, ops), id, n)
    decreases |ops|
  {
    if ops != [] {
      var s', t := Step(cfg, s, ops[0]).0, Run(cfg, s, ops);
      if Issues(ops[0], id) {
        IssuingStep(cfg, s, ops[0], id);
        EntryStays(cfg, s', ops[1..], id);
        assert KeptAt(cfg, s, ops, t, id, 0);
      } else {
        OtherStep(cfg, s, ops[0], id);
        KeyKept(cfg, s', ops[1..], id);
        var n :| KeptAt(cfg, s', ops[1..], t, id, n);
        FirstElapsed(cfg, s, ops);
        KeptTail(cfg, s, s', ops, t, id, n);
      }
    }
  }

  /** Two logins of a run do not open the same session. */
  lemma {:induction false} OpensOnce(cfg: Config, s: State, ops: seq<Op>, id: string, a: nat, b: nat)
    requires ValidRun(cfg, s, ops) && a < |ops| && b < |ops| && Opens(cfg, ops[a], id) && Opens(cfg, ops[b], id)
    ensures a == b
    decreases |ops|
  {
    var s' := Step(cfg, s, ops[0]).0;
    if a == 0 && b > 0 {
      IssuedOnce(cfg, s', ops[1..], id, b - 1);
    } else if b == 0 && a > 0 {
      IssuedOnce(cfg, s', ops[1..], id, a - 1);
    } else if a > 0 {
      OpensOnce(cfg, s', ops[1..], id, a - 1, b - 1);
    }
  }

  /** The session was opened by a login of the user, is active since, expires, and is not in the
      last partial second of its life. */
  ghost predicate ShowsByHistory(cfg: Config, ops: seq<Op>, user: string, id: string) {
    Life(cfg) > 0
    && exists n :: ActiveSince(cfg, ops, id, n) && ops[n].subject == user
        && Elapsed(ops) / 1000 < (Elapsed(ops[..n]) + Life(cfg)) / 1000
  }

  /** After any run the key of an active session has the description its login gave and expires
      when the life that began then ends. */
  lemma KeyByHistory(cfg: Config, ops: seq<Op>, id: string, n: int)
    requires ValidRun(cfg, INIT, ops) && ActiveSince(cfg, ops, id, n)
    ensures var s := Run(cfg, INIT, ops);
      id in s.keys && s.keys[id] == KeyOf(cfg, ops[n], Elapsed(ops[..n])) && id in s.logins
          && s.logins[id].subject == ops[n].subject
  {
    ActiveIff(cfg, ops, id);
    KeyKept(cfg, INIT, ops, id);
    var m :| KeptAt(cfg, INIT, ops, Run(cfg, INIT, ops), id, m);
    OpensOnce(cfg, INIT, ops, id, n, m);
  }

  /** After any run the listing of a user is read off the requests alone. */
  lemma ListedByHistory(cfg: Config, ops: seq<Op>, user: string, id: string)
    requires ValidRun(cfg, INIT, ops)
    ensures id in Listed(Run(cfg, INIT, ops), user) <==> ShowsByHistory(cfg, ops, user, id)
  {
    ListedIff(cfg, ops, user, id);
    ActiveIff(cfg, ops, id);
    RunClock(cfg, INIT, ops);
    if id in Run(cfg, INIT, ops).keys {
      var n :| ActiveSince(cfg, ops, id, n);
      KeyByHistory(cfg, ops, id, n);
      if m :| ActiveSince(cfg, ops, id, m) && m != n {
        OpensOnce(cfg, INIT, ops, id, n, m);
        assert false;
      }
    }
  }

  /** Revoking takes the ID from the named user's set only, and listing takes from it exactly the
      members whose second has passed. */
  lemma SetsExact(cfg: Config, s: State, op: Op, user: string, id: string)
    requires op.Revoke? || op.List?
    ensures var t := Step(cfg, s, op).0;
      && (op.Revoke? ==>
            var taken := op.remove != Refused && user == op.user && id == op.id;
            id in SetOf(t, user) <==> id in SetOf(s, user) && !taken)
      && (op.List? ==>
            var past := id in SetOf(s, user) && SetOf(s, user)[id] <= s.now / 1000;
            id in SetOf(t, user) <==> id in SetOf(s, user) && !(op.prune != Refused && user == op.user && past))
      && (id in SetOf(t, user) ==> SetOf(t, user)[id] == SetOf(s, user)[id])
  {
  }
}
