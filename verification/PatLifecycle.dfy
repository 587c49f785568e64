/**
 Personal access tokens from creation to removal. The state holds the `pats` table and
 the clock; every operation carries the outcomes of its database statements. The main
 theorem reads acceptance off the history of operations alone.
 */
module PatLifecycle {
  import opened Outcomes
  import opened Base64
  import opened PatSecret
  import opened Hasher

  datatype Pat = Pat(user: Uuid, secret: string, revoked: bool, expiresAt: int)

  datatype State = State(now: int, pats: map<Uuid, Pat>)

  const INIT := State(0, map[])

  datatype Op =
    | Create(user: Uuid, pat: Uuid, randBytes: seq<Byte>, salt: seq<Byte>, duration: int, save: Outcome)
    | Reset(user: Uuid, pat: Uuid, randBytes: seq<Byte>, salt: seq<Byte>, duration: int, update: Outcome,
        reactivate: Outcome)
    | Revoke(user: Uuid, pat: Uuid, revoke: Outcome)
    | Delete(user: Uuid, pat: Uuid, remove: Outcome)
    | DeleteAll(user: Uuid, remove: Outcome)
    | Tick(ticks: nat)

  predicate Owns(s: State, user: Uuid, pat: Uuid) {
    pat in s.pats && s.pats[pat].user == user
  }

  /** `UpdateTokenHash` and, only if it reported success, `Reactivate`. */
  function ResetPat(row: Pat, secret: string, expiresAt: int, update: Outcome, reactivate: Outcome): Pat {
    if update == Refused then row
    else row.(secret := secret, expiresAt := expiresAt,
              revoked := row.revoked && !(update == Done && reactivate.Applied()))
  }

  function Step(scrypt: Kdf, s: State, op: Op): State {
    match op
    case Create(u, p, r, salt, d, save) =>
      if save.Applied() && p !in s.pats then
        s.(pats := s.pats[p := Pat(u, Hash(scrypt, GenerateSecret(u, p, r), salt), false, s.now + d)])
      else s
    case Reset(u, p, r, salt, d, update, reactivate) =>
      if Owns(s, u, p) then
        var hash := Hash(scrypt, GenerateSecret(u, p, r), salt);
        s.(pats := s.pats[p := ResetPat(s.pats[p], hash, s.now + d, update, reactivate)])
      else s
    case Revoke(u, p, o) =>
      if o.Applied() && Owns(s, u, p) then s.(pats := s.pats[p := s.pats[p].(revoked := true)]) else s
    case Delete(u, p, o) =>
      if o.Applied() && Owns(s, u, p) then s.(pats := s.pats - {p}) else s
    case DeleteAll(u, o) =>
      if o.Applied() then s.(pats := map p | p in s.pats && s.pats[p].user != u :: s.pats[p]) else s
    case Tick(ticks) => s.(now := s.now + ticks)
  }

  function Run(scrypt: Kdf, ops: seq<Op>): State {
    if ops == [] then INIT else Step(scrypt, Run(scrypt, ops[..|ops| - 1]), ops[|ops| - 1])
  }

  datatype Identity = Accepted(user: Uuid, pat: Uuid) | Rejected | Panics

  /** `IdentifyPAT`: parse, look up, then the revoked, expired and hash checks in turn. */
  function Identify(scrypt: Kdf, s: State, secret: string): Identity {
    match ParseSecret(secret)
    case Malformed => Rejected
    case OutOfRange => Panics
    case Ids(u, p) =>
      if !Owns(s, u, p) then Rejected
      else if s.pats[p].revoked then Rejected
      else if s.now > s.pats[p].expiresAt then Rejected
      else if Compare(scrypt, secret, s.pats[p].secret) != Same then Rejected
      else Accepted(u, p)
  }

  // ----- What the history says, without any table -----

  /** The token provider never issues an identifier twice. */
  ghost predicate FreshIds(ops: seq<Op>) {
    forall i, j :: 0 <= i < j < |ops| && ops[i].Create? && ops[j].Create? ==> ops[i].pat != ops[j].pat
  }

  predicate Creates(op: Op, u: Uuid, p: Uuid) {
    op.Create? && op.user == u && op.pat == p && op.save.Applied()
  }

  predicate Removes(op: Op, u: Uuid, p: Uuid) {
    (op.Delete? && op.user == u && op.pat == p && op.remove.Applied())
        || (op.DeleteAll? && op.user == u && op.remove.Applied())
  }

  predicate Stores(op: Op, u: Uuid, p: Uuid) {
    Creates(op, u, p) || (op.Reset? && op.user == u && op.pat == p && op.update.Applied())
  }

  predicate Revokes(op: Op, u: Uuid, p: Uuid) {
    op.Revoke? && op.user == u && op.pat == p && op.revoke.Applied()
  }

  /** Creation, or a reset whose two statements both took effect. */
  predicate Reactivates(op: Op, u: Uuid, p: Uuid) {
    Creates(op, u, p)
    || (op.Reset? && op.user == u && op.pat == p && op.update == Done && op.reactivate.Applied())
  }

  /** Created and not removed since. */
  ghost predicate Exists(ops: seq<Op>, u: Uuid, p: Uuid) {
    exists c :: 0 <= c < |ops| && Creates(ops[c], u, p) && forall k :: c < k < |ops| ==> !Removes(ops[k], u, p)
  }

  /** Operation `i` is the last one that stored a secret. */
  ghost predicate StoredLast(ops: seq<Op>, i: int, u: Uuid, p: Uuid) {
    0 <= i < |ops| && Stores(ops[i], u, p) && forall k :: i < k < |ops| ==> !Stores(ops[k], u, p)
  }

  /** Not revoked since it was last reactivated. */
  ghost predicate Unrevoked(ops: seq<Op>, u: Uuid, p: Uuid) {
    exists j :: 0 <= j < |ops| && Reactivates(ops[j], u, p) && forall k :: j < k < |ops| ==> !Revokes(ops[k], u, p)
  }

  function SecretOf(op: Op): string
    requires op.Create? || op.Reset?
  {
    GenerateSecret(op.user, op.pat, op.randBytes)
  }

  function Clock(ops: seq<Op>): int {
    if ops == [] then 0
    else Clock(ops[..|ops| - 1]) + if ops[|ops| - 1].Tick? then ops[|ops| - 1].ticks else 0
  }

  ghost predicate HistoryAccepts(ops: seq<Op>, u: Uuid, p: Uuid, secret: string) {
    && Exists(ops, u, p)
    && Unrevoked(ops, u, p)
    && exists i :: StoredLast(ops, i, u, p) && secret == SecretOf(ops[i])
        && Clock(ops) <= Clock(ops[..i]) + ops[i].duration
  }

  // ----- The history predicates one operation at a time -----

  lemma ExistsSnoc(ops: seq<Op>, op: Op, u: Uuid, p: Uuid)
    ensures Exists(ops + [op], u, p) <==> Creates(op, u, p) || (Exists(ops, u, p) && !Removes(op, u, p))
  {
    var all := ops + [op];
    assert forall k :: 0 <= k < |ops| ==> all[k] == ops[k];
    if Creates(op, u, p) {
      assert Creates(all[|ops|], u, p);
    } else if Exists(ops, u, p) && !Removes(op, u, p) {
      var c :| 0 <= c < |ops| && Creates(ops[c], u, p) && forall k :: c < k < |ops| ==> !Removes(ops[k], u, p);
      assert Creates(all[c], u, p);
    }
    if Exists(all, u, p) {
      var c :| 0 <= c < |all| && Creates(all[c], u, p) && forall k :: c < k < |all| ==> !Removes(all[k], u, p);
      if c < |ops| {
        assert Creates(ops[c], u, p) && !Removes(all[|ops|], u, p);
        assert forall k :: c < k < |ops| ==> !Removes(all[k], u, p);
      }
    }
  }

  lemma UnrevokedSnoc(ops: seq<Op>, op: Op, u: Uuid, p: Uuid)
    ensures Unrevoked(ops + [op], u, p) <==> Reactivates(op, u, p) || (Unrevoked(ops, u, p) && !Revokes(op, u, p))
  {
    var all := ops + [op];
    assert forall k :: 0 <= k < |ops| ==> all[k] == ops[k];
    if Reactivates(op, u, p) {
      assert Reactivates(all[|ops|], u, p);
    } else if Unrevoked(ops, u, p) && !Revokes(op, u, p) {
      var j :| 0 <= j < |ops| && Reactivates(ops[j], u, p) && forall k :: j < k < |ops| ==> !Revokes(ops[k], u, p);
      assert Reactivates(all[j], u, p);
    }
    if Unrevoked(all, u, p) {
      var j :| 0 <= j < |all| && Reactivates(all[j], u, p) && forall k :: j < k < |all| ==> !Revokes(all[k], u, p);
      if j < |ops| {
        assert Reactivates(ops[j], u, p) && !Revokes(all[|ops|], u, p);
        assert forall k :: j < k < |ops| ==> !Revokes(all[k], u, p);
      }
    }
  }

  lemma StoredLastSnoc(ops: seq<Op>, op: Op, i: int, u: Uuid, p: Uuid)
    ensures StoredLast(ops + [op], i, u, p)
       <==> if i == |ops| then Stores(op, u, p) else StoredLast(ops, i, u, p) && !Stores(op, u, p)
  {
    var all := ops + [op];
    assert forall k :: 0 <= k < |ops| ==> all[k] == ops[k];
    if StoredLast(all, i, u, p) && i < |ops| {
      assert !Stores(all[|ops|], u, p);
      assert forall k :: i < k < |ops| ==> !Stores(all[k], u, p);
    }
  }

  /** Operation `i` was the last to store, and the row holds its hash and expiry. */
  ghost predicate HoldsFrom(scrypt: Kdf, row: Pat, ops: seq<Op>, i: int, u: Uuid, p: Uuid) {
    && StoredLast(ops, i, u, p)
    && row.secret == Hash(scrypt, SecretOf(ops[i]), ops[i].salt)
    && row.expiresAt == Clock(ops[..i]) + ops[i].duration
  }

  ghost predicate Holds(scrypt: Kdf, row: Pat, ops: seq<Op>, u: Uuid, p: Uuid) {
    exists i :: HoldsFrom(scrypt, row, ops, i, u, p)
  }

  /** The row of a token is exactly what its history predicts. */
  ghost predicate Tracks(scrypt: Kdf, s: State, ops: seq<Op>, u: Uuid, p: Uuid) {
    && (Owns(s, u, p) <==> Exists(ops, u, p))
    && (Owns(s, u, p) ==> (!s.pats[p].revoked <==> Unrevoked(ops, u, p)) && Holds(scrypt, s.pats[p], ops, u, p))
  }

  lemma {:induction false} ClockIsNow(scrypt: Kdf, ops: seq<Op>)
    ensures Run(scrypt, ops).now == Clock(ops)
  {
    if ops != [] {
      ClockIsNow(scrypt, ops[..|ops| - 1]);
    }
  }

  /** Rows come only from creations of the run. */
  lemma {:induction false} RowsWereCreated(scrypt: Kdf, ops: seq<Op>, p: Uuid)
    requires p in Run(scrypt, ops).pats
    ensures exists c :: 0 <= c < |ops| && ops[c].Create? && ops[c].pat == p
  {
    var n := |ops| - 1;
    if p in Run(scrypt, ops[..n]).pats {
      RowsWereCreated(scrypt, ops[..n], p);
      var c :| 0 <= c < n && ops[..n][c].Create? && ops[..n][c].pat == p;
      assert ops[c].Create?;
    } else {
      assert ops[n].Create?;
    }
  }

  /** What one operation does to the row of one token. */
  ghost predicate RowStep(scrypt: Kdf, s: State, s': State, op: Op, u: Uuid, p: Uuid) {
    && (Owns(s', u, p) <==> Creates(op, u, p) || (Owns(s, u, p) && !Removes(op, u, p)))
    && (Owns(s', u, p) ==>
        && (!s'.pats[p].revoked
            <==> Reactivates(op, u, p) || (Owns(s, u, p) && !s.pats[p].revoked && !Revokes(op, u, p)))
        && if Stores(op, u, p)
           then s'.pats[p].secret == Hash(scrypt, SecretOf(op), op.salt) && s'.pats[p].expiresAt == s.now + op.duration
           else Owns(s, u, p) && s'.pats[p].secret == s.pats[p].secret && s'.pats[p].expiresAt == s.pats[p].expiresAt)
  }

  lemma StepRow(scrypt: Kdf, s: State, op: Op, u: Uuid, p: Uuid)
    requires op.Create? ==> op.pat !in s.pats
    ensures RowStep(scrypt, s, Step(scrypt, s, op), op, u, p)
  {
  }

  /** An operation that stores becomes the last one to do so. */
  lemma HoldsNew(scrypt: Kdf, row: Pat, ops: seq<Op>, op: Op, u: Uuid, p: Uuid)
    requires Stores(op, u, p) && row.secret == Hash(scrypt, SecretOf(op), op.salt)
        && row.expiresAt == Clock(ops) + op.duration
    ensures Holds(scrypt, row, ops + [op], u, p)
  {
    StoredLastSnoc(ops, op, |ops|, u, p);
    assert (ops + [op])[|ops|] == op && (ops + [op])[..|ops|] == ops;
    assert HoldsFrom(scrypt, row, ops + [op], |ops|, u, p);
  }

  /** Any other operation leaves the last one as it was. */
  lemma HoldsOn(scrypt: Kdf, row: Pat, row': Pat, ops: seq<Op>, op: Op, u: Uuid, p: Uuid)
    requires Holds(scrypt, row, ops, u, p) && !Stores(op, u, p)
    requires row'.secret == row.secret && row'.expiresAt == row.expiresAt
    ensures Holds(scrypt, row', ops + [op], u, p)
  {
    var i :| HoldsFrom(scrypt, row, ops, i, u, p);
    StoredLastSnoc(ops, op, i, u, p);
    assert (ops + [op])[i] == ops[i] && (ops + [op])[..i] == ops[..i];
    assert HoldsFrom(scrypt, row', ops + [op], i, u, p);
  }

  lemma HoldsStep(scrypt: Kdf, s: State, s': State, ops: seq<Op>, op: Op, u: Uuid, p: Uuid)
    requires Owns(s', u, p) && (Owns(s, u, p) ==> Holds(scrypt, s.pats[p], ops, u, p)) && s.now == Clock(ops)
    requires RowStep(scrypt, s, s', op, u, p)
    ensures Holds(scrypt, s'.pats[p], ops + [op], u, p)
  {
    if Stores(op, u, p) {
      HoldsNew(scrypt, s'.pats[p], ops, op, u, p);
    } else {
      HoldsOn(scrypt, s.pats[p], s'.pats[p], ops, op, u, p);
    }
  }

  lemma TracksStep(scrypt: Kdf, s: State, s': State, ops: seq<Op>, op: Op, u: Uuid, p: Uuid)
    requires Tracks(scrypt, s, ops, u, p) && s.now == Clock(ops)
    requires RowStep(scrypt, s, s', op, u, p)
    ensures Tracks(scrypt, s', ops + [op], u, p)
  {
    ExistsSnoc(ops, op, u, p);
    UnrevokedSnoc(ops, op, u, p);
    if Owns(s', u, p) {
      HoldsStep(scrypt, s, s', ops, op, u, p);
    }
  }

  lemma {:induction false} RunTracks(scrypt: Kdf, ops: seq<Op>, u: Uuid, p: Uuid)
    requires FreshIds(ops)
    ensures Tracks(scrypt, Run(scrypt, ops), ops, u, p)
  {
    if ops != [] {
      var n := |ops| - 1;
      var before := ops[..n];
      RunTracks(scrypt, before, u, p);
      ClockIsNow(scrypt, before);
      if ops[n].Create? && ops[n].pat in Run(scrypt, before).pats {
        RowsWereCreated(scrypt, before, ops[n].pat);
        assert false;
      }
      StepRow(scrypt, Run(scrypt, before), ops[n], u, p);
      TracksStep(scrypt, Run(scrypt, before), Run(scrypt, ops), before, ops[n], u, p);
      assert before + [ops[n]] == ops;
    }
  }

  lemma StoredLastUnique(ops: seq<Op>, i: int, j: int, u: Uuid, p: Uuid)
    requires StoredLast(ops, i, u, p) && StoredLast(ops, j, u, p)
    ensures i == j
  {
  }

  /** After any run, a secret is accepted for a token exactly when the token still exists,
      the secret is the one stored last, it was not revoked since the last reactivation and
      its time has not passed. */
  lemma IdentifyIff(scrypt: Kdf, ops: seq<Op>, u: Uuid, p: Uuid, secret: string)
    requires Ideal(scrypt) && FreshIds(ops)
    ensures Identify(scrypt, Run(scrypt, ops), secret) == Accepted(u, p) <==> HistoryAccepts(ops, u, p, secret)
  {
    var s := Run(scrypt, ops);
    RunTracks(scrypt, ops, u, p);
    ClockIsNow(scrypt, ops);
    if Owns(s, u, p) {
      var i :| HoldsFrom(scrypt, s.pats[p], ops, i, u, p);
      HeldIsAccepted(scrypt, s, ops, i, u, p, secret);
    }
  }

  /** On a row with the hash of a generated secret, just that secret is accepted, until it is
      revoked or expires. */
  lemma IdentifyStored(scrypt: Kdf, s: State, u: Uuid, p: Uuid, randBytes: seq<Byte>, salt: seq<Byte>, secret: string)
    requires Ideal(scrypt) && Owns(s, u, p)
    requires s.pats[p].secret == Hash(scrypt, GenerateSecret(u, p, randBytes), salt)
    ensures Identify(scrypt, s, secret) == Accepted(u, p)
       <==> secret == GenerateSecret(u, p, randBytes) && !s.pats[p].revoked && s.now <= s.pats[p].expiresAt
  {
    CompareIsEquality(scrypt, secret, GenerateSecret(u, p, randBytes), salt);
    SecretRoundTrip(u, p, randBytes);
  }

  /** When operation `i` stored last, the history accepts its secret and no other. */
  lemma HistoryOfLast(ops: seq<Op>, i: int, u: Uuid, p: Uuid, secret: string)
    requires StoredLast(ops, i, u, p)
    ensures HistoryAccepts(ops, u, p, secret)
       <==> Exists(ops, u, p) && Unrevoked(ops, u, p) && secret == SecretOf(ops[i])
            && Clock(ops) <= Clock(ops[..i]) + ops[i].duration
  {
    if HistoryAccepts(ops, u, p, secret) {
      var j :| StoredLast(ops, j, u, p) && secret == SecretOf(ops[j])
          && Clock(ops) <= Clock(ops[..j]) + ops[j].duration;
      StoredLastUnique(ops, i, j, u, p);
    }
  }

  /** On a row that holds what operation `i` stored, identification and history agree. */
  lemma HeldIsAccepted(scrypt: Kdf, s: State, ops: seq<Op>, i: int, u: Uuid, p: Uuid, secret: string)
    requires Ideal(scrypt) && Tracks(scrypt, s, ops, u, p) && s.now == Clock(ops)
    requires Owns(s, u, p) && HoldsFrom(scrypt, s.pats[p], ops, i, u, p)
    ensures Identify(scrypt, s, secret) == Accepted(u, p) <==> HistoryAccepts(ops, u, p, secret)
  {
    IdentifyStored(scrypt, s, u, p, ops[i].randBytes, ops[i].salt, secret);
    HistoryOfLast(ops, i, u, p, secret);
  }

  // ----- Listing -----

  datatype Status = Active | Revoked | Expired

  /** The CASE expression of the listing and retrieval queries. */
  function CaseStatus(row: Pat, timestamp: int): Status {
    if row.revoked then Status.Revoked else if row.expiresAt < timestamp then Expired else Active
  }

  /** The WHERE clause that `PageQuery` builds for a requested status. */
  predicate StatusFilter(row: Pat, timestamp: int, wanted: Status) {
    match wanted
    case Revoked => row.revoked
    case Expired => !row.revoked && row.expiresAt < timestamp
    case Active => !row.revoked && row.expiresAt >= timestamp
  }

  /** Listing by status returns exactly the rows shown with that status, and a stored secret
      identifies its token exactly when the listing shows the token as active. */
  lemma ListingAgrees(scrypt: Kdf, s: State, u: Uuid, p: Uuid, randBytes: seq<Byte>, salt: seq<Byte>)
    requires Ideal(scrypt) && Owns(s, u, p)
    requires s.pats[p].secret == Hash(scrypt, GenerateSecret(u, p, randBytes), salt)
    ensures forall wanted :: StatusFilter(s.pats[p], s.now, wanted) <==> CaseStatus(s.pats[p], s.now) == wanted
    ensures Identify(scrypt, s, GenerateSecret(u, p, randBytes)) == Accepted(u, p)
        <==> CaseStatus(s.pats[p], s.now) == Active
  {
    SecretRoundTrip(u, p, randBytes);
    CompareIsEquality(scrypt, GenerateSecret(u, p, randBytes), GenerateSecret(u, p, randBytes), salt);
  }

  /** The service over its table. */
  class PatService {
    const scrypt: Kdf
    var now: int
    var pats: map<Uuid, Pat>

    constructor (scrypt: Kdf)
      ensures this.scrypt == scrypt && Abs() == INIT
    {
      this.scrypt, now, pats := scrypt, 0, map[];
    }

    ghost function Abs(): State
      reads this
    {
      State(now, pats)
    }

    method CreatePat(user: Uuid, pat: Uuid, randBytes: seq<Byte>, salt: seq<Byte>, duration: int, save: Outcome)
      returns (secret: Option<string>)
      modifies this`pats
      ensures Abs() == Step(scrypt, old(Abs()), Create(user, pat, randBytes, salt, duration, save))
      ensures secret == if save == Done && pat !in old(pats) then Some(GenerateSecret(user, pat, randBytes)) else None
    {
      var text := GenerateSecret(user, pat, randBytes);
      var hash := Hash(scrypt, text, salt);
      if save == Refused || pat in pats { return None; }
      pats := pats[pat := Pat(user, hash, false, now + duration)];
      secret := if save == Done then Some(text) else None;
    }

    method ResetPatSecret(user: Uuid, pat: Uuid, randBytes: seq<Byte>, salt: seq<Byte>, duration: int, update: Outcome,
        reactivate: Outcome)
      returns (secret: Option<string>)
      modifies this`pats
      ensures Abs() == Step(scrypt, old(Abs()), Reset(user, pat, randBytes, salt, duration, update, reactivate))
      ensures secret == if old(Owns(Abs(), user, pat)) && update == Done && reactivate == Done
                        then Some(GenerateSecret(user, pat, randBytes)) else None
    {
      var text := GenerateSecret(user, pat, randBytes);
      var hash := Hash(scrypt, text, salt);
      if pat !in pats || pats[pat].user != user { return None; }
      if update.Applied() {
        pats := pats[pat := pats[pat].(secret := hash, expiresAt := now + duration)];
      }
      if update != Done { return None; }
      if reactivate.Applied() {
        pats := pats[pat := pats[pat].(revoked := false)];
      }
      secret := if reactivate == Done then Some(text) else None;
    }

    method RevokePatSecret(user: Uuid, pat: Uuid, revoke: Outcome)
      modifies this`pats
      ensures Abs() == Step(scrypt, old(Abs()), Revoke(user, pat, revoke))
    {
      if revoke.Applied() && pat in pats && pats[pat].user == user {
        pats := pats[pat := pats[pat].(revoked := true)];
      }
    }

    method DeletePat(user: Uuid, pat: Uuid, remove: Outcome)
      modifies this`pats
      ensures Abs() == Step(scrypt, old(Abs()), Delete(user, pat, remove))
    {
      if remove.Applied() && pat in pats && pats[pat].user == user {
        pats := pats - {pat};
      }
    }

    method RemoveAllPat(user: Uuid, remove: Outcome)
      modifies this`pats
      ensures Abs() == Step(scrypt, old(Abs()), DeleteAll(user, remove))
    {
      if remove.Applied() {
        pats := map p | p in pats && pats[p].user != user :: pats[p];
      }
    }

    method IdentifyPat(secret: string) returns (identity: Identity)
      ensures identity == Identify(scrypt, Abs(), secret)
    {
      match ParseSecret(secret)
      case Malformed => return Rejected;
      case OutOfRange => return Panics;
      case Ids(u, p) =>
        if p !in pats || pats[p].user != u { return Rejected; }
        var row := pats[p];
        if row.revoked || now > row.expiresAt { return Rejected; }
        if Compare(scrypt, secret, row.secret) != Same { return Rejected; }
        return Accepted(u, p);
    }
  }
}
