/**
 Email verification: a one-time password is stored for a user and email and sent out inside a
 token; presenting the token uses it up. JSON is an arbitrary codec that reads back what it
 wrote; the token text is its URL base64.
 */
module Verification {
  import opened Outcomes
  import opened Base64

  const EXPIRY_DURATION := 24 * 60 * 60 * 1000

  /** Times are zero when unset. */
  datatype Record = Record(userID: string, email: string, otp: string, createdAt: nat, expiresAt: nat, usedAt: nat)

  /** The fields that are marshalled. */
  datatype Payload = Payload(userID: string, email: string, otp: string)

  // ----- The token -----

  datatype Codec = Codec(marshal: Payload -> seq<Byte>, unmarshal: seq<Byte> -> Option<Payload>)

  ghost predicate Faithful(json: Codec) {
    forall p :: json.unmarshal(json.marshal(p)) == Some(p)
  }

  function PayloadOf(r: Record): Payload {
    Payload(r.userID, r.email, r.otp)
  }

  predicate Complete(p: Payload) {
    p.userID != "" && p.email != "" && p.otp != ""
  }

  function Encode(json: Codec, r: Record): string {
    EncodeToString(Url, json.marshal(PayloadOf(r)))
  }

  function Decode(json: Codec, token: string): Option<Payload> {
    var data := DecodeString(Url, token);
    if data.None? then None
    else
      var p := json.unmarshal(data.value);
      if p.None? || !Complete(p.value) then None else p
  }

  /** A token gives back the user, email and one-time password it was made from, exactly when
      none of them is empty. */
  lemma DecodeOfEncode(json: Codec, r: Record)
    requires Faithful(json)
    ensures Decode(json, Encode(json, r)) == if Complete(PayloadOf(r)) then Some(PayloadOf(r)) else None
  {
    Base64.DecodeOfEncode(Url, json.marshal(PayloadOf(r)));
  }

  // ----- Checks on a record -----

  /** `Valid`: complete, with sensible times, not expired and not used. */
  predicate Valid(r: Record, now: nat) {
    && Complete(PayloadOf(r)) && r.createdAt != 0 && r.expiresAt != 0 && r.createdAt <= r.expiresAt
    && now <= r.expiresAt && r.usedAt == 0
  }

  const NOTHING := Record("", "", "", 0, 0, 0)

  function NewRecord(userID: string, email: string, otp: string, now: nat): Record {
    Record(userID, email, otp, now, now + EXPIRY_DURATION, 0)
  }

  // ----- The store -----

  datatype User = User(email: string, verifiedAt: nat)

  /** `otps` are the one-time passwords generated so far. */
  datatype State = State(now: nat, users: map<string, User>, rows: seq<Record>, otps: set<string>)

  predicate For(r: Record, userID: string, email: string) {
    r.userID == userID && r.email == email
  }

  /** `pick` is a row that ORDER BY created_at DESC LIMIT 1 can return. */
  predicate Latest(rows: seq<Record>, userID: string, email: string, pick: nat) {
    && pick < |rows| && For(rows[pick], userID, email)
    && forall j :: 0 <= j < |rows| && For(rows[j], userID, email) ==> rows[j].createdAt <= rows[pick].createdAt
  }

  predicate HasRow(rows: seq<Record>, userID: string, email: string) {
    exists j :: 0 <= j < |rows| && For(rows[j], userID, email)
  }

  function Retrieve(rows: seq<Record>, userID: string, email: string, pick: nat): Record
    requires HasRow(rows, userID, email) ==> Latest(rows, userID, email, pick)
  {
    if HasRow(rows, userID, email) then rows[pick] else NOTHING
  }

  /** `UpdateUserVerification` writes the password and the time into every row of the pair. */
  function UseAll(rows: seq<Record>, used: Record, now: nat): seq<Record> {
    seq(|rows|, i requires 0 <= i < |rows| => if For(rows[i], used.userID, used.email)
        then rows[i].(otp := used.otp, usedAt := now) else rows[i])
  }

  datatype Op =
    | AddUser(id: string, email: string)
      /** `otp` is freshly generated. */
    | Send(id: string, otp: string, read: Outcome, pick: nat, add: Outcome, mail: Outcome)
    | Verify(token: string, read: Outcome, pick: nat, use: Outcome, mark: Outcome)
    | UpdateEmail(id: string, email: string, update: Outcome)
    | Tick(ticks: nat)

  datatype Reply = Sent(token: string) | Verified(payload: Payload) | Fine | Failed

  predicate Possible(json: Codec, s: State, op: Op) {
    match op
    case AddUser(id, email) => id !in s.users && id != "" && email != ""
    case Send(id, otp, _, pick, _, _) =>
      && otp !in s.otps && otp != ""
      && (id in s.users && HasRow(s.rows, id, s.users[id].email) ==> Latest(s.rows, id, s.users[id].email, pick))
    case Verify(token, _, pick, _, _) =>
      var p := Decode(json, token);
      p.Some? && HasRow(s.rows, p.value.userID, p.value.email) ==> Latest(s.rows, p.value.userID, p.value.email, pick)
    case UpdateEmail(_, email, _) => email != ""
    case Tick(_) => true
  }

  function SendStep(json: Codec, s: State, op: Op): (State, Reply)
    requires op.Send? && Possible(json, s, op)
  {
    if op.read != Done || op.id !in s.users || s.users[op.id].verifiedAt != 0 then (s, Failed)
    else
      var email := s.users[op.id].email;
      var stored := Retrieve(s.rows, op.id, email, op.pick);
      if Valid(stored, s.now) then (s, if op.mail == Done then Sent(Encode(json, stored)) else Failed)
      else
        var added := NewRecord(op.id, email, op.otp, s.now);
        var s1 := s.(otps := s.otps + {op.otp}, rows := if op.add.Applied() then s.rows + [added] else s.rows);
        (s1, if op.add == Done && op.mail == Done then Sent(Encode(json, added)) else Failed)
  }

  function VerifyStep(json: Codec, s: State, op: Op): (State, Reply)
    requires op.Verify? && Possible(json, s, op)
  {
    var p := Decode(json, op.token);
    if p.None? || op.read != Done || !HasRow(s.rows, p.value.userID, p.value.email) then (s, Failed)
    else
      var stored := Retrieve(s.rows, p.value.userID, p.value.email, op.pick);
      if PayloadOf(stored) != p.value || !Valid(stored, s.now) || op.use == Refused then (s, Failed)
      else
        var s1 := s.(rows := UseAll(s.rows, stored, s.now));
        var id := stored.userID;
        if op.use == Lost || op.mark == Refused || id !in s.users || s.users[id].email != stored.email then (s1, Failed)
        else (s1.(users := s.users[id := s.users[id].(verifiedAt := s.now)]), if op.mark == Done
            then Verified(p.value) else Failed)
  }

  function Step(json: Codec, s: State, op: Op): (State, Reply)
    requires Possible(json, s, op)
  {
    match op
    case AddUser(id, email) => (s.(users := s.users[id := User(email, 0)]), Fine)
    case Send(_, _, _, _, _, _) => SendStep(json, s, op)
    case Verify(_, _, _, _, _) => VerifyStep(json, s, op)
    case UpdateEmail(id, email, update) =>
      if update == Refused || id !in s.users || s.users[id].email == email then (s, Failed)
      else (s.(users := s.users[id := User(email, 0)]), if update == Done then Fine else Failed)
    case Tick(ticks) => (s.(now := s.now + ticks), Fine)
  }

  predicate ValidRun(json: Codec, s: State, ops: seq<Op>)
    decreases |ops|
  {
    ops == [] || (Possible(json, s, ops[0]) && ValidRun(json, Step(json, s, ops[0]).0, ops[1..]))
  }

  function Run(json: Codec, s: State, ops: seq<Op>): State
    requires ValidRun(json, s, ops)
    decreases |ops|
  {
    if ops == [] then s else Run(json, Step(json, s, ops[0]).0, ops[1..])
  }

  // ----- What every run keeps -----

  predicate RowKnown(s: State, i: nat)
    requires i < |s.rows|
  {
    s.rows[i].otp in s.otps && s.rows[i].createdAt <= s.now
  }

  /** Stored passwords were generated, and a password not yet used is in one row only. */
  ghost predicate Sound(s: State) {
    && s.now > 0
    && (forall i :: 0 <= i < |s.rows| ==> RowKnown(s, i))
    && (forall i, j :: 0 <= i < |s.rows| && 0 <= j < |s.rows| && i != j && s.rows[i].usedAt == 0 ==>
        s.rows[i].otp != s.rows[j].otp)
  }

  lemma StepSound(json: Codec, s: State, op: Op)
    requires Possible(json, s, op) && Sound(s)
    ensures Sound(Step(json, s, op).0)
  {
    var s' := Step(json, s, op).0;
    forall i | 0 <= i < |s'.rows|
      ensures RowKnown(s', i)
    {
      assert i < |s.rows| ==> RowKnown(s, i);
      assert op.Verify? && op.pick < |s.rows| ==> RowKnown(s, op.pick);
    }
    forall i, j | 0 <= i < |s'.rows| && 0 <= j < |s'.rows| && i != j && s'.rows[i].usedAt == 0
      ensures s'.rows[i].otp != s'.rows[j].otp
    {
      assert i < |s.rows| ==> RowKnown(s, i);
      assert j < |s.rows| ==> RowKnown(s, j);
      assert op.Verify? && op.pick < |s.rows| && op.pick != i ==> s.rows[i].otp != s.rows[op.pick].otp;
    }
  }

  lemma {:induction false} RunSound(json: Codec, s: State, ops: seq<Op>)
    requires ValidRun(json, s, ops) && Sound(s)
    ensures Sound(Run(json, s, ops))
    decreases |ops|
  {
    if ops != [] {
      StepSound(json, s, ops[0]);
      RunSound(json, Step(json, s, ops[0]).0, ops[1..]);
    }
  }

  // ----- At most once -----

  /** Every stored row with this payload has been used. */
  ghost predicate Spent(s: State, p: Payload) {
    p.otp in s.otps && s.now > 0 && forall i :: 0 <= i < |s.rows| && PayloadOf(s.rows[i]) == p ==> s.rows[i].usedAt != 0
  }

  lemma StepSpent(json: Codec, s: State, op: Op, p: Payload)
    requires Possible(json, s, op) && Spent(s, p)
    ensures Spent(Step(json, s, op).0, p)
  {
  }

  lemma {:induction false} RunSpent(json: Codec, s: State, ops: seq<Op>, p: Payload)
    requires ValidRun(json, s, ops) && Spent(s, p)
    ensures Spent(Run(json, s, ops), p)
    decreases |ops|
  {
    if ops != [] {
      StepSpent(json, s, ops[0], p);
      RunSpent(json, Step(json, s, ops[0]).0, ops[1..], p);
    }
  }

  /** A verification that changes anything, whether it is reported as a success or not, spends
      its password. */
  lemma VerifySpends(json: Codec, s: State, op: Op)
    requires op.Verify? && Possible(json, s, op) && Sound(s)
    requires Step(json, s, op).0 != s || Step(json, s, op).1.Verified?
    ensures Decode(json, op.token).Some? && Spent(Step(json, s, op).0, Decode(json, op.token).value)
  {
    assert RowKnown(s, op.pick);
  }

  lemma SpentRefused(json: Codec, s: State, op: Op, p: Payload)
    requires op.Verify? && Possible(json, s, op) && Spent(s, p) && Decode(json, op.token) == Some(p)
    ensures Step(json, s, op) == (s, Failed)
  {
  }

  /** Over any run, the password of a token that was accepted, or used up without success, is
      never accepted again. */
  lemma AcceptedOnce(json: Codec, s: State, before: seq<Op>, first: Op, between: seq<Op>, again: Op)
    requires Sound(s) && ValidRun(json, s, before)
    requires first.Verify? && Possible(json, Run(json, s, before), first)
    requires var t := Run(json, s, before); Step(json, t, first).0 != t || Step(json, t, first).1.Verified?
    requires ValidRun(json, Step(json, Run(json, s, before), first).0, between)
    requires var t := Run(json, Step(json, Run(json, s, before), first).0, between);
      again.Verify? && Possible(json, t, again) && Decode(json, again.token) == Decode(json, first.token)
    ensures var t := Run(json, Step(json, Run(json, s, before), first).0, between); Step(json, t, again) == (t, Failed)
  {
    RunSound(json, s, before);
    var t := Run(json, s, before);
    VerifySpends(json, t, first);
    var p := Decode(json, first.token).value;
    RunSpent(json, Step(json, t, first).0, between, p);
    SpentRefused(json, Run(json, Step(json, t, first).0, between), again, p);
  }

  // ----- The first verification succeeds -----

  /** Row `i` holds `r`, unused and newer than every other row of its pair. */
  ghost predicate Live(s: State, i: nat, r: Record) {
    && i < |s.rows| && s.rows[i] == r && Valid(r, r.createdAt)
    && forall j :: 0 <= j < |s.rows| && j != i && For(s.rows[j], r.userID, r.email)
        ==> s.rows[j].createdAt < r.createdAt
  }

  /** No row outlives `r` under its payload. */
  ghost predicate Bounded(s: State, r: Record) {
    r.otp in s.otps && forall j :: 0 <= j < |s.rows| && PayloadOf(s.rows[j]) == PayloadOf(r) ==>
        s.rows[j].expiresAt <= r.expiresAt
  }

  /** The request does not present the token of `r`. */
  predicate Leaves(json: Codec, op: Op, r: Record) {
    op.Verify? ==> Decode(json, op.token) != Some(PayloadOf(r))
  }

  lemma StepLive(json: Codec, s: State, op: Op, i: nat, r: Record)
    requires Live(s, i, r) && Possible(json, s, op) && Leaves(json, op, r) && s.now <= r.expiresAt
    ensures Live(Step(json, s, op).0, i, r)
  {
    assert HasRow(s.rows, r.userID, r.email);
  }

  lemma StepBounded(json: Codec, s: State, op: Op, r: Record)
    requires Bounded(s, r) && Possible(json, s, op) && Leaves(json, op, r)
    ensures Bounded(Step(json, s, op).0, r)
  {
  }

  lemma {:induction false} ClockAdvances(json: Codec, s: State, ops: seq<Op>)
    requires ValidRun(json, s, ops)
    ensures s.now <= Run(json, s, ops).now
    decreases |ops|
  {
    if ops != [] {
      ClockAdvances(json, Step(json, s, ops[0]).0, ops[1..]);
    }
  }

  lemma {:induction false} RunLive(json: Codec, s: State, ops: seq<Op>, i: nat, r: Record)
    requires Live(s, i, r) && Bounded(s, r) && ValidRun(json, s, ops)
    requires forall op :: op in ops ==> Leaves(json, op, r)
    ensures Run(json, s, ops).now <= r.expiresAt ==> Live(Run(json, s, ops), i, r)
    ensures Bounded(Run(json, s, ops), r)
    decreases |ops|
  {
    if ops != [] {
      assert ops[0] in ops;
      ClockAdvances(json, s, ops);
      StepBounded(json, s, ops[0], r);
      if s.now <= r.expiresAt {
        StepLive(json, s, ops[0], i, r);
        RunLive(json, Step(json, s, ops[0]).0, ops[1..], i, r);
      } else {
        RunBounded(json, Step(json, s, ops[0]).0, ops[1..], r);
      }
    }
  }

  lemma {:induction false} RunBounded(json: Codec, s: State, ops: seq<Op>, r: Record)
    requires Bounded(s, r) && ValidRun(json, s, ops)
    requires forall op :: op in ops ==> Leaves(json, op, r)
    ensures Bounded(Run(json, s, ops), r)
    decreases |ops|
  {
    if ops != [] {
      assert ops[0] in ops;
      StepBounded(json, s, ops[0], r);
      RunBounded(json, Step(json, s, ops[0]).0, ops[1..], r);
    }
  }

  /** No other row of its pair was created at the same time as row `i`. */
  predicate Untied(rows: seq<Record>, i: nat)
    requires i < |rows|
  {
    forall j :: 0 <= j < |rows| && j != i && For(rows[j], rows[i].userID, rows[i].email)
        ==> rows[j].createdAt != rows[i].createdAt
  }

  /** The record a successful send is about, and its row afterwards. */
  function SentRow(json: Codec, s: State, send: Op): (i: nat)
    requires send.Send? && Possible(json, s, send) && SendStep(json, s, send).1.Sent?
    ensures i < |SendStep(json, s, send).0.rows|
  {
    if Valid(Retrieve(s.rows, send.id, s.users[send.id].email, send.pick), s.now) then send.pick else |s.rows|
  }

  lemma SendMakesLive(json: Codec, s: State, send: Op)
    requires Sound(s) && send.Send? && Possible(json, s, send) && Step(json, s, send).1.Sent?
    requires send.id != "" && s.users[send.id].email != ""
    requires Untied(Step(json, s, send).0.rows, SentRow(json, s, send))
    ensures var (s', i) := (Step(json, s, send).0, SentRow(json, s, send));
      && Live(s', i, s'.rows[i]) && Bounded(s', s'.rows[i])
      && Step(json, s, send).1.token == Encode(json, s'.rows[i]) && For(s'.rows[i], send.id, s.users[send.id].email)
  {
    var s' := Step(json, s, send).0;
    var i := SentRow(json, s, send);
    StepSound(json, s, send);
    assert RowKnown(s', i);
    forall j | 0 <= j < |s'.rows| && j != i && For(s'.rows[j], send.id, s.users[send.id].email)
      ensures s'.rows[j].createdAt < s'.rows[i].createdAt
    {
      assert RowKnown(s', j);
    }
  }

  predicate HasEmail(s: State, r: Record) {
    r.userID in s.users && s.users[r.userID].email == r.email
  }

  lemma LiveAcceptedIff(json: Codec, s: State, i: nat, r: Record, verify: Op)
    requires Faithful(json) && Bounded(s, r) && Complete(PayloadOf(r)) && (s.now <= r.expiresAt ==> Live(s, i, r))
    requires verify.Verify? && verify.token == Encode(json, r) && Possible(json, s, verify)
    requires verify.read == verify.use == verify.mark == Done
    ensures Step(json, s, verify).1 == Verified(PayloadOf(r)) <==> s.now <= r.expiresAt && HasEmail(s, r)
  {
    DecodeOfEncode(json, r);
    if s.now <= r.expiresAt {
      assert HasRow(s.rows, r.userID, r.email);
    }
  }

  /** The token of a successful send is accepted by the first verification that presents it, after
      any other requests, exactly when the record has not expired and the user has its email. */
  lemma FirstVerifyIff(json: Codec, s: State, send: Op, between: seq<Op>, verify: Op)
    requires Faithful(json) && Sound(s) && send.Send? && Possible(json, s, send) && Step(json, s, send).1.Sent?
    requires send.id != "" && s.users[send.id].email != ""
    requires Untied(Step(json, s, send).0.rows, SentRow(json, s, send))
    requires ValidRun(json, Step(json, s, send).0, between)
    requires forall op :: op in between ==> Leaves(json, op, Step(json, s, send).0.rows[SentRow(json, s, send)])
    requires verify.Verify? && verify.token == Step(json, s, send).1.token
        && verify.read == verify.use == verify.mark == Done
    requires Possible(json, Run(json, Step(json, s, send).0, between), verify)
    ensures var r := Step(json, s, send).0.rows[SentRow(json, s, send)];
      var t := Run(json, Step(json, s, send).0, between);
      Step(json, t, verify).1 == Verified(PayloadOf(r)) <==> t.now <= r.expiresAt && HasEmail(t, r)
  {
    var s' := Step(json, s, send).0;
    var i := SentRow(json, s, send);
    SendMakesLive(json, s, send);
    RunLive(json, s', between, i, s'.rows[i]);
    LiveAcceptedIff(json, Run(json, s', between), i, s'.rows[i], verify);
  }

  /** A verification of a live record that failed can be repeated exactly when it used nothing
      up: its lookup failed, or the write that marks the password as used had no effect. */
  lemma RetryVerifyIff(json: Codec, s: State, i: nat, r: Record, first: Op, again: Op)
    requires Faithful(json) && Sound(s) && Live(s, i, r) && s.now <= r.expiresAt && HasEmail(s, r)
    requires first.Verify? && first.token == Encode(json, r) && Possible(json, s, first)
    requires !Step(json, s, first).1.Verified?
    requires again.Verify? && again.token == first.token && Possible(json, Step(json, s, first).0, again)
    requires again.read == again.use == again.mark == Done
    ensures Step(json, Step(json, s, first).0, again).1.Verified? <==> first.read != Done || first.use == Refused
  {
    DecodeOfEncode(json, r);
    assert HasRow(s.rows, r.userID, r.email);
    var s' := Step(json, s, first).0;
    if first.read == Done && first.use.Applied() {
      assert s'.rows[i].usedAt == s.now != s.rows[i].usedAt;
      VerifySpends(json, s, first);
      SpentRefused(json, s', again, PayloadOf(r));
    } else {
      assert s' == s;
    }
  }

  /** Presenting the token of `r`, with nothing failing. */
  function Presented(json: Codec, r: Record, pick: nat): Op {
    Verify(Encode(json, r), Done, pick, Done, Done)
  }

  /** The condition on times is needed: an unused, unexpired record that no row of its pair is
      newer than is accepted whichever row the database returns exactly when no row is as new. */
  lemma EveryPickIff(json: Codec, s: State, i: nat, r: Record)
    requires Faithful(json) && Sound(s) && i < |s.rows| && s.rows[i] == r && Valid(r, s.now) && HasEmail(s, r)
    requires Latest(s.rows, r.userID, r.email, i)
    ensures (forall pick :: Possible(json, s, Presented(json, r, pick))
                            ==> Step(json, s, Presented(json, r, pick)).1 == Verified(PayloadOf(r)))
            <==> (forall j :: 0 <= j < |s.rows| && j != i && For(s.rows[j], r.userID, r.email) ==>
                s.rows[j].createdAt < r.createdAt)
  {
    DecodeOfEncode(json, r);
    assert HasRow(s.rows, r.userID, r.email);
    if j :| 0 <= j < |s.rows| && j != i && For(s.rows[j], r.userID, r.email) && s.rows[j].createdAt >= r.createdAt {
      assert Possible(json, s, Presented(json, r, j));
      assert Step(json, s, Presented(json, r, j)).1 == Failed;
    }
  }

  // ----- The service -----

  class UsersService {
    const json: Codec
    var now: nat
    var users: map<string, User>
    var rows: seq<Record>
    var otps: set<string>

    ghost function Abs(): State
      reads this
    {
      State(now, users, rows, otps)
    }

    constructor (json: Codec, now: nat)
      ensures this.json == json && Abs() == State(now, map[], [], {})
      ensures now > 0 ==> Sound(Abs())
    {
      this.json, this.now, users, rows, otps := json, now, map[], [], {};
    }

    /** Finds a newest row of the pair; among equally new ones it prefers `pick`. */
    method RetrieveUserVerification(id: string, email: string, pick: nat) returns (found: bool, r: Record, at: nat)
      ensures found == HasRow(rows, id, email)
      ensures if found then Latest(rows, id, email, at) && r == rows[at] else r == NOTHING
      ensures Latest(rows, id, email, pick) ==> at == pick
    {
      found, r, at := false, NOTHING, 0;
      for i := 0 to |rows|
        invariant found == HasRow(rows[..i], id, email)
        invariant if found then Latest(rows[..i], id, email, at) && r == rows[at] else r == NOTHING
        invariant found && Latest(rows, id, email, pick) && pick < i ==> at == pick
      {
        assert rows[..i + 1] == rows[..i] + [rows[i]];
        if For(rows[i], id, email)
            && (!found || rows[i].createdAt > r.createdAt || (rows[i].createdAt == r.createdAt && i == pick)) {
          found, r, at := true, rows[i], i;
        }
      }
      assert rows[..|rows|] == rows;
    }

    method SendVerification(op: Op) returns (reply: Reply)
      requires op.Send? && Possible(json, Abs(), op)
      modifies this
      ensures (Abs(), reply) == Step(json, old(Abs()), op)
    {
      if op.read != Done || op.id !in users || users[op.id].verifiedAt != 0 {
        return Failed;
      }
      var email := users[op.id].email;
      var found, uv, _ := RetrieveUserVerification(op.id, email, op.pick);
      if !Valid(uv, now) {
        uv := NewRecord(op.id, email, op.otp, now);
        otps := otps + {op.otp};
        if op.add.Applied() {
          rows := rows + [uv];
        }
        if op.add != Done {
          return Failed;
        }
      }
      reply := if op.mail == Done then Sent(Encode(json, uv)) else Failed;
    }

    method VerifyEmail(op: Op) returns (reply: Reply)
      requires op.Verify? && Possible(json, Abs(), op)
      modifies this
      ensures (Abs(), reply) == Step(json, old(Abs()), op)
    {
      var received := Decode(json, op.token);
      if received.None? || op.read != Done {
        return Failed;
      }
      var found, stored, _ := RetrieveUserVerification(received.value.userID, received.value.email, op.pick);
      if !found || PayloadOf(stored) != received.value || !Valid(stored, now) {
        return Failed;
      }
      if op.use.Applied() {
        rows := UseAll(rows, stored, now);
      }
      if op.use != Done {
        return Failed;
      }
      if stored.userID !in users || users[stored.userID].email != stored.email || op.mark == Refused {
        return Failed;
      }
      users := users[stored.userID := users[stored.userID].(verifiedAt := now)];
      reply := if op.mark == Done then Verified(received.value) else Failed;
    }
  }
}
