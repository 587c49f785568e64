/** What each request of the verification protocol leaves, and when a user counts as verified. */
module VerificationEffects {
  import opened Outcomes
  import opened Verification

  // ----- Verifying -----

  /** The row the database returned is for the token's user, email and password, unused and in
      time, and the user has that email. */
  predicate Presentable(s: State, p: Payload, pick: nat) {
    && pick < |s.rows| && p.userID != "" && p.email != "" && p.otp != ""
    && s.rows[pick].userID == p.userID && s.rows[pick].email == p.email && s.rows[pick].otp == p.otp
    && s.rows[pick].usedAt == 0 && s.rows[pick].createdAt != 0
    && s.rows[pick].createdAt <= s.rows[pick].expiresAt && s.now <= s.rows[pick].expiresAt
  }

  predicate HasThatEmail(s: State, p: Payload) {
    p.userID in s.users && s.users[p.userID].email == p.email
  }

  lemma DecodedIsComplete(json: Codec, token: string)
    ensures Decode(json, token).Some? ==> Complete(Decode(json, token).value)
  {
  }

  /** A verification succeeds exactly when its token decodes, the returned row is presentable, the
      user has the email and every call worked. It leaves exactly that user verified, now, with
      the same email, and exactly the rows of the pair used. */
  lemma VerifyEffect(json: Codec, s: State, op: Op)
    requires op.Verify? && Possible(json, s, op)
    ensures Step(json, s, op).1.Verified?
       <==> (Decode(json, op.token).Some? && op.read == op.use == op.mark == Done
             && Presentable(s, Decode(json, op.token).value, op.pick) && HasThatEmail(s, Decode(json, op.token).value))
    ensures Step(json, s, op).1.Verified? ==>
              var p, t := Decode(json, op.token).value, Step(json, s, op).0;
              && Step(json, s, op).1 == Verified(p)
              && t.users == s.users[p.userID := User(s.users[p.userID].email, s.now)]
              && |t.rows| == |s.rows| && t.now == s.now && t.otps == s.otps
              && forall i :: 0 <= i < |s.rows| ==>
                   if s.rows[i].userID == p.userID && s.rows[i].email == p.email
                   then t.rows[i] == s.rows[i].(otp := p.otp, usedAt := s.now)
                   else t.rows[i] == s.rows[i]
  {
    DecodedIsComplete(json, op.token);
    if Decode(json, op.token).Some? && op.pick < |s.rows| {
      var p := Decode(json, op.token).value;
      if Presentable(s, p, op.pick) {
        assert For(s.rows[op.pick], p.userID, p.email) && HasRow(s.rows, p.userID, p.email);
      }
    }
  }

  // ----- Who is verified -----

  /** The request is a verification of this user that marked it, seen to work or not. */
  predicate Marks(json: Codec, s: State, op: Op, id: string) {
    && op.Verify? && op.read == op.use == Done && op.mark != Refused
    && Decode(json, op.token).Some? && Decode(json, op.token).value.userID == id
    && Presentable(s, Decode(json, op.token).value, op.pick) && HasThatEmail(s, Decode(json, op.token).value)
  }

  predicate ChangesEmail(s: State, op: Op, id: string) {
    op.UpdateEmail? && op.id == id && op.update != Refused && id in s.users && s.users[id].email != op.email
  }

  predicate IsVerified(s: State, id: string) {
    id in s.users && s.users[id].verifiedAt != 0
  }

  lemma VerifiedStep(json: Codec, s: State, op: Op, id: string)
    requires Possible(json, s, op) && s.now > 0
    ensures IsVerified(Step(json, s, op).0, id)
        <==> Marks(json, s, op, id) || (IsVerified(s, id) && !ChangesEmail(s, op, id))
  {
    if op.Verify? && Decode(json, op.token).Some? && op.pick < |s.rows| {
      DecodedIsComplete(json, op.token);
      var p := Decode(json, op.token).value;
      if Presentable(s, p, op.pick) {
        assert For(s.rows[op.pick], p.userID, p.email) && HasRow(s.rows, p.userID, p.email);
      }
    }
  }

  /** No request of the run changes the user's email. */
  predicate NoChange(json: Codec, s: State, ops: seq<Op>, id: string)
    requires ValidRun(json, s, ops)
    decreases |ops|
  {
    ops == [] || (!ChangesEmail(s, ops[0], id) && NoChange(json, Step(json, s, ops[0]).0, ops[1..], id))
  }

  /** Some request of the run marked the user, and none after it changed the email. */
  predicate MarkedSince(json: Codec, s: State, ops: seq<Op>, id: string)
    requires ValidRun(json, s, ops)
    decreases |ops|
  {
    ops != []
    && (MarkedSince(json, Step(json, s, ops[0]).0, ops[1..], id)
        || (Marks(json, s, ops[0], id) && NoChange(json, Step(json, s, ops[0]).0, ops[1..], id)))
  }

  /** After any run with any failures a user is verified exactly when a verification marked them
      after their last change of email, or they were verified before and changed none. */
  lemma {:induction false} VerifiedIff(json: Codec, s: State, ops: seq<Op>, id: string)
    requires ValidRun(json, s, ops) && s.now > 0
    ensures IsVerified(Run(json, s, ops), id)
       <==> MarkedSince(json, s, ops, id) || (IsVerified(s, id) && NoChange(json, s, ops, id))
    decreases |ops|
  {
    if ops != [] {
      VerifiedStep(json, s, ops[0], id);
      VerifiedIff(json, Step(json, s, ops[0]).0, ops[1..], id);
    }
  }

  // ----- Sending -----

  /** A stored record of the pair is still good. */
  predicate GoodRow(s: State, id: string, email: string, pick: nat) {
    && pick < |s.rows| && s.rows[pick].userID == id && s.rows[pick].email == email && id != "" && email != ""
    && s.rows[pick].otp != "" && s.rows[pick].usedAt == 0 && s.rows[pick].createdAt != 0
    && s.rows[pick].createdAt <= s.rows[pick].expiresAt && s.now <= s.rows[pick].expiresAt
  }

  /** Sending to a verified or unknown user fails and changes nothing. Otherwise a good record is
      sent again, and if there is none a new one for the user's present email is added, good for
      a day; no other row and no user changes. */
  lemma SendEffect(json: Codec, s: State, op: Op)
    requires op.Send? && Possible(json, s, op)
    ensures op.id !in s.users || s.users[op.id].verifiedAt != 0 || op.read != Done ==> Step(json, s, op) == (s, Failed)
    ensures Step(json, s, op).0.users == s.users && Step(json, s, op).0.now == s.now
    ensures op.id in s.users && s.users[op.id].verifiedAt == 0 && op.read == Done ==>
              var email, t := s.users[op.id].email, Step(json, s, op).0;
              if GoodRow(s, op.id, email, op.pick) then
                && t == s
                && Step(json, s, op).1 == if op.mail == Done then Sent(Encode(json, s.rows[op.pick])) else Failed
              else
                var added := Record(op.id, email, op.otp, s.now, s.now + 86400000, 0);
                && t.rows == (if op.add != Refused then s.rows + [added] else s.rows)
                && Step(json, s, op).1 == if op.add == op.mail == Done then Sent(Encode(json, added)) else Failed
  {
    if op.id in s.users {
      var email := s.users[op.id].email;
      if GoodRow(s, op.id, email, op.pick) {
        assert For(s.rows[op.pick], op.id, email) && HasRow(s.rows, op.id, email);
      }
    }
  }

  // ----- The other requests -----

  /** Changing the email takes the verification with it, and leaves other users and all rows. */
  lemma UpdateEmailEffect(json: Codec, s: State, op: Op)
    requires op.UpdateEmail? && Possible(json, s, op)
    ensures Step(json, s, op).0
         == if ChangesEmail(s, op, op.id) then s.(users := s.users[op.id := User(op.email, 0)]) else s
    ensures Step(json, s, op).1 == Fine <==> ChangesEmail(s, op, op.id) && op.update == Done
  {
  }
}
