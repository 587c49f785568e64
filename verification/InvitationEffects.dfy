/** What each request leaves of invitations, roles and members, in full. */
module InvitationEffects {
  import opened Outcomes
  import opened Invitations

  // ----- Deleting invitations -----

  /** The deletion is made: by the invitee, or by another while the invitation waits; or with the
      removal of members, which a built-in role refuses if the list could empty it. */
  predicate Deletes(s: State, op: Op) {
    match op
    case DeleteInvitation(actor, invitee, domain, read, delete) =>
      && delete != Refused
      && (actor == invitee
          || (read == Done && Key(invitee, domain) in s.invitations
              && s.invitations[Key(invitee, domain)].confirmedAt == 0
                  && s.invitations[Key(invitee, domain)].rejectedAt == 0))
    case RemoveEntityMembers(_, users, delete) => delete != Refused && users != []
    case RoleRemoveMembers(domain, role, users, read, delete, _) =>
      && delete != Refused && read == Done && users != [] && role in s.roles && s.roles[role].entity == domain
      && !(s.roles[role].name in s.builtIn && |MembersOf(s, role)| <= |users|)
    case _ => false
  }

  /** An invitation is gone after a request exactly when the request names it, by domain and
      invitee, and the deletion is made; invitations that stay under such a request are the same. */
  lemma DeletionExact(s: State, op: Op, key: Key)
    requires op.DeleteInvitation? || op.RemoveEntityMembers? || op.RoleRemoveMembers?
    ensures key in Step(s, op).invitations <==> key in s.invitations && !(Names(op, key) && Deletes(s, op))
    ensures key in Step(s, op).invitations ==> Step(s, op).invitations[key] == s.invitations[key]
  {
    var users := if op.DeleteInvitation? then [op.invitee] else op.users;
    var w := DeleteInvitations(op.domain, users);
    ApplyTwo(s, w, if op.RoleRemoveMembers? then RemoveMembers(op.role, op.users) else w);
    assert op.DeleteInvitation? ==> (key.user in users <==> key.user == op.invitee);
  }

  // ----- One invitation -----

  /** Sending saves the requested role with both times unset, unless there is an invitation. */
  lemma SendExact(s: State, op: Op)
    requires op.Send?
    ensures Step(s, op)
         == if op.read == Done && op.save != Refused && op.role in s.roles
             && Key(op.invitee, op.domain) !in s.invitations
            then s.(invitations := s.invitations[Key(op.invitee, op.domain) := Invitation(op.role, 0, 0)]) else s
  {
    var w := SaveInvitation(Key(op.invitee, op.domain), op.role);
    ApplyTwo(s, w, w);
  }

  /** Rejecting sets the time of a waiting invitation, and sending again clears that of a rejected
      one; each makes exactly its move. */
  lemma RejectExact(s: State, op: Op)
    requires op.Reject? && op.at > 0
    ensures var key := Key(op.user, op.domain);
      && (StatusOf(s, key) == Waiting && op.read == Done && op.update != Refused ==>
            && StatusOf(Step(s, op), key) == Rejected
            && Step(s, op) == s.(invitations := s.invitations[key := Invitation(s.invitations[key].role, 0, op.at)]))
      && (!(StatusOf(s, key) == Waiting && op.read == Done && op.update != Refused) ==> Step(s, op) == s)
  {
    var w := UpdateRejection(Key(op.user, op.domain), op.at);
    ApplyTwo(s, w, w);
  }

  lemma ResendExact(s: State, op: Op)
    requires op.Resend?
    ensures var key := Key(op.invitee, op.domain);
      && (StatusOf(s, key) == Rejected && op.read == Done && op.update != Refused ==>
            && StatusOf(Step(s, op), key) == Waiting
            && Step(s, op) == s.(invitations := s.invitations[key := Invitation(s.invitations[key].role, 0, 0)]))
      && (!(StatusOf(s, key) == Rejected && op.read == Done && op.update != Refused) ==> Step(s, op) == s)
  {
    var w := UpdateRejection(Key(op.invitee, op.domain), 0);
    ApplyTwo(s, w, w);
  }

  /** Accepting adds the invitee, and no one else, to the invited role, and then sets the time. */
  lemma AcceptExact(s: State, op: Op, role: string, user: string)
    requires op.Accept?
    ensures var key, s' := Key(op.user, op.domain), Step(s, op);
      var adds := Acceptable(s, op.user, op.domain) && op.read == Done && op.add != Refused;
      && (user in MembersOf(s', role)
          <==> user in MembersOf(s, role) || (adds && role == s.invitations[key].role && user == op.user))
      && s'.roles == s.roles
      && s'.invitations
         == if adds && op.add == Done && op.confirm != Refused
            then s.invitations[key := s.invitations[key].(confirmedAt := op.at)] else s.invitations
  {
    var key := Key(op.user, op.domain);
    if Acceptable(s, op.user, op.domain) {
      var w1, w2 := AddMembers(s.invitations[key].role, [op.user]), UpdateConfirmation(key, op.at);
      ApplyTwo(s, w1, w2);
      assert Listed([op.user]) == {op.user};
    } else {
      assert Writes(s, op) == [];
    }
  }

  // ----- Members and roles -----

  /** The role exists, in the domain. */
  predicate Known(s: State, role: string, domain: string) {
    role in s.roles && s.roles[role].entity == domain
  }

  /** Adding members puts exactly the listed users into the role, if none has one in the domain. */
  lemma RoleAddMembersExact(s: State, op: Op)
    requires op.RoleAddMembers?
    ensures Step(s, op)
         == if op.read == Done && op.add != Refused && op.users != [] && Known(s, op.role, op.domain)
               && FreeIn(s, op.users, op.domain)
            then s.(members := s.members[op.role := MembersOf(s, op.role) + set u | u in op.users]) else s
  {
    var w := AddMembers(op.role, op.users);
    ApplyTwo(s, w, w);
  }

  /** Removing members takes exactly the listed users out of the role, once their invitations are
      seen to be deleted, and keeps all roles. */
  lemma RoleRemoveMembersExact(s: State, op: Op)
    requires op.RoleRemoveMembers?
    ensures Step(s, op).roles == s.roles
    ensures Step(s, op).members
         == if Deletes(s, op) && op.delete == Done && op.remove != Refused
            then s.members[op.role := MembersOf(s, op.role) - set u | u in op.users] else s.members
  {
    ApplyTwo(s, DeleteInvitations(op.domain, op.users), RemoveMembers(op.role, op.users));
  }

  /** The other deletions of invitations keep all roles and members. */
  lemma DeletionKeepsMembers(s: State, op: Op)
    requires op.DeleteInvitation? || op.RemoveEntityMembers?
    ensures Step(s, op).roles == s.roles && Step(s, op).members == s.members
  {
    var w := DeleteInvitations(op.domain, if op.DeleteInvitation? then [op.invitee] else op.users);
    ApplyTwo(s, w, w);
  }

  /** Removing all members empties a role of the domain that is not built in, and only that. */
  lemma RoleRemoveAllMembersExact(s: State, op: Op)
    requires op.RoleRemoveAllMembers?
    ensures Step(s, op)
         == if op.read == Done && op.remove != Refused && Known(s, op.role, op.domain)
               && s.roles[op.role].name !in s.builtIn
            then s.(members := s.members[op.role := {}]) else s
  {
    var w := ClearMembers(op.role);
    ApplyTwo(s, w, w);
  }

  /** Deleting a role takes it and its members, and nothing else. */
  lemma RemoveRoleExact(s: State, op: Op)
    requires op.RemoveRole?
    ensures Step(s, op)
         == if op.read == Done && op.remove != Refused && Known(s, op.role, op.domain)
            then s.(roles := s.roles - {op.role}, members := s.members - {op.role}) else s
  {
    var w := DropRole(op.role);
    ApplyTwo(s, w, w);
  }

  /** No other role of the domain has the name. */
  predicate NameIsFree(s: State, op: Op)
    requires op.AddRole? || op.UpdateRoleName?
  {
    forall r :: r in s.roles && r != op.role ==> !(s.roles[r].entity == op.domain && s.roles[r].name == op.name)
  }

  /** A new role has the requested name, domain and members. */
  lemma AddRoleExact(s: State, op: Op)
    requires op.AddRole?
    ensures Step(s, op)
         == if op.add != Refused && op.role !in s.roles && NameIsFree(s, op) && FreeIn(s, op.users, op.domain)
            then s.(roles := s.roles[op.role := Role(op.domain, op.name)],
                    members := s.members[op.role := set u | u in op.users])
            else s
  {
    var w := CreateRole(op.role, op.domain, op.name, op.users);
    ApplyTwo(s, w, w);
  }

  /** Renaming changes the name of that role only, to a name no other role of the domain has. */
  lemma UpdateRoleNameExact(s: State, op: Op)
    requires op.UpdateRoleName?
    ensures Step(s, op)
         == if op.read == Done && op.update != Refused && Known(s, op.role, op.domain) && op.name != ""
             && NameIsFree(s, op)
            then s.(roles := s.roles[op.role := Role(op.domain, op.name)]) else s
  {
    var w := SetRoleName(op.role, op.name);
    ApplyTwo(s, w, w);
  }

  // ----- What every request keeps -----

  /** The user is in both roles, of one domain. */
  predicate Shares(s: State, a: string, b: string, user: string) {
    && a in s.roles && b in s.roles && s.roles[a].entity == s.roles[b].entity
    && user in MembersOf(s, a) && user in MembersOf(s, b)
  }

  /** A user has at most one role in a domain. */
  ghost predicate OneRole(s: State) {
    forall a, b, user :: Shares(s, a, b, user) ==> a == b
  }

  /** A domain has at most one role of a name. */
  ghost predicate OneName(s: State) {
    forall a, b :: a in s.roles && b in s.roles && s.roles[a] == s.roles[b] ==> a == b
  }

  lemma AcceptOneRole(s: State, op: Op)
    requires op.Accept? && OneRole(s)
    ensures OneRole(Step(s, op))
  {
    var s' := Step(s, op);
    forall a, b, user | Shares(s', a, b, user)
      ensures a == b
    {
      AcceptExact(s, op, a, user);
      AcceptExact(s, op, b, user);
      assert user in [user];
      assert Shares(s, a, b, user) ==> a == b;
    }
  }

  lemma RemovalOneRole(s: State, s': State)
    requires OneRole(s) && (forall r :: r in s'.roles ==> r in s.roles && s'.roles[r].entity == s.roles[r].entity)
    requires forall r :: MembersOf(s', r) <= MembersOf(s, r)
    ensures OneRole(s')
  {
    forall a, b, user | Shares(s', a, b, user)
      ensures a == b
    {
      assert Shares(s, a, b, user);
    }
  }

  /** Only `role` gains members, and only ones without a role in its domain. */
  lemma GainOneRole(s: State, s': State, role: string, users: seq<string>)
    requires OneRole(s) && role in s'.roles && FreeIn(s, users, s'.roles[role].entity)
    requires role in s.roles ==> s.roles[role].entity == s'.roles[role].entity
    requires forall r :: r in s'.roles && r != role ==>
      r in s.roles && s'.roles[r].entity == s.roles[r].entity && MembersOf(s', r) == MembersOf(s, r)
    requires forall user :: user in MembersOf(s', role) ==>
      user in users || (role in s.roles && user in MembersOf(s, role))
    ensures OneRole(s')
  {
    forall a, b, user | Shares(s', a, b, user)
      ensures a == b
    {
      assert Shares(s, a, b, user) ==> a == b;
    }
  }

  lemma StepOneRole(s: State, op: Op)
    requires OneRole(s)
    ensures OneRole(Step(s, op))
  {
    match op
    case Accept(_, _, _, _, _, _) => AcceptOneRole(s, op);
    case Send(_, _, _, _, _) => SendExact(s, op); RemovalOneRole(s, Step(s, op));
    case Resend(_, _, _, _) => SameMembers(s, op); RemovalOneRole(s, Step(s, op));
    case Reject(_, _, _, _, _) => SameMembers(s, op); RemovalOneRole(s, Step(s, op));
    case DeleteInvitation(_, _, _, _, _) => DeletionKeepsMembers(s, op); RemovalOneRole(s, Step(s, op));
    case RemoveEntityMembers(_, _, _) => DeletionKeepsMembers(s, op); RemovalOneRole(s, Step(s, op));
    case RoleAddMembers(_, role, users, _, _) =>
      RoleAddMembersExact(s, op);
      if Step(s, op) != s { GainOneRole(s, Step(s, op), role, users); }
    case RoleRemoveMembers(_, _, _, _, _, _) => RoleRemoveMembersExact(s, op); RemovalOneRole(s, Step(s, op));
    case RoleRemoveAllMembers(_, _, _, _) => RoleRemoveAllMembersExact(s, op); RemovalOneRole(s, Step(s, op));
    case RemoveRole(_, _, _, _) => RemoveRoleExact(s, op); RemovalOneRole(s, Step(s, op));
    case AddRole(_, role, _, users, _) =>
      AddRoleExact(s, op);
      if Step(s, op) != s { GainOneRole(s, Step(s, op), role, users); }
    case UpdateRoleName(_, _, _, _, _) => UpdateRoleNameExact(s, op); RemovalOneRole(s, Step(s, op));
  }

  lemma SameMembers(s: State, op: Op)
    requires op.Resend? || op.Reject?
    ensures Step(s, op).roles == s.roles && Step(s, op).members == s.members
  {
    var w := if op.Resend? then UpdateRejection(Key(op.invitee, op.domain), 0)
             else UpdateRejection(Key(op.user, op.domain), op.at);
    ApplyTwo(s, w, w);
  }

  lemma StepOneName(s: State, op: Op)
    requires OneName(s)
    ensures OneName(Step(s, op))
  {
    match op
    case Accept(_, _, _, _, _, _) => AcceptExact(s, op, "", "");
    case Send(_, _, _, _, _) => SendExact(s, op);
    case Resend(_, _, _, _) => SameMembers(s, op);
    case Reject(_, _, _, _, _) => SameMembers(s, op);
    case DeleteInvitation(_, _, _, _, _) => DeletionKeepsMembers(s, op);
    case RemoveEntityMembers(_, _, _) => DeletionKeepsMembers(s, op);
    case RoleAddMembers(_, _, _, _, _) => RoleAddMembersExact(s, op);
    case RoleRemoveMembers(_, _, _, _, _, _) => RoleRemoveMembersExact(s, op);
    case RoleRemoveAllMembers(_, _, _, _) => RoleRemoveAllMembersExact(s, op);
    case RemoveRole(_, _, _, _) => RemoveRoleExact(s, op);
    case AddRole(_, _, _, _, _) => AddRoleExact(s, op);
    case UpdateRoleName(_, _, _, _, _) => UpdateRoleNameExact(s, op);
  }

  /** Over any run with any failures a user has at most one role in a domain, and a domain at most
      one role of a name. */
  lemma {:induction false} RunOneRole(s: State, ops: seq<Op>)
    requires OneRole(s) && OneName(s)
    ensures OneRole(Run(s, ops)) && OneName(Run(s, ops))
    decreases |ops|
  {
    if ops != [] {
      StepOneRole(s, ops[0]);
      StepOneName(s, ops[0]);
      RunOneRole(Step(s, ops[0]), ops[1..]);
    }
  }
}
