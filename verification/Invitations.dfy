/**
 Invitations to a domain and the role membership they lead to. Every operation is the sequence
 of writes it makes, so that statements can speak about each intermediate state and about a
 failure at any store call.
 */
module Invitations {
  import opened Outcomes

  datatype Key = Key(user: string, domain: string)

  /** Times are zero when unset, as in Go. */
  datatype Invitation = Invitation(role: string, confirmedAt: nat, rejectedAt: nat)

  datatype Role = Role(entity: string, name: string)

  /** `builtIn` are the names of the built-in roles. */
  datatype State = State(builtIn: set<string>, roles: map<string, Role>, members: map<string, set<string>>,
      invitations: map<Key, Invitation>)

  function MembersOf(s: State, role: string): set<string> {
    if role in s.members then s.members[role] else {}
  }

  // ----- Writes -----

  datatype Write =
    | SaveInvitation(key: Key, role: string)
    | UpdateConfirmation(key: Key, at: nat)
    | UpdateRejection(key: Key, at: nat)
    | DeleteInvitations(domain: string, users: seq<string>)
    | AddMembers(role: string, users: seq<string>)
    | RemoveMembers(role: string, users: seq<string>)
    | ClearMembers(role: string)
    | DropRole(role: string)
    | CreateRole(role: string, entity: string, name: string, users: seq<string>)
    | SetRoleName(role: string, name: string)

  function Listed(users: seq<string>): set<string> {
    set u | u in users
  }

  function Apply(s: State, w: Write): State {
    match w
    case SaveInvitation(key, role) => s.(invitations := s.invitations[key := Invitation(role, 0, 0)])
    case UpdateConfirmation(key, at) =>
      if key in s.invitations then s.(invitations := s.invitations[key := s.invitations[key].(confirmedAt := at)])
      else s
    case UpdateRejection(key, at) =>
      if key in s.invitations then s.(invitations := s.invitations[key := s.invitations[key].(rejectedAt := at)]) else s
    case DeleteInvitations(domain, users) =>
      s.(invitations := map k | k in s.invitations && !(k.domain == domain && k.user in users) :: s.invitations[k])
    case AddMembers(role, users) => s.(members := s.members[role := MembersOf(s, role) + Listed(users)])
    case RemoveMembers(role, users) => s.(members := s.members[role := MembersOf(s, role) - Listed(users)])
    case ClearMembers(role) => s.(members := s.members[role := {}])
    case DropRole(role) => s.(roles := s.roles - {role}, members := s.members - {role})
    case CreateRole(role, entity, name, users) => s.(roles := s.roles[role := Role(entity, name)],
        members := s.members[role := Listed(users)])
    case SetRoleName(role, name) => if role in s.roles then s.(roles := s.roles[role := s.roles[role].(name := name)])
        else s
  }

  function ApplyAll(s: State, ws: seq<Write>): State
    decreases |ws|
  {
    if ws == [] then s else ApplyAll(Apply(s, ws[0]), ws[1..])
  }

  lemma ApplyTwo(s: State, a: Write, b: Write)
    ensures ApplyAll(s, [a]) == Apply(s, a)
    ensures ApplyAll(s, [a, b]) == Apply(Apply(s, a), b)
  {
    assert [a, b][1..] == [b];
    assert ApplyAll(Apply(s, a), [b]) == Apply(Apply(s, a), b);
  }

  // ----- Operations -----

  /** `read` stands for all lookups before the first write; `at` is the positive current time. */
  datatype Op =
    | Send(invitee: string, domain: string, role: string, read: Outcome, save: Outcome)
    | Resend(invitee: string, domain: string, read: Outcome, update: Outcome)
    | Accept(user: string, domain: string, at: nat, read: Outcome, add: Outcome, confirm: Outcome)
    | Reject(user: string, domain: string, at: nat, read: Outcome, update: Outcome)
    | DeleteInvitation(actor: string, invitee: string, domain: string, read: Outcome, delete: Outcome)
    | RemoveEntityMembers(domain: string, users: seq<string>, delete: Outcome)
    | RoleAddMembers(domain: string, role: string, users: seq<string>, read: Outcome, add: Outcome)
    | RoleRemoveMembers(domain: string, role: string, users: seq<string>, read: Outcome, delete: Outcome,
        remove: Outcome)
    | RoleRemoveAllMembers(domain: string, role: string, read: Outcome, remove: Outcome)
    | RemoveRole(domain: string, role: string, read: Outcome, remove: Outcome)
    | AddRole(domain: string, role: string, name: string, users: seq<string>, add: Outcome)
    | UpdateRoleName(domain: string, role: string, name: string, read: Outcome, update: Outcome)

  predicate RoleIn(s: State, role: string, domain: string) {
    role in s.roles && s.roles[role].entity == domain
  }

  predicate BuiltIn(s: State, role: string)
    requires role in s.roles
  {
    s.roles[role].name in s.builtIn
  }

  /** The unique constraint on member and entity: one role per user and domain. */
  predicate FreeIn(s: State, users: seq<string>, domain: string) {
    && (forall r, u :: r in s.roles && s.roles[r].entity == domain && u in users ==> u !in MembersOf(s, r))
    && (forall i, j :: 0 <= i < j < |users| ==> users[i] != users[j])
  }

  predicate Pending(s: State, key: Key) {
    key in s.invitations && s.invitations[key].confirmedAt == 0 && s.invitations[key].rejectedAt == 0
  }

  /** The unique constraint on name and entity. */
  predicate NameFree(s: State, name: string, domain: string, except: string) {
    forall r :: r in s.roles && r != except ==> s.roles[r] != Role(domain, name)
  }

  function When(o: Outcome, w: Write): seq<Write> {
    if o.Applied() then [w] else []
  }

  /** The writes that take effect, in order. */
  function Writes(s: State, op: Op): seq<Write> {
    match op
    case Send(u, d, role, read, save) =>
      if read != Done || role !in s.roles || Key(u, d) in s.invitations then []
      else When(save, SaveInvitation(Key(u, d), role))
    case Resend(u, d, read, update) =>
      var key := Key(u, d);
      if read != Done || key !in s.invitations || s.invitations[key].confirmedAt != 0
          || s.invitations[key].rejectedAt == 0 then []
      else When(update, UpdateRejection(key, 0))
    case Accept(u, d, at, read, add, confirm) =>
      var key := Key(u, d);
      if read != Done || !Pending(s, key) then []
      else
        var role := s.invitations[key].role;
        if !RoleIn(s, role, d) || !FreeIn(s, [u], d) then []
        else When(add, AddMembers(role, [u])) + if add == Done then When(confirm, UpdateConfirmation(key, at)) else []
    case Reject(u, d, at, read, update) =>
      if read != Done || !Pending(s, Key(u, d)) then [] else When(update, UpdateRejection(Key(u, d), at))
    case DeleteInvitation(actor, u, d, read, delete) =>
      if actor != u && (read != Done || !Pending(s, Key(u, d))) then [] else When(delete, DeleteInvitations(d, [u]))
    case RemoveEntityMembers(d, users, delete) =>
      // the role repository's own removal is a no-op
      if users == [] then [] else When(delete, DeleteInvitations(d, users))
    case RoleAddMembers(d, role, users, read, add) =>
      if read != Done || !RoleIn(s, role, d) || users == [] || !FreeIn(s, users, d) then []
      else When(add, AddMembers(role, users))
    case RoleRemoveMembers(d, role, users, read, delete, remove) =>
      if read != Done || !RoleIn(s, role, d) || (BuiltIn(s, role) && |MembersOf(s, role)| <= |users|) || users == []
          then []
      else When(delete, DeleteInvitations(d, users)) + if delete == Done then When(remove, RemoveMembers(role, users))
          else []
    case RoleRemoveAllMembers(d, role, read, remove) =>
      if read != Done || !RoleIn(s, role, d) || BuiltIn(s, role) then [] else When(remove, ClearMembers(role))
    case RemoveRole(d, role, read, remove) =>
      if read != Done || !RoleIn(s, role, d) then [] else When(remove, DropRole(role))
    case AddRole(d, role, name, users, add) =>
      if role in s.roles || !NameFree(s, name, d, role) || !FreeIn(s, users, d) then []
      else When(add, CreateRole(role, d, name, users))
    case UpdateRoleName(d, role, name, read, update) =>
      // an empty name leaves the name as it is
      if read != Done || !RoleIn(s, role, d) || name == "" || !NameFree(s, name, d, role) then []
      else When(update, SetRoleName(role, name))
  }

  function Step(s: State, op: Op): State {
    ApplyAll(s, Writes(s, op))
  }

  function Run(s: State, ops: seq<Op>): State
    decreases |ops|
  {
    if ops == [] then s else Run(Step(s, ops[0]), ops[1..])
  }

  // ----- What holds in every intermediate state -----

  predicate ConfirmedIsMember(s: State, key: Key)
    requires key in s.invitations
  {
    s.invitations[key].confirmedAt != 0 ==>
      s.invitations[key].rejectedAt == 0 && RoleIn(s, s.invitations[key].role, key.domain)
          && key.user in MembersOf(s, s.invitations[key].role)
  }

  /** A confirmed invitation is not rejected, and its invitee belongs to the invited role of the domain. */
  ghost predicate Consistent(s: State) {
    forall key :: key in s.invitations ==> ConfirmedIsMember(s, key)
  }

  /** What each write needs to keep consistency. */
  predicate Safe(s: State, w: Write) {
    match w
    case SaveInvitation(key, _) => true
    case UpdateConfirmation(key, _) =>
      key in s.invitations ==> s.invitations[key].rejectedAt == 0 && RoleIn(s, s.invitations[key].role, key.domain)
                               && key.user in MembersOf(s, s.invitations[key].role)
    case UpdateRejection(key, at) => key in s.invitations ==> s.invitations[key].confirmedAt == 0 || at == 0
    case DeleteInvitations(_, _) => true
    case AddMembers(_, _) => true
    case RemoveMembers(role, users) =>
      forall key :: key in s.invitations && s.invitations[key].confirmedAt != 0 && s.invitations[key].role == role
          ==> key.user !in users
    case ClearMembers(role) => forall key :: key in s.invitations && s.invitations[key].confirmedAt != 0 ==>
        s.invitations[key].role != role
    case DropRole(role) => forall key :: key in s.invitations && s.invitations[key].confirmedAt != 0 ==>
        s.invitations[key].role != role
    case CreateRole(role, _, _, _) => role !in s.roles
    case SetRoleName(_, _) => true
  }

  /** A write keeps consistency if it is safe; the membership writes only if they are. */
  lemma ApplyConsistent(s: State, w: Write)
    requires Consistent(s) && Safe(s, w)
    ensures Consistent(Apply(s, w))
  {
    var s' := Apply(s, w);
    forall key | key in s'.invitations ensures ConfirmedIsMember(s', key) {
      assert key in s.invitations ==> ConfirmedIsMember(s, key);
    }
  }

  /** Every operation but the two that empty a role makes only safe writes. */
  lemma FirstWriteSafe(s: State, op: Op)
    requires Consistent(s) && !op.RoleRemoveAllMembers? && !op.RemoveRole? && Writes(s, op) != []
    ensures Safe(s, Writes(s, op)[0])
  {
  }

  lemma SecondWriteSafe(s: State, op: Op)
    requires Consistent(s) && |Writes(s, op)| == 2
    ensures Safe(Apply(s, Writes(s, op)[0]), Writes(s, op)[1])
  {
    if op.RoleRemoveMembers? {
      var s1 := Apply(s, Writes(s, op)[0]);
      forall key | key in s1.invitations && s1.invitations[key].confirmedAt != 0 && s1.invitations[key].role == op.role
        ensures key.user !in op.users
      {
        assert ConfirmedIsMember(s, key);
      }
    }
  }

  /** Accepted implies member, and exclusive of rejected, in every state an operation passes
      through, with failures at any store call. */
  lemma PrefixConsistent(s: State, op: Op, k: nat)
    requires Consistent(s) && !op.RoleRemoveAllMembers? && !op.RemoveRole? && k <= |Writes(s, op)|
    ensures Consistent(ApplyAll(s, Writes(s, op)[..k]))
  {
    var ws := Writes(s, op);
    if k >= 1 {
      FirstWriteSafe(s, op);
      ApplyConsistent(s, ws[0]);
      ApplyTwo(s, ws[0], ws[|ws| - 1]);
      if k == 1 {
        assert ws[..1] == [ws[0]];
      } else {
        SecondWriteSafe(s, op);
        ApplyConsistent(Apply(s, ws[0]), ws[1]);
        assert ws[..2] == [ws[0], ws[1]];
      }
    }
  }

  /** The same over whole runs: in operation `n`, after `k` of its writes. */
  lemma {:induction false} RunConsistent(s: State, ops: seq<Op>, n: nat, k: nat)
    requires Consistent(s) && n < |ops|
    requires forall op :: op in ops ==> !op.RoleRemoveAllMembers? && !op.RemoveRole?
    requires k <= |Writes(Run(s, ops[..n]), ops[n])|
    ensures Consistent(ApplyAll(Run(s, ops[..n]), Writes(Run(s, ops[..n]), ops[n])[..k]))
    decreases n
  {
    if n == 0 {
      assert ops[0] in ops;
      PrefixConsistent(s, ops[0], k);
    } else {
      assert ops[0] in ops && ops[..n][0] == ops[0] && ops[..n][1..] == ops[1..][..n - 1];
      var ws := Writes(s, ops[0]);
      PrefixConsistent(s, ops[0], |ws|);
      assert ws[..|ws|] == ws;
      RunConsistent(Step(s, ops[0]), ops[1..], n - 1, k);
    }
  }

  /** Emptying a custom role keeps consistency exactly when nobody was confirmed into it. */
  lemma RoleRemoveAllMembersIff(s: State, op: Op)
    requires op.RoleRemoveAllMembers? && Consistent(s) && Writes(s, op) != []
    ensures Consistent(Step(s, op))
        <==> forall key :: key in s.invitations && s.invitations[key].confirmedAt != 0 ==>
        s.invitations[key].role != op.role
  {
    var w := ClearMembers(op.role);
    assert Writes(s, op) == [w] && ApplyAll(s, [w]) == Apply(s, w);
    if Safe(s, w) {
      ApplyConsistent(s, w);
    } else {
      var key :| key in s.invitations && s.invitations[key].confirmedAt != 0 && s.invitations[key].role == op.role;
      assert !ConfirmedIsMember(Apply(s, w), key);
    }
  }

  /** So does deleting a role. */
  lemma RemoveRoleIff(s: State, op: Op)
    requires op.RemoveRole? && Consistent(s) && Writes(s, op) != []
    ensures Consistent(Step(s, op))
        <==> forall key :: key in s.invitations && s.invitations[key].confirmedAt != 0 ==>
        s.invitations[key].role != op.role
  {
    var w := DropRole(op.role);
    assert Writes(s, op) == [w] && ApplyAll(s, [w]) == Apply(s, w);
    if Safe(s, w) {
      ApplyConsistent(s, w);
    } else {
      var key :| key in s.invitations && s.invitations[key].confirmedAt != 0 && s.invitations[key].role == op.role;
      assert !ConfirmedIsMember(Apply(s, w), key);
    }
  }

  // ----- The life of one invitation -----

  datatype Status = Absent | Waiting | Accepted | Rejected

  function StatusOf(s: State, key: Key): Status {
    if key !in s.invitations then Absent
    else if s.invitations[key].confirmedAt != 0 then Accepted
    else if s.invitations[key].rejectedAt != 0 then Rejected
    else Waiting
  }

  /** The request names this invitation for deletion. */
  predicate Names(op: Op, key: Key) {
    || (op.DeleteInvitation? && key.domain == op.domain && key.user == op.invitee)
    || ((op.RemoveEntityMembers? || op.RoleRemoveMembers?) && key.domain == op.domain && key.user in op.users)
  }

  /** The request that may move this invitation from one status to another. */
  predicate Moves(op: Op, key: Key, from: Status, to: Status) {
    match (from, to)
    case (Absent, Waiting) => op.Send? && Key(op.invitee, op.domain) == key
    case (Waiting, Accepted) => op.Accept? && Key(op.user, op.domain) == key
    case (Waiting, Rejected) => op.Reject? && Key(op.user, op.domain) == key
    case (Rejected, Waiting) => op.Resend? && Key(op.invitee, op.domain) == key
    case (_, Absent) => Names(op, key)
    case _ => false
  }

  /** Never confirmed and rejected at once. */
  predicate ExclusiveAt(s: State, key: Key) {
    key in s.invitations ==> s.invitations[key].confirmedAt == 0 || s.invitations[key].rejectedAt == 0
  }

  /** The invitation is left alone or moved along; acceptance and rejection have a time. */
  predicate Progress(s: State, s': State, op: Op, key: Key) {
    && ((op.Accept? || op.Reject? ==> op.at > 0) ==>
          || StatusOf(s', key) == StatusOf(s, key)
          || Moves(op, key, StatusOf(s, key), StatusOf(s', key)))
    && (key in s.invitations && key in s'.invitations ==> s'.invitations[key].role == s.invitations[key].role)
    && (StatusOf(s, key) == Accepted && key in s'.invitations ==> s'.invitations[key] == s.invitations[key])
    && (ExclusiveAt(s, key) ==> ExclusiveAt(s', key))
  }

  lemma NoWriteProgress(s: State, op: Op, key: Key)
    requires Writes(s, op) == []
    ensures Progress(s, Step(s, op), op, key)
  {
  }

  /** Writes to roles and members leave every invitation. */
  lemma MembershipProgress(s: State, op: Op, key: Key, w: Write)
    requires w.AddMembers? || w.RemoveMembers? || w.ClearMembers? || w.DropRole? || w.CreateRole? || w.SetRoleName?
    ensures Progress(s, Apply(s, w), op, key)
  {
  }

  lemma DeletionProgress(s: State, op: Op, key: Key, w: Write)
    requires w.DeleteInvitations? && forall user :: user in w.users ==> Names(op, Key(user, w.domain))
    ensures Progress(s, Apply(s, w), op, key)
  {
  }

  lemma OneWriteProgress(s: State, op: Op, key: Key, w: Write)
    requires Writes(s, op) == [w]
    ensures Progress(s, Step(s, op), op, key)
  {
    ApplyTwo(s, w, w);
    if w.DeleteInvitations? {
      DeletionProgress(s, op, key, w);
    } else if !w.SaveInvitation? && !w.UpdateRejection? {
      MembershipProgress(s, op, key, w);
    }
  }

  lemma AcceptProgress(s: State, op: Op, key: Key)
    requires op.Accept? && |Writes(s, op)| == 2
    ensures Progress(s, Step(s, op), op, key)
  {
    ApplyTwo(s, Writes(s, op)[0], Writes(s, op)[1]);
  }

  lemma RemovalProgress(s: State, op: Op, key: Key)
    requires op.RoleRemoveMembers? && |Writes(s, op)| == 2
    ensures Progress(s, Step(s, op), op, key)
  {
    ApplyTwo(s, Writes(s, op)[0], Writes(s, op)[1]);
  }

  /** With failures anywhere, an operation leaves an invitation alone or moves it along: accepted
      never changes but by removal, rejected returns to waiting only by a resend, the invited
      role never changes, and no invitation becomes both confirmed and rejected. */
  lemma StatusStep(s: State, op: Op, key: Key)
    ensures Progress(s, Step(s, op), op, key)
  {
    var ws := Writes(s, op);
    if |ws| == 0 {
      NoWriteProgress(s, op, key);
    } else if |ws| == 1 {
      OneWriteProgress(s, op, key, ws[0]);
    } else if op.Accept? {
      AcceptProgress(s, op, key);
    } else {
      RemovalProgress(s, op, key);
    }
  }

  /** Over every run, role deletions included, no stored invitation is both confirmed and rejected. */
  lemma {:induction false} RunExclusive(s: State, ops: seq<Op>, key: Key)
    requires ExclusiveAt(s, key)
    ensures ExclusiveAt(Run(s, ops), key)
    decreases |ops|
  {
    if ops != [] {
      StatusStep(s, ops[0], key);
      RunExclusive(Step(s, ops[0]), ops[1..], key);
    }
  }

  /** The invitation is waiting, for a role of the domain, and the invitee has no role there. */
  predicate Acceptable(s: State, user: string, domain: string) {
    var key := Key(user, domain);
    Pending(s, key) && RoleIn(s, s.invitations[key].role, domain) && FreeIn(s, [user], domain)
  }

  /** An acceptance that added the member, with or without seeing it, and did not confirm cannot
      be repeated: the invitee already has a role in the domain, so a second attempt writes
      nothing. */
  lemma HalfAcceptSticks(s: State, first: Op, again: Op)
    requires first.Accept? && Acceptable(s, first.user, first.domain) && first.read == Done && first.add.Applied()
    requires again.Accept? && again.user == first.user && again.domain == first.domain
    ensures Writes(Step(s, first), again) == []
  {
    var key := Key(first.user, first.domain);
    var role := s.invitations[key].role;
    ApplyTwo(s, AddMembers(role, [first.user]), UpdateConfirmation(key, first.at));
    var s' := Step(s, first);
    assert first.user in MembersOf(s', role);
    assert !FreeIn(s', [again.user], again.domain) by { assert again.user in [again.user]; }
  }

  /** After an acceptance that did not confirm, a second one without failures confirms exactly
      when the first did not add the member. */
  lemma RetryAcceptIff(s: State, first: Op, again: Op)
    requires first.Accept? && Acceptable(s, first.user, first.domain)
    requires StatusOf(Step(s, first), Key(first.user, first.domain)) != Accepted
    requires again.Accept? && again.user == first.user && again.domain == first.domain
    requires again.read == again.add == again.confirm == Done && again.at > 0
    ensures StatusOf(Step(Step(s, first), again), Key(first.user, first.domain)) == Accepted
       <==> !(first.read == Done && first.add.Applied())
  {
    var key := Key(first.user, first.domain);
    if first.read == Done && first.add.Applied() {
      HalfAcceptSticks(s, first, again);
    } else {
      assert Writes(s, first) == [] && Step(s, first) == s;
      ApplyTwo(s, AddMembers(s.invitations[key].role, [again.user]), UpdateConfirmation(key, again.at));
    }
  }

  predicate InDomain(s: State, user: string, domain: string) {
    exists r :: r in s.roles && s.roles[r].entity == domain && user in MembersOf(s, r)
  }

  /** Removing members of a domain removes their invitations, at most, and no membership: a user
      is out of the domain's roles exactly when it was before. */
  lemma RemoveEntityMembersIff(s: State, op: Op, user: string)
    requires op.RemoveEntityMembers?
    ensures InDomain(Step(s, op), user, op.domain) <==> InDomain(s, user, op.domain)
    ensures Step(s, op).invitations != s.invitations ==> forall u :: u in op.users ==>
        Key(u, op.domain) !in Step(s, op).invitations
  {
    var w := DeleteInvitations(op.domain, op.users);
    ApplyTwo(s, w, w);
    var s' := Step(s, op);
    assert s'.roles == s.roles && s'.members == s.members;
    assert forall r :: MembersOf(s', r) == MembersOf(s, r);
  }

  // ----- One member stays -----

  lemma {:induction false} ListedIsShort(users: seq<string>)
    ensures |Listed(users)| <= |users|
  {
    if users != [] {
      ListedIsShort(users[1..]);
      assert Listed(users) == Listed(users[1..]) + {users[0]};
    }
  }

  lemma SomeoneStays(members: set<string>, users: seq<string>)
    requires |members| > |users|
    ensures members - Listed(users) != {}
  {
    ListedIsShort(users);
    if members - Listed(users) == {} {
      assert forall x :: x in members && x !in Listed(users) ==> x in members - Listed(users);
      SubsetCard(members, Listed(users));
    }
  }

  lemma {:induction false} SubsetCard(a: set<string>, b: set<string>)
    requires a <= b
    ensures |a| <= |b|
    decreases a
  {
    if a != {} {
      var x :| x in a;
      SubsetCard(a - {x}, b - {x});
    }
  }

  /** A built-in role that has a member. */
  predicate Guarded(s: State, role: string) {
    role in s.roles && BuiltIn(s, role) && MembersOf(s, role) != {}
  }

  /** The request deletes the role, or renames it to a name that is not built in. */
  predicate Unguards(s: State, op: Op, role: string) {
    Writes(s, op) != [] && ((op.RemoveRole? && op.role == role)
        || (op.UpdateRoleName? && op.role == role && op.name !in s.builtIn))
  }

  lemma FirstWriteGuard(s: State, op: Op, role: string)
    requires Guarded(s, role) && Writes(s, op) != []
    ensures Guarded(Apply(s, Writes(s, op)[0]), role) <==> !Unguards(s, op, role)
  {
    var w := Writes(s, op)[0];
    if !op.RemoveRole? {
      var m :| m in MembersOf(s, role);
      assert m in MembersOf(Apply(s, w), role);
    }
  }

  lemma AddingGuard(s: State, w1: Write, w2: Write, role: string)
    requires Guarded(s, role) && w1.AddMembers? && w2.UpdateConfirmation?
    ensures Guarded(Apply(Apply(s, w1), w2), role)
  {
    var m :| m in MembersOf(s, role);
    assert m in MembersOf(Apply(s, w1), role);
  }

  lemma RemovingGuard(s: State, w1: Write, w2: Write, role: string)
    requires Guarded(s, role) && w1.DeleteInvitations? && w2.RemoveMembers?
    requires w2.role == role ==> |MembersOf(s, role)| > |w2.users|
    ensures Guarded(Apply(Apply(s, w1), w2), role)
  {
    if w2.role == role {
      SomeoneStays(MembersOf(s, role), w2.users);
    }
  }

  lemma SecondWriteGuard(s: State, op: Op, role: string)
    requires Guarded(s, role) && |Writes(s, op)| == 2
    ensures !Unguards(s, op, role) && Guarded(Apply(Apply(s, Writes(s, op)[0]), Writes(s, op)[1]), role)
  {
    var ws := Writes(s, op);
    if op.Accept? {
      AddingGuard(s, ws[0], ws[1], role);
    } else {
      RemovingGuard(s, ws[0], ws[1], role);
    }
  }

  /** A built-in role with a member keeps one in every state of a request, for any removal list,
      with duplicates and strangers, exactly when the request does not delete the role or rename
      it to a name that is not built in. */
  lemma RetainOneIff(s: State, op: Op, role: string, k: nat)
    requires Guarded(s, role) && k <= |Writes(s, op)|
    ensures Guarded(ApplyAll(s, Writes(s, op)[..k]), role) <==> k == 0 || !Unguards(s, op, role)
  {
    var ws := Writes(s, op);
    if k == 1 {
      assert ws[..1] == [ws[0]];
      ApplyTwo(s, ws[0], ws[0]);
      FirstWriteGuard(s, op, role);
    } else if k == 2 {
      assert ws[..2] == [ws[0], ws[1]];
      ApplyTwo(s, ws[0], ws[1]);
      SecondWriteGuard(s, op, role);
    }
  }

  predicate GuardingRun(s: State, ops: seq<Op>, role: string)
    decreases |ops|
  {
    ops == [] || (!Unguards(s, ops[0], role) && GuardingRun(Step(s, ops[0]), ops[1..], role))
  }

  /** After every run of such requests someone is left. */
  lemma {:induction false} RunRetainsOne(s: State, ops: seq<Op>, role: string)
    requires Guarded(s, role) && GuardingRun(s, ops, role)
    ensures Guarded(Run(s, ops), role)
    decreases |ops|
  {
    if ops != [] {
      var ws := Writes(s, ops[0]);
      RetainOneIff(s, ops[0], role, |ws|);
      assert ws[..|ws|] == ws;
      RunRetainsOne(Step(s, ops[0]), ops[1..], role);
    }
  }

  /** A built-in role that was renamed can be emptied. */
  lemma RenamedIsEmptied(s: State, rename: Op, empty: Op)
    requires rename.UpdateRoleName? && Guarded(s, rename.role) && Unguards(s, rename, rename.role)
    requires empty.RoleRemoveAllMembers? && empty.domain == rename.domain && empty.role == rename.role
        && empty.read == empty.remove == Done
    ensures MembersOf(Step(Step(s, rename), empty), rename.role) == {}
  {
    var w := SetRoleName(rename.role, rename.name);
    ApplyTwo(s, w, w);
    var t := Step(s, rename);
    assert Writes(s, rename) == [w] && t == Apply(s, w);
    ApplyTwo(t, ClearMembers(empty.role), ClearMembers(empty.role));
  }

  /** The domains service, write by write. */
  class DomainsService {
    const builtIn: set<string>
    var roles: map<string, Role>
    var members: map<string, set<string>>
    var invitations: map<Key, Invitation>

    constructor (builtIn: set<string>)
      ensures Abs() == State(builtIn, map[], map[], map[])
    {
      this.builtIn := builtIn;
      roles, members, invitations := map[], map[], map[];
    }

    ghost function Abs(): State
      reads this
    {
      State(builtIn, roles, members, invitations)
    }

    function Current(role: string): set<string>
      reads this
    {
      if role in members then members[role] else {}
    }

    method AcceptInvitation(user: string, domain: string, at: nat, read: Outcome, add: Outcome, confirm: Outcome)
        returns (ok: bool)
      modifies this`members, this`invitations
      ensures Abs() == Step(old(Abs()), Accept(user, domain, at, read, add, confirm))
      ensures ok ==> Key(user, domain) in invitations && invitations[Key(user, domain)].confirmedAt == at
                     && user in MembersOf(Abs(), invitations[Key(user, domain)].role)
    {
      ghost var before := Abs();
      var key := Key(user, domain);
      if read != Done || key !in invitations { return false; }
      var inv := invitations[key];
      if inv.confirmedAt != 0 || inv.rejectedAt != 0 { return false; }
      if inv.role !in roles || roles[inv.role].entity != domain { return false; }
      if r :| r in roles && roles[r].entity == domain && user in Current(r) {
        assert user in [user] && user in MembersOf(before, r);
        assert !FreeIn(before, [user], domain);
        return false;
      }
      assert FreeIn(before, [user], domain);
      ghost var w1, w2 := AddMembers(inv.role, [user]), UpdateConfirmation(key, at);
      assert Listed([user]) == {user};
      ApplyTwo(before, w1, w2);
      assert Writes(before, Accept(user, domain, at, read, add, confirm))
          == if add == Done && confirm.Applied() then [w1, w2] else if add.Applied() then [w1] else [];
      if add == Refused { return false; }
      members := members[inv.role := Current(inv.role) + {user}];
      if add == Lost || confirm == Refused { return false; }
      invitations := invitations[key := inv.(confirmedAt := at)];
      return confirm == Done;
    }

    method RemoveRoleMembers(domain: string, role: string, users: seq<string>, read: Outcome, delete: Outcome,
        remove: Outcome) returns (ok: bool)
      modifies this`members, this`invitations
      ensures Abs() == Step(old(Abs()), RoleRemoveMembers(domain, role, users, read, delete, remove))
    {
      ghost var before := Abs();
      if read != Done || role !in roles || roles[role].entity != domain { return false; }
      if roles[role].name in builtIn && |Current(role)| <= |users| { return false; }
      if users == [] { return false; }
      ghost var w1, w2 := DeleteInvitations(domain, users), RemoveMembers(role, users);
      ApplyTwo(before, w1, w2);
      assert Writes(before, RoleRemoveMembers(domain, role, users, read, delete, remove))
          == if delete == Done && remove.Applied() then [w1, w2] else if delete.Applied() then [w1] else [];
      if delete == Refused { return false; }
      invitations := map k | k in invitations && !(k.domain == domain && k.user in users) :: invitations[k];
      if delete == Lost || remove == Refused { return false; }
      members := members[role := Current(role) - Listed(users)];
      return remove == Done;
    }

    method ResendInvitation(invitee: string, domain: string, read: Outcome, update: Outcome) returns (ok: bool)
      modifies this`invitations
      ensures Abs() == Step(old(Abs()), Resend(invitee, domain, read, update))
    {
      ghost var before := Abs();
      var key := Key(invitee, domain);
      if read != Done || key !in invitations { return false; }
      if invitations[key].confirmedAt != 0 { return false; }
      if invitations[key].rejectedAt != 0 {
        ApplyTwo(before, UpdateRejection(key, 0), UpdateRejection(key, 0));
        if update == Refused { return false; }
        invitations := invitations[key := invitations[key].(rejectedAt := 0)];
        return update == Done;
      }
      return true;
    }

    method SendInvitation(invitee: string, domain: string, role: string, read: Outcome, save: Outcome)
        returns (ok: bool)
      modifies this`invitations
      ensures Abs() == Step(old(Abs()), Send(invitee, domain, role, read, save))
    {
      ghost var before := Abs();
      var key := Key(invitee, domain);
      if read != Done || role !in roles || key in invitations { return false; }
      ApplyTwo(before, SaveInvitation(key, role), SaveInvitation(key, role));
      if save == Refused { return false; }
      invitations := invitations[key := Invitation(role, 0, 0)];
      return save == Done;
    }

    method RejectInvitation(user: string, domain: string, at: nat, read: Outcome, update: Outcome) returns (ok: bool)
      modifies this`invitations
      ensures Abs() == Step(old(Abs()), Reject(user, domain, at, read, update))
    {
      ghost var before := Abs();
      var key := Key(user, domain);
      if read != Done || key !in invitations { return false; }
      if invitations[key].confirmedAt != 0 || invitations[key].rejectedAt != 0 { return false; }
      ApplyTwo(before, UpdateRejection(key, at), UpdateRejection(key, at));
      if update == Refused { return false; }
      invitations := invitations[key := invitations[key].(rejectedAt := at)];
      return update == Done;
    }

    method RenameRole(domain: string, role: string, name: string, read: Outcome, update: Outcome) returns (ok: bool)
      modifies this`roles
      ensures Abs() == Step(old(Abs()), UpdateRoleName(domain, role, name, read, update))
    {
      ghost var before := Abs();
      if read != Done || role !in roles || roles[role].entity != domain { return false; }
      if name == "" { return update == Done; }
      if r :| r in roles && r != role && roles[r] == Role(domain, name) {
        assert !NameFree(before, name, domain, role);
        return false;
      }
      ApplyTwo(before, SetRoleName(role, name), SetRoleName(role, name));
      if update == Refused { return false; }
      roles := roles[role := roles[role].(name := name)];
      return update == Done;
    }
  }
}
