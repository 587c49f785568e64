/**
 The role of a user, stored in the user's row and as policies on the platform. The policy store
 is written first; a failed row write is followed by a compensating policy write.
 */
module UserRoles {
  import opened Outcomes

  datatype Role = PlainUser | Admin

  datatype User = User(role: Role, enabled: bool)

  datatype Relation = Member | Administrator

  datatype Policy = Policy(user: string, relation: Relation)

  datatype State = State(users: map<string, User>, policies: set<Policy>)

  datatype Reply = Ok | Failed

  /** The policies the rows call for: membership for every user, administration for admins. */
  predicate Due(users: map<string, User>, p: Policy) {
    p.user in users && (p.relation == Administrator ==> users[p.user].role == Admin)
  }

  ghost predicate Agree(s: State) {
    forall p :: p in s.policies <==> Due(s.users, p)
  }

  function PoliciesFor(id: string, role: Role): set<Policy> {
    {Policy(id, Member)} + if role == Admin then {Policy(id, Administrator)} else {}
  }

  datatype Op =
      /** `allowed` is the answer of the super-admin and input checks; the ID is new. */
    | Register(id: string, role: Role, enabled: bool, allowed: bool, add: Outcome, save: Outcome, undo: Outcome)
    | UpdateRole(id: string, role: Role, allowed: bool, first: Outcome, write: Outcome, undo: Outcome)
      /** Enabling and disabling, by other requests. */
    | ChangeStatus(id: string, enabled: bool)

  function RegisterStep(s: State, op: Op): (State, Reply)
    requires op.Register?
  {
    var links := PoliciesFor(op.id, op.role);
    if !op.allowed || op.add == Refused || links * s.policies != {} then (s, Failed)
    else
      var s1 := s.(policies := s.policies + links);
      if op.add == Lost then (s1, Failed)
      else
        var s2 := if op.save.Applied() then s1.(users := s1.users[op.id := User(op.role, op.enabled)]) else s1;
        if op.save == Done then (s2, Ok)
        else (if op.undo.Applied() then s2.(policies := s2.policies - links) else s2, Failed)
  }

  /** The UPDATE finds only enabled users. */
  predicate Found(s: State, id: string) {
    id in s.users && s.users[id].enabled
  }

  predicate IsAdmin(s: State, id: string) {
    id in s.users && s.users[id].role == Admin
  }

  /** `updateUserPolicy`: creating refuses an existing policy, filtering never fails on absence. */
  function UpdateRoleStep(s: State, op: Op): (State, Reply)
    requires op.UpdateRole?
  {
    var admin := Policy(op.id, Administrator);
    if !op.allowed || op.first == Refused || (op.role == Admin && admin in s.policies) then (s, Failed)
    else
      var s1 := s.(policies := if op.role == Admin then s.policies + {admin} else s.policies - {admin});
      if op.first == Lost then (s1, Failed)
      else
        var s2 := if op.write.Applied() && Found(s, op.id)
            then s1.(users := s1.users[op.id := s1.users[op.id].(role := op.role)]) else s1;
        if op.write == Done && Found(s, op.id) then (s2, Ok)
        else (if op.undo.Applied() then s2.(policies := s2.policies - {admin}) else s2, Failed)
  }

  function Step(s: State, op: Op): (State, Reply) {
    match op
    case Register(_, _, _, _, _, _, _) => RegisterStep(s, op)
    case UpdateRole(_, _, _, _, _, _) => UpdateRoleStep(s, op)
    case ChangeStatus(id, enabled) =>
      if id in s.users then (s.(users := s.users[id := s.users[id].(enabled := enabled)]), Ok) else (s, Failed)
  }

  function Run(s: State, ops: seq<Op>): State
    decreases |ops|
  {
    if ops == [] then s else Run(Step(s, ops[0]).0, ops[1..])
  }

  // ----- Exactly when agreement survives -----

  /** What the row write really does: it finds no disabled or missing user. */
  function Effective(s: State, op: Op): Outcome
    requires op.UpdateRole?
  {
    if Found(s, op.id) then op.write else Refused
  }

  /** Promotions survive when row and policy end on the same side; a demotion of an administrator
      survives only if the row write took effect, because the compensation deletes once more. */
  predicate UpdateSettles(s: State, op: Op)
    requires op.UpdateRole?
  {
    var write := Effective(s, op);
    || !op.allowed || op.first == Refused
    || if op.role == Admin
       then IsAdmin(s, op.id) || (op.first == Done && (write == Done || ((write == Refused) == op.undo.Applied())))
       else !IsAdmin(s, op.id) || (op.first == Done && write.Applied())
  }

  lemma UpdateRoleIff(s: State, op: Op)
    requires op.UpdateRole? && Agree(s)
    ensures Agree(Step(s, op).0) <==> UpdateSettles(s, op)
  {
    var s' := Step(s, op).0;
    var admin := Policy(op.id, Administrator);
    assert admin in s.policies <==> Due(s.users, admin);
    if UpdateSettles(s, op) {
      forall p ensures p in s'.policies <==> Due(s'.users, p) {
        assert p in s.policies <==> Due(s.users, p);
      }
    } else {
      assert (admin in s'.policies) != Due(s'.users, admin);
    }
  }

  /** A failed update of a plain user, compensated, leaves both stores as they were. */
  lemma FailedPromotionUndone(s: State, op: Op)
    requires op.UpdateRole? && Agree(s) && !IsAdmin(s, op.id)
    requires Effective(s, op) == Refused && op.undo.Applied() && op.first != Lost
    ensures Step(s, op).0 == s
  {
    var admin := Policy(op.id, Administrator);
    assert admin !in s.policies by { assert admin in s.policies <==> Due(s.users, admin); }
    assert s.policies - {admin} == s.policies && (s.policies + {admin}) - {admin} == s.policies;
  }

  /** Demoting an administrator who is disabled breaks agreement although no store call fails. */
  lemma DisabledDemotionBreaks(s: State, op: Op)
    requires op.UpdateRole? && op.role == PlainUser && op.allowed && op.first == op.write == op.undo == Done
    requires Agree(s) && IsAdmin(s, op.id) && !s.users[op.id].enabled
    ensures Step(s, op).1 == Failed && !Agree(Step(s, op).0)
  {
    UpdateRoleIff(s, op);
  }

  predicate RegisterSettles(op: Op)
    requires op.Register?
  {
    !op.allowed || op.add == Refused
        || (op.add == Done && (op.save == Done || ((op.save == Refused) == op.undo.Applied())))
  }

  /** Registration keeps agreement exactly when rows and policies end on the same side, and a
      refused row write with a successful compensation restores the state. */
  lemma RegisterIff(s: State, op: Op)
    requires op.Register? && Agree(s) && op.id !in s.users
    ensures Agree(Step(s, op).0) <==> RegisterSettles(op)
    ensures op.save == Refused && op.undo.Applied() && op.add != Lost ==> Step(s, op).0 == s
  {
    var s' := Step(s, op).0;
    var links := PoliciesFor(op.id, op.role);
    assert links * s.policies == {};
    assert (s.policies + links) - links == s.policies;
    var member := Policy(op.id, Member);
    if RegisterSettles(op) {
      forall p ensures p in s'.policies <==> Due(s'.users, p) {
        assert p in s.policies <==> Due(s.users, p);
      }
    } else {
      assert (member in s'.policies) != Due(s'.users, member);
    }
  }

  // ----- What a request leaves -----

  /** Registration succeeds exactly when it is allowed, no policy for the user exists and both
      writes work; it stores the requested role and status, and no other user changes. */
  lemma RegisterEffect(s: State, op: Op)
    requires op.Register?
    ensures Step(s, op).1 == Ok
       <==> (op.allowed && op.add == op.save == Done && Policy(op.id, Member) !in s.policies
             && (op.role == Admin ==> Policy(op.id, Administrator) !in s.policies))
    ensures Step(s, op).1 == Ok ==>
              && Step(s, op).0.users == s.users[op.id := User(op.role, op.enabled)]
              && forall p :: p in Step(s, op).0.policies
                   <==> p in s.policies || (p.user == op.id && (p.relation == Administrator ==> op.role == Admin))
  {
    var links := PoliciesFor(op.id, op.role);
    assert Policy(op.id, Member) in links && (op.role == Admin <==> Policy(op.id, Administrator) in links);
    assert links * s.policies == {} <==> forall p :: p in links ==> p !in s.policies by {
      if p :| p in links && p in s.policies {
        assert p in links * s.policies;
      }
    }
  }

  /** A role update succeeds exactly when it is allowed, an administrator is not promoted again, the
      user is enabled and both writes work; it stores the requested role and keeps the rest. */
  lemma UpdateRoleEffect(s: State, op: Op)
    requires op.UpdateRole?
    ensures Step(s, op).1 == Ok
       <==> (op.allowed && op.first == op.write == Done && op.id in s.users && s.users[op.id].enabled
             && !(op.role == Admin && Policy(op.id, Administrator) in s.policies))
    ensures Step(s, op).1 == Ok ==>
              && Step(s, op).0.users == s.users[op.id := User(op.role, s.users[op.id].enabled)]
              && forall p :: p in Step(s, op).0.policies
                   <==> if p == Policy(op.id, Administrator) then op.role == Admin else p in s.policies
  {
  }

  /** A change of status keeps the role, the policies and every other user. */
  lemma ChangeStatusEffect(s: State, op: Op)
    requires op.ChangeStatus?
    ensures Step(s, op).1 == Ok <==> op.id in s.users
    ensures Step(s, op).0.policies == s.policies && Step(s, op).0.users.Keys == s.users.Keys
    ensures forall u :: u in s.users ==>
              Step(s, op).0.users[u] == User(s.users[u].role, if u == op.id then op.enabled else s.users[u].enabled)
  {
  }

  // ----- Runs -----

  predicate Settles(s: State, op: Op) {
    match op
    case Register(id, _, _, _, _, _, _) => id !in s.users && RegisterSettles(op)
    case UpdateRole(_, _, _, _, _, _) => UpdateSettles(s, op)
    case ChangeStatus(_, _) => true
  }

  predicate SettledRun(s: State, ops: seq<Op>)
    decreases |ops|
  {
    ops == [] || (Settles(s, ops[0]) && SettledRun(Step(s, ops[0]).0, ops[1..]))
  }

  lemma ChangeStatusAgrees(s: State, op: Op)
    requires op.ChangeStatus? && Agree(s)
    ensures Agree(Step(s, op).0)
  {
    forall p ensures p in s.policies <==> Due(Step(s, op).0.users, p) {
      assert p in s.policies <==> Due(s.users, p);
    }
  }

  /** After every run of settling registrations and role updates a user has the platform
      administrator policy exactly when the stored role is admin. */
  lemma {:induction false} RunAgrees(s: State, ops: seq<Op>, id: string)
    requires Agree(s) && SettledRun(s, ops)
    ensures Agree(Run(s, ops))
    ensures Policy(id, Administrator) in Run(s, ops).policies <==> IsAdmin(Run(s, ops), id)
    decreases |ops|
  {
    if ops == [] {
      assert Policy(id, Administrator) in s.policies <==> Due(s.users, Policy(id, Administrator));
    } else {
      match ops[0]
      case Register(_, _, _, _, _, _, _) => RegisterIff(s, ops[0]);
        RunAgrees(Step(s, ops[0]).0, ops[1..], id);
      case UpdateRole(_, _, _, _, _, _) => UpdateRoleIff(s, ops[0]);
        RunAgrees(Step(s, ops[0]).0, ops[1..], id);
      case ChangeStatus(_, _) => ChangeStatusAgrees(s, ops[0]);
        RunAgrees(Step(s, ops[0]).0, ops[1..], id);
    }
  }

  /** Every call works, new users have new IDs, and no disabled administrator is demoted. */
  predicate Calm(s: State, op: Op) {
    match op
    case Register(id, _, _, _, add, save, undo) => id !in s.users && add == save == undo == Done
    case UpdateRole(id, role, _, first, write, undo) =>
      first == write == undo == Done && (role == PlainUser && IsAdmin(s, id) ==> s.users[id].enabled)
    case ChangeStatus(_, _) => true
  }

  predicate CalmRun(s: State, ops: seq<Op>)
    decreases |ops|
  {
    ops == [] || (Calm(s, ops[0]) && CalmRun(Step(s, ops[0]).0, ops[1..]))
  }

  lemma {:induction false} CalmSettles(s: State, ops: seq<Op>)
    requires CalmRun(s, ops)
    ensures SettledRun(s, ops)
    decreases |ops|
  {
    if ops != [] {
      assert Settles(s, ops[0]);
      CalmSettles(Step(s, ops[0]).0, ops[1..]);
    }
  }

  /** So without store failures, and without demoting a disabled administrator, a user has the
      administrator policy exactly when the stored role is admin. */
  lemma CalmRunAgrees(s: State, ops: seq<Op>, id: string)
    requires Agree(s) && CalmRun(s, ops)
    ensures Policy(id, Administrator) in Run(s, ops).policies <==> IsAdmin(Run(s, ops), id)
  {
    CalmSettles(s, ops);
    RunAgrees(s, ops, id);
  }

  /** The users service, write by write. */
  class UsersService {
    var users: map<string, User>
    var policies: set<Policy>

    constructor ()
      ensures Abs() == State(map[], {})
    {
      users, policies := map[], {};
    }

    ghost function Abs(): State
      reads this
    {
      State(users, policies)
    }

    method RegisterUser(id: string, role: Role, enabled: bool, allowed: bool, add: Outcome, save: Outcome,
        undo: Outcome) returns (reply: Reply)
      modifies this
      ensures (Abs(), reply) == Step(old(Abs()), Register(id, role, enabled, allowed, add, save, undo))
    {
      if !allowed { return Failed; }
      var list := [Policy(id, Member)];
      if role == Admin { list := list + [Policy(id, Administrator)]; }
      var links := set p | p in list;
      assert links == PoliciesFor(id, role);
      if add == Refused || links * policies != {} { return Failed; }
      policies := policies + links;
      if add == Lost { return Failed; }
      if save.Applied() { users := users[id := User(role, enabled)]; }
      if save != Done {
        if undo.Applied() { policies := policies - links; }
        return Failed;
      }
      return Ok;
    }

    /** `updateUserPolicy` */
    method UpdateUserPolicy(id: string, role: Role, o: Outcome) returns (ok: bool)
      modifies this`policies
      ensures var admin := Policy(id, Administrator);
        if o == Refused || (role == Admin && admin in old(policies)) then policies == old(policies) && !ok
        else ok == (o == Done) && policies == if role == Admin then old(policies) + {admin} else old(policies) - {admin}
    {
      var admin := Policy(id, Administrator);
      if o == Refused || (role == Admin && admin in policies) { return false; }
      policies := if role == Admin then policies + {admin} else policies - {admin};
      return o == Done;
    }

    method ChangeRole(id: string, role: Role, allowed: bool, first: Outcome, write: Outcome, undo: Outcome)
        returns (reply: Reply)
      modifies this
      ensures (Abs(), reply) == Step(old(Abs()), UpdateRole(id, role, allowed, first, write, undo))
    {
      if !allowed { return Failed; }
      var ok := UpdateUserPolicy(id, role, first);
      if !ok { return Failed; }
      var found := id in users && users[id].enabled;
      if write.Applied() && found { users := users[id := users[id].(role := role)]; }
      if write != Done || !found {
        ok := UpdateUserPolicy(id, PlainUser, undo);
        return Failed;
      }
      return Ok;
    }
  }
}
