/**
 Parent-group links of groups, channels and clients, held twice: as the parent column of the
 entity's row and as a `parent_group` policy. Each operation writes the policy store first,
 then the row, and compensates the policy write when the row write reports an error.
 */
module ParentLinks {
  import opened Outcomes

  datatype Kind = GroupKind | ChannelKind | ClientKind

  datatype Ref = Ref(kind: Kind, id: string)

  /** `parent` is empty for an entity without a parent group. */
  datatype Entity = Entity(parent: string, enabled: bool)

  datatype Link = Link(parent: string, child: Ref)

  datatype State = State(rows: map<Ref, Entity>, policies: set<Link>)

  datatype Reply = Ok | Failed

  /** The links the rows describe. */
  function LinksOf(rows: map<Ref, Entity>): set<Link> {
    set x | x in rows && rows[x].parent != "" :: Link(rows[x].parent, x)
  }

  /** A `parent_group` policy exists exactly when the row names that parent. */
  ghost predicate Agree(s: State) {
    s.policies == LinksOf(s.rows)
  }

  // ----- The policy store -----

  /** `AddPolicies` creates: it refuses the whole list if a tuple exists, and for groups if the
      child has any parent policy. */
  predicate CanCreate(policies: set<Link>, links: set<Link>) {
    forall l :: l in links
        ==> l !in policies && (l.child.kind == GroupKind ==> forall q :: q in policies ==> q.child != l.child)
  }

  // ----- The two shapes of an operation -----

  function AddThenWrite(s: State, links: set<Link>, rows: map<Ref, Entity>, add: Outcome, write: Outcome,
      undo: Outcome): (State, Reply) {
    if add == Refused || !CanCreate(s.policies, links) then (s, Failed)
    else
      var s1 := s.(policies := s.policies + links);
      if add == Lost then (s1, Failed)
      else
        var s2 := if write.Applied() then s1.(rows := rows) else s1;
        if write == Done then (s2, Ok)
        else (if undo.Applied() then s2.(policies := s2.policies - links) else s2, Failed)
  }

  function DeleteThenWrite(s: State, links: set<Link>, rows: map<Ref, Entity>, delete: Outcome, write: Outcome,
      undo: Outcome): (State, Reply) {
    if delete == Refused then (s, Failed)
    else
      var s1 := s.(policies := s.policies - links);
      if delete == Lost then (s1, Failed)
      else
        var s2 := if write.Applied() then s1.(rows := rows) else s1;
        if write == Done then (s2, Ok)
        else (if undo.Applied() && CanCreate(s2.policies, links) then s2.(policies := s2.policies + links)
            else s2, Failed)
  }

  // ----- Operations -----

  datatype Op =
      /** `AddParentGroup` of groups and `SetParentGroup` of channels and clients. `eligible` is
          the answer of all lookups and checks on the parent group. */
    | SetParent(child: Ref, parent: string, eligible: bool, add: Outcome, write: Outcome, undo: Outcome)
    | RemoveParent(child: Ref, delete: Outcome, write: Outcome, undo: Outcome)
    | AddChildren(parent: string, ids: seq<string>, add: Outcome, write: Outcome, undo: Outcome)
    | RemoveChildren(parent: string, ids: seq<string>, delete: Outcome, write: Outcome, undo: Outcome)
    | RemoveAllChildren(parent: string, delete: Outcome, write: Outcome)
      /** `UnsetParentGroupFromChannels` and `UnsetParentGroupFromClient`. */
    | UnsetParent(kind: Kind, parent: string, delete: Outcome, write: Outcome, undo: Outcome)
      /** A new entity, or a status change of an existing one. */
    | SaveEntity(ref: Ref, enabled: bool)

  /** The page that `RetrieveByIDs` returns: the requested groups that are enabled. */
  function Page(rows: map<Ref, Entity>, ids: seq<string>): set<Ref> {
    set x | x in rows && x.kind == GroupKind && x.id in ids && rows[x].enabled
  }

  function LinksTo(parent: string, children: set<Ref>): set<Link> {
    set x | x in children :: Link(parent, x)
  }

  /** `AssignParentGroup`: all requested groups that exist, enabled or not. */
  function Assign(rows: map<Ref, Entity>, parent: string, ids: seq<string>): map<Ref, Entity> {
    map x | x in rows :: if x.kind == GroupKind && x.id in ids then rows[x].(parent := parent) else rows[x]
  }

  /** `UnassignParentGroup`: those of the requested groups that have this parent. */
  function Unassign(rows: map<Ref, Entity>, parent: string, ids: seq<string>): map<Ref, Entity> {
    map x | x in rows :: if x.kind == GroupKind && x.id in ids && rows[x].parent == parent then rows[x].(parent := "")
        else rows[x]
  }

  /** All entities of a kind lose this parent. */
  function Orphan(rows: map<Ref, Entity>, kind: Kind, parent: string): map<Ref, Entity> {
    map x | x in rows :: if x.kind == kind && rows[x].parent == parent then rows[x].(parent := "") else rows[x]
  }

  function ChildrenOf(rows: map<Ref, Entity>, kind: Kind, parent: string): set<Ref> {
    set x | x in rows && x.kind == kind && rows[x].parent == parent
  }

  function Step(s: State, op: Op): (State, Reply) {
    match op
    case SetParent(x, p, eligible, add, write, undo) =>
      if x !in s.rows || !eligible || p == "" || s.rows[x].parent != "" then (s, Failed)
      else AddThenWrite(s, {Link(p, x)}, s.rows[x := s.rows[x].(parent := p)], add, write, undo)
    case RemoveParent(x, delete, write, undo) =>
      if x !in s.rows then (s, Failed)
      else if s.rows[x].parent == "" then (s, Ok)
      else DeleteThenWrite(s, {Link(s.rows[x].parent, x)}, s.rows[x := s.rows[x].(parent := "")], delete, write, undo)
    case AddChildren(p, ids, add, write, undo) =>
      var page := Page(s.rows, ids);
      if page == {} || p == "" || exists x :: x in page && s.rows[x].parent != "" then (s, Failed)
      else AddThenWrite(s, LinksTo(p, page), Assign(s.rows, p, ids), add, write, undo)
    case RemoveChildren(p, ids, delete, write, undo) =>
      var page := Page(s.rows, ids);
      if page == {} || p == "" || exists x :: x in page && s.rows[x].parent != "" && s.rows[x].parent != p
          then (s, Failed)
      else DeleteThenWrite(s, LinksTo(p, page), Unassign(s.rows, p, ids), delete, write, undo)
    case RemoveAllChildren(p, delete, write) =>
      // a filter delete (an empty subject matches every parent), then the rows, with no compensation
      if delete == Refused then (s, Failed)
      else
        var s1 := s.(policies := set l | l in s.policies && !((p == "" || l.parent == p) && l.child.kind == GroupKind));
        if delete == Lost || write == Refused then (s1, Failed)
        else (s1.(rows := Orphan(s.rows, GroupKind, p)), if write == Done && ChildrenOf(s.rows, GroupKind, p) != {}
            then Ok else Failed)
    case UnsetParent(kind, p, delete, write, undo) =>
      var children := ChildrenOf(s.rows, kind, p);
      if p == "" || children == {} then (s, Ok)
      else DeleteThenWrite(s, LinksTo(p, children), Orphan(s.rows, kind, p), delete, write, undo)
    case SaveEntity(x, enabled) =>
      (s.(rows := s.rows[x := Entity(if x in s.rows then s.rows[x].parent else "", enabled)]), Ok)
  }

  function Run(s: State, ops: seq<Op>): State
    decreases |ops|
  {
    if ops == [] then s else Run(Step(s, ops[0]).0, ops[1..])
  }

  // ----- The shapes keep agreement -----

  /** The outcomes leave both stores changed or both unchanged. */
  predicate Settled(first: Outcome, write: Outcome, undo: Outcome) {
    first == Refused || (first == Done
        && (write == Done || (write == Refused && undo.Applied()) || (write == Lost && undo == Refused)))
  }

  /** When the new rows describe exactly the added links, agreement is kept exactly for settled
      outcomes, and a refused write with a successful compensation restores the state. */
  lemma AddThenWriteAgree(s: State, links: set<Link>, rows: map<Ref, Entity>, add: Outcome, write: Outcome,
      undo: Outcome)
    requires Agree(s) && links != {} && CanCreate(s.policies, links) && LinksOf(rows) == LinksOf(s.rows) + links
    ensures Agree(AddThenWrite(s, links, rows, add, write, undo).0) <==> Settled(add, write, undo)
    ensures write == Refused && undo.Applied() && add != Lost ==> AddThenWrite(s, links, rows, add, write, undo).0 == s
  {
    var l :| l in links;
    assert (s.policies + links) - links == s.policies;
    assert l in s.policies + links && l !in s.policies;
  }

  lemma DeleteThenWriteAgree(s: State, links: set<Link>, rows: map<Ref, Entity>, delete: Outcome, write: Outcome,
      undo: Outcome)
    requires Agree(s) && links != {} && links <= s.policies && LinksOf(rows) == LinksOf(s.rows) - links
    requires OneParent(s.policies)
    ensures Agree(DeleteThenWrite(s, links, rows, delete, write, undo).0) <==> Settled(delete, write, undo)
    ensures write == Refused && undo.Applied() && delete != Lost
        ==> DeleteThenWrite(s, links, rows, delete, write, undo).0 == s
  {
    var l :| l in links;
    assert (s.policies - links) + links == s.policies;
    assert l in s.policies && l !in s.policies - links;
    assert CanCreate(s.policies - links, links);
  }

  /** Each entity has at most one parent policy. */
  ghost predicate OneParent(policies: set<Link>) {
    forall a, b :: a in policies && b in policies && a.child == b.child ==> a == b
  }

  lemma LinksUnique(rows: map<Ref, Entity>)
    ensures OneParent(LinksOf(rows))
  {
  }

  lemma InLinksOf(rows: map<Ref, Entity>, l: Link)
    ensures l in LinksOf(rows) <==> l.child in rows && rows[l.child].parent == l.parent && l.parent != ""
  {
  }

  // ----- The operations, one by one -----

  lemma SetParentIff(s: State, op: Op)
    requires op.SetParent? && Agree(s)
    requires op.child in s.rows && op.eligible && op.parent != "" && s.rows[op.child].parent == ""
    ensures Agree(Step(s, op).0) <==> Settled(op.add, op.write, op.undo)
    ensures op.write == Refused && op.undo.Applied() && op.add != Lost ==> Step(s, op).0 == s
  {
    var links, rows := {Link(op.parent, op.child)}, s.rows[op.child := s.rows[op.child].(parent := op.parent)];
    forall l ensures l in LinksOf(rows) <==> l in LinksOf(s.rows) + links {
      InLinksOf(rows, l);
      InLinksOf(s.rows, l);
    }
    forall q | q in s.policies ensures q.child != op.child {
      InLinksOf(s.rows, q);
    }
    AddThenWriteAgree(s, links, rows, op.add, op.write, op.undo);
  }

  lemma RemoveParentIff(s: State, op: Op)
    requires op.RemoveParent? && Agree(s)
    requires op.child in s.rows && s.rows[op.child].parent != ""
    ensures Agree(Step(s, op).0) <==> Settled(op.delete, op.write, op.undo)
    ensures op.write == Refused && op.undo.Applied() && op.delete != Lost ==> Step(s, op).0 == s
  {
    var links, rows := {Link(s.rows[op.child].parent, op.child)}, s.rows[op.child := s.rows[op.child].(parent := "")];
    forall l ensures l in LinksOf(rows) <==> l in LinksOf(s.rows) - links {
      InLinksOf(rows, l);
      InLinksOf(s.rows, l);
    }
    InLinksOf(s.rows, Link(s.rows[op.child].parent, op.child));
    LinksUnique(s.rows);
    DeleteThenWriteAgree(s, links, rows, op.delete, op.write, op.undo);
  }

  lemma UnsetParentIff(s: State, op: Op)
    requires op.UnsetParent? && Agree(s) && op.parent != "" && ChildrenOf(s.rows, op.kind, op.parent) != {}
    ensures Agree(Step(s, op).0) <==> Settled(op.delete, op.write, op.undo)
    ensures op.write == Refused && op.undo.Applied() && op.delete != Lost ==> Step(s, op).0 == s
  {
    var children := ChildrenOf(s.rows, op.kind, op.parent);
    var links, rows := LinksTo(op.parent, children), Orphan(s.rows, op.kind, op.parent);
    forall l ensures l in LinksOf(rows) <==> l in LinksOf(s.rows) - links {
      InLinksOf(rows, l);
      InLinksOf(s.rows, l);
    }
    forall l | l in links ensures l in s.policies {
      InLinksOf(s.rows, l);
    }
    var x :| x in children;
    assert Link(op.parent, x) in links;
    LinksUnique(s.rows);
    DeleteThenWriteAgree(s, links, rows, op.delete, op.write, op.undo);
  }

  lemma RemoveAllChildrenIff(s: State, op: Op)
    requires op.RemoveAllChildren? && Agree(s) && op.parent != "" && ChildrenOf(s.rows, GroupKind, op.parent) != {}
    ensures Agree(Step(s, op).0) <==> op.delete == Refused || (op.delete == Done && op.write.Applied())
  {
    var rows := Orphan(s.rows, GroupKind, op.parent);
    var left := set l | l in s.policies && !(l.parent == op.parent && l.child.kind == GroupKind);
    forall l ensures l in LinksOf(rows) <==> l in left {
      InLinksOf(rows, l);
      InLinksOf(s.rows, l);
    }
    var x :| x in ChildrenOf(s.rows, GroupKind, op.parent);
    InLinksOf(s.rows, Link(op.parent, x));
    assert Link(op.parent, x) in s.policies && Link(op.parent, x) !in left;
  }

  // ----- Children: the page must cover the request -----

  predicate AddChildrenAccepted(s: State, op: Op)
    requires op.AddChildren?
  {
    var page := Page(s.rows, op.ids);
    page != {} && op.parent != "" && (forall x :: x in page ==> s.rows[x].parent == "")
  }

  /** Every requested group that exists but is not fetched (it is not enabled) already has this parent. */
  predicate AddCovers(s: State, op: Op)
    requires op.AddChildren?
  {
    forall x :: x in s.rows && x.kind == GroupKind && x.id in op.ids && !s.rows[x].enabled
        ==> s.rows[x].parent == op.parent
  }

  lemma AddChildrenLinks(s: State, op: Op)
    requires op.AddChildren? && Agree(s) && AddChildrenAccepted(s, op)
    ensures CanCreate(s.policies, LinksTo(op.parent, Page(s.rows, op.ids)))
    ensures LinksOf(Assign(s.rows, op.parent, op.ids)) == LinksOf(s.rows) + LinksTo(op.parent, Page(s.rows, op.ids))
        <==> AddCovers(s, op)
  {
    var page := Page(s.rows, op.ids);
    var links, rows := LinksTo(op.parent, page), Assign(s.rows, op.parent, op.ids);
    forall l, q | l in links && q in s.policies ensures q.child != l.child {
      InLinksOf(s.rows, q);
    }
    if AddCovers(s, op) {
      forall l ensures l in LinksOf(rows) <==> l in LinksOf(s.rows) + links {
        InLinksOf(rows, l);
        InLinksOf(s.rows, l);
      }
    } else {
      var x :| x in s.rows && x.kind == GroupKind && x.id in op.ids && !s.rows[x].enabled
          && s.rows[x].parent != op.parent;
      InLinksOf(rows, Link(op.parent, x));
      InLinksOf(s.rows, Link(op.parent, x));
    }
  }

  /** A successful addition keeps agreement exactly when the fetched page covers the request. */
  lemma AddChildrenIff(s: State, op: Op)
    requires op.AddChildren? && Agree(s) && Step(s, op).1 == Ok
    ensures Agree(Step(s, op).0) <==> AddCovers(s, op)
  {
    AddChildrenLinks(s, op);
  }

  /** A refused write with a successful compensation restores the state, covered or not. */
  lemma AddChildrenUndone(s: State, op: Op)
    requires op.AddChildren? && Agree(s) && op.write == Refused && op.undo.Applied() && op.add != Lost
    ensures Step(s, op).0 == s
  {
    if AddChildrenAccepted(s, op) {
      AddChildrenLinks(s, op);
      var links := LinksTo(op.parent, Page(s.rows, op.ids));
      assert (s.policies + links) - links == s.policies;
    }
  }

  predicate RemoveChildrenAccepted(s: State, op: Op)
    requires op.RemoveChildren?
  {
    var page := Page(s.rows, op.ids);
    page != {} && op.parent != "" && (forall x :: x in page ==> s.rows[x].parent == "" || s.rows[x].parent == op.parent)
  }

  /** No requested child of this parent is left out of the page. */
  predicate RemoveCovers(s: State, op: Op)
    requires op.RemoveChildren?
  {
    forall x :: x in s.rows && x.kind == GroupKind && x.id in op.ids && !s.rows[x].enabled
        ==> s.rows[x].parent != op.parent
  }

  lemma RemoveChildrenLinks(s: State, op: Op)
    requires op.RemoveChildren? && Agree(s) && RemoveChildrenAccepted(s, op)
    ensures LinksOf(Unassign(s.rows, op.parent, op.ids)) == LinksOf(s.rows) - LinksTo(op.parent, Page(s.rows, op.ids))
        <==> RemoveCovers(s, op)
  {
    var page := Page(s.rows, op.ids);
    var links, rows := LinksTo(op.parent, page), Unassign(s.rows, op.parent, op.ids);
    if RemoveCovers(s, op) {
      forall l ensures l in LinksOf(rows) <==> l in LinksOf(s.rows) - links {
        InLinksOf(rows, l);
        InLinksOf(s.rows, l);
      }
    } else {
      var x :| x in s.rows && x.kind == GroupKind && x.id in op.ids && !s.rows[x].enabled
          && s.rows[x].parent == op.parent;
      InLinksOf(rows, Link(op.parent, x));
      InLinksOf(s.rows, Link(op.parent, x));
    }
  }

  lemma RemoveChildrenIff(s: State, op: Op)
    requires op.RemoveChildren? && Agree(s) && Step(s, op).1 == Ok
    ensures Agree(Step(s, op).0) <==> RemoveCovers(s, op)
  {
    RemoveChildrenLinks(s, op);
  }

  /** Compensating a failed removal restores the state exactly when every fetched group really
      had this parent: for a group without a parent it creates a policy that was not there. */
  lemma RemoveChildrenUndoneIff(s: State, op: Op)
    requires op.RemoveChildren? && Agree(s) && RemoveChildrenAccepted(s, op)
    requires op.delete == Done && op.write == Refused && op.undo.Applied()
    ensures Step(s, op).0 == s <==> forall x :: x in Page(s.rows, op.ids) ==> s.rows[x].parent == op.parent
  {
    var page := Page(s.rows, op.ids);
    var links := LinksTo(op.parent, page);
    forall l, q | l in links && q in s.policies - links ensures q.child != l.child {
      InLinksOf(s.rows, q);
      assert s.rows[l.child].parent == "" || s.rows[l.child].parent == op.parent;
    }
    assert CanCreate(s.policies - links, links);
    forall x | x in page ensures Link(op.parent, x) in s.policies <==> s.rows[x].parent == op.parent {
      InLinksOf(s.rows, Link(op.parent, x));
    }
    if forall x :: x in page ==> s.rows[x].parent == op.parent {
      assert (s.policies - links) + links == s.policies;
    } else {
      var x :| x in page && s.rows[x].parent != op.parent;
      assert Link(op.parent, x) in links;
    }
  }

  // ----- Runs -----

  /** The outcomes are settled, pages cover requests, and removed children have that parent. */
  predicate Careful(s: State, op: Op) {
    match op
    case SetParent(_, _, _, add, write, undo) => Settled(add, write, undo)
    case RemoveParent(_, delete, write, undo) => Settled(delete, write, undo)
    case AddChildren(_, _, add, write, undo) => Settled(add, write, undo) && AddCovers(s, op)
    case RemoveChildren(p, ids, delete, write, undo) =>
      && Settled(delete, write, undo) && RemoveCovers(s, op)
      && (write != Done ==> forall x :: x in Page(s.rows, ids) ==> s.rows[x].parent == p)
    case RemoveAllChildren(p, delete, write) => p != "" && (delete == Refused || (delete == Done && write.Applied()))
    case UnsetParent(_, _, delete, write, undo) => Settled(delete, write, undo)
    case SaveEntity(_, _) => true
  }

  lemma AddChildrenAgrees(s: State, op: Op)
    requires op.AddChildren? && Agree(s) && Careful(s, op)
    ensures Agree(Step(s, op).0)
  {
    if AddChildrenAccepted(s, op) {
      var page := Page(s.rows, op.ids);
      AddChildrenLinks(s, op);
      var x :| x in page;
      assert Link(op.parent, x) in LinksTo(op.parent, page);
      AddThenWriteAgree(s, LinksTo(op.parent, page), Assign(s.rows, op.parent, op.ids), op.add, op.write, op.undo);
    }
  }

  lemma RemoveChildrenAgrees(s: State, op: Op)
    requires op.RemoveChildren? && Agree(s) && Careful(s, op)
    ensures Agree(Step(s, op).0)
  {
    if RemoveChildrenAccepted(s, op) && op.delete == Done {
      RemoveChildrenLinks(s, op);
      if op.write != Done {
        var page := Page(s.rows, op.ids);
        var links := LinksTo(op.parent, page);
        forall l | l in links ensures l in s.policies {
          InLinksOf(s.rows, l);
        }
        var x :| x in page;
        assert Link(op.parent, x) in links;
        LinksUnique(s.rows);
        DeleteThenWriteAgree(s, links, Unassign(s.rows, op.parent, op.ids), op.delete, op.write, op.undo);
      }
    }
  }

  lemma OtherAgrees(s: State, op: Op)
    requires Agree(s) && Careful(s, op) && (op.RemoveAllChildren? || op.UnsetParent? || op.SaveEntity?)
    ensures Agree(Step(s, op).0)
  {
    var s' := Step(s, op).0;
    if op.SaveEntity? {
      forall l ensures l in LinksOf(s'.rows) <==> l in LinksOf(s.rows) {
        InLinksOf(s'.rows, l);
        InLinksOf(s.rows, l);
      }
    } else if op.parent != "" {
      var kind := if op.UnsetParent? then op.kind else GroupKind;
      if ChildrenOf(s.rows, kind, op.parent) != {} {
        if op.UnsetParent? { UnsetParentIff(s, op); } else { RemoveAllChildrenIff(s, op); }
      } else {
        forall l ensures l in s'.policies <==> l in LinksOf(s'.rows) {
          InLinksOf(s'.rows, l);
          InLinksOf(s.rows, l);
          assert l.child in s.rows && l.child.kind == kind ==> l.child !in ChildrenOf(s.rows, kind, op.parent);
        }
      }
    }
  }

  lemma StepAgrees(s: State, op: Op)
    requires Agree(s) && Careful(s, op)
    ensures Agree(Step(s, op).0)
  {
    match op
    case SetParent(x, p, eligible, _, _, _) =>
      if x in s.rows && eligible && p != "" && s.rows[x].parent == "" { SetParentIff(s, op); }
    case RemoveParent(x, _, _, _) =>
      if x in s.rows && s.rows[x].parent != "" { RemoveParentIff(s, op); }
    case AddChildren(_, _, _, _, _) => AddChildrenAgrees(s, op);
    case RemoveChildren(_, _, _, _, _) => RemoveChildrenAgrees(s, op);
    case _ => OtherAgrees(s, op);
  }

  predicate CarefulRun(s: State, ops: seq<Op>)
    decreases |ops|
  {
    ops == [] || (Careful(s, ops[0]) && CarefulRun(Step(s, ops[0]).0, ops[1..]))
  }

  /** Rows and policies agree after every careful run. */
  lemma {:induction false} RunAgrees(s: State, ops: seq<Op>)
    requires Agree(s) && CarefulRun(s, ops)
    ensures Agree(Run(s, ops))
    decreases |ops|
  {
    if ops != [] {
      StepAgrees(s, ops[0]);
      RunAgrees(Step(s, ops[0]).0, ops[1..]);
    }
  }
}
