/** The group operations over rows and policies, write by write. */
module ParentService {
  import opened Outcomes
  import opened ParentLinks

  class Service {
    var rows: map<Ref, Entity>
    var policies: set<Link>

    constructor ()
      ensures Abs() == State(map[], {})
    {
      rows, policies := map[], {};
    }

    ghost function Abs(): State
      reads this
    {
      State(rows, policies)
    }

    /** Groups, channels and clients share this shape. */
    method SetParentGroup(child: Ref, parent: string, eligible: bool, add: Outcome, write: Outcome, undo: Outcome)
        returns (reply: Reply)
      modifies this
      ensures (Abs(), reply) == Step(old(Abs()), SetParent(child, parent, eligible, add, write, undo))
    {
      if child !in rows || !eligible { return Failed; }
      if rows[child].parent == parent || rows[child].parent != "" { return Failed; }
      var links := {Link(parent, child)};
      if add == Refused || !CanCreate(policies, links) { return Failed; }
      policies := policies + links;
      if add == Lost { return Failed; }
      if write.Applied() { rows := rows[child := rows[child].(parent := parent)]; }
      if write != Done {
        if undo.Applied() { policies := policies - links; }
        return Failed;
      }
      return Ok;
    }

    method RemoveParentGroup(child: Ref, delete: Outcome, write: Outcome, undo: Outcome) returns (reply: Reply)
      modifies this
      ensures (Abs(), reply) == Step(old(Abs()), RemoveParent(child, delete, write, undo))
    {
      if child !in rows { return Failed; }
      if rows[child].parent != "" {
        var links := {Link(rows[child].parent, child)};
        if delete == Refused { return Failed; }
        policies := policies - links;
        if delete == Lost { return Failed; }
        if write.Applied() { rows := rows[child := rows[child].(parent := "")]; }
        if write != Done {
          if undo.Applied() && CanCreate(policies, links) { policies := policies + links; }
          return Failed;
        }
      }
      return Ok;
    }

    /** `page` lists the fetched groups; the loops check their parents and build the policies. */
    method AddChildrenGroups(parent: string, ids: seq<string>, page: seq<Ref>, add: Outcome, write: Outcome,
        undo: Outcome) returns (reply: Reply)
      requires forall x :: x in page <==> x in Page(rows, ids)
      modifies this
      ensures (Abs(), reply) == Step(old(Abs()), AddChildren(parent, ids, add, write, undo))
    {
      if |page| == 0 || parent == "" { return Failed; }
      assert page[0] in page;
      for i := 0 to |page|
        invariant forall k :: 0 <= k < i ==> page[k] in rows && rows[page[k]].parent == ""
      {
        assert page[i] in page;
        if rows[page[i]].parent != "" { return Failed; }
      }
      var links := BuildLinks(parent, page);
      assert links == LinksTo(parent, Page(rows, ids));
      if add == Refused || !CanCreate(policies, links) { return Failed; }
      policies := policies + links;
      if add == Lost { return Failed; }
      if write.Applied() { rows := Assign(rows, parent, ids); }
      if write != Done {
        if undo.Applied() { policies := policies - links; }
        return Failed;
      }
      return Ok;
    }

    method RemoveChildrenGroups(parent: string, ids: seq<string>, page: seq<Ref>, delete: Outcome, write: Outcome,
        undo: Outcome) returns (reply: Reply)
      requires forall x :: x in page <==> x in Page(rows, ids)
      modifies this
      ensures (Abs(), reply) == Step(old(Abs()), RemoveChildren(parent, ids, delete, write, undo))
    {
      if |page| == 0 || parent == "" { return Failed; }
      assert page[0] in page;
      for i := 0 to |page|
        invariant forall k :: 0 <= k < i ==>
            page[k] in rows && (rows[page[k]].parent == "" || rows[page[k]].parent == parent)
      {
        assert page[i] in page;
        if rows[page[i]].parent != "" && rows[page[i]].parent != parent { return Failed; }
      }
      var links := BuildLinks(parent, page);
      assert links == LinksTo(parent, Page(rows, ids));
      if delete == Refused { return Failed; }
      policies := policies - links;
      if delete == Lost { return Failed; }
      if write.Applied() { rows := Unassign(rows, parent, ids); }
      if write != Done {
        if undo.Applied() && CanCreate(policies, links) { policies := policies + links; }
        return Failed;
      }
      return Ok;
    }
  }

  /** The loop that turns the fetched groups into policies. */
  method BuildLinks(parent: string, page: seq<Ref>) returns (links: set<Link>)
    ensures links == set x | x in page :: Link(parent, x)
  {
    links := {};
    for i := 0 to |page|
      invariant links == set k | 0 <= k < i :: Link(parent, page[k])
    {
      links := links + {Link(parent, page[i])};
    }
  }
}
