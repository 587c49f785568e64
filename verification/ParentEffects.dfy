/** What each successful request leaves as parents and policies, and exactly when it succeeds. */
module ParentEffects {
  import opened Outcomes
  import opened ParentLinks

  /** The same entities with the same status; `x` has this parent. */
  predicate ParentIs(s: State, t: State, x: Ref, parent: string) {
    x in s.rows && x in t.rows && t.rows[x] == Entity(parent, s.rows[x].enabled)
  }

  /** The policy store accepts a new parent policy for the child. */
  predicate NoPolicyFor(s: State, parent: string, child: Ref) {
    Link(parent, child) !in s.policies && (child.kind == GroupKind ==> forall q :: q in s.policies ==> q.child != child)
  }

  /** Setting a parent gives it to that child only, in the row and as a policy. */
  lemma SetParentEffect(s: State, op: Op)
    requires op.SetParent? && Step(s, op).1 == Ok
    ensures var t := Step(s, op).0;
      && t.rows.Keys == s.rows.Keys && ParentIs(s, t, op.child, op.parent)
      && (forall x :: x in s.rows && x != op.child ==> t.rows[x] == s.rows[x])
      && (forall l :: l in t.policies <==> l in s.policies || (l.parent == op.parent && l.child == op.child))
  {
  }

  lemma SetParentOkIff(s: State, op: Op)
    requires op.SetParent? && op.add == op.write == Done
    ensures Step(s, op).1 == Ok
       <==> (op.child in s.rows && op.eligible && op.parent != "" && s.rows[op.child].parent == ""
             && NoPolicyFor(s, op.parent, op.child))
  {
    var l := Link(op.parent, op.child);
    assert CanCreate(s.policies, {l}) <==> NoPolicyFor(s, op.parent, op.child) by {
      assert l in {l};
    }
  }

  /** Removing a parent takes it from that child only, in the row and as a policy. */
  lemma RemoveParentEffect(s: State, op: Op)
    requires op.RemoveParent? && Step(s, op).1 == Ok
    ensures var t := Step(s, op).0;
      && t.rows.Keys == s.rows.Keys && ParentIs(s, t, op.child, "")
      && (forall x :: x in s.rows && x != op.child ==> t.rows[x] == s.rows[x])
      && (forall l :: l in t.policies
            <==> l in s.policies && !(l.child == op.child && l.parent == s.rows[op.child].parent && l.parent != ""))
  {
  }

  lemma RemoveParentOkIff(s: State, op: Op)
    requires op.RemoveParent? && op.delete == op.write == Done
    ensures Step(s, op).1 == Ok <==> op.child in s.rows
  {
  }

  predicate Wanted(x: Ref, ids: seq<string>) {
    x.kind == GroupKind && x.id in ids
  }

  /** Adding children gives the parent to exactly the requested groups, and a policy to those of
      them that are enabled. */
  lemma AddChildrenEffect(s: State, op: Op)
    requires op.AddChildren? && Step(s, op).1 == Ok
    ensures var t := Step(s, op).0;
      && t.rows.Keys == s.rows.Keys
      && (forall x :: x in s.rows ==>
            if Wanted(x, op.ids) then ParentIs(s, t, x, op.parent) else t.rows[x] == s.rows[x])
      && (forall l :: l in t.policies
            <==> l in s.policies
                 || (l.parent == op.parent && l.child in s.rows && Wanted(l.child, op.ids) && s.rows[l.child].enabled))
  {
    var t := Step(s, op).0;
    forall l
      ensures l in LinksTo(op.parent, Page(s.rows, op.ids))
         <==> l.parent == op.parent && l.child in s.rows && Wanted(l.child, op.ids) && s.rows[l.child].enabled
    {
      InLinksTo(op.parent, Page(s.rows, op.ids), l);
    }
  }

  lemma InLinksTo(parent: string, children: set<Ref>, l: Link)
    ensures l in LinksTo(parent, children) <==> l.parent == parent && l.child in children
  {
    if l.parent == parent && l.child in children {
      assert l == Link(parent, l.child);
    }
  }

  lemma AddChildrenOkIff(s: State, op: Op)
    requires op.AddChildren? && op.add == op.write == Done
    ensures Step(s, op).1 == Ok
       <==> (op.parent != "" && (exists x :: x in s.rows && Wanted(x, op.ids) && s.rows[x].enabled)
             && forall x :: x in s.rows && Wanted(x, op.ids) && s.rows[x].enabled ==>
                  s.rows[x].parent == "" && NoPolicyFor(s, op.parent, x))
  {
    var page := Page(s.rows, op.ids);
    var links := LinksTo(op.parent, page);
    forall x | x in page
      ensures Link(op.parent, x) in links
    {
      InLinksTo(op.parent, page, Link(op.parent, x));
    }
    assert page != {} <==> exists x :: x in s.rows && Wanted(x, op.ids) && s.rows[x].enabled by {
      if x :| x in s.rows && Wanted(x, op.ids) && s.rows[x].enabled {
        assert x in page;
      }
    }
    assert forall x :: x in page <==> x in s.rows && Wanted(x, op.ids) && s.rows[x].enabled;
    assert CanCreate(s.policies, links) <==> forall x :: x in page ==> NoPolicyFor(s, op.parent, x);
  }

  /** Removing children takes the parent from exactly the requested groups that have it, and the
      policy from those that are enabled. */
  lemma RemoveChildrenEffect(s: State, op: Op)
    requires op.RemoveChildren? && Step(s, op).1 == Ok
    ensures var t := Step(s, op).0;
      && t.rows.Keys == s.rows.Keys
      && (forall x :: x in s.rows ==>
            if Wanted(x, op.ids) && s.rows[x].parent == op.parent then ParentIs(s, t, x, "")
            else t.rows[x] == s.rows[x])
      && (forall l :: l in t.policies
            <==> l in s.policies
                 && !(l.parent == op.parent && l.child in s.rows && Wanted(l.child, op.ids) && s.rows[l.child].enabled))
  {
    forall l
      ensures l in LinksTo(op.parent, Page(s.rows, op.ids))
         <==> l.parent == op.parent && l.child in s.rows && Wanted(l.child, op.ids) && s.rows[l.child].enabled
    {
      InLinksTo(op.parent, Page(s.rows, op.ids), l);
    }
  }

  lemma RemoveChildrenOkIff(s: State, op: Op)
    requires op.RemoveChildren? && op.delete == op.write == Done
    ensures Step(s, op).1 == Ok
       <==> (op.parent != "" && (exists x :: x in s.rows && Wanted(x, op.ids) && s.rows[x].enabled)
             && forall x :: x in s.rows && Wanted(x, op.ids) && s.rows[x].enabled ==>
                  s.rows[x].parent == "" || s.rows[x].parent == op.parent)
  {
    var page := Page(s.rows, op.ids);
    assert forall x :: x in page <==> x in s.rows && Wanted(x, op.ids) && s.rows[x].enabled;
  }

  /** Removing all children takes the parent from every group that has it, with its policies, and
      succeeds exactly when there is one and the calls work. */
  lemma RemoveAllChildrenEffect(s: State, op: Op)
    requires op.RemoveAllChildren? && op.parent != ""
    ensures Step(s, op).1 == Ok
       <==> op.delete == op.write == Done
            && exists x :: x in s.rows && x.kind == GroupKind && s.rows[x].parent == op.parent
    ensures Step(s, op).1 == Ok ==>
              var t := Step(s, op).0;
              && t.rows.Keys == s.rows.Keys
              && (forall x :: x in s.rows ==>
                    if x.kind == GroupKind && s.rows[x].parent == op.parent then ParentIs(s, t, x, "")
                    else t.rows[x] == s.rows[x])
              && forall l :: l in t.policies
                  <==> l in s.policies && !(l.parent == op.parent && l.child.kind == GroupKind)
  {
    if x :| x in s.rows && x.kind == GroupKind && s.rows[x].parent == op.parent {
      assert x in ChildrenOf(s.rows, GroupKind, op.parent);
    }
  }

  /** Unsetting a parent group takes it from every channel, or client, that has it, with their
      policies. */
  lemma UnsetParentEffect(s: State, op: Op)
    requires op.UnsetParent? && op.parent != "" && Step(s, op).1 == Ok
    ensures var t := Step(s, op).0;
      && t.rows.Keys == s.rows.Keys
      && (forall x :: x in s.rows ==>
            if x.kind == op.kind && s.rows[x].parent == op.parent then ParentIs(s, t, x, "")
            else t.rows[x] == s.rows[x])
      && (forall l :: l in t.policies
            <==> l in s.policies
                 && !(l.parent == op.parent && l.child in s.rows && l.child.kind == op.kind
                     && s.rows[l.child].parent == op.parent))
  {
    var children := ChildrenOf(s.rows, op.kind, op.parent);
    forall l
      ensures l in LinksTo(op.parent, children)
         <==> (l.parent == op.parent && l.child in s.rows && l.child.kind == op.kind
               && s.rows[l.child].parent == op.parent)
    {
      InLinksTo(op.parent, children, l);
    }
    assert forall x :: x in s.rows && x.kind == op.kind && s.rows[x].parent == op.parent ==> x in children;
  }

  lemma UnsetParentOkIff(s: State, op: Op)
    requires op.UnsetParent? && op.delete == op.write == Done
    ensures Step(s, op).1 == Ok
  {
  }

  /** A new entity has no parent, and a change of status keeps it; nothing else changes. */
  lemma SaveEntityEffect(s: State, op: Op)
    requires op.SaveEntity?
    ensures var t := Step(s, op).0;
      && t.policies == s.policies && t.rows.Keys == s.rows.Keys + {op.ref}
      && t.rows[op.ref] == Entity(if op.ref in s.rows then s.rows[op.ref].parent else "", op.enabled)
      && forall x :: x in s.rows && x != op.ref ==> t.rows[x] == s.rows[x]
  {
  }
}
