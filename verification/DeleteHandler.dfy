/**
 The periodic job that purges users marked as deleted. It fetches the first page of them again and
 again, without ever moving the offset, and for each one that is old enough removes the domain
 memberships, the policies and the row. Every call can fail, and each visit reads the clock.
 */
module DeleteHandler {
  import opened Outcomes

  const DEF_LIMIT: nat := 100

  datatype Role = UserRole | AdminRole

  datatype User = User(id: string, role: Role, deleted: bool, updatedAt: nat)

  /** `DomainsConfirmed`: the domains service answered that the user was deleted from its domains. */
  datatype Event =
    | DomainsConfirmed(id: string)
    | PoliciesRemoved(id: string)
    | RowDeleted(id: string, updatedAt: nat, now: int)

  /** The users table in the order of the query (newest update first), and what was done so far. */
  datatype State = State(rows: seq<User>, log: seq<Event>)

  /** What one visit meets: the clock and the three calls. `answer` is the Deleted flag. */
  datatype Visit = Visit(now: int, domains: Outcome, answer: bool, policies: Outcome, delete: Outcome)

  /** Everything outside the handler: visit `i` of pass `k`, and whether the fetch of pass `k` works. */
  datatype World = World(deleteAfter: int, visits: (nat, nat) -> Visit, fetch: nat -> bool)

  // ----- The table -----

  /** The page's filter: status deleted, and the role left at its zero value, which is the plain user. */
  predicate Wanted(u: User) {
    u.deleted && u.role == UserRole
  }

  function Selected(rows: seq<User>): seq<User> {
    if rows == [] then [] else (if Wanted(rows[0]) then [rows[0]] else []) + Selected(rows[1..])
  }

  function Page(rows: seq<User>): seq<User> {
    var all := Selected(rows);
    if |all| <= DEF_LIMIT then all else all[..DEF_LIMIT]
  }

  function RemoveId(rows: seq<User>, id: string): seq<User> {
    if rows == [] then [] else (if rows[0].id == id then [] else [rows[0]]) + RemoveId(rows[1..], id)
  }

  predicate HasId(rows: seq<User>, id: string) {
    exists j :: 0 <= j < |rows| && rows[j].id == id
  }

  // ----- The handler -----

  predicate Old(w: World, v: Visit, u: User) {
    v.now - u.updatedAt >= w.deleteAfter
  }

  function VisitUser(w: World, s: State, u: User, v: Visit): State {
    if !Old(w, v, u) then s
    else
      var s1 := if v.domains.Applied() && v.answer then s.(log := s.log + [DomainsConfirmed(u.id)]) else s;
      if v.domains != Done || !v.answer then s1
      else
        var s2 := if v.policies.Applied() then s1.(log := s1.log + [PoliciesRemoved(u.id)]) else s1;
        if v.policies != Done || !v.delete.Applied() || !HasId(s.rows, u.id) then s2
        else State(RemoveId(s.rows, u.id), s2.log + [RowDeleted(u.id, u.updatedAt, v.now)])
  }

  /** The inner loop from visit `i` on. */
  function VisitFrom(w: World, s: State, page: seq<User>, k: nat, i: nat): State
    requires i <= |page|
    decreases |page| - i
  {
    if i == |page| then s else VisitFrom(w, VisitUser(w, s, page[i], w.visits(k, i)), page, k, i + 1)
  }

  datatype End = Finished | FetchFailed | Running

  /** The outer loop from pass `k` on, cut off after `passes` fetches. */
  function Handle(w: World, s: State, k: nat, passes: nat): (r: (State, End, nat))
    ensures r.2 <= passes && (r.1 == Finished ==> Selected(r.0.rows) == [])
    decreases passes
  {
    if passes == 0 then (s, Running, 0)
    else if !w.fetch(k) then (s, FetchFailed, 1)
    else if Selected(s.rows) == [] then (s, Finished, 1)
    else Counted(Handle(w, VisitFrom(w, s, Page(s.rows), k, 0), k + 1, passes - 1), 1)
  }

  /** With so many fetches before. */
  function Counted(r: (State, End, nat), fetched: nat): (State, End, nat) {
    (r.0, r.1, r.2 + fetched)
  }

  // ----- Filtering and removing -----

  lemma {:induction false} SelectedRemove(rows: seq<User>, id: string)
    ensures Selected(RemoveId(rows, id)) == RemoveId(Selected(rows), id)
  {
    if rows != [] {
      SelectedRemove(rows[1..], id);
      assert RemoveId(rows, id) == (if rows[0].id == id then [] else [rows[0]]) + RemoveId(rows[1..], id);
      if rows[0].id != id {
        assert RemoveId(rows, id)[1..] == RemoveId(rows[1..], id);
      } else {
        assert RemoveId(rows, id) == RemoveId(rows[1..], id);
      }
      if Wanted(rows[0]) {
        assert Selected(rows)[1..] == Selected(rows[1..]);
      } else {
        assert Selected(rows) == Selected(rows[1..]);
      }
    }
  }

  lemma {:induction false} RemoveAbsent(rows: seq<User>, id: string)
    requires !HasId(rows, id)
    ensures RemoveId(rows, id) == rows
  {
    if rows != [] {
      assert rows[0].id != id;
      forall j | 0 <= j < |rows[1..]|
        ensures rows[1..][j].id != id
      {
        assert rows[1..][j] == rows[j + 1];
      }
      RemoveAbsent(rows[1..], id);
    }
  }

  lemma {:induction false} RemoveAppend(a: seq<User>, b: seq<User>, id: string)
    ensures RemoveId(a + b, id) == RemoveId(a, id) + RemoveId(b, id)
  {
    if a == [] {
      assert a + b == b;
    } else {
      assert (a + b)[1..] == a[1..] + b;
      RemoveAppend(a[1..], b, id);
    }
  }

  predicate DistinctIds(rows: seq<User>) {
    forall i, j :: 0 <= i < j < |rows| ==> rows[i].id != rows[j].id
  }

  lemma MiddleAbsent(a: seq<User>, u: User, b: seq<User>)
    requires DistinctIds(a + [u] + b)
    ensures !HasId(a, u.id) && !HasId(b, u.id)
  {
    var all := a + [u] + b;
    assert all[|a|] == u;
    assert forall j :: 0 <= j < |a| ==> all[j] == a[j];
    assert forall j :: 0 <= j < |b| ==> all[|a| + 1 + j] == b[j];
  }

  lemma RemoveMiddle(a: seq<User>, u: User, b: seq<User>)
    requires DistinctIds(a + [u] + b)
    ensures RemoveId(a + [u] + b, u.id) == a + b
  {
    MiddleAbsent(a, u, b);
    RemoveAppend(a + [u], b, u.id);
    RemoveAppend(a, [u], u.id);
    RemoveAbsent(a, u.id);
    RemoveAbsent(b, u.id);
    assert RemoveId([u], u.id) == [];
  }

  lemma {:induction false} SelectedMember(rows: seq<User>, u: User)
    ensures u in Selected(rows) <==> u in rows && Wanted(u)
  {
    if rows != [] {
      SelectedMember(rows[1..], u);
      assert u in rows <==> u == rows[0] || u in rows[1..];
    }
  }

  // ----- Safety under any failures -----

  /** A deletion comes right after the domains service confirmed and then the policies were removed. */
  predicate Ordered(w: World, log: seq<Event>, e: nat)
    requires e < |log|
  {
    log[e].RowDeleted? ==>
      && e >= 2 && log[e - 1] == PoliciesRemoved(log[e].id) && log[e - 2] == DomainsConfirmed(log[e].id)
      && log[e].now - log[e].updatedAt >= w.deleteAfter
  }

  ghost predicate AllOrdered(w: World, log: seq<Event>) {
    forall e :: 0 <= e < |log| ==> Ordered(w, log, e)
  }

  lemma VisitOrdered(w: World, s: State, u: User, v: Visit)
    requires AllOrdered(w, s.log)
    ensures AllOrdered(w, VisitUser(w, s, u, v).log)
    ensures s.log <= VisitUser(w, s, u, v).log
  {
    var log := VisitUser(w, s, u, v).log;
    forall e | 0 <= e < |log|
      ensures Ordered(w, log, e)
    {
      if e < |s.log| {
        assert Ordered(w, s.log, e);
      }
    }
  }

  predicate Logged(log: seq<Event>, id: string) {
    exists e :: 0 <= e < |log| && log[e].RowDeleted? && log[e].id == id
  }

  lemma {:induction false} RemoveMember(rows: seq<User>, id: string, u: User)
    ensures u in RemoveId(rows, id) <==> u in rows && u.id != id
  {
    if rows != [] {
      RemoveMember(rows[1..], id, u);
      assert u in rows <==> u == rows[0] || u in rows[1..];
    }
  }

  /** A user is gone exactly when its deletion is in the log. */
  predicate Accounted(before: seq<User>, s: State, u: User) {
    u in s.rows <==> u in before && !Logged(s.log, u.id)
  }

  lemma VisitAccounted(w: World, before: seq<User>, s: State, v: Visit, visited: User, u: User)
    requires Accounted(before, s, u)
    ensures Accounted(before, VisitUser(w, s, visited, v), u)
  {
    var s' := VisitUser(w, s, visited, v);
    RemoveMember(s.rows, visited.id, u);
    assert forall e :: 0 <= e < |s.log| ==> s'.log[e] == s.log[e];
    if s'.rows != s.rows || |s'.log| == |s.log| + 3 {
      assert s'.log[|s.log| + 2].RowDeleted?;
    }
  }

  /** Only users of the page are ever deleted. */
  predicate FromPage(before: seq<User>, log: seq<Event>, e: nat)
    requires e < |log|
  {
    log[e].RowDeleted? ==>
      exists j ::
        0 <= j < |before| && before[j].deleted && before[j].role == UserRole
        && before[j].id == log[e].id && before[j].updatedAt == log[e].updatedAt
  }

  ghost predicate Safe(w: World, before: seq<User>, s: State) {
    && AllOrdered(w, s.log)
    && (forall u :: Accounted(before, s, u))
    && (forall e :: 0 <= e < |s.log| ==> FromPage(before, s.log, e))
  }

  lemma VisitFromPage(w: World, before: seq<User>, s: State, u: User, v: Visit)
    requires forall e :: 0 <= e < |s.log| ==> FromPage(before, s.log, e)
    requires u in before && Wanted(u)
    ensures var log := VisitUser(w, s, u, v).log; forall e :: 0 <= e < |log| ==> FromPage(before, log, e)
  {
    var log := VisitUser(w, s, u, v).log;
    forall e | 0 <= e < |log|
      ensures FromPage(before, log, e)
    {
      if e < |s.log| {
        assert FromPage(before, s.log, e);
      } else {
        var j :| 0 <= j < |before| && before[j] == u;
      }
    }
  }

  lemma VisitSafe(w: World, before: seq<User>, s: State, u: User, v: Visit)
    requires Safe(w, before, s) && u in before && Wanted(u)
    ensures Safe(w, before, VisitUser(w, s, u, v))
  {
    VisitOrdered(w, s, u, v);
    VisitFromPage(w, before, s, u, v);
    forall any: User
      ensures Accounted(before, VisitUser(w, s, u, v), any)
    {
      VisitAccounted(w, before, s, v, u, any);
    }
  }

  lemma {:induction false} VisitsSafe(w: World, before: seq<User>, s: State, page: seq<User>, k: nat, i: nat)
    requires Safe(w, before, s) && i <= |page|
    requires forall j :: 0 <= j < |page| ==> page[j] in before && Wanted(page[j])
    ensures Safe(w, before, VisitFrom(w, s, page, k, i))
    decreases |page| - i
  {
    if i < |page| {
      VisitSafe(w, before, s, page[i], w.visits(k, i));
      VisitsSafe(w, before, VisitUser(w, s, page[i], w.visits(k, i)), page, k, i + 1);
    }
  }

  lemma PageWanted(w: World, before: seq<User>, s: State)
    requires Safe(w, before, s)
    ensures forall j :: 0 <= j < |Page(s.rows)| ==> Page(s.rows)[j] in before && Wanted(Page(s.rows)[j])
  {
    var page := Page(s.rows);
    forall j | 0 <= j < |page|
      ensures page[j] in before && Wanted(page[j])
    {
      assert page[j] in Selected(s.rows);
      SelectedMember(s.rows, page[j]);
      assert Accounted(before, s, page[j]);
    }
  }

  lemma {:induction false} HandleKeepsSafe(w: World, before: seq<User>, s: State, k: nat, passes: nat)
    requires Safe(w, before, s)
    ensures Safe(w, before, Handle(w, s, k, passes).0)
    decreases passes
  {
    if passes > 0 && w.fetch(k) && Selected(s.rows) != [] {
      PageWanted(w, before, s);
      VisitsSafe(w, before, s, Page(s.rows), k, 0);
      HandleKeepsSafe(w, before, VisitFrom(w, s, Page(s.rows), k, 0), k + 1, passes - 1);
    }
  }

  /** Whatever fails, after any number of passes: a user row is gone exactly when its deletion is
      logged; every deletion was of a plain user marked as deleted, at least the configured age
      old, and directly follows the domains service's confirmation and the removal of its policies. */
  lemma HandleSafe(w: World, rows: seq<User>, passes: nat)
    ensures Safe(w, rows, Handle(w, State(rows, []), 0, passes).0)
  {
    HandleKeepsSafe(w, rows, State(rows, []), 0, passes);
  }

  /** One visit: what is confirmed, removed and deleted follows from the age and the three calls. */
  lemma VisitExact(w: World, s: State, u: User, v: Visit)
    ensures var t := VisitUser(w, s, u, v);
      var ready := v.now - u.updatedAt >= w.deleteAfter;
      var confirmed := ready && v.domains == Done && v.answer;
      var goes := confirmed && v.policies == Done && v.delete != Refused && exists x :: x in s.rows && x.id == u.id;
      && t.log == s.log
           + (if ready && v.domains != Refused && v.answer then [DomainsConfirmed(u.id)] else [])
           + (if confirmed && v.policies != Refused then [PoliciesRemoved(u.id)] else [])
           + (if goes then [RowDeleted(u.id, u.updatedAt, v.now)] else [])
      && (forall x :: x in t.rows <==> x in s.rows && !(goes && x.id == u.id))
      && (!goes ==> t.rows == s.rows)
  {
    forall x
      ensures x in RemoveId(s.rows, u.id) <==> x in s.rows && x.id != u.id
    {
      RemoveMember(s.rows, u.id, x);
    }
    assert HasId(s.rows, u.id) <==> exists x :: x in s.rows && x.id == u.id;
  }

  /** A finished loop leaves no plain user that is marked as deleted. */
  lemma FinishedIsClean(w: World, s: State, k: nat, passes: nat, u: User)
    requires Handle(w, s, k, passes).1 == Finished && u in Handle(w, s, k, passes).0.rows
    ensures !(u.deleted && u.role == UserRole)
  {
    SelectedMember(Handle(w, s, k, passes).0.rows, u);
  }

  /** Whatever fails, administrators and users that are not marked as deleted stay. */
  lemma OthersStay(w: World, rows: seq<User>, passes: nat, u: User)
    requires DistinctIds(rows) && u in rows && !(u.deleted && u.role == UserRole)
    ensures u in Handle(w, State(rows, []), 0, passes).0.rows
  {
    HandleSafe(w, rows, passes);
    var t := Handle(w, State(rows, []), 0, passes).0;
    assert Accounted(rows, t, u);
    forall e | 0 <= e < |t.log| && t.log[e].RowDeleted?
      ensures t.log[e].id != u.id
    {
      assert FromPage(rows, t.log, e);
    }
  }

  // ----- A young user keeps the loop going -----

  /** The user is too young at every visit of the `m` passes from `k` on. */
  ghost predicate YoungIn(w: World, u: User, k: nat, m: nat) {
    forall j, i :: k <= j < k + m ==> !Old(w, w.visits(j, i), u)
  }

  ghost predicate OldIn(w: World, u: User, k: nat, m: nat) {
    forall j, i :: k <= j < k + m ==> Old(w, w.visits(j, i), u)
  }

  predicate OnlyWithId(rows: seq<User>, u: User) {
    u in rows && forall j :: 0 <= j < |rows| && rows[j].id == u.id ==> rows[j] == u
  }

  lemma VisitKeepsYoung(w: World, s: State, u: User, visited: User, v: Visit)
    requires OnlyWithId(s.rows, u) && !Old(w, v, u) && (visited.id == u.id ==> visited == u)
    ensures OnlyWithId(VisitUser(w, s, visited, v).rows, u)
  {
    var rows := VisitUser(w, s, visited, v).rows;
    RemoveMember(s.rows, visited.id, u);
    forall j | 0 <= j < |rows| && rows[j].id == u.id
      ensures rows[j] == u
    {
      RemoveMember(s.rows, visited.id, rows[j]);
      assert rows[j] in rows;
    }
  }

  lemma {:induction false} VisitsKeepYoung(w: World, s: State, u: User, page: seq<User>, k: nat, i: nat)
    requires OnlyWithId(s.rows, u) && YoungIn(w, u, k, 1) && i <= |page|
    requires forall j :: 0 <= j < |page| && page[j].id == u.id ==> page[j] == u
    ensures OnlyWithId(VisitFrom(w, s, page, k, i).rows, u)
    decreases |page| - i
  {
    if i < |page| {
      assert !Old(w, w.visits(k, i), u);
      VisitKeepsYoung(w, s, u, page[i], w.visits(k, i));
      VisitsKeepYoung(w, VisitUser(w, s, page[i], w.visits(k, i)), u, page, k, i + 1);
    }
  }

  /** Whatever else fails, a user to purge that is too young in the passes made so far is still
      there, and if their fetches worked the loop is still running. */
  lemma {:induction false} YoungKeepsGoing(w: World, s: State, u: User, k: nat, passes: nat)
    requires OnlyWithId(s.rows, u) && Wanted(u) && YoungIn(w, u, k, passes)
    requires forall j :: k <= j < k + passes ==> w.fetch(j)
    ensures Handle(w, s, k, passes).1 == Running && OnlyWithId(Handle(w, s, k, passes).0.rows, u)
    decreases passes
  {
    if passes > 0 {
      SelectedMember(s.rows, u);
      var page := Page(s.rows);
      forall j | 0 <= j < |page| && page[j].id == u.id
        ensures page[j] == u
      {
        assert page[j] in Selected(s.rows);
        SelectedMember(s.rows, page[j]);
      }
      VisitsKeepYoung(w, s, u, page, k, 0);
      YoungKeepsGoing(w, VisitFrom(w, s, page, k, 0), u, k + 1, passes - 1);
    }
  }

  /** Visits to young users change nothing. */
  lemma {:induction false} VisitsYoung(w: World, s: State, page: seq<User>, k: nat, i: nat, m: nat)
    requires i <= m <= |page| && forall j :: i <= j < m ==> YoungIn(w, page[j], k, 1)
    ensures VisitFrom(w, s, page, k, i) == VisitFrom(w, s, page, k, m)
    decreases m - i
  {
    if i < m {
      assert YoungIn(w, page[i], k, 1) && !Old(w, w.visits(k, i), page[i]);
      VisitsYoung(w, s, page, k, i + 1, m);
    }
  }

  /** While the first page holds only users that are too young, nothing at all is done, whatever
      fails and however old the users behind them are. */
  lemma {:induction false} YoungPageHolds(w: World, s: State, k: nat, passes: nat)
    requires forall j :: 0 <= j < |Page(s.rows)| ==> YoungIn(w, Page(s.rows)[j], k, passes)
    ensures Handle(w, s, k, passes).0 == s
    decreases passes
  {
    if passes > 0 && w.fetch(k) && Selected(s.rows) != [] {
      var page := Page(s.rows);
      forall j | 0 <= j < |page|
        ensures YoungIn(w, page[j], k, 1) && YoungIn(w, page[j], k + 1, passes - 1)
      {
        assert YoungIn(w, page[j], k, passes);
      }
      VisitsYoung(w, s, page, k, 0, |page|);
      YoungPageHolds(w, s, k + 1, passes - 1);
    }
  }

  // ----- Progress when every call works -----

  /** The fetch and all calls of pass `k` work. */
  ghost predicate WorksAt(w: World, k: nat) {
    w.fetch(k) && forall i :: var v := w.visits(k, i); v.domains == v.policies == v.delete == Done && v.answer
  }

  ghost predicate Works(w: World, k: nat, m: nat) {
    forall j :: k <= j < k + m ==> WorksAt(w, j)
  }

  /** The wanted users are `young` ones followed by `old` ones, for `m` passes from `k` on. */
  ghost predicate Shape(w: World, rows: seq<User>, young: seq<User>, olds: seq<User>, k: nat, m: nat) {
    && Selected(rows) == young + olds && DistinctIds(young + olds)
    && (forall j :: 0 <= j < |young| ==> YoungIn(w, young[j], k, m))
    && (forall j :: 0 <= j < |olds| ==> OldIn(w, olds[j], k, m))
  }

  lemma ShapeLater(w: World, rows: seq<User>, young: seq<User>, olds: seq<User>, k: nat, m: nat)
    requires Shape(w, rows, young, olds, k, m) && m > 0
    ensures Shape(w, rows, young, olds, k + 1, m - 1)
  {
    forall j | 0 <= j < |young|
      ensures YoungIn(w, young[j], k + 1, m - 1)
    {
      assert YoungIn(w, young[j], k, m);
    }
    forall j | 0 <= j < |olds|
      ensures OldIn(w, olds[j], k + 1, m - 1)
    {
      assert OldIn(w, olds[j], k, m);
    }
  }

  lemma DistinctTail(young: seq<User>, olds: seq<User>)
    requires DistinctIds(young + olds) && olds != []
    ensures DistinctIds(young + olds[1..])
  {
    var all, less := young + olds, young + olds[1..];
    forall i, j | 0 <= i < j < |less|
      ensures less[i].id != less[j].id
    {
      assert less[i] == all[if i < |young| then i else i + 1];
      assert less[j] == all[if j < |young| then j else j + 1];
    }
  }

  /** Visiting the first of the old users takes it away and nothing else. */
  lemma VisitHead(w: World, s: State, young: seq<User>, olds: seq<User>, k: nat, i: nat, m: nat)
    requires WorksAt(w, k) && m > 0 && Shape(w, s.rows, young, olds, k, m) && olds != []
    ensures Shape(w, VisitUser(w, s, olds[0], w.visits(k, i)).rows, young, olds[1..], k, m)
  {
    var u := olds[0];
    assert OldIn(w, u, k, m) && Old(w, w.visits(k, i), u);
    assert young + olds == young + [u] + olds[1..];
    assert (young + olds)[|young|] == u && u in Selected(s.rows);
    SelectedMember(s.rows, u);
    assert HasId(s.rows, u.id);
    SelectedRemove(s.rows, u.id);
    RemoveMiddle(young, u, olds[1..]);
    DistinctTail(young, olds);
  }

  function Min(a: nat, b: nat): nat {
    if a < b then a else b
  }

  /** Visits to the first `n` old users take just these away. */
  lemma {:induction false} VisitsOld(w: World, s: State, page: seq<User>, young: seq<User>, olds: seq<User>, k: nat,
      i: nat, n: nat, m: nat)
    requires WorksAt(w, k) && m > 0 && Shape(w, s.rows, young, olds, k, m)
    requires i <= |page| && n <= |olds| && page[i..] == olds[..n]
    ensures Shape(w, VisitFrom(w, s, page, k, i).rows, young, olds[n..], k, m)
    decreases |page| - i
  {
    if i == |page| {
      assert n == 0 && olds[n..] == olds;
    } else {
      assert page[i] == page[i..][0] == olds[0];
      assert page[i + 1..] == page[i..][1..] == olds[1..][..n - 1];
      VisitHead(w, s, young, olds, k, i, m);
      VisitsOld(w, VisitUser(w, s, page[i], w.visits(k, i)), page, young, olds[1..], k, i + 1, n - 1, m);
      assert olds[1..][n - 1..] == olds[n..];
    }
  }

  /** How many old users the first page holds behind the young ones. */
  function Room(young: nat, waiting: nat): (n: nat)
    ensures n <= waiting
  {
    if young >= DEF_LIMIT then 0 else Min(DEF_LIMIT - young, waiting)
  }

  /** A pass that works takes away exactly the old users of the first page. */
  lemma PassShape(w: World, s: State, young: seq<User>, olds: seq<User>, k: nat, m: nat)
    requires WorksAt(w, k) && m > 0 && Shape(w, s.rows, young, olds, k, m)
    ensures Shape(w, VisitFrom(w, s, Page(s.rows), k, 0).rows, young, olds[Room(|young|, |olds|)..], k, m)
  {
    var page := Page(s.rows);
    var n := Room(|young|, |olds|);
    var front := Min(|young|, |page|);
    assert page == young[..front] + olds[..n];
    forall j | 0 <= j < front
      ensures YoungIn(w, page[j], k, 1)
    {
      assert YoungIn(w, young[j], k, m);
    }
    VisitsYoung(w, s, page, k, 0, front);
    VisitsOld(w, s, page, young, olds, k, front, n, m);
  }

  /** What is left of the old users after so many passes. */
  function Left(young: nat, olds: seq<User>, passes: nat): seq<User>
    decreases passes
  {
    if passes == 0 then olds else Left(young, olds[Room(young, |olds|)..], passes - 1)
  }

  /** Each pass that works removes as many old users as fit on the first page behind the young
      ones. */
  lemma {:induction false} WindowShape(w: World, s: State, young: seq<User>, olds: seq<User>, k: nat, passes: nat)
    requires Works(w, k, passes) && Shape(w, s.rows, young, olds, k, passes)
    ensures Selected(Handle(w, s, k, passes).0.rows) == young + Left(|young|, olds, passes)
    decreases passes
  {
    if passes > 0 {
      assert WorksAt(w, k);
      if Selected(s.rows) == [] {
        assert young == [] && olds == [];
        LeftOfNothing(0, passes);
      } else {
        PassShape(w, s, young, olds, k, passes);
        var s' := VisitFrom(w, s, Page(s.rows), k, 0);
        ShapeLater(w, s'.rows, young, olds[Room(|young|, |olds|)..], k, passes);
        WindowShape(w, s', young, olds[Room(|young|, |olds|)..], k + 1, passes - 1);
      }
    }
  }

  lemma {:induction false} LeftOfNothing(young: nat, passes: nat)
    ensures Left(young, [], passes) == []
    decreases passes
  {
    if passes > 0 {
      LeftOfNothing(young, passes - 1);
    }
  }

  /** Nothing is left exactly when the room of all passes suffices. */
  lemma {:induction false} LeftIff(young: nat, olds: seq<User>, passes: nat)
    requires young < DEF_LIMIT
    ensures Left(young, olds, passes) == [] <==> passes * (DEF_LIMIT - young) >= |olds|
    decreases passes
  {
    if passes > 0 {
      var room, rest := DEF_LIMIT - young, olds[Room(young, |olds|)..];
      assert passes * room == (passes - 1) * room + room;
      LeftIff(young, rest, passes - 1);
    }
  }

  lemma {:induction false} LeftStuck(young: nat, olds: seq<User>, passes: nat)
    requires young >= DEF_LIMIT
    ensures Left(young, olds, passes) == olds
    decreases passes
  {
    if passes > 0 {
      assert olds[Room(young, |olds|)..] == olds;
      LeftStuck(young, olds, passes - 1);
    }
  }

  /** In passes that work, and in which the young users stay young, all old users are purged if
      and only if there are none, or the room behind the young ones suffices for them: a hundred
      young users leave no room. */
  lemma OldPurgedIff(w: World, s: State, young: seq<User>, olds: seq<User>, k: nat, passes: nat)
    requires Works(w, k, passes) && Shape(w, s.rows, young, olds, k, passes)
    ensures Selected(Handle(w, s, k, passes).0.rows) == young
       <==> olds == [] || (|young| < DEF_LIMIT && passes * (DEF_LIMIT - |young|) >= |olds|)
  {
    WindowShape(w, s, young, olds, k, passes);
    var left := Left(|young|, olds, passes);
    assert young + left == young <==> left == [] by {
      assert |young + left| == |young| + |left|;
    }
    if |young| < DEF_LIMIT {
      LeftIff(|young|, olds, passes);
      if olds == [] {
        LeftOfNothing(|young|, passes);
      }
    } else {
      LeftStuck(|young|, olds, passes);
    }
  }

  /** The number of fetches: one per started hundred, and the one that finds nothing. */
  function Fetches(n: nat): nat {
    (n + 99) / 100 + 1
  }

  lemma FetchesStep(n: nat)
    requires n > 0
    ensures Fetches(n) == Fetches(n - Room(0, n)) + 1 && Fetches(n) >= 2
  {
  }

  /** If all `n` users to purge are old enough and the calls work, the loop ends after exactly
      `ceil(n/100) + 1` fetches with none left, and is still going before that. */
  lemma {:induction false} Drains(w: World, s: State, olds: seq<User>, k: nat, passes: nat)
    requires Works(w, k, passes) && Shape(w, s.rows, [], olds, k, passes)
    ensures passes >= Fetches(|olds|) ==>
              var (s', end, fetched) := Handle(w, s, k, passes);
              end == Finished && fetched == Fetches(|olds|) && Selected(s'.rows) == []
    ensures passes < Fetches(|olds|) ==> Handle(w, s, k, passes).1 == Running
    decreases passes
  {
    assert [] + olds == olds;
    if passes > 0 {
      assert WorksAt(w, k);
      if olds != [] {
        PassShape(w, s, [], olds, k, passes);
        FetchesStep(|olds|);
        var s', rest := VisitFrom(w, s, Page(s.rows), k, 0), olds[Room(0, |olds|)..];
        ShapeLater(w, s'.rows, [], rest, k, passes);
        Drains(w, s', rest, k + 1, passes - 1);
      }
    }
  }

  // ----- Exactly when it ends -----

  /** The clock does not go back, within a pass or from one pass to a later one. */
  ghost predicate Forward(w: World) {
    forall k, i, k', i' :: k < k' || (k == k' && i <= i') ==> w.visits(k, i).now <= w.visits(k', i').now
  }

  predicate NewestFirst(rows: seq<User>) {
    forall i, j :: 0 <= i < j < |rows| ==> rows[i].updatedAt >= rows[j].updatedAt
  }

  lemma YoungToo(w: World, u: User, v: User, k: nat, m: nat)
    requires YoungIn(w, v, k, m) && u.updatedAt >= v.updatedAt
    ensures YoungIn(w, u, k, m)
  {
  }

  /** Who is old when the passes begin stays old, and so is every older user. */
  lemma OldOnwards(w: World, u: User, v: User, k: nat, m: nat)
    requires Forward(w) && Old(w, w.visits(k, 0), v) && u.updatedAt <= v.updatedAt
    ensures OldIn(w, u, k, m)
  {
    forall p, i | k <= p < k + m
      ensures Old(w, w.visits(p, i), u)
    {
      assert w.visits(k, 0).now <= w.visits(p, i).now;
    }
  }

  lemma FrontYoung(w: World, all: seq<User>, n: nat, k: nat, m: nat)
    requires NewestFirst(all) && n <= |all| && (n > 0 ==> YoungIn(w, all[n - 1], k, m))
    ensures forall j :: 0 <= j < n ==> YoungIn(w, all[j], k, m)
  {
    forall j | 0 <= j < n
      ensures YoungIn(w, all[j], k, m)
    {
      YoungToo(w, all[j], all[n - 1], k, m);
    }
  }

  lemma BackOld(w: World, all: seq<User>, n: nat, k: nat, m: nat)
    requires Forward(w) && NewestFirst(all) && n <= |all| && (n < |all| ==> Old(w, w.visits(k, 0), all[n]))
    ensures forall j :: n <= j < |all| ==> OldIn(w, all[j], k, m)
  {
    forall j | n <= j < |all|
      ensures OldIn(w, all[j], k, m)
    {
      OldOnwards(w, all[j], all[n], k, m);
    }
  }

  lemma ShapeSplit(w: World, rows: seq<User>, n: nat, k: nat, m: nat)
    requires DistinctIds(Selected(rows)) && n <= |Selected(rows)|
    requires forall j :: 0 <= j < n ==> YoungIn(w, Selected(rows)[j], k, m)
    requires forall j :: n <= j < |Selected(rows)| ==> OldIn(w, Selected(rows)[j], k, m)
    ensures Shape(w, rows, Selected(rows)[..n], Selected(rows)[n..], k, m)
  {
    var all := Selected(rows);
    assert all[..n] + all[n..] == all;
  }

  /** In the query's order two users tell the shape: the last young one, young to the end of the
      passes, and the first old one, old when they begin. */
  lemma ShapeByOrder(w: World, rows: seq<User>, n: nat, k: nat, m: nat)
    requires Forward(w) && NewestFirst(Selected(rows)) && DistinctIds(Selected(rows)) && n <= |Selected(rows)|
    requires n > 0 ==> YoungIn(w, Selected(rows)[n - 1], k, m)
    requires n < |Selected(rows)| ==> Old(w, w.visits(k, 0), Selected(rows)[n])
    ensures Shape(w, rows, Selected(rows)[..n], Selected(rows)[n..], k, m)
  {
    FrontYoung(w, Selected(rows), n, k, m);
    BackOld(w, Selected(rows), n, k, m);
    ShapeSplit(w, rows, n, k, m);
  }

  lemma {:induction false} DistinctRemove(rows: seq<User>, id: string)
    requires DistinctIds(rows)
    ensures DistinctIds(RemoveId(rows, id))
  {
    if rows != [] {
      assert forall j :: 0 <= j < |rows[1..]| ==> rows[1..][j] == rows[j + 1];
      var rest := RemoveId(rows[1..], id);
      DistinctRemove(rows[1..], id);
      forall j | 0 <= j < |rest|
        ensures rest[j].id != rows[0].id
      {
        RemoveMember(rows[1..], id, rest[j]);
        assert rest[j] in rows[1..];
      }
    }
  }

  lemma {:induction false} DistinctSelected(rows: seq<User>)
    requires DistinctIds(rows)
    ensures DistinctIds(Selected(rows))
  {
    if rows != [] {
      assert forall j :: 0 <= j < |rows[1..]| ==> rows[1..][j] == rows[j + 1];
      var rest := Selected(rows[1..]);
      DistinctSelected(rows[1..]);
      forall j | 0 <= j < |rest|
        ensures rest[j].id != rows[0].id
      {
        SelectedMember(rows[1..], rest[j]);
        assert rest[j] in rows[1..];
      }
    }
  }

  lemma {:induction false} RemoveShorter(rows: seq<User>, id: string)
    ensures |RemoveId(rows, id)| <= |rows|
  {
    if rows != [] {
      RemoveShorter(rows[1..], id);
    }
  }

  /** The rows are some of `before`, with distinct IDs, and no more of them are wanted. */
  ghost predicate Fewer(before: seq<User>, rows: seq<User>) {
    DistinctIds(rows) && |Selected(rows)| <= |Selected(before)| && forall u :: u in rows ==> u in before
  }

  lemma {:induction false} VisitsFewer(w: World, before: seq<User>, s: State, page: seq<User>, k: nat, i: nat)
    requires Fewer(before, s.rows) && i <= |page|
    ensures Fewer(before, VisitFrom(w, s, page, k, i).rows)
    decreases |page| - i
  {
    if i < |page| {
      var id, s' := page[i].id, VisitUser(w, s, page[i], w.visits(k, i));
      DistinctRemove(s.rows, id);
      SelectedRemove(s.rows, id);
      RemoveShorter(Selected(s.rows), id);
      forall u | u in s'.rows
        ensures u in before
      {
        RemoveMember(s.rows, id, u);
      }
      VisitsFewer(w, before, s', page, k, i + 1);
    }
  }

  lemma {:induction false} HandleFewer(w: World, before: seq<User>, s: State, k: nat, passes: nat)
    requires Fewer(before, s.rows)
    ensures Fewer(before, Handle(w, s, k, passes).0.rows)
    decreases passes
  {
    if passes > 0 && w.fetch(k) && Selected(s.rows) != [] {
      VisitsFewer(w, before, s, Page(s.rows), k, 0);
      HandleFewer(w, before, VisitFrom(w, s, Page(s.rows), k, 0), k + 1, passes - 1);
    }
  }

  /** A loop that is still running after `a` passes goes on from there. */
  lemma {:induction false} HandleResumes(w: World, s: State, k: nat, a: nat, b: nat)
    requires Handle(w, s, k, a).1 == Running
    ensures var rest := Handle(w, Handle(w, s, k, a).0, k + a, b);
      Handle(w, s, k, a + b).0 == rest.0 && Handle(w, s, k, a + b).1 == rest.1
    decreases a
  {
    if a > 0 {
      HandleResumes(w, VisitFrom(w, s, Page(s.rows), k, 0), k + 1, a - 1, b);
    }
  }

  /** A loop that has finished does not depend on the bound. */
  lemma {:induction false} FinishedStays(w: World, s: State, k: nat, a: nat, b: nat)
    requires Handle(w, s, k, a).1 == Finished
    ensures Handle(w, s, k, a + b) == Handle(w, s, k, a)
    decreases a
  {
    if a > 0 && Selected(s.rows) != [] {
      FinishedStays(w, VisitFrom(w, s, Page(s.rows), k, 0), k + 1, a - 1, b);
    }
  }

  lemma {:induction false} FetchesWork(w: World, s: State, k: nat, passes: nat)
    requires forall j :: w.fetch(j)
    ensures Handle(w, s, k, passes).1 != FetchFailed
    decreases passes
  {
    if passes > 0 {
      FetchesWork(w, VisitFrom(w, s, Page(s.rows), k, 0), k + 1, passes - 1);
    }
  }

  /** The clock has reached the age of every user to purge when pass `k` begins. */
  ghost predicate AllOldAt(w: World, rows: seq<User>, k: nat) {
    forall u :: u in rows && Wanted(u) ==> Old(w, w.visits(k, 0), u)
  }

  lemma FetchesGrow(a: nat, b: nat)
    requires a <= b
    ensures Fetches(a) <= Fetches(b)
  {
  }

  /** Once all are old and calls work, at most `ceil(n/100) + 1` further fetches end the loop,
      whatever happened before. */
  lemma EndsBy(w: World, rows: seq<User>, k: nat)
    requires DistinctIds(rows) && Forward(w) && (forall j :: w.fetch(j)) && (forall j :: j >= k ==> WorksAt(w, j))
        && AllOldAt(w, rows, k)
    ensures Handle(w, State(rows, []), 0, k + Fetches(|Selected(rows)|)).1 == Finished
  {
    var s, m := State(rows, []), Fetches(|Selected(rows)|);
    FetchesWork(w, s, 0, k);
    if Handle(w, s, 0, k).1 == Finished {
      FinishedStays(w, s, 0, k, m);
    } else {
      var t := Handle(w, s, 0, k).0;
      HandleFewer(w, rows, s, 0, k);
      HandleResumes(w, s, 0, k, m);
      DistinctSelected(t.rows);
      var all := Selected(t.rows);
      forall j | 0 <= j < |all|
        ensures OldIn(w, all[j], k, m)
      {
        assert all[j] in all;
        SelectedMember(t.rows, all[j]);
        OldOnwards(w, all[j], all[j], k, m);
      }
      assert [] + all == all;
      FetchesGrow(|all|, |Selected(rows)|);
      Drains(w, t, all, k, m);
    }
  }

  ghost predicate Ends(w: World, rows: seq<User>) {
    exists passes :: Handle(w, State(rows, []), 0, passes).1 == Finished
  }

  /** A finished loop has seen every user to purge at its age. */
  lemma EndedWasOld(w: World, rows: seq<User>, passes: nat)
    requires DistinctIds(rows) && Forward(w) && (forall j :: w.fetch(j))
        && Handle(w, State(rows, []), 0, passes).1 == Finished
    ensures AllOldAt(w, rows, passes)
  {
    forall u | u in rows && Wanted(u)
      ensures Old(w, w.visits(passes, 0), u)
    {
      if YoungIn(w, u, 0, passes) {
        YoungKeepsGoing(w, State(rows, []), u, 0, passes);
      } else {
        var j, i :| 0 <= j < passes && Old(w, w.visits(j, i), u);
        assert w.visits(j, i).now <= w.visits(passes, 0).now;
      }
    }
  }

  /** With a clock that does not go back, fetches that work, and calls that work from some pass
      on, the loop ends if and only if the clock reaches the age of every user to purge. */
  lemma EndsIff(w: World, rows: seq<User>, start: nat)
    requires DistinctIds(rows) && Forward(w) && (forall j :: w.fetch(j)) && (forall j :: j >= start ==> WorksAt(w, j))
    ensures Ends(w, rows) <==> exists k :: AllOldAt(w, rows, k)
  {
    if passes: nat :| Handle(w, State(rows, []), 0, passes).1 == Finished {
      EndedWasOld(w, rows, passes);
    }
    if k: nat :| AllOldAt(w, rows, k) {
      var late := if k < start then start else k;
      forall u | u in rows && Wanted(u)
        ensures Old(w, w.visits(late, 0), u)
      {
        assert Old(w, w.visits(k, 0), u) && w.visits(k, 0).now <= w.visits(late, 0).now;
      }
      EndsBy(w, rows, late);
    }
  }

  // ----- The loops -----

  class Handler {
    var rows: seq<User>
    var log: seq<Event>

    ghost function Abs(): State
      reads this
    {
      State(rows, log)
    }

    constructor (rows: seq<User>)
      ensures Abs() == State(rows, [])
    {
      this.rows, log := rows, [];
    }

    method RetrieveAll() returns (page: seq<User>, total: nat)
      ensures page == Page(rows) && total == |Selected(rows)|
    {
      var all: seq<User> := [];
      for i := 0 to |rows|
        invariant all + Selected(rows[i..]) == Selected(rows)
      {
        if Wanted(rows[i]) {
          all := all + [rows[i]];
        }
        assert rows[i..][1..] == rows[i + 1..];
      }
      page, total := if |all| <= DEF_LIMIT then all else all[..DEF_LIMIT], |all|;
    }

    method Delete(id: string) returns (affected: bool)
      modifies this`rows
      ensures affected == HasId(old(rows), id)
      ensures rows == if affected then RemoveId(old(rows), id) else old(rows)
    {
      affected := HasId(rows, id);
      if affected {
        var kept: seq<User> := [];
        for i := 0 to |rows|
          invariant rows == old(rows)
          invariant kept + RemoveId(rows[i..], id) == RemoveId(rows, id)
        {
          if rows[i].id != id {
            kept := kept + [rows[i]];
          }
          assert rows[i..][1..] == rows[i + 1..];
        }
        rows := kept;
      }
    }

    method DeleteUser(w: World, u: User, v: Visit)
      modifies this
      ensures Abs() == VisitUser(w, old(Abs()), u, v)
    {
      if v.now - u.updatedAt < w.deleteAfter {
        return;
      }
      if v.domains.Applied() && v.answer {
        log := log + [DomainsConfirmed(u.id)];
      }
      if v.domains != Done || !v.answer {
        return;
      }
      if v.policies.Applied() {
        log := log + [PoliciesRemoved(u.id)];
      }
      if v.policies != Done {
        return;
      }
      if v.delete.Applied() {
        var affected := Delete(u.id);
        if affected {
          log := log + [RowDeleted(u.id, u.updatedAt, v.now)];
        }
      }
    }

    /** The inner loop. */
    method VisitPage(w: World, page: seq<User>, k: nat)
      modifies this
      ensures Abs() == VisitFrom(w, old(Abs()), page, k, 0)
    {
      for i := 0 to |page|
        invariant VisitFrom(w, old(Abs()), page, k, 0) == VisitFrom(w, Abs(), page, k, i)
      {
        DeleteUser(w, page[i], w.visits(k, i));
      }
    }

    /** `passes` cuts the loop off; the source has no such bound. */
    method Run(w: World, passes: nat) returns (end: End, fetched: nat)
      modifies this
      ensures (Abs(), end, fetched) == Handle(w, old(Abs()), 0, passes)
    {
      end, fetched := Running, 0;
      ghost var start := Abs();
      while fetched < passes
        invariant fetched <= passes && end == Running
        invariant Handle(w, start, 0, passes) == Counted(Handle(w, Abs(), fetched, passes - fetched), fetched)
      {
        var k := fetched;
        fetched := fetched + 1;
        if !w.fetch(k) {
          end := FetchFailed;
          return;
        }
        var page, total := RetrieveAll();
        if total == 0 {
          end := Finished;
          return;
        }
        VisitPage(w, page, k);
      }
    }
  }
}
