/** What widening keeps: wildcard rows stand alone in their group, and adding scopes never
    takes a permission away. */
module PatScopeWildcards {
  import opened Outcomes
  import opened PatScopes

  /** A row with the wildcard is the only row of its group. */
  ghost predicate NormalForm(rows: map<string, Row>) {
    forall i, j :: i in rows && j in rows && rows[i].group == rows[j].group && rows[i].entityID == ANY_IDS ==> i == j
  }

  /** Processing keeps the set of rows and their groups; a row changes only into a wildcard. */
  ghost predicate Widening(rows: map<string, Row>, rows': map<string, Row>) {
    && rows'.Keys == rows.Keys
    && forall id :: id in rows ==> rows'[id] == rows[id] || rows'[id] == Row(rows[id].group, ANY_IDS)
  }

  lemma ProcessWidens(rows: map<string, Row>, sc: Scope, o: Outcome)
    ensures Widening(rows, Process(rows, sc, o).0)
  {
  }

  lemma {:induction false} ProcessFromWidens(rows: map<string, Row>, scopes: seq<Scope>, steps: seq<Outcome>, i: nat,
      acc: seq<Scope>)
    requires i <= |scopes|
    ensures Widening(rows, ProcessFrom(rows, scopes, steps, i, acc).0)
    decreases |scopes| - i
  {
    if i < |scopes| {
      ProcessWidens(rows, scopes[i], At(steps, i));
      var (rows', r) := Process(rows, scopes[i], At(steps, i));
      if r == Widened || r == Insert {
        var acc' := if r == Insert && scopes[i].id != "" then acc + [scopes[i]] else acc;
        ProcessFromWidens(rows', scopes, steps, i + 1, acc');
      }
    }
  }

  // ----- Monotonicity -----

  /** Adding scopes, whatever fails on the way, never shrinks the set of allowed requests. */
  lemma AddScopeMonotone(s: State, op: Op, g: Group, entityID: string)
    requires op.AddScope? && Allows(s.rows, g, entityID)
    ensures Allows(Step(s, op).0.rows, g, entityID)
  {
    StoreScopesMonotone(s, op.scopes, op.steps, op.insert, g, entityID);
  }

  lemma StoreScopesMonotone(s: State, scopes: seq<Scope>, steps: seq<Outcome>, insert: Outcome, g: Group,
      entityID: string)
    requires Allows(s.rows, g, entityID)
    ensures Allows(StoreScopes(s, scopes, steps, insert).0, g, entityID)
  {
    var rows := ProcessFrom(s.rows, scopes, steps, 0, []).0;
    ProcessFromWidens(s.rows, scopes, steps, 0, []);
    var id :| id in s.rows && Grants(s.rows[id], g, entityID);
    assert id in rows && Grants(rows[id], g, entityID);
    var rows' := StoreScopes(s, scopes, steps, insert).0;
    assert id in rows' && rows'[id] == rows[id];
  }

  /** A row that an insertion added is one of the new scopes'. */
  lemma NewRow(rows: map<string, Row>, newScopes: seq<Scope>, id: string) returns (k: nat)
    requires forall j, k :: 0 <= j < k < |newScopes| ==> newScopes[j].id != newScopes[k].id
    requires id in InsertAll(rows, newScopes) && id !in rows
    ensures k < |newScopes| && newScopes[k].id == id && InsertAll(rows, newScopes)[id] == RowOf(newScopes[k])
  {
    k :| 0 <= k < |newScopes| && newScopes[k].id == id;
  }

  // ----- Every requested scope ends up in the table -----

  lemma {:induction false} ProcessFromPlaces(rows: map<string, Row>, scopes: seq<Scope>, steps: seq<Outcome>, i: nat,
      acc: seq<Scope>)
    requires i <= |scopes|
    requires forall sc :: sc in scopes ==> sc.id != ""
    ensures var (rows', r) := ProcessFrom(rows, scopes, steps, i, acc);
      r.Some? ==>
        && (forall sc :: sc in acc ==> sc in r.value)
        && forall k :: i <= k < |scopes|
            ==> scopes[k] in r.value || (scopes[k].entityID == ANY_IDS && HasWildcard(rows', RowOf(scopes[k]).group))
    decreases |scopes| - i
  {
    if i < |scopes| {
      var sc := scopes[i];
      var (rows', r) := Process(rows, sc, At(steps, i));
      if r == Widened {
        ProcessFromPlaces(rows', scopes, steps, i + 1, acc);
        var g := RowOf(sc).group;
        var id :| id in GroupIds(rows, g);
        assert rows'[id] == Row(g, ANY_IDS);
        ProcessFromWidens(rows', scopes, steps, i + 1, acc);
        assert ProcessFrom(rows', scopes, steps, i + 1, acc).0[id] == Row(g, ANY_IDS);
      } else if r == Insert {
        assert sc in scopes;
        ProcessFromPlaces(rows', scopes, steps, i + 1, acc + [sc]);
        assert sc in acc + [sc] && forall a :: a in acc ==> a in acc + [sc];
      }
    }
  }

  ghost predicate Present(rows: map<string, Row>, row: Row) {
    exists id :: id in rows && rows[id] == row
  }

  lemma InsertScopesPlaces(pats: map<string, string>, rows: map<string, Row>, newScopes: seq<Scope>, insert: Outcome)
    requires InsertScopes(pats, rows, newScopes, insert).1
    ensures var rows' := InsertScopes(pats, rows, newScopes, insert).0;
      && (forall id :: id in rows ==> id in rows' && rows'[id] == rows[id])
      && (forall sc :: sc in newScopes ==> Present(rows', RowOf(sc)))
  {
    if newScopes != [] {
      InsertAllRows(rows, newScopes);
      var rows' := InsertAll(rows, newScopes);
      forall sc | sc in newScopes ensures Present(rows', RowOf(sc)) {
        var m :| 0 <= m < |newScopes| && newScopes[m] == sc;
        assert rows'[newScopes[m].id] == RowOf(sc);
      }
    }
  }

  /** When the database part succeeds, each requested scope has a row, inserted or widened. */
  lemma StoreScopesPlaces(s: State, scopes: seq<Scope>, steps: seq<Outcome>, insert: Outcome, k: nat)
    requires k < |scopes| && forall sc :: sc in scopes ==> sc.id != ""
    requires StoreScopes(s, scopes, steps, insert).1
    ensures Present(StoreScopes(s, scopes, steps, insert).0, RowOf(scopes[k]))
  {
    var (rows, r) := ProcessFrom(s.rows, scopes, steps, 0, []);
    ProcessFromPlaces(s.rows, scopes, steps, 0, []);
    InsertScopesPlaces(s.pats, rows, r.value, insert);
    if scopes[k] !in r.value {
      var id :| id in rows && rows[id] == Row(RowOf(scopes[k]).group, ANY_IDS);
      assert InsertScopes(s.pats, rows, r.value, insert).0[id] == RowOf(scopes[k]);
    }
  }

  // ----- Normal form -----

  /** The request names the wildcard and another entity of one group. */
  ghost predicate Mixed(scopes: seq<Scope>) {
    exists a, b :: a in scopes && b in scopes && RowOf(a).group == RowOf(b).group && a.entityID == ANY_IDS
        && b.entityID != ANY_IDS
  }

  /** A scope can join `rows`: its group has no wildcard, and is empty if the scope is one. */
  ghost predicate Joins(rows: map<string, Row>, sc: Scope) {
    forall id :: id in rows && rows[id].group == RowOf(sc).group
        ==> rows[id].entityID != ANY_IDS && sc.entityID != ANY_IDS
  }

  lemma CardAtLeastTwo(ids: set<string>, i: string, j: string)
    requires i in ids && j in ids && i != j
    ensures |ids| > 1
  {
    assert |ids - {i}| > 0 by { assert j in ids - {i}; }
  }

  lemma ProcessNormal(rows: map<string, Row>, sc: Scope, o: Outcome)
    requires NormalForm(rows)
    ensures NormalForm(Process(rows, sc, o).0)
    ensures Process(rows, sc, o).1 == Insert ==> Process(rows, sc, o).0 == rows && Joins(rows, sc)
  {
    var g := RowOf(sc).group;
    var ids := GroupIds(rows, g);
    var rows' := Process(rows, sc, o).0;
    if rows' != rows {
      forall i, j | i in rows' && j in rows' && rows'[i].group == rows'[j].group && rows'[i].entityID == ANY_IDS
        ensures i == j
      {
        assert rows'[i].group == rows[i].group && rows'[j].group == rows[j].group;
        if rows[i].group == g {
          assert i in ids && j in ids;
          if i != j { CardAtLeastTwo(ids, i, j); }
        }
      }
    }
    if Process(rows, sc, o).1 == Insert {
      forall id | id in rows && rows[id].group == g ensures rows[id].entityID != ANY_IDS && sc.entityID != ANY_IDS {
        assert id in ids;
        assert rows[id] == Row(g, rows[id].entityID);
      }
    }
  }

  /** A scope of the same request that could join still can after one more is processed. */
  lemma ProcessKeepsJoins(rows: map<string, Row>, scopes: seq<Scope>, sc: Scope, o: Outcome, a: Scope)
    requires !Mixed(scopes) && sc in scopes && a in scopes && Joins(rows, a)
    ensures Joins(Process(rows, sc, o).0, a)
  {
    var g := RowOf(sc).group;
    var rows' := Process(rows, sc, o).0;
    if rows' == rows || RowOf(a).group != g {
      forall id | id in rows' && rows'[id].group == RowOf(a).group
          ensures rows'[id].entityID != ANY_IDS && a.entityID != ANY_IDS {
        assert rows[id].group == RowOf(a).group && rows'[id] == rows[id];
      }
    }
  }

  lemma {:induction false} ProcessFromNormal(rows: map<string, Row>, scopes: seq<Scope>, steps: seq<Outcome>, i: nat,
      acc: seq<Scope>)
    requires i <= |scopes| && NormalForm(rows) && !Mixed(scopes)
    requires forall sc :: sc in acc ==> sc in scopes && Joins(rows, sc)
    ensures var (rows', r) := ProcessFrom(rows, scopes, steps, i, acc);
      NormalForm(rows') && (r.Some? ==> forall sc :: sc in r.value ==> sc in scopes && Joins(rows', sc))
    decreases |scopes| - i
  {
    if i < |scopes| {
      var sc := scopes[i];
      ProcessNormal(rows, sc, At(steps, i));
      var (rows', r) := Process(rows, sc, At(steps, i));
      forall a | a in acc ensures Joins(rows', a) {
        ProcessKeepsJoins(rows, scopes, sc, At(steps, i), a);
      }
      if r == Widened {
        ProcessFromNormal(rows', scopes, steps, i + 1, acc);
      } else if r == Insert {
        var acc' := if sc.id != "" then acc + [sc] else acc;
        assert forall a :: a in acc' ==> a in acc || a == sc;
        ProcessFromNormal(rows', scopes, steps, i + 1, acc');
      }
    }
  }

  predicate DistinctRows(newScopes: seq<Scope>) {
    forall j, k :: 0 <= j < k < |newScopes|
        ==> newScopes[j].id != newScopes[k].id && RowOf(newScopes[j]) != RowOf(newScopes[k])
  }

  /** An inserted row shares its group with no old wildcard, and with no old row if it is one. */
  lemma NewJoins(rows: map<string, Row>, newScopes: seq<Scope>, i: string, j: string)
    requires DistinctRows(newScopes) && forall sc :: sc in newScopes ==> Joins(rows, sc)
    requires j in InsertAll(rows, newScopes) && j !in rows && i in rows
    ensures rows[i].group == InsertAll(rows, newScopes)[j].group ==>
              rows[i].entityID != ANY_IDS && InsertAll(rows, newScopes)[j].entityID != ANY_IDS
  {
    var k := NewRow(rows, newScopes, j);
    assert newScopes[k] in newScopes;
    assert Joins(rows, newScopes[k]);
  }

  /** Two inserted rows of one group, one a wildcard, are the same. */
  lemma NewWildcard(rows: map<string, Row>, newScopes: seq<Scope>, i: string, j: string)
    requires DistinctRows(newScopes) && !Mixed(newScopes)
    requires i in InsertAll(rows, newScopes) && j in InsertAll(rows, newScopes) && i !in rows && j !in rows
    requires InsertAll(rows, newScopes)[i].group == InsertAll(rows, newScopes)[j].group
    requires InsertAll(rows, newScopes)[i].entityID == ANY_IDS
    ensures i == j
  {
    var k := NewRow(rows, newScopes, i);
    var m := NewRow(rows, newScopes, j);
    assert newScopes[k] in newScopes && newScopes[m] in newScopes;
    assert newScopes[m].entityID == ANY_IDS;
    assert RowOf(newScopes[m]) == RowOf(newScopes[k]);
  }

  lemma InsertAllNormal(rows: map<string, Row>, newScopes: seq<Scope>)
    requires DistinctRows(newScopes) && forall k :: 0 <= k < |newScopes| ==> newScopes[k].id !in rows
    requires NormalForm(rows) && !Mixed(newScopes) && forall sc :: sc in newScopes ==> Joins(rows, sc)
    ensures NormalForm(InsertAll(rows, newScopes))
  {
    var rows' := InsertAll(rows, newScopes);
    InsertAllRows(rows, newScopes);
    forall i, j | i in rows' && j in rows' && rows'[i].group == rows'[j].group && rows'[i].entityID == ANY_IDS
      ensures i == j
    {
      if i in rows && j !in rows {
        NewJoins(rows, newScopes, i, j);
      } else if i !in rows && j in rows {
        NewJoins(rows, newScopes, j, i);
      } else if i !in rows {
        NewWildcard(rows, newScopes, i, j);
      }
    }
  }

  lemma InsertNormal(pats: map<string, string>, rows: map<string, Row>, newScopes: seq<Scope>, insert: Outcome)
    requires NormalForm(rows) && !Mixed(newScopes) && forall sc :: sc in newScopes ==> Joins(rows, sc)
    ensures NormalForm(InsertScopes(pats, rows, newScopes, insert).0)
  {
    if CanInsert(pats, rows, newScopes) {
      InsertAllNormal(rows, newScopes);
    }
  }

  lemma StoreScopesNormal(s: State, scopes: seq<Scope>, steps: seq<Outcome>, insert: Outcome)
    requires NormalForm(s.rows) && !Mixed(scopes)
    ensures NormalForm(StoreScopes(s, scopes, steps, insert).0)
  {
    ProcessFromNormal(s.rows, scopes, steps, 0, []);
    var (rows, r) := ProcessFrom(s.rows, scopes, steps, 0, []);
    if r.Some? {
      InsertNormal(s.pats, rows, r.value, insert);
    }
  }

  /** A successful `AddScope` keeps the normal form exactly when the request does not mix the
      wildcard with other entities of the same group. */
  lemma AddScopeNormalIff(s: State, op: Op)
    requires op.AddScope? && NormalForm(s.rows) && Step(s, op).1 == Ok
    requires forall sc :: sc in op.scopes ==> sc.id != ""
    ensures NormalForm(Step(s, op).0.rows) <==> !Mixed(op.scopes)
  {
    var rows := StoreScopes(s, op.scopes, op.steps, op.insert).0;
    if Mixed(op.scopes) {
      var a, b :| a in op.scopes && b in op.scopes && RowOf(a).group == RowOf(b).group && a.entityID == ANY_IDS
          && b.entityID != ANY_IDS;
      var j :| 0 <= j < |op.scopes| && op.scopes[j] == a;
      var k :| 0 <= k < |op.scopes| && op.scopes[k] == b;
      StoreScopesPlaces(s, op.scopes, op.steps, op.insert, j);
      StoreScopesPlaces(s, op.scopes, op.steps, op.insert, k);
      var i1 :| i1 in rows && rows[i1] == RowOf(a);
      var i2 :| i2 in rows && rows[i2] == RowOf(b);
    } else {
      StoreScopesNormal(s, op.scopes, op.steps, op.insert);
    }
  }

  /** Over any run, with failures anywhere, a group that holds the wildcard holds nothing else,
      when no single request mixes the two. */
  lemma {:induction false} RunNormal(s: State, ops: seq<Op>)
    requires NormalForm(s.rows) && ValidRun(s, ops)
    requires forall op :: op in ops && op.AddScope? ==> !Mixed(op.scopes)
    ensures NormalForm(Run(s, ops).rows)
    decreases |ops|
  {
    if ops != [] {
      StepNormal(s, ops[0]);
      RunNormal(Step(s, ops[0]).0, ops[1..]);
    }
  }

  lemma StepNormal(s: State, op: Op)
    requires NormalForm(s.rows) && Possible(s, op)
    requires op.AddScope? ==> !Mixed(op.scopes)
    ensures NormalForm(Step(s, op).0.rows)
  {
    if op.AddScope? {
      StoreScopesNormal(s, op.scopes, op.steps, op.insert);
    }
  }
}
