/** What INSERT, UPDATE and DELETE do to the remote table, column by column: from the columns the query names, through
    the planned text and what is bound for each row, to the rows of the table.
 */
module ModifyEffect {
  import opened Nodes
  import opened Lexical
  import opened Deparse
  import opened Semantics
  import opened Select
  import opened SelectRead
  import opened ModifySql
  import opened ModifyRun
  import opened ModifyTable

  // ---------- setting columns ----------

  lemma {:induction false} WithValuesElsewhere(row: TableRow, names: seq<string>, vs: seq<Value>, c: string)
    requires c !in names
    ensures Field(WithValues(row, names, vs), c) == Field(row, c)
    ensures c in WithValues(row, names, vs) <==> c in row
  {
    if names != [] {
      WithValuesElsewhere(row, names[..|names| - 1], vs, c);
    }
  }

  lemma {:induction false} WithValuesAt(row: TableRow, names: seq<string>, vs: seq<Value>, k: nat)
    requires k < |names| && forall j :: 0 <= j < |names| && names[j] == names[k] ==> j == k
    ensures Field(WithValues(row, names, vs), names[k]) == At(vs, k + 1)
  {
    var last := |names| - 1;
    if k < last {
      assert names[last] != names[k];
      WithValuesAt(row, names[..last], vs, k);
    }
  }

  /** The operation gives column `c` a value, that of attribute `a`. */
  predicate Sets(rel: Rel, op: Operation, updated: set<int>, a: int, c: string) {
    IsTarget(rel, op, updated, a) && rel.attrs[a - 1].name == c
  }

  /** Of the columns of `now`, those that the operation sets have the value of their attribute in the new row, where
      one attribute only sets them; all others are as in `was`. */
  ghost predicate RowSet(rel: Rel, op: Operation, updated: set<int>, was: TableRow, slot: seq<Value>, now: TableRow) {
    && (forall a, c :: Sets(rel, op, updated, a, c) && SetOnce(rel, op, updated, a, c) ==> Field(now, c) == At(slot, a))
    && (forall c :: SetNowhere(rel, op, updated, c) ==> Field(now, c) == Field(was, c) && (c in now <==> c in was))
  }

  ghost predicate SetOnce(rel: Rel, op: Operation, updated: set<int>, a: int, c: string) {
    forall b :: Sets(rel, op, updated, b, c) ==> b == a
  }

  ghost predicate SetNowhere(rel: Rel, op: Operation, updated: set<int>, c: string) {
    forall a :: !Sets(rel, op, updated, a, c)
  }

  lemma TargetsSet(rel: Rel, op: Operation, updated: set<int>, targets: seq<int>, was: TableRow, slot: seq<Value>)
    requires ValidAttnos(rel, targets) && Increasing(targets)
    requires forall a :: a in targets <==> IsTarget(rel, op, updated, a)
    ensures RowSet(rel, op, updated, was, slot, WithValues(was, AttrNames(rel, targets), TargetValues(targets, slot)))
  {
    var names, vs := AttrNames(rel, targets), TargetValues(targets, slot);
    forall a, c | Sets(rel, op, updated, a, c) && SetOnce(rel, op, updated, a, c)
      ensures Field(WithValues(was, names, vs), c) == At(slot, a)
    {
      var k :| 0 <= k < |targets| && targets[k] == a;
      forall j | 0 <= j < |names| && names[j] == names[k]
        ensures j == k
      {
        assert targets[j] in targets;
        assert Sets(rel, op, updated, targets[j], c);
      }
      WithValuesAt(was, names, vs, k);
    }
    forall c | SetNowhere(rel, op, updated, c)
      ensures Field(WithValues(was, names, vs), c) == Field(was, c)
      ensures c in WithValues(was, names, vs) <==> c in was
    {
      if j :| 0 <= j < |names| && names[j] == c {
        assert targets[j] in targets;
        assert Sets(rel, op, updated, targets[j], c);
      }
      WithValuesElsewhere(was, names, vs, c);
    }
  }

  // ---------- UPDATE ----------

  /** Row `i` has been set from the new row. */
  ghost predicate SetAt(rel: Rel, updated: set<int>, table: seq<TableRow>, slot: seq<Value>, after: seq<TableRow>,
                        i: nat)
  {
    i < |table| == |after| && RowSet(rel, UpdateOp, updated, table[i], slot, after[i])
  }

  /** One simultaneous update of the picked rows sets exactly the updated columns of exactly those rows. */
  lemma AtOnceSets(rel: Rel, updated: set<int>, targets: seq<int>, table: seq<TableRow>, rows: seq<RowPair>,
                   picked: seq<nat>)
    requires ValidAttnos(rel, targets) && Increasing(targets) && |rows| == |picked|
    requires forall a :: a in targets <==> IsTarget(rel, UpdateOp, updated, a)
    requires InTable(table, PicksOf(targets, rows, picked)) && NoRepeats(PicksOf(targets, rows, picked))
    ensures
      var after := UpdatedAtOnce(table, AttrNames(rel, targets), PicksOf(targets, rows, picked), |rows|);
      && (forall j :: 0 <= j < |rows| ==> SetAt(rel, updated, table, rows[j].slot, after, picked[j]))
      && (forall i :: 0 <= i < |table| && i !in picked ==> after[i] == table[i])
  {
    var names, picks := AttrNames(rel, targets), PicksOf(targets, rows, picked);
    var after := UpdatedAtOnce(table, names, picks, |rows|);
    forall j | 0 <= j < |rows|
      ensures SetAt(rel, updated, table, rows[j].slot, after, picked[j])
    {
      assert picks[j].index == picked[j];
      PickedChanges(table, names, picks, |picks|, j);
      TargetsSet(rel, UpdateOp, updated, targets, table[picked[j]], rows[j].slot);
    }
    forall i | 0 <= i < |table| && i !in picked
      ensures after[i] == table[i]
    {
      UnpickedStays(table, names, picks, |picks|, i);
    }
  }

  /** A whole UPDATE, where no row is given a key that a later one was scanned with: each scanned row has the new
      values in exactly the updated columns, and no other row has changed. */
  lemma UpdateSetsUpdatedColumns(d: Dialect, cx: DeparseCxt, updated: set<int>, plan: ModifyPlan, table: seq<TableRow>,
                                 junkIdx: seq<nat>, rows: seq<RowPair>, oldRows: seq<seq<Value>>, picked: seq<nat>)
    returns (dml: Dml, after: seq<TableRow>)
    requires ValidDialect(d) && d.placeholders && exists a :: IsTarget(cx.rel, UpdateOp, updated, a)
    requires ModifyPlanOf(d, cx, UpdateOp, updated, false) == Some(plan)
    requires RunFits(cx.rel, table, junkIdx, rows, oldRows, picked)
    requires UniqueKeys(table, KeyNames(cx.rel)) && NoRepeats(PicksOf(plan.targetAttrs, rows, picked))
    requires UniqueKeys(UpdatedAtOnce(table, AttrNames(cx.rel, plan.targetAttrs),
                                      PicksOf(plan.targetAttrs, rows, picked), |rows|), KeyNames(cx.rel))
    requires NoCollision(table, KeyNames(cx.rel), AttrNames(cx.rel, plan.targetAttrs),
                         PicksOf(plan.targetAttrs, rows, picked), |rows|)
    ensures ReadDml(d, plan.sql) == Some(dml)
    ensures after == ExecAll(table, dml, RunParams(cx.rel, UpdateOp, plan.targetAttrs, junkIdx, rows))
    ensures |after| == |table|
    ensures forall j :: 0 <= j < |rows| ==> SetAt(cx.rel, updated, table, rows[j].slot, after, picked[j])
    ensures forall i :: 0 <= i < |table| && i !in picked ==> after[i] == table[i]
  {
    PlannedTargets(d, cx, UpdateOp, updated, false, plan);
    dml := UpdateDml(cx.rel, plan.targetAttrs);
    var picks;
    picks, after := UpdateRefinesSetWise(d, cx, updated, plan, table, junkIdx, rows, oldRows, picked);
    PicksAreInTable(cx.rel, table, plan.targetAttrs, junkIdx, rows, oldRows, picked);
    AtOnceSets(cx.rel, updated, plan.targetAttrs, table, rows, picked);
  }

  // ---------- INSERT ----------

  function InsertDml(rel: Rel, targets: seq<int>): Dml {
    InsertRow(SchemaOf(rel), rel.name, Numbered(AttrNames(rel, targets), 0))
  }

  lemma OneInsert(rel: Rel, targets: seq<int>, junkIdx: seq<nat>, row: RowPair, now: seq<TableRow>)
    requires |rel.attrs| <= |junkIdx|
    ensures ExecDml(now, InsertDml(rel, targets), ParamMap(RowBindings(rel, InsertOp, targets, junkIdx, row))) ==
            now + [WithValues(map[], AttrNames(rel, targets), TargetValues(targets, row.slot))]
  {
    var vs := TargetValues(targets, row.slot);
    FirstArguments(vs, []);
    assert vs + [] == vs;
    AssignedIsWithValues(map[], AttrNames(rel, targets), vs, ParamMap(vs));
  }

  /** The rows added for the first `m` rows given. */
  function Inserted(rel: Rel, targets: seq<int>, rows: seq<RowPair>, m: nat): (r: seq<TableRow>)
    requires m <= |rows|
    ensures |r| == m
    ensures forall j :: 0 <= j < m ==>
              r[j] == WithValues(map[], AttrNames(rel, targets), TargetValues(targets, rows[j].slot))
  {
    if m == 0 then []
    else
      Inserted(rel, targets, rows, m - 1)
      + [WithValues(map[], AttrNames(rel, targets), TargetValues(targets, rows[m - 1].slot))]
  }


  lemma NothingRun(table: seq<TableRow>, dml: Dml, runs: seq<map<nat, Value>>)
    ensures ExecAll(table, dml, runs[..0]) == table + []
  {
    assert runs[..0] == [];
  }

  lemma OneMoreInserted(rel: Rel, targets: seq<int>, rows: seq<RowPair>, table: seq<TableRow>, m: nat)
    requires 0 < m <= |rows|
    ensures (table + Inserted(rel, targets, rows, m - 1))
            + [WithValues(map[], AttrNames(rel, targets), TargetValues(targets, rows[m - 1].slot))] ==
            table + Inserted(rel, targets, rows, m)
  {
  }

  lemma {:induction false} InsertRun(rel: Rel, targets: seq<int>, junkIdx: seq<nat>, rows: seq<RowPair>,
                                     table: seq<TableRow>, m: nat)
    requires |rel.attrs| <= |junkIdx| && m <= |rows|
    ensures ExecAll(table, InsertDml(rel, targets), RunParams(rel, InsertOp, targets, junkIdx, rows)[..m]) ==
            table + Inserted(rel, targets, rows, m)
  {
    if m == 0 {
      NothingRun(table, InsertDml(rel, targets), RunParams(rel, InsertOp, targets, junkIdx, rows));
    } else {
      var runs := RunParams(rel, InsertOp, targets, junkIdx, rows);
      InsertRun(rel, targets, junkIdx, rows, table, m - 1);
      ExecAllStep(table, InsertDml(rel, targets), runs, m);
      OneInsert(rel, targets, junkIdx, rows[m - 1], table + Inserted(rel, targets, rows, m - 1));
      OneMoreInserted(rel, targets, rows, table, m);
    }
  }

  /** A whole INSERT adds one row for each row given, in order, with the values of all columns that are not dropped
      and no others. */
  lemma InsertAddsRows(d: Dialect, cx: DeparseCxt, plan: ModifyPlan, table: seq<TableRow>, junkIdx: seq<nat>,
                       rows: seq<RowPair>) returns (dml: Dml, after: seq<TableRow>)
    requires ValidDialect(d) && d.placeholders && |cx.rel.attrs| <= |junkIdx|
    requires ModifyPlanOf(d, cx, InsertOp, {}, false) == Some(plan)
    ensures ReadDml(d, plan.sql) == Some(dml)
    ensures after == ExecAll(table, dml, RunParams(cx.rel, InsertOp, plan.targetAttrs, junkIdx, rows))
    ensures |after| == |table| + |rows| && after[..|table|] == table
    ensures forall j :: 0 <= j < |rows| ==>
              RowSet(cx.rel, InsertOp, {}, map[], rows[j].slot, after[|table| + j])
  {
    var targets := plan.targetAttrs;
    PlannedTargets(d, cx, InsertOp, {}, false, plan);
    PlanIs(d, cx, InsertOp, {}, plan);
    InsertRoundTrip(d, cx.rel, AttrNames(cx.rel, targets));
    dml := InsertDml(cx.rel, targets);
    var runs := RunParams(cx.rel, InsertOp, targets, junkIdx, rows);
    after := ExecAll(table, dml, runs);
    assert runs[..|rows|] == runs;
    InsertRun(cx.rel, targets, junkIdx, rows, table, |rows|);
    forall j | 0 <= j < |rows|
      ensures RowSet(cx.rel, InsertOp, {}, map[], rows[j].slot, after[|table| + j])
    {
      TargetsSet(cx.rel, InsertOp, {}, targets, map[], rows[j].slot);
    }
  }

  // ---------- DELETE ----------

  /** The rows that are left are rows that were not picked, in order and each once. */
  lemma {:induction false} RemainingRows(table: seq<TableRow>, picked: seq<nat>, n: nat) returns (kept: seq<int>)
    requires n <= |table|
    ensures Increasing(kept) && forall i :: i in kept <==> 0 <= i < n && i !in picked
    ensures |Remaining(table, picked, |picked|, n)| == |kept|
    ensures forall k :: 0 <= k < |kept| ==>
              0 <= kept[k] < n && Remaining(table, picked, |picked|, n)[k] == table[kept[k]]
  {
    kept := [];
    if n > 0 {
      var before := RemainingRows(table, picked, n - 1);
      PickedIsMember(picked, |picked|, n - 1);
      assert picked[..|picked|] == picked;
      kept := before + if n - 1 in picked then [] else [n - 1];
      IncreasingSnoc(before, n - 1);
      forall i
        ensures i in kept <==> 0 <= i < n && i !in picked
      {
        LastMember(before, n - 1 !in picked, n - 1, i);
      }
      assert forall k :: 0 <= k < |before| ==> kept[k] == before[k] && before[k] in before;
    }
  }

  lemma {:induction false} PickedIsMember(picked: seq<nat>, m: nat, i: nat)
    requires m <= |picked|
    ensures IsPicked(picked, m, i) <==> i in picked[..m]
  {
    if m > 0 {
      PickedIsMember(picked, m - 1, i);
      assert picked[..m] == picked[..m - 1] + [picked[m - 1]];
    }
  }

  /** A whole DELETE: what is left is exactly the rows that were not scanned, in order. */
  lemma DeleteRemovesScanned(d: Dialect, cx: DeparseCxt, plan: ModifyPlan, table: seq<TableRow>, junkIdx: seq<nat>,
                             rows: seq<RowPair>, oldRows: seq<seq<Value>>, picked: seq<nat>)
    returns (dml: Dml, after: seq<TableRow>, kept: seq<int>)
    requires ValidDialect(d) && d.placeholders && ModifyPlanOf(d, cx, DeleteOp, {}, false) == Some(plan)
    requires RunFits(cx.rel, table, junkIdx, rows, oldRows, picked) && UniqueKeys(table, KeyNames(cx.rel))
    ensures ReadDml(d, plan.sql) == Some(dml)
    ensures after == ExecAll(table, dml, RunParams(cx.rel, DeleteOp, plan.targetAttrs, junkIdx, rows))
    ensures Increasing(kept) && forall i :: i in kept <==> 0 <= i < |table| && i !in picked
    ensures |after| == |kept| && forall k :: 0 <= k < |kept| ==> 0 <= kept[k] < |table| && after[k] == table[kept[k]]
  {
    DeleteRefinesSetWise(d, cx, plan, table, junkIdx, rows, oldRows, picked);
    dml := DeleteDml(cx.rel);
    after := ExecAll(table, dml, RunParams(cx.rel, DeleteOp, plan.targetAttrs, junkIdx, rows));
    kept := RemainingRows(table, picked, |table|);
  }
}
