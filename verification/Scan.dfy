/** Executing a foreign scan, and the proof that shipping conditions and fetching only the used
    columns leaves the answer of the query unchanged.
 */
module Scan {
  import opened Nodes
  import opened Lexical
  import opened Tokens
  import opened Words
  import opened Reader
  import opened Shippable
  import opened ArrayPieces
  import opened Deparse
  import opened Phrases
  import opened RoundTrip
  import opened Spacing
  import opened Semantics
  import opened Preservation
  import opened Select
  import opened SelectRead
  import opened RemoteServer

  // ---------- placing columns into the slot ----------

  function Nulls(n: nat): (r: seq<Value>)
    ensures |r| == n && forall i :: 0 <= i < n ==> r[i] == NullV
  {
    if n == 0 then [] else Nulls(n - 1) + [NullV]
  }

  /** The slot after the fetched values are placed: column i of the result at the i-th retrieved
      attribute, everything else null. */
  function Placed(natts: nat, retrieved: seq<int>, values: seq<Value>): (r: seq<Value>)
    ensures |r| == natts
  {
    if retrieved == [] then Nulls(natts)
    else
      var k := |retrieved| - 1;
      var before := Placed(natts, retrieved[..k], values);
      if 1 <= retrieved[k] <= natts && k < |values| && values[k] != NullV then before[retrieved[k] - 1 := values[k]]
      else before
  }

  /** A scan slot; `isnull` marks the attributes whose value is null. */
  class TupleTableSlot {
    const values: array<Value>
    const isnull: array<bool>
    var empty: bool

    ghost predicate Valid()
      reads this, values, isnull
    {
      values.Length == isnull.Length
    }

    constructor (natts: nat)
      ensures Valid() && empty && values.Length == natts && fresh(values) && fresh(isnull)
    {
      values := new Value[natts](i => NullV);
      isnull := new bool[natts](i => true);
      empty := true;
    }

    /** The attributes as the executor sees them. */
    ghost function Contents(): (r: seq<Value>)
      requires Valid()
      reads this, values, isnull
      ensures |r| == values.Length
    {
      seq(values.Length, i requires 0 <= i < values.Length reads this, values, isnull requires Valid() =>
        if isnull[i] then NullV else values[i])
    }

    /** Null every attribute. */
    method Reset()
      requires Valid()
      modifies this, values, isnull
      ensures Valid() && empty && Contents() == Nulls(values.Length)
    {
      var i := 0;
      while i < values.Length
        invariant 0 <= i <= values.Length && Valid()
        invariant forall k :: 0 <= k < i ==> isnull[k]
        modifies values, isnull
      {
        values[i] := NullV;
        isnull[i] := true;
        i := i + 1;
      }
      empty := true;
    }

    /** Place the next row of the result, if there is one. */
    method Iterate(retrieved: seq<int>, row: Option<seq<Value>>)
      requires Valid()
      requires forall i :: 0 <= i < |retrieved| ==> 1 <= retrieved[i] <= values.Length
      requires row.Some? ==> |row.value| >= |retrieved|
      modifies this, values, isnull
      ensures Valid() && empty == row.None?
      ensures Contents() == if row.None? then Nulls(values.Length)
                            else Placed(values.Length, retrieved, row.value)
    {
      Reset();
      if row.None? {
        return;
      }
      var i := 0;
      while i < |retrieved|
        invariant 0 <= i <= |retrieved| && Valid()
        invariant Contents() == Placed(values.Length, retrieved[..i], row.value)
        modifies values, isnull
      {
        assert retrieved[..i + 1][..i] == retrieved[..i];
        ghost var before := Contents();
        var column := retrieved[i] - 1;
        if row.value[i] != NullV {
          isnull[column] := false;
          values[column] := row.value[i];
          assert Contents() == before[column := row.value[i]];
        }
        i := i + 1;
      }
      assert retrieved[..i] == retrieved;
      empty := false;
    }

    /** The row the executor evaluates on. */
    method Read() returns (row: seq<Value>)
      requires Valid()
      ensures row == Contents()
    {
      row := [];
      var i := 0;
      while i < values.Length
        invariant 0 <= i <= values.Length
        invariant row == Contents()[..i]
      {
        row := row + [if isnull[i] then NullV else values[i]];
        i := i + 1;
      }
    }
  }

  // ---------- the slot holds the used columns ----------

  lemma {:induction false} RetrievedMembers(rel: Rel, used: set<int>, n: nat, i: int)
    requires n <= |rel.attrs|
    ensures Increasing(Retrieved(rel, used, n))
    ensures i in Retrieved(rel, used, n) <==>
            1 <= i <= n && !rel.attrs[i - 1].dropped && (0 in used || i in used)
  {
    if n > 0 {
      RetrievedMembers(rel, used, n - 1, i);
      var before := Retrieved(rel, used, n - 1);
      if !rel.attrs[n - 1].dropped && (0 in used || n in used) {
        IncreasingSnoc(before, n);
        assert i in before + [n] <==> i in before || i == n;
      } else {
        assert Retrieved(rel, used, n) == before;
      }
    }
  }

  /** A plan fetches, in increasing order, exactly the live columns that are needed, or all under a whole-row
      reference, and keeps exactly the scan clauses that are no pseudo-constants and may not be evaluated remotely, in
      order. */
  lemma PlanIsExact(d: Dialect, cx: DeparseCxt, g: GlobCxt, targets: seq<Expr>, conds: seq<RestrictInfo>,
                    scanClauses: seq<RestrictInfo>, limit: Limit, plan: ScanPlan)
    returns (places: seq<int>, kept: seq<RestrictInfo>)
    requires ScanPlanOf(d, cx, g, targets, conds, scanClauses, limit) == Some(plan)
    ensures Increasing(plan.retrievedAttrs)
    ensures forall a :: a in plan.retrievedAttrs <==>
              1 <= a <= |cx.rel.attrs| && !cx.rel.attrs[a - 1].dropped &&
              (Needed(g, targets, conds, 0) || Needed(g, targets, conds, a))
    ensures plan.localExprs == Clauses(kept) && TakenFrom(scanClauses, places, kept)
    ensures forall i :: i in places <==> OnSide(g, scanClauses, false, i) && !scanClauses[i].pseudoconstant
  {
    var used := AttrsUsed(g, targets, conds);
    UsedIffNeeded(g, targets, conds, 0);
    forall a
      ensures a in plan.retrievedAttrs <==>
              1 <= a <= |cx.rel.attrs| && !cx.rel.attrs[a - 1].dropped &&
              (Needed(g, targets, conds, 0) || Needed(g, targets, conds, a))
    {
      RetrievedMembers(cx.rel, used, |cx.rel.attrs|, a);
      UsedIffNeeded(g, targets, conds, a);
    }
    RetrievedMembers(cx.rel, used, |cx.rel.attrs|, 0);
    kept := ScanSide(g, Classified(g, conds, true), Classified(g, conds, false), scanClauses, false);
    places := ScanSideInOrder(g, conds, scanClauses, false);
  }

  /** Each retrieved attribute holds its own column of the result; every other one is null. */
  lemma {:induction false} PlacedAt(natts: nat, retrieved: seq<int>, values: seq<Value>, j: nat)
    requires Increasing(retrieved) && |values| >= |retrieved|
    requires forall i :: 0 <= i < |retrieved| ==> 1 <= retrieved[i] <= natts
    requires j < natts
    ensures forall i :: 0 <= i < |retrieved| && retrieved[i] == j + 1 ==>
              Placed(natts, retrieved, values)[j] == values[i]
    ensures j + 1 !in retrieved ==> Placed(natts, retrieved, values)[j] == NullV
  {
    if retrieved != [] {
      var k := |retrieved| - 1;
      PlacedAt(natts, retrieved[..k], values, j);
      assert forall i :: 0 <= i < k ==> retrieved[..k][i] == retrieved[i];
      if retrieved[k] == j + 1 {
        assert forall i :: 0 <= i < k ==> retrieved[i] < j + 1;
        assert j + 1 !in retrieved[..k];
      }
    }
  }

  /** The columns of a fetched row. */
  function ColumnItems(rel: Rel, attnos: seq<int>): (r: seq<Sql>)
    ensures |r| == |attnos| && forall i :: 0 <= i < |attnos| ==> r[i] == Col(AttrName(rel, attnos[i]))
  {
    if attnos == [] then [] else [Col(AttrName(rel, attnos[0]))] + ColumnItems(rel, attnos[1..])
  }

  /** The select list a server reads. */
  function ListItems(rel: Rel, attnos: seq<int>): seq<Sql> {
    if attnos == [] then [NullLit] else ColumnItems(rel, attnos)
  }

  /** Two rows agree on the used attributes. */
  predicate AgreeOn(used: set<int>, a: seq<Value>, b: seq<Value>) {
    && |a| == |b|
    && (0 in used ==> a == b)
    && forall i :: i in used && 1 <= i <= |a| ==> a[i - 1] == b[i - 1]
  }

  /** The slot agrees with the full row on everything that is used. */
  lemma SlotHoldsUsed(R: Remote, rel: Rel, used: set<int>, row: RemoteRow)
    ensures
      var attnos := Retrieved(rel, used, |rel.attrs|);
      AgreeOn(used, Placed(|rel.attrs|, attnos, SqlEvalAll(R, row, ListItems(rel, attnos))), LocalRow(rel, row))
  {
    var attnos := Retrieved(rel, used, |rel.attrs|);
    var slot := Placed(|rel.attrs|, attnos, SqlEvalAll(R, row, ListItems(rel, attnos)));
    var full := LocalRow(rel, row);
    forall j | 0 <= j < |rel.attrs| && (0 in used || j + 1 in used)
      ensures slot[j] == full[j]
    {
      SlotHoldsAttribute(R, rel, used, row, j);
    }
    if 0 in used {
      assert slot == full;
    }
  }

  lemma SlotHoldsAttribute(R: Remote, rel: Rel, used: set<int>, row: RemoteRow, j: nat)
    requires j < |rel.attrs| && (0 in used || j + 1 in used)
    ensures
      var attnos := Retrieved(rel, used, |rel.attrs|);
      Placed(|rel.attrs|, attnos, SqlEvalAll(R, row, ListItems(rel, attnos)))[j] == LocalRow(rel, row)[j]
  {
    var attnos := Retrieved(rel, used, |rel.attrs|);
    var values := SqlEvalAll(R, row, ListItems(rel, attnos));
    RetrievedMembers(rel, used, |rel.attrs|, j + 1);
    PlacedAt(|rel.attrs|, attnos, values, j);
    if !rel.attrs[j].dropped {
      var i :| 0 <= i < |attnos| && attnos[i] == j + 1;
      ListValueAt(R, rel, attnos, row, i);
    }
  }

  /** The value fetched for an attribute is that of its remote column. */
  lemma ListValueAt(R: Remote, rel: Rel, attnos: seq<int>, row: RemoteRow, i: nat)
    requires i < |attnos| && 1 <= attnos[i] <= |rel.attrs|
    ensures |SqlEvalAll(R, row, ListItems(rel, attnos))| == |attnos|
    ensures SqlEvalAll(R, row, ListItems(rel, attnos))[i] == row(rel.attrs[attnos[i] - 1].name)
  {
  }

  // ---------- evaluation depends only on the used attributes ----------

  lemma AgreeOnFewer(more: set<int>, fewer: set<int>, a: seq<Value>, b: seq<Value>)
    requires AgreeOn(more, a, b) && fewer <= more
    ensures AgreeOn(fewer, a, b)
  {
  }

  lemma {:induction false} EvalIsLocal(L: Local, relid: nat, a: seq<Value>, b: seq<Value>, e: Expr)
    requires AgreeOn(VarAttnos(relid, e), a, b)
    ensures Eval(L, relid, a, e) == Eval(L, relid, b, e)
    decreases e, 0
  {
    if e.Node? {
      EvalAllIsLocal(L, relid, a, b, e.args);
    } else if e.Var? && e.varno == relid && e.varlevelsup == 0 {
      assert e.varattno in VarAttnos(relid, e);
    }
  }

  lemma {:induction false} EvalAllIsLocal(L: Local, relid: nat, a: seq<Value>, b: seq<Value>, es: seq<Expr>)
    requires AgreeOn(VarAttnosAll(relid, es), a, b)
    ensures EvalAll(L, relid, a, es) == EvalAll(L, relid, b, es)
    decreases es, 1
  {
    forall i | 0 <= i < |es|
      ensures Eval(L, relid, a, es[i]) == Eval(L, relid, b, es[i])
    {
      AttnosOfElement(relid, es, es[i]);
      AgreeOnFewer(VarAttnosAll(relid, es), VarAttnos(relid, es[i]), a, b);
      EvalIsLocal(L, relid, a, b, es[i]);
    }
  }

  // ---------- the answer of the scan and of the query ----------

  /** Every condition is true on the row. */
  predicate AllTrue(L: Local, relid: nat, row: seq<Value>, conds: seq<Expr>) {
    forall i :: 0 <= i < |conds| ==> Eval(L, relid, row, conds[i]) == TRUE
  }

  /** What the executor makes of the fetched rows: place, filter by the local conditions, compute the
      output. */
  function Finished(L: Local, relid: nat, natts: nat, plan: ScanPlan, targets: seq<Expr>,
                    fetched: seq<seq<Value>>): seq<seq<Value>>
  {
    if fetched == [] then []
    else
      FinishedRow(L, relid, Placed(natts, plan.retrievedAttrs, fetched[0]), plan.localExprs, targets)
      + Finished(L, relid, natts, plan, targets, fetched[1..])
  }

  function FinishedRow(L: Local, relid: nat, slot: seq<Value>, localExprs: seq<Expr>,
                       targets: seq<Expr>): seq<seq<Value>>
  {
    if AllTrue(L, relid, slot, localExprs) then [EvalAll(L, relid, slot, targets)] else []
  }

  /** The scan as a whole: the remote server reads the statement and answers it; None where it
      cannot be read. */
  function ScanAnswer(L: Local, S: Server, d: Dialect, db: Database, relid: nat, natts: nat, plan: ScanPlan,
                      targets: seq<Expr>): Option<seq<seq<Value>>>
  {
    match ReadStatement(d, plan.sql)
    case None => None
    case Some(q) => Some(Finished(L, relid, natts, plan, targets, Answer(S, db, q)))
  }

  /** The query's own answer: all conditions but the pseudo-constants, on full rows. */
  function Reference(L: Local, relid: nat, rel: Rel, conds: seq<RestrictInfo>, targets: seq<Expr>,
                     rows: seq<RemoteRow>): seq<seq<Value>>
  {
    if rows == [] then []
    else
      var row := LocalRow(rel, rows[0]);
      (if AllTrue(L, relid, row, Clauses(Proper(conds))) then [EvalAll(L, relid, row, targets)] else [])
      + Reference(L, relid, rel, conds, targets, rows[1..])
  }

  function Proper(conds: seq<RestrictInfo>): (r: seq<RestrictInfo>) {
    if conds == [] then []
    else Proper(conds[..|conds| - 1]) + if conds[|conds| - 1].pseudoconstant then [] else [conds[|conds| - 1]]
  }

  lemma {:induction false} ProperMembers(conds: seq<RestrictInfo>, ri: RestrictInfo)
    ensures ri in Proper(conds) <==> ri in conds && !ri.pseudoconstant
  {
    if conds != [] {
      var k := |conds| - 1;
      ProperMembers(conds[..k], ri);
      assert conds == conds[..k] + [conds[k]];
    }
  }

  /** Conditions hold together exactly when each of them does, whatever their order. */
  predicate AllHold(L: Local, relid: nat, row: seq<Value>, conds: seq<RestrictInfo>) {
    forall ri :: ri in conds ==> Eval(L, relid, row, ri.clause) == TRUE
  }

  lemma ClausesHold(L: Local, relid: nat, row: seq<Value>, conds: seq<RestrictInfo>)
    ensures AllTrue(L, relid, row, Clauses(conds)) <==> AllHold(L, relid, row, conds)
  {
    if AllTrue(L, relid, row, Clauses(conds)) {
      forall ri | ri in conds
        ensures Eval(L, relid, row, ri.clause) == TRUE
      {
        var i :| 0 <= i < |conds| && conds[i] == ri;
        assert Clauses(conds)[i] == ri.clause;
      }
    }
  }

  /** The remote and the local conditions together are the query's conditions. */
  lemma SidesCover(L: Local, g: GlobCxt, row: seq<Value>, remote: seq<RestrictInfo>, local: seq<RestrictInfo>,
                   scanClauses: seq<RestrictInfo>)
    ensures AllTrue(L, g.relid, row, Clauses(Proper(scanClauses))) <==>
            && AllTrue(L, g.relid, row, Clauses(ScanSide(g, remote, local, scanClauses, true)))
            && AllTrue(L, g.relid, row, Clauses(ScanSide(g, remote, local, scanClauses, false)))
  {
    var a, b := ScanSide(g, remote, local, scanClauses, true), ScanSide(g, remote, local, scanClauses, false);
    ClausesHold(L, g.relid, row, Proper(scanClauses));
    ClausesHold(L, g.relid, row, a);
    ClausesHold(L, g.relid, row, b);
    forall ri
      ensures ri in Proper(scanClauses) <==> ri in a || ri in b
    {
      ProperMembers(scanClauses, ri);
      ScanSideMembers(g, remote, local, scanClauses, true, ri);
      ScanSideMembers(g, remote, local, scanClauses, false, ri);
    }
  }

  // ---------- the remote filter ----------

  /** The servers agree on the shipped conditions, which read only live columns. */
  ghost predicate ConditionsAgree(L: Local, R: Remote, d: Dialect, cx: DeparseCxt, conds: seq<Expr>) {
    forall i :: 0 <= i < |conds| ==>
      Readable(d, cx, conds[i]) && Agrees(L, R, conds[i]) && LiveColumns(cx.rel, conds[i])
  }

  /** The server keeps exactly the rows on which every shipped condition is true. */
  lemma RemoteFilter(L: Local, R: Remote, d: Dialect, cx: DeparseCxt, conds: seq<Expr>, row: RemoteRow)
    requires ConditionsAgree(L, R, d, cx, conds)
    ensures Keeps(R, WhereTree(cx.rel, conds), row) <==> AllTrue(L, cx.rel.relid, LocalRow(cx.rel, row), conds)
  {
    var trees := EraseAll(cx.rel, conds);
    forall i | 0 <= i < |conds|
      ensures SqlEval(R, row, trees[i]) == Eval(L, cx.rel.relid, LocalRow(cx.rel, row), conds[i])
    {
      ErasePreservesValue(L, R, d, cx, row, conds[i]);
    }
    KeepsConjoined(R, trees, row);
  }

  lemma KeepsConjoined(R: Remote, trees: seq<Sql>, row: RemoteRow)
    ensures Keeps(R, Conjoined(trees), row) <==> forall i :: 0 <= i < |trees| ==> SqlEval(R, row, trees[i]) == TRUE
  {
    if |trees| > 1 {
      var values := SqlEvalAll(R, row, trees);
      assert SqlEval(R, row, App(HAnd, trees)) == And3(values);
      AndIsTrue(values);
      assert forall i :: 0 <= i < |trees| ==> values[i] == SqlEval(R, row, trees[i]);
    }
  }

  lemma AndIsTrue(vs: seq<Value>)
    requires vs != []
    ensures And3(vs) == TRUE <==> forall i :: 0 <= i < |vs| ==> vs[i] == TRUE
  {
  }

  // ---------- one row at a time ----------

  /** What one remote row contributes to the scan's answer is what it contributes to the query's. */
  lemma OneRow(L: Local, R: Remote, d: Dialect, cx: DeparseCxt, g: GlobCxt, targets: seq<Expr>,
               conds: seq<RestrictInfo>, scanClauses: seq<RestrictInfo>, plan: ScanPlan, row: RemoteRow)
    requires g.relid == cx.rel.relid && ScanClausesOf(conds, scanClauses)
    requires PlannedBy(cx, g, targets, conds, scanClauses, plan)
    requires ConditionsAgree(L, R, d, cx, ShippedClauses(g, conds, scanClauses))
    ensures
      var slot := Placed(|cx.rel.attrs|, plan.retrievedAttrs,
                         SqlEvalAll(R, row, ListItems(cx.rel, plan.retrievedAttrs)));
      var full := LocalRow(cx.rel, row);
      && EvalAll(L, g.relid, slot, targets) == EvalAll(L, g.relid, full, targets)
      && (AllTrue(L, g.relid, full, Clauses(Proper(scanClauses))) <==>
            Keeps(R, WhereTree(cx.rel, ShippedClauses(g, conds, scanClauses)), row)
            && AllTrue(L, g.relid, slot, plan.localExprs))
  {
    var used := AttrsUsed(g, targets, conds);
    var slot := Placed(|cx.rel.attrs|, plan.retrievedAttrs, SqlEvalAll(R, row, ListItems(cx.rel, plan.retrievedAttrs)));
    var full := LocalRow(cx.rel, row);
    SlotHoldsUsed(R, cx.rel, used, row);
    AgreeOnFewer(used, VarAttnosAll(g.relid, targets), slot, full);
    EvalAllIsLocal(L, g.relid, slot, full, targets);
    RemoteFilter(L, R, d, cx, ShippedClauses(g, conds, scanClauses), row);
    SidesCover(L, g, full, Classified(g, conds, true), Classified(g, conds, false), scanClauses);
    LocalsAgree(L, g, targets, conds, scanClauses, slot, full);
  }

  /** The scan clauses are the table's conditions, in some order. */
  ghost predicate ScanClausesOf(conds: seq<RestrictInfo>, scanClauses: seq<RestrictInfo>) {
    forall ri :: ri in scanClauses <==> ri in conds
  }

  /** The shipped conditions of the plan. */
  function ShippedClauses(g: GlobCxt, conds: seq<RestrictInfo>, scanClauses: seq<RestrictInfo>): seq<Expr> {
    Clauses(ScanSide(g, Classified(g, conds, true), Classified(g, conds, false), scanClauses, true))
  }

  function KeptClauses(g: GlobCxt, conds: seq<RestrictInfo>, scanClauses: seq<RestrictInfo>): seq<Expr> {
    Clauses(ScanSide(g, Classified(g, conds, true), Classified(g, conds, false), scanClauses, false))
  }

  predicate PlannedBy(cx: DeparseCxt, g: GlobCxt, targets: seq<Expr>, conds: seq<RestrictInfo>,
                      scanClauses: seq<RestrictInfo>, plan: ScanPlan)
  {
    && plan.retrievedAttrs == Retrieved(cx.rel, AttrsUsed(g, targets, conds), |cx.rel.attrs|)
    && plan.localExprs == KeptClauses(g, conds, scanClauses)
  }

  /** The local conditions see only columns that are fetched. */
  lemma LocalsAgree(L: Local, g: GlobCxt, targets: seq<Expr>, conds: seq<RestrictInfo>,
                    scanClauses: seq<RestrictInfo>, slot: seq<Value>, full: seq<Value>)
    requires ScanClausesOf(conds, scanClauses) && AgreeOn(AttrsUsed(g, targets, conds), slot, full)
    ensures AllTrue(L, g.relid, slot, KeptClauses(g, conds, scanClauses)) <==>
            AllTrue(L, g.relid, full, KeptClauses(g, conds, scanClauses))
  {
    var a, b := Classified(g, conds, true), Classified(g, conds, false);
    var kept := ScanSide(g, a, b, scanClauses, false);
    var clauses := Clauses(kept);
    forall i | 0 <= i < |clauses|
      ensures Eval(L, g.relid, slot, clauses[i]) == Eval(L, g.relid, full, clauses[i])
    {
      var ri := kept[i];
      ScanSideMembers(g, a, b, scanClauses, false, ri);
      ClassifiedMembers(g, conds, true, ri);
      ClassifiedMembers(g, conds, false, ri);
      var j :| 0 <= j < |b| && b[j] == ri;
      assert Clauses(b)[j] == ri.clause;
      AttnosOfElement(g.relid, Clauses(b), ri.clause);
      AgreeOnFewer(AttrsUsed(g, targets, conds), VarAttnos(g.relid, ri.clause), slot, full);
      EvalIsLocal(L, g.relid, slot, full, ri.clause);
    }
  }

  // ---------- all rows ----------

  /** Filtering remotely, placing, and finishing locally is filtering full rows. */
  lemma {:induction false} AllRows(L: Local, R: Remote, d: Dialect, cx: DeparseCxt, g: GlobCxt, targets: seq<Expr>,
                                   conds: seq<RestrictInfo>, scanClauses: seq<RestrictInfo>, plan: ScanPlan,
                                   rows: seq<RemoteRow>)
    requires g.relid == cx.rel.relid && ScanClausesOf(conds, scanClauses)
    requires PlannedBy(cx, g, targets, conds, scanClauses, plan)
    requires ConditionsAgree(L, R, d, cx, ShippedClauses(g, conds, scanClauses))
    ensures
      var kept := Filtered(R, WhereTree(cx.rel, ShippedClauses(g, conds, scanClauses)), rows);
      Finished(L, g.relid, |cx.rel.attrs|, plan, targets,
               RowValues(R, ListItems(cx.rel, plan.retrievedAttrs), kept)) ==
      Reference(L, g.relid, cx.rel, scanClauses, targets, rows)
  {
    if rows != [] {
      OneRow(L, R, d, cx, g, targets, conds, scanClauses, plan, rows[0]);
      AllRows(L, R, d, cx, g, targets, conds, scanClauses, plan, rows[1..]);
      OneMoreRow(L, R, g.relid, cx.rel, WhereTree(cx.rel, ShippedClauses(g, conds, scanClauses)), scanClauses,
                 targets, plan, rows);
    }
  }

  /** The induction step: the first row contributes alike, and so do the others. */
  lemma OneMoreRow(L: Local, R: Remote, relid: nat, rel: Rel, cond: Option<Sql>, scanClauses: seq<RestrictInfo>,
                   targets: seq<Expr>, plan: ScanPlan, rows: seq<RemoteRow>)
    requires rows != []
    requires
      var slot := Placed(|rel.attrs|, plan.retrievedAttrs, SqlEvalAll(R, rows[0], ListItems(rel, plan.retrievedAttrs)));
      var full := LocalRow(rel, rows[0]);
      && EvalAll(L, relid, slot, targets) == EvalAll(L, relid, full, targets)
      && (AllTrue(L, relid, full, Clauses(Proper(scanClauses))) <==>
            Keeps(R, cond, rows[0]) && AllTrue(L, relid, slot, plan.localExprs))
    requires Finished(L, relid, |rel.attrs|, plan, targets,
                      RowValues(R, ListItems(rel, plan.retrievedAttrs), Filtered(R, cond, rows[1..]))) ==
             Reference(L, relid, rel, scanClauses, targets, rows[1..])
    ensures Finished(L, relid, |rel.attrs|, plan, targets,
                     RowValues(R, ListItems(rel, plan.retrievedAttrs), Filtered(R, cond, rows))) ==
            Reference(L, relid, rel, scanClauses, targets, rows)
  {
    var tail := Filtered(R, cond, rows[1..]);
    if Keeps(R, cond, rows[0]) {
      FinishedStep(L, R, relid, |rel.attrs|, plan, targets, ListItems(rel, plan.retrievedAttrs), rows[0], tail);
      assert Filtered(R, cond, rows) == [rows[0]] + tail;
    } else {
      assert Filtered(R, cond, rows) == tail;
    }
  }

  lemma FinishedStep(L: Local, R: Remote, relid: nat, natts: nat, plan: ScanPlan, targets: seq<Expr>, items: seq<Sql>,
                     row: RemoteRow, rows: seq<RemoteRow>)
    ensures
      var slot := Placed(natts, plan.retrievedAttrs, SqlEvalAll(R, row, items));
      Finished(L, relid, natts, plan, targets, RowValues(R, items, [row] + rows)) ==
      (if AllTrue(L, relid, slot, plan.localExprs) then [EvalAll(L, relid, slot, targets)] else [])
      + Finished(L, relid, natts, plan, targets, RowValues(R, items, rows))
  {
    assert ([row] + rows)[1..] == rows;
    var fetched := RowValues(R, items, [row] + rows);
    assert fetched[1..] == RowValues(R, items, rows);
  }

  // ---------- the statement ----------

  lemma NameItems(rel: Rel, attnos: seq<int>)
    ensures AsBodies(NameRuns(AttrNames(rel, attnos)), ColumnItems(rel, attnos))
  {
    forall i | 0 <= i < |attnos|
      ensures AsBody(NameRuns(AttrNames(rel, attnos))[i], ColumnItems(rel, attnos)[i])
    {
      NameIsItem(AttrName(rel, attnos[i]));
    }
  }

  lemma NameIsItem(name: string)
    ensures AsBody([Name(name)], Col(name))
  {
    forall rest | Ends(Front(rest))
      ensures BodyPhrase([Name(name)], Col(name), rest)
    {
      LeafPhrase(Name(name), Col(name), rest);
      PrimaryIsBody(TokensOf([Name(name)]) + rest, Col(name), rest);
    }
  }

  lemma ColumnListReads(rel: Rel, attnos: seq<int>, rest: seq<Token>)
    requires Front(rest) == Kw("from")
    ensures Items(TokensOf(ColumnList(AttrNames(rel, attnos))) + rest) == Ok(ListItems(rel, attnos), rest)
  {
    var names := AttrNames(rel, attnos);
    if names == [] {
      LeafPhrase(Word("NULL"), NullLit, rest);
      PrimaryIsBody(TokensOf([Word("NULL")]) + rest, NullLit, rest);
    } else {
      NameItems(rel, attnos);
      ItemsRead(NameRuns(names), ColumnItems(rel, attnos), rest);
    }
  }

  lemma ListSpaced(d: Dialect, names: seq<string>)
    ensures WellSpaced(d, ColumnList(names))
  {
    if names == [] {
      WordNull();
    } else {
      FixedSpaced(d, AndOp);
      forall i | 0 <= i < |names|
        ensures WellSpaced(d, NameRuns(names)[i])
      {
        OneSpaced(d, Name(names[i]));
      }
      JoinAllSpaced(d, NameRuns(names), ITEM_SEPARATOR);
    }
  }

  /** The statement of a scan reads back as the used columns, the table and the shipped conditions. */
  lemma ScanStatementReads(d: Dialect, cx: DeparseCxt, g: GlobCxt, targets: seq<Expr>, conds: seq<RestrictInfo>,
                           scanClauses: seq<RestrictInfo>, limit: Limit)
    requires ValidDialect(d) && cx.quotable && LimitReadable(d, cx, limit)
    requires AllReadable(d, cx, ShippedClauses(g, conds, scanClauses))
    ensures
      var plan := ScanPlanOf(d, cx, g, targets, conds, scanClauses, limit);
      && plan.Some?
      && PlannedBy(cx, g, targets, conds, scanClauses, plan.value)
      && ReadStatement(d, plan.value.sql) ==
           Some(QueryOf(cx.rel, ListItems(cx.rel, plan.value.retrievedAttrs),
                        ShippedClauses(g, conds, scanClauses), limit))
  {
    var attnos := Retrieved(cx.rel, AttrsUsed(g, targets, conds), |cx.rel.attrs|);
    var list := ColumnList(AttrNames(cx.rel, attnos));
    var shipped := ShippedClauses(g, conds, scanClauses);
    ListSpaced(d, AttrNames(cx.rel, attnos));
    ColumnListReads(cx.rel, attnos, FromTokens(d, cx, shipped, limit));
    SelectRoundTrip(d, cx, list, ListItems(cx.rel, attnos), shipped, limit);
  }

  lemma NoAggregates(rel: Rel, attnos: seq<int>)
    ensures forall i :: 0 <= i < |ListItems(rel, attnos)| ==> !HasAggregate(ListItems(rel, attnos)[i])
  {
  }

  /** Without LIMIT and OFFSET, nothing is cut off. */
  lemma NoLimitKeepsAll<T>(rowCount: Value -> nat, rows: seq<T>)
    ensures Limited(rowCount, None, None, rows) == rows
  {
  }

  /** The foreign scan answers the query: for every table, output list and conditions, the statement
      is readable, and fetching, placing and filtering gives the rows the conditions select, in order,
      with the right output, provided the servers agree on what is shipped. */
  lemma ScanPreservesQuery(L: Local, S: Server, d: Dialect, db: Database, cx: DeparseCxt, g: GlobCxt,
                           targets: seq<Expr>, conds: seq<RestrictInfo>, scanClauses: seq<RestrictInfo>)
    requires ValidDialect(d) && cx.quotable && g.relid == cx.rel.relid && ScanClausesOf(conds, scanClauses)
    requires ConditionsAgree(L, S.scalar, d, cx, ShippedClauses(g, conds, scanClauses))
    ensures
      var plan := ScanPlanOf(d, cx, g, targets, conds, scanClauses, NO_LIMIT);
      && plan.Some?
      && ScanAnswer(L, S, d, db, g.relid, |cx.rel.attrs|, plan.value, targets) ==
           Some(Reference(L, g.relid, cx.rel, scanClauses, targets, db(SchemaOf(cx.rel), cx.rel.name)))
  {
    ScanStatementReads(d, cx, g, targets, conds, scanClauses, NO_LIMIT);
    var plan := ScanPlanOf(d, cx, g, targets, conds, scanClauses, NO_LIMIT).value;
    var rows := db(SchemaOf(cx.rel), cx.rel.name);
    var items := ListItems(cx.rel, plan.retrievedAttrs);
    NoAggregates(cx.rel, plan.retrievedAttrs);
    AllRows(L, S.scalar, d, cx, g, targets, conds, scanClauses, plan, rows);
    NoLimitKeepsAll(S.rowCount, RowValues(S.scalar, items,
      Filtered(S.scalar, WhereTree(cx.rel, ShippedClauses(g, conds, scanClauses)), rows)));
  }

  // ---------- the executor's loop ----------

  /** Run the scan over the fetched rows, through the slot. */
  method ExecScan(L: Local, relid: nat, slot: TupleTableSlot, plan: ScanPlan, targets: seq<Expr>,
                  fetched: seq<seq<Value>>) returns (out: seq<seq<Value>>)
    requires slot.Valid()
    requires forall i :: 0 <= i < |plan.retrievedAttrs| ==> 1 <= plan.retrievedAttrs[i] <= slot.values.Length
    requires forall i :: 0 <= i < |fetched| ==> |fetched[i]| >= |plan.retrievedAttrs|
    modifies slot, slot.values, slot.isnull
    ensures slot.Valid() && slot.empty
    ensures out == Finished(L, relid, slot.values.Length, plan, targets, fetched)
  {
    out := [];
    ghost var natts := slot.values.Length;
    var i := 0;
    while i < |fetched|
      invariant 0 <= i <= |fetched| && slot.Valid()
      invariant Finished(L, relid, natts, plan, targets, fetched) ==
                out + Finished(L, relid, natts, plan, targets, fetched[i..])
      modifies slot, slot.values, slot.isnull
    {
      slot.Iterate(plan.retrievedAttrs, Some(fetched[i]));
      var row := slot.Read();
      FinishedUnroll(L, relid, natts, plan, targets, fetched, i, out);
      out := out + FinishedRow(L, relid, row, plan.localExprs, targets);
      i := i + 1;
    }
    slot.Iterate(plan.retrievedAttrs, None);
  }

  lemma FinishedUnroll(L: Local, relid: nat, natts: nat, plan: ScanPlan, targets: seq<Expr>,
                       fetched: seq<seq<Value>>, i: nat, out: seq<seq<Value>>)
    requires i < |fetched|
    ensures out + Finished(L, relid, natts, plan, targets, fetched[i..]) ==
            out + FinishedRow(L, relid, Placed(natts, plan.retrievedAttrs, fetched[i]), plan.localExprs, targets)
            + Finished(L, relid, natts, plan, targets, fetched[i + 1..])
  {
    assert fetched[i..][0] == fetched[i] && fetched[i..][1..] == fetched[i + 1..];
  }
}
