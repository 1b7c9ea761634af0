/** Every path the planner can choose, with or without remote aggregates and LIMIT, gives the answer
    of the whole query.
 */
module UpperAnswers {
  import opened Nodes
  import opened Lexical
  import opened Tokens
  import opened Reader
  import opened Shippable
  import opened ArrayPieces
  import opened Deparse
  import opened Phrases
  import opened RoundTrip
  import opened Spacing
  import opened Semantics
  import opened Preservation
  import opened Select
  import opened SelectRead
  import opened RemoteServer
  import opened Scan
  import opened Grouping
  import opened UpperPaths

  type Rows = seq<seq<Value>>

  /** What the local executor's own steps do to a row sequence. */
  datatype Steps = Steps(group: Rows -> Rows, window: Rows -> Rows, distinct: Rows -> Rows, sort: Rows -> Rows,
                         srfs: Rows -> Rows, lock: Rows -> Rows, change: Rows -> Rows, ties: Rows -> Rows)

  /** A query on one foreign table: the two servers, the table, its conditions, what the scan puts
      out, and the expressions of the final output. */
  datatype World = World(E: Engine, S: Server, d: Dialect, db: Database, cx: DeparseCxt, steps: Steps,
                         conds: seq<RestrictInfo>, scanClauses: seq<RestrictInfo>,
                         scanTargets: seq<Expr>, targets: seq<Expr>)

  function Relid(W: World): nat { W.cx.rel.relid }

  function BaseGlob(W: World): GlobCxt { GlobCxt(Relid(W), false) }

  function Natts(W: World): nat { |W.cx.rel.attrs| }

  function TableRows(W: World): seq<RemoteRow> { W.db(SchemaOf(W.cx.rel), W.cx.rel.name) }

  function LocalConds(W: World): seq<RestrictInfo> { Classified(BaseGlob(W), W.conds, false) }

  // ---------- the query's own answer ----------

  /** The full rows that satisfy all of the conditions. */
  function Selected(L: Local, rel: Rel, clauses: seq<Expr>, rows: seq<RemoteRow>): Rows {
    if rows == [] then []
    else
      (if AllTrue(L, rel.relid, LocalRow(rel, rows[0]), clauses) then [LocalRow(rel, rows[0])] else [])
      + Selected(L, rel, clauses, rows[1..])
  }

  function SelectedRows(W: World): Rows {
    Selected(W.E.scalar, W.cx.rel, Clauses(W.scanClauses), TableRows(W))
  }

  function ScanRows(W: World): Rows {
    ArgumentRows(W.E.scalar, Relid(W), SelectedRows(W), W.scanTargets)
  }

  /** The single row of an aggregation without GROUP BY. */
  function AggregateRow(W: World): seq<Value> {
    AggEvalAll(W.E, Relid(W), SelectedRows(W), W.targets)
  }

  function LocalBound(W: World, e: Option<Expr>): Option<Value> {
    match e
    case None => None
    case Some(x) => Some(Eval(W.E.scalar, Relid(W), LocalRow(W.cx.rel, NullRow()), x))
  }

  function LimitRows(W: World, P: Parse, rows: Rows): Rows {
    Limited(W.S.rowCount, LocalBound(W, P.limit.count), LocalBound(W, P.limit.offset), rows)
  }

  function FinalStep(W: World, P: Parse, rows: Rows): Rows {
    var locked := if P.rowMarks then W.steps.lock(rows) else rows;
    var limited := if !LimitNeeded(P.limit) then locked
                   else if P.withTies then W.steps.ties(locked)
                   else LimitRows(W, P, locked);
    if P.isSelect then limited else W.steps.change(limited)
  }

  function StageRows(W: World, P: Parse, stage: Stage, rows: Rows): Rows {
    match stage
    case BaseStage => rows
    case GroupAgg => W.steps.group(rows)
    case WindowStage => W.steps.window(rows)
    case DistinctStage => W.steps.distinct(rows)
    case OrderedStage => W.steps.sort(rows)
    case FinalStage => FinalStep(W, P, rows)
  }

  function Stepped(W: World, P: Parse, stage: Stage, wanted: bool, rows: Rows): Rows {
    if wanted then StageRows(W, P, stage, rows) else rows
  }

  function SrfRows(W: World, P: Parse, rows: Rows): Rows {
    if P.targetSRFs then W.steps.srfs(rows) else rows
  }

  /** The answer of the query: all steps in order. */
  function QueryAnswer(W: World, P: Parse): Rows {
    var grouped := SrfRows(W, P, Stepped(W, P, GroupAgg, Grouped(P), ScanRows(W)));
    var windowed := Stepped(W, P, WindowStage, P.windows, grouped);
    var deduplicated := Stepped(W, P, DistinctStage, P.distinct, windowed);
    FinalStep(W, P, Stepped(W, P, OrderedStage, P.ordered, deduplicated))
  }

  // ---------- what a path computes ----------

  /** The conditions without variables, which a gating step above the scan tests once. */
  predicate GateOpen(W: World) {
    forall ri :: ri in W.scanClauses && ri.pseudoconstant ==>
      Eval(W.E.scalar, Relid(W), LocalRow(W.cx.rel, NullRow()), ri.clause) == TRUE
  }

  function Gated(W: World, rows: Option<Rows>): Option<Rows> {
    if rows.Some? && !GateOpen(W) then Some([]) else rows
  }

  function BasePathRows(W: World, limit: Limit): Option<Rows> {
    match ScanPlanOf(W.d, W.cx, BaseGlob(W), W.scanTargets, W.conds, W.scanClauses, limit)
    case None => None
    case Some(plan) =>
      Gated(W, ScanAnswer(W.E.scalar, W.S, W.d, W.db, Relid(W), Natts(W), plan, W.scanTargets))
  }

  /** From each fetched row of aggregates, the output row. */
  function OutputRows(L: Local, relid: nat, tlist: seq<Expr>, targets: seq<Expr>, fetched: Rows): (r: Rows)
    requires forall i :: 0 <= i < |fetched| ==> |fetched[i]| == |tlist|
    ensures |r| == |fetched|
    ensures forall i :: 0 <= i < |fetched| ==> r[i] == EvalFetchedAll(L, relid, tlist, fetched[i], targets)
  {
    if fetched == [] then []
    else [EvalFetchedAll(L, relid, tlist, fetched[0], targets)] + OutputRows(L, relid, tlist, targets, fetched[1..])
  }

  /** The statement of an aggregate scan: the fetched list, all conditions of the table, the limit. */
  function GroupedStatement(W: World, tlist: seq<Expr>, limit: Limit): Pieces {
    SelectPieces(W.d, W.cx, FetchedListPieces(W.d, W.cx, tlist), ShippableClauses(W), limit)
  }

  function FetchedListPieces(d: Dialect, cx: DeparseCxt, tlist: seq<Expr>): Pieces {
    if tlist == [] then Some([Word("NULL")]) else PrintList(d, cx, tlist, ITEM_SEPARATOR)
  }

  function ShippableClauses(W: World): seq<Expr> {
    Clauses(Classified(BaseGlob(W), W.conds, true))
  }

  function GroupedPathRows(W: World, tlist: seq<Expr>, limit: Limit): Option<Rows> {
    match GroupedStatement(W, tlist, limit)
    case None => None
    case Some(ps) =>
      match ReadStatement(W.d, Render(W.d, ps))
      case None => None
      case Some(q) =>
        var fetched := Answer(W.S, W.db, q);
        if forall i :: 0 <= i < |fetched| ==> |fetched[i]| == |tlist| then
          Some(OutputRows(W.E.scalar, Relid(W), tlist, W.targets, fetched))
        else None
  }

  function PathRows(W: World, P: Parse, p: Path): Option<Rows> {
    match p
    case ForeignBase(hasLimit, _) => BasePathRows(W, if hasLimit then P.limit else NO_LIMIT)
    case ForeignGrouped(tlist, hasLimit, _) => GroupedPathRows(W, tlist, if hasLimit then P.limit else NO_LIMIT)
    case LocalStage(stage, sub) =>
      (match PathRows(W, P, sub)
       case None => None
       case Some(rows) => Some(StageRows(W, P, stage, rows)))
    case LocalSrfs(sub) =>
      (match PathRows(W, P, sub)
       case None => None
       case Some(rows) => Some(SrfRows(W, P, rows)))
  }

  // ---------- what is assumed of the two servers ----------

  /** The servers agree on everything shippable in the conditions; conditions marked as
      pseudo-constants hold no columns. */
  ghost predicate ConditionsFit(W: World) {
    && ValidDialect(W.d) && W.cx.quotable && ScanClausesOf(W.conds, W.scanClauses)
    && ConditionsAgree(W.E.scalar, W.S.scalar, W.d, W.cx, ShippableClauses(W))
    && forall ri :: ri in W.scanClauses && ri.pseudoconstant ==> VarAttnos(Relid(W), ri.clause) == {}
  }

  ghost predicate ExprFits(W: World, e: Expr) {
    Readable(W.d, W.cx, e) && Agrees(W.E.scalar, W.S.scalar, e) && LiveColumns(W.cx.rel, e)
  }

  /** The servers agree on LIMIT and OFFSET. */
  ghost predicate LimitFits(W: World, limit: Limit) {
    && (limit.count.Some? ==> ExprFits(W, limit.count.value))
    && (limit.offset.Some? ==> ExprFits(W, limit.offset.value))
  }

  /** The servers agree on the aggregates; the local aggregation step computes them over the scanned
      rows. */
  ghost predicate AggregatesFit(W: World, P: Parse) {
    SimpleAggregation(P) ==>
      && W.steps.group(ScanRows(W)) == [AggregateRow(W)]
      && (exists i :: 0 <= i < |W.targets| && ContainsAgg(W.targets[i]))
      && forall e :: e in GroupedList(W) ==>
           Readable(W.d, W.cx, e) && AggAgrees(W.E, W.S, e) && LiveColumns(W.cx.rel, e)
  }

  function GroupedList(W: World): seq<Expr> {
    match GroupedTlist(GlobCxt(0, true), Relid(W), W.targets)
    case None => []
    case Some(es) => es
  }

  // ---------- the base path ----------

  lemma {:induction false} ReferenceIsProjection(W: World, rows: seq<RemoteRow>)
    requires ConditionsFit(W)
    ensures ArgumentRows(W.E.scalar, Relid(W), Selected(W.E.scalar, W.cx.rel, Clauses(W.scanClauses), rows),
                         W.scanTargets) ==
            if GateOpen(W) then Reference(W.E.scalar, Relid(W), W.cx.rel, W.scanClauses, W.scanTargets, rows) else []
  {
    if rows != [] {
      ReferenceIsProjection(W, rows[1..]);
      GateAndProper(W, rows[0]);
      ProjectedFirst(W.E.scalar, Relid(W), LocalRow(W.cx.rel, rows[0]),
                     Selected(W.E.scalar, W.cx.rel, Clauses(W.scanClauses), rows[1..]), W.scanTargets);
    }
  }

  lemma ProjectedFirst(L: Local, relid: nat, row: seq<Value>, tail: seq<seq<Value>>, targets: seq<Expr>)
    ensures ArgumentRows(L, relid, [row] + tail, targets) ==
            [EvalAll(L, relid, row, targets)] + ArgumentRows(L, relid, tail, targets)
    ensures [] + tail == tail
  {
    assert ([row] + tail)[1..] == tail;
  }

  /** All conditions hold on a row exactly when the gate is open and the others hold. */
  lemma GateAndProper(W: World, row: RemoteRow)
    requires ConditionsFit(W)
    ensures
      var full := LocalRow(W.cx.rel, row);
      AllTrue(W.E.scalar, Relid(W), full, Clauses(W.scanClauses)) <==>
        GateOpen(W) && AllTrue(W.E.scalar, Relid(W), full, Clauses(Proper(W.scanClauses)))
  {
    var L, relid, full, none := W.E.scalar, Relid(W), LocalRow(W.cx.rel, row), LocalRow(W.cx.rel, NullRow());
    ClausesHold(L, relid, full, W.scanClauses);
    ClausesHold(L, relid, full, Proper(W.scanClauses));
    forall ri
      ensures ri in Proper(W.scanClauses) <==> ri in W.scanClauses && !ri.pseudoconstant
    {
      ProperMembers(W.scanClauses, ri);
    }
    forall ri | ri in W.scanClauses && ri.pseudoconstant
      ensures Eval(L, relid, full, ri.clause) == Eval(L, relid, none, ri.clause)
    {
      EvalIsLocal(L, relid, full, none, ri.clause);
    }
  }

  /** What the scan ships are shippable conditions. */
  lemma ShippedFit(W: World)
    requires ConditionsFit(W)
    ensures ConditionsAgree(W.E.scalar, W.S.scalar, W.d, W.cx, ShippedClauses(BaseGlob(W), W.conds, W.scanClauses))
  {
    var g := BaseGlob(W);
    var a, b := Classified(g, W.conds, true), Classified(g, W.conds, false);
    var shipped := ScanSide(g, a, b, W.scanClauses, true);
    forall i | 0 <= i < |shipped|
      ensures Readable(W.d, W.cx, shipped[i].clause)
      ensures Agrees(W.E.scalar, W.S.scalar, shipped[i].clause) && LiveColumns(W.cx.rel, shipped[i].clause)
    {
      var ri := shipped[i];
      ScanSideMembers(g, a, b, W.scanClauses, true, ri);
      ClassifiedMembers(g, W.conds, true, ri);
      ClassifiedMembers(g, W.conds, false, ri);
      var j :| 0 <= j < |a| && a[j] == ri;
      assert Clauses(a)[j] == ri.clause;
    }
  }

  lemma BasePathAnswers(W: World)
    requires ConditionsFit(W)
    ensures BasePathRows(W, NO_LIMIT) == Some(ScanRows(W))
  {
    ShippedFit(W);
    ScanPreservesQuery(W.E.scalar, W.S, W.d, W.db, W.cx, BaseGlob(W), W.scanTargets, W.conds, W.scanClauses);
    ReferenceIsProjection(W, TableRows(W));
  }

  // ---------- LIMIT over a foreign path ----------

  lemma BoundsAgree(W: World, e: Option<Expr>)
    requires e.Some? ==> ExprFits(W, e.value)
    ensures Bound(W.S.scalar, LimitTree(W.cx.rel, e)) == LocalBound(W, e)
  {
    if e.Some? {
      ErasePreservesValue(W.E.scalar, W.S.scalar, W.d, W.cx, NullRow(), e.value);
    }
  }

  /** With no local condition, finishing maps each fetched row to one output row. */
  lemma {:induction false} FinishedMaps(L: Local, relid: nat, natts: nat, plan: ScanPlan, targets: seq<Expr>,
                                        fetched: Rows)
    requires plan.localExprs == []
    ensures
      var out := Finished(L, relid, natts, plan, targets, fetched);
      && |out| == |fetched|
      && forall i :: 0 <= i < |fetched| ==>
           out[i] == EvalAll(L, relid, Placed(natts, plan.retrievedAttrs, fetched[i]), targets)
  {
    if fetched != [] {
      FinishedMaps(L, relid, natts, plan, targets, fetched[1..]);
    }
  }

  /** So limiting before or after finishing is the same. */
  lemma LimitCommutes(L: Local, relid: nat, natts: nat, plan: ScanPlan, targets: seq<Expr>,
                      rowCount: Value -> nat, count: Option<Value>, offset: Option<Value>, fetched: Rows)
    requires plan.localExprs == []
    ensures Finished(L, relid, natts, plan, targets, Limited(rowCount, count, offset, fetched)) ==
            Limited(rowCount, count, offset, Finished(L, relid, natts, plan, targets, fetched))
  {
    FinishedMaps(L, relid, natts, plan, targets, fetched);
    FinishedMaps(L, relid, natts, plan, targets, Limited(rowCount, count, offset, fetched));
  }

  lemma NothingKept(W: World)
    requires ScanClausesOf(W.conds, W.scanClauses) && LocalConds(W) == []
    ensures KeptClauses(BaseGlob(W), W.conds, W.scanClauses) == []
  {
    var g := BaseGlob(W);
    var a, b := Classified(g, W.conds, true), Classified(g, W.conds, false);
    var kept := ScanSide(g, a, b, W.scanClauses, false);
    if kept != [] {
      var ri := kept[0];
      ScanSideMembers(g, a, b, W.scanClauses, false, ri);
      ClassifiedMembers(g, W.conds, true, ri);
      ClassifiedMembers(g, W.conds, false, ri);
      assert false;
    }
  }

  lemma LimitReadableWhenFit(W: World, limit: Limit)
    requires LimitFits(W, limit)
    ensures LimitReadable(W.d, W.cx, limit)
  {
  }

  /** The answer to a statement without aggregates. */
  lemma ScanStatementAnswer(S: Server, db: Database, rel: Rel, attnos: seq<int>, conds: seq<Expr>, limit: Limit)
    ensures Answer(S, db, QueryOf(rel, ListItems(rel, attnos), conds, limit)) ==
            Limited(S.rowCount, Bound(S.scalar, LimitTree(rel, limit.count)),
                    Bound(S.scalar, LimitTree(rel, limit.offset)),
                    RowValues(S.scalar, ListItems(rel, attnos),
                              Filtered(S.scalar, WhereTree(rel, conds), db(SchemaOf(rel), rel.name))))
  {
    NoAggregates(rel, attnos);
  }

  /** Without local conditions, the limited scan is the limit of the query's rows. */
  lemma LimitedScan(W: World, plan: ScanPlan, count: Option<Value>, offset: Option<Value>)
    requires ConditionsFit(W) && LocalConds(W) == []
    requires PlannedBy(W.cx, BaseGlob(W), W.scanTargets, W.conds, W.scanClauses, plan)
    ensures
      var cond := WhereTree(W.cx.rel, ShippedClauses(BaseGlob(W), W.conds, W.scanClauses));
      var fetched := RowValues(W.S.scalar, ListItems(W.cx.rel, plan.retrievedAttrs),
                               Filtered(W.S.scalar, cond, TableRows(W)));
      Finished(W.E.scalar, Relid(W), Natts(W), plan, W.scanTargets, Limited(W.S.rowCount, count, offset, fetched)) ==
      Limited(W.S.rowCount, count, offset,
              Reference(W.E.scalar, Relid(W), W.cx.rel, W.scanClauses, W.scanTargets, TableRows(W)))
  {
    var cond := WhereTree(W.cx.rel, ShippedClauses(BaseGlob(W), W.conds, W.scanClauses));
    var fetched := RowValues(W.S.scalar, ListItems(W.cx.rel, plan.retrievedAttrs),
                             Filtered(W.S.scalar, cond, TableRows(W)));
    ShippedFit(W);
    NothingKept(W);
    LimitCommutes(W.E.scalar, Relid(W), Natts(W), plan, W.scanTargets, W.S.rowCount, count, offset, fetched);
    AllRows(W.E.scalar, W.S.scalar, W.d, W.cx, BaseGlob(W), W.scanTargets, W.conds, W.scanClauses, plan, TableRows(W));
  }

  lemma PlanReads(W: World, limit: Limit)
    requires ConditionsFit(W) && LimitFits(W, limit)
    ensures
      var plan := ScanPlanOf(W.d, W.cx, BaseGlob(W), W.scanTargets, W.conds, W.scanClauses, limit);
      && plan.Some?
      && PlannedBy(W.cx, BaseGlob(W), W.scanTargets, W.conds, W.scanClauses, plan.value)
      && ReadStatement(W.d, plan.value.sql) ==
           Some(QueryOf(W.cx.rel, ListItems(W.cx.rel, plan.value.retrievedAttrs),
                        ShippedClauses(BaseGlob(W), W.conds, W.scanClauses), limit))
  {
    ShippedFit(W);
    LimitReadableWhenFit(W, limit);
    ScanStatementReads(W.d, W.cx, BaseGlob(W), W.scanTargets, W.conds, W.scanClauses, limit);
  }

  lemma BasePathIs(W: World, limit: Limit, plan: ScanPlan, q: Query, rows: Rows)
    requires ScanPlanOf(W.d, W.cx, BaseGlob(W), W.scanTargets, W.conds, W.scanClauses, limit) == Some(plan)
    requires ReadStatement(W.d, plan.sql) == Some(q)
    requires Finished(W.E.scalar, Relid(W), Natts(W), plan, W.scanTargets, Answer(W.S, W.db, q)) == rows
    ensures BasePathRows(W, limit) == Gated(W, Some(rows))
  {
  }

  /** The gate in front of the limited rows. */
  lemma GateThenLimit(W: World, P: Parse)
    requires ConditionsFit(W)
    ensures
      var rows := Reference(W.E.scalar, Relid(W), W.cx.rel, W.scanClauses, W.scanTargets, TableRows(W));
      Gated(W, Some(LimitRows(W, P, rows))) == Some(LimitRows(W, P, ScanRows(W)))
  {
    ReferenceIsProjection(W, TableRows(W));
    LimitOfNone(W.S.rowCount, LocalBound(W, P.limit.count), LocalBound(W, P.limit.offset));
  }

  lemma LimitOfNone(rowCount: Value -> nat, count: Option<Value>, offset: Option<Value>)
    ensures var none: Rows := []; Limited(rowCount, count, offset, none) == none
  {
  }

  /** Without local conditions, the table's scan with LIMIT gives the limited scan. */
  lemma LimitedBaseAnswers(W: World, P: Parse)
    requires ConditionsFit(W) && LimitFits(W, P.limit) && LocalConds(W) == []
    ensures BasePathRows(W, P.limit) == Some(LimitRows(W, P, ScanRows(W)))
  {
    PlanReads(W, P.limit);
    var plan := ScanPlanOf(W.d, W.cx, BaseGlob(W), W.scanTargets, W.conds, W.scanClauses, P.limit).value;
    var shipped := ShippedClauses(BaseGlob(W), W.conds, W.scanClauses);
    var q := QueryOf(W.cx.rel, ListItems(W.cx.rel, plan.retrievedAttrs), shipped, P.limit);
    var rows := LimitRows(W, P, Reference(W.E.scalar, Relid(W), W.cx.rel, W.scanClauses, W.scanTargets, TableRows(W)));
    assert Finished(W.E.scalar, Relid(W), Natts(W), plan, W.scanTargets, Answer(W.S, W.db, q)) == rows by {
      ScanStatementAnswer(W.S, W.db, W.cx.rel, plan.retrievedAttrs, shipped, P.limit);
      BoundsAgree(W, P.limit.count);
      BoundsAgree(W, P.limit.offset);
      LimitedScan(W, plan, LocalBound(W, P.limit.count), LocalBound(W, P.limit.offset));
    }
    BasePathIs(W, P.limit, plan, q, rows);
    GateThenLimit(W, P);
  }

  // ---------- the aggregate path ----------

  /** Without local conditions, the server keeps a row exactly when all conditions hold on it. */
  lemma KeptIsSelected(W: World, row: RemoteRow)
    requires ConditionsFit(W) && LocalConds(W) == []
    ensures Keeps(W.S.scalar, WhereTree(W.cx.rel, ShippableClauses(W)), row) <==>
            AllTrue(W.E.scalar, Relid(W), LocalRow(W.cx.rel, row), Clauses(W.scanClauses))
  {
    RemoteFilter(W.E.scalar, W.S.scalar, W.d, W.cx, ShippableClauses(W), row);
    AllAreShipped(W, LocalRow(W.cx.rel, row));
  }

  lemma {:induction false} FilteredAre(L: Local, R: Remote, rel: Rel, cond: Option<Sql>, clauses: seq<Expr>,
                                       rows: seq<RemoteRow>)
    requires forall row :: row in rows ==>
               (Keeps(R, cond, row) <==> AllTrue(L, rel.relid, LocalRow(rel, row), clauses))
    ensures LocalRows(rel, Filtered(R, cond, rows)) == Selected(L, rel, clauses, rows)
  {
    if rows != [] {
      FilteredAre(L, R, rel, cond, clauses, rows[1..]);
      assert rows[0] in rows;
      LocalRowsFirst(rel, rows[0], Filtered(R, cond, rows[1..]));
    }
  }

  lemma LocalRowsFirst(rel: Rel, row: RemoteRow, tail: seq<RemoteRow>)
    ensures LocalRows(rel, [row] + tail) == [LocalRow(rel, row)] + LocalRows(rel, tail)
    ensures [] + tail == tail
  {
    assert ([row] + tail)[1..] == tail;
  }

  /** So the remote server aggregates exactly the selected rows. */
  lemma FilteredAreSelected(W: World)
    requires ConditionsFit(W) && LocalConds(W) == []
    ensures LocalRows(W.cx.rel, Filtered(W.S.scalar, WhereTree(W.cx.rel, ShippableClauses(W)), TableRows(W))) ==
            SelectedRows(W)
  {
    forall row | row in TableRows(W)
      ensures Keeps(W.S.scalar, WhereTree(W.cx.rel, ShippableClauses(W)), row) <==>
              AllTrue(W.E.scalar, Relid(W), LocalRow(W.cx.rel, row), Clauses(W.scanClauses))
    {
      KeptIsSelected(W, row);
    }
    FilteredAre(W.E.scalar, W.S.scalar, W.cx.rel, WhereTree(W.cx.rel, ShippableClauses(W)),
                Clauses(W.scanClauses), TableRows(W));
  }

  lemma AllAreShipped(W: World, row: seq<Value>)
    requires ConditionsFit(W) && LocalConds(W) == []
    ensures AllTrue(W.E.scalar, Relid(W), row, ShippableClauses(W)) <==>
            AllTrue(W.E.scalar, Relid(W), row, Clauses(W.scanClauses))
  {
    var g := BaseGlob(W);
    ClausesHold(W.E.scalar, Relid(W), row, W.scanClauses);
    ClausesHold(W.E.scalar, Relid(W), row, Classified(g, W.conds, true));
    forall ri
      ensures ri in Classified(g, W.conds, true) <==> ri in W.scanClauses
    {
      ClassifiedMembers(g, W.conds, true, ri);
      ClassifiedMembers(g, W.conds, false, ri);
    }
  }

  lemma FetchedListReads(d: Dialect, cx: DeparseCxt, tlist: seq<Expr>, rest: seq<Token>)
    requires ValidDialect(d) && cx.quotable && Front(rest) == Kw("from")
    requires tlist != [] && AllReadable(d, cx, tlist)
    ensures
      var list := PrintList(d, cx, tlist, ITEM_SEPARATOR);
      && list.Some? && WellSpaced(d, list.value)
      && Items(TokensOf(list.value) + rest) == Ok(EraseAll(cx.rel, tlist), rest)
  {
    FixedSpaced(d, AndOp);
    forall i | 0 <= i < |tlist|
      ensures Legible(d, cx, tlist[i])
    {
      ReadableIsLegible(d, cx, tlist[i]);
    }
    Spacing.ListSpaced(d, cx, tlist, ITEM_SEPARATOR);
    ListReadsBack(d, cx, tlist);
    assert ListPhrase(PrintList(d, cx, tlist, ITEM_SEPARATOR).value, EraseAll(cx.rel, tlist), rest);
  }

  lemma ConditionsReadable(W: World)
    requires ConditionsFit(W)
    ensures AllReadable(W.d, W.cx, ShippableClauses(W))
  {
  }

  /** The statement of an aggregate scan reads back as the fetched list over the table. */
  lemma FetchedStatementReads(d: Dialect, cx: DeparseCxt, tlist: seq<Expr>, conds: seq<Expr>, limit: Limit)
    requires ValidDialect(d) && cx.quotable && AllReadable(d, cx, conds) && LimitReadable(d, cx, limit)
    requires tlist != [] && AllReadable(d, cx, tlist)
    ensures
      var ps := SelectPieces(d, cx, FetchedListPieces(d, cx, tlist), conds, limit);
      ps.Some? && ReadStatement(d, Render(d, ps.value)) ==
                    Some(QueryOf(cx.rel, EraseAll(cx.rel, tlist), conds, limit))
  {
    FetchedListReads(d, cx, tlist, FromTokens(d, cx, conds, limit));
    SelectRoundTrip(d, cx, PrintList(d, cx, tlist, ITEM_SEPARATOR).value, EraseAll(cx.rel, tlist), conds, limit);
  }

  /** The fetched list covers every target. */
  lemma ListCovers(W: World, tlist: seq<Expr>)
    requires GroupedTlist(GlobCxt(0, true), Relid(W), W.targets) == Some(tlist)
    ensures forall i :: 0 <= i < |W.targets| ==> Covered(tlist, W.targets[i])
  {
    forall i | 0 <= i < |W.targets|
      ensures Covered(tlist, W.targets[i])
    {
      TargetsCovered(GlobCxt(0, true), Relid(W), W.targets, i);
    }
  }

  /** The fetched list holds an aggregate, in the text too. */
  lemma ListAggregates(W: World, P: Parse, tlist: seq<Expr>)
    requires AggregatesFit(W, P) && SimpleAggregation(P)
    requires GroupedTlist(GlobCxt(0, true), Relid(W), W.targets) == Some(tlist)
    ensures exists i :: 0 <= i < |tlist| && HasAggregate(EraseAll(W.cx.rel, tlist)[i])
  {
    var i :| 0 <= i < |W.targets| && ContainsAgg(W.targets[i]);
    TargetsCovered(GlobCxt(0, true), Relid(W), W.targets, i);
    assert GroupedList(W) == tlist;
    SomeAggregateShows(W.E, W.S, W.d, W.cx, tlist, W.targets[i]);
  }

  lemma SomeAggregateShows(E: Engine, S: Server, d: Dialect, cx: DeparseCxt, tlist: seq<Expr>, e: Expr)
    requires Covered(tlist, e) && ContainsAgg(e)
    requires forall x :: x in tlist ==> Readable(d, cx, x) && AggAgrees(E, S, x)
    ensures exists i :: 0 <= i < |tlist| && HasAggregate(EraseAll(cx.rel, tlist)[i])
  {
    var x := FetchedHoldsAggregate(tlist, e);
    AggregateShows(E, S, d, cx, x);
    ErasedWith(cx.rel, tlist, x);
  }

  lemma ErasedWith(rel: Rel, es: seq<Expr>, x: Expr)
    requires x in es && HasAggregate(Erase(rel, x))
    ensures exists i :: 0 <= i < |es| && HasAggregate(EraseAll(rel, es)[i])
  {
    var j :| 0 <= j < |es| && es[j] == x;
    assert HasAggregate(EraseAll(rel, es)[j]);
  }

  /** What the server computes for the fetched list. */
  lemma ListValues(W: World, P: Parse, tlist: seq<Expr>)
    requires ConditionsFit(W) && AggregatesFit(W, P) && SimpleAggregation(P) && LocalConds(W) == []
    requires GroupedTlist(GlobCxt(0, true), Relid(W), W.targets) == Some(tlist)
    ensures
      var cond := WhereTree(W.cx.rel, ShippableClauses(W));
      AggregateValues(W.S, Filtered(W.S.scalar, cond, TableRows(W)), EraseAll(W.cx.rel, tlist)) ==
      AggEvalAll(W.E, Relid(W), SelectedRows(W), tlist)
  {
    var cond := WhereTree(W.cx.rel, ShippableClauses(W));
    var rows := Filtered(W.S.scalar, cond, TableRows(W));
    FilteredAreSelected(W);
    forall i | 0 <= i < |tlist|
      ensures AggregateValue(W.S, rows, Erase(W.cx.rel, tlist[i])) == AggEval(W.E, Relid(W), SelectedRows(W), tlist[i])
    {
      assert tlist[i] in GroupedList(W);
      AggregatePreserved(W.E, W.S, W.d, W.cx, rows, tlist[i]);
    }
  }

  /** Each output expression computed from the fetched values is its own aggregate value. */
  lemma OutputsAre(W: World, tlist: seq<Expr>)
    requires forall i :: 0 <= i < |W.targets| ==> Covered(tlist, W.targets[i])
    ensures EvalFetchedAll(W.E.scalar, Relid(W), tlist, AggEvalAll(W.E, Relid(W), SelectedRows(W), tlist), W.targets) ==
            AggregateRow(W)
  {
    forall i | 0 <= i < |W.targets|
      ensures EvalFetched(W.E.scalar, Relid(W), tlist, AggEvalAll(W.E, Relid(W), SelectedRows(W), tlist),
                          W.targets[i]) ==
              AggEval(W.E, Relid(W), SelectedRows(W), W.targets[i])
    {
      FetchedIsEnough(W.E, Relid(W), SelectedRows(W), tlist, W.targets[i]);
    }
  }

  predicate KeepsFirst(rowCount: Value -> nat, count: Option<Value>, offset: Option<Value>) {
    && (offset.None? || offset.value == NullV || rowCount(offset.value) == 0)
    && (count.None? || count.value == NullV || rowCount(count.value) > 0)
  }

  lemma LimitedSingle<T>(rowCount: Value -> nat, count: Option<Value>, offset: Option<Value>, x: T)
    ensures Limited(rowCount, count, offset, [x]) == if KeepsFirst(rowCount, count, offset) then [x] else []
  {
    assert [x][0..] == [x] && [x][1..] == [] && [x][..0] == [];
  }

  lemma OutputOfOne(L: Local, relid: nat, tlist: seq<Expr>, targets: seq<Expr>, values: seq<Value>)
    requires |values| == |tlist|
    ensures OutputRows(L, relid, tlist, targets, [values]) == [EvalFetchedAll(L, relid, tlist, values, targets)]
    ensures OutputRows(L, relid, tlist, targets, []) == []
  {
  }

  /** Limiting one row is keeping it or not, before or after computing from it. */
  lemma LimitOfOne(L: Local, relid: nat, tlist: seq<Expr>, targets: seq<Expr>, rowCount: Value -> nat,
                   count: Option<Value>, offset: Option<Value>, values: seq<Value>)
    requires |values| == |tlist|
    ensures
      var kept := Limited(rowCount, count, offset, [values]);
      && (forall i :: 0 <= i < |kept| ==> |kept[i]| == |tlist|)
      && OutputRows(L, relid, tlist, targets, kept) ==
           Limited(rowCount, count, offset, [EvalFetchedAll(L, relid, tlist, values, targets)])
  {
    LimitedSingle(rowCount, count, offset, values);
    LimitedSingle(rowCount, count, offset, EvalFetchedAll(L, relid, tlist, values, targets));
    OutputOfOne(L, relid, tlist, targets, values);
  }

  /** The answer to the aggregate statement. */
  lemma GroupedStatementAnswer(W: World, P: Parse, tlist: seq<Expr>, limit: Limit)
    requires ConditionsFit(W) && AggregatesFit(W, P) && SimpleAggregation(P) && LocalConds(W) == []
    requires GroupedTlist(GlobCxt(0, true), Relid(W), W.targets) == Some(tlist)
    ensures
      var conds := ShippableClauses(W);
      Answer(W.S, W.db, QueryOf(W.cx.rel, EraseAll(W.cx.rel, tlist), conds, limit)) ==
      Limited(W.S.rowCount, Bound(W.S.scalar, LimitTree(W.cx.rel, limit.count)),
              Bound(W.S.scalar, LimitTree(W.cx.rel, limit.offset)), [AggEvalAll(W.E, Relid(W), SelectedRows(W), tlist)])
  {
    ListAggregates(W, P, tlist);
    ListValues(W, P, tlist);
  }

  lemma FetchedListReadable(W: World, P: Parse, tlist: seq<Expr>)
    requires AggregatesFit(W, P) && SimpleAggregation(P)
    requires GroupedTlist(GlobCxt(0, true), Relid(W), W.targets) == Some(tlist)
    ensures tlist != [] && forall i :: 0 <= i < |tlist| ==> Readable(W.d, W.cx, tlist[i])
  {
    ListAggregates(W, P, tlist);
    forall i | 0 <= i < |tlist|
      ensures Readable(W.d, W.cx, tlist[i])
    {
      assert tlist[i] in GroupedList(W);
    }
  }

  /** Remote aggregation gives the aggregate row, limited if LIMIT was pushed too. */
  lemma GroupedPathAnswers(W: World, P: Parse, tlist: seq<Expr>, limit: Limit)
    requires ConditionsFit(W) && AggregatesFit(W, P) && SimpleAggregation(P) && LocalConds(W) == []
    requires GroupedTlist(GlobCxt(0, true), Relid(W), W.targets) == Some(tlist)
    requires LimitFits(W, limit)
    ensures GroupedPathRows(W, tlist, limit) ==
            Some(Limited(W.S.rowCount, LocalBound(W, limit.count), LocalBound(W, limit.offset), [AggregateRow(W)]))
  {
    FetchedListReadable(W, P, tlist);
    LimitReadableWhenFit(W, limit);
    ConditionsReadable(W);
    FetchedStatementReads(W.d, W.cx, tlist, ShippableClauses(W), limit);
    var q := QueryOf(W.cx.rel, EraseAll(W.cx.rel, tlist), ShippableClauses(W), limit);
    var count, offset := LocalBound(W, limit.count), LocalBound(W, limit.offset);
    var values := AggEvalAll(W.E, Relid(W), SelectedRows(W), tlist);
    assert Answer(W.S, W.db, q) == Limited(W.S.rowCount, count, offset, [values]) by {
      GroupedStatementAnswer(W, P, tlist, limit);
      BoundsAgree(W, limit.count);
      BoundsAgree(W, limit.offset);
    }
    ListCovers(W, tlist);
    OutputsAre(W, tlist);
    GroupedPathIs(W, tlist, limit, q, values, count, offset);
  }

  lemma GroupedPathIs(W: World, tlist: seq<Expr>, limit: Limit, q: Query, values: seq<Value>,
                      count: Option<Value>, offset: Option<Value>)
    requires GroupedStatement(W, tlist, limit).Some? && |values| == |tlist|
    requires ReadStatement(W.d, Render(W.d, GroupedStatement(W, tlist, limit).value)) == Some(q)
    requires Answer(W.S, W.db, q) == Limited(W.S.rowCount, count, offset, [values])
    ensures GroupedPathRows(W, tlist, limit) ==
            Some(Limited(W.S.rowCount, count, offset,
                         [EvalFetchedAll(W.E.scalar, Relid(W), tlist, values, W.targets)]))
  {
    LimitOfOne(W.E.scalar, Relid(W), tlist, W.targets, W.S.rowCount, count, offset, values);
  }

  // ---------- every stage keeps every path right ----------

  /** Every path gives these rows. */
  ghost predicate AllAnswer(W: World, P: Parse, ps: seq<Path>, rows: Rows) {
    forall p :: p in ps ==> PathRows(W, P, p) == Some(rows)
  }

  /** The private data says what the rows are: the scan's, or the aggregate row. */
  ghost predicate Faithful(W: World, P: Parse, rel: RelInfo, rows: Rows) {
    Pushable(rel) ==>
      var fp := rel.fdwPrivate.value;
      if rel.isUpper then
        && fp.stage == GroupAgg && SimpleAggregation(P) && LocalConds(W) == []
        && GroupedTlist(GlobCxt(0, true), Relid(W), W.targets) == Some(fp.tlist)
        && (!P.targetSRFs ==> rows == [AggregateRow(W)])
      else
        && fp.stage == BaseStage && fp.localConds == LocalConds(W)
        && (!P.targetSRFs ==> rows == ScanRows(W))
  }

  lemma LocalPathsAnswer(W: World, P: Parse, stage: Stage, ps: seq<Path>, rows: Rows, answer: Rows)
    requires AllAnswer(W, P, ps, rows) && answer == StageRows(W, P, stage, rows)
    ensures AllAnswer(W, P, LocalPaths(stage, ps), answer)
  {
    forall p | p in LocalPaths(stage, ps)
      ensures PathRows(W, P, p) == Some(answer)
    {
      var i :| 0 <= i < |ps| && LocalPaths(stage, ps)[i] == p;
      assert ps[i] in ps;
    }
  }

  /** The grouping stage of a scan: when it is pushed down, and the path it then adds. */
  lemma GroupingStage(P: Parse, relid: nat, targets: seq<Expr>, base: RelInfo, conds: seq<RestrictInfo>)
    requires base == BaseRel(conds)
    ensures
      var rel := Planned(P, relid, targets, GroupAgg, true, base);
      && rel.isUpper
      && (!Pushable(rel) ==> rel.pathlist == LocalPaths(GroupAgg, base.pathlist))
      && (Pushable(rel) ==>
            var fp := rel.fdwPrivate.value;
            && SimpleAggregation(P) && conds == [] && fp.stage == GroupAgg
            && GroupedTlist(GlobCxt(0, true), relid, targets) == Some(fp.tlist)
            && rel.pathlist == LocalPaths(GroupAgg, base.pathlist) + [ForeignGrouped(fp.tlist, false, false)])
  {
  }

  /** The grouping stage. */
  lemma GroupingKeeps(W: World, P: Parse, base: RelInfo)
    requires ConditionsFit(W) && AggregatesFit(W, P)
    requires base == BaseRel(LocalConds(W)) && AllAnswer(W, P, base.pathlist, ScanRows(W))
    ensures
      var rel := Planned(P, Relid(W), W.targets, GroupAgg, Grouped(P), base);
      var rows := Stepped(W, P, GroupAgg, Grouped(P), ScanRows(W));
      AllAnswer(W, P, rel.pathlist, rows) && Faithful(W, P, rel, rows)
  {
    if Grouped(P) {
      LocalPathsAnswer(W, P, GroupAgg, base.pathlist, ScanRows(W), StageRows(W, P, GroupAgg, ScanRows(W)));
      GroupingStage(P, Relid(W), W.targets, base, LocalConds(W));
      var rel := Planned(P, Relid(W), W.targets, GroupAgg, true, base);
      if Pushable(rel) {
        var tlist := rel.fdwPrivate.value.tlist;
        GroupedPathAnswers(W, P, tlist, NO_LIMIT);
        NoLimitKeepsAll(W.S.rowCount, [AggregateRow(W)]);
      }
    }
  }

  lemma SrfsKeep(W: World, P: Parse, rel: RelInfo, rows: Rows)
    requires AllAnswer(W, P, rel.pathlist, rows) && Faithful(W, P, rel, rows)
    ensures AllAnswer(W, P, WithSrfs(P, rel).pathlist, SrfRows(W, P, rows))
    ensures Faithful(W, P, WithSrfs(P, rel), SrfRows(W, P, rows))
  {
    if P.targetSRFs {
      forall p | p in SrfPaths(rel.pathlist)
        ensures PathRows(W, P, p) == Some(SrfRows(W, P, rows))
      {
        var i :| 0 <= i < |rel.pathlist| && SrfPaths(rel.pathlist)[i] == p;
        assert rel.pathlist[i] in rel.pathlist;
      }
    }
  }

  /** A stage the wrapper does not handle. */
  lemma UnhandledKeeps(W: World, P: Parse, stage: Stage, wanted: bool, input: RelInfo, rows: Rows)
    requires stage == WindowStage || stage == DistinctStage || stage == OrderedStage
    requires AllAnswer(W, P, input.pathlist, rows) && Faithful(W, P, input, rows)
    ensures
      var rel := Planned(P, Relid(W), W.targets, stage, wanted, input);
      AllAnswer(W, P, rel.pathlist, Stepped(W, P, stage, wanted, rows))
      && Faithful(W, P, rel, Stepped(W, P, stage, wanted, rows))
  {
    if wanted {
      LocalPathsAnswer(W, P, stage, input.pathlist, rows, StageRows(W, P, stage, rows));
    }
  }

  /** A pushed LIMIT gives what the local one would. */
  lemma PushedLimitAnswers(W: World, P: Parse, input: RelInfo, rows: Rows)
    requires ConditionsFit(W) && AggregatesFit(W, P) && LimitFits(W, P.limit)
    requires Pushable(input) && Faithful(W, P, input, rows) && !P.targetSRFs
    requires input.fdwPrivate.value.localConds == []
    ensures PathRows(W, P, LimitPath(input, false)) == Some(LimitRows(W, P, rows))
  {
    if input.isUpper {
      GroupedPathAnswers(W, P, input.fdwPrivate.value.tlist, P.limit);
    } else {
      LimitedBaseAnswers(W, P);
    }
  }

  /** The final stage. */
  lemma FinalKeeps(W: World, P: Parse, input: RelInfo, rows: Rows)
    requires ConditionsFit(W) && AggregatesFit(W, P) && LimitFits(W, P.limit)
    requires AllAnswer(W, P, input.pathlist, rows) && Faithful(W, P, input, rows)
    ensures AllAnswer(W, P, Planned(P, Relid(W), W.targets, FinalStage, true, input).pathlist, FinalStep(W, P, rows))
  {
    var rel, local := Planned(P, Relid(W), W.targets, FinalStage, true, input), LocalPaths(FinalStage, input.pathlist);
    LocalPathsAnswer(W, P, FinalStage, input.pathlist, rows, FinalStep(W, P, rows));
    if Pushable(rel) {
      FinalPathAnswers(W, P, input, rows, rel);
      OnePathMore(W, P, local, LimitPath(input, false), FinalStep(W, P, rows));
    } else {
      FinalPaths(P, Relid(W), W.targets, input);
    }
  }

  lemma FinalPathAnswers(W: World, P: Parse, input: RelInfo, rows: Rows, rel: RelInfo)
    requires ConditionsFit(W) && AggregatesFit(W, P) && LimitFits(W, P.limit) && Faithful(W, P, input, rows)
    requires rel == Planned(P, Relid(W), W.targets, FinalStage, true, input) && Pushable(rel)
    ensures rel.pathlist == LocalPaths(FinalStage, input.pathlist) + [LimitPath(input, false)]
    ensures PathRows(W, P, LimitPath(input, false)) == Some(FinalStep(W, P, rows))
  {
    FinalPaths(P, Relid(W), W.targets, input);
    FaithfulStage(W, P, input, rows);
    PushedLimitAnswers(W, P, input, rows);
    FinalIsLimit(W, P, rows);
  }

  lemma OnePathMore(W: World, P: Parse, ps: seq<Path>, p: Path, rows: Rows)
    requires AllAnswer(W, P, ps, rows) && PathRows(W, P, p) == Some(rows)
    ensures AllAnswer(W, P, ps + [p], rows)
  {
  }

  lemma FaithfulStage(W: World, P: Parse, input: RelInfo, rows: Rows)
    requires Faithful(W, P, input, rows) && Pushable(input)
    ensures LimitInput(input) == input
  {
  }

  lemma FinalIsLimit(W: World, P: Parse, rows: Rows)
    requires P.isSelect && !P.rowMarks && LimitNeeded(P.limit) && !P.withTies
    ensures FinalStep(W, P, rows) == LimitRows(W, P, rows)
  {
  }

  /** The final stage: when LIMIT is pushed down, and the path it then adds. */
  lemma FinalPaths(P: Parse, relid: nat, targets: seq<Expr>, input: RelInfo)
    ensures
      var rel := Planned(P, relid, targets, FinalStage, true, input);
      && (!Pushable(rel) ==> rel.pathlist == LocalPaths(FinalStage, input.pathlist))
      && (Pushable(rel) ==>
            && Pushable(input) && P.isSelect && !P.rowMarks && LimitNeeded(P.limit) && !P.targetSRFs
            && LimitPushable(P, relid, LimitInput(input)) && !P.withTies
            && rel.pathlist == LocalPaths(FinalStage, input.pathlist)
                               + [LimitPath(LimitInput(input), LimitInput(input) != input)])
  {
  }

  /** All stages before the final one. */
  lemma SortedKeeps(W: World, P: Parse, r1: RelInfo, v1: Rows)
    requires AllAnswer(W, P, r1.pathlist, v1) && Faithful(W, P, r1, v1)
    ensures
      var r2 := Planned(P, Relid(W), W.targets, WindowStage, P.windows, r1);
      var r3 := Planned(P, Relid(W), W.targets, DistinctStage, P.distinct, r2);
      var r4 := Planned(P, Relid(W), W.targets, OrderedStage, P.ordered, r3);
      var v2 := Stepped(W, P, WindowStage, P.windows, v1);
      var v3 := Stepped(W, P, DistinctStage, P.distinct, v2);
      var v4 := Stepped(W, P, OrderedStage, P.ordered, v3);
      AllAnswer(W, P, r4.pathlist, v4) && Faithful(W, P, r4, v4)
  {
    UnhandledKeeps(W, P, WindowStage, P.windows, r1, v1);
    var r2 := Planned(P, Relid(W), W.targets, WindowStage, P.windows, r1);
    var v2 := Stepped(W, P, WindowStage, P.windows, v1);
    UnhandledKeeps(W, P, DistinctStage, P.distinct, r2, v2);
    var r3 := Planned(P, Relid(W), W.targets, DistinctStage, P.distinct, r2);
    UnhandledKeeps(W, P, OrderedStage, P.ordered, r3, Stepped(W, P, DistinctStage, P.distinct, v2));
  }

  lemma BaseKeeps(W: World, P: Parse)
    requires ConditionsFit(W)
    ensures AllAnswer(W, P, BaseRel(LocalConds(W)).pathlist, ScanRows(W))
  {
    BasePathAnswers(W);
  }

  lemma GroupedKeeps(W: World, P: Parse)
    requires ConditionsFit(W) && AggregatesFit(W, P)
    ensures
      var rel := GroupedRel(P, Relid(W), W.targets, BaseRel(LocalConds(W)));
      var rows := SrfRows(W, P, Stepped(W, P, GroupAgg, Grouped(P), ScanRows(W)));
      AllAnswer(W, P, rel.pathlist, rows) && Faithful(W, P, rel, rows)
  {
    var base := BaseRel(LocalConds(W));
    BaseKeeps(W, P);
    GroupingKeeps(W, P, base);
    SrfsKeep(W, P, Planned(P, Relid(W), W.targets, GroupAgg, Grouped(P), base),
             Stepped(W, P, GroupAgg, Grouped(P), ScanRows(W)));
  }

  /** Whatever path the planner picks in the end, it computes the answer of the query: pushing
      conditions, aggregates and LIMIT to the remote server never changes it. */
  lemma EveryPathAnswersTheQuery(W: World, P: Parse, p: Path)
    requires ConditionsFit(W) && AggregatesFit(W, P) && LimitFits(W, P.limit)
    requires p in FinalRel(P, Relid(W), W.targets, LocalConds(W)).pathlist
    ensures PathRows(W, P, p) == Some(QueryAnswer(W, P))
  {
    var grouped := GroupedRel(P, Relid(W), W.targets, BaseRel(LocalConds(W)));
    var rows := SrfRows(W, P, Stepped(W, P, GroupAgg, Grouped(P), ScanRows(W)));
    GroupedKeeps(W, P);
    SortedKeeps(W, P, grouped, rows);
    var windowed := Stepped(W, P, WindowStage, P.windows, rows);
    var deduplicated := Stepped(W, P, DistinctStage, P.distinct, windowed);
    FinalKeeps(W, P, SortedRel(P, Relid(W), W.targets, BaseRel(LocalConds(W))),
               Stepped(W, P, OrderedStage, P.ordered, deduplicated));
  }
}
