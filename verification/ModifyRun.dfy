/** Running INSERT, UPDATE and DELETE row by row: planning the statement, preparing it once, binding
    each row's values by position, and the proof that the k-th placeholder always gets the value of
    the column printed there.
 */
module ModifyRun {
  import opened Nodes
  import opened Lexical
  import opened Tokens
  import opened Deparse
  import opened Semantics
  import opened Select
  import opened SelectRead
  import opened ModifySql

  datatype Operation = InsertOp | UpdateOp | DeleteOp

  // ---------- planning ----------

  /** The attributes among the first `n` that satisfy what the operation asks for, in order. */
  function LiveAttnos(rel: Rel, n: nat): (r: seq<int>)
    requires n <= |rel.attrs|
    ensures forall i :: 0 <= i < |r| ==> 1 <= r[i] <= n
  {
    if n == 0 then [] else LiveAttnos(rel, n - 1) + if rel.attrs[n - 1].dropped then [] else [n]
  }

  function UpdatedAttnos(updated: set<int>, n: nat): (r: seq<int>)
    ensures forall i :: 0 <= i < |r| ==> 1 <= r[i] <= n
  {
    if n == 0 then [] else UpdatedAttnos(updated, n - 1) + if n in updated then [n] else []
  }

  function KeyAttnos(rel: Rel, n: nat): (r: seq<int>)
    requires n <= |rel.attrs|
    ensures forall i :: 0 <= i < |r| ==> 1 <= r[i] <= n && rel.attrs[r[i] - 1].key
  {
    if n == 0 then [] else KeyAttnos(rel, n - 1) + if rel.attrs[n - 1].key then [n] else []
  }

  function TargetAttnos(rel: Rel, op: Operation, updated: set<int>): (r: seq<int>)
    ensures ValidAttnos(rel, r)
  {
    match op
    case InsertOp => LiveAttnos(rel, |rel.attrs|)
    case UpdateOp => UpdatedAttnos(updated, |rel.attrs|)
    case DeleteOp => []
  }

  /** The attribute is a target: for INSERT a column that is not dropped, for UPDATE one that is updated. */
  predicate IsTarget(rel: Rel, op: Operation, updated: set<int>, a: int) {
    && 1 <= a <= |rel.attrs|
    && match op
       case InsertOp => !rel.attrs[a - 1].dropped
       case UpdateOp => a in updated
       case DeleteOp => false
  }

  /** Of the first `n` attributes the targets are found in increasing order. */
  lemma {:induction false} TargetMembers(rel: Rel, updated: set<int>, n: nat, a: int)
    requires n <= |rel.attrs|
    ensures Increasing(LiveAttnos(rel, n)) && Increasing(UpdatedAttnos(updated, n))
    ensures a in LiveAttnos(rel, n) <==> a <= n && IsTarget(rel, InsertOp, updated, a)
    ensures a in UpdatedAttnos(updated, n) <==> a <= n && IsTarget(rel, UpdateOp, updated, a)
  {
    if n > 0 {
      TargetMembers(rel, updated, n - 1, a);
      IncreasingSnoc(LiveAttnos(rel, n - 1), n);
      IncreasingSnoc(UpdatedAttnos(updated, n - 1), n);
      LastMember(LiveAttnos(rel, n - 1), !rel.attrs[n - 1].dropped, n, a);
      LastMember(UpdatedAttnos(updated, n - 1), n in updated, n, a);
    }
  }

  lemma LastMember(attnos: seq<int>, more: bool, n: int, a: int)
    ensures a in attnos + (if more then [n] else []) <==> a in attnos || (more && a == n)
    ensures !more ==> attnos + (if more then [n] else []) == attnos
  {
  }

  /** The key columns are found in increasing order. */
  lemma {:induction false} KeyMembers(rel: Rel, n: nat, a: int)
    requires n <= |rel.attrs|
    ensures Increasing(KeyAttnos(rel, n))
    ensures a in KeyAttnos(rel, n) <==> 1 <= a <= n && rel.attrs[a - 1].key
  {
    if n > 0 {
      KeyMembers(rel, n - 1, a);
      IncreasingSnoc(KeyAttnos(rel, n - 1), n);
      LastMember(KeyAttnos(rel, n - 1), rel.attrs[n - 1].key, n, a);
    }
  }

  /** Planning raises exactly for RETURNING, for a server whose names cannot be quoted, and for an update of a system
      column. */
  lemma PlanningRaisesIff(d: Dialect, cx: DeparseCxt, op: Operation, updated: set<int>, returning: bool)
    ensures ModifyPlanOf(d, cx, op, updated, returning).None? <==>
            returning || !cx.quotable || (op.UpdateOp? && exists u :: u in updated && u <= 0)
  {
  }

  /** The targets of a plan are exactly the columns the operation asks for, in increasing order. */
  lemma PlannedTargets(d: Dialect, cx: DeparseCxt, op: Operation, updated: set<int>, returning: bool, plan: ModifyPlan)
    requires ModifyPlanOf(d, cx, op, updated, returning) == Some(plan)
    ensures Increasing(plan.targetAttrs)
    ensures forall a :: a in plan.targetAttrs <==> IsTarget(cx.rel, op, updated, a)
  {
    forall a
      ensures a in plan.targetAttrs <==> IsTarget(cx.rel, op, updated, a)
    {
      TargetMembers(cx.rel, updated, |cx.rel.attrs|, a);
    }
    TargetMembers(cx.rel, updated, |cx.rel.attrs|, 0);
  }

  function StatementPieces(rel: Rel, op: Operation, targets: seq<string>, keys: seq<string>): seq<Piece> {
    match op
    case InsertOp => InsertPieces(rel, targets)
    case UpdateOp => UpdatePieces(rel, targets, keys)
    case DeleteOp => DeletePieces(rel, keys)
  }

  datatype ModifyPlan = ModifyPlan(sql: string, targetAttrs: seq<int>)

  /** The planner's statement: None where it raises. */
  function ModifyPlanOf(d: Dialect, cx: DeparseCxt, op: Operation, updated: set<int>,
                        returning: bool): Option<ModifyPlan>
  {
    if (op.UpdateOp? && exists u :: u in updated && u <= 0) || returning || !cx.quotable then None
    else
      var targets := TargetAttnos(cx.rel, op, updated);
      Some(ModifyPlan(Render(d, StatementPieces(cx.rel, op, AttrNames(cx.rel, targets),
                                                AttrNames(cx.rel, KeyAttnos(cx.rel, |cx.rel.attrs|)))),
                      targets))
  }

  method FindTargets(rel: Rel, op: Operation, updated: set<int>) returns (targetAttrs: seq<int>)
    ensures targetAttrs == TargetAttnos(rel, op, updated)
  {
    targetAttrs := [];
    var attnum := 1;
    if op.InsertOp? {
      while attnum <= |rel.attrs|
        invariant 1 <= attnum <= |rel.attrs| + 1
        invariant targetAttrs == LiveAttnos(rel, attnum - 1)
      {
        if !rel.attrs[attnum - 1].dropped {
          targetAttrs := targetAttrs + [attnum];
        }
        attnum := attnum + 1;
      }
    } else if op.UpdateOp? {
      while attnum <= |rel.attrs|
        invariant 1 <= attnum <= |rel.attrs| + 1
        invariant targetAttrs == UpdatedAttnos(updated, attnum - 1)
      {
        if attnum in updated {
          targetAttrs := targetAttrs + [attnum];
        }
        attnum := attnum + 1;
      }
    }
  }

  method FindKeys(rel: Rel) returns (condAttr: seq<int>)
    ensures condAttr == KeyAttnos(rel, |rel.attrs|)
  {
    condAttr := [];
    var i := 0;
    while i < |rel.attrs|
      invariant 0 <= i <= |rel.attrs|
      invariant condAttr == KeyAttnos(rel, i)
    {
      if rel.attrs[i].key {
        condAttr := condAttr + [i + 1];
      }
      i := i + 1;
    }
  }

  /** Plan a modification of the foreign table. */
  method PlanForeignModify(d: Dialect, cx: DeparseCxt, qChar: string, op: Operation, updated: set<int>,
                           returning: bool) returns (plan: Option<ModifyPlan>)
    requires Quotes(d, cx, qChar)
    ensures plan == ModifyPlanOf(d, cx, op, updated, returning)
    ensures plan.None? <==> returning || !cx.quotable || (op.UpdateOp? && exists u :: u in updated && u <= 0)
    ensures plan.Some? ==> Increasing(plan.value.targetAttrs)
    ensures plan.Some? ==> forall a :: a in plan.value.targetAttrs <==> IsTarget(cx.rel, op, updated, a)
  {
    if op.UpdateOp? && exists u :: u in updated && u <= 0 {
      return None;
    }
    var targetAttrs := FindTargets(cx.rel, op, updated);
    if returning {
      return None;
    }
    var condAttr := FindKeys(cx.rel);
    var buf := new StringInfo();
    var ok: bool;
    match op {
      case InsertOp => ok := DeparseInsertSql(d, cx, qChar, targetAttrs, buf);
      case UpdateOp => ok := DeparseUpdateSql(d, cx, qChar, targetAttrs, condAttr, buf);
      case DeleteOp => ok := DeparseDeleteSql(d, cx, qChar, condAttr, buf);
    }
    if !ok {
      return None;
    }
    ghost var ps := StatementPieces(cx.rel, op, AttrNames(cx.rel, targetAttrs), AttrNames(cx.rel, condAttr));
    assert "" + Render(d, ps) == Render(d, ps);
    plan := Some(ModifyPlan(buf.data, targetAttrs));
    PlannedTargets(d, cx, op, updated, returning, plan.value);
  }

  // ---------- the key columns of the scanned row ----------

  /** A column of the plan below the modification; junk columns carry row identity. */
  datatype PlanColumn = PlanColumn(name: string, junk: bool)

  function IdentityColumns(rel: Rel, localNames: seq<string>, n: nat): seq<PlanColumn>
    requires n <= |rel.attrs| == |localNames|
  {
    if n == 0 then []
    else
      IdentityColumns(rel, localNames, n - 1)
      + if rel.attrs[n - 1].key then [PlanColumn(localNames[n - 1], true)] else []
  }

  /** A junk column for one of the first `n` attributes that is a key. */
  predicate IsKeyColumn(rel: Rel, localNames: seq<string>, n: nat, c: PlanColumn)
    requires n <= |rel.attrs| == |localNames|
  {
    c.junk && exists i :: 0 <= i < n && rel.attrs[i].key && localNames[i] == c.name
  }

  /** The columns asked for are junk columns for exactly the keys. */
  lemma {:induction false} IdentityColumnsAreKeys(rel: Rel, localNames: seq<string>, n: nat, c: PlanColumn)
    requires n <= |rel.attrs| == |localNames|
    ensures c in IdentityColumns(rel, localNames, n) <==> IsKeyColumn(rel, localNames, n, c)
  {
    if n > 0 {
      IdentityColumnsAreKeys(rel, localNames, n - 1, c);
    }
  }

  /** Junk columns for exactly the keys are asked for, and nothing exactly where there are no keys. */
  ghost predicate AsksForKeys(rel: Rel, localNames: seq<string>, junk: Option<seq<PlanColumn>>)
    requires |rel.attrs| == |localNames|
  {
    && (junk.None? <==> forall i :: 0 <= i < |rel.attrs| ==> !rel.attrs[i].key)
    && (junk.Some? ==>
          forall c :: c in junk.value <==> IsKeyColumn(rel, localNames, |rel.attrs|, c))
  }

  lemma NoKeys(rel: Rel)
    ensures KeyAttnos(rel, |rel.attrs|) == [] <==> forall i :: 0 <= i < |rel.attrs| ==> !rel.attrs[i].key
  {
    if KeyAttnos(rel, |rel.attrs|) != [] {
      var a := KeyAttnos(rel, |rel.attrs|)[0];
      assert rel.attrs[a - 1].key;
    }
    forall i | 0 <= i < |rel.attrs|
      ensures i + 1 in KeyAttnos(rel, |rel.attrs|) <==> rel.attrs[i].key
    {
      KeyMembers(rel, |rel.attrs|, i + 1);
    }
  }

  lemma KeysOrNone(rel: Rel, localNames: seq<string>)
    requires |rel.attrs| == |localNames|
    ensures AsksForKeys(rel, localNames, if KeyAttnos(rel, |rel.attrs|) == [] then None
                                         else Some(IdentityColumns(rel, localNames, |rel.attrs|)))
  {
    NoKeys(rel);
    forall c
      ensures c in IdentityColumns(rel, localNames, |rel.attrs|) <==> IsKeyColumn(rel, localNames, |rel.attrs|, c)
    {
      IdentityColumnsAreKeys(rel, localNames, |rel.attrs|, c);
    }
  }

  /** Ask the planner to carry the key columns; None where the table has none. */
  method AddForeignUpdateTargets(rel: Rel, localNames: seq<string>) returns (junk: Option<seq<PlanColumn>>)
    requires |rel.attrs| == |localNames|
    ensures junk == if KeyAttnos(rel, |rel.attrs|) == [] then None
                    else Some(IdentityColumns(rel, localNames, |rel.attrs|))
    ensures AsksForKeys(rel, localNames, junk)
  {
    var columns: seq<PlanColumn> := [];
    var hasKey := false;
    var i := 0;
    while i < |rel.attrs|
      invariant 0 <= i <= |rel.attrs|
      invariant columns == IdentityColumns(rel, localNames, i)
      invariant hasKey <==> KeyAttnos(rel, i) != []
    {
      if rel.attrs[i].key {
        columns := columns + [PlanColumn(localNames[i], true)];
        hasKey := true;
      }
      i := i + 1;
    }
    junk := if hasKey then Some(columns) else None;
    KeysOrNone(rel, localNames);
  }

  /** The position, from 1, of the first junk column of that name; 0 if there is none. */
  function FindJunk(tlist: seq<PlanColumn>, name: string): (r: nat)
    ensures r <= |tlist|
    ensures r > 0 ==> tlist[r - 1] == PlanColumn(name, true)
    ensures r == 0 <==> PlanColumn(name, true) !in tlist
  {
    if tlist == [] then 0
    else if tlist[0] == PlanColumn(name, true) then 1
    else
      var r := FindJunk(tlist[1..], name);
      if r == 0 then 0 else r + 1
  }

  function JunkIndex(tlist: seq<PlanColumn>, localNames: seq<string>): (r: seq<nat>)
    ensures |r| == |localNames| && forall i :: 0 <= i < |r| ==> r[i] == FindJunk(tlist, localNames[i])
  {
    if localNames == [] then [] else [FindJunk(tlist, localNames[0])] + JunkIndex(tlist, localNames[1..])
  }

  lemma {:induction false} IdentityHoldsKeys(rel: Rel, localNames: seq<string>, n: nat, i: nat)
    requires i < n <= |rel.attrs| == |localNames| && rel.attrs[i].key
    ensures PlanColumn(localNames[i], true) in IdentityColumns(rel, localNames, n)
  {
    if i < n - 1 {
      IdentityHoldsKeys(rel, localNames, n - 1, i);
    }
  }

  // ---------- the prepared statement ----------

  /** A prepared statement of the remote server: the parameters bound so far, and those of each
      execution. */
  class PreparedStatement {
    const query: string
    var params: map<nat, Value>
    var executed: seq<map<nat, Value>>

    constructor (query: string)
      ensures this.query == query && params == map[] && executed == []
    {
      this.query := query;
      params, executed := map[], [];
    }

    method SetParameter(position: nat, value: Value)
      modifies this
      ensures params == old(params)[position := value] && executed == old(executed)
    {
      params := params[position := value];
    }

    method ExecuteUpdate()
      modifies this
      ensures executed == old(executed) + [params] && params == old(params)
    {
      executed := executed + [params];
    }

    method ClearParameters()
      modifies this
      ensures params == map[] && executed == old(executed)
    {
      params := map[];
    }
  }

  /** The connection, and every statement prepared on it. */
  class Connection {
    var prepared: seq<string>

    constructor ()
      ensures prepared == []
    {
      prepared := [];
    }

    method Prepare(query: string) returns (p: PreparedStatement)
      modifies this
      ensures fresh(p) && p.query == query && p.params == map[] && p.executed == []
      ensures prepared == old(prepared) + [query]
    {
      p := new PreparedStatement(query);
      prepared := prepared + [query];
    }
  }

  /** The positions 1 to `n`. */
  function Positions(n: nat): (r: set<nat>)
    ensures forall k: nat :: k in r <==> 1 <= k <= n
  {
    if n == 0 then {} else Positions(n - 1) + {n}
  }

  /** The values of a row at positions 1, 2, ... */
  function ParamMap(vs: seq<Value>): map<nat, Value> {
    map k | k in Positions(|vs|) :: At(vs, k)
  }

  /** The value at position `k` of a row, counted from 1. */
  function At(row: seq<Value>, k: int): Value {
    if 1 <= k <= |row| then row[k - 1] else NullV
  }

  function TargetValues(attnos: seq<int>, row: seq<Value>): (r: seq<Value>)
    ensures |r| == |attnos| && forall i :: 0 <= i < |r| ==> r[i] == At(row, attnos[i])
  {
    if attnos == [] then [] else TargetValues(attnos[..|attnos| - 1], row) + [At(row, attnos[|attnos| - 1])]
  }

  /** The values bound for the key columns: of the first `n` attributes, those that are keys and are
      carried by the plan. */
  function JunkValues(rel: Rel, junkIdx: seq<nat>, planSlot: seq<Value>, n: nat): seq<Value>
    requires n <= |rel.attrs| <= |junkIdx|
  {
    if n == 0 then []
    else
      JunkValues(rel, junkIdx, planSlot, n - 1)
      + if junkIdx[n - 1] != 0 && rel.attrs[n - 1].key then [At(planSlot, junkIdx[n - 1])] else []
  }

  /** The new row, and the row of the plan below it. */
  datatype RowPair = RowPair(slot: seq<Value>, planSlot: seq<Value>)

  predicate RowFits(rel: Rel, targetAttrs: seq<int>, junkIdx: seq<nat>, row: RowPair) {
    && |rel.attrs| <= |junkIdx|
    && (forall i :: 0 <= i < |targetAttrs| ==> 1 <= targetAttrs[i] <= |row.slot|)
    && (forall i :: 0 <= i < |junkIdx| ==> junkIdx[i] <= |row.planSlot|)
  }

  /** What one row binds: targets first, then the keys. */
  function RowBindings(rel: Rel, op: Operation, targetAttrs: seq<int>, junkIdx: seq<nat>, row: RowPair): seq<Value>
    requires |rel.attrs| <= |junkIdx|
  {
    match op
    case InsertOp => TargetValues(targetAttrs, row.slot)
    case UpdateOp => TargetValues(targetAttrs, row.slot) + JunkValues(rel, junkIdx, row.planSlot, |rel.attrs|)
    case DeleteOp => JunkValues(rel, junkIdx, row.planSlot, |rel.attrs|)
  }

  /** The state of one modification. */
  class ModifyState {
    const rel: Rel
    const query: string
    const targetAttrs: seq<int>
    const junkIdx: seq<nat>
    const conn: Connection
    var isPrepared: bool
    var pstmt: PreparedStatement?

    constructor (rel: Rel, plan: ModifyPlan, tlist: seq<PlanColumn>, localNames: seq<string>, conn: Connection)
      requires |rel.attrs| == |localNames|
      ensures Valid() && this.rel == rel && query == plan.sql && targetAttrs == plan.targetAttrs
      ensures junkIdx == JunkIndex(tlist, localNames) && this.conn == conn && !isPrepared && Executed() == []
    {
      this.rel, query, targetAttrs, this.conn := rel, plan.sql, plan.targetAttrs, conn;
      junkIdx := JunkIndex(tlist, localNames);
      isPrepared, pstmt := false, null;
    }

    /** Between rows, a prepared statement has no parameter bound. */
    ghost predicate Valid()
      reads this, pstmt
    {
      && (isPrepared ==> pstmt != null && pstmt.query == query && pstmt.params == map[])
      && (!isPrepared ==> pstmt == null)
    }

    /** The parameters of every execution so far. */
    ghost function Executed(): seq<map<nat, Value>>
      reads this, pstmt
    {
      if pstmt == null then [] else pstmt.executed
    }

    method Prepare()
      requires Valid() && !isPrepared
      modifies this, conn
      ensures Valid() && isPrepared && fresh(pstmt) && Executed() == []
      ensures conn.prepared == old(conn.prepared) + [query]
    {
      pstmt := conn.Prepare(query);
      isPrepared := true;
    }

    /** Bind a value; the position counts from 1, `bindnum` from 0. */
    method BindSqlVar(bindnum: nat, value: Value)
      requires isPrepared && pstmt != null
      modifies pstmt
      ensures pstmt.params == old(pstmt.params)[bindnum + 1 := value] && pstmt.executed == old(pstmt.executed)
    {
      pstmt.SetParameter(bindnum + 1, value);
    }

    method BindTargets(slot: seq<Value>) returns (bindnum: nat)
      requires isPrepared && pstmt != null && pstmt.params == map[]
      requires forall i :: 0 <= i < |targetAttrs| ==> 1 <= targetAttrs[i] <= |slot|
      modifies pstmt
      ensures bindnum == |targetAttrs|
      ensures pstmt.params == ParamMap(TargetValues(targetAttrs, slot)) && pstmt.executed == old(pstmt.executed)
    {
      bindnum := 0;
      while bindnum < |targetAttrs|
        invariant 0 <= bindnum <= |targetAttrs|
        invariant pstmt.params == ParamMap(TargetValues(targetAttrs, slot)[..bindnum])
        invariant pstmt.executed == old(pstmt.executed)
      {
        BindSqlVar(bindnum, slot[targetAttrs[bindnum] - 1]);
        ParamMapSnoc(TargetValues(targetAttrs, slot), bindnum);
        bindnum := bindnum + 1;
      }
      assert TargetValues(targetAttrs, slot)[..bindnum] == TargetValues(targetAttrs, slot);
    }

    /** Bind the key column `i`, if the plan carries it. */
    method BindJunkColumn(planSlot: seq<Value>, i: nat, bindnum: nat, ghost bound: seq<Value>) returns (next: nat)
      requires isPrepared && pstmt != null && i < |rel.attrs| <= |junkIdx| && junkIdx[i] <= |planSlot|
      requires bindnum == |bound| + |JunkValues(rel, junkIdx, planSlot, i)|
      requires pstmt.params == ParamMap(bound + JunkValues(rel, junkIdx, planSlot, i))
      modifies pstmt
      ensures next == |bound| + |JunkValues(rel, junkIdx, planSlot, i + 1)|
      ensures pstmt.params == ParamMap(bound + JunkValues(rel, junkIdx, planSlot, i + 1))
      ensures pstmt.executed == old(pstmt.executed)
    {
      next := bindnum;
      if junkIdx[i] != 0 && rel.attrs[i].key {
        BindSqlVar(bindnum, planSlot[junkIdx[i] - 1]);
        ParamMapAppend(bound, JunkValues(rel, junkIdx, planSlot, i), planSlot[junkIdx[i] - 1]);
        next := bindnum + 1;
      }
    }

    /** Bind the key columns from the scanned row, after what is bound already. */
    method BindJunkColumnValue(planSlot: seq<Value>, start: nat, ghost bound: seq<Value>)
      requires isPrepared && pstmt != null && pstmt.params == ParamMap(bound) && start == |bound|
      requires |rel.attrs| <= |junkIdx| && forall i :: 0 <= i < |junkIdx| ==> junkIdx[i] <= |planSlot|
      modifies pstmt
      ensures pstmt.params == ParamMap(bound + JunkValues(rel, junkIdx, planSlot, |rel.attrs|))
      ensures pstmt.executed == old(pstmt.executed)
    {
      var bindnum := start;
      assert bound + JunkValues(rel, junkIdx, planSlot, 0) == bound;
      var i := 0;
      while i < |rel.attrs|
        invariant 0 <= i <= |rel.attrs|
        invariant bindnum == |bound| + |JunkValues(rel, junkIdx, planSlot, i)|
        invariant pstmt.params == ParamMap(bound + JunkValues(rel, junkIdx, planSlot, i))
        invariant pstmt.executed == old(pstmt.executed)
      {
        bindnum := BindJunkColumn(planSlot, i, bindnum, bound);
        i := i + 1;
      }
    }

    /** Execute, then clear the parameters for the next row. */
    method ExecPrepared()
      requires isPrepared && pstmt != null && pstmt.query == query
      modifies pstmt
      ensures Valid() && Executed() == old(Executed()) + [old(pstmt.params)]
    {
      pstmt.ExecuteUpdate();
      pstmt.ClearParameters();
    }

    method PrepareIfNeeded()
      requires Valid()
      modifies this, conn
      ensures Valid() && isPrepared && Executed() == old(Executed())
      ensures conn.prepared == old(conn.prepared) + if old(isPrepared) then [] else [query]
      ensures if old(isPrepared) then pstmt == old(pstmt) else fresh(pstmt)
    {
      if !isPrepared {
        Prepare();
      }
    }

    /** Insert one row. */
    method ExecForeignInsert(row: RowPair)
      requires Valid() && RowFits(rel, targetAttrs, junkIdx, row)
      modifies this, pstmt, conn
      ensures Valid() && isPrepared
      ensures Executed() == old(Executed()) + [ParamMap(RowBindings(rel, InsertOp, targetAttrs, junkIdx, row))]
      ensures conn.prepared == old(conn.prepared) + if old(isPrepared) then [] else [query]
      ensures if old(isPrepared) then pstmt == old(pstmt) else fresh(pstmt)
    {
      PrepareIfNeeded();
      var bindnum := BindTargets(row.slot);
      ExecPrepared();
    }

    /** Update one row. */
    method ExecForeignUpdate(row: RowPair)
      requires Valid() && RowFits(rel, targetAttrs, junkIdx, row)
      modifies this, pstmt, conn
      ensures Valid() && isPrepared
      ensures Executed() == old(Executed()) + [ParamMap(RowBindings(rel, UpdateOp, targetAttrs, junkIdx, row))]
      ensures conn.prepared == old(conn.prepared) + if old(isPrepared) then [] else [query]
      ensures if old(isPrepared) then pstmt == old(pstmt) else fresh(pstmt)
    {
      PrepareIfNeeded();
      var bindnum := BindTargets(row.slot);
      BindJunkColumnValue(row.planSlot, bindnum, TargetValues(targetAttrs, row.slot));
      ExecPrepared();
    }

    /** Delete one row. */
    method ExecForeignDelete(row: RowPair)
      requires Valid() && RowFits(rel, targetAttrs, junkIdx, row)
      modifies this, pstmt, conn
      ensures Valid() && isPrepared
      ensures Executed() == old(Executed()) + [ParamMap(RowBindings(rel, DeleteOp, targetAttrs, junkIdx, row))]
      ensures conn.prepared == old(conn.prepared) + if old(isPrepared) then [] else [query]
      ensures if old(isPrepared) then pstmt == old(pstmt) else fresh(pstmt)
    {
      PrepareIfNeeded();
      assert pstmt.params == ParamMap([]);
      BindJunkColumnValue(row.planSlot, 0, []);
      assert [] + JunkValues(rel, junkIdx, row.planSlot, |rel.attrs|) ==
             JunkValues(rel, junkIdx, row.planSlot, |rel.attrs|);
      ExecPrepared();
    }

    method ExecForeign(op: Operation, row: RowPair)
      requires Valid() && RowFits(rel, targetAttrs, junkIdx, row)
      modifies this, pstmt, conn
      ensures Valid() && isPrepared
      ensures Executed() == old(Executed()) + [ParamMap(RowBindings(rel, op, targetAttrs, junkIdx, row))]
      ensures conn.prepared == old(conn.prepared) + if old(isPrepared) then [] else [query]
      ensures if old(isPrepared) then pstmt == old(pstmt) else fresh(pstmt)
    {
      match op {
        case InsertOp => ExecForeignInsert(row);
        case UpdateOp => ExecForeignUpdate(row);
        case DeleteOp => ExecForeignDelete(row);
      }
    }

    /** The executions so far are those of the first `i` rows, on a statement prepared at the first. */
    ghost predicate Ran(op: Operation, rows: seq<RowPair>, i: nat, before: seq<string>)
      requires i <= |rows| && |rel.attrs| <= |junkIdx|
      reads this, pstmt, conn
    {
      && Valid() && isPrepared == (i > 0)
      && Executed() == RunParams(rel, op, targetAttrs, junkIdx, rows[..i])
      && conn.prepared == before + if i == 0 then [] else [query]
    }

    method RunOne(op: Operation, rows: seq<RowPair>, i: nat, ghost before: seq<string>)
      requires i < |rows| && RowFits(rel, targetAttrs, junkIdx, rows[i])
      requires Ran(op, rows, i, before)
      modifies this, pstmt, conn
      ensures Ran(op, rows, i + 1, before)
      ensures if old(isPrepared) then pstmt == old(pstmt) else fresh(pstmt)
    {
      ExecForeign(op, rows[i]);
      RunParamsSnoc(rel, op, targetAttrs, junkIdx, rows, i);
    }

    /** A whole modification: every row in turn. The statement is prepared once, if there is a row at
        all, and the executions are exactly the rows' values, each at positions 1 to n. */
    method Run(op: Operation, rows: seq<RowPair>)
      requires Valid() && !isPrepared && |rel.attrs| <= |junkIdx|
      requires forall i :: 0 <= i < |rows| ==> RowFits(rel, targetAttrs, junkIdx, rows[i])
      modifies this, conn
      ensures Valid()
      ensures Executed() == RunParams(rel, op, targetAttrs, junkIdx, rows)
      ensures conn.prepared == old(conn.prepared) + if rows == [] then [] else [query]
    {
      var i := 0;
      while i < |rows|
        invariant 0 <= i <= |rows|
        invariant Ran(op, rows, i, old(conn.prepared))
        invariant pstmt == null || fresh(pstmt)
      {
        RunOne(op, rows, i, old(conn.prepared));
        i := i + 1;
      }
      assert rows[..i] == rows;
    }
  }

  lemma ParamMapSnoc(vs: seq<Value>, i: nat)
    requires i < |vs|
    ensures ParamMap(vs[..i])[i + 1 := vs[i]] == ParamMap(vs[..i + 1])
  {
  }

  lemma ParamMapAppend(bound: seq<Value>, more: seq<Value>, v: Value)
    ensures ParamMap(bound + more)[|bound| + |more| + 1 := v] == ParamMap(bound + (more + [v]))
  {
    assert bound + (more + [v]) == (bound + more) + [v];
  }

  function RunParams(rel: Rel, op: Operation, targetAttrs: seq<int>, junkIdx: seq<nat>,
                     rows: seq<RowPair>): (r: seq<map<nat, Value>>)
    requires |rel.attrs| <= |junkIdx|
    ensures |r| == |rows|
    ensures forall i :: 0 <= i < |rows| ==> r[i] == ParamMap(RowBindings(rel, op, targetAttrs, junkIdx, rows[i]))
  {
    if rows == [] then []
    else
      var k := |rows| - 1;
      RunParams(rel, op, targetAttrs, junkIdx, rows[..k])
      + [ParamMap(RowBindings(rel, op, targetAttrs, junkIdx, rows[k]))]
  }

  lemma RunParamsSnoc(rel: Rel, op: Operation, targetAttrs: seq<int>, junkIdx: seq<nat>, rows: seq<RowPair>, i: nat)
    requires i < |rows| && |rel.attrs| <= |junkIdx|
    ensures RunParams(rel, op, targetAttrs, junkIdx, rows[..i + 1]) ==
            RunParams(rel, op, targetAttrs, junkIdx, rows[..i])
            + [ParamMap(RowBindings(rel, op, targetAttrs, junkIdx, rows[i]))]
  {
    assert rows[..i + 1][..i] == rows[..i];
  }

  // ---------- placeholders and bindings agree ----------

  /** The junk column of attribute `i` holds its value in the row being modified. */
  predicate CarriesKey(localNames: seq<string>, tlist: seq<PlanColumn>, planSlot: seq<Value>, oldRow: seq<Value>,
                       i: nat)
    requires i < |localNames| == |oldRow| && |planSlot| == |tlist|
  {
    var p := FindJunk(tlist, localNames[i]);
    p > 0 && At(planSlot, p) == oldRow[i]
  }

  /** The plan below carries, in its junk columns, the key values of the row being modified. */
  predicate CarriesKeys(rel: Rel, localNames: seq<string>, tlist: seq<PlanColumn>, planSlot: seq<Value>,
                        oldRow: seq<Value>)
  {
    && |rel.attrs| == |localNames| == |oldRow| && |planSlot| == |tlist|
    && forall i :: 0 <= i < |rel.attrs| && rel.attrs[i].key ==> CarriesKey(localNames, tlist, planSlot, oldRow, i)
  }

  /** It does so as soon as it has the columns the wrapper asked for, and fills each column of that
      name with the old value. */
  lemma RequestedKeysAreCarried(rel: Rel, localNames: seq<string>, tlist: seq<PlanColumn>, planSlot: seq<Value>,
                                oldRow: seq<Value>)
    requires |rel.attrs| == |localNames| == |oldRow| && |planSlot| == |tlist|
    requires forall c :: c in IdentityColumns(rel, localNames, |rel.attrs|) ==> c in tlist
    requires forall i, p :: (0 <= i < |rel.attrs| && rel.attrs[i].key && 0 <= p < |tlist|
                             && tlist[p] == PlanColumn(localNames[i], true)) ==> planSlot[p] == oldRow[i]
    ensures CarriesKeys(rel, localNames, tlist, planSlot, oldRow)
  {
    forall i | 0 <= i < |rel.attrs| && rel.attrs[i].key
      ensures CarriesKey(localNames, tlist, planSlot, oldRow, i)
    {
      IdentityHoldsKeys(rel, localNames, |rel.attrs|, i);
      var p := FindJunk(tlist, localNames[i]);
      assert tlist[p - 1] == PlanColumn(localNames[i], true);
    }
  }

  /** Where a key column of a row is found below. */
  predicate KeyAt(rel: Rel, junkIdx: seq<nat>, planSlot: seq<Value>, oldRow: seq<Value>, i: nat)
    requires i < |rel.attrs| <= |junkIdx| && |rel.attrs| == |oldRow|
  {
    rel.attrs[i].key ==> junkIdx[i] > 0 && At(planSlot, junkIdx[i]) == oldRow[i]
  }

  /** The first `n` attributes, where they are keys, are found below. */
  predicate KeysAt(rel: Rel, junkIdx: seq<nat>, planSlot: seq<Value>, oldRow: seq<Value>, n: nat) {
    && n <= |rel.attrs| <= |junkIdx| && |rel.attrs| == |oldRow|
    && (n > 0 ==> KeysAt(rel, junkIdx, planSlot, oldRow, n - 1) && KeyAt(rel, junkIdx, planSlot, oldRow, n - 1))
  }

  lemma {:induction false} CarriedKeysAt(rel: Rel, localNames: seq<string>, tlist: seq<PlanColumn>,
                                         planSlot: seq<Value>, oldRow: seq<Value>, n: nat)
    requires CarriesKeys(rel, localNames, tlist, planSlot, oldRow) && n <= |rel.attrs|
    ensures KeysAt(rel, JunkIndex(tlist, localNames), planSlot, oldRow, n)
  {
    if n > 0 {
      CarriedKeysAt(rel, localNames, tlist, planSlot, oldRow, n - 1);
      assert rel.attrs[n - 1].key ==> CarriesKey(localNames, tlist, planSlot, oldRow, n - 1);
    }
  }

  lemma KeyAttnosStep(rel: Rel, n: nat)
    requires 0 < n <= |rel.attrs|
    ensures KeyAttnos(rel, n) == KeyAttnos(rel, n - 1) + if rel.attrs[n - 1].key then [n] else []
  {
  }

  lemma JunkValuesStep(rel: Rel, junkIdx: seq<nat>, planSlot: seq<Value>, oldRow: seq<Value>, n: nat)
    requires 0 < n <= |rel.attrs| <= |junkIdx| && |rel.attrs| == |oldRow|
    requires KeyAt(rel, junkIdx, planSlot, oldRow, n - 1)
    requires JunkValues(rel, junkIdx, planSlot, n - 1) == TargetValues(KeyAttnos(rel, n - 1), oldRow)
    ensures JunkValues(rel, junkIdx, planSlot, n) == TargetValues(KeyAttnos(rel, n), oldRow)
  {
    KeyAttnosStep(rel, n);
    var before := JunkValues(rel, junkIdx, planSlot, n - 1);
    if rel.attrs[n - 1].key {
      TargetValuesSnoc(KeyAttnos(rel, n - 1), n, oldRow);
      assert JunkValues(rel, junkIdx, planSlot, n) == before + [At(planSlot, junkIdx[n - 1])];
    } else {
      assert JunkValues(rel, junkIdx, planSlot, n) == before + [];
    }
  }

  /** The key values bound are those of the row being modified, in attribute order. */
  lemma {:induction false} JunkValuesAreKeys(rel: Rel, junkIdx: seq<nat>, planSlot: seq<Value>, oldRow: seq<Value>,
                                             n: nat)
    requires KeysAt(rel, junkIdx, planSlot, oldRow, n)
    ensures JunkValues(rel, junkIdx, planSlot, n) == TargetValues(KeyAttnos(rel, n), oldRow)
  {
    if n > 0 {
      JunkValuesAreKeys(rel, junkIdx, planSlot, oldRow, n - 1);
      JunkValuesStep(rel, junkIdx, planSlot, oldRow, n);
    }
  }

  lemma TargetValuesSnoc(attnos: seq<int>, i: int, row: seq<Value>)
    ensures TargetValues(attnos + [i], row) == TargetValues(attnos, row) + [At(row, i)]
  {
    assert (attnos + [i])[..|attnos|] == attnos;
  }

  /** Each placeholder of the list is bound to the value of its own column. */
  predicate Aligned(bounds: seq<Bound>, rel: Rel, attnos: seq<int>, row: seq<Value>, params: map<nat, Value>) {
    && |bounds| == |attnos|
    && forall i :: 0 <= i < |bounds| ==> BoundTo(bounds[i], AttrName(rel, attnos[i]), At(row, attnos[i]), params)
  }

  predicate BoundTo(b: Bound, column: string, value: Value, params: map<nat, Value>) {
    b.column == column && b.position in params && params[b.position] == value
  }

  lemma OneAligned(rel: Rel, attnos: seq<int>, row: seq<Value>, n: nat, vs: seq<Value>, i: nat)
    requires i < |attnos| && n + i < |vs| && vs[n + i] == At(row, attnos[i])
    ensures BoundTo(Numbered(AttrNames(rel, attnos), n)[i], AttrName(rel, attnos[i]), At(row, attnos[i]), ParamMap(vs))
  {
    assert Numbered(AttrNames(rel, attnos), n)[i] == Bound(AttrName(rel, attnos[i]), n + i + 1);
    assert n + i + 1 in Positions(|vs|);
  }

  /** Numbered from `n` on, columns are bound to whatever values stand from index `n` on. */
  lemma NumberedAligned(rel: Rel, attnos: seq<int>, row: seq<Value>, n: nat, vs: seq<Value>)
    requires n + |attnos| <= |vs| && vs[n..n + |attnos|] == TargetValues(attnos, row)
    ensures Aligned(Numbered(AttrNames(rel, attnos), n), rel, attnos, row, ParamMap(vs))
  {
    var bounds := Numbered(AttrNames(rel, attnos), n);
    forall i | 0 <= i < |attnos|
      ensures BoundTo(bounds[i], AttrName(rel, attnos[i]), At(row, attnos[i]), ParamMap(vs))
    {
      assert vs[n + i] == vs[n..n + |attnos|][i];
      OneAligned(rel, attnos, row, n, vs, i);
    }
  }

  lemma AllPositions(vs: seq<Value>)
    ensures ParamMap(vs).Keys == Positions(|vs|)
  {
  }

  lemma PlanIs(d: Dialect, cx: DeparseCxt, op: Operation, updated: set<int>, plan: ModifyPlan)
    requires ModifyPlanOf(d, cx, op, updated, false) == Some(plan)
    ensures plan.targetAttrs == TargetAttnos(cx.rel, op, updated) && ValidAttnos(cx.rel, plan.targetAttrs)
    ensures plan.sql == Render(d, StatementPieces(cx.rel, op, AttrNames(cx.rel, plan.targetAttrs),
                                                  AttrNames(cx.rel, KeyAttnos(cx.rel, |cx.rel.attrs|))))
  {
  }

  lemma FirstRunAligned(rel: Rel, targets: seq<int>, slot: seq<Value>, rest: seq<Value>)
    ensures Aligned(Numbered(AttrNames(rel, targets), 0), rel, targets, slot,
                    ParamMap(TargetValues(targets, slot) + rest))
  {
    NumberedAligned(rel, targets, slot, 0, TargetValues(targets, slot) + rest);
  }

  lemma SecondRunAligned(rel: Rel, first: seq<Value>, keys: seq<int>, oldRow: seq<Value>)
    ensures Aligned(Numbered(AttrNames(rel, keys), |first|), rel, keys, oldRow,
                    ParamMap(first + TargetValues(keys, oldRow)))
  {
    NumberedAligned(rel, keys, oldRow, |first|, first + TargetValues(keys, oldRow));
  }

  /** What an UPDATE or a DELETE binds, in terms of the new and the old row. */
  lemma BoundValues(rel: Rel, op: Operation, targets: seq<int>, junkIdx: seq<nat>, row: RowPair, oldRow: seq<Value>)
    requires KeysAt(rel, junkIdx, row.planSlot, oldRow, |rel.attrs|) && !op.InsertOp?
    ensures RowBindings(rel, op, targets, junkIdx, row) ==
            (if op.UpdateOp? then TargetValues(targets, row.slot) else [])
            + TargetValues(KeyAttnos(rel, |rel.attrs|), oldRow)
  {
    JunkValuesAreKeys(rel, junkIdx, row.planSlot, oldRow, |rel.attrs|);
    var olds := TargetValues(KeyAttnos(rel, |rel.attrs|), oldRow);
    assert [] + olds == olds;
  }

  /** The bindings of an INSERT: targets. */
  lemma InsertBindings(rel: Rel, targets: seq<int>, junkIdx: seq<nat>, row: RowPair)
    requires |rel.attrs| <= |junkIdx|
    ensures
      var params := ParamMap(RowBindings(rel, InsertOp, targets, junkIdx, row));
      && Aligned(Numbered(AttrNames(rel, targets), 0), rel, targets, row.slot, params)
      && params.Keys == Positions(|targets|)
  {
    var news := TargetValues(targets, row.slot);
    NumberedAligned(rel, targets, row.slot, 0, news);
    AllPositions(news);
  }

  /** What is bound for an UPDATE. */
  lemma UpdateBindings(rel: Rel, targets: seq<int>, junkIdx: seq<nat>, row: RowPair, oldRow: seq<Value>, keys: seq<int>)
    requires KeysAt(rel, junkIdx, row.planSlot, oldRow, |rel.attrs|) && keys == KeyAttnos(rel, |rel.attrs|)
    ensures Aligned(Numbered(AttrNames(rel, targets), 0), rel, targets, row.slot,
                    ParamMap(RowBindings(rel, UpdateOp, targets, junkIdx, row)))
    ensures Aligned(Numbered(AttrNames(rel, keys), |targets|), rel, keys, oldRow,
                    ParamMap(RowBindings(rel, UpdateOp, targets, junkIdx, row)))
    ensures |RowBindings(rel, UpdateOp, targets, junkIdx, row)| == |targets| + |keys|
  {
    BoundValues(rel, UpdateOp, targets, junkIdx, row, oldRow);
    FirstRunAligned(rel, targets, row.slot, TargetValues(keys, oldRow));
    SecondRunAligned(rel, TargetValues(targets, row.slot), keys, oldRow);
  }

  /** What the server reads and what is bound agree for every row of an UPDATE: the k-th `?` gets the
      new value of the k-th target column, then the old values of the key columns, and nothing else
      is bound. */
  lemma UpdatePlaceholdersAgree(d: Dialect, cx: DeparseCxt, updated: set<int>, plan: ModifyPlan,
                                localNames: seq<string>, tlist: seq<PlanColumn>, row: RowPair, oldRow: seq<Value>)
    returns (dml: Dml, params: map<nat, Value>)
    requires ValidDialect(d) && d.placeholders && plan.targetAttrs != []
    requires ModifyPlanOf(d, cx, UpdateOp, updated, false) == Some(plan)
    requires CarriesKeys(cx.rel, localNames, tlist, row.planSlot, oldRow)
    ensures ReadDml(d, plan.sql) == Some(dml)
    ensures params == ParamMap(RowBindings(cx.rel, UpdateOp, plan.targetAttrs, JunkIndex(tlist, localNames), row))
    ensures dml.UpdateRows? && dml.schema == SchemaOf(cx.rel) && dml.table == cx.rel.name
    ensures Aligned(dml.sets, cx.rel, plan.targetAttrs, row.slot, params)
    ensures Aligned(dml.keys, cx.rel, KeyAttnos(cx.rel, |cx.rel.attrs|), oldRow, params)
    ensures params.Keys == Positions(|dml.sets| + |dml.keys|)
  {
    CarriedKeysAt(cx.rel, localNames, tlist, row.planSlot, oldRow, |cx.rel.attrs|);
    dml := UpdateReadBack(d, cx, updated, plan);
    params := UpdateParams(cx.rel, plan.targetAttrs, JunkIndex(tlist, localNames), row, oldRow, dml);
  }

  lemma UpdateParams(rel: Rel, targets: seq<int>, junkIdx: seq<nat>, row: RowPair, oldRow: seq<Value>, dml: Dml)
    returns (params: map<nat, Value>)
    requires KeysAt(rel, junkIdx, row.planSlot, oldRow, |rel.attrs|) && dml.UpdateRows?
    requires dml.sets == Numbered(AttrNames(rel, targets), 0)
    requires dml.keys == Numbered(AttrNames(rel, KeyAttnos(rel, |rel.attrs|)), |targets|)
    ensures params == ParamMap(RowBindings(rel, UpdateOp, targets, junkIdx, row))
    ensures Aligned(dml.sets, rel, targets, row.slot, params)
    ensures Aligned(dml.keys, rel, KeyAttnos(rel, |rel.attrs|), oldRow, params)
    ensures params.Keys == Positions(|dml.sets| + |dml.keys|)
  {
    var vs := RowBindings(rel, UpdateOp, targets, junkIdx, row);
    params := ParamMap(vs);
    UpdateBindings(rel, targets, junkIdx, row, oldRow, KeyAttnos(rel, |rel.attrs|));
    AllPositions(vs);
  }

  /** What the server reads for an UPDATE. */
  lemma UpdateReadBack(d: Dialect, cx: DeparseCxt, updated: set<int>, plan: ModifyPlan) returns (dml: Dml)
    requires ValidDialect(d) && d.placeholders && plan.targetAttrs != []
    requires ModifyPlanOf(d, cx, UpdateOp, updated, false) == Some(plan)
    ensures ReadDml(d, plan.sql) == Some(dml)
    ensures dml == UpdateRows(SchemaOf(cx.rel), cx.rel.name, Numbered(AttrNames(cx.rel, plan.targetAttrs), 0),
                              Numbered(AttrNames(cx.rel, KeyAttnos(cx.rel, |cx.rel.attrs|)), |plan.targetAttrs|))
  {
    var targets, keys := AttrNames(cx.rel, plan.targetAttrs), AttrNames(cx.rel, KeyAttnos(cx.rel, |cx.rel.attrs|));
    PlanIs(d, cx, UpdateOp, updated, plan);
    UpdateRoundTrip(d, cx.rel, targets, keys);
    dml := UpdateRows(SchemaOf(cx.rel), cx.rel.name, Numbered(targets, 0), Numbered(keys, |targets|));
  }

  /** The same for DELETE: only keys. */
  lemma DeletePlaceholdersAgree(d: Dialect, cx: DeparseCxt, plan: ModifyPlan, localNames: seq<string>,
                                tlist: seq<PlanColumn>, row: RowPair, oldRow: seq<Value>)
    returns (dml: Dml, params: map<nat, Value>)
    requires ValidDialect(d) && d.placeholders
    requires ModifyPlanOf(d, cx, DeleteOp, {}, false) == Some(plan)
    requires CarriesKeys(cx.rel, localNames, tlist, row.planSlot, oldRow)
    ensures ReadDml(d, plan.sql) == Some(dml)
    ensures params == ParamMap(RowBindings(cx.rel, DeleteOp, plan.targetAttrs, JunkIndex(tlist, localNames), row))
    ensures dml.DeleteRows? && dml.schema == SchemaOf(cx.rel) && dml.table == cx.rel.name
    ensures Aligned(dml.keys, cx.rel, KeyAttnos(cx.rel, |cx.rel.attrs|), oldRow, params)
    ensures params.Keys == Positions(|dml.keys|)
  {
    var keys := AttrNames(cx.rel, KeyAttnos(cx.rel, |cx.rel.attrs|));
    PlanIs(d, cx, DeleteOp, {}, plan);
    DeleteRoundTrip(d, cx.rel, keys);
    dml := DeleteRows(SchemaOf(cx.rel), cx.rel.name, Numbered(keys, 0));
    params := ParamMap(RowBindings(cx.rel, DeleteOp, plan.targetAttrs, JunkIndex(tlist, localNames), row));
    CarriedKeysAt(cx.rel, localNames, tlist, row.planSlot, oldRow, |cx.rel.attrs|);
    BoundValues(cx.rel, DeleteOp, plan.targetAttrs, JunkIndex(tlist, localNames), row, oldRow);
    SecondRunAligned(cx.rel, [], KeyAttnos(cx.rel, |cx.rel.attrs|), oldRow);
    AllPositions(RowBindings(cx.rel, DeleteOp, plan.targetAttrs, JunkIndex(tlist, localNames), row));
  }

  /** The same for INSERT: every live column, and nothing else. */
  lemma InsertPlaceholdersAgree(d: Dialect, cx: DeparseCxt, plan: ModifyPlan, junkIdx: seq<nat>, row: RowPair)
    returns (dml: Dml, params: map<nat, Value>)
    requires ValidDialect(d) && d.placeholders && |cx.rel.attrs| <= |junkIdx|
    requires ModifyPlanOf(d, cx, InsertOp, {}, false) == Some(plan)
    ensures ReadDml(d, plan.sql) == Some(dml)
    ensures params == ParamMap(RowBindings(cx.rel, InsertOp, plan.targetAttrs, junkIdx, row))
    ensures dml.InsertRow? && dml.schema == SchemaOf(cx.rel) && dml.table == cx.rel.name
    ensures Aligned(dml.values, cx.rel, LiveAttnos(cx.rel, |cx.rel.attrs|), row.slot, params)
    ensures params.Keys == Positions(|dml.values|)
  {
    var targets := AttrNames(cx.rel, plan.targetAttrs);
    PlanIs(d, cx, InsertOp, {}, plan);
    InsertRoundTrip(d, cx.rel, targets);
    dml := InsertRow(SchemaOf(cx.rel), cx.rel.name, Numbered(targets, 0));
    params := ParamMap(RowBindings(cx.rel, InsertOp, plan.targetAttrs, junkIdx, row));
    InsertBindings(cx.rel, plan.targetAttrs, junkIdx, row);
  }
}
