/** How a remote server answers a SELECT statement: filter by the condition, compute the list for
    each row or, when it holds aggregates, once for all rows, then skip and limit.
 */
module RemoteServer {
  import opened Nodes
  import opened Reader
  import opened Semantics
  import opened SelectRead
  import opened Shippable

  /** The tables of the server, by schema and name. */
  type Database = (Option<string>, string) -> seq<RemoteRow>

  /** What the server computes: scalar primitives, aggregates over the argument lists of all rows,
      and the number of rows a LIMIT or OFFSET value stands for. */
  datatype Server = Server(scalar: Remote, aggr: (string, seq<seq<Value>>) -> Value, rowCount: Value -> nat)

  predicate Keeps(R: Remote, cond: Option<Sql>, row: RemoteRow) {
    cond.None? || SqlEval(R, row, cond.value) == TRUE
  }

  function Filtered(R: Remote, cond: Option<Sql>, rows: seq<RemoteRow>): seq<RemoteRow> {
    if rows == [] then []
    else (if Keeps(R, cond, rows[0]) then [rows[0]] else []) + Filtered(R, cond, rows[1..])
  }

  function RowValues(R: Remote, items: seq<Sql>, rows: seq<RemoteRow>): (r: seq<seq<Value>>)
    ensures |r| == |rows| && forall i :: 0 <= i < |rows| ==> r[i] == SqlEvalAll(R, rows[i], items)
  {
    if rows == [] then [] else [SqlEvalAll(R, rows[0], items)] + RowValues(R, items, rows[1..])
  }

  // ---------- aggregates ----------

  predicate IsAggregateHead(h: SqlHead) {
    match h
    case HCall(schema, name) => schema.None? && name in SUPPORTED_AGGREGATES
    case HStar(_) => true
    case _ => false
  }

  function AggregateName(h: SqlHead): string
    requires IsAggregateHead(h)
  {
    match h
    case HCall(_, name) => name
    case HStar(name) => name
  }

  predicate HasAggregate(s: Sql) {
    match s
    case App(h, args) => IsAggregateHead(h) || exists i :: 0 <= i < |args| && HasAggregate(args[i])
    case _ => false
  }

  /** The value of a list entry over all rows. */
  function AggregateValue(S: Server, rows: seq<RemoteRow>, s: Sql): Value {
    match s
    case App(h, args) =>
      if IsAggregateHead(h) then S.aggr(AggregateName(h), RowValues(S.scalar, args, rows))
      else SqlHeadValue(S.scalar, h, AggregateValues(S, rows, args))
    case _ => LiteralValue(S.scalar, s)
  }

  function AggregateValues(S: Server, rows: seq<RemoteRow>, ss: seq<Sql>): (r: seq<Value>)
    ensures |r| == |ss| && forall i :: 0 <= i < |ss| ==> r[i] == AggregateValue(S, rows, ss[i])
  {
    if ss == [] then [] else [AggregateValue(S, rows, ss[0])] + AggregateValues(S, rows, ss[1..])
  }

  // ---------- LIMIT and OFFSET ----------

  /** Skip `offset` rows, then keep `count`; a null bound is no bound. */
  function Limited<T>(rowCount: Value -> nat, count: Option<Value>, offset: Option<Value>, rows: seq<T>): seq<T> {
    var skip := if offset.None? || offset.value == NullV then 0 else rowCount(offset.value);
    var rest := if skip <= |rows| then rows[skip..] else [];
    if count.None? || count.value == NullV || |rest| <= rowCount(count.value) then rest
    else rest[..rowCount(count.value)]
  }

  function Bound(R: Remote, s: Option<Sql>): Option<Value> {
    match s
    case None => None
    case Some(e) => Some(LiteralValue(R, e))
  }

  /** The rows a statement returns. */
  function Answer(S: Server, db: Database, q: Query): seq<seq<Value>> {
    var rows := Filtered(S.scalar, q.cond, db(q.schema, q.table));
    var answer :=
      if exists i :: 0 <= i < |q.items| && HasAggregate(q.items[i]) then [AggregateValues(S, rows, q.items)]
      else RowValues(S.scalar, q.items, rows);
    Limited(S.rowCount, Bound(S.scalar, q.count), Bound(S.scalar, q.offset), answer)
  }
}
