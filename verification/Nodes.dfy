/** Expression trees as the planner hands them to the wrapper.

    A node is a variable, a constant, a parameter, or an inner node made of a `Head` (the node
    tag with its scalar fields) and its argument list. A head carries the catalog row of the
    function or operator it names, already looked up.
 */
module Nodes {

  type Oid = nat

  const INVALID_OID: Oid := 0
  const BOOLOID: Oid := 16
  const INT8OID: Oid := 20
  const INT2OID: Oid := 21
  const INT4OID: Oid := 23
  const OIDOID: Oid := 26
  const DEFAULT_COLLATION_OID: Oid := 100
  const FLOAT4OID: Oid := 700
  const FLOAT8OID: Oid := 701
  const INT4ARRAYOID: Oid := 1007
  const OIDARRAYOID: Oid := 1028
  const BITOID: Oid := 1560
  const VARBITOID: Oid := 1562
  const NUMERICOID: Oid := 1700
  const FIRST_GENBKI_OBJECT_ID: Oid := 10000

  const CTID_ATTRIBUTE_NUMBER := -1

  datatype Option<+T> = None | Some(value: T)

  datatype BoolOp = AndOp | OrOp | NotOp

  datatype CoercionForm = ExplicitCall | ExplicitCast | ImplicitCast

  /** A constant's value: null, a scalar given by the text of its output function, or a
      one-dimensional array of such texts. */
  datatype Datum = NullDatum | Scalar(text: string) | ArrayDatum(elems: seq<Option<string>>)

  datatype Head =
    | Func(funcid: Oid, schema: Option<string>, name: string, format: CoercionForm,
           isMutable: bool, inputcollid: Oid, collid: Oid, restype: Oid)
    | OpCall(opno: Oid, inCatalog: bool, opname: string,
             isMutable: bool, inputcollid: Oid, collid: Oid, restype: Oid)
    | DistinctFrom(opno: Oid, isMutable: bool, inputcollid: Oid, collid: Oid, restype: Oid)
    | ScalarArrayOp(opno: Oid, opname: string, useOr: bool, isMutable: bool, inputcollid: Oid)
    | Relabel(collid: Oid, restype: Oid)
    | Bool(op: BoolOp)
    | NullTest(isNull: bool)
    | ArrayOf(collid: Oid, restype: Oid)
      // args[0] is the container; then nUpper upper bounds; the lower bounds come last
    | Subscript(nUpper: nat, assigns: bool, collid: Oid, restype: Oid)
    | Agg(aggfnoid: Oid, name: string, star: bool, simple: bool, distinct: bool,
          ordered: bool, filtered: bool, inputcollid: Oid, collid: Oid, restype: Oid)
    | OtherNode

  datatype Expr =
    | Var(varno: nat, varattno: int, varlevelsup: nat, vartype: Oid, varcollid: Oid)
    | Const(consttype: Oid, constcollid: Oid, datum: Datum)
    | Param
    | Node(head: Head, args: seq<Expr>)

  /** The operand counts PostgreSQL guarantees for each node. */
  predicate Arity(h: Head, n: nat) {
    match h
    case Func(_, _, _, format, _, _, _, _) => format.ImplicitCast? ==> n >= 1
    case OpCall(_, _, _, _, _, _, _) => n == 1 || n == 2
    case DistinctFrom(_, _, _, _, _) => n == 2
    case ScalarArrayOp(_, _, _, _, _) => n == 2
    case Relabel(_, _) => n == 1
    case Bool(op) => if op.NotOp? then n == 1 else n >= 2
    case NullTest(_) => n == 1
    case ArrayOf(_, _) => true
    case Subscript(nUpper, _, _, _) => nUpper >= 1 && (n == 1 + nUpper || n == 1 + 2 * nUpper)
    case Agg(_, _, star, _, _, _, _, _, _, _) => star ==> n == 0
    case OtherNode => true
  }

  predicate WellFormed(e: Expr) {
    match e
    case Node(h, args) => Arity(h, |args|) && forall i :: 0 <= i < |args| ==> WellFormed(args[i])
    case _ => true
  }

  /** A column of the foreign table; `name` is the remote name, that is the `column_name`
      option if there is one and the attribute name otherwise. */
  datatype Attr = Attr(name: string, dropped: bool, key: bool)

  /** The foreign table: its range table index, columns, and remote schema and table name. */
  datatype Rel = Rel(relid: nat, attrs: seq<Attr>, schema: Option<string>, name: string)

  /** The system columns, numbered -1 downwards. */
  const SYSTEM_COLUMNS: seq<string> := ["ctid", "xmin", "cmin", "xmax", "cmax", "tableoid"]

  /** The remote name of attribute `attno`, or None where the catalog lookup raises. */
  function ColumnName(rel: Rel, attno: int): Option<string> {
    if 1 <= attno <= |rel.attrs| then Some(rel.attrs[attno - 1].name)
    else if -|SYSTEM_COLUMNS| <= attno < 0 then Some(SYSTEM_COLUMNS[-attno - 1])
    else None
  }
}
