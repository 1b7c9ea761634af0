/** What expressions and SQL trees mean, in three-valued logic, and what it takes for the two servers
    to agree on an expression's primitives.
 */
module Semantics {
  import opened Nodes
  import opened Reader
  import opened ArrayPieces
  import opened Phrases
  import opened ArrayRead
  import opened RoundTrip

  datatype Value = NullV | BoolV(b: bool) | Opaque(id: int) | ArrayV(elems: seq<Value>) | RowV(cols: seq<Value>)

  const TRUE := BoolV(true)
  const FALSE := BoolV(false)

  // ---------- three-valued logic ----------

  function Not3(v: Value): Value {
    if v == TRUE then FALSE else if v == FALSE then TRUE else NullV
  }

  function And3(vs: seq<Value>): Value {
    if exists i :: 0 <= i < |vs| && vs[i] == FALSE then FALSE
    else if forall i :: 0 <= i < |vs| ==> vs[i] == TRUE then TRUE
    else NullV
  }

  function Or3(vs: seq<Value>): Value {
    if exists i :: 0 <= i < |vs| && vs[i] == TRUE then TRUE
    else if forall i :: 0 <= i < |vs| ==> vs[i] == FALSE then FALSE
    else NullV
  }

  function NotAll(vs: seq<Value>): (r: seq<Value>)
    ensures |r| == |vs| && forall i :: 0 <= i < |vs| ==> r[i] == Not3(vs[i])
  {
    if vs == [] then [] else [Not3(vs[0])] + NotAll(vs[1..])
  }

  lemma DeMorgan(vs: seq<Value>)
    ensures Not3(Or3(vs)) == And3(NotAll(vs))
  {
    var ns := NotAll(vs);
    assert forall i :: 0 <= i < |vs| ==> ns[i] == Not3(vs[i]);
    if exists i :: 0 <= i < |vs| && vs[i] == TRUE {
      var i :| 0 <= i < |vs| && vs[i] == TRUE;
      assert ns[i] == FALSE;
    } else {
      assert forall i :: 0 <= i < |vs| ==> (ns[i] == TRUE <==> vs[i] == FALSE);
      assert forall i :: 0 <= i < |vs| ==> ns[i] != FALSE;
    }
  }

  function Distinct3(a: Value, b: Value, equal: Value): Value {
    if a == NullV && b == NullV then FALSE
    else if a == NullV || b == NullV then TRUE
    else Not3(equal)
  }

  // ---------- local evaluation ----------

  /** How the local server computes: constants from their type and text, functions and operators
      by their ids, subscripts from the number of upper bounds and the operands, the element type of
      an array type, and variables of other relations. */
  datatype Local = Local(con: (Oid, string) -> Value, fn: (Oid, seq<Value>) -> Value,
                         op: (Oid, seq<Value>) -> Value, sub: (nat, seq<Value>) -> Value,
                         elementType: Oid -> Oid, outer: (nat, int, nat) -> Value)

  function ElementValue(L: Local, arraytype: Oid, e: Option<string>): Value {
    match e
    case None => NullV
    case Some(x) => L.con(L.elementType(arraytype), x)
  }

  function ElementValues(L: Local, arraytype: Oid, es: seq<Option<string>>): (r: seq<Value>)
    ensures |r| == |es| && forall i :: 0 <= i < |es| ==> r[i] == ElementValue(L, arraytype, es[i])
  {
    if es == [] then [] else [ElementValue(L, arraytype, es[0])] + ElementValues(L, arraytype, es[1..])
  }

  /** `left op e` for each element. */
  function Compared(L: Local, opno: Oid, left: Value, es: seq<Value>): (r: seq<Value>)
    ensures |r| == |es| && forall i :: 0 <= i < |es| ==> r[i] == L.op(opno, [left, es[i]])
  {
    if es == [] then [] else [L.op(opno, [left, es[0]])] + Compared(L, opno, left, es[1..])
  }

  /** `left op ANY/ALL (right)`. */
  function ScalarArray(L: Local, opno: Oid, useOr: bool, left: Value, right: Value): Value {
    match right
    case ArrayV(es) => if useOr then Or3(Compared(L, opno, left, es)) else And3(Compared(L, opno, left, es))
    case _ => NullV
  }

  function ConstValue(L: Local, t: Oid, v: Datum): Value {
    match v
    case NullDatum => NullV
    case Scalar(text) => L.con(t, text)
    case ArrayDatum(es) => ArrayV(ElementValues(L, t, es))
  }

  function HeadValue(L: Local, h: Head, vs: seq<Value>): Value {
    match h
    case Func(funcid, _, _, _, _, _, _, _) => L.fn(funcid, vs)
    case OpCall(opno, _, _, _, _, _, _) => L.op(opno, vs)
    case DistinctFrom(opno, _, _, _, _) =>
      if |vs| != 2 then NullV else Distinct3(vs[0], vs[1], L.op(opno, vs))
    case ScalarArrayOp(opno, _, useOr, _, _) =>
      if |vs| != 2 then NullV else ScalarArray(L, opno, useOr, vs[0], vs[1])
    case Relabel(_, _) => if vs == [] then NullV else vs[0]
    case Bool(op) =>
      (match op
       case AndOp => And3(vs)
       case OrOp => Or3(vs)
       case NotOp => if vs == [] then NullV else Not3(vs[0]))
    case NullTest(isNull) => if vs == [] then NullV else BoolV((vs[0] == NullV) == isNull)
    case ArrayOf(_, _) => ArrayV(vs)
    case Subscript(nUpper, _, _, _) => L.sub(nUpper, vs)
    case _ => NullV
  }

  /** The value of `e` on a row of the foreign table; `row[i]` is attribute i + 1. */
  function Eval(L: Local, relid: nat, row: seq<Value>, e: Expr): Value {
    match e
    case Var(varno, varattno, varlevelsup, _, _) =>
      if varno != relid || varlevelsup != 0 then L.outer(varno, varattno, varlevelsup)
      else if varattno == 0 then RowV(row)
      else if 1 <= varattno <= |row| then row[varattno - 1]
      else NullV
    case Const(t, _, v) => ConstValue(L, t, v)
    case Param => NullV
    case Node(h, args) => HeadValue(L, h, EvalAll(L, relid, row, args))
  }

  function EvalAll(L: Local, relid: nat, row: seq<Value>, es: seq<Expr>): (r: seq<Value>)
    ensures |r| == |es| && forall i :: 0 <= i < |es| ==> r[i] == Eval(L, relid, row, es[i])
  {
    if es == [] then [] else [Eval(L, relid, row, es[0])] + EvalAll(L, relid, row, es[1..])
  }

  // ---------- remote evaluation ----------

  /** How the remote server computes: literals from their text, functions and operators by name,
      subscripts from which of them are slices and the operands. */
  datatype Remote = Remote(num: string -> Value, str: string -> Value, bits: string -> Value,
                           call: (Option<string>, string, seq<Value>) -> Value,
                           unary: (string, Value) -> Value, binary: (string, Value, Value) -> Value,
                           sub: (seq<bool>, seq<Value>) -> Value)

  type RemoteRow = string -> Value

  /** `left = e` for each element. */
  function Equals(R: Remote, left: Value, es: seq<Value>): (r: seq<Value>)
    ensures |r| == |es| && forall i :: 0 <= i < |es| ==> r[i] == R.binary("=", left, es[i])
  {
    if es == [] then [] else [R.binary("=", left, es[0])] + Equals(R, left, es[1..])
  }

  /** The predicates follow section 8 of ISO/IEC 9075-2: IN is `= ANY` over the list, NOT IN its
      negation. */
  function SqlHeadValue(R: Remote, h: SqlHead, vs: seq<Value>): Value {
    match h
    case HCall(schema, name) => R.call(schema, name, vs)
    case HStar(name) => R.call(None, name, [])
    case HUnary(o) => if |vs| != 1 then NullV else R.unary(o, vs[0])
    case HBinary(o) => if |vs| != 2 then NullV else R.binary(o, vs[0], vs[1])
    case HDistinct => if |vs| != 2 then NullV else Distinct3(vs[0], vs[1], R.binary("=", vs[0], vs[1]))
    case HAnd => And3(vs)
    case HOr => Or3(vs)
    case HNot => if |vs| != 1 then NullV else Not3(vs[0])
    case HIsNull => if |vs| != 1 then NullV else BoolV(vs[0] == NullV)
    case HIsNotNull => if |vs| != 1 then NullV else BoolV(vs[0] != NullV)
    case HArray => ArrayV(vs)
    case HIn(negated) =>
      if vs == [] then NullV
      else
        var any := Or3(Equals(R, vs[0], vs[1..]));
        if negated then Not3(any) else any
    case HSubscript(slices) => R.sub(slices, vs)
  }

  function SqlEval(R: Remote, row: RemoteRow, s: Sql): Value {
    match s
    case Col(n) => row(n)
    case NumLit(t) => R.num(t)
    case StrLit(v) => R.str(v)
    case BitLit(b) => R.bits(b)
    case BoolLit(b) => BoolV(b)
    case NullLit => NullV
    case App(h, args) => SqlHeadValue(R, h, SqlEvalAll(R, row, args))
  }

  function SqlEvalAll(R: Remote, row: RemoteRow, ss: seq<Sql>): (r: seq<Value>)
    ensures |r| == |ss| && forall i :: 0 <= i < |ss| ==> r[i] == SqlEval(R, row, ss[i])
  {
    if ss == [] then [] else [SqlEval(R, row, ss[0])] + SqlEvalAll(R, row, ss[1..])
  }

  // ---------- agreement on primitives ----------

  /** The row on which every column is null. */
  function NullRow(): RemoteRow {
    (n: string) => NullV
  }

  /** No row is needed to evaluate a literal. */
  function LiteralValue(R: Remote, s: Sql): Value {
    SqlEval(R, NullRow(), s)
  }

  predicate IsTruth(v: Value) { v == NullV || v.BoolV? }

  /** The servers agree on the comparison operator, whose result is a truth value; `<>` is the
      negation of `=`. */
  ghost predicate ComparisonAgrees(L: Local, R: Remote, opno: Oid, opname: string, useOr: bool) {
    forall a: Value, b: Value ::
      && IsTruth(L.op(opno, [a, b]))
      && L.op(opno, [a, b]) ==
           if UsesIn(opname, useOr) && opname == "<>" then Not3(R.binary("=", a, b))
           else R.binary(opname, a, b)
  }

  /** The operands of a subscript in the order of the text. */
  function TextOperands(nUpper: nat, vs: seq<Value>): seq<Value>
    requires vs != []
  {
    [vs[0]] + TextOrder(vs, nUpper, 0)
  }

  /** The two servers agree on what a node's own function, operator or constant computes. An
      implicit cast, which is not printed, must not change the value. */
  ghost predicate HeadAgrees(L: Local, R: Remote, h: Head, n: nat) {
    match h
    case Func(funcid, schema, name, format, _, _, _, _) =>
      if format.ImplicitCast? then forall vs: seq<Value> :: |vs| > 0 ==> L.fn(funcid, vs) == vs[0]
      else forall vs: seq<Value> :: L.fn(funcid, vs) == R.call(schema, name, vs)
    case OpCall(opno, _, opname, _, _, _, _) =>
      if n == 1 then forall a: Value :: L.op(opno, [a]) == R.unary(opname, a)
      else forall a: Value, b: Value :: L.op(opno, [a, b]) == R.binary(BinaryName(opname), a, b)
    case DistinctFrom(opno, _, _, _, _) =>
      forall a: Value, b: Value :: L.op(opno, [a, b]) == R.binary("=", a, b)
    case ScalarArrayOp(opno, opname, useOr, _, _) => ComparisonAgrees(L, R, opno, opname, useOr)
    case Subscript(nUpper, _, _, _) =>
      forall vs: seq<Value> :: |vs| == n > 0 ==>
        L.sub(nUpper, vs) == R.sub(Slices(n, nUpper, 0), TextOperands(nUpper, vs))
    case Agg(_, _, _, _, _, _, _, _, _, _) => false
    case _ => true
  }

  /** The servers agree on the elements of an array constant, each of which is printed by itself. */
  ghost predicate ElementsAgree(L: Local, R: Remote, h: Head, args: seq<Expr>) {
    h.ScalarArrayOp? && |args| == 2 ==>
      match args[1]
      case Const(t, _, ArrayDatum(es)) =>
        forall i :: 0 <= i < |es| ==>
          ElementValue(L, t, es[i]) == LiteralValue(R, ElementSql(QuotesElements(t), es[i]))
      case _ => true
  }

  /** A comparison with a null array does not compare. */
  ghost predicate NodeAgrees(L: Local, R: Remote, h: Head, args: seq<Expr>) {
    && (HeadAgrees(L, R, h, |args|) || (h.ScalarArrayOp? && Children(Node(h, args)) == []))
    && ElementsAgree(L, R, h, args)
  }

  ghost predicate Agrees(L: Local, R: Remote, e: Expr) {
    match e
    case Const(t, _, v) => ConstValue(L, t, v) == LiteralValue(R, EraseConst(t, v))
    case Node(h, args) =>
      NodeAgrees(L, R, h, args) && forall i :: 0 <= i < |Children(e)| ==> Agrees(L, R, Children(e)[i])
    case _ => true
  }

  /** Variables of the scanned table are live columns. */
  predicate LiveColumns(rel: Rel, e: Expr) {
    match e
    case Var(varno, varattno, varlevelsup, _, _) =>
      varno == rel.relid && varlevelsup == 0 ==>
        1 <= varattno <= |rel.attrs| && !rel.attrs[varattno - 1].dropped
    case Node(_, args) => forall i :: 0 <= i < |args| ==> LiveColumns(rel, args[i])
    case _ => true
  }

  /** The local row a remote row stands for: each live attribute holds the remote column of its
      remote name, each dropped one is null. */
  function LocalRow(rel: Rel, row: RemoteRow): (r: seq<Value>)
    ensures |r| == |rel.attrs|
  {
    seq(|rel.attrs|, i requires 0 <= i < |rel.attrs| =>
      if rel.attrs[i].dropped then NullV else row(rel.attrs[i].name))
  }
}
