/** IN lists, NOT IN lists and OR/AND chains have the three-valued result of the array comparison
    they replace, whatever evaluates the trees; and chains that merge into an AND or OR around them
    do not change its result.
 */
module ArrayCompare {
  import opened Nodes
  import opened Reader
  import opened ArrayPieces
  import opened Phrases
  import opened ArrayRead
  import opened RoundTrip
  import opened Semantics

  // ---------- evaluators ----------

  /** The values of trees under an evaluator. */
  function Values(ev: Sql -> Value, ss: seq<Sql>): (r: seq<Value>)
    ensures |r| == |ss| && forall i :: 0 <= i < |ss| ==> r[i] == ev(ss[i])
  {
    if ss == [] then [] else [ev(ss[0])] + Values(ev, ss[1..])
  }

  predicate IsCallHead(h: SqlHead) { h.HCall? || h.HStar? }

  /** The evaluator computes literals, and all heads but calls from the values of their arguments. */
  ghost predicate Computes(R: Remote, ev: Sql -> Value) {
    && (forall s: Sql :: !s.Col? && !s.App? ==> ev(s) == LiteralValue(R, s))
    && (forall h: SqlHead, args: seq<Sql> :: !IsCallHead(h) ==>
        ev(App(h, args)) == SqlHeadValue(R, h, Values(ev, args)))
  }

  lemma ComputedHead(R: Remote, ev: Sql -> Value, h: SqlHead, args: seq<Sql>)
    requires Computes(R, ev) && !IsCallHead(h)
    ensures ev(App(h, args)) == SqlHeadValue(R, h, Values(ev, args))
  {
  }

  /** Evaluation on one row. */
  function OnRow(R: Remote, row: RemoteRow): Sql -> Value {
    s => SqlEval(R, row, s)
  }

  lemma OnRowComputes(R: Remote, row: RemoteRow)
    ensures Computes(R, OnRow(R, row))
    ensures forall ss: seq<Sql> :: Values(OnRow(R, row), ss) == SqlEvalAll(R, row, ss)
  {
    forall ss: seq<Sql>
      ensures Values(OnRow(R, row), ss) == SqlEvalAll(R, row, ss)
    {
    }
  }

  // ---------- comparisons ----------

  /** The rewriting is exact in three-valued logic: an IN list, a NOT IN list or a chain over the
      element values has the result of the array comparison, nulls on either side included. */
  lemma RewritingPreservesTruth(L: Local, R: Remote, ev: Sql -> Value, opno: Oid, opname: string, useOr: bool,
                                left: Sql, elements: seq<Sql>)
    requires Computes(R, ev) && elements != [] && ComparisonAgrees(L, R, opno, opname, useOr)
    ensures ev(ArrayTree(opname, useOr, left, elements)) ==
            ScalarArray(L, opno, useOr, ev(left), ArrayV(Values(ev, elements)))
  {
    if UsesIn(opname, useOr) {
      InPreservesTruth(L, R, ev, opno, opname, useOr, left, elements);
    } else {
      ChainPreservesTruth(L, R, ev, opno, opname, useOr, left, elements);
    }
  }

  lemma ChainPreservesTruth(L: Local, R: Remote, ev: Sql -> Value, opno: Oid, opname: string, useOr: bool,
                            left: Sql, elements: seq<Sql>)
    requires Computes(R, ev) && ComparisonAgrees(L, R, opno, opname, useOr) && !UsesIn(opname, useOr) && elements != []
    ensures ev(ArrayTree(opname, useOr, left, elements)) ==
            ScalarArray(L, opno, useOr, ev(left), ArrayV(Values(ev, elements)))
  {
    var trees, vs := ComparisonSqls(left, opname, elements), Values(ev, elements);
    ChainValues(L, R, ev, opno, opname, useOr, left, elements);
    if |elements| == 1 {
      OneOfCompared(L, opno, useOr, ev(left), vs);
    } else {
      assert ArrayTree(opname, useOr, left, elements) == App(BoolHead(ChainOp(useOr)), trees);
      ChainHeadValue(R, ev, useOr, trees);
    }
  }

  lemma OneOfCompared(L: Local, opno: Oid, useOr: bool, l: Value, vs: seq<Value>)
    requires |vs| == 1 && IsTruth(Compared(L, opno, l, vs)[0])
    ensures ScalarArray(L, opno, useOr, l, ArrayV(vs)) == Compared(L, opno, l, vs)[0]
  {
    var compared := Compared(L, opno, l, vs);
    assert compared == [compared[0]];
    SingletonTruth(compared[0]);
  }

  lemma ChainHeadValue(R: Remote, ev: Sql -> Value, useOr: bool, trees: seq<Sql>)
    requires Computes(R, ev)
    ensures ev(App(BoolHead(ChainOp(useOr)), trees)) ==
            if useOr then Or3(Values(ev, trees)) else And3(Values(ev, trees))
  {
    ComputedHead(R, ev, BoolHead(ChainOp(useOr)), trees);
  }

  /** The comparisons of a chain have the values of the array comparison's own comparisons. */
  lemma ChainValues(L: Local, R: Remote, ev: Sql -> Value, opno: Oid, opname: string, useOr: bool,
                    left: Sql, elements: seq<Sql>)
    requires Computes(R, ev) && ComparisonAgrees(L, R, opno, opname, useOr) && !UsesIn(opname, useOr)
    ensures Values(ev, ComparisonSqls(left, opname, elements)) ==
            Compared(L, opno, ev(left), Values(ev, elements))
    ensures forall i :: 0 <= i < |elements| ==>
              IsTruth(Compared(L, opno, ev(left), Values(ev, elements))[i])
    ensures elements != [] ==>
              ev(ComparisonSql(left, opname, elements[0])) == Compared(L, opno, ev(left), Values(ev, elements))[0]
  {
    var trees := ComparisonSqls(left, opname, elements);
    forall i | 0 <= i < |elements|
      ensures ev(trees[i]) == L.op(opno, [ev(left), ev(elements[i])]) && IsTruth(ev(trees[i]))
    {
      OneComparison(L, R, ev, opno, opname, useOr, left, elements[i]);
    }
  }

  /** One comparison is a truth value, and the server's own. */
  lemma OneComparison(L: Local, R: Remote, ev: Sql -> Value, opno: Oid, opname: string, useOr: bool,
                      left: Sql, element: Sql)
    requires Computes(R, ev) && ComparisonAgrees(L, R, opno, opname, useOr) && !UsesIn(opname, useOr)
    ensures
      var v := L.op(opno, [ev(left), ev(element)]);
      IsTruth(v) && ev(ComparisonSql(left, opname, element)) == v
  {
    ComputedHead(R, ev, HBinary(opname), [left, element]);
    assert Values(ev, [left, element]) == [ev(left), ev(element)];
    assert IsTruth(L.op(opno, [ev(left), ev(element)]));
  }

  lemma SingletonTruth(v: Value)
    requires IsTruth(v)
    ensures Or3([v]) == v && And3([v]) == v
  {
    assert [v][0] == v;
  }

  /** What the comparisons with the elements are, in terms of the server's `=`. */
  lemma ComparedByEquals(L: Local, R: Remote, opno: Oid, opname: string, useOr: bool, l: Value, vs: seq<Value>)
    requires ComparisonAgrees(L, R, opno, opname, useOr) && UsesIn(opname, useOr)
    ensures Compared(L, opno, l, vs) == if opname == "<>" then NotAll(Equals(R, l, vs)) else Equals(R, l, vs)
  {
    var compared, equals := Compared(L, opno, l, vs), Equals(R, l, vs);
    forall i | 0 <= i < |vs|
      ensures compared[i] == if opname == "<>" then Not3(equals[i]) else equals[i]
    {
      assert IsTruth(L.op(opno, [l, vs[i]]));
    }
  }

  lemma InPreservesTruth(L: Local, R: Remote, ev: Sql -> Value, opno: Oid, opname: string, useOr: bool,
                         left: Sql, elements: seq<Sql>)
    requires Computes(R, ev) && ComparisonAgrees(L, R, opno, opname, useOr) && UsesIn(opname, useOr)
    ensures ev(App(HIn(opname == "<>"), [left] + elements)) ==
            ScalarArray(L, opno, useOr, ev(left), ArrayV(Values(ev, elements)))
  {
    var l, vs := ev(left), Values(ev, elements);
    InValue(R, ev, opname == "<>", left, elements);
    ComparedByEquals(L, R, opno, opname, useOr, l, vs);
    DeMorgan(Equals(R, l, vs));
    assert UsesIn(opname, useOr) ==> (opname == "<>") == !useOr;
  }

  /** What an IN list computes. */
  lemma InValue(R: Remote, ev: Sql -> Value, negated: bool, left: Sql, elements: seq<Sql>)
    requires Computes(R, ev)
    ensures
      var any := Or3(Equals(R, ev(left), Values(ev, elements)));
      ev(App(HIn(negated), [left] + elements)) == if negated then Not3(any) else any
  {
    ComputedHead(R, ev, HIn(negated), [left] + elements);
    ValuesCons(ev, left, elements);
    InHeadValue(R, negated, ev(left), Values(ev, elements));
  }

  lemma ValuesCons(ev: Sql -> Value, s: Sql, ss: seq<Sql>)
    ensures Values(ev, [s] + ss) == [ev(s)] + Values(ev, ss)
  {
    assert ([s] + ss)[0] == s && ([s] + ss)[1..] == ss;
  }

  lemma InHeadValue(R: Remote, negated: bool, l: Value, vs: seq<Value>)
    ensures SqlHeadValue(R, HIn(negated), [l] + vs) ==
            if negated then Not3(Or3(Equals(R, l, vs))) else Or3(Equals(R, l, vs))
  {
    var all := [l] + vs;
    SameEquals(R, all[0], all[1..], l, vs);
    InHeadIs(R, negated, all);
  }

  lemma InHeadIs(R: Remote, negated: bool, all: seq<Value>)
    requires all != []
    ensures
      var any := Or3(Equals(R, all[0], all[1..]));
      SqlHeadValue(R, HIn(negated), all) == if negated then Not3(any) else any
  {
  }

  lemma SameEquals(R: Remote, k: Value, ks: seq<Value>, l: Value, ls: seq<Value>)
    requires k == l && ks == ls
    ensures Equals(R, k, ks) == Equals(R, l, ls)
  {
  }

  /** The elements of an array constant do not depend on the row. */
  lemma ElementIsLiteral(R: Remote, ev: Sql -> Value, isstr: bool, e: Option<string>)
    requires Computes(R, ev)
    ensures ev(ElementSql(isstr, e)) == LiteralValue(R, ElementSql(isstr, e))
  {
    var s := ElementSql(isstr, e);
    if s.App? {
      SignedLiteral(R, ev, s.head, s.args[0]);
    }
  }

  lemma SignedLiteral(R: Remote, ev: Sql -> Value, h: SqlHead, digits: Sql)
    requires Computes(R, ev) && h.HUnary? && digits.NumLit?
    ensures ev(App(h, [digits])) == LiteralValue(R, App(h, [digits]))
  {
    ComputedHead(R, ev, h, [digits]);
    assert Values(ev, [digits]) == [R.num(digits.text)];
    assert SqlEvalAll(R, NullRow(), [digits]) == [R.num(digits.text)];
  }

  // ---------- merged chains ----------

  function Bool3(op: BoolOp, vs: seq<Value>): Value {
    if op.AndOp? then And3(vs) else Or3(vs)
  }

  /** Parts of an AND or OR may be combined first. */
  lemma Bool3Append(op: BoolOp, a: seq<Value>, b: seq<Value>)
    ensures Bool3(op, a + b) == Bool3(op, [Bool3(op, a), Bool3(op, b)])
  {
    var ab, pair := a + b, [Bool3(op, a), Bool3(op, b)];
    assert forall i :: 0 <= i < |a| ==> ab[i] == a[i];
    assert forall i :: 0 <= i < |b| ==> ab[|a| + i] == b[i];
    assert pair[0] == Bool3(op, a) && pair[1] == Bool3(op, b);
    var x := if op.AndOp? then FALSE else TRUE;
    if exists i :: 0 <= i < |ab| && ab[i] == x {
      var i :| 0 <= i < |ab| && ab[i] == x;
      assert if i < |a| then pair[0] == x else b[i - |a|] == x && pair[1] == x;
    }
  }

  lemma Bool3Itself(op: BoolOp, vs: seq<Value>)
    ensures Bool3(op, [Bool3(op, vs)]) == Bool3(op, vs)
  {
    SingletonTruth(Bool3(op, vs));
  }

  /** A chain erases to its connective. */
  lemma {:induction false} ChainErases(rel: Rel, e: Expr)
    requires FormOf(e).ChainForm?
    ensures Erase(rel, e).App? && Erase(rel, e).head == BoolHead(FormOf(e).op) && !FormOf(e).op.NotOp?
  {
    if Invisible(e.head) {
      ChainErases(rel, e.args[0]);
    }
  }

  lemma SplicedValue(R: Remote, ev: Sql -> Value, rel: Rel, op: BoolOp, e: Expr)
    requires Computes(R, ev) && !op.NotOp?
    ensures Bool3(op, Values(ev, Splice(op, FormOf(e), Erase(rel, e)))) == Bool3(op, [ev(Erase(rel, e))])
  {
    if FormOf(e) == ChainForm(op) {
      ChainErases(rel, e);
      ComputedHead(R, ev, BoolHead(op), Erase(rel, e).args);
      Bool3Itself(op, Values(ev, Erase(rel, e).args));
    } else {
      assert Values(ev, [Erase(rel, e)]) == [ev(Erase(rel, e))];
    }
  }

  lemma ValuesAppend(ev: Sql -> Value, a: seq<Sql>, b: seq<Sql>)
    ensures Values(ev, a + b) == Values(ev, a) + Values(ev, b)
  {
  }

  /** Chains that merge into the AND or OR around them keep its value. */
  lemma {:induction false} MergingPreservesTruth(R: Remote, ev: Sql -> Value, rel: Rel, op: BoolOp, es: seq<Expr>)
    requires Computes(R, ev) && !op.NotOp?
    ensures Bool3(op, Values(ev, EraseArguments(rel, op, es))) == Bool3(op, Values(ev, EraseAll(rel, es)))
  {
    if es != [] {
      var t := Erase(rel, es[0]);
      var first, rest := Splice(op, FormOf(es[0]), t), EraseArguments(rel, op, es[1..]);
      MergingPreservesTruth(R, ev, rel, op, es[1..]);
      SplicedValue(R, ev, rel, op, es[0]);
      ValuesAppend(ev, first, rest);
      ValuesCons(ev, t, EraseAll(rel, es[1..]));
      Bool3Append(op, Values(ev, first), Values(ev, rest));
      Bool3Append(op, [ev(t)], Values(ev, EraseAll(rel, es[1..])));
    }
  }
}
