/** Shipping preserves meaning: what the server reads has the value of the expression it was printed
    from, when the two servers agree on the expression's primitives.
 */
module Preservation {
  import opened Nodes
  import opened Lexical
  import opened Reader
  import opened ArrayPieces
  import opened Deparse
  import opened Phrases
  import opened RoundTrip
  import opened Semantics
  import opened ArrayCompare

  lemma ConstIsLiteral(R: Remote, ev: Sql -> Value, t: Oid, v: Datum)
    requires Computes(R, ev)
    ensures ev(EraseConst(t, v)) == LiteralValue(R, EraseConst(t, v))
  {
    var s := EraseConst(t, v);
    if s.App? {
      SignedLiteral(R, ev, s.head, s.args[0]);
    }
  }

  // ---------- one node ----------

  /** The printed form of a head computes what the head computes. */
  lemma OwnHeadPreserved(L: Local, R: Remote, h: Head, vs: seq<Value>)
    requires Arity(h, |vs|) && HeadAgrees(L, R, h, |vs|)
    requires !Invisible(h) && !h.ScalarArrayOp? && !h.Subscript? && !h.OtherNode?
    ensures SqlHeadValue(R, OwnHead(h, |vs|), vs) == HeadValue(L, h, vs)
  {
    if |vs| == 1 {
      assert vs == [vs[0]];
    } else if |vs| == 2 {
      assert vs == [vs[0], vs[1]];
    }
  }

  /** The head `Erase` gives a node that is printed as itself. */
  function OwnHead(h: Head, n: nat): SqlHead {
    match h
    case Func(_, schema, name, _, _, _, _, _) => HCall(schema, name)
    case OpCall(_, _, opname, _, _, _, _) => if n == 1 then HUnary(opname) else HBinary(BinaryName(opname))
    case DistinctFrom(_, _, _, _, _) => HDistinct
    case Bool(op) => BoolHead(op)
    case NullTest(isNull) => if isNull then HIsNull else HIsNotNull
    case _ => HArray
  }

  /** A node that is printed as itself erases to its own head over its erased arguments. */
  lemma EraseKeepsHead(rel: Rel, h: Head, args: seq<Expr>)
    requires Arity(h, |args|) && !h.Agg? && !h.Bool? && !h.ScalarArrayOp? && !h.Subscript? && !h.OtherNode?
    requires !Invisible(h)
    ensures Erase(rel, Node(h, args)) == App(OwnHead(h, |args|), EraseAll(rel, args))
  {
  }

  /** The values of a node's arguments, as the local server and an evaluator of their trees give them. */
  ghost predicate SameValues(ev: Sql -> Value, rel: Rel, args: seq<Expr>, vs: seq<Value>) {
    |args| == |vs| && forall i :: 0 <= i < |args| ==> ev(Erase(rel, args[i])) == vs[i]
  }

  /** A function call computes alike. */
  ghost predicate CallsFit(R: Remote, ev: Sql -> Value, rel: Rel, h: Head, args: seq<Expr>) {
    h.Func? && !h.format.ImplicitCast? ==>
      ev(App(HCall(h.schema, h.name), EraseAll(rel, args))) ==
        SqlHeadValue(R, HCall(h.schema, h.name), Values(ev, EraseAll(rel, args)))
  }

  /** One node other than an array comparison: if its arguments keep their values, so does it. */
  lemma NodePreserved(L: Local, R: Remote, ev: Sql -> Value, d: Dialect, cx: DeparseCxt, h: Head, args: seq<Expr>,
                      vs: seq<Value>)
    requires Computes(R, ev) && CallsFit(R, ev, cx.rel, h, args)
    requires LegibleNode(d, cx, Node(h, args)) && HeadAgrees(L, R, h, |args|) && !h.Agg? && !h.ScalarArrayOp?
    requires SameValues(ev, cx.rel, args, vs)
    ensures ev(Erase(cx.rel, Node(h, args))) == HeadValue(L, h, vs)
  {
    assert Values(ev, EraseAll(cx.rel, args)) == vs;
    if Invisible(h) {
      assert Erase(cx.rel, Node(h, args)) == Erase(cx.rel, args[0]);
    } else if h.Subscript? {
      SubscriptPreserved(L, R, ev, cx.rel, h, args, vs);
    } else if h.Bool? {
      BoolPreserved(L, R, ev, cx.rel, h, args, vs);
    } else {
      EraseKeepsHead(cx.rel, h, args);
      OwnHeadPreserved(L, R, h, vs);
      if !h.Func? {
        ComputedHead(R, ev, OwnHead(h, |args|), EraseAll(cx.rel, args));
      }
    }
  }

  lemma NotArguments(rel: Rel, args: seq<Expr>)
    requires |args| == 1
    ensures EraseArguments(rel, NotOp, args) == EraseAll(rel, args)
  {
    OneArgument(rel, NotOp, args);
    if FormOf(args[0]).ChainForm? {
      ChainErases(rel, args[0]);
    }
  }

  lemma BoolPreserved(L: Local, R: Remote, ev: Sql -> Value, rel: Rel, h: Head, args: seq<Expr>, vs: seq<Value>)
    requires Computes(R, ev) && h.Bool? && Arity(h, |args|) && Values(ev, EraseAll(rel, args)) == vs
    ensures ev(Erase(rel, Node(h, args))) == HeadValue(L, h, vs)
  {
    var op := h.op;
    var all := EraseArguments(rel, op, args);
    ComputedHead(R, ev, BoolHead(op), all);
    if op.NotOp? {
      NotArguments(rel, args);
    } else {
      MergingPreservesTruth(R, ev, rel, op, args);
      BoolHeadValue(L, R, h, vs);
    }
    BoolHeadValue(L, R, h, Values(ev, all));
  }

  lemma BoolHeadValue(L: Local, R: Remote, h: Head, vs: seq<Value>)
    requires h.Bool? && (h.op.NotOp? ==> |vs| == 1)
    ensures SqlHeadValue(R, BoolHead(h.op), vs) == HeadValue(L, h, vs)
    ensures !h.op.NotOp? ==> HeadValue(L, h, vs) == Bool3(h.op, vs)
  {
  }

  lemma {:induction false} ValuesInTextOrder(ev: Sql -> Value, ss: seq<Sql>, nUpper: nat, i: nat)
    ensures Values(ev, TextOrder(ss, nUpper, i)) == TextOrder(Values(ev, ss), nUpper, i)
    decreases nUpper - i
  {
    if i < nUpper && |ss| >= 1 + nUpper {
      var low := if 1 + nUpper + i < |ss| then [ss[1 + nUpper + i]] else [];
      ValuesInTextOrder(ev, ss, nUpper, i + 1);
      ValuesOfBound(ev, low, ss[1 + i], TextOrder(ss, nUpper, i + 1));
      if low != [] {
        assert Values(ev, low) == [ev(low[0])];
      }
    }
  }

  lemma ValuesOfBound(ev: Sql -> Value, low: seq<Sql>, upper: Sql, more: seq<Sql>)
    ensures Values(ev, low + ([upper] + more)) == Values(ev, low) + ([ev(upper)] + Values(ev, more))
  {
    ValuesAppend(ev, low, [upper] + more);
    ValuesCons(ev, upper, more);
  }

  lemma SubscriptPreserved(L: Local, R: Remote, ev: Sql -> Value, rel: Rel, h: Head, args: seq<Expr>, vs: seq<Value>)
    requires Computes(R, ev) && h.Subscript? && Arity(h, |args|) && HeadAgrees(L, R, h, |args|)
    requires Values(ev, EraseAll(rel, args)) == vs
    ensures ev(Erase(rel, Node(h, args))) == HeadValue(L, h, vs)
  {
    var all, slices := EraseAll(rel, args), Slices(|args|, h.nUpper, 0);
    var bounds := TextOrder(all, h.nUpper, 0);
    SubscriptErases(rel, h, args);
    SubscriptComputed(R, ev, slices, all[0], bounds);
    ValuesInTextOrder(ev, all, h.nUpper, 0);
    assert |vs| == |args|;
  }

  lemma SubscriptErases(rel: Rel, h: Head, args: seq<Expr>)
    requires h.Subscript? && Arity(h, |args|)
    ensures
      var all := EraseAll(rel, args);
      Erase(rel, Node(h, args)) ==
        App(HSubscript(Slices(|args|, h.nUpper, 0)), [all[0]] + TextOrder(all, h.nUpper, 0))
  {
    var all := EraseAll(rel, args);
    assert all[..1] == [all[0]];
  }

  lemma SubscriptComputed(R: Remote, ev: Sql -> Value, slices: seq<bool>, container: Sql, bounds: seq<Sql>)
    requires Computes(R, ev)
    ensures ev(App(HSubscript(slices), [container] + bounds)) == R.sub(slices, [ev(container)] + Values(ev, bounds))
  {
    var all := [container] + bounds;
    assert ev(App(HSubscript(slices), all)) == SqlHeadValue(R, HSubscript(slices), Values(ev, all)) by {
      ComputedHead(R, ev, HSubscript(slices), all);
    }
    SubscriptHeadValue(R, slices, Values(ev, all));
    ValuesCons(ev, container, bounds);
  }

  lemma SubscriptHeadValue(R: Remote, slices: seq<bool>, vs: seq<Value>)
    ensures SqlHeadValue(R, HSubscript(slices), vs) == R.sub(slices, vs)
  {
  }

  // ---------- array comparisons ----------

  /** What the right side of an array comparison is worth. */
  ghost predicate RightValue(L: Local, ev: Sql -> Value, rel: Rel, right: Expr, v: Value) {
    match right
    case Const(t, _, datum) => v == ConstValue(L, t, datum)
    case Node(_, es) => v.ArrayV? && SameValues(ev, rel, es, v.elems)
    case _ => true
  }

  /** An array comparison keeps its value. */
  lemma ArrayOpPreserved(L: Local, R: Remote, ev: Sql -> Value, d: Dialect, cx: DeparseCxt, h: Head, args: seq<Expr>,
                         vs: seq<Value>)
    requires Computes(R, ev) && h.ScalarArrayOp? && LegibleNode(d, cx, Node(h, args)) && NodeAgrees(L, R, h, args)
    requires |vs| == 2 && RightValue(L, ev, cx.rel, args[1], vs[1])
    requires Children(Node(h, args)) != [] ==> ev(Erase(cx.rel, args[0])) == vs[0]
    ensures ev(Erase(cx.rel, Node(h, args))) == HeadValue(L, h, vs)
  {
    var left, right := args[0], args[1];
    if Children(Node(h, args)) == [] {
      assert ev(NullLit) == LiteralValue(R, NullLit);
    } else {
      var elements := ElementTrees(cx.rel, right);
      RightElements(L, R, ev, cx.rel, d, h, args, vs[1]);
      RewritingPreservesTruth(L, R, ev, h.opno, h.opname, h.useOr, Erase(cx.rel, left), elements);
    }
  }

  /** The trees of the elements have the values of the array's elements. */
  lemma RightElements(L: Local, R: Remote, ev: Sql -> Value, rel: Rel, d: Dialect, h: Head, args: seq<Expr>, v: Value)
    requires Computes(R, ev) && h.ScalarArrayOp? && |args| == 2 && ElementsAgree(L, R, h, args)
    requires ArrayReadable(d, h.opname, h.useOr, args[1]) && Children(Node(h, args)) != []
    requires RightValue(L, ev, rel, args[1], v)
    ensures ElementTrees(rel, args[1]) != [] && v == ArrayV(Values(ev, ElementTrees(rel, args[1])))
  {
    var right := args[1];
    var elements := ElementTrees(rel, right);
    if right.Const? {
      var isstr, es := QuotesElements(right.consttype), right.datum.elems;
      forall i | 0 <= i < |es|
        ensures ev(elements[i]) == ElementValue(L, right.consttype, es[i])
      {
        ElementIsLiteral(R, ev, isstr, es[i]);
      }
      assert Values(ev, elements) == ElementValues(L, right.consttype, es);
    } else {
      assert Values(ev, elements) == v.elems;
    }
  }

  // ---------- every readable expression ----------

  /** Shipping preserves meaning: what the server reads has, on every remote row, the value the
      expression has on the local row it stands for. */
  lemma {:induction false} ErasePreservesValue(L: Local, R: Remote, d: Dialect, cx: DeparseCxt, row: RemoteRow, e: Expr)
    requires Readable(d, cx, e) && Agrees(L, R, e) && LiveColumns(cx.rel, e)
    ensures SqlEval(R, row, Erase(cx.rel, e)) == Eval(L, cx.rel.relid, LocalRow(cx.rel, row), e)
    decreases e, 1
  {
    var ev, local := OnRow(R, row), LocalRow(cx.rel, row);
    OnRowComputes(R, row);
    match e {
      case Var(_, _, _, _, _) =>
      case Const(t, _, v) => ConstIsLiteral(R, ev, t, v);
      case Node(h, args) =>
        ChildrenPreserved(L, R, d, cx, row, e);
        NodeOnRow(L, R, d, cx, row, h, args, EvalAll(L, cx.rel.relid, local, args));
    }
  }

  lemma {:induction false} ChildrenPreserved(L: Local, R: Remote, d: Dialect, cx: DeparseCxt, row: RemoteRow, e: Expr)
    requires Readable(d, cx, e) && Agrees(L, R, e) && LiveColumns(cx.rel, e) && e.Node?
    ensures forall i :: 0 <= i < |Children(e)| ==>
              SqlEval(R, row, Erase(cx.rel, Children(e)[i])) ==
              Eval(L, cx.rel.relid, LocalRow(cx.rel, row), Children(e)[i])
    decreases e, 0
  {
    forall i | 0 <= i < |Children(e)|
      ensures SqlEval(R, row, Erase(cx.rel, Children(e)[i])) ==
              Eval(L, cx.rel.relid, LocalRow(cx.rel, row), Children(e)[i])
    {
      ChildrenLive(cx.rel, e);
      ErasePreservesValue(L, R, d, cx, row, Children(e)[i]);
    }
  }

  lemma ChildrenLive(rel: Rel, e: Expr)
    requires LiveColumns(rel, e) && e.Node?
    ensures forall i :: 0 <= i < |Children(e)| ==> LiveColumns(rel, Children(e)[i])
  {
    if e.head.ScalarArrayOp? && Children(e) != [] {
      assert LiveColumns(rel, e.args[0]) && LiveColumns(rel, e.args[1]);
    }
  }

  lemma RightOnRow(L: Local, R: Remote, d: Dialect, cx: DeparseCxt, row: RemoteRow, h: Head, args: seq<Expr>,
                   vs: seq<Value>)
    requires LegibleNode(d, cx, Node(h, args)) && h.ScalarArrayOp?
    requires vs == EvalAll(L, cx.rel.relid, LocalRow(cx.rel, row), args)
    requires
      var cs := Children(Node(h, args));
      forall i :: 0 <= i < |cs| ==>
        SqlEval(R, row, Erase(cx.rel, cs[i])) == Eval(L, cx.rel.relid, LocalRow(cx.rel, row), cs[i])
    ensures RightValue(L, OnRow(R, row), cx.rel, args[1], vs[1])
  {
    if args[1].Node? {
      var es, cs := args[1].args, Children(Node(h, args));
      forall i | 0 <= i < |es|
        ensures SqlEval(R, row, Erase(cx.rel, es[i])) == EvalAll(L, cx.rel.relid, LocalRow(cx.rel, row), es)[i]
      {
        assert cs[i + 1] == es[i];
      }
    }
  }

  lemma NodeOnRow(L: Local, R: Remote, d: Dialect, cx: DeparseCxt, row: RemoteRow, h: Head, args: seq<Expr>,
                  vs: seq<Value>)
    requires LegibleNode(d, cx, Node(h, args)) && NodeAgrees(L, R, h, args) && !h.Agg?
    requires vs == EvalAll(L, cx.rel.relid, LocalRow(cx.rel, row), args)
    requires
      var cs := Children(Node(h, args));
      forall i :: 0 <= i < |cs| ==>
        SqlEval(R, row, Erase(cx.rel, cs[i])) == Eval(L, cx.rel.relid, LocalRow(cx.rel, row), cs[i])
    ensures SqlEval(R, row, Erase(cx.rel, Node(h, args))) == HeadValue(L, h, vs)
  {
    var ev, cs := OnRow(R, row), Children(Node(h, args));
    OnRowComputes(R, row);
    if h.ScalarArrayOp? {
      assert cs != [] ==> cs[0] == args[0];
      RightOnRow(L, R, d, cx, row, h, args, vs);
      ArrayOpPreserved(L, R, ev, d, cx, h, args, vs);
    } else {
      assert cs == args;
      NodePreserved(L, R, ev, d, cx, h, args, vs);
    }
  }
}
