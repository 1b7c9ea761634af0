/** Which of the expressions the walker accepts the deparser can print.

    The deparser says it supports every node the walker accepts. It does not: an accepted
    expression raises exactly when the deparser meets, on its way, a regular expression operator,
    a variable of another relation, or an array comparison whose right side is neither a constant
    nor an ARRAY[...].
 */
module Printable {
  import opened Nodes
  import opened Lexical
  import opened Tokens
  import opened Shippable
  import opened ArrayPieces
  import opened Deparse

  /** The subexpressions the deparser visits from a node. */
  function Visited(h: Head, args: seq<Expr>): (r: seq<Expr>)
    requires Arity(h, |args|)
    ensures forall i :: 0 <= i < |r| ==> r[i] < Node(h, args)
  {
    match h
    case Func(_, _, _, format, _, _, _, _) => if format.ImplicitCast? then args[..1] else args
    case ScalarArrayOp(_, opname, useOr, _, _) =>
      var left, right := args[..1], args[1];
      if right.Node? && right.head.ArrayOf? then
        if right.args == [] && !UsesIn(opname, useOr) then [] else left + right.args
      else if right.Const? && !UsesIn(opname, useOr)
              && (right.datum.NullDatum? || OutputText(right.datum) == "") then []
      else left
    case Agg(_, _, _, _, _, _, _, _, _, _) => args
    case _ => args
  }

  /** The node itself makes the deparser raise. */
  predicate Raises(cx: DeparseCxt, e: Expr) {
    match e
    case Var(varno, _, varlevelsup, _, _) => varno != cx.rel.relid || varlevelsup != 0
    case Node(OpCall(_, _, opname, _, _, _, _), _) => IsRegexOperator(opname)
    case Node(ScalarArrayOp(_, _, _, _, _), args) =>
      |args| == 2 && !args[1].Const? && !(args[1].Node? && args[1].head.ArrayOf?)
    case _ => false
  }

  /** Some node the deparser visits makes it raise. */
  predicate Obstructed(cx: DeparseCxt, e: Expr)
    requires WellFormed(e)
    decreases e
  {
    || Raises(cx, e)
    || (e.Node? &&
        (VisitedWellFormed(e);
         var vs := Visited(e.head, e.args);
         exists i :: 0 <= i < |vs| && Obstructed(cx, vs[i])))
  }

  lemma VisitedWellFormed(e: Expr)
    requires WellFormed(e) && e.Node?
    ensures var vs := Visited(e.head, e.args); forall i :: 0 <= i < |vs| ==> WellFormed(vs[i])
  {
    if e.head.ScalarArrayOp? {
      assert WellFormed(e.args[0]) && WellFormed(e.args[1]);
    }
  }

  /** What the system catalogs guarantee: a built-in operator lives in pg_catalog, a column of the
      scanned table exists, and a whole-row variable has the table's own row type. */
  predicate CatalogFacts(rel: Rel, e: Expr) {
    match e
    case Var(varno, varattno, _, vartype, _) =>
      && (varno == rel.relid ==> -|SYSTEM_COLUMNS| <= varattno <= |rel.attrs|)
      && (varattno == 0 ==> !IsBuiltin(vartype))
    case Node(h, args) =>
      && (h.OpCall? && IsBuiltin(h.opno) ==> h.inCatalog)
      && forall i :: 0 <= i < |args| ==> CatalogFacts(rel, args[i])
    case _ => true
  }

  lemma {:induction false} ListElementAccepted(g: GlobCxt, es: seq<Expr>, i: nat)
    requires WalkList(g, es).Some? && i < |es|
    ensures Walk(g, es[i]).Some?
  {
    ListAcceptance(g, es);
    assert es[i] in es;
  }

  /** The children of an accepted node are accepted. */
  lemma {:induction false} ChildAccepted(g: GlobCxt, e: Expr, i: nat)
    requires Walk(g, e).Some? && e.Node? && i < |e.args|
    ensures Walk(g, e.args[i]).Some?
  {
    if e.head.Subscript? {
      var n, tail := e.head.nUpper, e.args[1..];
      if i == 0 {
      } else if i <= n {
        ListElementAccepted(g, tail[..n], i - 1);
        assert tail[..n][i - 1] == e.args[i];
      } else {
        ListElementAccepted(g, tail[n..], i - 1 - n);
        assert tail[n..][i - 1 - n] == e.args[i];
      }
    } else {
      ListElementAccepted(g, e.args, i);
    }
  }

  ghost predicate Given(g: GlobCxt, cx: DeparseCxt, e: Expr) {
    && Walk(g, e).Some? && WellFormed(e)
    && CatalogFacts(cx.rel, e) && cx.quotable
  }

  lemma GivenForVisited(g: GlobCxt, cx: DeparseCxt, e: Expr, x: Expr)
    requires Given(g, cx, e) && e.Node? && x in Visited(e.head, e.args)
    ensures Given(g, cx, x)
  {
    var args := e.args;
    if x in args {
      var i :| 0 <= i < |args| && args[i] == x;
      ChildAccepted(g, e, i);
    } else {
      assert x in args[1].args;
      assert WellFormed(args[1]) && CatalogFacts(cx.rel, args[1]);
      ChildAccepted(g, e, 1);
      var i :| 0 <= i < |args[1].args| && args[1].args[i] == x;
      ChildAccepted(g, args[1], i);
    }
  }

  /** An accepted expression prints without raising if and only if no visited node obstructs it. */
  lemma {:induction false} PrintableIffUnobstructed(d: Dialect, g: GlobCxt, cx: DeparseCxt, e: Expr)
    requires Given(g, cx, e)
    ensures Print(d, cx, e).Some? <==> !Obstructed(cx, e)
    decreases e
  {
    if e.Node? {
      var h, args := e.head, e.args;
      var vs := Visited(h, args);
      VisitedWellFormed(e);
      forall i | 0 <= i < |vs|
        ensures Print(d, cx, vs[i]).Some? <==> !Obstructed(cx, vs[i])
      {
        GivenForVisited(g, cx, e, vs[i]);
        PrintableIffUnobstructed(d, g, cx, vs[i]);
      }
      NodePrints(d, g, cx, e);
    }
  }

  /** A node prints exactly when it does not raise and all it visits prints. */
  lemma {:induction false} NodePrints(d: Dialect, g: GlobCxt, cx: DeparseCxt, e: Expr)
    requires Given(g, cx, e) && e.Node?
    ensures
      var vs := Visited(e.head, e.args);
      Print(d, cx, e).Some? <==> !Raises(cx, e) && forall i :: 0 <= i < |vs| ==> Print(d, cx, vs[i]).Some?
  {
    var h, args := e.head, e.args;
    VisitsAll(h, args);
    match h {
      case Func(_, _, _, _, _, _, _, _) => FuncPrints(d, cx, e);
      case OpCall(_, _, opname, _, _, _, _) => OpPrints(d, g, cx, e);
      case DistinctFrom(_, _, _, _, _) =>
      case ScalarArrayOp(_, _, _, _, _) => ScalarArrayPrints(d, cx, e);
      case Relabel(_, _) =>
      case Bool(op) => ListPrintsIff(d, cx, args, [Sp, Word(BoolWord(op)), Sp]);
      case NullTest(_) =>
      case ArrayOf(_, _) => ListPrintsIff(d, cx, args, [P(','), Sp]);
      case Subscript(nUpper, _, _, _) =>
        SubscriptsPrint(d, cx, args, nUpper, 0);
        BoundsTogether(d, cx, args, nUpper);
      case Agg(_, _, _, _, _, _, _, _, _, _) => AggPrints(d, g, cx, e);
    }
  }

  lemma VisitsAll(h: Head, args: seq<Expr>)
    requires Arity(h, |args|)
    ensures h.Func? || h.ScalarArrayOp? || Visited(h, args) == args
  {
  }

  lemma FuncPrints(d: Dialect, cx: DeparseCxt, e: Expr)
    requires WellFormed(e) && cx.quotable && e.Node? && e.head.Func?
    ensures
      var vs := Visited(e.head, e.args);
      Print(d, cx, e).Some? <==> forall i :: 0 <= i < |vs| ==> Print(d, cx, vs[i]).Some?
  {
    ListPrintsIff(d, cx, e.args, [P(','), Sp]);
    assert e.head.format.ImplicitCast? ==> Visited(e.head, e.args) == [e.args[0]];
  }

  lemma OpPrints(d: Dialect, g: GlobCxt, cx: DeparseCxt, e: Expr)
    requires Given(g, cx, e) && e.Node? && e.head.OpCall?
    ensures Print(d, cx, e).Some? <==>
            !IsRegexOperator(e.head.opname) && forall i :: 0 <= i < |e.args| ==> Print(d, cx, e.args[i]).Some?
    ensures Raises(cx, e) <==> IsRegexOperator(e.head.opname)
  {
    assert OperatorPieces(e.head.inCatalog, e.head.opname).Some? <==> !IsRegexOperator(e.head.opname);
  }

  lemma AggPrints(d: Dialect, g: GlobCxt, cx: DeparseCxt, e: Expr)
    requires Given(g, cx, e) && e.Node? && e.head.Agg?
    ensures Print(d, cx, e).Some? <==> forall i :: 0 <= i < |e.args| ==> Print(d, cx, e.args[i]).Some?
  {
    ListPrintsIff(d, cx, e.args, [P(','), Sp]);
  }

  lemma {:induction false} ListPrintsIff(d: Dialect, cx: DeparseCxt, es: seq<Expr>, sep: seq<Piece>)
    ensures PrintList(d, cx, es, sep).Some? <==> forall i :: 0 <= i < |es| ==> Print(d, cx, es[i]).Some?
    ensures PrintTail(d, cx, es, sep).Some? <==> PrintList(d, cx, es, sep).Some?
  {
    if es != [] {
      ListPrintsIff(d, cx, es[1..], sep);
    }
  }

  lemma {:induction false} ChainPrintsIff(d: Dialect, cx: DeparseCxt, opname: string, useOr: bool, left: Pieces,
                                          es: seq<Expr>)
    ensures PrintChain(d, cx, opname, useOr, left, es).Some? <==>
            es == [] || (left.Some? && forall i :: 0 <= i < |es| ==> Print(d, cx, es[i]).Some?)
    ensures PrintChainTail(d, cx, opname, useOr, left, es).Some? <==>
            PrintChain(d, cx, opname, useOr, left, es).Some?
  {
    if es != [] {
      ChainPrintsIff(d, cx, opname, useOr, left, es[1..]);
    }
  }

  /** The bounds of the subscripts from the i-th on print. */
  predicate BoundsPrint(d: Dialect, cx: DeparseCxt, args: seq<Expr>, nUpper: nat, i: nat)
    requires |args| > nUpper
  {
    && (forall k :: 1 + i <= k < 1 + nUpper ==> Print(d, cx, args[k]).Some?)
    && (forall k :: 1 + nUpper + i <= k < |args| ==> Print(d, cx, args[k]).Some?)
  }

  lemma {:induction false} SubscriptsPrint(d: Dialect, cx: DeparseCxt, args: seq<Expr>, nUpper: nat, i: nat)
    requires Arity(Subscript(nUpper, false, 0, 0), |args|) && i <= nUpper
    ensures PrintSubscripts(d, cx, args, nUpper, i).Some? <==> BoundsPrint(d, cx, args, nUpper, i)
    decreases nUpper - i
  {
    if i < nUpper {
      SubscriptsPrint(d, cx, args, nUpper, i + 1);
      OneSubscriptPrints(d, cx, args, nUpper, i);
      NextBounds(d, cx, args, nUpper, i, i + 1);
    }
  }

  lemma BoundsTogether(d: Dialect, cx: DeparseCxt, args: seq<Expr>, nUpper: nat)
    requires |args| > nUpper
    ensures Print(d, cx, args[0]).Some? && BoundsPrint(d, cx, args, nUpper, 0) <==>
            forall i :: 0 <= i < |args| ==> Print(d, cx, args[i]).Some?
  {
  }

  lemma NextBounds(d: Dialect, cx: DeparseCxt, args: seq<Expr>, nUpper: nat, i: nat, j: nat)
    requires |args| > nUpper && i < nUpper && j == i + 1
    ensures BoundsPrint(d, cx, args, nUpper, i) <==>
            Print(d, cx, args[1 + i]).Some?
            && (1 + nUpper + i < |args| ==> Print(d, cx, args[1 + nUpper + i]).Some?)
            && BoundsPrint(d, cx, args, nUpper, j)
  {
  }

  lemma OneSubscriptPrints(d: Dialect, cx: DeparseCxt, args: seq<Expr>, nUpper: nat, i: nat)
    requires |args| >= 1 + nUpper && i < nUpper
    ensures PrintSubscripts(d, cx, args, nUpper, i).Some? <==>
            Print(d, cx, args[1 + i]).Some?
            && (1 + nUpper + i < |args| ==> Print(d, cx, args[1 + nUpper + i]).Some?)
            && PrintSubscripts(d, cx, args, nUpper, i + 1).Some?
  {
  }

  lemma ScalarArrayPrints(d: Dialect, cx: DeparseCxt, e: Expr)
    requires WellFormed(e) && e.Node? && e.head.ScalarArrayOp?
    ensures
      var vs := Visited(e.head, e.args);
      Print(d, cx, e).Some? <==> !Raises(cx, e) && forall i :: 0 <= i < |vs| ==> Print(d, cx, vs[i]).Some?
  {
    var h, args := e.head, e.args;
    var vs := Visited(h, args);
    if args[1].Node? && args[1].head.ArrayOf? {
      ArrayElementsPrint(d, cx, h.opname, h.useOr, Print(d, cx, args[0]), args[1]);
      if vs != [] {
        assert vs == [args[0]] + args[1].args;
        assert forall i :: 0 <= i < |args[1].args| ==> args[1].args[i] == vs[i + 1];
        assert vs[0] == args[0];
      }
    } else {
      assert vs != [] ==> vs == [args[0]];
    }
  }

  lemma ArrayElementsPrint(d: Dialect, cx: DeparseCxt, opname: string, useOr: bool, left: Pieces, right: Expr)
    requires right.Node? && right.head.ArrayOf?
    ensures PrintScalarArray(d, cx, opname, useOr, left, right).Some? <==>
            (right.args == [] && !UsesIn(opname, useOr)) ||
            (left.Some? && forall i :: 0 <= i < |right.args| ==> Print(d, cx, right.args[i]).Some?)
  {
    ListPrintsIff(d, cx, right.args, [P(','), Sp]);
    ChainPrintsIff(d, cx, opname, useOr, left, right.args);
  }

  // ---------- the three shapes, and their absence ----------

  /** None of the three shapes occurs anywhere. */
  predicate NoOddShape(cx: DeparseCxt, e: Expr) {
    && !Raises(cx, e)
    && match e
       case Node(_, args) => forall i :: 0 <= i < |args| ==> NoOddShape(cx, args[i])
       case _ => true
  }

  /** Shippable implies printable, for every expression free of the three shapes. */
  lemma {:induction false} ShippableImpliesPrintable(d: Dialect, g: GlobCxt, cx: DeparseCxt, e: Expr)
    requires Given(g, cx, e) && NoOddShape(cx, e)
    ensures Print(d, cx, e).Some?
  {
    PrintableIffUnobstructed(d, g, cx, e);
    NoOddShapeUnobstructed(cx, e);
  }

  lemma {:induction false} NoOddShapeUnobstructed(cx: DeparseCxt, e: Expr)
    requires WellFormed(e) && NoOddShape(cx, e)
    ensures !Obstructed(cx, e)
    decreases e
  {
    if e.Node? {
      VisitedWellFormed(e);
      var vs := Visited(e.head, e.args);
      forall i | 0 <= i < |vs|
        ensures !Obstructed(cx, vs[i])
      {
        if vs[i] in e.args {
          NoOddShapeUnobstructed(cx, vs[i]);
        } else {
          assert vs[i] in e.args[1].args && NoOddShape(cx, e.args[1]);
          NoOddShapeUnobstructed(cx, vs[i]);
        }
      }
    }
  }

  /** A column matched against a constant pattern by a regular expression operator is shipped and
      then cannot be printed. */
  lemma RegexIsShippedButRaises(d: Dialect, rel: Rel, opno: Oid, typ: Oid)
    requires IsBuiltin(opno) && IsBuiltin(typ) && |rel.attrs| >= 1
    ensures
      var g := GlobCxt(rel.relid, false);
      var match_ := Node(OpCall(opno, true, "~", false, DEFAULT_COLLATION_OID, INVALID_OID, BOOLOID),
                         [Var(rel.relid, 1, 0, typ, DEFAULT_COLLATION_OID),
                          Const(typ, DEFAULT_COLLATION_OID, Scalar("^a"))]);
      IsForeignExpr(g, match_) && Print(d, DeparseCxt(rel, true), match_).None?
  {
    var g := GlobCxt(rel.relid, false);
    var v := Var(rel.relid, 1, 0, typ, DEFAULT_COLLATION_OID);
    var c := Const(typ, DEFAULT_COLLATION_OID, Scalar("^a"));
    assert Walk(g, v) == Some(LocCxt(DEFAULT_COLLATION_OID, Safe));
    assert Walk(g, c) == Some(NO_COLLATION);
    assert [v, c][..1] == [v] && [v][..0] == [];
    assert WalkList(g, [v]) == Some(LocCxt(DEFAULT_COLLATION_OID, Safe));
    assert WalkList(g, [v, c]) == Some(LocCxt(DEFAULT_COLLATION_OID, Safe));
    assert OperatorPieces(true, "~").None?;
  }
}
