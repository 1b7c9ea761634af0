/** Reading back what was printed: for every readable tree, the reader applied to the deparsed
    text returns the tree, up to implicit casts, relabelings and type labels, which are not
    printed, and to chains of comparisons, which merge into an AND or OR around them.
 */
module RoundTrip {
  import opened Nodes
  import opened Lexical
  import opened Tokens
  import opened Reader
  import opened ArrayPieces
  import opened Deparse
  import opened Phrases
  import opened ArrayRead

  // ---------- the form of the text ----------

  /** How the text of an expression stands among others: as a primary, as a single predicate, or as
      a chain of two or more comparisons. Only array comparisons have no parentheses of their own. */
  datatype Form = PrimaryForm | PredicateForm | ChainForm(op: BoolOp)

  function ArrayForm(opname: string, useOr: bool, right: Expr): Form {
    match right
    case Const(_, _, ArrayDatum(es)) =>
      if UsesIn(opname, useOr) || |es| == 1 then PredicateForm else ChainForm(ChainOp(useOr))
    case Node(ArrayOf(_, _), es) =>
      if UsesIn(opname, useOr) then PredicateForm
      else if |es| == 1 then PrimaryForm
      else ChainForm(ChainOp(useOr))
    case _ => PrimaryForm
  }

  /** An implicit cast or a relabeling, whose text is that of its argument. */
  predicate Invisible(h: Head) {
    h.Relabel? || (h.Func? && h.format.ImplicitCast?)
  }

  function FormOf(e: Expr): Form {
    match e
    case Node(h, args) =>
      if Invisible(h) && args != [] then FormOf(args[0])
      else if h.ScalarArrayOp? && |args| == 2 then ArrayForm(h.opname, h.useOr, args[1])
      else PrimaryForm
    case _ => PrimaryForm
  }

  // ---------- what the text means ----------

  function EraseConst(t: Oid, v: Datum): Sql {
    if v.NullDatum? then NullLit
    else
      var ext := OutputText(v);
      if IsNumericType(t) then
        if !AllNumericChars(ext) then StrLit(ext)
        else if ext != "" && (ext[0] == '+' || ext[0] == '-') then App(HUnary(ext[..1]), [NumLit(ext[1..])])
        else NumLit(ext)
      else if t == BITOID || t == VARBITOID then BitLit(ext)
      else if t == BOOLOID then BoolLit(ext == "t")
      else StrLit(ext)
  }

  /** The trees that an argument of AND or OR contributes: a chain under its own connective has no
      parentheses, so its comparisons become arguments themselves. */
  function Splice(op: BoolOp, form: Form, t: Sql): seq<Sql> {
    if form == ChainForm(op) && t.App? then t.args else [t]
  }

  /** The tree a server reads for `e`. */
  function Erase(rel: Rel, e: Expr): Sql
    decreases e, 0
  {
    match e
    case Var(_, varattno, _, _, _) =>
      (match ColumnName(rel, varattno)
       case None => NullLit
       case Some(n) => Col(n))
    case Const(t, _, v) => EraseConst(t, v)
    case Param => NullLit
    case Node(h, args) =>
      match h
      case Func(_, schema, name, format, _, _, _, _) =>
        if format.ImplicitCast? then (if args == [] then NullLit else Erase(rel, args[0]))
        else App(HCall(schema, name), EraseAll(rel, args))
      case OpCall(_, _, opname, _, _, _, _) =>
        if |args| == 1 then App(HUnary(opname), EraseAll(rel, args))
        else App(HBinary(BinaryName(opname)), EraseAll(rel, args))
      case DistinctFrom(_, _, _, _, _) => App(HDistinct, EraseAll(rel, args))
      case ScalarArrayOp(_, opname, useOr, _, _) =>
        if |args| != 2 || (args[1].Const? && args[1].datum.NullDatum?) then NullLit
        else ArrayTree(opname, useOr, Erase(rel, args[0]), ElementTrees(rel, args[1]))
      case Relabel(_, _) => if args == [] then NullLit else Erase(rel, args[0])
      case Bool(op) => App(BoolHead(op), EraseArguments(rel, op, args))
      case NullTest(isNull) => App(if isNull then HIsNull else HIsNotNull, EraseAll(rel, args))
      case ArrayOf(_, _) => App(HArray, EraseAll(rel, args))
      case Subscript(nUpper, _, _, _) =>
        var all := EraseAll(rel, args);
        App(HSubscript(Slices(|args|, nUpper, 0)), all[..if all == [] then 0 else 1] + TextOrder(all, nUpper, 0))
      case Agg(_, name, star, _, _, _, _, _, _, _) =>
        if star then App(HStar(name), []) else App(HCall(None, name), EraseAll(rel, args))
      case OtherNode => NullLit
  }

  function EraseAll(rel: Rel, es: seq<Expr>): (r: seq<Sql>)
    ensures |r| == |es|
    ensures forall i :: 0 <= i < |es| ==> r[i] == Erase(rel, es[i])
    decreases es, 1
  {
    if es == [] then [] else [Erase(rel, es[0])] + EraseAll(rel, es[1..])
  }

  function EraseArguments(rel: Rel, op: BoolOp, es: seq<Expr>): seq<Sql>
    decreases es, 1
  {
    if es == [] then [] else Splice(op, FormOf(es[0]), Erase(rel, es[0])) + EraseArguments(rel, op, es[1..])
  }

  /** The elements of the right side of an array comparison. */
  function ElementTrees(rel: Rel, right: Expr): seq<Sql>
    decreases right, 2
  {
    match right
    case Const(t, _, ArrayDatum(es)) => ElementSqls(QuotesElements(t), es)
    case Node(ArrayOf(_, _), es) => EraseAll(rel, es)
    case _ => []
  }

  // ---------- which trees are readable ----------

  predicate ConstReadable(d: Dialect, t: Oid, v: Datum) {
    var ps := ConstPieces(t, v);
    forall i :: 0 <= i < |ps| ==> PieceOk(d, ps[i])
  }

  predicate OperatorReadable(d: Dialect, h: Head, n: nat)
    requires h.OpCall?
  {
    && h.inCatalog && !IsRegexOperator(h.opname)
    && (if h.opname == "~~" || h.opname == "!~~" then n == 2 else IsSymbolText(d, h.opname))
  }

  /** A non-empty array, or a null one outside of IN. */
  predicate ArrayReadable(d: Dialect, opname: string, useOr: bool, right: Expr) {
    match right
    case Const(_, _, NullDatum) => !UsesIn(opname, useOr)
    case Const(t, _, ArrayDatum(es)) => IsSymbolText(d, opname) && ElementsReadable(d, QuotesElements(t), es)
    case Node(ArrayOf(_, _), es) => IsSymbolText(d, opname) && es != []
    case _ => false
  }

  /** The node itself can be read: columns of the scanned table, constants, function calls, operators
      but the regular expression ones, IS DISTINCT FROM, array comparisons, boolean combinations, null
      tests, ARRAY[...], subscripts, relabelings and aggregates. */
  predicate LegibleNode(d: Dialect, cx: DeparseCxt, e: Expr) {
    match e
    case Var(varno, varattno, varlevelsup, _, _) =>
      varno == cx.rel.relid && varlevelsup == 0 && ColumnName(cx.rel, varattno).Some?
    case Const(t, _, v) => ConstReadable(d, t, v)
    case Param => false
    case Node(h, args) =>
      && Arity(h, |args|)
      && match h
         case OpCall(_, _, _, _, _, _, _) => OperatorReadable(d, h, |args|)
         case ScalarArrayOp(_, opname, useOr, _, _) => ArrayReadable(d, opname, useOr, args[1])
         case Agg(_, _, _, _, distinct, _, filtered, _, _, _) => !distinct && !filtered
         case OtherNode => false
         case _ => true
  }

  /** The subexpressions that a node's text is made of. */
  function Children(e: Expr): (r: seq<Expr>)
    ensures forall i :: 0 <= i < |r| ==> r[i] < e
  {
    match e
    case Node(h, args) =>
      if !h.ScalarArrayOp? then args
      else if |args| != 2 || (args[1].Const? && args[1].datum.NullDatum?) then []
      else if args[1].Node? && args[1].head.ArrayOf? then [args[0]] + args[1].args
      else [args[0]]
    case _ => []
  }

  /** The form that the text of the `i`-th subexpression must have: anything between commas or its own
      brackets; no chain after NOT; no OR chain inside AND; a primary next to an operator. */
  predicate Suits(h: Head, i: nat, form: Form) {
    match h
    case OpCall(_, _, _, _, _, _, _) => form == PrimaryForm
    case DistinctFrom(_, _, _, _, _) => form == PrimaryForm
    case NullTest(_) => form == PrimaryForm
    case Bool(op) =>
      (match op
       case AndOp => form != ChainForm(OrOp)
       case OrOp => true
       case NotOp => !form.ChainForm?)
    case ScalarArrayOp(_, opname, useOr, _, _) => form == PrimaryForm || (i > 0 && UsesIn(opname, useOr))
    case _ => true
  }

  /** Every subexpression's text has a form that fits its place. */
  predicate Fits(e: Expr) {
    e.Node? ==> forall i :: 0 <= i < |Children(e)| ==> Suits(e.head, i, FormOf(Children(e)[i]))
  }

  /** Every node can be read by itself. */
  predicate Legible(d: Dialect, cx: DeparseCxt, e: Expr) {
    LegibleNode(d, cx, e) && forall i :: 0 <= i < |Children(e)| ==> Legible(d, cx, Children(e)[i])
  }

  /** Every node can be read by itself, and every text fits its place. */
  predicate Readable(d: Dialect, cx: DeparseCxt, e: Expr) {
    LegibleNode(d, cx, e) && Fits(e) && forall i :: 0 <= i < |Children(e)| ==> Readable(d, cx, Children(e)[i])
  }

  predicate AllLegible(d: Dialect, cx: DeparseCxt, es: seq<Expr>) {
    forall i :: 0 <= i < |es| ==> Legible(d, cx, es[i])
  }

  predicate AllReadable(d: Dialect, cx: DeparseCxt, es: seq<Expr>) {
    forall i :: 0 <= i < |es| ==> Readable(d, cx, es[i])
  }

  lemma {:induction false} ReadableIsLegible(d: Dialect, cx: DeparseCxt, e: Expr)
    requires Readable(d, cx, e)
    ensures Legible(d, cx, e)
  {
    forall i | 0 <= i < |Children(e)|
      ensures Legible(d, cx, Children(e)[i])
    {
      ReadableIsLegible(d, cx, Children(e)[i]);
    }
  }

  lemma ArgumentsLegible(d: Dialect, cx: DeparseCxt, e: Expr)
    requires Legible(d, cx, e) && e.Node? && !e.head.ScalarArrayOp?
    ensures AllLegible(d, cx, e.args) && Arity(e.head, |e.args|)
  {
    var cs := Children(e);
    forall i | 0 <= i < |e.args|
      ensures Legible(d, cx, e.args[i])
    {
      assert cs[i] == e.args[i];
    }
  }

  lemma OperandsLegible(d: Dialect, cx: DeparseCxt, e: Expr)
    requires Legible(d, cx, e) && e.Node? && e.head.ScalarArrayOp? && Children(e) != []
    ensures Legible(d, cx, e.args[0])
    ensures e.args[1].Node? ==> e.args[1].head.ArrayOf? && AllLegible(d, cx, e.args[1].args)
  {
    var cs := Children(e);
    assert cs[0] == e.args[0];
    if e.args[1].Node? {
      forall i | 0 <= i < |e.args[1].args|
        ensures Legible(d, cx, e.args[1].args[i])
      {
        assert cs[i + 1] == e.args[1].args[i];
      }
    }
  }

  /** The arguments of any other node are readable and fit. */
  lemma ArgumentsReadable(d: Dialect, cx: DeparseCxt, e: Expr)
    requires Readable(d, cx, e) && e.Node? && !e.head.ScalarArrayOp?
    ensures AllReadable(d, cx, e.args) && Arity(e.head, |e.args|)
    ensures forall i :: 0 <= i < |e.args| ==> Suits(e.head, i, FormOf(e.args[i]))
  {
    var cs := Children(e);
    forall i | 0 <= i < |e.args|
      ensures Readable(d, cx, e.args[i]) && Suits(e.head, i, FormOf(e.args[i]))
    {
      assert cs[i] == e.args[i];
    }
  }

  /** What is readable below an array comparison. */
  lemma OperandsReadable(d: Dialect, cx: DeparseCxt, e: Expr)
    requires Readable(d, cx, e) && e.Node? && e.head.ScalarArrayOp? && Children(e) != []
    ensures Readable(d, cx, e.args[0]) && FormOf(e.args[0]) == PrimaryForm
    ensures e.args[1].Node? ==> e.args[1].head.ArrayOf? && AllReadable(d, cx, e.args[1].args)
    ensures e.args[1].Node? && !UsesIn(e.head.opname, e.head.useOr) ==>
              forall i :: 0 <= i < |e.args[1].args| ==> FormOf(e.args[1].args[i]) == PrimaryForm
  {
    var cs := Children(e);
    assert cs[0] == e.args[0] && Suits(e.head, 0, FormOf(cs[0]));
    if e.args[1].Node? {
      forall i | 0 <= i < |e.args[1].args|
        ensures Readable(d, cx, e.args[1].args[i])
        ensures !UsesIn(e.head.opname, e.head.useOr) ==> FormOf(e.args[1].args[i]) == PrimaryForm
      {
        assert cs[i + 1] == e.args[1].args[i];
        assert Suits(e.head, i + 1, FormOf(cs[i + 1]));
      }
    }
  }

  // ---------- constants ----------

  lemma ConstPhrase(d: Dialect, t: Oid, v: Datum, rest: seq<Token>)
    requires ConstReadable(d, t, v)
    ensures Phrase(ConstPieces(t, v), EraseConst(t, v), rest)
  {
    if v.NullDatum? {
      LeafPhrase(Word("NULL"), NullLit, rest);
    } else if IsNumericType(t) {
      NumberPhrase(t, v, rest);
    } else {
      var ext := OutputText(v);
      if t == BITOID || t == VARBITOID {
        LeafPhrase(BitString(ext), BitLit(ext), rest);
      } else if t == BOOLOID {
        LeafPhrase(Word(if ext == "t" then "true" else "false"), BoolLit(ext == "t"), rest);
      } else {
        LeafPhrase(Literal(ext), StrLit(ext), rest);
      }
    }
  }

  lemma NumberPhrase(t: Oid, v: Datum, rest: seq<Token>)
    requires !v.NullDatum? && IsNumericType(t)
    ensures Phrase(ConstPieces(t, v), EraseConst(t, v), rest)
  {
    var ext := OutputText(v);
    if !AllNumericChars(ext) {
      LeafPhrase(Plain(ext), StrLit(ext), rest);
    } else if ext != "" && (ext[0] == '+' || ext[0] == '-') {
      SignedPhrase(ext[..1], ext[1..], rest);
    } else {
      LeafPhrase(Number(ext), NumLit(ext), rest);
    }
  }

  // ---------- the text as a run of parts ----------

  function PrintedOr(ps: Pieces): seq<Piece> {
    if ps.None? then [] else ps.value
  }

  function PrintAll(d: Dialect, cx: DeparseCxt, es: seq<Expr>): (r: seq<seq<Piece>>)
    ensures |r| == |es|
    ensures forall i :: 0 <= i < |es| ==> r[i] == PrintedOr(Print(d, cx, es[i]))
  {
    if es == [] then [] else [PrintedOr(Print(d, cx, es[0]))] + PrintAll(d, cx, es[1..])
  }

  /** The items of an IN list. */
  function ElementRuns(d: Dialect, cx: DeparseCxt, right: Expr): seq<seq<Piece>> {
    match right
    case Const(t, _, ArrayDatum(es)) => ElementPiecesAll(QuotesElements(t), es)
    case Node(ArrayOf(_, _), es) => PrintAll(d, cx, es)
    case _ => []
  }

  /** The comparisons of a chain: bare for an array constant, in parentheses for ARRAY[...]. */
  function Comparisons(d: Dialect, cx: DeparseCxt, opname: string, left: seq<Piece>, right: Expr): seq<seq<Piece>> {
    if right.Const? then ComparisonPiecesAll(left, opname, ElementRuns(d, cx, right))
    else ParenComparisons(left, opname, ElementRuns(d, cx, right))
  }

  /** The parts of a chain. */
  function Parts(d: Dialect, cx: DeparseCxt, e: Expr): seq<seq<Piece>> {
    match e
    case Node(h, args) =>
      if Invisible(h) && args != [] then Parts(d, cx, args[0])
      else if h.ScalarArrayOp? && |args| == 2 then
        Comparisons(d, cx, h.opname, PrintedOr(Print(d, cx, args[0])), args[1])
      else []
    case _ => []
  }

  // ---------- every legible tree prints ----------

  /** A list whose elements print. */
  lemma {:induction false} ListPrints(d: Dialect, cx: DeparseCxt, es: seq<Expr>, sep: seq<Piece>)
    requires forall i :: 0 <= i < |es| ==> Print(d, cx, es[i]).Some?
    ensures PrintList(d, cx, es, sep) == Some(JoinPieces(PrintAll(d, cx, es), sep))
    ensures PrintTail(d, cx, es, sep) == Some(JoinTail(PrintAll(d, cx, es), sep))
  {
    if es != [] {
      ListPrints(d, cx, es[1..], sep);
      assert PrintAll(d, cx, es)[1..] == PrintAll(d, cx, es[1..]);
    }
  }

  lemma {:induction false} ChainPrints(d: Dialect, cx: DeparseCxt, opname: string, useOr: bool, left: seq<Piece>,
                                       es: seq<Expr>)
    requires forall i :: 0 <= i < |es| ==> Print(d, cx, es[i]).Some?
    ensures PrintChainTail(d, cx, opname, useOr, Some(left), es) ==
            Some(JoinTail(ParenComparisons(left, opname, PrintAll(d, cx, es)), BoolSeparator(ChainOp(useOr))))
    ensures PrintChain(d, cx, opname, useOr, Some(left), es) ==
            Some(JoinPieces(ParenComparisons(left, opname, PrintAll(d, cx, es)), BoolSeparator(ChainOp(useOr))))
  {
    if es != [] {
      ChainPrints(d, cx, opname, useOr, left, es[1..]);
      var pss := ParenComparisons(left, opname, PrintAll(d, cx, es));
      assert PrintAll(d, cx, es)[1..] == PrintAll(d, cx, es[1..]);
      assert pss[1..] == ParenComparisons(left, opname, PrintAll(d, cx, es[1..]));
      assert PrintComparison(d, cx, opname, Some(left), es[0]) == Some(pss[0]);
    }
  }

  lemma JoinOne(pss: seq<seq<Piece>>, sep: seq<Piece>)
    requires |pss| == 1
    ensures JoinPieces(pss, sep) == pss[0]
  {
    assert JoinTail(pss[1..], sep) == [];
  }

  lemma InConstPrints(d: Dialect, cx: DeparseCxt, e: Expr, left: seq<Piece>)
    requires e.Node? && e.head.ScalarArrayOp? && LegibleNode(d, cx, e) && e.args[1].Const?
             && e.args[1].datum.ArrayDatum?
    requires Print(d, cx, e.args[0]) == Some(left) && UsesIn(e.head.opname, e.head.useOr)
    ensures Print(d, cx, e) == Some(InPieces(left, e.head.opname, ElementRuns(d, cx, e.args[1])))
  {
  }

  lemma ConstChainPrints(d: Dialect, cx: DeparseCxt, e: Expr, left: seq<Piece>)
    requires e.Node? && e.head.ScalarArrayOp? && LegibleNode(d, cx, e) && e.args[1].Const?
             && e.args[1].datum.ArrayDatum?
    requires Print(d, cx, e.args[0]) == Some(left) && !UsesIn(e.head.opname, e.head.useOr)
    ensures Print(d, cx, e) == Some(JoinPieces(Comparisons(d, cx, e.head.opname, left, e.args[1]),
                                               BoolSeparator(ChainOp(e.head.useOr))))
  {
    var ps := JoinPieces(Comparisons(d, cx, e.head.opname, left, e.args[1]), BoolSeparator(ChainOp(e.head.useOr)));
    assert [] + ps == ps;
  }

  /** How a comparison with a non-empty array prints. */
  lemma ArrayOpPrints(d: Dialect, cx: DeparseCxt, e: Expr)
    requires LegibleNode(d, cx, e) && e.Node? && e.head.ScalarArrayOp? && Children(e) != []
    requires forall i :: 0 <= i < |Children(e)| ==> Print(d, cx, Children(e)[i]).Some?
    ensures
      var left, elements := PrintedOr(Print(d, cx, e.args[0])), ElementRuns(d, cx, e.args[1]);
      && elements != []
      && Print(d, cx, e) ==
           Some(if UsesIn(e.head.opname, e.head.useOr) then InPieces(left, e.head.opname, elements)
                else JoinPieces(Comparisons(d, cx, e.head.opname, left, e.args[1]),
                                BoolSeparator(ChainOp(e.head.useOr))))
  {
    assert Children(e)[0] == e.args[0];
    var left := Print(d, cx, e.args[0]).value;
    if e.args[1].Node? {
      ArrayExprPrints(d, cx, e, left);
    } else if UsesIn(e.head.opname, e.head.useOr) {
      InConstPrints(d, cx, e, left);
    } else {
      ConstChainPrints(d, cx, e, left);
    }
  }

  lemma ArrayExprPrints(d: Dialect, cx: DeparseCxt, e: Expr, left: seq<Piece>)
    requires LegibleNode(d, cx, e) && e.Node? && e.head.ScalarArrayOp? && e.args[1].Node?
    requires Print(d, cx, e.args[0]) == Some(left)
    requires forall i :: 0 <= i < |Children(e)| ==> Print(d, cx, Children(e)[i]).Some?
    ensures
      Print(d, cx, e) ==
        Some(if UsesIn(e.head.opname, e.head.useOr)
             then InPieces(left, e.head.opname, ElementRuns(d, cx, e.args[1]))
             else JoinPieces(Comparisons(d, cx, e.head.opname, left, e.args[1]), BoolSeparator(ChainOp(e.head.useOr))))
  {
    var es, cs := e.args[1].args, Children(e);
    assert forall i :: 0 <= i < |es| ==> cs[i + 1] == es[i];
    ListPrints(d, cx, es, ITEM_SEPARATOR);
    ChainPrints(d, cx, e.head.opname, e.head.useOr, left, es);
    assert Print(d, cx, e) == PrintScalarArray(d, cx, e.head.opname, e.head.useOr, Some(left), e.args[1]);
  }

  lemma NullArrayPrints(d: Dialect, cx: DeparseCxt, e: Expr)
    requires e.Node? && e.head.ScalarArrayOp? && LegibleNode(d, cx, e) && Children(e) == []
    ensures Print(d, cx, e) == Some([Sp, Word("NULL")])
  {
    assert [] + [Sp, Word("NULL")] == [Sp, Word("NULL")];
  }

  lemma {:induction false} SubscriptsPrint(d: Dialect, cx: DeparseCxt, args: seq<Expr>, nUpper: nat, i: nat)
    requires |args| >= 1 + nUpper && i <= nUpper && forall k :: 0 <= k < |args| ==> Print(d, cx, args[k]).Some?
    ensures PrintSubscripts(d, cx, args, nUpper, i).Some?
    decreases nUpper - i
  {
    if i < nUpper {
      SubscriptsPrint(d, cx, args, nUpper, i + 1);
    }
  }

  /** Every legible tree prints without raising. */
  lemma {:induction false} LegiblePrints(d: Dialect, cx: DeparseCxt, e: Expr)
    requires cx.quotable && Legible(d, cx, e)
    ensures Print(d, cx, e).Some?
  {
    if e.Node? {
      forall i | 0 <= i < |Children(e)|
        ensures Print(d, cx, Children(e)[i]).Some?
      {
        LegiblePrints(d, cx, Children(e)[i]);
      }
      NodePrints(d, cx, e);
    }
  }

  lemma NodePrints(d: Dialect, cx: DeparseCxt, e: Expr)
    requires cx.quotable && LegibleNode(d, cx, e) && e.Node?
    requires forall i :: 0 <= i < |Children(e)| ==> Print(d, cx, Children(e)[i]).Some?
    ensures Print(d, cx, e).Some?
  {
    var h, args := e.head, e.args;
    if h.ScalarArrayOp? {
      if Children(e) == [] {
        NullArrayPrints(d, cx, e);
      } else {
        ArrayOpPrints(d, cx, e);
      }
    } else {
      assert forall i :: 0 <= i < |args| ==> Children(e)[i] == args[i];
      PlainNodePrints(d, cx, h, args);
    }
  }

  lemma PlainNodePrints(d: Dialect, cx: DeparseCxt, h: Head, args: seq<Expr>)
    requires cx.quotable && LegibleNode(d, cx, Node(h, args)) && !h.ScalarArrayOp?
    requires forall i :: 0 <= i < |args| ==> Print(d, cx, args[i]).Some?
    ensures Print(d, cx, Node(h, args)).Some?
  {
    if h.Bool? {
      ListPrints(d, cx, args, BoolSeparator(h.op));
    } else if h.Subscript? {
      SubscriptsPrint(d, cx, args, h.nUpper, 0);
    } else {
      ListPrints(d, cx, args, ITEM_SEPARATOR);
    }
  }

  // ---------- every readable tree reads back ----------

  /** Printing then reading is the identity, up to what `Erase` forgets, and consumes exactly the
      printed tokens, in every context: here for a text that is a primary. */
  lemma {:induction false} ReadsBack(d: Dialect, cx: DeparseCxt, e: Expr)
    requires cx.quotable && Readable(d, cx, e) && FormOf(e) == PrimaryForm
    ensures Print(d, cx, e).Some?
    ensures AsPrimary(Print(d, cx, e).value, Erase(cx.rel, e))
    decreases e, 5
  {
    match e {
      case Var(_, _, _, _, _) => ColumnReadsBack(d, cx, e);
      case Const(_, _, _) => ConstReadsBack(d, cx, e);
      case Node(h, args) =>
        if !h.ScalarArrayOp? {
          ArgumentsReadable(d, cx, e);
        }
        match h {
          case Func(_, _, _, format, _, _, _, _) =>
            if format.ImplicitCast? {
              ReadsBack(d, cx, args[0]);
            } else {
              FuncReadsBack(d, cx, e);
            }
          case OpCall(_, _, _, _, _, _, _) => OpReadsBack(d, cx, e);
          case DistinctFrom(_, _, _, _, _) => DistinctReadsBack(d, cx, e);
          case ScalarArrayOp(_, _, _, _, _) => ArrayPrimaryReadsBack(d, cx, e);
          case Relabel(_, _) => ReadsBack(d, cx, args[0]);
          case Bool(_) => BoolReadsBack(d, cx, e);
          case NullTest(_) => NullTestReadsBack(d, cx, e);
          case ArrayOf(_, _) => ArrayReadsBack(d, cx, e);
          case Subscript(_, _, _, _) => SubscriptReadsBack(d, cx, e);
          case Agg(_, _, _, _, _, _, _, _, _, _) => AggReadsBack(d, cx, e);
        }
    }
  }

  lemma ColumnReadsBack(d: Dialect, cx: DeparseCxt, e: Expr)
    requires cx.quotable && Readable(d, cx, e) && e.Var?
    ensures Print(d, cx, e).Some? && AsPrimary(Print(d, cx, e).value, Erase(cx.rel, e))
  {
    var n := ColumnName(cx.rel, e.varattno).value;
    forall rest | Follows(Front(rest))
      ensures Phrase([Name(n)], Col(n), rest)
    {
      LeafPhrase(Name(n), Col(n), rest);
    }
  }

  lemma ConstReadsBack(d: Dialect, cx: DeparseCxt, e: Expr)
    requires Readable(d, cx, e) && e.Const?
    ensures Print(d, cx, e).Some? && AsPrimary(Print(d, cx, e).value, Erase(cx.rel, e))
  {
    forall rest | Follows(Front(rest))
      ensures Phrase(ConstPieces(e.consttype, e.datum), EraseConst(e.consttype, e.datum), rest)
    {
      ConstPhrase(d, e.consttype, e.datum, rest);
    }
  }

  /** As an argument of NOT or AND. */
  lemma {:induction false} NegationReadsBack(d: Dialect, cx: DeparseCxt, e: Expr)
    requires cx.quotable && Readable(d, cx, e) && !FormOf(e).ChainForm?
    ensures Print(d, cx, e).Some?
    ensures AsNegation(Print(d, cx, e).value, Erase(cx.rel, e))
    decreases e, 6
  {
    if FormOf(e) == PrimaryForm {
      ReadsBack(d, cx, e);
      PrimaryAsNegation(Print(d, cx, e).value, Erase(cx.rel, e));
    } else {
      PredicateReadsBack(d, cx, e);
      PredicateAsNegation(Print(d, cx, e).value, Erase(cx.rel, e));
    }
  }

  /** Between commas or brackets, any text reads back. */
  lemma {:induction false} BodyReadsBack(d: Dialect, cx: DeparseCxt, e: Expr)
    requires cx.quotable && Readable(d, cx, e)
    ensures Print(d, cx, e).Some?
    ensures AsBody(Print(d, cx, e).value, Erase(cx.rel, e))
    decreases e, 7
  {
    if FormOf(e).ChainForm? {
      ChainReadsBack(d, cx, e);
      RunReads(FormOf(e).op, Parts(d, cx, e), Erase(cx.rel, e).args);
    } else {
      NegationReadsBack(d, cx, e);
      NegationAsConjunction(Print(d, cx, e).value, Erase(cx.rel, e));
      ConjunctionAsBody(Print(d, cx, e).value, Erase(cx.rel, e));
    }
  }

  // ---------- array comparisons ----------

  lemma ChildrenPrint(d: Dialect, cx: DeparseCxt, e: Expr)
    requires cx.quotable && Legible(d, cx, e)
    ensures forall i :: 0 <= i < |Children(e)| ==> Print(d, cx, Children(e)[i]).Some?
  {
    forall i | 0 <= i < |Children(e)|
      ensures Print(d, cx, Children(e)[i]).Some?
    {
      LegiblePrints(d, cx, Children(e)[i]);
    }
  }

  /** How a comparison with a non-empty array prints, and how its comparisons read. */
  lemma {:induction false} ArrayOpReadsBack(d: Dialect, cx: DeparseCxt, e: Expr)
    requires cx.quotable && Readable(d, cx, e) && e.Node? && e.head.ScalarArrayOp? && Children(e) != []
    ensures
      var opname, useOr := e.head.opname, e.head.useOr;
      var left, elements := PrintedOr(Print(d, cx, e.args[0])), ElementRuns(d, cx, e.args[1]);
      var pss := Comparisons(d, cx, opname, left, e.args[1]);
      var trees := ComparisonSqls(Erase(cx.rel, e.args[0]), opname, ElementTrees(cx.rel, e.args[1]));
      && |ElementTrees(cx.rel, e.args[1])| == |elements| > 0
      && Print(d, cx, e) == Some(if UsesIn(opname, useOr) then InPieces(left, opname, elements)
                                 else JoinPieces(pss, BoolSeparator(ChainOp(useOr))))
      && (UsesIn(opname, useOr) ==> AsPredicate(InPieces(left, opname, elements), Erase(cx.rel, e)))
      && (!UsesIn(opname, useOr) && e.args[1].Const? ==> AsPredicates(pss, trees))
      && (!UsesIn(opname, useOr) && e.args[1].Node? ==> AsPrimaries(pss, trees))
    decreases e, 3
  {
    var left, right := e.args[0], e.args[1];
    ReadableIsLegible(d, cx, e);
    ChildrenPrint(d, cx, e);
    ArrayOpPrints(d, cx, e);
    OperandsReadable(d, cx, e);
    ReadsBack(d, cx, left);
    if right.Const? {
      ConstOpReadsBack(d, cx, e, Print(d, cx, left).value);
    } else if UsesIn(e.head.opname, e.head.useOr) {
      BodiesReadBack(d, cx, right.args);
      InPhrase(Print(d, cx, left).value, Erase(cx.rel, left), e.head.opname, PrintAll(d, cx, right.args),
               EraseAll(cx.rel, right.args));
    } else {
      forall i | 0 <= i < |right.args|
        ensures AsPrimary(PrintAll(d, cx, right.args)[i], EraseAll(cx.rel, right.args)[i])
      {
        ReadsBack(d, cx, right.args[i]);
      }
      ArrayComparisons(Print(d, cx, left).value, Erase(cx.rel, left), e.head.opname, PrintAll(d, cx, right.args),
                       EraseAll(cx.rel, right.args));
    }
  }

  lemma ConstOpReadsBack(d: Dialect, cx: DeparseCxt, e: Expr, left: seq<Piece>)
    requires e.Node? && e.head.ScalarArrayOp? && LegibleNode(d, cx, e) && e.args[1].Const?
             && e.args[1].datum.ArrayDatum?
    requires AsPrimary(left, Erase(cx.rel, e.args[0]))
    ensures
      var opname, useOr := e.head.opname, e.head.useOr;
      var elements := ElementRuns(d, cx, e.args[1]);
      var pss := Comparisons(d, cx, opname, left, e.args[1]);
      var trees := ComparisonSqls(Erase(cx.rel, e.args[0]), opname, ElementTrees(cx.rel, e.args[1]));
      && (UsesIn(opname, useOr) ==> AsPredicate(InPieces(left, opname, elements), Erase(cx.rel, e)))
      && (!UsesIn(opname, useOr) ==> AsPredicates(pss, trees))
  {
    var opname := e.head.opname;
    var isstr, es := QuotesElements(e.args[1].consttype), e.args[1].datum.elems;
    if UsesIn(opname, e.head.useOr) {
      ElementItems(isstr, es);
      InPhrase(left, Erase(cx.rel, e.args[0]), opname, ElementPiecesAll(isstr, es), ElementSqls(isstr, es));
    } else {
      ConstComparisons(left, Erase(cx.rel, e.args[0]), opname, isstr, es);
    }
  }

  /** A null array, or the one parenthesized comparison of an ARRAY[...]. */
  lemma {:induction false} ArrayPrimaryReadsBack(d: Dialect, cx: DeparseCxt, e: Expr)
    requires cx.quotable && Readable(d, cx, e) && FormOf(e) == PrimaryForm && e.Node? && e.head.ScalarArrayOp?
    ensures Print(d, cx, e).Some?
    ensures AsPrimary(Print(d, cx, e).value, Erase(cx.rel, e))
    decreases e, 4
  {
    if Children(e) == [] {
      NullPhrase();
      NullArrayPrints(d, cx, e);
    } else {
      ArrayOpReadsBack(d, cx, e);
      var pss := Comparisons(d, cx, e.head.opname, PrintedOr(Print(d, cx, e.args[0])), e.args[1]);
      JoinOne(pss, BoolSeparator(ChainOp(e.head.useOr)));
      assert AsPrimary(pss[0], Erase(cx.rel, e));
    }
  }

  /** An IN list, or the one comparison with an array constant of one element. */
  lemma {:induction false} PredicateReadsBack(d: Dialect, cx: DeparseCxt, e: Expr)
    requires cx.quotable && Readable(d, cx, e) && FormOf(e) == PredicateForm
    ensures Print(d, cx, e).Some?
    ensures AsPredicate(Print(d, cx, e).value, Erase(cx.rel, e))
    decreases e, 5
  {
    if Invisible(e.head) {
      ArgumentsReadable(d, cx, e);
      PredicateReadsBack(d, cx, e.args[0]);
    } else {
      ArrayOpReadsBack(d, cx, e);
      if !UsesIn(e.head.opname, e.head.useOr) {
        var pss := Comparisons(d, cx, e.head.opname, PrintedOr(Print(d, cx, e.args[0])), e.args[1]);
        JoinOne(pss, BoolSeparator(ChainOp(e.head.useOr)));
        assert AsPredicate(pss[0], Erase(cx.rel, e));
      }
    }
  }

  /** A chain prints as its parts, each of which reads as one comparison. */
  lemma {:induction false} ChainReadsBack(d: Dialect, cx: DeparseCxt, e: Expr)
    requires cx.quotable && Readable(d, cx, e) && FormOf(e).ChainForm?
    ensures Erase(cx.rel, e).App? && Erase(cx.rel, e).head == BoolHead(FormOf(e).op) && !FormOf(e).op.NotOp?
    ensures Print(d, cx, e) == Some(JoinPieces(Parts(d, cx, e), BoolSeparator(FormOf(e).op)))
    ensures |Parts(d, cx, e)| >= 2 && forall op :: AsArguments(op, Parts(d, cx, e), Erase(cx.rel, e).args)
    decreases e, 5
  {
    if Invisible(e.head) {
      ArgumentsReadable(d, cx, e);
      ChainReadsBack(d, cx, e.args[0]);
    } else {
      ArrayOpReadsBack(d, cx, e);
      var pss, trees := Parts(d, cx, e), Erase(cx.rel, e).args;
      forall i | 0 <= i < |pss|
        ensures AsNegation(pss[i], trees[i]) && AsConjunction(pss[i], trees[i])
      {
        if e.args[1].Const? {
          PredicateAsNegation(pss[i], trees[i]);
        } else {
          PrimaryAsNegation(pss[i], trees[i]);
        }
        NegationAsConjunction(pss[i], trees[i]);
      }
    }
  }

  // ---------- operators ----------

  lemma {:induction false} OpReadsBack(d: Dialect, cx: DeparseCxt, e: Expr)
    requires cx.quotable && Readable(d, cx, e) && e.Node? && e.head.OpCall?
    ensures Print(d, cx, e).Some?
    ensures AsPrimary(Print(d, cx, e).value, Erase(cx.rel, e))
    decreases e, 3
  {
    var h, args := e.head, e.args;
    ArgumentsReadable(d, cx, e);
    var op := OperatorPieces(h.inCatalog, h.opname).value;
    TokensOperator(h.inCatalog, h.opname);
    var last := args[|args| - 1];
    ReadsBack(d, cx, last);
    ReadsBack(d, cx, args[0]);
    var a, b := Print(d, cx, args[0]).value, Print(d, cx, last).value;
    if |args| == 2 {
      EraseTwo(cx.rel, args);
      BinaryPrints(d, cx, h, args, a, op, b);
      BinaryAsPrimary(a, Erase(cx.rel, args[0]), h.opname, op, b, Erase(cx.rel, last));
    } else {
      EraseOne(cx.rel, args);
      UnaryPrints(d, cx, h, args, op, b);
      UnaryAsPrimary(h.opname, b, Erase(cx.rel, last));
    }
  }

  lemma BinaryAsPrimary(a: seq<Piece>, ea: Sql, opname: string, op: seq<Piece>, b: seq<Piece>, eb: Sql)
    requires TokensOf(op) == OperatorTokens(opname) && AsPrimary(a, ea) && AsPrimary(b, eb)
    ensures AsPrimary(BinaryPieces(a, op, b), App(HBinary(BinaryName(opname)), [ea, eb]))
  {
    forall rest | Follows(Front(rest))
      ensures Phrase(BinaryPieces(a, op, b), App(HBinary(BinaryName(opname)), [ea, eb]), rest)
    {
      PhraseAt(b, eb, [RPAREN] + rest);
      PhraseAt(a, ea, OperatorTokens(opname) + (TokensOf(b) + ([RPAREN] + rest)));
      BinaryPhrase(a, ea, opname, op, b, eb, rest);
    }
  }

  lemma UnaryAsPrimary(opname: string, b: seq<Piece>, eb: Sql)
    requires AsPrimary(b, eb)
    ensures AsPrimary(UnaryPieces([Sym(opname)], b), App(HUnary(opname), [eb]))
  {
    forall rest | Follows(Front(rest))
      ensures Phrase(UnaryPieces([Sym(opname)], b), App(HUnary(opname), [eb]), rest)
    {
      PhraseAt(b, eb, [RPAREN] + rest);
      UnaryPhrase(opname, b, eb, rest);
    }
  }

  lemma BinaryPrints(d: Dialect, cx: DeparseCxt, h: Head, args: seq<Expr>, a: seq<Piece>, op: seq<Piece>, b: seq<Piece>)
    requires h.OpCall? && |args| == 2 && OperatorPieces(h.inCatalog, h.opname) == Some(op)
    requires Print(d, cx, args[0]) == Some(a) && Print(d, cx, args[1]) == Some(b)
    ensures Print(d, cx, Node(h, args)) == Some(BinaryPieces(a, op, b))
  {
  }

  lemma UnaryPrints(d: Dialect, cx: DeparseCxt, h: Head, args: seq<Expr>, op: seq<Piece>, b: seq<Piece>)
    requires h.OpCall? && |args| == 1 && OperatorPieces(h.inCatalog, h.opname) == Some(op)
    requires Print(d, cx, args[0]) == Some(b)
    ensures Print(d, cx, Node(h, args)) == Some(UnaryPieces(op, b))
  {
  }

  lemma EraseOne(rel: Rel, args: seq<Expr>)
    requires |args| == 1
    ensures EraseAll(rel, args) == [Erase(rel, args[0])]
  {
  }

  lemma EraseTwo(rel: Rel, args: seq<Expr>)
    requires |args| == 2
    ensures EraseAll(rel, args) == [Erase(rel, args[0]), Erase(rel, args[1])]
  {
  }

  lemma {:induction false} DistinctReadsBack(d: Dialect, cx: DeparseCxt, e: Expr)
    requires cx.quotable && Readable(d, cx, e) && e.Node? && e.head.DistinctFrom?
    ensures Print(d, cx, e).Some?
    ensures AsPrimary(Print(d, cx, e).value, Erase(cx.rel, e))
    decreases e, 3
  {
    var args := e.args;
    ArgumentsReadable(d, cx, e);
    ReadsBack(d, cx, args[0]);
    ReadsBack(d, cx, args[1]);
    var a, b := Print(d, cx, args[0]).value, Print(d, cx, args[1]).value;
    EraseTwo(cx.rel, args);
    assert Print(d, cx, e) == Some(DistinctPieces(a, b));
    DistinctAsPrimary(a, Erase(cx.rel, args[0]), b, Erase(cx.rel, args[1]));
  }

  lemma DistinctAsPrimary(a: seq<Piece>, ea: Sql, b: seq<Piece>, eb: Sql)
    requires AsPrimary(a, ea) && AsPrimary(b, eb)
    ensures AsPrimary(DistinctPieces(a, b), App(HDistinct, [ea, eb]))
  {
    forall rest | Follows(Front(rest))
      ensures Phrase(DistinctPieces(a, b), App(HDistinct, [ea, eb]), rest)
    {
      PhraseAt(b, eb, [RPAREN] + rest);
      PhraseAt(a, ea, [Kw("is"), Kw("distinct"), Kw("from")] + (TokensOf(b) + ([RPAREN] + rest)));
      DistinctPhrase(a, ea, b, eb, rest);
    }
  }

  lemma {:induction false} NullTestReadsBack(d: Dialect, cx: DeparseCxt, e: Expr)
    requires cx.quotable && Readable(d, cx, e) && e.Node? && e.head.NullTest?
    ensures Print(d, cx, e).Some?
    ensures AsPrimary(Print(d, cx, e).value, Erase(cx.rel, e))
    decreases e, 3
  {
    var arg, isNull := e.args[0], e.head.isNull;
    ArgumentsReadable(d, cx, e);
    ReadsBack(d, cx, arg);
    var a := Print(d, cx, arg).value;
    EraseOne(cx.rel, e.args);
    assert Print(d, cx, e) == Some([P('(')] + (a + NullTestEnd(isNull)));
    NullTestAsPrimary(a, Erase(cx.rel, arg), isNull);
  }

  lemma NullTestAsPrimary(a: seq<Piece>, ea: Sql, isNull: bool)
    requires AsPrimary(a, ea)
    ensures AsPrimary([P('(')] + (a + NullTestEnd(isNull)), App(if isNull then HIsNull else HIsNotNull, [ea]))
  {
    forall rest | Follows(Front(rest))
      ensures Phrase([P('(')] + (a + NullTestEnd(isNull)), App(if isNull then HIsNull else HIsNotNull, [ea]), rest)
    {
      PhraseAt(a, ea, NullTestWords(isNull) + ([RPAREN] + rest));
      NullTestPhrase(a, ea, isNull, rest);
    }
  }

  // ---------- lists ----------

  lemma {:induction false} BodiesReadBack(d: Dialect, cx: DeparseCxt, es: seq<Expr>)
    requires cx.quotable && AllReadable(d, cx, es)
    ensures forall i :: 0 <= i < |es| ==> Print(d, cx, es[i]).Some?
    ensures AsBodies(PrintAll(d, cx, es), EraseAll(cx.rel, es))
    decreases es, 8
  {
    forall i | 0 <= i < |es|
      ensures Print(d, cx, es[i]).Some? && AsBody(PrintAll(d, cx, es)[i], EraseAll(cx.rel, es)[i])
    {
      BodyReadsBack(d, cx, es[i]);
    }
  }

  lemma {:induction false} ListReadsBack(d: Dialect, cx: DeparseCxt, es: seq<Expr>)
    requires cx.quotable && AllReadable(d, cx, es)
    ensures PrintList(d, cx, es, ITEM_SEPARATOR).Some?
    ensures forall rest :: Ends(Front(rest)) && Front(rest) != COMMA ==>
              ListPhrase(PrintList(d, cx, es, ITEM_SEPARATOR).value, EraseAll(cx.rel, es), rest)
    decreases es, 9
  {
    BodiesReadBack(d, cx, es);
    ListPrints(d, cx, es, ITEM_SEPARATOR);
    forall rest | Ends(Front(rest)) && Front(rest) != COMMA
      ensures ListPhrase(JoinPieces(PrintAll(d, cx, es), ITEM_SEPARATOR), EraseAll(cx.rel, es), rest)
    {
      ListReads(PrintAll(d, cx, es), EraseAll(cx.rel, es), rest);
    }
  }

  lemma {:induction false} FuncReadsBack(d: Dialect, cx: DeparseCxt, e: Expr)
    requires cx.quotable && Readable(d, cx, e) && e.Node? && e.head.Func? && !e.head.format.ImplicitCast?
    ensures Print(d, cx, e).Some?
    ensures AsPrimary(Print(d, cx, e).value, Erase(cx.rel, e))
    decreases e, 3
  {
    var h, args := e.head, e.args;
    ArgumentsReadable(d, cx, e);
    ListReadsBack(d, cx, args);
    var list := PrintList(d, cx, args, ITEM_SEPARATOR).value;
    assert Print(d, cx, e) == Some(Qualifier(h.schema) + CallPieces(h.name, list));
    CallAsPrimary(h.schema, h.name, list, EraseAll(cx.rel, args));
  }

  function Qualifier(schema: Option<string>): seq<Piece> {
    if schema.None? then [] else [Name(schema.value)] + [P('.')]
  }

  lemma CallAsPrimary(schema: Option<string>, name: string, list: seq<Piece>, es: seq<Sql>)
    requires forall rest :: Ends(Front(rest)) && Front(rest) != COMMA ==> ListPhrase(list, es, rest)
    ensures AsPrimary(Qualifier(schema) + CallPieces(name, list), App(HCall(schema, name), es))
  {
    forall rest | Follows(Front(rest))
      ensures Phrase(Qualifier(schema) + CallPieces(name, list), App(HCall(schema, name), es), rest)
    {
      assert ListPhrase(list, es, [RPAREN] + rest);
      if schema.None? {
        CallPhrase(name, list, es, rest);
        assert [] + CallPieces(name, list) == CallPieces(name, list);
      } else {
        QualifiedCallPhrase(schema.value, name, list, es, rest);
      }
    }
  }

  lemma {:induction false} AggReadsBack(d: Dialect, cx: DeparseCxt, e: Expr)
    requires cx.quotable && Readable(d, cx, e) && e.Node? && e.head.Agg?
    ensures Print(d, cx, e).Some?
    ensures AsPrimary(Print(d, cx, e).value, Erase(cx.rel, e))
    decreases e, 3
  {
    var h, args := e.head, e.args;
    ArgumentsReadable(d, cx, e);
    ListReadsBack(d, cx, args);
    var list := if h.star then [Sym("*")] else PrintList(d, cx, args, ITEM_SEPARATOR).value;
    assert [P('(')] + [] == [P('(')];
    assert Print(d, cx, e) == Some(CallPieces(h.name, list));
    AggregateAsPrimary(h.name, h.star, list, EraseAll(cx.rel, args));
  }

  lemma AggregateAsPrimary(name: string, star: bool, list: seq<Piece>, es: seq<Sql>)
    requires if star then list == [Sym("*")]
             else forall rest :: Ends(Front(rest)) && Front(rest) != COMMA ==> ListPhrase(list, es, rest)
    ensures AsPrimary(CallPieces(name, list), if star then App(HStar(name), []) else App(HCall(None, name), es))
  {
    if star {
      forall rest | Follows(Front(rest))
        ensures Phrase(CallPieces(name, list), App(HStar(name), []), rest)
      {
        StarPhrase(name, rest);
      }
    } else {
      CallAsPrimary(None, name, list, es);
      assert [] + CallPieces(name, list) == CallPieces(name, list);
    }
  }

  lemma {:induction false} ArrayReadsBack(d: Dialect, cx: DeparseCxt, e: Expr)
    requires cx.quotable && Readable(d, cx, e) && e.Node? && e.head.ArrayOf?
    ensures Print(d, cx, e).Some?
    ensures AsPrimary(Print(d, cx, e).value, Erase(cx.rel, e))
    decreases e, 3
  {
    ArgumentsReadable(d, cx, e);
    ListReadsBack(d, cx, e.args);
    var list := PrintList(d, cx, e.args, ITEM_SEPARATOR).value;
    assert Print(d, cx, e) == Some(EnclosedPieces([Word("ARRAY"), P('[')], list, ']'));
    forall rest | Follows(Front(rest))
      ensures Phrase(EnclosedPieces([Word("ARRAY"), P('[')], list, ']'), Erase(cx.rel, e), rest)
    {
      assert ListPhrase(list, EraseAll(cx.rel, e.args), [RBRACK] + rest);
      ArrayPhrase(list, EraseAll(cx.rel, e.args), rest);
    }
  }

  // ---------- AND, OR and NOT ----------

  /** The runs an argument of AND or OR contributes. */
  function Spliced(d: Dialect, cx: DeparseCxt, op: BoolOp, e: Expr): seq<seq<Piece>> {
    if FormOf(e) == ChainForm(op) then Parts(d, cx, e) else [PrintedOr(Print(d, cx, e))]
  }

  function SplicedAll(d: Dialect, cx: DeparseCxt, op: BoolOp, es: seq<Expr>): seq<seq<Piece>> {
    if es == [] then [] else Spliced(d, cx, op, es[0]) + SplicedAll(d, cx, op, es[1..])
  }

  /** An argument of AND or OR prints as runs that each read as an argument. */
  lemma {:induction false} ArgumentReadsBack(d: Dialect, cx: DeparseCxt, op: BoolOp, e: Expr)
    requires cx.quotable && !op.NotOp? && Readable(d, cx, e) && (op.AndOp? ==> FormOf(e) != ChainForm(OrOp))
    ensures Print(d, cx, e) == Some(JoinPieces(Spliced(d, cx, op, e), BoolSeparator(op)))
    ensures Spliced(d, cx, op, e) != []
    ensures AsArguments(op, Spliced(d, cx, op, e), Splice(op, FormOf(e), Erase(cx.rel, e)))
    decreases e, 7
  {
    if FormOf(e).ChainForm? {
      ChainReadsBack(d, cx, e);
      if FormOf(e) != ChainForm(op) {
        RunReads(AndOp, Parts(d, cx, e), Erase(cx.rel, e).args);
      }
    } else {
      NegationReadsBack(d, cx, e);
      NegationAsConjunction(Print(d, cx, e).value, Erase(cx.rel, e));
    }
    if FormOf(e) != ChainForm(op) {
      JoinOne(Spliced(d, cx, op, e), BoolSeparator(op));
    }
  }

  lemma ArgumentsAppend(op: BoolOp, a: seq<seq<Piece>>, ea: seq<Sql>, b: seq<seq<Piece>>, eb: seq<Sql>)
    requires AsArguments(op, a, ea) && AsArguments(op, b, eb)
    ensures AsArguments(op, a + b, ea + eb)
  {
  }

  lemma {:induction false} JoinAppend(a: seq<seq<Piece>>, b: seq<seq<Piece>>, sep: seq<Piece>)
    ensures JoinTail(a + b, sep) == JoinTail(a, sep) + JoinTail(b, sep)
    ensures a != [] ==> JoinPieces(a + b, sep) == JoinPieces(a, sep) + JoinTail(b, sep)
  {
    if a == [] {
      assert a + b == b;
    } else {
      JoinAppend(a[1..], b, sep);
      assert (a + b)[0] == a[0] && (a + b)[1..] == a[1..] + b;
      Regroup(sep, a[0], JoinTail(a[1..], sep), JoinTail(b, sep));
    }
  }

  lemma Regroup(s: seq<Piece>, x: seq<Piece>, y: seq<Piece>, z: seq<Piece>)
    ensures s + (x + (y + z)) == (s + (x + y)) + z && x + (y + z) == (x + y) + z
  {
  }

  lemma {:induction false} ArgumentsReadBack(d: Dialect, cx: DeparseCxt, op: BoolOp, es: seq<Expr>)
    requires cx.quotable && !op.NotOp? && AllReadable(d, cx, es)
    requires op.AndOp? ==> forall i :: 0 <= i < |es| ==> FormOf(es[i]) != ChainForm(OrOp)
    ensures PrintList(d, cx, es, BoolSeparator(op)) == Some(JoinPieces(SplicedAll(d, cx, op, es), BoolSeparator(op)))
    ensures PrintTail(d, cx, es, BoolSeparator(op)) == Some(JoinTail(SplicedAll(d, cx, op, es), BoolSeparator(op)))
    ensures |SplicedAll(d, cx, op, es)| >= |es|
    ensures AsArguments(op, SplicedAll(d, cx, op, es), EraseArguments(cx.rel, op, es))
    decreases es, 8
  {
    if es != [] {
      ArgumentReadsBack(d, cx, op, es[0]);
      ArgumentsReadBack(d, cx, op, es[1..]);
      ArgumentsAppend(op, Spliced(d, cx, op, es[0]), Splice(op, FormOf(es[0]), Erase(cx.rel, es[0])),
                      SplicedAll(d, cx, op, es[1..]), EraseArguments(cx.rel, op, es[1..]));
      ListSplices(d, cx, es, BoolSeparator(op), Spliced(d, cx, op, es[0]), SplicedAll(d, cx, op, es[1..]));
    }
  }

  lemma ListSplices(d: Dialect, cx: DeparseCxt, es: seq<Expr>, sep: seq<Piece>, a: seq<seq<Piece>>, b: seq<seq<Piece>>)
    requires es != [] && a != []
    requires Print(d, cx, es[0]) == Some(JoinPieces(a, sep))
    requires PrintTail(d, cx, es[1..], sep) == Some(JoinTail(b, sep))
    ensures PrintList(d, cx, es, sep) == Some(JoinPieces(a + b, sep))
    ensures PrintTail(d, cx, es, sep) == Some(JoinTail(a + b, sep))
  {
    JoinAppend(a, b, sep);
    var head, tail := JoinPieces(a, sep), JoinTail(b, sep);
    assert JoinTail(a, sep) == sep + head;
    assert sep + (head + tail) == (sep + head) + tail;
  }

  lemma {:induction false} BoolReadsBack(d: Dialect, cx: DeparseCxt, e: Expr)
    requires cx.quotable && Readable(d, cx, e) && e.Node? && e.head.Bool?
    ensures Print(d, cx, e).Some?
    ensures AsPrimary(Print(d, cx, e).value, Erase(cx.rel, e))
    decreases e, 3
  {
    var args, op := e.args, e.head.op;
    if op.NotOp? {
      NotReadsBack(d, cx, e);
    } else {
      var pss, sep := SplicedAll(d, cx, op, args), BoolSeparator(op);
      ArgumentsReadable(d, cx, e);
      ArgumentsReadBack(d, cx, op, args);
      RunReads(op, pss, EraseArguments(cx.rel, op, args));
      ParenReadsBack(JoinPieces(pss, sep), Erase(cx.rel, e));
      assert Print(d, cx, e) == Some(EnclosedPieces([P('(')], JoinPieces(pss, sep), ')'));
    }
  }

  lemma ParenReadsBack(ps: seq<Piece>, e: Sql)
    requires AsBody(ps, e)
    ensures AsPrimary(EnclosedPieces([P('(')], ps, ')'), e)
  {
    forall rest | Follows(Front(rest))
      ensures Phrase(EnclosedPieces([P('(')], ps, ')'), e, rest)
    {
      assert BodyPhrase(ps, e, [RPAREN] + rest);
      ParenPhrase(ps, e, rest);
    }
  }

  lemma {:induction false} NotReadsBack(d: Dialect, cx: DeparseCxt, e: Expr)
    requires cx.quotable && Readable(d, cx, e) && e.Node? && e.head.Bool? && e.head.op.NotOp?
    ensures Print(d, cx, e).Some?
    ensures AsPrimary(Print(d, cx, e).value, Erase(cx.rel, e))
    decreases e, 2
  {
    var arg := e.args[0];
    ArgumentsReadable(d, cx, e);
    NegationReadsBack(d, cx, arg);
    var a := Print(d, cx, arg).value;
    OneArgument(cx.rel, NotOp, e.args);
    assert Print(d, cx, e) == Some([P('('), Word("NOT"), Sp] + (a + [P(')')]));
    NotAsPrimary(a, Erase(cx.rel, arg));
  }

  lemma NotAsPrimary(a: seq<Piece>, ea: Sql)
    requires AsNegation(a, ea)
    ensures AsPrimary([P('('), Word("NOT"), Sp] + (a + [P(')')]), App(HNot, [ea]))
  {
    forall rest | Follows(Front(rest))
      ensures Phrase([P('('), Word("NOT"), Sp] + (a + [P(')')]), App(HNot, [ea]), rest)
    {
      assert NegationPhrase(a, ea, [RPAREN] + rest);
      NotPhrase(a, ea, rest);
    }
  }

  lemma OneArgument(rel: Rel, op: BoolOp, es: seq<Expr>)
    requires |es| == 1
    ensures EraseArguments(rel, op, es) == Splice(op, FormOf(es[0]), Erase(rel, es[0]))
  {
    assert EraseArguments(rel, op, es) == Splice(op, FormOf(es[0]), Erase(rel, es[0])) + [];
  }

  // ---------- subscripts ----------

  /** The bounds from the `i`-th subscript on read back. */
  ghost predicate BoundsRead(d: Dialect, cx: DeparseCxt, args: seq<Expr>, nUpper: nat, i: nat)
    requires |args| >= 1 + nUpper && i <= nUpper
  {
    var ps := PrintSubscripts(d, cx, args, nUpper, i);
    && ps.Some?
    && AsSubscripts(ps.value, Slices(|args|, nUpper, i), TextOrder(EraseAll(cx.rel, args), nUpper, i))
  }

  /** The tokens of the text are read as the tree. */
  ghost predicate TextReads(d: Dialect, cx: DeparseCxt, e: Expr) {
    Print(d, cx, e).Some? && AsBody(Print(d, cx, e).value, Erase(cx.rel, e))
  }

  lemma {:induction false} ArgumentTextsRead(d: Dialect, cx: DeparseCxt, args: seq<Expr>)
    requires cx.quotable && AllReadable(d, cx, args)
    ensures forall k :: 0 <= k < |args| ==> TextReads(d, cx, args[k])
    decreases args, 9
  {
    forall k | 0 <= k < |args|
      ensures TextReads(d, cx, args[k])
    {
      BodyReadsBack(d, cx, args[k]);
    }
  }

  lemma {:induction false} BoundsReadBack(d: Dialect, cx: DeparseCxt, args: seq<Expr>, nUpper: nat, i: nat)
    requires |args| >= 1 + nUpper && i <= nUpper
    ensures (forall k :: 0 <= k < |args| ==> TextReads(d, cx, args[k])) ==> BoundsRead(d, cx, args, nUpper, i)
    decreases nUpper - i
  {
    if i == nUpper {
      NoBounds(d, cx, args, nUpper);
    } else {
      BoundsReadBack(d, cx, args, nUpper, i + 1);
      BoundStep(d, cx, args, nUpper, i);
    }
  }

  lemma BoundStep(d: Dialect, cx: DeparseCxt, args: seq<Expr>, nUpper: nat, i: nat)
    requires |args| >= 1 + nUpper && i < nUpper
    ensures (forall k :: 0 <= k < |args| ==> TextReads(d, cx, args[k])) && BoundsRead(d, cx, args, nUpper, i + 1) ==>
              BoundsRead(d, cx, args, nUpper, i)
  {
    if (forall k :: 0 <= k < |args| ==> TextReads(d, cx, args[k])) && BoundsRead(d, cx, args, nUpper, i + 1) {
      assert TextReads(d, cx, args[1 + i]);
      if 1 + nUpper + i < |args| {
        SliceStep(d, cx, args, nUpper, i, args[1 + nUpper + i], args[1 + i]);
      } else {
        IndexStep(d, cx, args, nUpper, i, args[1 + i]);
      }
    }
  }

  lemma NoBounds(d: Dialect, cx: DeparseCxt, args: seq<Expr>, nUpper: nat)
    requires |args| >= 1 + nUpper
    ensures BoundsRead(d, cx, args, nUpper, nUpper)
  {
    NoSubscripts();
  }

  lemma SliceStep(d: Dialect, cx: DeparseCxt, args: seq<Expr>, nUpper: nat, i: nat, lower: Expr, upper: Expr)
    requires |args| > 1 + nUpper + i && i < nUpper && args[1 + nUpper + i] == lower && args[1 + i] == upper
    requires Print(d, cx, lower).Some? && Print(d, cx, upper).Some?
    ensures (&& AsBody(Print(d, cx, lower).value, Erase(cx.rel, lower))
             && AsBody(Print(d, cx, upper).value, Erase(cx.rel, upper))
             && BoundsRead(d, cx, args, nUpper, i + 1)) ==>
              BoundsRead(d, cx, args, nUpper, i)
  {
    if BoundsRead(d, cx, args, nUpper, i + 1) {
      var more := PrintSubscripts(d, cx, args, nUpper, i + 1).value;
      BoundPrints(d, cx, args, nUpper, i, Print(d, cx, lower), Print(d, cx, upper).value, more);
      SubscriptReads(Print(d, cx, lower), [Erase(cx.rel, lower)], Print(d, cx, upper).value, Erase(cx.rel, upper), more,
                     true, Slices(|args|, nUpper, i + 1), TextOrder(EraseAll(cx.rel, args), nUpper, i + 1));
      BoundTrees(cx.rel, args, nUpper, i);
    }
  }

  lemma IndexStep(d: Dialect, cx: DeparseCxt, args: seq<Expr>, nUpper: nat, i: nat, upper: Expr)
    requires 1 + nUpper <= |args| <= 1 + nUpper + i && i < nUpper && args[1 + i] == upper
    requires Print(d, cx, upper).Some?
    ensures (&& AsBody(Print(d, cx, upper).value, Erase(cx.rel, upper))
             && BoundsRead(d, cx, args, nUpper, i + 1)) ==>
              BoundsRead(d, cx, args, nUpper, i)
  {
    if BoundsRead(d, cx, args, nUpper, i + 1) {
      var more := PrintSubscripts(d, cx, args, nUpper, i + 1).value;
      BoundPrints(d, cx, args, nUpper, i, None, Print(d, cx, upper).value, more);
      SubscriptReads(None, [], Print(d, cx, upper).value, Erase(cx.rel, upper), more, false,
                     Slices(|args|, nUpper, i + 1), TextOrder(EraseAll(cx.rel, args), nUpper, i + 1));
      BoundTrees(cx.rel, args, nUpper, i);
    }
  }

  lemma BoundTrees(rel: Rel, args: seq<Expr>, nUpper: nat, i: nat)
    requires |args| >= 1 + nUpper && i < nUpper
    ensures
      var all, k := EraseAll(rel, args), 1 + nUpper + i;
      && Slices(|args|, nUpper, i) == [k < |args|] + Slices(|args|, nUpper, i + 1)
      && TextOrder(all, nUpper, i) ==
           (if k < |args| then [Erase(rel, args[k])] else [])
             + ([Erase(rel, args[1 + i])] + TextOrder(all, nUpper, i + 1))
  {
  }

  /** How one subscript and the following ones print. */
  lemma BoundPrints(d: Dialect, cx: DeparseCxt, args: seq<Expr>, nUpper: nat, i: nat,
                    lower: Option<seq<Piece>>, upper: seq<Piece>, more: seq<Piece>)
    requires |args| >= 1 + nUpper && i < nUpper && Print(d, cx, args[1 + i]) == Some(upper)
    requires if 1 + nUpper + i < |args| then lower.Some? && Print(d, cx, args[1 + nUpper + i]) == lower else lower.None?
    requires PrintSubscripts(d, cx, args, nUpper, i + 1) == Some(more)
    ensures PrintSubscripts(d, cx, args, nUpper, i) == Some(OneSubscript(lower, upper, more))
  {
  }

  lemma {:induction false} SubscriptReadsBack(d: Dialect, cx: DeparseCxt, e: Expr)
    requires cx.quotable && Readable(d, cx, e) && e.Node? && e.head.Subscript?
    ensures Print(d, cx, e).Some?
    ensures AsPrimary(Print(d, cx, e).value, Erase(cx.rel, e))
    decreases e, 3
  {
    var args, nUpper := e.args, e.head.nUpper;
    ArgumentsReadable(d, cx, e);
    ArgumentTextsRead(d, cx, args);
    BoundsReadBack(d, cx, args, nUpper, 0);
    assert TextReads(d, cx, args[0]);
    if args[0].Var? {
      ColumnReadsBack(d, cx, args[0]);
    } else {
      ParenReadsBack(Print(d, cx, args[0]).value, Erase(cx.rel, args[0]));
    }
    SubscriptFront(d, cx, args, nUpper);
    IndexedPhrase(Container(d, cx, args[0]), Erase(cx.rel, args[0]), PrintSubscripts(d, cx, args, nUpper, 0).value,
                  Slices(|args|, nUpper, 0), TextOrder(EraseAll(cx.rel, args), nUpper, 0));
    SubscriptPrints(d, cx, e.head, args);
  }

  /** What is indexed: a column as it is, anything else in parentheses. */
  function Container(d: Dialect, cx: DeparseCxt, e: Expr): seq<Piece> {
    if e.Var? then PrintedOr(Print(d, cx, e)) else EnclosedPieces([P('(')], PrintedOr(Print(d, cx, e)), ')')
  }

  lemma SubscriptPrints(d: Dialect, cx: DeparseCxt, h: Head, args: seq<Expr>)
    requires h.Subscript? && |args| >= 1 + h.nUpper
    requires Print(d, cx, args[0]).Some? && PrintSubscripts(d, cx, args, h.nUpper, 0).Some?
    ensures Print(d, cx, Node(h, args)) ==
            Some(IndexedPieces(Container(d, cx, args[0]), PrintSubscripts(d, cx, args, h.nUpper, 0).value))
    ensures Erase(cx.rel, Node(h, args)) ==
            App(HSubscript(Slices(|args|, h.nUpper, 0)),
                [Erase(cx.rel, args[0])] + TextOrder(EraseAll(cx.rel, args), h.nUpper, 0))
  {
    assert EraseAll(cx.rel, args)[..1] == [Erase(cx.rel, args[0])];
  }

  /** Subscripts start with a bracket. */
  lemma SubscriptFront(d: Dialect, cx: DeparseCxt, args: seq<Expr>, nUpper: nat)
    requires |args| >= 1 + nUpper && nUpper > 0 && PrintSubscripts(d, cx, args, nUpper, 0).Some?
    ensures Front(TokensOf(PrintSubscripts(d, cx, args, nUpper, 0).value)) == LBRACK
    ensures Slices(|args|, nUpper, 0) != []
  {
    var ps := PrintSubscripts(d, cx, args, nUpper, 0).value;
    assert ps[0] == P('[');
    assert TokensOf(ps) == [LBRACK] + TokensOf(ps[1..]);
  }
}
