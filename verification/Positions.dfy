/** Where an array comparison may stand. Its text has no parentheses of its own, so whether a node reads
    back depends on the form of each argument's text: a legible node whose arguments are readable reads
    back if and only if every form fits its place.
 */
module Positions {
  import opened Nodes
  import opened Lexical
  import opened Tokens
  import opened Reader
  import opened ArrayPieces
  import opened Deparse
  import opened Phrases
  import opened ArrayRead
  import opened RoundTrip
  import opened Spacing
  import opened Streams

  // ---------- operands as rows ----------

  /** Comparisons without any parentheses: IN lists and comparisons with an array constant. */
  predicate Bare(e: Expr) {
    match e
    case Node(h, args) =>
      if Invisible(h) && args != [] then Bare(args[0])
      else h.ScalarArrayOp? && |args| == 2 && FormOf(e) != PrimaryForm && (UsesIn(h.opname, h.useOr) || args[1].Const?)
    case _ => false
  }

  /** The trees an operand's text consists of. */
  function OperandTrees(rel: Rel, e: Expr): (r: seq<Sql>)
    ensures r != [] || FormOf(e).ChainForm?
  {
    if FormOf(e).ChainForm? && Erase(rel, e).App? then Erase(rel, e).args else [Erase(rel, e)]
  }

  function OperandOp(e: Expr): BoolOp {
    if FormOf(e).ChainForm? then FormOf(e).op else AndOp
  }

  function RunOf(d: Dialect, cx: DeparseCxt, e: Expr): Run {
    Run(if FormOf(e).ChainForm? then Parts(d, cx, e) else [PrintedOr(Print(d, cx, e))],
        OperandTrees(cx.rel, e), OperandOp(e), Bare(e))
  }

  /** Every readable operand is a row of parts. */
  lemma {:induction false} RunIsGood(d: Dialect, cx: DeparseCxt, e: Expr)
    requires cx.quotable && Readable(d, cx, e)
    ensures Print(d, cx, e) == Some(RunPieces(RunOf(d, cx, e))) && RunTree(RunOf(d, cx, e)) == Erase(cx.rel, e)
    ensures GoodRun(RunOf(d, cx, e))
    ensures Alone(RunOf(d, cx, e)) <==> FormOf(e) == PrimaryForm
    ensures |RunOf(d, cx, e).parts| > 1 <==> FormOf(e).ChainForm?
  {
    if e.Node? && Invisible(e.head) {
      ArgumentsReadable(d, cx, e);
      RunIsGood(d, cx, e.args[0]);
      assert RunOf(d, cx, e) == RunOf(d, cx, e.args[0]);
    } else if FormOf(e) == PrimaryForm {
      ReadsBack(d, cx, e);
      JoinOne([Print(d, cx, e).value], BoolSeparator(AndOp));
    } else {
      ArrayRunIsGood(d, cx, e);
    }
  }

  lemma ArrayRunIsGood(d: Dialect, cx: DeparseCxt, e: Expr)
    requires cx.quotable && Readable(d, cx, e) && e.Node? && !Invisible(e.head) && FormOf(e) != PrimaryForm
    ensures Print(d, cx, e) == Some(RunPieces(RunOf(d, cx, e))) && RunTree(RunOf(d, cx, e)) == Erase(cx.rel, e)
    ensures GoodRun(RunOf(d, cx, e)) && !Alone(RunOf(d, cx, e))
    ensures |RunOf(d, cx, e).parts| > 1 <==> FormOf(e).ChainForm?
  {
    var r := RunOf(d, cx, e);
    ArrayOpReadsBack(d, cx, e);
    if FormOf(e).ChainForm? {
      ChainReadsBack(d, cx, e);
    } else {
      PredicateReadsBack(d, cx, e);
      JoinOne(r.parts, BoolSeparator(AndOp));
    }
    if r.bare {
      BareRunCuts(d, cx, e);
    }
  }

  /** A bare row is cut off by an operator, which takes the left side of its first comparison. */
  lemma BareRunCuts(d: Dialect, cx: DeparseCxt, e: Expr)
    requires cx.quotable && Readable(d, cx, e) && e.Node? && !Invisible(e.head) && Bare(e)
    requires Print(d, cx, e) == Some(RunPieces(RunOf(d, cx, e)))
    ensures CutOff(RunPieces(RunOf(d, cx, e))) && TakesPrefix(RunOf(d, cx, e).parts[0])
  {
    var left, right, opname := e.args[0], e.args[1], e.head.opname;
    var r := RunOf(d, cx, e);
    OperandsReadable(d, cx, e);
    ReadsBack(d, cx, left);
    ArrayOpReadsBack(d, cx, e);
    var L, el := Print(d, cx, left).value, Erase(cx.rel, left);
    if UsesIn(opname, e.head.useOr) {
      ItemsReadBack(d, cx, e);
      InTakesPrefix(L, el, opname, ElementRuns(d, cx, right), ElementTrees(cx.rel, right));
    } else {
      var isstr, es := QuotesElements(right.consttype), right.datum.elems;
      var pss := Comparisons(d, cx, opname, L, right);
      ElementReads(isstr, es[0]);
      ComparisonTakesPrefix(L, el, opname, ElementPieces(isstr, es[0]), ElementSql(isstr, es[0]));
      FirstComparison(L, opname, isstr, es);
      CutOffAppend(pss[0], JoinTail(pss[1..], BoolSeparator(ChainOp(e.head.useOr))));
      if !FormOf(e).ChainForm? {
        JoinOne(pss, BoolSeparator(ChainOp(e.head.useOr)));
      }
    }
  }

  lemma FirstComparison(left: seq<Piece>, opname: string, isstr: bool, es: seq<Option<string>>)
    requires es != []
    ensures ComparisonPiecesAll(left, opname, ElementPiecesAll(isstr, es))[0] ==
            ComparisonPieces(left, opname, ElementPieces(isstr, es[0]))
  {
  }

  /** The items of an IN list. */
  lemma ItemsReadBack(d: Dialect, cx: DeparseCxt, e: Expr)
    requires cx.quotable && e.Node? && e.head.ScalarArrayOp? && LegibleNode(d, cx, e) && Children(e) != []
    requires e.args[1].Node? ==> AllReadable(d, cx, e.args[1].args)
    ensures ElementRuns(d, cx, e.args[1]) != []
    ensures AsBodies(ElementRuns(d, cx, e.args[1]), ElementTrees(cx.rel, e.args[1]))
  {
    var right := e.args[1];
    if right.Const? {
      ElementItems(QuotesElements(right.consttype), right.datum.elems);
    } else {
      BodiesReadBack(d, cx, right.args);
    }
  }

  // ---------- misfits ----------

  /** The arguments are readable, whatever their forms. */
  predicate GoodArguments(d: Dialect, cx: DeparseCxt, e: Expr) {
    e.Node? && LegibleNode(d, cx, e) && forall i :: 0 <= i < |Children(e)| ==> Readable(d, cx, Children(e)[i])
  }

  lemma ArgumentRuns(d: Dialect, cx: DeparseCxt, e: Expr)
    requires cx.quotable && GoodArguments(d, cx, e) && !e.head.ScalarArrayOp?
    ensures AllReadable(d, cx, e.args) && Children(e) == e.args
    ensures forall i :: 0 <= i < |e.args| ==>
              GoodRun(RunOf(d, cx, e.args[i])) && Print(d, cx, e.args[i]) == Some(RunPieces(RunOf(d, cx, e.args[i])))
  {
    forall i | 0 <= i < |e.args|
      ensures Readable(d, cx, e.args[i]) && GoodRun(RunOf(d, cx, e.args[i]))
      ensures Print(d, cx, e.args[i]) == Some(RunPieces(RunOf(d, cx, e.args[i])))
    {
      assert Children(e)[i] == e.args[i];
      RunIsGood(d, cx, e.args[i]);
    }
  }

  lemma FirstMisfit(e: Expr) returns (i: nat)
    requires e.Node? && !Fits(e)
    ensures i < |Children(e)| && !Suits(e.head, i, FormOf(Children(e)[i]))
  {
    i :| 0 <= i < |Children(e)| && !Suits(e.head, i, FormOf(Children(e)[i]));
  }

  /** An operator with an operand that is not a primary. */
  lemma OperatorMisreads(d: Dialect, cx: DeparseCxt, e: Expr)
    requires cx.quotable && GoodArguments(d, cx, e) && e.head.OpCall? && !Fits(e)
    ensures Print(d, cx, e).Some? && Misread(Print(d, cx, e).value, Erase(cx.rel, e))
  {
    var h, args := e.head, e.args;
    var i := FirstMisfit(e);
    ArgumentRuns(d, cx, e);
    RunIsGood(d, cx, args[i]);
    var op := OperatorPieces(h.inCatalog, h.opname).value;
    TokensOperator(h.inCatalog, h.opname);
    var r := RunOf(d, cx, args[|args| - 1]);
    if |args| == 2 {
      var l := RunOf(d, cx, args[0]);
      BinaryPrints(d, cx, h, args, RunPieces(l), op, RunPieces(r));
      EraseTwo(cx.rel, args);
      BinaryMisreads(l, h.opname, op, r, Erase(cx.rel, e));
    } else {
      UnaryPrints(d, cx, h, args, op, RunPieces(r));
      EraseOne(cx.rel, args);
      UnaryMisreads(h.opname, r, Erase(cx.rel, e));
    }
  }

  lemma BinaryMisreads(l: Run, opname: string, op: seq<Piece>, r: Run, e: Sql)
    requires GoodRun(l) && GoodRun(r) && !(Alone(l) && Alone(r)) && TokensOf(op) == OperatorTokens(opname)
    requires e.App? && e.head != HAnd && e.head != HOr
    ensures Misread(BinaryPieces(RunPieces(l), op, RunPieces(r)), e)
  {
    OperatorDispatches(opname);
    forall rest | Follows(Front(rest))
      ensures MisPhrase(BinaryPieces(RunPieces(l), op, RunPieces(r)), e, rest)
    {
      var close := [RPAREN] + rest;
      BinaryTokens(RunPieces(l), op, RunPieces(r), rest);
      InfixStrays(l, OperatorTokens(opname), HBinary(BinaryName(opname)), r, close, e);
      StrayInParens(TokensOf(RunPieces(l)) + (OperatorTokens(opname) + (TokensOf(RunPieces(r)) + close)), rest, e);
    }
  }

  lemma UnaryMisreads(opname: string, r: Run, e: Sql)
    requires GoodRun(r) && !Alone(r) && e.App? && e.head == HUnary(opname)
    ensures Misread(UnaryPieces([Sym(opname)], RunPieces(r)), e)
  {
    forall rest | Follows(Front(rest))
      ensures MisPhrase(UnaryPieces([Sym(opname)], RunPieces(r)), e, rest)
    {
      var close := [RPAREN] + rest;
      UnaryTokens(opname, RunPieces(r), rest);
      PrefixStrays(opname, r, close, e);
      StrayInParens([Oper(opname)] + (TokensOf(RunPieces(r)) + close), rest, e);
    }
  }

  lemma DistinctMisreads(d: Dialect, cx: DeparseCxt, e: Expr)
    requires cx.quotable && GoodArguments(d, cx, e) && e.head.DistinctFrom? && !Fits(e)
    ensures Print(d, cx, e).Some? && Misread(Print(d, cx, e).value, Erase(cx.rel, e))
  {
    var i := FirstMisfit(e);
    ArgumentRuns(d, cx, e);
    RunIsGood(d, cx, e.args[i]);
    var l, r := RunOf(d, cx, e.args[0]), RunOf(d, cx, e.args[1]);
    var words := [Kw("is"), Kw("distinct"), Kw("from")];
    EraseTwo(cx.rel, e.args);
    DistinctDispatches();
    assert Print(d, cx, e) == Some(DistinctPieces(RunPieces(l), RunPieces(r)));
    forall rest | Follows(Front(rest))
      ensures MisPhrase(DistinctPieces(RunPieces(l), RunPieces(r)), Erase(cx.rel, e), rest)
    {
      var close := [RPAREN] + rest;
      DistinctTokens(RunPieces(l), RunPieces(r), rest);
      InfixStrays(l, words, HDistinct, r, close, Erase(cx.rel, e));
      StrayInParens(TokensOf(RunPieces(l)) + (words + (TokensOf(RunPieces(r)) + close)), rest, Erase(cx.rel, e));
    }
  }

  lemma NullTestMisreads(d: Dialect, cx: DeparseCxt, e: Expr)
    requires cx.quotable && GoodArguments(d, cx, e) && e.head.NullTest? && !Fits(e)
    ensures Print(d, cx, e).Some? && Misread(Print(d, cx, e).value, Erase(cx.rel, e))
  {
    var i := FirstMisfit(e);
    ArgumentRuns(d, cx, e);
    RunIsGood(d, cx, e.args[i]);
    var l, words := RunOf(d, cx, e.args[0]), NullTestWords(e.head.isNull);
    EraseOne(cx.rel, e.args);
    NullTestEnds(e.head.isNull);
    assert Print(d, cx, e) == Some([P('(')] + (RunPieces(l) + NullTestEnd(e.head.isNull)));
    forall rest | Follows(Front(rest))
      ensures MisPhrase([P('(')] + (RunPieces(l) + NullTestEnd(e.head.isNull)), Erase(cx.rel, e), rest)
    {
      NullTestTokens(RunPieces(l), e.head.isNull, rest);
      PostfixStrays(l, words, [RPAREN] + rest, Erase(cx.rel, e));
      StrayInParens(TokensOf(RunPieces(l)) + (words + ([RPAREN] + rest)), rest, Erase(cx.rel, e));
    }
  }

  lemma NotMisreads(d: Dialect, cx: DeparseCxt, e: Expr)
    requires cx.quotable && GoodArguments(d, cx, e) && e.head.Bool? && e.head.op.NotOp? && !Fits(e)
    ensures Print(d, cx, e).Some? && Misread(Print(d, cx, e).value, Erase(cx.rel, e))
  {
    var i := FirstMisfit(e);
    ArgumentRuns(d, cx, e);
    RunIsGood(d, cx, e.args[i]);
    var r := RunOf(d, cx, e.args[0]);
    var ps := [P('('), Word("NOT"), Sp] + (RunPieces(r) + [P(')')]);
    assert Print(d, cx, e) == Some(ps);
    forall rest | Follows(Front(rest))
      ensures MisPhrase(ps, Erase(cx.rel, e), rest)
    {
      NotTokens(RunPieces(r), rest);
      NotStrays(r, [RPAREN] + rest, Erase(cx.rel, e));
      StrayInParens([Kw("not")] + (TokensOf(RunPieces(r)) + ([RPAREN] + rest)), rest, Erase(cx.rel, e));
    }
  }

  // ---------- AND over rows ----------

  /** The trees of the arguments of an AND, chains taken apart. */
  function RowTrees(rel: Rel, es: seq<Expr>): seq<Sql> {
    if es == [] then [] else OperandTrees(rel, es[0]) + RowTrees(rel, es[1..])
  }

  /** The connectives between them. */
  function RowOps(rel: Rel, es: seq<Expr>): seq<BoolOp> {
    if es == [] then []
    else
      Copies(OperandOp(es[0]), |OperandTrees(rel, es[0])| - (if OperandTrees(rel, es[0]) == [] then 0 else 1))
      + (if |es| == 1 then [] else [AndOp] + RowOps(rel, es[1..]))
  }

  /** The arguments of an AND are a row of all their parts. */
  lemma {:induction false} AndStream(d: Dialect, cx: DeparseCxt, es: seq<Expr>, close: seq<Token>)
    requires cx.quotable && AllReadable(d, cx, es) && es != [] && Front(close) == RPAREN
    ensures Stream(TokensOf(JoinPieces(PrintAll(d, cx, es), BoolSeparator(AndOp))) + close,
                   RowTrees(cx.rel, es), RowOps(cx.rel, es), close)
  {
    var pss, l := PrintAll(d, cx, es), RunOf(d, cx, es[0]);
    var ts := TokensOf(JoinPieces(pss, BoolSeparator(AndOp))) + close;
    RunIsGood(d, cx, es[0]);
    assert pss[0] == RunPieces(l);
    RowStep(cx.rel, es);
    if |es| == 1 {
      JoinOne(pss, BoolSeparator(AndOp));
      WholeRow(l, close);
    } else {
      var us := TokensOf(JoinPieces(PrintAll(d, cx, es[1..]), BoolSeparator(AndOp))) + close;
      assert pss[1..] == PrintAll(d, cx, es[1..]);
      AndStream(d, cx, es[1..], close);
      JoinStep(AndOp, pss, close);
      RowThenAnd(l, us, RowTrees(cx.rel, es[1..]), RowOps(cx.rel, es[1..]), close);
    }
  }

  lemma RowStep(rel: Rel, es: seq<Expr>)
    requires es != [] && OperandTrees(rel, es[0]) != []
    ensures
      var trees := OperandTrees(rel, es[0]);
      var ops := Copies(OperandOp(es[0]), |trees| - 1);
      if |es| == 1 then RowTrees(rel, es) == trees && RowOps(rel, es) == ops
      else
        && RowTrees(rel, es) == trees + RowTrees(rel, es[1..])
        && RowOps(rel, es) == ops + ([AndOp] + RowOps(rel, es[1..]))
  {
    if |es| == 1 {
      assert es[1..] == [];
    }
  }

  lemma WholeRow(l: Run, close: seq<Token>)
    requires GoodRun(l) && Stops(Front(close))
    ensures Stream(TokensOf(RunPieces(l)) + close, l.trees, Copies(l.op, |l.parts| - 1), close)
  {
    PartsAreNegations(l);
    assert AsNegation(l.parts[|l.parts| - 1], l.trees[|l.parts| - 1]);
    assert NegationPhrase(l.parts[|l.parts| - 1], l.trees[|l.parts| - 1], close);
    PartsInRow(l.op, l.parts, l.trees, close);
  }

  lemma RowThenAnd(l: Run, us: seq<Token>, fs: seq<Sql>, ls: seq<BoolOp>, close: seq<Token>)
    requires GoodRun(l) && Stream(us, fs, ls, close)
    ensures Stream(TokensOf(RunPieces(l)) + ([Kw("and")] + us), l.trees + fs,
                   Copies(l.op, |l.parts| - 1) + ([AndOp] + ls), close)
  {
    var k := |l.parts| - 1;
    PartsAreNegations(l);
    assert AsNegation(l.parts[k], l.trees[k]);
    FirstOfStream(l.parts[k], l.trees[k], AndOp, us, fs, ls, close);
    RowThenStream(l, [Kw("and")] + us, [l.trees[k]] + fs, [AndOp] + ls, close);
    LastBack(l.trees, fs);
  }

  lemma LastBack<T>(all: seq<T>, fs: seq<T>)
    requires all != []
    ensures all[..|all| - 1] + ([all[|all| - 1]] + fs) == all + fs
  {
  }

  lemma {:induction false} OrInRow(d: Dialect, cx: DeparseCxt, es: seq<Expr>, i: nat)
    requires cx.quotable && AllReadable(d, cx, es) && i < |es|
    requires FormOf(es[i]) == ChainForm(OrOp)
    ensures OrOp in RowOps(cx.rel, es)
  {
    if i == 0 {
      RunIsGood(d, cx, es[0]);
      assert RowOps(cx.rel, es)[0] == OrOp;
    } else {
      OrInRow(d, cx, es[1..], i - 1);
    }
  }

  /** An AND of readable arguments reads as the row of all their parts, grouped by precedence. */
  lemma AndReadsAsRow(d: Dialect, cx: DeparseCxt, e: Expr)
    requires cx.quotable && GoodArguments(d, cx, e) && e.head.Bool? && e.head.op.AndOp?
    ensures Print(d, cx, e).Some? && |RowTrees(cx.rel, e.args)| == |RowOps(cx.rel, e.args)| + 1
    ensures AsPrimary(Print(d, cx, e).value, FlatTree(RowTrees(cx.rel, e.args), RowOps(cx.rel, e.args)))
  {
    var inner := JoinPieces(PrintAll(d, cx, e.args), BoolSeparator(AndOp));
    AndPrints(d, cx, e);
    RowCount(d, cx, e.args);
    var ps, t := EnclosedPieces([P('(')], inner, ')'), FlatTree(RowTrees(cx.rel, e.args), RowOps(cx.rel, e.args));
    forall rest | Follows(Front(rest))
      ensures Phrase(ps, t, rest)
    {
      AndStream(d, cx, e.args, [RPAREN] + rest);
      EnclosedStream(inner, RowTrees(cx.rel, e.args), RowOps(cx.rel, e.args), rest);
    }
  }

  lemma AndPrints(d: Dialect, cx: DeparseCxt, e: Expr)
    requires cx.quotable && GoodArguments(d, cx, e) && e.head.Bool? && e.head.op.AndOp?
    ensures AllReadable(d, cx, e.args) && e.args != []
    ensures Print(d, cx, e) ==
            Some(EnclosedPieces([P('(')], JoinPieces(PrintAll(d, cx, e.args), BoolSeparator(AndOp)), ')'))
  {
    ArgumentRuns(d, cx, e);
    ListPrints(d, cx, e.args, BoolSeparator(AndOp));
  }

  lemma RowCount(d: Dialect, cx: DeparseCxt, es: seq<Expr>)
    requires cx.quotable && AllReadable(d, cx, es) && es != []
    ensures |RowTrees(cx.rel, es)| == |RowOps(cx.rel, es)| + 1
  {
    AndStream(d, cx, es, [RPAREN]);
  }

  lemma EnclosedStream(inner: seq<Piece>, es: seq<Sql>, ks: seq<BoolOp>, rest: seq<Token>)
    requires Stream(TokensOf(inner) + ([RPAREN] + rest), es, ks, [RPAREN] + rest)
    ensures Phrase(EnclosedPieces([P('(')], inner, ')'), FlatTree(es, ks), rest)
  {
    StreamReads(TokensOf(inner) + ([RPAREN] + rest), es, ks, [RPAREN] + rest);
    ParenPhrase(inner, FlatTree(es, ks), rest);
  }

  lemma OtherTreeMisreads(ps: seq<Piece>, t: Sql, e: Sql)
    requires AsPrimary(ps, t) && t != e
    ensures Misread(ps, e)
  {
    forall rest | Follows(Front(rest))
      ensures MisPhrase(ps, e, rest)
    {
      assert Phrase(ps, t, rest);
    }
  }

  lemma AndMisreads(d: Dialect, cx: DeparseCxt, e: Expr)
    requires cx.quotable && GoodArguments(d, cx, e) && e.head.Bool? && e.head.op.AndOp? && !Fits(e)
    ensures Print(d, cx, e).Some? && Misread(Print(d, cx, e).value, Erase(cx.rel, e))
  {
    var i := FirstMisfit(e);
    ArgumentRuns(d, cx, e);
    AndReadsAsRow(d, cx, e);
    OrInRow(d, cx, e.args, i);
    var trees, ops := RowTrees(cx.rel, e.args), RowOps(cx.rel, e.args);
    FlatHead(trees, ops);
    OtherTreeMisreads(Print(d, cx, e).value, FlatTree(trees, ops), Erase(cx.rel, e));
  }

  // ---------- array comparisons of rows ----------

  lemma GoodOperands(d: Dialect, cx: DeparseCxt, e: Expr)
    requires GoodArguments(d, cx, e) && e.head.ScalarArrayOp? && Children(e) != []
    ensures Readable(d, cx, e.args[0]) && (e.args[1].Node? ==> AllReadable(d, cx, e.args[1].args))
  {
    var cs := Children(e);
    assert cs[0] == e.args[0];
    if e.args[1].Node? {
      forall i | 0 <= i < |e.args[1].args|
        ensures Readable(d, cx, e.args[1].args[i])
      {
        assert cs[i + 1] == e.args[1].args[i];
      }
    }
  }

  lemma OperandRuns(d: Dialect, cx: DeparseCxt, e: Expr)
    requires cx.quotable && GoodArguments(d, cx, e) && e.head.ScalarArrayOp? && Children(e) != []
    ensures e.args[1].Node? ==> AllReadable(d, cx, e.args[1].args)
    ensures GoodRun(RunOf(d, cx, e.args[0])) && RunTree(RunOf(d, cx, e.args[0])) == Erase(cx.rel, e.args[0])
    ensures Print(d, cx, e.args[0]) == Some(RunPieces(RunOf(d, cx, e.args[0])))
    ensures Alone(RunOf(d, cx, e.args[0])) <==> FormOf(e.args[0]) == PrimaryForm
  {
    GoodOperands(d, cx, e);
    RunIsGood(d, cx, e.args[0]);
  }

  lemma InListMisreads(d: Dialect, cx: DeparseCxt, e: Expr)
    requires cx.quotable && GoodArguments(d, cx, e) && e.head.ScalarArrayOp? && !Fits(e)
    requires UsesIn(e.head.opname, e.head.useOr)
    ensures Print(d, cx, e).Some? && Misread(EnclosedPieces([P('(')], Print(d, cx, e).value, ')'), Erase(cx.rel, e))
  {
    var i := FirstMisfit(e);
    var opname, elements, es := e.head.opname, ElementRuns(d, cx, e.args[1]), ElementTrees(cx.rel, e.args[1]);
    OperandRuns(d, cx, e);
    ArrayOperandsPrint(d, cx, e);
    ArrayOpPrints(d, cx, e);
    ItemsReadBack(d, cx, e);
    assert i == 0 && Children(e)[0] == e.args[0];
    InRunMisreads(RunOf(d, cx, e.args[0]), opname, elements, es, Erase(cx.rel, e));
  }

  lemma InRunMisreads(l: Run, opname: string, elements: seq<seq<Piece>>, es: seq<Sql>, e: Sql)
    requires GoodRun(l) && !Alone(l) && elements != [] && AsBodies(elements, es)
    requires e.App? && e.head != HAnd && e.head != HOr
    ensures Misread(EnclosedPieces([P('(')], InPieces(RunPieces(l), opname, elements), ')'), e)
  {
    var ps := InPieces(RunPieces(l), opname, elements);
    InEnds(opname, elements, es);
    forall rest | Follows(Front(rest))
      ensures MisPhrase(EnclosedPieces([P('(')], ps, ')'), e, rest)
    {
      var close := [RPAREN] + rest;
      InTokens(RunPieces(l), opname, elements, close);
      InEndThen(opname, elements, close);
      PostfixStrays(l, InEnd(opname, elements), close, e);
      EnclosedStrays(ps, e, rest);
    }
  }

  lemma EnclosedStrays(ps: seq<Piece>, e: Sql, rest: seq<Token>)
    requires Stray(TokensOf(ps) + ([RPAREN] + rest), [RPAREN] + rest, e)
    ensures MisPhrase(EnclosedPieces([P('(')], ps, ')'), e, rest)
  {
    var inner := TokensOf(ps) + ([RPAREN] + rest);
    StrayInParens(inner, rest, e);
    assert TokensOf(EnclosedPieces([P('(')], ps, ')')) + rest == [LPAREN] + inner by {
      TokOne(P('('));
      EnclosedTokens([P('(')], ps, ')', rest);
    }
  }

  lemma ConstChainMisreads(d: Dialect, cx: DeparseCxt, e: Expr)
    requires cx.quotable && GoodArguments(d, cx, e) && e.head.ScalarArrayOp? && !Fits(e)
    requires !UsesIn(e.head.opname, e.head.useOr) && e.args[1].Const?
    ensures Print(d, cx, e).Some? && Misread(EnclosedPieces([P('(')], Print(d, cx, e).value, ')'), Erase(cx.rel, e))
  {
    var i := FirstMisfit(e);
    var opname, op := e.head.opname, ChainOp(e.head.useOr);
    var isstr, es := QuotesElements(e.args[1].consttype), e.args[1].datum.elems;
    OperandRuns(d, cx, e);
    ArrayOperandsPrint(d, cx, e);
    ArrayOpPrints(d, cx, e);
    ConstOperands(d, isstr, es);
    assert i == 0 && Children(e)[0] == e.args[0];
    ChainRunMisreads(RunOf(d, cx, e.args[0]), opname, op, ElementPiecesAll(isstr, es), ElementSqls(isstr, es));
  }

  lemma ChainRunMisreads(l: Run, o: string, op: BoolOp, rights: seq<seq<Piece>>, es: seq<Sql>)
    requires GoodRun(l) && !Alone(l) && !op.NotOp? && rights != [] && |rights| == |es|
    requires forall i :: 0 <= i < |es| ==> AsOperand(rights[i], es[i])
    ensures
      var ps := JoinPieces(ComparisonPiecesAll(RunPieces(l), o, rights), BoolSeparator(op));
      Misread(EnclosedPieces([P('(')], ps, ')'),
              if |es| == 1 then ComparisonSql(RunTree(l), o, es[0])
              else App(BoolHead(op), ComparisonSqls(RunTree(l), o, es)))
  {
    var ps := JoinPieces(ComparisonPiecesAll(RunPieces(l), o, rights), BoolSeparator(op));
    var e := if |es| == 1 then ComparisonSql(RunTree(l), o, es[0])
             else App(BoolHead(op), ComparisonSqls(RunTree(l), o, es));
    forall rest | Follows(Front(rest))
      ensures MisPhrase(EnclosedPieces([P('(')], ps, ')'), e, rest)
    {
      ChainStrays(l, o, op, rights, es, [RPAREN] + rest);
      EnclosedStrays(ps, e, rest);
    }
  }

  lemma {:induction false} ConstOperands(d: Dialect, isstr: bool, es: seq<Option<string>>)
    requires forall i :: 0 <= i < |es| ==> ElementReadable(d, isstr, es[i])
    ensures forall i :: 0 <= i < |es| ==> AsOperand(ElementPiecesAll(isstr, es)[i], ElementSqls(isstr, es)[i])
  {
    if es != [] {
      ElementReads(isstr, es[0]);
      ConstOperands(d, isstr, es[1..]);
    }
  }

  /** One parenthesized comparison: right if both operands are primaries, misread otherwise. */
  lemma ParenComparisonOutcome(l: Run, o: string, r: Run)
    requires GoodRun(l) && GoodRun(r)
    ensures PartReads(ParenComparison(RunPieces(l), o, RunPieces(r)), ComparisonSql(RunTree(l), o, RunTree(r)))
    ensures !(Alone(l) && Alone(r)) ==>
              Misread(ParenComparison(RunPieces(l), o, RunPieces(r)), ComparisonSql(RunTree(l), o, RunTree(r)))
  {
    var ps, e := ParenComparison(RunPieces(l), o, RunPieces(r)), ComparisonSql(RunTree(l), o, RunTree(r));
    ParenComparisonTokens(RunPieces(l), o, RunPieces(r), []);
    assert TokensOf(ps) + [] == TokensOf(ps);
    if Alone(l) && Alone(r) {
      JoinedOne(l.op, l.parts);
      JoinedOne(r.op, r.parts);
      assert AsPrimary(l.parts[0], l.trees[0]) && AsPrimary(r.parts[0], r.trees[0]);
      ParenComparisonPhrase(RunPieces(l), RunTree(l), o, RunPieces(r), RunTree(r));
    } else {
      SymbolDispatches(o);
      forall rest | Follows(Front(rest))
        ensures MisPhrase(ps, e, rest)
      {
        var close := [RPAREN] + rest;
        ParenComparisonTokens(RunPieces(l), o, RunPieces(r), rest);
        InfixStrays(l, [Oper(o)], HBinary(o), r, close, e);
        StrayInParens(TokensOf(RunPieces(l)) + ([Oper(o)] + (TokensOf(RunPieces(r)) + close)), rest, e);
      }
    }
  }

  /** The comparison with the `k`-th element of an ARRAY[...]. */
  lemma ElementOutcome(d: Dialect, cx: DeparseCxt, e: Expr, k: nat)
    requires cx.quotable && GoodArguments(d, cx, e) && e.head.ScalarArrayOp? && e.args[1].Node? && k < |e.args[1].args|
    ensures
      var ps := ParenComparison(PrintedOr(Print(d, cx, e.args[0])), e.head.opname,
                                PrintedOr(Print(d, cx, e.args[1].args[k])));
      var t := ComparisonSql(Erase(cx.rel, e.args[0]), e.head.opname, Erase(cx.rel, e.args[1].args[k]));
      && PartReads(ps, t)
      && (FormOf(e.args[0]) != PrimaryForm || FormOf(e.args[1].args[k]) != PrimaryForm ==> Misread(ps, t))
  {
    var cs, x := Children(e), e.args[1].args[k];
    assert cs[0] == e.args[0] && cs[k + 1] == x;
    RunIsGood(d, cx, e.args[0]);
    RunIsGood(d, cx, x);
    ParenComparisonOutcome(RunOf(d, cx, e.args[0]), e.head.opname, RunOf(d, cx, x));
  }

  lemma ArrayChainMisreads(d: Dialect, cx: DeparseCxt, e: Expr)
    requires cx.quotable && GoodArguments(d, cx, e) && e.head.ScalarArrayOp? && !Fits(e)
    requires !UsesIn(e.head.opname, e.head.useOr) && e.args[1].Node?
    ensures Print(d, cx, e).Some? && Misread(EnclosedPieces([P('(')], Print(d, cx, e).value, ')'), Erase(cx.rel, e))
  {
    var i := FirstMisfit(e);
    var bad := if i == 0 then 0 else i - 1;
    var opname, es := e.head.opname, e.args[1].args;
    var pss := ParenComparisons(PrintedOr(Print(d, cx, e.args[0])), opname, PrintAll(d, cx, es));
    var trees := ComparisonSqls(Erase(cx.rel, e.args[0]), opname, EraseAll(cx.rel, es));
    ArrayOperandsPrint(d, cx, e);
    ArrayOpPrints(d, cx, e);
    forall k | 0 <= k < |es|
      ensures PartReads(pss[k], trees[k])
    {
      ElementOutcome(d, cx, e, k);
    }
    MisfitElement(e, i);
    ElementOutcome(d, cx, e, bad);
    RowMisreads(ChainOp(e.head.useOr), pss, trees, bad);
  }

  lemma MisfitElement(e: Expr, i: nat)
    requires e.Node? && e.head.ScalarArrayOp? && |e.args| == 2 && e.args[1].Node? && e.args[1].head.ArrayOf?
    requires i < |Children(e)| && !Suits(e.head, i, FormOf(Children(e)[i]))
    ensures FormOf(e.args[0]) != PrimaryForm || (i > 0 && FormOf(e.args[1].args[i - 1]) != PrimaryForm)
  {
    assert Children(e)[0] == e.args[0];
  }

  lemma ArrayOperandsPrint(d: Dialect, cx: DeparseCxt, e: Expr)
    requires cx.quotable && GoodArguments(d, cx, e)
    ensures forall i :: 0 <= i < |Children(e)| ==> Print(d, cx, Children(e)[i]).Some?
  {
    forall i | 0 <= i < |Children(e)|
      ensures Print(d, cx, Children(e)[i]).Some?
    {
      ReadableIsLegible(d, cx, Children(e)[i]);
      LegiblePrints(d, cx, Children(e)[i]);
    }
  }

  lemma RowMisreads(op: BoolOp, pss: seq<seq<Piece>>, es: seq<Sql>, bad: nat)
    requires |pss| == |es| && !op.NotOp? && bad < |pss| && Misread(pss[bad], es[bad])
    requires forall i :: 0 <= i < |pss| ==> PartReads(pss[i], es[i])
    ensures Misread(EnclosedPieces([P('(')], JoinPieces(pss, BoolSeparator(op)), ')'),
                    if |es| == 1 then es[0] else App(BoolHead(op), es))
  {
    var ps, e := JoinPieces(pss, BoolSeparator(op)), if |es| == 1 then es[0] else App(BoolHead(op), es);
    forall rest | Follows(Front(rest))
      ensures MisPhrase(EnclosedPieces([P('(')], ps, ')'), e, rest)
    {
      RowStrays(op, pss, es, bad, [RPAREN] + rest);
      EnclosedStrays(ps, e, rest);
    }
  }

  // ---------- the theorem ----------

  /** More parentheses do not help. */
  lemma MisreadInParens(ps: seq<Piece>, e: Sql)
    requires Misread(ps, e) && Front(TokensOf(ps)) == LPAREN
    ensures Misread(EnclosedPieces([P('(')], ps, ')'), e)
  {
    forall rest | Follows(Front(rest))
      ensures MisPhrase(EnclosedPieces([P('(')], ps, ')'), e, rest)
    {
      var close := [RPAREN] + rest;
      var ts := TokensOf(ps) + close;
      assert MisPhrase(ps, e, close);
      if Primary(ts).Fail? {
        assert ts[0] == LPAREN;
        PrimaryFails(ts);
      } else {
        PrimaryIsBody(ts, Primary(ts).v, close);
      }
      EnclosedStrays(ps, e, rest);
    }
  }

  lemma PrimaryFails(ts: seq<Token>)
    requires Primary(ts).Fail? && ts != [] && ts[0] == LPAREN
    ensures Body(ts).Fail?
  {
    assert Indexed(ts).Fail? && Operand(ts).Fail? && Predicate(ts).Fail?;
    assert Negation(ts).Fail? && Conjunction(ts).Fail?;
  }

  lemma OpensWithParen(a: seq<Piece>, b: seq<Piece>)
    requires a != [] && a[0] == P('(')
    ensures Front(TokensOf(a + b)) == LPAREN
  {
    TokensAppend(a, b);
    assert TokensOf(a) == [LPAREN] + TokensOf(a[1..]);
  }

  /** A node with an argument that does not fit is misread. */
  lemma MisfitMisreads(d: Dialect, cx: DeparseCxt, e: Expr)
    requires cx.quotable && GoodArguments(d, cx, e) && !Fits(e)
    ensures Print(d, cx, e).Some? && Misread(EnclosedPieces([P('(')], Print(d, cx, e).value, ')'), Erase(cx.rel, e))
  {
    var h := e.head;
    if h.ScalarArrayOp? {
      if UsesIn(h.opname, h.useOr) {
        InListMisreads(d, cx, e);
      } else if e.args[1].Const? {
        ConstChainMisreads(d, cx, e);
      } else {
        ArrayChainMisreads(d, cx, e);
      }
    } else {
      SelfEnclosedMisreads(d, cx, e);
      MisreadInParens(Print(d, cx, e).value, Erase(cx.rel, e));
    }
  }

  lemma SelfEnclosedMisreads(d: Dialect, cx: DeparseCxt, e: Expr)
    requires cx.quotable && GoodArguments(d, cx, e) && !Fits(e) && !e.head.ScalarArrayOp?
    ensures Print(d, cx, e).Some? && Misread(Print(d, cx, e).value, Erase(cx.rel, e))
    ensures Front(TokensOf(Print(d, cx, e).value)) == LPAREN
  {
    var i := FirstMisfit(e);
    match e.head {
      case OpCall(_, _, _, _, _, _, _) => OperatorMisreads(d, cx, e);
      case DistinctFrom(_, _, _, _, _) => DistinctMisreads(d, cx, e);
      case NullTest(_) => NullTestMisreads(d, cx, e);
      case Bool(op) =>
        if op.NotOp? {
          NotMisreads(d, cx, e);
        } else {
          AndMisreads(d, cx, e);
        }
    }
    var ps := Print(d, cx, e).value;
    assert ps[0] == P('(');
    OpensWithParen(ps[..1], ps[1..]);
    assert ps[..1] + ps[1..] == ps;
  }

  /** The condition as the WHERE clause shows it. */
  function Shown(d: Dialect, cx: DeparseCxt, e: Expr): string {
    "(" + Render(d, PrintedOr(Print(d, cx, e))) + ")"
  }

  /** So shown, the text reads as the tree. */
  ghost predicate ReadsRight(d: Dialect, cx: DeparseCxt, e: Expr) {
    Print(d, cx, e).Some? && ReadText(d, Shown(d, cx, e)) == Some(Erase(cx.rel, e))
  }

  /** Exactly where array comparisons may stand: a legible node whose arguments are readable reads back
      if and only if the form of every argument's text fits its place. */
  lemma ReadsRightIffFits(d: Dialect, cx: DeparseCxt, e: Expr)
    requires ValidDialect(d) && cx.quotable && GoodArguments(d, cx, e)
    ensures ReadsRight(d, cx, e) <==> Fits(e)
  {
    if Fits(e) {
      ConditionRoundTrip(d, cx, e);
    } else {
      MisfitMisreads(d, cx, e);
      forall i | 0 <= i < |Children(e)|
        ensures Legible(d, cx, Children(e)[i])
      {
        ReadableIsLegible(d, cx, Children(e)[i]);
      }
      ParenText(d, cx, e);
      assert MisPhrase(EnclosedPieces([P('(')], Print(d, cx, e).value, ')'), Erase(cx.rel, e), []);
    }
  }

  /** Reading the parenthesized text is reading its tokens. */
  lemma ParenText(d: Dialect, cx: DeparseCxt, e: Expr)
    requires ValidDialect(d) && cx.quotable && Legible(d, cx, e)
    ensures Print(d, cx, e).Some?
    ensures
      var whole := EnclosedPieces([P('(')], Print(d, cx, e).value, ')');
      Lex(d, Shown(d, cx, e)) == Some(TokensOf(whole) + [])
  {
    Spaced(d, cx, e);
    var ps := Print(d, cx, e).value;
    var whole := EnclosedPieces([P('(')], ps, ')');
    FixedSpaced(d, AndOp);
    Enclose(d, [P('(')], ps, [P(')')]);
    RenderEnclosed(d, ps);
    LexRender(d, whole);
    assert TokensOf(whole) + [] == TokensOf(whole);
  }

  ghost predicate AllReadRight(d: Dialect, cx: DeparseCxt, e: Expr) {
    ReadsRight(d, cx, e) && forall i :: 0 <= i < |Children(e)| ==> AllReadRight(d, cx, Children(e)[i])
  }

  /** So among legible trees the readable ones are exactly those that read back in every subexpression. */
  lemma {:induction false} ReadableIffAllReadRight(d: Dialect, cx: DeparseCxt, e: Expr)
    requires ValidDialect(d) && cx.quotable && Legible(d, cx, e)
    ensures Readable(d, cx, e) <==> AllReadRight(d, cx, e)
  {
    forall i | 0 <= i < |Children(e)|
      ensures Readable(d, cx, Children(e)[i]) <==> AllReadRight(d, cx, Children(e)[i])
    {
      ReadableIffAllReadRight(d, cx, Children(e)[i]);
    }
    if Readable(d, cx, e) {
      ConditionRoundTrip(d, cx, e);
    } else if AllReadRight(d, cx, e) && e.Node? {
      assert GoodArguments(d, cx, e);
      ReadsRightIffFits(d, cx, e);
    }
  }

  /** The exact reading of a text that is a primary. */
  lemma ReadsAs(d: Dialect, cx: DeparseCxt, e: Expr, t: Sql)
    requires ValidDialect(d) && cx.quotable && Legible(d, cx, e) && Print(d, cx, e).Some?
    requires AsPrimary(Print(d, cx, e).value, t)
    ensures ReadText(d, Shown(d, cx, e)) == Some(t)
  {
    var ps := Print(d, cx, e).value;
    ParenText(d, cx, e);
    PrimaryAsNegation(ps, t);
    NegationAsConjunction(ps, t);
    ConjunctionAsBody(ps, t);
    ParenReadsBack(ps, t);
    assert Phrase(EnclosedPieces([P('(')], ps, ')'), t, []);
  }

  lemma GoodArgumentsLegible(d: Dialect, cx: DeparseCxt, e: Expr)
    requires GoodArguments(d, cx, e)
    ensures Legible(d, cx, e)
  {
    forall i | 0 <= i < |Children(e)|
      ensures Legible(d, cx, Children(e)[i])
    {
      ReadableIsLegible(d, cx, Children(e)[i]);
    }
  }

  /** NOT over a chain takes only its first comparison. */
  lemma NotReadsAsRow(d: Dialect, cx: DeparseCxt, e: Expr)
    requires cx.quotable && GoodArguments(d, cx, e) && e.head.Bool? && e.head.op.NotOp? && FormOf(e.args[0]).ChainForm?
    ensures Print(d, cx, e).Some? && OperandTrees(cx.rel, e.args[0]) != []
    ensures
      var trees := OperandTrees(cx.rel, e.args[0]);
      AsPrimary(Print(d, cx, e).value,
                App(BoolHead(FormOf(e.args[0]).op), [App(HNot, [trees[0]])] + trees[1..]))
  {
    var r := RunOf(d, cx, e.args[0]);
    ArgumentRuns(d, cx, e);
    RunIsGood(d, cx, e.args[0]);
    var ps := [P('('), Word("NOT"), Sp] + (RunPieces(r) + [P(')')]);
    assert Print(d, cx, e) == Some(ps);
    NotRunReads(r, ps, NegatedRow(r.op, r.trees));
  }

  /** The tree of a row whose first part is negated. */
  function NegatedRow(op: BoolOp, trees: seq<Sql>): Sql
    requires trees != []
  {
    if |trees| == 1 then App(HNot, [trees[0]]) else App(BoolHead(op), [App(HNot, [trees[0]])] + trees[1..])
  }

  lemma NegatedRowIs(op: BoolOp, trees: seq<Sql>)
    requires trees != [] && !op.NotOp?
    ensures NegatedRow(op, trees) == FlatTree([App(HNot, [trees[0]])] + trees[1..], Copies(op, |trees| - 1))
  {
    FlatCopies(op, [App(HNot, [trees[0]])] + trees[1..]);
  }

  lemma NotRunReads(r: Run, ps: seq<Piece>, t: Sql)
    requires GoodRun(r) && ps == [P('('), Word("NOT"), Sp] + (RunPieces(r) + [P(')')])
    requires t == NegatedRow(r.op, r.trees)
    ensures AsPrimary(ps, t)
  {
    NegatedRowIs(r.op, r.trees);
    forall rest | Follows(Front(rest))
      ensures Phrase(ps, t, rest)
    {
      NotRunPhrase(r, rest);
    }
  }

  lemma NotRunPhrase(r: Run, rest: seq<Token>)
    requires GoodRun(r)
    ensures Phrase([P('('), Word("NOT"), Sp] + (RunPieces(r) + [P(')')]),
                   FlatTree([App(HNot, [r.trees[0]])] + r.trees[1..], Copies(r.op, |r.parts| - 1)), rest)
  {
    var trees := [App(HNot, [r.trees[0]])] + r.trees[1..];
    var ts := [Kw("not")] + (TokensOf(RunPieces(r)) + ([RPAREN] + rest));
    NotTokens(RunPieces(r), rest);
    NotRow(r, [RPAREN] + rest);
    StreamReads(ts, trees, Copies(r.op, |r.parts| - 1), [RPAREN] + rest);
    ParenReads(ts, FlatTree(trees, Copies(r.op, |r.parts| - 1)), rest);
  }
}
