/** The pieces of a legible tree are well spaced, so that scanning its text gives its tokens,
    and no two pieces ever run together (no `--`, no glued words). With the reading lemmas this
    gives the round trip on text.
 */
module Spacing {
  import opened Nodes
  import opened Lexical
  import opened Tokens
  import opened Words
  import opened Reader
  import opened ArrayPieces
  import opened Deparse
  import opened Phrases
  import opened ArrayRead
  import opened RoundTrip

  /** Anything may precede these pieces. */
  predicate Closes(ps: seq<Piece>) {
    ps != [] && (ps[0].Sp? || (ps[0].P? && ps[0].c != '.'))
  }

  /** Anything may follow these pieces. */
  predicate Opens(ps: seq<Piece>) {
    ps != [] && (ps[|ps| - 1].Sp? || ps[|ps| - 1].P?)
  }

  lemma Join(d: Dialect, a: seq<Piece>, b: seq<Piece>)
    requires WellSpaced(d, a) && WellSpaced(d, b)
    requires a == [] || b == [] || Opens(a) || Closes(b)
    ensures WellSpaced(d, a + b)
    ensures Closes(a) ==> Closes(a + b)
    ensures Opens(b) ==> Opens(a + b)
    ensures a == [] && Closes(b) ==> Closes(a + b)
  {
    JoinSpaced(d, a, b);
    if a == [] {
      assert a + b == b;
    }
  }

  /** Something between an opening and a closing run. */
  lemma Enclose(d: Dialect, a: seq<Piece>, b: seq<Piece>, c: seq<Piece>)
    requires WellSpaced(d, a) && WellSpaced(d, b) && WellSpaced(d, c)
    requires Opens(a) && Closes(c)
    ensures WellSpaced(d, a + (b + c))
  {
    Join(d, b, c);
    Join(d, a, b + c);
  }

  lemma OneSpaced(d: Dialect, p: Piece)
    requires PieceOk(d, p)
    ensures WellSpaced(d, [p])
  {
  }

  lemma FixedSpaced(d: Dialect, op: BoolOp)
    ensures WellSpaced(d, [P('(')]) && WellSpaced(d, [P(')')]) && WellSpaced(d, [P(']')]) && WellSpaced(d, [Sp])
    ensures WellSpaced(d, [P('(')] + [])
    ensures WellSpaced(d, [P(','), Sp]) && WellSpaced(d, [Sp, Word(BoolWord(op)), Sp])
    ensures WellSpaced(d, [Word("ARRAY"), P('[')]) && WellSpaced(d, [P('('), Word("NOT"), Sp])
    ensures WellSpaced(d, [])
  {
    WordAnd(); WordOr(); WordArray(); WordNot();
  }

  lemma PredicateWordsSpaced(d: Dialect)
    ensures WellSpaced(d, [Sp, Word("IS"), Sp, Word("DISTINCT"), Sp, Word("FROM"), Sp])
    ensures WellSpaced(d, [Sp, Word("IS"), Sp, Word("NULL"), P(')')])
    ensures WellSpaced(d, [Sp, Word("IS"), Sp, Word("NOT"), Sp, Word("NULL"), P(')')])
  {
    DistinctWordsSpaced(d);
    NullTestSpaced(d);
  }

  lemma GapSpaced(d: Dialect, w: string, t: Token)
    requires Reads(w, t)
    ensures WellSpaced(d, [Sp, Word(w)]) && WellSpaced(d, [Sp, Word(w), Sp])
  {
  }

  lemma DistinctWordsSpaced(d: Dialect)
    ensures WellSpaced(d, [Sp, Word("IS"), Sp, Word("DISTINCT"), Sp, Word("FROM"), Sp])
  {
    WordIs(); WordDistinct(); WordFrom();
    GapSpaced(d, "IS", Kw("is"));
    GapSpaced(d, "DISTINCT", Kw("distinct"));
    GapSpaced(d, "FROM", Kw("from"));
    Join(d, [Sp, Word("IS")], [Sp, Word("DISTINCT")]);
    Join(d, [Sp, Word("IS")] + [Sp, Word("DISTINCT")], [Sp, Word("FROM"), Sp]);
    assert ([Sp, Word("IS")] + [Sp, Word("DISTINCT")]) + [Sp, Word("FROM"), Sp] ==
           [Sp, Word("IS"), Sp, Word("DISTINCT"), Sp, Word("FROM"), Sp];
  }

  lemma NullTestSpaced(d: Dialect)
    ensures WellSpaced(d, [Sp, Word("IS"), Sp, Word("NULL"), P(')')])
    ensures WellSpaced(d, [Sp, Word("IS"), Sp, Word("NOT"), Sp, Word("NULL"), P(')')])
  {
    WordIs(); WordNot(); WordNull();
    GapSpaced(d, "IS", Kw("is"));
    GapSpaced(d, "NOT", Kw("not"));
    GapSpaced(d, "NULL", Kw("null"));
    Join(d, [Sp, Word("NULL")], [P(')')]);
    var end := [Sp, Word("NULL")] + [P(')')];
    Join(d, [Sp, Word("IS")], end);
    assert [Sp, Word("IS")] + end == [Sp, Word("IS"), Sp, Word("NULL"), P(')')];
    Join(d, [Sp, Word("NOT")], end);
    Join(d, [Sp, Word("IS")], [Sp, Word("NOT")] + end);
    assert [Sp, Word("IS")] + ([Sp, Word("NOT")] + end) == [Sp, Word("IS"), Sp, Word("NOT"), Sp, Word("NULL"), P(')')];
  }

  lemma OperatorSpaced(d: Dialect, h: Head, n: nat)
    requires h.OpCall? && OperatorReadable(d, h, n)
    ensures OperatorPieces(h.inCatalog, h.opname).Some?
    ensures WellSpaced(d, OperatorPieces(h.inCatalog, h.opname).value)
  {
    WordLike(); WordNot();
  }

  lemma ConstSpaced(d: Dialect, t: Oid, v: Datum)
    requires ConstReadable(d, t, v)
    ensures WellSpaced(d, ConstPieces(t, v))
  {
    WordNull(); WordTrue(); WordFalse();
  }

  lemma {:induction false} Spaced(d: Dialect, cx: DeparseCxt, e: Expr)
    requires ValidDialect(d) && cx.quotable && Legible(d, cx, e)
    ensures Print(d, cx, e).Some? && WellSpaced(d, Print(d, cx, e).value)
    decreases e, 5
  {
    LegiblePrints(d, cx, e);
    FixedSpaced(d, AndOp);
    if e.Node? && !e.head.ScalarArrayOp? {
      ArgumentsLegible(d, cx, e);
    }
    match e {
      case Var(_, varattno, _, _, _) => OneSpaced(d, Name(ColumnName(cx.rel, varattno).value));
      case Const(t, _, v) => ConstSpaced(d, t, v);
      case Node(h, args) =>
        match h {
          case Func(_, _, _, format, _, _, _, _) =>
            if format.ImplicitCast? {
              Spaced(d, cx, args[0]);
            } else {
              FuncSpaced(d, cx, e);
            }
          case OpCall(_, _, _, _, _, _, _) => OpSpaced(d, cx, e);
          case DistinctFrom(_, _, _, _, _) => DistinctSpaced(d, cx, e);
          case ScalarArrayOp(_, _, _, _, _) => ArrayOpSpaced(d, cx, e);
          case Relabel(_, _) => Spaced(d, cx, args[0]);
          case Bool(_) => BoolSpaced(d, cx, e);
          case NullTest(isNull) =>
            Spaced(d, cx, args[0]);
            PredicateWordsSpaced(d);
            Enclose(d, [P('(')], Print(d, cx, args[0]).value, NullTestEnd(isNull));
          case ArrayOf(_, _) =>
            ListSpaced(d, cx, args, [P(','), Sp]);
            Enclose(d, [Word("ARRAY"), P('[')], PrintList(d, cx, args, [P(','), Sp]).value, [P(']')]);
          case Subscript(_, _, _, _) => SubscriptSpaced(d, cx, e);
          case Agg(_, _, _, _, _, _, _, _, _, _) => AggSpaced(d, cx, e);
        }
    }
  }

  lemma {:induction false} DistinctSpaced(d: Dialect, cx: DeparseCxt, e: Expr)
    requires ValidDialect(d) && cx.quotable && Legible(d, cx, e) && e.Node? && e.head.DistinctFrom?
    ensures Print(d, cx, e).Some? && WellSpaced(d, Print(d, cx, e).value)
    decreases e, 3
  {
    var args := e.args;
    ArgumentsLegible(d, cx, e);
    Spaced(d, cx, args[0]);
    Spaced(d, cx, args[1]);
    FixedSpaced(d, AndOp);
    DistinctWordsSpaced(d);
    var a, b := Print(d, cx, args[0]).value, Print(d, cx, args[1]).value;
    Enclose(d, DISTINCT_FROM, b, [P(')')]);
    Enclose(d, [P('(')], a, DISTINCT_FROM + (b + [P(')')]));
    assert Print(d, cx, e) == Some(DistinctPieces(a, b));
  }

  lemma {:induction false} BoolSpaced(d: Dialect, cx: DeparseCxt, e: Expr)
    requires ValidDialect(d) && cx.quotable && Legible(d, cx, e) && e.Node? && e.head.Bool?
    ensures Print(d, cx, e).Some? && WellSpaced(d, Print(d, cx, e).value)
    decreases e, 3
  {
    var op, args := e.head.op, e.args;
    ArgumentsLegible(d, cx, e);
    FixedSpaced(d, op);
    if op.NotOp? {
      Spaced(d, cx, args[0]);
      Enclose(d, [P('('), Word("NOT"), Sp], Print(d, cx, args[0]).value, [P(')')]);
    } else {
      var sep := [Sp, Word(BoolWord(op)), Sp];
      ListSpaced(d, cx, args, sep);
      Enclose(d, [P('(')], PrintList(d, cx, args, sep).value, [P(')')]);
    }
  }

  lemma {:induction false} AggSpaced(d: Dialect, cx: DeparseCxt, e: Expr)
    requires ValidDialect(d) && cx.quotable && Legible(d, cx, e) && e.Node? && e.head.Agg?
    ensures Print(d, cx, e).Some? && WellSpaced(d, Print(d, cx, e).value)
    decreases e, 3
  {
    var h, args := e.head, e.args;
    ArgumentsLegible(d, cx, e);
    FixedSpaced(d, AndOp);
    ListSpaced(d, cx, args, [P(','), Sp]);
    OneSpaced(d, Sym("*"));
    OneSpaced(d, Name(h.name));
    var middle := if h.star then [Sym("*")] else PrintList(d, cx, args, [P(','), Sp]).value;
    Enclose(d, [P('(')] + [], middle, [P(')')]);
    Join(d, [Name(h.name)], ([P('(')] + []) + (middle + [P(')')]));
  }

  lemma {:induction false} OpSpaced(d: Dialect, cx: DeparseCxt, e: Expr)
    requires ValidDialect(d) && cx.quotable && Legible(d, cx, e) && e.Node? && e.head.OpCall?
    ensures Print(d, cx, e).Some? && WellSpaced(d, Print(d, cx, e).value)
    decreases e, 3
  {
    var h, args := e.head, e.args;
    ArgumentsLegible(d, cx, e);
    LegiblePrints(d, cx, e);
    FixedSpaced(d, AndOp);
    OperatorSpaced(d, h, |args|);
    Spaced(d, cx, args[|args| - 1]);
    var opp, right := OperatorPieces(h.inCatalog, h.opname).value, Print(d, cx, args[|args| - 1]).value;
    if |args| == 2 {
      Spaced(d, cx, args[0]);
      BinarySpaced(d, Print(d, cx, args[0]).value, opp, right);
      BinaryPrints(d, cx, h, args, Print(d, cx, args[0]).value, opp, right);
    } else {
      UnarySpaced(d, opp, right);
      UnaryPrints(d, cx, h, args, opp, right);
    }
  }

  lemma UnarySpaced(d: Dialect, op: seq<Piece>, right: seq<Piece>)
    requires WellSpaced(d, op) && WellSpaced(d, right)
    ensures WellSpaced(d, UnaryPieces(op, right)) && WellSpaced(d, op + ([Sp] + (right + [P(')')])))
  {
    FixedSpaced(d, AndOp);
    var tail := [Sp] + (right + [P(')')]);
    Enclose(d, [Sp], right, [P(')')]);
    Join(d, [Sp], right + [P(')')]);
    assert tail[0] == Sp;
    Join(d, op, tail);
    Join(d, [P('(')], op + tail);
  }

  lemma BinarySpaced(d: Dialect, left: seq<Piece>, op: seq<Piece>, right: seq<Piece>)
    requires WellSpaced(d, left) && WellSpaced(d, op) && WellSpaced(d, right)
    ensures WellSpaced(d, BinaryPieces(left, op, right))
  {
    FixedSpaced(d, AndOp);
    UnarySpaced(d, op, right);
    var tail := op + ([Sp] + (right + [P(')')]));
    Join(d, [Sp], tail);
    Enclose(d, [P('(')], left, [Sp] + tail);
  }

  lemma {:induction false} FuncSpaced(d: Dialect, cx: DeparseCxt, e: Expr)
    requires ValidDialect(d) && cx.quotable && Legible(d, cx, e)
    requires e.Node? && e.head.Func? && !e.head.format.ImplicitCast?
    ensures Print(d, cx, e).Some? && WellSpaced(d, Print(d, cx, e).value)
    decreases e, 3
  {
    var h, args := e.head, e.args;
    ArgumentsLegible(d, cx, e);
    LegiblePrints(d, cx, e);
    FixedSpaced(d, AndOp);
    ListSpaced(d, cx, args, [P(','), Sp]);
    var list := PrintList(d, cx, args, [P(','), Sp]).value;
    Enclose(d, [P('(')], list, [P(')')]);
    OneSpaced(d, Name(h.name));
    var call := [P('(')] + (list + [P(')')]);
    Join(d, [Name(h.name)], call);
    if h.schema.Some? {
      OneSpaced(d, Name(h.schema.value));
      OneSpaced(d, P('.'));
      JoinSpaced(d, [Name(h.schema.value)], [P('.')]);
      Join(d, [Name(h.schema.value)] + [P('.')], [Name(h.name)] + call);
    } else {
      Join(d, [], [Name(h.name)] + call);
    }
  }

  lemma {:induction false} ListSpaced(d: Dialect, cx: DeparseCxt, es: seq<Expr>, sep: seq<Piece>)
    requires ValidDialect(d) && cx.quotable && AllLegible(d, cx, es)
    requires WellSpaced(d, sep) && Closes(sep) && Opens(sep)
    ensures PrintList(d, cx, es, sep).Some? && WellSpaced(d, PrintList(d, cx, es, sep).value)
    ensures PrintTail(d, cx, es, sep).Some? && WellSpaced(d, PrintTail(d, cx, es, sep).value)
    ensures es != [] ==> Closes(PrintTail(d, cx, es, sep).value)
    decreases es, 8
  {
    forall i | 0 <= i < |es|
      ensures Print(d, cx, es[i]).Some?
    {
      LegiblePrints(d, cx, es[i]);
    }
    ListPrints(d, cx, es, sep);
    if es != [] {
      var e, tail := Print(d, cx, es[0]).value, PrintTail(d, cx, es[1..], sep).value;
      Spaced(d, cx, es[0]);
      ListSpaced(d, cx, es[1..], sep);
      Join(d, e, tail);
      Join(d, sep, e + tail);
    }
  }

  // ---------- array comparisons ----------

  lemma ElementSpaced(d: Dialect, isstr: bool, e: Option<string>)
    requires ElementReadable(d, isstr, e)
    ensures WellSpaced(d, ElementPieces(isstr, e))
  {
    if e.None? {
      WordNull();
      OneSpaced(d, Word("NULL"));
    } else if isstr {
      assert PieceOk(d, Escaped(e.value));
      OneSpaced(d, Escaped(e.value));
    } else if e.value != "" && e.value[0] == '-' {
      assert IsOperatorChar(d, "-"[0]);
      OneSpaced(d, Sym("-"));
      OneSpaced(d, Number(e.value[1..]));
      JoinSpaced(d, [Sym("-")], [Number(e.value[1..])]);
    } else {
      OneSpaced(d, Number(e.value));
    }
  }

  predicate AllSpaced(d: Dialect, pss: seq<seq<Piece>>) {
    forall i :: 0 <= i < |pss| ==> WellSpaced(d, pss[i])
  }

  lemma {:induction false} JoinAllSpaced(d: Dialect, pss: seq<seq<Piece>>, sep: seq<Piece>)
    requires AllSpaced(d, pss) && WellSpaced(d, sep) && Closes(sep) && Opens(sep)
    ensures WellSpaced(d, JoinPieces(pss, sep)) && WellSpaced(d, JoinTail(pss, sep))
    ensures pss != [] ==> Closes(JoinTail(pss, sep))
  {
    if pss != [] {
      JoinAllSpaced(d, pss[1..], sep);
      Join(d, pss[0], JoinTail(pss[1..], sep));
      Join(d, sep, JoinPieces(pss, sep));
    }
  }

  lemma {:induction false} ElementsSpaced(d: Dialect, isstr: bool, es: seq<Option<string>>)
    requires forall i :: 0 <= i < |es| ==> ElementReadable(d, isstr, es[i])
    ensures AllSpaced(d, ElementPiecesAll(isstr, es))
  {
    if es != [] {
      ElementSpaced(d, isstr, es[0]);
      ElementsSpaced(d, isstr, es[1..]);
    }
  }

  lemma OperatorGap(d: Dialect, opname: string)
    requires IsSymbolText(d, opname)
    ensures WellSpaced(d, [Sp, Sym(opname), Sp])
    ensures WellSpaced(d, InOpening(opname))
  {
    WordNot(); WordIn();
  }

  lemma {:induction false} ComparisonsSpaced(d: Dialect, left: seq<Piece>, opname: string, rights: seq<seq<Piece>>)
    requires WellSpaced(d, left) && IsSymbolText(d, opname) && AllSpaced(d, rights)
    ensures AllSpaced(d, ComparisonPiecesAll(left, opname, rights))
    ensures AllSpaced(d, ParenComparisons(left, opname, rights))
  {
    OperatorGap(d, opname);
    FixedSpaced(d, AndOp);
    forall i | 0 <= i < |rights|
      ensures WellSpaced(d, ComparisonPieces(left, opname, rights[i]))
      ensures WellSpaced(d, ParenComparison(left, opname, rights[i]))
    {
      ComparisonSpaced(d, left, opname, rights[i]);
    }
  }

  lemma ComparisonSpaced(d: Dialect, left: seq<Piece>, opname: string, right: seq<Piece>)
    requires WellSpaced(d, left) && IsSymbolText(d, opname) && WellSpaced(d, right)
    ensures WellSpaced(d, ComparisonPieces(left, opname, right))
    ensures WellSpaced(d, ParenComparison(left, opname, right))
  {
    OperatorGap(d, opname);
    FixedSpaced(d, AndOp);
    var gap := [Sp, Sym(opname), Sp];
    Join(d, gap, right);
    Join(d, left, gap + right);
    Enclose(d, gap, right, [P(')')]);
    Enclose(d, [P('(')], left, gap + (right + [P(')')]));
  }

  lemma InSpaced(d: Dialect, left: seq<Piece>, opname: string, elements: seq<seq<Piece>>)
    requires WellSpaced(d, left) && IsSymbolText(d, opname) && AllSpaced(d, elements)
    ensures WellSpaced(d, InPieces(left, opname, elements))
  {
    FixedSpaced(d, AndOp);
    OperatorGap(d, opname);
    JoinAllSpaced(d, elements, ITEM_SEPARATOR);
    Join(d, left, InOpening(opname));
    Enclose(d, left + InOpening(opname), JoinPieces(elements, ITEM_SEPARATOR), [P(')')]);
  }

  lemma {:induction false} ArrayOpSpaced(d: Dialect, cx: DeparseCxt, e: Expr)
    requires ValidDialect(d) && cx.quotable && Legible(d, cx, e) && e.Node? && e.head.ScalarArrayOp?
    ensures Print(d, cx, e).Some? && WellSpaced(d, Print(d, cx, e).value)
    decreases e, 4
  {
    if Children(e) == [] {
      WordNull();
      NullArrayPrints(d, cx, e);
    } else {
      var opname, right, op := e.head.opname, e.args[1], ChainOp(e.head.useOr);
      var left, elements := PrintedOr(Print(d, cx, e.args[0])), ElementRuns(d, cx, right);
      ChildrenPrint(d, cx, e);
      ArrayOpPrints(d, cx, e);
      OperandsLegible(d, cx, e);
      LegiblePrints(d, cx, e.args[0]);
      Spaced(d, cx, e.args[0]);
      ElementRunsSpaced(d, cx, e);
      if UsesIn(opname, e.head.useOr) {
        InSpaced(d, left, opname, elements);
      } else {
        ComparisonsSpaced(d, left, opname, elements);
        FixedSpaced(d, op);
        JoinAllSpaced(d, Comparisons(d, cx, opname, left, right), BoolSeparator(op));
      }
    }
  }

  lemma {:induction false} ElementRunsSpaced(d: Dialect, cx: DeparseCxt, e: Expr)
    requires ValidDialect(d) && cx.quotable && Legible(d, cx, e) && e.Node? && e.head.ScalarArrayOp?
    requires Children(e) != []
    ensures AllSpaced(d, ElementRuns(d, cx, e.args[1])) && IsSymbolText(d, e.head.opname)
    decreases e, 3
  {
    var right := e.args[1];
    OperandsLegible(d, cx, e);
    if right.Const? {
      ElementsSpaced(d, QuotesElements(right.consttype), right.datum.elems);
    } else {
      forall i | 0 <= i < |right.args|
        ensures WellSpaced(d, PrintAll(d, cx, right.args)[i])
      {
        LegiblePrints(d, cx, right.args[i]);
        Spaced(d, cx, right.args[i]);
      }
    }
  }

  // ---------- subscripts ----------

  lemma OneSubscriptSpaced(d: Dialect, lower: Option<seq<Piece>>, upper: seq<Piece>, more: seq<Piece>)
    requires (lower.Some? ==> WellSpaced(d, lower.value)) && WellSpaced(d, upper) && WellSpaced(d, more)
    requires more == [] || Closes(more)
    ensures WellSpaced(d, OneSubscript(lower, upper, more)) && Closes(OneSubscript(lower, upper, more))
  {
    OneSpaced(d, P('['));
    OneSpaced(d, P(':'));
    OneSpaced(d, P(']'));
    var end := [P(']')] + more;
    Join(d, [P(']')], more);
    Join(d, upper, end);
    if lower.Some? {
      Join(d, lower.value, [P(':')]);
      Join(d, lower.value + [P(':')], upper + end);
      Join(d, [P('[')], (lower.value + [P(':')]) + (upper + end));
    } else {
      assert [] + (upper + end) == upper + end;
      Join(d, [P('[')], upper + end);
    }
  }

  lemma {:induction false} BoundsSpaced(d: Dialect, cx: DeparseCxt, args: seq<Expr>, nUpper: nat, i: nat)
    requires ValidDialect(d) && cx.quotable && AllLegible(d, cx, args)
    requires Arity(Subscript(nUpper, false, 0, 0), |args|) && i <= nUpper
    ensures PrintSubscripts(d, cx, args, nUpper, i).Some?
    ensures WellSpaced(d, PrintSubscripts(d, cx, args, nUpper, i).value)
    ensures i < nUpper ==> Closes(PrintSubscripts(d, cx, args, nUpper, i).value)
    decreases args, 9, nUpper - i
  {
    if i < nUpper {
      var upper := args[1 + i];
      BoundsSpaced(d, cx, args, nUpper, i + 1);
      Spaced(d, cx, upper);
      var lower := None;
      if 1 + nUpper + i < |args| {
        Spaced(d, cx, args[1 + nUpper + i]);
        lower := Print(d, cx, args[1 + nUpper + i]);
      }
      var more := PrintSubscripts(d, cx, args, nUpper, i + 1).value;
      BoundPrints(d, cx, args, nUpper, i, lower, Print(d, cx, upper).value, more);
      OneSubscriptSpaced(d, lower, Print(d, cx, upper).value, more);
    }
  }

  lemma {:induction false} SubscriptSpaced(d: Dialect, cx: DeparseCxt, e: Expr)
    requires ValidDialect(d) && cx.quotable && Legible(d, cx, e) && e.Node? && e.head.Subscript?
    ensures Print(d, cx, e).Some? && WellSpaced(d, Print(d, cx, e).value)
    decreases e, 3
  {
    var args := e.args;
    ArgumentsLegible(d, cx, e);
    Spaced(d, cx, args[0]);
    ContainerSpaced(d, cx, args[0]);
    BoundsSpaced(d, cx, args, e.head.nUpper, 0);
    SubscriptPrints(d, cx, e.head, args);
    IndexedSpaced(d, Container(d, cx, args[0]), PrintSubscripts(d, cx, args, e.head.nUpper, 0).value);
  }

  lemma ContainerSpaced(d: Dialect, cx: DeparseCxt, e: Expr)
    requires Print(d, cx, e).Some? && WellSpaced(d, Print(d, cx, e).value)
    ensures WellSpaced(d, Container(d, cx, e))
  {
    FixedSpaced(d, AndOp);
    Enclose(d, [P('(')], Print(d, cx, e).value, [P(')')]);
  }

  lemma IndexedSpaced(d: Dialect, container: seq<Piece>, subscripts: seq<Piece>)
    requires WellSpaced(d, container) && WellSpaced(d, subscripts) && Closes(subscripts)
    ensures WellSpaced(d, IndexedPieces(container, subscripts))
  {
    FixedSpaced(d, AndOp);
    Join(d, subscripts, [P(')')]);
    Enclose(d, [P('(')], container, subscripts + [P(')')]);
  }

  // ---------- the round trip on text ----------

  /** Read a whole text as one expression. */
  function ReadText(d: Dialect, s: string): Option<Sql> {
    match Lex(d, s)
    case None => None
    case Some(ts) =>
      match Primary(ts)
      case Fail => None
      case Ok(e, rest) => if rest == [] then Some(e) else None
  }

  /** Printing then reading is the identity on readable trees: the reader applied to the deparsed
      text returns the erased tree and consumes all of the text. */
  lemma TextRoundTrip(d: Dialect, cx: DeparseCxt, e: Expr)
    requires ValidDialect(d) && cx.quotable && Readable(d, cx, e) && FormOf(e) == PrimaryForm
    ensures Print(d, cx, e).Some?
    ensures ReadText(d, Render(d, Print(d, cx, e).value)) == Some(Erase(cx.rel, e))
  {
    ReadableIsLegible(d, cx, e);
    Spaced(d, cx, e);
    LexRender(d, Print(d, cx, e).value);
    ReadsBack(d, cx, e);
    var ps := Print(d, cx, e).value;
    assert Phrase(ps, Erase(cx.rel, e), []);
    assert TokensOf(ps) + [] == TokensOf(ps);
  }

  /** In parentheses, as a condition of the WHERE clause stands, every readable tree reads back. */
  lemma ConditionRoundTrip(d: Dialect, cx: DeparseCxt, e: Expr)
    requires ValidDialect(d) && cx.quotable && Readable(d, cx, e)
    ensures Print(d, cx, e).Some?
    ensures ReadText(d, "(" + Render(d, Print(d, cx, e).value) + ")") == Some(Erase(cx.rel, e))
  {
    ReadableIsLegible(d, cx, e);
    Spaced(d, cx, e);
    BodyReadsBack(d, cx, e);
    var ps := Print(d, cx, e).value;
    var whole := EnclosedPieces([P('(')], ps, ')');
    ParenReadsBack(ps, Erase(cx.rel, e));
    FixedSpaced(d, AndOp);
    Enclose(d, [P('(')], ps, [P(')')]);
    RenderEnclosed(d, ps);
    LexRender(d, whole);
    assert Phrase(whole, Erase(cx.rel, e), []);
    assert TokensOf(whole) + [] == TokensOf(whole);
  }

  lemma RenderEnclosed(d: Dialect, ps: seq<Piece>)
    ensures Render(d, EnclosedPieces([P('(')], ps, ')')) == "(" + Render(d, ps) + ")"
  {
    RenderShort(d, [P('(')]);
    RenderShort(d, [P(')')]);
    RenderAppend(d, ps, [P(')')]);
    RenderAppend(d, [P('(')], ps + [P(')')]);
  }

  /** Two readable trees that print alike are read alike: no two meanings share a text. */
  lemma TextDeterminesTree(d: Dialect, cx: DeparseCxt, e: Expr, f: Expr)
    requires ValidDialect(d) && cx.quotable && Readable(d, cx, e) && Readable(d, cx, f)
    requires Print(d, cx, e).Some? && Print(d, cx, f).Some?
    requires Render(d, Print(d, cx, e).value) == Render(d, Print(d, cx, f).value)
    ensures Erase(cx.rel, e) == Erase(cx.rel, f)
  {
    ConditionRoundTrip(d, cx, e);
    ConditionRoundTrip(d, cx, f);
  }
}
