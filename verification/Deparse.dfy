/** Printing expressions as SQL text (deparse.c, second half).

    `Print` gives the pieces an expression is printed as, or None where the deparser raises an
    error; the methods append the same text to the output buffer.
 */
module Deparse {
  import opened Nodes
  import opened Lexical
  import opened Tokens
  import opened ArrayText
  import opened ArrayPieces

  /** What the deparser is given: the scan relation, and whether the server's quote string has the
      one length that is supported. */
  datatype DeparseCxt = DeparseCxt(rel: Rel, quotable: bool)

  type Pieces = Option<seq<Piece>>

  function Cat(a: Pieces, b: Pieces): Pieces {
    if a.None? || b.None? then None else Some(a.value + b.value)
  }

  function NamePieces(cx: DeparseCxt, ident: string): Pieces {
    if cx.quotable then Some([Name(ident)]) else None
  }

  function ColumnPieces(cx: DeparseCxt, attno: int): Pieces {
    match ColumnName(cx.rel, attno)
    case None => None
    case Some(n) => NamePieces(cx, n)
  }

  // ---------- constants ----------

  function OutputText(v: Datum): string
    requires !v.NullDatum?
  {
    match v
    case Scalar(t) => t
    case ArrayDatum(es) => ArrayOut(es)
  }

  predicate IsNumericType(t: Oid) {
    || t == INT2OID || t == INT4OID || t == INT8OID || t == OIDOID
    || t == FLOAT4OID || t == FLOAT8OID || t == NUMERICOID
  }

  predicate IsNumericChar(c: char) {
    IsDigit(c) || c == '+' || c == '-' || c == 'e' || c == 'E' || c == '.'
  }

  predicate AllNumericChars(s: string) {
    forall i :: 0 <= i < |s| ==> IsNumericChar(s[i])
  }

  function ConstPieces(consttype: Oid, v: Datum): seq<Piece> {
    if v.NullDatum? then [Word("NULL")]
    else
      var ext := OutputText(v);
      if IsNumericType(consttype) then
        if !AllNumericChars(ext) then [Plain(ext)]
        else if ext != "" && (ext[0] == '+' || ext[0] == '-') then
          [P('('), Sym(ext[..1]), Number(ext[1..]), P(')')]
        else [Number(ext)]
      else if consttype == BITOID || consttype == VARBITOID then [BitString(ext)]
      else if consttype == BOOLOID then [Word(if ext == "t" then "true" else "false")]
      else [Literal(ext)]
  }

  // ---------- operators ----------

  predicate IsRegexOperator(name: string) {
    name == "~~*" || name == "!~~*" || name == "~" || name == "!~" || name == "~*" || name == "!~*"
  }

  function OperatorPieces(inCatalog: bool, name: string): Pieces {
    if !inCatalog then None
    else if name == "~~" then Some([Word("LIKE")])
    else if name == "!~~" then Some([Word("NOT"), Sp, Word("LIKE")])
    else if IsRegexOperator(name) then None
    else Some([Sym(name)])
  }

  // ---------- expressions ----------

  function Print(d: Dialect, cx: DeparseCxt, e: Expr): Pieces
    decreases e, 0
  {
    match e
    case Var(varno, varattno, varlevelsup, _, _) =>
      if varno == cx.rel.relid && varlevelsup == 0 then ColumnPieces(cx, varattno) else None
    case Const(consttype, _, v) => Some(ConstPieces(consttype, v))
    case Param => None
    case Node(h, args) =>
      match h
      case Func(_, schema, name, format, _, _, _, _) =>
        if format.ImplicitCast? then
          if args == [] then None else Print(d, cx, args[0])
        else
          Cat(if schema.None? then Some([]) else Cat(NamePieces(cx, schema.value), Some([P('.')])),
              Cat(NamePieces(cx, name),
                  Cat(Some([P('(')]), Cat(PrintList(d, cx, args, [P(','), Sp]), Some([P(')')])))))
      case OpCall(_, inCatalog, opname, _, _, _, _) =>
        if |args| == 2 then
          Cat(Some([P('(')]),
              Cat(Print(d, cx, args[0]),
                  Cat(Some([Sp]),
                      Cat(OperatorPieces(inCatalog, opname),
                          Cat(Some([Sp]), Cat(Print(d, cx, args[1]), Some([P(')')])))))))
        else if |args| == 1 then
          Cat(Some([P('(')]),
              Cat(OperatorPieces(inCatalog, opname),
                  Cat(Some([Sp]), Cat(Print(d, cx, args[0]), Some([P(')')])))))
        else None
      case DistinctFrom(_, _, _, _, _) =>
        if |args| != 2 then None
        else
          Cat(Some([P('(')]),
              Cat(Print(d, cx, args[0]),
                  Cat(Some([Sp, Word("IS"), Sp, Word("DISTINCT"), Sp, Word("FROM"), Sp]),
                      Cat(Print(d, cx, args[1]), Some([P(')')])))))
      case ScalarArrayOp(_, opname, useOr, _, _) =>
        if |args| != 2 then None
        else
          var left := Print(d, cx, args[0]);
          PrintScalarArray(d, cx, opname, useOr, left, args[1])
      case Relabel(_, _) => if args == [] then None else Print(d, cx, args[0])
      case Bool(op) =>
        if op.NotOp? then
          if args == [] then None
          else Cat(Some([P('('), Word("NOT"), Sp]), Cat(Print(d, cx, args[0]), Some([P(')')])))
        else
          Cat(Some([P('(')]),
              Cat(PrintList(d, cx, args, [Sp, Word(BoolWord(op)), Sp]), Some([P(')')])))
      case NullTest(isNull) =>
        if args == [] then None
        else
          Cat(Some([P('(')]),
              Cat(Print(d, cx, args[0]),
                  Some(if isNull then [Sp, Word("IS"), Sp, Word("NULL"), P(')')]
                       else [Sp, Word("IS"), Sp, Word("NOT"), Sp, Word("NULL"), P(')')])))
      case ArrayOf(_, _) =>
        Cat(Some([Word("ARRAY"), P('[')]),
            Cat(PrintList(d, cx, args, [P(','), Sp]), Some([P(']')])))
      case Subscript(nUpper, _, _, _) =>
        if |args| < 1 + nUpper then None
        else
          Cat(Some([P('(')]),
              Cat(if args[0].Var? then Print(d, cx, args[0])
                  else Cat(Some([P('(')]), Cat(Print(d, cx, args[0]), Some([P(')')]))),
                  Cat(PrintSubscripts(d, cx, args, nUpper, 0), Some([P(')')]))))
      case Agg(_, name, star, _, distinct, _, filtered, _, _, _) =>
        if filtered then None
        else
          Cat(NamePieces(cx, name),
              Cat(Some([P('(')] + if distinct then [Word("DISTINCT"), Sp] else []),
                  Cat(if star then Some([Sym("*")]) else PrintList(d, cx, args, [P(','), Sp]),
                      Some([P(')')]))))
      case OtherNode => None
  }

  /** A list with `sep` between its elements. */
  function PrintList(d: Dialect, cx: DeparseCxt, es: seq<Expr>, sep: seq<Piece>): Pieces
    decreases es, 1
  {
    if es == [] then Some([]) else Cat(Print(d, cx, es[0]), PrintTail(d, cx, es[1..], sep))
  }

  /** A list with `sep` before each element. */
  function PrintTail(d: Dialect, cx: DeparseCxt, es: seq<Expr>, sep: seq<Piece>): Pieces
    decreases es, 0
  {
    if es == [] then Some([])
    else Cat(Some(sep), Cat(Print(d, cx, es[0]), PrintTail(d, cx, es[1..], sep)))
  }

  /** The bracketed subscripts from the `i`-th on, a lower bound printed while there is one. */
  function PrintSubscripts(d: Dialect, cx: DeparseCxt, args: seq<Expr>, nUpper: nat, i: nat): Pieces
    requires |args| >= 1 + nUpper && i <= nUpper
    decreases args, 1, nUpper - i
  {
    if i == nUpper then Some([])
    else
      Cat(Some([P('[')]),
          Cat(LowerBound(d, cx, args, nUpper, i),
              Cat(Print(d, cx, args[1 + i]),
                  Cat(Some([P(']')]), PrintSubscripts(d, cx, args, nUpper, i + 1)))))
  }

  function LowerBound(d: Dialect, cx: DeparseCxt, args: seq<Expr>, nUpper: nat, i: nat): Pieces
    requires |args| >= 1 + nUpper && i < nUpper
    decreases args, 0, 0
  {
    if 1 + nUpper + i < |args| then Cat(Print(d, cx, args[1 + nUpper + i]), Some([P(':')])) else Some([])
  }

  /** `left op ANY/ALL (right)`, given how the left operand prints. */
  function PrintScalarArray(d: Dialect, cx: DeparseCxt, opname: string, useOr: bool,
                            left: Pieces, right: Expr): Pieces
    decreases right, 1
  {
    var useIn := UsesIn(opname, useOr);
    match right
    case Const(_, _, _) =>
      Cat(if useIn then Cat(left, Some(InOpening(opname))) else Some([]),
          ConstArrayPieces(d, opname, useOr, useIn, left, right))
    case Node(ArrayOf(_, _), elements) =>
      if useIn then
        Cat(Cat(left, Some(InOpening(opname))),
            Cat(PrintList(d, cx, elements, [P(','), Sp]), Some([P(')')])))
      else PrintChain(d, cx, opname, useOr, left, elements)
    case _ => None
  }

  /** What a constant right operand adds, the end of an IN list included: what the character loop
      prints, as well-formed pieces where every element passes through the loop unharmed. */
  function ConstArrayPieces(d: Dialect, opname: string, useOr: bool, useIn: bool, left: Pieces, right: Expr): Pieces
    requires right.Const?
  {
    var isstr := QuotesElements(right.consttype);
    if right.datum.NullDatum? then Some([Sp, Word("NULL")])
    else if right.datum.ArrayDatum? && ElementsReadable(d, isstr, right.datum.elems) then
      var elements := ElementPiecesAll(isstr, right.datum.elems);
      if useIn then Some(JoinPieces(elements, ITEM_SEPARATOR) + [P(')')])
      else if left.None? then None
      else Some(JoinPieces(ComparisonPiecesAll(left.value, opname, elements), BoolSeparator(ChainOp(useOr))))
    else
      var ext := OutputText(right.datum);
      if useIn then Some([Raw(ScanText(ScanMode(true, isstr, useOr, "", opname), ext)), P(')')])
      else if left.None? && ext != "" then None
      else Some([Raw(ScanText(ScanMode(false, isstr, useOr, LeftText(d, false, left), opname), ext))])
  }

  /** The left operand as the character loop sees it. */
  function LeftText(d: Dialect, useIn: bool, left: Pieces): string {
    if useIn || left.None? then "" else Render(d, left.value)
  }

  /** `(left op e1) OR (left op e2) ...`, or the same with AND. */
  function PrintChain(d: Dialect, cx: DeparseCxt, opname: string, useOr: bool,
                      left: Pieces, es: seq<Expr>): Pieces
    decreases es, 1
  {
    if es == [] then Some([])
    else Cat(PrintComparison(d, cx, opname, left, es[0]), PrintChainTail(d, cx, opname, useOr, left, es[1..]))
  }

  function PrintChainTail(d: Dialect, cx: DeparseCxt, opname: string, useOr: bool,
                          left: Pieces, es: seq<Expr>): Pieces
    decreases es, 1
  {
    if es == [] then Some([])
    else
      Cat(Some([Sp, Word(BoolWord(if useOr then OrOp else AndOp)), Sp]),
          Cat(PrintComparison(d, cx, opname, left, es[0]),
              PrintChainTail(d, cx, opname, useOr, left, es[1..])))
  }

  function PrintComparison(d: Dialect, cx: DeparseCxt, opname: string, left: Pieces, e: Expr): Pieces
    decreases e, 1
  {
    Cat(Some([P('(')]),
        Cat(left, Cat(Some([Sp, Sym(opname), Sp]), Cat(Print(d, cx, e), Some([P(')')])))))
  }

  // ---------- the deparser in its own form ----------

  /** The quote string of the server, as the printing specification sees it. */
  ghost predicate Quotes(d: Dialect, cx: DeparseCxt, qChar: string) {
    && (cx.quotable <==> |qChar| == 1)
    && (|qChar| == 1 ==> d.q == qChar[0] && !IsBareChar(qChar[0]))
  }

  /** The buffer holds what it held before, then these pieces. */
  ghost predicate Appended(d: Dialect, before: string, after: string, ps: Pieces) {
    ps.Some? && after == before + Render(d, ps.value)
  }

  lemma CatRender(d: Dialect, a: Pieces, b: Pieces, before: string, middle: string, after: string)
    requires Appended(d, before, middle, a) && Appended(d, middle, after, b)
    ensures Appended(d, before, after, Cat(a, b))
  {
    RenderAppend(d, a.value, b.value);
  }

  method DeparseName(d: Dialect, cx: DeparseCxt, qChar: string, ident: string, buf: StringInfo)
    returns (ok: bool)
    requires Quotes(d, cx, qChar)
    modifies buf
    ensures ok == NamePieces(cx, ident).Some?
    ensures ok ==> Appended(d, old(buf.data), buf.data, NamePieces(cx, ident))
  {
    var r := QuoteIdentifier(d.keywords, ident, qChar);
    if r.None? {
      return false;
    }
    assert Render(d, [Name(ident)]) == r.value + "";
    buf.AppendString(r.value);
    return true;
  }

  method DeparseColumnRef(d: Dialect, cx: DeparseCxt, qChar: string, attno: int, buf: StringInfo)
    returns (ok: bool)
    requires Quotes(d, cx, qChar)
    modifies buf
    ensures ok == ColumnPieces(cx, attno).Some?
    ensures ok ==> Appended(d, old(buf.data), buf.data, ColumnPieces(cx, attno))
  {
    var name := ColumnName(cx.rel, attno);
    if name.None? {
      return false;
    }
    ok := DeparseName(d, cx, qChar, name.value, buf);
  }

  method DeparseConst(d: Dialect, consttype: Oid, v: Datum, buf: StringInfo)
    modifies buf
    ensures Appended(d, old(buf.data), buf.data, Some(ConstPieces(consttype, v)))
  {
    if v.NullDatum? {
      RenderOne(d, Word("NULL"));
      buf.AppendString("NULL");
      return;
    }
    var ext := OutputText(v);
    if IsNumericType(consttype) {
      DeparseNumber(d, consttype, v, buf);
    } else if consttype == BITOID || consttype == VARBITOID {
      RenderOne(d, BitString(ext));
      buf.AppendString("B'" + ext + "'");
    } else if consttype == BOOLOID {
      RenderOne(d, Word(if ext == "t" then "true" else "false"));
      if ext == "t" {
        buf.AppendString("true");
      } else {
        buf.AppendString("false");
      }
    } else {
      RenderOne(d, Literal(ext));
      DeparseStringLiteral(buf, ext);
    }
  }

  /** A value of a numeric type: plain if it looks like a number, in parentheses if it is signed. */
  method DeparseNumber(d: Dialect, consttype: Oid, v: Datum, buf: StringInfo)
    requires !v.NullDatum? && IsNumericType(consttype)
    modifies buf
    ensures Appended(d, old(buf.data), buf.data, Some(ConstPieces(consttype, v)))
  {
    var ext := OutputText(v);
    var numeric := true;
    var i := 0;
    while i < |ext|
      invariant 0 <= i <= |ext|
      invariant numeric <==> forall k :: 0 <= k < i ==> IsNumericChar(ext[k])
    {
      numeric := numeric && IsNumericChar(ext[i]);
      i := i + 1;
    }
    if numeric {
      if ext != "" && (ext[0] == '+' || ext[0] == '-') {
        SignedText(d, ext);
        buf.AppendString("(" + ext + ")");
      } else {
        RenderOne(d, Number(ext));
        buf.AppendString(ext);
      }
    } else {
      RenderOne(d, Plain(ext));
      buf.AppendString("'" + ext + "'");
    }
  }

  lemma SignedText(d: Dialect, ext: string)
    requires ext != ""
    ensures Render(d, [P('('), Sym(ext[..1]), Number(ext[1..]), P(')')]) == "(" + ext + ")"
  {
    RenderShort(d, [P('('), Sym(ext[..1]), Number(ext[1..]), P(')')]);
  }

  lemma TextIsDistinctFrom(d: Dialect)
    ensures Render(d, [Sp, Word("IS"), Sp, Word("DISTINCT"), Sp, Word("FROM"), Sp]) == " IS DISTINCT FROM "
  {
    var front, distinctFrom := [Sp, Word("IS"), Sp], [Word("DISTINCT"), Sp, Word("FROM"), Sp];
    assert Render(d, front) == " IS " by {
      RenderShort(d, front);
    }
    assert Render(d, distinctFrom) == "DISTINCT FROM " by {
      RenderShort(d, distinctFrom);
      assert "DISTINCT" + (" " + ("FROM" + " ")) == "DISTINCT FROM ";
    }
    RenderAppend(d, front, distinctFrom);
    assert front + distinctFrom == [Sp, Word("IS"), Sp, Word("DISTINCT"), Sp, Word("FROM"), Sp];
    assert " IS " + "DISTINCT FROM " == " IS DISTINCT FROM ";
  }

  lemma TextIsNull(d: Dialect)
    ensures Render(d, [Sp, Word("IS"), Sp, Word("NULL"), P(')')]) == " IS NULL)"
  {
    RenderShort(d, [Sp, Word("IS"), Sp, Word("NULL"), P(')')]);
    assert " " + ("NULL" + ")") == " NULL)";
    assert " " + ("IS" + " NULL)") == " IS NULL)";
  }

  lemma TextIsNotNull(d: Dialect)
    ensures Render(d, [Sp, Word("IS"), Sp, Word("NOT"), Sp, Word("NULL"), P(')')]) == " IS NOT NULL)"
  {
    RenderShort(d, [Sp, Word("IS"), Sp, Word("NOT"), Sp, Word("NULL"), P(')')]);
    assert " " + ("NULL" + ")") == " NULL)";
    assert " " + ("NOT" + " NULL)") == " NOT NULL)";
    assert " " + ("IS" + " NOT NULL)") == " IS NOT NULL)";
  }

  lemma TextNotOpening(d: Dialect)
    ensures Render(d, [P('('), Word("NOT"), Sp]) == "(NOT "
  {
    RenderShort(d, [P('('), Word("NOT"), Sp]);
    assert "(" + ("NOT" + " ") == "(NOT ";
  }

  lemma TextArrayOpening(d: Dialect)
    ensures Render(d, [Word("ARRAY"), P('[')]) == "ARRAY["
  {
    RenderShort(d, [Word("ARRAY"), P('[')]);
  }

  lemma TextNotIn(d: Dialect)
    ensures Render(d, [Sp, Word("NOT"), Sp, Word("IN"), Sp, P('(')]) == " NOT IN ("
  {
    RenderShort(d, [Sp, Word("NOT"), Sp, Word("IN"), Sp, P('(')]);
    assert " " + "(" == " (";
    assert " " + ("IN" + " (") == " IN (";
    assert " " + ("NOT" + " IN (") == " NOT IN (";
  }

  lemma TextIn(d: Dialect)
    ensures Render(d, [Sp, Word("IN"), Sp, P('(')]) == " IN ("
  {
    RenderShort(d, [Sp, Word("IN"), Sp, P('(')]);
    assert " " + "(" == " (";
    assert " " + ("IN" + " (") == " IN (";
  }

  lemma TextSpaceNull(d: Dialect)
    ensures Render(d, [Sp, Word("NULL")]) == " NULL"
  {
    RenderShort(d, [Sp, Word("NULL")]);
  }

  lemma TextNotLike(d: Dialect)
    ensures Render(d, [Word("NOT"), Sp, Word("LIKE")]) == "NOT LIKE"
  {
    RenderShort(d, [Word("NOT"), Sp, Word("LIKE")]);
    assert " " + "LIKE" == " LIKE";
    assert "NOT" + " LIKE" == "NOT LIKE";
  }

  lemma Cat3Render(d: Dialect, a: Pieces, b: Pieces, c: Pieces, s0: string, s1: string, s2: string, s3: string)
    requires Appended(d, s0, s1, a) && Appended(d, s1, s2, b) && Appended(d, s2, s3, c)
    ensures Appended(d, s0, s3, Cat(a, Cat(b, c)))
  {
    CatRender(d, b, c, s1, s2, s3);
    CatRender(d, a, Cat(b, c), s0, s1, s3);
  }

  lemma Cat5Render(d: Dialect, a: Pieces, b: Pieces, c: Pieces, e: Pieces, f: Pieces,
                   s0: string, s1: string, s2: string, s3: string, s4: string, s5: string)
    requires Appended(d, s0, s1, a) && Appended(d, s1, s2, b) && Appended(d, s2, s3, c)
    requires Appended(d, s3, s4, e) && Appended(d, s4, s5, f)
    ensures Appended(d, s0, s5, Cat(a, Cat(b, Cat(c, Cat(e, f)))))
  {
    Cat3Render(d, c, e, f, s2, s3, s4, s5);
    Cat3Render(d, a, b, Cat(c, Cat(e, f)), s0, s1, s2, s5);
  }

  /** The outcome of a printing method. */
  ghost predicate Printed(d: Dialect, ok: bool, before: string, after: string, ps: Pieces) {
    ok == ps.Some? && (ok ==> Appended(d, before, after, ps))
  }

  /** Deparse an expression into `buf`; false where an error is raised. */
  method DeparseExpr(d: Dialect, cx: DeparseCxt, qChar: string, e: Expr, buf: StringInfo) returns (ok: bool)
    requires Quotes(d, cx, qChar)
    modifies buf
    ensures Printed(d, ok, old(buf.data), buf.data, Print(d, cx, e))
    decreases e, 9
  {
    match e {
      case Var(varno, varattno, varlevelsup, _, _) =>
        if varno == cx.rel.relid && varlevelsup == 0 {
          ok := DeparseColumnRef(d, cx, qChar, varattno, buf);
        } else {
          ok := false;
        }
      case Const(consttype, _, v) =>
        DeparseConst(d, consttype, v, buf);
        ok := true;
      case Param =>
        ok := false;
      case Node(h, args) =>
        match h {
          case Func(_, _, _, _, _, _, _, _) => ok := DeparseFuncExpr(d, cx, qChar, e, buf);
          case OpCall(_, _, _, _, _, _, _) => ok := DeparseOpExpr(d, cx, qChar, e, buf);
          case DistinctFrom(_, _, _, _, _) => ok := DeparseDistinctExpr(d, cx, qChar, e, buf);
          case ScalarArrayOp(_, opname, useOr, _, _) =>
            if |args| != 2 {
              ok := false;
            } else {
              ok := DeparseScalarArrayOpExpr(d, cx, qChar, opname, useOr, args, buf);
            }
          case Relabel(_, _) =>
            if args == [] {
              ok := false;
            } else {
              ok := DeparseExpr(d, cx, qChar, args[0], buf);
            }
          case Bool(_) => ok := DeparseBoolExpr(d, cx, qChar, e, buf);
          case NullTest(_) => ok := DeparseNullTest(d, cx, qChar, e, buf);
          case ArrayOf(_, _) => ok := DeparseArrayExpr(d, cx, qChar, e, buf);
          case Subscript(_, _, _, _) => ok := DeparseArrayRef(d, cx, qChar, e, buf);
          case Agg(_, _, _, _, _, _, _, _, _, _) => ok := DeparseAggref(d, cx, qChar, e, buf);
          case OtherNode => ok := false;
        }
    }
  }

  /** While a list prints: what was asked for is what the buffer gained plus what remains. */
  ghost predicate Progress(d: Dialect, all: Pieces, rest: Pieces, start: string, now: string) {
    && all.Some? == rest.Some?
    && (all.Some? ==> start + Render(d, all.value) == now + Render(d, rest.value))
  }

  lemma Advance(d: Dialect, all: Pieces, a: Pieces, b: Pieces, start: string, now: string, later: string)
    requires Progress(d, all, Cat(a, b), start, now) && Appended(d, now, later, a)
    ensures Progress(d, all, b, start, later)
  {
    if b.Some? {
      RenderAppend(d, a.value, b.value);
    }
  }

  /** Append the separator before every element but the first. */
  method AppendSeparator(d: Dialect, ghost all: Pieces, ghost sep: seq<Piece>, ghost rest: Pieces, ghost start: string,
                         sepText: string, first: bool, buf: StringInfo)
    requires Render(d, sep) == sepText
    requires Progress(d, all, if first then rest else Cat(Some(sep), rest), start, buf.data)
    modifies buf
    ensures Progress(d, all, rest, start, buf.data)
  {
    ghost var now := buf.data;
    if !first {
      buf.AppendString(sepText);
      Advance(d, all, Some(sep), rest, start, now, buf.data);
    }
  }

  /** A list with a separator before every element but the first. */
  lemma Unrolled(d: Dialect, cx: DeparseCxt, es: seq<Expr>, i: nat, sep: seq<Piece>)
    requires i < |es|
    ensures
      var e, rest := Print(d, cx, es[i]), PrintTail(d, cx, es[i + 1..], sep);
      && PrintTail(d, cx, es[i..], sep) == Cat(Some(sep), Cat(e, rest))
      && (i == 0 ==> PrintList(d, cx, es, sep) == Cat(e, rest))
  {
    assert es[i..][0] == es[i] && es[i..][1..] == es[i + 1..];
    assert es[0..] == es;
  }

  method DeparseList(d: Dialect, cx: DeparseCxt, qChar: string, es: seq<Expr>, ghost sep: seq<Piece>,
                     sepText: string, buf: StringInfo) returns (ok: bool)
    requires Quotes(d, cx, qChar) && Render(d, sep) == sepText
    modifies buf
    ensures Printed(d, ok, old(buf.data), buf.data, PrintList(d, cx, es, sep))
    decreases es, 1
  {
    ghost var all := PrintList(d, cx, es, sep);
    ghost var start := buf.data;
    var first := true;
    var i := 0;
    while i < |es|
      invariant 0 <= i <= |es| && first == (i == 0)
      invariant Progress(d, all, if first then all else PrintTail(d, cx, es[i..], sep), start, buf.data)
    {
      ghost var e, rest := Print(d, cx, es[i]), PrintTail(d, cx, es[i + 1..], sep);
      Unrolled(d, cx, es, i, sep);
      AppendSeparator(d, all, sep, Cat(e, rest), start, sepText, first, buf);
      ghost var middle := buf.data;
      ok := DeparseExpr(d, cx, qChar, es[i], buf);
      if !ok {
        return;
      }
      Advance(d, all, e, rest, start, middle, buf.data);
      first := false;
      i := i + 1;
    }
    return true;
  }

  method EmitChar(d: Dialect, buf: StringInfo, c: char)
    modifies buf
    ensures Appended(d, old(buf.data), buf.data, Some([P(c)]))
    ensures c == ' ' ==> Appended(d, old(buf.data), buf.data, Some([Sp]))
  {
    FixedSeparators(d, AndOp, c);
    buf.AppendChar(c);
  }

  /** Deparse a function call; an implicit cast shows only its argument. */
  method DeparseFuncExpr(d: Dialect, cx: DeparseCxt, qChar: string, e: Expr, buf: StringInfo) returns (ok: bool)
    requires Quotes(d, cx, qChar) && e.Node? && e.head.Func?
    modifies buf
    ensures Printed(d, ok, old(buf.data), buf.data, Print(d, cx, e))
    decreases e, 5
  {
    var h, args := e.head, e.args;
    if h.format.ImplicitCast? {
      if args == [] {
        return false;
      }
      ok := DeparseExpr(d, cx, qChar, args[0], buf);
      return;
    }
    ghost var s0 := buf.data;
    ghost var schema: Pieces := Some([]);
    if h.schema.Some? {
      ok := DeparseName(d, cx, qChar, h.schema.value, buf);
      if !ok { return; }
      ghost var s := buf.data;
      EmitChar(d, buf, '.');
      CatRender(d, NamePieces(cx, h.schema.value), Some([P('.')]), s0, s, buf.data);
      schema := Cat(NamePieces(cx, h.schema.value), Some([P('.')]));
    }
    ghost var s1 := buf.data;
    ok := DeparseName(d, cx, qChar, h.name, buf);
    if !ok { return; }
    ghost var s2 := buf.data;
    EmitChar(d, buf, '(');
    ghost var s3 := buf.data;
    FixedSeparators(d, AndOp, ',');
    ok := DeparseList(d, cx, qChar, args, [P(','), Sp], ", ", buf);
    if !ok { return; }
    ghost var s4 := buf.data;
    EmitChar(d, buf, ')');
    Cat5Render(d, schema, NamePieces(cx, h.name), Some([P('(')]),
               PrintList(d, cx, args, [P(','), Sp]), Some([P(')')]), s0, s1, s2, s3, s4, buf.data);
  }

  /** Print the name of an operator. */
  method DeparseOperatorName(d: Dialect, inCatalog: bool, name: string, buf: StringInfo) returns (ok: bool)
    modifies buf
    ensures Printed(d, ok, old(buf.data), buf.data, OperatorPieces(inCatalog, name))
  {
    if !inCatalog {
      return false;
    }
    if name == "~~" {
      RenderShort(d, [Word("LIKE")]);
      buf.AppendString("LIKE");
    } else if name == "!~~" {
      TextNotLike(d);
      buf.AppendString("NOT LIKE");
    } else if IsRegexOperator(name) {
      return false;
    } else {
      RenderShort(d, [Sym(name)]);
      buf.AppendString(name);
    }
    return true;
  }

  /** Deparse an operator call, always parenthesized. */
  method DeparseOpExpr(d: Dialect, cx: DeparseCxt, qChar: string, e: Expr, buf: StringInfo) returns (ok: bool)
    requires Quotes(d, cx, qChar) && e.Node? && e.head.OpCall?
    modifies buf
    ensures Printed(d, ok, old(buf.data), buf.data, Print(d, cx, e))
    decreases e, 5
  {
    var h, args := e.head, e.args;
    if |args| != 1 && |args| != 2 {
      return false;
    }
    ghost var s0 := buf.data;
    EmitChar(d, buf, '(');
    ghost var s1, s2, s3 := buf.data, "", buf.data;
    if |args| == 2 {
      ok := DeparseExpr(d, cx, qChar, args[0], buf);
      if !ok { return; }
      s2 := buf.data;
      EmitChar(d, buf, ' ');
      s3 := buf.data;
    }
    ok := DeparseOperatorName(d, h.inCatalog, h.opname, buf);
    if !ok { return; }
    ghost var s4 := buf.data;
    EmitChar(d, buf, ' ');
    ghost var s5 := buf.data;
    ok := DeparseExpr(d, cx, qChar, args[|args| - 1], buf);
    if !ok { return; }
    ghost var s6 := buf.data;
    EmitChar(d, buf, ')');
    ghost var opp := OperatorPieces(h.inCatalog, h.opname);
    ghost var right := Print(d, cx, args[|args| - 1]);
    Cat3Render(d, Some([Sp]), right, Some([P(')')]), s4, s5, s6, buf.data);
    ghost var tail := Cat(Some([Sp]), Cat(right, Some([P(')')])));
    if |args| == 2 {
      Cat5Render(d, Some([P('(')]), Print(d, cx, args[0]), Some([Sp]), opp, tail, s0, s1, s2, s3, s4, buf.data);
    } else {
      Cat3Render(d, Some([P('(')]), opp, tail, s0, s3, s4, buf.data);
    }
  }

  /** Deparse IS DISTINCT FROM. */
  method DeparseDistinctExpr(d: Dialect, cx: DeparseCxt, qChar: string, e: Expr, buf: StringInfo) returns (ok: bool)
    requires Quotes(d, cx, qChar) && e.Node? && e.head.DistinctFrom?
    modifies buf
    ensures Printed(d, ok, old(buf.data), buf.data, Print(d, cx, e))
    decreases e, 5
  {
    if |e.args| != 2 {
      return false;
    }
    ghost var s0 := buf.data;
    EmitChar(d, buf, '(');
    ghost var s1 := buf.data;
    ok := DeparseExpr(d, cx, qChar, e.args[0], buf);
    if !ok { return; }
    ghost var s2 := buf.data;
    TextIsDistinctFrom(d);
    buf.AppendString(" IS DISTINCT FROM ");
    ghost var s3 := buf.data;
    ok := DeparseExpr(d, cx, qChar, e.args[1], buf);
    if !ok { return; }
    ghost var s4 := buf.data;
    EmitChar(d, buf, ')');
    Cat5Render(d, Some([P('(')]), Print(d, cx, e.args[0]),
               Some([Sp, Word("IS"), Sp, Word("DISTINCT"), Sp, Word("FROM"), Sp]),
               Print(d, cx, e.args[1]), Some([P(')')]), s0, s1, s2, s3, s4, buf.data);
  }

  /** Deparse AND, OR and NOT, always parenthesized. */
  method DeparseBoolExpr(d: Dialect, cx: DeparseCxt, qChar: string, e: Expr, buf: StringInfo) returns (ok: bool)
    requires Quotes(d, cx, qChar) && e.Node? && e.head.Bool?
    modifies buf
    ensures Printed(d, ok, old(buf.data), buf.data, Print(d, cx, e))
    decreases e, 5
  {
    var op := e.head.op;
    ghost var s0 := buf.data;
    if op.NotOp? {
      if e.args == [] {
        return false;
      }
      TextNotOpening(d);
      buf.AppendString("(NOT ");
      ghost var s1 := buf.data;
      ok := DeparseExpr(d, cx, qChar, e.args[0], buf);
      if !ok { return; }
      ghost var s2 := buf.data;
      EmitChar(d, buf, ')');
      Cat3Render(d, Some([P('('), Word("NOT"), Sp]), Print(d, cx, e.args[0]), Some([P(')')]),
                 s0, s1, s2, buf.data);
      return;
    }
    EmitChar(d, buf, '(');
    ghost var s1 := buf.data;
    ghost var sep := [Sp, Word(BoolWord(op)), Sp];
    FixedSeparators(d, op, ',');
    ok := DeparseList(d, cx, qChar, e.args, sep, " " + BoolWord(op) + " ", buf);
    if !ok { return; }
    ghost var s2 := buf.data;
    EmitChar(d, buf, ')');
    Cat3Render(d, Some([P('(')]), PrintList(d, cx, e.args, sep), Some([P(')')]), s0, s1, s2, buf.data);
  }

  /** Deparse IS [NOT] NULL. */
  method DeparseNullTest(d: Dialect, cx: DeparseCxt, qChar: string, e: Expr, buf: StringInfo) returns (ok: bool)
    requires Quotes(d, cx, qChar) && e.Node? && e.head.NullTest?
    modifies buf
    ensures Printed(d, ok, old(buf.data), buf.data, Print(d, cx, e))
    decreases e, 5
  {
    if e.args == [] {
      return false;
    }
    ghost var s0 := buf.data;
    EmitChar(d, buf, '(');
    ghost var s1 := buf.data;
    ok := DeparseExpr(d, cx, qChar, e.args[0], buf);
    if !ok { return; }
    ghost var s2 := buf.data;
    TextIsNull(d);
    TextIsNotNull(d);
    buf.AppendString(if e.head.isNull then " IS NULL)" else " IS NOT NULL)");
    Cat3Render(d, Some([P('(')]), Print(d, cx, e.args[0]),
               Some(if e.head.isNull then [Sp, Word("IS"), Sp, Word("NULL"), P(')')]
                    else [Sp, Word("IS"), Sp, Word("NOT"), Sp, Word("NULL"), P(')')]),
               s0, s1, s2, buf.data);
  }

  /** Deparse ARRAY[...]. */
  method DeparseArrayExpr(d: Dialect, cx: DeparseCxt, qChar: string, e: Expr, buf: StringInfo) returns (ok: bool)
    requires Quotes(d, cx, qChar) && e.Node? && e.head.ArrayOf?
    modifies buf
    ensures Printed(d, ok, old(buf.data), buf.data, Print(d, cx, e))
    decreases e, 5
  {
    ghost var s0 := buf.data;
    TextArrayOpening(d);
    buf.AppendString("ARRAY[");
    ghost var s1 := buf.data;
    FixedSeparators(d, AndOp, ',');
    ok := DeparseList(d, cx, qChar, e.args, [P(','), Sp], ", ", buf);
    if !ok { return; }
    ghost var s2 := buf.data;
    EmitChar(d, buf, ']');
    Cat3Render(d, Some([Word("ARRAY"), P('[')]), PrintList(d, cx, e.args, [P(','), Sp]), Some([P(']')]),
               s0, s1, s2, buf.data);
  }

  /** Deparse an aggregate call. */
  method DeparseAggref(d: Dialect, cx: DeparseCxt, qChar: string, e: Expr, buf: StringInfo) returns (ok: bool)
    requires Quotes(d, cx, qChar) && e.Node? && e.head.Agg?
    modifies buf
    ensures Printed(d, ok, old(buf.data), buf.data, Print(d, cx, e))
    decreases e, 5
  {
    var h := e.head;
    if h.filtered {
      return false;
    }
    ghost var s0 := buf.data;
    ok := DeparseName(d, cx, qChar, h.name, buf);
    if !ok { return; }
    ghost var s1 := buf.data;
    EmitAggOpening(d, buf, h.distinct);
    ghost var opening := [P('(')] + if h.distinct then [Word("DISTINCT"), Sp] else [];
    ghost var s2 := buf.data;
    ghost var middle := if h.star then Some([Sym("*")]) else PrintList(d, cx, e.args, [P(','), Sp]);
    ok := DeparseAggArguments(d, cx, qChar, h.star, e.args, buf);
    if !ok { return; }
    ghost var s3 := buf.data;
    EmitChar(d, buf, ')');
    Cat3Render(d, Some(opening), middle, Some([P(')')]), s1, s2, s3, buf.data);
    CatRender(d, NamePieces(cx, h.name), Cat(Some(opening), Cat(middle, Some([P(')')]))), s0, s1, buf.data);
  }

  method EmitAggOpening(d: Dialect, buf: StringInfo, distinct: bool)
    modifies buf
    ensures Appended(d, old(buf.data), buf.data, Some([P('(')] + if distinct then [Word("DISTINCT"), Sp] else []))
  {
    ghost var s0 := buf.data;
    EmitChar(d, buf, '(');
    ghost var s1 := buf.data;
    if distinct {
      RenderShort(d, [Word("DISTINCT"), Sp]);
      buf.AppendString("DISTINCT" + " ");
      CatRender(d, Some([P('(')]), Some([Word("DISTINCT"), Sp]), s0, s1, buf.data);
    } else {
      assert [P('(')] + [] == [P('(')];
    }
  }

  method DeparseAggArguments(d: Dialect, cx: DeparseCxt, qChar: string, star: bool, args: seq<Expr>,
                             buf: StringInfo) returns (ok: bool)
    requires Quotes(d, cx, qChar)
    modifies buf
    ensures Printed(d, ok, old(buf.data), buf.data,
                    if star then Some([Sym("*")]) else PrintList(d, cx, args, [P(','), Sp]))
    decreases args, 2
  {
    if star {
      RenderShort(d, [Sym("*")]);
      buf.AppendString("*");
      ok := true;
    } else {
      FixedSeparators(d, AndOp, ',');
      ok := DeparseList(d, cx, qChar, args, [P(','), Sp], ", ", buf);
    }
  }

  /** Deparse a subscripted array. */
  method DeparseArrayRef(d: Dialect, cx: DeparseCxt, qChar: string, e: Expr, buf: StringInfo) returns (ok: bool)
    requires Quotes(d, cx, qChar) && e.Node? && e.head.Subscript?
    modifies buf
    ensures Printed(d, ok, old(buf.data), buf.data, Print(d, cx, e))
    decreases e, 5
  {
    var args, nUpper := e.args, e.head.nUpper;
    if |args| < 1 + nUpper {
      return false;
    }
    ghost var s0 := buf.data;
    EmitChar(d, buf, '(');
    ghost var s1 := buf.data;
    ghost var container := Print(d, cx, args[0]);
    if args[0].Var? {
      ok := DeparseExpr(d, cx, qChar, args[0], buf);
      if !ok { return; }
    } else {
      EmitChar(d, buf, '(');
      ghost var t1 := buf.data;
      ok := DeparseExpr(d, cx, qChar, args[0], buf);
      if !ok { return; }
      ghost var t2 := buf.data;
      EmitChar(d, buf, ')');
      Cat3Render(d, Some([P('(')]), container, Some([P(')')]), s1, t1, t2, buf.data);
      container := Cat(Some([P('(')]), Cat(container, Some([P(')')])));
    }
    ghost var s2 := buf.data;
    ok := DeparseSubscripts(d, cx, qChar, args, nUpper, 0, buf);
    if !ok { return; }
    ghost var s3 := buf.data;
    EmitChar(d, buf, ')');
    ghost var subs := PrintSubscripts(d, cx, args, nUpper, 0);
    Cat3Render(d, container, subs, Some([P(')')]), s1, s2, s3, buf.data);
    CatRender(d, Some([P('(')]), Cat(container, Cat(subs, Some([P(')')]))), s0, s1, buf.data);
  }

  method DeparseLowerBound(d: Dialect, cx: DeparseCxt, qChar: string, args: seq<Expr>, nUpper: nat, i: nat,
                           buf: StringInfo) returns (ok: bool)
    requires Quotes(d, cx, qChar) && |args| >= 1 + nUpper && i < nUpper
    modifies buf
    ensures Printed(d, ok, old(buf.data), buf.data, LowerBound(d, cx, args, nUpper, i))
    decreases args, 0, 0
  {
    if 1 + nUpper + i < |args| {
      ghost var s := buf.data;
      ok := DeparseExpr(d, cx, qChar, args[1 + nUpper + i], buf);
      if !ok { return; }
      ghost var t := buf.data;
      EmitChar(d, buf, ':');
      CatRender(d, Print(d, cx, args[1 + nUpper + i]), Some([P(':')]), s, t, buf.data);
    } else {
      ok := true;
    }
  }

  method DeparseSubscripts(d: Dialect, cx: DeparseCxt, qChar: string, args: seq<Expr>, nUpper: nat, i: nat,
                           buf: StringInfo) returns (ok: bool)
    requires Quotes(d, cx, qChar) && |args| >= 1 + nUpper && i <= nUpper
    modifies buf
    ensures Printed(d, ok, old(buf.data), buf.data, PrintSubscripts(d, cx, args, nUpper, i))
    decreases args, 1, nUpper - i
  {
    if i == nUpper {
      return true;
    }
    ghost var s0 := buf.data;
    EmitChar(d, buf, '[');
    ghost var s1 := buf.data;
    ghost var lower := LowerBound(d, cx, args, nUpper, i);
    ok := DeparseLowerBound(d, cx, qChar, args, nUpper, i, buf);
    if !ok { return; }
    ghost var s2 := buf.data;
    ok := DeparseExpr(d, cx, qChar, args[1 + i], buf);
    if !ok { return; }
    ghost var s3 := buf.data;
    EmitChar(d, buf, ']');
    ghost var s4 := buf.data;
    ok := DeparseSubscripts(d, cx, qChar, args, nUpper, i + 1, buf);
    if !ok { return; }
    Cat5Render(d, Some([P('[')]), lower, Print(d, cx, args[1 + i]), Some([P(']')]),
               PrintSubscripts(d, cx, args, nUpper, i + 1), s0, s1, s2, s3, s4, buf.data);
  }

  /** What the branches on the right operand print, after what IN starts with. */
  lemma ScalarArrayCases(d: Dialect, cx: DeparseCxt, opname: string, useOr: bool, left: Pieces, right: Expr)
    ensures
      var useIn := UsesIn(opname, useOr);
      var opening := if useIn then Cat(left, Some(InOpening(opname))) else Some([]);
      PrintScalarArray(d, cx, opname, useOr, left, right) ==
        if right.Const? then Cat(opening, ConstArrayPieces(d, opname, useOr, useIn, left, right))
        else if !right.Node? || !right.head.ArrayOf? then None
        else if useIn then Cat(opening, Cat(PrintList(d, cx, right.args, [P(','), Sp]), Some([P(')')])))
        else PrintChain(d, cx, opname, useOr, left, right.args)
    ensures left.None? && UsesIn(opname, useOr) ==> PrintScalarArray(d, cx, opname, useOr, left, right).None?
  {
  }

  /** Deparse `left op ANY/ALL (right)`. */
  method DeparseScalarArrayOpExpr(d: Dialect, cx: DeparseCxt, qChar: string, opname: string, useOr: bool,
                                  args: seq<Expr>, buf: StringInfo) returns (ok: bool)
    requires Quotes(d, cx, qChar) && |args| == 2
    modifies buf
    ensures Printed(d, ok, old(buf.data), buf.data,
                    PrintScalarArray(d, cx, opname, useOr, Print(d, cx, args[0]), args[1]))
    decreases args, 5
  {
    var arg1, arg2 := args[0], args[1];
    ghost var left := Print(d, cx, arg1);
    ghost var s0 := buf.data;
    var useIn := UsesIn(opname, useOr);
    ghost var opening: Pieces := Some([]);
    ScalarArrayCases(d, cx, opname, useOr, left, arg2);
    if useIn {
      ok := DeparseExpr(d, cx, qChar, arg1, buf);
      if !ok { return; }
      ghost var s := buf.data;
      TextNotIn(d);
      TextIn(d);
      buf.AppendString(if opname == "<>" then " NOT IN (" else " IN (");
      CatRender(d, left, Some(InOpening(opname)), s0, s, buf.data);
      opening := Cat(left, Some(InOpening(opname)));
    }
    ghost var s1 := buf.data;
    if arg2.Const? {
      ok := DeparseConstArray(d, cx, qChar, opname, useOr, useIn, args, buf);
      if ok {
        CatRender(d, opening, ConstArrayPieces(d, opname, useOr, useIn, left, arg2), s0, s1, buf.data);
      }
    } else if arg2.Node? && arg2.head.ArrayOf? {
      if useIn {
        FixedSeparators(d, AndOp, ',');
        ok := DeparseList(d, cx, qChar, arg2.args, [P(','), Sp], ", ", buf);
        if !ok { return; }
        ghost var s2 := buf.data;
        EmitChar(d, buf, ')');
        Cat3Render(d, opening, PrintList(d, cx, arg2.args, [P(','), Sp]), Some([P(')')]), s0, s1, s2, buf.data);
      } else {
        ok := DeparseChain(d, cx, qChar, opname, useOr, arg1, args, arg2.args, buf);
      }
    } else {
      ok := false;
    }
  }

  /** A constant right operand; a null array returns without closing an IN list. */
  method DeparseConstArray(d: Dialect, cx: DeparseCxt, qChar: string, opname: string, useOr: bool, useIn: bool,
                           args: seq<Expr>, buf: StringInfo) returns (ok: bool)
    requires Quotes(d, cx, qChar) && |args| == 2 && args[1].Const?
    modifies buf
    ensures Printed(d, ok, old(buf.data), buf.data,
                    ConstArrayPieces(d, opname, useOr, useIn, Print(d, cx, args[0]), args[1]))
    decreases args, 4
  {
    var arg2 := args[1];
    if arg2.datum.NullDatum? {
      TextSpaceNull(d);
      buf.AppendString(" NULL");
      return true;
    }
    ok := DeparseArrayText(d, cx, qChar, opname, useOr, useIn, args, buf);
    ConstArrayPrints(d, opname, useOr, useIn, Print(d, cx, args[0]), arg2);
    if !ok { return; }
    ConstArrayText(d, opname, useOr, useIn, Print(d, cx, args[0]), arg2);
    if useIn {
      buf.AppendChar(')');
    }
  }

  lemma RenderRaw(d: Dialect, text: string)
    ensures Render(d, [Raw(text)]) == text && Render(d, [Raw(text), P(')')]) == text + ")"
  {
    RenderOne(d, Raw(text));
    RenderOne(d, P(')'));
    assert [Raw(text), P(')')][1..] == [P(')')];
  }

  lemma ConstArrayPrints(d: Dialect, opname: string, useOr: bool, useIn: bool, left: Pieces, right: Expr)
    requires right.Const? && !right.datum.NullDatum?
    ensures ConstArrayPieces(d, opname, useOr, useIn, left, right).Some? <==>
            useIn || left.Some? || OutputText(right.datum) == ""
  {
  }

  lemma ReadableArrayPieces(d: Dialect, m: ScanMode, left: Pieces, right: Expr)
    requires right.Const? && right.datum.ArrayDatum? && m.isstr == QuotesElements(right.consttype)
    requires ElementsReadable(d, m.isstr, right.datum.elems) && (m.useIn || left.Some?)
    ensures
      var elements := ElementPiecesAll(m.isstr, right.datum.elems);
      ConstArrayPieces(d, m.opname, m.useOr, m.useIn, left, right) ==
        Some(if m.useIn then JoinPieces(elements, ITEM_SEPARATOR) + [P(')')]
             else JoinPieces(ComparisonPiecesAll(left.value, m.opname, elements), BoolSeparator(ChainOp(m.useOr))))
  {
  }

  lemma TextClosed(d: Dialect, list: seq<Piece>, text: string)
    ensures Render(d, list) == text ==> Render(d, list + [P(')')]) == text + ")"
  {
    RenderAppend(d, list, [P(')')]);
    RenderOne(d, P(')'));
  }

  /** Where the elements pass through the loop, the pieces render to what it prints. */
  lemma ReadableArrayText(d: Dialect, m: ScanMode, left: Pieces, right: Expr)
    requires right.Const? && right.datum.ArrayDatum? && m.isstr == QuotesElements(right.consttype)
    requires ElementsReadable(d, m.isstr, right.datum.elems)
    requires m.left == LeftText(d, m.useIn, left) && (m.useIn || left.Some?)
    ensures
      var ps := ConstArrayPieces(d, m.opname, m.useOr, m.useIn, left, right);
      ps.Some? && Render(d, ps.value) == ScanText(m, ArrayOut(right.datum.elems)) + if m.useIn then ")" else ""
  {
    var es := right.datum.elems;
    ReadableArrayPieces(d, m, left, right);
    if m.useIn {
      ScannedIn(d, m, es);
      TextClosed(d, JoinPieces(ElementPiecesAll(m.isstr, es), ITEM_SEPARATOR), ScanText(m, ArrayOut(es)));
    } else {
      ScannedChain(d, left.value, m, es);
      NothingAfter(ScanText(m, ArrayOut(es)));
    }
  }

  lemma NothingAfter(s: string)
    ensures s + "" == s
  {
  }

  lemma RawArrayPieces(d: Dialect, opname: string, useOr: bool, useIn: bool, left: Pieces, right: Expr)
    requires right.Const? && !right.datum.NullDatum? && (useIn || left.Some? || OutputText(right.datum) == "")
    requires !(right.datum.ArrayDatum? && ElementsReadable(d, QuotesElements(right.consttype), right.datum.elems))
    ensures
      var m := ScanMode(useIn, QuotesElements(right.consttype), useOr, LeftText(d, useIn, left), opname);
      var text := Raw(ScanText(m, OutputText(right.datum)));
      ConstArrayPieces(d, opname, useOr, useIn, left, right) == Some(if useIn then [text, P(')')] else [text])
  {
  }

  /** The pieces of a constant right operand render to what the character loop prints. */
  lemma ConstArrayText(d: Dialect, opname: string, useOr: bool, useIn: bool, left: Pieces, right: Expr)
    requires right.Const? && !right.datum.NullDatum?
    requires useIn || left.Some? || OutputText(right.datum) == ""
    ensures ConstArrayPieces(d, opname, useOr, useIn, left, right).Some?
    ensures
      var m := ScanMode(useIn, QuotesElements(right.consttype), useOr, LeftText(d, useIn, left), opname);
      Render(d, ConstArrayPieces(d, opname, useOr, useIn, left, right).value) ==
        ScanText(m, OutputText(right.datum)) + if useIn then ")" else ""
  {
    var m := ScanMode(useIn, QuotesElements(right.consttype), useOr, LeftText(d, useIn, left), opname);
    if right.datum.ArrayDatum? && ElementsReadable(d, m.isstr, right.datum.elems) {
      assert OutputText(right.datum) != "";
      ReadableArrayText(d, m, left, right);
    } else {
      var text := ScanText(m, OutputText(right.datum));
      RawArrayPieces(d, opname, useOr, useIn, left, right);
      RenderRaw(d, text);
      NothingAfter(text);
    }
  }

  /** While the loop runs: what was asked for is what the buffer gained plus what remains. */
  ghost predicate ScanProgress(m: ScanMode, ext: string, i: nat, pending: bool, start: string, now: string) {
    i <= |ext| && start + ScanFrom(m, ext, 0, true) == now + ScanFrom(m, ext, i, pending)
  }

  /** One round of the loop: what comes before the character, and the character. */
  method DeparseArrayChar(d: Dialect, cx: DeparseCxt, qChar: string, opname: string, useOr: bool, useIn: bool,
                          args: seq<Expr>, extval: string, isstr: bool, i: nat, deparseLeft: bool,
                          ghost m: ScanMode, ghost start: string, buf: StringInfo)
    returns (ok: bool, pending: bool)
    requires Quotes(d, cx, qChar) && |args| == 2 && i < |extval| && (useIn ==> deparseLeft)
    requires m == ScanMode(useIn, isstr, useOr, LeftText(d, useIn, Print(d, cx, args[0])), opname)
    requires ScanProgress(m, extval, i, deparseLeft, start, buf.data)
    modifies buf
    ensures ok == (useIn || !deparseLeft || Print(d, cx, args[0]).Some?) && (useIn ==> pending)
    ensures ok ==> ScanProgress(m, extval, i + 1, pending, start, buf.data)
    decreases args, 2
  {
    ghost var s := buf.data;
    pending := deparseLeft;
    ok := AppendLead(d, cx, qChar, opname, args, m, i, isstr, useIn, deparseLeft, buf);
    if !ok { return; }
    pending := AppendArrayChar(buf, m, extval, i, isstr, useIn, useOr, deparseLeft && useIn);
    ScanStep(m, extval, i, deparseLeft, s);
  }

  /** The character loop over the array's output text. */
  method DeparseArrayText(d: Dialect, cx: DeparseCxt, qChar: string, opname: string, useOr: bool, useIn: bool,
                          args: seq<Expr>, buf: StringInfo) returns (ok: bool)
    requires Quotes(d, cx, qChar) && |args| == 2
    requires args[1].Const? && !args[1].datum.NullDatum?
    modifies buf
    ensures ok == (useIn || Print(d, cx, args[0]).Some? || OutputText(args[1].datum) == "")
    ensures
      var m := ScanMode(useIn, QuotesElements(args[1].consttype), useOr,
                        LeftText(d, useIn, Print(d, cx, args[0])), opname);
      ok ==> buf.data == old(buf.data) + ScanText(m, OutputText(args[1].datum))
    decreases args, 3
  {
    var extval := OutputText(args[1].datum);
    var isstr := QuotesElements(args[1].consttype);
    ghost var start := buf.data;
    ghost var m := ScanMode(useIn, isstr, useOr, LeftText(d, useIn, Print(d, cx, args[0])), opname);
    ghost var printable := useIn || Print(d, cx, args[0]).Some?;
    var deparseLeft := true;
    var i := 0;
    while i < |extval|
      invariant ScanProgress(m, extval, i, deparseLeft, start, buf.data)
      invariant i == 0 || useIn ==> deparseLeft
      invariant i > 0 ==> printable
    {
      ok, deparseLeft := DeparseArrayChar(d, cx, qChar, opname, useOr, useIn, args, extval, isstr, i, deparseLeft,
                                          m, start, buf);
      if !ok { return; }
      i := i + 1;
    }
    ScanEnd(m, extval, deparseLeft, start, buf.data);
    if isstr {
      buf.AppendChar('\'');
    }
    return true;
  }

  lemma ScanStep(m: ScanMode, ext: string, i: nat, pending: bool, s: string)
    requires i < |ext|
    ensures s + ScanFrom(m, ext, i, pending) ==
            s + ScanLead(m, i, pending) + ScanChar(m, ext, i)
            + ScanFrom(m, ext, i + 1, StillPending(m, ext, i, pending))
  {
    AppendGrouped(s, ScanLead(m, i, pending), ScanChar(m, ext, i),
                  ScanFrom(m, ext, i + 1, StillPending(m, ext, i, pending)));
  }

  lemma ScanEnd(m: ScanMode, ext: string, pending: bool, start: string, now: string)
    requires ScanProgress(m, ext, |ext|, pending, start, now)
    ensures now + (if m.isstr then "'" else "") == start + ScanText(m, ext)
  {
    assert now == start + ScanFrom(m, ext, 0, true);
    AppendGrouped(start, "", ScanFrom(m, ext, 0, true), Quote(m));
    AppendGrouped("", start, ScanFrom(m, ext, 0, true), Quote(m));
  }

  lemma AppendGrouped(a: string, b: string, c: string, e: string)
    ensures a + (b + c + e) == a + b + c + e
  {
  }

  /** What comes before a character of the array's text. */
  method AppendLead(d: Dialect, cx: DeparseCxt, qChar: string, opname: string, args: seq<Expr>,
                    ghost m: ScanMode, i: nat, isstr: bool, useIn: bool, deparseLeft: bool, buf: StringInfo)
    returns (ok: bool)
    requires Quotes(d, cx, qChar) && |args| == 2
    requires m.useIn == useIn && m.isstr == isstr && m.opname == opname
    requires !useIn && Print(d, cx, args[0]).Some? ==> m.left == Render(d, Print(d, cx, args[0]).value)
    modifies buf
    ensures ok == (useIn || !deparseLeft || Print(d, cx, args[0]).Some?)
    ensures ok ==> buf.data == old(buf.data) + ScanLead(m, i, deparseLeft)
    decreases args, 1
  {
    if useIn {
      if i == 0 && isstr {
        buf.AppendChar('\'');
      }
    } else if deparseLeft {
      ok := DeparseExpr(d, cx, qChar, args[0], buf);
      if !ok { return; }
      buf.AppendString(" " + opname + " ");
      if isstr {
        buf.AppendChar('\'');
      }
    }
    ok := true;
  }

  /** One character of the array's text. */
  method AppendArrayChar(buf: StringInfo, ghost m: ScanMode, ext: string, i: nat,
                         isstr: bool, useIn: bool, useOr: bool, deparseLeft: bool) returns (pending: bool)
    requires m.useIn == useIn && m.isstr == isstr && m.useOr == useOr && i < |ext|
    modifies buf
    ensures buf.data == old(buf.data) + ScanChar(m, ext, i)
    ensures pending == (deparseLeft || (!Skipped(ext, i) && ext[i] == ',' && !useIn))
  {
    pending := deparseLeft;
    var ch := ext[i];
    if Skipped(ext, i) {
    } else if ch == ',' {
      if useIn {
        if isstr {
          buf.AppendChar('\'');
        }
        buf.AppendChar(ch);
        buf.AppendChar(' ');
        if isstr {
          buf.AppendChar('\'');
        }
      } else {
        if isstr {
          buf.AppendChar('\'');
        }
        buf.AppendString(if useOr then " OR " else " AND ");
        pending := true;
      }
    } else {
      buf.AppendChar(ch);
    }
  }

  /** What is left of a chain: all of it, or the rest after the first comparison. */
  function ChainRest(d: Dialect, cx: DeparseCxt, opname: string, useOr: bool, left: Pieces, es: seq<Expr>,
                     i: nat): Pieces
    requires i <= |es|
  {
    if i == 0 then PrintChain(d, cx, opname, useOr, left, es)
    else PrintChainTail(d, cx, opname, useOr, left, es[i..])
  }

  lemma ChainRestStep(d: Dialect, cx: DeparseCxt, opname: string, useOr: bool, left: Pieces, es: seq<Expr>, i: nat)
    requires i < |es|
    ensures
      var item := Cat(PrintComparison(d, cx, opname, left, es[i]), ChainRest(d, cx, opname, useOr, left, es, i + 1));
      ChainRest(d, cx, opname, useOr, left, es, i) ==
        if i == 0 then item else Cat(Some([Sp, Word(BoolWord(if useOr then OrOp else AndOp)), Sp]), item)
  {
    assert es[i..][0] == es[i] && es[i..][1..] == es[i + 1..];
  }

  /** The OR/AND chain over the elements of an ARRAY[...] expression. */
  method DeparseChain(d: Dialect, cx: DeparseCxt, qChar: string, opname: string, useOr: bool, arg1: Expr,
                      args: seq<Expr>, es: seq<Expr>, buf: StringInfo) returns (ok: bool)
    requires Quotes(d, cx, qChar) && |args| == 2 && args[0] == arg1
    requires args[1].Node? && args[1].args == es
    modifies buf
    ensures Printed(d, ok, old(buf.data), buf.data,
                    PrintChain(d, cx, opname, useOr, Print(d, cx, arg1), es))
    decreases args, 3
  {
    ghost var left := Print(d, cx, arg1);
    ghost var all := PrintChain(d, cx, opname, useOr, left, es);
    ghost var start := buf.data;
    var first := true;
    var i := 0;
    while i < |es|
      invariant 0 <= i <= |es| && first == (i == 0)
      invariant Progress(d, all, ChainRest(d, cx, opname, useOr, left, es, i), start, buf.data)
    {
      ok := DeparseChainItem(d, cx, qChar, opname, useOr, args, es, i, first, all, start, buf);
      if !ok {
        return;
      }
      first := false;
      i := i + 1;
    }
    return true;
  }

  /** One comparison of the chain, with its connective. */
  method DeparseChainItem(d: Dialect, cx: DeparseCxt, qChar: string, opname: string, useOr: bool, args: seq<Expr>,
                          es: seq<Expr>, i: nat, first: bool, ghost all: Pieces, ghost start: string, buf: StringInfo)
    returns (ok: bool)
    requires Quotes(d, cx, qChar) && |args| == 2 && args[1].Node? && args[1].args == es
    requires i < |es| && first == (i == 0)
    requires Progress(d, all, ChainRest(d, cx, opname, useOr, Print(d, cx, args[0]), es, i), start, buf.data)
    modifies buf
    ensures ok ==>
              Progress(d, all, ChainRest(d, cx, opname, useOr, Print(d, cx, args[0]), es, i + 1), start, buf.data)
    ensures !ok ==> all.None?
    decreases args, 2
  {
    var op := if useOr then OrOp else AndOp;
    ghost var item := PrintComparison(d, cx, opname, Print(d, cx, args[0]), es[i]);
    ghost var rest := ChainRest(d, cx, opname, useOr, Print(d, cx, args[0]), es, i + 1);
    ChainRestStep(d, cx, opname, useOr, Print(d, cx, args[0]), es, i);
    FixedSeparators(d, op, ',');
    AppendSeparator(d, all, [Sp, Word(BoolWord(op)), Sp], Cat(item, rest), start, " " + BoolWord(op) + " ", first, buf);
    ghost var middle := buf.data;
    ok := DeparseComparison(d, cx, qChar, opname, args, es[i], buf);
    if ok {
      Advance(d, all, item, rest, start, middle, buf.data);
    }
  }

  method DeparseComparison(d: Dialect, cx: DeparseCxt, qChar: string, opname: string,
                           args: seq<Expr>, e: Expr, buf: StringInfo) returns (ok: bool)
    requires Quotes(d, cx, qChar) && |args| == 2 && args[1].Node? && e in args[1].args
    modifies buf
    ensures Printed(d, ok, old(buf.data), buf.data,
                    PrintComparison(d, cx, opname, Print(d, cx, args[0]), e))
    decreases args, 1
  {
    ghost var s0 := buf.data;
    EmitChar(d, buf, '(');
    ghost var s1 := buf.data;
    ok := DeparseExpr(d, cx, qChar, args[0], buf);
    if !ok { return; }
    ghost var s2 := buf.data;
    RenderThree(d, Sp, Sym(opname), Sp);
    buf.AppendString(" " + (opname + " "));
    ghost var s3 := buf.data;
    ok := DeparseExpr(d, cx, qChar, e, buf);
    if !ok { return; }
    ghost var s4 := buf.data;
    EmitChar(d, buf, ')');
    Cat5Render(d, Some([P('(')]), Print(d, cx, args[0]), Some([Sp, Sym(opname), Sp]), Print(d, cx, e),
               Some([P(')')]), s0, s1, s2, s3, s4, buf.data);
  }
}
