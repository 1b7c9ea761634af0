/** Where the printing of array comparisons stops being faithful because of the array, and exactly when:
    null arrays and empty arrays.
 */
module ArrayLimits {
  import opened Nodes
  import opened Lexical
  import opened Tokens
  import opened Words
  import opened ArrayText
  import opened Reader
  import opened ArrayPieces
  import opened Deparse
  import opened Phrases
  import opened ArrayRead
  import opened RoundTrip
  import opened Spacing
  import opened Semantics
  import opened ArrayCompare
  import opened Preservation
  import opened Streams
  import opened Positions

  // ---------- the text of a condition ----------

  /** What the server makes of it depends on the characters only. */
  lemma ShownTokens(d: Dialect, text: string, ps: seq<Piece>)
    requires ValidDialect(d) && WellSpaced(d, ps) && text == Render(d, ps)
    ensures
      var whole := EnclosedPieces([P('(')], ps, ')');
      Lex(d, "(" + text + ")") == Some([LPAREN] + (TokensOf(ps) + [RPAREN]))
  {
    var whole := EnclosedPieces([P('(')], ps, ')');
    FixedSpaced(d, AndOp);
    Enclose(d, [P('(')], ps, [P(')')]);
    RenderEnclosed(d, ps);
    LexRender(d, whole);
    TokOne(P('('));
    EnclosedTokens([P('(')], ps, ')', []);
    assert TokensOf(whole) + [] == TokensOf(whole) && [RPAREN] + [] == [RPAREN];
  }

  // ---------- null arrays ----------

  /** The pieces of `left [NOT] IN ( NULL`, which the deparser leaves open. */
  lemma NullInPrints(d: Dialect, cx: DeparseCxt, e: Expr, left: seq<Piece>)
    requires e.Node? && e.head.ScalarArrayOp? && |e.args| == 2
    requires e.args[1].Const? && e.args[1].datum.NullDatum? && UsesIn(e.head.opname, e.head.useOr)
    requires Print(d, cx, e.args[0]) == Some(left)
    ensures Print(d, cx, e) == Some((left + InOpening(e.head.opname)) + [Sp, Word("NULL")])
  {
  }

  lemma NullInSpaced(d: Dialect, left: seq<Piece>, opname: string)
    requires WellSpaced(d, left)
    ensures WellSpaced(d, (left + InOpening(opname)) + [Sp, Word("NULL")])
  {
    WordNot(); WordIn(); WordNull();
    Join(d, left, InOpening(opname));
    Join(d, left + InOpening(opname), [Sp, Word("NULL")]);
  }

  lemma NullInTokens(left: seq<Piece>, opname: string)
    ensures TokensOf((left + InOpening(opname)) + [Sp, Word("NULL")]) + [RPAREN] ==
            TokensOf(left) + (InEnd(opname, [[Word("NULL")]]) + [])
  {
    var open, items := left + InOpening(opname), [[Word("NULL")]];
    WordNull();
    JoinOne(items, ITEM_SEPARATOR);
    assert TokensOf([Word("NULL")]) == [Kw("null")] by { TokOne(Word("NULL")); }
    assert TokensOf([Sp, Word("NULL")]) == [Kw("null")] by { TokShort([Sp, Word("NULL")]); }
    assert TokensOf(open) == TokensOf(left) + (InWords(opname) + [LPAREN]) by {
      TokensAppend(left, InOpening(opname));
      InOpeningTokens(opname);
    }
    TokensAppend(open, [Sp, Word("NULL")]);
    NullInList(TokensOf(left), InWords(opname));
  }

  lemma NullInList(a: seq<Token>, words: seq<Token>)
    ensures ((a + (words + [LPAREN])) + [Kw("null")]) + [RPAREN] ==
            a + ((words + ([LPAREN] + ([Kw("null")] + [RPAREN]))) + [])
  {
  }

  lemma NullItem()
    ensures AsBodies([[Word("NULL")]], [NullLit])
  {
    forall rest | Ends(Front(rest))
      ensures BodyPhrase([Word("NULL")], NullLit, rest)
    {
      LeafPhrase(Word("NULL"), NullLit, rest);
      PrimaryIsBody(TokensOf([Word("NULL")]) + rest, NullLit, rest);
    }
  }

  /** An operand, a predicate over it, and then nothing: the parenthesis before them stays open. */
  lemma NeverClosed(l: Run, words: seq<Token>)
    requires GoodRun(l) && EndsPredicate(words)
    ensures Primary([LPAREN] + (TokensOf(RunPieces(l)) + (words + []))) == Fail
  {
    var ts := TokensOf(RunPieces(l)) + (words + []);
    assert ([LPAREN] + ts)[1..] == ts;
    if l.bare {
      BareRowStops(l, words + [], [], NullLit);
    } else {
      RowEndsOpen(l, words);
    }
  }

  lemma RowEndsOpen(l: Run, words: seq<Token>)
    requires GoodRun(l) && !l.bare && EndsPredicate(words)
    ensures Body(TokensOf(RunPieces(l)) + (words + [])).Ok? && Body(TokensOf(RunPieces(l)) + (words + [])).rest == []
  {
    var k := |l.parts| - 1;
    var a := TokensOf(l.parts[k]) + (words + []);
    assert AsPrimary(l.parts[k], l.trees[k]);
    assert Phrase(l.parts[k], l.trees[k], words + []);
    PrimaryIsOperand(a, l.trees[k], words + []);
    var x := Predicate(a).v;
    RowMerges(l, words + [], x, []);
    StreamReads(TokensOf(RunPieces(l)) + (words + []), l.trees[..k] + [x], Copies(l.op, k), []);
  }

  /** Under IN, a null array prints a condition no server can read: its one closing parenthesis closes
      the list, and the condition stays open. */
  lemma NullInUnreadable(d: Dialect, cx: DeparseCxt, e: Expr)
    requires ValidDialect(d) && cx.quotable && e.Node? && e.head.ScalarArrayOp? && |e.args| == 2
    requires Readable(d, cx, e.args[0]) && e.args[1].Const? && e.args[1].datum.NullDatum?
    requires UsesIn(e.head.opname, e.head.useOr)
    ensures Print(d, cx, e).Some? && ReadText(d, Shown(d, cx, e)) == None
  {
    var l, opname := RunOf(d, cx, e.args[0]), e.head.opname;
    RunIsGood(d, cx, e.args[0]);
    NullInPrints(d, cx, e, RunPieces(l));
    ReadableIsLegible(d, cx, e.args[0]);
    Spaced(d, cx, e.args[0]);
    NullInSpaced(d, RunPieces(l), opname);
    NullInTokens(RunPieces(l), opname);
    NullItem();
    InEnds(opname, [[Word("NULL")]], [NullLit]);
    NeverClosed(l, InEnd(opname, [[Word("NULL")]]));
    ShownTokens(d, Render(d, Print(d, cx, e).value), Print(d, cx, e).value);
  }

  /** A comparison with a null array is null. Its text reads so exactly where it is no IN list. */
  lemma NullArrayRightIff(L: Local, R: Remote, d: Dialect, cx: DeparseCxt, row: RemoteRow, e: Expr)
    requires ValidDialect(d) && cx.quotable && e.Node? && e.head.ScalarArrayOp? && |e.args| == 2
    requires Readable(d, cx, e.args[0]) && e.args[1].Const? && e.args[1].datum.NullDatum?
    ensures Print(d, cx, e).Some?
    ensures Eval(L, cx.rel.relid, LocalRow(cx.rel, row), e) == NullV
    ensures ReadText(d, Shown(d, cx, e)) == if UsesIn(e.head.opname, e.head.useOr) then None else Some(NullLit)
    ensures (exists t :: ReadText(d, Shown(d, cx, e)) == Some(t) && SqlEval(R, row, t) == NullV)
            <==> !UsesIn(e.head.opname, e.head.useOr)
  {
    if UsesIn(e.head.opname, e.head.useOr) {
      NullInUnreadable(d, cx, e);
    } else {
      ConditionRoundTrip(d, cx, e);
      assert SqlEval(R, row, NullLit) == NullV;
    }
  }

  // ---------- empty arrays ----------

  /** A comparison with an array constant. */
  function WithArray(h: Head, left: Expr, t: Oid, es: seq<Option<string>>): Expr {
    Node(h, [left, Const(t, INVALID_OID, ArrayDatum(es))])
  }

  /** The pieces that an empty array of an unquoted type comes down to: nothing where an element should
      be. */
  function NothingPieces(left: seq<Piece>, opname: string, useIn: bool): seq<Piece> {
    if useIn then InPieces(left, opname, []) else left + [Sp, Sym(opname), Sp]
  }

  /** How a comparison with an array constant prints, given the pieces of the constant. */
  lemma ConstPrints(d: Dialect, cx: DeparseCxt, h: Head, left: Expr, t: Oid, es: seq<Option<string>>, ps: seq<Piece>)
    requires h.ScalarArrayOp? && Print(d, cx, left).Some?
    requires ConstArrayPieces(d, h.opname, h.useOr, UsesIn(h.opname, h.useOr), Print(d, cx, left),
                              Const(t, INVALID_OID, ArrayDatum(es))) == Some(ps)
    ensures Print(d, cx, WithArray(h, left, t, es)) ==
            Some(if UsesIn(h.opname, h.useOr) then (Print(d, cx, left).value + InOpening(h.opname)) + ps else ps)
  {
    assert [] + ps == ps;
  }

  lemma EmptyPrints(d: Dialect, cx: DeparseCxt, h: Head, left: Expr, t: Oid)
    requires h.ScalarArrayOp? && Print(d, cx, left).Some?
    ensures
      var useIn, l := UsesIn(h.opname, h.useOr), Print(d, cx, left).value;
      var m := ScanMode(useIn, QuotesElements(t), h.useOr, LeftText(d, useIn, Some(l)), h.opname);
      var text := Raw(ScanText(m, ArrayOut([])));
      Print(d, cx, WithArray(h, left, t, [])) ==
        Some(if useIn then (l + InOpening(h.opname)) + [text, P(')')] else [text])
  {
    var useIn, l := UsesIn(h.opname, h.useOr), Print(d, cx, left).value;
    var m := ScanMode(useIn, QuotesElements(t), h.useOr, LeftText(d, useIn, Some(l)), h.opname);
    var text := Raw(ScanText(m, ArrayOut([])));
    ConstPrints(d, cx, h, left, t, [], if useIn then [text, P(')')] else [text]);
  }

  /** An empty array of an unquoted type prints nothing where an element should be. */
  lemma EmptyUnquotedText(d: Dialect, cx: DeparseCxt, h: Head, left: Expr, t: Oid)
    requires h.ScalarArrayOp? && Print(d, cx, left).Some? && !QuotesElements(t)
    ensures Print(d, cx, WithArray(h, left, t, [])).Some?
    ensures Render(d, Print(d, cx, WithArray(h, left, t, [])).value) ==
            Render(d, NothingPieces(Print(d, cx, left).value, h.opname, UsesIn(h.opname, h.useOr)))
  {
    var useIn, l := UsesIn(h.opname, h.useOr), Print(d, cx, left).value;
    var m := ScanMode(useIn, false, h.useOr, LeftText(d, useIn, Some(l)), h.opname);
    EmptyPrints(d, cx, h, left, t);
    if useIn {
      EmptyListText(d, m, l, h.opname);
    } else {
      EmptyChainText(d, m, l);
    }
  }

  lemma EmptyListText(d: Dialect, m: ScanMode, l: seq<Piece>, opname: string)
    requires m.useIn && !m.isstr
    ensures Render(d, (l + InOpening(opname)) + [Raw(ScanText(m, ArrayOut([]))), P(')')]) ==
            Render(d, NothingPieces(l, opname, true))
  {
    var open := l + InOpening(opname);
    assert ScanText(m, ArrayOut([])) == "" by {
      ScanOfEmptyArray(m);
    }
    NothingRendered(d, open);
    assert InPieces(l, opname, []) == open + [P(')')];
  }

  lemma EmptyChainText(d: Dialect, m: ScanMode, l: seq<Piece>)
    requires !m.useIn && !m.isstr && m.left == Render(d, l)
    ensures Render(d, [Raw(ScanText(m, ArrayOut([])))]) == Render(d, NothingPieces(l, m.opname, false))
  {
    assert ScanText(m, ArrayOut([])) == m.left + " " + m.opname + " " + "" + "" by {
      ScanOfEmptyArray(m);
    }
    OperatorRendered(d, l, m.opname);
    RenderOne(d, Raw(ScanText(m, ArrayOut([]))));
  }

  lemma NothingRendered(d: Dialect, open: seq<Piece>)
    ensures Render(d, open + [Raw(""), P(')')]) == Render(d, open + [P(')')])
  {
    RenderAppend(d, open, [Raw(""), P(')')]);
    RenderAppend(d, open, [P(')')]);
    assert [Raw(""), P(')')][1..] == [P(')')];
    assert "" + Render(d, [P(')')]) == Render(d, [P(')')]);
  }

  lemma OperatorRendered(d: Dialect, left: seq<Piece>, opname: string)
    ensures Render(d, left + [Sp, Sym(opname), Sp]) == Render(d, left) + " " + opname + " " + "" + ""
  {
    RenderAppend(d, left, [Sp, Sym(opname), Sp]);
    RenderThree(d, Sp, Sym(opname), Sp);
  }

  lemma NothingSpaced(d: Dialect, left: seq<Piece>, opname: string, useIn: bool)
    requires WellSpaced(d, left) && IsSymbolText(d, opname)
    ensures WellSpaced(d, NothingPieces(left, opname, useIn))
  {
    OperatorGap(d, opname);
    if useIn {
      InSpaced(d, left, opname, []);
    } else {
      Join(d, left, [Sp, Sym(opname), Sp]);
    }
  }

  /** No server can read it. */
  lemma NothingUnreadable(left: seq<Piece>, el: Sql, opname: string, useIn: bool)
    requires AsPrimary(left, el)
    ensures Primary([LPAREN] + (TokensOf(NothingPieces(left, opname, useIn)) + [RPAREN])) == Fail
  {
    var ts := TokensOf(NothingPieces(left, opname, useIn)) + [RPAREN];
    assert ([LPAREN] + ts)[1..] == ts;
    if useIn {
      NoItems(left, el, opname);
    } else {
      NoOperand(left, el, opname);
    }
  }

  lemma NoItems(left: seq<Piece>, el: Sql, opname: string)
    requires AsPrimary(left, el)
    ensures Body(TokensOf(InPieces(left, opname, [])) + [RPAREN]) == Fail
  {
    var inner := [RPAREN] + [RPAREN];
    InTokens(left, opname, [], [RPAREN]);
    assert TokensOf([]) + inner == inner;
    var after := InWords(opname) + ([LPAREN] + inner);
    assert after[0] == InWords(opname)[0];
    PhraseAt(left, el, after);
    EmptyListFails(TokensOf(left) + after, el, opname, inner);
  }

  lemma NoOperand(left: seq<Piece>, el: Sql, opname: string)
    requires AsPrimary(left, el)
    ensures Body(TokensOf(left + [Sp, Sym(opname), Sp]) + [RPAREN]) == Fail
  {
    GapTokens(opname);
    Tok2(left, [Sp, Sym(opname), Sp], [RPAREN]);
    assert Phrase(left, el, [Oper(opname)] + [RPAREN]);
    MissingOperandFails(TokensOf(left) + ([Oper(opname)] + [RPAREN]), el, opname);
  }

  lemma EmptyListFails(a: seq<Token>, ea: Sql, opname: string, inner: seq<Token>)
    requires Primary(a) == Ok(ea, InWords(opname) + ([LPAREN] + inner)) && Front(inner) == RPAREN
    ensures Body(a) == Fail
  {
    var rest, list := InWords(opname) + ([LPAREN] + inner), [LPAREN] + inner;
    assert rest[|InWords(opname)|..] == list && list[1..] == inner;
    PrimaryIsOperand(a, ea, rest);
    if Items(inner).Ok? {
      ItemsStart(inner);
    }
    assert Predicate(a) == InList(opname == "<>", ea, list);
    assert Negation(a) == Fail && Conjunction(a) == Fail;
  }

  lemma MissingOperandFails(a: seq<Token>, ea: Sql, opname: string)
    requires Primary(a) == Ok(ea, [Oper(opname)] + [RPAREN])
    ensures Body(a) == Fail
  {
    var rest := [Oper(opname)] + [RPAREN];
    assert rest[1..] == [RPAREN];
    PrimaryIsOperand(a, ea, rest);
    if Operand([RPAREN]).Ok? {
      OperandFirst([RPAREN]);
    }
    assert Predicate(a) == Infix(HBinary(opname), ea, [RPAREN]);
    assert Negation(a) == Fail && Conjunction(a) == Fail;
  }

  /** An empty array of a quoted type prints as an array of one empty string. */
  lemma EmptyQuotedText(d: Dialect, cx: DeparseCxt, h: Head, left: Expr, t: Oid)
    requires h.ScalarArrayOp? && Print(d, cx, left).Some? && QuotesElements(t)
    ensures Shown(d, cx, WithArray(h, left, t, [])) == Shown(d, cx, WithArray(h, left, t, [Some("")]))
  {
    var useIn, l := UsesIn(h.opname, h.useOr), Print(d, cx, left).value;
    var m := ScanMode(useIn, true, h.useOr, LeftText(d, useIn, Some(l)), h.opname);
    EmptyPrints(d, cx, h, left, t);
    ScanOfEmptyArray(m);
    ScanInvertsArrayOut(m, [Some("")]);
    SameScan(m);
    OnePrints(d, cx, h, left, t);
  }

  lemma SameScan(m: ScanMode)
    ensures (if m.useIn then Quote(m) else LeftAndOperator(m)) + Emitted(m, [Some("")]) + Quote(m) ==
            (if m.useIn then Quote(m) else LeftAndOperator(m)) + Quote(m)
  {
    assert Emitted(m, [Some("")]) == "";
  }

  /** The text of the array of one empty string. */
  lemma OnePrints(d: Dialect, cx: DeparseCxt, h: Head, left: Expr, t: Oid)
    requires h.ScalarArrayOp? && Print(d, cx, left).Some? && QuotesElements(t)
    ensures
      var useIn, l := UsesIn(h.opname, h.useOr), Print(d, cx, left).value;
      var m := ScanMode(useIn, true, h.useOr, LeftText(d, useIn, Some(l)), h.opname);
      var text := Raw(ScanText(m, ArrayOut([Some("")])));
      && Print(d, cx, WithArray(h, left, t, [Some("")])).Some?
      && Render(d, Print(d, cx, WithArray(h, left, t, [Some("")])).value) ==
           Render(d, if useIn then (l + InOpening(h.opname)) + [text, P(')')] else [text])
  {
    var useIn, l := UsesIn(h.opname, h.useOr), Print(d, cx, left).value;
    var right := Const(t, INVALID_OID, ArrayDatum([Some("")]));
    var m := ScanMode(useIn, true, h.useOr, LeftText(d, useIn, Some(l)), h.opname);
    var text := ScanText(m, ArrayOut([Some("")]));
    ConstArrayText(d, h.opname, h.useOr, useIn, Some(l), right);
    var ps := ConstArrayPieces(d, h.opname, h.useOr, useIn, Some(l), right).value;
    ConstPrints(d, cx, h, left, t, [Some("")], ps);
    RawInstead(d, l + InOpening(h.opname), text, ps, useIn);
  }

  lemma RawInstead(d: Dialect, open: seq<Piece>, text: string, ps: seq<Piece>, useIn: bool)
    requires Render(d, ps) == text + if useIn then ")" else ""
    ensures Render(d, if useIn then open + ps else ps) ==
            Render(d, if useIn then open + [Raw(text), P(')')] else [Raw(text)])
  {
    if useIn {
      RawClosed(d, open, text, ps);
    } else {
      RenderOne(d, Raw(text));
      assert text + "" == text;
    }
  }

  lemma RawClosed(d: Dialect, open: seq<Piece>, text: string, ps: seq<Piece>)
    requires Render(d, ps) == text + ")"
    ensures Render(d, open + ps) == Render(d, open + [Raw(text), P(')')])
  {
    RenderRaw(d, text);
    RenderAppend(d, open, ps);
    RenderAppend(d, open, [Raw(text), P(')')]);
  }

  /** What the server makes of a comparison with an empty array: for a quoted type, a comparison with the
      empty string; for int4[] and oid[], nothing it can read. */
  lemma EmptyArrayReads(d: Dialect, cx: DeparseCxt, h: Head, left: Expr, t: Oid)
    requires ValidDialect(d) && cx.quotable && h.ScalarArrayOp? && IsSymbolText(d, h.opname)
    requires Readable(d, cx, left) && FormOf(left) == PrimaryForm
    ensures ReadText(d, Shown(d, cx, WithArray(h, left, t, []))) ==
            if QuotesElements(t) then Some(ArrayTree(h.opname, h.useOr, Erase(cx.rel, left), [StrLit("")])) else None
  {
    ReadsBack(d, cx, left);
    ReadableIsLegible(d, cx, left);
    Spaced(d, cx, left);
    var l, useIn := Print(d, cx, left).value, UsesIn(h.opname, h.useOr);
    if QuotesElements(t) {
      EmptyQuotedText(d, cx, h, left, t);
      OneIsReadable(d, cx, h, left, t);
      ConditionRoundTrip(d, cx, WithArray(h, left, t, [Some("")]));
    } else {
      EmptyUnquotedText(d, cx, h, left, t);
      NothingSpaced(d, l, h.opname, useIn);
      ShownTokens(d, Render(d, Print(d, cx, WithArray(h, left, t, [])).value), NothingPieces(l, h.opname, useIn));
      NothingUnreadable(l, Erase(cx.rel, left), h.opname, useIn);
    }
  }

  /** An empty ARRAY[] prints as an empty list, or as nothing at all: no server can read either. */
  lemma EmptyArrayExprUnreadable(d: Dialect, cx: DeparseCxt, h: Head, left: Expr, right: Expr)
    requires ValidDialect(d) && cx.quotable && h.ScalarArrayOp? && IsSymbolText(d, h.opname)
    requires Readable(d, cx, left) && FormOf(left) == PrimaryForm
    requires right.Node? && right.head.ArrayOf? && right.args == []
    ensures Print(d, cx, Node(h, [left, right])).Some?
    ensures ReadText(d, Shown(d, cx, Node(h, [left, right]))) == None
  {
    ReadsBack(d, cx, left);
    ReadableIsLegible(d, cx, left);
    Spaced(d, cx, left);
    var l, useIn := Print(d, cx, left).value, UsesIn(h.opname, h.useOr);
    var ps := if useIn then InPieces(l, h.opname, []) else [];
    EmptyExprPrints(d, cx, h, left, right);
    if useIn {
      NothingSpaced(d, l, h.opname, useIn);
      NothingUnreadable(l, Erase(cx.rel, left), h.opname, useIn);
    } else {
      assert [LPAREN] + (TokensOf([]) + [RPAREN]) == [LPAREN, RPAREN];
      EmptyParentheses();
    }
    ShownTokens(d, Render(d, ps), ps);
  }

  lemma EmptyExprPrints(d: Dialect, cx: DeparseCxt, h: Head, left: Expr, right: Expr)
    requires h.ScalarArrayOp? && Print(d, cx, left).Some? && right.Node? && right.head.ArrayOf? && right.args == []
    ensures Print(d, cx, Node(h, [left, right])) ==
            Some(if UsesIn(h.opname, h.useOr) then InPieces(Print(d, cx, left).value, h.opname, []) else [])
  {
    var open := Print(d, cx, left).value + InOpening(h.opname);
    assert open + ([] + [P(')')]) == open + [P(')')];
    assert InPieces(Print(d, cx, left).value, h.opname, []) == open + [P(')')];
    assert PrintList(d, cx, right.args, [P(','), Sp]) == Some([]);
    assert PrintChain(d, cx, h.opname, h.useOr, Print(d, cx, left), right.args) == Some([]);
    assert Print(d, cx, Node(h, [left, right])) ==
           PrintScalarArray(d, cx, h.opname, h.useOr, Print(d, cx, left), right);
  }

  lemma EmptyParentheses()
    ensures Primary([LPAREN, RPAREN]) == Fail
  {
    var inner := [RPAREN];
    assert [LPAREN, RPAREN][1..] == inner;
    if Body(inner).Ok? {
      assert Conjunction(inner).Ok? && Negation(inner).Ok? && Predicate(inner).Ok?;
      OperandFirst(inner);
    }
  }

  lemma OneIsReadable(d: Dialect, cx: DeparseCxt, h: Head, left: Expr, t: Oid)
    requires h.ScalarArrayOp? && IsSymbolText(d, h.opname) && QuotesElements(t)
    requires Readable(d, cx, left) && FormOf(left) == PrimaryForm
    ensures Readable(d, cx, WithArray(h, left, t, [Some("")]))
    ensures Erase(cx.rel, WithArray(h, left, t, [Some("")])) ==
            ArrayTree(h.opname, h.useOr, Erase(cx.rel, left), [StrLit("")])
  {
    var e := WithArray(h, left, t, [Some("")]);
    assert Children(e) == [left];
    assert ElementReadable(d, true, Some(""));
    assert ElementSqls(true, [Some("")]) == [StrLit("")];
  }

  /** The operator is strict: compared with null, everything is null. */
  ghost predicate Strict(L: Local, opno: Oid) {
    forall v: Value :: L.op(opno, [NullV, v]) == NullV
  }

  /** On one row, for any left side: what is read for the empty array of a quoted type has the value of the
      comparison if and only if the left side compares with the empty string as the empty array demands. */
  lemma EmptyArrayRightOnRowIff(L: Local, R: Remote, d: Dialect, cx: DeparseCxt, row: RemoteRow, h: Head, left: Expr,
                                t: Oid)
    requires ValidDialect(d) && cx.quotable && h.ScalarArrayOp? && IsSymbolText(d, h.opname) && QuotesElements(t)
    requires Readable(d, cx, left) && FormOf(left) == PrimaryForm
    requires Agrees(L, R, left) && LiveColumns(cx.rel, left) && ComparisonAgrees(L, R, h.opno, h.opname, h.useOr)
    ensures
      var tree := ArrayTree(h.opname, h.useOr, Erase(cx.rel, left), [StrLit("")]);
      var local := LocalRow(cx.rel, row);
      && ReadText(d, Shown(d, cx, WithArray(h, left, t, []))) == Some(tree)
      && (SqlEval(R, row, tree) == Eval(L, cx.rel.relid, local, WithArray(h, left, t, [])) <==>
            L.op(h.opno, [Eval(L, cx.rel.relid, local, left), R.str("")]) == BoolV(!h.useOr))
  {
    EmptyArrayReads(d, cx, h, left, t);
    NothingCompared(L, cx.rel, row, h, left, t);
    ErasePreservesValue(L, R, d, cx, row, left);
    EmptyStringCompared(L, R, row, h, Erase(cx.rel, left));
  }

  /** The value of the comparison with the empty string. */
  lemma EmptyStringCompared(L: Local, R: Remote, row: RemoteRow, h: Head, left: Sql)
    requires h.ScalarArrayOp? && ComparisonAgrees(L, R, h.opno, h.opname, h.useOr)
    ensures SqlEval(R, row, ArrayTree(h.opname, h.useOr, left, [StrLit("")])) ==
            L.op(h.opno, [SqlEval(R, row, left), R.str("")])
  {
    var ev, x := OnRow(R, row), L.op(h.opno, [SqlEval(R, row, left), R.str("")]);
    OnRowComputes(R, row);
    RewritingPreservesTruth(L, R, ev, h.opno, h.opname, h.useOr, left, [StrLit("")]);
    assert Values(ev, [StrLit("")]) == [R.str("")];
    OneCompared(L, h.opno, ev(left), R.str(""));
    SingletonTruth(x);
  }

  lemma OneCompared(L: Local, opno: Oid, l: Value, v: Value)
    ensures Compared(L, opno, l, [v]) == [L.op(opno, [l, v])]
  {
    assert [v][1..] == [];
  }

  /** The comparison is right on every row. */
  ghost predicate RightOnAllRows(L: Local, R: Remote, d: Dialect, cx: DeparseCxt, e: Expr) {
    exists t :: ReadText(d, Shown(d, cx, e)) == Some(t) &&
                forall row: RemoteRow :: SqlEval(R, row, t) == Eval(L, cx.rel.relid, LocalRow(cx.rel, row), e)
  }

  /** Among the arrays whose elements the loop leaves intact, exactly the non-empty ones are compared right:
      for a column, a strict operator and servers that agree, the condition keeps its value on every row if and
      only if the array has an element. */
  lemma EmptyArrayRightIff(L: Local, R: Remote, d: Dialect, cx: DeparseCxt, h: Head, left: Expr, t: Oid,
                           es: seq<Option<string>>)
    requires ValidDialect(d) && cx.quotable && h.ScalarArrayOp? && IsSymbolText(d, h.opname)
    requires left.Var? && Readable(d, cx, left) && LiveColumns(cx.rel, left)
    requires es != [] ==> ElementsReadable(d, QuotesElements(t), es)
    requires Agrees(L, R, WithArray(h, left, t, es)) && ComparisonAgrees(L, R, h.opno, h.opname, h.useOr)
    requires Strict(L, h.opno)
    ensures RightOnAllRows(L, R, d, cx, WithArray(h, left, t, es)) <==> es != []
  {
    var e := WithArray(h, left, t, es);
    if es == [] {
      EmptyArrayReads(d, cx, h, left, t);
      if QuotesElements(t) {
        NothingCompared(L, cx.rel, NullRow(), h, left, t);
        NullRowDiffers(L, R, cx, h, left);
      }
    } else {
      FilledArrayRight(L, R, d, cx, h, left, t, es);
    }
  }

  lemma FilledArrayRight(L: Local, R: Remote, d: Dialect, cx: DeparseCxt, h: Head, left: Expr, t: Oid,
                         es: seq<Option<string>>)
    requires ValidDialect(d) && cx.quotable && h.ScalarArrayOp? && IsSymbolText(d, h.opname)
    requires left.Var? && Readable(d, cx, left) && LiveColumns(cx.rel, left)
    requires es != [] && ElementsReadable(d, QuotesElements(t), es) && Agrees(L, R, WithArray(h, left, t, es))
    ensures RightOnAllRows(L, R, d, cx, WithArray(h, left, t, es))
  {
    var e := WithArray(h, left, t, es);
    assert Children(e) == [left];
    ConditionRoundTrip(d, cx, e);
    forall row: RemoteRow
      ensures SqlEval(R, row, Erase(cx.rel, e)) == Eval(L, cx.rel.relid, LocalRow(cx.rel, row), e)
    {
      LiveArray(cx.rel, h, left, t, es);
      ErasePreservesValue(L, R, d, cx, row, e);
    }
  }

  lemma LiveArray(rel: Rel, h: Head, left: Expr, t: Oid, es: seq<Option<string>>)
    requires LiveColumns(rel, left)
    ensures LiveColumns(rel, WithArray(h, left, t, es))
  {
    assert LiveColumns(rel, WithArray(h, left, t, es).args[1]);
  }

  /** No element is compared, so ANY fails and ALL holds. */
  lemma NothingCompared(L: Local, rel: Rel, row: RemoteRow, h: Head, left: Expr, t: Oid)
    requires h.ScalarArrayOp?
    ensures Eval(L, rel.relid, LocalRow(rel, row), WithArray(h, left, t, [])) == BoolV(!h.useOr)
  {
    assert Compared(L, h.opno, Eval(L, rel.relid, LocalRow(rel, row), left), []) == [];
  }

  /** The witness: on a row where the column is null, the comparison with the empty string is null. */
  lemma NullRowDiffers(L: Local, R: Remote, cx: DeparseCxt, h: Head, left: Expr)
    requires h.ScalarArrayOp? && left.Var? && LiveColumns(cx.rel, left)
    requires left.varno == cx.rel.relid && left.varlevelsup == 0 && ColumnName(cx.rel, left.varattno).Some?
    requires ComparisonAgrees(L, R, h.opno, h.opname, h.useOr) && Strict(L, h.opno)
    ensures SqlEval(R, NullRow(), ArrayTree(h.opname, h.useOr, Erase(cx.rel, left), [StrLit("")])) == NullV
  {
    EmptyStringCompared(L, R, NullRow(), h, Erase(cx.rel, left));
    assert SqlEval(R, NullRow(), Erase(cx.rel, left)) == NullV;
  }
}
