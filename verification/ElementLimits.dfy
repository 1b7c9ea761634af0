/** Which array constants are read as the arrays they stand for. The character loop spoils some elements;
    the comparison reads back, with all of its elements, exactly when none is spoiled.
 */
module ElementLimits {
  import opened Nodes
  import opened Lexical
  import opened Tokens
  import opened Words
  import opened ArrayText
  import opened ElementLiterals
  import opened Reader
  import opened ArrayPieces
  import opened Deparse
  import opened Phrases
  import opened ArrayRead
  import opened RoundTrip
  import opened Spacing
  import opened Semantics
  import opened Preservation
  import opened Positions
  import opened ArrayLimits

  // ---------- what must have been read ----------

  /** A literal or a null read from tokens that start with a literal is that literal. */
  lemma LiteralOperand(v: string, us: seq<Token>, e: Sql, rest: seq<Token>)
    requires Operand([Str(v)] + us) == Ok(e, rest) && !e.App?
    ensures e == StrLit(v) && rest == us
  {
    var ts := [Str(v)] + us;
    assert ts[1..] == us;
    assert Primary(ts) == Ok(StrLit(v), us);
    assert Indexed(ts) == Ok(e, rest);
    NoSubscripts(us);
  }

  lemma NoSubscripts(ts: seq<Token>)
    ensures Subscripts(ts).Ok? && Subscripts(ts).v.0 == [] ==> Subscripts(ts).rest == ts
  {
  }

  lemma LiteralBody(v: string, us: seq<Token>, e: Sql, rest: seq<Token>)
    requires Body([Str(v)] + us) == Ok(e, rest) && !e.App?
    ensures e == StrLit(v) && rest == us
  {
    var ts := [Str(v)] + us;
    BodyOfLeaf(ts, e, rest);
    assert Operand(ts).Ok?;
    assert Predicate(ts) == Ok(e, rest);
    assert Operand(ts) == Ok(e, rest);
    LiteralOperand(v, us, e, rest);
  }

  lemma BodyOfLeaf(ts: seq<Token>, e: Sql, rest: seq<Token>)
    requires Body(ts) == Ok(e, rest) && !e.App?
    ensures Predicate(ts) == Ok(e, rest)
  {
    NoOrTail(Conjunction(ts).rest);
    NoAndTail(Negation(ts).rest);
  }

  lemma NoOrTail(ts: seq<Token>)
    ensures OrTail(ts).Ok? && OrTail(ts).v == [] ==> OrTail(ts).rest == ts
  {
  }

  lemma NoAndTail(ts: seq<Token>)
    ensures AndTail(ts).Ok? && AndTail(ts).v == [] ==> AndTail(ts).rest == ts
  {
  }

  /** What is no AND, OR or NOT has been read as a predicate. */
  lemma ConjunctionIsPredicate(ts: seq<Token>, h: SqlHead, args: seq<Sql>, rest: seq<Token>)
    requires h != HAnd && h != HNot
    ensures Conjunction(ts) == Ok(App(h, args), rest) ==> Predicate(ts) == Ok(App(h, args), rest)
    ensures Negation(ts) == Ok(App(h, args), rest) ==> Predicate(ts) == Ok(App(h, args), rest)
  {
    if Negation(ts).Ok? {
      NoAndTail(Negation(ts).rest);
    }
  }

  lemma BodyIsPredicate(ts: seq<Token>, h: SqlHead, args: seq<Sql>, rest: seq<Token>)
    requires Body(ts) == Ok(App(h, args), rest) && h != HOr && h != HAnd && h != HNot
    ensures Predicate(ts) == Ok(App(h, args), rest)
  {
    NoOrTail(Conjunction(ts).rest);
    ConjunctionIsPredicate(ts, h, args, rest);
  }

  /** A parenthesized text with nothing after it. */
  lemma ParenBody(ts: seq<Token>, t: Sql)
    requires Primary([LPAREN] + ts) == Ok(t, [])
    ensures Body(ts) == Ok(t, [RPAREN])
  {
    assert ([LPAREN] + ts)[1..] == ts;
    var rest := Body(ts).rest;
    assert rest == [rest[0]] + rest[1..];
  }

  // ---------- IN lists ----------

  lemma InItems(l: seq<Piece>, el: Sql, opname: string, ts: seq<Token>, es: seq<Sql>)
    requires AsPrimary(l, el)
    requires Primary([LPAREN] + (TokensOf(l) + (InWords(opname) + ([LPAREN] + ts)))) ==
             Ok(App(HIn(opname == "<>"), [el] + es), [])
    ensures Items(ts) == Ok(es, [RPAREN] + [RPAREN])
  {
    var after := InWords(opname) + ([LPAREN] + ts);
    var a := TokensOf(l) + after;
    ParenBody(a, App(HIn(opname == "<>"), [el] + es));
    BodyIsPredicate(a, HIn(opname == "<>"), [el] + es, [RPAREN]);
    PhraseAt(l, el, after);
    PrimaryIsOperand(a, el, after);
    ListItems(a, el, opname, ts, es);
  }

  lemma ListItems(a: seq<Token>, el: Sql, opname: string, ts: seq<Token>, es: seq<Sql>)
    requires Operand(a) == Ok(el, InWords(opname) + ([LPAREN] + ts))
    requires Predicate(a) == Ok(App(HIn(opname == "<>"), [el] + es), [RPAREN])
    ensures Items(ts) == Ok(es, [RPAREN] + [RPAREN])
  {
    var list, rest := [LPAREN] + ts, InWords(opname) + ([LPAREN] + ts);
    assert rest[|InWords(opname)|..] == list && list[1..] == ts;
    assert InList(opname == "<>", el, list) == Ok(App(HIn(opname == "<>"), [el] + es), [RPAREN]);
    var r := Items(ts);
    assert [el] + r.v == [el] + es;
    assert r.v == ([el] + r.v)[1..] == es;
    assert r.rest == [r.rest[0]] + r.rest[1..];
  }

  // ---------- the printed elements ----------

  /** The printed elements after the opening quote of the first. */
  function ElementsPrinted(m: ScanMode, es: seq<Option<string>>, close: string): string
    requires m.isstr && es != []
  {
    LiteralText(m, ElementName(es[0]), TailPrinted(m, es, close))
  }

  /** What is printed after the closing quote of the first element. */
  function TailPrinted(m: ScanMode, es: seq<Option<string>>, close: string): string
    requires m.isstr && es != []
    decreases |es|, 0
  {
    if |es| == 1 then close
    else
      Between(m)[1..] + LiteralText(m, ElementName(es[1]), TailPrinted(m, es[1..], close))
  }

  function ElementName(e: Option<string>): string {
    if e.None? then "NULL" else e.value
  }

  lemma NameText(m: ScanMode, e: Option<string>)
    ensures ElementText(m, e) == PrintedText(m, ElementName(e))
  {
    PrintedNull(m);
  }

  lemma {:induction false} EmittedPrinted(m: ScanMode, es: seq<Option<string>>, close: string)
    requires m.isstr && es != []
    ensures Emitted(m, es) + ("'" + close) == ElementsPrinted(m, es, close)
    decreases |es|
  {
    NameText(m, es[0]);
    if |es| > 1 {
      EmittedPrinted(m, es[1..], close);
      BetweenStarts(m);
      assert Between(m) == "'" + Between(m)[1..];
      EmittedStep(m, es, es[1..]);
      Regroup4(ElementText(m, es[0]), "'", Between(m)[1..], Emitted(m, es[1..]), "'" + close);
    }
  }

  lemma Regroup4(a: string, q: string, b: string, c: string, e: string)
    ensures (a + ((q + b) + c)) + e == a + (q + (b + (c + e)))
  {
  }

  lemma TailSeparates(m: ScanMode, es: seq<Option<string>>, close: string)
    requires m.isstr && es != [] && close != "" && close[0] == ')'
    ensures Separates(TailPrinted(m, es, close))
  {
    BetweenStarts(m);
  }

  function LiteralThen(d: Dialect, r: Option<(string, string)>): Option<seq<Token>> {
    match r
    case None => None
    case Some((v, rest)) => Push([Str(v)], Lex(d, rest))
  }

  lemma LexLiteral(d: Dialect, s: string)
    requires ValidDialect(d)
    ensures Lex(d, "'" + s) == LiteralThen(d, ReadQuoted('\'', !d.scs, s))
  {
    assert ("'" + s)[1..] == s;
  }

  /** The literal at the front, when there are tokens at all. */
  lemma FirstLiteral(d: Dialect, s: string, ts: seq<Token>) returns (v: string, rest: string, us: seq<Token>)
    requires ValidDialect(d) && Lex(d, "'" + s) == Some(ts)
    ensures ReadQuoted('\'', !d.scs, s) == Some((v, rest)) && Lex(d, rest) == Some(us) && ts == [Str(v)] + us
  {
    LexLiteral(d, s);
    v, rest := ReadQuoted('\'', !d.scs, s).value.0, ReadQuoted('\'', !d.scs, s).value.1;
    us := Lex(d, rest).value;
  }

  // ---------- IN lists of spoiled elements ----------

  predicate AllIntact(scs: bool, es: seq<Option<string>>) {
    forall i :: 0 <= i < |es| ==> es[i].Some? && Intact(scs, es[i].value)
  }

  lemma ConsIntact(scs: bool, es: seq<Option<string>>)
    requires es != [] && es[0].Some? && Intact(scs, es[0].value) && AllIntact(scs, es[1..])
    ensures AllIntact(scs, es)
  {
    forall i | 0 <= i < |es|
      ensures es[i].Some? && Intact(scs, es[i].value)
    {
      if i > 0 {
        assert es[i] == es[1..][i - 1];
      }
    }
  }

  /** Items that are the elements come from intact elements. */
  lemma {:induction false} ItemsIntact(d: Dialect, m: ScanMode, es: seq<Option<string>>, close: string, ts: seq<Token>,
                                       rest: seq<Token>)
    requires ValidDialect(d) && m.isstr && m.useIn && es != [] && close != "" && close[0] == ')'
    requires Lex(d, "'" + ElementsPrinted(m, es, close)) == Some(ts)
    requires Items(ts) == Ok(ElementSqls(true, es), rest) && Front(rest) == RPAREN
    ensures AllIntact(d.scs, es)
    decreases |es|
  {
    var x, tail := ElementName(es[0]), TailPrinted(m, es, close);
    var v, after, us := FirstLiteral(d, LiteralText(m, x, tail), ts);
    FirstItemIs(v, us, ElementSqls(true, es), rest);
    assert ElementSqls(true, es)[0] == ElementSql(true, es[0]);
    TailSeparates(m, es, close);
    OnlyIntactRead(m, d.scs, x, tail, after);
    if after == " '" + tail {
      SpaceThenLiteral(d, tail, us);
    }
    if |es| > 1 {
      var more := ElementsPrinted(m, es[1..], close);
      SeparatorLexed(d, m, more, us);
      ItemsIntact(d, m, es[1..], close, us[1..], rest);
      ConsIntact(d.scs, es);
    }
  }

  lemma FirstItemIs(v: string, us: seq<Token>, es: seq<Sql>, rest: seq<Token>)
    requires Items([Str(v)] + us) == Ok(es, rest) && es != [] && !es[0].App?
    ensures es[0] == StrLit(v)
    ensures |es| == 1 ==> us == rest
    ensures |es| > 1 ==> us != [] && us[0] == COMMA && Items(us[1..]) == Ok(es[1..], rest)
  {
    var r := Body([Str(v)] + us);
    LiteralBody(v, us, r.v, r.rest);
  }

  lemma SpaceThenLiteral(d: Dialect, tail: string, us: seq<Token>)
    requires ValidDialect(d) && Lex(d, " '" + tail) == Some(us)
    ensures us != [] && us[0].Str?
  {
    assert (" '" + tail)[1..] == "'" + tail;
    LexLiteral(d, tail);
  }

  lemma SeparatorLexed(d: Dialect, m: ScanMode, more: string, us: seq<Token>)
    requires ValidDialect(d) && m.isstr && m.useIn && Lex(d, Between(m)[1..] + more) == Some(us)
    ensures us != [] && Lex(d, "'" + more) == Some(us[1..])
  {
    assert Between(m)[1..] + more == Render(d, ITEM_SEPARATOR) + ("'" + more) by {
      FixedSeparators(d, AndOp, ',');
      assert Between(m)[1..] == ", '";
      assert ", '" + more == ", " + ("'" + more);
    }
    assert TokensOf(ITEM_SEPARATOR) == [COMMA] by {
      TokensSeparator(AndOp);
    }
    ItemGapSpaced(d);
    LexThen(d, ITEM_SEPARATOR, "'" + more);
    PushedOne(COMMA, Lex(d, "'" + more), us);
  }

  lemma PushedOne(t: Token, r: Option<seq<Token>>, us: seq<Token>)
    requires Push([t], r) == Some(us)
    ensures us != [] && us[0] == t && r == Some(us[1..])
  {
    assert ([t] + r.value)[1..] == r.value;
  }

  lemma ItemGapSpaced(d: Dialect)
    requires ValidDialect(d)
    ensures WellSpaced(d, ITEM_SEPARATOR)
  {
  }

  // ---------- chains of spoiled elements ----------

  /** The rest of a row of comparisons. */
  function RowTail(op: BoolOp, ts: seq<Token>): PR<seq<Sql>> {
    if op.AndOp? then AndTail(ts) else OrTail(ts)
  }

  /** The tokens are read as a row of comparisons. */
  predicate RowReads(op: BoolOp, ts: seq<Token>, es: seq<Sql>, rest: seq<Token>) {
    es != [] &&
    var r := Predicate(ts);
    r.Ok? && r.v == es[0] && RowTail(op, r.rest) == Ok(es[1..], rest)
  }

  /** What is read for a left side, an operator and more. */
  lemma ComparisonHead(l: seq<Piece>, el: Sql, o: string, b: seq<Token>)
    requires AsPrimary(l, el)
    ensures
      var ts := TokensOf(l) + ([Oper(o)] + b);
      && ts != [] && ts[0] != Kw("not")
      && Predicate(ts) == Infix(HBinary(o), el, b)
  {
    var rest := [Oper(o)] + b;
    PhraseAt(l, el, rest);
    PrimaryIsOperand(TokensOf(l) + rest, el, rest);
    assert rest[1..] == b;
  }

  lemma ComparisonLiteral(l: seq<Piece>, el: Sql, o: string, v: string, us: seq<Token>, e: Sql, rest: seq<Token>)
    requires AsPrimary(l, el) && !e.App?
    requires Predicate(TokensOf(l) + ([Oper(o)] + ([Str(v)] + us))) == Ok(ComparisonSql(el, o, e), rest)
    ensures e == StrLit(v) && rest == us
  {
    ComparisonHead(l, el, o, [Str(v)] + us);
    assert [el, Operand([Str(v)] + us).v][1] == [el, e][1];
    LiteralOperand(v, us, e, rest);
  }

  lemma RowTailStep(op: BoolOp, us: seq<Token>, es: seq<Sql>, rest: seq<Token>)
    requires !op.NotOp? && RowTail(op, us) == Ok(es, rest) && es != [] && es[0].App? && es[0].head.HBinary?
    ensures us != [] && RowReads(op, us[1..], es, rest)
  {
    if op.AndOp? {
      var r := Negation(us[1..]);
      ConjunctionIsPredicate(us[1..], es[0].head, es[0].args, r.rest);
    } else {
      var r := Conjunction(us[1..]);
      ConjunctionIsPredicate(us[1..], es[0].head, es[0].args, r.rest);
    }
  }

  /** A body that is a comparison, or the AND or OR of comparisons, was read as a row of them. */
  lemma {:induction false} BodyIsRow(op: BoolOp, ts: seq<Token>, es: seq<Sql>, rest: seq<Token>)
    requires !op.NotOp? && es != [] && ts != [] && ts[0] != Kw("not")
    requires Predicate(ts).Ok? ==> Predicate(ts).v.App? && Predicate(ts).v.head.HBinary?
    requires es[0].App? && es[0].head.HBinary? && Front(rest) == RPAREN
    requires Body(ts) == Ok(if |es| == 1 then es[0] else App(BoolHead(op), es), rest)
    ensures RowReads(op, ts, es, rest)
  {
    assert Negation(ts) == Predicate(ts);
    var c := Conjunction(ts);
    NoOrTail(c.rest);
    NoAndTail(Predicate(ts).rest);
    if |es| == 1 {
      BodyIsPredicate(ts, es[0].head, es[0].args, rest);
      assert es[1..] == [];
    } else if op.AndOp? {
      assert c == Ok(App(HAnd, es), rest);
      RowOfConjunction(ts, es, rest);
    } else {
      RowOfBody(ts, es, rest);
    }
  }

  lemma RowOfConjunction(ts: seq<Token>, es: seq<Sql>, rest: seq<Token>)
    requires Conjunction(ts) == Ok(App(HAnd, es), rest) && Negation(ts) == Predicate(ts)
    requires Predicate(ts).Ok? ==> Predicate(ts).v.App? && Predicate(ts).v.head.HBinary?
    ensures RowReads(AndOp, ts, es, rest)
  {
    var r := Predicate(ts);
    var tail := AndTail(r.rest);
    assert ([r.v] + tail.v)[1..] == tail.v;
  }

  lemma RowOfBody(ts: seq<Token>, es: seq<Sql>, rest: seq<Token>)
    requires Body(ts) == Ok(App(HOr, es), rest) && Negation(ts) == Predicate(ts)
    requires Predicate(ts).Ok? ==> Predicate(ts).v.App? && Predicate(ts).v.head.HBinary?
    requires es != [] && es[0].App? && es[0].head.HBinary?
    ensures RowReads(OrOp, ts, es, rest)
  {
    var c := Conjunction(ts);
    var tail := OrTail(c.rest);
    assert tail.v != [] && es == [c.v] + tail.v;
    assert ([c.v] + tail.v)[1..] == tail.v && ([c.v] + tail.v)[0] == c.v;
    ConjunctionIsPredicate(ts, es[0].head, es[0].args, c.rest);
  }

  // ---------- the text of a chain ----------

  /** The left side and the operator. */
  function ChainLead(l: seq<Piece>, opname: string): seq<Piece> {
    l + [Sp, Sym(opname), Sp]
  }

  lemma LeadRendered(d: Dialect, m: ScanMode, l: seq<Piece>)
    requires m.isstr && m.left == Render(d, l)
    ensures LeftAndOperator(m) == Render(d, ChainLead(l, m.opname)) + "'"
  {
    RenderThree(d, Sp, Sym(m.opname), Sp);
    RenderAppend(d, l, [Sp, Sym(m.opname), Sp]);
    LeadText(m.left, m.opname);
  }

  lemma LeadText(left: string, o: string)
    ensures left + " " + o + " " + "'" == (left + (" " + (o + " "))) + "'"
  {
  }

  lemma LeadSpaced(d: Dialect, l: seq<Piece>, opname: string)
    requires WellSpaced(d, l) && IsSymbolText(d, opname)
    ensures WellSpaced(d, ChainLead(l, opname)) && Opens(ChainLead(l, opname))
    ensures TokensOf(ChainLead(l, opname)) == TokensOf(l) + [Oper(opname)]
  {
    OperatorGap(d, opname);
    Join(d, l, [Sp, Sym(opname), Sp]);
    TokensAppend(l, [Sp, Sym(opname), Sp]);
    GapTokens(opname);
  }

  /** The text between two comparisons. */
  lemma ChainGapLexed(d: Dialect, m: ScanMode, l: seq<Piece>, more: string, us: seq<Token>) returns (ts: seq<Token>)
    requires ValidDialect(d) && WellSpaced(d, l) && IsSymbolText(d, m.opname)
    requires m.isstr && !m.useIn && m.left == Render(d, l) && Lex(d, Between(m)[1..] + more) == Some(us)
    ensures Lex(d, "'" + more) == Some(ts)
    ensures us == [BoolKw(ChainOp(m.useOr))] + (TokensOf(l) + ([Oper(m.opname)] + ts))
  {
    var sep, lead := BoolSeparator(ChainOp(m.useOr)), ChainLead(l, m.opname);
    assert Between(m)[1..] + more == Render(d, sep + lead) + ("'" + more) by {
      SeparatorText(d, m);
      LeadRendered(d, m, l);
      RenderAppend(d, sep, lead);
      GapText(ChainWord(m), Render(d, lead), more);
    }
    assert TokensOf(sep + lead) == [BoolKw(ChainOp(m.useOr))] + (TokensOf(l) + [Oper(m.opname)]) by {
      TokensSeparator(ChainOp(m.useOr));
      LeadSpaced(d, l, m.opname);
      TokensAppend(sep, lead);
    }
    ChainGapSpaced(d, sep, lead, m, l);
    LexThen(d, sep + lead, "'" + more);
    ts := Lex(d, "'" + more).value;
    PushedLead(BoolKw(ChainOp(m.useOr)), TokensOf(l), Oper(m.opname), ts);
  }

  lemma GapText(word: string, lead: string, more: string)
    ensures ("'" + word + (lead + "'"))[1..] + more == (word + lead) + ("'" + more)
  {
  }

  lemma PushedLead(a: Token, b: seq<Token>, c: Token, ts: seq<Token>)
    ensures ([a] + (b + [c])) + ts == [a] + (b + ([c] + ts))
  {
  }

  lemma ChainGapSpaced(d: Dialect, sep: seq<Piece>, lead: seq<Piece>, m: ScanMode, l: seq<Piece>)
    requires ValidDialect(d) && WellSpaced(d, l) && IsSymbolText(d, m.opname)
    requires sep == BoolSeparator(ChainOp(m.useOr)) && lead == ChainLead(l, m.opname)
    ensures WellSpaced(d, sep + lead) && Opens(sep + lead)
  {
    LeadSpaced(d, l, m.opname);
    WordAnd(); WordOr();
    Join(d, sep, lead);
  }

  /** A row of the comparisons with the elements comes from intact elements. */
  lemma {:induction false} RowIntact(d: Dialect, m: ScanMode, l: seq<Piece>, el: Sql, es: seq<Option<string>>,
                                     close: string, ts: seq<Token>, rest: seq<Token>)
    requires ValidDialect(d) && WellSpaced(d, l) && IsSymbolText(d, m.opname) && AsPrimary(l, el)
    requires m.isstr && !m.useIn && m.left == Render(d, l) && es != [] && close != "" && close[0] == ')'
    requires Lex(d, "'" + ElementsPrinted(m, es, close)) == Some(ts)
    requires RowReads(ChainOp(m.useOr), TokensOf(l) + ([Oper(m.opname)] + ts),
                      ComparisonSqls(el, m.opname, ElementSqls(true, es)), rest)
    ensures AllIntact(d.scs, es)
    decreases |es|
  {
    var x, tail, elements := ElementName(es[0]), TailPrinted(m, es, close), ElementSqls(true, es);
    var v, after, us := FirstLiteral(d, LiteralText(m, x, tail), ts);
    var r := Predicate(TokensOf(l) + ([Oper(m.opname)] + ts));
    ComparisonLiteral(l, el, m.opname, v, us, elements[0], r.rest);
    TailSeparates(m, es, close);
    OnlyIntactRead(m, d.scs, x, tail, after);
    if |es| > 1 {
      var trees := ComparisonSqls(el, m.opname, elements);
      assert trees[1..] == ComparisonSqls(el, m.opname, ElementSqls(true, es[1..]));
      RowTailStep(ChainOp(m.useOr), us, trees[1..], rest);
      var more := ElementsPrinted(m, es[1..], close);
      var ts2 := ChainGapLexed(d, m, l, more, us);
      assert us[1..] == TokensOf(l) + ([Oper(m.opname)] + ts2);
      RowIntact(d, m, l, el, es[1..], close, ts2, rest);
      ConsIntact(d.scs, es);
    }
  }

  // ---------- the shown text ----------

  function ArrayGap(opname: string, useIn: bool): seq<Piece> {
    if useIn then InOpening(opname) else [Sp, Sym(opname), Sp]
  }

  /** All that is shown before the first element. */
  function ArrayOpening(l: seq<Piece>, opname: string, useIn: bool): seq<Piece> {
    [P('(')] + (l + ArrayGap(opname, useIn))
  }

  function ArrayClosing(useIn: bool): string {
    if useIn then "))" else ")"
  }

  function ModeOf(d: Dialect, h: Head, left: Pieces): ScanMode
    requires h.ScalarArrayOp?
  {
    var useIn := UsesIn(h.opname, h.useOr);
    ScanMode(useIn, true, h.useOr, LeftText(d, useIn, left), h.opname)
  }

  /** The shown comparison with an array constant of a quoted type. */
  lemma ShownArray(d: Dialect, cx: DeparseCxt, h: Head, left: Expr, t: Oid, es: seq<Option<string>>)
    requires h.ScalarArrayOp? && QuotesElements(t) && es != [] && Print(d, cx, left).Some?
    ensures
      var useIn, l, m := UsesIn(h.opname, h.useOr), Print(d, cx, left).value, ModeOf(d, h, Print(d, cx, left));
      Shown(d, cx, WithArray(h, left, t, es)) ==
        Render(d, ArrayOpening(l, h.opname, useIn)) + ("'" + ElementsPrinted(m, es, ArrayClosing(useIn)))
  {
    var useIn, l, m := UsesIn(h.opname, h.useOr), Print(d, cx, left).value, ModeOf(d, h, Print(d, cx, left));
    var right := Const(t, INVALID_OID, ArrayDatum(es));
    ConstArrayText(d, h.opname, h.useOr, useIn, Some(l), right);
    var ps := ConstArrayPieces(d, h.opname, h.useOr, useIn, Some(l), right).value;
    ConstPrints(d, cx, h, left, t, es, ps);
    ScanInvertsArrayOut(m, es);
    EmittedPrinted(m, es, ArrayClosing(useIn));
    OpeningRendered(d, l, h.opname, useIn);
    if useIn {
      RenderAppend(d, l + InOpening(h.opname), ps);
      ShownIn(Render(d, l + InOpening(h.opname)), Emitted(m, es));
    } else {
      LeadRendered(d, m, l);
      ShownChain(Render(d, ChainLead(l, h.opname)), Emitted(m, es));
    }
  }

  lemma OpeningRendered(d: Dialect, l: seq<Piece>, opname: string, useIn: bool)
    ensures Render(d, ArrayOpening(l, opname, useIn)) == "(" + Render(d, l + ArrayGap(opname, useIn))
  {
    RenderAppend(d, [P('(')], l + ArrayGap(opname, useIn));
    RenderOne(d, P('('));
  }

  lemma ShownIn(open: string, emitted: string)
    ensures "(" + (open + (("'" + emitted + "'") + ")")) + ")" == ("(" + open) + ("'" + (emitted + ("'" + "))")))
  {
  }

  lemma ShownChain(lead: string, emitted: string)
    ensures "(" + (((lead + "'") + emitted + "'") + "") + ")" == ("(" + lead) + ("'" + (emitted + ("'" + ")")))
  {
  }

  lemma ArrayGapSpaced(d: Dialect, opname: string, useIn: bool)
    requires IsSymbolText(d, opname)
    ensures WellSpaced(d, ArrayGap(opname, useIn)) && Closes(ArrayGap(opname, useIn)) && Opens(ArrayGap(opname, useIn))
    ensures TokensOf(ArrayGap(opname, useIn)) == if useIn then InWords(opname) + [LPAREN] else [Oper(opname)]
  {
    OperatorGap(d, opname);
    InOpeningTokens(opname);
    GapTokens(opname);
  }

  lemma ArrayOpeningSpaced(d: Dialect, l: seq<Piece>, gap: seq<Piece>)
    requires WellSpaced(d, l) && WellSpaced(d, gap) && Closes(gap) && Opens(gap)
    ensures WellSpaced(d, [P('(')] + (l + gap)) && Opens([P('(')] + (l + gap))
  {
    assert WellSpaced(d, [P('(')]) by {
      FixedSpaced(d, AndOp);
    }
    Join(d, l, gap);
    Join(d, [P('(')], l + gap);
  }

  lemma ArrayOpeningTokens(l: seq<Piece>, gap: seq<Piece>)
    ensures TokensOf([P('(')] + (l + gap)) == [LPAREN] + (TokensOf(l) + TokensOf(gap))
  {
    assert TokensOf([P('(')]) == [LPAREN] by {
      TokOne(P('('));
    }
    TokensAppend([P('(')], l + gap);
    TokensAppend(l, gap);
  }

  // ---------- exactly the intact arrays ----------

  /** The tree of the comparison with all of the elements. */
  function WholeTree(rel: Rel, h: Head, left: Expr, isstr: bool, es: seq<Option<string>>): Sql
    requires h.ScalarArrayOp?
  {
    ArrayTree(h.opname, h.useOr, Erase(rel, left), ElementSqls(isstr, es))
  }

  /** What is read of the shown text once its opening is known. */
  lemma ShownReads(d: Dialect, l: seq<Piece>, opname: string, useIn: bool, s: string, t: Sql) returns (ts: seq<Token>)
    requires ValidDialect(d) && WellSpaced(d, l) && IsSymbolText(d, opname)
    requires ReadText(d, Render(d, ArrayOpening(l, opname, useIn)) + ("'" + s)) == Some(t)
    ensures Lex(d, "'" + s) == Some(ts)
    ensures useIn ==> Primary([LPAREN] + (TokensOf(l) + (InWords(opname) + ([LPAREN] + ts)))) == Ok(t, [])
    ensures !useIn ==> Primary([LPAREN] + (TokensOf(l) + ([Oper(opname)] + ts))) == Ok(t, [])
  {
    ArrayGapSpaced(d, opname, useIn);
    ArrayOpeningSpaced(d, l, ArrayGap(opname, useIn));
    ArrayOpeningTokens(l, ArrayGap(opname, useIn));
    LexThen(d, ArrayOpening(l, opname, useIn), "'" + s);
    ts := Lex(d, "'" + s).value;
    OpeningGrouped(TokensOf(l), InWords(opname), ts);
    PushedLead(LPAREN, TokensOf(l), Oper(opname), ts);
  }

  lemma OpeningGrouped(a: seq<Token>, words: seq<Token>, ts: seq<Token>)
    ensures ([LPAREN] + (a + (words + [LPAREN]))) + ts == [LPAREN] + (a + (words + ([LPAREN] + ts)))
  {
  }

  /** An IN list or a chain that is read with all of its elements was printed from intact ones. */
  lemma OnlyIntactArrays(d: Dialect, m: ScanMode, l: seq<Piece>, el: Sql, es: seq<Option<string>>)
    requires ValidDialect(d) && WellSpaced(d, l) && IsSymbolText(d, m.opname) && AsPrimary(l, el)
    requires m.isstr && m.useIn == UsesIn(m.opname, m.useOr) && (!m.useIn ==> m.left == Render(d, l)) && es != []
    requires ReadText(d, Render(d, ArrayOpening(l, m.opname, m.useIn))
                      + ("'" + ElementsPrinted(m, es, ArrayClosing(m.useIn))))
             == Some(ArrayTree(m.opname, m.useOr, el, ElementSqls(true, es)))
    ensures AllIntact(d.scs, es)
  {
    var close, elements := ArrayClosing(m.useIn), ElementSqls(true, es);
    var ts := ShownReads(d, l, m.opname, m.useIn, ElementsPrinted(m, es, close),
                         ArrayTree(m.opname, m.useOr, el, elements));
    if m.useIn {
      InItems(l, el, m.opname, ts, elements);
      ItemsIntact(d, m, es, close, ts, [RPAREN] + [RPAREN]);
    } else {
      var a, trees := TokensOf(l) + ([Oper(m.opname)] + ts), ComparisonSqls(el, m.opname, elements);
      ParenBody(a, ArrayTree(m.opname, m.useOr, el, elements));
      ComparisonHead(l, el, m.opname, ts);
      assert |trees| == 1 ==> trees[0] == ComparisonSql(el, m.opname, elements[0]);
      BodyIsRow(ChainOp(m.useOr), a, trees, [RPAREN]);
      RowIntact(d, m, l, el, es, close, ts, [RPAREN]);
    }
  }

  /** A comparison with a non-empty array constant of a quoted type reads back, with all of its elements, if
      and only if every element is intact: it is there, holds no comma, apostrophe or double quote, and no
      backslash where backslashes are plain characters. */
  lemma QuotedArrayReadsIff(d: Dialect, cx: DeparseCxt, h: Head, left: Expr, t: Oid, es: seq<Option<string>>)
    requires ValidDialect(d) && cx.quotable && h.ScalarArrayOp? && IsSymbolText(d, h.opname)
    requires Readable(d, cx, left) && FormOf(left) == PrimaryForm && QuotesElements(t) && es != []
    ensures ReadText(d, Shown(d, cx, WithArray(h, left, t, es))) == Some(WholeTree(cx.rel, h, left, true, es))
            <==> AllIntact(d.scs, es)
  {
    if AllIntact(d.scs, es) {
      IntactArrayReads(d, cx, h, left, t, es);
    } else if ReadText(d, Shown(d, cx, WithArray(h, left, t, es))) == Some(WholeTree(cx.rel, h, left, true, es)) {
      ReadsBack(d, cx, left);
      ReadableIsLegible(d, cx, left);
      Spaced(d, cx, left);
      ShownArray(d, cx, h, left, t, es);
      OnlyIntactArrays(d, ModeOf(d, h, Print(d, cx, left)), Print(d, cx, left).value, Erase(cx.rel, left), es);
    }
  }

  lemma IntactArrayReads(d: Dialect, cx: DeparseCxt, h: Head, left: Expr, t: Oid, es: seq<Option<string>>)
    requires ValidDialect(d) && cx.quotable && h.ScalarArrayOp? && IsSymbolText(d, h.opname)
    requires Readable(d, cx, left) && FormOf(left) == PrimaryForm && ElementsReadable(d, QuotesElements(t), es)
    ensures ReadText(d, Shown(d, cx, WithArray(h, left, t, es))) ==
            Some(WholeTree(cx.rel, h, left, QuotesElements(t), es))
  {
    var e := WithArray(h, left, t, es);
    assert Children(e) == [left];
    ConditionRoundTrip(d, cx, e);
  }

  // ---------- all array constants ----------

  /** The array is null outside of IN, or it has elements and, where they are quoted, all are intact. */
  predicate ConstantFits(d: Dialect, h: Head, t: Oid, v: Datum)
    requires h.ScalarArrayOp?
  {
    match v
    case NullDatum => !UsesIn(h.opname, h.useOr)
    case ArrayDatum(es) => es != [] && (QuotesElements(t) ==> AllIntact(d.scs, es))
    case Scalar(_) => false
  }

  /** Exactly these array constants are read back: for any left side that stands alone, and elements of
      int4[] and oid[] that are numbers or null. */
  lemma ArrayConstantReadsIff(d: Dialect, cx: DeparseCxt, h: Head, left: Expr, t: Oid, v: Datum)
    requires ValidDialect(d) && cx.quotable && h.ScalarArrayOp? && IsSymbolText(d, h.opname)
    requires Readable(d, cx, left) && FormOf(left) == PrimaryForm && !v.Scalar?
    requires v.ArrayDatum? && v.elems != [] && !QuotesElements(t) ==> ElementsReadable(d, false, v.elems)
    ensures ReadsRight(d, cx, Node(h, [left, Const(t, INVALID_OID, v)])) <==> ConstantFits(d, h, t, v)
  {
    var e := Node(h, [left, Const(t, INVALID_OID, v)]);
    match v {
      case NullDatum => NullReadsIff(d, cx, h, left, t);
      case ArrayDatum(es) =>
        ArrayPrints(d, cx, h, left, t, es);
        ArrayErases(cx.rel, h, left, t, es);
        if es == [] {
          EmptyArrayReads(d, cx, h, left, t);
          NoElements(h, Erase(cx.rel, left), QuotesElements(t));
        } else if QuotesElements(t) {
          QuotedArrayReadsIff(d, cx, h, left, t, es);
        } else {
          IntactArrayReads(d, cx, h, left, t, es);
        }
    }
  }

  lemma ArrayPrints(d: Dialect, cx: DeparseCxt, h: Head, left: Expr, t: Oid, es: seq<Option<string>>)
    requires cx.quotable && h.ScalarArrayOp? && Readable(d, cx, left) && FormOf(left) == PrimaryForm
    ensures Print(d, cx, WithArray(h, left, t, es)).Some?
  {
    ReadsBack(d, cx, left);
    var right := Const(t, INVALID_OID, ArrayDatum(es));
    ConstArrayText(d, h.opname, h.useOr, UsesIn(h.opname, h.useOr), Print(d, cx, left), right);
    var ps := ConstArrayPieces(d, h.opname, h.useOr, UsesIn(h.opname, h.useOr), Print(d, cx, left), right).value;
    ConstPrints(d, cx, h, left, t, es, ps);
  }

  lemma ArrayErases(rel: Rel, h: Head, left: Expr, t: Oid, es: seq<Option<string>>)
    requires h.ScalarArrayOp?
    ensures Erase(rel, WithArray(h, left, t, es)) == WholeTree(rel, h, left, QuotesElements(t), es)
  {
  }

  /** No server reads a tree without elements for an empty array. */
  lemma NoElements(h: Head, el: Sql, isstr: bool)
    requires h.ScalarArrayOp?
    ensures ArrayTree(h.opname, h.useOr, el, ElementSqls(isstr, [])) != ArrayTree(h.opname, h.useOr, el, [StrLit("")])
  {
    assert |[el] + ElementSqls(isstr, [])| != |[el] + [StrLit("")]|;
  }

  lemma NullReadsIff(d: Dialect, cx: DeparseCxt, h: Head, left: Expr, t: Oid)
    requires ValidDialect(d) && cx.quotable && h.ScalarArrayOp? && Readable(d, cx, left)
    ensures ReadsRight(d, cx, Node(h, [left, Const(t, INVALID_OID, NullDatum)])) <==> !UsesIn(h.opname, h.useOr)
  {
    var e := Node(h, [left, Const(t, INVALID_OID, NullDatum)]);
    assert e.args[0] == left && e.args[1] == Const(t, INVALID_OID, NullDatum);
    if UsesIn(h.opname, h.useOr) {
      NullInUnreadable(d, cx, e);
    } else {
      assert Children(e) == [];
      ConditionRoundTrip(d, cx, e);
    }
  }

  /** Exactly these are read back and, when the servers agree, compared right on every row. */
  lemma ArrayConstantRightIff(L: Local, R: Remote, d: Dialect, cx: DeparseCxt, h: Head, left: Expr, t: Oid, v: Datum)
    requires ValidDialect(d) && cx.quotable && h.ScalarArrayOp? && IsSymbolText(d, h.opname)
    requires Readable(d, cx, left) && FormOf(left) == PrimaryForm && LiveColumns(cx.rel, left) && !v.Scalar?
    requires v.ArrayDatum? && v.elems != [] && !QuotesElements(t) ==> ElementsReadable(d, false, v.elems)
    requires Agrees(L, R, Node(h, [left, Const(t, INVALID_OID, v)]))
    ensures
      var e := Node(h, [left, Const(t, INVALID_OID, v)]);
      ReadsRight(d, cx, e) && RightOnAllRows(L, R, d, cx, e) <==> ConstantFits(d, h, t, v)
  {
    ArrayConstantReadsIff(d, cx, h, left, t, v);
    if ConstantFits(d, h, t, v) {
      ArrayConstantRight(L, R, d, cx, h, left, t, v);
    }
  }

  lemma ArrayConstantRight(L: Local, R: Remote, d: Dialect, cx: DeparseCxt, h: Head, left: Expr, t: Oid, v: Datum)
    requires ValidDialect(d) && cx.quotable && h.ScalarArrayOp? && IsSymbolText(d, h.opname)
    requires Readable(d, cx, left) && FormOf(left) == PrimaryForm && LiveColumns(cx.rel, left)
    requires v.ArrayDatum? && v.elems != [] && !QuotesElements(t) ==> ElementsReadable(d, false, v.elems)
    requires Agrees(L, R, Node(h, [left, Const(t, INVALID_OID, v)])) && ConstantFits(d, h, t, v) && !v.Scalar?
    ensures RightOnAllRows(L, R, d, cx, Node(h, [left, Const(t, INVALID_OID, v)]))
  {
    var e := Node(h, [left, Const(t, INVALID_OID, v)]);
    ArrayConstantReadsIff(d, cx, h, left, t, v);
    assert e.args[0] == left && e.args[1] == Const(t, INVALID_OID, v);
    assert v.NullDatum? ==> Children(e) == [];
    assert !v.NullDatum? ==> Children(e) == [left];
    assert LiveColumns(cx.rel, e);
    forall row: RemoteRow
      ensures SqlEval(R, row, Erase(cx.rel, e)) == Eval(L, cx.rel.relid, LocalRow(cx.rel, row), e)
    {
      ErasePreservesValue(L, R, d, cx, row, e);
    }
  }
}
