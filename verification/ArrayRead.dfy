/** The text of array comparisons: what the character loop and the element loop print reads back as
    an IN list, a NOT IN list or an OR/AND chain over exactly the array's elements, in order.
 */
module ArrayRead {
  import opened Nodes
  import opened Tokens
  import opened Words
  import opened Reader
  import opened ArrayPieces
  import opened Phrases

  // ---------- the trees ----------

  function ElementSql(isstr: bool, e: Option<string>): Sql {
    match e
    case None => NullLit
    case Some(x) =>
      if isstr then StrLit(x)
      else if x != "" && x[0] == '-' then App(HUnary("-"), [NumLit(x[1..])])
      else NumLit(x)
  }

  function ElementSqls(isstr: bool, es: seq<Option<string>>): (r: seq<Sql>)
    ensures |r| == |es| && forall i :: 0 <= i < |es| ==> r[i] == ElementSql(isstr, es[i])
  {
    if es == [] then [] else [ElementSql(isstr, es[0])] + ElementSqls(isstr, es[1..])
  }

  function ComparisonSql(left: Sql, opname: string, right: Sql): Sql {
    App(HBinary(opname), [left, right])
  }

  function ComparisonSqls(left: Sql, opname: string, rights: seq<Sql>): (r: seq<Sql>)
    ensures |r| == |rights|
    ensures forall i :: 0 <= i < |rights| ==> r[i] == ComparisonSql(left, opname, rights[i])
  {
    if rights == [] then []
    else [ComparisonSql(left, opname, rights[0])] + ComparisonSqls(left, opname, rights[1..])
  }

  /** The tree a server reads for the comparison, given the trees of the left side and of the
      elements. */
  function ArrayTree(opname: string, useOr: bool, left: Sql, elements: seq<Sql>): Sql {
    if UsesIn(opname, useOr) then App(HIn(opname == "<>"), [left] + elements)
    else if |elements| == 1 then ComparisonSql(left, opname, elements[0])
    else App(BoolHead(ChainOp(useOr)), ComparisonSqls(left, opname, elements))
  }

  // ---------- the pieces ----------

  function InPieces(left: seq<Piece>, opname: string, elements: seq<seq<Piece>>): seq<Piece> {
    (left + InOpening(opname)) + (JoinPieces(elements, ITEM_SEPARATOR) + [P(')')])
  }

  function ParenComparison(left: seq<Piece>, opname: string, right: seq<Piece>): seq<Piece> {
    [P('(')] + (left + ([Sp, Sym(opname), Sp] + (right + [P(')')])))
  }

  function ParenComparisons(left: seq<Piece>, opname: string, rights: seq<seq<Piece>>): (r: seq<seq<Piece>>)
    ensures |r| == |rights|
    ensures forall i :: 0 <= i < |rights| ==> r[i] == ParenComparison(left, opname, rights[i])
  {
    if rights == [] then []
    else [ParenComparison(left, opname, rights[0])] + ParenComparisons(left, opname, rights[1..])
  }

  // ---------- elements ----------

  predicate OperandPhrase(ps: seq<Piece>, e: Sql, rest: seq<Token>) {
    Operand(TokensOf(ps) + rest) == Ok(e, rest)
  }

  /** One operand, whatever follows but a subscript. */
  ghost predicate AsOperand(ps: seq<Piece>, e: Sql) {
    forall rest :: Front(rest) != LBRACK ==> OperandPhrase(ps, e, rest)
  }

  /** An element of an array constant is an operand. */
  lemma ElementReads(isstr: bool, e: Option<string>)
    ensures AsOperand(ElementPieces(isstr, e), ElementSql(isstr, e))
  {
    var ps := ElementPieces(isstr, e);
    forall rest | Front(rest) != LBRACK
      ensures OperandPhrase(ps, ElementSql(isstr, e), rest)
    {
      if |ps| == 2 {
        SignedElementReads(ps[1].text, rest);
      } else {
        LeafPhrase(ps[0], ElementSql(isstr, e), rest);
        PrimaryIsOperand(TokensOf(ps) + rest, ElementSql(isstr, e), rest);
      }
    }
  }

  lemma SignedElementReads(digits: string, rest: seq<Token>)
    requires Front(rest) != LBRACK
    ensures OperandPhrase([Sym("-"), Number(digits)], App(HUnary("-"), [NumLit(digits)]), rest)
  {
    TokOne(Number(digits));
    TokOne(Sym("-"));
    Tok2([Sym("-")], [Number(digits)], rest);
    assert [Sym("-")] + [Number(digits)] == [Sym("-"), Number(digits)];
    var ts := [Oper("-")] + ([Num(digits)] + rest);
    assert ts[1..] == [Num(digits)] + rest;
    LeafPhrase(Number(digits), NumLit(digits), rest);
    assert Subscripts(rest) == Ok(([], []), rest);
    assert Indexed([Num(digits)] + rest) == Ok(NumLit(digits), rest);
  }

  lemma OperandAsBody(ps: seq<Piece>, e: Sql)
    requires AsOperand(ps, e)
    ensures AsBody(ps, e)
  {
    forall rest | Ends(Front(rest))
      ensures BodyPhrase(ps, e, rest)
    {
      var ts := TokensOf(ps) + rest;
      assert OperandPhrase(ps, e, rest);
      OperandStart(ts);
      OperandIsPredicate(ts, e, rest);
      PredicateIsBody(ts, e, rest);
    }
  }

  /** The items of an IN list are exactly the elements, in order. */
  lemma {:induction false} ElementItems(isstr: bool, es: seq<Option<string>>)
    ensures AsBodies(ElementPiecesAll(isstr, es), ElementSqls(isstr, es))
  {
    if es != [] {
      ElementReads(isstr, es[0]);
      OperandAsBody(ElementPieces(isstr, es[0]), ElementSql(isstr, es[0]));
      ElementItems(isstr, es[1..]);
    }
  }

  // ---------- IN lists ----------

  function InWords(opname: string): seq<Token> {
    if opname == "<>" then [Kw("not"), Kw("in")] else [Kw("in")]
  }

  lemma InOpeningTokens(opname: string)
    ensures TokensOf(InOpening(opname)) == InWords(opname) + [LPAREN]
  {
    WordNot(); WordIn();
    TokShort(InOpening(opname));
  }

  /** `left [NOT] IN (items)`. */
  lemma InReads(a: seq<Token>, ea: Sql, opname: string, inner: seq<Token>, es: seq<Sql>, close: seq<Token>)
    requires Primary(a) == Ok(ea, InWords(opname) + ([LPAREN] + inner))
    requires Items(inner) == Ok(es, [RPAREN] + close)
    ensures Predicate(a) == Ok(App(HIn(opname == "<>"), [ea] + es), close)
    ensures Negation(a) == Predicate(a)
  {
    var rest := InWords(opname) + ([LPAREN] + inner);
    var list := [LPAREN] + inner;
    assert rest[|InWords(opname)|..] == list;
    assert list[1..] == inner;
    assert ([RPAREN] + close)[1..] == close;
    PrimaryIsOperand(a, ea, rest);
    assert Predicate(a) == InList(opname == "<>", ea, list);
  }

  lemma InTokens(left: seq<Piece>, opname: string, elements: seq<seq<Piece>>, close: seq<Token>)
    ensures TokensOf(InPieces(left, opname, elements)) + close ==
            TokensOf(left) + (InWords(opname) + ([LPAREN]
              + (TokensOf(JoinPieces(elements, ITEM_SEPARATOR)) + ([RPAREN] + close))))
  {
    var list := JoinPieces(elements, ITEM_SEPARATOR);
    var inner := TokensOf(list) + ([RPAREN] + close);
    assert TokensOf(InPieces(left, opname, elements)) + close == TokensOf(left + InOpening(opname)) + inner by {
      TokOne(P(')'));
      Tok3(left + InOpening(opname), list, [P(')')], close);
    }
    assert TokensOf(left + InOpening(opname)) == TokensOf(left) + (InWords(opname) + [LPAREN]) by {
      TokensAppend(left, InOpening(opname));
      InOpeningTokens(opname);
    }
    OpenThen(TokensOf(left), InWords(opname), inner);
  }

  lemma OpenThen(a: seq<Token>, words: seq<Token>, inner: seq<Token>)
    ensures (a + (words + [LPAREN])) + inner == a + (words + ([LPAREN] + inner))
  {
  }

  /** An IN list is a predicate over the left side and the items. */
  lemma InPhrase(left: seq<Piece>, ea: Sql, opname: string, elements: seq<seq<Piece>>, es: seq<Sql>)
    requires AsPrimary(left, ea) && elements != [] && AsBodies(elements, es)
    ensures AsPredicate(InPieces(left, opname, elements), App(HIn(opname == "<>"), [ea] + es))
  {
    forall rest | Front(rest) != LBRACK
      ensures PredicatePhrase(InPieces(left, opname, elements), App(HIn(opname == "<>"), [ea] + es), rest)
    {
      InPhraseAt(left, ea, opname, elements, es, rest);
    }
  }

  lemma InPhraseAt(left: seq<Piece>, ea: Sql, opname: string, elements: seq<seq<Piece>>, es: seq<Sql>,
                   rest: seq<Token>)
    requires AsPrimary(left, ea) && elements != [] && AsBodies(elements, es)
    ensures PredicatePhrase(InPieces(left, opname, elements), App(HIn(opname == "<>"), [ea] + es), rest)
  {
    var inner := TokensOf(JoinPieces(elements, ITEM_SEPARATOR)) + ([RPAREN] + rest);
    var after := InWords(opname) + ([LPAREN] + inner);
    ItemsRead(elements, es, [RPAREN] + rest);
    InTokens(left, opname, elements, rest);
    assert Phrase(left, ea, after);
    InReads(TokensOf(left) + after, ea, opname, inner, es, rest);
  }

  // ---------- chains ----------

  ghost predicate AsPredicates(pss: seq<seq<Piece>>, es: seq<Sql>) {
    |pss| == |es| && forall i :: 0 <= i < |pss| ==> AsPredicate(pss[i], es[i])
  }

  ghost predicate AsPrimaries(pss: seq<seq<Piece>>, es: seq<Sql>) {
    |pss| == |es| && forall i :: 0 <= i < |pss| ==> AsPrimary(pss[i], es[i])
  }

  /** `left op right` where the right side is any operand. */
  lemma ComparisonReads(a: seq<Token>, ea: Sql, opname: string, b: seq<Token>, eb: Sql, tail: seq<Token>)
    requires Primary(a) == Ok(ea, [Oper(opname)] + b)
    requires Operand(b) == Ok(eb, tail)
    ensures Predicate(a) == Ok(ComparisonSql(ea, opname, eb), tail)
    ensures Negation(a) == Ok(ComparisonSql(ea, opname, eb), tail)
  {
    var rest := [Oper(opname)] + b;
    assert rest[1..] == b;
    PrimaryIsOperand(a, ea, rest);
    assert Predicate(a) == Infix(HBinary(opname), ea, b);
  }

  lemma GapTokens(opname: string)
    ensures TokensOf([Sp, Sym(opname), Sp]) == [Oper(opname)]
  {
    TokThree(Sp, Sym(opname), Sp);
  }

  lemma ComparisonTokens(left: seq<Piece>, opname: string, right: seq<Piece>, tail: seq<Token>)
    ensures TokensOf(ComparisonPieces(left, opname, right)) + tail ==
            TokensOf(left) + ([Oper(opname)] + (TokensOf(right) + tail))
  {
    GapTokens(opname);
    Tok3(left, [Sp, Sym(opname), Sp], right, tail);
  }

  /** One comparison of an unparenthesized chain. */
  lemma ComparisonPhrase(left: seq<Piece>, ea: Sql, opname: string, right: seq<Piece>, eb: Sql)
    requires AsPrimary(left, ea) && AsOperand(right, eb)
    ensures AsPredicate(ComparisonPieces(left, opname, right), ComparisonSql(ea, opname, eb))
  {
    forall rest | Front(rest) != LBRACK
      ensures PredicatePhrase(ComparisonPieces(left, opname, right), ComparisonSql(ea, opname, eb), rest)
    {
      var b := TokensOf(right) + rest;
      ComparisonTokens(left, opname, right, rest);
      assert Phrase(left, ea, [Oper(opname)] + b);
      assert OperandPhrase(right, eb, rest);
      ComparisonReads(TokensOf(left) + ([Oper(opname)] + b), ea, opname, b, eb, rest);
    }
  }

  /** The comparisons with the elements of an array constant. */
  lemma {:induction false} ConstComparisons(left: seq<Piece>, ea: Sql, opname: string, isstr: bool,
                                            es: seq<Option<string>>)
    requires AsPrimary(left, ea)
    ensures AsPredicates(ComparisonPiecesAll(left, opname, ElementPiecesAll(isstr, es)),
                         ComparisonSqls(ea, opname, ElementSqls(isstr, es)))
  {
    if es != [] {
      ElementReads(isstr, es[0]);
      ComparisonPhrase(left, ea, opname, ElementPieces(isstr, es[0]), ElementSql(isstr, es[0]));
      ConstComparisons(left, ea, opname, isstr, es[1..]);
    }
  }

  lemma ParenComparisonTokens(left: seq<Piece>, opname: string, right: seq<Piece>, rest: seq<Token>)
    ensures TokensOf(ParenComparison(left, opname, right)) + rest ==
            [LPAREN] + (TokensOf(left) + ([Oper(opname)] + (TokensOf(right) + ([RPAREN] + rest))))
  {
    GapTokens(opname);
    TokOne(P('(')); TokOne(P(')'));
    Tok5([P('(')], left, [Sp, Sym(opname), Sp], right, [P(')')], rest);
  }

  /** One parenthesized comparison. */
  lemma ParenComparisonPhrase(left: seq<Piece>, ea: Sql, opname: string, right: seq<Piece>, eb: Sql)
    requires AsPrimary(left, ea) && AsPrimary(right, eb)
    ensures AsPrimary(ParenComparison(left, opname, right), ComparisonSql(ea, opname, eb))
  {
    forall rest | Follows(Front(rest))
      ensures Phrase(ParenComparison(left, opname, right), ComparisonSql(ea, opname, eb), rest)
    {
      var close := [RPAREN] + rest;
      var b := TokensOf(right) + close;
      var a := TokensOf(left) + ([Oper(opname)] + b);
      ParenComparisonTokens(left, opname, right, rest);
      assert Phrase(left, ea, [Oper(opname)] + b);
      assert Phrase(right, eb, close);
      PrimaryIsOperand(b, eb, close);
      ComparisonReads(a, ea, opname, b, eb, close);
      PrimaryIsOperand(a, ea, [Oper(opname)] + b);
      PredicateIsBody(a, ComparisonSql(ea, opname, eb), close);
      ParenReads(a, ComparisonSql(ea, opname, eb), rest);
    }
  }

  /** The comparisons with the elements of an ARRAY[...]. */
  lemma {:induction false} ArrayComparisons(left: seq<Piece>, ea: Sql, opname: string, rights: seq<seq<Piece>>,
                                            es: seq<Sql>)
    requires AsPrimary(left, ea) && AsPrimaries(rights, es)
    ensures AsPrimaries(ParenComparisons(left, opname, rights), ComparisonSqls(ea, opname, es))
  {
    if es != [] {
      ParenComparisonPhrase(left, ea, opname, rights[0], es[0]);
      ArrayComparisons(left, ea, opname, rights[1..], es[1..]);
    }
  }

  /** A null array leaves the word NULL. */
  lemma NullPhrase()
    ensures AsPrimary([Sp, Word("NULL")], NullLit)
  {
    forall rest | Follows(Front(rest))
      ensures Phrase([Sp, Word("NULL")], NullLit, rest)
    {
      LeafPhrase(Word("NULL"), NullLit, rest);
      assert [Sp, Word("NULL")][1..] == [Word("NULL")];
      assert TokensOf([Sp, Word("NULL")]) == [] + TokensOf([Word("NULL")]);
    }
  }
}
