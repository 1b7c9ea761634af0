/** Runs of pieces that read as one tree: each form the deparser prints, the run of its tokens, and
    what the reader makes of them in front of whatever follows.
 */
module Phrases {
  import opened Nodes
  import opened Tokens
  import opened Words
  import opened Reader
  import opened ArrayPieces
  import opened Deparse

  function BinaryName(opname: string): string {
    if opname == "~~" then "LIKE" else if opname == "!~~" then "NOT LIKE" else opname
  }

  // ---------- token bookkeeping ----------

  lemma Tok2(a: seq<Piece>, b: seq<Piece>, rest: seq<Token>)
    ensures TokensOf(a + b) + rest == TokensOf(a) + (TokensOf(b) + rest)
  {
    TokensAppend(a, b);
  }

  lemma Tok3(a: seq<Piece>, b: seq<Piece>, c: seq<Piece>, rest: seq<Token>)
    ensures TokensOf(a + (b + c)) + rest == TokensOf(a) + (TokensOf(b) + (TokensOf(c) + rest))
  {
    Tok2(b, c, rest);
    Tok2(a, b + c, rest);
  }

  lemma Tok5(a: seq<Piece>, b: seq<Piece>, c: seq<Piece>, e: seq<Piece>, f: seq<Piece>, rest: seq<Token>)
    ensures TokensOf(a + (b + (c + (e + f)))) + rest ==
            TokensOf(a) + (TokensOf(b) + (TokensOf(c) + (TokensOf(e) + (TokensOf(f) + rest))))
  {
    Tok3(c, e, f, rest);
    Tok3(a, b, c + (e + f), rest);
  }

  lemma TokOne(p: Piece)
    ensures TokensOf([p]) == PieceTokens(p)
  {
    assert TokensOf([p]) == PieceTokens(p) + [];
  }

  function TokAt(ps: seq<Piece>, i: nat): seq<Token>
    requires i < |ps|
  {
    PieceTokens(ps[i])
  }

  lemma {:induction false} TokShort(ps: seq<Piece>)
    requires 1 <= |ps| <= 7
    ensures
      TokensOf(ps) ==
        if |ps| == 1 then TokAt(ps, 0)
        else if |ps| == 2 then TokAt(ps, 0) + TokAt(ps, 1)
        else if |ps| == 3 then TokAt(ps, 0) + (TokAt(ps, 1) + TokAt(ps, 2))
        else if |ps| == 4 then TokAt(ps, 0) + (TokAt(ps, 1) + (TokAt(ps, 2) + TokAt(ps, 3)))
        else if |ps| == 5 then
          TokAt(ps, 0) + (TokAt(ps, 1) + (TokAt(ps, 2) + (TokAt(ps, 3) + TokAt(ps, 4))))
        else if |ps| == 6 then
          TokAt(ps, 0) + (TokAt(ps, 1) + (TokAt(ps, 2) + (TokAt(ps, 3) + (TokAt(ps, 4) + TokAt(ps, 5)))))
        else
          TokAt(ps, 0) + (TokAt(ps, 1) + (TokAt(ps, 2) + (TokAt(ps, 3)
            + (TokAt(ps, 4) + (TokAt(ps, 5) + TokAt(ps, 6))))))
  {
    if |ps| == 1 {
      TokOne(ps[0]);
    } else {
      TokShort(ps[1..]);
    }
  }

  lemma TokThree(p: Piece, q: Piece, r: Piece)
    ensures TokensOf([p, q, r]) == PieceTokens(p) + (PieceTokens(q) + PieceTokens(r))
  {
    assert [p, q, r][1..] == [q, r] && [q, r][1..] == [r];
    TokOne(r);
  }

  lemma TokensIsDistinct()
    ensures TokensOf([Sp, Word("IS"), Sp, Word("DISTINCT"), Sp, Word("FROM"), Sp]) ==
            [Kw("is"), Kw("distinct"), Kw("from")]
  {
    WordIs(); WordDistinct(); WordFrom();
    TokShort([Sp, Word("IS"), Sp, Word("DISTINCT"), Sp, Word("FROM"), Sp]);
  }

  lemma TokensNullTest(isNull: bool)
    ensures TokensOf(if isNull then [Sp, Word("IS"), Sp, Word("NULL"), P(')')]
                     else [Sp, Word("IS"), Sp, Word("NOT"), Sp, Word("NULL"), P(')')]) ==
            if isNull then [Kw("is"), Kw("null"), RPAREN] else [Kw("is"), Kw("not"), Kw("null"), RPAREN]
  {
    WordIs(); WordNot(); WordNull();
    if isNull {
      TokShort([Sp, Word("IS"), Sp, Word("NULL"), P(')')]);
    } else {
      TokShort([Sp, Word("IS"), Sp, Word("NOT"), Sp, Word("NULL"), P(')')]);
    }
  }

  function OperatorTokens(opname: string): seq<Token> {
    if opname == "~~" then [Kw("like")]
    else if opname == "!~~" then [Kw("not"), Kw("like")]
    else [Oper(opname)]
  }

  lemma TokensOperator(inCatalog: bool, opname: string)
    requires OperatorPieces(inCatalog, opname).Some?
    ensures TokensOf(OperatorPieces(inCatalog, opname).value) == OperatorTokens(opname)
  {
    WordLike(); WordNot();
    if opname == "!~~" {
      TokThree(Word("NOT"), Sp, Word("LIKE"));
    } else {
      TokOne(OperatorPieces(inCatalog, opname).value[0]);
    }
  }

  function BoolKw(op: BoolOp): Token {
    if op.AndOp? then Kw("and") else Kw("or")
  }

  lemma TokensSeparator(op: BoolOp)
    ensures TokensOf(BoolSeparator(op)) == [BoolKw(op)]
    ensures TokensOf(ITEM_SEPARATOR) == [COMMA]
  {
    WordAnd(); WordOr();
    TokThree(Sp, Word(BoolWord(op)), Sp);
    assert ITEM_SEPARATOR[1..] == [Sp];
    TokOne(Sp);
  }

  // ---------- the reader's rules on known front parts ----------

  /** The token cannot turn a name into something else. */
  predicate Follows(t: Token) {
    t != LPAREN && t != DOT
  }

  lemma ParenReads(ts: seq<Token>, e: Sql, rest: seq<Token>)
    requires Body(ts) == Ok(e, [RPAREN] + rest)
    ensures Primary([LPAREN] + ts) == Ok(e, rest)
  {
    assert ([LPAREN] + ts)[1..] == ts;
    assert ([RPAREN] + rest)[1..] == rest;
  }

  /** `a op b` up to the closing parenthesis. */
  lemma InfixReads(a: seq<Token>, ea: Sql, opname: string, b: seq<Token>, eb: Sql, close: seq<Token>)
    requires Primary(a) == Ok(ea, OperatorTokens(opname) + b)
    requires Primary(b) == Ok(eb, close)
    requires Ends(Front(close))
    ensures Body(a) == Ok(App(HBinary(BinaryName(opname)), [ea, eb]), close)
  {
    var rest := OperatorTokens(opname) + b;
    PrimaryIsOperand(a, ea, rest);
    OperatorDispatch(a, ea, opname, b);
    PrimaryIsOperand(b, eb, close);
    PredicateIsBody(a, App(HBinary(BinaryName(opname)), [ea, eb]), close);
  }

  lemma OperatorDispatch(a: seq<Token>, ea: Sql, opname: string, b: seq<Token>)
    requires Operand(a) == Ok(ea, OperatorTokens(opname) + b)
    ensures Predicate(a) == Infix(HBinary(BinaryName(opname)), ea, b)
  {
    assert (OperatorTokens(opname) + b)[|OperatorTokens(opname)|..] == b;
  }

  lemma PrefixReads(opname: string, b: seq<Token>, eb: Sql, close: seq<Token>)
    requires Primary(b) == Ok(eb, close)
    requires Ends(Front(close))
    ensures Body([Oper(opname)] + b) == Ok(App(HUnary(opname), [eb]), close)
  {
    var ts := [Oper(opname)] + b;
    assert ts[1..] == b;
    assert Subscripts(close) == Ok(([], []), close);
    OperandIsPredicate(ts, App(HUnary(opname), [eb]), close);
    PredicateIsBody(ts, App(HUnary(opname), [eb]), close);
  }

  lemma DistinctReads(a: seq<Token>, ea: Sql, b: seq<Token>, eb: Sql, close: seq<Token>)
    requires Primary(a) == Ok(ea, [Kw("is"), Kw("distinct"), Kw("from")] + b)
    requires Primary(b) == Ok(eb, close)
    requires Ends(Front(close))
    ensures Body(a) == Ok(App(HDistinct, [ea, eb]), close)
  {
    PrimaryIsOperand(a, ea, [Kw("is"), Kw("distinct"), Kw("from")] + b);
    DistinctDispatch(a, ea, b);
    PrimaryIsOperand(b, eb, close);
    PredicateIsBody(a, App(HDistinct, [ea, eb]), close);
  }

  lemma DistinctDispatch(a: seq<Token>, ea: Sql, b: seq<Token>)
    requires Operand(a) == Ok(ea, [Kw("is"), Kw("distinct"), Kw("from")] + b)
    ensures Predicate(a) == Infix(HDistinct, ea, b)
  {
    assert ([Kw("is"), Kw("distinct"), Kw("from")] + b)[3..] == b;
  }

  lemma NullTestReads(a: seq<Token>, ea: Sql, isNull: bool, close: seq<Token>)
    requires Primary(a) == Ok(ea, (if isNull then [Kw("is"), Kw("null")]
                                   else [Kw("is"), Kw("not"), Kw("null")]) + close)
    requires Ends(Front(close))
    ensures Body(a) == Ok(App(if isNull then HIsNull else HIsNotNull, [ea]), close)
  {
    var front := if isNull then [Kw("is"), Kw("null")] else [Kw("is"), Kw("not"), Kw("null")];
    var rest := front + close;
    assert rest[|front|..] == close;
    PrimaryIsOperand(a, ea, rest);
    PredicateIsBody(a, App(if isNull then HIsNull else HIsNotNull, [ea]), close);
  }

  lemma NotReads(a: seq<Token>, ea: Sql, close: seq<Token>)
    requires Negation(a) == Ok(ea, close)
    requires Ends(Front(close))
    ensures Body([Kw("not")] + a) == Ok(App(HNot, [ea]), close)
  {
    var ts := [Kw("not")] + a;
    assert ts[1..] == a;
    assert Negation(ts) == Ok(App(HNot, [ea]), close);
    assert AndTail(close) == Ok([], close);
    assert OrTail(close) == Ok([], close);
  }

  // ---------- phrases: pieces that read as one tree ----------

  /** In front of `rest`, the pieces read as one primary, and exactly they are consumed. */
  predicate Phrase(ps: seq<Piece>, e: Sql, rest: seq<Token>) {
    Primary(TokensOf(ps) + rest) == Ok(e, rest)
  }

  predicate PredicatePhrase(ps: seq<Piece>, e: Sql, rest: seq<Token>) {
    Predicate(TokensOf(ps) + rest) == Ok(e, rest) && Negation(TokensOf(ps) + rest) == Ok(e, rest)
  }

  predicate NegationPhrase(ps: seq<Piece>, e: Sql, rest: seq<Token>) {
    Negation(TokensOf(ps) + rest) == Ok(e, rest)
  }

  predicate ConjunctionPhrase(ps: seq<Piece>, e: Sql, rest: seq<Token>) {
    Conjunction(TokensOf(ps) + rest) == Ok(e, rest)
  }

  predicate BodyPhrase(ps: seq<Piece>, e: Sql, rest: seq<Token>) {
    Body(TokensOf(ps) + rest) == Ok(e, rest)
  }

  function BinaryPieces(a: seq<Piece>, op: seq<Piece>, b: seq<Piece>): seq<Piece> {
    [P('(')] + (a + ([Sp] + (op + ([Sp] + (b + [P(')')])))))
  }

  lemma BinaryTokens(a: seq<Piece>, op: seq<Piece>, b: seq<Piece>, rest: seq<Token>)
    ensures TokensOf(BinaryPieces(a, op, b)) + rest ==
            [LPAREN] + (TokensOf(a) + (TokensOf(op) + (TokensOf(b) + ([RPAREN] + rest))))
  {
    TokOne(P('(')); TokOne(P(')')); TokOne(Sp);
    Tok3([Sp], b, [P(')')], rest);
    Tok5([P('(')], a, [Sp], op, [Sp] + (b + [P(')')]), rest);
    var t := TokensOf(b) + ([RPAREN] + rest);
    assert [] + t == t && [] + (TokensOf(op) + t) == TokensOf(op) + t;
  }

  lemma BinaryPhrase(a: seq<Piece>, ea: Sql, opname: string, op: seq<Piece>, b: seq<Piece>, eb: Sql, rest: seq<Token>)
    requires TokensOf(op) == OperatorTokens(opname)
    requires Phrase(a, ea, OperatorTokens(opname) + (TokensOf(b) + ([RPAREN] + rest)))
    requires Phrase(b, eb, [RPAREN] + rest)
    ensures Phrase(BinaryPieces(a, op, b), App(HBinary(BinaryName(opname)), [ea, eb]), rest)
  {
    var tb := TokensOf(b) + ([RPAREN] + rest);
    var ta := TokensOf(a) + (OperatorTokens(opname) + tb);
    BinaryTokens(a, op, b, rest);
    InfixReads(ta, ea, opname, tb, eb, [RPAREN] + rest);
    ParenReads(ta, App(HBinary(BinaryName(opname)), [ea, eb]), rest);
  }

  function UnaryPieces(op: seq<Piece>, b: seq<Piece>): seq<Piece> {
    [P('(')] + (op + ([Sp] + (b + [P(')')])))
  }

  lemma UnaryTokens(opname: string, b: seq<Piece>, rest: seq<Token>)
    ensures TokensOf(UnaryPieces([Sym(opname)], b)) + rest ==
            [LPAREN] + ([Oper(opname)] + (TokensOf(b) + ([RPAREN] + rest)))
  {
    var tb := TokensOf(b) + ([RPAREN] + rest);
    TokOne(P('(')); TokOne(P(')')); TokOne(Sp); TokOne(Sym(opname));
    Tok5([P('(')], [Sym(opname)], [Sp], b, [P(')')], rest);
    assert [] + tb == tb;
  }

  lemma UnaryPhrase(opname: string, b: seq<Piece>, eb: Sql, rest: seq<Token>)
    requires Phrase(b, eb, [RPAREN] + rest)
    ensures Phrase(UnaryPieces([Sym(opname)], b), App(HUnary(opname), [eb]), rest)
  {
    var tb := TokensOf(b) + ([RPAREN] + rest);
    UnaryTokens(opname, b, rest);
    PrefixReads(opname, tb, eb, [RPAREN] + rest);
    ParenReads([Oper(opname)] + tb, App(HUnary(opname), [eb]), rest);
  }

  const DISTINCT_FROM: seq<Piece> := [Sp, Word("IS"), Sp, Word("DISTINCT"), Sp, Word("FROM"), Sp]

  function DistinctPieces(a: seq<Piece>, b: seq<Piece>): seq<Piece> {
    [P('(')] + (a + (DISTINCT_FROM + (b + [P(')')])))
  }

  lemma DistinctTokens(a: seq<Piece>, b: seq<Piece>, rest: seq<Token>)
    ensures TokensOf(DistinctPieces(a, b)) + rest ==
            [LPAREN] + (TokensOf(a) + ([Kw("is"), Kw("distinct"), Kw("from")] + (TokensOf(b) + ([RPAREN] + rest))))
  {
    TokensIsDistinct();
    TokOne(P('(')); TokOne(P(')'));
    Tok5([P('(')], a, DISTINCT_FROM, b, [P(')')], rest);
  }

  lemma DistinctPhrase(a: seq<Piece>, ea: Sql, b: seq<Piece>, eb: Sql, rest: seq<Token>)
    requires Phrase(a, ea, [Kw("is"), Kw("distinct"), Kw("from")] + (TokensOf(b) + ([RPAREN] + rest)))
    requires Phrase(b, eb, [RPAREN] + rest)
    ensures Phrase(DistinctPieces(a, b), App(HDistinct, [ea, eb]), rest)
  {
    var tb := TokensOf(b) + ([RPAREN] + rest);
    var ta := TokensOf(a) + ([Kw("is"), Kw("distinct"), Kw("from")] + tb);
    DistinctTokens(a, b, rest);
    DistinctReads(ta, ea, tb, eb, [RPAREN] + rest);
    ParenReads(ta, App(HDistinct, [ea, eb]), rest);
  }

  function NullTestEnd(isNull: bool): seq<Piece> {
    if isNull then [Sp, Word("IS"), Sp, Word("NULL"), P(')')]
    else [Sp, Word("IS"), Sp, Word("NOT"), Sp, Word("NULL"), P(')')]
  }

  function NullTestWords(isNull: bool): seq<Token> {
    if isNull then [Kw("is"), Kw("null")] else [Kw("is"), Kw("not"), Kw("null")]
  }

  lemma NullTestTokens(a: seq<Piece>, isNull: bool, rest: seq<Token>)
    ensures TokensOf([P('(')] + (a + NullTestEnd(isNull))) + rest ==
            [LPAREN] + (TokensOf(a) + (NullTestWords(isNull) + ([RPAREN] + rest)))
  {
    TokOne(P('('));
    Tok3([P('(')], a, NullTestEnd(isNull), rest);
    NullTestEndTokens(isNull);
    WordsThenRest(NullTestWords(isNull), [RPAREN], rest);
  }

  lemma NullTestEndTokens(isNull: bool)
    ensures TokensOf(NullTestEnd(isNull)) == NullTestWords(isNull) + [RPAREN]
  {
    TokensNullTest(isNull);
  }

  lemma WordsThenRest(a: seq<Token>, b: seq<Token>, rest: seq<Token>)
    ensures (a + b) + rest == a + (b + rest)
  {
  }

  lemma NullTestPhrase(a: seq<Piece>, ea: Sql, isNull: bool, rest: seq<Token>)
    requires Phrase(a, ea, NullTestWords(isNull) + ([RPAREN] + rest))
    ensures Phrase([P('(')] + (a + NullTestEnd(isNull)), App(if isNull then HIsNull else HIsNotNull, [ea]), rest)
  {
    var ta := TokensOf(a) + (NullTestWords(isNull) + ([RPAREN] + rest));
    NullTestTokens(a, isNull, rest);
    NullTestReads(ta, ea, isNull, [RPAREN] + rest);
    ParenReads(ta, App(if isNull then HIsNull else HIsNotNull, [ea]), rest);
  }

  lemma NotTokens(a: seq<Piece>, rest: seq<Token>)
    ensures TokensOf([P('('), Word("NOT"), Sp] + (a + [P(')')])) + rest ==
            [LPAREN] + ([Kw("not")] + (TokensOf(a) + ([RPAREN] + rest)))
  {
    TokensNotOpening();
    TokOne(P(')'));
    Tok3([P('('), Word("NOT"), Sp], a, [P(')')], rest);
    TwoThenRest(LPAREN, Kw("not"), TokensOf(a) + ([RPAREN] + rest));
  }

  lemma TwoThenRest(t: Token, u: Token, rest: seq<Token>)
    ensures [t, u] + rest == [t] + ([u] + rest)
  {
  }

  lemma TokensNotOpening()
    ensures TokensOf([P('('), Word("NOT"), Sp]) == [LPAREN, Kw("not")]
  {
    WordNot();
    TokThree(P('('), Word("NOT"), Sp);
  }

  lemma NotPhrase(a: seq<Piece>, ea: Sql, rest: seq<Token>)
    requires NegationPhrase(a, ea, [RPAREN] + rest)
    ensures Phrase([P('('), Word("NOT"), Sp] + (a + [P(')')]), App(HNot, [ea]), rest)
  {
    var ta := TokensOf(a) + ([RPAREN] + rest);
    NotTokens(a, rest);
    NotReads(ta, ea, [RPAREN] + rest);
    ParenReads([Kw("not")] + ta, App(HNot, [ea]), rest);
  }

  function EnclosedPieces(open: seq<Piece>, list: seq<Piece>, close: char): seq<Piece> {
    open + (list + [P(close)])
  }

  lemma EnclosedTokens(open: seq<Piece>, list: seq<Piece>, close: char, rest: seq<Token>)
    ensures TokensOf(EnclosedPieces(open, list, close)) + rest ==
            TokensOf(open) + (TokensOf(list) + ([Punct(close)] + rest))
  {
    TokOne(P(close));
    Tok3(open, list, [P(close)], rest);
  }

  /** The list reads as a whole body. */
  lemma ParenPhrase(list: seq<Piece>, e: Sql, rest: seq<Token>)
    requires Body(TokensOf(list) + ([RPAREN] + rest)) == Ok(e, [RPAREN] + rest)
    ensures Phrase(EnclosedPieces([P('(')], list, ')'), e, rest)
  {
    TokOne(P('('));
    EnclosedTokens([P('(')], list, ')', rest);
    ParenReads(TokensOf(list) + ([RPAREN] + rest), e, rest);
  }

  /** The pieces read as a list of expressions, or there are neither. */
  predicate ListPhrase(ps: seq<Piece>, es: seq<Sql>, rest: seq<Token>) {
    if es == [] then ps == []
    else Items(TokensOf(ps) + rest) == Ok(es, rest)
  }

  /** A list of expressions starts with none of the tokens that stand for another form of it. */
  lemma ItemsStart(ts: seq<Token>)
    requires Items(ts).Ok?
    ensures ts != [] && ts[0] != RPAREN && ts[0] != RBRACK && !(ts[0] == Oper("*") && Second(ts) == RPAREN)
  {
    assert Body(ts).Ok?;
    assert Conjunction(ts).Ok?;
    assert Negation(ts).Ok?;
    if ts == [] || ts[0] != Kw("not") {
      assert Predicate(ts).Ok?;
      OperandFirst(ts);
    }
  }

  lemma OperandFirst(ts: seq<Token>)
    requires Operand(ts).Ok?
    ensures ts != [] && ts[0] != RPAREN && ts[0] != RBRACK && !(ts[0].Oper? && Second(ts) == RPAREN)
  {
    if ts != [] && ts[0].Oper? {
      assert Indexed(ts[1..]).Ok? && Primary(ts[1..]).Ok?;
    } else {
      assert Indexed(ts).Ok? && Primary(ts).Ok?;
    }
  }

  lemma ArgumentsRead(schema: Option<string>, name: string, list: seq<Piece>, es: seq<Sql>, rest: seq<Token>)
    requires ListPhrase(list, es, [RPAREN] + rest)
    ensures Arguments(schema, name, TokensOf(list) + ([RPAREN] + rest)) == Ok(App(HCall(schema, name), es), rest)
  {
    var close := [RPAREN] + rest;
    assert close[1..] == rest;
    if es == [] {
      assert TokensOf(list) + close == close;
    } else {
      ItemsStart(TokensOf(list) + close);
    }
  }

  function CallPieces(name: string, list: seq<Piece>): seq<Piece> {
    [Name(name)] + ([P('(')] + (list + [P(')')]))
  }

  lemma CallTokens(name: string, list: seq<Piece>, rest: seq<Token>)
    ensures TokensOf(CallPieces(name, list)) + rest ==
            [Ident(name)] + ([LPAREN] + (TokensOf(list) + ([RPAREN] + rest)))
  {
    TokOne(P('(')); TokOne(P(')')); TokOne(Name(name));
    Tok3([P('(')], list, [P(')')], rest);
    Tok2([Name(name)], [P('(')] + (list + [P(')')]), rest);
  }

  lemma CallReads(name: string, inner: seq<Token>, e: Sql, rest: seq<Token>)
    requires Arguments(None, name, inner) == Ok(e, rest)
    ensures Primary([Ident(name)] + ([LPAREN] + inner)) == Ok(e, rest)
  {
    var ts := [Ident(name)] + ([LPAREN] + inner);
    assert ts[2..] == inner;
  }

  lemma CallPhrase(name: string, list: seq<Piece>, es: seq<Sql>, rest: seq<Token>)
    requires ListPhrase(list, es, [RPAREN] + rest)
    ensures Phrase(CallPieces(name, list), App(HCall(None, name), es), rest)
  {
    CallTokens(name, list, rest);
    ArgumentsRead(None, name, list, es, rest);
    CallReads(name, TokensOf(list) + ([RPAREN] + rest), App(HCall(None, name), es), rest);
  }

  lemma QualifiedCallPhrase(schema: string, name: string, list: seq<Piece>, es: seq<Sql>, rest: seq<Token>)
    requires ListPhrase(list, es, [RPAREN] + rest)
    ensures Phrase(([Name(schema)] + [P('.')]) + CallPieces(name, list), App(HCall(Some(schema), name), es), rest)
  {
    var inner := TokensOf(list) + ([RPAREN] + rest);
    CallTokens(name, list, rest);
    ArgumentsRead(Some(schema), name, list, es, rest);
    TokShort([Name(schema)] + [P('.')]);
    Tok2([Name(schema)] + [P('.')], CallPieces(name, list), rest);
    QualifiedCallReads(schema, name, inner, App(HCall(Some(schema), name), es), rest);
  }

  lemma QualifiedCallReads(schema: string, name: string, inner: seq<Token>, e: Sql, rest: seq<Token>)
    requires Arguments(Some(schema), name, inner) == Ok(e, rest)
    ensures Primary(([Ident(schema)] + [DOT]) + ([Ident(name)] + ([LPAREN] + inner))) == Ok(e, rest)
  {
    var ts := ([Ident(schema)] + [DOT]) + ([Ident(name)] + ([LPAREN] + inner));
    assert ts[4..] == inner;
  }

  lemma StarPhrase(name: string, rest: seq<Token>)
    ensures Phrase(CallPieces(name, [Sym("*")]), App(HStar(name), []), rest)
  {
    TokOne(Sym("*"));
    CallTokens(name, [Sym("*")], rest);
    var inner := [Oper("*")] + ([RPAREN] + rest);
    assert inner[2..] == rest;
    CallReads(name, inner, App(HStar(name), []), rest);
  }

  lemma ArrayPhrase(list: seq<Piece>, es: seq<Sql>, rest: seq<Token>)
    requires ListPhrase(list, es, [RBRACK] + rest)
    ensures Phrase(EnclosedPieces([Word("ARRAY"), P('[')], list, ']'), App(HArray, es), rest)
  {
    ArrayOpeningTokens();
    EnclosedTokens([Word("ARRAY"), P('[')], list, ']', rest);
    ArrayReads(TokensOf(list) + ([RBRACK] + rest), es, rest);
  }

  lemma ArrayOpeningTokens()
    ensures TokensOf([Word("ARRAY"), P('[')]) == [Kw("array"), LBRACK]
  {
    WordArray();
    assert [Word("ARRAY"), P('[')][1..] == [P('[')];
    TokOne(P('['));
  }

  lemma ArrayReads(inner: seq<Token>, es: seq<Sql>, rest: seq<Token>)
    requires if es == [] then inner == [RBRACK] + rest else Items(inner) == Ok(es, [RBRACK] + rest)
    ensures Primary([Kw("array"), LBRACK] + inner) == Ok(App(HArray, es), rest)
  {
    var ts := [Kw("array"), LBRACK] + inner;
    assert ts[2..] == inner;
    assert ([RBRACK] + rest)[1..] == rest;
    if es == [] {
      assert ts[3..] == rest;
    } else {
      ItemsStart(inner);
    }
  }

  lemma LeafPhrase(p: Piece, leaf: Sql, rest: seq<Token>)
    requires
      match p
      case Number(t) => leaf == NumLit(t)
      case Plain(t) => leaf == StrLit(t)
      case Escaped(v) => leaf == StrLit(v)
      case Literal(t) => leaf == StrLit(t)
      case BitString(t) => leaf == BitLit(t)
      case Name(n) => leaf == Col(n) && Follows(Front(rest))
      case Word(w) => (w == "NULL" && leaf == NullLit) || (w == "true" && leaf == BoolLit(true))
                      || (w == "false" && leaf == BoolLit(false))
      case _ => false
    ensures Phrase([p], leaf, rest)
  {
    WordNull(); WordTrue(); WordFalse();
    TokOne(p);
    assert (PieceTokens(p) + rest)[1..] == rest;
  }

  lemma SignedTokens(sign: string, digits: string, rest: seq<Token>)
    ensures TokensOf([P('('), Sym(sign), Number(digits), P(')')]) + rest ==
            [LPAREN] + ([Oper(sign)] + ([Num(digits)] + ([RPAREN] + rest)))
  {
    var close := [RPAREN] + rest;
    TokOne(P('(')); TokOne(Sym(sign)); TokOne(P(')')); TokOne(Number(digits));
    Tok2([Number(digits)], [P(')')], rest);
    Tok3([P('(')], [Sym(sign)], [Number(digits)] + [P(')')], rest);
    assert [P('('), Sym(sign), Number(digits), P(')')] == [P('(')] + ([Sym(sign)] + ([Number(digits)] + [P(')')]));
  }

  lemma SignedPhrase(sign: string, digits: string, rest: seq<Token>)
    ensures Phrase([P('('), Sym(sign), Number(digits), P(')')], App(HUnary(sign), [NumLit(digits)]), rest)
  {
    var inner := [Num(digits)] + ([RPAREN] + rest);
    SignedTokens(sign, digits, rest);
    assert inner[1..] == [RPAREN] + rest;
    PrefixReads(sign, inner, NumLit(digits), [RPAREN] + rest);
    ParenReads([Oper(sign)] + inner, App(HUnary(sign), [NumLit(digits)]), rest);
  }

  // ---------- lists of phrases ----------

  lemma JoinTokens(pss: seq<seq<Piece>>, sep: seq<Piece>, rest: seq<Token>)
    requires pss != []
    ensures TokensOf(JoinPieces(pss, sep)) + rest ==
            TokensOf(pss[0]) + (TokensOf(JoinTail(pss[1..], sep)) + rest)
    ensures TokensOf(JoinTail(pss, sep)) + rest == TokensOf(sep) + (TokensOf(JoinPieces(pss, sep)) + rest)
  {
    Tok2(pss[0], JoinTail(pss[1..], sep), rest);
    Tok2(sep, JoinPieces(pss, sep), rest);
  }

  // ---------- phrases in any context ----------

  /** One primary, whatever follows. */
  ghost predicate AsPrimary(ps: seq<Piece>, e: Sql) {
    forall rest :: Follows(Front(rest)) ==> Phrase(ps, e, rest)
  }

  lemma PhraseAt(ps: seq<Piece>, e: Sql, rest: seq<Token>)
    requires AsPrimary(ps, e) && Follows(Front(rest))
    ensures Phrase(ps, e, rest)
  {
  }

  /** One predicate, whatever follows but a subscript. */
  ghost predicate AsPredicate(ps: seq<Piece>, e: Sql) {
    forall rest :: Front(rest) != LBRACK ==> PredicatePhrase(ps, e, rest)
  }

  /** An argument of NOT or AND. */
  ghost predicate AsNegation(ps: seq<Piece>, e: Sql) {
    forall rest :: Stops(Front(rest)) ==> NegationPhrase(ps, e, rest)
  }

  /** An argument of OR. */
  ghost predicate AsConjunction(ps: seq<Piece>, e: Sql) {
    forall rest :: Ends(Front(rest)) || Front(rest) == Kw("or") ==> ConjunctionPhrase(ps, e, rest)
  }

  /** A whole expression. */
  ghost predicate AsBody(ps: seq<Piece>, e: Sql) {
    forall rest :: Ends(Front(rest)) ==> BodyPhrase(ps, e, rest)
  }

  lemma PrimaryAsNegation(ps: seq<Piece>, e: Sql)
    requires AsPrimary(ps, e)
    ensures AsNegation(ps, e)
  {
    forall rest | Stops(Front(rest))
      ensures NegationPhrase(ps, e, rest)
    {
      assert Phrase(ps, e, rest);
      PrimaryIsNegation(TokensOf(ps) + rest, e, rest);
    }
  }

  lemma PredicateAsNegation(ps: seq<Piece>, e: Sql)
    requires AsPredicate(ps, e)
    ensures AsNegation(ps, e)
  {
    forall rest | Stops(Front(rest))
      ensures NegationPhrase(ps, e, rest)
    {
      assert PredicatePhrase(ps, e, rest);
    }
  }

  lemma NegationAsConjunction(ps: seq<Piece>, e: Sql)
    requires AsNegation(ps, e)
    ensures AsConjunction(ps, e)
  {
    forall rest | Ends(Front(rest)) || Front(rest) == Kw("or")
      ensures ConjunctionPhrase(ps, e, rest)
    {
      assert NegationPhrase(ps, e, rest);
      assert AndTail(rest) == Ok([], rest);
    }
  }

  lemma ConjunctionAsBody(ps: seq<Piece>, e: Sql)
    requires AsConjunction(ps, e)
    ensures AsBody(ps, e)
  {
    forall rest | Ends(Front(rest))
      ensures BodyPhrase(ps, e, rest)
    {
      assert ConjunctionPhrase(ps, e, rest);
      assert OrTail(rest) == Ok([], rest);
    }
  }

  // ---------- comma-separated lists ----------

  ghost predicate AsBodies(pss: seq<seq<Piece>>, es: seq<Sql>) {
    |pss| == |es| && forall i :: 0 <= i < |pss| ==> AsBody(pss[i], es[i])
  }

  /** Every tail of a list starts with its separator or is empty. */
  lemma TailFront(pss: seq<seq<Piece>>, sep: seq<Piece>, t: Token, rest: seq<Token>)
    requires TokensOf(sep) == [t]
    ensures Front(TokensOf(JoinTail(pss, sep)) + rest) == if pss == [] then Front(rest) else t
  {
    if pss == [] {
      assert TokensOf(JoinTail(pss, sep)) + rest == rest;
    } else {
      JoinTokens(pss, sep, rest);
    }
  }

  /** A comma-separated list reads back element by element. */
  lemma {:induction false} ItemsRead(pss: seq<seq<Piece>>, es: seq<Sql>, rest: seq<Token>)
    requires pss != [] && AsBodies(pss, es)
    requires Ends(Front(rest)) && Front(rest) != COMMA
    ensures Items(TokensOf(JoinPieces(pss, ITEM_SEPARATOR)) + rest) == Ok(es, rest)
  {
    var ts := TokensOf(JoinPieces(pss, ITEM_SEPARATOR)) + rest;
    FirstItem(pss, es, rest);
    if |pss| == 1 {
      NoMoreItems(pss, rest);
      LastItem(ts, es, rest);
    } else {
      ItemsRead(pss[1..], es[1..], rest);
      CommaFirst(pss, rest);
      ItemThenMore(ts, es, TokensOf(JoinPieces(pss[1..], ITEM_SEPARATOR)) + rest, rest);
    }
  }

  lemma FirstItem(pss: seq<seq<Piece>>, es: seq<Sql>, rest: seq<Token>)
    requires pss != [] && AsBodies(pss, es) && Ends(Front(rest))
    ensures Body(TokensOf(JoinPieces(pss, ITEM_SEPARATOR)) + rest) ==
            Ok(es[0], TokensOf(JoinTail(pss[1..], ITEM_SEPARATOR)) + rest)
  {
    var tail := TokensOf(JoinTail(pss[1..], ITEM_SEPARATOR)) + rest;
    TokensSeparator(AndOp);
    TailFront(pss[1..], ITEM_SEPARATOR, COMMA, rest);
    JoinTokens(pss, ITEM_SEPARATOR, rest);
    assert AsBody(pss[0], es[0]);
    assert BodyPhrase(pss[0], es[0], tail);
  }

  lemma CommaFirst(pss: seq<seq<Piece>>, rest: seq<Token>)
    requires |pss| > 1
    ensures TokensOf(JoinTail(pss[1..], ITEM_SEPARATOR)) + rest ==
            [COMMA] + (TokensOf(JoinPieces(pss[1..], ITEM_SEPARATOR)) + rest)
  {
    JoinTokens(pss[1..], ITEM_SEPARATOR, rest);
    TokensSeparator(AndOp);
  }

  lemma NoMoreItems(pss: seq<seq<Piece>>, rest: seq<Token>)
    requires |pss| == 1
    ensures TokensOf(JoinTail(pss[1..], ITEM_SEPARATOR)) + rest == rest
  {
    assert TokensOf([]) + rest == rest;
  }

  lemma LastItem(ts: seq<Token>, es: seq<Sql>, rest: seq<Token>)
    requires |es| == 1 && Body(ts) == Ok(es[0], rest) && Front(rest) != COMMA
    ensures Items(ts) == Ok(es, rest)
  {
    assert es == [es[0]];
  }

  lemma ItemThenMore(ts: seq<Token>, es: seq<Sql>, us: seq<Token>, rest: seq<Token>)
    requires es != [] && Body(ts) == Ok(es[0], [COMMA] + us) && Items(us) == Ok(es[1..], rest)
    ensures Items(ts) == Ok(es, rest)
  {
    assert [es[0]] + es[1..] == es;
    assert ([COMMA] + us)[1..] == us;
  }

  /** The arguments of a call, the elements of an array or the items of a list. */
  lemma ListReads(pss: seq<seq<Piece>>, es: seq<Sql>, rest: seq<Token>)
    requires AsBodies(pss, es) && Ends(Front(rest)) && Front(rest) != COMMA
    ensures ListPhrase(JoinPieces(pss, ITEM_SEPARATOR), es, rest)
  {
    if pss != [] {
      ItemsRead(pss, es, rest);
    }
  }

  // ---------- arguments of AND and OR ----------

  ghost predicate AsArgument(op: BoolOp, ps: seq<Piece>, e: Sql) {
    if op.AndOp? then AsNegation(ps, e) else AsConjunction(ps, e)
  }

  ghost predicate AsArguments(op: BoolOp, pss: seq<seq<Piece>>, es: seq<Sql>) {
    |pss| == |es| && forall i :: 0 <= i < |pss| ==> AsArgument(op, pss[i], es[i])
  }

  /** What may follow the last argument. */
  predicate EndsRun(op: BoolOp, t: Token) {
    Ends(t) || (op.AndOp? && t == Kw("or"))
  }

  function BoolHead(op: BoolOp): SqlHead {
    match op
    case AndOp => HAnd
    case OrOp => HOr
    case NotOp => HNot
  }

  lemma ArgumentAt(op: BoolOp, ps: seq<Piece>, e: Sql, tail: seq<Token>)
    requires AsArgument(op, ps, e) && !op.NotOp? && (EndsRun(op, Front(tail)) || Front(tail) == BoolKw(op))
    ensures op.AndOp? ==> Negation(TokensOf(ps) + tail) == Ok(e, tail)
    ensures op.OrOp? ==> Conjunction(TokensOf(ps) + tail) == Ok(e, tail)
  {
    if op.AndOp? {
      assert NegationPhrase(ps, e, tail);
    } else {
      assert ConjunctionPhrase(ps, e, tail);
    }
  }

  lemma ArgumentsSplit(op: BoolOp, pss: seq<seq<Piece>>, es: seq<Sql>)
    requires AsArguments(op, pss, es) && pss != []
    ensures AsArgument(op, pss[0], es[0]) && AsArguments(op, pss[1..], es[1..])
  {
  }

  /** The first of some arguments, in front of the others. */
  lemma FirstArgument(op: BoolOp, pss: seq<seq<Piece>>, e: Sql, close: seq<Token>)
    requires !op.NotOp? && pss != [] && AsArgument(op, pss[0], e) && EndsRun(op, Front(close))
    ensures
      var tail := TokensOf(JoinTail(pss[1..], BoolSeparator(op))) + close;
      && (op.AndOp? ==> Negation(TokensOf(pss[0]) + tail) == Ok(e, tail))
      && (op.OrOp? ==> Conjunction(TokensOf(pss[0]) + tail) == Ok(e, tail))
  {
    TokensSeparator(op);
    TailFront(pss[1..], BoolSeparator(op), BoolKw(op), close);
    ArgumentAt(op, pss[0], e, TokensOf(JoinTail(pss[1..], BoolSeparator(op))) + close);
  }

  /** The arguments of AND or OR after the first. */
  lemma {:induction false} BoolTailReads(op: BoolOp, pss: seq<seq<Piece>>, es: seq<Sql>, close: seq<Token>)
    requires !op.NotOp? && AsArguments(op, pss, es) && EndsRun(op, Front(close))
    ensures
      var ts := TokensOf(JoinTail(pss, BoolSeparator(op))) + close;
      if op.AndOp? then AndTail(ts) == Ok(es, close) else OrTail(ts) == Ok(es, close)
  {
    var sep := BoolSeparator(op);
    var ts := TokensOf(JoinTail(pss, sep)) + close;
    if pss == [] {
      NoTail(op, close);
    } else {
      var tail := TokensOf(JoinTail(pss[1..], sep)) + close;
      ArgumentsSplit(op, pss, es);
      BoolTailReads(op, pss[1..], es[1..], close);
      WordFirst(op, pss, close);
      FirstArgument(op, pss, es[0], close);
      BoolTailStep(op, ts, TokensOf(pss[0]) + tail, es, tail, close);
    }
  }

  lemma NoTail(op: BoolOp, close: seq<Token>)
    requires !op.NotOp? && EndsRun(op, Front(close))
    ensures
      var ts := TokensOf(JoinTail([], BoolSeparator(op))) + close;
      if op.AndOp? then AndTail(ts) == Ok([], close) else OrTail(ts) == Ok([], close)
  {
    assert TokensOf([]) + close == close;
  }

  lemma WordFirst(op: BoolOp, pss: seq<seq<Piece>>, close: seq<Token>)
    requires pss != []
    ensures TokensOf(JoinTail(pss, BoolSeparator(op))) + close ==
            [BoolKw(op)] + (TokensOf(pss[0]) + (TokensOf(JoinTail(pss[1..], BoolSeparator(op))) + close))
  {
    JoinTokens(pss, BoolSeparator(op), close);
    TokensSeparator(op);
  }

  lemma BoolTailStep(op: BoolOp, ts: seq<Token>, us: seq<Token>, es: seq<Sql>, tail: seq<Token>, close: seq<Token>)
    requires !op.NotOp? && ts == [BoolKw(op)] + us && es != []
    requires if op.AndOp? then Negation(us) == Ok(es[0], tail) else Conjunction(us) == Ok(es[0], tail)
    requires if op.AndOp? then AndTail(tail) == Ok(es[1..], close) else OrTail(tail) == Ok(es[1..], close)
    ensures if op.AndOp? then AndTail(ts) == Ok(es, close) else OrTail(ts) == Ok(es, close)
  {
    assert [es[0]] + es[1..] == es;
    assert ts[1..] == us;
  }

  /** AND or OR over two or more arguments. */
  lemma {:induction false} BoolListReads(op: BoolOp, pss: seq<seq<Piece>>, es: seq<Sql>, close: seq<Token>)
    requires !op.NotOp? && |pss| >= 2 && AsArguments(op, pss, es) && EndsRun(op, Front(close))
    ensures
      var ts := TokensOf(JoinPieces(pss, BoolSeparator(op))) + close;
      && (op.AndOp? ==> Conjunction(ts) == Ok(App(HAnd, es), close))
      && (op.OrOp? ==> Body(ts) == Ok(App(HOr, es), close))
  {
    var sep := BoolSeparator(op);
    var ts := TokensOf(JoinPieces(pss, sep)) + close;
    var tail := TokensOf(JoinTail(pss[1..], sep)) + close;
    assert es == [es[0]] + es[1..];
    ArgumentsSplit(op, pss, es);
    BoolTailReads(op, pss[1..], es[1..], close);
    assert ts == TokensOf(pss[0]) + tail by {
      JoinTokens(pss, sep, close);
    }
    FirstArgument(op, pss, es[0], close);
  }

  /** A run of AND arguments is itself an argument of OR, a run of OR arguments a whole expression. */
  lemma RunReads(op: BoolOp, pss: seq<seq<Piece>>, es: seq<Sql>)
    requires !op.NotOp? && |pss| >= 2 && AsArguments(op, pss, es)
    ensures op.AndOp? ==> AsConjunction(JoinPieces(pss, BoolSeparator(op)), App(HAnd, es))
    ensures AsBody(JoinPieces(pss, BoolSeparator(op)), App(BoolHead(op), es))
  {
    var ps, e := JoinPieces(pss, BoolSeparator(op)), App(BoolHead(op), es);
    if op.AndOp? {
      forall rest | Ends(Front(rest)) || Front(rest) == Kw("or")
        ensures ConjunctionPhrase(ps, e, rest)
      {
        BoolListReads(op, pss, es, rest);
      }
      ConjunctionAsBody(ps, e);
    } else {
      forall rest | Ends(Front(rest))
        ensures BodyPhrase(ps, e, rest)
      {
        BoolListReads(op, pss, es, rest);
      }
    }
  }

  // ---------- subscripts ----------

  /** The bounds in the order they are printed: the lower one of each subscript, if there is one, then
      its upper one. `xs` holds the container, the upper bounds and the lower bounds. */
  function TextOrder<T>(xs: seq<T>, nUpper: nat, i: nat): seq<T>
    decreases nUpper - i
  {
    if i >= nUpper || |xs| < 1 + nUpper then []
    else
      (if 1 + nUpper + i < |xs| then [xs[1 + nUpper + i]] else []) + ([xs[1 + i]] + TextOrder(xs, nUpper, i + 1))
  }

  /** Which subscripts are slices, given how many operands there are in all. */
  function Slices(operands: nat, nUpper: nat, i: nat): seq<bool>
    decreases nUpper - i
  {
    if i >= nUpper then [] else [1 + nUpper + i < operands] + Slices(operands, nUpper, i + 1)
  }

  lemma IndexReads(upper: seq<Token>, e: Sql, more: seq<Token>, slices: seq<bool>, bounds: seq<Sql>, rest: seq<Token>)
    requires Body(upper) == Ok(e, [RBRACK] + more) && Subscripts(more) == Ok((slices, bounds), rest)
    ensures Subscripts([LBRACK] + upper) == Ok(([false] + slices, [e] + bounds), rest)
  {
    assert ([LBRACK] + upper)[1..] == upper && ([RBRACK] + more)[1..] == more;
    assert Bounds(upper) == Ok((false, [e]), more);
  }

  lemma SliceReads(lower: seq<Token>, e: Sql, upper: seq<Token>, f: Sql, more: seq<Token>,
                   slices: seq<bool>, bounds: seq<Sql>, rest: seq<Token>)
    requires Body(lower) == Ok(e, [COLON] + upper)
    requires Body(upper) == Ok(f, [RBRACK] + more) && Subscripts(more) == Ok((slices, bounds), rest)
    ensures Subscripts([LBRACK] + lower) == Ok(([true] + slices, [e] + ([f] + bounds)), rest)
  {
    assert ([LBRACK] + lower)[1..] == lower && ([COLON] + upper)[1..] == upper;
    assert ([RBRACK] + more)[1..] == more;
    assert Bounds(lower) == Ok((true, [e, f]), more);
    assert [e, f] + bounds == [e] + ([f] + bounds);
  }

  /** The pieces read as subscripts, whatever follows but another one. */
  ghost predicate AsSubscripts(ps: seq<Piece>, slices: seq<bool>, bounds: seq<Sql>) {
    forall rest :: Front(rest) != LBRACK ==> SubscriptPhrase(ps, slices, bounds, rest)
  }

  lemma SubscriptsAt(ps: seq<Piece>, slices: seq<bool>, bounds: seq<Sql>, rest: seq<Token>)
    requires AsSubscripts(ps, slices, bounds) && Front(rest) != LBRACK
    ensures SubscriptPhrase(ps, slices, bounds, rest)
  {
  }

  predicate SubscriptPhrase(ps: seq<Piece>, slices: seq<bool>, bounds: seq<Sql>, rest: seq<Token>) {
    Subscripts(TokensOf(ps) + rest) == Ok((slices, bounds), rest)
  }

  function OneSubscript(lower: Option<seq<Piece>>, upper: seq<Piece>, more: seq<Piece>): seq<Piece> {
    [P('[')] + ((if lower.None? then [] else lower.value + [P(':')]) + (upper + ([P(']')] + more)))
  }

  lemma SubscriptTokens(lower: Option<seq<Piece>>, upper: seq<Piece>, more: seq<Piece>, rest: seq<Token>)
    ensures
      var tail := TokensOf(upper) + ([RBRACK] + (TokensOf(more) + rest));
      TokensOf(OneSubscript(lower, upper, more)) + rest ==
        [LBRACK] + if lower.None? then tail else TokensOf(lower.value) + ([COLON] + tail)
  {
    var low := if lower.None? then [] else lower.value + [P(':')];
    var tail := TokensOf(upper) + ([RBRACK] + (TokensOf(more) + rest));
    TokOne(P('[')); TokOne(P(']')); TokOne(P(':'));
    Tok5([P('[')], low, upper, [P(']')], more, rest);
    if lower.None? {
      assert [] + tail == tail;
    } else {
      Tok2(lower.value, [P(':')], tail);
    }
  }

  /** One subscript in front of others. */
  lemma SubscriptReads(lower: Option<seq<Piece>>, low: seq<Sql>, upper: seq<Piece>, eu: Sql, more: seq<Piece>,
                       slice: bool, slices: seq<bool>, bounds: seq<Sql>)
    requires lower.Some? == slice && |low| == (if slice then 1 else 0)
    ensures (slice ==> AsBody(lower.value, low[0])) && AsBody(upper, eu) && AsSubscripts(more, slices, bounds) ==>
              AsSubscripts(OneSubscript(lower, upper, more), [slice] + slices, low + ([eu] + bounds))
  {
    forall rest | Front(rest) != LBRACK && (slice ==> AsBody(lower.value, low[0])) && AsBody(upper, eu)
                  && AsSubscripts(more, slices, bounds)
      ensures SubscriptPhrase(OneSubscript(lower, upper, more), [slice] + slices, low + ([eu] + bounds), rest)
    {
      var after := TokensOf(more) + rest;
      var tail := TokensOf(upper) + ([RBRACK] + after);
      SubscriptTokens(lower, upper, more, rest);
      assert SubscriptPhrase(more, slices, bounds, rest);
      assert BodyPhrase(upper, eu, [RBRACK] + after);
      if slice {
        assert low == [low[0]];
        assert BodyPhrase(lower.value, low[0], [COLON] + tail);
        SliceReads(TokensOf(lower.value) + ([COLON] + tail), low[0], tail, eu, after, slices, bounds, rest);
      } else {
        IndexReads(tail, eu, after, slices, bounds, rest);
        assert low + ([eu] + bounds) == [eu] + bounds;
      }
    }
  }

  lemma NoSubscripts()
    ensures AsSubscripts([], [], [])
  {
    forall rest | Front(rest) != LBRACK
      ensures SubscriptPhrase([], [], [], rest)
    {
      assert TokensOf([]) + rest == rest;
    }
  }

  function IndexedPieces(container: seq<Piece>, subscripts: seq<Piece>): seq<Piece> {
    [P('(')] + (container + (subscripts + [P(')')]))
  }

  /** A container with its subscripts, in parentheses. */
  lemma IndexedPhrase(container: seq<Piece>, e: Sql, subscripts: seq<Piece>, slices: seq<bool>, bounds: seq<Sql>)
    requires AsPrimary(container, e) && AsSubscripts(subscripts, slices, bounds) && slices != []
    requires Front(TokensOf(subscripts)) == LBRACK
    ensures AsPrimary(IndexedPieces(container, subscripts), App(HSubscript(slices), [e] + bounds))
  {
    forall rest | Follows(Front(rest))
      ensures Phrase(IndexedPieces(container, subscripts), App(HSubscript(slices), [e] + bounds), rest)
    {
      PhraseAt(container, e, TokensOf(subscripts) + ([RPAREN] + rest));
      SubscriptsAt(subscripts, slices, bounds, [RPAREN] + rest);
      IndexedPhraseAt(container, e, subscripts, slices, bounds, rest);
    }
  }

  lemma IndexedPhraseAt(container: seq<Piece>, e: Sql, subscripts: seq<Piece>, slices: seq<bool>, bounds: seq<Sql>,
                        rest: seq<Token>)
    requires Phrase(container, e, TokensOf(subscripts) + ([RPAREN] + rest)) && slices != []
    requires SubscriptPhrase(subscripts, slices, bounds, [RPAREN] + rest)
    ensures Phrase(IndexedPieces(container, subscripts), App(HSubscript(slices), [e] + bounds), rest)
  {
    var tail := TokensOf(subscripts) + ([RPAREN] + rest);
    var ts := TokensOf(container) + tail;
    IndexedReads(ts, e, tail, slices, bounds, [RPAREN] + rest);
    IndexedTokens(container, subscripts, rest);
    ParenReads(ts, App(HSubscript(slices), [e] + bounds), rest);
  }

  lemma IndexedReads(ts: seq<Token>, e: Sql, tail: seq<Token>, slices: seq<bool>, bounds: seq<Sql>, close: seq<Token>)
    requires Primary(ts) == Ok(e, tail) && Subscripts(tail) == Ok((slices, bounds), close)
    requires slices != [] && Ends(Front(close))
    ensures Body(ts) == Ok(App(HSubscript(slices), [e] + bounds), close)
  {
    var r := App(HSubscript(slices), [e] + bounds);
    assert Indexed(ts) == Ok(r, close);
    assert !ts[0].Oper?;
    assert Operand(ts) == Ok(r, close);
    OperandStart(ts);
    OperandIsPredicate(ts, r, close);
    PredicateIsBody(ts, r, close);
  }

  lemma IndexedTokens(container: seq<Piece>, subscripts: seq<Piece>, rest: seq<Token>)
    ensures TokensOf(IndexedPieces(container, subscripts)) + rest ==
            [LPAREN] + (TokensOf(container) + (TokensOf(subscripts) + ([RPAREN] + rest)))
  {
    TokOne(P('(')); TokOne(P(')'));
    Tok2(subscripts, [P(')')], rest);
    Tok3([P('(')], container, subscripts + [P(')')], rest);
  }
}
