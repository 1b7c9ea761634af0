/** Reading SELECT statements: the remote server's side of the statement, and the proof that the
    printed statement reads back as the query it was printed from.
 */
module SelectRead {
  import opened Nodes
  import opened Lexical
  import opened Tokens
  import opened Words
  import opened Reader
  import opened ArrayPieces
  import opened Deparse
  import opened Phrases
  import opened RoundTrip
  import opened Spacing
  import opened Select

  /** A SELECT statement as the remote server reads it. */
  datatype Query = Query(items: seq<Sql>, schema: Option<string>, table: string,
                         cond: Option<Sql>, count: Option<Sql>, offset: Option<Sql>)

  // ---------- the reader ----------

  /** A clause that starts with a keyword and holds one expression, if it is there. */
  function ReadClause(word: Token, ts: seq<Token>): PR<Option<Sql>> {
    if Front(ts) != word || ts == [] then Ok(None, ts)
    else
      match Body(ts[1..])
      case Fail => Fail
      case Ok(e, rest) => Ok(Some(e), rest)
  }

  function ReadTableName(ts: seq<Token>): PR<(Option<string>, string)> {
    if ts == [] || !ts[0].Ident? then Fail
    else if Second(ts) != DOT then Ok((None, ts[0].name), ts[1..])
    else if |ts| > 2 && ts[2].Ident? then Ok((Some(ts[0].name), ts[2].name), ts[3..])
    else Fail
  }

  function ReadTail(items: seq<Sql>, name: (Option<string>, string), ts: seq<Token>): Option<Query> {
    match ReadClause(Kw("where"), ts)
    case Fail => None
    case Ok(cond, afterWhere) =>
      match ReadClause(Kw("limit"), afterWhere)
      case Fail => None
      case Ok(count, afterLimit) =>
        match ReadClause(Kw("offset"), afterLimit)
        case Fail => None
        case Ok(offset, rest) =>
          if rest == [] then Some(Query(items, name.0, name.1, cond, count, offset)) else None
  }

  function ReadQuery(ts: seq<Token>): Option<Query> {
    if ts == [] || ts[0] != Kw("select") then None
    else
      match Items(ts[1..])
      case Fail => None
      case Ok(items, rest) =>
        if rest == [] || rest[0] != Kw("from") then None
        else
          match ReadTableName(rest[1..])
          case Fail => None
          case Ok(name, tail) => ReadTail(items, name, tail)
  }

  /** Read a whole text as one SELECT statement. */
  function ReadStatement(d: Dialect, s: string): Option<Query> {
    match Lex(d, s)
    case None => None
    case Some(ts) => ReadQuery(ts)
  }

  // ---------- what is printed, as well-formed pieces ----------

  predicate LimitReadable(d: Dialect, cx: DeparseCxt, limit: Limit) {
    && (limit.count.Some? ==> Readable(d, cx, limit.count.value))
    && (limit.offset.Some? ==> Readable(d, cx, limit.offset.value))
  }

  function ConditionRun(d: Dialect, cx: DeparseCxt, cond: Expr): seq<Piece> {
    EnclosedPieces([P('(')], PrintedOr(Print(d, cx, cond)), ')')
  }

  function ConditionRuns(d: Dialect, cx: DeparseCxt, conds: seq<Expr>): (r: seq<seq<Piece>>)
    ensures |r| == |conds| && forall i :: 0 <= i < |conds| ==> r[i] == ConditionRun(d, cx, conds[i])
  {
    if conds == [] then [] else [ConditionRun(d, cx, conds[0])] + ConditionRuns(d, cx, conds[1..])
  }

  function Conjoined(trees: seq<Sql>): Option<Sql> {
    if trees == [] then None else if |trees| == 1 then Some(trees[0]) else Some(App(HAnd, trees))
  }

  /** The WHERE condition a server reads. */
  function WhereTree(rel: Rel, conds: seq<Expr>): Option<Sql> {
    Conjoined(EraseAll(rel, conds))
  }

  function WhereRun(d: Dialect, cx: DeparseCxt, conds: seq<Expr>): seq<Piece> {
    if conds == [] then []
    else WHERE_OPENING + JoinPieces(ConditionRuns(d, cx, conds), BoolSeparator(AndOp))
  }

  function LimitRun(d: Dialect, cx: DeparseCxt, word: string, e: Option<Expr>): seq<Piece> {
    match e
    case None => []
    case Some(x) => [Sp, Word(word), Sp] + PrintedOr(Print(d, cx, x))
  }

  function TailRun(d: Dialect, cx: DeparseCxt, conds: seq<Expr>, limit: Limit): seq<Piece> {
    WhereRun(d, cx, conds)
    + (LimitRun(d, cx, "LIMIT", limit.count) + LimitRun(d, cx, "OFFSET", limit.offset))
  }

  const FROM_OPENING: seq<Piece> := [Sp, Word("FROM"), Sp]
  const SELECT_OPENING: seq<Piece> := [Word("SELECT"), Sp]

  function StatementRun(d: Dialect, cx: DeparseCxt, list: seq<Piece>, conds: seq<Expr>, limit: Limit): seq<Piece>
    requires RelationPieces(cx).Some?
  {
    SELECT_OPENING + (list + (FROM_OPENING + (RelationPieces(cx).value + TailRun(d, cx, conds, limit))))
  }

  // ---------- the text is the same ----------

  lemma {:induction false} WhereText(d: Dialect, cx: DeparseCxt, conds: seq<Expr>)
    requires ValidDialect(d) && cx.quotable && AllReadable(d, cx, conds)
    ensures WherePieces(d, cx, conds).Some?
    ensures Render(d, WherePieces(d, cx, conds).value) == Render(d, WhereRun(d, cx, conds))
  {
    if conds != [] {
      var k := |conds| - 1;
      var before, cond := conds[..k], conds[k];
      assert conds == before + [cond];
      WhereText(d, cx, before);
      BodyReadsBack(d, cx, cond);
      WherePiecesSnoc(d, cx, before, cond);
      WhereRunSnoc(d, cx, before, cond);
      WhereStepText(d, Connective(before == []), WherePieces(d, cx, before).value, WhereRun(d, cx, before),
                    [P('(')] + (Print(d, cx, cond).value + [P(')')]), ConditionRun(d, cx, cond));
    }
  }

  lemma WherePiecesSnoc(d: Dialect, cx: DeparseCxt, conds: seq<Expr>, cond: Expr)
    requires WherePieces(d, cx, conds).Some? && Print(d, cx, cond).Some?
    ensures WherePieces(d, cx, conds + [cond]) ==
            Some(WherePieces(d, cx, conds).value
                 + (Connective(conds == []) + ([P('(')] + (Print(d, cx, cond).value + [P(')')]))))
  {
    assert (conds + [cond])[..|conds|] == conds;
    assert WherePieces(d, cx, conds + [cond]) ==
           Cat(WherePieces(d, cx, conds), JoinedCondition(d, cx, conds == [], cond));
    JoinedConditionIs(d, cx, conds == [], cond);
  }

  lemma JoinedConditionIs(d: Dialect, cx: DeparseCxt, isFirst: bool, cond: Expr)
    requires Print(d, cx, cond).Some?
    ensures JoinedCondition(d, cx, isFirst, cond) ==
            Some(Connective(isFirst) + ([P('(')] + (Print(d, cx, cond).value + [P(')')])))
  {
  }

  lemma WhereStepText(d: Dialect, connective: seq<Piece>, a: seq<Piece>, b: seq<Piece>, one: seq<Piece>,
                      run: seq<Piece>)
    requires Render(d, a) == Render(d, b) && Render(d, one) == Render(d, run)
    ensures Render(d, a + (connective + one)) == Render(d, b + (connective + run))
  {
    SameTextAfter(d, connective, one, run);
    RenderAppend(d, a, connective + one);
    RenderAppend(d, b, connective + run);
  }

  lemma WhereRunSnoc(d: Dialect, cx: DeparseCxt, conds: seq<Expr>, cond: Expr)
    ensures WhereRun(d, cx, conds + [cond]) ==
            WhereRun(d, cx, conds) + (Connective(conds == []) + ConditionRun(d, cx, cond))
  {
    var runs, run := ConditionRuns(d, cx, conds), ConditionRun(d, cx, cond);
    assert ConditionRuns(d, cx, conds + [cond]) == runs + [run];
    JoinSnoc(runs, run, BoolSeparator(AndOp));
    if conds == [] {
      assert [] + (WHERE_OPENING + run) == WHERE_OPENING + run;
    } else {
      TailRegroup([], WHERE_OPENING, JoinPieces(runs, BoolSeparator(AndOp)), BoolSeparator(AndOp) + run);
    }
  }

  lemma LimitText(d: Dialect, cx: DeparseCxt, limit: Limit)
    requires cx.quotable && LimitReadable(d, cx, limit)
    ensures LimitPieces(d, cx, limit) ==
            Some(LimitRun(d, cx, "LIMIT", limit.count) + LimitRun(d, cx, "OFFSET", limit.offset))
  {
    if limit.count.Some? {
      BodyReadsBack(d, cx, limit.count.value);
    }
    if limit.offset.Some? {
      BodyReadsBack(d, cx, limit.offset.value);
    }
  }

  lemma StatementText(d: Dialect, cx: DeparseCxt, list: seq<Piece>, conds: seq<Expr>, limit: Limit)
    requires ValidDialect(d) && cx.quotable && AllReadable(d, cx, conds) && LimitReadable(d, cx, limit)
    ensures SelectPieces(d, cx, Some(list), conds, limit).Some?
    ensures Render(d, SelectPieces(d, cx, Some(list), conds, limit).value) ==
            Render(d, StatementRun(d, cx, list, conds, limit))
  {
    WhereText(d, cx, conds);
    LimitText(d, cx, limit);
    SelectPiecesAre(d, cx, list, conds, limit);
    var w, w', l := WherePieces(d, cx, conds).value, WhereRun(d, cx, conds), LimitPieces(d, cx, limit).value;
    RenderAppend(d, w, l);
    RenderAppend(d, w', l);
    SameTextInStatement(d, list, RelationPieces(cx).value, w + l, w' + l);
  }

  lemma SelectPiecesAre(d: Dialect, cx: DeparseCxt, list: seq<Piece>, conds: seq<Expr>, limit: Limit)
    requires cx.quotable && WherePieces(d, cx, conds).Some? && LimitPieces(d, cx, limit).Some?
    ensures SelectPieces(d, cx, Some(list), conds, limit) ==
            Some(SELECT_OPENING + (list + (FROM_OPENING + (RelationPieces(cx).value
              + (WherePieces(d, cx, conds).value + LimitPieces(d, cx, limit).value)))))
  {
  }

  lemma SameTextInStatement(d: Dialect, list: seq<Piece>, relation: seq<Piece>, a: seq<Piece>, b: seq<Piece>)
    requires Render(d, a) == Render(d, b)
    ensures Render(d, SELECT_OPENING + (list + (FROM_OPENING + (relation + a)))) ==
            Render(d, SELECT_OPENING + (list + (FROM_OPENING + (relation + b))))
  {
    SameTextAfter(d, relation, a, b);
    SameTextAfter(d, FROM_OPENING, relation + a, relation + b);
    SameTextAfter(d, list, FROM_OPENING + (relation + a), FROM_OPENING + (relation + b));
    SameTextAfter(d, SELECT_OPENING, list + (FROM_OPENING + (relation + a)), list + (FROM_OPENING + (relation + b)));
  }

  lemma SameTextAfter(d: Dialect, front: seq<Piece>, a: seq<Piece>, b: seq<Piece>)
    requires Render(d, a) == Render(d, b)
    ensures Render(d, front + a) == Render(d, front + b)
  {
    RenderAppend(d, front, a);
    RenderAppend(d, front, b);
  }

  // ---------- the pieces are well spaced ----------

  lemma OpeningsSpaced(d: Dialect)
    ensures WellSpaced(d, SELECT_OPENING) && WellSpaced(d, FROM_OPENING) && WellSpaced(d, WHERE_OPENING)
    ensures WellSpaced(d, [Sp, Word("LIMIT"), Sp]) && WellSpaced(d, [Sp, Word("OFFSET"), Sp])
  {
    WordFrom(); WordWhere(); WordLimit(); WordOffset(); WordSelect();
    OpeningSpaced(d, "FROM", Kw("from"));
    OpeningSpaced(d, "WHERE", Kw("where"));
    OpeningSpaced(d, "LIMIT", Kw("limit"));
    OpeningSpaced(d, "OFFSET", Kw("offset"));
  }

  lemma OpeningSpaced(d: Dialect, w: string, t: Token)
    requires Reads(w, t)
    ensures WellSpaced(d, [Sp, Word(w), Sp])
  {
  }

  lemma WhereSpaced(d: Dialect, cx: DeparseCxt, conds: seq<Expr>)
    requires ValidDialect(d) && cx.quotable && AllReadable(d, cx, conds)
    ensures WellSpaced(d, WhereRun(d, cx, conds))
    ensures conds != [] ==> Closes(WhereRun(d, cx, conds))
  {
    if conds != [] {
      var runs := ConditionRuns(d, cx, conds);
      FixedSpaced(d, AndOp);
      OpeningsSpaced(d);
      forall i | 0 <= i < |runs|
        ensures WellSpaced(d, runs[i])
      {
        ReadableIsLegible(d, cx, conds[i]);
        Spaced(d, cx, conds[i]);
        Enclose(d, [P('(')], Print(d, cx, conds[i]).value, [P(')')]);
      }
      JoinAllSpaced(d, runs, BoolSeparator(AndOp));
      Join(d, WHERE_OPENING, JoinPieces(runs, BoolSeparator(AndOp)));
    }
  }

  lemma LimitSpaced(d: Dialect, cx: DeparseCxt, word: string, e: Option<Expr>)
    requires ValidDialect(d) && cx.quotable && WellSpaced(d, [Sp, Word(word), Sp])
    requires e.Some? ==> Readable(d, cx, e.value)
    ensures WellSpaced(d, LimitRun(d, cx, word, e))
    ensures e.Some? ==> Closes(LimitRun(d, cx, word, e))
  {
    if e.Some? {
      ReadableIsLegible(d, cx, e.value);
      Spaced(d, cx, e.value);
      Join(d, [Sp, Word(word), Sp], Print(d, cx, e.value).value);
    }
  }

  lemma TailSpaced(d: Dialect, cx: DeparseCxt, conds: seq<Expr>, limit: Limit)
    requires ValidDialect(d) && cx.quotable && AllReadable(d, cx, conds) && LimitReadable(d, cx, limit)
    ensures WellSpaced(d, TailRun(d, cx, conds, limit))
    ensures var run := TailRun(d, cx, conds, limit); run == [] || Closes(run)
  {
    OpeningsSpaced(d);
    WhereSpaced(d, cx, conds);
    LimitSpaced(d, cx, "LIMIT", limit.count);
    LimitSpaced(d, cx, "OFFSET", limit.offset);
    var a, b := LimitRun(d, cx, "LIMIT", limit.count), LimitRun(d, cx, "OFFSET", limit.offset);
    Join(d, a, b);
    assert a + b == [] || Closes(a + b);
    Join(d, WhereRun(d, cx, conds), a + b);
  }

  lemma RelationSpaced(d: Dialect, cx: DeparseCxt)
    requires cx.quotable
    ensures WellSpaced(d, RelationPieces(cx).value) && RelationPieces(cx).value != []
  {
  }

  lemma StatementSpaced(d: Dialect, cx: DeparseCxt, list: seq<Piece>, conds: seq<Expr>, limit: Limit)
    requires ValidDialect(d) && cx.quotable && AllReadable(d, cx, conds) && LimitReadable(d, cx, limit)
    requires WellSpaced(d, list)
    ensures WellSpaced(d, StatementRun(d, cx, list, conds, limit))
  {
    TailSpaced(d, cx, conds, limit);
    RelationSpaced(d, cx);
    OpeningsSpaced(d);
    var tail := TailRun(d, cx, conds, limit);
    var relation := RelationPieces(cx).value;
    Join(d, relation, tail);
    Join(d, FROM_OPENING, relation + tail);
    Join(d, list, FROM_OPENING + (relation + tail));
    Join(d, SELECT_OPENING, list + (FROM_OPENING + (relation + tail)));
  }

  // ---------- the tokens read back ----------

  function RelationTokens(rel: Rel): seq<Token> {
    if rel.schema.None? || rel.schema.value == "" then [Ident(rel.name)]
    else [Ident(rel.schema.value)] + ([DOT] + [Ident(rel.name)])
  }

  lemma RelationTokensOf(cx: DeparseCxt)
    requires cx.quotable
    ensures TokensOf(RelationPieces(cx).value) == RelationTokens(cx.rel)
  {
    var ps := RelationPieces(cx).value;
    if |ps| == 1 {
      TokOne(ps[0]);
    } else {
      TokThree(ps[0], ps[1], ps[2]);
    }
  }

  /** The schema the server looks in: an empty option counts as none. */
  function SchemaOf(rel: Rel): Option<string> {
    if rel.schema == Some("") then None else rel.schema
  }

  lemma TableNameReads(rel: Rel, rest: seq<Token>)
    requires Front(rest) != DOT
    ensures ReadTableName(RelationTokens(rel) + rest) == Ok((SchemaOf(rel), rel.name), rest)
  {
    var ts := RelationTokens(rel) + rest;
    assert ts[|RelationTokens(rel)|..] == rest;
    assert Second([Ident(rel.name)] + rest) == Front(rest);
  }

  lemma ClauseTokensOf(w: string, word: Token, ps: seq<Piece>, rest: seq<Token>)
    requires Reads(w, word)
    ensures TokensOf([Sp, Word(w), Sp] + ps) + rest == [word] + (TokensOf(ps) + rest)
  {
    TokThree(Sp, Word(w), Sp);
    assert TokensOf([Sp, Word(w), Sp]) == [word];
    Tok2([Sp, Word(w), Sp], ps, rest);
  }

  lemma ClauseReads(word: Token, ts: seq<Token>, e: Sql, rest: seq<Token>)
    requires Body(ts) == Ok(e, rest)
    ensures ReadClause(word, [word] + ts) == Ok(Some(e), rest)
  {
    assert ([word] + ts)[1..] == ts;
  }

  /** A condition in its parentheses is a primary. */
  lemma ConditionRunReads(d: Dialect, cx: DeparseCxt, cond: Expr)
    requires cx.quotable && Readable(d, cx, cond)
    ensures AsPrimary(ConditionRun(d, cx, cond), Erase(cx.rel, cond))
  {
    BodyReadsBack(d, cx, cond);
    ParenReadsBack(PrintedOr(Print(d, cx, cond)), Erase(cx.rel, cond));
  }

  lemma ConditionArguments(d: Dialect, cx: DeparseCxt, conds: seq<Expr>)
    requires cx.quotable && AllReadable(d, cx, conds)
    ensures AsArguments(AndOp, ConditionRuns(d, cx, conds), EraseAll(cx.rel, conds))
  {
    forall i | 0 <= i < |conds|
      ensures AsArgument(AndOp, ConditionRuns(d, cx, conds)[i], EraseAll(cx.rel, conds)[i])
    {
      ConditionRunReads(d, cx, conds[i]);
      PrimaryAsNegation(ConditionRun(d, cx, conds[i]), Erase(cx.rel, conds[i]));
    }
  }

  lemma ConjunctionReads(d: Dialect, cx: DeparseCxt, conds: seq<Expr>)
    requires cx.quotable && AllReadable(d, cx, conds) && conds != []
    ensures AsBody(JoinPieces(ConditionRuns(d, cx, conds), BoolSeparator(AndOp)), WhereTree(cx.rel, conds).value)
  {
    var runs, trees := ConditionRuns(d, cx, conds), EraseAll(cx.rel, conds);
    ConditionArguments(d, cx, conds);
    if |conds| == 1 {
      JoinOne(runs, BoolSeparator(AndOp));
      assert AsArgument(AndOp, runs[0], trees[0]);
      NegationAsConjunction(runs[0], trees[0]);
      ConjunctionAsBody(runs[0], trees[0]);
    } else {
      RunReads(AndOp, runs, trees);
    }
  }

  /** The WHERE clause reads as the conjunction of the conditions. */
  lemma WhereReads(d: Dialect, cx: DeparseCxt, conds: seq<Expr>, close: seq<Token>)
    requires cx.quotable && AllReadable(d, cx, conds) && Ends(Front(close)) && Front(close) != Kw("where")
    ensures ReadClause(Kw("where"), TokensOf(WhereRun(d, cx, conds)) + close) == Ok(WhereTree(cx.rel, conds), close)
  {
    if conds == [] {
      assert TokensOf(WhereRun(d, cx, conds)) + close == close;
    } else {
      var joined := JoinPieces(ConditionRuns(d, cx, conds), BoolSeparator(AndOp));
      WordWhere();
      ClauseTokensOf("WHERE", Kw("where"), joined, close);
      ConjunctionReads(d, cx, conds);
      assert BodyPhrase(joined, WhereTree(cx.rel, conds).value, close);
      ClauseReads(Kw("where"), TokensOf(joined) + close, WhereTree(cx.rel, conds).value, close);
    }
  }

  function LimitTree(rel: Rel, e: Option<Expr>): Option<Sql> {
    match e
    case None => None
    case Some(x) => Some(Erase(rel, x))
  }

  lemma LimitReads(d: Dialect, cx: DeparseCxt, w: string, word: Token, e: Option<Expr>, close: seq<Token>)
    requires cx.quotable && Reads(w, word) && (e.Some? ==> Readable(d, cx, e.value))
    requires Ends(Front(close)) && Front(close) != word
    ensures ReadClause(word, TokensOf(LimitRun(d, cx, w, e)) + close) == Ok(LimitTree(cx.rel, e), close)
  {
    if e.None? {
      assert TokensOf(LimitRun(d, cx, w, e)) + close == close;
    } else {
      var ps := PrintedOr(Print(d, cx, e.value));
      BodyReadsBack(d, cx, e.value);
      ClauseTokensOf(w, word, ps, close);
      assert BodyPhrase(ps, Erase(cx.rel, e.value), close);
      ClauseReads(word, TokensOf(ps) + close, Erase(cx.rel, e.value), close);
    }
  }

  /** What the clause run starts with. */
  lemma ClauseFront(d: Dialect, cx: DeparseCxt, w: string, word: Token, e: Option<Expr>, close: seq<Token>)
    requires Reads(w, word)
    ensures Front(TokensOf(LimitRun(d, cx, w, e)) + close) == if e.None? then Front(close) else word
  {
    if e.None? {
      assert TokensOf(LimitRun(d, cx, w, e)) + close == close;
    } else {
      ClauseTokensOf(w, word, PrintedOr(Print(d, cx, e.value)), close);
    }
  }

  function QueryOf(rel: Rel, items: seq<Sql>, conds: seq<Expr>, limit: Limit): Query {
    Query(items, SchemaOf(rel), rel.name, WhereTree(rel, conds),
          LimitTree(rel, limit.count), LimitTree(rel, limit.offset))
  }

  lemma TailReads(d: Dialect, cx: DeparseCxt, items: seq<Sql>, conds: seq<Expr>, limit: Limit)
    requires cx.quotable && AllReadable(d, cx, conds) && LimitReadable(d, cx, limit)
    ensures ReadTail(items, (SchemaOf(cx.rel), cx.rel.name), TokensOf(TailRun(d, cx, conds, limit))) ==
            Some(QueryOf(cx.rel, items, conds, limit))
    ensures Front(TokensOf(TailRun(d, cx, conds, limit))) != DOT
  {
    var a, b := LimitRun(d, cx, "LIMIT", limit.count), LimitRun(d, cx, "OFFSET", limit.offset);
    var w := TokensOf(WhereRun(d, cx, conds));
    var tb := TokensOf(b) + [];
    var ta := TokensOf(a) + tb;
    assert TokensOf(TailRun(d, cx, conds, limit)) == w + ta by {
      Tok3(WhereRun(d, cx, conds), a, b, []);
      assert TokensOf(TailRun(d, cx, conds, limit)) + [] == TokensOf(TailRun(d, cx, conds, limit));
    }
    LimitsRead(d, cx, limit);
    WhereReads(d, cx, conds, ta);
    WhereFront(d, cx, conds, ta);
    ReadTailIs(items, (SchemaOf(cx.rel), cx.rel.name), w + ta, WhereTree(cx.rel, conds), ta,
               LimitTree(cx.rel, limit.count), tb, LimitTree(cx.rel, limit.offset));
  }

  lemma LimitsRead(d: Dialect, cx: DeparseCxt, limit: Limit)
    requires cx.quotable && LimitReadable(d, cx, limit)
    ensures
      var tb := TokensOf(LimitRun(d, cx, "OFFSET", limit.offset)) + [];
      var ta := TokensOf(LimitRun(d, cx, "LIMIT", limit.count)) + tb;
      && ReadClause(Kw("limit"), ta) == Ok(LimitTree(cx.rel, limit.count), tb)
      && ReadClause(Kw("offset"), tb) == Ok(LimitTree(cx.rel, limit.offset), [])
      && Ends(Front(ta)) && Front(ta) != Kw("where") && Front(ta) != DOT
  {
    WordLimit(); WordOffset();
    var tb := TokensOf(LimitRun(d, cx, "OFFSET", limit.offset)) + [];
    ClauseFront(d, cx, "OFFSET", Kw("offset"), limit.offset, []);
    ClauseFront(d, cx, "LIMIT", Kw("limit"), limit.count, tb);
    LimitReads(d, cx, "LIMIT", Kw("limit"), limit.count, tb);
    LimitReads(d, cx, "OFFSET", Kw("offset"), limit.offset, []);
  }

  lemma ReadTailIs(items: seq<Sql>, name: (Option<string>, string), ts: seq<Token>, cond: Option<Sql>,
                   ta: seq<Token>, count: Option<Sql>, tb: seq<Token>, offset: Option<Sql>)
    requires ReadClause(Kw("where"), ts) == Ok(cond, ta)
    requires ReadClause(Kw("limit"), ta) == Ok(count, tb)
    requires ReadClause(Kw("offset"), tb) == Ok(offset, [])
    ensures ReadTail(items, name, ts) == Some(Query(items, name.0, name.1, cond, count, offset))
  {
  }

  lemma WhereFront(d: Dialect, cx: DeparseCxt, conds: seq<Expr>, close: seq<Token>)
    ensures Front(TokensOf(WhereRun(d, cx, conds)) + close) == if conds == [] then Front(close) else Kw("where")
  {
    if conds == [] {
      assert TokensOf(WhereRun(d, cx, conds)) + close == close;
    } else {
      WordWhere();
      ClauseTokensOf("WHERE", Kw("where"), JoinPieces(ConditionRuns(d, cx, conds), BoolSeparator(AndOp)), close);
    }
  }

  /** The tokens from FROM on. */
  function FromTokens(d: Dialect, cx: DeparseCxt, conds: seq<Expr>, limit: Limit): seq<Token> {
    [Kw("from")] + (RelationTokens(cx.rel) + TokensOf(TailRun(d, cx, conds, limit)))
  }

  lemma StatementTokens(d: Dialect, cx: DeparseCxt, list: seq<Piece>, conds: seq<Expr>, limit: Limit)
    requires cx.quotable
    ensures TokensOf(StatementRun(d, cx, list, conds, limit)) ==
            [Kw("select")] + (TokensOf(list) + FromTokens(d, cx, conds, limit))
  {
    var tail, relation := TailRun(d, cx, conds, limit), RelationPieces(cx).value;
    WordSelect(); WordFrom();
    RelationTokensOf(cx);
    TokThree(Sp, Word("FROM"), Sp);
    assert TokensOf(FROM_OPENING) == [Kw("from")];
    assert TokensOf(SELECT_OPENING) == [Kw("select")] by {
      TokOne(Sp);
      assert SELECT_OPENING[1..] == [Sp];
    }
    TokensAppend(relation, tail);
    TokensAppend(FROM_OPENING, relation + tail);
    TokensAppend(list, FROM_OPENING + (relation + tail));
    TokensAppend(SELECT_OPENING, list + (FROM_OPENING + (relation + tail)));
  }

  /** A printed SELECT statement reads back as its list, table, conditions and limits. */
  lemma SelectRoundTrip(d: Dialect, cx: DeparseCxt, list: seq<Piece>, items: seq<Sql>, conds: seq<Expr>, limit: Limit)
    requires ValidDialect(d) && cx.quotable && AllReadable(d, cx, conds) && LimitReadable(d, cx, limit)
    requires WellSpaced(d, list)
    requires Items(TokensOf(list) + FromTokens(d, cx, conds, limit)) == Ok(items, FromTokens(d, cx, conds, limit))
    ensures SelectPieces(d, cx, Some(list), conds, limit).Some?
    ensures ReadStatement(d, Render(d, SelectPieces(d, cx, Some(list), conds, limit).value)) ==
            Some(QueryOf(cx.rel, items, conds, limit))
  {
    StatementText(d, cx, list, conds, limit);
    StatementSpaced(d, cx, list, conds, limit);
    LexRender(d, StatementRun(d, cx, list, conds, limit));
    StatementTokens(d, cx, list, conds, limit);
    TailReads(d, cx, items, conds, limit);
    StatementReads(cx.rel, TokensOf(list), items, TokensOf(TailRun(d, cx, conds, limit)));
  }

  lemma StatementReads(rel: Rel, list: seq<Token>, items: seq<Sql>, tail: seq<Token>)
    requires
      var from := [Kw("from")] + (RelationTokens(rel) + tail);
      Items(list + from) == Ok(items, from)
    requires Front(tail) != DOT
    ensures ReadQuery([Kw("select")] + (list + ([Kw("from")] + (RelationTokens(rel) + tail)))) ==
            ReadTail(items, (SchemaOf(rel), rel.name), tail)
  {
    var from := [Kw("from")] + (RelationTokens(rel) + tail);
    assert ([Kw("select")] + (list + from))[1..] == list + from;
    assert from[1..] == RelationTokens(rel) + tail;
    TableNameReads(rel, tail);
  }
}
