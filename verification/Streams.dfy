/** What the reader makes of comparisons in a row: without parentheses, AND binds tighter than OR, and
    an operator before or after the row takes only the nearest of them.
 */
module Streams {
  import opened Nodes
  import opened Tokens
  import opened Reader
  import opened ArrayPieces
  import opened Phrases
  import opened ArrayRead

  // ---------- grouping by precedence ----------

  /** The trees between two ORs. */
  function Groups(es: seq<Sql>, ks: seq<BoolOp>): (r: seq<seq<Sql>>)
    requires |es| == |ks| + 1
    ensures r != [] && r[0] != [] && r[0][0] == es[0]
    ensures |r| == 1 <==> OrOp !in ks
  {
    if ks == [] then [es]
    else
      var gs := Groups(es[1..], ks[1..]);
      if ks[0].OrOp? then [[es[0]]] + gs else [[es[0]] + gs[0]] + gs[1..]
  }

  function Conjunct(es: seq<Sql>): Sql {
    if |es| == 1 then es[0] else App(HAnd, es)
  }

  function Conjuncts(gs: seq<seq<Sql>>): (r: seq<Sql>)
    ensures |r| == |gs| && forall i :: 0 <= i < |gs| ==> r[i] == Conjunct(gs[i])
  {
    if gs == [] then [] else [Conjunct(gs[0])] + Conjuncts(gs[1..])
  }

  /** The tree of a row of trees with connectives between them. */
  function FlatTree(es: seq<Sql>, ks: seq<BoolOp>): Sql
    requires |es| == |ks| + 1
  {
    var gs := Groups(es, ks);
    if |gs| == 1 then Conjunct(gs[0]) else App(HOr, Conjuncts(gs))
  }

  lemma {:induction false} OneGroup(es: seq<Sql>, ks: seq<BoolOp>)
    requires |es| == |ks| + 1 && OrOp !in ks
    ensures Groups(es, ks) == [es]
  {
    if ks != [] {
      OneGroup(es[1..], ks[1..]);
      assert [es[0]] + es[1..] == es;
    }
  }

  /** Two or more trees in a row are an AND or an OR, whose first argument is the first tree or
      another AND. */
  lemma FlatHead(es: seq<Sql>, ks: seq<BoolOp>)
    requires |es| == |ks| + 1 && ks != []
    ensures
      var t := FlatTree(es, ks);
      && t.App? && t.head == (if OrOp in ks then HOr else HAnd) && t.args != []
      && (t.args[0] == es[0] || (t.args[0].App? && t.args[0].head == HAnd))
  {
    if OrOp !in ks {
      OneGroup(es, ks);
    }
  }

  /** The tokens are the trees in a row, up to `close`. */
  predicate Stream(ts: seq<Token>, es: seq<Sql>, ks: seq<BoolOp>, close: seq<Token>)
    decreases |ks|
  {
    && |es| == |ks| + 1
    && match Negation(ts)
       case Fail => false
       case Ok(e, rest) =>
         e == es[0] &&
         if ks == [] then rest == close
         else
           && !ks[0].NotOp? && rest != [] && rest[0] == BoolKw(ks[0])
           && Stream(rest[1..], es[1..], ks[1..], close)
  }

  /** The reader groups the row: what it has read after each level. */
  lemma {:induction false} StreamGroups(ts: seq<Token>, es: seq<Sql>, ks: seq<BoolOp>, close: seq<Token>)
    returns (tail: seq<Token>, rest: seq<Token>)
    requires Stream(ts, es, ks, close) && Front(close) != Kw("and") && Front(close) != Kw("or")
    ensures Negation(ts) == Ok(es[0], tail)
    ensures AndTail(tail) == Ok(Groups(es, ks)[0][1..], rest)
    ensures OrTail(rest) == Ok(Conjuncts(Groups(es, ks)[1..]), close)
    decreases |ks|
  {
    tail := Negation(ts).rest;
    if ks == [] {
      rest := close;
      assert es[1..] == [];
    } else {
      var us := tail[1..];
      var gs := Groups(es[1..], ks[1..]);
      var after, last := StreamGroups(us, es[1..], ks[1..], close);
      if ks[0].OrOp? {
        rest := tail;
        OrStep(tail, us, gs[0], after, last, Conjuncts(gs[1..]), close);
        GroupsOr(es, ks);
      } else {
        rest := last;
        AndStep(tail, us, gs[0], after, last);
        GroupsAnd(es, ks);
      }
    }
  }

  lemma GroupsOr(es: seq<Sql>, ks: seq<BoolOp>)
    requires |es| == |ks| + 1 && ks != [] && ks[0].OrOp?
    ensures
      var gs := Groups(es[1..], ks[1..]);
      Groups(es, ks)[0][1..] == [] && Conjuncts(Groups(es, ks)[1..]) == [Conjunct(gs[0])] + Conjuncts(gs[1..])
  {
    assert Groups(es, ks)[1..] == Groups(es[1..], ks[1..]);
  }

  lemma GroupsAnd(es: seq<Sql>, ks: seq<BoolOp>)
    requires |es| == |ks| + 1 && ks != [] && !ks[0].OrOp?
    ensures
      var gs := Groups(es[1..], ks[1..]);
      Groups(es, ks)[0][1..] == gs[0] && Groups(es, ks)[1..] == gs[1..]
  {
  }

  lemma AndStep(tail: seq<Token>, us: seq<Token>, g: seq<Sql>, after: seq<Token>, last: seq<Token>)
    requires tail != [] && tail[0] == Kw("and") && tail[1..] == us && g != []
    requires Negation(us) == Ok(g[0], after) && AndTail(after) == Ok(g[1..], last)
    ensures AndTail(tail) == Ok(g, last)
  {
    assert [g[0]] + g[1..] == g;
  }

  lemma OrStep(tail: seq<Token>, us: seq<Token>, g: seq<Sql>, after: seq<Token>, last: seq<Token>, more: seq<Sql>,
               close: seq<Token>)
    requires tail != [] && tail[0] == Kw("or") && tail[1..] == us && g != []
    requires Negation(us) == Ok(g[0], after) && AndTail(after) == Ok(g[1..], last) && OrTail(last) == Ok(more, close)
    ensures AndTail(tail) == Ok([], tail) && OrTail(tail) == Ok([Conjunct(g)] + more, close)
  {
    assert [g[0]] + g[1..] == g;
    assert Conjunction(us) == Ok(Conjunct(g), last);
  }

  /** So a row reads as its tree. */
  lemma StreamReads(ts: seq<Token>, es: seq<Sql>, ks: seq<BoolOp>, close: seq<Token>)
    requires Stream(ts, es, ks, close) && Front(close) != Kw("and") && Front(close) != Kw("or")
    ensures Body(ts) == Ok(FlatTree(es, ks), close)
  {
    var gs := Groups(es, ks);
    var tail, rest := StreamGroups(ts, es, ks, close);
    assert [es[0]] + gs[0][1..] == gs[0];
    assert Conjunction(ts) == Ok(Conjunct(gs[0]), rest);
    assert Conjuncts(gs) == [Conjunct(gs[0])] + Conjuncts(gs[1..]);
  }

  // ---------- rows of printed parts ----------

  function Copies(op: BoolOp, n: nat): (r: seq<BoolOp>)
    ensures |r| == n && forall i :: 0 <= i < n ==> r[i] == op
  {
    seq(n, _ => op)
  }

  ghost predicate AsNegations(pss: seq<seq<Piece>>, es: seq<Sql>) {
    |pss| == |es| && forall i :: 0 <= i < |pss| ==> AsNegation(pss[i], es[i])
  }

  lemma FirstOfStream(ps: seq<Piece>, e: Sql, op: BoolOp, us: seq<Token>, es: seq<Sql>, ks: seq<BoolOp>,
                      close: seq<Token>)
    requires AsNegation(ps, e) && !op.NotOp? && Stream(us, es, ks, close)
    ensures Stream(TokensOf(ps) + ([BoolKw(op)] + us), [e] + es, [op] + ks, close)
  {
    var rest := [BoolKw(op)] + us;
    assert NegationPhrase(ps, e, rest);
    assert rest[1..] == us && ([e] + es)[1..] == es && ([op] + ks)[1..] == ks;
  }

  lemma SameStream(ts: seq<Token>, us: seq<Token>, es: seq<Sql>, fs: seq<Sql>, ks: seq<BoolOp>, ls: seq<BoolOp>,
                   close: seq<Token>)
    ensures ts == us && es == fs && ks == ls && Stream(ts, es, ks, close) ==> Stream(us, fs, ls, close)
  {
  }

  lemma RegroupLists<T>(all: seq<T>, fs: seq<T>)
    requires |all| > 1
    ensures [all[0]] + (all[1..][..|all| - 2] + fs) == all[..|all| - 1] + fs
  {
  }

  lemma RegroupCopies(op: BoolOp, n: nat, ks: seq<BoolOp>)
    ensures [op] + (Copies(op, n) + ks) == Copies(op, n + 1) + ks
    ensures Copies(op, n + 1)[1..] == Copies(op, n) && Copies(op, 0) + ks == ks && Copies(op, n) + [] == Copies(op, n)
  {
  }

  /** Parts in a row, of which the last merges with what follows. */
  lemma {:induction false} LastMerges(op: BoolOp, pss: seq<seq<Piece>>, es: seq<Sql>, rest: seq<Token>,
                                      fs: seq<Sql>, ks: seq<BoolOp>, close: seq<Token>)
    requires pss != [] && !op.NotOp? && AsNegations(pss, es)
    requires Stream(TokensOf(pss[|pss| - 1]) + rest, fs, ks, close)
    ensures Stream(TokensOf(JoinPieces(pss, BoolSeparator(op))) + rest, es[..|es| - 1] + fs,
                   Copies(op, |pss| - 1) + ks, close)
  {
    var ts := TokensOf(JoinPieces(pss, BoolSeparator(op))) + rest;
    if |pss| == 1 {
      RegroupCopies(op, 0, ks);
      JoinedOne(op, pss);
      SameStream(TokensOf(pss[0]) + rest, ts, fs, es[..0] + fs, ks, Copies(op, 0) + ks, close);
    } else {
      var us := TokensOf(JoinPieces(pss[1..], BoolSeparator(op))) + rest;
      var es', ks' := es[1..][..|es| - 2] + fs, Copies(op, |pss| - 2) + ks;
      LastMerges(op, pss[1..], es[1..], rest, fs, ks, close);
      FirstOfStream(pss[0], es[0], op, us, es', ks', close);
      JoinStep(op, pss, rest);
      RegroupLists(es, fs);
      RegroupCopies(op, |pss| - 2, ks);
      SameStream(TokensOf(pss[0]) + ([BoolKw(op)] + us), ts, [es[0]] + es', es[..|es| - 1] + fs,
                 [op] + ks', Copies(op, |pss| - 1) + ks, close);
    }
  }

  lemma JoinedOne(op: BoolOp, pss: seq<seq<Piece>>)
    requires |pss| == 1
    ensures JoinPieces(pss, BoolSeparator(op)) == pss[0]
  {
    assert JoinTail(pss[1..], BoolSeparator(op)) == [];
  }

  lemma JoinStep(op: BoolOp, pss: seq<seq<Piece>>, rest: seq<Token>)
    requires |pss| > 1
    ensures TokensOf(JoinPieces(pss, BoolSeparator(op))) + rest ==
            TokensOf(pss[0]) + ([BoolKw(op)] + (TokensOf(JoinPieces(pss[1..], BoolSeparator(op))) + rest))
  {
    TokensSeparator(op);
    JoinTokens(pss, BoolSeparator(op), rest);
    JoinTokens(pss[1..], BoolSeparator(op), rest);
  }

  /** Parts in a row. */
  lemma PartsInRow(op: BoolOp, pss: seq<seq<Piece>>, es: seq<Sql>, close: seq<Token>)
    requires pss != [] && !op.NotOp? && AsNegations(pss, es)
    requires NegationPhrase(pss[|pss| - 1], es[|es| - 1], close)
    ensures Stream(TokensOf(JoinPieces(pss, BoolSeparator(op))) + close, es, Copies(op, |pss| - 1), close)
  {
    var last := es[|es| - 1];
    var ts := TokensOf(JoinPieces(pss, BoolSeparator(op))) + close;
    LastMerges(op, pss, es, close, [last], [], close);
    RegroupCopies(op, |pss| - 1, []);
    LastAgain(es);
    SameStream(ts, ts, es[..|es| - 1] + [last], es, Copies(op, |pss| - 1) + [], Copies(op, |pss| - 1), close);
  }

  lemma LastAgain<T>(all: seq<T>)
    requires all != []
    ensures all[..|all| - 1] + [all[|all| - 1]] == all
  {
  }

  /** Parts in a row, of which the first has merged with what precedes it. */
  lemma FirstMerges(ts: seq<Token>, x: Sql, op: BoolOp, pss: seq<seq<Piece>>, es: seq<Sql>, close: seq<Token>)
    requires pss != [] && !op.NotOp? && AsNegations(pss, es) && Stops(Front(close))
    requires Negation(ts) == Ok(x, TokensOf(JoinTail(pss[1..], BoolSeparator(op))) + close)
    ensures Stream(ts, [x] + es[1..], Copies(op, |pss| - 1), close)
  {
    var tail := TokensOf(JoinTail(pss[1..], BoolSeparator(op))) + close;
    if |pss| == 1 {
      assert tail == close;
    } else {
      RestInRow(op, pss, es, close);
      assert ([x] + es[1..])[1..] == es[1..];
      RegroupCopies(op, |pss| - 2, []);
    }
  }

  /** The parts after the first. */
  lemma RestInRow(op: BoolOp, pss: seq<seq<Piece>>, es: seq<Sql>, close: seq<Token>)
    requires |pss| > 1 && !op.NotOp? && AsNegations(pss, es) && Stops(Front(close))
    ensures
      var tail := TokensOf(JoinTail(pss[1..], BoolSeparator(op))) + close;
      tail != [] && tail[0] == BoolKw(op) && Stream(tail[1..], es[1..], Copies(op, |pss| - 2), close)
  {
    var tail := TokensOf(JoinTail(pss[1..], BoolSeparator(op))) + close;
    var us := TokensOf(JoinPieces(pss[1..], BoolSeparator(op))) + close;
    assert tail == [BoolKw(op)] + us by {
      TokensSeparator(op);
      JoinTokens(pss[1..], BoolSeparator(op), close);
    }
    assert AsNegation(pss[|pss| - 1], es[|es| - 1]);
    assert NegationPhrase(pss[|pss| - 1], es[|es| - 1], close);
    PartsInRow(op, pss[1..], es[1..], close);
    assert tail[1..] == us;
  }

  // ---------- operands that are rows ----------

  /** The token carries an expression on. */
  predicate CarriesOn(t: Token) {
    t.Oper? || t == Kw("in") || t == Kw("not") || t == Kw("like") || t == Kw("is")
  }

  /** As an operand, only the left side of the first comparison is taken. */
  ghost predicate CutOff(ps: seq<Piece>) {
    forall rest :: CutAt(TokensOf(ps) + rest)
  }

  predicate CutAt(ts: seq<Token>) {
    var r := Primary(ts);
    r.Ok? && CarriesOn(Front(r.rest))
  }

  /** A prefix operator goes to the left side of the comparison, which stays one. */
  ghost predicate TakesPrefix(ps: seq<Piece>) {
    forall o, rest :: Front(rest) != LBRACK ==> PrefixTaken(o, TokensOf(ps) + rest, rest)
  }

  predicate PrefixTaken(o: string, ts: seq<Token>, rest: seq<Token>) {
    var r := Negation([Oper(o)] + ts);
    r.Ok? && r.rest == rest && r.v.App? && !r.v.head.HUnary?
  }

  /** The text of an operand: parts in a row, bare comparisons or primaries. */
  datatype Run = Run(parts: seq<seq<Piece>>, trees: seq<Sql>, op: BoolOp, bare: bool)

  function RunPieces(r: Run): seq<Piece> {
    JoinPieces(r.parts, BoolSeparator(r.op))
  }

  function RunTree(r: Run): Sql {
    if |r.trees| == 1 then r.trees[0] else App(BoolHead(r.op), r.trees)
  }

  /** A primary. */
  predicate Alone(r: Run) {
    !r.bare && |r.parts| == 1
  }

  ghost predicate GoodRun(r: Run) {
    && r.parts != [] && |r.parts| == |r.trees| && !r.op.NotOp?
    && (r.bare ==> AsPredicates(r.parts, r.trees) && CutOff(RunPieces(r)) && TakesPrefix(r.parts[0]))
    && (!r.bare ==> AsPrimaries(r.parts, r.trees))
  }

  lemma PartsAreNegations(r: Run)
    requires GoodRun(r)
    ensures AsNegations(r.parts, r.trees)
  {
    forall i | 0 <= i < |r.parts|
      ensures AsNegation(r.parts[i], r.trees[i])
    {
      if r.bare {
        PredicateAsNegation(r.parts[i], r.trees[i]);
      } else {
        PrimaryAsNegation(r.parts[i], r.trees[i]);
      }
    }
  }

  lemma CutOffAppend(a: seq<Piece>, b: seq<Piece>)
    requires CutOff(a)
    ensures CutOff(a + b)
  {
    forall rest
      ensures CutAt(TokensOf(a + b) + rest)
    {
      Tok2(a, b, rest);
      assert CutAt(TokensOf(a) + (TokensOf(b) + rest));
    }
  }

  /** IN lists. */
  lemma InTakesPrefix(left: seq<Piece>, ea: Sql, opname: string, elements: seq<seq<Piece>>, es: seq<Sql>)
    requires AsPrimary(left, ea) && elements != [] && AsBodies(elements, es)
    ensures CutOff(InPieces(left, opname, elements)) && TakesPrefix(InPieces(left, opname, elements))
  {
    var ps := InPieces(left, opname, elements);
    forall rest
      ensures CutAt(TokensOf(ps) + rest)
    {
      InCutAt(left, ea, opname, elements, rest);
    }
    forall o, rest | Front(rest) != LBRACK
      ensures PrefixTaken(o, TokensOf(ps) + rest, rest)
    {
      InPrefixAt(left, ea, opname, elements, es, o, rest);
    }
  }

  lemma InCutAt(left: seq<Piece>, ea: Sql, opname: string, elements: seq<seq<Piece>>, rest: seq<Token>)
    requires AsPrimary(left, ea)
    ensures CutAt(TokensOf(InPieces(left, opname, elements)) + rest)
  {
    var inner := TokensOf(JoinPieces(elements, ITEM_SEPARATOR)) + ([RPAREN] + rest);
    InTokens(left, opname, elements, rest);
    PhraseAt(left, ea, InWords(opname) + ([LPAREN] + inner));
  }

  lemma InPrefixAt(left: seq<Piece>, ea: Sql, opname: string, elements: seq<seq<Piece>>, es: seq<Sql>,
                   o: string, rest: seq<Token>)
    requires AsPrimary(left, ea) && elements != [] && AsBodies(elements, es)
    ensures PrefixTaken(o, TokensOf(InPieces(left, opname, elements)) + rest, rest)
  {
    var inner := TokensOf(JoinPieces(elements, ITEM_SEPARATOR)) + ([RPAREN] + rest);
    var after := InWords(opname) + ([LPAREN] + inner);
    ItemsRead(elements, es, [RPAREN] + rest);
    InTokens(left, opname, elements, rest);
    assert Phrase(left, ea, after);
    PrefixedOperand(o, TokensOf(left) + after, ea, after);
    InAfterOperand([Oper(o)] + (TokensOf(left) + after), App(HUnary(o), [ea]), opname, inner, es, rest);
  }

  /** A prefix operator and a primary. */
  lemma PrefixedOperand(o: string, ts: seq<Token>, e: Sql, after: seq<Token>)
    requires Primary(ts) == Ok(e, after) && Front(after) != LBRACK
    ensures Operand([Oper(o)] + ts) == Ok(App(HUnary(o), [e]), after)
  {
    assert ([Oper(o)] + ts)[1..] == ts;
    assert Subscripts(after) == Ok(([], []), after);
  }

  /** `operand [NOT] IN (items)`. */
  lemma InAfterOperand(a: seq<Token>, ea: Sql, opname: string, inner: seq<Token>, es: seq<Sql>, close: seq<Token>)
    requires Operand(a) == Ok(ea, InWords(opname) + ([LPAREN] + inner))
    requires Items(inner) == Ok(es, [RPAREN] + close)
    ensures Negation(a) == Ok(App(HIn(opname == "<>"), [ea] + es), close)
  {
    var rest := InWords(opname) + ([LPAREN] + inner);
    var list := [LPAREN] + inner;
    assert rest[|InWords(opname)|..] == list;
    assert list[1..] == inner;
    assert ([RPAREN] + close)[1..] == close;
    OperandStart(a);
    assert Predicate(a) == InList(opname == "<>", ea, list);
  }

  /** Bare comparisons. */
  lemma ComparisonTakesPrefix(left: seq<Piece>, ea: Sql, opname: string, right: seq<Piece>, eb: Sql)
    requires AsPrimary(left, ea) && AsOperand(right, eb)
    ensures CutOff(ComparisonPieces(left, opname, right)) && TakesPrefix(ComparisonPieces(left, opname, right))
  {
    var ps := ComparisonPieces(left, opname, right);
    forall rest
      ensures CutAt(TokensOf(ps) + rest)
    {
      ComparisonTokens(left, opname, right, rest);
      assert Phrase(left, ea, [Oper(opname)] + (TokensOf(right) + rest));
    }
    forall o, rest | Front(rest) != LBRACK
      ensures PrefixTaken(o, TokensOf(ps) + rest, rest)
    {
      var b := TokensOf(right) + rest;
      ComparisonTokens(left, opname, right, rest);
      assert Phrase(left, ea, [Oper(opname)] + b);
      assert OperandPhrase(right, eb, rest);
      PrefixedOperand(o, TokensOf(left) + ([Oper(opname)] + b), ea, [Oper(opname)] + b);
      InfixAfterOperand([Oper(o)] + (TokensOf(left) + ([Oper(opname)] + b)), App(HUnary(o), [ea]),
                        [Oper(opname)], HBinary(opname), b, eb, rest);
    }
  }

  /** The words stand between the operands of `h`. */
  ghost predicate Dispatches(words: seq<Token>, h: SqlHead) {
    words != [] && CarriesOn(words[0]) &&
    forall a, ea, b :: Operand(a) == Ok(ea, words + b) ==> Predicate(a) == Infix(h, ea, b)
  }

  lemma SymbolDispatches(o: string)
    ensures Dispatches([Oper(o)], HBinary(o))
  {
    forall a, ea, b | Operand(a) == Ok(ea, [Oper(o)] + b)
      ensures Predicate(a) == Infix(HBinary(o), ea, b)
    {
      assert ([Oper(o)] + b)[1..] == b;
    }
  }

  lemma OperatorDispatches(opname: string)
    ensures Dispatches(OperatorTokens(opname), HBinary(BinaryName(opname)))
  {
    forall a, ea, b | Operand(a) == Ok(ea, OperatorTokens(opname) + b)
      ensures Predicate(a) == Infix(HBinary(BinaryName(opname)), ea, b)
    {
      OperatorDispatch(a, ea, opname, b);
    }
  }

  lemma DistinctDispatches()
    ensures Dispatches([Kw("is"), Kw("distinct"), Kw("from")], HDistinct)
  {
    forall a, ea, b | Operand(a) == Ok(ea, [Kw("is"), Kw("distinct"), Kw("from")] + b)
      ensures Predicate(a) == Infix(HDistinct, ea, b)
    {
      DistinctDispatch(a, ea, b);
    }
  }

  lemma InfixAfterOperand(a: seq<Token>, ea: Sql, words: seq<Token>, h: SqlHead, b: seq<Token>, eb: Sql,
                          rest: seq<Token>)
    requires Operand(a) == Ok(ea, words + b) && Operand(b) == Ok(eb, rest)
    requires words == [Oper(if h.HBinary? then h.symbol else "")] && h.HBinary?
    ensures Negation(a) == Ok(App(h, [ea, eb]), rest)
  {
    SymbolDispatches(h.symbol);
    OperandStart(a);
    assert Predicate(a) == Infix(h, ea, b);
  }

  // ---------- operators next to rows ----------

  /** In parentheses, the text reads as something else than `e`, or not at all. */
  predicate Stray(ts: seq<Token>, close: seq<Token>, e: Sql) {
    var r := Body(ts);
    r.Fail? || Front(r.rest) != RPAREN || (r.rest == close && r.v != e)
  }

  lemma StreamStrays(ts: seq<Token>, es: seq<Sql>, ks: seq<BoolOp>, close: seq<Token>, e: Sql)
    requires Stream(ts, es, ks, close) && ks != [] && Front(close) == RPAREN
    requires e.App? ==> e.head != HAnd && e.head != HOr
    ensures Stray(ts, close, e)
  {
    StreamReads(ts, es, ks, close);
    FlatHead(es, ks);
  }

  /** A bare row stops where an operator carries on. */
  lemma BareRowStops(r: Run, rest: seq<Token>, close: seq<Token>, e: Sql)
    requires GoodRun(r) && r.bare && CarriesOn(Front(rest))
    ensures Stray(TokensOf(RunPieces(r)) + rest, close, e)
  {
    BareRowReads(r, rest);
  }

  lemma BareRowReads(r: Run, rest: seq<Token>)
    requires GoodRun(r) && r.bare && CarriesOn(Front(rest))
    ensures Body(TokensOf(RunPieces(r)) + rest) == Ok(FlatTree(r.trees, Copies(r.op, |r.parts| - 1)), rest)
  {
    var k := |r.parts| - 1;
    assert NegationPhrase(r.parts[k], r.trees[k], rest) by {
      assert AsPredicate(r.parts[k], r.trees[k]);
      assert PredicatePhrase(r.parts[k], r.trees[k], rest);
    }
    PartsAreNegations(r);
    PartsInRow(r.op, r.parts, r.trees, rest);
    StreamReads(TokensOf(RunPieces(r)) + rest, r.trees, Copies(r.op, k), rest);
  }

  /** A row of primaries followed by something that merges with its last part. */
  lemma RowMerges(r: Run, rest: seq<Token>, x: Sql, after: seq<Token>)
    requires GoodRun(r) && Negation(TokensOf(r.parts[|r.parts| - 1]) + rest) == Ok(x, after)
    ensures Stream(TokensOf(RunPieces(r)) + rest, r.trees[..|r.trees| - 1] + [x], Copies(r.op, |r.parts| - 1), after)
  {
    PartsAreNegations(r);
    LastMerges(r.op, r.parts, r.trees, rest, [x], [], after);
    assert Copies(r.op, |r.parts| - 1) + [] == Copies(r.op, |r.parts| - 1);
  }

  /** An infix operator between two operands of which one is not a primary. */
  lemma InfixStrays(l: Run, words: seq<Token>, h: SqlHead, r: Run, close: seq<Token>, e: Sql)
    requires GoodRun(l) && GoodRun(r) && !(Alone(l) && Alone(r)) && Dispatches(words, h)
    requires Front(close) == RPAREN && (e.App? ==> e.head != HAnd && e.head != HOr)
    ensures Stray(TokensOf(RunPieces(l)) + (words + (TokensOf(RunPieces(r)) + close)), close, e)
  {
    var b := TokensOf(RunPieces(r)) + close;
    if l.bare {
      BareRowStops(l, words + b, close, e);
    } else if r.bare {
      InfixBeforeBare(l, words, h, r, close, e);
    } else {
      InfixBetweenRows(l, words, h, r, close, e);
    }
  }

  lemma InfixNegation(last: seq<Piece>, t: Sql, words: seq<Token>, h: SqlHead, b: seq<Token>, eb: Sql, rest: seq<Token>)
    requires AsPrimary(last, t) && Dispatches(words, h) && Primary(b) == Ok(eb, rest) && Front(rest) != LBRACK
    ensures Negation(TokensOf(last) + (words + b)) == Ok(App(h, [t, eb]), rest)
  {
    var a := TokensOf(last) + (words + b);
    assert Phrase(last, t, words + b);
    PrimaryIsOperand(a, t, words + b);
    PrimaryIsOperand(b, eb, rest);
    assert Predicate(a) == Infix(h, t, b);
  }

  lemma InfixBeforeBare(l: Run, words: seq<Token>, h: SqlHead, r: Run, close: seq<Token>, e: Sql)
    requires GoodRun(l) && GoodRun(r) && !l.bare && r.bare && Dispatches(words, h)
    ensures Stray(TokensOf(RunPieces(l)) + (words + (TokensOf(RunPieces(r)) + close)), close, e)
  {
    var k, b := |l.parts| - 1, TokensOf(RunPieces(r)) + close;
    assert CutAt(b);
    var first := Primary(b);
    assert AsPrimary(l.parts[k], l.trees[k]);
    InfixNegation(l.parts[k], l.trees[k], words, h, b, first.v, first.rest);
    var x := App(h, [l.trees[k], first.v]);
    RowMerges(l, words + b, x, first.rest);
    StreamReads(TokensOf(RunPieces(l)) + (words + b), l.trees[..k] + [x], Copies(l.op, k), first.rest);
  }

  lemma InfixBetweenRows(l: Run, words: seq<Token>, h: SqlHead, r: Run, close: seq<Token>, e: Sql)
    requires GoodRun(l) && GoodRun(r) && !l.bare && !r.bare && !(Alone(l) && Alone(r)) && Dispatches(words, h)
    requires Front(close) == RPAREN && (e.App? ==> e.head != HAnd && e.head != HOr)
    ensures Stray(TokensOf(RunPieces(l)) + (words + (TokensOf(RunPieces(r)) + close)), close, e)
  {
    var k, b := |l.parts| - 1, TokensOf(RunPieces(r)) + close;
    var x := App(h, [l.trees[k], r.trees[0]]);
    var fs, ks := [x] + r.trees[1..], Copies(r.op, |r.parts| - 1);
    MiddleReads(l, words, h, r, close);
    PartsAreNegations(l);
    LastMerges(l.op, l.parts, l.trees, words + b, fs, ks, close);
    StreamStrays(TokensOf(RunPieces(l)) + (words + b), l.trees[..k] + fs, Copies(l.op, k) + ks, close, e);
  }

  /** From the last part on the left on. */
  lemma MiddleReads(l: Run, words: seq<Token>, h: SqlHead, r: Run, close: seq<Token>)
    requires GoodRun(l) && GoodRun(r) && !l.bare && !r.bare && Dispatches(words, h) && Front(close) == RPAREN
    ensures
      var k, b := |l.parts| - 1, TokensOf(RunPieces(r)) + close;
      var x := App(h, [l.trees[k], r.trees[0]]);
      Stream(TokensOf(l.parts[k]) + (words + b), [x] + r.trees[1..], Copies(r.op, |r.parts| - 1), close)
  {
    var k, b := |l.parts| - 1, TokensOf(RunPieces(r)) + close;
    var tail := TokensOf(JoinTail(r.parts[1..], BoolSeparator(r.op))) + close;
    FirstPart(r, close);
    assert AsPrimary(l.parts[k], l.trees[k]) && AsPrimary(r.parts[0], r.trees[0]);
    assert Phrase(r.parts[0], r.trees[0], tail);
    InfixNegation(l.parts[k], l.trees[k], words, h, b, r.trees[0], tail);
    PartsAreNegations(r);
    FirstMerges(TokensOf(l.parts[k]) + (words + b), App(h, [l.trees[k], r.trees[0]]), r.op, r.parts, r.trees, close);
  }

  /** A row starts with its first part, which a connective or the end follows. */
  lemma FirstPart(r: Run, close: seq<Token>)
    requires r.parts != []
    ensures
      var tail := TokensOf(JoinTail(r.parts[1..], BoolSeparator(r.op))) + close;
      && TokensOf(RunPieces(r)) + close == TokensOf(r.parts[0]) + tail
      && Front(tail) == if |r.parts| == 1 then Front(close) else BoolKw(r.op)
  {
    TokensSeparator(r.op);
    JoinTokens(r.parts, BoolSeparator(r.op), close);
    TailFront(r.parts[1..], BoolSeparator(r.op), BoolKw(r.op), close);
  }

  /** A prefix operator before an operand that is not a primary. */
  lemma PrefixStrays(o: string, r: Run, close: seq<Token>, e: Sql)
    requires GoodRun(r) && !Alone(r) && Front(close) == RPAREN && e.App? && e.head == HUnary(o)
    ensures Stray([Oper(o)] + (TokensOf(RunPieces(r)) + close), close, e)
  {
    var tail := TokensOf(JoinTail(r.parts[1..], BoolSeparator(r.op))) + close;
    var ts := [Oper(o)] + (TokensOf(RunPieces(r)) + close);
    var x := PrefixedPart(o, r, close);
    PartsAreNegations(r);
    FirstMerges(ts, x, r.op, r.parts, r.trees, close);
    if |r.parts| > 1 {
      StreamStrays(ts, [x] + r.trees[1..], Copies(r.op, |r.parts| - 1), close, e);
    } else {
      StreamReads(ts, [x] + r.trees[1..], Copies(r.op, 0), close);
    }
  }

  lemma PrefixedPart(o: string, r: Run, close: seq<Token>) returns (x: Sql)
    requires GoodRun(r) && Front(close) == RPAREN
    ensures Negation([Oper(o)] + (TokensOf(RunPieces(r)) + close)) ==
            Ok(x, TokensOf(JoinTail(r.parts[1..], BoolSeparator(r.op))) + close)
    ensures r.bare ==> x.App? && !x.head.HUnary?
  {
    var tail := TokensOf(JoinTail(r.parts[1..], BoolSeparator(r.op))) + close;
    var ts := [Oper(o)] + (TokensOf(RunPieces(r)) + close);
    FirstPart(r, close);
    if r.bare {
      assert PrefixTaken(o, TokensOf(r.parts[0]) + tail, tail);
      x := Negation(ts).v;
    } else {
      x := App(HUnary(o), [r.trees[0]]);
      assert AsPrimary(r.parts[0], r.trees[0]);
      assert Phrase(r.parts[0], r.trees[0], tail);
      PrefixedOperand(o, TokensOf(r.parts[0]) + tail, r.trees[0], tail);
      OperandIsPredicate(ts, x, tail);
    }
  }

  /** The words end a predicate over one operand. */
  ghost predicate EndsPredicate(words: seq<Token>) {
    words != [] && CarriesOn(words[0]) &&
    forall a, ea, b :: Operand(a) == Ok(ea, words + b) ==> Predicate(a).Ok? && Predicate(a).rest == b
  }

  /** A postfix predicate after an operand that is not a primary. */
  lemma PostfixStrays(l: Run, words: seq<Token>, close: seq<Token>, e: Sql)
    requires GoodRun(l) && !Alone(l) && Front(close) == RPAREN && EndsPredicate(words)
    requires e.App? && e.head != HAnd && e.head != HOr
    ensures Stray(TokensOf(RunPieces(l)) + (words + close), close, e)
  {
    if l.bare {
      BareRowStops(l, words + close, close, e);
    } else {
      var k := |l.parts| - 1;
      var a := TokensOf(l.parts[k]) + (words + close);
      assert AsPrimary(l.parts[k], l.trees[k]);
      assert Phrase(l.parts[k], l.trees[k], words + close);
      PrimaryIsOperand(a, l.trees[k], words + close);
      var x := Predicate(a).v;
      RowMerges(l, words + close, x, close);
      StreamStrays(TokensOf(RunPieces(l)) + (words + close), l.trees[..k] + [x], Copies(l.op, k), close, e);
    }
  }

  lemma NullTestEnds(isNull: bool)
    ensures EndsPredicate(NullTestWords(isNull))
  {
    forall a, ea, b | Operand(a) == Ok(ea, NullTestWords(isNull) + b)
      ensures Predicate(a).Ok? && Predicate(a).rest == b
    {
      var rest := NullTestWords(isNull) + b;
      assert rest[|NullTestWords(isNull)|..] == b;
    }
  }

  /** The words and the list of an IN predicate. */
  function InEnd(opname: string, elements: seq<seq<Piece>>): seq<Token> {
    InWords(opname) + ([LPAREN] + (TokensOf(JoinPieces(elements, ITEM_SEPARATOR)) + [RPAREN]))
  }

  lemma InEnds(opname: string, elements: seq<seq<Piece>>, es: seq<Sql>)
    requires elements != [] && AsBodies(elements, es)
    ensures EndsPredicate(InEnd(opname, elements))
  {
    forall a, ea, b | Operand(a) == Ok(ea, InEnd(opname, elements) + b)
      ensures Predicate(a).Ok? && Predicate(a).rest == b
    {
      var inner := TokensOf(JoinPieces(elements, ITEM_SEPARATOR)) + ([RPAREN] + b);
      InEndThen(opname, elements, b);
      ItemsRead(elements, es, [RPAREN] + b);
      InAfterOperand(a, ea, opname, inner, es, b);
      OperandStart(a);
    }
  }

  lemma InEndThen(opname: string, elements: seq<seq<Piece>>, b: seq<Token>)
    ensures InEnd(opname, elements) + b ==
            InWords(opname) + ([LPAREN] + (TokensOf(JoinPieces(elements, ITEM_SEPARATOR)) + ([RPAREN] + b)))
  {
  }

  lemma NotFirst(r: Run, close: seq<Token>)
    requires GoodRun(r) && Front(close) == RPAREN
    ensures Negation([Kw("not")] + (TokensOf(RunPieces(r)) + close)) ==
            Ok(App(HNot, [r.trees[0]]), TokensOf(JoinTail(r.parts[1..], BoolSeparator(r.op))) + close)
  {
    var tail := TokensOf(JoinTail(r.parts[1..], BoolSeparator(r.op))) + close;
    var ts := [Kw("not")] + (TokensOf(RunPieces(r)) + close);
    FirstPart(r, close);
    PartsAreNegations(r);
    assert AsNegation(r.parts[0], r.trees[0]);
    assert NegationPhrase(r.parts[0], r.trees[0], tail);
    assert ts[1..] == TokensOf(r.parts[0]) + tail;
  }

  /** NOT before a row takes its first part only. */
  lemma NotRow(r: Run, close: seq<Token>)
    requires GoodRun(r) && Front(close) == RPAREN
    ensures Stream([Kw("not")] + (TokensOf(RunPieces(r)) + close), [App(HNot, [r.trees[0]])] + r.trees[1..],
                   Copies(r.op, |r.parts| - 1), close)
  {
    var ts := [Kw("not")] + (TokensOf(RunPieces(r)) + close);
    NotFirst(r, close);
    PartsAreNegations(r);
    FirstMerges(ts, App(HNot, [r.trees[0]]), r.op, r.parts, r.trees, close);
  }

  /** So NOT before two or more parts is no NOT over them. */
  lemma NotStrays(r: Run, close: seq<Token>, e: Sql)
    requires GoodRun(r) && |r.parts| > 1 && Front(close) == RPAREN && e.App? && e.head == HNot
    ensures Stray([Kw("not")] + (TokensOf(RunPieces(r)) + close), close, e)
  {
    NotRow(r, close);
    StreamStrays([Kw("not")] + (TokensOf(RunPieces(r)) + close), [App(HNot, [r.trees[0]])] + r.trees[1..],
                 Copies(r.op, |r.parts| - 1), close, e);
  }

  // ---------- chains whose left side is itself a row ----------

  /** The bare comparisons of a row with each element: the last part on the left takes the operator. */
  lemma {:induction false} ChainStream(l: Run, o: string, op: BoolOp, rights: seq<seq<Piece>>, es: seq<Sql>,
                                       close: seq<Token>) returns (trees: seq<Sql>, ks: seq<BoolOp>)
    requires GoodRun(l) && !l.bare && !op.NotOp? && rights != [] && |rights| == |es| && Stops(Front(close))
    requires forall i :: 0 <= i < |es| ==> AsOperand(rights[i], es[i])
    ensures |trees| == |ks| + 1 && |ks| >= |l.parts| - 1 && (|l.parts| > 1 ==> trees[0] == l.trees[0])
    ensures Stream(TokensOf(JoinPieces(ComparisonPiecesAll(RunPieces(l), o, rights), BoolSeparator(op))) + close,
                   trees, ks, close)
    decreases |rights|
  {
    var k, L := |l.parts| - 1, RunPieces(l);
    var pss := ComparisonPiecesAll(L, o, rights);
    assert AsOperand(rights[0], es[0]);
    if |rights| == 1 {
      JoinedOne(op, pss);
      ComparisonTokens(L, o, rights[0], close);
      LastTakesOperator(l, o, rights[0], es[0], close);
      var x := ComparisonSql(l.trees[k], o, es[0]);
      RowMerges(l, [Oper(o)] + (TokensOf(rights[0]) + close), x, close);
      trees, ks := l.trees[..k] + [x], Copies(l.op, k);
    } else {
      var fs, ls := ChainStream(l, o, op, rights[1..], es[1..], close);
      assert pss[1..] == ComparisonPiecesAll(L, o, rights[1..]);
      trees, ks := ChainStep(l, o, op, rights[0], es[0], TokensOf(JoinPieces(pss[1..], BoolSeparator(op))) + close,
                             fs, ls, close);
      JoinStep(op, pss, close);
    }
  }

  /** One comparison in front of the others. */
  lemma ChainStep(l: Run, o: string, op: BoolOp, right: seq<Piece>, e: Sql, us: seq<Token>, fs: seq<Sql>,
                  ls: seq<BoolOp>, close: seq<Token>) returns (trees: seq<Sql>, ks: seq<BoolOp>)
    requires GoodRun(l) && !l.bare && !op.NotOp? && AsOperand(right, e) && Stream(us, fs, ls, close)
    ensures |trees| == |ks| + 1 && |ks| >= |l.parts| - 1 && (|l.parts| > 1 ==> trees[0] == l.trees[0])
    ensures Stream(TokensOf(ComparisonPieces(RunPieces(l), o, right)) + ([BoolKw(op)] + us), trees, ks, close)
  {
    var k, more := |l.parts| - 1, [BoolKw(op)] + us;
    var x, rest := ComparisonSql(l.trees[k], o, e), [Oper(o)] + (TokensOf(right) + more);
    ComparisonTokens(RunPieces(l), o, right, more);
    LastTakesOperator(l, o, right, e, more);
    ThenStream(TokensOf(l.parts[k]) + rest, x, op, us, fs, ls, close);
    RowThenStream(l, rest, [x] + fs, [op] + ls, close);
    trees, ks := l.trees[..k] + ([x] + fs), Copies(l.op, k) + ([op] + ls);
    SameStream(TokensOf(RunPieces(l)) + rest, TokensOf(ComparisonPieces(RunPieces(l), o, right)) + more,
               trees, trees, ks, ks, close);
  }

  lemma RowThenStream(l: Run, rest: seq<Token>, fs: seq<Sql>, ls: seq<BoolOp>, close: seq<Token>)
    requires GoodRun(l) && Stream(TokensOf(l.parts[|l.parts| - 1]) + rest, fs, ls, close)
    ensures Stream(TokensOf(RunPieces(l)) + rest, l.trees[..|l.parts| - 1] + fs, Copies(l.op, |l.parts| - 1) + ls,
                   close)
  {
    PartsAreNegations(l);
    LastMerges(l.op, l.parts, l.trees, rest, fs, ls, close);
  }

  lemma ThenStream(ts: seq<Token>, x: Sql, op: BoolOp, us: seq<Token>, fs: seq<Sql>, ls: seq<BoolOp>, close: seq<Token>)
    requires Negation(ts) == Ok(x, [BoolKw(op)] + us) && !op.NotOp? && Stream(us, fs, ls, close)
    ensures Stream(ts, [x] + fs, [op] + ls, close)
  {
    assert ([BoolKw(op)] + us)[1..] == us && ([x] + fs)[1..] == fs && ([op] + ls)[1..] == ls;
  }

  lemma LastTakesOperator(l: Run, o: string, right: seq<Piece>, e: Sql, rest: seq<Token>)
    requires GoodRun(l) && !l.bare && AsOperand(right, e) && Front(rest) != LBRACK
    ensures
      var k := |l.parts| - 1;
      Negation(TokensOf(l.parts[k]) + ([Oper(o)] + (TokensOf(right) + rest))) ==
        Ok(ComparisonSql(l.trees[k], o, e), rest)
  {
    var k, b := |l.parts| - 1, TokensOf(right) + rest;
    assert AsPrimary(l.parts[k], l.trees[k]);
    assert Phrase(l.parts[k], l.trees[k], [Oper(o)] + b);
    assert OperandPhrase(right, e, rest);
    ComparisonReads(TokensOf(l.parts[k]) + ([Oper(o)] + b), l.trees[k], o, b, e, rest);
  }

  lemma NotItsOwnOperand(t: Sql, h: SqlHead, o: string, trees: seq<Sql>, x: Sql)
    requires trees != []
    ensures trees[0] != App(HBinary(o), [App(h, trees), x])
  {
    var inner := App(h, trees);
    var outer := App(HBinary(o), [inner, x]);
    assert outer.args[0] == inner && inner.args[0] == trees[0];
  }

  /** Bare comparisons of an operand that is not a primary. */
  lemma ChainStrays(l: Run, o: string, op: BoolOp, rights: seq<seq<Piece>>, es: seq<Sql>, close: seq<Token>)
    requires GoodRun(l) && !Alone(l) && !op.NotOp? && rights != [] && |rights| == |es| && Front(close) == RPAREN
    requires forall i :: 0 <= i < |es| ==> AsOperand(rights[i], es[i])
    ensures Stray(TokensOf(JoinPieces(ComparisonPiecesAll(RunPieces(l), o, rights), BoolSeparator(op))) + close, close,
                  if |es| == 1 then ComparisonSql(RunTree(l), o, es[0])
                  else App(BoolHead(op), ComparisonSqls(RunTree(l), o, es)))
  {
    var pss := ComparisonPiecesAll(RunPieces(l), o, rights);
    var ts := TokensOf(JoinPieces(pss, BoolSeparator(op))) + close;
    var e := if |es| == 1 then ComparisonSql(RunTree(l), o, es[0])
             else App(BoolHead(op), ComparisonSqls(RunTree(l), o, es));
    if l.bare {
      var tail := TokensOf(JoinTail(pss[1..], BoolSeparator(op))) + close;
      JoinTokens(pss, BoolSeparator(op), close);
      ComparisonTokens(RunPieces(l), o, rights[0], tail);
      BareRowStops(l, [Oper(o)] + (TokensOf(rights[0]) + tail), close, e);
    } else {
      var trees, ks := ChainStream(l, o, op, rights, es, close);
      StreamReads(ts, trees, ks, close);
      FlatHead(trees, ks);
      NotItsOwnOperand(trees[0], BoolHead(l.op), o, l.trees, es[0]);
    }
  }

  // ---------- rows of parentheses, some of them misread ----------

  /** The pieces read as something else than `e`, or not at all. */
  predicate MisPhrase(ps: seq<Piece>, e: Sql, rest: seq<Token>) {
    var r := Primary(TokensOf(ps) + rest);
    r.Fail? || (r.rest == rest && r.v != e)
  }

  ghost predicate Misread(ps: seq<Piece>, e: Sql) {
    forall rest :: Follows(Front(rest)) ==> MisPhrase(ps, e, rest)
  }

  lemma StrayInParens(inner: seq<Token>, rest: seq<Token>, e: Sql)
    requires Stray(inner, [RPAREN] + rest, e)
    ensures var r := Primary([LPAREN] + inner); r.Fail? || (r.rest == rest && r.v != e)
  {
    assert ([LPAREN] + inner)[1..] == inner && ([RPAREN] + rest)[1..] == rest;
  }

  /** The reading of the row breaks off in one of its parts. */
  predicate Breaks(op: BoolOp, ts: seq<Token>, n: nat)
    decreases n
  {
    n > 0 &&
    match Negation(ts)
    case Fail => true
    case Ok(_, rest) => rest != [] && rest[0] == BoolKw(op) && Breaks(op, rest[1..], n - 1)
  }

  lemma {:induction false} BreakFails(op: BoolOp, ts: seq<Token>, n: nat)
    requires Breaks(op, ts, n) && !op.NotOp?
    ensures Body(ts).Fail?
    ensures Negation(ts).Ok? && op.AndOp? ==> AndTail(Negation(ts).rest).Fail?
    ensures Negation(ts).Ok? && op.OrOp? ==>
              AndTail(Negation(ts).rest) == Ok([], Negation(ts).rest) && OrTail(Negation(ts).rest).Fail?
    decreases n
  {
    if Negation(ts).Ok? {
      var rest := Negation(ts).rest;
      BreakFails(op, rest[1..], n - 1);
      if Negation(rest[1..]).Fail? {
        assert Conjunction(rest[1..]).Fail?;
      } else if op.OrOp? {
        assert Conjunction(rest[1..]).Ok?;
      }
      if op.AndOp? {
        assert AndTail(rest).Fail?;
        assert Conjunction(ts).Fail?;
      } else {
        assert AndTail(rest) == Ok([], rest) && OrTail(rest).Fail?;
        assert Conjunction(ts) == Ok(Negation(ts).v, rest);
      }
    } else {
      assert Conjunction(ts).Fail?;
    }
  }

  /** A text in parentheses that reads as its tree, or is misread. */
  ghost predicate PartReads(ps: seq<Piece>, e: Sql) {
    Front(TokensOf(ps)) == LPAREN && (AsPrimary(ps, e) || Misread(ps, e))
  }

  lemma PartOutcome(ps: seq<Piece>, e: Sql, tail: seq<Token>)
    requires PartReads(ps, e) && Stops(Front(tail))
    ensures
      var r := Negation(TokensOf(ps) + tail);
      r.Fail? || (r.rest == tail && (Misread(ps, e) ==> r.v != e))
  {
    var ts := TokensOf(ps) + tail;
    assert ts[0] == LPAREN;
    assert AsPrimary(ps, e) ==> Phrase(ps, e, tail);
    assert Misread(ps, e) ==> MisPhrase(ps, e, tail);
    var r := Primary(ts);
    if r.Fail? {
      assert Indexed(ts).Fail? && Operand(ts).Fail? && Predicate(ts).Fail?;
    } else {
      PrimaryIsNegation(ts, r.v, tail);
    }
  }

  /** The row breaks off, or is read as these trees. */
  predicate Outcome(op: BoolOp, ts: seq<Token>, n: nat, xs: Option<seq<Sql>>, close: seq<Token>) {
    match xs
    case None => Breaks(op, ts, n)
    case Some(fs) => n > 0 && Stream(ts, fs, Copies(op, n - 1), close)
  }

  /** What becomes of the row: it breaks off, or reads as a row of trees, wrong where a part is misread. */
  lemma {:induction false} RowOutcome(op: BoolOp, pss: seq<seq<Piece>>, es: seq<Sql>, bad: nat, ts: seq<Token>,
                                      close: seq<Token>)
    returns (xs: Option<seq<Sql>>)
    requires pss != [] && |pss| == |es| && !op.NotOp? && Stops(Front(close))
    requires forall i :: 0 <= i < |pss| ==> PartReads(pss[i], es[i])
    requires bad < |pss| ==> Misread(pss[bad], es[bad])
    requires ts == TokensOf(JoinPieces(pss, BoolSeparator(op))) + close
    ensures Outcome(op, ts, |pss|, xs, close)
    ensures xs.Some? ==> |xs.value| == |pss| && (bad < |pss| ==> xs.value[bad] != es[bad])
    decreases |pss|
  {
    FirstOutcome(op, pss, es, close);
    FirstOnly(op, ts, |pss|, close);
    var first := Negation(ts);
    if first.Fail? {
      xs := None;
    } else if |pss| == 1 {
      xs := Some([first.v]);
    } else {
      var us := TokensOf(JoinPieces(pss[1..], BoolSeparator(op))) + close;
      var more := RowOutcome(op, pss[1..], es[1..], if bad == 0 then |pss| else bad - 1, us, close);
      xs := AddFirst(op, ts, us, first.v, more, |pss| - 1, close);
    }
  }

  /** A row that breaks off at once, or has one part. */
  lemma FirstOnly(op: BoolOp, ts: seq<Token>, n: nat, close: seq<Token>)
    requires n > 0
    ensures Negation(ts).Fail? ==> Outcome(op, ts, n, None, close)
    ensures Negation(ts).Ok? && Negation(ts).rest == close ==> Outcome(op, ts, 1, Some([Negation(ts).v]), close)
  {
  }

  /** The outcome of a row, from those of its first part and of the others. */
  lemma AddFirst(op: BoolOp, ts: seq<Token>, us: seq<Token>, x: Sql, more: Option<seq<Sql>>, n: nat, close: seq<Token>)
    returns (xs: Option<seq<Sql>>)
    requires Negation(ts) == Ok(x, [BoolKw(op)] + us) && !op.NotOp? && Outcome(op, us, n, more, close)
    ensures xs == if more.None? then None else Some([x] + more.value)
    ensures Outcome(op, ts, n + 1, xs, close)
  {
    if more.None? {
      BreakAfter(op, ts, us, n);
      xs := None;
    } else {
      FirstInRow(ts, x, op, us, more.value, n - 1, close);
      xs := Some([x] + more.value);
    }
  }

  lemma BreakAfter(op: BoolOp, ts: seq<Token>, us: seq<Token>, n: nat)
    requires Negation(ts).Ok? && Negation(ts).rest == [BoolKw(op)] + us
    ensures Breaks(op, us, n) ==> Breaks(op, ts, n + 1)
  {
    assert ([BoolKw(op)] + us)[1..] == us;
  }

  lemma FirstInRow(ts: seq<Token>, x: Sql, op: BoolOp, us: seq<Token>, fs: seq<Sql>, n: nat, close: seq<Token>)
    requires Negation(ts) == Ok(x, [BoolKw(op)] + us) && !op.NotOp? && Stream(us, fs, Copies(op, n), close)
    ensures Stream(ts, [x] + fs, Copies(op, n + 1), close)
  {
    ThenStream(ts, x, op, us, fs, Copies(op, n), close);
    RegroupCopies(op, n, []);
    SameStream(ts, ts, [x] + fs, [x] + fs, [op] + Copies(op, n), Copies(op, n + 1), close);
  }

  /** The first part of the row breaks it off, or is read and leaves the others. */
  lemma FirstOutcome(op: BoolOp, pss: seq<seq<Piece>>, es: seq<Sql>, close: seq<Token>)
    requires pss != [] && |pss| == |es| && !op.NotOp? && Stops(Front(close)) && PartReads(pss[0], es[0])
    ensures
      var r := Negation(TokensOf(JoinPieces(pss, BoolSeparator(op))) + close);
      r.Fail? ||
      (r.rest == (if |pss| == 1 then close
                  else [BoolKw(op)] + (TokensOf(JoinPieces(pss[1..], BoolSeparator(op))) + close))
       && (Misread(pss[0], es[0]) ==> r.v != es[0]))
  {
    FirstPart(Run(pss, es, op, false), close);
    PartOutcome(pss[0], es[0], TokensOf(JoinTail(pss[1..], BoolSeparator(op))) + close);
    if |pss| > 1 {
      RestTokens(op, pss, close);
    }
  }

  lemma RestTokens(op: BoolOp, pss: seq<seq<Piece>>, close: seq<Token>)
    requires |pss| > 1
    ensures TokensOf(JoinTail(pss[1..], BoolSeparator(op))) + close ==
            [BoolKw(op)] + (TokensOf(JoinPieces(pss[1..], BoolSeparator(op))) + close)
  {
    TokensSeparator(op);
    JoinTokens(pss[1..], BoolSeparator(op), close);
  }

  /** A row of parentheses of which one is misread is not read as the AND or OR over all of them. */
  lemma RowStrays(op: BoolOp, pss: seq<seq<Piece>>, es: seq<Sql>, bad: nat, close: seq<Token>)
    requires |pss| == |es| && !op.NotOp? && Front(close) == RPAREN
    requires forall i :: 0 <= i < |pss| ==> PartReads(pss[i], es[i])
    requires bad < |pss| && Misread(pss[bad], es[bad])
    ensures Stray(TokensOf(JoinPieces(pss, BoolSeparator(op))) + close, close,
                  if |es| == 1 then es[0] else App(BoolHead(op), es))
  {
    var ts := TokensOf(JoinPieces(pss, BoolSeparator(op))) + close;
    var xs := RowOutcome(op, pss, es, bad, ts, close);
    if xs.None? {
      BreakFails(op, ts, |pss|);
    } else {
      StreamReads(ts, xs.value, Copies(op, |pss| - 1), close);
      FlatCopies(op, xs.value);
    }
  }

  lemma {:induction false} OrGroups(es: seq<Sql>, n: nat)
    requires |es| == n + 1
    ensures Conjuncts(Groups(es, Copies(OrOp, n))) == es
  {
    if n > 0 {
      RegroupCopies(OrOp, n - 1, []);
      OrGroups(es[1..], n - 1);
      var gs := Groups(es[1..], Copies(OrOp, n - 1));
      assert Groups(es, Copies(OrOp, n)) == [[es[0]]] + gs;
      assert Conjuncts([[es[0]]] + gs)[1..] == Conjuncts(gs);
    }
  }

  /** A row with one connective throughout. */
  lemma FlatCopies(op: BoolOp, es: seq<Sql>)
    requires es != [] && !op.NotOp?
    ensures FlatTree(es, Copies(op, |es| - 1)) == if |es| == 1 then es[0] else App(BoolHead(op), es)
  {
    if op.AndOp? {
      OneGroup(es, Copies(op, |es| - 1));
    } else {
      OrGroups(es, |es| - 1);
    }
  }
}
