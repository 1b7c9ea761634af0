/** What becomes of a chain of comparisons inside AND or under NOT, where the server regroups it: the
    tree it reads, and exactly when that tree has the value of the expression all the same.
 */
module NestedChains {
  import opened Nodes
  import opened Lexical
  import opened Reader
  import opened ArrayPieces
  import opened Deparse
  import opened Phrases
  import opened ArrayRead
  import opened RoundTrip
  import opened Spacing
  import opened Semantics
  import opened ArrayCompare
  import opened Preservation
  import opened Streams
  import opened Positions

  // ---------- truth values ----------

  /** In the order FALSE, NULL, TRUE. */
  predicate NotTruer(a: Value, b: Value) {
    a == FALSE || b == TRUE || (a != TRUE && b != FALSE)
  }

  /** In it AND is the greatest lower bound, and OR the least upper bound. */
  lemma BelowAnd(x: Value, vs: seq<Value>)
    ensures NotTruer(x, And3(vs)) <==> forall i :: 0 <= i < |vs| ==> NotTruer(x, vs[i])
  {
  }

  lemma AboveOr(x: Value, vs: seq<Value>)
    ensures NotTruer(Or3(vs), x) <==> forall i :: 0 <= i < |vs| ==> NotTruer(vs[i], x)
  {
  }

  /** It is total, so what is below an OR is below one of its parts. */
  lemma BelowOr(x: Value, vs: seq<Value>) returns (i: nat)
    requires NotTruer(x, Or3(vs)) && vs != []
    ensures i < |vs| && NotTruer(x, vs[i])
  {
    if x == TRUE {
      i :| 0 <= i < |vs| && vs[i] == TRUE;
    } else if exists k :: 0 <= k < |vs| && vs[k] != FALSE {
      i :| 0 <= i < |vs| && vs[i] != FALSE;
    } else {
      i := 0;
      assert vs[0] == FALSE;
    }
  }

  lemma SameTruth(a: Value, b: Value)
    requires IsTruth(a) && IsTruth(b)
    ensures a == b <==> NotTruer(a, b) && NotTruer(b, a)
  {
  }

  lemma PairTruth(a: Value, b: Value)
    ensures And3([a, b]) == if a == FALSE || b == FALSE then FALSE else if a == TRUE && b == TRUE then TRUE else NullV
    ensures Or3([a, b]) == if a == TRUE || b == TRUE then TRUE else if a == FALSE && b == FALSE then FALSE else NullV
  {
    assert [a, b][0] == a && [a, b][1] == b;
  }

  lemma TripleTruth(op: BoolOp, a: Value, b: Value, c: Value)
    ensures Bool3(op, [a, b, c]) == Bool3(op, [Bool3(op, [a, b]), c])
  {
    Bool3Append(op, [a, b], [c]);
    assert [a, b] + [c] == [a, b, c];
    PairTruth(Bool3(op, [a, b]), Bool3(op, [c]));
    PairTruth(Bool3(op, [a, b]), c);
    assert [c][0] == c;
  }

  /** `p AND (c OR m OR e) AND q` regrouped as `(p AND c) OR m OR (e AND q)`: the same truth exactly where
      no part that has come loose is truer than what it was joined to. */
  lemma RegroupedTruth(p: Value, c: Value, m: Value, e: Value, q: Value)
    requires IsTruth(p) && IsTruth(c) && IsTruth(m) && IsTruth(e) && IsTruth(q)
    ensures Or3([And3([p, c]), m, And3([e, q])]) == And3([p, Or3([c, m, e]), q])
            <==> NotTruer(And3([p, c]), q) && NotTruer(m, And3([p, q])) && NotTruer(And3([e, q]), p)
  {
    TripleTruth(OrOp, And3([p, c]), m, And3([e, q]));
    TripleTruth(OrOp, c, m, e);
    TripleTruth(AndOp, p, Or3([c, m, e]), q);
    PairTruth(p, c);
    PairTruth(e, q);
    PairTruth(p, q);
    PairTruth(And3([p, c]), m);
    PairTruth(Or3([And3([p, c]), m]), And3([e, q]));
    PairTruth(c, m);
    PairTruth(Or3([c, m]), e);
    PairTruth(p, Or3([c, m, e]));
    PairTruth(And3([p, Or3([c, m, e])]), q);
  }

  /** `NOT (c OR m)` regrouped as `(NOT c) OR m`, and the same with AND. */
  lemma NegatedTruth(op: BoolOp, c: Value, m: Value)
    requires IsTruth(c) && IsTruth(m) && !op.NotOp?
    ensures Bool3(op, [Not3(c), m]) == Not3(Bool3(op, [c, m])) <==>
            m == BoolV(op.AndOp?) || (m == NullV && c == NullV)
  {
    PairTruth(Not3(c), m);
    PairTruth(c, m);
  }

  // ---------- the regrouped tree ----------

  /** Each tree alone. */
  function Singles(es: seq<Sql>): (r: seq<seq<Sql>>)
    ensures |r| == |es| && forall i :: 0 <= i < |es| ==> r[i] == [es[i]]
  {
    if es == [] then [] else [[es[0]]] + Singles(es[1..])
  }

  /** A chain with AND arguments before and after it: the first and the last comparison go to them. */
  function Regrouped(before: seq<Sql>, chain: seq<Sql>, after: seq<Sql>): Sql
    requires |chain| >= 2
  {
    var n := |chain| - 1;
    App(HOr, [Conjunct(before + [chain[0]])] + (chain[1..n] + [Conjunct([chain[n]] + after)]))
  }

  lemma GroupsCons(x: Sql, ys: seq<Sql>, op: BoolOp, ks: seq<BoolOp>)
    requires |ys| == |ks| + 1
    ensures
      var gs := Groups(ys, ks);
      Groups([x] + ys, [op] + ks) == if op.OrOp? then [[x]] + gs else [[x] + gs[0]] + gs[1..]
  {
    assert ([x] + ys)[1..] == ys && ([op] + ks)[1..] == ks;
  }

  lemma SameGroups(es: seq<Sql>, fs: seq<Sql>, ks: seq<BoolOp>, ls: seq<BoolOp>)
    requires |es| == |ks| + 1 && es == fs && ks == ls
    ensures Groups(es, ks) == Groups(fs, ls)
  {
  }

  lemma FirstBack<T>(es: seq<T>, fs: seq<T>)
    requires es != []
    ensures es + fs == [es[0]] + (es[1..] + fs)
  {
  }

  lemma GroupJoin(x: Sql, es: seq<Sql>, gs: seq<seq<Sql>>)
    requires gs != []
    ensures ([[x] + (es + gs[0])] + gs[1..])[0] == ([x] + es) + gs[0]
    ensures ([es + gs[0]] + gs[1..])[0] == es + gs[0] && ([es + gs[0]] + gs[1..])[1..] == gs[1..]
  {
  }

  lemma {:induction false} GroupsOfAnds(es: seq<Sql>, fs: seq<Sql>, ks: seq<BoolOp>)
    requires |fs| == |ks| + 1
    ensures
      var gs := Groups(fs, ks);
      Groups(es + fs, Copies(AndOp, |es|) + ks) == [es + gs[0]] + gs[1..]
  {
    var gs := Groups(fs, ks);
    if es == [] {
      NoAnds(fs, ks);
      SameGroups(es + fs, fs, Copies(AndOp, 0) + ks, ks);
    } else {
      var more := Copies(AndOp, |es| - 1) + ks;
      GroupsOfAnds(es[1..], fs, ks);
      GroupsCons(es[0], es[1..] + fs, AndOp, more);
      RegroupCopies(AndOp, |es| - 1, ks);
      FirstBack(es, fs);
      SameGroups(es + fs, [es[0]] + (es[1..] + fs), Copies(AndOp, |es|) + ks, [AndOp] + more);
      GroupJoin(es[0], es[1..], gs);
      assert [es[0]] + es[1..] == es;
    }
  }

  lemma NoAnds(fs: seq<Sql>, ks: seq<BoolOp>)
    requires |fs| == |ks| + 1
    ensures [] + fs == fs && Copies(AndOp, 0) + ks == ks
    ensures [[] + Groups(fs, ks)[0]] + Groups(fs, ks)[1..] == Groups(fs, ks)
  {
    assert [] + Groups(fs, ks)[0] == Groups(fs, ks)[0];
  }

  lemma {:induction false} GroupsOfOrs(chain: seq<Sql>, after: seq<Sql>)
    requires chain != []
    ensures
      var n := |chain| - 1;
      Groups(chain + after, Copies(OrOp, n) + Copies(AndOp, |after|)) == Singles(chain[..n]) + [[chain[n]] + after]
  {
    var n, ands := |chain| - 1, Copies(AndOp, |after|);
    if n == 0 {
      assert Copies(OrOp, 0) + ands == ands;
      LoneGroup(chain, after, ands);
    } else {
      var ks, x := Copies(OrOp, n - 1) + ands, chain[0];
      GroupsOfOrs(chain[1..], after);
      GroupsCons(x, chain[1..] + after, OrOp, ks);
      RegroupCopies(OrOp, n - 1, ands);
      FirstBack(chain, after);
      SameGroups(chain + after, [x] + (chain[1..] + after), Copies(OrOp, n) + ands, [OrOp] + ks);
      SinglesCons(chain, n, [[chain[n]] + after]);
    }
  }

  lemma LoneGroup(chain: seq<Sql>, after: seq<Sql>, ands: seq<BoolOp>)
    requires |chain| == 1 && ands == Copies(AndOp, |after|)
    ensures Groups(chain + after, ands) == Singles(chain[..0]) + [[chain[0]] + after]
  {
    OneGroup(chain + after, ands);
    assert chain == [chain[0]];
  }

  lemma SinglesCons(chain: seq<Sql>, n: nat, rest: seq<seq<Sql>>)
    requires 0 < n == |chain| - 1
    ensures [[chain[0]]] + (Singles(chain[1..][..n - 1]) + rest) == Singles(chain[..n]) + rest
  {
    assert chain[..n][1..] == chain[1..][..n - 1];
  }

  /** The row of an AND over a chain and other conjuncts is the regrouped tree. */
  lemma RowRegroups(before: seq<Sql>, chain: seq<Sql>, after: seq<Sql>)
    requires |chain| >= 2
    ensures FlatTree(before + (chain + after),
                     Copies(AndOp, |before|) + (Copies(OrOp, |chain| - 1) + Copies(AndOp, |after|)))
            == Regrouped(before, chain, after)
  {
    var n := |chain| - 1;
    var ks := Copies(OrOp, n) + Copies(AndOp, |after|);
    GroupsOfAnds(before, chain + after, ks);
    GroupsOfOrs(chain, after);
    RegroupedGroups(before, chain, after, Groups(chain + after, ks));
  }

  lemma RegroupedGroups(before: seq<Sql>, chain: seq<Sql>, after: seq<Sql>, gs: seq<seq<Sql>>)
    requires |chain| >= 2
    requires gs == Singles(chain[..|chain| - 1]) + [[chain[|chain| - 1]] + after]
    ensures Conjuncts([before + gs[0]] + gs[1..]) == Regrouped(before, chain, after).args
    ensures |[before + gs[0]] + gs[1..]| > 1
  {
    var n := |chain| - 1;
    var all := [before + gs[0]] + gs[1..];
    var items := [Conjunct(before + [chain[0]])] + (chain[1..n] + [Conjunct([chain[n]] + after)]);
    assert gs[0] == [chain[0]];
    forall i | 0 <= i < |all|
      ensures Conjunct(all[i]) == items[i]
    {
      if 0 < i < n {
        assert all[i] == gs[i] && gs[i] == [chain[i]];
      }
    }
  }

  // ---------- the row of an AND ----------

  /** None of them is an OR chain. */
  predicate NoOrChain(es: seq<Expr>) {
    forall i :: 0 <= i < |es| ==> FormOf(es[i]) != ChainForm(OrOp)
  }

  lemma {:induction false} AndRow(d: Dialect, cx: DeparseCxt, es: seq<Expr>)
    requires cx.quotable && AllReadable(d, cx, es) && NoOrChain(es)
    ensures es != [] ==> RowTrees(cx.rel, es) != [] && RowOps(cx.rel, es) == Copies(AndOp, |RowTrees(cx.rel, es)| - 1)
    ensures RowTrees(cx.rel, es) == EraseArguments(cx.rel, AndOp, es)
  {
    if es != [] {
      RunIsGood(d, cx, es[0]);
      AndRow(d, cx, es[1..]);
      RowStep(cx.rel, es);
      OneConjunct(cx.rel, es[0]);
      if |es| > 1 {
        CopiesJoin(AndOp, |OperandTrees(cx.rel, es[0])| - 1, |RowTrees(cx.rel, es[1..])| - 1);
      }
    }
  }

  lemma OneConjunct(rel: Rel, e: Expr)
    requires FormOf(e) != ChainForm(OrOp)
    ensures OperandTrees(rel, e) == Splice(AndOp, FormOf(e), Erase(rel, e)) && OperandOp(e) == AndOp
  {
    if FormOf(e).ChainForm? {
      ChainErases(rel, e);
    }
  }

  lemma CopiesJoin(op: BoolOp, a: nat, b: nat)
    ensures Copies(op, a) + ([op] + Copies(op, b)) == Copies(op, a + b + 1)
    ensures Copies(op, a) + Copies(op, b) == Copies(op, a + b)
  {
  }

  /** The row is an AND row, the chain, and another AND row. */
  predicate RowSplits(rel: Rel, args: seq<Expr>, before: seq<Sql>, chain: seq<Sql>, after: seq<Sql>) {
    && |chain| >= 2
    && RowTrees(rel, args) == before + (chain + after)
    && RowOps(rel, args) == Copies(AndOp, |before|) + (Copies(OrOp, |chain| - 1) + Copies(AndOp, |after|))
  }

  /** The row around the one OR chain. */
  lemma {:induction false} RowAround(d: Dialect, cx: DeparseCxt, args: seq<Expr>, k: nat)
    requires cx.quotable && AllReadable(d, cx, args) && k < |args|
    requires FormOf(args[k]) == ChainForm(OrOp) && NoOrChain(args[..k]) && NoOrChain(args[k + 1..])
    ensures RowSplits(cx.rel, args, RowTrees(cx.rel, args[..k]), OperandTrees(cx.rel, args[k]),
                      RowTrees(cx.rel, args[k + 1..]))
  {
    if k == 0 {
      RowAfter(d, cx, args);
    } else {
      assert NoOrChain(args[1..][..k - 1]) by {
        assert args[1..][..k - 1] == args[..k][1..];
      }
      assert args[1..][k..] == args[k + 1..];
      RowAround(d, cx, args[1..], k - 1);
      RowBefore(d, cx, args, k);
      RowGrows(cx.rel, args, OperandTrees(cx.rel, args[0]), RowTrees(cx.rel, args[1..][..k - 1]),
               OperandTrees(cx.rel, args[k]), RowTrees(cx.rel, args[k + 1..]));
    }
  }

  lemma RowGrows(rel: Rel, args: seq<Expr>, first: seq<Sql>, before: seq<Sql>, chain: seq<Sql>, after: seq<Sql>)
    requires args != [] && RowSplits(rel, args[1..], before, chain, after)
    requires RowTrees(rel, args) == first + RowTrees(rel, args[1..])
    requires RowOps(rel, args) == Copies(AndOp, |first|) + RowOps(rel, args[1..])
    ensures RowSplits(rel, args, first + before, chain, after)
  {
    var ks := Copies(OrOp, |chain| - 1) + Copies(AndOp, |after|);
    Rejoined(first, before, chain + after);
    CopiesJoin(AndOp, |first|, |before|);
    Rejoined(Copies(AndOp, |first|), Copies(AndOp, |before|), ks);
  }

  lemma Rejoined<T>(a: seq<T>, b: seq<T>, c: seq<T>)
    ensures a + (b + c) == (a + b) + c
  {
  }

  lemma RowAfter(d: Dialect, cx: DeparseCxt, args: seq<Expr>)
    requires cx.quotable && AllReadable(d, cx, args) && args != [] && FormOf(args[0]) == ChainForm(OrOp)
    requires NoOrChain(args[1..])
    ensures RowSplits(cx.rel, args, RowTrees(cx.rel, args[..0]), OperandTrees(cx.rel, args[0]),
                      RowTrees(cx.rel, args[1..]))
  {
    var chain, after := OperandTrees(cx.rel, args[0]), RowTrees(cx.rel, args[1..]);
    RunIsGood(d, cx, args[0]);
    RowStep(cx.rel, args);
    AndRow(d, cx, args[1..]);
    assert args[..0] == [];
    if |args| > 1 {
      CopiesJoin(AndOp, 0, |after| - 1);
      assert [AndOp] + Copies(AndOp, |after| - 1) == Copies(AndOp, |after|);
    } else {
      assert args[1..] == [];
    }
  }

  lemma RowBefore(d: Dialect, cx: DeparseCxt, args: seq<Expr>, k: nat)
    requires cx.quotable && AllReadable(d, cx, args) && 0 < k < |args| && NoOrChain(args[..k])
    ensures OperandTrees(cx.rel, args[0]) != [] && OperandOp(args[0]) == AndOp
    ensures RowTrees(cx.rel, args[..k]) == OperandTrees(cx.rel, args[0]) + RowTrees(cx.rel, args[1..][..k - 1])
    ensures RowTrees(cx.rel, args) == OperandTrees(cx.rel, args[0]) + RowTrees(cx.rel, args[1..])
    ensures RowOps(cx.rel, args) == Copies(AndOp, |OperandTrees(cx.rel, args[0])|) + RowOps(cx.rel, args[1..])
  {
    RunIsGood(d, cx, args[0]);
    RowStep(cx.rel, args);
    assert args[..k][0] == args[0] && args[..k][1..] == args[1..][..k - 1];
    assert FormOf(args[..k][0]) != ChainForm(OrOp);
    OneConjunct(cx.rel, args[0]);
    MoreCopies(|OperandTrees(cx.rel, args[0])| - 1, RowOps(cx.rel, args[1..]));
  }

  lemma MoreCopies(n: nat, ks: seq<BoolOp>)
    ensures Copies(AndOp, n) + ([AndOp] + ks) == Copies(AndOp, n + 1) + ks
  {
  }

  /** What the server reads for an AND over readable arguments of which one is an OR chain. */
  lemma NestedChainReads(d: Dialect, cx: DeparseCxt, e: Expr, k: nat)
    requires ValidDialect(d) && cx.quotable && GoodArguments(d, cx, e) && e.head.Bool? && e.head.op.AndOp?
    requires k < |e.args| && FormOf(e.args[k]) == ChainForm(OrOp)
    requires NoOrChain(e.args[..k]) && NoOrChain(e.args[k + 1..])
    ensures |OperandTrees(cx.rel, e.args[k])| >= 2
    ensures ReadText(d, Shown(d, cx, e)) ==
            Some(Regrouped(EraseArguments(cx.rel, AndOp, e.args[..k]), OperandTrees(cx.rel, e.args[k]),
                           EraseArguments(cx.rel, AndOp, e.args[k + 1..])))
  {
    ArgumentRuns(d, cx, e);
    RowAround(d, cx, e.args, k);
    AndRow(d, cx, e.args[..k]);
    AndRow(d, cx, e.args[k + 1..]);
    RowReads(d, cx, e, EraseArguments(cx.rel, AndOp, e.args[..k]), OperandTrees(cx.rel, e.args[k]),
             EraseArguments(cx.rel, AndOp, e.args[k + 1..]));
  }

  lemma RowReads(d: Dialect, cx: DeparseCxt, e: Expr, before: seq<Sql>, chain: seq<Sql>, after: seq<Sql>)
    requires ValidDialect(d) && cx.quotable && GoodArguments(d, cx, e) && e.head.Bool? && e.head.op.AndOp?
    requires RowSplits(cx.rel, e.args, before, chain, after)
    ensures ReadText(d, Shown(d, cx, e)) == Some(Regrouped(before, chain, after))
  {
    AndReadsAsRow(d, cx, e);
    RowRegroups(before, chain, after);
    GoodArgumentsLegible(d, cx, e);
    ReadsAs(d, cx, e, Regrouped(before, chain, after));
  }

  // ---------- its value ----------

  /** The servers agree on the arguments, which read only live columns. */
  ghost predicate ArgumentsAgree(L: Local, R: Remote, rel: Rel, es: seq<Expr>) {
    forall i :: 0 <= i < |es| ==> Agrees(L, R, es[i]) && LiveColumns(rel, es[i])
  }

  /** The comparisons of a chain are truth values. */
  lemma {:induction false} ChainTruths(L: Local, R: Remote, d: Dialect, cx: DeparseCxt, row: RemoteRow, e: Expr)
    requires Readable(d, cx, e) && Agrees(L, R, e) && FormOf(e).ChainForm?
    ensures forall i :: 0 <= i < |OperandTrees(cx.rel, e)| ==> IsTruth(SqlEval(R, row, OperandTrees(cx.rel, e)[i]))
  {
    if Invisible(e.head) {
      ArgumentsReadable(d, cx, e);
      assert Children(e)[0] == e.args[0];
      ChainTruths(L, R, d, cx, row, e.args[0]);
      InvisibleTrees(cx.rel, e);
    } else {
      ComparisonTruths(L, R, row, e.head, Erase(cx.rel, e.args[0]), ElementTrees(cx.rel, e.args[1]));
      ChainTrees(cx.rel, e);
    }
  }

  lemma InvisibleTrees(rel: Rel, e: Expr)
    requires e.Node? && Invisible(e.head) && e.args != []
    ensures OperandTrees(rel, e) == OperandTrees(rel, e.args[0])
  {
    assert Erase(rel, e) == Erase(rel, e.args[0]);
  }

  lemma ChainTrees(rel: Rel, e: Expr)
    requires e.Node? && !Invisible(e.head) && FormOf(e).ChainForm?
    ensures OperandTrees(rel, e) == ComparisonSqls(Erase(rel, e.args[0]), e.head.opname, ElementTrees(rel, e.args[1]))
  {
    assert |ElementTrees(rel, e.args[1])| != 1;
  }

  lemma ComparisonTruths(L: Local, R: Remote, row: RemoteRow, h: Head, left: Sql, elements: seq<Sql>)
    requires h.ScalarArrayOp? && ComparisonAgrees(L, R, h.opno, h.opname, h.useOr) && !UsesIn(h.opname, h.useOr)
    ensures
      var trees := ComparisonSqls(left, h.opname, elements);
      forall i :: 0 <= i < |trees| ==> IsTruth(SqlEval(R, row, trees[i]))
  {
    var ev, trees := OnRow(R, row), ComparisonSqls(left, h.opname, elements);
    OnRowComputes(R, row);
    ChainValues(L, R, ev, h.opno, h.opname, h.useOr, left, elements);
    forall i | 0 <= i < |trees|
      ensures IsTruth(SqlEval(R, row, trees[i]))
    {
      assert ev(trees[i]) == Values(ev, trees)[i];
    }
  }

  /** Conjuncts together with one more truth value. */
  lemma ConjunctValue(R: Remote, row: RemoteRow, ss: seq<Sql>)
    requires |ss| == 1 ==> IsTruth(SqlEval(R, row, ss[0]))
    requires ss != []
    ensures SqlEval(R, row, Conjunct(ss)) == And3(SqlEvalAll(R, row, ss))
  {
    var vs := SqlEvalAll(R, row, ss);
    if |ss| == 1 {
      assert vs == [vs[0]];
      SingletonTruth(vs[0]);
    }
  }

  lemma EvalAppend(R: Remote, row: RemoteRow, a: seq<Sql>, b: seq<Sql>)
    ensures SqlEvalAll(R, row, a + b) == SqlEvalAll(R, row, a) + SqlEvalAll(R, row, b)
  {
  }

  /** A comparison with conjuncts before it. */
  lemma BeforeValue(R: Remote, row: RemoteRow, before: seq<Sql>, c: Sql)
    requires IsTruth(SqlEval(R, row, c))
    ensures SqlEval(R, row, Conjunct(before + [c])) == And3([And3(SqlEvalAll(R, row, before)), SqlEval(R, row, c)])
  {
    var v := SqlEval(R, row, c);
    assert before == [] ==> (before + [c])[0] == c;
    ConjunctValue(R, row, before + [c]);
    EvalAppend(R, row, before, [c]);
    assert SqlEvalAll(R, row, [c]) == [v];
    Bool3Append(AndOp, SqlEvalAll(R, row, before), [v]);
    SingletonTruth(v);
  }

  /** A comparison with conjuncts after it. */
  lemma AfterValue(R: Remote, row: RemoteRow, c: Sql, after: seq<Sql>)
    requires IsTruth(SqlEval(R, row, c))
    ensures SqlEval(R, row, Conjunct([c] + after)) == And3([SqlEval(R, row, c), And3(SqlEvalAll(R, row, after))])
  {
    var v := SqlEval(R, row, c);
    ConjunctValue(R, row, [c] + after);
    EvalAppend(R, row, [c], after);
    assert SqlEvalAll(R, row, [c]) == [v];
    Bool3Append(AndOp, [v], SqlEvalAll(R, row, after));
    SingletonTruth(v);
  }

  /** The value of the regrouped tree. */
  lemma RegroupedValue(R: Remote, row: RemoteRow, before: seq<Sql>, chain: seq<Sql>, after: seq<Sql>)
    requires |chain| >= 2 && forall i :: 0 <= i < |chain| ==> IsTruth(SqlEval(R, row, chain[i]))
    ensures
      var n, c := |chain| - 1, SqlEvalAll(R, row, chain);
      var p, q := And3(SqlEvalAll(R, row, before)), And3(SqlEvalAll(R, row, after));
      SqlEval(R, row, Regrouped(before, chain, after)) == Or3([And3([p, c[0]]), Or3(c[1..n]), And3([c[n], q])])
  {
    var n, c := |chain| - 1, SqlEvalAll(R, row, chain);
    var first, last := Conjunct(before + [chain[0]]), Conjunct([chain[n]] + after);
    var x, y := SqlEval(R, row, first), SqlEval(R, row, last);
    assert x == And3([And3(SqlEvalAll(R, row, before)), c[0]]) by {
      BeforeValue(R, row, before, chain[0]);
    }
    assert y == And3([c[n], And3(SqlEvalAll(R, row, after))]) by {
      AfterValue(R, row, chain[n], after);
    }
    assert SqlEval(R, row, Regrouped(before, chain, after)) == Or3([x] + (c[1..n] + [y])) by {
      OrHeadValue(R, row, first, chain[1..n], last);
      assert SqlEvalAll(R, row, chain[1..n]) == c[1..n];
    }
    OrOfThree(x, c[1..n], y);
  }

  lemma OrHeadValue(R: Remote, row: RemoteRow, first: Sql, middle: seq<Sql>, last: Sql)
    ensures SqlEval(R, row, App(HOr, [first] + (middle + [last]))) ==
            Or3([SqlEval(R, row, first)] + (SqlEvalAll(R, row, middle) + [SqlEval(R, row, last)]))
  {
    RegroupedArguments(R, row, first, middle, last);
    ConnectiveValue(R, row, OrOp, [first] + (middle + [last]));
  }

  lemma RegroupedArguments(R: Remote, row: RemoteRow, first: Sql, middle: seq<Sql>, last: Sql)
    ensures SqlEvalAll(R, row, [first] + (middle + [last])) ==
            [SqlEval(R, row, first)] + (SqlEvalAll(R, row, middle) + [SqlEval(R, row, last)])
  {
    EvalAppend(R, row, [first], middle + [last]);
    EvalAppend(R, row, middle, [last]);
    assert SqlEvalAll(R, row, [first]) == [SqlEval(R, row, first)];
    assert SqlEvalAll(R, row, [last]) == [SqlEval(R, row, last)];
  }

  lemma OrOfThree(x: Value, vs: seq<Value>, y: Value)
    requires IsTruth(x) && IsTruth(y)
    ensures Or3([x] + (vs + [y])) == Or3([x, Or3(vs), y])
  {
    Bool3Append(OrOp, [x], vs + [y]);
    Bool3Append(OrOp, vs, [y]);
    SingletonTruth(x);
    SingletonTruth(y);
    Bool3Append(OrOp, [x], [Or3(vs), y]);
    assert [x] + [Or3(vs), y] == [x, Or3(vs), y];
  }

  /** AND over conjuncts keeps the value of the conjuncts merged. */
  lemma ConjunctsPreserved(L: Local, R: Remote, d: Dialect, cx: DeparseCxt, row: RemoteRow, es: seq<Expr>)
    requires AllReadable(d, cx, es) && ArgumentsAgree(L, R, cx.rel, es)
    ensures And3(SqlEvalAll(R, row, EraseArguments(cx.rel, AndOp, es))) ==
            And3(EvalAll(L, cx.rel.relid, LocalRow(cx.rel, row), es))
  {
    var ev, local := OnRow(R, row), LocalRow(cx.rel, row);
    OnRowComputes(R, row);
    MergingPreservesTruth(R, ev, cx.rel, AndOp, es);
    forall i | 0 <= i < |es|
      ensures ev(Erase(cx.rel, es[i])) == Eval(L, cx.rel.relid, local, es[i])
    {
      ErasePreservesValue(L, R, d, cx, row, es[i]);
    }
    assert Values(ev, EraseAll(cx.rel, es)) == EvalAll(L, cx.rel.relid, local, es);
  }

  /** The conjuncts before and after the chain. */
  lemma SidesPreserved(L: Local, R: Remote, d: Dialect, cx: DeparseCxt, row: RemoteRow, args: seq<Expr>, k: nat)
    requires AllReadable(d, cx, args) && ArgumentsAgree(L, R, cx.rel, args) && k < |args|
    ensures And3(SqlEvalAll(R, row, EraseArguments(cx.rel, AndOp, args[..k]))) ==
            And3(EvalAll(L, cx.rel.relid, LocalRow(cx.rel, row), args[..k]))
    ensures And3(SqlEvalAll(R, row, EraseArguments(cx.rel, AndOp, args[k + 1..]))) ==
            And3(EvalAll(L, cx.rel.relid, LocalRow(cx.rel, row), args[k + 1..]))
  {
    ConjunctsPreserved(L, R, d, cx, row, args[..k]);
    ConjunctsPreserved(L, R, d, cx, row, args[k + 1..]);
  }

  lemma AndOfThree(before: seq<Value>, v: Value, after: seq<Value>)
    requires IsTruth(v)
    ensures And3(before + ([v] + after)) == And3([And3(before), v, And3(after)])
  {
    Bool3Append(AndOp, before, [v] + after);
    Bool3Append(AndOp, [v], after);
    SingletonTruth(v);
    Bool3Append(AndOp, [And3(before)], [v, And3(after)]);
    SingletonTruth(And3(before));
    assert [And3(before)] + [v, And3(after)] == [And3(before), v, And3(after)];
  }

  lemma AndEval(L: Local, relid: nat, local: seq<Value>, e: Expr)
    requires e.Node? && e.head.Bool? && e.head.op.AndOp?
    ensures Eval(L, relid, local, e) == And3(EvalAll(L, relid, local, e.args))
  {
  }

  /** The local value of the AND. */
  lemma AndAround(L: Local, relid: nat, local: seq<Value>, e: Expr, k: nat)
    requires e.Node? && e.head.Bool? && e.head.op.AndOp? && k < |e.args| && IsTruth(Eval(L, relid, local, e.args[k]))
    ensures Eval(L, relid, local, e) ==
            And3([And3(EvalAll(L, relid, local, e.args[..k])), Eval(L, relid, local, e.args[k]),
                  And3(EvalAll(L, relid, local, e.args[k + 1..]))])
  {
    AndEval(L, relid, local, e);
    EvalSplit(L, relid, local, e.args, k);
    AndOfThree(EvalAll(L, relid, local, e.args[..k]), Eval(L, relid, local, e.args[k]),
               EvalAll(L, relid, local, e.args[k + 1..]));
  }

  lemma {:induction false} EvalSplit(L: Local, relid: nat, local: seq<Value>, es: seq<Expr>, k: nat)
    requires k < |es|
    ensures EvalAll(L, relid, local, es) ==
            EvalAll(L, relid, local, es[..k]) + ([Eval(L, relid, local, es[k])] + EvalAll(L, relid, local, es[k + 1..]))
  {
    var whole, before, after := EvalAll(L, relid, local, es), EvalAll(L, relid, local, es[..k]),
                                EvalAll(L, relid, local, es[k + 1..]);
    var parts := before + ([Eval(L, relid, local, es[k])] + after);
    forall i | 0 <= i < |es|
      ensures parts[i] == Eval(L, relid, local, es[i])
    {
      if i < k {
        assert parts[i] == before[i];
      } else if i > k {
        assert parts[i] == after[i - k - 1];
      }
    }
    assert whole == parts;
  }

  /** No part of `p AND (c OR ..) AND q` that regrouping sets loose is truer than what it was joined to: the
      first comparison than q, the last than p, and the others than both. */
  predicate LooseKeepTruth(p: Value, c: seq<Value>, q: Value)
    requires |c| >= 2
  {
    var n := |c| - 1;
    NotTruer(And3([p, c[0]]), q) && NotTruer(Or3(c[1..n]), And3([p, q])) && NotTruer(And3([c[n], q]), p)
  }

  /** An OR chain inside AND is regrouped. It has its value all the same exactly where no comparison that
      has come loose is truer than the conditions it was joined to. */
  lemma NestedChainRightIff(L: Local, R: Remote, d: Dialect, cx: DeparseCxt, row: RemoteRow, e: Expr, k: nat)
    requires ValidDialect(d) && cx.quotable && GoodArguments(d, cx, e) && e.head.Bool? && e.head.op.AndOp?
    requires k < |e.args| && FormOf(e.args[k]) == ChainForm(OrOp)
    requires NoOrChain(e.args[..k]) && NoOrChain(e.args[k + 1..]) && ArgumentsAgree(L, R, cx.rel, e.args)
    ensures |OperandTrees(cx.rel, e.args[k])| >= 2
    ensures
      var chain := OperandTrees(cx.rel, e.args[k]);
      var t := Regrouped(EraseArguments(cx.rel, AndOp, e.args[..k]), chain,
                         EraseArguments(cx.rel, AndOp, e.args[k + 1..]));
      var local, c := LocalRow(cx.rel, row), SqlEvalAll(R, row, chain);
      var p := And3(EvalAll(L, cx.rel.relid, local, e.args[..k]));
      var q := And3(EvalAll(L, cx.rel.relid, local, e.args[k + 1..]));
      && ReadText(d, Shown(d, cx, e)) == Some(t)
      && (SqlEval(R, row, t) == Eval(L, cx.rel.relid, local, e) <==> LooseKeepTruth(p, c, q))
  {
    var chain := OperandTrees(cx.rel, e.args[k]);
    NestedChainReads(d, cx, e, k);
    ArgumentRuns(d, cx, e);
    ChainIsTruth(L, R, d, cx, row, e.args[k]);
    RegroupedEval(L, R, d, cx, row, e, k, chain);
  }

  /** So the server keeps a row that the query refuses wherever the conditions before the chain and its
      first comparison hold and a condition after the chain fails. */
  lemma NestedChainAddsRows(L: Local, R: Remote, d: Dialect, cx: DeparseCxt, row: RemoteRow, e: Expr, k: nat)
    requires ValidDialect(d) && cx.quotable && GoodArguments(d, cx, e) && e.head.Bool? && e.head.op.AndOp?
    requires k < |e.args| && FormOf(e.args[k]) == ChainForm(OrOp)
    requires NoOrChain(e.args[..k]) && NoOrChain(e.args[k + 1..]) && ArgumentsAgree(L, R, cx.rel, e.args)
    requires |OperandTrees(cx.rel, e.args[k])| > 1 && SqlEval(R, row, OperandTrees(cx.rel, e.args[k])[0]) == TRUE
    requires And3(EvalAll(L, cx.rel.relid, LocalRow(cx.rel, row), e.args[..k])) == TRUE
    requires And3(EvalAll(L, cx.rel.relid, LocalRow(cx.rel, row), e.args[k + 1..])) == FALSE
    ensures
      var t := Regrouped(EraseArguments(cx.rel, AndOp, e.args[..k]), OperandTrees(cx.rel, e.args[k]),
                         EraseArguments(cx.rel, AndOp, e.args[k + 1..]));
      && ReadText(d, Shown(d, cx, e)) == Some(t)
      && SqlEval(R, row, t) == TRUE && Eval(L, cx.rel.relid, LocalRow(cx.rel, row), e) == FALSE
  {
    NestedChainReads(d, cx, e, k);
    ArgumentRuns(d, cx, e);
    ChainIsTruth(L, R, d, cx, row, e.args[k]);
    SidesPreserved(L, R, d, cx, row, e.args, k);
    FalseAfter(L, cx.rel.relid, LocalRow(cx.rel, row), e, k,
               Bool3(OrOp, SqlEvalAll(R, row, OperandTrees(cx.rel, e.args[k]))));
    TrueFirst(R, row, EraseArguments(cx.rel, AndOp, e.args[..k]), OperandTrees(cx.rel, e.args[k]),
              EraseArguments(cx.rel, AndOp, e.args[k + 1..]));
  }

  lemma FalseAfter(L: Local, relid: nat, local: seq<Value>, e: Expr, k: nat, v: Value)
    requires e.Node? && e.head.Bool? && e.head.op.AndOp? && k < |e.args|
    requires Eval(L, relid, local, e.args[k]) == v && IsTruth(v)
    requires And3(EvalAll(L, relid, local, e.args[k + 1..])) == FALSE
    ensures Eval(L, relid, local, e) == FALSE
  {
    AndAround(L, relid, local, e, k);
    var vs := [And3(EvalAll(L, relid, local, e.args[..k])), Eval(L, relid, local, e.args[k]), FALSE];
    assert vs[2] == FALSE;
  }

  lemma TrueFirst(R: Remote, row: RemoteRow, before: seq<Sql>, chain: seq<Sql>, after: seq<Sql>)
    requires |chain| >= 2 && forall i :: 0 <= i < |chain| ==> IsTruth(SqlEval(R, row, chain[i]))
    requires And3(SqlEvalAll(R, row, before)) == TRUE && SqlEval(R, row, chain[0]) == TRUE
    ensures SqlEval(R, row, Regrouped(before, chain, after)) == TRUE
  {
    var n, c := |chain| - 1, SqlEvalAll(R, row, chain);
    RegroupedValue(R, row, before, chain, after);
    PairTruth(TRUE, c[0]);
    var vs := [TRUE, Or3(c[1..n]), And3([c[n], And3(SqlEvalAll(R, row, after))])];
    assert vs[0] == TRUE;
  }

  /** The regrouped tree against the value of the AND. */
  lemma RegroupedEval(L: Local, R: Remote, d: Dialect, cx: DeparseCxt, row: RemoteRow, e: Expr, k: nat, chain: seq<Sql>)
    requires e.Node? && e.head.Bool? && e.head.op.AndOp? && k < |e.args|
    requires AllReadable(d, cx, e.args) && ArgumentsAgree(L, R, cx.rel, e.args)
    requires |chain| >= 2 && forall i :: 0 <= i < |chain| ==> IsTruth(SqlEval(R, row, chain[i]))
    requires Eval(L, cx.rel.relid, LocalRow(cx.rel, row), e.args[k]) == Or3(SqlEvalAll(R, row, chain))
    ensures
      var local := LocalRow(cx.rel, row);
      var t := Regrouped(EraseArguments(cx.rel, AndOp, e.args[..k]), chain,
                         EraseArguments(cx.rel, AndOp, e.args[k + 1..]));
      var p := And3(EvalAll(L, cx.rel.relid, local, e.args[..k]));
      var q := And3(EvalAll(L, cx.rel.relid, local, e.args[k + 1..]));
      SqlEval(R, row, t) == Eval(L, cx.rel.relid, local, e) <==> LooseKeepTruth(p, SqlEvalAll(R, row, chain), q)
  {
    SidesPreserved(L, R, d, cx, row, e.args, k);
    AndAround(L, cx.rel.relid, LocalRow(cx.rel, row), e, k);
    RegroupedRightIff(R, row, EraseArguments(cx.rel, AndOp, e.args[..k]), chain,
                      EraseArguments(cx.rel, AndOp, e.args[k + 1..]));
  }

  /** The regrouped tree against the AND it came from. */
  lemma RegroupedRightIff(R: Remote, row: RemoteRow, before: seq<Sql>, chain: seq<Sql>, after: seq<Sql>)
    requires |chain| >= 2 && forall i :: 0 <= i < |chain| ==> IsTruth(SqlEval(R, row, chain[i]))
    ensures
      var c := SqlEvalAll(R, row, chain);
      var p, q := And3(SqlEvalAll(R, row, before)), And3(SqlEvalAll(R, row, after));
      SqlEval(R, row, Regrouped(before, chain, after)) == And3([p, Or3(c), q]) <==> LooseKeepTruth(p, c, q)
  {
    RegroupedValue(R, row, before, chain, after);
    LooseTruth(And3(SqlEvalAll(R, row, before)), SqlEvalAll(R, row, chain), And3(SqlEvalAll(R, row, after)));
  }

  lemma LooseTruth(p: Value, c: seq<Value>, q: Value)
    requires |c| >= 2 && (forall i :: 0 <= i < |c| ==> IsTruth(c[i])) && IsTruth(p) && IsTruth(q)
    ensures
      var n := |c| - 1;
      Or3([And3([p, c[0]]), Or3(c[1..n]), And3([c[n], q])]) == And3([p, Or3(c), q]) <==> LooseKeepTruth(p, c, q)
  {
    var n := |c| - 1;
    RegroupedTruth(p, c[0], Or3(c[1..n]), c[n], q);
    assert c == [c[0]] + (c[1..n] + [c[n]]);
    OrOfThree(c[0], c[1..n], c[n]);
  }

  lemma ChainIsTruth(L: Local, R: Remote, d: Dialect, cx: DeparseCxt, row: RemoteRow, e: Expr)
    requires Readable(d, cx, e) && Agrees(L, R, e) && LiveColumns(cx.rel, e) && FormOf(e).ChainForm?
    ensures
      var c := SqlEvalAll(R, row, OperandTrees(cx.rel, e));
      && Eval(L, cx.rel.relid, LocalRow(cx.rel, row), e) == Bool3(FormOf(e).op, c)
      && IsTruth(Bool3(FormOf(e).op, c))
      && forall i :: 0 <= i < |c| ==> IsTruth(SqlEval(R, row, OperandTrees(cx.rel, e)[i]))
  {
    ChainTruths(L, R, d, cx, row, e);
    ChainValue(L, R, d, cx, row, e);
  }

  /** The value of a chain, from its comparisons. */
  lemma ChainValue(L: Local, R: Remote, d: Dialect, cx: DeparseCxt, row: RemoteRow, e: Expr)
    requires Readable(d, cx, e) && Agrees(L, R, e) && LiveColumns(cx.rel, e) && FormOf(e).ChainForm?
    ensures Eval(L, cx.rel.relid, LocalRow(cx.rel, row), e) ==
            Bool3(FormOf(e).op, SqlEvalAll(R, row, OperandTrees(cx.rel, e)))
  {
    ErasePreservesValue(L, R, d, cx, row, e);
    ChainErases(cx.rel, e);
  }

  // ---------- NOT over a chain ----------

  /** NOT over a chain negates only its first comparison. It has its value all the same exactly where the
      others do not matter: they are the unit of the connective, or null together with the first. */
  lemma NegatedChainRightIff(L: Local, R: Remote, d: Dialect, cx: DeparseCxt, row: RemoteRow, e: Expr)
    requires ValidDialect(d) && cx.quotable && GoodArguments(d, cx, e) && e.head.Bool? && e.head.op.NotOp?
    requires FormOf(e.args[0]).ChainForm? && ArgumentsAgree(L, R, cx.rel, e.args)
    requires |OperandTrees(cx.rel, e.args[0])| > 0
    ensures
      var chain, op := OperandTrees(cx.rel, e.args[0]), FormOf(e.args[0]).op;
      var t := App(BoolHead(op), [App(HNot, [chain[0]])] + chain[1..]);
      var c := SqlEvalAll(R, row, chain);
      var others := Bool3(op, c[1..]);
      && ReadText(d, Shown(d, cx, e)) == Some(t)
      && (SqlEval(R, row, t) == Eval(L, cx.rel.relid, LocalRow(cx.rel, row), e) <==>
            others == BoolV(op.AndOp?) || (others == NullV && c[0] == NullV))
  {
    NegatedChainReads(d, cx, e);
    ArgumentRuns(d, cx, e);
    NotEval(L, cx.rel.relid, LocalRow(cx.rel, row), e);
    ChainIsTruth(L, R, d, cx, row, e.args[0]);
    NegatedWorth(R, row, FormOf(e.args[0]).op, OperandTrees(cx.rel, e.args[0]));
  }

  /** When the negation of the first comparison is worth the negation of the chain. */
  lemma NegatedWorth(R: Remote, row: RemoteRow, op: BoolOp, chain: seq<Sql>)
    requires chain != [] && !op.NotOp? && forall i :: 0 <= i < |chain| ==> IsTruth(SqlEval(R, row, chain[i]))
    ensures
      var c := SqlEvalAll(R, row, chain);
      var others := Bool3(op, c[1..]);
      SqlEval(R, row, App(BoolHead(op), [App(HNot, [chain[0]])] + chain[1..])) == Not3(Bool3(op, c)) <==>
        others == BoolV(op.AndOp?) || (others == NullV && c[0] == NullV)
  {
    var c := SqlEvalAll(R, row, chain);
    forall i | 0 <= i < |c|
      ensures IsTruth(c[i])
    {
      assert c[i] == SqlEval(R, row, chain[i]);
    }
    NegatedChainTruth(op, c);
    NegatedValue(R, row, op, chain);
  }

  lemma NotEval(L: Local, relid: nat, local: seq<Value>, e: Expr)
    requires e.Node? && e.head.Bool? && e.head.op.NotOp? && |e.args| == 1
    ensures Eval(L, relid, local, e) == Not3(Eval(L, relid, local, e.args[0]))
  {
    assert EvalAll(L, relid, local, e.args)[0] == Eval(L, relid, local, e.args[0]);
  }

  /** What the server reads for NOT over a chain. */
  lemma NegatedChainReads(d: Dialect, cx: DeparseCxt, e: Expr)
    requires ValidDialect(d) && cx.quotable && GoodArguments(d, cx, e) && e.head.Bool? && e.head.op.NotOp?
    requires FormOf(e.args[0]).ChainForm? && |OperandTrees(cx.rel, e.args[0])| > 0
    ensures
      var chain := OperandTrees(cx.rel, e.args[0]);
      ReadText(d, Shown(d, cx, e)) == Some(App(BoolHead(FormOf(e.args[0]).op), [App(HNot, [chain[0]])] + chain[1..]))
  {
    var chain := OperandTrees(cx.rel, e.args[0]);
    NotReadsAsRow(d, cx, e);
    ChainErases(cx.rel, e.args[0]);
    GoodArgumentsLegible(d, cx, e);
    ReadsAs(d, cx, e, App(BoolHead(FormOf(e.args[0]).op), [App(HNot, [chain[0]])] + chain[1..]));
  }

  lemma NegatedChainTruth(op: BoolOp, c: seq<Value>)
    requires c != [] && !op.NotOp? && forall i :: 0 <= i < |c| ==> IsTruth(c[i])
    ensures
      var others := Bool3(op, c[1..]);
      Bool3(op, [Not3(c[0])] + c[1..]) == Not3(Bool3(op, c)) <==>
        others == BoolV(op.AndOp?) || (others == NullV && c[0] == NullV)
  {
    NegatedTruth(op, c[0], Bool3(op, c[1..]));
    FirstAndRest(op, c[0], c[1..]);
    FirstAndRest(op, Not3(c[0]), c[1..]);
    assert c == [c[0]] + c[1..];
  }

  lemma FirstAndRest(op: BoolOp, x: Value, vs: seq<Value>)
    requires IsTruth(x)
    ensures Bool3(op, [x] + vs) == Bool3(op, [x, Bool3(op, vs)])
  {
    Bool3Append(op, [x], vs);
    SingletonTruth(x);
  }

  lemma NegatedValue(R: Remote, row: RemoteRow, op: BoolOp, chain: seq<Sql>)
    requires chain != [] && !op.NotOp?
    ensures SqlEval(R, row, App(BoolHead(op), [App(HNot, [chain[0]])] + chain[1..])) ==
            Bool3(op, [Not3(SqlEval(R, row, chain[0]))] + SqlEvalAll(R, row, chain)[1..])
  {
    var v := Not3(SqlEval(R, row, chain[0]));
    NotValue(R, row, chain[0]);
    FirstValue(R, row, App(HNot, [chain[0]]), chain[1..], v);
    ConnectiveValue(R, row, op, [App(HNot, [chain[0]])] + chain[1..]);
    assert SqlEvalAll(R, row, chain[1..]) == SqlEvalAll(R, row, chain)[1..];
  }

  lemma NotValue(R: Remote, row: RemoteRow, t: Sql)
    ensures SqlEval(R, row, App(HNot, [t])) == Not3(SqlEval(R, row, t))
  {
    assert SqlEvalAll(R, row, [t]) == [SqlEval(R, row, t)];
  }

  lemma FirstValue(R: Remote, row: RemoteRow, t: Sql, ts: seq<Sql>, v: Value)
    requires SqlEval(R, row, t) == v
    ensures SqlEvalAll(R, row, [t] + ts) == [v] + SqlEvalAll(R, row, ts)
  {
    EvalAppend(R, row, [t], ts);
    assert SqlEvalAll(R, row, [t]) == [v];
  }

  lemma ConnectiveValue(R: Remote, row: RemoteRow, op: BoolOp, args: seq<Sql>)
    requires !op.NotOp?
    ensures SqlEval(R, row, App(BoolHead(op), args)) == Bool3(op, SqlEvalAll(R, row, args))
  {
    ConnectiveHead(R, op, SqlEvalAll(R, row, args));
  }

  lemma ConnectiveHead(R: Remote, op: BoolOp, vs: seq<Value>)
    requires !op.NotOp?
    ensures SqlHeadValue(R, BoolHead(op), vs) == Bool3(op, vs)
  {
  }
}
