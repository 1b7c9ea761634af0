/** What an AND over any number of chains is worth: it is read as the OR of its groups, and has its value all
    the same exactly where no group is truer than any of the conditions.
 */
module ChainRows {
  import opened Lexical
  import opened Nodes
  import opened Reader
  import opened Deparse
  import opened RoundTrip
  import opened Spacing
  import opened Semantics
  import opened Preservation
  import opened Streams
  import opened Positions
  import opened NestedChains

  // ---------- groups of a row ----------

  /** An OR chain in front of more conjuncts: its last comparison joins them. */
  lemma {:induction false} GroupsOfChain(chain: seq<Sql>, fs: seq<Sql>, ks: seq<BoolOp>)
    requires chain != [] && |fs| == |ks| + 1
    ensures
      var n, gs := |chain| - 1, Groups(fs, ks);
      Groups(chain + fs, Copies(OrOp, n) + ([AndOp] + ks)) == Singles(chain[..n]) + ([[chain[n]] + gs[0]] + gs[1..])
  {
    var n, gs := |chain| - 1, Groups(fs, ks);
    if n == 0 {
      RegroupCopies(OrOp, 0, [AndOp] + ks);
      LoneComparison(chain, fs, ks);
    } else {
      var all, more := [AndOp] + ks, Copies(OrOp, n - 1) + ([AndOp] + ks);
      GroupsOfChain(chain[1..], fs, ks);
      GroupsCons(chain[0], chain[1..] + fs, OrOp, more);
      RegroupCopies(OrOp, n - 1, all);
      FirstBack(chain, fs);
      SameGroups(chain + fs, [chain[0]] + (chain[1..] + fs), Copies(OrOp, n) + all, [OrOp] + more);
      SinglesCons(chain, n, [[chain[n]] + gs[0]] + gs[1..]);
    }
  }

  lemma LoneComparison(chain: seq<Sql>, fs: seq<Sql>, ks: seq<BoolOp>)
    requires |chain| == 1 && |fs| == |ks| + 1
    ensures
      var gs := Groups(fs, ks);
      Groups(chain + fs, [AndOp] + ks) == Singles(chain[..0]) + ([[chain[0]] + gs[0]] + gs[1..])
  {
    GroupsCons(chain[0], fs, AndOp, ks);
    assert chain == [chain[0]];
  }

  /** The groups of the arguments. */
  function RowGroups(rel: Rel, es: seq<Expr>): seq<seq<Sql>>
    requires |RowTrees(rel, es)| == |RowOps(rel, es)| + 1
  {
    Groups(RowTrees(rel, es), RowOps(rel, es))
  }

  /** The groups of a row are those of its first argument and of the others, the touching two joined. */
  lemma RowGroupsStep(d: Dialect, cx: DeparseCxt, es: seq<Expr>)
    requires cx.quotable && AllReadable(d, cx, es) && |es| > 1
    ensures |RowTrees(cx.rel, es)| == |RowOps(cx.rel, es)| + 1
    ensures |RowTrees(cx.rel, es[1..])| == |RowOps(cx.rel, es[1..])| + 1 && OperandTrees(cx.rel, es[0]) != []
    ensures
      var trees, gs := OperandTrees(cx.rel, es[0]), RowGroups(cx.rel, es[1..]);
      var n := |trees| - 1;
      RowGroups(cx.rel, es) ==
        if OperandOp(es[0]).OrOp? then Singles(trees[..n]) + ([[trees[n]] + gs[0]] + gs[1..])
        else [trees + gs[0]] + gs[1..]
  {
    var trees, rest, ks := OperandTrees(cx.rel, es[0]), RowTrees(cx.rel, es[1..]), RowOps(cx.rel, es[1..]);
    RunIsGood(d, cx, es[0]);
    RowCount(d, cx, es);
    RowCount(d, cx, es[1..]);
    RowStep(cx.rel, es);
    if OperandOp(es[0]).OrOp? {
      GroupsOfChain(trees, rest, ks);
    } else {
      MoreCopies(|trees| - 1, ks);
      GroupsOfAnds(trees, rest, ks);
    }
  }

  lemma LastRowGroups(d: Dialect, cx: DeparseCxt, es: seq<Expr>)
    requires cx.quotable && AllReadable(d, cx, es) && |es| == 1
    ensures |RowTrees(cx.rel, es)| == |RowOps(cx.rel, es)| + 1 && OperandTrees(cx.rel, es[0]) != []
    ensures
      var trees := OperandTrees(cx.rel, es[0]);
      var n := |trees| - 1;
      RowGroups(cx.rel, es) ==
        if OperandOp(es[0]).OrOp? then Singles(trees[..n]) + [[trees[n]]] else [trees]
  {
    var trees := OperandTrees(cx.rel, es[0]);
    RunIsGood(d, cx, es[0]);
    RowCount(d, cx, es);
    RowStep(cx.rel, es);
    if OperandOp(es[0]).OrOp? {
      GroupsOfOrs(trees, []);
      assert trees + [] == trees && [trees[|trees| - 1]] + [] == [trees[|trees| - 1]];
      assert Copies(OrOp, |trees| - 1) + Copies(AndOp, 0) == Copies(OrOp, |trees| - 1);
    } else {
      OneGroup(trees, Copies(AndOp, |trees| - 1));
    }
  }

  // ---------- nothing is lost ----------

  /** Every tree of the group is at least as true as `x`. */
  ghost predicate AllAbove(R: Remote, row: RemoteRow, x: Value, g: seq<Sql>) {
    forall i :: 0 <= i < |g| ==> NotTruer(x, SqlEval(R, row, g[i]))
  }

  /** What is not truer than a condition is not truer than one of its comparisons, or than all of them. */
  lemma OperandAbove(L: Local, R: Remote, d: Dialect, cx: DeparseCxt, row: RemoteRow, e: Expr,
                     x: Value) returns (i: nat)
    requires cx.quotable && Readable(d, cx, e) && Agrees(L, R, e) && LiveColumns(cx.rel, e)
    requires NotTruer(x, Eval(L, cx.rel.relid, LocalRow(cx.rel, row), e))
    ensures i < |OperandTrees(cx.rel, e)| && NotTruer(x, SqlEval(R, row, OperandTrees(cx.rel, e)[i]))
    ensures !OperandOp(e).OrOp? ==> AllAbove(R, row, x, OperandTrees(cx.rel, e))
  {
    var trees := OperandTrees(cx.rel, e);
    RunIsGood(d, cx, e);
    if FormOf(e).ChainForm? {
      ChainIsTruth(L, R, d, cx, row, e);
      if OperandOp(e).OrOp? {
        i := BelowOr(x, SqlEvalAll(R, row, trees));
      } else {
        BelowAnd(x, SqlEvalAll(R, row, trees));
        assert SqlEvalAll(R, row, trees)[0] == SqlEval(R, row, trees[0]);
        i := 0;
      }
    } else {
      ErasePreservesValue(L, R, d, cx, row, e);
      i := 0;
    }
  }

  /** What is not truer than any of the conditions is not truer than some group: regrouping never makes the
      whole less true. */
  lemma {:induction false} SomeGroupAbove(L: Local, R: Remote, d: Dialect, cx: DeparseCxt, row: RemoteRow,
                                          es: seq<Expr>, x: Value) returns (j: nat)
    requires cx.quotable && AllReadable(d, cx, es) && ArgumentsAgree(L, R, cx.rel, es) && es != []
    requires forall i :: 0 <= i < |es| ==> NotTruer(x, Eval(L, cx.rel.relid, LocalRow(cx.rel, row), es[i]))
    ensures |RowTrees(cx.rel, es)| == |RowOps(cx.rel, es)| + 1
    ensures j < |RowGroups(cx.rel, es)| && AllAbove(R, row, x, RowGroups(cx.rel, es)[j])
    decreases |es|
  {
    var trees := OperandTrees(cx.rel, es[0]);
    var i := OperandAbove(L, R, d, cx, row, es[0], x);
    if |es| == 1 {
      LastRowGroups(d, cx, es);
      j := LastGroup(R, row, x, trees, OperandOp(es[0]), i);
    } else {
      var k := SomeGroupAbove(L, R, d, cx, row, es[1..], x);
      RowGroupsStep(d, cx, es);
      j := GroupBefore(R, row, x, trees, OperandOp(es[0]), i, RowGroups(cx.rel, es[1..]), k);
    }
  }

  lemma LastGroup(R: Remote, row: RemoteRow, x: Value, trees: seq<Sql>, op: BoolOp, i: nat) returns (j: nat)
    requires i < |trees| && NotTruer(x, SqlEval(R, row, trees[i])) && (!op.OrOp? ==> AllAbove(R, row, x, trees))
    ensures
      var n := |trees| - 1;
      var all := if op.OrOp? then Singles(trees[..n]) + [[trees[n]]] else [trees];
      j < |all| && AllAbove(R, row, x, all[j])
  {
    j := if op.OrOp? then i else 0;
  }

  lemma GroupBefore(R: Remote, row: RemoteRow, x: Value, trees: seq<Sql>, op: BoolOp, i: nat, gs: seq<seq<Sql>>, k: nat)
    returns (j: nat)
    requires i < |trees| && NotTruer(x, SqlEval(R, row, trees[i]))
    requires k < |gs| && AllAbove(R, row, x, gs[k]) && (!op.OrOp? ==> AllAbove(R, row, x, trees))
    ensures
      var n := |trees| - 1;
      var all := if op.OrOp? then Singles(trees[..n]) + ([[trees[n]] + gs[0]] + gs[1..]) else [trees + gs[0]] + gs[1..];
      j < |all| && AllAbove(R, row, x, all[j])
  {
    var n := |trees| - 1;
    if !op.OrOp? {
      j := k;
    } else if i < n {
      j := i;
    } else {
      j := n + k;
    }
  }

  // ---------- the value of the row ----------

  ghost function GroupTruth(R: Remote, row: RemoteRow, g: seq<Sql>): Value {
    And3(SqlEvalAll(R, row, g))
  }

  /** Beside an OR stand comparisons only. */
  ghost predicate OrTruths(R: Remote, row: RemoteRow, es: seq<Sql>, ks: seq<BoolOp>)
    requires |es| == |ks| + 1
  {
    forall i :: 0 <= i < |ks| && ks[i].OrOp? ==> IsTruth(SqlEval(R, row, es[i])) && IsTruth(SqlEval(R, row, es[i + 1]))
  }

  /** A group of one stands beside an OR. */
  lemma {:induction false} SingleIsTruth(R: Remote, row: RemoteRow, es: seq<Sql>, ks: seq<BoolOp>, j: nat)
    requires |es| == |ks| + 1 && OrTruths(R, row, es, ks)
    requires |Groups(es, ks)| > 1 && j < |Groups(es, ks)| && |Groups(es, ks)[j]| == 1
    ensures IsTruth(SqlEval(R, row, Groups(es, ks)[j][0]))
  {
    var more := Groups(es[1..], ks[1..]);
    TailTruths(R, row, es, ks);
    if ks[0].OrOp? {
      if j > 0 {
        assert Groups(es, ks)[j] == more[j - 1];
        if |more| > 1 {
          SingleIsTruth(R, row, es[1..], ks[1..], j - 1);
        } else {
          assert more[0][0] == es[1..][0];
        }
      }
    } else {
      assert j > 0 && Groups(es, ks)[j] == more[j];
      SingleIsTruth(R, row, es[1..], ks[1..], j);
    }
  }

  lemma TailTruths(R: Remote, row: RemoteRow, es: seq<Sql>, ks: seq<BoolOp>)
    requires |es| == |ks| + 1 && OrTruths(R, row, es, ks) && ks != []
    ensures OrTruths(R, row, es[1..], ks[1..])
  {
    forall i | 0 <= i < |ks[1..]| && ks[1..][i].OrOp?
      ensures IsTruth(SqlEval(R, row, es[1..][i])) && IsTruth(SqlEval(R, row, es[1..][i + 1]))
    {
      assert ks[i + 1].OrOp?;
    }
  }

  lemma {:induction false} RowOrTruths(L: Local, R: Remote, d: Dialect, cx: DeparseCxt, row: RemoteRow, es: seq<Expr>)
    requires cx.quotable && AllReadable(d, cx, es) && ArgumentsAgree(L, R, cx.rel, es) && es != []
    ensures |RowTrees(cx.rel, es)| == |RowOps(cx.rel, es)| + 1
    ensures OrTruths(R, row, RowTrees(cx.rel, es), RowOps(cx.rel, es))
    decreases |es|
  {
    var trees, op := OperandTrees(cx.rel, es[0]), OperandOp(es[0]);
    RowCount(d, cx, es);
    OperandTruths(L, R, d, cx, row, es[0]);
    RowStep(cx.rel, es);
    if |es| > 1 {
      RowOrTruths(L, R, d, cx, row, es[1..]);
      JoinTruths(R, row, trees, op, RowTrees(cx.rel, es[1..]), RowOps(cx.rel, es[1..]));
    }
  }

  lemma OperandTruths(L: Local, R: Remote, d: Dialect, cx: DeparseCxt, row: RemoteRow, e: Expr)
    requires cx.quotable && Readable(d, cx, e) && Agrees(L, R, e) && LiveColumns(cx.rel, e)
    ensures OperandTrees(cx.rel, e) != []
    ensures OperandOp(e).OrOp? ==> forall i :: 0 <= i < |OperandTrees(cx.rel, e)| ==>
              IsTruth(SqlEval(R, row, OperandTrees(cx.rel, e)[i]))
  {
    RunIsGood(d, cx, e);
    if OperandOp(e).OrOp? {
      ChainIsTruth(L, R, d, cx, row, e);
    }
  }

  lemma JoinTruths(R: Remote, row: RemoteRow, trees: seq<Sql>, op: BoolOp, fs: seq<Sql>, ks: seq<BoolOp>)
    requires trees != [] && |fs| == |ks| + 1 && OrTruths(R, row, fs, ks)
    requires op.OrOp? ==> forall i :: 0 <= i < |trees| ==> IsTruth(SqlEval(R, row, trees[i]))
    ensures OrTruths(R, row, trees + fs, Copies(op, |trees| - 1) + ([AndOp] + ks))
  {
    var all, ops := trees + fs, Copies(op, |trees| - 1) + ([AndOp] + ks);
    forall i | 0 <= i < |ops| && ops[i].OrOp?
      ensures IsTruth(SqlEval(R, row, all[i])) && IsTruth(SqlEval(R, row, all[i + 1]))
    {
      if i >= |trees| {
        assert ops[i] == ks[i - |trees|];
      }
    }
  }

  /** A row with an OR in it is the OR of its groups. */
  lemma FlatValue(R: Remote, row: RemoteRow, es: seq<Sql>, ks: seq<BoolOp>, x: Value)
    requires |es| == |ks| + 1 && OrTruths(R, row, es, ks) && OrOp in ks
    ensures IsTruth(SqlEval(R, row, FlatTree(es, ks)))
    ensures
      var gs := Groups(es, ks);
      NotTruer(SqlEval(R, row, FlatTree(es, ks)), x) <==>
        forall j :: 0 <= j < |gs| ==> NotTruer(GroupTruth(R, row, gs[j]), x)
  {
    var gs := Groups(es, ks);
    var vs := SqlEvalAll(R, row, Conjuncts(gs));
    ConnectiveValue(R, row, OrOp, Conjuncts(gs));
    GroupsNotEmpty(es, ks);
    forall j | 0 <= j < |gs|
      ensures vs[j] == GroupTruth(R, row, gs[j])
    {
      if |gs[j]| == 1 {
        SingleIsTruth(R, row, es, ks, j);
      }
      ConjunctValue(R, row, gs[j]);
    }
    AboveOr(x, vs);
  }

  lemma {:induction false} GroupsNotEmpty(es: seq<Sql>, ks: seq<BoolOp>)
    requires |es| == |ks| + 1
    ensures forall j :: 0 <= j < |Groups(es, ks)| ==> Groups(es, ks)[j] != []
  {
    if ks != [] {
      GroupsNotEmpty(es[1..], ks[1..]);
    }
  }

  // ---------- exactly when it is right ----------

  /** No group is truer than any of the conditions. */
  ghost predicate NoGroupTruer(R: Remote, row: RemoteRow, gs: seq<seq<Sql>>, vs: seq<Value>) {
    forall j, i :: 0 <= j < |gs| && 0 <= i < |vs| ==> NotTruer(GroupTruth(R, row, gs[j]), vs[i])
  }

  /** An AND over conditions of which some are OR chains is read as the OR of its groups. It has its value all
      the same exactly where no group is truer than any of the conditions. */
  lemma ChainRowRightIff(L: Local, R: Remote, d: Dialect, cx: DeparseCxt, row: RemoteRow, e: Expr)
    requires ValidDialect(d) && cx.quotable && GoodArguments(d, cx, e) && e.head.Bool? && e.head.op.AndOp? && !Fits(e)
    requires ArgumentsAgree(L, R, cx.rel, e.args)
    ensures |RowTrees(cx.rel, e.args)| == |RowOps(cx.rel, e.args)| + 1
    ensures
      var t, local := FlatTree(RowTrees(cx.rel, e.args), RowOps(cx.rel, e.args)), LocalRow(cx.rel, row);
      && ReadText(d, Shown(d, cx, e)) == Some(t)
      && (SqlEval(R, row, t) == Eval(L, cx.rel.relid, local, e) <==>
            NoGroupTruer(R, row, RowGroups(cx.rel, e.args), EvalAll(L, cx.rel.relid, local, e.args)))
  {
    ChainRowReads(d, cx, e);
    RowEval(L, R, d, cx, row, e.args);
    AndEval(L, cx.rel.relid, LocalRow(cx.rel, row), e);
  }

  lemma ChainRowReads(d: Dialect, cx: DeparseCxt, e: Expr)
    requires ValidDialect(d) && cx.quotable && GoodArguments(d, cx, e) && e.head.Bool? && e.head.op.AndOp? && !Fits(e)
    ensures |RowTrees(cx.rel, e.args)| == |RowOps(cx.rel, e.args)| + 1 && OrOp in RowOps(cx.rel, e.args)
    ensures ReadText(d, Shown(d, cx, e)) == Some(FlatTree(RowTrees(cx.rel, e.args), RowOps(cx.rel, e.args)))
    ensures AllReadable(d, cx, e.args)
  {
    var i := FirstMisfit(e);
    AndReadsAsRow(d, cx, e);
    GoodArgumentsLegible(d, cx, e);
    ReadsAs(d, cx, e, FlatTree(RowTrees(cx.rel, e.args), RowOps(cx.rel, e.args)));
    ArgumentRuns(d, cx, e);
    OrInRow(d, cx, e.args, i);
  }

  lemma RowEval(L: Local, R: Remote, d: Dialect, cx: DeparseCxt, row: RemoteRow, es: seq<Expr>)
    requires cx.quotable && AllReadable(d, cx, es) && ArgumentsAgree(L, R, cx.rel, es) && es != []
    requires OrOp in RowOps(cx.rel, es) && |RowTrees(cx.rel, es)| == |RowOps(cx.rel, es)| + 1
    ensures
      var t := FlatTree(RowTrees(cx.rel, es), RowOps(cx.rel, es));
      var vs := EvalAll(L, cx.rel.relid, LocalRow(cx.rel, row), es);
      SqlEval(R, row, t) == And3(vs) <==> NoGroupTruer(R, row, RowGroups(cx.rel, es), vs)
  {
    var vs := EvalAll(L, cx.rel.relid, LocalRow(cx.rel, row), es);
    RowOrTruths(L, R, d, cx, row, es);
    AndBelowEach(vs, And3(vs));
    var k := SomeGroupAbove(L, R, d, cx, row, es, And3(vs));
    RowDecides(R, row, RowTrees(cx.rel, es), RowOps(cx.rel, es), vs, k);
  }

  lemma AndBelowEach(vs: seq<Value>, x: Value)
    requires x == And3(vs)
    ensures forall i :: 0 <= i < |vs| ==> NotTruer(x, vs[i])
  {
    BelowAnd(x, vs);
  }

  /** The OR of groups of which one is at least as true as the AND: the two are the same exactly where no group
      is truer. */
  lemma RowDecides(R: Remote, row: RemoteRow, es: seq<Sql>, ks: seq<BoolOp>, vs: seq<Value>, k: nat)
    requires |es| == |ks| + 1 && OrTruths(R, row, es, ks) && OrOp in ks
    requires k < |Groups(es, ks)| && AllAbove(R, row, And3(vs), Groups(es, ks)[k])
    ensures
      var gs := Groups(es, ks);
      SqlEval(R, row, FlatTree(es, ks)) == And3(vs) <==> NoGroupTruer(R, row, gs, vs)
  {
    FlatValue(R, row, es, ks, And3(vs));
    RowNotLess(R, row, es, ks, And3(vs), k);
    SameTruth(SqlEval(R, row, FlatTree(es, ks)), And3(vs));
    GroupsBelow(R, row, Groups(es, ks), vs);
  }

  /** The row is at least as true as each of its groups. */
  lemma RowNotLess(R: Remote, row: RemoteRow, es: seq<Sql>, ks: seq<BoolOp>, x: Value, k: nat)
    requires |es| == |ks| + 1 && OrTruths(R, row, es, ks) && OrOp in ks
    requires k < |Groups(es, ks)| && AllAbove(R, row, x, Groups(es, ks)[k])
    ensures NotTruer(x, SqlEval(R, row, FlatTree(es, ks)))
  {
    var g, w := Groups(es, ks)[k], SqlEval(R, row, FlatTree(es, ks));
    BelowAnd(x, SqlEvalAll(R, row, g));
    FlatValue(R, row, es, ks, w);
    NotTruerChain(x, GroupTruth(R, row, g), w);
  }

  lemma NotTruerChain(a: Value, b: Value, c: Value)
    requires NotTruer(a, b) && NotTruer(b, c)
    ensures NotTruer(a, c)
  {
  }

  lemma GroupsBelow(R: Remote, row: RemoteRow, gs: seq<seq<Sql>>, vs: seq<Value>)
    ensures (forall j :: 0 <= j < |gs| ==> NotTruer(GroupTruth(R, row, gs[j]), And3(vs))) <==>
            NoGroupTruer(R, row, gs, vs)
  {
    forall j | 0 <= j < |gs|
      ensures NotTruer(GroupTruth(R, row, gs[j]), And3(vs)) <==>
              forall i :: 0 <= i < |vs| ==> NotTruer(GroupTruth(R, row, gs[j]), vs[i])
    {
      BelowAnd(GroupTruth(R, row, gs[j]), vs);
    }
  }
}
