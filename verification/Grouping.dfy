/** Aggregates without GROUP BY: deciding what the remote server computes, reading the statement,
    and the proof that the fetched values give every output expression its own value.
 */
module Grouping {
  import opened Nodes
  import opened Lexical
  import opened Reader
  import opened Shippable
  import opened ArrayPieces
  import opened Deparse
  import opened Phrases
  import opened ArrayRead
  import opened RoundTrip
  import opened Semantics
  import opened ArrayCompare
  import opened Preservation
  import opened Select
  import opened RemoteServer

  // ---------- what the local server computes ----------

  /** The local engine: scalar evaluation, and aggregates over the argument lists of all rows. */
  datatype Engine = Engine(scalar: Local, aggr: (Oid, seq<seq<Value>>) -> Value)

  function ArgumentRows(L: Local, relid: nat, rows: seq<seq<Value>>, args: seq<Expr>): (r: seq<seq<Value>>)
    ensures |r| == |rows| && forall i :: 0 <= i < |rows| ==> r[i] == EvalAll(L, relid, rows[i], args)
  {
    if rows == [] then [] else [EvalAll(L, relid, rows[0], args)] + ArgumentRows(L, relid, rows[1..], args)
  }

  /** The value of an output expression over all rows. A column outside any aggregate has no value. */
  function AggEval(E: Engine, relid: nat, rows: seq<seq<Value>>, e: Expr): Value {
    match e
    case Var(varno, varattno, varlevelsup, _, _) =>
      if varno == relid && varlevelsup == 0 then NullV else E.scalar.outer(varno, varattno, varlevelsup)
    case Const(t, _, v) => ConstValue(E.scalar, t, v)
    case Param => NullV
    case Node(h, args) =>
      if h.Agg? then E.aggr(h.aggfnoid, ArgumentRows(E.scalar, relid, rows, args))
      else HeadValue(E.scalar, h, AggEvalAll(E, relid, rows, args))
  }

  function AggEvalAll(E: Engine, relid: nat, rows: seq<seq<Value>>, es: seq<Expr>): (r: seq<Value>)
    ensures |r| == |es| && forall i :: 0 <= i < |es| ==> r[i] == AggEval(E, relid, rows, es[i])
  {
    if es == [] then [] else [AggEval(E, relid, rows, es[0])] + AggEvalAll(E, relid, rows, es[1..])
  }

  // ---------- deciding what is fetched ----------

  /** An expression whose value would have to be sent to the remote server. */
  predicate IsForeignParam(outerRelid: nat, e: Expr) {
    match e
    case Var(varno, _, varlevelsup, _, _) => !(varno == outerRelid && varlevelsup == 0)
    case Param => true
    case _ => false
  }

  /** The variables and the outermost aggregates of an expression. */
  function PullVars(e: Expr): seq<Expr>
    decreases e, 0
  {
    match e
    case Var(_, _, _, _, _) => [e]
    case Node(h, args) => if h.Agg? then [e] else PullVarsAll(args)
    case _ => []
  }

  function PullVarsAll(es: seq<Expr>): seq<Expr>
    decreases es, 1
  {
    if es == [] then [] else PullVars(es[0]) + PullVarsAll(es[1..])
  }

  function AddFlat(tlist: seq<Expr>, e: Expr): seq<Expr> {
    if e in tlist then tlist else tlist + [e]
  }

  function AddAggregates(tlist: seq<Expr>, es: seq<Expr>): seq<Expr> {
    if es == [] then tlist
    else
      var k := |es| - 1;
      var before := AddAggregates(tlist, es[..k]);
      if es[k].Node? && es[k].head.Agg? then AddFlat(before, es[k]) else before
  }

  predicate IsForeignList(g: GlobCxt, es: seq<Expr>) {
    WalkList(g, es).Some? && forall i :: 0 <= i < |es| ==> !ContainsMutable(es[i])
  }

  /** The list fetched for the first targets, or None where an aggregate cannot be shipped. */
  function GroupedTlist(g: GlobCxt, outerRelid: nat, targets: seq<Expr>): Option<seq<Expr>> {
    if targets == [] then Some([])
    else
      var k := |targets| - 1;
      var before := GroupedTlist(g, outerRelid, targets[..k]);
      if before.None? then None else AddTarget(g, outerRelid, before.value, targets[k])
  }

  function AddTarget(g: GlobCxt, outerRelid: nat, tlist: seq<Expr>, e: Expr): Option<seq<Expr>> {
    if IsForeignExpr(g, e) && !IsForeignParam(outerRelid, e) then Some(AddFlat(tlist, e))
    else if !IsForeignList(g, PullVars(e)) then None
    else Some(AddAggregates(tlist, PullVars(e)))
  }

  /** A list may be evaluated remotely exactly when each of its elements may. */
  lemma ForeignListIffShips(g: GlobCxt, es: seq<Expr>)
    ensures IsForeignList(g, es) <==> forall e :: e in es ==> Ships(g, e)
  {
    ListAcceptance(g, es);
    forall e | e in es
      ensures Ships(g, e) <==> Walk(g, e).Some? && !ContainsMutable(e)
    {
      ForeignIffShips(g, e);
    }
    if IsForeignList(g, es) {
      forall e | e in es
        ensures Ships(g, e)
      {
        var i :| 0 <= i < |es| && es[i] == e;
      }
    } else if forall e :: e in es ==> Walk(g, e).Some? {
      var i :| 0 <= i < |es| && ContainsMutable(es[i]);
      assert es[i] in es;
    }
  }

  method CheckForeignList(g: GlobCxt, es: seq<Expr>) returns (ok: bool)
    ensures ok == IsForeignList(g, es)
    ensures ok <==> forall e :: e in es ==> Ships(g, e)
  {
    ForeignListIffShips(g, es);
    var cxt := new ForeignLocCxt();
    ok := ListWalker(g, es, cxt);
    if !ok { return; }
    ok := forall i :: 0 <= i < |es| ==> !ContainsMutable(es[i]);
  }

  method AddTargetToTlist(g: GlobCxt, outerRelid: nat, tlist: seq<Expr>, e: Expr) returns (r: Option<seq<Expr>>)
    ensures r == AddTarget(g, outerRelid, tlist, e)
  {
    var foreign := CheckForeignExpr(g, e);
    if foreign && !IsForeignParam(outerRelid, e) {
      return Some(AddFlat(tlist, e));
    }
    var aggvars := PullVars(e);
    var shippable := CheckForeignList(g, aggvars);
    if !shippable {
      return None;
    }
    var more := tlist;
    var i := 0;
    while i < |aggvars|
      invariant 0 <= i <= |aggvars|
      invariant more == AddAggregates(tlist, aggvars[..i])
    {
      assert aggvars[..i + 1][..i] == aggvars[..i];
      if aggvars[i].Node? && aggvars[i].head.Agg? {
        more := AddFlat(more, aggvars[i]);
      }
      i := i + 1;
    }
    assert aggvars[..i] == aggvars;
    return Some(more);
  }

  /** Assess whether the aggregation can be shipped, and what must be fetched for it. */
  method ForeignGroupingOk(g: GlobCxt, outerRelid: nat, targets: seq<Expr>, groupingSets: bool,
                           localConds: seq<RestrictInfo>) returns (r: Option<seq<Expr>>)
    ensures r == if groupingSets || localConds != [] then None else GroupedTlist(g, outerRelid, targets)
  {
    if groupingSets || localConds != [] {
      return None;
    }
    var tlist: seq<Expr> := [];
    var i := 0;
    while i < |targets|
      invariant 0 <= i <= |targets|
      invariant Some(tlist) == GroupedTlist(g, outerRelid, targets[..i])
    {
      assert targets[..i + 1][..i] == targets[..i];
      var more := AddTargetToTlist(g, outerRelid, tlist, targets[i]);
      if more.None? {
        GroupingFails(g, outerRelid, targets, i + 1);
        return None;
      }
      tlist := more.value;
      i := i + 1;
    }
    assert targets[..i] == targets;
    return Some(tlist);
  }

  /** One target that cannot be computed remotely stops the aggregation from being shipped. */
  lemma {:induction false} GroupingFails(g: GlobCxt, outerRelid: nat, targets: seq<Expr>, i: nat)
    requires i <= |targets| && GroupedTlist(g, outerRelid, targets[..i]).None?
    ensures GroupedTlist(g, outerRelid, targets).None?
  {
    var k := |targets| - 1;
    if i == |targets| {
      assert targets[..i] == targets;
    } else {
      assert targets[..k][..i] == targets[..i];
      GroupingFails(g, outerRelid, targets[..k], i);
    }
  }

  // ---------- every target is covered ----------

  /** The expression, or each of its aggregates, is fetched. */
  predicate Covered(tlist: seq<Expr>, e: Expr) {
    || e in tlist
    || match e
       case Node(h, args) => !h.Agg? && forall i :: 0 <= i < |args| ==> Covered(tlist, args[i])
       case _ => true
  }

  lemma {:induction false} AddAggregatesMembers(tlist: seq<Expr>, es: seq<Expr>, e: Expr)
    ensures e in AddAggregates(tlist, es) <==> e in tlist || (e in es && e.Node? && e.head.Agg?)
  {
    if es != [] {
      var k := |es| - 1;
      AddAggregatesMembers(tlist, es[..k], e);
      assert es == es[..k] + [es[k]];
    }
  }

  lemma {:induction false} PullVarsAllMembers(es: seq<Expr>, i: nat, e: Expr)
    requires i < |es| && e in PullVars(es[i])
    ensures e in PullVarsAll(es)
  {
    if i > 0 {
      PullVarsAllMembers(es[1..], i - 1, e);
    }
  }

  /** If its outermost aggregates are fetched, an expression is covered. */
  lemma {:induction false} AggregatesCover(tlist: seq<Expr>, e: Expr)
    requires forall x :: x in PullVars(e) && x.Node? ==> x in tlist
    ensures Covered(tlist, e)
  {
    if e.Node? && !e.head.Agg? {
      forall i | 0 <= i < |e.args|
        ensures Covered(tlist, e.args[i])
      {
        forall x | x in PullVars(e.args[i]) && x.Node?
          ensures x in tlist
        {
          PullVarsAllMembers(e.args, i, x);
        }
        AggregatesCover(tlist, e.args[i]);
      }
    }
  }

  lemma {:induction false} PulledNodesAreAggregates(e: Expr, x: Expr)
    requires x in PullVars(e) && x.Node?
    ensures x.head.Agg?
    decreases e, 0
  {
    if e.Node? && !e.head.Agg? {
      PulledNodesAllAreAggregates(e.args, x);
    }
  }

  lemma {:induction false} PulledNodesAllAreAggregates(es: seq<Expr>, x: Expr)
    requires x in PullVarsAll(es) && x.Node?
    ensures x.head.Agg?
    decreases es, 1
  {
    if x in PullVars(es[0]) {
      PulledNodesAreAggregates(es[0], x);
    } else {
      PulledNodesAllAreAggregates(es[1..], x);
    }
  }

  lemma {:induction false} CoveredByMore(less: seq<Expr>, more: seq<Expr>, e: Expr)
    requires Covered(less, e) && forall x :: x in less ==> x in more
    ensures Covered(more, e)
  {
    if e.Node? && e !in less {
      forall i | 0 <= i < |e.args|
        ensures Covered(more, e.args[i])
      {
        CoveredByMore(less, more, e.args[i]);
      }
    }
  }

  lemma AddTargetGrows(g: GlobCxt, outerRelid: nat, tlist: seq<Expr>, e: Expr)
    requires AddTarget(g, outerRelid, tlist, e).Some?
    ensures forall x :: x in tlist ==> x in AddTarget(g, outerRelid, tlist, e).value
    ensures Covered(AddTarget(g, outerRelid, tlist, e).value, e)
  {
    var more := AddTarget(g, outerRelid, tlist, e).value;
    forall x
      ensures x in AddAggregates(tlist, PullVars(e)) <==> x in tlist || (x in PullVars(e) && x.Node? && x.head.Agg?)
    {
      AddAggregatesMembers(tlist, PullVars(e), x);
    }
    if !(IsForeignExpr(g, e) && !IsForeignParam(outerRelid, e)) {
      forall x | x in PullVars(e) && x.Node?
        ensures x in more
      {
        PulledNodesAreAggregates(e, x);
      }
      AggregatesCover(more, e);
    }
  }

  /** When the aggregation is shipped, every target can be computed from what is fetched. */
  lemma {:induction false} TargetsCovered(g: GlobCxt, outerRelid: nat, targets: seq<Expr>, i: nat)
    requires i < |targets| && GroupedTlist(g, outerRelid, targets).Some?
    ensures Covered(GroupedTlist(g, outerRelid, targets).value, targets[i])
  {
    var k := |targets| - 1;
    var before := GroupedTlist(g, outerRelid, targets[..k]).value;
    AddTargetGrows(g, outerRelid, before, targets[k]);
    if i < k {
      TargetsCovered(g, outerRelid, targets[..k], i);
      CoveredByMore(before, GroupedTlist(g, outerRelid, targets).value, targets[i]);
    }
  }

  // ---------- computing the targets from the fetched values ----------

  function IndexOf(es: seq<Expr>, e: Expr): (i: nat)
    requires e in es
    ensures i < |es| && es[i] == e
  {
    if es[0] == e then 0 else 1 + IndexOf(es[1..], e)
  }

  /** The local server replaces each fetched subexpression by its value. */
  function EvalFetched(L: Local, relid: nat, tlist: seq<Expr>, values: seq<Value>, e: Expr): Value
    requires |values| == |tlist|
  {
    if e in tlist then values[IndexOf(tlist, e)]
    else
      match e
      case Var(varno, varattno, varlevelsup, _, _) =>
        if varno == relid && varlevelsup == 0 then NullV else L.outer(varno, varattno, varlevelsup)
      case Const(t, _, v) => ConstValue(L, t, v)
      case Param => NullV
      case Node(h, args) => HeadValue(L, h, EvalFetchedAll(L, relid, tlist, values, args))
  }

  function EvalFetchedAll(L: Local, relid: nat, tlist: seq<Expr>, values: seq<Value>, es: seq<Expr>): (r: seq<Value>)
    requires |values| == |tlist|
    ensures |r| == |es| && forall i :: 0 <= i < |es| ==> r[i] == EvalFetched(L, relid, tlist, values, es[i])
  {
    if es == [] then []
    else [EvalFetched(L, relid, tlist, values, es[0])] + EvalFetchedAll(L, relid, tlist, values, es[1..])
  }

  /** From the values of the fetched list, every covered expression gets its own value. */
  lemma {:induction false} FetchedIsEnough(E: Engine, relid: nat, rows: seq<seq<Value>>, tlist: seq<Expr>, e: Expr)
    requires Covered(tlist, e)
    ensures EvalFetched(E.scalar, relid, tlist, AggEvalAll(E, relid, rows, tlist), e) == AggEval(E, relid, rows, e)
  {
    var values := AggEvalAll(E, relid, rows, tlist);
    if e.Node? && e !in tlist {
      forall i | 0 <= i < |e.args|
        ensures EvalFetched(E.scalar, relid, tlist, values, e.args[i]) == AggEval(E, relid, rows, e.args[i])
      {
        FetchedIsEnough(E, relid, rows, tlist, e.args[i]);
      }
      assert EvalFetchedAll(E.scalar, relid, tlist, values, e.args) == AggEvalAll(E, relid, rows, e.args);
    }
  }

  // ---------- the remote server computes the same list ----------

  /** The servers agree on scalar primitives and aggregates; scalar functions are not called like
      aggregates; an implicit cast's further arguments are constants, and the left side of a comparison
      with a null array, which is not printed either, holds no aggregate. */
  ghost predicate AggAgrees(E: Engine, S: Server, e: Expr) {
    match e
    case Const(t, _, v) => ConstValue(E.scalar, t, v) == LiteralValue(S.scalar, EraseConst(t, v))
    case Node(h, args) =>
      if h.Agg? then
        && (!h.star ==> h.name in SUPPORTED_AGGREGATES)
        && (forall vss: seq<seq<Value>> :: E.aggr(h.aggfnoid, vss) == S.aggr(h.name, vss))
        && forall i :: 0 <= i < |args| ==> Agrees(E.scalar, S.scalar, args[i])
      else
        && NodeAgrees(E.scalar, S.scalar, h, args)
        && (h.Func? && !h.format.ImplicitCast? ==> h.schema.Some? || h.name !in SUPPORTED_AGGREGATES)
        && (h.Func? && h.format.ImplicitCast? ==> forall i :: 1 <= i < |args| ==> args[i].Const?)
        && (h.ScalarArrayOp? && Children(e) == [] ==> !ContainsAgg(e))
        && forall i :: 0 <= i < |Children(e)| ==> AggAgrees(E, S, Children(e)[i])
    case _ => true
  }

  function LocalRows(rel: Rel, rows: seq<RemoteRow>): (r: seq<seq<Value>>)
    ensures |r| == |rows| && forall i :: 0 <= i < |rows| ==> r[i] == LocalRow(rel, rows[i])
  {
    if rows == [] then [] else [LocalRow(rel, rows[0])] + LocalRows(rel, rows[1..])
  }

  /** Evaluation over all rows. */
  function OverRows(S: Server, rows: seq<RemoteRow>): Sql -> Value {
    s => AggregateValue(S, rows, s)
  }

  lemma OverRowsComputes(S: Server, rows: seq<RemoteRow>)
    ensures Computes(S.scalar, OverRows(S, rows))
    ensures forall ss: seq<Sql> :: Values(OverRows(S, rows), ss) == AggregateValues(S, rows, ss)
  {
    forall ss: seq<Sql>
      ensures Values(OverRows(S, rows), ss) == AggregateValues(S, rows, ss)
    {
    }
  }

  lemma ArgumentsAgree(E: Engine, S: Server, d: Dialect, cx: DeparseCxt, rows: seq<RemoteRow>, args: seq<Expr>)
    requires forall i :: 0 <= i < |args| ==>
               Readable(d, cx, args[i]) && Agrees(E.scalar, S.scalar, args[i]) && LiveColumns(cx.rel, args[i])
    ensures RowValues(S.scalar, EraseAll(cx.rel, args), rows) ==
            ArgumentRows(E.scalar, cx.rel.relid, LocalRows(cx.rel, rows), args)
  {
    forall k | 0 <= k < |rows|
      ensures SqlEvalAll(S.scalar, rows[k], EraseAll(cx.rel, args)) ==
              EvalAll(E.scalar, cx.rel.relid, LocalRow(cx.rel, rows[k]), args)
    {
      forall i | 0 <= i < |args|
        ensures SqlEval(S.scalar, rows[k], Erase(cx.rel, args[i])) ==
                Eval(E.scalar, cx.rel.relid, LocalRow(cx.rel, rows[k]), args[i])
      {
        ErasePreservesValue(E.scalar, S.scalar, d, cx, rows[k], args[i]);
      }
    }
  }

  /** What the server computes for a list entry over its rows is what the local server would compute
      over the local rows they stand for. */
  lemma {:induction false} AggregatePreserved(E: Engine, S: Server, d: Dialect, cx: DeparseCxt, rows: seq<RemoteRow>,
                                              e: Expr)
    requires Readable(d, cx, e) && AggAgrees(E, S, e) && LiveColumns(cx.rel, e)
    ensures AggregateValue(S, rows, Erase(cx.rel, e)) ==
            AggEval(E, cx.rel.relid, LocalRows(cx.rel, rows), e)
    decreases e, 1
  {
    match e {
      case Var(_, _, _, _, _) =>
      case Const(t, _, v) =>
        OverRowsComputes(S, rows);
        ConstIsLiteral(S.scalar, OverRows(S, rows), t, v);
      case Node(h, args) =>
        if h.Agg? {
          AggNodePreserved(E, S, d, cx, rows, e);
        } else {
          AggChildrenPreserved(E, S, d, cx, rows, e);
          NodeOverRows(E, S, d, cx, rows, h, args, AggEvalAll(E, cx.rel.relid, LocalRows(cx.rel, rows), args));
        }
    }
  }

  lemma {:induction false} AggChildrenPreserved(E: Engine, S: Server, d: Dialect, cx: DeparseCxt, rows: seq<RemoteRow>,
                                                e: Expr)
    requires Readable(d, cx, e) && AggAgrees(E, S, e) && LiveColumns(cx.rel, e) && e.Node? && !e.head.Agg?
    ensures forall i :: 0 <= i < |Children(e)| ==>
              AggregateValue(S, rows, Erase(cx.rel, Children(e)[i])) ==
              AggEval(E, cx.rel.relid, LocalRows(cx.rel, rows), Children(e)[i])
    decreases e, 0
  {
    forall i | 0 <= i < |Children(e)|
      ensures AggregateValue(S, rows, Erase(cx.rel, Children(e)[i])) ==
              AggEval(E, cx.rel.relid, LocalRows(cx.rel, rows), Children(e)[i])
    {
      ChildrenLive(cx.rel, e);
      AggregatePreserved(E, S, d, cx, rows, Children(e)[i]);
    }
  }

  lemma AggNodePreserved(E: Engine, S: Server, d: Dialect, cx: DeparseCxt, rows: seq<RemoteRow>, e: Expr)
    requires e.Node? && e.head.Agg?
    requires Readable(d, cx, e) && AggAgrees(E, S, e) && LiveColumns(cx.rel, e)
    ensures AggregateValue(S, rows, Erase(cx.rel, e)) ==
            AggEval(E, cx.rel.relid, LocalRows(cx.rel, rows), e)
  {
    ArgumentsReadable(d, cx, e);
    ArgumentsAgree(E, S, d, cx, rows, e.args);
    if e.head.star {
      assert EraseAll(cx.rel, e.args) == [];
    }
  }

  lemma NodeOverRows(E: Engine, S: Server, d: Dialect, cx: DeparseCxt, rows: seq<RemoteRow>, h: Head, args: seq<Expr>,
                     vs: seq<Value>)
    requires LegibleNode(d, cx, Node(h, args)) && AggAgrees(E, S, Node(h, args)) && !h.Agg?
    requires vs == AggEvalAll(E, cx.rel.relid, LocalRows(cx.rel, rows), args)
    requires
      var cs := Children(Node(h, args));
      forall i :: 0 <= i < |cs| ==>
        AggregateValue(S, rows, Erase(cx.rel, cs[i])) == AggEval(E, cx.rel.relid, LocalRows(cx.rel, rows), cs[i])
    ensures AggregateValue(S, rows, Erase(cx.rel, Node(h, args))) == HeadValue(E.scalar, h, vs)
  {
    var ev, cs := OverRows(S, rows), Children(Node(h, args));
    OverRowsComputes(S, rows);
    if h.ScalarArrayOp? {
      RightOverRows(E, S, cx.rel, rows, h, args, vs);
      assert cs != [] ==> cs[0] == args[0];
      ArrayOpPreserved(E.scalar, S.scalar, ev, d, cx, h, args, vs);
    } else {
      assert cs == args;
      CallsOverRows(E, S, cx.rel, rows, h, args);
      NodePreserved(E.scalar, S.scalar, ev, d, cx, h, args, vs);
    }
  }

  lemma CallsOverRows(E: Engine, S: Server, rel: Rel, rows: seq<RemoteRow>, h: Head, args: seq<Expr>)
    requires AggAgrees(E, S, Node(h, args)) && !h.Agg?
    ensures CallsFit(S.scalar, OverRows(S, rows), rel, h, args)
  {
    OverRowsComputes(S, rows);
    if h.Func? && !h.format.ImplicitCast? {
      assert !IsAggregateHead(HCall(h.schema, h.name));
    }
  }

  lemma RightOverRows(E: Engine, S: Server, rel: Rel, rows: seq<RemoteRow>, h: Head, args: seq<Expr>, vs: seq<Value>)
    requires h.ScalarArrayOp? && |args| == 2 && (args[1].Node? ==> args[1].head.ArrayOf?)
    requires vs == AggEvalAll(E, rel.relid, LocalRows(rel, rows), args)
    requires
      var cs := Children(Node(h, args));
      forall i :: 0 <= i < |cs| ==>
        AggregateValue(S, rows, Erase(rel, cs[i])) == AggEval(E, rel.relid, LocalRows(rel, rows), cs[i])
    ensures RightValue(E.scalar, OverRows(S, rows), rel, args[1], vs[1])
  {
    if args[1].Node? {
      var es, cs := args[1].args, Children(Node(h, args));
      forall i | 0 <= i < |es|
        ensures AggregateValue(S, rows, Erase(rel, es[i])) == AggEvalAll(E, rel.relid, LocalRows(rel, rows), es)[i]
      {
        assert cs[i + 1] == es[i];
      }
    }
  }

  // ---------- an aggregate query stays one when printed ----------

  predicate ContainsAgg(e: Expr) {
    match e
    case Node(h, args) => h.Agg? || exists i :: 0 <= i < |args| && ContainsAgg(args[i])
    case _ => false
  }

  predicate SomeAggregate(ss: seq<Sql>) {
    exists i :: 0 <= i < |ss| && HasAggregate(ss[i])
  }

  lemma AggregateAppended(a: seq<Sql>, b: seq<Sql>)
    requires SomeAggregate(a) || SomeAggregate(b)
    ensures SomeAggregate(a + b)
  {
    if SomeAggregate(a) {
      var i :| 0 <= i < |a| && HasAggregate(a[i]);
      assert (a + b)[i] == a[i];
    } else {
      var i :| 0 <= i < |b| && HasAggregate(b[i]);
      assert (a + b)[|a| + i] == b[i];
    }
  }

  /** An aggregate in an argument of AND or OR stays among the merged arguments. */
  lemma {:induction false} MergedShows(rel: Rel, op: BoolOp, es: seq<Expr>, i: nat)
    requires i < |es| && HasAggregate(Erase(rel, es[i]))
    ensures SomeAggregate(EraseArguments(rel, op, es))
  {
    var t := Erase(rel, es[0]);
    var first, rest := Splice(op, FormOf(es[0]), t), EraseArguments(rel, op, es[1..]);
    if i > 0 {
      MergedShows(rel, op, es[1..], i - 1);
    } else if FormOf(es[0]) == ChainForm(op) {
      ChainErases(rel, es[0]);
    } else {
      assert first == [t] && HasAggregate(first[0]);
    }
    AggregateAppended(first, rest);
  }

  /** An aggregate in a bound stays one in the order of the text. */
  lemma {:induction false} OrderShows(ss: seq<Sql>, nUpper: nat, i: nat, k: nat)
    requires 1 + nUpper <= |ss| && i <= k < nUpper
    requires HasAggregate(ss[1 + k]) || (1 + nUpper + k < |ss| && HasAggregate(ss[1 + nUpper + k]))
    ensures SomeAggregate(TextOrder(ss, nUpper, i))
    decreases nUpper - i
  {
    var low := if 1 + nUpper + i < |ss| then [ss[1 + nUpper + i]] else [];
    var rest := TextOrder(ss, nUpper, i + 1);
    if i < k {
      OrderShows(ss, nUpper, i + 1, k);
      AggregateAppended([ss[1 + i]], rest);
    } else if HasAggregate(ss[1 + k]) {
      assert HasAggregate([ss[1 + i]][0]);
      AggregateAppended([ss[1 + i]], rest);
    } else {
      assert HasAggregate(low[0]);
    }
    AggregateAppended(low, [ss[1 + i]] + rest);
  }

  /** An aggregate in an operand of an array comparison. */
  lemma ArrayTreeShows(opname: string, useOr: bool, left: Sql, elements: seq<Sql>)
    requires elements != [] && (HasAggregate(left) || SomeAggregate(elements))
    ensures HasAggregate(ArrayTree(opname, useOr, left, elements))
  {
    if UsesIn(opname, useOr) {
      assert HasAggregate(left) ==> HasAggregate([left][0]);
      AggregateAppended([left], elements);
    } else {
      var trees := ComparisonSqls(left, opname, elements);
      var i: nat := 0;
      if !HasAggregate(left) {
        i :| 0 <= i < |elements| && HasAggregate(elements[i]);
      }
      assert trees[i].args[0] == left && trees[i].args[1] == elements[i];
      assert HasAggregate(trees[i]);
    }
  }

  lemma SubscriptShows(rel: Rel, h: Head, args: seq<Expr>, i: nat)
    requires h.Subscript? && Arity(h, |args|) && i < |args| && HasAggregate(Erase(rel, args[i]))
    ensures HasAggregate(Erase(rel, Node(h, args)))
  {
    var all := EraseAll(rel, args);
    var bounds := TextOrder(all, h.nUpper, 0);
    if i == 0 {
      assert HasAggregate(all[..1][0]);
    } else {
      OrderShows(all, h.nUpper, 0, if i <= h.nUpper then i - 1 else i - 1 - h.nUpper);
    }
    AggregateAppended(all[..1], bounds);
    assert Erase(rel, Node(h, args)).args == all[..1] + bounds;
  }

  /** An aggregate in a subexpression shows in the node's tree. */
  lemma ArrayOpShows(d: Dialect, cx: DeparseCxt, e: Expr, i: nat)
    requires LegibleNode(d, cx, e) && e.Node? && e.head.ScalarArrayOp? && i < |Children(e)|
    requires HasAggregate(Erase(cx.rel, Children(e)[i]))
    ensures HasAggregate(Erase(cx.rel, e))
  {
    var elements := ElementTrees(cx.rel, e.args[1]);
    if i > 0 {
      assert elements[i - 1] == Erase(cx.rel, Children(e)[i]);
    }
    ArrayTreeShows(e.head.opname, e.head.useOr, Erase(cx.rel, e.args[0]), elements);
  }

  lemma NodeShows(d: Dialect, cx: DeparseCxt, e: Expr, i: nat)
    requires LegibleNode(d, cx, e) && e.Node? && !e.head.Agg? && i < |Children(e)| && (Invisible(e.head) ==> i == 0)
    requires HasAggregate(Erase(cx.rel, Children(e)[i]))
    ensures HasAggregate(Erase(cx.rel, e))
  {
    var h, args := e.head, e.args;
    if h.ScalarArrayOp? {
      ArrayOpShows(d, cx, e, i);
    } else if h.Bool? {
      MergedShows(cx.rel, h.op, args, i);
    } else if h.Subscript? {
      SubscriptShows(cx.rel, h, args, i);
    } else if !Invisible(h) {
      EraseKeepsHead(cx.rel, h, args);
      assert HasAggregate(EraseAll(cx.rel, args)[i]);
    }
  }

  /** An aggregate in the expression is an aggregate in the text. */
  lemma {:induction false} AggregateShows(E: Engine, S: Server, d: Dialect, cx: DeparseCxt, e: Expr)
    requires Readable(d, cx, e) && AggAgrees(E, S, e) && ContainsAgg(e)
    ensures HasAggregate(Erase(cx.rel, e))
  {
    if !e.head.Agg? {
      var i := ChildWithAgg(d, cx, e);
      AggregateShows(E, S, d, cx, Children(e)[i]);
      NodeShows(d, cx, e, i);
    }
  }

  /** The aggregate is in some subexpression that is printed. */
  lemma ChildWithAgg(d: Dialect, cx: DeparseCxt, e: Expr) returns (i: nat)
    requires LegibleNode(d, cx, e) && e.Node? && !e.head.Agg? && ContainsAgg(e)
    requires e.head.ScalarArrayOp? ==> Children(e) != []
    requires Invisible(e.head) ==> forall k :: 1 <= k < |e.args| ==> e.args[k].Const?
    ensures i < |Children(e)| && ContainsAgg(Children(e)[i])
    ensures Invisible(e.head) ==> i == 0
  {
    var k :| 0 <= k < |e.args| && ContainsAgg(e.args[k]);
    i := k;
    if e.head.ScalarArrayOp? && k == 1 {
      var es := e.args[1].args;
      var j :| 0 <= j < |es| && ContainsAgg(es[j]);
      assert Children(e)[j + 1] == es[j];
      i := j + 1;
    }
  }

  /** If some target holds an aggregate, something fetched does. */
  lemma {:induction false} FetchedHoldsAggregate(tlist: seq<Expr>, e: Expr) returns (x: Expr)
    requires Covered(tlist, e) && ContainsAgg(e)
    ensures x in tlist && ContainsAgg(x)
  {
    if e in tlist {
      x := e;
    } else {
      var i :| 0 <= i < |e.args| && ContainsAgg(e.args[i]);
      x := FetchedHoldsAggregate(tlist, e.args[i]);
    }
  }
}
