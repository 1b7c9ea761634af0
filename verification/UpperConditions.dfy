/** Exactly when aggregates and LIMIT are pushed to the remote server, as a condition on the query and the table, and
    exactly what is then fetched.
 */
module UpperConditions {
  import opened Nodes
  import opened Shippable
  import opened Select
  import opened Grouping
  import opened UpperPaths

  // ---------- the variables and aggregates of an expression ----------

  predicate IsAggregate(e: Expr) { e.Node? && e.head.Agg? }

  /** At the path stands a variable or an aggregate that is in no other aggregate. */
  predicate OutermostAt(e: Expr, path: seq<nat>, x: Expr)
    decreases |path|
  {
    if path == [] then e == x && (x.Var? || IsAggregate(x))
    else e.Node? && !IsAggregate(e) && path[0] < |e.args| && OutermostAt(e.args[path[0]], path[1..], x)
  }

  ghost predicate IsOutermost(e: Expr, x: Expr) {
    exists path :: OutermostAt(e, path, x)
  }

  /** It stands there as a subexpression, with no aggregate above it. */
  lemma {:induction false} OutermostIsThere(e: Expr, path: seq<nat>, x: Expr)
    requires OutermostAt(e, path, x)
    ensures SubAt(e, path) == Some(x)
    ensures forall k :: 0 <= k < |path| ==> SubAt(e, path[..k]).Some? && !IsAggregate(SubAt(e, path[..k]).value)
    decreases |path|
  {
    if path != [] {
      OutermostIsThere(e.args[path[0]], path[1..], x);
      forall k | 0 <= k < |path|
        ensures SubAt(e, path[..k]).Some? && !IsAggregate(SubAt(e, path[..k]).value)
      {
        if k > 0 {
          assert path[..k][1..] == path[1..][..k - 1];
        }
      }
    }
  }

  lemma {:induction false} PulledAreOutermost(e: Expr, x: Expr) returns (path: seq<nat>)
    requires x in PullVars(e)
    ensures OutermostAt(e, path, x)
    decreases e, 0
  {
    path := [];
    if e.Node? && !e.head.Agg? {
      var i, rest := PulledFromList(e.args, x);
      path := [i] + rest;
      assert path[1..] == rest;
    }
  }

  lemma {:induction false} PulledFromList(es: seq<Expr>, x: Expr) returns (i: nat, path: seq<nat>)
    requires x in PullVarsAll(es)
    ensures i < |es| && OutermostAt(es[i], path, x)
    decreases es, 1
  {
    if x in PullVars(es[0]) {
      i := 0;
      path := PulledAreOutermost(es[0], x);
    } else {
      i, path := PulledFromList(es[1..], x);
      i := i + 1;
    }
  }

  lemma {:induction false} OutermostArePulled(e: Expr, path: seq<nat>, x: Expr)
    requires OutermostAt(e, path, x)
    ensures x in PullVars(e)
    decreases |path|
  {
    if path != [] {
      OutermostArePulled(e.args[path[0]], path[1..], x);
      PullVarsAllMembers(e.args, path[0], x);
    }
  }

  /** What is pulled out of an expression are its variables and aggregates that are in no aggregate. */
  lemma PulledIffOutermost(e: Expr, x: Expr)
    ensures x in PullVars(e) <==> IsOutermost(e, x)
  {
    if x in PullVars(e) {
      var path := PulledAreOutermost(e, x);
    } else if path :| OutermostAt(e, path, x) {
      OutermostArePulled(e, path, x);
    }
  }

  // ---------- aggregation ----------

  const UPPER := GlobCxt(0, true)

  /** The whole target is computed remotely: it may be, and is no variable of another relation. */
  ghost predicate ShipsWhole(relid: nat, e: Expr) {
    Ships(UPPER, e) && !e.Param? && (e.Var? ==> e.varno == relid && e.varlevelsup == 0)
  }

  /** The target can be computed from what may be computed remotely. */
  ghost predicate TargetShips(relid: nat, e: Expr) {
    ShipsWhole(relid, e) || forall x :: IsOutermost(e, x) ==> Ships(UPPER, x)
  }

  /** What is fetched for a target: itself, or its aggregates. */
  ghost predicate FetchedFor(relid: nat, e: Expr, x: Expr) {
    if ShipsWhole(relid, e) then x == e else IsAggregate(x) && IsOutermost(e, x)
  }

  predicate NoDuplicates(es: seq<Expr>) {
    forall i, j :: 0 <= i < j < |es| ==> es[i] != es[j]
  }

  lemma WholeIsForeign(relid: nat, e: Expr)
    ensures ShipsWhole(relid, e) <==> IsForeignExpr(UPPER, e) && !IsForeignParam(relid, e)
  {
    ForeignIffShips(UPPER, e);
  }

  lemma PulledShip(e: Expr)
    ensures IsForeignList(UPPER, PullVars(e)) <==> forall x :: IsOutermost(e, x) ==> Ships(UPPER, x)
  {
    ForeignListIffShips(UPPER, PullVars(e));
    forall x
      ensures x in PullVars(e) <==> IsOutermost(e, x)
    {
      PulledIffOutermost(e, x);
    }
  }

  lemma {:induction false} AggregatesOnce(tlist: seq<Expr>, es: seq<Expr>)
    requires NoDuplicates(tlist)
    ensures NoDuplicates(AddAggregates(tlist, es))
  {
    if es != [] {
      AggregatesOnce(tlist, es[..|es| - 1]);
    }
  }

  /** One target: whether it can be had, and what is added for it. */
  lemma TargetFetches(relid: nat, tlist: seq<Expr>, e: Expr, x: Expr)
    requires NoDuplicates(tlist)
    ensures AddTarget(UPPER, relid, tlist, e).Some? <==> TargetShips(relid, e)
    ensures AddTarget(UPPER, relid, tlist, e).Some? ==>
              var more := AddTarget(UPPER, relid, tlist, e).value;
              NoDuplicates(more) && (x in more <==> x in tlist || FetchedFor(relid, e, x))
  {
    WholeIsForeign(relid, e);
    PulledShip(e);
    AggregatesOnce(tlist, PullVars(e));
    AddAggregatesMembers(tlist, PullVars(e), x);
    PulledIffOutermost(e, x);
  }

  /** The aggregation can be had exactly when every target can, and the list fetched for it holds exactly what the
      targets need, each once. */
  lemma {:induction false} FetchedList(relid: nat, targets: seq<Expr>, x: Expr)
    ensures GroupedTlist(UPPER, relid, targets).Some? <==> forall e :: e in targets ==> TargetShips(relid, e)
    ensures GroupedTlist(UPPER, relid, targets).Some? ==>
              var tlist := GroupedTlist(UPPER, relid, targets).value;
              NoDuplicates(tlist) && (x in tlist <==> exists e :: e in targets && FetchedFor(relid, e, x))
  {
    if targets != [] {
      var k := |targets| - 1;
      FetchedList(relid, targets[..k], x);
      assert targets == targets[..k] + [targets[k]];
      if GroupedTlist(UPPER, relid, targets[..k]).Some? {
        TargetFetches(relid, GroupedTlist(UPPER, relid, targets[..k]).value, targets[k], x);
      }
    }
  }

  /** The query is an aggregation that can be pushed down. */
  ghost predicate AggregationShips(P: Parse, relid: nat, targets: seq<Expr>, localConds: seq<RestrictInfo>) {
    && P.hasAggs && !P.groupClause && !P.groupingSets && !P.having && localConds == []
    && forall e :: e in targets ==> TargetShips(relid, e)
  }

  /** A foreign path for the aggregation is added exactly when there are aggregates, no GROUP BY, grouping sets or
      HAVING, no local condition, and every target can be had. */
  lemma GroupedPathIff(P: Parse, relid: nat, targets: seq<Expr>, localConds: seq<RestrictInfo>)
    ensures
      var rel := Planned(P, relid, targets, GroupAgg, Grouped(P), BaseRel(localConds));
      && (Grouped(P) ==> (Pushable(rel) <==> AggregationShips(P, relid, targets, localConds)))
      && ((exists p :: p in rel.pathlist && p.ForeignGrouped?) <==> AggregationShips(P, relid, targets, localConds))
  {
    var base := BaseRel(localConds);
    var rel := Planned(P, relid, targets, GroupAgg, Grouped(P), base);
    FetchedList(relid, targets, Param);
    if AggregationShips(P, relid, targets, localConds) {
      var p := ForeignGrouped(GroupedTlist(UPPER, relid, targets).value, false, false);
      assert rel.pathlist == LocalPaths(GroupAgg, base.pathlist) + [p];
      assert p in rel.pathlist;
    } else if Grouped(P) {
      assert rel.pathlist == LocalPaths(GroupAgg, base.pathlist);
    }
  }

  // ---------- LIMIT ----------

  /** The bound is not given, or may be evaluated remotely. */
  ghost predicate BoundShips(g: GlobCxt, e: Option<Expr>) {
    e.Some? ==> Ships(g, e.value)
  }

  /** LIMIT can be pushed down. */
  ghost predicate LimitShips(P: Parse, relid: nat, targets: seq<Expr>, localConds: seq<RestrictInfo>) {
    var g := if Grouped(P) then UPPER else GlobCxt(relid, false);
    && P.isSelect && !P.rowMarks && LimitNeeded(P.limit) && !P.targetSRFs && !P.withTies
    && !P.windows && !P.distinct && !P.ordered && localConds == []
    && (Grouped(P) ==> AggregationShips(P, relid, targets, localConds))
    && P.limit.count.Some? && BoundShips(g, P.limit.count) && BoundShips(g, P.limit.offset)
  }

  lemma BoundIsForeign(g: GlobCxt, e: Option<Expr>)
    ensures IsForeignOptional(g, e) <==> BoundShips(g, e)
  {
    if e.Some? {
      ForeignIffShips(g, e.value);
    }
  }

  /** A foreign path with LIMIT is added exactly for a SELECT whose LIMIT is needed and has a count, without row locks,
      set-returning functions, WITH TIES, window functions, DISTINCT, ORDER BY and local conditions, whose aggregation,
      if any, is pushed down, and whose bounds may be evaluated remotely. */
  lemma LimitPathIff(P: Parse, relid: nat, targets: seq<Expr>, localConds: seq<RestrictInfo>)
    ensures (exists p :: p in FinalRel(P, relid, targets, localConds).pathlist && !p.LocalStage?) <==>
            LimitShips(P, relid, targets, localConds)
  {
    if P.windows || P.distinct || P.ordered {
      UnhandledStageBlocks(P, relid, targets, localConds);
    } else {
      FinalOverGrouped(P, relid, targets, localConds);
    }
  }

  lemma FinalOverGrouped(P: Parse, relid: nat, targets: seq<Expr>, localConds: seq<RestrictInfo>)
    requires !P.windows && !P.distinct && !P.ordered
    ensures (exists p :: p in FinalRel(P, relid, targets, localConds).pathlist && !p.LocalStage?) <==>
            LimitShips(P, relid, targets, localConds)
  {
    var below := GroupedRel(P, relid, targets, BaseRel(localConds));
    var final := FinalRel(P, relid, targets, localConds);
    GroupedPathIff(P, relid, targets, localConds);
    BoundIsForeign(RelGlob(relid, below), P.limit.count);
    BoundIsForeign(RelGlob(relid, below), P.limit.offset);
    if LimitShips(P, relid, targets, localConds) {
      var p := LimitPath(below, false);
      assert final.pathlist == LocalPaths(FinalStage, below.pathlist) + [p];
      assert p in final.pathlist;
    } else {
      assert final.pathlist == LocalPaths(FinalStage, below.pathlist);
    }
  }
}
