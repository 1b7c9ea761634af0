/** Pushing aggregates and LIMIT to the remote server: the wrapper's hook at each stage of query
    planning, what it refuses, and what it adds.
 */
module UpperPaths {
  import opened Nodes
  import opened Shippable
  import opened Select
  import opened Grouping

  datatype Stage = BaseStage | GroupAgg | WindowStage | DistinctStage | OrderedStage | FinalStage

  /** What the hook reads of the query. */
  datatype Parse = Parse(isSelect: bool, rowMarks: bool, groupClause: bool, groupingSets: bool, having: bool,
                         hasAggs: bool, windows: bool, distinct: bool, ordered: bool, targetSRFs: bool,
                         withTies: bool, limit: Limit)

  /** A foreign scan of the table or of its aggregates, with or without LIMIT; or a local step. */
  datatype Path =
    | ForeignBase(hasLimit: bool, sorted: bool)
    | ForeignGrouped(tlist: seq<Expr>, hasLimit: bool, sorted: bool)
    | LocalStage(stage: Stage, sub: Path)
    | LocalSrfs(sub: Path)

  /** The wrapper's private data on a planner relation. */
  datatype FpInfo = FpInfo(stage: Stage, pushdownSafe: bool, localConds: seq<RestrictInfo>, tlist: seq<Expr>,
                           outer: Option<RelInfo>)

  datatype RelInfo = RelInfo(isUpper: bool, fdwPrivate: Option<FpInfo>, pathlist: seq<Path>)

  // ---------- the hook, as a function ----------

  function RelGlob(relid: nat, rel: RelInfo): GlobCxt {
    if rel.isUpper then GlobCxt(0, true) else GlobCxt(relid, false)
  }

  predicate IsForeignOptional(g: GlobCxt, e: Option<Expr>) {
    e.None? || IsForeignExpr(g, e.value)
  }

  /** The planner's own test whether a LIMIT step is needed at all. */
  predicate LimitNeeded(limit: Limit) {
    || (limit.count.Some? && !(limit.count.value.Const? && limit.count.value.datum.NullDatum?))
    || (limit.offset.Some? && !(limit.offset.value.Const? &&
          (limit.offset.value.datum.NullDatum? || limit.offset.value.datum == Scalar("0"))))
  }

  function FreshInfo(stage: Stage): FpInfo {
    FpInfo(stage, false, [], [], None)
  }

  predicate Pushable(rel: RelInfo) {
    rel.fdwPrivate.Some? && rel.fdwPrivate.value.pushdownSafe
  }

  /** The only aggregation that is considered: aggregates without GROUP BY, sets or HAVING. */
  predicate SimpleAggregation(P: Parse) {
    P.hasAggs && !P.groupClause && !P.groupingSets && !P.having
  }

  function WithGrouping(P: Parse, relid: nat, targets: seq<Expr>, input: RelInfo, output: RelInfo): RelInfo
    requires input.fdwPrivate.Some?
  {
    var fp := FreshInfo(GroupAgg);
    if !SimpleAggregation(P) then output.(fdwPrivate := Some(fp))
    else
      var tlist := if input.fdwPrivate.value.localConds != [] then None
                   else GroupedTlist(GlobCxt(0, true), relid, targets);
      match tlist
      case None => output.(fdwPrivate := Some(fp.(outer := Some(input))))
      case Some(ts) =>
        output.(fdwPrivate := Some(fp.(outer := Some(input), tlist := ts, pushdownSafe := true)),
                pathlist := output.pathlist + [ForeignGrouped(ts, false, false)])
  }

  /** The relation whose foreign path LIMIT is added to: below a sort, the sort's input. */
  function LimitInput(input: RelInfo): RelInfo
    requires input.fdwPrivate.Some?
  {
    if input.isUpper && input.fdwPrivate.value.stage == OrderedStage && input.fdwPrivate.value.outer.Some?
    then input.fdwPrivate.value.outer.value
    else input
  }

  predicate LimitPushable(P: Parse, relid: nat, input: RelInfo) {
    && input.fdwPrivate.Some? && input.fdwPrivate.value.localConds == []
    && !P.withTies
    && !(P.limit.count.None? && P.limit.offset.Some?)
    && IsForeignOptional(RelGlob(relid, input), P.limit.offset)
    && IsForeignOptional(RelGlob(relid, input), P.limit.count)
  }

  function LimitPath(input: RelInfo, sorted: bool): Path {
    if input.isUpper && input.fdwPrivate.Some? then ForeignGrouped(input.fdwPrivate.value.tlist, true, sorted)
    else ForeignBase(true, sorted)
  }

  function WithFinal(P: Parse, relid: nat, input: RelInfo, output: RelInfo): RelInfo
    requires input.fdwPrivate.Some?
  {
    var fp := FreshInfo(FinalStage);
    if !P.isSelect || P.rowMarks || !LimitNeeded(P.limit) || P.targetSRFs then output.(fdwPrivate := Some(fp))
    else
      var below := LimitInput(input);
      if !LimitPushable(P, relid, below) then output.(fdwPrivate := Some(fp.(outer := Some(input))))
      else
        output.(fdwPrivate := Some(fp.(outer := Some(input), pushdownSafe := true)),
                pathlist := output.pathlist + [LimitPath(below, below != input)])
  }

  /** What the hook makes of the stage's output relation. */
  function UpperPathsOf(P: Parse, relid: nat, targets: seq<Expr>, stage: Stage, input: RelInfo,
                        output: RelInfo): RelInfo
  {
    if !Pushable(input) || (stage != GroupAgg && stage != FinalStage) || output.fdwPrivate.Some? then output
    else if stage == GroupAgg then WithGrouping(P, relid, targets, input, output)
    else WithFinal(P, relid, input, output)
  }

  // ---------- the hook in its own form ----------

  class RelOptInfo {
    const isUpper: bool
    var fdwPrivate: Option<FpInfo>
    var pathlist: seq<Path>

    constructor (isUpper: bool, fdwPrivate: Option<FpInfo>, pathlist: seq<Path>)
      ensures Value() == RelInfo(isUpper, fdwPrivate, pathlist)
    {
      this.isUpper, this.fdwPrivate, this.pathlist := isUpper, fdwPrivate, pathlist;
    }

    function Value(): RelInfo
      reads this
    {
      RelInfo(isUpper, fdwPrivate, pathlist)
    }

    method AddPath(p: Path)
      modifies this
      ensures Value() == old(Value()).(pathlist := old(pathlist) + [p])
    {
      pathlist := pathlist + [p];
    }
  }

  method AddForeignGroupingPaths(P: Parse, relid: nat, targets: seq<Expr>, input: RelOptInfo, output: RelOptInfo)
    requires input != output && input.fdwPrivate.Some?
    requires output.fdwPrivate == Some(FreshInfo(GroupAgg))
    modifies output
    ensures output.Value() == WithGrouping(P, relid, targets, input.Value(), old(output.Value()))
  {
    if P.groupClause || P.groupingSets || P.having || !P.hasAggs {
      return;
    }
    output.fdwPrivate := Some(output.fdwPrivate.value.(outer := Some(input.Value())));
    var tlist := ForeignGroupingOk(GlobCxt(0, true), relid, targets, P.groupingSets, input.fdwPrivate.value.localConds);
    if tlist.None? {
      return;
    }
    output.fdwPrivate := Some(output.fdwPrivate.value.(tlist := tlist.value, pushdownSafe := true));
    output.AddPath(ForeignGrouped(tlist.value, false, false));
  }

  method CheckForeignOptional(g: GlobCxt, e: Option<Expr>) returns (ok: bool)
    ensures ok == IsForeignOptional(g, e)
  {
    if e.None? {
      return true;
    }
    ok := CheckForeignExpr(g, e.value);
  }

  method AddForeignFinalPaths(P: Parse, relid: nat, input: RelOptInfo, output: RelOptInfo)
    requires input != output && input.fdwPrivate.Some?
    requires output.fdwPrivate == Some(FreshInfo(FinalStage))
    modifies output
    ensures output.Value() == WithFinal(P, relid, input.Value(), old(output.Value()))
  {
    if !P.isSelect {
      return;
    }
    if P.rowMarks {
      return;
    }
    if !LimitNeeded(P.limit) {
      return;
    }
    if P.targetSRFs {
      return;
    }
    output.fdwPrivate := Some(output.fdwPrivate.value.(outer := Some(input.Value())));
    var below := LimitInput(input.Value());
    if below.fdwPrivate.None? || below.fdwPrivate.value.localConds != [] {
      return;
    }
    if P.withTies {
      return;
    }
    if P.limit.count.None? && P.limit.offset.Some? {
      return;
    }
    var offsetOk := CheckForeignOptional(RelGlob(relid, below), P.limit.offset);
    var countOk := CheckForeignOptional(RelGlob(relid, below), P.limit.count);
    if !offsetOk || !countOk {
      return;
    }
    output.fdwPrivate := Some(output.fdwPrivate.value.(pushdownSafe := true));
    output.AddPath(LimitPath(below, below != input.Value()));
  }

  /** The hook: called by the planner for each stage after the scan. */
  method GetForeignUpperPaths(P: Parse, relid: nat, targets: seq<Expr>, stage: Stage, input: RelOptInfo,
                              output: RelOptInfo)
    requires input != output
    modifies output
    ensures output.Value() == UpperPathsOf(P, relid, targets, stage, input.Value(), old(output.Value()))
  {
    if input.fdwPrivate.None? || !input.fdwPrivate.value.pushdownSafe {
      return;
    }
    if (stage != GroupAgg && stage != FinalStage) || output.fdwPrivate.Some? {
      return;
    }
    output.fdwPrivate := Some(FreshInfo(stage));
    if stage == GroupAgg {
      AddForeignGroupingPaths(P, relid, targets, input, output);
    } else {
      AddForeignFinalPaths(P, relid, input, output);
    }
  }

  // ---------- the planner's stages ----------

  function LocalPaths(stage: Stage, ps: seq<Path>): (r: seq<Path>)
    ensures |r| == |ps| && forall i :: 0 <= i < |ps| ==> r[i] == LocalStage(stage, ps[i])
  {
    if ps == [] then [] else [LocalStage(stage, ps[0])] + LocalPaths(stage, ps[1..])
  }

  function SrfPaths(ps: seq<Path>): (r: seq<Path>)
    ensures |r| == |ps| && forall i :: 0 <= i < |ps| ==> r[i] == LocalSrfs(ps[i])
  {
    if ps == [] then [] else [LocalSrfs(ps[0])] + SrfPaths(ps[1..])
  }

  /** The planner makes the stage's relation with a local path over each input path, then calls the
      hook. */
  function Planned(P: Parse, relid: nat, targets: seq<Expr>, stage: Stage, wanted: bool, input: RelInfo): RelInfo {
    if !wanted then input
    else
      UpperPathsOf(P, relid, targets, stage, input, RelInfo(true, None, LocalPaths(stage, input.pathlist)))
  }

  /** Set-returning functions are put on top of the relation's own paths. */
  function WithSrfs(P: Parse, input: RelInfo): RelInfo {
    if P.targetSRFs then input.(pathlist := SrfPaths(input.pathlist)) else input
  }

  predicate Grouped(P: Parse) { P.groupClause || P.groupingSets || P.having || P.hasAggs }

  function BaseRel(localConds: seq<RestrictInfo>): RelInfo {
    RelInfo(false, Some(FpInfo(BaseStage, true, localConds, [], None)), [ForeignBase(false, false)])
  }

  function GroupedRel(P: Parse, relid: nat, targets: seq<Expr>, base: RelInfo): RelInfo {
    WithSrfs(P, Planned(P, relid, targets, GroupAgg, Grouped(P), base))
  }

  function SortedRel(P: Parse, relid: nat, targets: seq<Expr>, base: RelInfo): RelInfo {
    var windowed := Planned(P, relid, targets, WindowStage, P.windows, GroupedRel(P, relid, targets, base));
    var deduplicated := Planned(P, relid, targets, DistinctStage, P.distinct, windowed);
    Planned(P, relid, targets, OrderedStage, P.ordered, deduplicated)
  }

  /** All stages of a query. */
  function FinalRel(P: Parse, relid: nat, targets: seq<Expr>, localConds: seq<RestrictInfo>): RelInfo {
    Planned(P, relid, targets, FinalStage, true, SortedRel(P, relid, targets, BaseRel(localConds)))
  }

  /** The planner calls the hook again for a relation it already has: nothing changes. */
  lemma SecondCallChangesNothing(P: Parse, relid: nat, targets: seq<Expr>, stage: Stage, input: RelInfo,
                                 output: RelInfo)
    ensures var once := UpperPathsOf(P, relid, targets, stage, input, output);
            UpperPathsOf(P, relid, targets, stage, input, once) == once
  {
  }

  /** A stage the wrapper does not handle leaves no private data, so nothing after it is pushed down:
      with a window function, DISTINCT or ORDER BY, LIMIT is always applied locally. */
  lemma UnhandledStageBlocks(P: Parse, relid: nat, targets: seq<Expr>, localConds: seq<RestrictInfo>)
    requires P.windows || P.distinct || P.ordered
    ensures
      var below := SortedRel(P, relid, targets, BaseRel(localConds));
      && below.fdwPrivate.None?
      && FinalRel(P, relid, targets, localConds) == RelInfo(true, None, LocalPaths(FinalStage, below.pathlist))
  {
  }

  /** LIMIT is pushed only without local conditions, GROUP BY, HAVING, DISTINCT, window functions or
      ORDER BY, and a pushed path never claims to be sorted. */
  lemma LimitIsPushedOnlyIf(P: Parse, relid: nat, targets: seq<Expr>, localConds: seq<RestrictInfo>, p: Path)
    requires p in FinalRel(P, relid, targets, localConds).pathlist && !p.LocalStage?
    ensures localConds == [] && !P.groupClause && !P.groupingSets && !P.having
    ensures !P.windows && !P.distinct && !P.ordered && !P.targetSRFs && !P.rowMarks && P.isSelect && !P.withTies
    ensures p == if P.hasAggs then LimitPath(GroupedRel(P, relid, targets, BaseRel(localConds)), false)
                 else ForeignBase(true, false)
  {
    var sorted := SortedRel(P, relid, targets, BaseRel(localConds));
    var locals := LocalPaths(FinalStage, sorted.pathlist);
    if p in locals {
      assert false;
    }
  }
}
