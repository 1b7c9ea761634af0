/** Planning and printing the SELECT statement of a foreign scan: splitting the conditions, finding
    the columns to fetch, and deparsing the statement.
 */
module Select {
  import opened Nodes
  import opened Lexical
  import opened Tokens
  import opened Shippable
  import opened ArrayPieces
  import opened Deparse

  /** A condition of the query on the foreign table. */
  datatype RestrictInfo = RestrictInfo(clause: Expr, pseudoconstant: bool)

  // ---------- splitting the conditions ----------

  /** The conditions that may be shipped, or those that may not, in order. */
  function Classified(g: GlobCxt, conds: seq<RestrictInfo>, ship: bool): (r: seq<RestrictInfo>) {
    if conds == [] then []
    else
      var k := |conds| - 1;
      Classified(g, conds[..k], ship) + if IsForeignExpr(g, conds[k].clause) == ship then [conds[k]] else []
  }

  method ClassifyConditions(g: GlobCxt, inputConds: seq<RestrictInfo>)
    returns (remoteConds: seq<RestrictInfo>, localConds: seq<RestrictInfo>)
    ensures remoteConds == Classified(g, inputConds, true)
    ensures localConds == Classified(g, inputConds, false)
  {
    remoteConds, localConds := [], [];
    var i := 0;
    while i < |inputConds|
      invariant 0 <= i <= |inputConds|
      invariant remoteConds == Classified(g, inputConds[..i], true)
      invariant localConds == Classified(g, inputConds[..i], false)
    {
      assert inputConds[..i + 1][..i] == inputConds[..i];
      var ri := inputConds[i];
      var foreign := CheckForeignExpr(g, ri.clause);
      if foreign {
        remoteConds := remoteConds + [ri];
      } else {
        localConds := localConds + [ri];
      }
      i := i + 1;
    }
    assert inputConds[..i] == inputConds;
  }

  /** Every condition lands on exactly the side its own shippability says. */
  lemma {:induction false} ClassifiedMembers(g: GlobCxt, conds: seq<RestrictInfo>, ship: bool, ri: RestrictInfo)
    ensures ri in Classified(g, conds, ship) <==> ri in conds && IsForeignExpr(g, ri.clause) == ship
  {
    if conds != [] {
      var k := |conds| - 1;
      ClassifiedMembers(g, conds[..k], ship, ri);
      assert conds == conds[..k] + [conds[k]];
    }
  }

  /** Nothing is lost or duplicated. */
  lemma {:induction false} ClassifiedKeepsAll(g: GlobCxt, conds: seq<RestrictInfo>)
    ensures multiset(Classified(g, conds, true)) + multiset(Classified(g, conds, false)) == multiset(conds)
  {
    if conds == [] {
      assert multiset(conds) == multiset{};
    } else {
      var k := |conds| - 1;
      ClassifiedKeepsAll(g, conds[..k]);
      OneMore(Classified(g, conds[..k], true), Classified(g, conds[..k], false), conds[..k], conds[k]);
      assert conds == conds[..k] + [conds[k]];
      assert Classified(g, conds, true) == Classified(g, conds[..k], true) + [] ||
             Classified(g, conds, false) == Classified(g, conds[..k], false) + [];
    }
  }

  lemma OneMore(a: seq<RestrictInfo>, b: seq<RestrictInfo>, all: seq<RestrictInfo>, c: RestrictInfo)
    requires multiset(a) + multiset(b) == multiset(all)
    ensures multiset(a + [c]) + multiset(b + []) == multiset(all + [c])
    ensures multiset(a + []) + multiset(b + [c]) == multiset(all + [c])
  {
    assert a + [] == a && b + [] == b;
  }

  /** The conditions at these increasing places, in order. */
  predicate TakenFrom(all: seq<RestrictInfo>, places: seq<int>, side: seq<RestrictInfo>) {
    && Increasing(places) && |side| == |places|
    && forall k :: 0 <= k < |places| ==> 0 <= places[k] < |all| && side[k] == all[places[k]]
  }

  /** One more condition at the end, if it belongs to the side. */
  lemma TakenSnoc(all: seq<RestrictInfo>, c: RestrictInfo, places: seq<int>, side: seq<RestrictInfo>, more: bool)
    returns (after: seq<int>)
    requires TakenFrom(all, places, side)
    ensures TakenFrom(all + [c], after, side + if more then [c] else [])
    ensures forall i :: i in after <==> i in places || (more && i == |all|)
  {
    after := places + if more then [|all|] else [];
    assert side + [] == side && places + [] == places;
    assert forall i :: i in after <==> i in places || (more && i == |all|);
  }

  /** The condition at the place belongs to the side: all of its subexpressions may be evaluated remotely, or not. */
  ghost predicate OnSide(g: GlobCxt, conds: seq<RestrictInfo>, ship: bool, i: int) {
    0 <= i < |conds| && Ships(g, conds[i].clause) == ship
  }

  /** One side holds, in order, exactly the conditions that belong to it. */
  lemma {:induction false} ClassifiedInOrder(g: GlobCxt, conds: seq<RestrictInfo>, ship: bool)
    returns (places: seq<int>)
    ensures TakenFrom(conds, places, Classified(g, conds, ship))
    ensures forall i :: i in places <==> OnSide(g, conds, ship, i)
  {
    places := [];
    if conds != [] {
      var k := |conds| - 1;
      var before := ClassifiedInOrder(g, conds[..k], ship);
      ForeignIffShips(g, conds[k].clause);
      places := TakenSnoc(conds[..k], conds[k], before, Classified(g, conds[..k], ship),
                          Ships(g, conds[k].clause) == ship);
      assert conds == conds[..k] + [conds[k]];
      forall i
        ensures i in places <==> OnSide(g, conds, ship, i)
      {
        assert i in before <==> OnSide(g, conds[..k], ship, i);
      }
    }
  }

  // ---------- which columns are needed ----------

  /** The attribute numbers of the scanned table that `e` mentions; 0 is the whole row. */
  function VarAttnos(relid: nat, e: Expr): set<int>
    decreases e, 0
  {
    match e
    case Var(varno, varattno, varlevelsup, _, _) =>
      if varno == relid && varlevelsup == 0 then {varattno} else {}
    case Node(_, args) => VarAttnosAll(relid, args)
    case _ => {}
  }

  function VarAttnosAll(relid: nat, es: seq<Expr>): set<int>
    decreases es, 1
  {
    if es == [] then {} else VarAttnosAll(relid, es[..|es| - 1]) + VarAttnos(relid, es[|es| - 1])
  }

  function Clauses(rs: seq<RestrictInfo>): (r: seq<Expr>)
    ensures |r| == |rs| && forall i :: 0 <= i < |rs| ==> r[i] == rs[i].clause
  {
    if rs == [] then [] else Clauses(rs[..|rs| - 1]) + [rs[|rs| - 1].clause]
  }

  /** The columns needed for output or for the conditions that stay local. */
  function AttrsUsed(g: GlobCxt, targets: seq<Expr>, conds: seq<RestrictInfo>): set<int> {
    VarAttnosAll(g.relid, targets) + VarAttnosAll(g.relid, Clauses(Classified(g, conds, false)))
  }

  lemma AttnosSnoc(relid: nat, es: seq<Expr>, i: nat)
    requires i < |es|
    ensures VarAttnosAll(relid, es[..i + 1]) == VarAttnosAll(relid, es[..i]) + VarAttnos(relid, es[i])
  {
    assert es[..i + 1][..i] == es[..i];
  }

  lemma {:induction false} AttnosOfElement(relid: nat, es: seq<Expr>, e: Expr)
    requires e in es
    ensures VarAttnos(relid, e) <= VarAttnosAll(relid, es)
  {
    var k := |es| - 1;
    if e != es[k] {
      assert es == es[..k] + [es[k]];
      AttnosOfElement(relid, es[..k], e);
    }
  }

  /** The expression mentions the attribute at the path. */
  predicate MentionsAt(relid: nat, e: Expr, path: seq<nat>, a: int) {
    var x := SubAt(e, path);
    x.Some? && x.value.Var? && x.value.varno == relid && x.value.varlevelsup == 0 && x.value.varattno == a
  }

  ghost predicate Mentions(relid: nat, e: Expr, a: int) {
    exists path :: MentionsAt(relid, e, path, a)
  }

  lemma {:induction false} AttnosAreMentioned(relid: nat, e: Expr, a: int) returns (path: seq<nat>)
    requires a in VarAttnos(relid, e)
    ensures MentionsAt(relid, e, path, a)
    decreases e, 0
  {
    path := [];
    if e.Node? {
      var i, rest := AttnoOfSome(relid, e.args, a);
      path := [i] + rest;
      assert path[1..] == rest;
    }
  }

  lemma {:induction false} AttnoOfSome(relid: nat, es: seq<Expr>, a: int) returns (i: nat, path: seq<nat>)
    requires a in VarAttnosAll(relid, es)
    ensures i < |es| && MentionsAt(relid, es[i], path, a)
    decreases es, 1
  {
    var k := |es| - 1;
    if a in VarAttnos(relid, es[k]) {
      i := k;
      path := AttnosAreMentioned(relid, es[k], a);
    } else {
      i, path := AttnoOfSome(relid, es[..k], a);
    }
  }

  lemma {:induction false} MentionedAreAttnos(relid: nat, e: Expr, path: seq<nat>, a: int)
    requires MentionsAt(relid, e, path, a)
    ensures a in VarAttnos(relid, e)
    decreases |path|
  {
    if path != [] {
      MentionedAreAttnos(relid, e.args[path[0]], path[1..], a);
      AttnosOfElement(relid, e.args, e.args[path[0]]);
    }
  }

  lemma AttnosIffMentioned(relid: nat, es: seq<Expr>, a: int)
    ensures a in VarAttnosAll(relid, es) <==> exists e :: e in es && Mentions(relid, e, a)
  {
    if a in VarAttnosAll(relid, es) {
      var i, path := AttnoOfSome(relid, es, a);
      assert Mentions(relid, es[i], a);
    } else if e :| e in es && Mentions(relid, e, a) {
      var path :| MentionsAt(relid, e, path, a);
      MentionedAreAttnos(relid, e, path, a);
      AttnosOfElement(relid, es, e);
    }
  }

  /** The condition stays local and mentions the attribute. */
  ghost predicate LocallyNeeded(g: GlobCxt, ri: RestrictInfo, a: int) {
    !Ships(g, ri.clause) && Mentions(g.relid, ri.clause, a)
  }

  /** An output expression mentions the attribute, or a condition that stays local does. */
  ghost predicate Needed(g: GlobCxt, targets: seq<Expr>, conds: seq<RestrictInfo>, a: int) {
    || (exists e :: e in targets && Mentions(g.relid, e, a))
    || (exists ri :: ri in conds && LocallyNeeded(g, ri, a))
  }

  /** The attributes that are used are exactly those that are needed. */
  lemma UsedIffNeeded(g: GlobCxt, targets: seq<Expr>, conds: seq<RestrictInfo>, a: int)
    ensures a in AttrsUsed(g, targets, conds) <==> Needed(g, targets, conds, a)
  {
    var local := Classified(g, conds, false);
    AttnosIffMentioned(g.relid, targets, a);
    AttnosIffMentioned(g.relid, Clauses(local), a);
    forall ri
      ensures ri in local <==> ri in conds && !Ships(g, ri.clause)
    {
      ClassifiedMembers(g, conds, false, ri);
      ForeignIffShips(g, ri.clause);
    }
    if e :| e in Clauses(local) && Mentions(g.relid, e, a) {
      var i :| 0 <= i < |local| && Clauses(local)[i] == e;
      assert local[i] in local && LocallyNeeded(g, local[i], a);
    }
    if ri :| ri in conds && LocallyNeeded(g, ri, a) {
      var i :| 0 <= i < |local| && local[i] == ri;
      assert Clauses(local)[i] in Clauses(local);
    }
  }

  /** The side the planner's second pass puts a condition on: where the first pass put it, or where
      it belongs if the first pass did not see it. */
  predicate SentRemotely(g: GlobCxt, remoteConds: seq<RestrictInfo>, localConds: seq<RestrictInfo>, ri: RestrictInfo) {
    if ri in remoteConds then true
    else if ri in localConds then false
    else IsForeignExpr(g, ri.clause)
  }

  /** One side of the scan clauses, pseudo-constants left to the gating node above the scan. */
  function ScanSide(g: GlobCxt, remoteConds: seq<RestrictInfo>, localConds: seq<RestrictInfo>,
                    scanClauses: seq<RestrictInfo>, ship: bool): (r: seq<RestrictInfo>)
  {
    if scanClauses == [] then []
    else
      var k := |scanClauses| - 1;
      var ri := scanClauses[k];
      ScanSide(g, remoteConds, localConds, scanClauses[..k], ship)
      + if !ri.pseudoconstant && SentRemotely(g, remoteConds, localConds, ri) == ship then [ri] else []
  }

  lemma {:induction false} ScanSideMembers(g: GlobCxt, remoteConds: seq<RestrictInfo>, localConds: seq<RestrictInfo>,
                                           scanClauses: seq<RestrictInfo>, ship: bool, ri: RestrictInfo)
    ensures ri in ScanSide(g, remoteConds, localConds, scanClauses, ship) <==>
            ri in scanClauses && !ri.pseudoconstant && SentRemotely(g, remoteConds, localConds, ri) == ship
  {
    if scanClauses != [] {
      var k := |scanClauses| - 1;
      ScanSideMembers(g, remoteConds, localConds, scanClauses[..k], ship, ri);
      assert scanClauses == scanClauses[..k] + [scanClauses[k]];
    }
  }

  /** The second pass agrees with the first, and with the test itself. */
  lemma SentIffShips(g: GlobCxt, conds: seq<RestrictInfo>, ri: RestrictInfo)
    ensures SentRemotely(g, Classified(g, conds, true), Classified(g, conds, false), ri) <==> Ships(g, ri.clause)
  {
    ClassifiedMembers(g, conds, true, ri);
    ClassifiedMembers(g, conds, false, ri);
    ForeignIffShips(g, ri.clause);
  }

  /** Of the scan clauses, exactly those that are no pseudo-constants and may be evaluated remotely are shipped, and
      those that may not are kept, in order. */
  lemma {:induction false} ScanSideInOrder(g: GlobCxt, conds: seq<RestrictInfo>, scanClauses: seq<RestrictInfo>,
                                           ship: bool) returns (places: seq<int>)
    ensures TakenFrom(scanClauses, places,
                      ScanSide(g, Classified(g, conds, true), Classified(g, conds, false), scanClauses, ship))
    ensures forall i :: i in places <==> OnSide(g, scanClauses, ship, i) && !scanClauses[i].pseudoconstant
  {
    places := [];
    if scanClauses != [] {
      var k := |scanClauses| - 1;
      var before := ScanSideInOrder(g, conds, scanClauses[..k], ship);
      SentIffShips(g, conds, scanClauses[k]);
      places := TakenSnoc(scanClauses[..k], scanClauses[k], before,
                          ScanSide(g, Classified(g, conds, true), Classified(g, conds, false), scanClauses[..k], ship),
                          !scanClauses[k].pseudoconstant && Ships(g, scanClauses[k].clause) == ship);
      assert scanClauses == scanClauses[..k] + [scanClauses[k]];
      forall i
        ensures i in places <==> OnSide(g, scanClauses, ship, i) && !scanClauses[i].pseudoconstant
      {
        assert i in before <==> OnSide(g, scanClauses[..k], ship, i) && !scanClauses[..k][i].pseudoconstant;
      }
    }
  }

  // ---------- the target list ----------

  /** The attributes fetched: of the first `n`, the live ones that are used, or all live ones under
      a whole-row reference. */
  function Retrieved(rel: Rel, used: set<int>, n: nat): (r: seq<int>)
    requires n <= |rel.attrs|
    ensures forall i :: 0 <= i < |r| ==> 1 <= r[i] <= n
  {
    if n == 0 then []
    else
      Retrieved(rel, used, n - 1)
      + if !rel.attrs[n - 1].dropped && (0 in used || n in used) then [n] else []
  }

  predicate Increasing(attnos: seq<int>) {
    forall i, j :: 0 <= i < j < |attnos| ==> attnos[i] < attnos[j]
  }

  lemma IncreasingSnoc(attnos: seq<int>, n: int)
    requires Increasing(attnos) && forall i :: 0 <= i < |attnos| ==> attnos[i] < n
    ensures Increasing(attnos + [n])
  {
  }

  function AttrName(rel: Rel, attno: int): string {
    if 1 <= attno <= |rel.attrs| then rel.attrs[attno - 1].name else ""
  }

  function AttrNames(rel: Rel, attnos: seq<int>): (r: seq<string>)
    ensures |r| == |attnos| && forall i :: 0 <= i < |attnos| ==> r[i] == AttrName(rel, attnos[i])
  {
    if attnos == [] then [] else AttrNames(rel, attnos[..|attnos| - 1]) + [AttrName(rel, attnos[|attnos| - 1])]
  }

  function NameRuns(names: seq<string>): (r: seq<seq<Piece>>)
    ensures |r| == |names| && forall i :: 0 <= i < |names| ==> r[i] == [Name(names[i])]
  {
    if names == [] then [] else NameRuns(names[..|names| - 1]) + [[Name(names[|names| - 1])]]
  }

  /** The column names between commas, or NULL where nothing is fetched. */
  function ColumnList(names: seq<string>): seq<Piece> {
    if names == [] then [Word("NULL")] else JoinPieces(NameRuns(names), ITEM_SEPARATOR)
  }

  function TargetListPieces(cx: DeparseCxt, attnos: seq<int>): Pieces {
    if attnos != [] && !cx.quotable then None else Some(ColumnList(AttrNames(cx.rel, attnos)))
  }

  /** One more element at the end of a list. */
  lemma {:induction false} JoinSnoc(pss: seq<seq<Piece>>, ps: seq<Piece>, sep: seq<Piece>)
    ensures JoinTail(pss + [ps], sep) == JoinTail(pss, sep) + (sep + ps)
    ensures JoinPieces(pss + [ps], sep) == if pss == [] then ps else JoinPieces(pss, sep) + (sep + ps)
  {
    if pss == [] {
      assert pss + [ps] == [ps] && [ps][1..] == [];
      assert JoinTail([ps], sep) == sep + (ps + []);
    } else {
      assert (pss + [ps])[1..] == pss[1..] + [ps];
      JoinSnoc(pss[1..], ps, sep);
      TailRegroup(sep, pss[0], JoinTail(pss[1..], sep), sep + ps);
    }
  }

  lemma TailRegroup(sep: seq<Piece>, a: seq<Piece>, b: seq<Piece>, c: seq<Piece>)
    ensures sep + (a + (b + c)) == sep + (a + b) + c
    ensures a + (b + c) == a + b + c
  {
  }

  /** What the list loop has printed: nothing yet, or the columns so far. */
  ghost predicate ListSoFar(d: Dialect, cx: DeparseCxt, names: seq<string>, start: string, now: string) {
    if names == [] then now == start
    else cx.quotable && Appended(d, start, now, Some(ColumnList(names)))
  }

  /** Emit one more column of the list. */
  method AppendColumn(d: Dialect, cx: DeparseCxt, qChar: string, ghost names: seq<string>, i: int, first: bool,
                      ghost start: string, buf: StringInfo) returns (ok: bool)
    requires Quotes(d, cx, qChar) && 1 <= i <= |cx.rel.attrs|
    requires first == (names == []) && ListSoFar(d, cx, names, start, buf.data)
    modifies buf
    ensures ok == cx.quotable
    ensures ok ==> ListSoFar(d, cx, names + [AttrName(cx.rel, i)], start, buf.data)
  {
    ghost var before := buf.data;
    if !first {
      buf.AppendString(", ");
    }
    ghost var middle := buf.data;
    ok := DeparseColumnRef(d, cx, qChar, i, buf);
    if ok {
      ColumnListSnoc(d, names, cx.rel.attrs[i - 1].name, start, before, middle, buf.data);
    }
  }

  /** Columns 1 to `n` have been looked at. */
  ghost predicate ListState(d: Dialect, cx: DeparseCxt, used: set<int>, n: nat, retrieved: seq<int>,
                            start: string, now: string)
  {
    && n <= |cx.rel.attrs| && retrieved == Retrieved(cx.rel, used, n)
    && ListSoFar(d, cx, AttrNames(cx.rel, retrieved), start, now)
  }

  /** Look at one column. */
  method NextColumn(d: Dialect, cx: DeparseCxt, qChar: string, attrsUsed: set<int>, i: nat, retrieved: seq<int>,
                    ghost start: string, buf: StringInfo) returns (ok: bool, retrievedAttrs: seq<int>)
    requires Quotes(d, cx, qChar) && 1 <= i <= |cx.rel.attrs|
    requires ListState(d, cx, attrsUsed, i - 1, retrieved, start, buf.data)
    modifies buf
    ensures ok ==> ListState(d, cx, attrsUsed, i, retrievedAttrs, start, buf.data)
    ensures !ok ==> TargetListPieces(cx, Retrieved(cx.rel, attrsUsed, |cx.rel.attrs|)) == None
  {
    ok, retrievedAttrs := true, retrieved;
    if !cx.rel.attrs[i - 1].dropped && (0 in attrsUsed || i in attrsUsed) {
      AttrNamesSnoc(cx.rel, retrieved, i);
      ok := AppendColumn(d, cx, qChar, AttrNames(cx.rel, retrieved), i, retrieved == [], start, buf);
      if !ok {
        RetrievedGrows(cx.rel, attrsUsed, i, |cx.rel.attrs|);
      }
      retrievedAttrs := retrieved + [i];
    }
  }

  /** Emit the used columns, recording which they are. */
  method DeparseTargetList(d: Dialect, cx: DeparseCxt, qChar: string, attrsUsed: set<int>, buf: StringInfo)
    returns (ok: bool, retrievedAttrs: seq<int>)
    requires Quotes(d, cx, qChar)
    modifies buf
    ensures ok ==> retrievedAttrs == Retrieved(cx.rel, attrsUsed, |cx.rel.attrs|)
    ensures Printed(d, ok, old(buf.data), buf.data,
                    TargetListPieces(cx, Retrieved(cx.rel, attrsUsed, |cx.rel.attrs|)))
  {
    ghost var start := buf.data;
    retrievedAttrs := [];
    var i := 1;
    while i <= |cx.rel.attrs|
      invariant 1 <= i <= |cx.rel.attrs| + 1
      invariant ListState(d, cx, attrsUsed, i - 1, retrievedAttrs, start, buf.data)
    {
      ok, retrievedAttrs := NextColumn(d, cx, qChar, attrsUsed, i, retrievedAttrs, start, buf);
      if !ok {
        return false, [];
      }
      i := i + 1;
    }
    EmitEmptyList(d, cx, AttrNames(cx.rel, retrievedAttrs), retrievedAttrs == [], start, buf);
    ok := true;
  }

  lemma AttrNamesSnoc(rel: Rel, attnos: seq<int>, i: int)
    ensures AttrNames(rel, attnos + [i]) == AttrNames(rel, attnos) + [AttrName(rel, i)]
  {
    assert (attnos + [i])[..|attnos|] == attnos;
  }

  /** A list without columns is NULL. */
  method EmitEmptyList(d: Dialect, cx: DeparseCxt, ghost names: seq<string>, first: bool, ghost start: string,
                       buf: StringInfo)
    requires first == (names == []) && ListSoFar(d, cx, names, start, buf.data)
    modifies buf
    ensures Appended(d, start, buf.data, Some(ColumnList(names)))
    ensures !first ==> cx.quotable
  {
    if first {
      RenderOne(d, Word("NULL"));
      buf.AppendString("NULL");
    }
  }

  /** Fetched attributes stay fetched as the loop goes on. */
  lemma {:induction false} RetrievedGrows(rel: Rel, used: set<int>, i: nat, n: nat)
    requires 1 <= i <= n <= |rel.attrs|
    requires !rel.attrs[i - 1].dropped && (0 in used || i in used)
    ensures i in Retrieved(rel, used, n)
  {
    if i < n {
      RetrievedGrows(rel, used, i, n - 1);
    }
  }

  /** Printing one more column name at the end of the list. */
  lemma ColumnListSnoc(d: Dialect, names: seq<string>, name: string, start: string, before: string,
                       middle: string, after: string)
    requires if names == [] then before == start && middle == before
             else Appended(d, start, before, Some(ColumnList(names))) && middle == before + ", "
    requires Appended(d, middle, after, Some([Name(name)]))
    ensures Appended(d, start, after, Some(ColumnList(names + [name])))
  {
    var more := names + [name];
    assert more[..|more| - 1] == names;
    assert NameRuns(more) == NameRuns(names) + [[Name(name)]];
    JoinSnoc(NameRuns(names), [Name(name)], ITEM_SEPARATOR);
    if names != [] {
      FixedSeparators(d, AndOp, ',');
      Cat3Render(d, Some(ColumnList(names)), Some(ITEM_SEPARATOR), Some([Name(name)]), start, before, middle, after);
    }
  }

  // ---------- the relation ----------

  function RelationPieces(cx: DeparseCxt): Pieces {
    if cx.quotable then Some(RelationRun(cx.rel)) else None
  }

  function RelationRun(rel: Rel): seq<Piece> {
    if rel.schema.None? || rel.schema.value == "" then [Name(rel.name)]
    else [Name(rel.schema.value), P('.'), Name(rel.name)]
  }

  /** Append the remote name of the table. */
  method DeparseRelation(d: Dialect, cx: DeparseCxt, qChar: string, buf: StringInfo) returns (ok: bool)
    requires Quotes(d, cx, qChar)
    modifies buf
    ensures Printed(d, ok, old(buf.data), buf.data, RelationPieces(cx))
  {
    var nspname, relname := cx.rel.schema, cx.rel.name;
    if nspname.None? {
      ok := DeparseName(d, cx, qChar, relname, buf);
    } else if |nspname.value| == 0 {
      ok := DeparseName(d, cx, qChar, relname, buf);
    } else {
      ghost var s0 := buf.data;
      ok := DeparseName(d, cx, qChar, nspname.value, buf);
      if !ok { return; }
      ghost var s1 := buf.data;
      EmitChar(d, buf, '.');
      ghost var s2 := buf.data;
      ok := DeparseName(d, cx, qChar, relname, buf);
      if !ok { return; }
      Cat3Render(d, Some([Name(nspname.value)]), Some([P('.')]), Some([Name(relname)]), s0, s1, s2, buf.data);
      assert [Name(nspname.value)] + ([P('.')] + [Name(relname)]) == [Name(nspname.value), P('.'), Name(relname)];
    }
  }

  // ---------- WHERE ----------

  const WHERE_OPENING: seq<Piece> := [Sp, Word("WHERE"), Sp]

  function Connective(isFirst: bool): seq<Piece> {
    if isFirst then WHERE_OPENING else BoolSeparator(AndOp)
  }

  /** ` WHERE (c1) AND (c2) ...`, or nothing. */
  function WherePieces(d: Dialect, cx: DeparseCxt, conds: seq<Expr>): Pieces {
    if conds == [] then Some([])
    else
      var k := |conds| - 1;
      Cat(WherePieces(d, cx, conds[..k]), JoinedCondition(d, cx, k == 0, conds[k]))
  }

  function JoinedCondition(d: Dialect, cx: DeparseCxt, isFirst: bool, cond: Expr): Pieces {
    Cat(Some(Connective(isFirst)), Cat(Some([P('(')]), Cat(Print(d, cx, cond), Some([P(')')]))))
  }

  lemma TextConnective(d: Dialect, isFirst: bool)
    ensures Render(d, Connective(isFirst)) == if isFirst then " WHERE " else " AND "
  {
    if isFirst {
      RenderThree(d, Sp, Word("WHERE"), Sp);
      assert " " + ("WHERE" + " ") == " WHERE ";
    } else {
      FixedSeparators(d, AndOp, ',');
      assert " " + "AND" + " " == " AND ";
    }
  }

  /** One condition that cannot be printed stops the clause. */
  lemma {:induction false} WhereStops(d: Dialect, cx: DeparseCxt, conds: seq<Expr>, i: nat)
    requires i < |conds| && Print(d, cx, conds[i]).None?
    ensures WherePieces(d, cx, conds).None?
  {
    var k := |conds| - 1;
    if i < k {
      WhereStops(d, cx, conds[..k], i);
    }
  }

  method AppendCondition(d: Dialect, cx: DeparseCxt, qChar: string, isFirst: bool, cond: Expr, buf: StringInfo)
    returns (ok: bool)
    requires Quotes(d, cx, qChar)
    modifies buf
    ensures Printed(d, ok, old(buf.data), buf.data, JoinedCondition(d, cx, isFirst, cond))
  {
    ghost var s0 := buf.data;
    TextConnective(d, isFirst);
    buf.AppendString(if isFirst then " WHERE " else " AND ");
    ghost var s1 := buf.data;
    EmitChar(d, buf, '(');
    ghost var s2 := buf.data;
    ok := DeparseExpr(d, cx, qChar, cond, buf);
    if !ok { return; }
    ghost var s3 := buf.data;
    EmitChar(d, buf, ')');
    Cat3Render(d, Some([P('(')]), Print(d, cx, cond), Some([P(')')]), s1, s2, s3, buf.data);
    CatRender(d, Some(Connective(isFirst)), Cat(Some([P('(')]), Cat(Print(d, cx, cond), Some([P(')')]))),
              s0, s1, buf.data);
  }

  /** Deparse the WHERE clause: each condition between parentheses, AND between them. */
  method AppendWhereClause(d: Dialect, cx: DeparseCxt, qChar: string, exprs: seq<RestrictInfo>, buf: StringInfo)
    returns (ok: bool)
    requires Quotes(d, cx, qChar)
    modifies buf
    ensures Printed(d, ok, old(buf.data), buf.data, WherePieces(d, cx, Clauses(exprs)))
  {
    ghost var start := buf.data;
    ghost var conds := Clauses(exprs);
    var isFirst := true;
    var i := 0;
    while i < |exprs|
      invariant 0 <= i <= |exprs| && isFirst == (i == 0)
      invariant Appended(d, start, buf.data, WherePieces(d, cx, conds[..i]))
    {
      assert conds[..i + 1][..i] == conds[..i];
      ghost var before := buf.data;
      ok := AppendCondition(d, cx, qChar, isFirst, exprs[i].clause, buf);
      if !ok {
        WhereStops(d, cx, conds, i);
        return;
      }
      CatRender(d, WherePieces(d, cx, conds[..i]), JoinedCondition(d, cx, isFirst, conds[i]), start, before, buf.data);
      isFirst := false;
      i := i + 1;
    }
    assert conds[..i] == conds;
    return true;
  }

  // ---------- LIMIT and OFFSET ----------

  /** The LIMIT and OFFSET expressions of a query that has them pushed down. */
  datatype Limit = Limit(count: Option<Expr>, offset: Option<Expr>)

  const NO_LIMIT := Limit(None, None)

  function LimitPart(d: Dialect, cx: DeparseCxt, word: string, e: Option<Expr>): Pieces {
    match e
    case None => Some([])
    case Some(x) => Cat(Some([Sp, Word(word), Sp]), Print(d, cx, x))
  }

  function LimitPieces(d: Dialect, cx: DeparseCxt, limit: Limit): Pieces {
    Cat(LimitPart(d, cx, "LIMIT", limit.count), LimitPart(d, cx, "OFFSET", limit.offset))
  }

  method AppendLimitPart(d: Dialect, cx: DeparseCxt, qChar: string, word: string, e: Option<Expr>, buf: StringInfo)
    returns (ok: bool)
    requires Quotes(d, cx, qChar)
    modifies buf
    ensures Printed(d, ok, old(buf.data), buf.data, LimitPart(d, cx, word, e))
  {
    if e.None? {
      return true;
    }
    ghost var s0 := buf.data;
    RenderThree(d, Sp, Word(word), Sp);
    buf.AppendString(" " + (word + " "));
    ghost var s1 := buf.data;
    ok := DeparseExpr(d, cx, qChar, e.value, buf);
    if ok {
      CatRender(d, Some([Sp, Word(word), Sp]), Print(d, cx, e.value), s0, s1, buf.data);
    }
  }

  /** Deparse the LIMIT and OFFSET clauses. */
  method AppendLimitClause(d: Dialect, cx: DeparseCxt, qChar: string, limit: Limit, buf: StringInfo)
    returns (ok: bool)
    requires Quotes(d, cx, qChar)
    modifies buf
    ensures Printed(d, ok, old(buf.data), buf.data, LimitPieces(d, cx, limit))
  {
    ghost var s0 := buf.data;
    ok := AppendLimitPart(d, cx, qChar, "LIMIT", limit.count, buf);
    if !ok { return; }
    ghost var s1 := buf.data;
    ok := AppendLimitPart(d, cx, qChar, "OFFSET", limit.offset, buf);
    if !ok { return; }
    CatRender(d, LimitPart(d, cx, "LIMIT", limit.count), LimitPart(d, cx, "OFFSET", limit.offset), s0, s1, buf.data);
  }

  // ---------- the statement ----------

  /** What follows the SELECT list. */
  function FromPieces(d: Dialect, cx: DeparseCxt, conds: seq<Expr>, limit: Limit): Pieces {
    Cat(Some([Sp, Word("FROM"), Sp]),
        Cat(RelationPieces(cx), Cat(WherePieces(d, cx, conds), LimitPieces(d, cx, limit))))
  }

  function SelectPieces(d: Dialect, cx: DeparseCxt, list: Pieces, conds: seq<Expr>, limit: Limit): Pieces {
    Cat(Some([Word("SELECT"), Sp]), Cat(list, FromPieces(d, cx, conds, limit)))
  }

  lemma TextSelect(d: Dialect)
    ensures Render(d, [Word("SELECT"), Sp]) == "SELECT "
    ensures Render(d, [Sp, Word("FROM"), Sp]) == " FROM "
  {
    RenderOne(d, Sp);
    assert [Word("SELECT"), Sp][1..] == [Sp];
    RenderThree(d, Sp, Word("FROM"), Sp);
    assert " " + ("FROM" + " ") == " FROM ";
  }

  method DeparseFrom(d: Dialect, cx: DeparseCxt, qChar: string, quals: seq<RestrictInfo>, limit: Limit, buf: StringInfo)
    returns (ok: bool)
    requires Quotes(d, cx, qChar)
    modifies buf
    ensures Printed(d, ok, old(buf.data), buf.data, FromPieces(d, cx, Clauses(quals), limit))
  {
    ghost var s0 := buf.data;
    TextSelect(d);
    buf.AppendString(" FROM ");
    ghost var s1 := buf.data;
    ok := DeparseRelation(d, cx, qChar, buf);
    if !ok { return; }
    ghost var s2 := buf.data;
    ok := AppendWhereClause(d, cx, qChar, quals, buf);
    if !ok { return; }
    ghost var s3 := buf.data;
    ok := AppendLimitClause(d, cx, qChar, limit, buf);
    if !ok { return; }
    CatRender(d, WherePieces(d, cx, Clauses(quals)), LimitPieces(d, cx, limit), s2, s3, buf.data);
    Cat3Render(d, Some([Sp, Word("FROM"), Sp]), RelationPieces(cx),
               Cat(WherePieces(d, cx, Clauses(quals)), LimitPieces(d, cx, limit)), s0, s1, s2, buf.data);
  }

  /** SELECT of a base relation's used columns. */
  method DeparseSelectStmt(d: Dialect, cx: DeparseCxt, qChar: string, attrsUsed: set<int>,
                           quals: seq<RestrictInfo>, limit: Limit, buf: StringInfo)
    returns (ok: bool, retrievedAttrs: seq<int>)
    requires Quotes(d, cx, qChar)
    modifies buf
    ensures ok ==> retrievedAttrs == Retrieved(cx.rel, attrsUsed, |cx.rel.attrs|)
    ensures Printed(d, ok, old(buf.data), buf.data,
                    SelectPieces(d, cx, TargetListPieces(cx, Retrieved(cx.rel, attrsUsed, |cx.rel.attrs|)),
                                 Clauses(quals), limit))
  {
    ghost var s0 := buf.data;
    TextSelect(d);
    buf.AppendString("SELECT ");
    ghost var s1 := buf.data;
    ok, retrievedAttrs := DeparseTargetList(d, cx, qChar, attrsUsed, buf);
    if !ok { return; }
    ghost var s2 := buf.data;
    ok := DeparseFrom(d, cx, qChar, quals, limit, buf);
    if !ok { return; }
    Cat3Render(d, Some([Word("SELECT"), Sp]), TargetListPieces(cx, Retrieved(cx.rel, attrsUsed, |cx.rel.attrs|)),
               FromPieces(d, cx, Clauses(quals), limit), s0, s1, s2, buf.data);
  }

  // ---------- the planner's record of the scan ----------

  /** The plan handed to the executor. */
  datatype ScanPlan = ScanPlan(sql: string, retrievedAttrs: seq<int>, localExprs: seq<Expr>)

  /** What the planner remembers of the foreign table between its callbacks. */
  class FdwRelationInfo {
    var remoteConds: seq<RestrictInfo>
    var localConds: seq<RestrictInfo>
    var attrsUsed: set<int>

    constructor ()
      ensures remoteConds == [] && localConds == [] && attrsUsed == {}
    {
      remoteConds, localConds, attrsUsed := [], [], {};
    }

    /** Split the conditions and find the columns the scan must fetch. */
    method GetForeignRelSize(g: GlobCxt, targets: seq<Expr>, baserestrictinfo: seq<RestrictInfo>)
      modifies this
      ensures remoteConds == Classified(g, baserestrictinfo, true)
      ensures localConds == Classified(g, baserestrictinfo, false)
      ensures attrsUsed == AttrsUsed(g, targets, baserestrictinfo)
    {
      remoteConds, localConds := ClassifyConditions(g, baserestrictinfo);
      attrsUsed := VarAttnosAll(g.relid, targets);
      var i := 0;
      while i < |localConds|
        invariant 0 <= i <= |localConds|
        invariant attrsUsed == VarAttnosAll(g.relid, targets) + VarAttnosAll(g.relid, Clauses(localConds)[..i])
        modifies this`attrsUsed
      {
        AttnosSnoc(g.relid, Clauses(localConds), i);
        attrsUsed := attrsUsed + VarAttnos(g.relid, localConds[i].clause);
        i := i + 1;
      }
      assert Clauses(localConds)[..i] == Clauses(localConds);
    }

    /** Put each scan clause where the first pass put it; skip the pseudo-constants. */
    method SplitScanClauses(g: GlobCxt, scanClauses: seq<RestrictInfo>)
      returns (remote: seq<RestrictInfo>, localExprs: seq<Expr>)
      ensures remote == ScanSide(g, remoteConds, localConds, scanClauses, true)
      ensures localExprs == Clauses(ScanSide(g, remoteConds, localConds, scanClauses, false))
    {
      remote, localExprs := [], [];
      ghost var locals: seq<RestrictInfo> := [];
      var i := 0;
      while i < |scanClauses|
        invariant 0 <= i <= |scanClauses|
        invariant remote == ScanSide(g, remoteConds, localConds, scanClauses[..i], true)
        invariant locals == ScanSide(g, remoteConds, localConds, scanClauses[..i], false)
        invariant localExprs == Clauses(locals)
      {
        assert scanClauses[..i + 1][..i] == scanClauses[..i];
        var rinfo := scanClauses[i];
        if !rinfo.pseudoconstant {
          var foreign := rinfo in remoteConds;
          if !foreign && rinfo !in localConds {
            foreign := CheckForeignExpr(g, rinfo.clause);
          }
          if foreign {
            remote := remote + [rinfo];
          } else {
            ClausesSnoc(locals, rinfo);
            localExprs := localExprs + [rinfo.clause];
            locals := locals + [rinfo];
          }
        }
        i := i + 1;
      }
      assert scanClauses[..i] == scanClauses;
    }

    /** Split the scan clauses again, print the statement, and keep the local conditions; None
        where printing raises. */
    method GetForeignPlan(d: Dialect, cx: DeparseCxt, qChar: string, g: GlobCxt, scanClauses: seq<RestrictInfo>,
                          limit: Limit) returns (plan: Option<ScanPlan>)
      requires Quotes(d, cx, qChar)
      ensures plan == PlanFor(d, cx, g, remoteConds, localConds, attrsUsed, scanClauses, limit)
    {
      var remote, localExprs := SplitScanClauses(g, scanClauses);
      var buf := new StringInfo();
      var ok, retrievedAttrs := DeparseSelectStmt(d, cx, qChar, attrsUsed, remote, limit, buf);
      if !ok {
        return None;
      }
      ghost var ps := SelectPieces(d, cx, TargetListPieces(cx, retrievedAttrs), Clauses(remote), limit).value;
      assert "" + Render(d, ps) == Render(d, ps);
      return Some(ScanPlan(buf.data, retrievedAttrs, localExprs));
    }
  }

  lemma ClausesSnoc(rs: seq<RestrictInfo>, r: RestrictInfo)
    ensures Clauses(rs + [r]) == Clauses(rs) + [r.clause]
    ensures rs + [] == rs
  {
  }

  /** The plan, given what the planner remembers. */
  function PlanFor(d: Dialect, cx: DeparseCxt, g: GlobCxt, remoteConds: seq<RestrictInfo>,
                   localConds: seq<RestrictInfo>, attrsUsed: set<int>, scanClauses: seq<RestrictInfo>,
                   limit: Limit): Option<ScanPlan>
  {
    var remote := Clauses(ScanSide(g, remoteConds, localConds, scanClauses, true));
    var local := Clauses(ScanSide(g, remoteConds, localConds, scanClauses, false));
    var attnos := Retrieved(cx.rel, attrsUsed, |cx.rel.attrs|);
    match SelectPieces(d, cx, TargetListPieces(cx, attnos), remote, limit)
    case None => None
    case Some(ps) => Some(ScanPlan(Render(d, ps), attnos, local))
  }

  /** The plan the two planner callbacks make for a table, its output and its conditions. */
  function ScanPlanOf(d: Dialect, cx: DeparseCxt, g: GlobCxt, targets: seq<Expr>, conds: seq<RestrictInfo>,
                      scanClauses: seq<RestrictInfo>, limit: Limit): Option<ScanPlan>
  {
    PlanFor(d, cx, g, Classified(g, conds, true), Classified(g, conds, false), AttrsUsed(g, targets, conds),
            scanClauses, limit)
  }
}
