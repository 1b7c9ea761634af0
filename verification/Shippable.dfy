/** The walker that decides which expressions may run remotely (deparse.c, first half).

    `Walk` gives the collation context a node contributes to its parent, or None when the node
    must stay local; `Walker` is the in-place form, merging into the parent's context object.
 */
module Shippable {
  import opened Nodes

  datatype CollState = NoneState | Safe | Unsafe

  datatype LocCxt = LocCxt(collation: Oid, state: CollState)

  const NO_COLLATION := LocCxt(INVALID_OID, NoneState)

  /** What the walker knows of the relation being planned. `relid` is 0 for an upper relation. */
  datatype GlobCxt = GlobCxt(relid: nat, isUpper: bool)

  const SUPPORTED_AGGREGATES: seq<string> := [
    "sum", "avg", "max", "min", "count", "stddev", "stddev_pop", "stddev_samp",
    "var_pop", "var_samp", "variance"]

  predicate IsBuiltin(oid: Oid) {
    oid < FIRST_GENBKI_OBJECT_ID
  }

  function StateRank(s: CollState): nat {
    match s
    case NoneState => 0
    case Safe => 1
    case Unsafe => 2
  }

  /** Merge a child's context into its parent's. */
  function Merge(outer: LocCxt, own: LocCxt): LocCxt {
    if StateRank(own.state) > StateRank(outer.state) then own
    else if own.state == outer.state == Safe && own.collation != outer.collation then
      if outer.collation == DEFAULT_COLLATION_OID then outer.(collation := own.collation)
      else if own.collation != DEFAULT_COLLATION_OID then outer.(state := Unsafe)
      else outer
    else outer
  }

  function InputCollation(h: Head): Oid {
    match h
    case Func(_, _, _, _, _, c, _, _) => c
    case OpCall(_, _, _, _, c, _, _) => c
    case DistinctFrom(_, _, c, _, _) => c
    case ScalarArrayOp(_, _, _, _, c) => c
    case Agg(_, _, _, _, _, _, _, c, _, _) => c
    case _ => INVALID_OID
  }

  function ResultCollation(h: Head): Oid {
    match h
    case Func(_, _, _, _, _, _, c, _) => c
    case OpCall(_, _, _, _, _, c, _) => c
    case DistinctFrom(_, _, _, c, _) => c
    case Relabel(c, _) => c
    case ArrayOf(c, _) => c
    case Subscript(_, _, c, _) => c
    case Agg(_, _, _, _, _, _, _, _, c, _) => c
    case _ => INVALID_OID
  }

  function ResultType(h: Head): Oid {
    match h
    case Func(_, _, _, _, _, _, _, t) => t
    case OpCall(_, _, _, _, _, _, t) => t
    case DistinctFrom(_, _, _, _, t) => t
    case Relabel(_, t) => t
    case ArrayOf(_, t) => t
    case Subscript(_, _, _, t) => t
    case Agg(_, _, _, _, _, _, _, _, _, t) => t
    case _ => BOOLOID
  }

  /** The checks that look at the node alone. */
  predicate HeadAllowed(g: GlobCxt, h: Head) {
    match h
    case Func(funcid, _, _, format, _, _, _, _) => !format.ExplicitCast? && IsBuiltin(funcid)
    case OpCall(opno, _, _, _, _, _, _) => IsBuiltin(opno)
    case DistinctFrom(opno, _, _, _, _) => IsBuiltin(opno)
    case ScalarArrayOp(opno, _, _, _, _) => IsBuiltin(opno)
    case Subscript(_, assigns, _, _) => !assigns
    case Agg(_, name, _, simple, distinct, ordered, filtered, _, _, _) =>
      name in SUPPORTED_AGGREGATES && g.isUpper && simple && !distinct && !ordered && !filtered
    case OtherNode => false
    case _ => true
  }

  /** The context a node with this result collation contributes, given what its inputs merged to. */
  function OwnCxt(h: Head, inner: LocCxt): LocCxt {
    var collation := ResultCollation(h);
    if collation == INVALID_OID then LocCxt(collation, NoneState)
    else if inner.state == Safe && collation == inner.collation then LocCxt(collation, Safe)
    else if h.Agg? && collation == DEFAULT_COLLATION_OID then LocCxt(collation, NoneState)
    else LocCxt(collation, Unsafe)
  }

  function Walk(g: GlobCxt, e: Expr): (r: Option<LocCxt>)
    decreases e, 1
  {
    match e
    case Var(varno, varattno, varlevelsup, vartype, varcollid) =>
      if varno == g.relid && varlevelsup == 0 then
        if varattno < 0 && varattno != CTID_ATTRIBUTE_NUMBER then None
        else if !IsBuiltin(vartype) then None
        else Some(LocCxt(varcollid, if varcollid != INVALID_OID then Safe else NoneState))
      else if varcollid != INVALID_OID && varcollid != DEFAULT_COLLATION_OID then None
      else if !IsBuiltin(vartype) then None
      else Some(NO_COLLATION)
    case Const(consttype, constcollid, _) =>
      if constcollid != INVALID_OID && constcollid != DEFAULT_COLLATION_OID then None
      else if !IsBuiltin(consttype) then None
      else Some(NO_COLLATION)
    case Param => None
    case Node(h, args) =>
      if !HeadAllowed(g, h) then None
      else
        var inner := if h.Subscript? then WalkSubscript(g, h.nUpper, args) else WalkList(g, args);
        if inner.None? then None
        else if InputCollation(h) != INVALID_OID &&
                (inner.value.state != Safe || InputCollation(h) != inner.value.collation) then None
        else if !IsBuiltin(ResultType(h)) then None
        else Some(OwnCxt(h, inner.value))
  }

  /** Bubble the contexts of a list up, left to right. */
  function WalkList(g: GlobCxt, es: seq<Expr>): (r: Option<LocCxt>)
    decreases es, 0
  {
    if es == [] then Some(NO_COLLATION)
    else
      var before := WalkList(g, es[..|es| - 1]);
      var last := Walk(g, es[|es| - 1]);
      if before.None? || last.None? then None else Some(Merge(before.value, last.value))
  }

  /** Subscripts must be shippable too, but only the container decides the collation. */
  function WalkSubscript(g: GlobCxt, nUpper: nat, args: seq<Expr>): (r: Option<LocCxt>)
    decreases args, 0
  {
    if |args| < 1 + nUpper then None
    else
      assert nUpper == |args[1..]| ==> args[1..][..nUpper] == args[1..];
      if WalkList(g, args[1..][..nUpper]).None? || WalkList(g, args[1..][nUpper..]).None? then None
      else
        var container := Walk(g, args[0]);
        if container.None? then None else Some(Merge(NO_COLLATION, container.value))
  }

  predicate ContainsMutable(e: Expr) {
    match e
    case Node(h, args) =>
      || ((h.Func? || h.OpCall? || h.DistinctFrom? || h.ScalarArrayOp?) && h.isMutable)
      || exists i :: 0 <= i < |args| && ContainsMutable(args[i])
    case _ => false
  }

  /** An expression may be evaluated on the foreign server. */
  predicate IsForeignExpr(g: GlobCxt, e: Expr) {
    Walk(g, e).Some? && !ContainsMutable(e)
  }

  // ---------- the walker in its own form ----------

  /** A parent's collation context, updated in place. */
  class ForeignLocCxt {
    var collation: Oid
    var state: CollState

    constructor ()
      ensures Value() == NO_COLLATION
    {
      collation, state := INVALID_OID, NoneState;
    }

    function Value(): LocCxt
      reads this
    {
      LocCxt(collation, state)
    }

    method Reset()
      modifies this
      ensures Value() == NO_COLLATION
    {
      collation, state := INVALID_OID, NoneState;
    }

    /** Merge a child's collation information into this context. */
    method Absorb(childCollation: Oid, childState: CollState)
      modifies this
      ensures Value() == Merge(old(Value()), LocCxt(childCollation, childState))
    {
      if StateRank(childState) > StateRank(state) {
        collation := childCollation;
        state := childState;
      } else if childState == state {
        match childState {
          case NoneState =>
          case Safe =>
            if childCollation != collation {
              if collation == DEFAULT_COLLATION_OID {
                collation := childCollation;
              } else if childCollation != DEFAULT_COLLATION_OID {
                state := Unsafe;
              }
            }
          case Unsafe =>
        }
      }
    }
  }

  /** Check one expression, merging its collation into `outer`. A rejected expression leaves
      `outer` as it was. */
  method Walker(g: GlobCxt, e: Expr, outer: ForeignLocCxt) returns (ok: bool)
    modifies outer
    ensures ok == Walk(g, e).Some?
    ensures outer.Value() == if ok then Merge(old(outer.Value()), Walk(g, e).value) else old(outer.Value())
    decreases e, 1
  {
    var collation: Oid;
    var state: CollState;
    match e {
      case Var(varno, varattno, varlevelsup, vartype, varcollid) =>
        if varno == g.relid && varlevelsup == 0 {
          if varattno < 0 && varattno != CTID_ATTRIBUTE_NUMBER {
            return false;
          }
          collation := varcollid;
          state := if varcollid != INVALID_OID then Safe else NoneState;
        } else {
          if varcollid != INVALID_OID && varcollid != DEFAULT_COLLATION_OID {
            return false;
          }
          collation, state := INVALID_OID, NoneState;
        }
        if !IsBuiltin(vartype) {
          return false;
        }
      case Const(consttype, constcollid, _) =>
        if constcollid != INVALID_OID && constcollid != DEFAULT_COLLATION_OID {
          return false;
        }
        collation, state := INVALID_OID, NoneState;
        if !IsBuiltin(consttype) {
          return false;
        }
      case Param =>
        return false;
      case Node(h, args) =>
        if !HeadAllowed(g, h) {
          return false;
        }
        var inner := new ForeignLocCxt();
        if h.Subscript? {
          if |args| < 1 + h.nUpper {
            return false;
          }
          assert h.nUpper == |args[1..]| ==> args[1..][..h.nUpper] == args[1..];
          ok := ListWalker(g, args[1..][..h.nUpper], inner);
          if !ok { return; }
          inner.Reset();
          ok := ListWalker(g, args[1..][h.nUpper..], inner);
          if !ok { return; }
          inner.Reset();
          ok := Walker(g, args[0], inner);
        } else {
          ok := ListWalker(g, args, inner);
        }
        if !ok { return; }
        if InputCollation(h) != INVALID_OID &&
           (inner.state != Safe || InputCollation(h) != inner.collation) {
          return false;
        }
        var own := OwnCxt(h, inner.Value());
        collation, state := own.collation, own.state;
        if !IsBuiltin(ResultType(h)) {
          return false;
        }
    }
    outer.Absorb(collation, state);
    return true;
  }

  /** Check a list: its elements merge into a context of its own, which then merges into `outer`. */
  method ListWalker(g: GlobCxt, es: seq<Expr>, outer: ForeignLocCxt) returns (ok: bool)
    requires outer.Value() == NO_COLLATION
    modifies outer
    ensures ok == WalkList(g, es).Some?
    ensures outer.Value() == if ok then WalkList(g, es).value else NO_COLLATION
    decreases es, 0
  {
    var inner := new ForeignLocCxt();
    var i := 0;
    while i < |es|
      invariant 0 <= i <= |es|
      invariant WalkList(g, es[..i]) == Some(inner.Value())
      invariant outer.Value() == NO_COLLATION
      modifies inner
    {
      assert es[..i + 1][..i] == es[..i];
      var good := Walker(g, es[i], inner);
      if !good {
        ListRejected(g, es, i);
        return false;
      }
      i := i + 1;
    }
    assert es[..i] == es;
    if inner.state == NoneState {
      ListNoneIsEmpty(g, es);
    }
    outer.Absorb(inner.collation, inner.state);
    return true;
  }

  /** Decide whether an expression may be evaluated on the foreign server: exactly when each of its
      subexpressions may be and none of them is mutable. */
  method CheckForeignExpr(g: GlobCxt, e: Expr) returns (ok: bool)
    ensures ok == IsForeignExpr(g, e)
    ensures ok <==> Ships(g, e)
  {
    ForeignIffShips(g, e);
    var cxt := new ForeignLocCxt();
    ok := Walker(g, e, cxt);
    if !ok { return; }
    ok := !ContainsMutable(e);
  }

  /** One rejected element rejects its list. */
  lemma {:induction false} ListRejected(g: GlobCxt, es: seq<Expr>, i: nat)
    requires i < |es| && Walk(g, es[i]).None?
    ensures WalkList(g, es).None?
  {
    if i < |es| - 1 {
      ListRejected(g, es[..|es| - 1], i);
    }
  }

  /** A list context that never left the NONE state never picked up a collation either. */
  lemma {:induction false} ListNoneIsEmpty(g: GlobCxt, es: seq<Expr>)
    requires WalkList(g, es).Some? && WalkList(g, es).value.state == NoneState
    ensures WalkList(g, es).value == NO_COLLATION
  {
    if es != [] {
      ListNoneIsEmpty(g, es[..|es| - 1]);
    }
  }

  /** A list is accepted exactly when each of its elements is. */
  lemma {:induction false} ListAcceptance(g: GlobCxt, es: seq<Expr>)
    ensures WalkList(g, es).Some? <==> forall e :: e in es ==> Walk(g, e).Some?
  {
    if es != [] {
      var k := |es| - 1;
      ListAcceptance(g, es[..k]);
      if WalkList(g, es).Some? {
        forall e | e in es
          ensures Walk(g, e).Some?
        {
          assert e in es[..k] || e == es[k];
        }
      } else if WalkList(g, es[..k]).None? {
        var e :| e in es[..k] && Walk(g, e).None?;
        assert e in es;
      } else {
        assert es[k] in es;
      }
    }
  }

  // ---------- collation merging is a join ----------

  /** The lattice NONE < SAFE(default) < SAFE(c) < UNSAFE. */
  datatype Level = Bottom | At(collation: Oid) | Top

  function LevelOf(c: LocCxt): Level {
    match c.state
    case NoneState => Bottom
    case Safe => At(c.collation)
    case Unsafe => Top
  }

  predicate Leq(a: Level, b: Level) {
    || a.Bottom?
    || b.Top?
    || (a.At? && b.At? && (a.collation == b.collation || a.collation == DEFAULT_COLLATION_OID))
  }

  ghost predicate IsUpperBound(g: GlobCxt, es: seq<Expr>, u: Level) {
    forall e :: e in es && Walk(g, e).Some? ==> Leq(LevelOf(Walk(g, e).value), u)
  }

  /** Merging never loses a contribution, and never climbs higher than it must. */
  lemma MergeIsJoin(outer: LocCxt, own: LocCxt, u: Level)
    ensures Leq(LevelOf(outer), LevelOf(Merge(outer, own)))
    ensures Leq(LevelOf(own), LevelOf(Merge(outer, own)))
    ensures Leq(LevelOf(outer), u) && Leq(LevelOf(own), u) ==> Leq(LevelOf(Merge(outer, own)), u)
  {
  }

  /** The order is a partial order, so least upper bounds are unique. */
  lemma LeqIsPartialOrder(a: Level, b: Level, c: Level)
    ensures Leq(a, a)
    ensures Leq(a, b) && Leq(b, a) ==> a == b
    ensures Leq(a, b) && Leq(b, c) ==> Leq(a, c)
  {
  }

  /** The context of an accepted list is the least upper bound of what its elements contribute. */
  lemma {:induction false} ListIsLeastUpperBound(g: GlobCxt, es: seq<Expr>, u: Level)
    requires WalkList(g, es).Some?
    ensures IsUpperBound(g, es, LevelOf(WalkList(g, es).value))
    ensures IsUpperBound(g, es, u) ==> Leq(LevelOf(WalkList(g, es).value), u)
  {
    if es != [] {
      var k := |es| - 1;
      assert es == es[..k] + [es[k]];
      ListIsLeastUpperBound(g, es[..k], u);
      var before, own := WalkList(g, es[..k]).value, Walk(g, es[k]).value;
      MergeIsJoin(before, own, u);
      forall e | e in es && Walk(g, e).Some?
        ensures Leq(LevelOf(Walk(g, e).value), LevelOf(WalkList(g, es).value))
      {
        if e in es[..k] {
          LeqIsPartialOrder(LevelOf(Walk(g, e).value), LevelOf(before), LevelOf(Merge(before, own)));
        }
      }
    }
  }

  /** Two contexts a parent cannot tell apart: same state, and same collation unless UNSAFE. */
  predicate Alike(a: Option<LocCxt>, b: Option<LocCxt>) {
    || (a.None? && b.None?)
    || (a.Some? && b.Some? && a.value.state == b.value.state &&
        (a.value.state != Unsafe ==> a.value.collation == b.value.collation))
  }

  /** Reordering or repeating the elements of a list changes neither its acceptance, nor its
      state, nor the collation of a result that is not UNSAFE. */
  lemma {:induction false} ListOrderIrrelevant(g: GlobCxt, es: seq<Expr>, fs: seq<Expr>)
    requires forall e :: e in es <==> e in fs
    ensures Alike(WalkList(g, es), WalkList(g, fs))
  {
    ListAcceptance(g, es);
    ListAcceptance(g, fs);
    if WalkList(g, es).Some? {
      var a, b := WalkList(g, es).value, WalkList(g, fs).value;
      ListIsLeastUpperBound(g, es, LevelOf(b));
      ListIsLeastUpperBound(g, fs, LevelOf(a));
      LeqIsPartialOrder(LevelOf(a), LevelOf(b), LevelOf(a));
      if a.state == NoneState {
        ListNoneIsEmpty(g, es);
        ListNoneIsEmpty(g, fs);
      }
    }
  }

  /** Permuting the arguments of any function, operator, boolean, array or aggregate node changes
      nothing its parent can observe, so it cannot change what is shipped. */
  lemma {:induction false} ArgumentOrderIrrelevant(g: GlobCxt, h: Head, es: seq<Expr>, fs: seq<Expr>)
    requires !h.Subscript?
    requires multiset(es) == multiset(fs)
    ensures Alike(Walk(g, Node(h, es)), Walk(g, Node(h, fs)))
  {
    forall e
      ensures e in es <==> e in fs
    {
      assert e in es <==> e in multiset(es);
      assert e in fs <==> e in multiset(fs);
    }
    ListOrderIrrelevant(g, es, fs);
  }

  // ---------- acceptance, subexpression by subexpression ----------

  /** The subexpression at a path of argument positions. */
  function SubAt(e: Expr, path: seq<nat>): Option<Expr>
    decreases |path|
  {
    if path == [] then Some(e)
    else if e.Node? && path[0] < |e.args| then SubAt(e.args[path[0]], path[1..])
    else None
  }

  /** The arguments whose collations count: of a subscript, the container only. */
  function Inputs(h: Head, args: seq<Expr>): (r: seq<Expr>)
    ensures forall i :: 0 <= i < |r| ==> i < |args| && r[i] == args[i]
  {
    if h.Subscript? && args != [] then args[..1] else args
  }

  /** What collation an expression derives from columns of the foreign table: none, one, or an unsafe one. */
  function Derived(g: GlobCxt, e: Expr): Level
    decreases e, 1
  {
    match e
    case Var(varno, _, varlevelsup, _, varcollid) =>
      if varno == g.relid && varlevelsup == 0 && varcollid != INVALID_OID then At(varcollid) else Bottom
    case Node(h, args) =>
      if h.ScalarArrayOp? || h.Bool? || h.NullTest? || h.OtherNode? || h.collid == INVALID_OID then Bottom
      else if SomeDerives(g, args, |Inputs(h, args)|, h.collid) then At(h.collid)
      else if h.Agg? && h.collid == DEFAULT_COLLATION_OID then Bottom
      else Top
    case _ => Bottom
  }

  /** Of the first `n` expressions some derives `c`, and none anything that conflicts with it. */
  predicate SomeDerives(g: GlobCxt, es: seq<Expr>, n: nat, c: Oid)
    requires n <= |es|
    decreases es, 0
  {
    && (exists i :: 0 <= i < n && Derived(g, es[i]) == At(c))
    && (forall i :: 0 <= i < n ==> Leq(Derived(g, es[i]), At(c)))
  }

  /** The oids below 10000 are the built-in ones. */
  predicate BuiltinOid(oid: Oid) { oid < 10000 }

  /** The node may run remotely: a column that is no system column but ctid, a default collation elsewhere, a
      built-in function that is no explicit cast, a built-in operator, a supported plain aggregate above the
      scan; its type built in, and its input collation derived from its inputs. */
  predicate Stands(g: GlobCxt, e: Expr) {
    match e
    case Var(varno, varattno, varlevelsup, vartype, varcollid) =>
      && BuiltinOid(vartype)
      && if varno == g.relid && varlevelsup == 0 then varattno >= -1 else varcollid == 0 || varcollid == 100
    case Const(consttype, constcollid, _) => BuiltinOid(consttype) && (constcollid == 0 || constcollid == 100)
    case Param => false
    case Node(h, args) =>
      && KindStands(g, h, |args|)
      && (h.Func? || h.OpCall? || h.DistinctFrom? || h.ScalarArrayOp? || h.Agg? ==>
            h.inputcollid == 0 || SomeDerives(g, args, |args|, h.inputcollid))
  }

  predicate KindStands(g: GlobCxt, h: Head, n: nat) {
    && (h.Func? ==> BuiltinOid(h.funcid) && h.format != ExplicitCast)
    && (h.OpCall? || h.DistinctFrom? || h.ScalarArrayOp? ==> BuiltinOid(h.opno))
    && (h.Subscript? ==> !h.assigns && n > h.nUpper)
    && (h.Agg? ==>
          && g.isUpper && h.simple && !h.distinct && !h.ordered && !h.filtered
          && h.name in ["sum", "avg", "max", "min", "count", "stddev", "stddev_pop", "stddev_samp", "var_pop",
                        "var_samp", "variance"])
    && !h.OtherNode?
    && (!(h.ScalarArrayOp? || h.Bool? || h.NullTest?) ==> BuiltinOid(h.restype))
  }

  /** The node itself calls something whose result may change. */
  predicate IsMutableCall(e: Expr) {
    e.Node? && (e.head.Func? || e.head.OpCall? || e.head.DistinctFrom? || e.head.ScalarArrayOp?) && e.head.isMutable
  }

  /** Every subexpression may run remotely, and none calls anything mutable. */
  ghost predicate Ships(g: GlobCxt, e: Expr) {
    forall path :: SubAt(e, path).Some? ==> Stands(g, SubAt(e, path).value) && !IsMutableCall(SubAt(e, path).value)
  }

  ghost predicate AllStand(g: GlobCxt, e: Expr) {
    forall path :: SubAt(e, path).Some? ==> Stands(g, SubAt(e, path).value)
  }

  /** A property of all subexpressions is one of the node and of all subexpressions of its arguments. */
  lemma AllStandStep(g: GlobCxt, e: Expr)
    ensures AllStand(g, e) <==> Stands(g, e) && (e.Node? ==> forall i :: 0 <= i < |e.args| ==> AllStand(g, e.args[i]))
  {
    if AllStand(g, e) {
      assert SubAt(e, []) == Some(e);
      if e.Node? {
        forall i, path | 0 <= i < |e.args| && SubAt(e.args[i], path).Some?
          ensures Stands(g, SubAt(e.args[i], path).value)
        {
          assert ([i] + path)[1..] == path;
          assert SubAt(e, [i] + path) == SubAt(e.args[i], path);
        }
      }
    } else if Stands(g, e) {
      var path :| SubAt(e, path).Some? && !Stands(g, SubAt(e, path).value);
      assert e.Node? && SubAt(e.args[path[0]], path[1..]) == SubAt(e, path);
    }
  }

  /** Accepted lists derive a collation as a whole exactly when some element does and none conflicts. */
  lemma ListDerives(g: GlobCxt, es: seq<Expr>, c: Oid)
    requires WalkList(g, es).Some?
    requires forall e :: e in es ==> Walk(g, e).Some? && LevelOf(Walk(g, e).value) == Derived(g, e)
    ensures LevelOf(WalkList(g, es).value) == At(c) <==> SomeDerives(g, es, |es|, c)
  {
    var l := LevelOf(WalkList(g, es).value);
    ListIsLeastUpperBound(g, es, At(c));
    if SomeDerives(g, es, |es|, c) {
      var i :| 0 <= i < |es| && Derived(g, es[i]) == At(c);
      assert Walk(g, es[i]).Some?;
      assert IsUpperBound(g, es, At(c));
      LeqIsPartialOrder(l, At(c), l);
    } else if l == At(c) {
      var below := if c == DEFAULT_COLLATION_OID then Bottom else At(DEFAULT_COLLATION_OID);
      ListIsLeastUpperBound(g, es, below);
      forall i | 0 <= i < |es|
        ensures Leq(Derived(g, es[i]), At(c))
      {
        assert es[i] in es;
      }
      assert IsUpperBound(g, es, below);
    }
  }

  /** The walker accepts an expression exactly when each of its subexpressions stands, and its context is what
      the expression derives. */
  lemma {:induction false} AcceptedIffAllStand(g: GlobCxt, e: Expr)
    ensures Walk(g, e).Some? <==> AllStand(g, e)
    ensures Walk(g, e).Some? ==> LevelOf(Walk(g, e).value) == Derived(g, e)
  {
    AllStandStep(g, e);
    if e.Node? {
      forall i | 0 <= i < |e.args|
        ensures Walk(g, e.args[i]).Some? <==> AllStand(g, e.args[i])
        ensures Walk(g, e.args[i]).Some? ==> LevelOf(Walk(g, e.args[i]).value) == Derived(g, e.args[i])
      {
        AcceptedIffAllStand(g, e.args[i]);
      }
      NodeStands(g, e.head, e.args);
    }
  }

  /** The context a node contributes is what it derives. */
  lemma OwnLevel(g: GlobCxt, h: Head, args: seq<Expr>, inner: LocCxt)
    requires LevelOf(inner) == At(ResultCollation(h)) <==>
             SomeDerives(g, args, |Inputs(h, args)|, ResultCollation(h))
    ensures LevelOf(OwnCxt(h, inner)) == Derived(g, Node(h, args))
  {
  }

  /** The checks of the walker on the node alone. */
  lemma KindIsAllowed(g: GlobCxt, h: Head, n: nat)
    ensures KindStands(g, h, n) <==> HeadAllowed(g, h) && IsBuiltin(ResultType(h)) && (h.Subscript? ==> n > h.nUpper)
  {
  }

  lemma NodeStands(g: GlobCxt, h: Head, args: seq<Expr>)
    requires forall i :: 0 <= i < |args| && Walk(g, args[i]).Some? ==>
               LevelOf(Walk(g, args[i]).value) == Derived(g, args[i])
    ensures Walk(g, Node(h, args)).Some? <==>
            Stands(g, Node(h, args)) && forall i :: 0 <= i < |args| ==> Walk(g, args[i]).Some?
    ensures Walk(g, Node(h, args)).Some? ==> LevelOf(Walk(g, Node(h, args)).value) == Derived(g, Node(h, args))
  {
    KindIsAllowed(g, h, |args|);
    if h.Subscript? {
      SubscriptStands(g, h, args);
    } else {
      ListAcceptance(g, args);
      if WalkList(g, args).Some? {
        ListDerives(g, args, InputCollation(h));
        ListDerives(g, args, ResultCollation(h));
        OwnLevel(g, h, args, WalkList(g, args).value);
      } else {
        var e :| e in args && Walk(g, e).None?;
      }
    }
  }

  /** A subscript walks all of its arguments, and merges the container's context only. */
  lemma SubscriptAcceptance(g: GlobCxt, n: nat, args: seq<Expr>)
    ensures WalkSubscript(g, n, args).Some? <==> |args| > n && forall i :: 0 <= i < |args| ==> Walk(g, args[i]).Some?
    ensures WalkSubscript(g, n, args).Some? ==>
              LevelOf(WalkSubscript(g, n, args).value) == LevelOf(Walk(g, args[0]).value)
  {
    if |args| > n {
      var rest := args[1..];
      assert n == |rest| ==> rest[..n] == rest;
      ListAcceptance(g, rest[..n]);
      ListAcceptance(g, rest[n..]);
      assert args == [args[0]] + (rest[..n] + rest[n..]);
    }
  }

  lemma SubscriptStands(g: GlobCxt, h: Head, args: seq<Expr>)
    requires h.Subscript?
    requires forall i :: 0 <= i < |args| && Walk(g, args[i]).Some? ==>
               LevelOf(Walk(g, args[i]).value) == Derived(g, args[i])
    ensures Walk(g, Node(h, args)).Some? <==>
            Stands(g, Node(h, args)) && forall i :: 0 <= i < |args| ==> Walk(g, args[i]).Some?
    ensures Walk(g, Node(h, args)).Some? ==> LevelOf(Walk(g, Node(h, args)).value) == Derived(g, Node(h, args))
  {
    KindIsAllowed(g, h, |args|);
    SubscriptAcceptance(g, h.nUpper, args);
    if WalkSubscript(g, h.nUpper, args).Some? {
      SomeDerivesFirst(g, args, h.collid);
      OwnLevel(g, h, args, WalkSubscript(g, h.nUpper, args).value);
    }
  }

  lemma SomeDerivesFirst(g: GlobCxt, es: seq<Expr>, c: Oid)
    requires es != []
    ensures SomeDerives(g, es, 1, c) <==> Derived(g, es[0]) == At(c)
  {
  }

  /** A mutable call is found wherever it is. */
  lemma {:induction false} MutableCallIsFound(e: Expr, path: seq<nat>)
    requires SubAt(e, path).Some? && IsMutableCall(SubAt(e, path).value)
    ensures ContainsMutable(e)
    decreases |path|
  {
    if path != [] {
      MutableCallIsFound(e.args[path[0]], path[1..]);
    }
  }

  /** What is found is a mutable call somewhere. */
  lemma {:induction false} FoundIsMutableCall(e: Expr) returns (path: seq<nat>)
    requires ContainsMutable(e)
    ensures SubAt(e, path).Some? && IsMutableCall(SubAt(e, path).value)
  {
    path := [];
    if !IsMutableCall(e) {
      var i :| 0 <= i < |e.args| && ContainsMutable(e.args[i]);
      var rest := FoundIsMutableCall(e.args[i]);
      path := [i] + rest;
      assert path[1..] == rest;
    }
  }

  /** What may be evaluated remotely is what has only subexpressions that may be, and nothing mutable. */
  lemma ForeignIffShips(g: GlobCxt, e: Expr)
    ensures IsForeignExpr(g, e) <==> Ships(g, e)
  {
    AcceptedIffAllStand(g, e);
    if ContainsMutable(e) {
      var path := FoundIsMutableCall(e);
    } else {
      forall path | SubAt(e, path).Some?
        ensures !IsMutableCall(SubAt(e, path).value)
      {
        if IsMutableCall(SubAt(e, path).value) {
          MutableCallIsFound(e, path);
        }
      }
    }
  }

  // ---------- collations are traceable to columns of the foreign table ----------

  /** Some column of the foreign table inside `e` has collation `c`. */
  predicate HasForeignVar(g: GlobCxt, e: Expr, c: Oid) {
    match e
    case Var(varno, _, varlevelsup, _, varcollid) => varno == g.relid && varlevelsup == 0 && varcollid == c
    case Node(_, args) => exists i :: 0 <= i < |args| && HasForeignVar(g, args[i], c)
    case _ => false
  }

  /** Every node inside `e` that has an input collation takes it from a foreign column among its
      own arguments. */
  predicate Traceable(g: GlobCxt, e: Expr) {
    match e
    case Node(h, args) =>
      && (InputCollation(h) != INVALID_OID ==>
            exists i :: 0 <= i < |args| && HasForeignVar(g, args[i], InputCollation(h)))
      && forall i :: 0 <= i < |args| ==> Traceable(g, args[i])
    case _ => true
  }

  /** What is accepted is traceable, and a SAFE context names the collation of a foreign column. */
  lemma {:induction false} AcceptedIsTraceable(g: GlobCxt, e: Expr)
    requires Walk(g, e).Some?
    ensures Traceable(g, e)
    ensures Walk(g, e).value.state == Safe ==> HasForeignVar(g, e, Walk(g, e).value.collation)
    decreases e, 1
  {
    if e.Node? {
      if e.head.Subscript? {
        var n := e.head.nUpper;
        var args := e.args;
        assert n == |args[1..]| ==> args[1..][..n] == args[1..];
        ListTraceable(g, args[1..][..n]);
        ListTraceable(g, args[1..][n..]);
        AcceptedIsTraceable(g, args[0]);
        forall i | 0 <= i < |args|
          ensures Traceable(g, args[i])
        {
          if i == 0 {
          } else if i <= n {
            assert args[1..][..n][i - 1] == args[i];
          } else {
            assert args[1..][n..][i - 1 - n] == args[i];
          }
        }
      } else {
        ListTraceable(g, e.args);
      }
    }
  }

  lemma {:induction false} ListTraceable(g: GlobCxt, es: seq<Expr>)
    requires WalkList(g, es).Some?
    ensures forall i :: 0 <= i < |es| ==> Traceable(g, es[i])
    ensures WalkList(g, es).value.state == Safe ==>
              exists i :: 0 <= i < |es| && HasForeignVar(g, es[i], WalkList(g, es).value.collation)
    decreases es, 0
  {
    if es != [] {
      var k := |es| - 1;
      ListTraceable(g, es[..k]);
      AcceptedIsTraceable(g, es[k]);
      if WalkList(g, es).value.state == Safe {
        var c := WalkList(g, es).value.collation;
        if Walk(g, es[k]).value.state == Safe && Walk(g, es[k]).value.collation == c {
          assert HasForeignVar(g, es[k], c);
        } else {
          var i :| 0 <= i < k && HasForeignVar(g, es[..k][i], c);
          assert es[i] == es[..k][i];
        }
      }
    }
  }

  /** No variable of `e` carries the relation id of `g`. */
  predicate NoForeignVars(g: GlobCxt, e: Expr) {
    match e
    case Var(varno, _, _, _, _) => varno != g.relid
    case Node(_, args) => forall i :: 0 <= i < |args| ==> NoForeignVars(g, args[i])
    case _ => true
  }

  predicate NoInputCollation(e: Expr) {
    match e
    case Node(h, args) =>
      InputCollation(h) == INVALID_OID && forall i :: 0 <= i < |args| ==> NoInputCollation(args[i])
    case _ => true
  }

  /** For an upper relation, whose id is no variable's, nothing accepted has an input collation:
      in particular no aggregate over collatable values is ever shipped. */
  lemma {:induction false} UpperRelationHasNoInputCollation(g: GlobCxt, e: Expr)
    requires Walk(g, e).Some? && NoForeignVars(g, e)
    ensures NoInputCollation(e)
  {
    AcceptedIsTraceable(g, e);
    TraceableWithoutVars(g, e);
  }

  lemma {:induction false} TraceableWithoutVars(g: GlobCxt, e: Expr)
    requires Traceable(g, e) && NoForeignVars(g, e)
    ensures NoInputCollation(e)
  {
    if e.Node? {
      forall i | 0 <= i < |e.args|
        ensures NoInputCollation(e.args[i])
      {
        TraceableWithoutVars(g, e.args[i]);
      }
      if InputCollation(e.head) != INVALID_OID {
        var i :| 0 <= i < |e.args| && HasForeignVar(g, e.args[i], InputCollation(e.head));
        NoVarsHaveNoForeignVar(g, e.args[i], InputCollation(e.head));
      }
    }
  }

  lemma {:induction false} NoVarsHaveNoForeignVar(g: GlobCxt, e: Expr, c: Oid)
    requires NoForeignVars(g, e)
    ensures !HasForeignVar(g, e, c)
  {
    if e.Node? {
      forall i | 0 <= i < |e.args|
        ensures !HasForeignVar(g, e.args[i], c)
      {
        NoVarsHaveNoForeignVar(g, e.args[i], c);
      }
    }
  }
}
