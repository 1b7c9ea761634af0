/** The table of result-set handles on the Java side: the key search, the operations on handles, and
    what any run of them keeps.
 */
module Handles {
  import opened Nodes
  import opened Semantics

  const MAX_VALUE := 2147483647

  /** What a handle stands for: the object it was created for, numbered in order of creation, with a
      cursor over its rows, or a prepared statement. A cursor is closed when its end has been reached. */
  datatype ResultSetInfo =
    | Cursor(origin: nat, rows: seq<seq<Value>>, next: nat, closed: bool)
    | Prepared(origin: nat, affectedRows: nat)

  /** The static state: the counter, the live handles, and how many objects were created so far. */
  datatype Table = Table(key: int, live: map<int, ResultSetInfo>, created: nat)

  const EMPTY_TABLE := Table(1, map[], 0)

  // ---------- the key search ----------

  /** The counter after one step. */
  function NextKey(key: int): int {
    (if key == MAX_VALUE then 1 else key) + 1
  }

  /** Live keys are positive; while the counter is still 1, no other key was ever given out. */
  predicate KeysValid(key: int, live: set<int>) {
    && 1 <= key <= MAX_VALUE
    && (forall k :: k in live ==> 1 <= k <= MAX_VALUE)
    && (key == 1 ==> forall k :: k in live ==> k == 1)
  }

  /** How many steps from `key` round to `datum`. */
  function StepsLeft(key: int, datum: int): nat
    requires 2 <= key <= MAX_VALUE && 2 <= datum <= MAX_VALUE
  {
    if key < datum then datum - key else MAX_VALUE - key + datum - 1
  }

  /** The search from `key` on, the counter having started at `datum`. */
  function SearchFrom(key: int, datum: int, live: set<int>): Option<int>
    requires 2 <= key <= MAX_VALUE && 2 <= datum <= MAX_VALUE
    decreases StepsLeft(key, datum)
  {
    if key !in live then Some(key)
    else if NextKey(key) == datum then None
    else SearchFrom(NextKey(key), datum, live)
  }

  /** The key a new handle gets, or None where the search raises. */
  function FirstFree(key: int, live: set<int>): Option<int>
    requires KeysValid(key, live)
  {
    if key >= 2 then SearchFrom(key, key, live)
    else if 1 in live then Some(2)
    else Some(1)
  }

  /** Whether the search passes `k` on its way from `key` round to `datum`. */
  predicate OnTheWay(key: int, datum: int, k: int) {
    if key < datum then key <= k < datum
    else key <= k <= MAX_VALUE || 2 <= k < datum
  }

  /** The search finds a free key if and only if there is one on its way. */
  lemma {:induction false} SearchFinds(key: int, datum: int, live: set<int>)
    requires 2 <= key <= MAX_VALUE && 2 <= datum <= MAX_VALUE
    ensures SearchFrom(key, datum, live).Some? ==>
              SearchFrom(key, datum, live).value !in live && OnTheWay(key, datum, SearchFrom(key, datum, live).value)
    ensures SearchFrom(key, datum, live).None? <==>
            forall k :: 2 <= k <= MAX_VALUE && OnTheWay(key, datum, k) ==> k in live
    decreases StepsLeft(key, datum)
  {
    if key in live && NextKey(key) != datum {
      SearchFinds(NextKey(key), datum, live);
      assert forall k :: 2 <= k <= MAX_VALUE && OnTheWay(key, datum, k) ==>
               k == key || OnTheWay(NextKey(key), datum, k);
    } else if key in live {
      assert forall k :: 2 <= k <= MAX_VALUE && OnTheWay(key, datum, k) ==> k == key;
    } else {
      assert OnTheWay(key, datum, key);
    }
  }

  /** In every reachable state the search ends with a key that is not live, within 1 to the greatest
      integer, or raises exactly when every key from 2 on is live. */
  lemma FirstFreeIsFree(key: int, live: set<int>)
    requires KeysValid(key, live)
    ensures FirstFree(key, live).Some? ==>
              FirstFree(key, live).value !in live && 1 <= FirstFree(key, live).value <= MAX_VALUE
    ensures FirstFree(key, live).None? <==> forall k :: 2 <= k <= MAX_VALUE ==> k in live
  {
    if key >= 2 {
      SearchFinds(key, key, live);
      assert forall k :: 2 <= k <= MAX_VALUE ==> OnTheWay(key, key, k);
    } else {
      assert 2 !in live;
    }
  }

  /** No free key is passed over. */
  lemma {:induction false} SearchIsFirst(key: int, datum: int, live: set<int>, j: int)
    requires 2 <= key <= MAX_VALUE && 2 <= datum <= MAX_VALUE && SearchFrom(key, datum, live).Some?
    requires SearchFrom(key, datum, live).value != key && OnTheWay(key, SearchFrom(key, datum, live).value, j)
    ensures j in live
    decreases StepsLeft(key, datum)
  {
    var k := SearchFrom(key, datum, live).value;
    if j != key {
      SearchFinds(NextKey(key), datum, live);
      SearchIsFirst(NextKey(key), datum, live, j);
    }
  }

  /** The key given out is the first free one from the counter on, round past the greatest integer to 2: the counter
      itself if it is free, and otherwise every key on the way is live. */
  lemma FirstFreeIsFirst(key: int, live: set<int>)
    requires KeysValid(key, live)
    ensures key !in live ==> FirstFree(key, live) == Some(key)
    ensures key in live && FirstFree(key, live).Some? ==>
              forall j :: 2 <= j <= MAX_VALUE && OnTheWay(key, FirstFree(key, live).value, j) ==> j in live
  {
    if key in live && key >= 2 && FirstFree(key, live).Some? {
      var k := FirstFree(key, live).value;
      SearchFinds(key, key, live);
      forall j | OnTheWay(key, k, j)
        ensures j in live
      {
        SearchIsFirst(key, key, live, j);
      }
    }
  }

  /** Giving out the key keeps the table valid. */
  lemma FirstFreeKeepsValid(key: int, live: set<int>)
    requires KeysValid(key, live) && FirstFree(key, live).Some?
    ensures KeysValid(FirstFree(key, live).value, live + {FirstFree(key, live).value})
  {
    FirstFreeIsFree(key, live);
    if key >= 2 {
      SearchFinds(key, key, live);
    }
  }

  /** The counter after `n` steps. */
  function KeyAfter(key: int, n: nat): int {
    if n == 0 then key else NextKey(KeyAfter(key, n - 1))
  }

  lemma {:induction false} FromTwoOn(n: nat)
    requires n > 0
    ensures 2 <= KeyAfter(1, n) <= MAX_VALUE
  {
    if n > 1 {
      FromTwoOn(n - 1);
    }
  }

  /** The wrap-around skips 1: were every key live with the counter at 1, the search would neither
      find a free key nor come back to where it started, however long it ran. No run gets there. */
  lemma FullTableAtOneNeverEnds(live: set<int>)
    requires forall k :: 1 <= k <= MAX_VALUE ==> k in live
    ensures forall n: nat :: KeyAfter(1, n) in live && (n > 0 ==> KeyAfter(1, n) != 1)
    ensures !KeysValid(1, live)
  {
    forall n: nat
      ensures KeyAfter(1, n) in live && (n > 0 ==> KeyAfter(1, n) != 1)
    {
      if n > 0 {
        FromTwoOn(n);
      }
    }
    assert 2 in live;
  }

  // ---------- the operations ----------

  /** The operations; the caller's own connection object may be missing. */
  datatype Op =
    | CreateStatement(rows: seq<seq<Value>>, connected: bool)
    | Prepare(connected: bool)
    | ExecPrepared(handle: int, affected: nat, connected: bool)
    | Fetch(handle: int, connected: bool)
    | Clear(handle: int, connected: bool)
    | FinalizeAll

  datatype Outcome = Handle(handle: int) | Row(values: seq<Value>) | NoMoreRows | Done | Raised

  /** Put a new object under the next free key. */
  function Created(t: Table, info: ResultSetInfo): (Table, Outcome)
    requires KeysValid(t.key, t.live.Keys)
  {
    match FirstFree(t.key, t.live.Keys)
    case None => (t, Raised)
    case Some(k) => (Table(k, t.live[k := info], t.created + 1), Handle(k))
  }

  /** Clearing a handle needs the connection; without it the handle stays. */
  function Cleared(t: Table, h: int, connected: bool): (Table, Outcome) {
    if connected then (t.(live := t.live - {h}), Done) else (t, Raised)
  }

  /** At the end of the rows the cursor is closed, and its handle cleared. */
  function Ended(t: Table, h: int, connected: bool): (Table, Outcome)
    requires h in t.live && t.live[h].Cursor?
  {
    if connected then (t.(live := t.live - {h}), NoMoreRows)
    else (t.(live := t.live[h := t.live[h].(closed := true)]), Raised)
  }

  /** One operation, and what it returns. */
  function Step(t: Table, op: Op): (Table, Outcome)
    requires KeysValid(t.key, t.live.Keys)
  {
    match op
    case CreateStatement(rows, connected) =>
      if connected then Created(t, Cursor(t.created, rows, 0, false)) else (t, Raised)
    case Prepare(connected) => if connected then Created(t, Prepared(t.created, 0)) else (t, Raised)
    case ExecPrepared(h, n, connected) =>
      if !connected || h !in t.live || !t.live[h].Prepared? then (t, Raised)
      else (t.(live := t.live[h := t.live[h].(affectedRows := n)]), Done)
    case Fetch(h, connected) =>
      if h !in t.live || !t.live[h].Cursor? || t.live[h].closed then (t, Raised)
      else
        var c := t.live[h];
        if c.next < |c.rows| then (t.(live := t.live[h := c.(next := c.next + 1)]), Row(c.rows[c.next]))
        else Ended(t, h, connected)
    case Clear(h, connected) => Cleared(t, h, connected)
    case FinalizeAll => (t.(live := map[]), Done)
  }

  /** What is recorded under a handle; a result set has changed nothing. */
  function AffectedRows(t: Table, h: int): Option<nat> {
    if h !in t.live then None
    else
      match t.live[h]
      case Cursor(_, _, _, _) => Some(0)
      case Prepared(_, n) => Some(n)
  }

  // ---------- the operations in place ----------

  class JDBCUtils {
    var resultSetKey: int
    var resultSetInfoMap: map<int, ResultSetInfo>
    var created: nat   // names the objects, in order of creation
    var connected: bool   // the connection object is there

    constructor ()
      ensures Valid() && Value() == EMPTY_TABLE && !connected
    {
      resultSetKey := 1;
      resultSetInfoMap := map[];
      created := 0;
      connected := false;
    }

    ghost predicate Valid()
      reads this
    {
      KeysValid(resultSetKey, resultSetInfoMap.Keys)
    }

    function Value(): Table
      reads this
    {
      Table(resultSetKey, resultSetInfoMap, created)
    }

    /** Find a key that is not live, moving the counter; None where it raises. */
    method InitResultSetKey() returns (r: Option<int>)
      requires Valid()
      modifies this`resultSetKey
      ensures r == FirstFree(old(resultSetKey), resultSetInfoMap.Keys)
      ensures resultSetKey == if r.Some? then r.value else old(resultSetKey)
    {
      var datum := resultSetKey;
      ghost var live := resultSetInfoMap.Keys;
      if datum == 1 && 1 in resultSetInfoMap {
        assert 2 !in live;
      }
      while resultSetKey in resultSetInfoMap
        invariant 1 <= resultSetKey <= MAX_VALUE
        invariant datum == 1 ==> resultSetKey == 1 || (resultSetKey == 2 && 1 in live)
        invariant datum >= 2 ==> resultSetKey >= 2
        invariant datum >= 2 ==> SearchFrom(resultSetKey, datum, live) == SearchFrom(datum, datum, live)
        decreases if datum == 1 then 2 - resultSetKey else StepsLeft(resultSetKey, datum)
      {
        if resultSetKey == MAX_VALUE {
          resultSetKey := 1;
        }
        resultSetKey := resultSetKey + 1;
        if resultSetKey == datum {
          return None;
        }
      }
      return Some(resultSetKey);
    }

    method Put(info: ResultSetInfo) returns (r: Option<int>)
      requires Valid()
      modifies this
      ensures Valid() && Value() == Created(old(Value()), info).0 && connected == old(connected)
      ensures Created(old(Value()), info).1 == if r.Some? then Handle(r.value) else Raised
    {
      ghost var key, live := resultSetKey, resultSetInfoMap.Keys;
      r := InitResultSetKey();
      if r.Some? {
        FirstFreeKeepsValid(key, live);
        resultSetInfoMap := resultSetInfoMap[r.value := info];
        assert resultSetInfoMap.Keys == live + {r.value};
        created := created + 1;
      }
    }

    method CreateStatementID(rows: seq<seq<Value>>) returns (r: Option<int>)
      requires Valid()
      modifies this
      ensures Valid() && Value() == Step(old(Value()), CreateStatement(rows, connected)).0
              && connected == old(connected)
      ensures Step(old(Value()), CreateStatement(rows, connected)).1 == if r.Some? then Handle(r.value) else Raised
      ensures r.Some? ==> r.value !in old(resultSetInfoMap) && r.value in resultSetInfoMap
      ensures r.Some? ==> resultSetInfoMap[r.value] == Cursor(old(created), rows, 0, false)
    {
      ghost var before := Value();
      if !connected {
        return None;
      }
      r := Put(Cursor(created, rows, 0, false));
      FirstFreeIsFree(before.key, before.live.Keys);
    }

    method CreatePreparedStatement() returns (r: Option<int>)
      requires Valid()
      modifies this
      ensures Valid() && Value() == Step(old(Value()), Prepare(connected)).0 && connected == old(connected)
      ensures Step(old(Value()), Prepare(connected)).1 == if r.Some? then Handle(r.value) else Raised
      ensures r.Some? ==> r.value !in old(resultSetInfoMap) && r.value in resultSetInfoMap
      ensures r.Some? ==> resultSetInfoMap[r.value] == Prepared(old(created), 0)
    {
      ghost var before := Value();
      if !connected {
        return None;
      }
      r := Put(Prepared(created, 0));
      FirstFreeIsFree(before.key, before.live.Keys);
    }

    method ExecPreparedStatement(handle: int, affected: nat) returns (ok: bool)
      requires Valid()
      modifies this`resultSetInfoMap
      ensures Valid() && Value() == Step(old(Value()), ExecPrepared(handle, affected, connected)).0
      ensures Step(old(Value()), ExecPrepared(handle, affected, connected)).1 == if ok then Done else Raised
    {
      if !connected || handle !in resultSetInfoMap {
        return false;
      }
      var info := resultSetInfoMap[handle];
      if !info.Prepared? {
        return false;
      }
      ghost var live := resultSetInfoMap.Keys;
      resultSetInfoMap := resultSetInfoMap[handle := info.(affectedRows := affected)];
      assert resultSetInfoMap.Keys == live;
      return true;
    }

    /** The rows changed by the last execution; None where there is no such handle. */
    method GetNumberOfAffectedRows(handle: int) returns (r: Option<nat>)
      ensures r == AffectedRows(Value(), handle)
    {
      if handle !in resultSetInfoMap {
        return None;
      }
      var info := resultSetInfoMap[handle];
      return Some(if info.Prepared? then info.affectedRows else 0);
    }

    /** The next row of a result set; after the last one the cursor is closed and the handle cleared, or
        left in the table where clearing raises. */
    method GetResultSet(handle: int) returns (out: Outcome)
      requires Valid()
      modifies this`resultSetInfoMap
      ensures Valid() && Value() == Step(old(Value()), Fetch(handle, connected)).0
      ensures out == Step(old(Value()), Fetch(handle, connected)).1
    {
      if handle !in resultSetInfoMap || !resultSetInfoMap[handle].Cursor? || resultSetInfoMap[handle].closed {
        return Raised;
      }
      var info := resultSetInfoMap[handle];
      ghost var live := resultSetInfoMap.Keys;
      if info.next < |info.rows| {
        resultSetInfoMap := resultSetInfoMap[handle := info.(next := info.next + 1)];
        assert resultSetInfoMap.Keys == live;
        return Row(info.rows[info.next]);
      }
      if !connected {
        resultSetInfoMap := resultSetInfoMap[handle := info.(closed := true)];
        assert resultSetInfoMap.Keys == live;
        return Raised;
      }
      var ok := ClearResultSetID(handle);
      return NoMoreRows;
    }

    /** Clear a handle; false where it raises because there is no connection. */
    method ClearResultSetID(handle: int) returns (ok: bool)
      requires Valid()
      modifies this`resultSetInfoMap
      ensures Valid() && Value() == Step(old(Value()), Clear(handle, connected)).0
      ensures Step(old(Value()), Clear(handle, connected)).1 == if ok then Done else Raised
    {
      if !connected {
        return false;
      }
      resultSetInfoMap := resultSetInfoMap - {handle};
      return true;
    }

    method FinalizeAllResultSet()
      requires Valid()
      modifies this
      ensures Valid() && Value() == Step(old(Value()), FinalizeAll).0 && connected == old(connected)
    {
      resultSetInfoMap := map[];
    }
  }

  // ---------- what every step keeps ----------

  /** Live handles stand for different objects, all of them created before. */
  predicate Distinct(t: Table) {
    && (forall h :: h in t.live ==> t.live[h].origin < t.created)
    && (forall g, h :: g in t.live && h in t.live && g != h ==> t.live[g].origin != t.live[h].origin)
  }

  predicate TableValid(t: Table) {
    KeysValid(t.key, t.live.Keys) && Distinct(t)
  }

  lemma CreatedKeepsValid(t: Table, info: ResultSetInfo)
    requires TableValid(t) && info.origin == t.created
    ensures TableValid(Created(t, info).0)
    ensures Created(t, info).1.Handle? ==> Created(t, info).1.handle !in t.live
  {
    FirstFreeIsFree(t.key, t.live.Keys);
    if FirstFree(t.key, t.live.Keys).Some? {
      FirstFreeKeepsValid(t.key, t.live.Keys);
      var k := FirstFree(t.key, t.live.Keys).value;
      assert t.live[k := info].Keys == t.live.Keys + {k};
    }
  }

  /** Every operation keeps the table valid. */
  lemma StepKeepsValid(t: Table, op: Op)
    requires TableValid(t)
    ensures TableValid(Step(t, op).0)
  {
    match op {
      case CreateStatement(rows, _) => CreatedKeepsValid(t, Cursor(t.created, rows, 0, false));
      case Prepare(_) => CreatedKeepsValid(t, Prepared(t.created, 0));
      case ExecPrepared(h, _, _) =>
        assert Step(t, op).0.live.Keys == t.live.Keys;
      case Fetch(h, connected) =>
        if h in t.live && t.live[h].Cursor? && (t.live[h].next < |t.live[h].rows| || !connected) {
          assert Step(t, op).0.live.Keys == t.live.Keys;
        }
      case _ =>
    }
  }

  /** The operation names the handle. */
  predicate Touches(op: Op, h: int) {
    match op
    case ExecPrepared(g, _, _) => g == h
    case Fetch(g, _) => g == h
    case Clear(g, _) => g == h
    case FinalizeAll => true
    case _ => false
  }

  /** An operation leaves every live handle it does not name exactly as it was, and what it gives out
      was not live before. */
  lemma StepFrame(t: Table, op: Op, h: int)
    requires TableValid(t) && h in t.live && !Touches(op, h)
    ensures h in Step(t, op).0.live && Step(t, op).0.live[h] == t.live[h]
    ensures Step(t, op).1 != Handle(h)
  {
    match op {
      case CreateStatement(rows, _) => CreatedKeepsValid(t, Cursor(t.created, rows, 0, false));
      case Prepare(_) => CreatedKeepsValid(t, Prepared(t.created, 0));
      case _ =>
    }
  }

  /** A handle that is live before and after a step stands for the same object. */
  lemma StepKeepsObject(t: Table, op: Op, h: int)
    requires TableValid(t) && h in t.live && h in Step(t, op).0.live
    ensures Step(t, op).0.live[h].origin == t.live[h].origin
    ensures t.live[h].Cursor? ==> Step(t, op).0.live[h].Cursor? && Step(t, op).0.live[h].rows == t.live[h].rows
  {
    if !Touches(op, h) {
      StepFrame(t, op, h);
    }
  }

  // ---------- whole runs ----------

  function RunAll(t: Table, ops: seq<Op>): (r: Table)
    requires TableValid(t)
    ensures TableValid(r)
    decreases |ops|
  {
    if ops == [] then t
    else
      StepKeepsValid(t, ops[0]);
      RunAll(Step(t, ops[0]).0, ops[1..])
  }

  predicate IsFetch(op: Op, h: int) {
    op.Fetch? && op.handle == h
  }

  /** No operation clears the handle: it is only fetched from, or left alone. */
  predicate OnlyFetches(ops: seq<Op>, h: int) {
    forall i :: 0 <= i < |ops| && Touches(ops[i], h) ==> IsFetch(ops[i], h)
  }

  function FetchCount(ops: seq<Op>, h: int): nat {
    if ops == [] then 0 else (if IsFetch(ops[0], h) then 1 else 0) + FetchCount(ops[1..], h)
  }

  /** Whether the connection is there for the last fetch of `h`. */
  predicate LastConnected(ops: seq<Op>, h: int) {
    if ops == [] then true
    else if IsFetch(ops[0], h) && FetchCount(ops[1..], h) == 0 then ops[0].connected
    else LastConnected(ops[1..], h)
  }

  /** What the fetches of `h` return during a run. */
  function Fetched(t: Table, ops: seq<Op>, h: int): seq<Outcome>
    requires TableValid(t)
    decreases |ops|
  {
    if ops == [] then []
    else
      StepKeepsValid(t, ops[0]);
      var (after, out) := Step(t, ops[0]);
      (if IsFetch(ops[0], h) then [out] else []) + Fetched(after, ops[1..], h)
  }

  /** The first `n` outcomes of reading rows from index `next` on: the rows, then `end`. */
  function Expected(rows: seq<seq<Value>>, next: nat, n: nat, end: Outcome): seq<Outcome>
    decreases n
  {
    if n == 0 then []
    else if next < |rows| then [Row(rows[next])] + Expected(rows, next + 1, n - 1, end)
    else [end]
  }

  lemma {:induction false} NoFetchesNothingFetched(t: Table, ops: seq<Op>, h: int)
    requires TableValid(t) && FetchCount(ops, h) == 0
    ensures Fetched(t, ops, h) == []
    decreases |ops|
  {
    if ops != [] {
      StepKeepsValid(t, ops[0]);
      NoFetchesNothingFetched(Step(t, ops[0]).0, ops[1..], h);
    }
  }

  /** However other handles are used in between, and whether or not the connection is there, fetching one
      result set gives its rows once each, in order; then the end, which raises without a connection. */
  lemma {:induction false} FetchingReadsInOrder(t: Table, ops: seq<Op>, h: int)
    requires TableValid(t) && h in t.live && t.live[h].Cursor? && !t.live[h].closed
    requires t.live[h].next <= |t.live[h].rows|
    requires OnlyFetches(ops, h) && FetchCount(ops, h) <= |t.live[h].rows| - t.live[h].next + 1
    ensures Fetched(t, ops, h) == Expected(t.live[h].rows, t.live[h].next, FetchCount(ops, h),
                                           if LastConnected(ops, h) then NoMoreRows else Raised)
    decreases |ops|
  {
    if ops != [] {
      var op, c := ops[0], t.live[h];
      var after := Step(t, op).0;
      StepKeepsValid(t, op);
      assert OnlyFetches(ops[1..], h);
      if IsFetch(op, h) {
        if c.next < |c.rows| {
          FetchingReadsInOrder(after, ops[1..], h);
          EndUnused(c.rows, c.next + 1, FetchCount(ops[1..], h), LastConnected(ops, h), LastConnected(ops[1..], h));
        } else {
          NoFetchesNothingFetched(after, ops[1..], h);
        }
      } else {
        assert !Touches(op, h);
        StepFrame(t, op, h);
        FetchingReadsInOrder(after, ops[1..], h);
      }
    }
  }

  /** Where nothing is left to fetch, the end does not show. */
  lemma EndUnused(rows: seq<seq<Value>>, next: nat, n: nat, a: bool, b: bool)
    ensures n == 0 || a == b ==>
              Expected(rows, next, n, if a then NoMoreRows else Raised) ==
              Expected(rows, next, n, if b then NoMoreRows else Raised)
  {
  }

  /** Until its end is reached or it is cleared, a handle stands for the object it was created for,
      whatever else runs. When the end is reached, it is gone; without a connection it stays in the table,
      but every further fetch raises. */
  lemma {:induction false} HandleKeepsObject(t: Table, ops: seq<Op>, h: int)
    requires TableValid(t) && h in t.live && t.live[h].Cursor? && !t.live[h].closed
    requires t.live[h].next <= |t.live[h].rows|
    requires OnlyFetches(ops, h) && FetchCount(ops, h) <= |t.live[h].rows| - t.live[h].next
    ensures h in RunAll(t, ops).live
    ensures RunAll(t, ops).live[h] == t.live[h].(next := t.live[h].next + FetchCount(ops, h))
    ensures FetchCount(ops, h) == |t.live[h].rows| - t.live[h].next ==>
              h !in Step(RunAll(t, ops), Fetch(h, true)).0.live
    ensures FetchCount(ops, h) == |t.live[h].rows| - t.live[h].next ==>
              var stale := Step(RunAll(t, ops), Fetch(h, false)).0;
              h in stale.live && KeysValid(stale.key, stale.live.Keys) &&
              forall again: bool :: Step(stale, Fetch(h, again)) == (stale, Raised)
    decreases |ops|
  {
    if ops != [] {
      var op := ops[0];
      StepKeepsValid(t, op);
      assert OnlyFetches(ops[1..], h);
      if !IsFetch(op, h) {
        assert !Touches(op, h);
        StepFrame(t, op, h);
      }
      HandleKeepsObject(Step(t, op).0, ops[1..], h);
    } else {
      StepKeepsValid(t, Fetch(h, false));
    }
  }

  // ---------- from creation on ----------

  /** A new statement gets a handle exactly if the connection is there and a key is free; a new one, under which the
      statement stands before its first row. */
  lemma NewStatementIsAtItsStart(t: Table, rows: seq<seq<Value>>, connected: bool)
    requires TableValid(t)
    ensures
      var (after, out) := Step(t, CreateStatement(rows, connected));
      && TableValid(after)
      && (out.Handle? <==> connected && exists k :: 2 <= k <= MAX_VALUE && k !in t.live)
      && (out.Handle? ==> out.handle !in t.live && out.handle in after.live
                          && after.live[out.handle] == Cursor(t.created, rows, 0, false))
  {
    StepKeepsValid(t, CreateStatement(rows, connected));
    FirstFreeIsFree(t.key, t.live.Keys);
  }

  /** From its creation on, whatever else runs, fetching from a statement gives its own rows from the first one on,
      once each and in order, and then the end. */
  lemma NewStatementGivesItsRows(t: Table, rows: seq<seq<Value>>, connected: bool, ops: seq<Op>, h: int)
    requires TableValid(t) && Step(t, CreateStatement(rows, connected)).1 == Handle(h)
    requires OnlyFetches(ops, h) && FetchCount(ops, h) <= |rows| + 1
    ensures TableValid(Step(t, CreateStatement(rows, connected)).0)
    ensures
      var got := Fetched(Step(t, CreateStatement(rows, connected)).0, ops, h);
      && |got| == FetchCount(ops, h)
      && forall i :: 0 <= i < |got| ==>
           got[i] == if i < |rows| then Row(rows[i]) else if LastConnected(ops, h) then NoMoreRows else Raised
  {
    NewStatementIsAtItsStart(t, rows, connected);
    FetchingReadsInOrder(Step(t, CreateStatement(rows, connected)).0, ops, h);
    ExpectedAt(rows, 0, FetchCount(ops, h), if LastConnected(ops, h) then NoMoreRows else Raised);
  }

  lemma {:induction false} ExpectedAt(rows: seq<seq<Value>>, next: nat, n: nat, end: Outcome)
    requires next + n <= |rows| + 1
    ensures
      var got := Expected(rows, next, n, end);
      && |got| == n
      && forall i :: 0 <= i < n ==> got[i] == if next + i < |rows| then Row(rows[next + i]) else end
    decreases n
  {
    if n > 0 && next < |rows| {
      ExpectedAt(rows, next + 1, n - 1, end);
    }
  }

  predicate IsExecution(op: Op, h: int) {
    op.ExecPrepared? && op.handle == h && op.connected
  }

  predicate Removes(op: Op, h: int) {
    op.FinalizeAll? || (op.Clear? && op.handle == h)
  }

  /** The last execution of `h` in the run, or `first` if there is none, is what is recorded. */
  predicate Records(ops: seq<Op>, h: int, first: nat, n: nat) {
    && (forall i :: 0 <= i < |ops| && IsExecution(ops[i], h) && NoneAfter(ops, h, i) ==> n == ops[i].affected)
    && ((forall i :: 0 <= i < |ops| ==> !IsExecution(ops[i], h)) ==> n == first)
  }

  predicate NoneAfter(ops: seq<Op>, h: int, i: nat) {
    forall j :: i < j < |ops| ==> !IsExecution(ops[j], h)
  }

  /** Until it is removed, a prepared statement stays under its handle with the rows of its last execution. */
  lemma {:induction false} PreparedStays(t: Table, ops: seq<Op>, h: int)
    requires TableValid(t) && h in t.live && t.live[h].Prepared?
    requires forall i :: 0 <= i < |ops| ==> !Removes(ops[i], h)
    ensures
      var after := RunAll(t, ops);
      && h in after.live && after.live[h].Prepared? && after.live[h].origin == t.live[h].origin
      && Records(ops, h, t.live[h].affectedRows, after.live[h].affectedRows)
    decreases |ops|
  {
    if ops != [] {
      var op, more := ops[0], ops[1..];
      var next := Step(t, op).0;
      StepKeepsValid(t, op);
      if !Touches(op, h) {
        StepFrame(t, op, h);
      }
      PreparedStays(next, more, h);
      RecordsCons(ops, h, t.live[h].affectedRows, next.live[h].affectedRows, RunAll(next, more).live[h].affectedRows);
    }
  }

  lemma RecordsCons(ops: seq<Op>, h: int, first: nat, second: nat, n: nat)
    requires ops != [] && Records(ops[1..], h, second, n)
    requires second == if IsExecution(ops[0], h) then ops[0].affected else first
    ensures Records(ops, h, first, n)
  {
    var more := ops[1..];
    forall i | 0 <= i < |ops| && IsExecution(ops[i], h) && NoneAfter(ops, h, i)
      ensures n == ops[i].affected
    {
      if i > 0 {
        assert more[i - 1] == ops[i];
        assert NoneAfter(more, h, i - 1);
      } else {
        assert forall j :: 0 <= j < |more| ==> more[j] == ops[j + 1];
      }
    }
    if forall i :: 0 <= i < |ops| ==> !IsExecution(ops[i], h) {
      assert forall j :: 0 <= j < |more| ==> more[j] == ops[j + 1];
    }
  }

  /** Preparing gives a handle exactly if the connection is there and a key is free; a new one, under which the
      statement stands with nothing executed. */
  lemma NewPreparedIsUnused(t: Table, connected: bool)
    requires TableValid(t)
    ensures
      var (after, out) := Step(t, Prepare(connected));
      && TableValid(after)
      && (out.Handle? <==> connected && exists k :: 2 <= k <= MAX_VALUE && k !in t.live)
      && (out.Handle? ==> out.handle !in t.live && out.handle in after.live
                          && after.live[out.handle] == Prepared(t.created, 0))
  {
    StepKeepsValid(t, Prepare(connected));
    FirstFreeIsFree(t.key, t.live.Keys);
  }

  /** A prepared statement can be executed from its creation on until it is removed, and reports the rows of its last
      execution, none at first. */
  lemma NewPreparedExecutes(t: Table, connected: bool, ops: seq<Op>, h: int, n: nat)
    requires TableValid(t) && Step(t, Prepare(connected)).1 == Handle(h)
    requires forall i :: 0 <= i < |ops| ==> !Removes(ops[i], h)
    ensures TableValid(Step(t, Prepare(connected)).0)
    ensures
      var after := RunAll(Step(t, Prepare(connected)).0, ops);
      && AffectedRows(after, h).Some? && Records(ops, h, 0, AffectedRows(after, h).value)
      && Step(after, ExecPrepared(h, n, true)).1 == Done
      && AffectedRows(Step(after, ExecPrepared(h, n, true)).0, h) == Some(n)
  {
    NewPreparedIsUnused(t, connected);
    PreparedStays(Step(t, Prepare(connected)).0, ops, h);
  }

  /** Clearing removes the handle and no other, or nothing where there is no connection; finalizing removes all. The
      counter stays, and what was removed can no longer be used. */
  lemma RemovalIsExact(t: Table, h: int, g: int, connected: bool)
    requires TableValid(t)
    ensures
      var (after, out) := Step(t, Clear(h, connected));
      && (out == Done <==> connected) && after.key == t.key
      && (!connected ==> after == t && out == Raised)
      && (g in after.live <==> g in t.live && !(connected && g == h))
      && (g in after.live ==> after.live[g] == t.live[g])
      && (connected ==> TableValid(after) && Step(after, Fetch(h, true)) == (after, Raised))
    ensures
      var (after, out) := Step(t, FinalizeAll);
      && out == Done && after.key == t.key && TableValid(after)
      && g !in after.live && Step(after, Fetch(g, true)) == (after, Raised)
  {
    StepKeepsValid(t, Clear(h, connected));
    StepKeepsValid(t, FinalizeAll);
  }
}
