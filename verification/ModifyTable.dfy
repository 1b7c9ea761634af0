/** What row-at-a-time UPDATE and DELETE leave in the remote table, and exactly when that is what one
    statement over the whole set of rows would leave.
 */
module ModifyTable {
  import opened Nodes
  import opened Lexical
  import opened Deparse
  import opened Semantics
  import opened Select
  import opened SelectRead
  import opened ModifySql
  import opened ModifyRun

  type TableRow = map<string, Value>

  // ---------- executing one statement ----------

  function Field(row: TableRow, column: string): Value {
    if column in row then row[column] else NullV
  }

  function Argument(params: map<nat, Value>, position: nat): Value {
    if position in params then params[position] else NullV
  }

  /** The WHERE clause holds: every key column equals its parameter. Equality with a null is not
      true. */
  predicate Matches(row: TableRow, keys: seq<Bound>, params: map<nat, Value>) {
    forall i :: 0 <= i < |keys| ==> Holds(row, keys[i], params)
  }

  predicate Holds(row: TableRow, key: Bound, params: map<nat, Value>) {
    Argument(params, key.position) != NullV && Field(row, key.column) == Argument(params, key.position)
  }

  function Assigned(row: TableRow, sets: seq<Bound>, params: map<nat, Value>): TableRow {
    if sets == [] then row
    else
      var last := sets[|sets| - 1];
      Assigned(row, sets[..|sets| - 1], params)[last.column := Argument(params, last.position)]
  }

  function ExecUpdate(table: seq<TableRow>, sets: seq<Bound>, keys: seq<Bound>,
                      params: map<nat, Value>): seq<TableRow>
  {
    if table == [] then []
    else
      var k := |table| - 1;
      ExecUpdate(table[..k], sets, keys, params)
      + [if Matches(table[k], keys, params) then Assigned(table[k], sets, params) else table[k]]
  }

  function ExecDelete(table: seq<TableRow>, keys: seq<Bound>, params: map<nat, Value>): seq<TableRow> {
    if table == [] then []
    else
      var k := |table| - 1;
      ExecDelete(table[..k], keys, params) + if Matches(table[k], keys, params) then [] else [table[k]]
  }

  function ExecDml(table: seq<TableRow>, dml: Dml, params: map<nat, Value>): seq<TableRow> {
    match dml
    case InsertRow(_, _, values) => table + [Assigned(map[], values, params)]
    case UpdateRows(_, _, sets, keys) => ExecUpdate(table, sets, keys, params)
    case DeleteRows(_, _, keys) => ExecDelete(table, keys, params)
  }

  /** The prepared statement executed with one parameter set after another. */
  function ExecAll(table: seq<TableRow>, dml: Dml, runs: seq<map<nat, Value>>): seq<TableRow> {
    if runs == [] then table
    else ExecDml(ExecAll(table, dml, runs[..|runs| - 1]), dml, runs[|runs| - 1])
  }

  // ---------- the same in terms of keys and values ----------

  function KeyOf(row: TableRow, names: seq<string>): (r: seq<Value>)
    ensures |r| == |names| && forall i :: 0 <= i < |names| ==> r[i] == Field(row, names[i])
  {
    if names == [] then [] else KeyOf(row, names[..|names| - 1]) + [Field(row, names[|names| - 1])]
  }

  predicate NoNulls(vs: seq<Value>) {
    NullV !in vs
  }

  /** The rows agree on every key column. */
  predicate SameKey(r: TableRow, s: TableRow, names: seq<string>) {
    forall i :: 0 <= i < |names| ==> SameField(r, s, names[i])
  }

  predicate SameField(r: TableRow, s: TableRow, column: string) {
    Field(r, column) == Field(s, column)
  }

  /** The row with the named columns set, the k-th to the k-th value. */
  function WithValues(row: TableRow, names: seq<string>, vs: seq<Value>): TableRow {
    if names == [] then row
    else
      var k := |names| - 1;
      WithValues(row, names[..k], vs)[names[k] := At(vs, k + 1)]
  }

  /** What an update by the key of `keyRow` makes of a row. */
  function ChangedRow(row: TableRow, keyNames: seq<string>, keyRow: TableRow, names: seq<string>,
                      vs: seq<Value>): TableRow
  {
    if SameKey(row, keyRow, keyNames) then WithValues(row, names, vs) else row
  }

  function Updated(table: seq<TableRow>, keyNames: seq<string>, keyRow: TableRow, names: seq<string>,
                   vs: seq<Value>): (r: seq<TableRow>)
    ensures |r| == |table|
  {
    if table == [] then []
    else
      var k := |table| - 1;
      Updated(table[..k], keyNames, keyRow, names, vs) + [ChangedRow(table[k], keyNames, keyRow, names, vs)]
  }

  lemma {:induction false} UpdatedAt(table: seq<TableRow>, keyNames: seq<string>, keyRow: TableRow, names: seq<string>,
                                     vs: seq<Value>, i: nat)
    requires i < |table|
    ensures Updated(table, keyNames, keyRow, names, vs)[i] == ChangedRow(table[i], keyNames, keyRow, names, vs)
  {
    var k := |table| - 1;
    if i < k {
      UpdatedAt(table[..k], keyNames, keyRow, names, vs, i);
    }
  }

  function Deleted(table: seq<TableRow>, keyNames: seq<string>, keyRow: TableRow): seq<TableRow> {
    if table == [] then []
    else
      var k := |table| - 1;
      Deleted(table[..k], keyNames, keyRow) + if SameKey(table[k], keyRow, keyNames) then [] else [table[k]]
  }

  /** With the key of `keyRow` bound, the WHERE clause holds on exactly the rows of that key. */
  lemma MatchesIsSameKey(row: TableRow, keyNames: seq<string>, before: seq<Value>, keyRow: TableRow)
    requires NoNulls(KeyOf(keyRow, keyNames))
    ensures Matches(row, Numbered(keyNames, |before|), ParamMap(before + KeyOf(keyRow, keyNames)))
            <==> SameKey(row, keyRow, keyNames)
  {
    var bounds, params := Numbered(keyNames, |before|), ParamMap(before + KeyOf(keyRow, keyNames));
    forall i | 0 <= i < |keyNames|
      ensures Holds(row, bounds[i], params) <==> SameField(row, keyRow, keyNames[i])
    {
      OneKeyHolds(row, keyNames, before, keyRow, i);
    }
    if Matches(row, bounds, params) {
      forall i | 0 <= i < |keyNames|
        ensures SameField(row, keyRow, keyNames[i])
      {
        assert Holds(row, bounds[i], params);
      }
    }
    if SameKey(row, keyRow, keyNames) {
      forall i | 0 <= i < |bounds|
        ensures Holds(row, bounds[i], params)
      {
        assert SameField(row, keyRow, keyNames[i]);
      }
    }
  }

  lemma OneKeyHolds(row: TableRow, keyNames: seq<string>, before: seq<Value>, keyRow: TableRow, i: nat)
    requires i < |keyNames| && NoNulls(KeyOf(keyRow, keyNames))
    ensures Holds(row, Numbered(keyNames, |before|)[i], ParamMap(before + KeyOf(keyRow, keyNames)))
            <==> SameField(row, keyRow, keyNames[i])
  {
    var key := KeyOf(keyRow, keyNames);
    var vs, k := before + key, |before| + i + 1;
    assert Numbered(keyNames, |before|)[i] == Bound(keyNames[i], k);
    assert vs[k - 1] == key[i] == Field(keyRow, keyNames[i]);
    assert key[i] in key;
    ArgumentAt(vs, k);
    HoldsWhenEqual(row, Bound(keyNames[i], k), ParamMap(vs), key[i]);
  }

  lemma HoldsWhenEqual(row: TableRow, key: Bound, params: map<nat, Value>, v: Value)
    requires Argument(params, key.position) == v && v != NullV
    ensures Holds(row, key, params) <==> Field(row, key.column) == v
  {
  }

  lemma ArgumentAt(vs: seq<Value>, k: nat)
    requires 1 <= k <= |vs|
    ensures Argument(ParamMap(vs), k) == vs[k - 1]
  {
    assert k in Positions(|vs|);
  }

  lemma {:induction false} AssignedIsWithValues(row: TableRow, names: seq<string>, vs: seq<Value>,
                                                params: map<nat, Value>)
    requires forall k: nat :: 1 <= k <= |names| ==> Argument(params, k) == At(vs, k)
    ensures Assigned(row, Numbered(names, 0), params) == WithValues(row, names, vs)
  {
    if names != [] {
      var k := |names| - 1;
      assert Numbered(names, 0)[..k] == Numbered(names[..k], 0);
      AssignedIsWithValues(row, names[..k], vs, params);
      assert Argument(params, k + 1) == At(vs, k + 1);
    }
  }

  lemma FirstArguments(vs: seq<Value>, rest: seq<Value>)
    ensures forall k: nat :: 1 <= k <= |vs| ==> Argument(ParamMap(vs + rest), k) == At(vs, k)
  {
    forall k: nat | 1 <= k <= |vs|
      ensures Argument(ParamMap(vs + rest), k) == At(vs, k)
    {
      assert (vs + rest)[k - 1] == vs[k - 1];
      ArgumentAt(vs + rest, k);
    }
  }

  /** The UPDATE statement, with its parameters bound, sets the values of exactly the rows that have
      the key. */
  lemma {:induction false} ExecUpdateIsUpdated(table: seq<TableRow>, names: seq<string>, keyNames: seq<string>,
                                               vs: seq<Value>, keyRow: TableRow)
    requires |names| == |vs| && NoNulls(KeyOf(keyRow, keyNames))
    ensures ExecUpdate(table, Numbered(names, 0), Numbered(keyNames, |names|),
                       ParamMap(vs + KeyOf(keyRow, keyNames))) ==
            Updated(table, keyNames, keyRow, names, vs)
  {
    if table != [] {
      var k := |table| - 1;
      ExecUpdateIsUpdated(table[..k], names, keyNames, vs, keyRow);
      MatchesIsSameKey(table[k], keyNames, vs, keyRow);
      FirstArguments(vs, KeyOf(keyRow, keyNames));
      AssignedIsWithValues(table[k], names, vs, ParamMap(vs + KeyOf(keyRow, keyNames)));
    }
  }

  lemma {:induction false} ExecDeleteIsDeleted(table: seq<TableRow>, keyNames: seq<string>, keyRow: TableRow)
    requires NoNulls(KeyOf(keyRow, keyNames))
    ensures ExecDelete(table, Numbered(keyNames, 0), ParamMap(KeyOf(keyRow, keyNames))) ==
            Deleted(table, keyNames, keyRow)
  {
    if table != [] {
      var k := |table| - 1;
      ExecDeleteIsDeleted(table[..k], keyNames, keyRow);
      MatchesIsSameKey(table[k], keyNames, [], keyRow);
      assert [] + KeyOf(keyRow, keyNames) == KeyOf(keyRow, keyNames);
    }
  }

  // ---------- row at a time, and all at once ----------

  function RowAt(table: seq<TableRow>, i: nat): TableRow {
    if i < |table| then table[i] else map[]
  }

  /** Rows `i` and `j` have the same key. */
  predicate ShareKey(table: seq<TableRow>, keyNames: seq<string>, i: nat, j: nat) {
    SameKey(RowAt(table, i), RowAt(table, j), keyNames)
  }

  /** No two rows share a key. */
  predicate UniqueKeys(table: seq<TableRow>, keyNames: seq<string>) {
    forall i, j :: 0 <= i < |table| && 0 <= j < |table| && i != j ==> !ShareKey(table, keyNames, i, j)
  }

  /** A row of the table picked by the scan, and the values it is to get. */
  datatype Pick = Pick(index: nat, news: seq<Value>)

  /** The picks are rows of the table. */
  predicate InTable(table: seq<TableRow>, picks: seq<Pick>) {
    forall j :: 0 <= j < |picks| ==> picks[j].index < |table|
  }

  predicate SameRow(picks: seq<Pick>, a: nat, b: nat)
    requires a < |picks| && b < |picks|
  {
    picks[a].index == picks[b].index
  }

  /** No row is picked twice. */
  predicate NoRepeats(picks: seq<Pick>) {
    forall a, b :: 0 <= a < b < |picks| ==> !SameRow(picks, a, b)
  }

  function NewRow(table: seq<TableRow>, names: seq<string>, p: Pick): TableRow {
    WithValues(RowAt(table, p.index), names, p.news)
  }

  /** After the first `m` picks: one prepared update per row, each by the key the row had when it was
      scanned. */
  function UpdatedInTurn(table: seq<TableRow>, keyNames: seq<string>, names: seq<string>, picks: seq<Pick>,
                         m: nat): (r: seq<TableRow>)
    requires m <= |picks|
    ensures |r| == |table|
  {
    if m == 0 then table
    else
      Updated(UpdatedInTurn(table, keyNames, names, picks, m - 1), keyNames,
              RowAt(table, picks[m - 1].index), names, picks[m - 1].news)
  }

  /** The first `m` picked rows changed, all at once. */
  function UpdatedAtOnce(table: seq<TableRow>, names: seq<string>, picks: seq<Pick>, m: nat): (r: seq<TableRow>)
    requires m <= |picks|
    ensures |r| == |table|
  {
    if m == 0 then table
    else
      var before := UpdatedAtOnce(table, names, picks, m - 1);
      if picks[m - 1].index < |table| then before[picks[m - 1].index := NewRow(table, names, picks[m - 1])] else before
  }

  /** A row that was not picked is what it was. */
  lemma {:induction false} UnpickedStays(table: seq<TableRow>, names: seq<string>, picks: seq<Pick>, m: nat, i: nat)
    requires m <= |picks| && i < |table|
    requires forall a :: 0 <= a < m ==> picks[a].index != i
    ensures UpdatedAtOnce(table, names, picks, m)[i] == table[i]
  {
    if m > 0 {
      UnpickedStays(table, names, picks, m - 1, i);
    }
  }

  /** A picked row has its own new values. */
  lemma {:induction false} PickedChanges(table: seq<TableRow>, names: seq<string>, picks: seq<Pick>, m: nat, a: nat)
    requires a < m <= |picks| && InTable(table, picks) && NoRepeats(picks)
    ensures UpdatedAtOnce(table, names, picks, m)[picks[a].index] == NewRow(table, names, picks[a])
  {
    if a < m - 1 {
      PickedChanges(table, names, picks, m - 1, a);
      assert !SameRow(picks, a, m - 1);
    }
  }

  /** Pick `a` is given the key that pick `b` was scanned with. */
  predicate Collides(table: seq<TableRow>, keyNames: seq<string>, names: seq<string>, picks: seq<Pick>, a: nat, b: nat)
    requires a < |picks| && b < |picks|
  {
    SameKey(NewRow(table, names, picks[a]), RowAt(table, picks[b].index), keyNames)
  }

  /** Among the first `m` picks, no row is given a key that a later one was scanned with. */
  predicate NoCollision(table: seq<TableRow>, keyNames: seq<string>, names: seq<string>, picks: seq<Pick>, m: nat)
    requires m <= |picks|
  {
    forall a, b :: 0 <= a < b < m ==> !Collides(table, keyNames, names, picks, a, b)
  }

  /** After the first `m` picks, the key of the next one is the key of its own row only. */
  lemma OnlyItsRow(table: seq<TableRow>, keyNames: seq<string>, names: seq<string>, picks: seq<Pick>, m: nat, i: nat)
    requires UniqueKeys(table, keyNames) && InTable(table, picks) && NoRepeats(picks)
    requires m < |picks| && i < |table|
    requires forall a :: 0 <= a < m ==> !Collides(table, keyNames, names, picks, a, m)
    ensures
      var row := UpdatedAtOnce(table, names, picks, m)[i];
      && (SameKey(row, RowAt(table, picks[m].index), keyNames) <==> i == picks[m].index)
      && (i == picks[m].index ==> row == table[i])
  {
    if a :| 0 <= a < m && picks[a].index == i {
      PickedChanges(table, names, picks, m, a);
      assert !Collides(table, keyNames, names, picks, a, m);
      assert !SameRow(picks, a, m);
    } else {
      UnpickedStays(table, names, picks, m, i);
      assert i != picks[m].index ==> !ShareKey(table, keyNames, i, picks[m].index);
    }
  }

  /** Without a collision, each statement changes a row exactly when it was made for it. */
  lemma {:induction false} EachRowAlike(table: seq<TableRow>, keyNames: seq<string>, names: seq<string>,
                                        picks: seq<Pick>, m: nat, i: nat)
    requires UniqueKeys(table, keyNames) && InTable(table, picks) && NoRepeats(picks) && i < |table|
    requires m <= |picks| && NoCollision(table, keyNames, names, picks, m)
    ensures UpdatedInTurn(table, keyNames, names, picks, m)[i] == UpdatedAtOnce(table, names, picks, m)[i]
  {
    if m > 0 {
      EachRowAlike(table, keyNames, names, picks, m - 1, i);
      OnlyItsRow(table, keyNames, names, picks, m - 1, i);
      RowStaysAlike(table, keyNames, names, picks, m, i);
    }
  }

  /** The induction step for one row. */
  lemma RowStaysAlike(table: seq<TableRow>, keyNames: seq<string>, names: seq<string>, picks: seq<Pick>, m: nat, i: nat)
    requires 0 < m <= |picks| && i < |table|
    requires
      var row := UpdatedAtOnce(table, names, picks, m - 1)[i];
      && UpdatedInTurn(table, keyNames, names, picks, m - 1)[i] == row
      && (SameKey(row, RowAt(table, picks[m - 1].index), keyNames) <==> i == picks[m - 1].index)
      && (i == picks[m - 1].index ==> row == table[i])
    ensures UpdatedInTurn(table, keyNames, names, picks, m)[i] == UpdatedAtOnce(table, names, picks, m)[i]
  {
    InTurnStep(table, keyNames, names, picks, m, i);
    AtOnceStep(table, names, picks, m, i);
    ChangedOrNot(UpdatedAtOnce(table, names, picks, m - 1)[i], keyNames, RowAt(table, picks[m - 1].index), names,
                 picks[m - 1].news, i == picks[m - 1].index);
  }

  lemma ChangedOrNot(row: TableRow, keyNames: seq<string>, keyRow: TableRow, names: seq<string>, vs: seq<Value>,
                     own: bool)
    requires SameKey(row, keyRow, keyNames) <==> own
    ensures ChangedRow(row, keyNames, keyRow, names, vs) == if own then WithValues(row, names, vs) else row
  {
  }

  lemma InTurnStep(table: seq<TableRow>, keyNames: seq<string>, names: seq<string>, picks: seq<Pick>, m: nat, i: nat)
    requires 0 < m <= |picks| && i < |table|
    ensures UpdatedInTurn(table, keyNames, names, picks, m)[i] ==
            ChangedRow(UpdatedInTurn(table, keyNames, names, picks, m - 1)[i], keyNames,
                       RowAt(table, picks[m - 1].index), names, picks[m - 1].news)
  {
    UpdatedAt(UpdatedInTurn(table, keyNames, names, picks, m - 1), keyNames, RowAt(table, picks[m - 1].index), names,
              picks[m - 1].news, i);
  }

  lemma AtOnceStep(table: seq<TableRow>, names: seq<string>, picks: seq<Pick>, m: nat, i: nat)
    requires 0 < m <= |picks| && i < |table|
    ensures UpdatedAtOnce(table, names, picks, m)[i] ==
            if i == picks[m - 1].index then WithValues(table[i], names, picks[m - 1].news)
            else UpdatedAtOnce(table, names, picks, m - 1)[i]
  {
  }

  lemma NoCollisionIsEnough(table: seq<TableRow>, keyNames: seq<string>, names: seq<string>, picks: seq<Pick>, m: nat)
    requires UniqueKeys(table, keyNames) && InTable(table, picks) && NoRepeats(picks)
    requires m <= |picks| && NoCollision(table, keyNames, names, picks, m)
    ensures UpdatedInTurn(table, keyNames, names, picks, m) == UpdatedAtOnce(table, names, picks, m)
  {
    forall i: nat | i < |table|
      ensures UpdatedInTurn(table, keyNames, names, picks, m)[i] == UpdatedAtOnce(table, names, picks, m)[i]
    {
      EachRowAlike(table, keyNames, names, picks, m, i);
    }
  }

  // ---------- a collision is fatal ----------

  /** The key of a changed row depends only on the key it had. */
  lemma ChangedKey(r: TableRow, s: TableRow, keyNames: seq<string>, names: seq<string>, vs: seq<Value>)
    requires SameKey(r, s, keyNames)
    ensures SameKey(WithValues(r, names, vs), WithValues(s, names, vs), keyNames)
  {
    forall i | 0 <= i < |keyNames|
      ensures SameField(WithValues(r, names, vs), WithValues(s, names, vs), keyNames[i])
    {
      assert SameField(r, s, keyNames[i]);
      ChangedField(r, s, keyNames[i], names, vs);
    }
  }

  lemma {:induction false} ChangedField(r: TableRow, s: TableRow, column: string, names: seq<string>, vs: seq<Value>)
    requires Field(r, column) == Field(s, column)
    ensures Field(WithValues(r, names, vs), column) == Field(WithValues(s, names, vs), column)
  {
    if names != [] {
      ChangedField(r, s, column, names[..|names| - 1], vs);
    }
  }

  lemma SharedKeyStep(table: seq<TableRow>, keyNames: seq<string>, keyRow: TableRow, names: seq<string>, vs: seq<Value>,
                      i: nat, j: nat)
    requires i < |table| && j < |table|
    ensures ShareKey(table, keyNames, i, j) ==> ShareKey(Updated(table, keyNames, keyRow, names, vs), keyNames, i, j)
  {
    UpdatedAt(table, keyNames, keyRow, names, vs, i);
    UpdatedAt(table, keyNames, keyRow, names, vs, j);
    if ShareKey(table, keyNames, i, j) {
      SameKeyAsThird(table[i], table[j], keyRow, keyNames);
      ChangedKey(table[i], table[j], keyNames, names, vs);
    }
  }

  lemma SameKeyAsThird(r: TableRow, s: TableRow, t: TableRow, names: seq<string>)
    requires SameKey(r, s, names)
    ensures SameKey(r, t, names) <==> SameKey(s, t, names)
  {
    forall i | 0 <= i < |names|
      ensures SameField(r, t, names[i]) <==> SameField(s, t, names[i])
    {
      assert SameField(r, s, names[i]);
    }
  }

  /** Two rows that share a key after some picks share one to the end. */
  lemma {:induction false} SharedKeyStays(table: seq<TableRow>, keyNames: seq<string>, names: seq<string>,
                                          picks: seq<Pick>, m: nat, n: nat, i: nat, j: nat)
    requires m <= n <= |picks| && i < |table| && j < |table|
    ensures ShareKey(UpdatedInTurn(table, keyNames, names, picks, m), keyNames, i, j) ==>
            ShareKey(UpdatedInTurn(table, keyNames, names, picks, n), keyNames, i, j)
    decreases n
  {
    if m < n {
      SharedKeyStays(table, keyNames, names, picks, m, n - 1, i, j);
      SharedKeyStep(UpdatedInTurn(table, keyNames, names, picks, n - 1), keyNames,
                    RowAt(table, picks[n - 1].index), names, picks[n - 1].news, i, j);
    }
  }

  /** Up to the first collision all is well; the statement that collides hits two rows at once. */
  lemma CollisionHitsTwo(table: seq<TableRow>, keyNames: seq<string>, names: seq<string>, picks: seq<Pick>, a: nat,
                         b: nat)
    requires UniqueKeys(table, keyNames) && InTable(table, picks) && NoRepeats(picks)
    requires a < b < |picks| && Collides(table, keyNames, names, picks, a, b)
    requires NoCollision(table, keyNames, names, picks, b)
    ensures ShareKey(UpdatedInTurn(table, keyNames, names, picks, b + 1), keyNames, picks[a].index, picks[b].index)
  {
    var before := UpdatedAtOnce(table, names, picks, b);
    NoCollisionIsEnough(table, keyNames, names, picks, b);
    PickedChanges(table, names, picks, b, a);
    forall c | 0 <= c < b
      ensures picks[c].index != picks[b].index
    {
      assert !SameRow(picks, c, b);
    }
    UnpickedStays(table, names, picks, b, picks[b].index);
    assert ShareKey(before, keyNames, picks[a].index, picks[b].index);
    SharedKeyStep(before, keyNames, RowAt(table, picks[b].index), names, picks[b].news,
                  picks[a].index, picks[b].index);
  }

  /** The first pick that collides with an earlier one. */
  lemma {:induction false} FirstCollision(table: seq<TableRow>, keyNames: seq<string>, names: seq<string>,
                                          picks: seq<Pick>, m: nat) returns (a: nat, b: nat)
    requires m <= |picks| && !NoCollision(table, keyNames, names, picks, m)
    ensures a < b < m && Collides(table, keyNames, names, picks, a, b)
    ensures NoCollision(table, keyNames, names, picks, b)
  {
    if !NoCollision(table, keyNames, names, picks, m - 1) {
      a, b := FirstCollision(table, keyNames, names, picks, m - 1);
    } else {
      a, b :| 0 <= a < b < m && Collides(table, keyNames, names, picks, a, b);
      assert b == m - 1;
    }
  }

  lemma CollisionBreaks(table: seq<TableRow>, keyNames: seq<string>, names: seq<string>, picks: seq<Pick>)
    requires UniqueKeys(table, keyNames) && InTable(table, picks) && NoRepeats(picks)
    requires UniqueKeys(UpdatedAtOnce(table, names, picks, |picks|), keyNames)
    requires !NoCollision(table, keyNames, names, picks, |picks|)
    ensures UpdatedInTurn(table, keyNames, names, picks, |picks|) != UpdatedAtOnce(table, names, picks, |picks|)
  {
    var a, b := FirstCollision(table, keyNames, names, picks, |picks|);
    var i, j := picks[a].index, picks[b].index;
    CollisionHitsTwo(table, keyNames, names, picks, a, b);
    SharedKeyStays(table, keyNames, names, picks, b + 1, |picks|, i, j);
    assert !SameRow(picks, a, b);
    assert !ShareKey(UpdatedAtOnce(table, names, picks, |picks|), keyNames, i, j);
  }

  /** Row-at-a-time UPDATE is the set-wise UPDATE, in any order of the rows, exactly when no row is
      given a key that a later one was scanned with. (The table's keys are unique, before and after
      the set-wise statement.) */
  lemma RowAtATimeUpdateIff(table: seq<TableRow>, keyNames: seq<string>, names: seq<string>, picks: seq<Pick>)
    requires UniqueKeys(table, keyNames) && InTable(table, picks) && NoRepeats(picks)
    requires UniqueKeys(UpdatedAtOnce(table, names, picks, |picks|), keyNames)
    ensures UpdatedInTurn(table, keyNames, names, picks, |picks|) == UpdatedAtOnce(table, names, picks, |picks|)
            <==> NoCollision(table, keyNames, names, picks, |picks|)
  {
    if NoCollision(table, keyNames, names, picks, |picks|) {
      NoCollisionIsEnough(table, keyNames, names, picks, |picks|);
    } else {
      CollisionBreaks(table, keyNames, names, picks);
    }
  }

  lemma {:induction false} OtherFieldsStay(row: TableRow, column: string, names: seq<string>, vs: seq<Value>)
    requires column !in names
    ensures Field(WithValues(row, names, vs), column) == Field(row, column)
  {
    if names != [] {
      var k := |names| - 1;
      assert names[k] in names;
      OtherFieldsStay(row, column, names[..k], vs);
    }
  }

  lemma KeyStays(row: TableRow, keyNames: seq<string>, names: seq<string>, vs: seq<Value>)
    requires forall k :: k in keyNames ==> k !in names
    ensures SameKey(WithValues(row, names, vs), row, keyNames)
  {
    forall i | 0 <= i < |keyNames|
      ensures SameField(WithValues(row, names, vs), row, keyNames[i])
    {
      OtherFieldsStay(row, keyNames[i], names, vs);
    }
  }

  /** When no key column is assigned, nothing can collide. */
  lemma UnassignedKeysNeverCollide(table: seq<TableRow>, keyNames: seq<string>, names: seq<string>, picks: seq<Pick>)
    requires UniqueKeys(table, keyNames) && InTable(table, picks) && NoRepeats(picks)
    requires forall k :: k in keyNames ==> k !in names
    ensures NoCollision(table, keyNames, names, picks, |picks|)
    ensures UpdatedInTurn(table, keyNames, names, picks, |picks|) == UpdatedAtOnce(table, names, picks, |picks|)
  {
    forall a, b | 0 <= a < b < |picks|
      ensures !Collides(table, keyNames, names, picks, a, b)
    {
      KeyStays(table[picks[a].index], keyNames, names, picks[a].news);
      assert !SameRow(picks, a, b);
      assert !ShareKey(table, keyNames, picks[a].index, picks[b].index);
    }
    NoCollisionIsEnough(table, keyNames, names, picks, |picks|);
  }

  /** Adding one to every key, in ascending order: the two rows of the table end up with one key. */
  lemma ShiftedKeysCollide()
    ensures
      var table := [map["k" := Opaque(1)], map["k" := Opaque(2)]];
      var picks := [Pick(0, [Opaque(2)]), Pick(1, [Opaque(3)])];
      UpdatedInTurn(table, ["k"], ["k"], picks, 2) != UpdatedAtOnce(table, ["k"], picks, 2)
  {
    var table := [map["k" := Opaque(1)], map["k" := Opaque(2)]];
    var picks := [Pick(0, [Opaque(2)]), Pick(1, [Opaque(3)])];
    var once := UpdatedAtOnce(table, ["k"], picks, 2);
    OneColumn(table[0], Opaque(2));
    OneColumn(table[1], Opaque(3));
    assert once[0] == NewRow(table, ["k"], picks[0]) && once[1] == NewRow(table, ["k"], picks[1]) by {
      PickedChanges(table, ["k"], picks, 2, 0);
      PickedChanges(table, ["k"], picks, 2, 1);
    }
    TwoKeys(table);
    TwoKeys(once);
    assert Collides(table, ["k"], ["k"], picks, 0, 1);
    RowAtATimeUpdateIff(table, ["k"], ["k"], picks);
  }

  lemma OneColumn(row: TableRow, v: Value)
    ensures WithValues(row, ["k"], [v]) == row["k" := v]
  {
    assert ["k"][..0] == [];
  }

  lemma TwoKeys(table: seq<TableRow>)
    requires |table| == 2 && Field(table[0], "k") != Field(table[1], "k")
    ensures UniqueKeys(table, ["k"])
  {
    assert !SameField(table[0], table[1], ["k"][0]) && !SameField(table[1], table[0], ["k"][0]);
  }

  // ---------- DELETE ----------

  /** After the first `m` picked rows: one prepared delete per row, by the key it was scanned with. */
  function DeletedInTurn(table: seq<TableRow>, keyNames: seq<string>, picked: seq<nat>, m: nat): seq<TableRow>
    requires m <= |picked|
  {
    if m == 0 then table
    else Deleted(DeletedInTurn(table, keyNames, picked, m - 1), keyNames, RowAt(table, picked[m - 1]))
  }

  /** Row `i` is one of the first `m` picks. */
  predicate IsPicked(picked: seq<nat>, m: nat, i: nat)
    requires m <= |picked|
  {
    m > 0 && (picked[m - 1] == i || IsPicked(picked, m - 1, i))
  }

  /** The rows among the first `n` that are none of the first `m` picks, in order. */
  function Remaining(table: seq<TableRow>, picked: seq<nat>, m: nat, n: nat): seq<TableRow>
    requires m <= |picked| && n <= |table|
  {
    if n == 0 then []
    else Remaining(table, picked, m, n - 1) + if IsPicked(picked, m, n - 1) then [] else [table[n - 1]]
  }

  lemma DeletedSnoc(table: seq<TableRow>, row: TableRow, keyNames: seq<string>, keyRow: TableRow)
    ensures Deleted(table + [row], keyNames, keyRow) ==
            Deleted(table, keyNames, keyRow) + if SameKey(row, keyRow, keyNames) then [] else [row]
  {
    assert (table + [row])[..|table|] == table;
  }

  lemma {:induction false} NothingPicked(table: seq<TableRow>, picked: seq<nat>, n: nat)
    requires n <= |table|
    ensures Remaining(table, picked, 0, n) == table[..n]
  {
    if n > 0 {
      NothingPicked(table, picked, n - 1);
      assert table[..n] == table[..n - 1] + [table[n - 1]];
    }
  }

  /** One more delete removes exactly the next picked row. */
  lemma {:induction false} OneMoreDeleted(table: seq<TableRow>, keyNames: seq<string>, picked: seq<nat>, m: nat, n: nat)
    requires UniqueKeys(table, keyNames) && 0 < m <= |picked| && n <= |table| && picked[m - 1] < |table|
    ensures Deleted(Remaining(table, picked, m - 1, n), keyNames, RowAt(table, picked[m - 1])) ==
            Remaining(table, picked, m, n)
  {
    if n > 0 {
      OneMoreDeleted(table, keyNames, picked, m, n - 1);
      OwnRowHasKey(table, keyNames, picked[m - 1], n - 1);
      RemainingStep(Remaining(table, picked, m - 1, n - 1), table[n - 1], keyNames, RowAt(table, picked[m - 1]),
                    IsPicked(picked, m - 1, n - 1), n - 1 == picked[m - 1]);
    }
  }

  /** A row at the end: gone already, picked now, or kept. */
  lemma RemainingStep(before: seq<TableRow>, row: TableRow, keyNames: seq<string>, keyRow: TableRow, gone: bool,
                      own: bool)
    requires SameKey(row, keyRow, keyNames) <==> own
    ensures Deleted(before + if gone then [] else [row], keyNames, keyRow) ==
            Deleted(before, keyNames, keyRow) + if gone || own then [] else [row]
  {
    if gone {
      assert before + [] == before;
    } else {
      DeletedSnoc(before, row, keyNames, keyRow);
    }
  }

  lemma OwnRowHasKey(table: seq<TableRow>, keyNames: seq<string>, i: nat, j: nat)
    requires UniqueKeys(table, keyNames) && i < |table| && j < |table|
    ensures SameKey(table[j], RowAt(table, i), keyNames) <==> i == j
  {
    assert i != j ==> !ShareKey(table, keyNames, j, i);
  }

  /** Row-at-a-time DELETE leaves exactly the rows that were not picked, in any order of the picks. */
  lemma {:induction false} RowAtATimeDelete(table: seq<TableRow>, keyNames: seq<string>, picked: seq<nat>, m: nat)
    requires UniqueKeys(table, keyNames) && m <= |picked|
    requires forall j :: 0 <= j < |picked| ==> picked[j] < |table|
    ensures DeletedInTurn(table, keyNames, picked, m) == Remaining(table, picked, m, |table|)
  {
    if m == 0 {
      NothingPicked(table, picked, |table|);
      assert table[..|table|] == table;
    } else {
      RowAtATimeDelete(table, keyNames, picked, m - 1);
      OneMoreDeleted(table, keyNames, picked, m, |table|);
    }
  }

  // ---------- whole runs of the protocol ----------

  /** The scanned row holds, attribute by attribute, the columns of a table row. */
  predicate Scanned(rel: Rel, oldRow: seq<Value>, row: TableRow) {
    |oldRow| == |rel.attrs| && forall i :: 0 <= i < |oldRow| ==> oldRow[i] == Field(row, rel.attrs[i].name)
  }

  lemma ScannedKey(rel: Rel, oldRow: seq<Value>, row: TableRow, attnos: seq<int>)
    requires Scanned(rel, oldRow, row) && ValidAttnos(rel, attnos)
    ensures TargetValues(attnos, oldRow) == KeyOf(row, AttrNames(rel, attnos))
  {
    forall i | 0 <= i < |attnos|
      ensures At(oldRow, attnos[i]) == Field(row, AttrName(rel, attnos[i]))
    {
    }
  }

  function KeyNames(rel: Rel): seq<string> { AttrNames(rel, KeyAttnos(rel, |rel.attrs|)) }

  /** Every row of the run was scanned from the table row picked for it. */
  predicate RunFits(rel: Rel, table: seq<TableRow>, junkIdx: seq<nat>, rows: seq<RowPair>, oldRows: seq<seq<Value>>,
                    picked: seq<nat>)
  {
    && |rows| == |oldRows| == |picked| && |rel.attrs| <= |junkIdx|
    && forall j :: 0 <= j < |rows| ==> RowWasScanned(rel, table, junkIdx, rows[j], oldRows[j], picked[j])
  }

  predicate RowWasScanned(rel: Rel, table: seq<TableRow>, junkIdx: seq<nat>, row: RowPair, oldRow: seq<Value>, i: nat) {
    && i < |table| && Scanned(rel, oldRow, table[i]) && NoNulls(KeyOf(table[i], KeyNames(rel)))
    && KeysAt(rel, junkIdx, row.planSlot, oldRow, |rel.attrs|)
  }

  /** The picks of a run: each scanned row with its new values. */
  function PicksOf(targets: seq<int>, rows: seq<RowPair>, picked: seq<nat>): (r: seq<Pick>)
    requires |rows| == |picked|
    ensures |r| == |rows|
    ensures forall j :: 0 <= j < |rows| ==> r[j] == Pick(picked[j], TargetValues(targets, rows[j].slot))
  {
    if rows == [] then []
    else
      var k := |rows| - 1;
      PicksOf(targets, rows[..k], picked[..k]) + [Pick(picked[k], TargetValues(targets, rows[k].slot))]
  }

  /** What one execution of the UPDATE binds: the new values, then the scanned key. */
  lemma UpdateExecution(rel: Rel, table: seq<TableRow>, targets: seq<int>, junkIdx: seq<nat>, row: RowPair,
                        oldRow: seq<Value>, i: nat)
    requires RowWasScanned(rel, table, junkIdx, row, oldRow, i)
    ensures RowBindings(rel, UpdateOp, targets, junkIdx, row) ==
            TargetValues(targets, row.slot) + KeyOf(table[i], KeyNames(rel))
  {
    BoundValues(rel, UpdateOp, targets, junkIdx, row, oldRow);
    ScannedKey(rel, oldRow, table[i], KeyAttnos(rel, |rel.attrs|));
  }

  lemma DeleteExecution(rel: Rel, table: seq<TableRow>, targets: seq<int>, junkIdx: seq<nat>, row: RowPair,
                        oldRow: seq<Value>, i: nat)
    requires RowWasScanned(rel, table, junkIdx, row, oldRow, i)
    ensures RowBindings(rel, DeleteOp, targets, junkIdx, row) == KeyOf(table[i], KeyNames(rel))
  {
    BoundValues(rel, DeleteOp, targets, junkIdx, row, oldRow);
    ScannedKey(rel, oldRow, table[i], KeyAttnos(rel, |rel.attrs|));
    assert [] + KeyOf(table[i], KeyNames(rel)) == KeyOf(table[i], KeyNames(rel));
  }

  function UpdateDml(rel: Rel, targets: seq<int>): Dml {
    UpdateRows(SchemaOf(rel), rel.name, Numbered(AttrNames(rel, targets), 0), Numbered(KeyNames(rel), |targets|))
  }

  function DeleteDml(rel: Rel): Dml {
    DeleteRows(SchemaOf(rel), rel.name, Numbered(KeyNames(rel), 0))
  }

  /** Executing the UPDATE with what is bound for row `k`. */
  lemma OneUpdate(rel: Rel, table: seq<TableRow>, now: seq<TableRow>, targets: seq<int>, junkIdx: seq<nat>,
                  row: RowPair, oldRow: seq<Value>, i: nat)
    requires RowWasScanned(rel, table, junkIdx, row, oldRow, i)
    ensures ExecDml(now, UpdateDml(rel, targets), ParamMap(RowBindings(rel, UpdateOp, targets, junkIdx, row))) ==
            Updated(now, KeyNames(rel), RowAt(table, i), AttrNames(rel, targets), TargetValues(targets, row.slot))
  {
    UpdateExecution(rel, table, targets, junkIdx, row, oldRow, i);
    ExecUpdateIsUpdated(now, AttrNames(rel, targets), KeyNames(rel), TargetValues(targets, row.slot), table[i]);
  }

  /** Running the protocol over the first `m` scanned rows is updating the first `m` picked rows in
      turn. */
  lemma {:induction false} UpdateRun(rel: Rel, table: seq<TableRow>, targets: seq<int>, junkIdx: seq<nat>,
                                     rows: seq<RowPair>, oldRows: seq<seq<Value>>, picked: seq<nat>, m: nat)
    requires RunFits(rel, table, junkIdx, rows, oldRows, picked) && m <= |rows|
    ensures ExecAll(table, UpdateDml(rel, targets), RunParams(rel, UpdateOp, targets, junkIdx, rows)[..m]) ==
            UpdatedInTurn(table, KeyNames(rel), AttrNames(rel, targets), PicksOf(targets, rows, picked), m)
  {
    if m > 0 {
      var k := m - 1;
      var now := UpdatedInTurn(table, KeyNames(rel), AttrNames(rel, targets), PicksOf(targets, rows, picked), k);
      UpdateRun(rel, table, targets, junkIdx, rows, oldRows, picked, k);
      assert RowWasScanned(rel, table, junkIdx, rows[k], oldRows[k], picked[k]);
      OneUpdate(rel, table, now, targets, junkIdx, rows[k], oldRows[k], picked[k]);
      ExecAllStep(table, UpdateDml(rel, targets), RunParams(rel, UpdateOp, targets, junkIdx, rows), m);
    }
  }

  lemma ExecAllStep(table: seq<TableRow>, dml: Dml, runs: seq<map<nat, Value>>, m: nat)
    requires 0 < m <= |runs|
    ensures ExecAll(table, dml, runs[..m]) == ExecDml(ExecAll(table, dml, runs[..m - 1]), dml, runs[m - 1])
  {
    assert runs[..m][..m - 1] == runs[..m - 1];
  }

  /** Executing the DELETE with what is bound for row `k`. */
  lemma OneDelete(rel: Rel, table: seq<TableRow>, now: seq<TableRow>, targets: seq<int>, junkIdx: seq<nat>,
                  row: RowPair, oldRow: seq<Value>, i: nat)
    requires RowWasScanned(rel, table, junkIdx, row, oldRow, i)
    ensures ExecDml(now, DeleteDml(rel), ParamMap(RowBindings(rel, DeleteOp, targets, junkIdx, row))) ==
            Deleted(now, KeyNames(rel), RowAt(table, i))
  {
    DeleteExecution(rel, table, targets, junkIdx, row, oldRow, i);
    ExecDeleteIsDeleted(now, KeyNames(rel), table[i]);
  }

  lemma {:induction false} DeleteRun(rel: Rel, table: seq<TableRow>, targets: seq<int>, junkIdx: seq<nat>,
                                     rows: seq<RowPair>, oldRows: seq<seq<Value>>, picked: seq<nat>, m: nat)
    requires RunFits(rel, table, junkIdx, rows, oldRows, picked) && m <= |rows|
    ensures ExecAll(table, DeleteDml(rel), RunParams(rel, DeleteOp, targets, junkIdx, rows)[..m]) ==
            DeletedInTurn(table, KeyNames(rel), picked, m)
  {
    if m > 0 {
      var k := m - 1;
      DeleteRun(rel, table, targets, junkIdx, rows, oldRows, picked, k);
      assert RowWasScanned(rel, table, junkIdx, rows[k], oldRows[k], picked[k]);
      OneDelete(rel, table, DeletedInTurn(table, KeyNames(rel), picked, k), targets, junkIdx, rows[k], oldRows[k],
                picked[k]);
      ExecAllStep(table, DeleteDml(rel), RunParams(rel, DeleteOp, targets, junkIdx, rows), m);
    }
  }

  /** A whole UPDATE: the text that was planned, read by the server and executed once per scanned row
      with what the wrapper binds, sets exactly the updated columns, and leaves the table one simultaneous
      update of them would leave, if and only if no row is given a key that a later one was scanned with. */
  lemma UpdateRefinesSetWise(d: Dialect, cx: DeparseCxt, updated: set<int>, plan: ModifyPlan, table: seq<TableRow>,
                             junkIdx: seq<nat>, rows: seq<RowPair>, oldRows: seq<seq<Value>>, picked: seq<nat>)
    returns (picks: seq<Pick>, after: seq<TableRow>)
    requires ValidDialect(d) && d.placeholders && exists a :: IsTarget(cx.rel, UpdateOp, updated, a)
    requires ModifyPlanOf(d, cx, UpdateOp, updated, false) == Some(plan)
    requires RunFits(cx.rel, table, junkIdx, rows, oldRows, picked)
    requires UniqueKeys(table, KeyNames(cx.rel)) && NoRepeats(PicksOf(plan.targetAttrs, rows, picked))
    requires UniqueKeys(UpdatedAtOnce(table, AttrNames(cx.rel, plan.targetAttrs),
                                      PicksOf(plan.targetAttrs, rows, picked), |rows|), KeyNames(cx.rel))
    ensures Increasing(plan.targetAttrs)
    ensures forall a :: a in plan.targetAttrs <==> 1 <= a <= |cx.rel.attrs| && a in updated
    ensures ReadDml(d, plan.sql) == Some(UpdateDml(cx.rel, plan.targetAttrs))
    ensures after == ExecAll(table, UpdateDml(cx.rel, plan.targetAttrs),
                             RunParams(cx.rel, UpdateOp, plan.targetAttrs, junkIdx, rows))
    ensures picks == PicksOf(plan.targetAttrs, rows, picked)
    ensures after == UpdatedAtOnce(table, AttrNames(cx.rel, plan.targetAttrs), picks, |picks|)
            <==> NoCollision(table, KeyNames(cx.rel), AttrNames(cx.rel, plan.targetAttrs), picks, |picks|)
  {
    PlannedTargets(d, cx, UpdateOp, updated, false, plan);
    var dml := UpdateReadBack(d, cx, updated, plan);
    picks := PicksOf(plan.targetAttrs, rows, picked);
    after := UpdatedInTurn(table, KeyNames(cx.rel), AttrNames(cx.rel, plan.targetAttrs), picks, |picks|);
    WholeUpdateRun(cx.rel, table, plan.targetAttrs, junkIdx, rows, oldRows, picked);
    PicksAreInTable(cx.rel, table, plan.targetAttrs, junkIdx, rows, oldRows, picked);
    RowAtATimeUpdateIff(table, KeyNames(cx.rel), AttrNames(cx.rel, plan.targetAttrs), picks);
  }

  lemma WholeUpdateRun(rel: Rel, table: seq<TableRow>, targets: seq<int>, junkIdx: seq<nat>, rows: seq<RowPair>,
                       oldRows: seq<seq<Value>>, picked: seq<nat>)
    requires RunFits(rel, table, junkIdx, rows, oldRows, picked)
    ensures ExecAll(table, UpdateDml(rel, targets), RunParams(rel, UpdateOp, targets, junkIdx, rows)) ==
            UpdatedInTurn(table, KeyNames(rel), AttrNames(rel, targets), PicksOf(targets, rows, picked), |rows|)
  {
    var runs := RunParams(rel, UpdateOp, targets, junkIdx, rows);
    assert runs[..|rows|] == runs;
    UpdateRun(rel, table, targets, junkIdx, rows, oldRows, picked, |rows|);
  }

  lemma PicksAreInTable(rel: Rel, table: seq<TableRow>, targets: seq<int>, junkIdx: seq<nat>, rows: seq<RowPair>,
                        oldRows: seq<seq<Value>>, picked: seq<nat>)
    requires RunFits(rel, table, junkIdx, rows, oldRows, picked)
    ensures InTable(table, PicksOf(targets, rows, picked))
    ensures forall j :: 0 <= j < |picked| ==> picked[j] < |table|
  {
    forall j | 0 <= j < |picked|
      ensures picked[j] < |table|
    {
      assert RowWasScanned(rel, table, junkIdx, rows[j], oldRows[j], picked[j]);
    }
  }

  /** A whole DELETE leaves exactly the rows that were not scanned for deletion. */
  lemma DeleteRefinesSetWise(d: Dialect, cx: DeparseCxt, plan: ModifyPlan, table: seq<TableRow>, junkIdx: seq<nat>,
                             rows: seq<RowPair>, oldRows: seq<seq<Value>>, picked: seq<nat>)
    requires ValidDialect(d) && d.placeholders && ModifyPlanOf(d, cx, DeleteOp, {}, false) == Some(plan)
    requires RunFits(cx.rel, table, junkIdx, rows, oldRows, picked) && UniqueKeys(table, KeyNames(cx.rel))
    ensures ReadDml(d, plan.sql) == Some(DeleteDml(cx.rel))
    ensures ExecAll(table, DeleteDml(cx.rel), RunParams(cx.rel, DeleteOp, plan.targetAttrs, junkIdx, rows)) ==
            Remaining(table, picked, |picked|, |table|)
  {
    PlanIs(d, cx, DeleteOp, {}, plan);
    DeleteRoundTrip(d, cx.rel, KeyNames(cx.rel));
    var runs := RunParams(cx.rel, DeleteOp, plan.targetAttrs, junkIdx, rows);
    assert runs[..|rows|] == runs;
    DeleteRun(cx.rel, table, plan.targetAttrs, junkIdx, rows, oldRows, picked, |rows|);
    PicksAreInTable(cx.rel, table, [], junkIdx, rows, oldRows, picked);
    RowAtATimeDelete(table, KeyNames(cx.rel), picked, |picked|);
  }
}
