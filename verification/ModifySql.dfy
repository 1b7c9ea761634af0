/** The INSERT, UPDATE and DELETE statements with their placeholders: deparsing them, and a reader
    that numbers the placeholders from left to right as a prepared statement does.
 */
module ModifySql {
  import opened Nodes
  import opened Lexical
  import opened Tokens
  import opened Words
  import opened Reader
  import opened ArrayPieces
  import opened Deparse
  import opened Phrases
  import opened Spacing
  import opened Select
  import opened SelectRead

  // ---------- the statements as pieces ----------

  const MARK: seq<Piece> := [P('?')]

  function MarkRuns(n: nat): (r: seq<seq<Piece>>)
    ensures |r| == n && forall i :: 0 <= i < n ==> r[i] == MARK
  {
    if n == 0 then [] else MarkRuns(n - 1) + [MARK]
  }

  /** `c = ?` in SET, `c=?` in WHERE. */
  function PairRun(name: string, inSet: bool): seq<Piece> {
    if inSet then [Name(name), Sp, Sym("="), Sp, P('?')] else [Name(name), Sym("="), P('?')]
  }

  function PairRuns(names: seq<string>, inSet: bool): (r: seq<seq<Piece>>)
    ensures |r| == |names| && forall i :: 0 <= i < |names| ==> r[i] == PairRun(names[i], inSet)
  {
    if names == [] then [] else PairRuns(names[..|names| - 1], inSet) + [PairRun(names[|names| - 1], inSet)]
  }

  function PairSeparator(inSet: bool): seq<Piece> {
    if inSet then ITEM_SEPARATOR else BoolSeparator(AndOp)
  }

  const INSERT_OPENING: seq<Piece> := [Word("INSERT"), Sp, Word("INTO"), Sp]
  const VALUES_OPENING: seq<Piece> := [P(')'), Sp, Word("VALUES"), Sp, P('(')]
  const DEFAULT_VALUES: seq<Piece> := [Sp, Word("DEFAULT"), Sp, Word("VALUES")]
  const UPDATE_OPENING: seq<Piece> := [Word("UPDATE"), Sp]
  const SET_OPENING: seq<Piece> := [Sp, Word("SET"), Sp]
  const DELETE_OPENING: seq<Piece> := [Word("DELETE"), Sp, Word("FROM"), Sp]

  /** `(c1, c2) VALUES (?, ?)` */
  function ValuesPieces(targets: seq<string>): seq<Piece> {
    [P('(')] + (JoinPieces(NameRuns(targets), ITEM_SEPARATOR)
      + (VALUES_OPENING + (JoinPieces(MarkRuns(|targets|), ITEM_SEPARATOR) + [P(')')])))
  }

  function InsertPieces(rel: Rel, targets: seq<string>): seq<Piece> {
    INSERT_OPENING + (RelationRun(rel) + if targets == [] then DEFAULT_VALUES else ValuesPieces(targets))
  }

  function KeyPieces(keys: seq<string>): seq<Piece> {
    if keys == [] then [] else WHERE_OPENING + JoinPieces(PairRuns(keys, false), BoolSeparator(AndOp))
  }

  function SetPieces(targets: seq<string>, keys: seq<string>): seq<Piece> {
    SET_OPENING + (JoinPieces(PairRuns(targets, true), ITEM_SEPARATOR) + KeyPieces(keys))
  }

  function UpdatePieces(rel: Rel, targets: seq<string>, keys: seq<string>): seq<Piece> {
    UPDATE_OPENING + (RelationRun(rel) + SetPieces(targets, keys))
  }

  function DeletePieces(rel: Rel, keys: seq<string>): seq<Piece> {
    DELETE_OPENING + (RelationRun(rel) + KeyPieces(keys))
  }

  // ---------- deparsing ----------

  predicate ValidAttnos(rel: Rel, attnos: seq<int>) {
    forall i :: 0 <= i < |attnos| ==> 1 <= attnos[i] <= |rel.attrs|
  }

  /** What a list loop has printed so far. */
  ghost predicate RunsSoFar(d: Dialect, runs: seq<seq<Piece>>, sep: seq<Piece>, start: string, now: string) {
    Appended(d, start, now, Some(JoinPieces(runs, sep)))
  }

  lemma NoRunsYet(d: Dialect, sep: seq<Piece>, start: string)
    ensures RunsSoFar(d, [], sep, start, start)
  {
    assert start + "" == start;
  }

  lemma RunsSnoc(d: Dialect, runs: seq<seq<Piece>>, run: seq<Piece>, sep: seq<Piece>, start: string, before: string,
                 middle: string, after: string)
    requires RunsSoFar(d, runs, sep, start, before)
    requires middle == before + if runs == [] then "" else Render(d, sep)
    requires Appended(d, middle, after, Some(run))
    ensures RunsSoFar(d, runs + [run], sep, start, after)
  {
    JoinSnoc(runs, run, sep);
    if runs == [] {
      assert middle == start;
    } else {
      Cat3Render(d, Some(JoinPieces(runs, sep)), Some(sep), Some(run), start, before, middle, after);
    }
  }

  method AppendName(d: Dialect, cx: DeparseCxt, qChar: string, attnum: int, buf: StringInfo)
    requires Quotes(d, cx, qChar) && cx.quotable && 1 <= attnum <= |cx.rel.attrs|
    modifies buf
    ensures Appended(d, old(buf.data), buf.data, Some([Name(AttrName(cx.rel, attnum))]))
  {
    var ok := DeparseColumnRef(d, cx, qChar, attnum, buf);
  }

  ghost function NamesOf(rel: Rel, attnums: seq<int>): seq<seq<Piece>> {
    NameRuns(AttrNames(rel, attnums))
  }

  lemma NamesOfSnoc(rel: Rel, attnums: seq<int>, attnum: int)
    ensures NamesOf(rel, attnums + [attnum]) == NamesOf(rel, attnums) + [[Name(AttrName(rel, attnum))]]
  {
  }

  method AppendNextName(d: Dialect, cx: DeparseCxt, qChar: string, attnum: int, first: bool,
                        ghost done: seq<int>, ghost start: string, buf: StringInfo)
    requires Quotes(d, cx, qChar) && cx.quotable && 1 <= attnum <= |cx.rel.attrs|
    requires first == (done == []) && RunsSoFar(d, NamesOf(cx.rel, done), ITEM_SEPARATOR, start, buf.data)
    modifies buf
    ensures RunsSoFar(d, NamesOf(cx.rel, done + [attnum]), ITEM_SEPARATOR, start, buf.data)
  {
    ghost var before := buf.data;
    FixedSeparators(d, AndOp, ',');
    if !first {
      buf.AppendString(", ");
    }
    ghost var middle := buf.data;
    AppendName(d, cx, qChar, attnum, buf);
    RunsSnoc(d, NamesOf(cx.rel, done), [Name(AttrName(cx.rel, attnum))], ITEM_SEPARATOR, start, before, middle,
             buf.data);
    NamesOfSnoc(cx.rel, done, attnum);
  }

  /** The column names of an INSERT. */
  method AppendNames(d: Dialect, cx: DeparseCxt, qChar: string, attnums: seq<int>, buf: StringInfo)
    requires Quotes(d, cx, qChar) && cx.quotable && ValidAttnos(cx.rel, attnums)
    modifies buf
    ensures Appended(d, old(buf.data), buf.data,
                     Some(JoinPieces(NameRuns(AttrNames(cx.rel, attnums)), ITEM_SEPARATOR)))
  {
    ghost var start := buf.data;
    NoRunsYet(d, ITEM_SEPARATOR, start);
    var first := true;
    var i := 0;
    while i < |attnums|
      invariant 0 <= i <= |attnums| && first == (i == 0)
      invariant RunsSoFar(d, NamesOf(cx.rel, attnums[..i]), ITEM_SEPARATOR, start, buf.data)
    {
      assert attnums[..i + 1] == attnums[..i] + [attnums[i]];
      AppendNextName(d, cx, qChar, attnums[i], first, attnums[..i], start, buf);
      first := false;
      i := i + 1;
    }
    assert attnums[..i] == attnums;
  }

  method AppendMarks(d: Dialect, n: nat, buf: StringInfo)
    modifies buf
    ensures Appended(d, old(buf.data), buf.data, Some(JoinPieces(MarkRuns(n), ITEM_SEPARATOR)))
  {
    ghost var start := buf.data;
    FixedSeparators(d, AndOp, '?');
    NoRunsYet(d, ITEM_SEPARATOR, start);
    var i := 0;
    while i < n
      invariant 0 <= i <= n
      invariant RunsSoFar(d, MarkRuns(i), ITEM_SEPARATOR, start, buf.data)
    {
      ghost var before := buf.data;
      if i != 0 {
        buf.AppendString(", ");
      }
      ghost var middle := buf.data;
      buf.AppendString("?");
      RunsSnoc(d, MarkRuns(i), MARK, ITEM_SEPARATOR, start, before, middle, buf.data);
      i := i + 1;
    }
  }

  lemma PairText(d: Dialect, inSet: bool)
    ensures Render(d, PairRun("", inSet)[1..]) == if inSet then " = ?" else "=?"
  {
    if inSet {
      RenderShort(d, [Sp, Sym("="), Sp, P('?')]);
      assert " " + ("=" + (" " + "?")) == " = ?";
      assert PairRun("", inSet)[1..] == [Sp, Sym("="), Sp, P('?')];
    } else {
      RenderShort(d, [Sym("="), P('?')]);
      assert PairRun("", inSet)[1..] == [Sym("="), P('?')];
    }
  }

  method AppendPair(d: Dialect, cx: DeparseCxt, qChar: string, attnum: int, inSet: bool, buf: StringInfo)
    requires Quotes(d, cx, qChar) && cx.quotable && 1 <= attnum <= |cx.rel.attrs|
    modifies buf
    ensures Appended(d, old(buf.data), buf.data, Some(PairRun(AttrName(cx.rel, attnum), inSet)))
  {
    ghost var s0 := buf.data;
    AppendName(d, cx, qChar, attnum, buf);
    ghost var s1 := buf.data;
    PairText(d, inSet);
    buf.AppendString(if inSet then " = ?" else "=?");
    ghost var name, rest := AttrName(cx.rel, attnum), PairRun("", inSet)[1..];
    CatRender(d, Some([Name(name)]), Some(rest), s0, s1, buf.data);
    assert [Name(name)] + rest == PairRun(name, inSet);
  }

  ghost function PairsOf(rel: Rel, attnums: seq<int>, inSet: bool): seq<seq<Piece>> {
    PairRuns(AttrNames(rel, attnums), inSet)
  }

  lemma PairsOfSnoc(rel: Rel, attnums: seq<int>, attnum: int, inSet: bool)
    ensures PairsOf(rel, attnums + [attnum], inSet) ==
            PairsOf(rel, attnums, inSet) + [PairRun(AttrName(rel, attnum), inSet)]
  {
  }

  method AppendNextPair(d: Dialect, cx: DeparseCxt, qChar: string, attnum: int, inSet: bool, first: bool,
                        ghost done: seq<int>, ghost start: string, buf: StringInfo)
    requires Quotes(d, cx, qChar) && cx.quotable && 1 <= attnum <= |cx.rel.attrs|
    requires first == (done == []) && RunsSoFar(d, PairsOf(cx.rel, done, inSet), PairSeparator(inSet), start, buf.data)
    modifies buf
    ensures RunsSoFar(d, PairsOf(cx.rel, done + [attnum], inSet), PairSeparator(inSet), start, buf.data)
  {
    ghost var before := buf.data;
    FixedSeparators(d, AndOp, ',');
    TextConnective(d, false);
    if !first {
      buf.AppendString(if inSet then ", " else " AND ");
    }
    ghost var middle := buf.data;
    AppendPair(d, cx, qChar, attnum, inSet, buf);
    RunsSnoc(d, PairsOf(cx.rel, done, inSet), PairRun(AttrName(cx.rel, attnum), inSet), PairSeparator(inSet),
             start, before, middle, buf.data);
    PairsOfSnoc(cx.rel, done, attnum, inSet);
  }

  lemma PrefixSnoc(s: seq<int>, i: nat)
    requires i < |s|
    ensures s[..i + 1] == s[..i] + [s[i]] && (i == 0) == (s[..i] == [])
  {
  }

  lemma PairsAppended(d: Dialect, rel: Rel, attnums: seq<int>, inSet: bool, start: string, now: string)
    requires RunsSoFar(d, PairsOf(rel, attnums[..|attnums|], inSet), PairSeparator(inSet), start, now)
    ensures Appended(d, start, now, Some(JoinPieces(PairRuns(AttrNames(rel, attnums), inSet), PairSeparator(inSet))))
  {
    assert attnums[..|attnums|] == attnums;
  }

  /** The SET list, or the conditions of the WHERE clause. */
  method AppendPairs(d: Dialect, cx: DeparseCxt, qChar: string, attnums: seq<int>, inSet: bool, buf: StringInfo)
    requires Quotes(d, cx, qChar) && cx.quotable && ValidAttnos(cx.rel, attnums)
    modifies buf
    ensures Appended(d, old(buf.data), buf.data,
                     Some(JoinPieces(PairRuns(AttrNames(cx.rel, attnums), inSet), PairSeparator(inSet))))
  {
    ghost var start := buf.data;
    NoRunsYet(d, PairSeparator(inSet), start);
    var i := 0;
    while i < |attnums|
      invariant 0 <= i <= |attnums|
      invariant RunsSoFar(d, PairsOf(cx.rel, attnums[..i], inSet), PairSeparator(inSet), start, buf.data)
    {
      PrefixSnoc(attnums, i);
      AppendNextPair(d, cx, qChar, attnums[i], inSet, i == 0, attnums[..i], start, buf);
      i := i + 1;
    }
    PairsAppended(d, cx.rel, attnums, inSet, start, buf.data);
  }

  method AppendKeys(d: Dialect, cx: DeparseCxt, qChar: string, attnums: seq<int>, buf: StringInfo)
    requires Quotes(d, cx, qChar) && cx.quotable && ValidAttnos(cx.rel, attnums)
    modifies buf
    ensures Appended(d, old(buf.data), buf.data, Some(KeyPieces(AttrNames(cx.rel, attnums))))
  {
    if attnums == [] {
      assert buf.data + "" == buf.data;
      return;
    }
    ghost var s0 := buf.data;
    TextConnective(d, true);
    buf.AppendString(" WHERE ");
    ghost var s1 := buf.data;
    AppendPairs(d, cx, qChar, attnums, false, buf);
    CatRender(d, Some(WHERE_OPENING),
              Some(JoinPieces(PairRuns(AttrNames(cx.rel, attnums), false), BoolSeparator(AndOp))),
              s0, s1, buf.data);
  }

  lemma TextInsert(d: Dialect)
    ensures Render(d, INSERT_OPENING) == "INSERT INTO "
  {
    RenderShort(d, INSERT_OPENING);
    assert "INSERT" + (" " + ("INTO" + " ")) == "INSERT INTO ";
  }

  lemma TextDelete(d: Dialect)
    ensures Render(d, DELETE_OPENING) == "DELETE FROM "
  {
    RenderShort(d, DELETE_OPENING);
    assert "DELETE" + (" " + ("FROM" + " ")) == "DELETE FROM ";
  }

  lemma TextUpdate(d: Dialect)
    ensures Render(d, UPDATE_OPENING) == "UPDATE " && Render(d, SET_OPENING) == " SET "
  {
    RenderShort(d, UPDATE_OPENING);
    assert "UPDATE" + " " == "UPDATE ";
    RenderThree(d, Sp, Word("SET"), Sp);
    assert " " + ("SET" + " ") == " SET ";
  }

  lemma TextDefaultValues(d: Dialect)
    ensures Render(d, DEFAULT_VALUES) == " DEFAULT VALUES"
  {
    RenderShort(d, DEFAULT_VALUES);
    assert " " + ("DEFAULT" + (" " + "VALUES")) == " DEFAULT VALUES";
  }

  lemma TextValues(d: Dialect)
    ensures Render(d, VALUES_OPENING) == ") VALUES ("
  {
    RenderShort(d, VALUES_OPENING);
    assert ")" + (" " + ("VALUES" + (" " + "("))) == ") VALUES (";
  }

  /** The start of a statement, up to the relation's name. */
  method AppendOpening(d: Dialect, cx: DeparseCxt, qChar: string, ghost opening: seq<Piece>, text: string,
                       buf: StringInfo) returns (ok: bool)
    requires Quotes(d, cx, qChar) && Render(d, opening) == text
    modifies buf
    ensures ok == cx.quotable
    ensures ok ==> Appended(d, old(buf.data), buf.data, Some(opening + RelationRun(cx.rel)))
  {
    ghost var s0 := buf.data;
    buf.AppendString(text);
    ghost var s1 := buf.data;
    ok := DeparseRelation(d, cx, qChar, buf);
    if ok {
      CatRender(d, Some(opening), Some(RelationRun(cx.rel)), s0, s1, buf.data);
    }
  }

  method DeparseInsertSql(d: Dialect, cx: DeparseCxt, qChar: string, targetAttrs: seq<int>, buf: StringInfo)
    returns (ok: bool)
    requires Quotes(d, cx, qChar) && ValidAttnos(cx.rel, targetAttrs)
    modifies buf
    ensures Printed(d, ok, old(buf.data), buf.data,
                    if cx.quotable then Some(InsertPieces(cx.rel, AttrNames(cx.rel, targetAttrs))) else None)
  {
    ghost var s0 := buf.data;
    TextInsert(d);
    ok := AppendOpening(d, cx, qChar, INSERT_OPENING, "INSERT INTO ", buf);
    if !ok { return; }
    ghost var s1 := buf.data;
    if targetAttrs != [] {
      AppendValues(d, cx, qChar, targetAttrs, buf);
    } else {
      TextDefaultValues(d);
      buf.AppendString(" DEFAULT VALUES");
    }
    ghost var targets := AttrNames(cx.rel, targetAttrs);
    ghost var rest := if targets == [] then DEFAULT_VALUES else ValuesPieces(targets);
    CatRender(d, Some(INSERT_OPENING + RelationRun(cx.rel)), Some(rest), s0, s1, buf.data);
    TailRegroup([], INSERT_OPENING, RelationRun(cx.rel), rest);
  }

  method AppendValues(d: Dialect, cx: DeparseCxt, qChar: string, targetAttrs: seq<int>, buf: StringInfo)
    requires Quotes(d, cx, qChar) && cx.quotable && ValidAttnos(cx.rel, targetAttrs)
    modifies buf
    ensures Appended(d, old(buf.data), buf.data, Some(ValuesPieces(AttrNames(cx.rel, targetAttrs))))
  {
    ghost var s0 := buf.data;
    ghost var targets := AttrNames(cx.rel, targetAttrs);
    EmitChar(d, buf, '(');
    ghost var s1 := buf.data;
    AppendNames(d, cx, qChar, targetAttrs, buf);
    ghost var s2 := buf.data;
    TextValues(d);
    buf.AppendString(") VALUES (");
    ghost var s3 := buf.data;
    AppendMarks(d, |targetAttrs|, buf);
    ghost var s4 := buf.data;
    EmitChar(d, buf, ')');
    Cat5Render(d, Some([P('(')]), Some(JoinPieces(NameRuns(targets), ITEM_SEPARATOR)), Some(VALUES_OPENING),
               Some(JoinPieces(MarkRuns(|targets|), ITEM_SEPARATOR)), Some([P(')')]), s0, s1, s2, s3, s4, buf.data);
  }

  method DeparseUpdateSql(d: Dialect, cx: DeparseCxt, qChar: string, targetAttrs: seq<int>, condAttrs: seq<int>,
                          buf: StringInfo) returns (ok: bool)
    requires Quotes(d, cx, qChar) && ValidAttnos(cx.rel, targetAttrs) && ValidAttnos(cx.rel, condAttrs)
    modifies buf
    ensures Printed(d, ok, old(buf.data), buf.data,
                    if cx.quotable then
                      Some(UpdatePieces(cx.rel, AttrNames(cx.rel, targetAttrs), AttrNames(cx.rel, condAttrs)))
                    else None)
  {
    ghost var s0 := buf.data;
    TextUpdate(d);
    ok := AppendOpening(d, cx, qChar, UPDATE_OPENING, "UPDATE ", buf);
    if !ok { return; }
    ghost var s1 := buf.data;
    AppendSetsAndKeys(d, cx, qChar, targetAttrs, condAttrs, buf);
    ghost var rest := SetPieces(AttrNames(cx.rel, targetAttrs), AttrNames(cx.rel, condAttrs));
    CatRender(d, Some(UPDATE_OPENING + RelationRun(cx.rel)), Some(rest), s0, s1, buf.data);
    TailRegroup([], UPDATE_OPENING, RelationRun(cx.rel), rest);
  }

  method AppendSetsAndKeys(d: Dialect, cx: DeparseCxt, qChar: string, targetAttrs: seq<int>, condAttrs: seq<int>,
                           buf: StringInfo)
    requires Quotes(d, cx, qChar) && cx.quotable
    requires ValidAttnos(cx.rel, targetAttrs) && ValidAttnos(cx.rel, condAttrs)
    modifies buf
    ensures Appended(d, old(buf.data), buf.data,
                     Some(SetPieces(AttrNames(cx.rel, targetAttrs), AttrNames(cx.rel, condAttrs))))
  {
    ghost var s1 := buf.data;
    TextUpdate(d);
    buf.AppendString(" SET ");
    ghost var s2 := buf.data;
    AppendPairs(d, cx, qChar, targetAttrs, true, buf);
    ghost var s3 := buf.data;
    AppendKeys(d, cx, qChar, condAttrs, buf);
    Cat3Render(d, Some(SET_OPENING), Some(JoinPieces(PairRuns(AttrNames(cx.rel, targetAttrs), true), ITEM_SEPARATOR)),
               Some(KeyPieces(AttrNames(cx.rel, condAttrs))), s1, s2, s3, buf.data);
  }

  method DeparseDeleteSql(d: Dialect, cx: DeparseCxt, qChar: string, condAttrs: seq<int>, buf: StringInfo)
    returns (ok: bool)
    requires Quotes(d, cx, qChar) && ValidAttnos(cx.rel, condAttrs)
    modifies buf
    ensures Printed(d, ok, old(buf.data), buf.data,
                    if cx.quotable then Some(DeletePieces(cx.rel, AttrNames(cx.rel, condAttrs))) else None)
  {
    ghost var s0 := buf.data;
    TextDelete(d);
    ok := AppendOpening(d, cx, qChar, DELETE_OPENING, "DELETE FROM ", buf);
    if !ok { return; }
    ghost var s1 := buf.data;
    AppendKeys(d, cx, qChar, condAttrs, buf);
    ghost var keys := KeyPieces(AttrNames(cx.rel, condAttrs));
    CatRender(d, Some(DELETE_OPENING + RelationRun(cx.rel)), Some(keys), s0, s1, buf.data);
    TailRegroup([], DELETE_OPENING, RelationRun(cx.rel), keys);
  }

  // ---------- the reader ----------

  /** A column and the number of the placeholder that stands for its value. */
  datatype Bound = Bound(column: string, position: nat)

  /** A modification as the remote server reads it. */
  datatype Dml =
    | InsertRow(schema: Option<string>, table: string, values: seq<Bound>)
    | UpdateRows(schema: Option<string>, table: string, sets: seq<Bound>, keys: seq<Bound>)
    | DeleteRows(schema: Option<string>, table: string, keys: seq<Bound>)

  const QUESTION := Punct('?')

  /** Column names between commas. */
  function ReadNames(ts: seq<Token>): (r: PR<seq<string>>)
    ensures r.Ok? ==> |r.rest| < |ts|
    decreases |ts|
  {
    if ts == [] || !ts[0].Ident? then Fail
    else if Second(ts) != COMMA then Ok([ts[0].name], ts[1..])
    else
      match ReadNames(ts[2..])
      case Fail => Fail
      case Ok(names, rest) => Ok([ts[0].name] + names, rest)
  }

  /** Placeholders between commas: how many. */
  function ReadMarks(ts: seq<Token>): (r: PR<nat>)
    ensures r.Ok? ==> |r.rest| < |ts|
    decreases |ts|
  {
    if ts == [] || ts[0] != QUESTION then Fail
    else if Second(ts) != COMMA then Ok(1, ts[1..])
    else
      match ReadMarks(ts[2..])
      case Fail => Fail
      case Ok(n, rest) => Ok(1 + n, rest)
  }

  /** `column = ?` pairs with `sep` between them; `n` placeholders came before. */
  function ReadPairs(sep: Token, n: nat, ts: seq<Token>): (r: PR<seq<Bound>>)
    ensures r.Ok? ==> |r.rest| < |ts|
    decreases |ts|
  {
    if |ts| < 3 || !ts[0].Ident? || ts[1] != Oper("=") || ts[2] != QUESTION then Fail
    else
      var pair := Bound(ts[0].name, n + 1);
      if Front(ts[3..]) != sep || |ts| == 3 then Ok([pair], ts[3..])
      else
        match ReadPairs(sep, n + 1, ts[4..])
        case Fail => Fail
        case Ok(pairs, rest) => Ok([pair] + pairs, rest)
  }

  function Numbered(names: seq<string>, n: nat): (r: seq<Bound>)
    ensures |r| == |names| && forall i :: 0 <= i < |names| ==> r[i] == Bound(names[i], n + i + 1)
  {
    if names == [] then [] else [Bound(names[0], n + 1)] + Numbered(names[1..], n + 1)
  }

  /** The rest of a statement after its SET list, or after its table: the keys. */
  function ReadKeyTail(n: nat, ts: seq<Token>): Option<seq<Bound>> {
    if ts == [] then Some([])
    else if ts[0] != Kw("where") then None
    else
      match ReadPairs(Kw("and"), n, ts[1..])
      case Fail => None
      case Ok(keys, rest) => if rest == [] then Some(keys) else None
  }

  function ReadInsertTail(name: (Option<string>, string), ts: seq<Token>): Option<Dml> {
    if ts == [Kw("default"), Ident("values")] then Some(InsertRow(name.0, name.1, []))
    else if Front(ts) != LPAREN || ts == [] then None
    else
      match ReadNames(ts[1..])
      case Fail => None
      case Ok(names, rest) =>
        if |rest| < 3 || rest[0] != RPAREN || rest[1] != Ident("values") || rest[2] != LPAREN then None
        else
          match ReadMarks(rest[3..])
          case Fail => None
          case Ok(n, end) =>
            if end == [RPAREN] && n == |names| then Some(InsertRow(name.0, name.1, Numbered(names, 0))) else None
  }

  function ReadUpdateTail(name: (Option<string>, string), ts: seq<Token>): Option<Dml> {
    if ts == [] || ts[0] != Ident("set") then None
    else
      match ReadPairs(COMMA, 0, ts[1..])
      case Fail => None
      case Ok(sets, rest) =>
        match ReadKeyTail(|sets|, rest)
        case None => None
        case Some(keys) => Some(UpdateRows(name.0, name.1, sets, keys))
  }

  function ReadDeleteTail(name: (Option<string>, string), ts: seq<Token>): Option<Dml> {
    match ReadKeyTail(0, ts)
    case None => None
    case Some(keys) => Some(DeleteRows(name.0, name.1, keys))
  }

  function ReadDmlTokens(ts: seq<Token>): Option<Dml> {
    if |ts| >= 2 && ts[0] == Ident("insert") && ts[1] == Kw("into") then
      match ReadTableName(ts[2..])
      case Fail => None
      case Ok(name, rest) => ReadInsertTail(name, rest)
    else if |ts| >= 1 && ts[0] == Ident("update") then
      match ReadTableName(ts[1..])
      case Fail => None
      case Ok(name, rest) => ReadUpdateTail(name, rest)
    else if |ts| >= 2 && ts[0] == Ident("delete") && ts[1] == Kw("from") then
      match ReadTableName(ts[2..])
      case Fail => None
      case Ok(name, rest) => ReadDeleteTail(name, rest)
    else None
  }

  /** Read a whole text as one modification. */
  function ReadDml(d: Dialect, s: string): Option<Dml> {
    match Lex(d, s)
    case None => None
    case Some(ts) => ReadDmlTokens(ts)
  }

  // ---------- the tokens read back ----------

  /** The tokens of a separated list: its first run, then the separator and the others. */
  lemma ListTokens(runs: seq<seq<Piece>>, sep: seq<Piece>, t: Token, rest: seq<Token>)
    requires runs != [] && TokensOf(sep) == [t]
    ensures TokensOf(JoinPieces(runs, sep)) + rest ==
            TokensOf(runs[0])
            + (if |runs| == 1 then rest else [t] + (TokensOf(JoinPieces(runs[1..], sep)) + rest))
  {
    JoinTokens(runs, sep, rest);
    if |runs| == 1 {
      assert TokensOf(JoinTail(runs[1..], sep)) + rest == rest;
    } else {
      JoinTokens(runs[1..], sep, rest);
    }
  }

  lemma NameRunsTail(names: seq<string>)
    requires names != []
    ensures NameRuns(names)[1..] == NameRuns(names[1..])
  {
  }

  lemma PairRunsTail(names: seq<string>, inSet: bool)
    requires names != []
    ensures PairRuns(names, inSet)[1..] == PairRuns(names[1..], inSet)
  {
  }

  lemma NameThenMore(name: string, us: seq<Token>, names: seq<string>, rest: seq<Token>)
    requires ReadNames(us) == Ok(names, rest)
    ensures ReadNames([Ident(name)] + ([COMMA] + us)) == Ok([name] + names, rest)
  {
    assert ([Ident(name)] + ([COMMA] + us))[2..] == us;
  }

  lemma LastName(name: string, rest: seq<Token>)
    requires Front(rest) != COMMA
    ensures ReadNames([Ident(name)] + rest) == Ok([name], rest)
  {
    assert ([Ident(name)] + rest)[1..] == rest;
  }

  /** The tokens of a list of names: the first, and the others after a comma. */
  lemma NamesTokens(names: seq<string>, rest: seq<Token>)
    requires names != []
    ensures TokensOf(JoinPieces(NameRuns(names), ITEM_SEPARATOR)) + rest ==
            [Ident(names[0])]
            + (if |names| == 1 then rest
               else [COMMA] + (TokensOf(JoinPieces(NameRuns(names[1..]), ITEM_SEPARATOR)) + rest))
  {
    var runs := NameRuns(names);
    assert TokensOf(ITEM_SEPARATOR) == [COMMA] by {
      TokensSeparator(AndOp);
    }
    assert TokensOf(runs[0]) == [Ident(names[0])] by {
      TokOne(Name(names[0]));
    }
    NameRunsTail(names);
    ListTokens(runs, ITEM_SEPARATOR, COMMA, rest);
  }

  lemma {:induction false} NamesRead(names: seq<string>, rest: seq<Token>)
    requires names != [] && Front(rest) != COMMA
    ensures ReadNames(TokensOf(JoinPieces(NameRuns(names), ITEM_SEPARATOR)) + rest) == Ok(names, rest)
  {
    var us := TokensOf(JoinPieces(NameRuns(names[1..]), ITEM_SEPARATOR)) + rest;
    NamesTokens(names, rest);
    if |names| == 1 {
      assert names == [names[0]];
      LastName(names[0], rest);
    } else {
      assert names == [names[0]] + names[1..];
      NamesRead(names[1..], rest);
      NameThenMore(names[0], us, names[1..], rest);
    }
  }

  lemma MarkThenMore(us: seq<Token>, n: nat, rest: seq<Token>)
    requires ReadMarks(us) == Ok(n, rest)
    ensures ReadMarks([QUESTION] + ([COMMA] + us)) == Ok(1 + n, rest)
  {
    assert ([QUESTION] + ([COMMA] + us))[2..] == us;
  }

  lemma LastMark(rest: seq<Token>)
    requires Front(rest) != COMMA
    ensures ReadMarks([QUESTION] + rest) == Ok(1, rest)
  {
    assert ([QUESTION] + rest)[1..] == rest;
  }

  lemma {:induction false} MarksRead(n: nat, rest: seq<Token>)
    requires n > 0 && Front(rest) != COMMA
    ensures ReadMarks(TokensOf(JoinPieces(MarkRuns(n), ITEM_SEPARATOR)) + rest) == Ok(n, rest)
  {
    var us := TokensOf(JoinPieces(MarkRuns(n - 1), ITEM_SEPARATOR)) + rest;
    assert TokensOf(JoinPieces(MarkRuns(n), ITEM_SEPARATOR)) + rest ==
           [QUESTION] + (if n == 1 then rest else [COMMA] + us) by {
      TokensSeparator(AndOp);
      ListTokens(MarkRuns(n), ITEM_SEPARATOR, COMMA, rest);
      TokOne(P('?'));
      assert MarkRuns(n)[1..] == MarkRuns(n - 1);
    }
    if n == 1 {
      LastMark(rest);
    } else {
      MarksRead(n - 1, rest);
      MarkThenMore(us, n - 1, rest);
    }
  }

  lemma PairTokens(name: string, inSet: bool)
    ensures TokensOf(PairRun(name, inSet)) == [Ident(name), Oper("="), QUESTION]
  {
    TokShort(PairRun(name, inSet));
  }

  function PairToken(inSet: bool): Token {
    if inSet then COMMA else Kw("and")
  }

  lemma PairThenMore(sep: Token, n: nat, name: string, us: seq<Token>, pairs: seq<Bound>, rest: seq<Token>)
    requires ReadPairs(sep, n + 1, us) == Ok(pairs, rest)
    ensures ReadPairs(sep, n, [Ident(name), Oper("="), QUESTION] + ([sep] + us)) ==
            Ok([Bound(name, n + 1)] + pairs, rest)
  {
    var ts := [Ident(name), Oper("="), QUESTION] + ([sep] + us);
    assert ts[3..] == [sep] + us && ts[4..] == us;
  }

  lemma LastPair(sep: Token, n: nat, name: string, rest: seq<Token>)
    requires Front(rest) != sep
    ensures ReadPairs(sep, n, [Ident(name), Oper("="), QUESTION] + rest) == Ok([Bound(name, n + 1)], rest)
  {
    assert ([Ident(name), Oper("="), QUESTION] + rest)[3..] == rest;
  }

  lemma {:induction false} PairsRead(names: seq<string>, inSet: bool, n: nat, rest: seq<Token>)
    requires names != [] && Front(rest) != PairToken(inSet)
    ensures ReadPairs(PairToken(inSet), n, TokensOf(JoinPieces(PairRuns(names, inSet), PairSeparator(inSet))) + rest) ==
            Ok(Numbered(names, n), rest)
  {
    TokensSeparator(AndOp);
    ListTokens(PairRuns(names, inSet), PairSeparator(inSet), PairToken(inSet), rest);
    PairTokens(names[0], inSet);
    PairRunsTail(names, inSet);
    if |names| == 1 {
      LastPair(PairToken(inSet), n, names[0], rest);
      assert Numbered(names, n) == [Bound(names[0], n + 1)];
    } else {
      var us := TokensOf(JoinPieces(PairRuns(names[1..], inSet), PairSeparator(inSet))) + rest;
      PairsRead(names[1..], inSet, n + 1, rest);
      PairThenMore(PairToken(inSet), n, names[0], us, Numbered(names[1..], n + 1), rest);
    }
  }

  lemma KeysRead(keys: seq<string>, n: nat)
    ensures ReadKeyTail(n, TokensOf(KeyPieces(keys))) == Some(Numbered(keys, n))
    ensures Front(TokensOf(KeyPieces(keys))) != DOT && Front(TokensOf(KeyPieces(keys))) != COMMA
  {
    if keys != [] {
      var joined := JoinPieces(PairRuns(keys, false), BoolSeparator(AndOp));
      WordWhere();
      ClauseTokensOf("WHERE", Kw("where"), joined, []);
      PairsRead(keys, false, n, []);
      var ts := TokensOf(KeyPieces(keys));
      assert ts + [] == ts;
      assert ts[1..] == TokensOf(joined) + [];
    }
  }

  lemma RelationRunTokens(rel: Rel)
    ensures TokensOf(RelationRun(rel)) == RelationTokens(rel)
  {
    RelationTokensOf(DeparseCxt(rel, true));
  }

  lemma WordGap(w: string, t: Token)
    requires Reads(w, t)
    ensures TokensOf([Word(w), Sp]) == [t]
  {
    assert [Word(w), Sp][1..] == [Sp];
    TokOne(Sp);
  }

  lemma TwoWordsTokens(w: string, t: Token, x: string, u: Token)
    requires Reads(w, t) && Reads(x, u)
    ensures TokensOf([Word(w), Sp, Word(x), Sp]) == [t, u]
  {
    WordGap(w, t);
    WordGap(x, u);
    TokensAppend([Word(w), Sp], [Word(x), Sp]);
    assert [Word(w), Sp] + [Word(x), Sp] == [Word(w), Sp, Word(x), Sp];
  }

  lemma InsertOpeningTokens()
    ensures TokensOf(INSERT_OPENING) == [Ident("insert"), Kw("into")]
  {
    WordInsert(); WordInto();
    TwoWordsTokens("INSERT", Ident("insert"), "INTO", Kw("into"));
  }

  lemma DeleteOpeningTokens()
    ensures TokensOf(DELETE_OPENING) == [Ident("delete"), Kw("from")]
  {
    WordDelete(); WordFrom();
    TwoWordsTokens("DELETE", Ident("delete"), "FROM", Kw("from"));
  }

  lemma UpdateOpeningTokens()
    ensures TokensOf(UPDATE_OPENING) == [Ident("update")] && TokensOf(SET_OPENING) == [Ident("set")]
  {
    WordUpdate(); WordSet();
    WordGap("UPDATE", Ident("update"));
    TokThree(Sp, Word("SET"), Sp);
  }

  lemma DefaultValuesTokens()
    ensures TokensOf(DEFAULT_VALUES) == [Kw("default"), Ident("values")]
  {
    WordValues(); WordDefault();
    assert DEFAULT_VALUES == [Sp, Word("DEFAULT"), Sp] + [Word("VALUES")];
    TokThree(Sp, Word("DEFAULT"), Sp);
    TokOne(Word("VALUES"));
    TokensAppend([Sp, Word("DEFAULT"), Sp], [Word("VALUES")]);
  }

  lemma ValuesOpeningTokens()
    ensures TokensOf(VALUES_OPENING) == [RPAREN, Ident("values"), LPAREN]
  {
    WordValues();
    assert VALUES_OPENING == [P(')'), Sp, Word("VALUES")] + [Sp, P('(')];
    TokThree(P(')'), Sp, Word("VALUES"));
    assert [Sp, P('(')][1..] == [P('(')];
    TokOne(P('('));
    TokensAppend([P(')'), Sp, Word("VALUES")], [Sp, P('(')]);
  }

  lemma ValuesTokens(targets: seq<string>)
    ensures TokensOf(ValuesPieces(targets)) ==
            [LPAREN] + (TokensOf(JoinPieces(NameRuns(targets), ITEM_SEPARATOR))
              + ([RPAREN, Ident("values"), LPAREN]
                 + (TokensOf(JoinPieces(MarkRuns(|targets|), ITEM_SEPARATOR)) + ([RPAREN] + []))))
  {
    var names, marks := JoinPieces(NameRuns(targets), ITEM_SEPARATOR), JoinPieces(MarkRuns(|targets|), ITEM_SEPARATOR);
    TokOne(P('(')); TokOne(P(')'));
    ValuesOpeningTokens();
    Tok5([P('(')], names, VALUES_OPENING, marks, [P(')')], []);
    assert TokensOf(ValuesPieces(targets)) + [] == TokensOf(ValuesPieces(targets));
  }

  lemma InsertTailReads(name: (Option<string>, string), tn: seq<Token>, names: seq<string>, tm: seq<Token>)
    requires ReadNames(tn) == Ok(names, [RPAREN, Ident("values"), LPAREN] + tm)
    requires ReadMarks(tm) == Ok(|names|, [RPAREN] + [])
    ensures ReadInsertTail(name, [LPAREN] + tn) == Some(InsertRow(name.0, name.1, Numbered(names, 0)))
  {
    assert ([LPAREN] + tn)[1..] == tn;
    assert ([RPAREN, Ident("values"), LPAREN] + tm)[3..] == tm;
    assert ([LPAREN] + tn)[0] == LPAREN;
  }

  lemma ValuesRead(name: (Option<string>, string), targets: seq<string>)
    requires targets != []
    ensures ReadInsertTail(name, TokensOf(ValuesPieces(targets))) ==
            Some(InsertRow(name.0, name.1, Numbered(targets, 0)))
    ensures Front(TokensOf(ValuesPieces(targets))) == LPAREN
  {
    var tm := TokensOf(JoinPieces(MarkRuns(|targets|), ITEM_SEPARATOR)) + ([RPAREN] + []);
    var values := [RPAREN, Ident("values"), LPAREN];
    ValuesTokens(targets);
    NamesRead(targets, values + tm);
    MarksRead(|targets|, [RPAREN] + []);
    InsertTailReads(name, TokensOf(JoinPieces(NameRuns(targets), ITEM_SEPARATOR)) + (values + tm), targets, tm);
  }

  /** After the table name, the reader continues with the rest. */
  lemma StatementStart(opening: seq<Piece>, front: seq<Token>, rel: Rel, tail: seq<Piece>)
    requires TokensOf(opening) == front && Front(TokensOf(tail)) != DOT
    ensures TokensOf(opening + (RelationRun(rel) + tail)) == front + (RelationTokens(rel) + TokensOf(tail))
    ensures ReadTableName(RelationTokens(rel) + TokensOf(tail)) == Ok((SchemaOf(rel), rel.name), TokensOf(tail))
  {
    RelationRunTokens(rel);
    TokensAppend(RelationRun(rel), tail);
    TokensAppend(opening, RelationRun(rel) + tail);
    TableNameReads(rel, TokensOf(tail));
  }

  lemma InsertReads(rel: Rel, targets: seq<string>)
    ensures ReadDmlTokens(TokensOf(InsertPieces(rel, targets))) ==
            Some(InsertRow(SchemaOf(rel), rel.name, Numbered(targets, 0)))
  {
    var tail := if targets == [] then DEFAULT_VALUES else ValuesPieces(targets);
    var name := (SchemaOf(rel), rel.name);
    assert ReadInsertTail(name, TokensOf(tail)) == Some(InsertRow(name.0, name.1, Numbered(targets, 0)))
           && Front(TokensOf(tail)) != DOT by {
      if targets == [] {
        DefaultValuesTokens();
      } else {
        ValuesRead(name, targets);
      }
    }
    InsertOpeningTokens();
    StatementStart(INSERT_OPENING, [Ident("insert"), Kw("into")], rel, tail);
    InsertDispatch(RelationTokens(rel) + TokensOf(tail), name, TokensOf(tail));
  }

  lemma InsertDispatch(ts: seq<Token>, name: (Option<string>, string), rest: seq<Token>)
    requires ReadTableName(ts) == Ok(name, rest)
    ensures ReadDmlTokens([Ident("insert"), Kw("into")] + ts) == ReadInsertTail(name, rest)
  {
    assert ([Ident("insert"), Kw("into")] + ts)[2..] == ts;
  }

  lemma UpdateDispatch(ts: seq<Token>, name: (Option<string>, string), rest: seq<Token>)
    requires ReadTableName(ts) == Ok(name, rest)
    ensures ReadDmlTokens([Ident("update")] + ts) == ReadUpdateTail(name, rest)
  {
    assert ([Ident("update")] + ts)[1..] == ts;
  }

  lemma UpdateTailReads(name: (Option<string>, string), ts: seq<Token>, sets: seq<Bound>, tk: seq<Token>,
                        keys: seq<Bound>)
    requires ReadPairs(COMMA, 0, ts) == Ok(sets, tk) && ReadKeyTail(|sets|, tk) == Some(keys)
    ensures ReadUpdateTail(name, [Ident("set")] + ts) == Some(UpdateRows(name.0, name.1, sets, keys))
  {
    assert ([Ident("set")] + ts)[1..] == ts;
  }

  lemma UpdateReads(rel: Rel, targets: seq<string>, keys: seq<string>)
    requires targets != []
    ensures ReadDmlTokens(TokensOf(UpdatePieces(rel, targets, keys))) ==
            Some(UpdateRows(SchemaOf(rel), rel.name, Numbered(targets, 0), Numbered(keys, |targets|)))
  {
    var sets, tk := JoinPieces(PairRuns(targets, true), ITEM_SEPARATOR), TokensOf(KeyPieces(keys));
    var tail := SetPieces(targets, keys);
    UpdateOpeningTokens();
    assert TokensOf(tail) == [Ident("set")] + (TokensOf(sets) + tk) by {
      TokensAppend(sets, KeyPieces(keys));
      TokensAppend(SET_OPENING, sets + KeyPieces(keys));
    }
    KeysRead(keys, |targets|);
    PairsRead(targets, true, 0, tk);
    UpdateTailReads((SchemaOf(rel), rel.name), TokensOf(sets) + tk, Numbered(targets, 0), tk,
                    Numbered(keys, |targets|));
    StatementStart(UPDATE_OPENING, [Ident("update")], rel, tail);
    UpdateDispatch(RelationTokens(rel) + TokensOf(tail), (SchemaOf(rel), rel.name), TokensOf(tail));
  }

  lemma DeleteDispatch(ts: seq<Token>, name: (Option<string>, string), rest: seq<Token>)
    requires ReadTableName(ts) == Ok(name, rest)
    ensures ReadDmlTokens([Ident("delete"), Kw("from")] + ts) == ReadDeleteTail(name, rest)
  {
    assert ([Ident("delete"), Kw("from")] + ts)[2..] == ts;
  }

  lemma DeleteReads(rel: Rel, keys: seq<string>)
    ensures ReadDmlTokens(TokensOf(DeletePieces(rel, keys))) ==
            Some(DeleteRows(SchemaOf(rel), rel.name, Numbered(keys, 0)))
  {
    var tk := TokensOf(KeyPieces(keys));
    DeleteOpeningTokens();
    KeysRead(keys, 0);
    StatementStart(DELETE_OPENING, [Ident("delete"), Kw("from")], rel, KeyPieces(keys));
    DeleteDispatch(RelationTokens(rel) + tk, (SchemaOf(rel), rel.name), tk);
  }

  // ---------- the text reads back ----------

  lemma WordGapSpaced(d: Dialect, w: string, t: Token)
    requires Reads(w, t)
    ensures WellSpaced(d, [Word(w), Sp]) && WellSpaced(d, [Word(w)])
  {
  }

  lemma TwoWordsSpaced(d: Dialect, w: string, t: Token, x: string, u: Token)
    requires Reads(w, t) && Reads(x, u)
    ensures WellSpaced(d, [Word(w), Sp, Word(x), Sp])
  {
    WordGapSpaced(d, w, t);
    WordGapSpaced(d, x, u);
    Join(d, [Word(w), Sp], [Word(x), Sp]);
    assert [Word(w), Sp] + [Word(x), Sp] == [Word(w), Sp, Word(x), Sp];
  }

  lemma InsertWordsSpaced(d: Dialect)
    ensures WellSpaced(d, INSERT_OPENING)
  {
    WordInsert(); WordInto();
    TwoWordsSpaced(d, "INSERT", Ident("insert"), "INTO", Kw("into"));
  }

  lemma DefaultWordsSpaced(d: Dialect)
    ensures WellSpaced(d, DEFAULT_VALUES)
  {
    WordDefault(); WordValues();
    OpeningSpaced(d, "DEFAULT", Kw("default"));
    WordGapSpaced(d, "VALUES", Ident("values"));
    Join(d, [Sp, Word("DEFAULT"), Sp], [Word("VALUES")]);
    assert [Sp, Word("DEFAULT"), Sp] + [Word("VALUES")] == DEFAULT_VALUES;
  }

  lemma ValuesWordSpaced(d: Dialect)
    ensures WellSpaced(d, VALUES_OPENING)
  {
    WordValues();
    OpeningSpaced(d, "VALUES", Ident("values"));
    FixedSpaced(d, AndOp);
    Enclose(d, [P(')')], [Sp, Word("VALUES"), Sp], [P('(')]);
    assert [P(')')] + ([Sp, Word("VALUES"), Sp] + [P('(')]) == VALUES_OPENING;
  }

  lemma UpdateWordsSpaced(d: Dialect)
    ensures WellSpaced(d, UPDATE_OPENING) && WellSpaced(d, SET_OPENING) && WellSpaced(d, WHERE_OPENING)
  {
    WordUpdate(); WordSet(); WordWhere();
    WordGapSpaced(d, "UPDATE", Ident("update"));
    OpeningSpaced(d, "SET", Ident("set"));
    OpeningSpaced(d, "WHERE", Kw("where"));
  }

  lemma DeleteWordsSpaced(d: Dialect)
    ensures WellSpaced(d, DELETE_OPENING)
  {
    WordDelete(); WordFrom();
    TwoWordsSpaced(d, "DELETE", Ident("delete"), "FROM", Kw("from"));
  }

  lemma RelationRunSpaced(d: Dialect, rel: Rel)
    ensures WellSpaced(d, RelationRun(rel)) && RelationRun(rel) != []
  {
  }

  lemma PairSpaced(d: Dialect, name: string, inSet: bool)
    requires d.placeholders
    ensures WellSpaced(d, PairRun(name, inSet))
  {
    assert IsSymbolText(d, "=");
  }

  lemma PairsSpaced(d: Dialect, names: seq<string>, inSet: bool)
    requires d.placeholders
    ensures WellSpaced(d, JoinPieces(PairRuns(names, inSet), PairSeparator(inSet)))
  {
    forall i | 0 <= i < |names|
      ensures WellSpaced(d, PairRuns(names, inSet)[i])
    {
      PairSpaced(d, names[i], inSet);
    }
    FixedSpaced(d, AndOp);
    JoinAllSpaced(d, PairRuns(names, inSet), PairSeparator(inSet));
  }

  lemma KeysSpaced(d: Dialect, keys: seq<string>)
    requires d.placeholders
    ensures WellSpaced(d, KeyPieces(keys)) && (keys != [] ==> Closes(KeyPieces(keys)))
  {
    PairsSpaced(d, keys, false);
    UpdateWordsSpaced(d);
    if keys != [] {
      Join(d, WHERE_OPENING, JoinPieces(PairRuns(keys, false), BoolSeparator(AndOp)));
    }
  }

  lemma StatementRunSpaced(d: Dialect, opening: seq<Piece>, rel: Rel, tail: seq<Piece>)
    requires WellSpaced(d, opening) && Opens(opening) && WellSpaced(d, tail) && (tail == [] || Closes(tail))
    ensures WellSpaced(d, opening + (RelationRun(rel) + tail))
  {
    RelationRunSpaced(d, rel);
    Join(d, RelationRun(rel), tail);
    Join(d, opening, RelationRun(rel) + tail);
  }

  lemma NamesAndMarksSpaced(d: Dialect, names: seq<string>)
    requires d.placeholders
    ensures WellSpaced(d, JoinPieces(NameRuns(names), ITEM_SEPARATOR))
    ensures WellSpaced(d, JoinPieces(MarkRuns(|names|), ITEM_SEPARATOR))
  {
    forall i | 0 <= i < |names|
      ensures WellSpaced(d, NameRuns(names)[i]) && WellSpaced(d, MarkRuns(|names|)[i])
    {
      OneSpaced(d, Name(names[i]));
      OneSpaced(d, P('?'));
    }
    FixedSpaced(d, AndOp);
    JoinAllSpaced(d, NameRuns(names), ITEM_SEPARATOR);
    JoinAllSpaced(d, MarkRuns(|names|), ITEM_SEPARATOR);
  }

  lemma ValuesSpaced(d: Dialect, targets: seq<string>)
    requires d.placeholders
    ensures WellSpaced(d, ValuesPieces(targets)) && Closes(ValuesPieces(targets))
  {
    var names, marks := JoinPieces(NameRuns(targets), ITEM_SEPARATOR), JoinPieces(MarkRuns(|targets|), ITEM_SEPARATOR);
    NamesAndMarksSpaced(d, targets);
    ValuesWordSpaced(d);
    FixedSpaced(d, AndOp);
    Enclose(d, VALUES_OPENING, marks, [P(')')]);
    Enclose(d, [P('(')], names, VALUES_OPENING + (marks + [P(')')]));
  }

  /** The INSERT text reads back as the target columns, the k-th one bound to the k-th placeholder. */
  lemma InsertRoundTrip(d: Dialect, rel: Rel, targets: seq<string>)
    requires ValidDialect(d) && d.placeholders
    ensures ReadDml(d, Render(d, InsertPieces(rel, targets))) ==
            Some(InsertRow(SchemaOf(rel), rel.name, Numbered(targets, 0)))
  {
    var tail := if targets == [] then DEFAULT_VALUES else ValuesPieces(targets);
    InsertWordsSpaced(d);
    DefaultWordsSpaced(d);
    ValuesSpaced(d, targets);
    StatementRunSpaced(d, INSERT_OPENING, rel, tail);
    LexRender(d, InsertPieces(rel, targets));
    InsertReads(rel, targets);
  }

  /** The UPDATE text reads back as the target columns, then the key columns, numbered in one go. */
  lemma UpdateRoundTrip(d: Dialect, rel: Rel, targets: seq<string>, keys: seq<string>)
    requires ValidDialect(d) && d.placeholders && targets != []
    ensures ReadDml(d, Render(d, UpdatePieces(rel, targets, keys))) ==
            Some(UpdateRows(SchemaOf(rel), rel.name, Numbered(targets, 0), Numbered(keys, |targets|)))
  {
    var sets := JoinPieces(PairRuns(targets, true), ITEM_SEPARATOR);
    UpdateWordsSpaced(d);
    PairsSpaced(d, targets, true);
    KeysSpaced(d, keys);
    Join(d, sets, KeyPieces(keys));
    Join(d, SET_OPENING, sets + KeyPieces(keys));
    StatementRunSpaced(d, UPDATE_OPENING, rel, SetPieces(targets, keys));
    LexRender(d, UpdatePieces(rel, targets, keys));
    UpdateReads(rel, targets, keys);
  }

  lemma DeleteRoundTrip(d: Dialect, rel: Rel, keys: seq<string>)
    requires ValidDialect(d) && d.placeholders
    ensures ReadDml(d, Render(d, DeletePieces(rel, keys))) ==
            Some(DeleteRows(SchemaOf(rel), rel.name, Numbered(keys, 0)))
  {
    DeleteWordsSpaced(d);
    KeysSpaced(d, keys);
    StatementRunSpaced(d, DELETE_OPENING, rel, KeyPieces(keys));
    LexRender(d, DeletePieces(rel, keys));
    DeleteReads(rel, keys);
  }
}
