/** Array comparisons as runs of pieces: an IN list or an OR/AND chain over an array's elements, and
    the proof that the character loop prints exactly their text.
 */
module ArrayPieces {
  import opened Nodes
  import opened Lexical
  import opened Tokens
  import opened ArrayText

  const ITEM_SEPARATOR: seq<Piece> := [P(','), Sp]

  function BoolWord(op: BoolOp): string {
    if op.AndOp? then "AND" else "OR"
  }

  /** `= ANY` prints as IN and `<> ALL` as NOT IN. */
  predicate UsesIn(opname: string, useOr: bool) {
    (opname == "=" && useOr) || (opname == "<>" && !useOr)
  }

  predicate QuotesElements(arraytype: Oid) {
    arraytype != INT4ARRAYOID && arraytype != OIDARRAYOID
  }

  function InOpening(opname: string): seq<Piece> {
    if opname == "<>" then [Sp, Word("NOT"), Sp, Word("IN"), Sp, P('(')]
    else [Sp, Word("IN"), Sp, P('(')]
  }

  function ChainOp(useOr: bool): BoolOp {
    if useOr then OrOp else AndOp
  }

  function BoolSeparator(op: BoolOp): seq<Piece> {
    [Sp, Word(BoolWord(op)), Sp]
  }

  /** Pieces of a list, each element after `sep`. */
  function JoinTail(pss: seq<seq<Piece>>, sep: seq<Piece>): seq<Piece> {
    if pss == [] then [] else sep + (pss[0] + JoinTail(pss[1..], sep))
  }

  function JoinPieces(pss: seq<seq<Piece>>, sep: seq<Piece>): seq<Piece> {
    if pss == [] then [] else pss[0] + JoinTail(pss[1..], sep)
  }

  lemma FixedSeparators(d: Dialect, op: BoolOp, c: char)
    ensures Render(d, [Sp, Word(BoolWord(op)), Sp]) == " " + BoolWord(op) + " "
    ensures Render(d, [P(','), Sp]) == ", "
    ensures Render(d, [P(c)]) == [c] && Render(d, [Sp]) == " "
  {
    RenderShort(d, [Sp, Word(BoolWord(op)), Sp]);
    RenderShort(d, [P(','), Sp]);
    RenderShort(d, [P(c)]);
    RenderShort(d, [Sp]);
  }

  // ---------- the elements of an array constant ----------

  function ElementPieces(isstr: bool, e: Option<string>): seq<Piece> {
    match e
    case None => [Word("NULL")]
    case Some(x) =>
      if isstr then [Escaped(x)]
      else if x != "" && x[0] == '-' then [Sym("-"), Number(x[1..])]
      else [Number(x)]
  }

  predicate IsNumber(d: Dialect, x: string) {
    && ',' !in x && '\'' !in x && '"' !in x && '\\' !in x
    && IsUnsignedNumber(d, if x != "" && x[0] == '-' then x[1..] else x)
  }

  predicate ElementReadable(d: Dialect, isstr: bool, e: Option<string>) {
    match e
    case None => !isstr
    case Some(x) => if isstr then Intact(d.scs, x) else IsNumber(d, x)
  }

  predicate ElementsReadable(d: Dialect, isstr: bool, es: seq<Option<string>>) {
    es != [] && forall i :: 0 <= i < |es| ==> ElementReadable(d, isstr, es[i])
  }

  function ElementPiecesAll(isstr: bool, es: seq<Option<string>>): (r: seq<seq<Piece>>)
    ensures |r| == |es|
  {
    if es == [] then [] else [ElementPieces(isstr, es[0])] + ElementPiecesAll(isstr, es[1..])
  }

  function ComparisonPieces(left: seq<Piece>, opname: string, right: seq<Piece>): seq<Piece> {
    left + ([Sp, Sym(opname), Sp] + right)
  }

  function ComparisonPiecesAll(left: seq<Piece>, opname: string, rights: seq<seq<Piece>>): (r: seq<seq<Piece>>)
    ensures |r| == |rights|
    ensures forall i :: 0 <= i < |rights| ==> r[i] == ComparisonPieces(left, opname, rights[i])
  {
    if rights == [] then []
    else [ComparisonPieces(left, opname, rights[0])] + ComparisonPiecesAll(left, opname, rights[1..])
  }

  // ---------- their text ----------

  lemma ElementRendered(d: Dialect, m: ScanMode, e: Option<string>)
    requires ElementReadable(d, m.isstr, e)
    ensures Render(d, ElementPieces(m.isstr, e)) == Quote(m) + ElementText(m, e) + Quote(m)
  {
    RenderShort(d, ElementPieces(m.isstr, e));
    if e.Some? {
      PrintedPlainly(m, e.value);
      if !m.isstr {
        NumberRendered(d, m, e.value);
      }
    }
  }

  lemma NumberRendered(d: Dialect, m: ScanMode, x: string)
    requires IsNumber(d, x) && PrintedText(m, x) == DoubleChars(x, '\'', true)
    ensures Render(d, ElementPieces(false, Some(x))) == PrintedText(m, x)
  {
    var ps := ElementPieces(false, Some(x));
    RenderShort(d, ps);
    DoublingNothing(x);
    if |ps| == 2 {
      assert x == "-" + x[1..];
    }
  }

  lemma Flatten(q: string, x: string, comma: string, rest: string)
    ensures q + (x + (q + comma + q) + rest) + q == (q + x + q) + (comma + (q + rest + q))
  {
  }

  lemma {:induction false} InText(d: Dialect, m: ScanMode, es: seq<Option<string>>)
    requires ElementsReadable(d, m.isstr, es) && m.useIn
    ensures Render(d, JoinPieces(ElementPiecesAll(m.isstr, es), ITEM_SEPARATOR)) ==
            Quote(m) + Emitted(m, es) + Quote(m)
  {
    var pss := ElementPiecesAll(m.isstr, es);
    assert ElementReadable(d, m.isstr, es[0]);
    ElementRendered(d, m, es[0]);
    RenderAppend(d, pss[0], JoinTail(pss[1..], ITEM_SEPARATOR));
    if |es| > 1 {
      InText(d, m, es[1..]);
      RenderAppend(d, ITEM_SEPARATOR, JoinPieces(pss[1..], ITEM_SEPARATOR));
      FixedSeparators(d, AndOp, ',');
      Flatten(Quote(m), ElementText(m, es[0]), ", ", Emitted(m, es[1..]));
    }
  }

  lemma FlattenChain(q: string, x: string, word: string, lead: string, rest: string)
    ensures lead + (x + (q + word + lead) + rest) + q == (lead + x + q) + (word + (lead + rest + q))
  {
  }

  lemma ComparisonRendered(d: Dialect, left: seq<Piece>, m: ScanMode, e: Option<string>)
    requires ElementReadable(d, m.isstr, e) && m.left == Render(d, left)
    ensures Render(d, ComparisonPieces(left, m.opname, ElementPieces(m.isstr, e))) ==
            LeftAndOperator(m) + ElementText(m, e) + Quote(m)
  {
    var gap, right := [Sp, Sym(m.opname), Sp], ElementPieces(m.isstr, e);
    assert Render(d, right) == Quote(m) + ElementText(m, e) + Quote(m) by {
      ElementRendered(d, m, e);
    }
    assert Render(d, gap) == " " + (m.opname + " ") by {
      RenderThree(d, Sp, Sym(m.opname), Sp);
    }
    assert Render(d, left + (gap + right)) == m.left + (Render(d, gap) + Render(d, right)) by {
      RenderAppend(d, gap, right);
      RenderAppend(d, left, gap + right);
    }
    FlattenComparison(m.left, m.opname, Quote(m), ElementText(m, e));
  }

  lemma FlattenComparison(left: string, op: string, q: string, x: string)
    ensures left + ((" " + (op + " ")) + (q + x + q)) == (left + " " + op + " " + q) + x + q
  {
  }

  lemma {:induction false} ChainText(d: Dialect, left: seq<Piece>, m: ScanMode, es: seq<Option<string>>)
    requires ElementsReadable(d, m.isstr, es) && !m.useIn && m.left == Render(d, left)
    ensures Render(d, JoinPieces(ComparisonPiecesAll(left, m.opname, ElementPiecesAll(m.isstr, es)),
                                 BoolSeparator(ChainOp(m.useOr)))) ==
            LeftAndOperator(m) + Emitted(m, es) + Quote(m)
  {
    var sep := BoolSeparator(ChainOp(m.useOr));
    var rights := ElementPiecesAll(m.isstr, es);
    var pss := ComparisonPiecesAll(left, m.opname, rights);
    assert ElementReadable(d, m.isstr, es[0]);
    assert Render(d, pss[0]) == LeftAndOperator(m) + ElementText(m, es[0]) + Quote(m) by {
      ComparisonRendered(d, left, m, es[0]);
    }
    JoinRendered(d, pss, sep);
    if |es| > 1 {
      ChainText(d, left, m, es[1..]);
      assert pss[1..] == ComparisonPiecesAll(left, m.opname, rights[1..]);
      assert Render(d, sep) == ChainWord(m) by {
        SeparatorText(d, m);
      }
      EmittedChain(m, es);
    }
  }

  lemma JoinRendered(d: Dialect, pss: seq<seq<Piece>>, sep: seq<Piece>)
    requires pss != []
    ensures Render(d, JoinPieces(pss, sep)) ==
            if |pss| == 1 then Render(d, pss[0])
            else Render(d, pss[0]) + (Render(d, sep) + Render(d, JoinPieces(pss[1..], sep)))
  {
    RenderAppend(d, pss[0], JoinTail(pss[1..], sep));
    if |pss| > 1 {
      RenderAppend(d, sep, JoinPieces(pss[1..], sep));
    }
  }

  lemma SeparatorText(d: Dialect, m: ScanMode)
    ensures Render(d, BoolSeparator(ChainOp(m.useOr))) == ChainWord(m)
  {
    FixedSeparators(d, ChainOp(m.useOr), ',');
    assert " " + "OR" + " " == " OR ";
    assert " " + "AND" + " " == " AND ";
  }

  lemma EmittedChain(m: ScanMode, es: seq<Option<string>>)
    requires |es| > 1 && !m.useIn
    ensures LeftAndOperator(m) + Emitted(m, es) + Quote(m) ==
            (LeftAndOperator(m) + ElementText(m, es[0]) + Quote(m))
            + (ChainWord(m) + (LeftAndOperator(m) + Emitted(m, es[1..]) + Quote(m)))
  {
    FlattenChain(Quote(m), ElementText(m, es[0]), ChainWord(m), LeftAndOperator(m), Emitted(m, es[1..]));
  }

  lemma ScannedIn(d: Dialect, m: ScanMode, es: seq<Option<string>>)
    requires ElementsReadable(d, m.isstr, es) && m.useIn
    ensures ScanText(m, ArrayOut(es)) == Render(d, JoinPieces(ElementPiecesAll(m.isstr, es), ITEM_SEPARATOR))
  {
    ScanInvertsArrayOut(m, es);
    InText(d, m, es);
  }

  lemma ScannedChain(d: Dialect, left: seq<Piece>, m: ScanMode, es: seq<Option<string>>)
    requires ElementsReadable(d, m.isstr, es) && !m.useIn && m.left == Render(d, left)
    ensures ScanText(m, ArrayOut(es)) ==
            Render(d, JoinPieces(ComparisonPiecesAll(left, m.opname, ElementPiecesAll(m.isstr, es)),
                                 BoolSeparator(ChainOp(m.useOr))))
  {
    ScanInvertsArrayOut(m, es);
    ChainText(d, left, m, es);
  }
}
