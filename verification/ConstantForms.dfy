/** What a server reads for constants, operators and array comparisons, type by type and operator by operator: the
    numbers of types and the names of operators are those of PostgreSQL's catalogs.
 */
module ConstantForms {
  import opened Nodes
  import opened Lexical
  import opened Tokens
  import opened Reader
  import opened ArrayPieces
  import opened Deparse
  import opened ArrayRead
  import opened RoundTrip
  import opened Spacing
  import opened Positions
  import opened ArrayLimits
  import opened ElementLimits

  // ---------- scalar constants ----------

  /** int8, int2, int4, oid, float4, float8 and numeric. */
  predicate NumericOid(t: Oid) {
    t == 20 || t == 21 || t == 23 || t == 26 || t == 700 || t == 701 || t == 1700
  }

  predicate IsSignedNumber(d: Dialect, text: string) {
    text != "" && (text[0] == '+' || text[0] == '-') && IsUnsignedNumber(d, text[1..])
  }

  /** What a constant with this text stands for: of a numeric type a number, or where the text is none (NaN,
      Infinity) a string; of bit (1560) and varbit (1562) a bit string; of bool (16) a truth value; of any other type
      a string. */
  function ConstantMeaning(d: Dialect, t: Oid, text: string): Sql {
    if NumericOid(t) then
      if IsUnsignedNumber(d, text) then NumLit(text)
      else if IsSignedNumber(d, text) then App(HUnary(text[..1]), [NumLit(text[1..])])
      else StrLit(text)
    else if t == 1560 || t == 1562 then BitLit(text)
    else if t == 16 then BoolLit(text == "t")
    else StrLit(text)
  }

  /** What output functions give: of a numeric type a number, or a word without quotes or backslashes and with a
      letter that no number has; of the bit types bits; of any other type anything. */
  predicate IsOutput(d: Dialect, t: Oid, text: string) {
    if NumericOid(t) then
      || IsUnsignedNumber(d, text) || IsSignedNumber(d, text)
      || (!AllDigitsSignsDotsAndEs(text) && '\'' !in text && '\\' !in text)
    else (t == 1560 || t == 1562) ==> forall c :: c in text ==> c == '0' || c == '1'
  }

  predicate AllDigitsSignsDotsAndEs(s: string) {
    forall c :: c in s ==> '0' <= c <= '9' || c == '+' || c == '-' || c == 'e' || c == 'E' || c == '.'
  }

  lemma {:induction false} RunHasClass(d: Dialect, k: CharClass, s: string, i: nat)
    requires i < Run(d, k, s)
    ensures InClass(d, k, s[i])
  {
    if i > 0 {
      RunHasClass(d, k, s[1..], i - 1);
    }
  }

  lemma FractionChar(d: Dialect, s: string, i: nat)
    requires i < FractionLen(d, s)
    ensures IsDigit(s[i]) || s[i] == '.'
  {
    if i > 0 {
      RunHasClass(d, DigitClass, s[1..], i - 1);
    }
  }

  lemma ExponentChar(d: Dialect, s: string, i: nat)
    requires i < ExponentLen(d, s)
    ensures IsDigit(s[i]) || s[i] in "eE+-"
  {
    var sign := if |s| > 1 && (s[1] == '+' || s[1] == '-') then 1 else 0;
    if i > sign {
      RunHasClass(d, DigitClass, s[1 + sign..], i - 1 - sign);
    }
  }

  /** A number has no other characters than a numeric text may have. */
  lemma NumberChars(d: Dialect, t: string)
    requires IsUnsignedNumber(d, t)
    ensures AllNumericChars(t) && AllDigitsSignsDotsAndEs(t)
  {
    var whole := Run(d, DigitClass, t);
    var frac := FractionLen(d, t[whole..]);
    forall i | 0 <= i < |t|
      ensures IsNumericChar(t[i])
    {
      if i < whole {
        RunHasClass(d, DigitClass, t, i);
      } else if i < whole + frac {
        FractionChar(d, t[whole..], i - whole);
      } else {
        ExponentChar(d, t[whole + frac..], i - whole - frac);
      }
    }
  }

  lemma SignedChars(d: Dialect, t: string)
    requires IsSignedNumber(d, t)
    ensures AllNumericChars(t) && AllDigitsSignsDotsAndEs(t) && !IsUnsignedNumber(d, t)
  {
    NumberChars(d, t[1..]);
    assert t == [t[0]] + t[1..];
  }

  /** Whether the wrapper tests the characters of a text or its meaning is asked for, it is the same test. */
  lemma SameTest(s: string)
    ensures AllNumericChars(s) <==> AllDigitsSignsDotsAndEs(s)
  {
    if AllNumericChars(s) {
      forall c | c in s
        ensures IsNumericChar(c)
      {
        var i :| 0 <= i < |s| && s[i] == c;
      }
    } else {
      var i :| 0 <= i < |s| && !IsNumericChar(s[i]);
      assert s[i] in s;
    }
  }

  /** Every constant, of any type, is read as what it stands for. */
  lemma ConstantReads(d: Dialect, cx: DeparseCxt, t: Oid, collation: Oid, text: string)
    requires ValidDialect(d) && cx.quotable && IsOutput(d, t, text)
    ensures
      var e := Const(t, collation, Scalar(text));
      Print(d, cx, e).Some? && ReadText(d, Render(d, Print(d, cx, e).value)) == Some(ConstantMeaning(d, t, text))
  {
    SameTest(text);
    if IsUnsignedNumber(d, text) {
      NumberChars(d, text);
    } else if IsSignedNumber(d, text) {
      SignedChars(d, text);
    }
    ConstantIsReadable(d, t, text);
    TextRoundTrip(d, cx, Const(t, collation, Scalar(text)));
  }

  lemma ConstantIsReadable(d: Dialect, t: Oid, text: string)
    requires ValidDialect(d) && IsOutput(d, t, text) && (AllNumericChars(text) <==> AllDigitsSignsDotsAndEs(text))
    requires IsUnsignedNumber(d, text) || IsSignedNumber(d, text) ==> AllNumericChars(text)
    requires IsSignedNumber(d, text) ==> !IsUnsignedNumber(d, text)
    ensures ConstReadable(d, t, Scalar(text))
    ensures EraseConst(t, Scalar(text)) == ConstantMeaning(d, t, text)
  {
    var ps := ConstPieces(t, Scalar(text));
    if NumericOid(t) {
      NumericIsReadable(d, t, text);
    } else {
      FixedWords();
      forall i | 0 <= i < |ps|
        ensures PieceOk(d, ps[i])
      {
        if t == 1560 || t == 1562 {
          assert '\'' !in text;
        }
      }
    }
  }

  lemma NumericIsReadable(d: Dialect, t: Oid, text: string)
    requires ValidDialect(d) && NumericOid(t)
    requires IsOutput(d, t, text) && (AllNumericChars(text) <==> AllDigitsSignsDotsAndEs(text))
    requires IsUnsignedNumber(d, text) || IsSignedNumber(d, text) ==> AllNumericChars(text)
    requires IsSignedNumber(d, text) ==> !IsUnsignedNumber(d, text)
    ensures ConstReadable(d, t, Scalar(text))
    ensures EraseConst(t, Scalar(text)) == ConstantMeaning(d, t, text)
  {
    SignIsSymbol(d);
    var ps := ConstPieces(t, Scalar(text));
    if !AllNumericChars(text) {
      assert ps == [Plain(text)];
    } else if IsUnsignedNumber(d, text) {
      assert ps == [Number(text)];
    } else {
      assert ps == [P('('), Sym(text[..1]), Number(text[1..]), P(')')];
      assert text[..1] == [text[0]];
    }
  }

  lemma NullConstantReads(d: Dialect, cx: DeparseCxt, t: Oid, collation: Oid)
    requires ValidDialect(d) && cx.quotable
    ensures
      var e := Const(t, collation, NullDatum);
      Print(d, cx, e).Some? && ReadText(d, Render(d, Print(d, cx, e).value)) == Some(NullLit)
  {
    FixedWords();
    TextRoundTrip(d, cx, Const(t, collation, NullDatum));
  }

  lemma FixedWords()
    ensures IsWordText("NULL") && IsWordText("true") && IsWordText("false")
  {
  }

  lemma SignIsSymbol(d: Dialect)
    requires ValidDialect(d)
    ensures IsSymbolText(d, "+") && IsSymbolText(d, "-")
    ensures IsPunctuation(d, '(') && IsPunctuation(d, ')')
  {
  }

  // ---------- columns ----------

  /** A column is read under its remote name, and the row identifier, the one system column that may be shipped, as
      ctid. A number of no column raises. */
  lemma ColumnReads(d: Dialect, cx: DeparseCxt, e: Expr)
    requires ValidDialect(d) && cx.quotable && e.Var? && e.varno == cx.rel.relid && e.varlevelsup == 0
    ensures 1 <= e.varattno <= |cx.rel.attrs| || e.varattno == -1 ==>
              && Print(d, cx, e).Some?
              && ReadText(d, Render(d, Print(d, cx, e).value)) ==
                   Some(Col(if e.varattno == -1 then "ctid" else cx.rel.attrs[e.varattno - 1].name))
    ensures e.varattno == 0 || e.varattno > |cx.rel.attrs| || e.varattno < -6 ==> Print(d, cx, e).None?
  {
    if 1 <= e.varattno <= |cx.rel.attrs| || e.varattno == -1 {
      TextRoundTrip(d, cx, e);
    }
  }

  // ---------- operators ----------

  /** The pattern operators that the remote server is not asked for. */
  predicate IsPatternOperator(name: string) {
    name in {"~~*", "!~~*", "~", "!~", "~*", "!~*"}
  }

  /** An operator outside the catalog schema and a pattern operator but LIKE raise. */
  lemma PatternOperatorsRaise(d: Dialect, cx: DeparseCxt, h: Head, args: seq<Expr>)
    requires h.OpCall? && (!h.inCatalog || IsPatternOperator(h.opname))
    ensures Print(d, cx, Node(h, args)).None?
  {
  }

  /** `~~` is read as LIKE, `!~~` as NOT LIKE, and any other operator of symbols as itself, over the same operands in
      their order. */
  lemma OperatorReads(d: Dialect, cx: DeparseCxt, h: Head, l: Expr, r: Expr)
    requires ValidDialect(d) && cx.quotable && h.OpCall? && h.inCatalog && !IsPatternOperator(h.opname)
    requires h.opname == "~~" || h.opname == "!~~" || IsSymbolText(d, h.opname)
    requires Readable(d, cx, l) && FormOf(l) == PrimaryForm && Readable(d, cx, r) && FormOf(r) == PrimaryForm
    ensures
      var e := Node(h, [l, r]);
      var name := if h.opname == "~~" then "LIKE" else if h.opname == "!~~" then "NOT LIKE" else h.opname;
      && Print(d, cx, e).Some?
      && ReadText(d, Render(d, Print(d, cx, e).value)) ==
           Some(App(HBinary(name), [Erase(cx.rel, l), Erase(cx.rel, r)]))
  {
    var e := Node(h, [l, r]);
    assert Children(e) == [l, r];
    TextRoundTrip(d, cx, e);
    assert EraseAll(cx.rel, [l, r]) == [Erase(cx.rel, l), Erase(cx.rel, r)];
  }

  // ---------- array comparisons ----------

  /** An element of int4[] (1007) and oid[] (1028) is a number, of any other array a string; null is null. */
  function ElementMeaning(t: Oid, e: Option<string>): Sql {
    match e
    case None => NullLit
    case Some(x) =>
      if t != 1007 && t != 1028 then StrLit(x)
      else if x != "" && x[0] == '-' then App(HUnary("-"), [NumLit(x[1..])])
      else NumLit(x)
  }

  function ElementMeanings(t: Oid, es: seq<Option<string>>): (r: seq<Sql>)
    ensures |r| == |es|
  {
    seq(|es|, i requires 0 <= i < |es| => ElementMeaning(t, es[i]))
  }

  /** `= ANY` is IN, `<> ALL` is NOT IN, and anything else the OR (for ANY) or AND (for ALL) of the comparisons with
      the elements, or the one comparison that there is. */
  function ComparisonMeaning(opname: string, useAny: bool, left: Sql, elements: seq<Sql>): Sql {
    if opname == "=" && useAny then App(HIn(false), [left] + elements)
    else if opname == "<>" && !useAny then App(HIn(true), [left] + elements)
    else
      var comparisons := seq(|elements|, i requires 0 <= i < |elements| => App(HBinary(opname), [left, elements[i]]));
      if |comparisons| == 1 then comparisons[0]
      else App(if useAny then HOr else HAnd, comparisons)
  }

  /** The elements can be read: of int4[] and oid[] numbers or null, of any other array present and without commas,
      quotes and plain backslashes. */
  predicate ElementsFit(d: Dialect, t: Oid, es: seq<Option<string>>) {
    es != [] && forall i :: 0 <= i < |es| ==> ElementFits(d, t, es[i])
  }

  predicate ElementFits(d: Dialect, t: Oid, e: Option<string>) {
    match e
    case None => t == 1007 || t == 1028
    case Some(x) =>
      if t == 1007 || t == 1028 then IsUnsignedNumber(d, if x != "" && x[0] == '-' then x[1..] else x)
      else ',' !in x && '\'' !in x && '"' !in x && (d.scs ==> '\\' !in x)
  }

  lemma ElementMeans(d: Dialect, t: Oid, e: Option<string>)
    requires ElementFits(d, t, e)
    ensures ElementReadable(d, QuotesElements(t), e)
    ensures ElementSql(QuotesElements(t), e) == ElementMeaning(t, e)
  {
    if e.Some? && (t == 1007 || t == 1028) {
      var x := e.value;
      var digits := if x != "" && x[0] == '-' then x[1..] else x;
      NumberChars(d, digits);
      assert x == digits || x == ['-'] + digits;
    }
  }

  lemma ElementsMean(d: Dialect, t: Oid, es: seq<Option<string>>)
    requires ElementsFit(d, t, es)
    ensures ElementsReadable(d, QuotesElements(t), es)
    ensures ElementSqls(QuotesElements(t), es) == ElementMeanings(t, es)
  {
    forall i | 0 <= i < |es|
      ensures ElementReadable(d, QuotesElements(t), es[i])
      ensures ElementSql(QuotesElements(t), es[i]) == ElementMeaning(t, es[i])
    {
      ElementMeans(d, t, es[i]);
    }
  }

  lemma ComparisonMeans(opname: string, useAny: bool, left: Sql, elements: seq<Sql>)
    requires elements != []
    ensures ArrayTree(opname, useAny, left, elements) == ComparisonMeaning(opname, useAny, left, elements)
  {
    var comparisons := seq(|elements|, i requires 0 <= i < |elements| => App(HBinary(opname), [left, elements[i]]));
    assert ComparisonSqls(left, opname, elements) == comparisons;
  }

  /** A comparison with an array constant is read as the IN list, NOT IN list or chain of comparisons with exactly the
      elements, each of the kind of its type. */
  lemma ArrayConstantReads(d: Dialect, cx: DeparseCxt, h: Head, left: Expr, t: Oid, es: seq<Option<string>>)
    requires ValidDialect(d) && cx.quotable && h.ScalarArrayOp? && IsSymbolText(d, h.opname)
    requires Readable(d, cx, left) && FormOf(left) == PrimaryForm && ElementsFit(d, t, es)
    ensures ReadText(d, Shown(d, cx, WithArray(h, left, t, es))) ==
            Some(ComparisonMeaning(h.opname, h.useOr, Erase(cx.rel, left), ElementMeanings(t, es)))
  {
    ElementsMean(d, t, es);
    IntactArrayReads(d, cx, h, left, t, es);
    ComparisonMeans(h.opname, h.useOr, Erase(cx.rel, left), ElementMeanings(t, es));
  }

  /** The same for ARRAY[...] with at least one element. */
  lemma ArrayExpressionReads(d: Dialect, cx: DeparseCxt, h: Head, left: Expr, list: Head, es: seq<Expr>)
    requires ValidDialect(d) && cx.quotable && h.ScalarArrayOp? && IsSymbolText(d, h.opname) && list.ArrayOf?
    requires Readable(d, cx, left) && es != [] && AllReadable(d, cx, es) && Fits(Node(h, [left, Node(list, es)]))
    ensures ReadText(d, Shown(d, cx, Node(h, [left, Node(list, es)]))) ==
            Some(ComparisonMeaning(h.opname, h.useOr, Erase(cx.rel, left), EraseAll(cx.rel, es)))
  {
    var e := Node(h, [left, Node(list, es)]);
    assert Children(e) == [left] + es;
    ConditionRoundTrip(d, cx, e);
    ComparisonMeans(h.opname, h.useOr, Erase(cx.rel, left), EraseAll(cx.rel, es));
  }
}
