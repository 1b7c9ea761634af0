/** Pieces of SQL text as the deparser appends them, the scanner that turns text back into
    tokens, and the proof that scanning a well-spaced run of pieces yields exactly its tokens.
 */
module Tokens {
  import opened Nodes
  import opened Lexical

  datatype Token =
    | Ident(name: string)
    | Kw(word: string)
    | Num(text: string)
    | Str(value: string)
    | Bits(bits: string)
    | Oper(symbol: string)
    | Punct(c: char)

  /** One append to the output buffer. */
  datatype Piece =
    | Sp
    | Name(ident: string)     // an identifier, quoted where needed
    | Word(word: string)      // a word printed as it is
    | Number(text: string)    // an unsigned number
    | Literal(value: string)  // a string literal
    | Plain(text: string)     // a value put between quotes as it is
    | Escaped(value: string)  // a value put between quotes, its backslashes doubled
    | BitString(text: string) // B'...'
    | Sym(symbol: string)     // an operator symbol
    | P(c: char)              // a punctuation character
    | Raw(text: string)       // characters with no structure of their own

  function PieceText(d: Dialect, p: Piece): string {
    match p
    case Sp => " "
    case Name(ident) => QuoteIdent(d.keywords, d.q, ident)
    case Word(w) => w
    case Number(t) => t
    case Literal(v) => StringLiteral(v)
    case Plain(t) => "'" + t + "'"
    case Escaped(v) => "'" + DoubleChars(v, '\'', true) + "'"
    case BitString(t) => "B'" + t + "'"
    case Sym(o) => o
    case P(c) => [c]
    case Raw(t) => t
  }

  function Render(d: Dialect, ps: seq<Piece>): string {
    if ps == [] then "" else PieceText(d, ps[0]) + Render(d, ps[1..])
  }

  lemma {:induction false} RenderAppend(d: Dialect, a: seq<Piece>, b: seq<Piece>)
    ensures Render(d, a + b) == Render(d, a) + Render(d, b)
  {
    if a == [] {
      assert a + b == b;
    } else {
      assert (a + b)[1..] == a[1..] + b;
      RenderAppend(d, a[1..], b);
    }
  }

  lemma RenderOne(d: Dialect, p: Piece)
    ensures Render(d, [p]) == PieceText(d, p)
  {
    assert Render(d, [p]) == PieceText(d, p) + "";
  }

  lemma RenderThree(d: Dialect, p: Piece, q: Piece, r: Piece)
    ensures Render(d, [p, q, r]) == PieceText(d, p) + (PieceText(d, q) + PieceText(d, r))
  {
    assert [p, q, r][1..] == [q, r] && [q, r][1..] == [r];
    RenderOne(d, r);
  }

  function TextAt(d: Dialect, ps: seq<Piece>, i: nat): string
    requires i < |ps|
  {
    PieceText(d, ps[i])
  }

  /** A short run of pieces, unrolled. */
  lemma {:induction false} RenderShort(d: Dialect, ps: seq<Piece>)
    requires 1 <= |ps| <= 7
    ensures
      Render(d, ps) ==
        if |ps| == 1 then TextAt(d, ps, 0)
        else if |ps| == 2 then TextAt(d, ps, 0) + TextAt(d, ps, 1)
        else if |ps| == 3 then TextAt(d, ps, 0) + (TextAt(d, ps, 1) + TextAt(d, ps, 2))
        else if |ps| == 4 then
          TextAt(d, ps, 0) + (TextAt(d, ps, 1) + (TextAt(d, ps, 2) + TextAt(d, ps, 3)))
        else if |ps| == 5 then
          TextAt(d, ps, 0) + (TextAt(d, ps, 1) + (TextAt(d, ps, 2) + (TextAt(d, ps, 3) + TextAt(d, ps, 4))))
        else if |ps| == 6 then
          TextAt(d, ps, 0) + (TextAt(d, ps, 1) + (TextAt(d, ps, 2) + (TextAt(d, ps, 3)
            + (TextAt(d, ps, 4) + TextAt(d, ps, 5)))))
        else
          TextAt(d, ps, 0) + (TextAt(d, ps, 1) + (TextAt(d, ps, 2) + (TextAt(d, ps, 3)
            + (TextAt(d, ps, 4) + (TextAt(d, ps, 5) + TextAt(d, ps, 6))))))
  {
    if |ps| == 1 {
      assert Render(d, ps) == PieceText(d, ps[0]) + "";
    } else {
      RenderShort(d, ps[1..]);
    }
  }

  function WordToken(w: string): Token {
    if Fold(w) in RESERVED then Kw(Fold(w)) else Ident(Fold(w))
  }

  function PieceTokens(p: Piece): seq<Token> {
    match p
    case Sp => []
    case Name(ident) => [Ident(ident)]
    case Word(w) => [WordToken(w)]
    case Number(t) => [Num(t)]
    case Literal(v) => [Str(v)]
    case Plain(t) => [Str(t)]
    case Escaped(v) => [Str(v)]
    case BitString(t) => [Bits(t)]
    case Sym(o) => [Oper(o)]
    case P(c) => [Punct(c)]
    case Raw(_) => []
  }

  function TokensOf(ps: seq<Piece>): seq<Token> {
    if ps == [] then [] else PieceTokens(ps[0]) + TokensOf(ps[1..])
  }

  lemma {:induction false} TokensAppend(a: seq<Piece>, b: seq<Piece>)
    ensures TokensOf(a + b) == TokensOf(a) + TokensOf(b)
  {
    if a == [] {
      assert a + b == b;
    } else {
      assert (a + b)[1..] == a[1..] + b;
      TokensAppend(a[1..], b);
      Reassociated(PieceTokens(a[0]), TokensOf(a[1..]), TokensOf(b));
    }
  }

  lemma Reassociated(a: seq<Token>, b: seq<Token>, c: seq<Token>)
    ensures a + (b + c) == (a + b) + c
  {
  }

  // ---------- the scanner ----------

  datatype CharClass = WordClass | DigitClass | OperatorClass

  predicate InClass(d: Dialect, k: CharClass, c: char) {
    match k
    case WordClass => IsWordChar(c)
    case DigitClass => IsDigit(c)
    case OperatorClass => IsOperatorChar(d, c)
  }

  /** The number of leading characters of the class. */
  function Run(d: Dialect, k: CharClass, s: string): (n: nat)
    ensures n <= |s|
    ensures s != "" && InClass(d, k, s[0]) ==> n > 0
  {
    if s != "" && InClass(d, k, s[0]) then 1 + Run(d, k, s[1..]) else 0
  }

  lemma {:induction false} RunStops(d: Dialect, k: CharClass, a: string, rest: string)
    requires forall i :: 0 <= i < |a| ==> InClass(d, k, a[i])
    requires rest != "" ==> !InClass(d, k, rest[0])
    ensures Run(d, k, a + rest) == |a|
  {
    if a == "" {
      assert a + rest == rest;
    } else {
      assert (a + rest)[1..] == a[1..] + rest;
      RunStops(d, k, a[1..], rest);
    }
  }

  /** The length of the fraction that `s` starts with, or 0. */
  function FractionLen(d: Dialect, s: string): (n: nat)
    ensures n <= |s|
  {
    if s != "" && s[0] == '.' then 1 + Run(d, DigitClass, s[1..]) else 0
  }

  /** The length of the exponent that `s` starts with, or 0. */
  function ExponentLen(d: Dialect, s: string): (n: nat)
    ensures n <= |s|
  {
    if s == "" || (s[0] != 'e' && s[0] != 'E') then 0
    else
      var sign := if |s| > 1 && (s[1] == '+' || s[1] == '-') then 1 else 0;
      var digits := Run(d, DigitClass, s[1 + sign..]);
      if digits == 0 then 0 else 1 + sign + digits
  }

  function NumberLen(d: Dialect, s: string): (n: nat)
    ensures n <= |s|
    ensures s != "" && IsDigit(s[0]) ==> n > 0
  {
    var whole := Run(d, DigitClass, s);
    var frac := FractionLen(d, s[whole..]);
    whole + frac + ExponentLen(d, s[whole + frac..])
  }

  /** The text is one unsigned number, as a whole. */
  predicate IsUnsignedNumber(d: Dialect, t: string) {
    t != "" && IsDigit(t[0]) && NumberLen(d, t) == |t|
  }

  /** `s` holds a comment start. */
  predicate StartsComment(s: string) {
    exists i :: 0 <= i < |s| - 1 && ((s[i] == '-' && s[i + 1] == '-') || (s[i] == '/' && s[i + 1] == '*'))
  }

  function Scanned(r: Option<(string, string)>, make: string -> Token): Option<(Token, string)> {
    match r
    case None => None
    case Some((v, rest)) => Some((make(v), rest))
  }

  /** The token that `s` starts with, and the text after it. A comment is not a token. */
  function Next(d: Dialect, s: string): (r: Option<(Token, string)>)
    requires s != ""
    ensures r.Some? ==> |r.value.1| < |s|
  {
    var c := s[0];
    var quoted := |s| > 1 && s[1] == '\'';
    if c == d.q then Scanned(ReadQuoted(d.q, false, s[1..]), v => Ident(v))
    else if c == '\'' || (quoted && (c == 'E' || c == 'e')) then
      Scanned(ReadLiteral(d.scs, s), v => Str(v))
    else if quoted && (c == 'B' || c == 'b') then
      Scanned(ReadQuoted('\'', false, s[2..]), v => Bits(v))
    else if IsDigit(c) then
      var n := NumberLen(d, s);
      Some((Num(s[..n]), s[n..]))
    else if IsWordChar(c) then
      var n := Run(d, WordClass, s);
      Some((WordToken(s[..n]), s[n..]))
    else if IsOperatorChar(d, c) then
      var n := Run(d, OperatorClass, s);
      if StartsComment(s[..n]) then None else Some((Oper(s[..n]), s[n..]))
    else if IsPunctuation(d, c) then Some((Punct(c), s[1..]))
    else None
  }

  /** The tokens of a text, or None where it is not SQL. */
  function Lex(d: Dialect, s: string): Option<seq<Token>>
    decreases |s|
  {
    if s == "" then Some([])
    else if s[0] == ' ' then Lex(d, s[1..])
    else
      match Next(d, s)
      case None => None
      case Some((t, rest)) => Push([t], Lex(d, rest))
  }

  function Push(ts: seq<Token>, r: Option<seq<Token>>): Option<seq<Token>> {
    match r
    case None => None
    case Some(us) => Some(ts + us)
  }

  // ---------- scanning what was printed ----------

  predicate IsWordText(w: string) {
    w != "" && !IsDigit(w[0]) && forall i :: 0 <= i < |w| ==> IsWordChar(w[i])
  }

  predicate IsSymbolText(d: Dialect, o: string) {
    o != "" && !StartsComment(o) && forall i :: 0 <= i < |o| ==> IsOperatorChar(d, o[i])
  }

  /** The piece prints one token. */
  predicate PieceOk(d: Dialect, p: Piece) {
    match p
    case Sp => true
    case Name(_) => true
    case Word(w) => IsWordText(w)
    case Number(t) => IsUnsignedNumber(d, t)
    case Literal(_) => true
    case Plain(t) => '\'' !in t && '\\' !in t
    case Escaped(v) => '\'' !in v && (d.scs ==> '\\' !in v)
    case BitString(t) => '\'' !in t
    case Sym(o) => IsSymbolText(d, o)
    case P(c) => IsPunctuation(d, c)
    case Raw(_) => false
  }

  /** `p` may be followed directly by `n`: one of them is a space or a punctuation character, or
      an operator meets a number or follows a name. */
  predicate Adjacent(p: Piece, n: Piece) {
    || p.Sp? || p.P? || n.Sp?
    || (n.P? && (p.Number? ==> n.c != '.'))
    || (p.Sym? && n.Number?) || (p.Name? && n.Sym?)
  }

  predicate WellSpaced(d: Dialect, ps: seq<Piece>) {
    && (forall i :: 0 <= i < |ps| ==> PieceOk(d, ps[i]))
    && (forall i :: 0 <= i < |ps| - 1 ==> Adjacent(ps[i], ps[i + 1]))
  }

  /** The text after `p` does not run into it. */
  predicate Clear(d: Dialect, p: Piece, rest: string) {
    rest == "" || p.Sp? || p.P? ||
    var c := rest[0];
    if p.Sym? then !IsOperatorChar(d, c)
    else !IsWordChar(c) && c != d.q && c != '\'' && (p.Number? ==> c != '.')
  }

  lemma {:induction false} FirstCharClear(d: Dialect, p: Piece, ps: seq<Piece>)
    requires ValidDialect(d)
    requires ps != [] ==> PieceOk(d, ps[0]) && Adjacent(p, ps[0])
    ensures Clear(d, p, Render(d, ps))
  {
    if ps != [] && !p.Sp? && !p.P? {
      var n := ps[0];
      var text := PieceText(d, n);
      assert text != "" && Render(d, ps)[0] == text[0];
    }
  }

  lemma FractionExtends(d: Dialect, u: string, rest: string)
    requires rest != "" ==> !IsDigit(rest[0]) && rest[0] != '.'
    ensures FractionLen(d, u + rest) == FractionLen(d, u)
  {
    if u == "" {
      assert u + rest == rest;
    } else {
      assert (u + rest)[1..] == u[1..] + rest;
      RunExtends(d, u[1..], rest);
    }
  }

  lemma ExponentExtends(d: Dialect, v: string, rest: string)
    requires rest != "" ==> !IsWordChar(rest[0])
    requires ExponentLen(d, v) == |v|
    ensures ExponentLen(d, v + rest) == |v|
  {
    if v == "" {
      assert v + rest == rest;
    } else {
      var sign := if |v| > 1 && (v[1] == '+' || v[1] == '-') then 1 else 0;
      assert (v + rest)[1 + sign..] == v[1 + sign..] + rest;
      RunExtends(d, v[1 + sign..], rest);
    }
  }

  lemma ScanNumber(d: Dialect, t: string, rest: string)
    requires IsUnsignedNumber(d, t)
    requires rest != "" ==> !IsWordChar(rest[0]) && rest[0] != '.'
    ensures NumberLen(d, t + rest) == |t|
  {
    var whole := Run(d, DigitClass, t);
    var frac := FractionLen(d, t[whole..]);
    RunExtends(d, t, rest);
    FractionExtends(d, t[whole..], rest);
    ExponentExtends(d, t[whole + frac..], rest);
    NumberParts(d, t, rest, whole, frac);
  }

  lemma NumberParts(d: Dialect, t: string, rest: string, whole: nat, frac: nat)
    requires whole + frac <= |t| && Run(d, DigitClass, t + rest) == whole
    requires FractionLen(d, t[whole..] + rest) == frac
    requires ExponentLen(d, t[whole + frac..] + rest) == |t| - whole - frac
    ensures NumberLen(d, t + rest) == |t|
  {
    assert (t + rest)[whole..] == t[whole..] + rest;
    assert (t + rest)[whole + frac..] == t[whole + frac..] + rest;
  }

  lemma {:induction false} RunExtends(d: Dialect, a: string, rest: string)
    requires rest != "" ==> !IsDigit(rest[0])
    ensures Run(d, DigitClass, a + rest) == Run(d, DigitClass, a)
  {
    if a == "" {
      assert a + rest == rest;
    } else {
      assert (a + rest)[1..] == a[1..] + rest;
      RunExtends(d, a[1..], rest);
    }
  }

  lemma {:induction false} FoldBare(s: string)
    requires forall i :: 0 <= i < |s| ==> IsBareChar(s[i])
    ensures Fold(s) == s
  {
    if s != "" {
      FoldBare(s[1..]);
    }
  }

  lemma ScanName(d: Dialect, ident: string, rest: string)
    requires ValidDialect(d) && Clear(d, Name(ident), rest)
    ensures Next(d, QuoteIdent(d.keywords, d.q, ident) + rest) == Some((Ident(ident), rest))
  {
    var s := QuoteIdent(d.keywords, d.q, ident) + rest;
    if IsPlainIdentifier(ident) && ident !in d.keywords {
      RunStops(d, WordClass, ident, rest);
      FoldBare(ident);
      assert s[..|ident|] == ident && s[|ident|..] == rest;
    } else {
      assert s[1..] == DoubleChars(ident, d.q, false) + [d.q] + rest;
      ReadUndoesDoubling(ident, d.q, false, false, rest);
    }
  }

  lemma ScanWord(d: Dialect, w: string, rest: string)
    requires ValidDialect(d) && IsWordText(w) && Clear(d, Word(w), rest)
    ensures Next(d, w + rest) == Some((WordToken(w), rest))
  {
    var s := w + rest;
    RunStops(d, WordClass, w, rest);
    assert s[..|w|] == w && s[|w|..] == rest;
    assert |s| > 1 ==> s[1] != '\'';
  }

  lemma {:induction false} DoublingNothing(t: string)
    requires '\'' !in t && '\\' !in t
    ensures DoubleChars(t, '\'', true) == t
  {
    if t != "" {
      assert t == [t[0]] + t[1..];
      DoublingNothing(t[1..]);
    }
  }

  lemma {:induction false} DoublingNoQuote(t: string)
    requires '\'' !in t
    ensures DoubleChars(t, '\'', false) == t
  {
    if t != "" {
      assert t == [t[0]] + t[1..];
      DoublingNoQuote(t[1..]);
    }
  }

  lemma ScanQuoted(d: Dialect, p: Piece, rest: string)
    requires ValidDialect(d) && PieceOk(d, p) && Clear(d, p, rest)
    requires p.Literal? || p.Plain? || p.Escaped? || p.BitString?
    ensures Next(d, PieceText(d, p) + rest) == Some((PieceTokens(p)[0], rest))
  {
    match p {
      case Literal(v) =>
        StringLiteralRoundTrip(d.scs, v, rest);
      case Plain(t) =>
        DoublingNothing(t);
        ScanEscaped(d, t, rest);
      case Escaped(v) =>
        ScanEscaped(d, v, rest);
      case BitString(t) =>
        ScanBits(d, t, rest);
    }
  }

  lemma ScanEscaped(d: Dialect, v: string, rest: string)
    requires ValidDialect(d) && '\'' !in v && (d.scs ==> '\\' !in v) && Clear(d, Escaped(v), rest)
    ensures Next(d, "'" + DoubleChars(v, '\'', true) + "'" + rest) == Some((Str(v), rest))
  {
    var s := "'" + DoubleChars(v, '\'', true) + "'" + rest;
    assert s[1..] == DoubleChars(v, '\'', true) + ['\''] + rest;
    ReadUndoesDoubling(v, '\'', true, !d.scs, rest);
  }

  lemma ScanBits(d: Dialect, t: string, rest: string)
    requires ValidDialect(d) && '\'' !in t && Clear(d, BitString(t), rest)
    ensures Next(d, "B'" + t + "'" + rest) == Some((Bits(t), rest))
  {
    var s := "B'" + t + "'" + rest;
    DoublingNoQuote(t);
    assert s[2..] == t + ['\''] + rest;
    ReadUndoesDoubling(t, '\'', false, false, rest);
  }

  /** A text that starts with a digit is scanned as a number. */
  lemma DigitStarts(d: Dialect, s: string)
    requires ValidDialect(d) && s != "" && IsDigit(s[0])
    ensures Next(d, s) == Some((Num(s[..NumberLen(d, s)]), s[NumberLen(d, s)..]))
  {
  }

  lemma ScanNumberPiece(d: Dialect, t: string, rest: string)
    requires ValidDialect(d) && IsUnsignedNumber(d, t) && Clear(d, Number(t), rest)
    ensures Next(d, t + rest) == Some((Num(t), rest))
  {
    var s := t + rest;
    ScanNumber(d, t, rest);
    assert s[..|t|] == t && s[|t|..] == rest;
    DigitStarts(d, s);
  }

  lemma ScanSymbol(d: Dialect, o: string, rest: string)
    requires ValidDialect(d) && IsSymbolText(d, o) && Clear(d, Sym(o), rest)
    ensures Next(d, o + rest) == Some((Oper(o), rest))
  {
    var s := o + rest;
    RunStops(d, OperatorClass, o, rest);
    assert InClass(d, OperatorClass, o[0]);
    assert IsOperatorChar(d, s[0]);
    assert s[..|o|] == o && s[|o|..] == rest;
  }

  lemma ScanPunctuation(d: Dialect, c: char, rest: string)
    requires ValidDialect(d) && IsPunctuation(d, c)
    ensures Next(d, [c] + rest) == Some((Punct(c), rest))
  {
    assert ([c] + rest)[1..] == rest;
  }

  lemma ScanPiece(d: Dialect, p: Piece, rest: string)
    requires ValidDialect(d) && PieceOk(d, p) && Clear(d, p, rest) && !p.Sp?
    ensures Next(d, PieceText(d, p) + rest) == Some((PieceTokens(p)[0], rest))
  {
    match p {
      case Name(ident) => ScanName(d, ident, rest);
      case Word(w) => ScanWord(d, w, rest);
      case Number(t) => ScanNumberPiece(d, t, rest);
      case Literal(_) => ScanQuoted(d, p, rest);
      case Plain(_) => ScanQuoted(d, p, rest);
      case Escaped(_) => ScanQuoted(d, p, rest);
      case BitString(_) => ScanQuoted(d, p, rest);
      case Sym(o) => ScanSymbol(d, o, rest);
      case P(c) => ScanPunctuation(d, c, rest);
    }
  }

  lemma PieceStartsVisibly(d: Dialect, p: Piece)
    requires ValidDialect(d) && PieceOk(d, p) && !p.Sp?
    ensures PieceText(d, p) != "" && PieceText(d, p)[0] != ' '
  {
  }

  /** Scanning a rendered run of well-spaced pieces yields exactly the tokens of the pieces. */
  lemma {:induction false} LexRender(d: Dialect, ps: seq<Piece>)
    requires ValidDialect(d) && WellSpaced(d, ps)
    ensures Lex(d, Render(d, ps)) == Some(TokensOf(ps))
  {
    if ps != [] {
      var p, rest := ps[0], Render(d, ps[1..]);
      RestSpaced(d, ps);
      LexRender(d, ps[1..]);
      if p.Sp? {
        assert Render(d, ps)[1..] == rest;
        assert PieceTokens(p) + TokensOf(ps[1..]) == TokensOf(ps[1..]);
      } else {
        PieceStartsVisibly(d, p);
        assert |ps| > 1 ==> Adjacent(ps[0], ps[1]);
        FirstCharClear(d, p, ps[1..]);
        ScanPiece(d, p, rest);
      }
    }
  }

  /** So with more text after a run that ends in a space or a punctuation character. */
  lemma {:induction false} LexThen(d: Dialect, ps: seq<Piece>, rest: string)
    requires ValidDialect(d) && WellSpaced(d, ps)
    requires ps != [] ==> ps[|ps| - 1].Sp? || ps[|ps| - 1].P?
    ensures Lex(d, Render(d, ps) + rest) == Push(TokensOf(ps), Lex(d, rest))
  {
    if ps == [] {
      assert Render(d, ps) + rest == rest;
      PushNothing(Lex(d, rest));
    } else {
      var p, more := ps[0], Render(d, ps[1..]) + rest;
      RestSpaced(d, ps);
      LexThen(d, ps[1..], rest);
      JoinText(PieceText(d, p), Render(d, ps[1..]), rest);
      LexOne(d, ps, more, rest);
      PushTwice(PieceTokens(p), TokensOf(ps[1..]), Lex(d, rest));
    }
  }

  lemma JoinText(a: string, b: string, c: string)
    ensures (a + b) + c == a + (b + c)
  {
  }

  lemma RestSpaced(d: Dialect, ps: seq<Piece>)
    requires WellSpaced(d, ps) && ps != []
    ensures WellSpaced(d, ps[1..])
  {
    forall i | 0 <= i < |ps| - 2
      ensures Adjacent(ps[1..][i], ps[1..][i + 1])
    {
      assert Adjacent(ps[i + 1], ps[i + 2]);
    }
  }

  /** The first piece of the run. */
  lemma LexOne(d: Dialect, ps: seq<Piece>, more: string, rest: string)
    requires ValidDialect(d) && WellSpaced(d, ps) && ps != [] && (ps[|ps| - 1].Sp? || ps[|ps| - 1].P?)
    requires more == Render(d, ps[1..]) + rest
    ensures Lex(d, PieceText(d, ps[0]) + more) == Push(PieceTokens(ps[0]), Lex(d, more))
  {
    var p := ps[0];
    if p.Sp? {
      assert (PieceText(d, p) + more)[1..] == more;
      PushNothing(Lex(d, more));
    } else {
      PieceStartsVisibly(d, p);
      ClearThen(d, ps, more, rest);
      ScanPiece(d, p, more);
    }
  }

  lemma ClearThen(d: Dialect, ps: seq<Piece>, more: string, rest: string)
    requires ValidDialect(d) && WellSpaced(d, ps) && ps != [] && (ps[|ps| - 1].Sp? || ps[|ps| - 1].P?)
    requires more == Render(d, ps[1..]) + rest
    ensures Clear(d, ps[0], more)
  {
    if |ps| > 1 {
      assert Adjacent(ps[0], ps[1]);
      RestSpaced(d, ps);
      FirstCharClear(d, ps[0], ps[1..]);
      if !ps[1].Sp? {
        PieceStartsVisibly(d, ps[1]);
      }
      assert Render(d, ps[1..]) != "" && more[0] == Render(d, ps[1..])[0];
    }
  }

  lemma PushNothing(r: Option<seq<Token>>)
    ensures Push([], r) == r
  {
    if r.Some? {
      assert [] + r.value == r.value;
    }
  }

  lemma PushTwice(a: seq<Token>, b: seq<Token>, r: Option<seq<Token>>)
    ensures Push(a, Push(b, r)) == Push(a + b, r)
  {
    if r.Some? {
      assert a + (b + r.value) == (a + b) + r.value;
    }
  }

  // ---------- joining runs of pieces ----------

  /** Two well-spaced runs join into one when their touching ends may touch. */
  lemma JoinSpaced(d: Dialect, a: seq<Piece>, b: seq<Piece>)
    requires WellSpaced(d, a) && WellSpaced(d, b)
    requires a != [] && b != [] ==> Adjacent(a[|a| - 1], b[0])
    ensures WellSpaced(d, a + b)
  {
    var ps := a + b;
    forall i | 0 <= i < |ps| - 1
      ensures Adjacent(ps[i], ps[i + 1])
    {
      if i < |a| - 1 {
        assert Adjacent(a[i], a[i + 1]);
      } else if i >= |a| {
        assert Adjacent(b[i - |a|], b[i - |a| + 1]);
      }
    }
  }
}
