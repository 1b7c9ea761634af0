/** A reader of SQL expressions: the remote server's side of the deparsed text. It is an ordinary
    precedence parser over tokens: OR binds looser than AND, AND looser than NOT, NOT looser than
    the predicates, and a predicate takes at most one operator between two operands.
 */
module Reader {
  import opened Nodes
  import opened Tokens

  datatype SqlHead =
    | HCall(schema: Option<string>, name: string)
    | HStar(name: string)
    | HUnary(symbol: string)
    | HBinary(symbol: string)
    | HDistinct
    | HAnd
    | HOr
    | HNot
    | HIsNull
    | HIsNotNull
    | HArray
    | HIn(negated: bool)
      // args[0] is the container; then each subscript's bounds, two where it is a slice
    | HSubscript(slices: seq<bool>)

  datatype Sql =
    | Col(name: string)
    | NumLit(text: string)
    | StrLit(value: string)
    | BitLit(bits: string)
    | BoolLit(b: bool)
    | NullLit
    | App(head: SqlHead, args: seq<Sql>)

  datatype PR<+T> = Fail | Ok(v: T, rest: seq<Token>)

  const LPAREN := Punct('(')
  const RPAREN := Punct(')')
  const LBRACK := Punct('[')
  const RBRACK := Punct(']')
  const COMMA := Punct(',')
  const DOT := Punct('.')
  const COLON := Punct(':')

  /** The token at the front, or a token no rule looks for. */
  function Front(ts: seq<Token>): Token {
    if ts == [] then Punct(' ') else ts[0]
  }

  function Second(ts: seq<Token>): Token {
    if |ts| < 2 then Punct(' ') else ts[1]
  }

  /** Pass a required token. */
  function Expect<T>(t: Token, v: T, ts: seq<Token>): (r: PR<T>)
    ensures r.Ok? ==> |r.rest| < |ts|
  {
    if ts != [] && ts[0] == t then Ok(v, ts[1..]) else Fail
  }

  // ---------- expressions ----------

  function Primary(ts: seq<Token>): (r: PR<Sql>)
    ensures r.Ok? ==> |r.rest| < |ts|
    decreases |ts|, 0
  {
    if ts == [] then Fail
    else
      match ts[0]
      case Ident(n) =>
        if Second(ts) == LPAREN then Arguments(None, n, ts[2..])
        else if |ts| > 3 && ts[1] == DOT && ts[2].Ident? && ts[3] == LPAREN then
          Arguments(Some(n), ts[2].name, ts[4..])
        else Ok(Col(n), ts[1..])
      case Num(t) => Ok(NumLit(t), ts[1..])
      case Str(v) => Ok(StrLit(v), ts[1..])
      case Bits(b) => Ok(BitLit(b), ts[1..])
      case Oper(_) => Fail
      case Kw(w) =>
        if w == "null" then Ok(NullLit, ts[1..])
        else if w == "true" || w == "false" then Ok(BoolLit(w == "true"), ts[1..])
        else if w != "array" || Second(ts) != LBRACK then Fail
        else if Front(ts[2..]) == RBRACK then Ok(App(HArray, []), ts[3..])
        else (
          match Items(ts[2..])
          case Fail => Fail
          case Ok(es, rest) => Expect(RBRACK, App(HArray, es), rest))
      case Punct(c) =>
        if c != '(' then Fail
        else
          match Body(ts[1..])
          case Fail => Fail
          case Ok(e, rest) => Expect(RPAREN, e, rest)
  }

  /** What follows the opening parenthesis of a function call. */
  function Arguments(schema: Option<string>, name: string, ts: seq<Token>): (r: PR<Sql>)
    ensures r.Ok? ==> |r.rest| < |ts|
    decreases |ts|, 8
  {
    if Front(ts) == RPAREN && ts != [] then Ok(App(HCall(schema, name), []), ts[1..])
    else if Front(ts) == Oper("*") && Second(ts) == RPAREN && schema.None? then
      Ok(App(HStar(name), []), ts[2..])
    else
      match Items(ts)
      case Fail => Fail
      case Ok(es, rest) => Expect(RPAREN, App(HCall(schema, name), es), rest)
  }

  /** One or more expressions between commas. */
  function Items(ts: seq<Token>): (r: PR<seq<Sql>>)
    ensures r.Ok? ==> |r.rest| < |ts|
    decreases |ts|, 7
  {
    match Body(ts)
    case Fail => Fail
    case Ok(e, rest) =>
      if Front(rest) == COMMA && rest != [] then
        match Items(rest[1..])
        case Fail => Fail
        case Ok(es, more) => Ok([e] + es, more)
      else Ok([e], rest)
  }

  function Body(ts: seq<Token>): (r: PR<Sql>)
    ensures r.Ok? ==> |r.rest| < |ts|
    decreases |ts|, 6
  {
    match Conjunction(ts)
    case Fail => Fail
    case Ok(e, rest) =>
      match OrTail(rest)
      case Fail => Fail
      case Ok(es, more) => Ok(if es == [] then e else App(HOr, [e] + es), more)
  }

  function OrTail(ts: seq<Token>): (r: PR<seq<Sql>>)
    ensures r.Ok? ==> |r.rest| <= |ts|
    decreases |ts|, 0
  {
    if ts == [] || ts[0] != Kw("or") then Ok([], ts)
    else
      match Conjunction(ts[1..])
      case Fail => Fail
      case Ok(e, rest) =>
        match OrTail(rest)
        case Fail => Fail
        case Ok(es, more) => Ok([e] + es, more)
  }

  function Conjunction(ts: seq<Token>): (r: PR<Sql>)
    ensures r.Ok? ==> |r.rest| < |ts|
    decreases |ts|, 5
  {
    match Negation(ts)
    case Fail => Fail
    case Ok(e, rest) =>
      match AndTail(rest)
      case Fail => Fail
      case Ok(es, more) => Ok(if es == [] then e else App(HAnd, [e] + es), more)
  }

  function AndTail(ts: seq<Token>): (r: PR<seq<Sql>>)
    ensures r.Ok? ==> |r.rest| <= |ts|
    decreases |ts|, 0
  {
    if ts == [] || ts[0] != Kw("and") then Ok([], ts)
    else
      match Negation(ts[1..])
      case Fail => Fail
      case Ok(e, rest) =>
        match AndTail(rest)
        case Fail => Fail
        case Ok(es, more) => Ok([e] + es, more)
  }

  function Negation(ts: seq<Token>): (r: PR<Sql>)
    ensures r.Ok? ==> |r.rest| < |ts|
    decreases |ts|, 4
  {
    if ts != [] && ts[0] == Kw("not") then
      match Negation(ts[1..])
      case Fail => Fail
      case Ok(e, rest) => Ok(App(HNot, [e]), rest)
    else Predicate(ts)
  }

  function Predicate(ts: seq<Token>): (r: PR<Sql>)
    ensures r.Ok? ==> |r.rest| < |ts|
    decreases |ts|, 3
  {
    match Operand(ts)
    case Fail => Fail
    case Ok(e, rest) =>
      if rest == [] then Ok(e, rest)
      else if rest[0].Oper? then Infix(HBinary(rest[0].symbol), e, rest[1..])
      else if rest[0] == Kw("like") then Infix(HBinary("LIKE"), e, rest[1..])
      else if rest[0] == Kw("in") then InList(false, e, rest[1..])
      else if rest[0] == Kw("not") && Second(rest) == Kw("like") then
        Infix(HBinary("NOT LIKE"), e, rest[2..])
      else if rest[0] == Kw("not") && Second(rest) == Kw("in") then InList(true, e, rest[2..])
      else if rest[0] == Kw("is") then
        if Second(rest) == Kw("null") then Ok(App(HIsNull, [e]), rest[2..])
        else if |rest| > 2 && rest[1] == Kw("not") && rest[2] == Kw("null") then
          Ok(App(HIsNotNull, [e]), rest[3..])
        else if |rest| > 2 && rest[1] == Kw("distinct") && rest[2] == Kw("from") then
          Infix(HDistinct, e, rest[3..])
        else Fail
      else Ok(e, rest)
  }

  /** The right operand of a binary predicate. */
  function Infix(h: SqlHead, left: Sql, ts: seq<Token>): (r: PR<Sql>)
    ensures r.Ok? ==> |r.rest| < |ts|
    decreases |ts|, 8
  {
    match Operand(ts)
    case Fail => Fail
    case Ok(e, rest) => Ok(App(h, [left, e]), rest)
  }

  /** The parenthesized list of an IN predicate. */
  function InList(negated: bool, left: Sql, ts: seq<Token>): (r: PR<Sql>)
    ensures r.Ok? ==> |r.rest| < |ts|
    decreases |ts|, 8
  {
    if ts == [] || ts[0] != LPAREN then Fail
    else
      match Items(ts[1..])
      case Fail => Fail
      case Ok(es, rest) => Expect(RPAREN, App(HIn(negated), [left] + es), rest)
  }

  /** At most one prefix operator before an indexed primary. */
  function Operand(ts: seq<Token>): (r: PR<Sql>)
    ensures r.Ok? ==> |r.rest| < |ts|
    decreases |ts|, 2
  {
    if ts != [] && ts[0].Oper? then
      match Indexed(ts[1..])
      case Fail => Fail
      case Ok(e, rest) => Ok(App(HUnary(ts[0].symbol), [e]), rest)
    else Indexed(ts)
  }

  /** A primary and its subscripts. */
  function Indexed(ts: seq<Token>): (r: PR<Sql>)
    ensures r.Ok? ==> |r.rest| < |ts|
    decreases |ts|, 1
  {
    match Primary(ts)
    case Fail => Fail
    case Ok(e, rest) =>
      match Subscripts(rest)
      case Fail => Fail
      case Ok((slices, bounds), more) =>
        Ok(if slices == [] then e else App(HSubscript(slices), [e] + bounds), more)
  }

  /** Subscripts in brackets: which of them are slices, and all their bounds. */
  function Subscripts(ts: seq<Token>): (r: PR<(seq<bool>, seq<Sql>)>)
    ensures r.Ok? ==> |r.rest| <= |ts|
    decreases |ts|, 0
  {
    if ts == [] || ts[0] != LBRACK then Ok(([], []), ts)
    else
      match Bounds(ts[1..])
      case Fail => Fail
      case Ok((slice, es), rest) =>
        match Subscripts(rest)
        case Fail => Fail
        case Ok((slices, bounds), more) => Ok(([slice] + slices, es + bounds), more)
  }

  /** One bound, or two with a colon between them, and the closing bracket. */
  function Bounds(ts: seq<Token>): (r: PR<(bool, seq<Sql>)>)
    ensures r.Ok? ==> |r.rest| < |ts|
    decreases |ts|, 8
  {
    match Body(ts)
    case Fail => Fail
    case Ok(e, rest) =>
      if Front(rest) != COLON || rest == [] then Expect(RBRACK, (false, [e]), rest)
      else
        match Body(rest[1..])
        case Fail => Fail
        case Ok(f, more) => Expect(RBRACK, (true, [e, f]), more)
  }

  // ---------- how the levels nest ----------

  /** The token ends a predicate operand: no rule continues over it. */
  predicate Ends(t: Token) {
    t == RPAREN || t == RBRACK || t == COMMA || t == COLON || t == Punct(' ') || t == Kw("from") || t == Kw("where")
    || t == Kw("limit") || t == Kw("offset")
  }

  /** The token is no infix operator and starts no postfix one. */
  predicate Stops(t: Token) {
    Ends(t) || t == Kw("and") || t == Kw("or")
  }

  /** A primary without subscripts is an operand. */
  lemma PrimaryIsOperand(ts: seq<Token>, e: Sql, rest: seq<Token>)
    requires Primary(ts) == Ok(e, rest) && Front(rest) != LBRACK
    ensures Operand(ts) == Ok(e, rest)
    ensures ts != [] && !ts[0].Oper? && ts[0] != Kw("not")
  {
    assert Subscripts(rest) == Ok(([], []), rest);
    assert Indexed(ts) == Ok(e, rest);
  }

  lemma OperandStart(ts: seq<Token>)
    requires Operand(ts).Ok?
    ensures ts != [] && ts[0] != Kw("not")
  {
    if ts == [] || !ts[0].Oper? {
      assert Indexed(ts).Ok? && Primary(ts).Ok?;
    }
  }

  /** An operand with nothing after it is a predicate. */
  lemma OperandIsPredicate(ts: seq<Token>, e: Sql, rest: seq<Token>)
    requires Operand(ts) == Ok(e, rest) && Stops(Front(rest))
    ensures Predicate(ts) == Ok(e, rest) && Negation(ts) == Ok(e, rest)
  {
    OperandStart(ts);
  }

  /** A predicate on its own is a whole body. */
  lemma PredicateIsBody(ts: seq<Token>, e: Sql, rest: seq<Token>)
    requires Predicate(ts) == Ok(e, rest)
    requires ts[0] != Kw("not") && Ends(Front(rest))
    ensures Negation(ts) == Ok(e, rest) && Conjunction(ts) == Ok(e, rest) && Body(ts) == Ok(e, rest)
  {
    assert AndTail(rest) == Ok([], rest);
    assert OrTail(rest) == Ok([], rest);
  }

  /** A primary that is followed by nothing that could extend it is a whole body. */
  lemma PrimaryIsBody(ts: seq<Token>, e: Sql, rest: seq<Token>)
    requires Primary(ts) == Ok(e, rest)
    requires Ends(Front(rest))
    ensures Body(ts) == Ok(e, rest) && Negation(ts) == Ok(e, rest)
  {
    PrimaryIsOperand(ts, e, rest);
    OperandIsPredicate(ts, e, rest);
    PredicateIsBody(ts, e, rest);
  }

  /** A primary in front of AND or OR is a whole negation level. */
  lemma PrimaryIsNegation(ts: seq<Token>, e: Sql, rest: seq<Token>)
    requires Primary(ts) == Ok(e, rest)
    requires Stops(Front(rest))
    ensures Negation(ts) == Ok(e, rest) && Predicate(ts) == Ok(e, rest)
  {
    PrimaryIsOperand(ts, e, rest);
    OperandIsPredicate(ts, e, rest);
  }
}
