/** The lexical level: quoting identifiers and string literals the way the deparser does, and a
    scanner that reads SQL text back into tokens (sections 5.2 and 5.3 of ISO/IEC 9075-2, plus
    PostgreSQL's E'...' literals).
 */
module Lexical {
  import opened Nodes

  /** The growing output buffer. */
  class StringInfo {
    var data: string

    constructor ()
      ensures data == ""
    {
      data := "";
    }

    method AppendChar(c: char)
      modifies this
      ensures data == old(data) + [c]
    {
      data := data + [c];
    }

    method AppendString(s: string)
      modifies this
      ensures data == old(data) + s
    {
      data := data + s;
    }
  }

  // ---------- characters ----------

  predicate IsDigit(c: char) { '0' <= c <= '9' }

  predicate IsLower(c: char) { 'a' <= c <= 'z' }

  predicate IsUpper(c: char) { 'A' <= c <= 'Z' }

  /** The characters an identifier may hold without being quoted. */
  predicate IsBareChar(c: char) { IsLower(c) || IsDigit(c) || c == '_' }

  predicate IsWordChar(c: char) { IsBareChar(c) || IsUpper(c) }

  predicate IsSymbolChar(c: char) {
    || c == '+' || c == '-' || c == '*' || c == '/' || c == '<' || c == '>' || c == '=' || c == '~'
    || c == '!' || c == '@' || c == '#' || c == '%' || c == '^' || c == '&' || c == '|'
  }

  predicate IsBracketing(c: char) {
    c == '(' || c == ')' || c == '[' || c == ']' || c == ',' || c == '.' || c == ':'
  }

  predicate IsOperatorChar(d: Dialect, c: char) {
    IsSymbolChar(c) || (c == '?' && !d.placeholders)
  }

  predicate IsPunctuation(d: Dialect, c: char) {
    IsBracketing(c) || (c == '?' && d.placeholders)
  }

  function FoldChar(c: char): char {
    if IsUpper(c) then (c as int + 32) as char else c
  }

  function Fold(s: string): (r: string)
    ensures |r| == |s|
  {
    if s == "" then "" else [FoldChar(s[0])] + Fold(s[1..])
  }

  /** Words the reader never takes for an identifier. */
  const RESERVED: set<string> := {
    "null", "is", "not", "and", "or", "distinct", "from", "like", "true", "false", "array", "in",
    "select", "where", "limit", "offset", "into", "default"}

  /** How a remote server reads text: its identifier quote, its `standard_conforming_strings`
      setting, the keywords that are not unreserved, and whether `?` is a placeholder. */
  datatype Dialect = Dialect(q: char, scs: bool, keywords: set<string>, placeholders: bool)

  /** The quote character has no other lexical role, and the quoted keywords include the
      reader's reserved words. */
  ghost predicate ValidDialect(d: Dialect) {
    && !IsWordChar(d.q) && d.q != ' ' && d.q != '\'' && d.q != '?'
    && !IsSymbolChar(d.q) && !IsBracketing(d.q)
    && RESERVED <= d.keywords
  }

  // ---------- doubling ----------

  /** `s` with every `q`, and every backslash if asked, written twice. */
  function DoubleChars(s: string, q: char, backslash: bool): string {
    if s == "" then ""
    else (if s[0] == q || (backslash && s[0] == '\\') then [s[0], s[0]] else [s[0]])
         + DoubleChars(s[1..], q, backslash)
  }

  lemma {:induction false} DoubleCharsSnoc(s: string, c: char, q: char, backslash: bool)
    ensures DoubleChars(s + [c], q, backslash) ==
            DoubleChars(s, q, backslash) + (if c == q || (backslash && c == '\\') then [c, c] else [c])
  {
    if s == "" {
      assert s + [c] == [c];
    } else {
      assert (s + [c])[1..] == s[1..] + [c];
      DoubleCharsSnoc(s[1..], c, q, backslash);
    }
  }

  function Unescape(c: char): char {
    if c == 'n' then '\n' else if c == 't' then '\t' else if c == 'r' then '\r' else c
  }

  /** Read the rest of a quoted form, after its opening `q`: the value, and the text that follows
      the closing quote. With `esc`, backslash escapes are honoured. */
  function ReadQuoted(q: char, esc: bool, s: string): (r: Option<(string, string)>)
    ensures r.Some? ==> |r.value.1| < |s|
  {
    if s == "" then None
    else if s[0] == q then
      if |s| > 1 && s[1] == q then Prepend(q, ReadQuoted(q, esc, s[2..]))
      else Some(("", s[1..]))
    else if esc && s[0] == '\\' then
      if |s| > 1 then Prepend(Unescape(s[1]), ReadQuoted(q, esc, s[2..])) else None
    else Prepend(s[0], ReadQuoted(q, esc, s[1..]))
  }

  function Prepend(c: char, r: Option<(string, string)>): Option<(string, string)> {
    match r
    case None => None
    case Some((v, rest)) => Some(([c] + v, rest))
  }

  /** Doubling is undone by reading, provided every backslash is doubled when the reader honours
      escapes and single when it does not. */
  lemma {:induction false} ReadUndoesDoubling(s: string, q: char, backslash: bool, esc: bool, rest: string)
    requires q != '\\' || (!esc && !backslash)
    requires '\\' in s ==> backslash == esc
    requires rest != "" ==> rest[0] != q
    ensures ReadQuoted(q, esc, DoubleChars(s, q, backslash) + [q] + rest) == Some((s, rest))
  {
    if s == "" {
      assert DoubleChars(s, q, backslash) + [q] + rest == [q] + rest;
    } else {
      ReadUndoesDoubling(s[1..], q, backslash, esc, rest);
      var doubled := DoubleChars(s[1..], q, backslash);
      assert s == [s[0]] + s[1..];
      if s[0] == q || (backslash && s[0] == '\\') {
        Regrouped([s[0], s[0]], doubled, [q], rest);
        ReadPair(s[0], q, esc, doubled + [q] + rest);
      } else {
        Regrouped([s[0]], doubled, [q], rest);
        ReadSingle(s[0], q, esc, doubled + [q] + rest);
      }
    }
  }

  lemma Regrouped(a: string, b: string, c: string, rest: string)
    ensures a + b + c + rest == a + (b + c + rest)
  {
  }

  /** A doubled quote, or a backslash under escapes, reads as one. */
  lemma ReadPair(c: char, q: char, esc: bool, tail: string)
    requires c == q || (esc && c == '\\')
    ensures ReadQuoted(q, esc, [c, c] + tail) == Prepend(c, ReadQuoted(q, esc, tail))
  {
    assert ([c, c] + tail)[2..] == tail;
  }

  lemma ReadSingle(c: char, q: char, esc: bool, tail: string)
    requires c != q && !(esc && c == '\\')
    ensures ReadQuoted(q, esc, [c] + tail) == Prepend(c, ReadQuoted(q, esc, tail))
  {
    assert ([c] + tail)[1..] == tail;
  }

  // ---------- string literals ----------

  function StringLiteral(val: string): string {
    (if '\\' in val then "E" else "") + "'" + DoubleChars(val, '\'', true) + "'"
  }

  /** Append a SQL string literal representing `val`. */
  method DeparseStringLiteral(buf: StringInfo, val: string)
    modifies buf
    ensures buf.data == old(buf.data) + StringLiteral(val)
  {
    if '\\' in val {
      buf.AppendChar('E');
    }
    buf.AppendChar('\'');
    ghost var start := buf.data;
    var i := 0;
    while i < |val|
      invariant 0 <= i <= |val|
      invariant buf.data == start + DoubleChars(val[..i], '\'', true)
    {
      DoubleCharsSnoc(val[..i], val[i], '\'', true);
      assert val[..i + 1] == val[..i] + [val[i]];
      if val[i] == '\'' || val[i] == '\\' {
        buf.AppendChar(val[i]);
      }
      buf.AppendChar(val[i]);
      i := i + 1;
    }
    assert val[..i] == val;
    buf.AppendChar('\'');
  }

  /** Read a string literal, plain or E'...'. */
  function ReadLiteral(scs: bool, s: string): Option<(string, string)> {
    if |s| >= 1 && s[0] == '\'' then ReadQuoted('\'', !scs, s[1..])
    else if |s| >= 2 && (s[0] == 'E' || s[0] == 'e') && s[1] == '\'' then ReadQuoted('\'', true, s[2..])
    else None
  }

  /** Every value survives, whatever the server's backslash convention; the E form is used exactly
      when there is a backslash. */
  lemma StringLiteralRoundTrip(scs: bool, val: string, rest: string)
    requires rest != "" ==> rest[0] != '\''
    ensures ReadLiteral(scs, StringLiteral(val) + rest) == Some((val, rest))
    ensures StringLiteral(val)[0] == 'E' <==> '\\' in val
  {
    var body := DoubleChars(val, '\'', true);
    var text := StringLiteral(val) + rest;
    if '\\' in val {
      assert text[2..] == body + ['\''] + rest;
      ReadUndoesDoubling(val, '\'', true, true, rest);
    } else {
      assert text[1..] == body + ['\''] + rest;
      ReadWithoutBackslash(val, '\'', !scs, rest);
    }
  }

  lemma {:induction false} ReadWithoutBackslash(s: string, q: char, esc: bool, rest: string)
    requires '\\' !in s && q != '\\'
    requires rest != "" ==> rest[0] != q
    ensures ReadQuoted(q, esc, DoubleChars(s, q, true) + [q] + rest) == Some((s, rest))
  {
    ReadUndoesDoubling(s, q, true, esc, rest);
  }

  // ---------- identifiers ----------

  /** Starts with a lower-case letter or underscore and holds only bare characters. */
  predicate IsPlainIdentifier(ident: string) {
    && ident != "" && (IsLower(ident[0]) || ident[0] == '_')
    && forall i :: 0 <= i < |ident| ==> IsBareChar(ident[i])
  }

  /** `ident` as printed for a server with quote character `q`; a blank means the server cannot
      quote identifiers at all. */
  function QuoteIdent(keywords: set<string>, q: char, ident: string): string {
    if q == ' ' || (IsPlainIdentifier(ident) && ident !in keywords) then ident
    else [q] + DoubleChars(ident, q, false) + [q]
  }

  function CountOf(s: string, c: char): nat {
    if s == "" then 0 else (if s[0] == c then 1 else 0) + CountOf(s[1..], c)
  }

  lemma {:induction false} CountOfSnoc(s: string, x: char, c: char)
    ensures CountOf(s + [x], c) == CountOf(s, c) + (if x == c then 1 else 0)
  {
    if s == "" {
      assert s + [x] == [x];
    } else {
      assert (s + [x])[1..] == s[1..] + [x];
      CountOfSnoc(s[1..], x, c);
    }
  }

  lemma {:induction false} DoubledLength(s: string, q: char)
    ensures |DoubleChars(s, q, false)| == |s| + CountOf(s, q)
  {
    if s != "" {
      DoubledLength(s[1..], q);
    }
  }

  /** The quote characters the counting pass finds: it looks only at characters that cannot stand
      bare. */
  function CountedQuotes(ident: string, q: char): nat {
    if IsBareChar(q) then 0 else CountOf(ident, q)
  }

  /** The bytes a quoted identifier needs, terminator included, are exactly those allocated, for
      every quote character that cannot itself stand bare, and for no other one that occurs in
      the name. */
  lemma QuoteBufferIsExact(keywords: set<string>, q: char, ident: string)
    requires q != ' ' && !(IsPlainIdentifier(ident) && ident !in keywords)
    ensures |QuoteIdent(keywords, q, ident)| + 1 == |ident| + CountedQuotes(ident, q) + 3
            <==> (!IsBareChar(q) || q !in ident)
  {
    DoubledLength(ident, q);
    CountPositive(ident, q);
  }

  lemma {:induction false} CountPositive(s: string, c: char)
    ensures CountOf(s, c) > 0 <==> c in s
  {
    if s != "" {
      assert s == [s[0]] + s[1..];
      CountPositive(s[1..], c);
    }
  }

  /** Quote an identifier only if needed; None where a quote string of another length raises. */
  method QuoteIdentifier(keywords: set<string>, ident: string, qChar: string) returns (r: Option<string>)
    requires |qChar| == 1 ==> !IsBareChar(qChar[0])
    ensures r == if |qChar| == 1 then Some(QuoteIdent(keywords, qChar[0], ident)) else None
  {
    if |qChar| == 1 {
      if qChar == " " {
        return Some(ident);
      }
    } else {
      return None;
    }
    var q := qChar[0];
    var nquotes := 0;
    var safe := |ident| > 0 && (IsLower(ident[0]) || ident[0] == '_');
    ghost var startsWell := safe;
    var i := 0;
    while i < |ident|
      invariant 0 <= i <= |ident|
      invariant safe <==> startsWell && forall k :: 0 <= k < i ==> IsBareChar(ident[k])
      invariant nquotes == CountOf(ident[..i], q)
    {
      CountOfSnoc(ident[..i], ident[i], q);
      assert ident[..i + 1] == ident[..i] + [ident[i]];
      if !IsBareChar(ident[i]) {
        safe := false;
        if ident[i] == q {
          nquotes := nquotes + 1;
        }
      }
      i := i + 1;
    }
    assert ident[..i] == ident;
    if safe && ident in keywords {
      safe := false;
    }
    if safe {
      return Some(ident);
    }
    assert nquotes == CountOf(ident, q);
    var text := EncloseInQuotes(ident, q, nquotes);
    return Some(text);
  }

  lemma NextDoubled(s: string, i: nat, q: char)
    requires i < |s|
    ensures
      var done, next := DoubleChars(s[..i], q, false), if s[i] == q then [q, q] else [s[i]];
      && DoubleChars(s[..i + 1], q, false) == done + next
      && [q] + (done + next) == ([q] + done) + next
      && |done + next| <= |DoubleChars(s, q, false)|
  {
    DoubleCharsSnoc(s[..i], s[i], q, false);
    assert s[..i + 1] == s[..i] + [s[i]];
    PrefixDoublesShorter(s, i + 1, q);
  }

  /** Write the quoted form into a buffer of exactly the size allocated for it. */
  method EncloseInQuotes(ident: string, q: char, nquotes: nat) returns (text: string)
    requires nquotes == CountOf(ident, q)
    ensures text == [q] + DoubleChars(ident, q, false) + [q]
  {
    var result := new char[|ident| + nquotes + 2 + 1];
    DoubledLength(ident, q);
    result[0] := q;
    var optr := 1;
    var i := 0;
    while i < |ident|
      invariant 0 <= i <= |ident|
      invariant 1 <= optr <= 1 + |DoubleChars(ident, q, false)|
      invariant result[..optr] == [q] + DoubleChars(ident[..i], q, false)
    {
      NextDoubled(ident, i, q);
      ghost var done := [q] + DoubleChars(ident[..i], q, false);
      if ident[i] == q {
        result[optr] := q;
        optr := optr + 1;
        assert result[..optr] == done + [q];
      }
      result[optr] := ident[i];
      optr := optr + 1;
      assert result[..optr] == done + (if ident[i] == q then [q, q] else [ident[i]]);
      i := i + 1;
    }
    assert ident[..i] == ident;
    result[optr] := q;
    optr := optr + 1;
    result[optr] := '\0';
    assert optr + 1 == result.Length;
    return result[..optr];
  }

  lemma {:induction false} PrefixDoublesShorter(s: string, k: nat, q: char)
    requires k <= |s|
    ensures |DoubleChars(s[..k], q, false)| <= |DoubleChars(s, q, false)|
  {
    DoubledLength(s[..k], q);
    DoubledLength(s, q);
    CountOfSplit(s[..k], s[k..], q);
    assert s == s[..k] + s[k..];
  }

  lemma {:induction false} CountOfSplit(a: string, b: string, c: char)
    ensures CountOf(a + b, c) == CountOf(a, c) + CountOf(b, c)
  {
    if a == "" {
      assert a + b == b;
    } else {
      assert (a + b)[1..] == a[1..] + b;
      CountOfSplit(a[1..], b, c);
    }
  }

  /** Read a bare or delimited identifier. */
  function ReadIdentifier(q: char, s: string): Option<(string, string)> {
    if s == "" then None
    else if s[0] == q then ReadQuoted(q, false, s[1..])
    else
      var n := BareRun(s);
      if n == 0 then None else Some((s[..n], s[n..]))
  }

  function BareRun(s: string): (n: nat)
    ensures n <= |s|
  {
    if s != "" && IsBareChar(s[0]) then 1 + BareRun(s[1..]) else 0
  }

  lemma {:induction false} BareRunStops(a: string, rest: string)
    requires forall i :: 0 <= i < |a| ==> IsBareChar(a[i])
    requires rest != "" ==> !IsBareChar(rest[0])
    ensures BareRun(a + rest) == |a|
  {
    if a == "" {
      assert a + rest == rest;
    } else {
      assert (a + rest)[1..] == a[1..] + rest;
      BareRunStops(a[1..], rest);
    }
  }

  /** Reading back a printed identifier gives the name, for any quote character that is neither
      blank nor a bare character. */
  lemma IdentifierRoundTrip(keywords: set<string>, q: char, ident: string, rest: string)
    requires q != ' ' && !IsBareChar(q)
    requires rest != "" ==> rest[0] != q && !IsBareChar(rest[0])
    ensures ReadIdentifier(q, QuoteIdent(keywords, q, ident) + rest) == Some((ident, rest))
  {
    if IsPlainIdentifier(ident) && ident !in keywords {
      BareRoundTrip(q, ident, rest);
    } else {
      DelimitedRoundTrip(q, ident, rest);
    }
  }

  lemma BareRoundTrip(q: char, ident: string, rest: string)
    requires q != ' ' && !IsBareChar(q) && IsPlainIdentifier(ident)
    requires rest != "" ==> rest[0] != q && !IsBareChar(rest[0])
    ensures ReadIdentifier(q, ident + rest) == Some((ident, rest))
  {
    var text := ident + rest;
    BareRunStops(ident, rest);
    assert text[..|ident|] == ident && text[|ident|..] == rest;
  }

  lemma DelimitedRoundTrip(q: char, ident: string, rest: string)
    requires q != ' ' && !IsBareChar(q)
    requires rest != "" ==> rest[0] != q
    ensures ReadIdentifier(q, [q] + DoubleChars(ident, q, false) + [q] + rest) == Some((ident, rest))
  {
    var text := [q] + DoubleChars(ident, q, false) + [q] + rest;
    var inner := DoubleChars(ident, q, false) + [q] + rest;
    assert text == [q] + inner;
    ReadUndoesDoubling(ident, q, false, false, rest);
    QuotedReads(q, text, inner);
  }

  lemma QuotedReads(q: char, text: string, inner: string)
    requires text == [q] + inner
    ensures ReadIdentifier(q, text) == ReadQuoted(q, false, inner)
  {
    assert text[1..] == inner;
  }

  // ---------- relation names ----------

  /** `schema.table`, or just the table where the schema option is missing or empty. */
  function RelationName(keywords: set<string>, q: char, schema: Option<string>, name: string): string {
    if schema.None? || schema.value == "" then QuoteIdent(keywords, q, name)
    else QuoteIdent(keywords, q, schema.value) + "." + QuoteIdent(keywords, q, name)
  }

  function ReadRelation(q: char, s: string): Option<(Option<string>, string, string)> {
    match ReadIdentifier(q, s)
    case None => None
    case Some((first, rest)) =>
      if rest != "" && rest[0] == '.' then
        match ReadIdentifier(q, rest[1..])
        case None => None
        case Some((second, more)) => Some((Some(first), second, more))
      else Some((None, first, rest))
  }

  /** A printed relation name reads back as the same schema and table. */
  lemma RelationRoundTrip(keywords: set<string>, q: char, schema: Option<string>, name: string, rest: string)
    requires q != ' ' && q != '.' && !IsBareChar(q)
    requires rest != "" ==> rest[0] != q && rest[0] != '.' && !IsBareChar(rest[0])
    ensures ReadRelation(q, RelationName(keywords, q, schema, name) + rest) ==
            Some((if schema == Some("") then None else schema, name, rest))
  {
    if schema.None? || schema.value == "" {
      IdentifierRoundTrip(keywords, q, name, rest);
    } else {
      var first, second := QuoteIdent(keywords, q, schema.value), QuoteIdent(keywords, q, name);
      assert first + "." + second + rest == first + ("." + (second + rest));
      QualifiedRoundTrip(keywords, q, schema.value, name, rest);
    }
  }

  lemma QualifiedRoundTrip(keywords: set<string>, q: char, schema: string, name: string, rest: string)
    requires q != ' ' && q != '.' && !IsBareChar(q)
    requires rest != "" ==> rest[0] != q && rest[0] != '.' && !IsBareChar(rest[0])
    ensures ReadRelation(q, QuoteIdent(keywords, q, schema) + ("." + (QuoteIdent(keywords, q, name) + rest)))
            == Some((Some(schema), name, rest))
  {
    var second := QuoteIdent(keywords, q, name) + rest;
    IdentifierRoundTrip(keywords, q, schema, "." + second);
    assert ("." + second)[1..] == second;
    IdentifierRoundTrip(keywords, q, name, rest);
  }

  /** Distinct relations never print alike. */
  lemma RelationNamesDistinct(keywords: set<string>, q: char, s1: Option<string>, n1: string,
                              s2: Option<string>, n2: string)
    requires q != ' ' && q != '.' && !IsBareChar(q)
    requires s1 != Some("") && s2 != Some("")
    requires RelationName(keywords, q, s1, n1) == RelationName(keywords, q, s2, n2)
    ensures s1 == s2 && n1 == n2
  {
    RelationRoundTrip(keywords, q, s1, n1, "");
    RelationRoundTrip(keywords, q, s2, n2, "");
    assert RelationName(keywords, q, s1, n1) + "" == RelationName(keywords, q, s1, n1);
    assert RelationName(keywords, q, s2, n2) + "" == RelationName(keywords, q, s2, n2);
  }

  lemma {:induction false} DoublingGrows(s: string, q: char, backslash: bool)
    ensures |DoubleChars(s, q, backslash)| >= |s|
  {
    if s != "" {
      DoublingGrows(s[1..], q, backslash);
    }
  }

  /** A name is left bare exactly where quoting is not supported, or where it starts with a lower-case letter or an
      underscore, holds only those and digits, and is no keyword; every other name is put in quotes. */
  lemma BareIffPlain(keywords: set<string>, q: char, ident: string)
    ensures QuoteIdent(keywords, q, ident) == ident <==>
            q == ' ' ||
            (ident != "" && !('0' <= ident[0] <= '9') && ident !in keywords &&
             forall c :: c in ident ==> 'a' <= c <= 'z' || '0' <= c <= '9' || c == '_')
    ensures QuoteIdent(keywords, q, ident) != ident ==>
              |QuoteIdent(keywords, q, ident)| >= |ident| + 2
              && QuoteIdent(keywords, q, ident)[0] == q
              && QuoteIdent(keywords, q, ident)[|QuoteIdent(keywords, q, ident)| - 1] == q
  {
    DoublingGrows(ident, q, false);
    if IsPlainIdentifier(ident) {
      forall c | c in ident
        ensures IsBareChar(c)
      {
        var i :| 0 <= i < |ident| && ident[i] == c;
      }
    } else if ident != "" && forall c :: c in ident ==> 'a' <= c <= 'z' || '0' <= c <= '9' || c == '_' {
      assert ident[0] in ident;
      assert forall i :: 0 <= i < |ident| ==> ident[i] in ident;
    }
  }

  /** On a server that cannot quote, names are sent raw, so a bare reader recovers exactly the
      names made of bare characters. */
  lemma UnquotedReadsBackIffBare(keywords: set<string>, ident: string)
    ensures ReadIdentifier(' ', QuoteIdent(keywords, ' ', ident)) == Some((ident, ""))
            <==> (ident != "" && forall i :: 0 <= i < |ident| ==> IsBareChar(ident[i]))
  {
    if forall i :: 0 <= i < |ident| ==> IsBareChar(ident[i]) {
      BareRunStops(ident, "");
      assert ident + "" == ident;
    }
    if ident != "" && ident[0] == ' ' && ReadIdentifier(' ', ident) == Some((ident, "")) {
      ReadQuotedShrinks(' ', ident[1..]);
    }
    BareRunIsBare(ident);
  }

  lemma {:induction false} ReadQuotedShrinks(q: char, s: string)
    ensures ReadQuoted(q, false, s).Some? ==>
              |ReadQuoted(q, false, s).value.0| + |ReadQuoted(q, false, s).value.1| < |s|
  {
    if s != "" {
      if s[0] != q {
        ReadQuotedShrinks(q, s[1..]);
      } else if |s| > 1 && s[1] == q {
        ReadQuotedShrinks(q, s[2..]);
      }
    }
  }

  lemma {:induction false} BareRunIsBare(s: string)
    ensures forall i :: 0 <= i < BareRun(s) ==> IsBareChar(s[i])
  {
    if s != "" && IsBareChar(s[0]) {
      BareRunIsBare(s[1..]);
      forall i | 0 <= i < BareRun(s)
        ensures IsBareChar(s[i])
      {
        if i > 0 {
          assert s[1..][i - 1] == s[i];
        }
      }
    }
  }
}
