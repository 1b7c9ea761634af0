/** Array constants: the text PostgreSQL's array output function gives them, and the character
    loop that turns `{...}` into an IN list or an OR/AND chain.
 */
module ArrayText {
  import opened Nodes
  import opened Lexical

  // ---------- array output ----------

  predicate IsArraySpace(c: char) {
    c == ' ' || c == '\t' || c == '\n' || c == '\r' || c == '\U{0B}' || c == '\U{0C}'
  }

  predicate IsArraySpecial(c: char) {
    c == '"' || c == '\\' || c == '{' || c == '}' || c == ',' || IsArraySpace(c)
  }

  predicate NeedsQuotes(x: string) {
    x == "" || Fold(x) == "null" || exists i :: 0 <= i < |x| && IsArraySpecial(x[i])
  }

  function EscapeElement(x: string): string {
    if x == "" then ""
    else (if x[0] == '"' || x[0] == '\\' then ['\\', x[0]] else [x[0]]) + EscapeElement(x[1..])
  }

  function ElementOut(e: Option<string>): string {
    match e
    case None => "NULL"
    case Some(x) => if NeedsQuotes(x) then "\"" + EscapeElement(x) + "\"" else x
  }

  function JoinOut(es: seq<Option<string>>): string {
    if es == [] then ""
    else if |es| == 1 then ElementOut(es[0])
    else ElementOut(es[0]) + "," + JoinOut(es[1..])
  }

  function ArrayOut(es: seq<Option<string>>): string {
    "{" + JoinOut(es) + "}"
  }

  // ---------- the scanning loop ----------

  /** How the loop prints: as an IN list or a chain, with or without quotes, and what it prints
      before each element of a chain. */
  datatype ScanMode = ScanMode(useIn: bool, isstr: bool, useOr: bool, left: string, opname: string)

  function Quote(m: ScanMode): string {
    if m.isstr then "'" else ""
  }

  function ChainWord(m: ScanMode): string {
    if m.useOr then " OR " else " AND "
  }

  function LeftAndOperator(m: ScanMode): string {
    m.left + " " + m.opname + " " + Quote(m)
  }

  /** The loop emits nothing for the enclosing braces and for double quotes. */
  predicate Skipped(ext: string, i: nat)
    requires i < |ext|
  {
    (ext[i] == '{' && i == 0) || (ext[i] == '}' && i == |ext| - 1) || ext[i] == '"'
  }

  /** What the loop emits before it looks at the character at `i`. */
  function ScanLead(m: ScanMode, i: nat, deparseLeft: bool): string {
    if m.useIn then (if i == 0 then Quote(m) else "")
    else if deparseLeft then LeftAndOperator(m)
    else ""
  }

  /** What the loop emits for the character at `i`. */
  function ScanChar(m: ScanMode, ext: string, i: nat): string
    requires i < |ext|
  {
    if Skipped(ext, i) then ""
    else if ext[i] == ',' then
      if m.useIn then Quote(m) + ", " + Quote(m) else Quote(m) + ChainWord(m)
    else [ext[i]]
  }

  /** Whether the left operand is pending after the character at `i`. */
  predicate StillPending(m: ScanMode, ext: string, i: nat, deparseLeft: bool)
    requires i < |ext|
  {
    if m.useIn then deparseLeft else !Skipped(ext, i) && ext[i] == ','
  }

  /** What the loop emits from index `i` on. */
  function ScanFrom(m: ScanMode, ext: string, i: nat, deparseLeft: bool): string
    decreases |ext| - i
  {
    if i >= |ext| then ""
    else
      ScanLead(m, i, deparseLeft) + ScanChar(m, ext, i)
      + ScanFrom(m, ext, i + 1, StillPending(m, ext, i, deparseLeft))
  }

  function ScanText(m: ScanMode, ext: string): string {
    ScanFrom(m, ext, 0, true) + Quote(m)
  }

  // ---------- what the loop makes of array output ----------

  /** What separates two elements in the output. */
  function Between(m: ScanMode): string {
    if m.useIn then Quote(m) + ", " + Quote(m)
    else Quote(m) + ChainWord(m) + LeftAndOperator(m)
  }

  /** How a character of an element is printed: a comma as the end of the element, a double quote as the
      backslash before it, and a backslash as two. */
  function PrintedChar(m: ScanMode, c: char): string {
    if c == ',' then Between(m) else if c == '"' then "\\" else if c == '\\' then "\\\\" else [c]
  }

  function PrintedText(m: ScanMode, x: string): string {
    if x == "" then "" else PrintedChar(m, x[0]) + PrintedText(m, x[1..])
  }

  function ElementText(m: ScanMode, e: Option<string>): string {
    match e
    case None => "NULL"
    case Some(x) => PrintedText(m, x)
  }

  /** The elements with their separators. */
  function Emitted(m: ScanMode, es: seq<Option<string>>): string {
    if es == [] then ""
    else if |es| == 1 then ElementText(m, es[0])
    else ElementText(m, es[0]) + Between(m) + Emitted(m, es[1..])
  }

  function ScanOpening(m: ScanMode): string {
    if m.useIn then Quote(m) else LeftAndOperator(m)
  }

  /** What the loop prints for characters between the braces. */
  function Mapped(m: ScanMode, s: string): string {
    if s == "" then ""
    else (if s[0] == ',' then Between(m) else if s[0] == '"' then "" else [s[0]]) + Mapped(m, s[1..])
  }

  /** One character inside the braces, with no left operand pending. */
  lemma ScanOne(m: ScanMode, ext: string, i: nat, dl: bool)
    requires 0 < i < |ext| - 1 && (dl ==> m.useIn) && ext[i] != ','
    ensures ScanFrom(m, ext, i, dl) == (if ext[i] == '"' then "" else [ext[i]]) + ScanFrom(m, ext, i + 1, dl)
  {
  }

  /** A comma, and in a chain the left operand of the next comparison. */
  lemma ScanComma(m: ScanMode, ext: string, k: nat, j: nat)
    requires 0 < k && j == k + 1 < |ext| && ext[k] == ','
    ensures ScanFrom(m, ext, k, m.useIn) == Between(m) + ScanFrom(m, ext, j, m.useIn)
  {
    var rest := ScanFrom(m, ext, j, m.useIn);
    if !m.useIn {
      LeadThenRest(m, ext, j);
      Regroup("", Quote(m), ChainWord(m), LeftAndOperator(m), rest);
    } else {
      Regroup("", Quote(m), ", ", Quote(m), rest);
    }
  }

  /** A pending left operand is printed first, whatever the character. */
  lemma LeadThenRest(m: ScanMode, ext: string, i: nat)
    requires !m.useIn && i < |ext|
    ensures ScanFrom(m, ext, i, true) == LeftAndOperator(m) + ScanFrom(m, ext, i, false)
  {
  }

  lemma Regroup(e: string, a: string, b: string, c: string, d: string)
    ensures e == "" ==> e + (a + b) + (c + d) == a + b + c + d
    ensures e == "" ==> e + (a + b + c) + d == a + b + c + d
  {
  }

  /** A stretch inside the braces. */
  lemma {:induction false} ScanStretch(m: ScanMode, ext: string, i: nat, t: string, j: nat)
    requires 0 < i && j == i + |t| < |ext| && ext[i..j] == t
    ensures ScanFrom(m, ext, i, m.useIn) == Mapped(m, t) + ScanFrom(m, ext, j, m.useIn)
    decreases |t|
  {
    if t == "" {
      NothingBefore(ScanFrom(m, ext, i, m.useIn));
    } else {
      StretchTail(ext, i, t, j);
      ScanStretch(m, ext, i + 1, t[1..], j);
      ScanFirst(m, ext, i, t[0]);
      Glue(Mapped(m, [t[0]]), Mapped(m, t[1..]), ScanFrom(m, ext, j, m.useIn));
      MappedFirst(m, t);
    }
  }

  lemma ScanFirst(m: ScanMode, ext: string, i: nat, c: char)
    requires 0 < i < |ext| - 1 && ext[i] == c
    ensures ScanFrom(m, ext, i, m.useIn) == Mapped(m, [c]) + ScanFrom(m, ext, i + 1, m.useIn)
  {
    MappedOne(m, c);
    if c == ',' {
      ScanComma(m, ext, i, i + 1);
    } else {
      ScanOne(m, ext, i, m.useIn);
    }
  }

  lemma MappedOne(m: ScanMode, c: char)
    ensures Mapped(m, [c]) == if c == ',' then Between(m) else if c == '"' then "" else [c]
  {
    assert Mapped(m, [c][1..]) == "";
  }

  lemma MappedFirst(m: ScanMode, t: string)
    requires t != ""
    ensures Mapped(m, t) == Mapped(m, [t[0]]) + Mapped(m, t[1..])
  {
    MappedOne(m, t[0]);
  }

  lemma NothingBefore(s: string)
    ensures "" + s == s
  {
  }

  lemma StretchTail(ext: string, i: nat, t: string, j: nat)
    requires j == i + |t| < |ext| && ext[i..j] == t && t != ""
    ensures ext[i] == t[0] && ext[i + 1..j] == t[1..]
  {
  }

  lemma Glue(a: string, b: string, c: string)
    ensures a + (b + c) == a + b + c
  {
  }

  lemma {:induction false} MappedAppend(m: ScanMode, a: string, b: string)
    ensures Mapped(m, a + b) == Mapped(m, a) + Mapped(m, b)
  {
    if a == "" {
      assert a + b == b;
    } else {
      assert (a + b)[1..] == a[1..] + b;
      MappedAppend(m, a[1..], b);
    }
  }

  /** The closing brace. */
  lemma ScanClose(m: ScanMode, ext: string, k: nat, dl: bool)
    requires 0 < k == |ext| - 1 && ext[k] == '}' && (dl ==> m.useIn)
    ensures ScanFrom(m, ext, k, dl) == ""
  {
    assert Skipped(ext, k);
  }

  /** The whole text of an array. */
  lemma ScanBody(m: ScanMode, body: string)
    ensures ScanText(m, "{" + body + "}") == ScanOpening(m) + Mapped(m, body) + Quote(m)
  {
    var ext := "{" + body + "}";
    var k := |ext| - 1;
    assert Skipped(ext, 0);
    assert ScanFrom(m, ext, 1, m.useIn) == Mapped(m, body) by {
      assert ext[1..k] == body;
      ScanStretch(m, ext, 1, body, k);
      ScanClose(m, ext, k, m.useIn);
      Nested(ScanFrom(m, ext, 1, m.useIn), Mapped(m, body), ScanFrom(m, ext, k, m.useIn), "");
    }
  }

  lemma Nested(whole: string, front: string, a: string, b: string)
    ensures whole == front + a && a == b ==> whole == front + b
    ensures whole == front + a && a == "" ==> whole == front
  {
  }

  lemma {:induction false} NothingEscaped(x: string)
    requires forall i :: 0 <= i < |x| ==> x[i] != '"' && x[i] != '\\'
    ensures EscapeElement(x) == x
  {
    if x != "" {
      NothingEscaped(x[1..]);
    }
  }

  /** Escaped by array output and mapped by the loop, an element is printed character by character. */
  lemma {:induction false} MappedEscape(m: ScanMode, x: string)
    ensures Mapped(m, EscapeElement(x)) == PrintedText(m, x)
  {
    if x != "" {
      var first := if x[0] == '"' || x[0] == '\\' then ['\\', x[0]] else [x[0]];
      MappedEscape(m, x[1..]);
      MappedAppend(m, first, EscapeElement(x[1..]));
      MappedPair(m, x[0]);
      MappedOne(m, x[0]);
    }
  }

  lemma MappedPair(m: ScanMode, c: char)
    ensures Mapped(m, ['\\', c]) == "\\" + Mapped(m, [c])
  {
    assert ['\\', c][1..] == [c];
  }

  lemma MappedElement(m: ScanMode, e: Option<string>)
    ensures Mapped(m, ElementOut(e)) == ElementText(m, e)
  {
    match e {
      case None => MappedPlainly(m, "NULL");
      case Some(x) =>
        MappedEscape(m, x);
        if NeedsQuotes(x) {
          MappedAppend(m, "\"" + EscapeElement(x), "\"");
          MappedAppend(m, "\"", EscapeElement(x));
          MappedOne(m, '"');
        } else {
          PlainElement(x);
        }
    }
  }

  lemma PlainElement(x: string)
    requires !NeedsQuotes(x)
    ensures EscapeElement(x) == x
  {
    forall i | 0 <= i < |x|
      ensures x[i] != '"' && x[i] != '\\'
    {
      assert !IsArraySpecial(x[i]);
    }
    NothingEscaped(x);
  }

  lemma {:induction false} MappedPlainly(m: ScanMode, x: string)
    requires ',' !in x && '"' !in x
    ensures Mapped(m, x) == x
  {
    if x != "" {
      MappedPlainly(m, x[1..]);
      assert x == [x[0]] + x[1..];
    }
  }

  lemma {:induction false} MappedJoin(m: ScanMode, es: seq<Option<string>>)
    ensures Mapped(m, JoinOut(es)) == Emitted(m, es)
  {
    if es != [] {
      MappedElement(m, es[0]);
      if |es| > 1 {
        MappedJoin(m, es[1..]);
        MappedAppend(m, ElementOut(es[0]) + ",", JoinOut(es[1..]));
        MappedAppend(m, ElementOut(es[0]), ",");
        MappedOne(m, ',');
      }
    }
  }

  /** The loop over array output prints the elements in order, character by character, with the right
      separators between them: for every array, whatever its elements hold. */
  lemma ScanInvertsArrayOut(m: ScanMode, es: seq<Option<string>>)
    ensures ScanText(m, ArrayOut(es)) == ScanOpening(m) + Emitted(m, es) + Quote(m)
  {
    ScanBody(m, JoinOut(es));
    MappedJoin(m, es);
  }

  /** An empty array has no element, yet the loop always prints one: an empty literal in the IN
      form, a comparison with an empty literal in the chain form. */
  lemma ScanOfEmptyArray(m: ScanMode)
    ensures ScanText(m, ArrayOut([])) == ScanOpening(m) + Quote(m)
  {
    ScanInvertsArrayOut(m, []);
    assert ScanOpening(m) + "" == ScanOpening(m);
  }

  // ---------- which elements are printed as they are ----------

  /** Nothing in the text is spoiled: no comma, apostrophe or double quote, and no backslash where
      backslashes are plain characters. */
  predicate Intact(scs: bool, x: string) {
    ',' !in x && '\'' !in x && '"' !in x && (scs ==> '\\' !in x)
  }

  /** Without commas and double quotes nothing but the backslashes changes. */
  lemma {:induction false} PrintedPlainly(m: ScanMode, x: string)
    requires ',' !in x && '"' !in x && '\'' !in x
    ensures PrintedText(m, x) == DoubleChars(x, '\'', true)
  {
    if x != "" {
      PrintedPlainly(m, x[1..]);
    }
  }

  lemma {:induction false} PrintedAppend(m: ScanMode, a: string, b: string)
    ensures PrintedText(m, a + b) == PrintedText(m, a) + PrintedText(m, b)
  {
    if a == "" {
      assert a + b == b;
    } else {
      assert (a + b)[1..] == a[1..] + b;
      PrintedAppend(m, a[1..], b);
    }
  }

  /** Elements with a separator after each. */
  function EmittedFront(m: ScanMode, es: seq<Option<string>>): string {
    if es == [] then "" else ElementText(m, es[0]) + (Between(m) + EmittedFront(m, es[1..]))
  }

  lemma {:induction false} EmittedAppend(m: ScanMode, before: seq<Option<string>>, es: seq<Option<string>>,
                                        all: seq<Option<string>>)
    requires es != [] && all == before + es
    ensures Emitted(m, all) == EmittedFront(m, before) + Emitted(m, es)
    decreases |before|
  {
    if before == [] {
      assert all == es;
    } else {
      TailOfAppend(before, es, all);
      EmittedAppend(m, before[1..], es, all[1..]);
      EmittedStep(m, all, all[1..]);
      GlueFour(ElementText(m, before[0]), Between(m), EmittedFront(m, before[1..]), Emitted(m, es));
    }
  }

  lemma TailOfAppend(before: seq<Option<string>>, es: seq<Option<string>>, all: seq<Option<string>>)
    requires before != [] && all == before + es
    ensures all[0] == before[0] && all[1..] == before[1..] + es
  {
  }

  lemma GlueFour(a: string, b: string, c: string, e: string)
    ensures a + (b + (c + e)) == (a + (b + c)) + e
  {
  }

  lemma EmittedStep(m: ScanMode, es: seq<Option<string>>, tail: seq<Option<string>>)
    requires |es| > 1 && es[1..] == tail
    ensures Emitted(m, es) == ElementText(m, es[0]) + (Between(m) + Emitted(m, tail))
  {
  }

  /** A comma inside an element splits it: anywhere in an array, the loop prints the text of two
      elements. */
  lemma CommaSplits(m: ScanMode, before: seq<Option<string>>, a: string, b: string, after: seq<Option<string>>)
    ensures ScanText(m, ArrayOut(before + ([Some(a + "," + b)] + after))) ==
            ScanText(m, ArrayOut(before + ([Some(a), Some(b)] + after)))
  {
    EmittedSplit(m, a, b, after);
    var one, two := [Some(a + "," + b)] + after, [Some(a), Some(b)] + after;
    EmittedAppend(m, before, one, before + one);
    EmittedAppend(m, before, two, before + two);
    ScanInvertsArrayOut(m, before + one);
    ScanInvertsArrayOut(m, before + two);
  }

  lemma EmittedSplit(m: ScanMode, a: string, b: string, after: seq<Option<string>>)
    ensures Emitted(m, [Some(a + "," + b)] + after) == Emitted(m, [Some(a), Some(b)] + after)
  {
    PrintedSplit(m, a, b);
    var text, sep := ElementText(m, Some(a)), Between(m);
    EmittedStep(m, [Some(a), Some(b)] + after, [Some(b)] + after);
    if after == [] {
      assert [Some(a + "," + b)] + after == [Some(a + "," + b)] && [Some(b)] + after == [Some(b)];
    } else {
      EmittedStep(m, [Some(a + "," + b)] + after, after);
      EmittedStep(m, [Some(b)] + after, after);
      SplitEmitted(text, sep, ElementText(m, Some(b)), sep + Emitted(m, after));
    }
  }

  lemma PrintedSplit(m: ScanMode, a: string, b: string)
    ensures PrintedText(m, a + "," + b) == PrintedText(m, a) + (Between(m) + PrintedText(m, b))
  {
    PrintedAppend(m, a + ",", b);
    PrintedAppend(m, a, ",");
    assert PrintedText(m, ","[1..]) == "";
    SplitEmitted(PrintedText(m, a), Between(m), PrintedText(m, b), "");
  }

  lemma SplitEmitted(a: string, sep: string, b: string, more: string)
    ensures a + (sep + "") + b == a + (sep + b)
    ensures a + (sep + b) + more == a + (sep + (b + more))
  {
  }

  /** A null element is printed as the text NULL is, anywhere in an array. */
  lemma NullElementIsText(m: ScanMode, before: seq<Option<string>>, after: seq<Option<string>>)
    ensures ScanText(m, ArrayOut(before + ([None] + after))) == ScanText(m, ArrayOut(before + ([Some("NULL")] + after)))
  {
    var without, text := [None] + after, [Some("NULL")] + after;
    PrintedNull(m);
    assert without[1..] == after && text[1..] == after;
    EmittedAppend(m, before, without, before + without);
    EmittedAppend(m, before, text, before + text);
    ScanInvertsArrayOut(m, before + without);
    ScanInvertsArrayOut(m, before + text);
  }

  lemma PrintedNull(m: ScanMode)
    ensures PrintedText(m, "NULL") == "NULL"
  {
    MappedPlainly(m, "NULL");
    NothingEscaped("NULL");
    MappedEscape(m, "NULL");
  }
}
