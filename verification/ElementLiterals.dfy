/** Which elements of a quoted array survive as literals: what is read from the text the character loop
    prints for an element is the element itself exactly when nothing in it was spoiled.
 */
module ElementLiterals {
  import opened Nodes
  import opened Lexical
  import opened ArrayText

  /** The printed text of an element after its opening quote, and what follows its closing quote. */
  function LiteralText(m: ScanMode, x: string, tail: string): string {
    PrintedText(m, x) + ("'" + tail)
  }

  /** What may follow the closing quote. */
  predicate Separates(tail: string) {
    tail != "" && (tail[0] == ' ' || tail[0] == ',' || tail[0] == ')')
  }

  predicate IsQuoteMark(c: char) { c == '\'' || c == '"' }

  // ---------- the printed text, character by character ----------

  lemma PrintedCons(m: ScanMode, c: char, w: string, tail: string)
    ensures LiteralText(m, [c] + w, tail) == PrintedChar(m, c) + LiteralText(m, w, tail)
  {
    assert ([c] + w)[1..] == w;
    Glue(PrintedChar(m, c), PrintedText(m, w), "'" + tail);
  }

  /** The separator of two quoted elements closes the first. */
  lemma BetweenStarts(m: ScanMode)
    requires m.isstr
    ensures |Between(m)| > 1 && Between(m)[0] == '\'' && Between(m)[1] == if m.useIn then ',' else ' '
  {
  }

  lemma PrintedFirst(m: ScanMode, w: string, tail: string)
    requires m.isstr
    ensures LiteralText(m, w, tail) != ""
    ensures LiteralText(m, w, tail)[0] == if w == "" || w[0] == '\'' || w[0] == ',' then '\''
                                      else if w[0] == '"' then '\\' else w[0]
  {
    if w != "" {
      BetweenStarts(m);
      PrintedCons(m, w[0], w[1..], tail);
      assert w == [w[0]] + w[1..];
    }
  }

  /** What follows an apostrophe at the front. */
  function PastQuote(m: ScanMode, w: string, tail: string): string
    requires m.isstr
  {
    if w == "" then tail
    else if w[0] == '\'' then LiteralText(m, w[1..], tail)
    else Between(m)[1..] + LiteralText(m, w[1..], tail)
  }

  lemma PrintedRest(m: ScanMode, w: string, tail: string)
    requires m.isstr && (w == "" || w[0] == '\'' || w[0] == ',')
    ensures LiteralText(m, w, tail) == "'" + PastQuote(m, w, tail)
  {
    if w == "" {
      assert "" + ("'" + tail) == "'" + tail;
    } else {
      BetweenStarts(m);
      PrintedCons(m, w[0], w[1..], tail);
      assert w == [w[0]] + w[1..];
      if w[0] == ',' {
        assert Between(m) == "'" + Between(m)[1..];
        Glue("'", Between(m)[1..], LiteralText(m, w[1..], tail));
      }
    }
  }

  lemma PastQuoteFirst(m: ScanMode, w: string, tail: string)
    requires m.isstr && Separates(tail) && (w == "" || w[0] == ',')
    ensures PastQuote(m, w, tail) != ""
    ensures PastQuote(m, w, tail)[0] in " ,)" && (w != "" ==> PastQuote(m, w, tail)[0] == if m.useIn then ',' else ' ')
  {
    BetweenStarts(m);
  }

  // ---------- reading ----------

  predicate Yields(esc: bool, s: string, x: string) {
    var r := ReadQuoted('\'', esc, s);
    r.Some? && r.value.0 == x
  }

  lemma ReadClose(esc: bool, s: string)
    requires s == "" || s[0] != '\''
    ensures ReadQuoted('\'', esc, "'" + s) == Some(("", s))
  {
    assert ("'" + s)[1..] == s;
  }

  lemma ReadEscape(c: char, s: string)
    ensures ReadQuoted('\'', true, ['\\', c] + s) == Prepend(Unescape(c), ReadQuoted('\'', true, s))
  {
    assert (['\\', c] + s)[2..] == s;
  }

  /** The first character of a value. */
  lemma ReadsFirst(esc: bool, s: string, t: string, c: char, x: string)
    requires ReadQuoted('\'', esc, s) == Prepend(c, ReadQuoted('\'', esc, t)) && Yields(esc, s, x)
    ensures x != "" && x[0] == c && Yields(esc, t, x[1..])
  {
  }

  lemma ReadsPlain(esc: bool, c: char, s: string, x: string)
    requires c != '\'' && !(esc && c == '\\') && Yields(esc, [c] + s, x)
    ensures x != "" && x[0] == c && Yields(esc, s, x[1..])
  {
    ReadSingle(c, '\'', esc, s);
    ReadsFirst(esc, [c] + s, s, c, x);
  }

  /** A text that starts with no quote and no backslash reads as one that starts with the character. */
  lemma ReadsOwnFirst(esc: bool, s: string, x: string)
    requires s != "" && s[0] != '\'' && s[0] != '\\' && Yields(esc, s, x)
    ensures x != "" && x[0] == s[0]
  {
    assert s == [s[0]] + s[1..];
    ReadsPlain(esc, s[0], s[1..], x);
  }

  // ---------- a reader that has run ahead ----------

  /** Once the reader has swallowed quote marks it can never give them back. */
  lemma {:induction false} NeverCatchesUp(m: ScanMode, esc: bool, e: string, w: string, tail: string)
    requires m.isstr && Separates(tail) && e != "" && forall i :: 0 <= i < |e| ==> IsQuoteMark(e[i])
    ensures !Yields(esc, LiteralText(m, w, tail), e + w)
    decreases |w|, 2
  {
    var s := LiteralText(m, w, tail);
    if Yields(esc, s, e + w) {
      PrintedFirst(m, w, tail);
      if s[0] == '\'' {
        PrintedRest(m, w, tail);
        AheadAtQuote(m, esc, e, w, tail);
      } else if s[0] != '\\' || w[0] == '\\' {
        AheadAtPlain(m, esc, e, w, tail);
      } else {
        AheadAtDoubleQuote(m, esc, e, w, tail);
      }
    }
  }

  lemma AheadAtPlain(m: ScanMode, esc: bool, e: string, w: string, tail: string)
    requires m.isstr && w != "" && w[0] != ',' && !IsQuoteMark(w[0]) && e != "" && IsQuoteMark(e[0])
    ensures !Yields(esc, LiteralText(m, w, tail), e + w)
  {
    var s, t := LiteralText(m, w, tail), LiteralText(m, w[1..], tail);
    PrintedCons(m, w[0], w[1..], tail);
    assert w == [w[0]] + w[1..];
    if Yields(esc, s, e + w) {
      if w[0] == '\\' && esc {
        assert s == ['\\', '\\'] + t;
        ReadEscape('\\', t);
        ReadsFirst(esc, s, t, '\\', e + w);
      } else {
        assert s == [w[0]] + s[1..];
        ReadsPlain(esc, w[0], s[1..], e + w);
      }
    }
  }

  lemma {:induction false} AheadAtQuote(m: ScanMode, esc: bool, e: string, w: string, tail: string)
    requires m.isstr && Separates(tail) && e != "" && forall i :: 0 <= i < |e| ==> IsQuoteMark(e[i])
    requires w == "" || w[0] == '\'' || w[0] == ','
    ensures !Yields(esc, "'" + PastQuote(m, w, tail), e + w)
    decreases |w|, 1
  {
    var s := PastQuote(m, w, tail);
    if w == "" || w[0] == ',' {
      PastQuoteFirst(m, w, tail);
      ReadClose(esc, s);
    } else {
      PrintedFirst(m, w[1..], tail);
      if s[0] != '\'' {
        ReadClose(esc, s);
      } else {
        SwallowsQuote(m, esc, e, w, tail);
      }
    }
  }

  /** Two apostrophes are read as one: the reader is ahead of a further mark. */
  lemma {:induction false} SwallowsQuote(m: ScanMode, esc: bool, e: string, w: string, tail: string)
    requires m.isstr && Separates(tail) && e != "" && forall i :: 0 <= i < |e| ==> IsQuoteMark(e[i])
    requires w != "" && w[0] == '\'' && LiteralText(m, w[1..], tail) != "" && LiteralText(m, w[1..], tail)[0] == '\''
    ensures !Yields(esc, "'" + LiteralText(m, w[1..], tail), e + w)
    decreases |w|, 0
  {
    PrintedFirst(m, w[1..], tail);
    PrintedRest(m, w[1..], tail);
    ShiftMark(e, w);
    AheadPastQuote(m, esc, e[1..] + [w[0]], w[1..], tail);
    PairYields(esc, PastQuote(m, w[1..], tail), e + w);
  }

  lemma PairYields(esc: bool, t: string, x: string)
    ensures Yields(esc, "'" + ("'" + t), x) ==> x != "" && Yields(esc, t, x[1..])
  {
    assert "'" + ("'" + t) == ['\'', '\''] + t;
    ReadPair('\'', '\'', esc, t);
    if Yields(esc, "'" + ("'" + t), x) {
      ReadsFirst(esc, "'" + ("'" + t), t, '\'', x);
    }
  }

  lemma {:induction false} AheadAtDoubleQuote(m: ScanMode, esc: bool, e: string, w: string, tail: string)
    requires m.isstr && Separates(tail) && e != "" && forall i :: 0 <= i < |e| ==> IsQuoteMark(e[i])
    requires w != "" && w[0] == '"'
    ensures !Yields(esc, LiteralText(m, w, tail), e + w)
    decreases |w|, 0
  {
    var t := LiteralText(m, w[1..], tail);
    assert w == [w[0]] + w[1..];
    PrintedCons(m, w[0], w[1..], tail);
    PrintedFirst(m, w[1..], tail);
    BackslashYields(esc, t, e + w);
    if Yields(esc, "\\" + t, e + w) {
      ShiftMark(e, w);
      PrintedRest(m, w[1..], tail);
      assert t[1..] == PastQuote(m, w[1..], tail);
      AheadPastQuote(m, esc, e[1..] + [w[0]], w[1..], tail);
    }
  }

  /** A backslash in front: itself, or it escapes the next character. */
  lemma BackslashYields(esc: bool, t: string, x: string)
    requires t != ""
    ensures Yields(esc, "\\" + t, x) ==>
              x != "" && x[0] == (if esc then Unescape(t[0]) else '\\')
                && Yields(esc, if esc then t[1..] else t, x[1..])
  {
    if Yields(esc, "\\" + t, x) {
      if esc {
        assert "\\" + t == ['\\', t[0]] + t[1..];
        ReadEscape(t[0], t[1..]);
        ReadsFirst(esc, "\\" + t, t[1..], Unescape(t[0]), x);
      } else {
        ReadsPlain(esc, '\\', t, x);
      }
    }
  }

  lemma ShiftMark(e: string, w: string)
    requires e != "" && w != "" && IsQuoteMark(w[0]) && forall i :: 0 <= i < |e| ==> IsQuoteMark(e[i])
    ensures (e + w)[1..] == (e[1..] + [w[0]]) + w[1..] && (e + w)[0] == e[0]
    ensures forall i :: 0 <= i < |e[1..] + [w[0]]| ==> IsQuoteMark((e[1..] + [w[0]])[i])
  {
  }

  /** An apostrophe of the text has been swallowed. */
  lemma {:induction false} AheadPastQuote(m: ScanMode, esc: bool, e: string, w: string, tail: string)
    requires m.isstr && Separates(tail) && e != "" && (forall i :: 0 <= i < |e| ==> IsQuoteMark(e[i]))
    requires w == "" || w[0] == '\'' || w[0] == ','
    ensures !Yields(esc, PastQuote(m, w, tail), e + w)
    decreases |w|, 3
  {
    var s := PastQuote(m, w, tail);
    if w == "" || w[0] == ',' {
      PastQuoteFirst(m, w, tail);
      if Yields(esc, s, e + w) {
        ReadsOwnFirst(esc, s, e + w);
      }
    } else {
      assert e + w == (e + [w[0]]) + w[1..];
      NeverCatchesUp(m, esc, e + [w[0]], w[1..], tail);
    }
  }

  // ---------- a reader that has fallen behind ----------

  /** Where backslashes are plain, a doubled one is one too many for good. */
  lemma {:induction false} NeverDone(m: ScanMode, b: string, w: string, tail: string)
    requires m.isstr && b != "" && forall i :: 0 <= i < |b| ==> b[i] == '\\'
    ensures !Yields(false, b + LiteralText(m, w, tail), w)
    decreases |w|
  {
    var s := b + LiteralText(m, w, tail);
    if Yields(false, s, w) {
      assert s == ['\\'] + (b[1..] + LiteralText(m, w, tail));
      ReadsPlain(false, '\\', b[1..] + LiteralText(m, w, tail), w);
      assert w == [w[0]] + w[1..];
      PrintedCons(m, w[0], w[1..], tail);
      assert b[1..] + ("\\\\" + LiteralText(m, w[1..], tail)) == (b[1..] + "\\\\") + LiteralText(m, w[1..], tail);
      NeverDone(m, b[1..] + "\\\\", w[1..], tail);
    }
  }

  // ---------- exactly the intact elements ----------

  /** If the literal printed for an element reads as the element, then the element is intact and its
      literal ends where it should; or else, in an IN list, the literal ends within a separator. */
  lemma {:induction false} OnlyIntactRead(m: ScanMode, scs: bool, x: string, tail: string, rest: string)
    requires m.isstr && Separates(tail)
    requires ReadQuoted('\'', !scs, LiteralText(m, x, tail)) == Some((x, rest))
    ensures (Intact(scs, x) && rest == tail) || (m.useIn && rest == " '" + tail)
    decreases |x|
  {
    if x == "" {
      assert LiteralText(m, x, tail) == "'" + tail;
      ReadClose(!scs, tail);
    } else {
      var c, w := x[0], x[1..];
      var t := LiteralText(m, w, tail);
      assert x == [c] + w;
      PrintedCons(m, c, w, tail);
      if c == '\'' || c == ',' {
        IntactAtQuote(m, scs, x, tail, rest);
      } else if c == '"' {
        NotAtDoubleQuote(m, !scs, x, tail);
      } else if c == '\\' && scs {
        assert "\\\\" + t == "\\" + ("\\" + t);
        ReadsPlain(false, '\\', "\\" + t, x);
        NeverDone(m, "\\", w, tail);
      } else {
        OneIntact(m, scs, c, w, tail, x, rest);
        OnlyIntactRead(m, scs, w, tail, rest);
      }
    }
  }

  /** A character that reads as itself. */
  lemma OneIntact(m: ScanMode, scs: bool, c: char, w: string, tail: string, x: string, rest: string)
    requires c != '\'' && c != ',' && c != '"' && (c == '\\' ==> !scs) && x == [c] + w
    requires ReadQuoted('\'', !scs, PrintedChar(m, c) + LiteralText(m, w, tail)) == Some((x, rest))
    ensures ReadQuoted('\'', !scs, LiteralText(m, w, tail)) == Some((w, rest))
    ensures Intact(scs, w) ==> Intact(scs, x)
  {
    var t := LiteralText(m, w, tail);
    if c == '\\' {
      assert "\\\\" == ['\\', '\\'];
      ReadPair('\\', '\'', true, t);
    } else {
      ReadSingle(c, '\'', !scs, t);
    }
    assert x[1..] == w;
  }

  lemma NotAtDoubleQuote(m: ScanMode, esc: bool, x: string, tail: string)
    requires m.isstr && x != "" && x[0] == '"'
    ensures !Yields(esc, LiteralText(m, x, tail), x)
  {
    assert x == [x[0]] + x[1..];
    PrintedCons(m, x[0], x[1..], tail);
    PrintedFirst(m, x[1..], tail);
    BackslashYields(esc, LiteralText(m, x[1..], tail), x);
  }

  /** An apostrophe or a comma in the element: only the separator of an IN list can hide it. */
  lemma IntactAtQuote(m: ScanMode, scs: bool, x: string, tail: string, rest: string)
    requires m.isstr && Separates(tail) && x != "" && (x[0] == '\'' || x[0] == ',')
    requires ReadQuoted('\'', !scs, LiteralText(m, x, tail)) == Some((x, rest))
    ensures m.useIn && rest == " '" + tail
  {
    var s := PastQuote(m, x, tail);
    PrintedRest(m, x, tail);
    if x[0] == ',' {
      PastQuoteFirst(m, x, tail);
      ReadClose(!scs, s);
    } else {
      var w := x[1..];
      PrintedFirst(m, w, tail);
      if s[0] != '\'' {
        ReadClose(!scs, s);
      } else {
        PrintedRest(m, w, tail);
        SwallowedOne(m, scs, w, tail, rest, x);
      }
    }
  }

  lemma SwallowedOne(m: ScanMode, scs: bool, w: string, tail: string, rest: string, x: string)
    requires m.isstr && Separates(tail) && (w == "" || w[0] == '\'' || w[0] == ',') && x == "'" + w
    requires ReadQuoted('\'', !scs, "'" + ("'" + PastQuote(m, w, tail))) == Some((x, rest))
    ensures m.useIn && rest == " '" + tail
  {
    var t := PastQuote(m, w, tail);
    assert "'" + ("'" + t) == ['\'', '\''] + t;
    ReadPair('\'', '\'', !scs, t);
    assert x[1..] == w;
    assert ReadQuoted('\'', !scs, t) == Some((w, rest));
    if w == "" {
      ReadsOwnFirst(!scs, t, w);
    } else if w[0] == '\'' {
      assert w == "'" + w[1..];
      NeverCatchesUp(m, !scs, "'", w[1..], tail);
    } else {
      PastQuoteFirst(m, w, tail);
      ReadsOwnFirst(!scs, t, w);
      WithinSeparator(m, scs, w, tail, rest);
    }
  }

  /** The literal ends at the second quote of `', '`. */
  lemma WithinSeparator(m: ScanMode, scs: bool, w: string, tail: string, rest: string)
    requires m.isstr && m.useIn && w != "" && w[0] == ','
    requires ReadQuoted('\'', !scs, PastQuote(m, w, tail)) == Some((w, rest))
    ensures rest == " '" + tail
  {
    var t := LiteralText(m, w[1..], tail);
    assert Between(m)[1..] == ", '";
    ReadsSeparator(!scs, t, w, rest);
    PrintedFirst(m, w[1..], tail);
    assert w[1..] == [' '] + "";
    PrintedCons(m, ' ', "", tail);
    BlankText(m, tail);
  }

  lemma BlankText(m: ScanMode, tail: string)
    ensures PrintedChar(m, ' ') + LiteralText(m, "", tail) == " '" + tail
  {
  }

  lemma ReadsSeparator(esc: bool, t: string, x: string, rest: string)
    requires ReadQuoted('\'', esc, ", '" + t) == Some((x, rest))
    ensures |x| > 1 && x[0] == ',' && x[1] == ' '
    ensures t == "" || t[0] != '\'' ==> x == ", " && rest == t
  {
    assert ", '" + t == [','] + ([' '] + ("'" + t));
    ReadsOn(esc, ',', [' '] + ("'" + t), x, rest);
    ReadsOn(esc, ' ', "'" + t, x[1..], rest);
    if t == "" || t[0] != '\'' {
      ReadClose(esc, t);
      assert x[1..][1..] == "" && x == [x[0]] + ([x[1]] + x[1..][1..]);
    }
  }

  lemma ReadsOn(esc: bool, c: char, s: string, x: string, rest: string)
    requires c != '\'' && c != '\\' && ReadQuoted('\'', esc, [c] + s) == Some((x, rest))
    ensures x != "" && x[0] == c && ReadQuoted('\'', esc, s) == Some((x[1..], rest))
  {
    ReadSingle(c, '\'', esc, s);
  }
}
