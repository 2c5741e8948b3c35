/** Properties of the lexer, stated about the `Scanner` functions that the
    `Lexer` methods are proved to compute. */
module LexerFacts {
  import opened CharClasses
  import opened CharStreams
  import opened Scanner

  /** Every token `LexFrom` produces covers the input text it claims, in
      order, up to the end of the input or up to the stall. */
  lemma {:induction false} LexFromTiles(s: string, i: nat)
    requires i <= |s|
    ensures LexFrom(s, i).Done? ==> Tiles(s, i, LexFrom(s, i).tokens, |s|)
    ensures LexFrom(s, i).Diverges? ==> Tiles(s, i, LexFrom(s, i).tokens, LexFrom(s, i).at)
    decreases |s| - i
  {
    if i < |s| {
      var st := LexStep(s, i);
      if st.next != i {
        LexFromTiles(s, st.next);
        var rest := LexFrom(s, st.next);
        assert ([st.token] + rest.tokens)[1..] == rest.tokens;
      }
    }
  }

  /** The text accounted for by `ts` from position `i`: for each token, the
      blank skipped before it, if any, followed by its literal. */
  ghost function Rebuild(s: string, i: nat, ts: seq<Token>): string
    decreases |ts|
  {
    if ts == [] then []
    else
      var t := ts[0];
      var gap := if t.index == i + 1 && i < |s| then [s[i]] else [];
      gap + t.literal + Rebuild(s, t.index + |t.literal|, ts[1..])
  }

  /** The first token of a tiling: where it starts, the text it covers and
      the tiling that follows it. */
  lemma TilesHead(s: string, i: nat, ts: seq<Token>, e: nat)
    requires Tiles(s, i, ts, e) && ts != []
    ensures var t := ts[0];
      && i <= t.index <= i + 1 && (t.index == i + 1 ==> i < |s|)
      && t.index + |t.literal| <= |s|
      && s[t.index..t.index + |t.literal|] == t.literal
      && Tiles(s, t.index + |t.literal|, ts[1..], e)
  {
  }

  lemma {:induction false} TilesRebuild(s: string, i: nat, ts: seq<Token>, e: nat)
    requires Tiles(s, i, ts, e) && e <= |s|
    ensures i <= e && Rebuild(s, i, ts) == s[i..e]
    decreases |ts|
  {
    if ts != [] {
      var t := ts[0];
      var end := t.index + |t.literal|;
      TilesHead(s, i, ts, e);
      TilesRebuild(s, end, ts[1..], e);
      var gap := if t.index == i + 1 && i < |s| then [s[i]] else [];
      assert gap == s[i..t.index];
      calc {
        Rebuild(s, i, ts);
        s[i..t.index] + s[t.index..end] + s[end..e];
        { assert s[i..e] == s[i..t.index] + s[t.index..end] + s[end..e]; }
        s[i..e];
      }
    }
  }

  /** The token literals, interleaved with the blanks `lex` skips, spell out
      the whole input, or the input up to the stall. */
  lemma LexReconstructs(s: string)
    ensures LexFrom(s, 0).Done? ==> Rebuild(s, 0, LexFrom(s, 0).tokens) == s
    ensures LexFrom(s, 0).Diverges? ==> Rebuild(s, 0, LexFrom(s, 0).tokens) == s[..LexFrom(s, 0).at]
  {
    LexFromTiles(s, 0);
    var r := LexFrom(s, 0);
    if r.Done? {
      TilesRebuild(s, 0, r.tokens, |s|);
      assert s[0..|s|] == s;
    } else {
      TilesRebuild(s, 0, r.tokens, r.at);
    }
  }

  /** `lex` ends whenever no position of the input stalls `lexToken`: a
      corollary of the postcondition of `LexFrom`. */
  lemma LexTerminates(s: string, i: nat)
    requires i <= |s|
    requires forall p | i <= p < |s| :: !StallsAt(s, p)
    ensures LexFrom(s, i).Done?
  {
  }

  /** At a stall the iteration appends an empty INTEGER token and leaves the
      position unchanged, so the next iteration is the same again. */
  lemma StallRepeats(s: string, p: nat)
    requires p < |s| && StallsAt(s, p)
    ensures LexStep(s, p) == Step(Token(Integer, "", p), p)
    ensures LexFrom(s, p) == Diverges([], p)
  {
  }

  /** A space or tab followed by a space or by the end of the input leads to
      the fallback branch: an empty STRING token just after the blank. A tab
      is no such terminator: it starts an operator. */
  lemma BlankThenFallback(s: string, i: nat)
    requires i < |s| && IsBlank(s[i])
    ensures LexStep(s, i).token == Token(String, "", i + 1) <==> i + 1 == |s| || s[i + 1] == ' '
    ensures i + 1 < |s| && s[i + 1] == '\t' ==> LexStep(s, i).token == Token(Operator, "\t", i + 1)
  {
    var st := LexStep(s, i);
    if st.token == Token(String, "", i + 1) {
      assert ScanToken(s, i + 1).end == i + 1;
    }
  }

  /** A token that starts with `@` or a letter is an IDENTIFIER made of that
      character and the longest run of identifier characters after it. */
  lemma IdentifierToken(s: string, i: nat)
    requires i < |s| && IsIdentifierStart(s[i])
    ensures ScanToken(s, i).kind == Identifier
    ensures i < ScanToken(s, i).end
    ensures forall k | i < k < ScanToken(s, i).end :: IsIdentifierPart(s[k])
    ensures ScanToken(s, i).end == |s| || !IsIdentifierPart(s[ScanToken(s, i).end])
  {
  }

  /** An input that is one identifier lexes to exactly that token. */
  lemma WholeIdentifier(s: string)
    requires 0 < |s| && IsIdentifierStart(s[0])
    requires forall k | 0 < k < |s| :: IsIdentifierPart(s[k])
    ensures LexFrom(s, 0) == Done([Token(Identifier, s, 0)])
  {
    var e := IdentifierEnd(s, 1);
    assert e == |s|;
    assert s[0..|s|] == s;
    assert LexFrom(s, |s|) == Done([]);
  }

  /** `lexNumber` in closed form: the digit run from `i`; then, when a dot
      follows it, either the dot with the digit run after it as a DECIMAL, or,
      when the dot is the last character, an INTEGER ending with the dot. */
  lemma {:induction false} NumberEndClosedForm(s: string, i: nat)
    requires i <= |s|
    ensures var d := DigitsEnd(s, i);
      NumberEnd(s, i) ==
        if d < |s| && s[d] == '.' then
          if d + 1 < |s| then Scan(Decimal, DigitsEnd(s, d + 1)) else Scan(Integer, |s|)
        else Scan(Integer, d)
    decreases |s| - i
  {
    if i < |s| && IsDigit(s[i]) {
      NumberEndClosedForm(s, i + 1);
    }
  }

  /** A token starting with `-` or a digit, at a position that does not stall,
      is the number `NumberEndClosedForm` describes, read after its first
      character. */
  lemma NumberToken(s: string, i: nat)
    requires i < |s| && IsNumberStart(s[i]) && !StallsAt(s, i)
    ensures var d := DigitsEnd(s, i + 1);
      ScanToken(s, i) ==
        if d < |s| && s[d] == '.' then
          if d + 1 < |s| then Scan(Decimal, DigitsEnd(s, d + 1)) else Scan(Integer, |s|)
        else Scan(Integer, d)
  {
    NumberEndClosedForm(s, i + 1);
    if s[i] == '0' && i + 1 < |s| {
      assert NumberEnd(s, i) == NumberEnd(s, i + 1);
    }
  }

  /** The shapes of character literals `lexCharacter` reads, entered after the
      opening quote at `i - 1`. */
  lemma CharacterShapes(s: string, i: nat)
    requires i <= |s|
    ensures i + 1 < |s| && s[i] != '\\' && s[i] != '\'' && s[i + 1] == '\'' ==> CharacterEnd(s, i) == i + 2
    ensures i + 2 < |s| && s[i] == '\\' && IsEscapeLetter(s[i + 1]) && s[i + 2] == '\'' ==> CharacterEnd(s, i) == i + 3
    ensures i + 2 < |s| && IsControl(s[i]) && IsCharacterBody(s[i + 1]) && s[i + 2] == '\'' ==> CharacterEnd(s, i) == i + 3
    ensures CharacterEnd(s, i) == i + 3 ==> s[i + 2] == '\''
  {
  }

  /** A token that starts with a double quote is a STRING that begins with
      that quote. It ends just past a closing quote, just past a backslash
      that starts no escape, or before the last character of the input (or
      at its end). */
  lemma StringToken(s: string, i: nat)
    requires i < |s| && s[i] == '"'
    ensures ScanToken(s, i) == Scan(String, StringEnd(s, i + 1))
    ensures var e := ScanToken(s, i).end;
      e + 1 >= |s| || (i + 1 < e && (s[e - 1] == '"' || s[e - 1] == '\\'))
    ensures i < ScanToken(s, i).end
  {
  }

  /** A backslash that starts no escape, with no quote and no backslash
      before it in the body, ends the string right after it. */
  lemma {:induction false} StringInvalidEscape(s: string, i: nat, p: nat)
    requires i <= p < |s| && s[p] == '\\'
    requires forall k | i <= k < p :: s[k] != '"' && s[k] != '\\'
    requires !(p + 1 < |s| && IsEscapeLetter(s[p + 1]))
    ensures StringEnd(s, i) == p + 1
    decreases p - i
  {
    if i < p {
      StringInvalidEscape(s, i + 1, p);
    }
  }

  /** After an escape the scanner still ends the literal at a quote or
      before the last character, but a backslash there is consumed as a plain
      character instead of starting a second escape. */
  lemma EscapeSwallowsBackslash(s: string, i: nat)
    requires i + 3 < |s| && s[i] == '\\' && IsEscapeLetter(s[i + 1]) && s[i + 2] == '\\'
    ensures StringEnd(s, i) == StringEnd(s, i + 3)
  {
  }

  /** A string body the scanner reads as written: plain characters and
      escapes, where an escape is never directly followed by a backslash. */
  ghost predicate PlainBody(b: string)
    decreases |b|
  {
    if b == [] then true
    else if b[0] != '\\' then b[0] != '"' && PlainBody(b[1..])
    else
      && 2 <= |b| && IsEscapeLetter(b[1])
      && (|b| == 2 || (b[2] != '\\' && b[2] != '"' && PlainBody(b[3..])))
  }

  /** A body of that kind followed by a closing quote is read up to and
      including the quote. */
  lemma {:induction false} StringClosed(s: string, i: nat, b: string)
    requires i + |b| < |s| && s[i..i + |b|] == b && s[i + |b|] == '"'
    requires PlainBody(b)
    ensures StringEnd(s, i) == i + |b| + 1
    decreases |b|
  {
    if b == [] {
    } else if b[0] != '\\' {
      assert s[i] == b[0];
      assert s[i + 1..i + 1 + |b[1..]|] == b[1..];
      StringClosed(s, i + 1, b[1..]);
    } else {
      assert s[i] == b[0] && s[i + 1] == b[1];
      if |b| > 2 {
        assert s[i + 2] == b[2];
        assert s[i + 3..i + 3 + |b[3..]|] == b[3..];
        StringClosed(s, i + 3, b[3..]);
      }
    }
  }

  /** Without a quote or a backslash ahead, the scanner stops before the last
      character of the input. */
  lemma {:induction false} StringUnterminated(s: string, i: nat)
    requires i < |s|
    requires forall k | i <= k < |s| :: s[k] != '"' && s[k] != '\\'
    ensures StringEnd(s, i) == |s| - 1
    decreases |s| - i
  {
    if i + 1 < |s| {
      StringUnterminated(s, i + 1);
    }
  }

  /** After an escape a backslash is consumed as a plain character, so the
      quote that a second escape was meant to protect closes the literal:
      `"\n\""` is read as `"\n\"` and `"`. */
  lemma EscapeAfterEscape()
    ensures LexFrom("\"\\n\\\"\"", 0) == Done([Token(String, "\"\\n\\\"", 0), Token(String, "\"", 5)])
  {
    var s := "\"\\n\\\"\"";
    assert StringEnd(s, 4) == 5;
    assert StringEnd(s, 1) == 5;
    assert StringEnd(s, 6) == 6;
    assert LexStep(s, 0) == Step(Token(String, s[0..5], 0), 5);
    assert LexStep(s, 5) == Step(Token(String, s[5..6], 5), 6);
    assert LexFrom(s, 6) == Done([]);
    assert LexFrom(s, 5) == Done([Token(String, s[5..6], 5)]);
    assert LexFrom(s, 0) == Done([Token(String, s[0..5], 0), Token(String, s[5..6], 5)]);
    assert s[0..5] == "\"\\n\\\"" && s[5..6] == "\"";
  }

  /** A token that starts an operator, after the classes tested before it, is
      one character long unless it is `!=`, `==`, `&&` or `||`. */
  lemma OperatorToken(s: string, i: nat)
    requires i < |s| && IsOperatorStart(s[i])
    requires !IsIdentifierStart(s[i]) && !IsNumberStart(s[i]) && s[i] != '"'
    requires s[i] == '\'' ==> i + 1 == |s|
    ensures ScanToken(s, i).kind == Operator
    ensures ScanToken(s, i).end == i + 2 <==> i + 1 < |s| && IsDoubleOperator(s[i], s[i + 1])
    ensures ScanToken(s, i).end == i + 1 <==> !(i + 1 < |s| && IsDoubleOperator(s[i], s[i + 1]))
  {
  }

  lemma DecimalExample()
    ensures LexFrom("123.456", 0) == Done([Token(Decimal, "123.456", 0)])
  {
    var s := "123.456";
    assert DigitsEnd(s, 1) == 3 && DigitsEnd(s, 4) == 7;
    NumberEndClosedForm(s, 1);
    assert LexStep(s, 0) == Step(Token(Decimal, s[0..7], 0), 7);
    assert LexFrom(s, 7) == Done([]);
    assert s[0..7] == s;
  }

  lemma TrailingDotExample()
    ensures LexFrom("5.", 0) == Done([Token(Integer, "5.", 0)])
  {
    var s := "5.";
    assert DigitsEnd(s, 1) == 1;
    NumberEndClosedForm(s, 1);
    assert LexStep(s, 0) == Step(Token(Integer, s[0..2], 0), 2);
    assert LexFrom(s, 2) == Done([]);
    assert s[0..2] == s;
  }

  lemma LeadingBlanksExample()
    ensures LexFrom("  a", 0) == Done([Token(String, "", 1), Token(Identifier, "a", 2)])
  {
    var s := "  a";
    assert LexStep(s, 0) == Step(Token(String, "", 1), 1);
    assert LexStep(s, 1) == Step(Token(Identifier, "a", 2), 3);
  }

  lemma LeadingZeroExample()
    ensures LexFrom("007", 0) == Diverges([], 0)
  {
    StallRepeats("007", 0);
  }
}
