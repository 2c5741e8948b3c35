/** What the lexer computes, as functions of the input and a position.
    Each `...End` function gives the index at which a sub-scanner that starts
    at position `i` stops; the emitted token then covers the input from the
    start of the pending lexeme up to that index. */
module Scanner {
  import opened CharClasses
  import opened CharStreams

  /** The type a scanner emits and the index it stops at. */
  datatype Scan = Scan(kind: TokenType, end: nat)

  /** `lexIdentifier`: the maximal run of `[A-Za-z0-9_-]` from `i`. */
  function IdentifierEnd(s: string, i: nat): (e: nat)
    requires i <= |s|
    ensures i <= e <= |s|
    ensures forall k {:trigger IsIdentifierPart(s[k])} | i <= k < e :: IsIdentifierPart(s[k])
    ensures e == |s| || !IsIdentifierPart(s[e])
    decreases |s| - i
  {
    if i < |s| && IsIdentifierPart(s[i]) then IdentifierEnd(s, i + 1) else i
  }

  /** The digit runs of `lexNumber`: the maximal run of digits from `i`. */
  function DigitsEnd(s: string, i: nat): (e: nat)
    requires i <= |s|
    ensures i <= e <= |s|
    ensures forall k {:trigger IsDigit(s[k])} | i <= k < e :: IsDigit(s[k])
    ensures e == |s| || !IsDigit(s[e])
    decreases |s| - i
  {
    if i < |s| && IsDigit(s[i]) then DigitsEnd(s, i + 1) else i
  }

  /** `lexNumber`: digits and dots are consumed one by one; the first dot
      with a character after it is consumed with the digits that follow it
      and makes the token a decimal. */
  function NumberEnd(s: string, i: nat): (r: Scan)
    requires i <= |s|
    ensures i <= r.end <= |s|
    ensures r.kind == Integer || r.kind == Decimal
    ensures r.kind == Decimal ==> i < r.end
    decreases |s| - i
  {
    if i < |s| && (IsDigit(s[i]) || s[i] == '.') then
      if s[i] == '.' && i + 1 < |s| then Scan(Decimal, DigitsEnd(s, i + 1))
      else NumberEnd(s, i + 1)
    else Scan(Integer, i)
  }

  /** One `if (peek(p)) chars.advance();` step at `j`: past `s[j]` when it
      matches `p`, otherwise still at `j`. */
  function Next(s: string, j: nat, p: Pattern): (r: nat)
    requires j <= |s|
    ensures j <= r <= |s| && r <= j + 1
  {
    if j < |s| && Matches(p, s[j]) then j + 1 else j
  }

  /** `lexCharacter`, entered just after the opening quote at `i - 1`. */
  function CharacterEnd(s: string, i: nat): (e: nat)
    requires i <= |s|
    ensures i <= e <= |s|
    ensures e <= i + 3
    ensures i + 1 >= |s| ==> e == i
    ensures i < e ==> i + 1 < |s|
  {
    if i + 1 >= |s| then i
    else if s[i] == '\\' then Next(s, Next(s, i + 1, EscapeLetter), Lit('\''))
    else
      var j := Next(s, i, Control);
      var k := if j + 1 < |s| then Next(s, j, CharacterBody) else j;
      Next(s, k, Lit('\''))
  }

  /** How one iteration of a scanning loop ends: the literal stops at `end`,
      or the next iteration starts at `next`. */
  datatype Iteration = Stop(end: nat) | Continue(next: nat)

  /** One iteration of the loop in `lexString` at `i`: an escape (backslash
      and escape letter) if one is there, then either the closing quote, or
      a stop before the last character, or one more character. */
  function StringIteration(s: string, i: nat): (r: Iteration)
    requires i < |s|
    ensures r.Stop? ==> i <= r.end <= |s|
    ensures r.Continue? ==> i < r.next < |s|
  {
    if s[i] == '\\' && !(i + 1 < |s| && IsEscapeLetter(s[i + 1])) then Stop(i + 1)
    else
      var j := if s[i] == '\\' then i + 2 else i;
      if j < |s| && s[j] == '"' then Stop(j + 1)
      else if j + 1 >= |s| then Stop(j)
      else Continue(j + 1)
  }

  /** `lexString`, entered just after the opening double quote. The literal
      ends just past a closing quote, just past a backslash that starts no
      escape, or before the last character of the input (or at its end). */
  function StringEnd(s: string, i: nat): (e: nat)
    requires i <= |s|
    ensures i <= e <= |s|
    ensures e + 1 >= |s| || (i < e && (s[e - 1] == '"' || s[e - 1] == '\\'))
    decreases |s| - i
  {
    if i == |s| then i
    else
      match StringIteration(s, i)
      case Stop(e) => e
      case Continue(n) => StringEnd(s, n)
  }

  /** The two-character operators `lexOperator` recognises. */
  predicate IsDoubleOperator(a: char, b: char) {
    (a == '!' && b == '=') || (a == '=' && b == '=') || (a == '&' && b == '&') || (a == '|' && b == '|')
  }

  /** `lexOperator`: two characters for `!=`, `==`, `&&` and `||`, one otherwise. */
  function OperatorEnd(s: string, i: nat): (e: nat)
    requires i < |s|
    ensures e == if i + 1 < |s| && IsDoubleOperator(s[i], s[i + 1]) then i + 2 else i + 1
  {
    if s[i] == '!' && i + 1 < |s| then Next(s, i + 1, Lit('='))
    else if s[i] == '=' && i + 1 < |s| then Next(s, i + 1, Lit('='))
    else if s[i] == '&' && i + 1 < |s| then Next(s, i + 1, Lit('&'))
    else if s[i] == '|' && i + 1 < |s| then Next(s, i + 1, Lit('|'))
    else i + 1
  }

  /** `lexToken` leaves the cursor where it was: the current character is a
      `0` followed by a character other than a dot. */
  predicate StallsAt(s: string, i: nat) {
    i + 1 < |s| && s[i] == '0' && s[i + 1] != '.'
  }

  /** `lexToken`: classify by lookahead and run one sub-scanner. */
  function ScanToken(s: string, i: nat): (r: Scan)
    requires i <= |s|
    ensures i <= r.end <= |s|
    ensures r.end == i <==> i == |s| || s[i] == ' ' || StallsAt(s, i)
    ensures (i == |s| || s[i] == ' ') ==> r == Scan(String, i)
    ensures StallsAt(s, i) ==> r == Scan(Integer, i)
  {
    if i < |s| && IsIdentifierStart(s[i]) then
      Scan(Identifier, IdentifierEnd(s, i + 1))
    else if i < |s| && IsNumberStart(s[i]) then
      if s[i] == '0' && i + 1 < |s| then
        if s[i + 1] == '.' then NumberEnd(s, i) else Scan(Integer, i)
      else NumberEnd(s, i + 1)
    else if i < |s| && s[i] == '\'' && i + 1 < |s| then
      Scan(Character, CharacterEnd(s, i + 1))
    else if i < |s| && s[i] == '"' then
      Scan(String, StringEnd(s, i + 1))
    else if i < |s| && IsOperatorStart(s[i]) then
      Scan(Operator, OperatorEnd(s, i))
    else
      Scan(String, i)
  }

  /** One iteration of the loop in `lex`: the token it appends and the index
      the next iteration starts at. */
  datatype Step = Step(token: Token, next: nat)

  function LexStep(s: string, i: nat): (st: Step)
    requires i < |s|
    ensures i <= st.token.index <= st.next <= |s|
    ensures st.token.index == (if IsBlank(s[i]) then i + 1 else i)
    ensures st.token.literal == s[st.token.index..st.next]
    ensures st.next == i <==> StallsAt(s, i)
  {
    var j := if IsBlank(s[i]) then i + 1 else i;
    var sc := ScanToken(s, j);
    Step(Token(sc.kind, s[j..sc.end], j), sc.end)
  }

  /** How `lex` ends: with every token, or in an endless loop at `at` after
      emitting `tokens` (there it appends an empty INTEGER token forever). */
  datatype Outcome = Done(tokens: seq<Token>) | Diverges(tokens: seq<Token>, at: nat)

  function Prepend(ts: seq<Token>, o: Outcome): Outcome {
    match o
    case Done(us) => Done(ts + us)
    case Diverges(us, p) => Diverges(ts + us, p)
  }

  lemma PrependAssociative(ts: seq<Token>, us: seq<Token>, o: Outcome)
    ensures Prepend(ts, Prepend(us, o)) == Prepend(ts + us, o)
  {
    match o
    case Done(vs) => assert ts + (us + vs) == (ts + us) + vs;
    case Diverges(vs, p) => assert ts + (us + vs) == (ts + us) + vs;
  }

  /** The tokens cover `s[i..e]` in order: each starts where the previous one
      ended, or one further on exactly when a blank stands there and is
      skipped, and its literal is the text it covers. */
  ghost predicate Tiles(s: string, i: nat, ts: seq<Token>, e: nat)
    decreases |ts|
  {
    if ts == [] then i == e
    else
      var t := ts[0];
      var end := t.index + |t.literal|;
      && (t.index == i || (t.index == i + 1 && i < |s| && IsBlank(s[i])))
      && (i < |s| && IsBlank(s[i]) ==> t.index == i + 1)
      && end <= |s|
      && s[t.index..end] == t.literal
      && Tiles(s, end, ts[1..], e)
  }

  /** `lex` run from position `i`. */
  function LexFrom(s: string, i: nat): (r: Outcome)
    requires i <= |s|
    ensures r.Diverges? ==> i <= r.at < |s| && StallsAt(s, r.at)
    decreases |s| - i
  {
    if i == |s| then Done([])
    else
      var st := LexStep(s, i);
      if st.next == i then Diverges([], i)
      else Prepend([st.token], LexFrom(s, st.next))
  }

  /** One iteration of `lex` from `i`, as the driver loop accumulates it:
      either the stall, or the token of `LexStep` followed by the rest. */
  lemma LexFromUnfolds(s: string, i: nat, tokens: seq<Token>)
    requires i < |s|
    ensures LexStep(s, i).next == i ==> Prepend(tokens, LexFrom(s, i)) == Diverges(tokens, i)
    ensures LexStep(s, i).next != i ==>
      Prepend(tokens, LexFrom(s, i)) == Prepend(tokens + [LexStep(s, i).token], LexFrom(s, LexStep(s, i).next))
  {
    var st := LexStep(s, i);
    if st.next != i {
      PrependAssociative(tokens, [st.token], LexFrom(s, st.next));
    } else {
      assert tokens + [] == tokens;
    }
  }
}
