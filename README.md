# Lexer model

This project models the hand-written lexer in `src/Lexer.java`. The lexer has
two parts:

- The `CharStream` cursor holds an immutable input string and two integers.
  `index` is the scan position. `length` is the number of characters advanced
  over since the last `emit` or `skip`.
- The `Lexer` drives the stream. `lex` loops over the input. Each iteration
  skips one space or tab, if there is one, and appends the token `lexToken`
  returns. `lexToken` classifies the next character by lookahead (`peek`) and
  hands over to one of `lexIdentifier`, `lexNumber`, `lexCharacter`,
  `lexString` or `lexOperator`. Each of those advances the stream and emits
  the pending lexeme as a token.

The Dafny modules follow that structure:

- `CharClasses` replaces every regular expression `peek` is given with a
  predicate on one character. `peek` tests each pattern against a
  one-character string, so each pattern is a character class.
- `CharStreams` holds the token datatype and the `CharStream` class. The
  class updates `index` and `length` in place.
- `Scanner` is the specification. Its functions say where each sub-scanner
  stops (`IdentifierEnd`, `NumberEnd`, `CharacterEnd`, `StringEnd`,
  `OperatorEnd`), what `lexToken` returns (`ScanToken`), what one iteration of
  `lex` appends (`LexStep`), and what `lex` produces (`LexFrom`).
- `Lexers` holds the `Lexer` class. Its methods keep the source's loops and
  early returns. Each method is proved to leave the stream where the matching
  `Scanner` function says, and to emit exactly the text in between.
- `LexerFacts` proves properties of the specification: that the tokens tile
  the input, closed forms for numbers, the character and string literal
  shapes, the operator lengths, and the fallback and stall behaviours.

`lex` does not always terminate. When the current character is `0` and the
next character exists and is not `.`, `lexToken` emits an empty INTEGER token
without advancing. The next iteration then starts from exactly the same
state, so the loop runs forever. `LexFrom` returns an `Outcome`:

- `Done(tokens)` when the loop ends;
- `Diverges(tokens, at)` when it reaches such a position.

The method `Lex` stops at the first iteration that leaves the position
unchanged and returns `Diverges`. `length` is 0 at the head of every
iteration, so the whole state repeats from there on (`StallRepeats`).

Behaviours of the code worth knowing, all of which the model keeps:

- `5.` lexes to one INTEGER token `5.`, not to INTEGER `5` followed by
  OPERATOR `.`. A dot that is the last character is absorbed into the number.
- `007`, and any other token that starts with `0` followed by something other
  than `.`, sends `lex` into an endless loop instead of producing a token.
- A blank followed by a space, or a blank at the end of the input, produces an
  empty STRING token just after the blank. For example, `"  a"` lexes to
  STRING `""` at index 1 and then IDENTIFIER `a` at index 2. A tab after a
  blank is lexed as a one-character OPERATOR.
- No input raises a `ParseException`. The class comment asks for one on
  malformed input, but no code path throws it. Every sub-scanner returns a
  token for every input.
- Inside a string literal, the character right after an escape is still
  tested as a closing quote and as the last character. A backslash in that
  place, however, is consumed as a plain character instead of starting a
  second escape, so the quote it was meant to escape closes the literal.
  `"\n\""` lexes to the STRING `"\n\"` followed by the STRING `"`
  (`EscapeSwallowsBackslash`, `EscapeAfterEscape`).

## Model

| member | source | states |
|---|---|---|
| CharStreams.CharStream.constructor | src/Lexer.java:248-250 | A new stream is at index 0 with an empty pending lexeme, over the given input. |
| CharStreams.CharStream.Has | src/Lexer.java:252-254 | True exactly when at least `offset + 1` characters of the input remain unread. |
| CharStreams.CharStream.Get | src/Lexer.java:256-258 | Returns the character `offset` places into the unread rest of the input. |
| CharStreams.CharStream.Advance | src/Lexer.java:260-263 | Moves `index` and `length` forward by one and keeps `length <= index` and `index` within the input. |
| CharStreams.CharStream.Skip | src/Lexer.java:265-267 | Only zeroes `length`; `index` is unchanged. |
| CharStreams.CharStream.Emit | src/Lexer.java:269-273 | Returns a token of the given type whose index is `index - length` and whose literal is `input[index - length..index]`. Leaves `index` unchanged and sets `length` to 0. |
| Scanner.IdentifierEnd | src/Lexer.java:89-93 | The identifier loop stops at the end of the longest run of `[A-Za-z0-9_-]`. Every character before the stop is an identifier character, and the stop is the end of the input or a non-identifier character. |
| Scanner.DigitsEnd | src/Lexer.java:100-102 | The digit loop after a decimal point stops at the end of the longest run of digits. |
| Scanner.NumberEnd | src/Lexer.java:97-108 | The number scanner stops within the input and returns INTEGER or DECIMAL. A DECIMAL always consumes at least one character. |
| Scanner.CharacterEnd | src/Lexer.java:112-135 | The character scanner consumes at most three characters after the opening quote. It consumes none when fewer than two characters follow the quote. |
| Scanner.StringIteration | src/Lexer.java:140-159 | One iteration of the string loop either stops within the input or continues at a later position. |
| Scanner.StringEnd | src/Lexer.java:139-161 | The string scanner stops within the input, never before where it started. Unless it stops at the input's last character or at its end, it stops just past a closing quote or just past a backslash. |
| Scanner.OperatorEnd | src/Lexer.java:169-200 | The operator scanner consumes two characters exactly when they are `!=`, `==`, `&&` or a double bar, and one character otherwise. |
| Scanner.ScanToken | src/Lexer.java:54-87 | `lexToken` advances exactly when it is not at the end, not at a space and not at a `0` followed by a character other than `.`. At the end or at a space it emits an empty STRING. At such a `0` it emits an empty INTEGER. |
| Scanner.LexStep | src/Lexer.java:34-40 | An iteration of `lex` skips one blank exactly when it starts on a space or tab, and the token then starts just after it. It appends a token whose literal is the input between the token's index and the next iteration's start. It stays in place exactly at a stall position. |
| Scanner.LexFrom | src/Lexer.java:32-44 | When `lex` diverges, it does so at a position where `lexToken` stalls. |
| Lexers.Lexer.constructor | src/Lexer.java:24-26 | A new lexer owns a fresh stream over the input, at index 0 with an empty lexeme. |
| Lexers.Lexer.Peek | src/Lexer.java:208-216 | Returns true exactly when, for every pattern `k`, the character at offset `k` exists and matches pattern `k`. It changes nothing. |
| Lexers.Lexer.Match | src/Lexer.java:223-232 | Returns what `Peek` would. When that is true, it advances `index` and `length` by the number of patterns. Otherwise the stream is unchanged. |
| Lexers.Lexer.Lex | src/Lexer.java:32-44 | The loop produces exactly `LexFrom` of the input from the starting index. That is the full token list, or the tokens before the endless loop together with its position. A finished run leaves the cursor at the end of the input, a diverging one at the stall position, and both leave no pending lexeme. |
| Lexers.Lexer.LexToken | src/Lexer.java:54-87 | Leaves the stream where `ScanToken` says. Returns the token of `ScanToken`'s type, starting at the pending lexeme's start and spelling the input up to the new index. |
| Lexers.Lexer.LexIdentifier | src/Lexer.java:89-95 | Stops at `IdentifierEnd` and emits an IDENTIFIER spelling the lexeme. |
| Lexers.Lexer.LexNumber | src/Lexer.java:97-110 | Stops at `NumberEnd` and emits a token of `NumberEnd`'s type spelling the lexeme. |
| Lexers.Lexer.LexCharacter | src/Lexer.java:112-137 | Stops at `CharacterEnd` and emits a CHARACTER spelling the lexeme. |
| Lexers.Lexer.LexString | src/Lexer.java:139-162 | Stops at `StringEnd` and emits a STRING spelling the lexeme. |
| Lexers.Lexer.LexOperator | src/Lexer.java:169-201 | Stops at `OperatorEnd` and emits an OPERATOR spelling the lexeme. |
| Lexers.LexAll | src/Lexer.java:24-44 | Lexing a whole input yields `LexFrom(input, 0)`. |
| LexerFacts.LexFromTiles | src/Lexer.java:32-44 | The tokens of `lex` follow one another through the input. Each starts where the previous one ended, or one further after a skipped blank, and each literal is the input text at its index. This holds up to the end of the input, or up to the stall. |
| LexerFacts.TilesRebuild | src/Lexer.java:32-44 | Tokens that tile a stretch of input, together with the blanks skipped between them, spell that stretch exactly. |
| LexerFacts.LexReconstructs | src/Lexer.java:32-44 | The literals of `lex`'s tokens, interleaved with the skipped blanks, concatenate to the whole input, or to the input up to the stall. |
| LexerFacts.LexTerminates | src/Lexer.java:34-44 | `lex` ends whenever no position of the input holds a `0` followed by a character other than `.`. It is a corollary of `LexFrom`'s postcondition. |
| LexerFacts.StallRepeats | src/Lexer.java:60-64 | At a stall, the iteration appends an empty INTEGER and stays in place, so `lex` never ends from there. |
| LexerFacts.BlankThenFallback | src/Lexer.java:83-85 | After a blank, the token is an empty STRING exactly when the blank is last or followed by a space. A tab after a blank is a one-character OPERATOR. |
| LexerFacts.IdentifierToken | src/Lexer.java:55-58 | A token starting with `@` or a letter is an IDENTIFIER. It is that character plus the longest following run of identifier characters. |
| LexerFacts.WholeIdentifier | src/Lexer.java:89-93 | An input that is a single identifier lexes to exactly one IDENTIFIER token spelling the whole input. |
| LexerFacts.NumberEndClosedForm | src/Lexer.java:97-108 | The number scanner reads the digit run. If a dot follows with a character after it, it then reads the dot and the next digit run as a DECIMAL. A final dot is absorbed into an INTEGER. Otherwise it returns an INTEGER ending at the digit run. |
| LexerFacts.NumberToken | src/Lexer.java:59-68 | A token starting with `-` or a digit, where `lexToken` does not stall, is the number given by that closed form, read after its first character. |
| LexerFacts.CharacterShapes | src/Lexer.java:112-135 | `'x'` is read as three characters. `'\e'`, and a control character and a body character before the closing quote, are each read as four characters. A four-character literal always ends with its closing quote. |
| LexerFacts.StringToken | src/Lexer.java:73-75 | A token that starts with `"` is a STRING that includes the quote. It ends just past a closing quote or just past a backslash, unless it reaches the input's last character or its end. |
| LexerFacts.StringInvalidEscape | src/Lexer.java:140-148 | A backslash not followed by an escape letter, with no quote or backslash before it in the body, ends the string right after the backslash. |
| LexerFacts.EscapeSwallowsBackslash | src/Lexer.java:141-158 | A backslash right after an escape is consumed as a plain character, so the scan goes on after it as if no escape had started there. |
| LexerFacts.StringClosed | src/Lexer.java:139-161 | A body of plain characters and escapes, with no escape directly followed by a backslash, is read up to and including the closing quote. |
| LexerFacts.StringUnterminated | src/Lexer.java:154-156 | With no quote or backslash ahead, the string scanner stops before the input's last character. |
| LexerFacts.EscapeAfterEscape | src/Lexer.java:141-159 | `"\n\""` lexes to the STRING `"\n\"` followed by the STRING `"`. |
| LexerFacts.OperatorToken | src/Lexer.java:80-81 | A token that reaches the operator branch is an OPERATOR. It is two characters long exactly for `!=`, `==`, `&&` and a double bar, and one character otherwise. |
| LexerFacts.DecimalExample | src/Lexer.java:99-104 | `123.456` lexes to one DECIMAL token. |
| LexerFacts.TrailingDotExample | src/Lexer.java:98-108 | `5.` lexes to one INTEGER token `5.`. |
| LexerFacts.LeadingBlanksExample | src/Lexer.java:34-39 | `"  a"` lexes to an empty STRING at index 1, then IDENTIFIER `a` at index 2. |
| LexerFacts.LeadingZeroExample | src/Lexer.java:60-64 | `007` makes `lex` loop forever at index 0 before emitting anything. |

## Left out

- `src/main/java/plc/homework/Regex.java` is not part of this model. It only declares regular-expression constants and has no logic.
- The regular-expression engine behind `peek` (`String.matches`) is not modelled. Each pattern the lexer uses becomes a predicate on one character in `CharClasses`.
- The `peek("'\\'[bnrt'\"\\\\]")` branch of `lexToken`, the empty `lexEscape`, and the `throw new UnsupportedOperationException()` after the if-chain are left out. That pattern needs three characters, so it never matches the single character `peek` tests. The code is unreachable.
- `ParseException` is left out. No code path raises it.
- The `Token` class itself is a datatype of type, literal and start index. `ArrayList` is a `seq<Token>`. The unused `NullType` import is dropped.
- Java strings are sequences of UTF-16 code units. The model uses Dafny `char`, so inputs with surrogate pairs are not modelled.
- Java `int` overflow of `index` and `length` is not modelled. Both are unbounded naturals.
- Lexers.Lexer.Lex: requires `length == 0` on entry. It does not model being called with a pending lexeme. The constructor and every `emit` and `skip` leave `length` at 0.
- Lexers.Lexer.Lex: stops at the first iteration that makes no progress and reports `Diverges`. Java repeats that iteration forever, appending an empty INTEGER each time, until it runs out of memory.
- Lexers.Lexer.LexOperator: requires a current character. Its only caller calls it after `peek` matched one. On an empty stream Java's final `emit` would throw.
- CharStreams.CharStream.Advance: requires a character at the cursor. Java would let `index` pass the end of the input. Every call in the lexer is guarded by `has` or a `peek` that matched.
- CharStreams.CharStream.Get: requires `has(offset)`. Java's `charAt` would throw when there is no character there. Every call in the lexer is guarded by `has`.
- Lexers.Lexer.LexNumber: evaluates `peek("[.]")` even when `peek("[0-9]*")` already matched. Java's `||` skips the second call. `peek` changes nothing, so the results are the same.
