/** The lexer tests each lookahead character against a regular expression
    applied to a one-character string. Every pattern it uses is a single
    character class, so each one is modelled here as a predicate on `char`,
    and `Pattern` names the patterns so that `peek` can take a list of them. */
module CharClasses {

  predicate IsLetter(c: char) { 'A' <= c <= 'Z' || 'a' <= c <= 'z' }

  predicate IsDigit(c: char) { '0' <= c <= '9' }

  /** `[ \t]`: the only characters `lex` skips between tokens. */
  predicate IsBlank(c: char) { c == ' ' || c == '\t' }

  /** `@|[A-Za-z]` */
  predicate IsIdentifierStart(c: char) { c == '@' || IsLetter(c) }

  /** `[A-Za-z0-9_-]*` tested on one character. */
  predicate IsIdentifierPart(c: char) { IsLetter(c) || IsDigit(c) || c == '_' || c == '-' }

  /** `-|[0-9]` */
  predicate IsNumberStart(c: char) { c == '-' || IsDigit(c) }

  /** `[bnrt'"\\]`: the letters allowed after a backslash. */
  predicate IsEscapeLetter(c: char) {
    c == 'b' || c == 'n' || c == 'r' || c == 't' || c == '\'' || c == '"' || c == '\\'
  }

  /** `[\n\r\t\b\f]`: raw control characters a character literal accepts. */
  predicate IsControl(c: char) {
    c == '\n' || c == '\r' || c == '\t' || c == '\U{8}' || c == '\U{C}'
  }

  /** `[^'\n\r\\]`: the body of a character literal. */
  predicate IsCharacterBody(c: char) { c != '\'' && c != '\n' && c != '\r' && c != '\\' }

  /** `[!=&|]|[^A-Za-z0-9 ]`: everything that is not a letter, a digit or a space. */
  predicate IsOperatorStart(c: char) {
    c == '!' || c == '=' || c == '&' || c == '|' || !(IsLetter(c) || IsDigit(c) || c == ' ')
  }

  /** The one-character patterns the lexer passes to `peek`. `Lit(c)` stands
      for the patterns that accept exactly one character, such as `[.]` or `0`. */
  datatype Pattern =
    | Lit(c: char)
    | Blank
    | IdentifierStart
    | IdentifierPart
    | NumberStart
    | Digit
    | EscapeLetter
    | Control
    | CharacterBody
    | OperatorStart

  predicate Matches(p: Pattern, c: char) {
    match p
    case Lit(d) => c == d
    case Blank => IsBlank(c)
    case IdentifierStart => IsIdentifierStart(c)
    case IdentifierPart => IsIdentifierPart(c)
    case NumberStart => IsNumberStart(c)
    case Digit => IsDigit(c)
    case EscapeLetter => IsEscapeLetter(c)
    case Control => IsControl(c)
    case CharacterBody => IsCharacterBody(c)
    case OperatorStart => IsOperatorStart(c)
  }
}
