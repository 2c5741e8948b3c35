/** Tokens and the cursor the lexer scans with. */
module CharStreams {

  datatype TokenType = Identifier | Integer | Decimal | Character | String | Operator

  /** A token: its type, the exact text it covers and the index of its first character. */
  datatype Token = Token(kind: TokenType, literal: string, index: nat)

  /** A cursor over an immutable input. `index` is the scan position and
      `length` the number of characters advanced over since the last `Emit`
      or `Skip`, so the pending lexeme is `input[index - length..index]`. */
  class CharStream {
    const input: string
    var index: nat
    var length: nat

    ghost predicate Valid()
      reads this
    {
      length <= index <= |input|
    }

    constructor (input: string)
      ensures Valid()
      ensures this.input == input && index == 0 && length == 0
    {
      this.input := input;
      index := 0;
      length := 0;
    }

    /** Whether a character exists `offset` places ahead of the cursor. */
    function Has(offset: nat): (b: bool)
      reads this
      ensures b <==> offset < |input| - index
    {
      index + offset < |input|
    }

    /** The character `offset` places ahead; callers check `Has(offset)` first. */
    function Get(offset: nat): (c: char)
      reads this
      requires Has(offset)
      ensures c == input[index..][offset]
    {
      input[index + offset]
    }

    /** Moves past one character, which joins the pending lexeme. Every call
        site in the lexer is guarded by a lookahead check, which is what keeps
        `index` within the input. */
    method Advance()
      requires Valid() && Has(0)
      modifies this
      ensures Valid()
      ensures index == old(index) + 1 && length == old(length) + 1
    {
      index := index + 1;
      length := length + 1;
    }

    /** Drops the pending lexeme without producing a token. */
    method Skip()
      requires Valid()
      modifies this`length
      ensures Valid()
      ensures length == 0
    {
      length := 0;
    }

    /** Turns the pending lexeme into a token starting at `index - length`,
        and starts a new, empty lexeme at the unchanged `index`. */
    method Emit(kind: TokenType) returns (t: Token)
      requires Valid()
      modifies this`length
      ensures Valid() && length == 0
      ensures t.kind == kind && t.index == old(index - length)
      ensures t.literal == input[t.index..index]
      ensures |t.literal| == old(length)
    {
      var start := index - length;
      Skip();
      t := Token(kind, input[start..index], start);
    }
  }
}
