/** The lexer: a driver loop and one sub-scanner per token class, all working
    on a shared `CharStream`. Each method is proved to leave the stream where
    the matching `Scanner` function says and to emit the text in between. */
module Lexers {
  import opened CharClasses
  import opened CharStreams
  import opened Scanner

  class Lexer {
    const chars: CharStream

    ghost predicate Valid()
      reads this, chars
    {
      chars.Valid()
    }

    constructor (input: string)
      ensures Valid() && fresh(chars)
      ensures chars.input == input && chars.index == 0 && chars.length == 0
    {
      chars := new CharStream(input);
    }

    /** Whether the characters ahead match `patterns`, one pattern per
        character; the stream is not changed. */
    method Peek(patterns: seq<Pattern>) returns (b: bool)
      requires Valid()
      ensures b <==> forall k | 0 <= k < |patterns| ::
        chars.index + k < |chars.input| && Matches(patterns[k], chars.input[chars.index + k])
      // The one-pattern case every caller in `LexToken` and the sub-scanners uses.
      ensures |patterns| == 1 ==> (b <==> chars.index < |chars.input| && Matches(patterns[0], chars.input[chars.index]))
    {
      for i := 0 to |patterns|
        invariant forall k | 0 <= k < i ::
          chars.index + k < |chars.input| && Matches(patterns[k], chars.input[chars.index + k])
      {
        ghost var pattern := patterns[i];  // names `patterns[i]` so the invariant's quantifier is instantiated at `i`
        if !chars.Has(i) || !Matches(patterns[i], chars.Get(i)) {
          return false;
        }
      }
      if |patterns| == 1 {
        ghost var pattern := patterns[0];  // instantiates the loop invariant at 0 for the one-pattern ensures
      }
      return true;
    }

    /** As `Peek`, and on success moves past the matched characters. */
    method Match(patterns: seq<Pattern>) returns (b: bool)
      requires Valid()
      modifies chars
      ensures Valid()
      ensures b <==> forall k {:trigger patterns[k]} | 0 <= k < |patterns| ::
        old(chars.index) + k < |chars.input| && Matches(patterns[k], chars.input[old(chars.index) + k])
      ensures b ==> chars.index == old(chars.index) + |patterns| && chars.length == old(chars.length) + |patterns|
      ensures !b ==> chars.index == old(chars.index) && chars.length == old(chars.length)
    {
      b := Peek(patterns);
      if b {
        ghost var i0 := chars.index;
        if |patterns| > 0 {
          // instantiates `Peek`'s result at the last offset, which bounds the advances below
          ghost var last := patterns[|patterns| - 1];
        }
        for i := 0 to |patterns|
          invariant Valid()
          invariant chars.index == i0 + i && chars.length == old(chars.length) + i
          invariant chars.index + (|patterns| - i) <= |chars.input|
        {
          chars.Advance();
        }
      }
    }

    /** Lexes the whole remaining input: each iteration skips one space or
        tab if there is one and appends the token `LexToken` returns. When an
        iteration leaves the stream exactly as it found it, the source's loop
        would repeat that iteration forever; the outcome is then `Diverges`. */
    method Lex() returns (r: Outcome)
      requires Valid() && chars.length == 0
      modifies chars
      ensures Valid() && chars.length == 0
      ensures r == LexFrom(chars.input, old(chars.index))
      ensures r.Done? ==> chars.index == |chars.input|
      ensures r.Diverges? ==> chars.index == r.at
    {
      var tokens: seq<Token> := [];
      while chars.Has(0)
        invariant Valid() && chars.length == 0
        invariant old(chars.index) <= chars.index
        invariant LexFrom(chars.input, old(chars.index)) == Prepend(tokens, LexFrom(chars.input, chars.index))
        decreases |chars.input| - chars.index
      {
        var start := chars.index;
        var blank := Peek([Blank]);
        assert blank == IsBlank(chars.input[start]);
        if blank {
          chars.Advance();
          chars.Skip();
        }
        var t := LexToken();
        assert t == LexStep(chars.input, start).token && chars.index == LexStep(chars.input, start).next;
        LexFromUnfolds(chars.input, start, tokens);
        if chars.index == start {
          return Diverges(tokens, start);
        }
        tokens := tokens + [t];
      }
      assert chars.index == |chars.input|;
      r := Done(tokens);
    }

    /** Classifies the next token by lookahead alone and hands over to one
        sub-scanner. */
    method LexToken() returns (t: Token)
      requires Valid()
      modifies chars
      ensures Valid() && chars.length == 0
      ensures chars.index == ScanToken(chars.input, old(chars.index)).end
      ensures t.kind == ScanToken(chars.input, old(chars.index)).kind
      ensures t.index == old(chars.index - chars.length)
      ensures t.literal == chars.input[t.index..chars.index]
    {
      ghost var s, i := chars.input, chars.index;
      var identifier := Peek([IdentifierStart]);
      if identifier {
        assert ScanToken(s, i) == Scan(Identifier, IdentifierEnd(s, i + 1));
        chars.Advance();
        t := LexIdentifier();
        return;
      }
      var number := Peek([NumberStart]);
      if number {
        var zero := Peek([Lit('0')]);
        if zero && chars.Has(1) {
          if chars.Get(1) == '.' {
            assert ScanToken(s, i) == NumberEnd(s, i);
            t := LexNumber();
            return;
          }
          assert ScanToken(s, i) == Scan(Integer, i);
          t := chars.Emit(Integer);
          return;
        }
        assert ScanToken(s, i) == NumberEnd(s, i + 1);
        chars.Advance();
        t := LexNumber();
        return;
      }
      var quote := Peek([Lit('\'')]);
      if quote && chars.Has(1) {
        assert ScanToken(s, i) == Scan(Character, CharacterEnd(s, i + 1));
        chars.Advance();
        t := LexCharacter();
        return;
      }
      var doubleQuote := Peek([Lit('"')]);
      if doubleQuote {
        assert ScanToken(s, i) == Scan(String, StringEnd(s, i + 1));
        chars.Advance();
        t := LexString();
        return;
      }
      var operator := Peek([OperatorStart]);
      if operator {
        assert ScanToken(s, i) == Scan(Operator, OperatorEnd(s, i));
        t := LexOperator();
        return;
      }
      assert ScanToken(s, i) == Scan(String, i);
      t := chars.Emit(String);
    }

    method LexIdentifier() returns (t: Token)
      requires Valid()
      modifies chars
      ensures Valid() && chars.length == 0
      ensures chars.index == IdentifierEnd(chars.input, old(chars.index))
      ensures t.kind == Identifier && t.index == old(chars.index - chars.length)
      ensures t.literal == chars.input[t.index..chars.index]
    {
      while chars.Has(0)
        invariant Valid()
        invariant chars.index - chars.length == old(chars.index - chars.length)
        invariant IdentifierEnd(chars.input, chars.index) == IdentifierEnd(chars.input, old(chars.index))
        decreases |chars.input| - chars.index
      {
        var part := Peek([IdentifierPart]);
        if !part {
          break;
        }
        chars.Advance();
      }
      t := chars.Emit(Identifier);
    }

    method LexNumber() returns (t: Token)
      requires Valid()
      modifies chars
      ensures Valid() && chars.length == 0
      ensures chars.index == NumberEnd(chars.input, old(chars.index)).end
      ensures t.kind == NumberEnd(chars.input, old(chars.index)).kind
      ensures t.index == old(chars.index - chars.length)
      ensures t.literal == chars.input[t.index..chars.index]
    {
      while chars.Has(0)
        invariant Valid()
        invariant chars.index - chars.length == old(chars.index - chars.length)
        invariant NumberEnd(chars.input, chars.index) == NumberEnd(chars.input, old(chars.index))
        decreases |chars.input| - chars.index
      {
        var digit := Peek([Digit]);
        var dot := Peek([Lit('.')]);
        if !(digit || dot) {
          break;
        }
        if dot && chars.Has(1) {
          chars.Advance();
          ghost var fraction := chars.index;
          while chars.Has(0)
            invariant Valid()
            invariant chars.index - chars.length == old(chars.index - chars.length)
            invariant fraction <= chars.index
            invariant DigitsEnd(chars.input, chars.index) == DigitsEnd(chars.input, fraction)
            decreases |chars.input| - chars.index
          {
            var more := Peek([Digit]);
            if !more {
              break;
            }
            chars.Advance();
          }
          t := chars.Emit(Decimal);
          return;
        }
        chars.Advance();
      }
      t := chars.Emit(Integer);
    }

    method LexCharacter() returns (t: Token)
      requires Valid()
      modifies chars
      ensures Valid() && chars.length == 0
      ensures chars.index == CharacterEnd(chars.input, old(chars.index))
      ensures t.kind == Character && t.index == old(chars.index - chars.length)
      ensures t.literal == chars.input[t.index..chars.index]
    {
      ghost var s, i := chars.input, chars.index;
      if !chars.Has(1) {
        t := chars.Emit(Character);
        return;
      }
      var backslash := Peek([Lit('\\')]);
      if backslash {
        chars.Advance();
        var escape := Peek([EscapeLetter]);
        if escape {
          chars.Advance();
        }
        assert chars.index == Next(s, i + 1, EscapeLetter);
        var closing := Peek([Lit('\'')]);
        if closing {
          chars.Advance();
        }
        t := chars.Emit(Character);
        return;
      }
      var control := Peek([Control]);
      if control {
        chars.Advance();
      }
      ghost var j := chars.index;
      assert j == Next(s, i, Control);
      var body := Peek([CharacterBody]);
      if body && chars.Has(1) {
        chars.Advance();
      }
      assert chars.index == if j + 1 < |s| then Next(s, j, CharacterBody) else j;
      var closing := Peek([Lit('\'')]);
      if closing {
        chars.Advance();
      }
      t := chars.Emit(Character);
    }

    method LexString() returns (t: Token)
      requires Valid()
      modifies chars
      ensures Valid() && chars.length == 0
      ensures chars.index == StringEnd(chars.input, old(chars.index))
      ensures t.kind == String && t.index == old(chars.index - chars.length)
      ensures t.literal == chars.input[t.index..chars.index]
    {
      ghost var e := StringEnd(chars.input, chars.index);
      while chars.Has(0)
        invariant Valid()
        invariant chars.index - chars.length == old(chars.index - chars.length)
        invariant StringEnd(chars.input, chars.index) == e
        decreases |chars.input| - chars.index
      {
        ghost var it := StringIteration(chars.input, chars.index);
        var backslash := Peek([Lit('\\')]);
        if backslash {
          chars.Advance();
          var escape := Peek([EscapeLetter]);
          if escape {
            chars.Advance();
          } else {
            assert it == Stop(chars.index);
            t := chars.Emit(String);
            return;
          }
        }
        var closing := Peek([Lit('"')]);
        if closing {
          chars.Advance();
          assert it == Stop(chars.index);
          t := chars.Emit(String);
          return;
        }
        if !chars.Has(1) {
          assert it == Stop(chars.index);
          t := chars.Emit(String);
          return;
        }
        chars.Advance();
        assert it == Continue(chars.index);
      }
      t := chars.Emit(String);
    }

    /** Called only when the current character starts an operator. */
    method LexOperator() returns (t: Token)
      requires Valid() && chars.Has(0)
      modifies chars
      ensures Valid() && chars.length == 0
      ensures chars.index == OperatorEnd(chars.input, old(chars.index))
      ensures t.kind == Operator && t.index == old(chars.index - chars.length)
      ensures t.literal == chars.input[t.index..chars.index]
    {
      ghost var s, i := chars.input, chars.index;
      var bang := Peek([Lit('!')]);
      if bang && chars.Has(1) {
        chars.Advance();
        var equals := Peek([Lit('=')]);
        if equals {
          chars.Advance();
        }
        t := chars.Emit(Operator);
        return;
      }
      var equals := Peek([Lit('=')]);
      if equals && chars.Has(1) {
        chars.Advance();
        var second := Peek([Lit('=')]);
        if second {
          chars.Advance();
        }
        t := chars.Emit(Operator);
        return;
      }
      var ampersand := Peek([Lit('&')]);
      if ampersand && chars.Has(1) {
        chars.Advance();
        var second := Peek([Lit('&')]);
        if second {
          chars.Advance();
        }
        t := chars.Emit(Operator);
        return;
      }
      var bar := Peek([Lit('|')]);
      if bar && chars.Has(1) {
        chars.Advance();
        var second := Peek([Lit('|')]);
        if second {
          chars.Advance();
        }
        t := chars.Emit(Operator);
        return;
      }
      assert OperatorEnd(s, i) == i + 1;
      chars.Advance();
      t := chars.Emit(Operator);
    }
  }

  /** `new Lexer(input).lex()`: the lexer's entry point. */
  method LexAll(input: string) returns (r: Outcome)
    ensures r == LexFrom(input, 0)
  {
    var lexer := new Lexer(input);
    r := lexer.Lex();
  }
}
