/** Tokens produced by the configuration lexer and the token helpers of the
    interpreter (`HasToken`, `IsID`, `IsDots`, `AsChar`, `AsLexeme`, `GetSize`).
    The lexer itself is not part of this model: a token sequence is an input. */
module ConfigTokens {

  /** The token classes the interpreter distinguishes. */
  datatype TokenKind = Identifier | Number | StringLit | CharLit | Dots | Symbol

  /** A token: its class and its text (a run of dots keeps every dot). */
  datatype Token = Token(kind: TokenKind, lexeme: string)

  /** Is there a token at `pos`? Positions are signed in the source, so a
      negative position has no token, just as one at or past the end. */
  predicate HasToken(tokens: seq<Token>, pos: int): (r: bool)
    ensures r ==> 0 <= pos && pos < |tokens| && tokens[pos] in tokens
    ensures pos < 0 || pos >= |tokens| ==> !r
  {
    0 <= pos < |tokens|
  }

  /** The token at `pos` exists and is of class `kind`; false past either end. */
  predicate IsKind(tokens: seq<Token>, pos: int, kind: TokenKind): (r: bool)
    ensures r ==> HasToken(tokens, pos) && tokens[pos].kind == kind
    ensures !HasToken(tokens, pos) ==> !r
  {
    HasToken(tokens, pos) && tokens[pos].kind == kind
  }

  /** An identifier is never a dot run, and there is none past either end. */
  predicate IsID(tokens: seq<Token>, pos: int): (r: bool)
    ensures r ==> HasToken(tokens, pos) && tokens[pos].kind == Identifier && !IsKind(tokens, pos, Dots)
    ensures !HasToken(tokens, pos) ==> !r
  {
    IsKind(tokens, pos, Identifier)
  }

  predicate IsNumber(tokens: seq<Token>, pos: int) { IsKind(tokens, pos, Number) }
  predicate IsChar(tokens: seq<Token>, pos: int)   { IsKind(tokens, pos, CharLit) }
  predicate IsString(tokens: seq<Token>, pos: int) { IsKind(tokens, pos, StringLit) }

  /** A dot run is never an identifier, and there is none past either end. */
  predicate IsDots(tokens: seq<Token>, pos: int): (r: bool)
    ensures r ==> HasToken(tokens, pos) && tokens[pos].kind == Dots && !IsKind(tokens, pos, Identifier)
    ensures !HasToken(tokens, pos) ==> !r
  {
    IsKind(tokens, pos, Dots)
  }

  /** The NUL character, returned where there is no symbol. */
  const NUL: char := 0 as char

  /** First character of a symbol token, NUL for anything else. An empty symbol
      lexeme also yields NUL, as indexing a C++ string at its size does. */
  function AsChar(tokens: seq<Token>, pos: int): (c: char)
    ensures c != NUL ==> IsKind(tokens, pos, Symbol) && |tokens[pos].lexeme| > 0
                         && c == tokens[pos].lexeme[0]
    ensures IsKind(tokens, pos, Symbol) && |tokens[pos].lexeme| > 0 ==> c == tokens[pos].lexeme[0]
  {
    if IsKind(tokens, pos, Symbol) && |tokens[pos].lexeme| > 0 then tokens[pos].lexeme[0] else NUL
  }

  /** Size of the token at `pos`: the number of dots of a dot run, the length
      of any other lexeme, 0 past either end. */
  function GetSize(tokens: seq<Token>, pos: int): (r: nat)
    ensures !HasToken(tokens, pos) ==> r == 0
    ensures HasToken(tokens, pos) ==> r == |tokens[pos].lexeme|
  {
    if HasToken(tokens, pos) then |tokens[pos].lexeme| else 0
  }

  /** Text of the token at `pos`, empty past either end; its length is the
      token's size. */
  function AsLexeme(tokens: seq<Token>, pos: int): (r: string)
    ensures !HasToken(tokens, pos) ==> r == ""
    ensures HasToken(tokens, pos) ==> r == tokens[pos].lexeme
    ensures |r| == GetSize(tokens, pos)
  {
    if HasToken(tokens, pos) then tokens[pos].lexeme else ""
  }
}
