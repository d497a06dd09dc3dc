/** Tokens of the AL language as the parser sees them: the token interface
    (kind, value, start and end coordinates) and the literal token, whose kind
    is fixed to Literal and which carries an immutable literal sub-kind. */
module Tokens {

  datatype Option<+T> = None | Some(value: T)

  /** A (line, column) coordinate in the source buffer, both 1-based. */
  datatype BufferPoint = BufferPoint(line: int, column: int)

  /** The token kinds the parser tests for by name; the lexer's other kinds
      are kept abstract, identified by their numeric code. */
  datatype TokenKind = Literal | Symbol | Identifier | OtherKind(code: int)

  /** The literal sub-kinds of a literal token. */
  datatype LiteralType = Boolean | Date | DateTime | Decimal | String | Time | OtherLiteral(code: int)

  /** A token. Two tokens are the same token when they agree on kind, value
      and span, so textually equal tokens at different places are distinct. */
  datatype Token =
    | AlToken(kind: TokenKind, value: string, start: BufferPoint, end: BufferPoint)
    | LiteralToken(literalType: LiteralType, value: string, start: BufferPoint, end: BufferPoint)
  {
    /** The token's kind; a literal token always reports Literal. */
    function TokenType(): TokenKind {
      if LiteralToken? then Literal else kind
    }

    function StartingLine(): int { start.line }
    function StartingColumn(): int { start.column }
    function EndingLine(): int { end.line }
    function EndingColumn(): int { end.column }
  }

  /** A literal token reports the kind Literal whatever its value and span,
      and keeps the literal type it was built with. */
  lemma LiteralTokenKind(lt: LiteralType, v: string, s: BufferPoint, e: BufferPoint)
    ensures LiteralToken(lt, v, s, e).TokenType() == Literal
    ensures LiteralToken(lt, v, s, e).literalType == lt
  {
  }
}
