/** Source positions, protocol positions and the conversion between them
    (languageserver/conversion/conversion.go and languageserver/protocol/range.go). */
module Positions {

  const WORD: nat := 0x1_0000_0000

  type uint32 = x: int | 0 <= x < WORD

  /** A conversion to an unsigned 32-bit number keeps the low 32 bits. */
  function Uint32(x: int): uint32 {
    x % WORD
  }

  /** Unsigned 32-bit subtraction wraps. */
  function Sub32(a: uint32, b: uint32): uint32 {
    Uint32(a - b)
  }

  /** A position of the syntax tree: lines count from one, columns and offsets from zero. */
  datatype AstPosition = AstPosition(offset: int, line: int, column: int) {
    /** Further along the same line. */
    function Shifted(length: int): AstPosition {
      AstPosition(offset + length, line, column + length)
    }
  }

  /** A position of the protocol: lines and characters count from zero. */
  datatype Position = Position(line: uint32, character: uint32)

  datatype Range = Range(start: Position, end: Position)

  function ASTToProtocolPosition(pos: AstPosition): Position {
    Position(Uint32(pos.line - 1), Uint32(pos.column))
  }

  /** Ends of syntax tree ranges are inclusive, ends of protocol ranges exclusive. */
  function ASTToProtocolRange(startPos: AstPosition, endPos: AstPosition): Range {
    Range(ASTToProtocolPosition(startPos), ASTToProtocolPosition(endPos.Shifted(1)))
  }

  function Compare(p: Position, q: Position): int {
    if p.line < q.line then -1
    else if p.line > q.line then 1
    else if p.character < q.character then -1
    else if p.character > q.character then 1
    else 0
  }

  /** The position can be converted without losing bits. */
  predicate Fits(pos: AstPosition) {
    1 <= pos.line <= WORD && 0 <= pos.column < WORD
  }

  /** On positions that fit, the conversion is exact, so it keeps the order and can be undone. */
  lemma ConversionKeepsOrder(a: AstPosition, b: AstPosition)
    requires Fits(a) && Fits(b)
    ensures var order := Compare(ASTToProtocolPosition(a), ASTToProtocolPosition(b));
      && (order < 0 <==> a.line < b.line || (a.line == b.line && a.column < b.column))
      && (order == 0 <==> a.line == b.line && a.column == b.column)
  {
    Exact(a);
    Exact(b);
  }

  lemma Exact(pos: AstPosition)
    requires Fits(pos)
    ensures ASTToProtocolPosition(pos) == Position(pos.line - 1, pos.column)
  {
  }

  /** A range of the syntax tree keeps its start, and its end, which is inclusive there and exclusive in
      the protocol, moves one character on. */
  lemma RangeExact(startPos: AstPosition, endPos: AstPosition)
    requires Fits(startPos) && Fits(endPos.Shifted(1))
    ensures ASTToProtocolRange(startPos, endPos)
         == Range(Position(startPos.line - 1, startPos.column), Position(endPos.line - 1, endPos.column + 1))
  {
    Exact(startPos);
    Exact(endPos.Shifted(1));
  }
}
