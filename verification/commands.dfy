/**
 * The command value exchanged between the input queue, the legality gate, the pieces and
 * their state machines. The source's `Command` class is not part of this model; its four
 * fields are inferred from how the core constructs and reads them.
 */
module Commands {
  import Board

  /** A command parameter: an algebraic square name, or a (row, col) cell tuple. */
  datatype CellRef = Square(name: string) | Coords(cell: Board.Cell)

  /** `piece_id` holds a piece's string id, or its unique number when the input side builds it. */
  datatype PieceRef = ById(id: string) | ByNumber(n: int)

  datatype Command = Command(timestamp: int, pieceId: PieceRef, kind: string, src: CellRef, dst: CellRef)

  /** The five state names, which double as the command types that lead into them. */
  const IdleName := "idle"
  const MoveName := "move"
  const JumpName := "jump"
  const ShortRestName := "short_rest"
  const LongRestName := "long_rest"

  /** Command types of a piece standing still: idle or resting. */
  predicate IsResting(kind: string) {
    kind == IdleName || kind == LongRestName || kind == ShortRestName
  }
}
