/**
 * The value types the move generator works with: the two players, the
 * squares of the 8x8 board, and the results of board queries that can fail.
 */
module Data {

  /** The two sides. White pawns move towards higher rows, black pawns towards lower rows. */
  datatype Player = White | Black

  /**
   * A board coordinate. The factory that builds squares does no bounds
   * checking in this model, so a square may lie off the board (a pawn's
   * diagonal from column 0 or column 7 does).
   */
  datatype Square = Square(row: int, col: int)

  /** Number of rows and of columns of the board. */
  const BoardSize: int := 8

  predicate OnBoard(s: Square)
  {
    0 <= s.row < BoardSize && 0 <= s.col < BoardSize
  }

  datatype Option<T> = None | Some(value: T)

  /** What can go wrong when the board is asked about a piece or a square. */
  datatype Error =
    | NotOnBoard   // the piece asked about is not placed on the board
    | OutOfBounds  // a square outside the 8x8 grid was used for a move

  datatype Result<T> = Ok(value: T) | Err(error: Error)

  /** The result of an operation that returns nothing but may fail. */
  datatype Outcome = Done | Fail(error: Error)
}
