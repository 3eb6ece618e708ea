/**
 * The pieces and their move generators. Each piece has a fixed kind and
 * owner and no position of its own: it asks the board where it stands and
 * which squares are occupied. Only the pawn has a movement rule; the other
 * five kinds offer no moves.
 */
module Pieces {
  import opened Data
  import opened Chessboard

  /** The six piece kinds, one per piece class of the source. */
  datatype Kind = Pawn | Knight | Bishop | Rook | Queen | King

  /** The square `steps` rows ahead of `from` in the direction `player`'s pawns move. */
  function Ahead(player: Player, from: Square, steps: int): Square
  {
    match player
    case White => Square(from.row + steps, from.col)
    case Black => Square(from.row - steps, from.col)
  }

  /**
   * Whether a pawn of `player` standing on `from` may move to `to`, stated
   * by the displacement from `from` to `to`:
   *  - a white pawn below row 7 steps one row up onto an empty square, two
   *    rows up from row 1 when both squares in between and at the end are
   *    empty, and one row up and one column aside onto an occupied square
   *    (whoever owns the occupant);
   *  - a black pawn above row 0 steps one row down onto an empty square, and
   *    two rows down from row 6 when both squares are empty; it has no
   *    diagonal move.
   * Column bounds are not checked for the diagonal: from column 0 or 7 the
   * diagonal square lies off the board, where nothing stands.
   */
  predicate PawnMayReach(player: Player, from: Square, to: Square, occupied: set<Square>)
  {
    var dr := to.row - from.row;
    var dc := to.col - from.col;
    match player
    case White =>
      && from.row < 7
      && (|| (dr == 1 && dc == 0 && to !in occupied)
          || (dr == 2 && dc == 0 && from.row == 1 && Ahead(White, from, 1) !in occupied && to !in occupied)
          || (dr == 1 && (dc == 1 || dc == -1) && to in occupied))
    case Black =>
      && from.row > 0
      && (|| (dr == -1 && dc == 0 && to !in occupied)
          || (dr == -2 && dc == 0 && from.row == 6 && Ahead(Black, from, 1) !in occupied && to !in occupied))
  }

  /**
   * The position of a pawn move in the generated list: the single step
   * first, then the double step, then the diagonal towards the higher
   * column, then the diagonal towards the lower column.
   */
  function MoveOrder(from: Square, to: Square): int
  {
    if to.col == from.col then
      (if to.row - from.row == 1 || to.row - from.row == -1 then 0 else 1)
    else if to.col == from.col + 1 then 2
    else 3
  }

  /**
   * The destination squares of a pawn of `player` on `from`, given the set
   * of occupied squares. The list holds exactly the squares PawnMayReach
   * admits, each once, in MoveOrder.
   */
  function PawnMoves(player: Player, from: Square, occupied: set<Square>): (moves: seq<Square>)
    ensures forall to :: to in moves <==> PawnMayReach(player, from, to, occupied)
    ensures forall i, j | 0 <= i < j < |moves| :: MoveOrder(from, moves[i]) < MoveOrder(from, moves[j])
    ensures |moves| <= (if player == White then 4 else 2)
  {
    match player
    case White =>
      if from.row < 7 then
        var next := Ahead(White, from, 1);
        var following := Ahead(White, from, 2);
        var diagonalLeft := Square(from.row + 1, from.col + 1);
        var diagonalRight := Square(from.row + 1, from.col - 1);
        (if next !in occupied then [next] else [])
        + (if from.row == 1 && next !in occupied && following !in occupied then [following] else [])
        + (if diagonalLeft in occupied then [diagonalLeft] else [])
        + (if diagonalRight in occupied then [diagonalRight] else [])
      else []
    case Black =>
      if from.row > 0 then
        var next := Ahead(Black, from, 1);
        var following := Ahead(Black, from, 2);
        (if next !in occupied then [next] else [])
        + (if from.row == 6 && next !in occupied && following !in occupied then [following] else [])
      else []
  }

  /**
   * The answer to "which squares may this piece move to": for a pawn, the
   * pawn rule from the square the board reports (an error when the pawn is
   * not on the board); for every other kind, no squares, whatever the board.
   */
  function AvailableMoves(kind: Kind, player: Player, at: Option<Square>, occupied: set<Square>)
    : (r: Result<seq<Square>>)
    ensures kind != Pawn ==> r == Ok([])
    ensures kind == Pawn ==> (r.Err? <==> at.None?) && (r.Err? ==> r.error == NotOnBoard)
    ensures kind == Pawn && at.Some? ==>
      forall to :: to in r.value <==> PawnMayReach(player, at.value, to, occupied)
  {
    match kind
    case Pawn => if at.None? then Err(NotOnBoard) else Ok(PawnMoves(player, at.value, occupied))
    case Knight | Bishop | Rook | Queen | King => Ok([])
  }

  /** A chess piece: its kind and owner never change; its square is known only to the board. */
  class Piece {
    const kind: Kind
    const player: Player

    constructor (kind: Kind, player: Player)
      ensures this.kind == kind && this.player == player
    {
      this.kind := kind;
      this.player := player;
    }

    /**
     * Lists the squares this piece may move to, building the pawn's list one
     * candidate at a time. The method has no modifies clause: generating
     * moves leaves the board as it was. The result depends on the board only
     * through where this piece stands and which squares are occupied, never
     * on who owns an occupant.
     */
    method GetAvailableMoves(board: Board<Piece>) returns (r: Result<seq<Square>>)
      requires board.Valid()
      ensures r == AvailableMoves(kind, player, board.FindPiece(this), board.Occupied())
    {
      match kind {
        case Pawn =>
          var availableMoves: seq<Square> := [];
          if player == White {
            var current := board.FindPiece(this);
            if current.None? {
              return Err(NotOnBoard);
            }
            var square := current.value;
            if square.row < 7 {
              var nextSquare := Square(square.row + 1, square.col);
              if board.GetPiece(nextSquare).None? {
                availableMoves := availableMoves + [nextSquare];
              }
              if square.row == 1 {
                var followingSquare := Square(square.row + 2, square.col);
                if board.GetPiece(nextSquare).None? && board.GetPiece(followingSquare).None? {
                  availableMoves := availableMoves + [followingSquare];
                }
              }
              var diagonalLeft := Square(square.row + 1, square.col + 1);
              if board.GetPiece(diagonalLeft).Some? {
                availableMoves := availableMoves + [diagonalLeft];
              }
              var diagonalRight := Square(square.row + 1, square.col - 1);
              if board.GetPiece(diagonalRight).Some? {
                availableMoves := availableMoves + [diagonalRight];
              }
            }
            assert availableMoves == PawnMoves(White, square, board.Occupied());
          } else {
            var current := board.FindPiece(this);
            if current.None? {
              return Err(NotOnBoard);
            }
            var square := current.value;
            if square.row > 0 {
              var nextSquare := Square(square.row - 1, square.col);
              if board.GetPiece(nextSquare).None? {
                availableMoves := availableMoves + [nextSquare];
              }
              if square.row == 6 {
                var followingSquare := Square(square.row - 2, square.col);
                if board.GetPiece(nextSquare).None? && board.GetPiece(followingSquare).None? {
                  availableMoves := availableMoves + [followingSquare];
                }
              }
            }
            assert availableMoves == PawnMoves(Black, square, board.Occupied());
          }
          r := Ok(availableMoves);
        case Knight | Bishop | Rook | Queen | King =>
          r := Ok([]);
      }
    }

    /**
     * Moves this piece to `newSquare`: asks the board where the piece
     * stands and hands that square and `newSquare` to the board's
     * MovePiece. A piece that is not on the board is reported and the
     * board is left alone.
     */
    method MoveTo(board: Board<Piece>, newSquare: Square) returns (r: Outcome)
      requires board.Valid()
      modifies board
      ensures board.Valid()
      ensures old(board.FindPiece(this)).None? ==> r == Fail(NotOnBoard) && board.cells == old(board.cells)
      ensures old(board.FindPiece(this)).Some? && OnBoard(newSquare) ==>
        r == Done && board.cells == Relocated(old(board.cells), old(board.FindPiece(this)).value, newSquare)
      ensures old(board.FindPiece(this)).Some? && !OnBoard(newSquare) ==>
        r == Fail(OutOfBounds) && board.cells == old(board.cells)
      ensures old(board.FindPiece(this)).Some? && OnBoard(newSquare) && old(board.FindPiece(this)).value != newSquare ==>
        board.FindPiece(this) == Some(newSquare)
    {
      var currentSquare := board.FindPiece(this);
      if currentSquare.None? {
        return Fail(NotOnBoard);
      }
      r := board.MovePiece(currentSquare.value, newSquare);
    }
  }

  /** A white pawn on row 7 or beyond has no moves; a black pawn on row 0 or below has none. */
  lemma PawnOnLastRowIsStuck(player: Player, from: Square, occupied: set<Square>)
    requires (player == White && from.row >= 7) || (player == Black && from.row <= 0)
    ensures PawnMoves(player, from, occupied) == []
  {
  }

  /** Below its last row, a pawn may step one square ahead exactly when that square is empty. */
  lemma PawnStepIffEmpty(player: Player, from: Square, occupied: set<Square>)
    requires (player == White && from.row < 7) || (player == Black && from.row > 0)
    ensures Ahead(player, from, 1) in PawnMoves(player, from, occupied) <==> Ahead(player, from, 1) !in occupied
  {
  }

  /**
   * The double step is offered only from the starting row (1 for white, 6
   * for black) and only when both the square passed over and the
   * destination are empty; a blocked first square blocks it too.
   */
  lemma PawnDoubleStep(player: Player, from: Square, occupied: set<Square>)
    ensures Ahead(player, from, 2) in PawnMoves(player, from, occupied) <==>
      && from.row == (if player == White then 1 else 6)
      && Ahead(player, from, 1) !in occupied
      && Ahead(player, from, 2) !in occupied
  {
  }

  /**
   * Below row 7, a white pawn's diagonal squares are among its moves
   * exactly when they are occupied; the occupant's owner plays no part.
   */
  lemma WhiteDiagonalIffOccupied(from: Square, occupied: set<Square>)
    requires from.row < 7
    ensures Square(from.row + 1, from.col + 1) in PawnMoves(White, from, occupied) <==>
      Square(from.row + 1, from.col + 1) in occupied
    ensures Square(from.row + 1, from.col - 1) in PawnMoves(White, from, occupied) <==>
      Square(from.row + 1, from.col - 1) in occupied
  {
  }

  /** A black pawn never moves diagonally: all its moves stay in its column, whatever is occupied. */
  lemma BlackPawnStaysInColumn(from: Square, occupied: set<Square>)
    ensures forall to | to in PawnMoves(Black, from, occupied) :: to.col == from.col && to.row < from.row
  {
  }

  /**
   * Move generation looks at no square other than the four a pawn probes:
   * two boards that agree on those squares give the same list.
   */
  lemma PawnMovesLocal(player: Player, from: Square, occupied1: set<Square>, occupied2: set<Square>)
    requires forall s | s in {Ahead(player, from, 1), Ahead(player, from, 2),
                              Square(from.row + 1, from.col + 1), Square(from.row + 1, from.col - 1)} ::
      (s in occupied1 <==> s in occupied2)
    ensures PawnMoves(player, from, occupied1) == PawnMoves(player, from, occupied2)
  {
  }

  /** A white pawn on its starting square (1, 3) of an otherwise empty board may go to (2, 3) or (3, 3). */
  lemma WhitePawnOpeningExample()
    ensures PawnMoves(White, Square(1, 3), {}) == [Square(2, 3), Square(3, 3)]
  {
  }

  /** A white pawn on (4, 3) with a piece on (5, 4) may go to (5, 3) or capture on (5, 4). */
  lemma WhitePawnCaptureExample()
    ensures PawnMoves(White, Square(4, 3), {Square(5, 4)}) == [Square(5, 3), Square(5, 4)]
  {
  }

  /**
   * On an empty board a pawn that is not on its last row has the single
   * step, and the double step as well when it is on its starting row.
   */
  lemma PawnOnEmptyBoard(player: Player, from: Square)
    requires (player == White && from.row < 7) || (player == Black && from.row > 0)
    ensures PawnMoves(player, from, {}) ==
      if from.row == (if player == White then 1 else 6)
      then [Ahead(player, from, 1), Ahead(player, from, 2)]
      else [Ahead(player, from, 1)]
  {
  }

  /**
   * When only on-board squares are occupied, a pawn on the board is never
   * offered an off-board square: the unchecked diagonal from column 0 or 7
   * reads as empty and is dropped.
   */
  lemma PawnMovesStayOnBoard(player: Player, from: Square, occupied: set<Square>)
    requires OnBoard(from)
    requires forall s | s in occupied :: OnBoard(s)
    ensures forall to | to in PawnMoves(player, from, occupied) :: OnBoard(to)
  {
  }
}
