# Chessington move generation in Dafny

This project models the piece move generator of the Chessington chess
engine (`chessington/engine/pieces.py`). Every piece is owned by a player. A
piece asks the board where it stands and which squares are occupied, and from
that it lists the squares it may move to. Only the pawn has a rule. White
pawns move up the rows and black pawns move down them. Each pawn steps one
square onto an empty square, and two squares from its starting row when both
squares are empty. Only the white pawn also captures diagonally, onto any
occupied square, whoever owns it. Knights, bishops, rooks, queens and kings
offer no moves. A piece can also move itself: it finds its square on the
board and hands the move to the board.

Layout:

- `data.dfy` (module `Data`): `Player`, `Square` (a row/column pair of
  integers) and the `Option`, `Result` and `Outcome` types. The board's
  failures are values of these types.
- `chessboard.dfy` (module `Chessboard`): the board, as the class `Board`. It
  holds a map from occupied squares to pieces. Its invariant is that every
  occupied square is on the 8x8 grid and that no piece stands on two squares.
  It answers "what stands here" (`GetPiece`) and "where does this piece stand"
  (`FindPiece`), and relocates a piece (`MovePiece`).
- `pieces.dfy` (module `Pieces`): the class `Piece`. Its `kind` tag replaces
  the source's one subclass per piece kind.
  - The pawn rule is the pure function `PawnMoves`. Its contract pins down
    the exact list: which squares are in it, by the displacement rule
    `PawnMayReach`, and in which order, by `MoveOrder`.
  - `Piece.GetAvailableMoves` builds the list one candidate at a time, as the
    source does. It is proved equal to the pure function.
  - Lemmas state the rule's properties one by one.

Decisions about the code that is not part of this model:

- `chessington/engine/board.py` and `chessington/engine/data.py` are not part
  of this model. The board is modelled abstractly from how the pieces use it:
  - `get_piece`, `find_piece` and `move_piece` are written over the occupancy
    map.
  - `Square.at` is plain construction, with no bounds check.
- The white pawn's diagonals are built without a column check
  (`pieces.py:53` and `pieces.py:57`). From column 0 or column 7 the
  diagonal square is therefore off the board. In this model an off-board
  square reads as empty, because the board invariant keeps every occupied
  square on the grid. Such a diagonal is never offered
  (`PawnMovesStayOnBoard`). No column precondition and no bounds check were
  added to the move list.
- `find_piece` on a piece that is not on the board is an error in this model
  (`NotOnBoard`). A pawn's move list and `MoveTo` report it.
- `move_piece` writes the destination with whatever stands on the source
  square, then clears the source square. Any piece that stood on the
  destination is dropped. A square off the grid is refused with
  `OutOfBounds` and the board is left unchanged.
- `FindPiece` scans the 64 squares in row-major order. The contract of
  `Chessboard.Find` shows that on a well-formed board the answer is the
  piece's one square, so the scan order makes no difference.

## Model

| member | source | states |
|---|---|---|
| `Pieces.PawnMoves` | chessington/engine/pieces.py:37-72 | The pawn's list holds exactly the squares the displacement rule `PawnMayReach` admits. A white pawn gets these only below row 7: one row up when that square is empty, two rows up from row 1 when both squares are empty, and one row up and one column aside when that square is occupied. A black pawn gets these only above row 0: one row down when that square is empty, and two rows down from row 6 when both squares are empty. A black pawn has no diagonal move. The list is strictly ordered: single step, double step, column+1 diagonal, column-1 diagonal. So there are no duplicates, at most 4 white moves and at most 2 black moves. |
| `Pieces.AvailableMoves` | chessington/engine/pieces.py:37-117 | A pawn not on the board yields the NotOnBoard error. Otherwise the pawn's list is exactly the `PawnMayReach` squares from where it stands. Knight, bishop, rook, queen and king yield the empty list on every board. |
| `Pieces.Piece.GetAvailableMoves` | chessington/engine/pieces.py:37-72 | Building the list step by step with appends gives exactly `AvailableMoves`, for the square the board reports and the occupied squares. The method reads the board and never changes it (it has no modifies clause). It depends on occupancy only, never on who owns an occupant. |
| `Pieces.Piece.MoveTo` | chessington/engine/pieces.py:24-29 | The piece's current square comes from `FindPiece`. The new board is the board's `Relocated` of that square and the requested square. An absent piece or an off-board target leaves the board unchanged and is reported. After a real move the piece is found on the requested square. The board invariant is kept. |
| `Pieces.PawnOnLastRowIsStuck` | chessington/engine/pieces.py:42 | A white pawn on row 7 (or beyond) and a black pawn on row 0 (or below) have no moves, whatever the board. |
| `Pieces.PawnStepIffEmpty` | chessington/engine/pieces.py:44-46 | Below its last row, a pawn's single step is in its list exactly when that square is unoccupied. The same holds for black (lines 64-66). |
| `Pieces.PawnDoubleStep` | chessington/engine/pieces.py:48-51 | The double step is in the list exactly when the pawn is on row 1 (white) or row 6 (black) and both the square passed over and the destination are unoccupied. A blocked first square therefore blocks the double step. |
| `Pieces.WhiteDiagonalIffOccupied` | chessington/engine/pieces.py:53-59 | Below row 7, each of the white pawn's two diagonal squares is in the list exactly when it is occupied. Only occupancy is an input, so the occupant may be of either colour. |
| `Pieces.BlackPawnStaysInColumn` | chessington/engine/pieces.py:61-70 | Every move of a black pawn lies in its own column and on a lower row, whatever the occupancy: black has no diagonal capture. |
| `Pieces.PawnMovesLocal` | chessington/engine/pieces.py:44-59 | The list depends on no squares other than the four the pawn probes. Two occupancies that agree on them give the same list. |
| `Pieces.PawnOnEmptyBoard` | chessington/engine/pieces.py:42-51 | On an empty board a pawn below its last row gets the single step. From its starting row it also gets the double step. |
| `Pieces.PawnMovesStayOnBoard` | chessington/engine/pieces.py:53-59 | A pawn on the board, with only on-board squares occupied, is never offered an off-board square. This includes the unchecked diagonals at columns 0 and 7. |
| `Pieces.WhitePawnOpeningExample` | chessington/engine/pieces.py:44-51 | A white pawn on (1, 3) of an otherwise empty board gets [(2, 3), (3, 3)]. |
| `Pieces.WhitePawnCaptureExample` | chessington/engine/pieces.py:44-55 | A white pawn on (4, 3) with a piece on (5, 4) gets [(5, 3), (5, 4)]. |
| `Chessboard.Board.FindPiece` | chessington/engine/pieces.py:41 | The square returned holds the piece, and it is on the board. None is returned exactly when the piece stands nowhere. |
| `Chessboard.Find` | chessington/engine/pieces.py:28 | On a well-formed board, the row-major scan returns the piece's unique square, and None exactly when the piece is absent. |
| `Chessboard.Board.GetPiece` | chessington/engine/pieces.py:45 | None is returned exactly for unoccupied squares, so every off-board square reads as empty. The returned piece is found back on the same square by `Find`. |
| `Chessboard.Board.MovePiece` | chessington/engine/pieces.py:29 | With both squares on the board, the new occupancy is `Relocated(old, from, to)` and the result is Done. Otherwise the result is OutOfBounds and the board is unchanged. The board invariant is kept. |
| `Chessboard.Relocated` | chessington/engine/pieces.py:29 | After a move the source square is empty. For distinct squares, the destination holds what stood on the source (it is empty if the source was). Every other square is unchanged. |
| `Chessboard.RelocatedWellFormed` | chessington/engine/pieces.py:29 | A move onto an on-board square keeps every occupied square on the board and every piece on at most one square. |
| `Chessboard.RelocatedFind` | chessington/engine/pieces.py:29 | After a move between distinct squares, the moved piece is found on the destination. A piece captured there is found nowhere. |

## Left out

- `chessington/engine/board.py` and `chessington/engine/data.py` are not part of this model. `Board` is an occupancy map with the three queries the pieces use. The real board's storage, its initial layout and any turn bookkeeping are not modelled.
- The abstract base class machinery (`ABC`, `abstractmethod`) is replaced by the `Kind` tag and a `match`.
- Chess rules the source does not implement are not added: check, castling, en passant, promotion, capture that checks ownership, and a black diagonal capture.
- Python's list indexing is not modelled. `get_piece` on an off-board square therefore does not wrap (column -1) or raise (column 8); it reads as empty.
- Moving a piece onto its own square is not pinned to the real board's behaviour, because `board.py` is not part of this model. Here the square ends up empty, because the board writes the destination and then clears the source.
