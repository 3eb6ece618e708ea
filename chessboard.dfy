/**
 * The board the pieces query and move on. The board keeps the occupied
 * squares as a map from square to piece; a square absent from the map is
 * empty. Pieces are compared by identity, so the board is generic in the
 * piece type and needs only equality on it.
 */
module Chessboard {
  import opened Data

  /**
   * The board invariant: every occupied square is on the 8x8 grid, and no
   * piece stands on two squares (at most one piece per square is given by
   * the map itself).
   */
  ghost predicate WellFormed<P>(cells: map<Square, P>)
  {
    && (forall s | s in cells :: OnBoard(s))
    && (forall s, t | s in cells && t in cells && cells[s] == cells[t] :: s == t)
  }

  /** The k-th square in row-major order; k in [0, 64) enumerates the board. */
  function SquareAt(k: nat): (s: Square)
    requires k < BoardSize * BoardSize
    ensures OnBoard(s)
  {
    Square(k / BoardSize, k % BoardSize)
  }

  /** The position of an on-board square in the row-major enumeration. */
  function IndexOf(s: Square): (k: nat)
    requires OnBoard(s)
    ensures k < BoardSize * BoardSize && SquareAt(k) == s
  {
    s.row * BoardSize + s.col
  }

  /**
   * Scans the squares from index k on, in row-major order, for the square
   * holding p.
   */
  function FindFrom<P(==)>(cells: map<Square, P>, p: P, k: nat): (r: Option<Square>)
    requires k <= BoardSize * BoardSize
    ensures r.Some? ==> r.value in cells && cells[r.value] == p
    ensures r.None? ==>
      forall j | k <= j < BoardSize * BoardSize :: !(SquareAt(j) in cells && cells[SquareAt(j)] == p)
    decreases BoardSize * BoardSize - k
  {
    if k == BoardSize * BoardSize then None
    else if SquareAt(k) in cells && cells[SquareAt(k)] == p then Some(SquareAt(k))
    else FindFrom(cells, p, k + 1)
  }

  /**
   * The square holding p, or None when p is not on the board. On a
   * well-formed board the answer is the piece's one square.
   */
  function Find<P(==)>(cells: map<Square, P>, p: P): (r: Option<Square>)
    requires WellFormed(cells)
    ensures r.Some? <==> p in cells.Values
    ensures forall s | s in cells && cells[s] == p :: r == Some(s)
  {
    var r := FindFrom(cells, p, 0);
    assert forall s | s in cells && cells[s] == p :: SquareAt(IndexOf(s)) == s;
    r
  }

  /**
   * The occupancy after moving the occupant of `from` to `to`: the
   * destination is overwritten with whatever stood on `from` (emptied when
   * `from` was empty), then `from` is cleared. Any piece that stood on
   * `to` is dropped.
   */
  function Relocated<P>(cells: map<Square, P>, from: Square, to: Square): (r: map<Square, P>)
    ensures from !in r
    ensures from != to ==> (to in r <==> from in cells)
    ensures from != to && from in cells ==> r[to] == cells[from]
    ensures forall s | s != from && s != to :: (s in r <==> s in cells) && (s in r ==> r[s] == cells[s])
  {
    (if from in cells then cells[to := cells[from]] else cells - {to}) - {from}
  }

  /** Moving onto an on-board square keeps the board invariant. */
  lemma RelocatedWellFormed<P>(cells: map<Square, P>, from: Square, to: Square)
    requires WellFormed(cells)
    requires OnBoard(to)
    ensures WellFormed(Relocated(cells, from, to))
  {
  }

  /**
   * After a move between two different squares, the moving piece is found
   * on the destination and a piece captured there is no longer found.
   */
  lemma RelocatedFind<P>(cells: map<Square, P>, from: Square, to: Square)
    requires WellFormed(cells)
    requires OnBoard(to) && from != to && from in cells
    ensures WellFormed(Relocated(cells, from, to))
    ensures Find(Relocated(cells, from, to), cells[from]) == Some(to)
    ensures to in cells ==> Find(Relocated(cells, from, to), cells[to]) == None
  {
  }

  /**
   * The board. `cells` holds the occupied squares; the board is mutated in
   * place only by MovePiece.
   */
  class Board<P(==)> {
    var cells: map<Square, P>

    ghost predicate Valid()
      reads this
    {
      WellFormed(cells)
    }

    /** A board with the given placement (the game set-up itself is not modelled). */
    constructor (placement: map<Square, P>)
      requires WellFormed(placement)
      ensures Valid() && cells == placement
    {
      cells := placement;
    }

    /** The squares that hold a piece. */
    function Occupied(): (occupied: set<Square>)
      reads this
      requires Valid()
      ensures forall s | s in occupied :: OnBoard(s)
    {
      cells.Keys
    }

    /**
     * The occupant of a square, None when the square is empty. A square
     * off the board is never occupied, so it reads as empty.
     */
    function GetPiece(s: Square): (r: Option<P>)
      reads this
      requires Valid()
      ensures r.None? <==> s !in Occupied()
      ensures !OnBoard(s) ==> r.None?
      ensures r.Some? ==> Find(cells, r.value) == Some(s)
    {
      if s in cells then Some(cells[s]) else None
    }

    /** The square the piece p stands on, None when p is not on the board. */
    function FindPiece(p: P): (r: Option<Square>)
      reads this
      requires Valid()
      ensures r.Some? <==> p in cells.Values
      ensures r.Some? ==> OnBoard(r.value) && GetPiece(r.value) == Some(p)
    {
      Find(cells, p)
    }

    /**
     * Moves whatever stands on `from` to `to`, overwriting the occupant of
     * `to`. Both squares must lie on the board; otherwise the board is left
     * as it was and OutOfBounds is reported.
     */
    method MovePiece(from: Square, to: Square) returns (r: Outcome)
      requires Valid()
      modifies this
      ensures Valid()
      ensures OnBoard(from) && OnBoard(to) ==> r == Done && cells == Relocated(old(cells), from, to)
      ensures !(OnBoard(from) && OnBoard(to)) ==> r == Fail(OutOfBounds) && cells == old(cells)
    {
      if !(OnBoard(from) && OnBoard(to)) {
        return Fail(OutOfBounds);
      }
      var moving := GetPiece(from);
      match moving {
        case Some(p) => cells := cells[to := p];
        case None => cells := cells - {to};
      }
      cells := cells - {from};
      r := Done;
    }
  }
}
