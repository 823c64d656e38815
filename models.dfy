// The value types the king rules read: positions, pieces and the board
// snapshot. Positions are immutable values, so `samePosition` is datatype
// equality and `clone` is the value itself.
module Models {

  /** `undefined` versus a computed value, as for a piece's cached moves. */
  datatype Option<T> = None | Some(value: T)

  /** A square; coordinates are unbounded, there is no board-size limit. */
  datatype Position = Position(x: int, y: int)

  /** Team identifiers are only ever compared for equality. */
  type TeamType = int

  /**
   * The fields of a piece that the king rules read. `possibleMoves` is the
   * per-turn cache of the piece's destinations; `None` means not computed.
   */
  datatype Piece = Piece(
    position: Position,
    team: TeamType,
    isRook: bool,
    hasMoved: bool,
    possibleMoves: Option<seq<Position>>)

  /** A board snapshot: every piece currently in play, in board order. */
  type Board = seq<Piece>

  /** The board invariant the game keeps: no two pieces share a square. */
  predicate WellFormed(board: Board)
  {
    forall i, j :: 0 <= i < j < |board| ==> board[i].position != board[j].position
  }

  /** No position occurs twice in `s`. */
  predicate Distinct(s: seq<Position>)
  {
    forall i, j :: 0 <= i < j < |s| ==> s[i] != s[j]
  }
}
