// The occupancy classifier the king rules import. Its implementation is
// not part of this model; these predicates give each query its evident
// meaning over the board snapshot.
module GeneralRules {
  import opened Models

  /** Some piece stands on `p`. */
  predicate TileIsOccupied(p: Position, board: Board)
  {
    exists i :: 0 <= i < |board| && board[i].position == p
  }

  /** Some piece of a team other than `team` stands on `p`. */
  predicate TileIsOccupiedByOpponent(p: Position, board: Board, team: TeamType)
  {
    exists i :: 0 <= i < |board| && board[i].position == p && board[i].team != team
  }

  /** `p` is a destination absent further constraints: empty or a capture. */
  predicate TileIsEmptyOrOccupiedByOpponent(p: Position, board: Board, team: TeamType)
  {
    !TileIsOccupied(p, board) || TileIsOccupiedByOpponent(p, board, team)
  }

  /** On a well-formed board a square held by `team` is never a destination for `team`. */
  lemma OwnTileIsNotDestination(p: Position, board: Board, team: TeamType, i: int)
    requires WellFormed(board)
    requires 0 <= i < |board| && board[i].position == p && board[i].team == team
    ensures !TileIsEmptyOrOccupiedByOpponent(p, board, team)
  {
  }

  /**
   * On a well-formed board, `p` is a destination for `team` exactly when no
   * piece of `team` stands on it.
   */
  lemma DestinationIffNoOwnPiece(p: Position, board: Board, team: TeamType)
    requires WellFormed(board)
    ensures TileIsEmptyOrOccupiedByOpponent(p, board, team)
        <==> forall i :: 0 <= i < |board| && board[i].position == p ==> board[i].team != team
  {
    if !TileIsEmptyOrOccupiedByOpponent(p, board, team) {
      var i :| 0 <= i < |board| && board[i].position == p;
      assert board[i].team == team;
    }
  }
}
