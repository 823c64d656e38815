// King movement and castling: the single-destination test, the enumeration
// of the eight neighbouring squares, and the castling resolver that reads
// the cached moves of the king's rooks and of every enemy piece. Nothing
// here changes the board.
module KingRules {
  import opened Models
  import opened GeneralRules

  // ---------------------------------------------------------------------
  // Geometry
  // ---------------------------------------------------------------------

  /** A unit step in one of the eight compass directions. */
  datatype Offset = Offset(dx: int, dy: int)

  /** The directions in the order the enumeration probes them: N, S, W, E, NE, SE, SW, NW. */
  const Compass: seq<Offset> :=
    [Offset(0, 1), Offset(0, -1), Offset(-1, 0), Offset(1, 0),
     Offset(1, 1), Offset(1, -1), Offset(-1, -1), Offset(-1, 1)]

  function Shift(p: Position, o: Offset): Position
  {
    Position(p.x + o.dx, p.y + o.dy)
  }

  /** `to` is at most one square from `from` along each axis (possibly `from` itself). */
  predicate WithinOneStep(from: Position, to: Position)
  {
    -1 <= to.x - from.x <= 1 && -1 <= to.y - from.y <= 1
  }

  /** `to` is one king step from `from`. */
  predicate IsKingStep(from: Position, to: Position)
  {
    to != from && WithinOneStep(from, to)
  }

  /** The eight neighbours of `p`, in probing order. */
  function Neighbours(p: Position): seq<Position>
  {
    seq(|Compass|, k requires 0 <= k < |Compass| => Shift(p, Compass[k]))
  }

  lemma NeighboursAreKingSteps(p: Position, d: Position)
    ensures |Neighbours(p)| == 8
    ensures d in Neighbours(p) <==> IsKingStep(p, d)
  {
    var ns := Neighbours(p);
    if IsKingStep(p, d) {
      var dx, dy := d.x - p.x, d.y - p.y;
      var k :=
        if dx == 0 && dy == 1 then 0
        else if dx == 0 && dy == -1 then 1
        else if dx == -1 && dy == 0 then 2
        else if dx == 1 && dy == 0 then 3
        else if dx == 1 && dy == 1 then 4
        else if dx == 1 && dy == -1 then 5
        else if dx == -1 && dy == -1 then 6
        else 7;
      assert ns[k] == d;
    }
  }

  lemma NeighboursDistinct(p: Position)
    ensures Distinct(Neighbours(p))
  {
  }

  // ---------------------------------------------------------------------
  // kingMove
  // ---------------------------------------------------------------------

  /** The sign of `desired - initial`: -1, 1, or 0 when they are equal. */
  function Multiplier(initial: int, desired: int): (m: int)
    ensures m == 0 <==> desired == initial
    ensures m > 0 <==> desired > initial
    ensures -1 <= m <= 1
  {
    if desired < initial then -1 else if desired > initial then 1 else 0
  }

  /**
   * Whether the king of `team` may go from `initialPosition` to
   * `desiredPosition`. The source's loop runs once, with i = 1: the only
   * square it looks at is one step in the direction of the target, and
   * the move is accepted only if that square is the target and is empty or
   * held by an opponent. (Its `break` on an occupied intermediate square
   * ends that single iteration and so never changes the result.)
   */
  function KingMove(initialPosition: Position, desiredPosition: Position, team: TeamType, board: Board): (r: bool)
    ensures !WithinOneStep(initialPosition, desiredPosition) ==> !r
    ensures WithinOneStep(initialPosition, desiredPosition) ==>
              (r <==> TileIsEmptyOrOccupiedByOpponent(desiredPosition, board, team))
  {
    var i := 1;
    var passedPosition := Position(
      initialPosition.x + i * Multiplier(initialPosition.x, desiredPosition.x),
      initialPosition.y + i * Multiplier(initialPosition.y, desiredPosition.y));
    if passedPosition == desiredPosition then
      TileIsEmptyOrOccupiedByOpponent(passedPosition, board, team)
    else
      false
  }

  // ---------------------------------------------------------------------
  // getPossibleKingMoves
  // ---------------------------------------------------------------------

  /**
   * The candidates that are empty or held by an opponent of `team`, in
   * their original order: the reference definition of the enumeration.
   */
  function Destinations(candidates: seq<Position>, board: Board, team: TeamType): seq<Position>
  {
    if candidates == [] then []
    else
      var last := candidates[|candidates| - 1];
      Destinations(candidates[..|candidates| - 1], board, team)
        + (if TileIsEmptyOrOccupiedByOpponent(last, board, team) then [last] else [])
  }

  lemma {:induction false} DestinationsMember(candidates: seq<Position>, board: Board, team: TeamType, d: Position)
    ensures d in Destinations(candidates, board, team)
        <==> d in candidates && TileIsEmptyOrOccupiedByOpponent(d, board, team)
  {
    if candidates != [] {
      var init := candidates[..|candidates| - 1];
      DestinationsMember(init, board, team, d);
      assert candidates == init + [candidates[|candidates| - 1]];
    }
  }

  lemma {:induction false} DestinationsShape(candidates: seq<Position>, board: Board, team: TeamType)
    ensures |Destinations(candidates, board, team)| <= |candidates|
    ensures Distinct(candidates) ==> Distinct(Destinations(candidates, board, team))
  {
    if candidates != [] {
      var init := candidates[..|candidates| - 1];
      var last := candidates[|candidates| - 1];
      DestinationsShape(init, board, team);
      if Distinct(candidates) && TileIsEmptyOrOccupiedByOpponent(last, board, team) {
        assert last !in init;
        DestinationsMember(init, board, team, last);
      }
    }
  }

  /** The king's destinations as the enumeration lists them. */
  function PossibleKingMoves(king: Piece, board: Board): seq<Position>
  {
    Destinations(Neighbours(king.position), board, king.team)
  }

  /**
   * Probes the eight neighbours in compass order. Each iteration is one of
   * the source's eight single-step blocks: an empty square is added, a
   * square held by an opponent is added (a capture), and a square held by
   * the king's own team is skipped.
   */
  method GetPossibleKingMoves(king: Piece, board: Board) returns (possibleMoves: seq<Position>)
    ensures possibleMoves == PossibleKingMoves(king, board)
  {
    possibleMoves := [];
    for k := 0 to |Compass|
      invariant possibleMoves == Destinations(Neighbours(king.position)[..k], board, king.team)
    {
      var destination := Shift(king.position, Compass[k]);
      assert Neighbours(king.position)[..k + 1] == Neighbours(king.position)[..k] + [destination];
      if !TileIsOccupied(destination, board) {
        possibleMoves := possibleMoves + [destination];
      } else if TileIsOccupiedByOpponent(destination, board, king.team) {
        possibleMoves := possibleMoves + [destination];
      }
    }
    assert Neighbours(king.position)[..|Compass|] == Neighbours(king.position);
  }

  /**
   * The enumeration holds exactly the king steps that are empty or held by
   * an opponent; this includes empty squares off any physical board, since
   * no bounds are checked.
   */
  lemma PossibleKingMovesExact(king: Piece, board: Board, d: Position)
    ensures d in PossibleKingMoves(king, board)
        <==> IsKingStep(king.position, d) && TileIsEmptyOrOccupiedByOpponent(d, board, king.team)
  {
    DestinationsMember(Neighbours(king.position), board, king.team, d);
    NeighboursAreKingSteps(king.position, d);
  }

  /** At most eight destinations, none listed twice. */
  lemma PossibleKingMovesShape(king: Piece, board: Board)
    ensures |PossibleKingMoves(king, board)| <= 8
    ensures Distinct(PossibleKingMoves(king, board))
  {
    NeighboursAreKingSteps(king.position, king.position);
    NeighboursDistinct(king.position);
    DestinationsShape(Neighbours(king.position), board, king.team);
  }

  /** The result keeps the probing order: it is a subsequence of the neighbours. */
  lemma PossibleKingMovesInProbeOrder(king: Piece, board: Board)
    ensures IsSubsequence(PossibleKingMoves(king, board), Neighbours(king.position))
  {
    DestinationsSubsequence(Neighbours(king.position), board, king.team);
  }

  /** `s` is obtained from `t` by deleting elements, keeping the order of the rest. */
  predicate IsSubsequence(s: seq<Position>, t: seq<Position>)
    decreases |t|
  {
    s == [] ||
    (t != [] &&
     ((s[|s| - 1] == t[|t| - 1] && IsSubsequence(s[..|s| - 1], t[..|t| - 1]))
      || IsSubsequence(s, t[..|t| - 1])))
  }

  lemma {:induction false} DestinationsSubsequence(candidates: seq<Position>, board: Board, team: TeamType)
    ensures IsSubsequence(Destinations(candidates, board, team), candidates)
  {
    if candidates != [] {
      var init := candidates[..|candidates| - 1];
      DestinationsSubsequence(init, board, team);
      var r := Destinations(candidates, board, team);
      if TileIsEmptyOrOccupiedByOpponent(candidates[|candidates| - 1], board, team) {
        assert r[..|r| - 1] == Destinations(init, board, team);
      } else {
        assert r == Destinations(init, board, team);
      }
    }
  }

  /** On a well-formed board no square held by the king's own team is listed. */
  lemma PossibleKingMovesAvoidOwnTeam(king: Piece, board: Board, i: int)
    requires WellFormed(board)
    requires 0 <= i < |board| && board[i].team == king.team
    ensures board[i].position !in PossibleKingMoves(king, board)
  {
    PossibleKingMovesExact(king, board, board[i].position);
    OwnTileIsNotDestination(board[i].position, board, king.team, i);
  }

  /** kingMove and the enumeration agree on every square other than the king's own. */
  lemma KingMoveAgreesWithEnumeration(king: Piece, board: Board, d: Position)
    requires d != king.position
    ensures KingMove(king.position, d, king.team, board) <==> d in PossibleKingMoves(king, board)
  {
    PossibleKingMovesExact(king, board, d);
  }

  /**
   * With the king itself on a well-formed board, the agreement covers its
   * own square as well: kingMove refuses a null move because the square is
   * held by the king's own team.
   */
  lemma KingMoveAgreesOnBoard(king: Piece, board: Board, d: Position)
    requires WellFormed(board) && king in board
    ensures KingMove(king.position, d, king.team, board) <==> d in PossibleKingMoves(king, board)
  {
    if d == king.position {
      var i :| 0 <= i < |board| && board[i] == king;
      OwnTileIsNotDestination(d, board, king.team, i);
      PossibleKingMovesExact(king, board, d);
    } else {
      KingMoveAgreesWithEnumeration(king, board, d);
    }
  }

  // ---------------------------------------------------------------------
  // getCastlingMoves
  // ---------------------------------------------------------------------

  /** A rook of the king's team that has not moved: a castling partner. */
  predicate IsCastlingRook(king: Piece, p: Piece)
  {
    p.isRook && p.team == king.team && !p.hasMoved
  }

  /** The unmoved rooks of the king's team, in board order. */
  function CastlingRooks(king: Piece, board: Board): (rooks: seq<Piece>)
    ensures |rooks| <= |board|
  {
    if board == [] then []
    else
      var last := board[|board| - 1];
      CastlingRooks(king, board[..|board| - 1]) + (if IsCastlingRook(king, last) then [last] else [])
  }

  /** The pieces of every team other than `team`, in board order. */
  function Enemies(board: Board, team: TeamType): (enemies: seq<Piece>)
    ensures |enemies| <= |board|
    ensures forall k :: 0 <= k < |enemies| ==> enemies[k].team != team
  {
    if board == [] then []
    else
      var last := board[|board| - 1];
      Enemies(board[..|board| - 1], team) + (if last.team != team then [last] else [])
  }

  lemma {:induction false} EnemiesMember(board: Board, team: TeamType, e: Piece)
    ensures e in Enemies(board, team) <==> e in board && e.team != team
  {
    if board != [] {
      var init := board[..|board| - 1];
      EnemiesMember(init, team, e);
      assert board == init + [board[|board| - 1]];
    }
  }

  /** The moves in `moves` that lie on row `row` (the "concerning tiles"). */
  function OnRow(moves: seq<Position>, row: int): (tiles: seq<Position>)
    ensures |tiles| <= |moves|
    ensures forall k :: 0 <= k < |tiles| ==> tiles[k].y == row && tiles[k] in moves
  {
    if moves == [] then []
    else
      var last := moves[|moves| - 1];
      OnRow(moves[..|moves| - 1], row) + (if last.y == row then [last] else [])
  }

  lemma {:induction false} OnRowMember(moves: seq<Position>, row: int, m: Position)
    ensures m in OnRow(moves, row) <==> m in moves && m.y == row
  {
    if moves != [] {
      var init := moves[..|moves| - 1];
      OnRowMember(init, row, m);
      assert moves == init + [moves[|moves| - 1]];
    }
  }

  /** +1 when the rook lies on the king's positive-x side, -1 otherwise (equal x included). */
  function CastlingDirection(king: Piece, rook: Piece): (dir: int)
    ensures dir == 1 || dir == -1
    ensures dir == 1 <==> rook.position.x > king.position.x
  {
    if rook.position.x - king.position.x > 0 then 1 else -1
  }

  /** The square beside the king, towards the rook. */
  function AdjacentPosition(king: Piece, rook: Piece): (adjacent: Position)
    ensures adjacent.y == king.position.y
    ensures IsKingStep(king.position, adjacent)
    ensures rook.position.x > king.position.x ==> adjacent.x > king.position.x
    ensures rook.position.x <= king.position.x ==> adjacent.x < king.position.x
  {
    Position(king.position.x + CastlingDirection(king, rook), king.position.y)
  }

  /** The rook's cached moves are computed and reach the square beside the king. */
  predicate ReachesKing(king: Piece, rook: Piece)
  {
    rook.possibleMoves.Some? && AdjacentPosition(king, rook) in rook.possibleMoves.value
  }

  /** The piece's cached moves are computed and one of them is among `tiles`. */
  predicate Threatens(enemy: Piece, tiles: seq<Position>)
  {
    enemy.possibleMoves.Some? &&
    exists k :: 0 <= k < |enemy.possibleMoves.value| && enemy.possibleMoves.value[k] in tiles
  }

  /** Some piece of another team than `team` threatens one of `tiles`. */
  predicate Attacked(board: Board, team: TeamType, tiles: seq<Position>)
  {
    exists i :: 0 <= i < |board| && board[i].team != team && Threatens(board[i], tiles)
  }

  /** Castling with `rook` is offered: the rook reaches the king and its row moves are unattacked. */
  predicate CastlingIsSafe(king: Piece, rook: Piece, board: Board)
  {
    ReachesKing(king, rook) &&
    !Attacked(board, king.team, OnRow(rook.possibleMoves.value, king.position.y))
  }

  /** The positions of the candidate rooks with which castling is safe, in candidate order. */
  function SafeRookPositions(king: Piece, rooks: seq<Piece>, board: Board): (r: seq<Position>)
    ensures |r| <= |rooks|
  {
    if rooks == [] then []
    else
      var last := rooks[|rooks| - 1];
      SafeRookPositions(king, rooks[..|rooks| - 1], board)
        + (if CastlingIsSafe(king, last, board) then [last.position] else [])
  }

  /** The castling options of `king`, each given as the partner rook's square. */
  function CastlingMoves(king: Piece, board: Board): (options: seq<Position>)
    ensures king.hasMoved ==> options == []
    ensures |options| <= |CastlingRooks(king, board)|
  {
    if king.hasMoved then [] else SafeRookPositions(king, CastlingRooks(king, board), board)
  }

  /**
   * Computes the castling options from the cached moves of the king's
   * unmoved rooks and of every enemy piece. A rook whose moves are not
   * computed, or do not reach the square beside the king, is skipped; an
   * enemy whose moves are not computed is skipped; the first enemy move
   * on one of the rook's row moves rejects that rook.
   */
  method GetCastlingMoves(king: Piece, board: Board) returns (possibleMoves: seq<Position>)
    ensures possibleMoves == CastlingMoves(king, board)
  {
    possibleMoves := [];
    if king.hasMoved {
      return;
    }
    var rooks := CastlingRooks(king, board);
    for r := 0 to |rooks|
      invariant possibleMoves == SafeRookPositions(king, rooks[..r], board)
    {
      var rook := rooks[r];
      assert rooks[..r + 1][..r] == rooks[..r];
      var direction := if rook.position.x - king.position.x > 0 then 1 else -1;
      var adjacentPosition := Position(king.position.x + direction, king.position.y);
      assert SafeRookPositions(king, rooks[..r + 1], board)
          == possibleMoves + (if CastlingIsSafe(king, rook, board) then [rook.position] else []);
      if rook.possibleMoves.None? || adjacentPosition !in rook.possibleMoves.value {
        continue;
      }
      var concerningTiles := OnRow(rook.possibleMoves.value, king.position.y);
      var enemyPieces := Enemies(board, king.team);
      var valid := true;
      ghost var attacker := 0;
      for e := 0 to |enemyPieces|
        invariant valid
        invariant forall k :: 0 <= k < e ==> !Threatens(enemyPieces[k], concerningTiles)
      {
        var enemy := enemyPieces[e];
        if enemy.possibleMoves.None? {
          continue;
        }
        var enemyMoves := enemy.possibleMoves.value;
        for m := 0 to |enemyMoves|
          invariant valid
          invariant forall j :: 0 <= j < m ==> enemyMoves[j] !in concerningTiles
        {
          if enemyMoves[m] in concerningTiles {
            valid := false;
          }
          if !valid {
            break;
          }
        }
        if !valid {
          assert Threatens(enemy, concerningTiles);
          attacker := e;
          break;
        }
      }
      if valid {
        UnlistedMeansUnattacked(board, king.team, concerningTiles);
      } else {
        ListedEnemyAttacks(board, king.team, concerningTiles, attacker);
      }
      if !valid {
        continue;
      }
      possibleMoves := possibleMoves + [rook.position];
    }
    assert rooks[..|rooks|] == rooks;
  }

  /** An enemy found in the filtered list that threatens a tile makes the tiles attacked. */
  lemma ListedEnemyAttacks(board: Board, team: TeamType, tiles: seq<Position>, k: int)
    requires 0 <= k < |Enemies(board, team)| && Threatens(Enemies(board, team)[k], tiles)
    ensures Attacked(board, team, tiles)
  {
    var enemy := Enemies(board, team)[k];
    EnemiesMember(board, team, enemy);
    var i :| 0 <= i < |board| && board[i] == enemy;
  }

  /** When no enemy in the filtered list threatens the tiles, they are not attacked. */
  lemma UnlistedMeansUnattacked(board: Board, team: TeamType, tiles: seq<Position>)
    requires forall k :: 0 <= k < |Enemies(board, team)| ==> !Threatens(Enemies(board, team)[k], tiles)
    ensures !Attacked(board, team, tiles)
  {
    forall i | 0 <= i < |board| && board[i].team != team
      ensures !Threatens(board[i], tiles)
    {
      EnemiesMember(board, team, board[i]);
      var k :| 0 <= k < |Enemies(board, team)| && Enemies(board, team)[k] == board[i];
    }
  }

  // ---------------------------------------------------------------------
  // Properties of castling
  // ---------------------------------------------------------------------

  /**
   * The castling conditions written out directly over the board: an unmoved
   * rook of the king's team whose computed moves reach the square beside the
   * king (towards the rook, or towards -x when the rook is not to the king's
   * +x side), and none of whose moves on the king's row is a computed move
   * of any enemy piece.
   */
  predicate MeetsCastlingConditions(king: Piece, rook: Piece, board: Board)
  {
    && rook.isRook && rook.team == king.team && !rook.hasMoved
    && rook.possibleMoves.Some?
    && Position(king.position.x + (if rook.position.x > king.position.x then 1 else -1), king.position.y)
         in rook.possibleMoves.value
    && forall e, m :: e in board && e.team != king.team && e.possibleMoves.Some?
                      && m in e.possibleMoves.value && m in rook.possibleMoves.value
                      ==> m.y != king.position.y
  }

  /** The resolver's test on a candidate rook is exactly the written-out conditions. */
  lemma CastlingIsSafeIff(king: Piece, rook: Piece, board: Board)
    ensures IsCastlingRook(king, rook) && CastlingIsSafe(king, rook, board)
        <==> MeetsCastlingConditions(king, rook, board)
  {
    if rook.possibleMoves.Some? {
      var tiles := OnRow(rook.possibleMoves.value, king.position.y);
      forall m ensures m in tiles <==> m in rook.possibleMoves.value && m.y == king.position.y {
        OnRowMember(rook.possibleMoves.value, king.position.y, m);
      }
      if Attacked(board, king.team, tiles) {
        var i :| 0 <= i < |board| && board[i].team != king.team && Threatens(board[i], tiles);
        var k :| 0 <= k < |board[i].possibleMoves.value| && board[i].possibleMoves.value[k] in tiles;
        var m := board[i].possibleMoves.value[k];
        assert board[i] in board && m in board[i].possibleMoves.value;
      } else {
        forall e, m | e in board && e.team != king.team && e.possibleMoves.Some?
                      && m in e.possibleMoves.value && m in rook.possibleMoves.value
          ensures m.y != king.position.y
        {
          var i :| 0 <= i < |board| && board[i] == e;
          var k :| 0 <= k < |e.possibleMoves.value| && e.possibleMoves.value[k] == m;
          assert !Threatens(board[i], tiles);
        }
      }
    }
  }

  lemma {:induction false} CastlingRooksMember(king: Piece, board: Board, p: Piece)
    ensures p in CastlingRooks(king, board) <==> p in board && IsCastlingRook(king, p)
  {
    if board != [] {
      var init := board[..|board| - 1];
      CastlingRooksMember(king, init, p);
      assert board == init + [board[|board| - 1]];
    }
  }

  lemma {:induction false} SafeRookPositionsMember(king: Piece, rooks: seq<Piece>, board: Board, p: Position)
    ensures p in SafeRookPositions(king, rooks, board)
        <==> exists j :: 0 <= j < |rooks| && rooks[j].position == p && CastlingIsSafe(king, rooks[j], board)
  {
    if rooks != [] {
      var init := rooks[..|rooks| - 1];
      SafeRookPositionsMember(king, init, board, p);
      if p in SafeRookPositions(king, rooks, board) && p !in SafeRookPositions(king, init, board) {
        assert rooks[|rooks| - 1].position == p;
      }
      if exists j :: 0 <= j < |rooks| && rooks[j].position == p && CastlingIsSafe(king, rooks[j], board) {
        var j :| 0 <= j < |rooks| && rooks[j].position == p && CastlingIsSafe(king, rooks[j], board);
        if j < |rooks| - 1 {
          assert init[j] == rooks[j];
        }
      }
    }
  }

  /** A king that has moved has no castling options, whatever the rooks. */
  lemma CastlingMovesWhenKingMoved(king: Piece, board: Board)
    requires king.hasMoved
    ensures CastlingMoves(king, board) == []
  {
  }

  /** At most one option per unmoved rook of the king's team. */
  lemma CastlingMovesCount(king: Piece, board: Board)
    ensures |CastlingMoves(king, board)| <= |CastlingRooks(king, board)| <= |board|
  {
  }

  /** Every option is the square of a rook of the board that meets the castling conditions. */
  lemma CastlingMovesSound(king: Piece, board: Board, p: Position)
    requires p in CastlingMoves(king, board)
    ensures !king.hasMoved
    ensures exists i :: 0 <= i < |board| && board[i].position == p
                        && MeetsCastlingConditions(king, board[i], board)
  {
    var rooks := CastlingRooks(king, board);
    SafeRookPositionsMember(king, rooks, board, p);
    var j :| 0 <= j < |rooks| && rooks[j].position == p && CastlingIsSafe(king, rooks[j], board);
    CastlingRooksMember(king, board, rooks[j]);
    CastlingIsSafeIff(king, rooks[j], board);
    var i :| 0 <= i < |board| && board[i] == rooks[j];
  }

  /** Every rook of the board that meets the castling conditions is offered, if the king is unmoved. */
  lemma CastlingMovesComplete(king: Piece, board: Board, i: int)
    requires !king.hasMoved
    requires 0 <= i < |board| && MeetsCastlingConditions(king, board[i], board)
    ensures board[i].position in CastlingMoves(king, board)
  {
    var rooks := CastlingRooks(king, board);
    CastlingIsSafeIff(king, board[i], board);
    CastlingRooksMember(king, board, board[i]);
    var j :| 0 <= j < |rooks| && rooks[j] == board[i];
    SafeRookPositionsMember(king, rooks, board, board[i].position);
  }

  lemma {:induction false} CastlingRooksAppend(king: Piece, a: Board, c: Board)
    ensures CastlingRooks(king, a + c) == CastlingRooks(king, a) + CastlingRooks(king, c)
  {
    if c == [] {
      assert a + c == a;
    } else {
      var init := c[..|c| - 1];
      CastlingRooksAppend(king, a, init);
      assert (a + c)[..|a + c| - 1] == a + init;
    }
  }

  lemma {:induction false} SafeRookPositionsSameThreats(king: Piece, rooks: seq<Piece>, b1: Board, b2: Board)
    requires forall tiles :: Attacked(b1, king.team, tiles) <==> Attacked(b2, king.team, tiles)
    ensures SafeRookPositions(king, rooks, b1) == SafeRookPositions(king, rooks, b2)
  {
    if rooks != [] {
      SafeRookPositionsSameThreats(king, rooks[..|rooks| - 1], b1, b2);
    }
  }

  /**
   * An enemy piece whose moves are not computed never changes the castling
   * options, wherever it sits in the board order.
   */
  lemma UncomputedEnemyIgnored(king: Piece, board: Board, enemy: Piece, i: int)
    requires 0 <= i <= |board|
    requires enemy.team != king.team && enemy.possibleMoves.None?
    ensures CastlingMoves(king, board[..i] + [enemy] + board[i..]) == CastlingMoves(king, board)
  {
    var board' := board[..i] + [enemy] + board[i..];
    CastlingRooksAppend(king, board[..i] + [enemy], board[i..]);
    CastlingRooksAppend(king, board[..i], [enemy]);
    CastlingRooksAppend(king, board[..i], board[i..]);
    assert CastlingRooks(king, [enemy]) == [];
    assert board[..i] + board[i..] == board;
    assert CastlingRooks(king, board') == CastlingRooks(king, board);
    forall tiles ensures Attacked(board', king.team, tiles) <==> Attacked(board, king.team, tiles) {
      if Attacked(board', king.team, tiles) {
        var j :| 0 <= j < |board'| && board'[j].team != king.team && Threatens(board'[j], tiles);
        var j' := if j < i then j else j - 1;
        assert board[j'] == board'[j];
      }
      if Attacked(board, king.team, tiles) {
        var j :| 0 <= j < |board| && board[j].team != king.team && Threatens(board[j], tiles);
        var j' := if j < i then j else j + 1;
        assert board'[j'] == board[j];
      }
    }
    SafeRookPositionsSameThreats(king, CastlingRooks(king, board), board', board);
  }

  /** The squares of the pieces of `board`, in board order. */
  function PositionsOf(board: Board): (ps: seq<Position>)
    ensures |ps| == |board|
    ensures forall i :: 0 <= i < |board| ==> ps[i] == board[i].position
  {
    seq(|board|, i requires 0 <= i < |board| => board[i].position)
  }

  lemma {:induction false} SafeRookPositionsOfCandidates(king: Piece, pieces: Board, board: Board)
    ensures IsSubsequence(SafeRookPositions(king, CastlingRooks(king, pieces), board), PositionsOf(pieces))
  {
    if pieces != [] {
      var init := pieces[..|pieces| - 1];
      var last := pieces[|pieces| - 1];
      SafeRookPositionsOfCandidates(king, init, board);
      var before := CastlingRooks(king, init);
      var r := SafeRookPositions(king, CastlingRooks(king, pieces), board);
      assert PositionsOf(pieces)[..|pieces| - 1] == PositionsOf(init);
      if IsCastlingRook(king, last) {
        assert (before + [last])[..|before|] == before;
        if CastlingIsSafe(king, last, board) {
          assert r[..|r| - 1] == SafeRookPositions(king, before, board);
        } else {
          assert r == SafeRookPositions(king, before, board);
        }
      } else {
        assert CastlingRooks(king, pieces) == before;
      }
    }
  }

  /** The options keep board order: they are a subsequence of the pieces' squares. */
  lemma CastlingMovesInBoardOrder(king: Piece, board: Board)
    ensures IsSubsequence(CastlingMoves(king, board), PositionsOf(board))
  {
    SafeRookPositionsOfCandidates(king, board, board);
  }

  lemma {:induction false} SubsequenceMember(s: seq<Position>, t: seq<Position>, x: Position)
    requires IsSubsequence(s, t) && x in s
    ensures x in t
    decreases |t|
  {
    if s[|s| - 1] == t[|t| - 1] && IsSubsequence(s[..|s| - 1], t[..|t| - 1]) {
      if x != s[|s| - 1] {
        assert s == s[..|s| - 1] + [s[|s| - 1]];
        SubsequenceMember(s[..|s| - 1], t[..|t| - 1], x);
      }
    } else {
      SubsequenceMember(s, t[..|t| - 1], x);
    }
  }

  lemma {:induction false} SubsequenceDistinct(s: seq<Position>, t: seq<Position>)
    requires IsSubsequence(s, t) && Distinct(t)
    ensures Distinct(s)
    decreases |t|
  {
    if s != [] {
      var t' := t[..|t| - 1];
      if s[|s| - 1] == t[|t| - 1] && IsSubsequence(s[..|s| - 1], t') {
        var s' := s[..|s| - 1];
        SubsequenceDistinct(s', t');
        if s[|s| - 1] in s' {
          SubsequenceMember(s', t', s[|s| - 1]);
          assert false;
        }
      } else {
        SubsequenceDistinct(s, t');
      }
    }
  }

  /** On a well-formed board no square is offered twice. */
  lemma CastlingMovesDistinct(king: Piece, board: Board)
    requires WellFormed(board)
    ensures Distinct(CastlingMoves(king, board))
  {
    CastlingMovesInBoardOrder(king, board);
    SubsequenceDistinct(CastlingMoves(king, board), PositionsOf(board));
  }

  // ---------------------------------------------------------------------
  // Worked scenarios
  // ---------------------------------------------------------------------

  const WhiteKing := Piece(Position(4, 0), 0, false, false, None)
  /** An unmoved rook on (7, 0) whose moves run along the row towards the king and up the file. */
  const WhiteRook := Piece(Position(7, 0), 0, true, false, Some([Position(6, 0), Position(5, 0), Position(7, 1)]))

  function Enemy(moves: seq<Position>): Piece
  {
    Piece(Position(5, 7), 1, false, false, Some(moves))
  }

  /** The steps every scenario below shares: the rook is the only candidate and reaches (5, 0). */
  lemma ScenarioCandidate(enemy: Piece)
    requires enemy.team == 1 && !enemy.isRook
    ensures CastlingRooks(WhiteKing, [WhiteKing, WhiteRook, enemy]) == [WhiteRook]
    ensures ReachesKing(WhiteKing, WhiteRook)
    ensures OnRow(WhiteRook.possibleMoves.value, 0) == [Position(6, 0), Position(5, 0)]
  {
    var board := [WhiteKing, WhiteRook, enemy];
    assert board[..2] == [WhiteKing, WhiteRook];
    assert board[..2][..1] == [WhiteKing];
    assert [WhiteKing][..0] == [];
    assert CastlingRooks(WhiteKing, [WhiteKing]) == [];
    assert CastlingRooks(WhiteKing, board[..2]) == [WhiteRook];
    var moves := WhiteRook.possibleMoves.value;
    assert moves[..2] == [Position(6, 0), Position(5, 0)];
    assert moves[..2][..1] == [Position(6, 0)];
    assert [Position(6, 0)][..0] == [];
  }

  /** No enemy reaches (5, 0) or (6, 0): the rook on (7, 0) is offered. */
  lemma ScenarioSafeCastling()
    ensures CastlingMoves(WhiteKing, [WhiteKing, WhiteRook, Enemy([Position(3, 5)])]) == [Position(7, 0)]
  {
    var board := [WhiteKing, WhiteRook, Enemy([Position(3, 5)])];
    ScenarioCandidate(board[2]);
    assert !Threatens(board[2], [Position(6, 0), Position(5, 0)]);
    assert !Attacked(board, 0, [Position(6, 0), Position(5, 0)]);
    assert [WhiteRook][..0] == [];
  }

  /** An enemy reaching (5, 0) removes the option. */
  lemma ScenarioThreatenedCastling()
    ensures CastlingMoves(WhiteKing, [WhiteKing, WhiteRook, Enemy([Position(5, 0)])]) == []
  {
    var board := [WhiteKing, WhiteRook, Enemy([Position(5, 0)])];
    ScenarioCandidate(board[2]);
    assert board[2].possibleMoves.value[0] in [Position(6, 0), Position(5, 0)];
    assert Attacked(board, 0, [Position(6, 0), Position(5, 0)]);
    assert [WhiteRook][..0] == [];
  }

  /**
   * The king's own square is not among the tiles checked: an enemy reaching
   * (4, 0) leaves the option in place.
   */
  lemma ScenarioKingSquareNotChecked()
    ensures CastlingMoves(WhiteKing, [WhiteKing, WhiteRook, Enemy([Position(4, 0)])]) == [Position(7, 0)]
  {
    var board := [WhiteKing, WhiteRook, Enemy([Position(4, 0)])];
    ScenarioCandidate(board[2]);
    assert !Threatens(board[2], [Position(6, 0), Position(5, 0)]);
    assert !Attacked(board, 0, [Position(6, 0), Position(5, 0)]);
    assert [WhiteRook][..0] == [];
  }
}
