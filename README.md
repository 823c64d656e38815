# King movement and castling rules

A Dafny model of the king rules of a multi-team chess game: the test of one
king destination (`kingMove`), the enumeration of the king's destinations
(`getPossibleKingMoves`), and the castling resolver (`getCastlingMoves`),
which works from the cached `possibleMoves` of the king's unmoved rooks and
of every enemy piece. All of it is a query over a board snapshot, a sequence
of pieces. Nothing here changes the board.

Files:

- `models.dfy` (module `Models`): `Position`, `Piece` (only the fields the
  rules read), `Board = seq<Piece>`, `Option` for a move cache that may be
  `undefined`, and the board invariant `WellFormed` (no two pieces share a
  square). Positions are values. `samePosition` is `==` and `clone` is the
  value itself.
- `general_rules.dfy` (module `GeneralRules`): the three occupancy queries
  the rules import (`tileIsOccupied`, `tileIsOccupiedByOpponent`,
  `tileIsEmptyOrOccupiedByOpponent`). `src/rules/GeneralRules.ts` is not part
  of this model. The predicates take the evident meaning: a piece stands on
  the square; a piece of another team stands on it; the square is empty or
  such a piece stands on it.
- `king_rules.dfy` (module `KingRules`): the three operations, the
  specification functions they are proved equal to, and the lemmas.

How each operation is modelled:

- `kingMove` becomes the function `KingMove`. Its `for (i = 1; i < 2; …)`
  loop runs exactly once. The branch that `break`s on an occupied square
  only ends that single iteration, so it cannot change the result. The
  function computes the one candidate square, `initial + (sign dx, sign dy)`.
- `getPossibleKingMoves` becomes the method `GetPossibleKingMoves`. The
  eight single-step blocks become one loop over the constant `Compass`,
  which lists the eight offsets in source order: N, S, W, E, NE, SE, SW,
  NW. Each iteration builds the square and then branches three ways: empty,
  so push; opponent, so push; own team, so skip. The method is proved equal
  to `PossibleKingMoves`, which is `Neighbours(pos)` filtered by
  `TileIsEmptyOrOccupiedByOpponent`.
- `getCastlingMoves` becomes the method `GetCastlingMoves`. It has the
  source's loop over the filtered rooks, the nested enemy and move loops,
  the `valid` flag, and the `continue` and `break` statements. It is proved
  equal to the specification function `CastlingMoves`. The `filter` and
  `some` sub-expressions are the functions `CastlingRooks`, `Enemies` and
  `OnRow`, and `in` on sequences.

Behaviours of the code that the model keeps:

- There are no board bounds. An empty square off any physical board is a
  king destination.
- The castling direction is `-1` when the rook's x equals the king's x.
- The tiles checked for castling are the rook's moves on the king's row.
  Every such move counts, including moves on the far side of the rook. The
  king's square is checked only if it is among the rook's row moves, which a
  rook's own moves exclude (`ScenarioKingSquareNotChecked`).
- Only the one square beside the king is tested against the rook's moves.
- An enemy whose `possibleMoves` is `undefined` is skipped silently
  (`UncomputedEnemyIgnored`).
- `kingMove(p, p, …)` returns the occupancy verdict for `p` itself. When the
  king stands on `p` on a well-formed board, the verdict is false
  (`KingMoveAgreesOnBoard`).

Both methods return values computed only from their inputs. So the
enumeration gives the same, order-stable result on an unchanged snapshot.

## Model

| member | source | states |
|---|---|---|
| GeneralRules.OwnTileIsNotDestination | src/rules/KingRules.ts:3-7 | On a board where no two pieces share a square, a square held by `team` is never empty-or-opponent for `team` |
| GeneralRules.DestinationIffNoOwnPiece | src/rules/KingRules.ts:3-7 | On such a board, a square is empty-or-opponent for `team` exactly when no piece of `team` stands on it |
| KingRules.Multiplier | src/rules/KingRules.ts:18-29 | The x/y multiplier is -1, 0 or 1, is 0 exactly when the coordinates are equal, and is positive exactly when the target coordinate is larger |
| KingRules.KingMove | src/rules/KingRules.ts:10-49 | False whenever the target is more than one square away on either axis. Within one square on both axes, true exactly when the target is empty or held by an opponent of `team` |
| KingRules.NeighboursAreKingSteps | src/rules/KingRules.ts:58-168 | The eight probed squares are exactly the squares one king step away |
| KingRules.NeighboursDistinct | src/rules/KingRules.ts:58-168 | The eight probed squares are pairwise different |
| KingRules.DestinationsMember | src/rules/KingRules.ts:62-69 | A square is kept by the push/skip rule exactly when it is a candidate and is empty or held by an opponent |
| KingRules.DestinationsShape | src/rules/KingRules.ts:56-170 | The push/skip rule keeps no more squares than the candidates and keeps distinct candidates distinct |
| KingRules.DestinationsSubsequence | src/rules/KingRules.ts:56-170 | The kept squares appear in candidate order |
| KingRules.GetPossibleKingMoves | src/rules/KingRules.ts:52-171 | The returned array equals the eight neighbours in N, S, W, E, NE, SE, SW, NW order, filtered to the empty or opponent-held ones |
| KingRules.PossibleKingMovesExact | src/rules/KingRules.ts:58-168 | A square is listed exactly when it is one king step away and is empty or held by an opponent. Off-board empty squares are included |
| KingRules.PossibleKingMovesShape | src/rules/KingRules.ts:56-170 | At most eight squares, none listed twice |
| KingRules.PossibleKingMovesInProbeOrder | src/rules/KingRules.ts:58-168 | The listed squares keep the fixed probe order |
| KingRules.PossibleKingMovesAvoidOwnTeam | src/rules/KingRules.ts:62-69 | On a well-formed board, no square held by the king's own team is listed |
| KingRules.KingMoveAgreesWithEnumeration | src/rules/KingRules.ts:10-171 | For every square other than the king's own, kingMove is true exactly when the enumeration lists that square |
| KingRules.KingMoveAgreesOnBoard | src/rules/KingRules.ts:10-171 | With the king on a well-formed board, the agreement holds for every square, the king's own included |
| KingRules.IsCastlingRook | src/rules/KingRules.ts:185 | A castling partner is a rook of the king's team that has not moved |
| KingRules.CastlingRooks | src/rules/KingRules.ts:184-186 | The filtered rook list is no longer than the board |
| KingRules.CastlingRooksMember | src/rules/KingRules.ts:184-186 | A piece is a candidate exactly when it is on the board, is a rook, is of the king's team and has not moved |
| KingRules.Enemies | src/rules/KingRules.ts:205 | The enemy list is no longer than the board and holds only pieces of other teams |
| KingRules.EnemiesMember | src/rules/KingRules.ts:205 | A piece is in the enemy list exactly when it is on the board and of another team |
| KingRules.OnRow | src/rules/KingRules.ts:200-202 | The concerning tiles are no more than the rook's moves, and each is one of those moves on the king's row |
| KingRules.OnRowMember | src/rules/KingRules.ts:200-202 | A concerning tile is exactly a rook move on the king's row |
| KingRules.CastlingDirection | src/rules/KingRules.ts:192 | The direction is +1 or -1, and +1 exactly when the rook's x is larger than the king's |
| KingRules.AdjacentPosition | src/rules/KingRules.ts:194-195 | The square beside the king is on the king's row, one king step away, on the rook's side when the rook has larger x and on the -x side otherwise |
| KingRules.SafeRookPositions | src/rules/KingRules.ts:190-230 | At most one position per candidate rook |
| KingRules.SafeRookPositionsMember | src/rules/KingRules.ts:190-230 | A position is emitted exactly when some candidate rook at that position passes the adjacency and threat tests |
| KingRules.ListedEnemyAttacks | src/rules/KingRules.ts:205-224 | An enemy in the filtered list with a move on a concerning tile makes the tiles attacked |
| KingRules.UnlistedMeansUnattacked | src/rules/KingRules.ts:205-224 | If no enemy in the filtered list has a move on a concerning tile, no enemy on the board has one |
| KingRules.GetCastlingMoves | src/rules/KingRules.ts:175-233 | The returned array equals the castling options: empty for a moved king, else the safe candidate rooks' positions in board order |
| KingRules.CastlingIsSafeIff | src/rules/KingRules.ts:184-226 | A rook passes the resolver's tests exactly when it meets the written-out conditions: rook, own team, unmoved, computed moves that reach the square beside the king (direction +1 if the rook has larger x, else -1), and no enemy with computed moves has a move equal to one of the rook's moves on the king's row |
| KingRules.CastlingMoves | src/rules/KingRules.ts:181-230 | A moved king gets no options, and there are at most as many options as unmoved rooks of the king's team |
| KingRules.SafeRookPositionsOfCandidates | src/rules/KingRules.ts:184-230 | The safe candidates' squares, taken over the filtered rooks of any piece list, keep the order of that list |
| KingRules.CastlingMovesInBoardOrder | src/rules/KingRules.ts:184-230 | The options are a subsequence of the pieces' squares in board order |
| KingRules.CastlingMovesDistinct | src/rules/KingRules.ts:184-230 | On a well-formed board no square is offered twice |
| KingRules.CastlingMovesWhenKingMoved | src/rules/KingRules.ts:181 | A king that has moved has no castling options |
| KingRules.CastlingMovesCount | src/rules/KingRules.ts:184-230 | At most one option per unmoved rook of the king's team |
| KingRules.CastlingMovesSound | src/rules/KingRules.ts:181-229 | Every option comes from an unmoved king and is the square of a board piece that meets all the castling conditions |
| KingRules.CastlingMovesComplete | src/rules/KingRules.ts:181-229 | Every board piece that meets the castling conditions is offered when the king is unmoved |
| KingRules.UncomputedEnemyIgnored | src/rules/KingRules.ts:211 | Inserting an enemy with undefined moves anywhere in the board never changes the castling options |
| KingRules.ScenarioSafeCastling | src/rules/KingRules.ts:175-233 | King on (4,0) and unmoved rook on (7,0) whose moves are (6,0), (5,0) and (7,1), with no enemy reaching the row: the result is [(7,0)] |
| KingRules.ScenarioThreatenedCastling | src/rules/KingRules.ts:200-226 | The same setup with an enemy reaching (5,0): the result is empty |
| KingRules.ScenarioKingSquareNotChecked | src/rules/KingRules.ts:200-202 | The same setup with an enemy reaching only the king's square (4,0): (7,0) is still offered |

## Left out

- The bodies of `tileIsOccupied`, `tileIsOccupiedByOpponent` and `tileIsEmptyOrOccupiedByOpponent`: `src/rules/GeneralRules.ts` is not part of this model. The predicates are given their evident meaning and are assumed to match it.
- How rooks and enemy pieces compute their `possibleMoves`: those rules are not part of this model. The caches are given inputs of type `Option<seq<Position>>`.
- The `Piece` and `Position` classes and `TeamType`: only the fields read here are modelled. Positions are immutable values, so aliasing between a piece's position and a cloned candidate cannot arise. `TeamType` is an `int` compared by equality.
- Executing a move: updating a piece's position and `hasMoved`, and moving the king and rook when castling. The code shown does not do this.
- Turn order, check and checkmate detection, rendering and highlighting: none of this is in the modelled file.
- The one-iteration `for` loop of `kingMove`: it is modelled as the single evaluation it performs, and no loop is kept.
- The eight copied blocks of `getPossibleKingMoves`: they are modelled as one loop over a table of the eight offsets. Each `for (i = 1; i < 2; …)` block with its `break`s is one iteration of that loop.
