# Checkers engine: board, move generation, evaluation and alpha-beta bot

This project models the engine of a checkers program in Dafny: the pieces,
the 8x8 board with its four piece counters, simple moves and multi-capture
jump chains, the static evaluation with its position cache, the winner
test, and the alpha-beta `minimax` that picks the RED bot's move.
Verification covers the data model, the move generator and the search.

RED men start on rows 0-2 and move towards row 7. BLUE men start on rows
5-7 and move towards row 0. A man is crowned on the far row; kings move
both ways. Positive evaluations favour RED, the maximizer.

The model is layered:

- **Pieces**: the five piece kinds, `is_red`/`is_blue`/`is_king`/`make_king`/`get_color`,
  and the 64-character cache key with its decoder. Both round trips of the key are proved.
- **MoveGen**: the value-level move generator. The simple moves of a piece, the
  recursive `find_jumps`, and the two dictionaries of `get_all_moves` as association
  lists in the row-major order the dicts are filled in. `find_jumps` is proved to
  return exactly the maximal legal capture chains.
- **BoardState**: the board as a value (grid plus counters), `play_move` and
  `play_jump`. The invariant "every counter equals the number of cells of its kind"
  is preserved by every generated move. A chain captures exactly one opposing piece
  per leg.
- **Evaluation**: `_evaluate_piece_position`, `_calculate_mobility` and `evaluate` in
  integer tenths, plus the cache discipline. Every entry added during a search is the
  static evaluation of its position, so a search's leaf values are a fixed function
  of the cache as it stood at the start.
- **Boards**: the `Board` class, whose grid and counters its methods update in place.
  Each method is proved to compute the value-level function of the layers above.
- **Search**: the alpha-beta scan of `minimax` over an abstract game, next to the
  plain minimax value of the same tree. It is proved fail-soft against any window and
  exact from the full window. The returned move is the first best option in iteration
  order, and it reaches the root value.
- **Rules**: the checkers instance of that game (`move_dict`, board copies, `check_winner`),
  and the depth formula of `bot_move` with Python's round-half-to-even.
- **Game**: the `GameLogic` and `CheckersAI` classes with `check_winner`, `minimax`
  and `bot_move` as methods over `Board` objects.

Numbers: the evaluation weights (1.0, 2.0, 0.5, 0.1 and the king value 3) are all
multiples of 0.1, so scores are integers in tenths. `float('-inf')` and
`float('inf')` are the `NegInf` and `PosInf` of `Search.Score`.

## Model

| member | source | states |
|---|---|---|
| Pieces.IsValidPosition | core/piece.py:1-2 | holds exactly when the row and the column both lie in 0..7 |
| Pieces.Squares | board.py:164-177 | the 64 on-board squares; find_jumps only recurses onto a square of this set that is not yet on the path, which is why its recursion ends |
| Pieces.MakeKing | core/piece.py:24-30 | RED becomes RED_KING and BLUE becomes BLUE_KING; any other piece comes back unchanged |
| Pieces.GetColor | core/piece.py:32-38 | RED for red men and kings, BLUE for blue men and kings, None for EMPTY |
| Pieces.ColorsExclusive | core/piece.py:12-38 | no piece is both red and blue; get_color is None exactly for EMPTY, RED exactly for red men and kings, BLUE exactly for blue ones |
| Pieces.MakeKingProperties | core/piece.py:24-30 | make_king crowns men, leaves kings and EMPTY alone, is idempotent, keeps the colour, and yields a king for every non-empty piece |
| Pieces.Key | core/piece.py:41-55 | the key is 64 characters over r/b/R/B/0 and character 8*row+col is the symbol of that cell |
| Pieces.Decode | core/piece.py:58-71 | cell (row, col) of the decoded board is the piece of key character 8*row+col; unknown characters give EMPTY |
| Pieces.DecodeKey | core/piece.py:41-71 | decoding the key of any board gives that board back |
| Pieces.KeyDecodeAt | core/piece.py:58-71 | re-encoding a decoded key keeps every r/b/R/B/0 character and turns any other character into '0' |
| Pieces.KeyDecode | core/piece.py:41-71 | for every well-formed key, encoding its decoded board gives the key back |
| Pieces.KeyInjective | core/piece.py:41-55 | two boards with the same key are the same board, so the cache never confuses positions |
| Pieces.KeyPrefixStep | core/piece.py:43-54 | each cell visited in row-major order appends exactly its symbol to the key built so far |
| Pieces.BoardToCacheKey | core/piece.py:41-55 | the nested loop builds exactly Key(board) |
| Pieces.CacheKeyToBoard | core/piece.py:58-71 | the 64-step loop builds exactly Decode(key) |
| MoveGen.SimpleMoves | board.py:131-145 | the squares one diagonal step away along the piece's directions that are on the board and EMPTY, in direction order |
| MoveGen.FindJumps | board.py:159-197 | for each direction in order: the chains found after an available leap, or the extended path itself when none is found; a direction without a leap adds nothing |
| MoveGen.GetJumps | board.py:147-200 | find_jumps from the piece's square, with that square as the path and the directions fixed by the starting piece |
| MoveGen.JumpsDict | board.py:205-218 | the jumps dict: in row-major order, each square holding a piece of the colour that has chains, with its chain list |
| MoveGen.MovesDict | board.py:205-221 | the moves dict built the same way, replaced by the empty dict when must_jump is set and the jumps dict is not empty |
| MoveGen.MovesAlongMembers | board.py:140-143 | a square is collected exactly when one of the scanned directions steps onto it, it is on the board and it is EMPTY |
| MoveGen.SimpleMovesSpec | board.py:131-145 | a destination is listed exactly when it is a legal one-step move for the piece (RED men forward, BLUE men backward, kings both); EMPTY has none |
| MoveGen.AfterLanding | board.py:172-175 | the piece carried on after a landing (crowned on the far row) keeps its colour |
| MoveGen.CapturesByColor | board.py:167-184 | whether a piece may jump a middle piece depends only on the mover's colour |
| MoveGen.JumpsAlongEmpty | board.py:159-197 | the directions scanned so far yield no chain exactly when none of them allows a leap |
| MoveGen.LegalChainPrefix | board.py:164-170 | every prefix of a legal chain is a legal chain |
| MoveGen.LegalChainExtend | board.py:164-170 | a legal chain extended by an allowed leap is a legal chain |
| MoveGen.FindJumpsSpec | board.py:159-197 | find_jumps from a legal path returns a chain exactly when it is a maximal legal extension of that path |
| MoveGen.JumpsAlongSpec | board.py:161-196 | the first k directions return exactly the maximal extensions whose next square is reached through one of them |
| MoveGen.LegJumpsSpec | board.py:162-196 | one direction returns exactly the maximal extensions that continue through that direction's landing square |
| MoveGen.LegStopsExactly | board.py:177-181 | the recursion after a landing finds nothing exactly when the chain so far cannot be extended, so that chain is recorded |
| MoveGen.LegThrough | board.py:177-181 | a maximal extension through a landing square is the one-leg chain that stops there or a maximal extension of it |
| MoveGen.GetJumpsSpec | board.py:147-200 | get_jumps_for_piece returns exactly the chains of length >= 2 that start at the piece, make only legal leaps and cannot be extended |
| MoveGen.NoChainIsStrictPrefix | board.py:177-181 | no returned chain is a proper prefix of another returned chain |
| MoveGen.MovesUpToEntries | board.py:208-216 | every entry after scanning up to (row, col) is an earlier square with its own non-empty move list |
| MoveGen.MovesUpToSorted | board.py:208-216 | move entries appear in strictly increasing row-major order |
| MoveGen.MovesUpToKeys | board.py:208-216 | a square is a key after scanning up to (row, col) exactly when it comes earlier and has moves of the colour |
| MoveGen.JumpsUpToEntries | board.py:208-218 | every jump entry is an earlier square with its own non-empty chain list |
| MoveGen.JumpsUpToSorted | board.py:208-218 | jump entries appear in strictly increasing row-major order |
| MoveGen.JumpsUpToKeys | board.py:208-218 | a square is a jump key exactly when it comes earlier and has chains of the colour |
| MoveGen.OwnLists | board.py:210-218 | a square contributes moves (chains) exactly when it holds a piece of the colour with moves (chains), and then contributes them all |
| MoveGen.JumpsDictEntries | board.py:205-221 | every jumps entry is a square of the colour with its full non-empty chain list, keys in row-major order |
| MoveGen.JumpsDictKey | board.py:205-221 | a square is a key of jumps exactly when it holds a piece of the colour that has a chain |
| MoveGen.MovesDictEntries | board.py:205-221 | moves is emptied when must_jump is set and a jump exists; otherwise every entry is a square of the colour with its full move list, in row-major order |
| MoveGen.MovesDictKey | board.py:205-221 | a square is a key of moves exactly when it holds a piece of the colour with a move and must_jump has not cleared the dict |
| BoardState.InitialPiece | board.py:114-120 | RED on the squares with odd row+col in rows 0-2, BLUE on those in rows 5-7, EMPTY elsewhere |
| BoardState.ApplyMove | board.py:300-315 | the start is emptied and the piece written on the destination, crowned (one man counter moved to the king counter) when a RED man reaches row 7 or a BLUE man row 0 |
| BoardState.ApplyLeg | board.py:321-355 | one leg: the piece is read on the start first; the floor-midpoint square is cleared and its piece's counter decremented; then the piece moves and is crowned as in play_move |
| BoardState.ApplyJump | board.py:317-355 | the legs applied in order from the first pair of squares; a sequence shorter than 2 leaves the board as it is |
| BoardState.RowCountAppend | board.py:107-110 | the count of a piece kind over concatenated rows is the sum of the counts |
| BoardState.RowCountUpdate | board.py:304-315 | overwriting one cell changes a kind's count by exactly the removed and the added piece |
| BoardState.PutCount | board.py:304-315 | writing one square changes the whole-board count of a kind by exactly the old and new contents of that square |
| BoardState.CountsBounded | board.py:107-110 | on a board whose counters match its cells, both sides' totals are non-negative and together at most 64 |
| BoardState.InitialGrid | board.py:112-120 | the starting grid has RED men on the dark squares of rows 0-2, BLUE men on those of rows 5-7, and empty squares elsewhere |
| BoardState.InitialRow | board.py:114-120 | rows 0-2 hold four RED men, rows 5-7 four BLUE men, and no row holds a king |
| BoardState.InitialCounts | board.py:106-120 | the counters 12/12/0/0 set by `__init__` match the starting grid |
| BoardState.MovePreservesValid | board.py:300-315 | a generated simple move keeps every counter equal to its cells and leaves both sides' totals unchanged |
| BoardState.SimpleMoveTarget | board.py:140-143 | a generated destination is an empty on-board square other than the start, for a non-empty piece |
| BoardState.MoveCounters | board.py:307-314 | play_move moves one unit from the piece's counter to the counter of what lands (crowned on the far row) |
| BoardState.MoveCells | board.py:300-315 | after a simple move the start is empty, the destination holds the mover (a king iff it was one or reached the far row), and no other square changes |
| BoardState.ChainLattice | board.py:321-340 | every square of a chain of diagonal two-square legs lies on the start's lattice |
| BoardState.MidOffChain | board.py:330-340 | no jumped square is a square of the chain itself |
| BoardState.MidsDistinct | board.py:330-340 | the legs of a chain jump pairwise distinct squares |
| BoardState.LegCounts | board.py:321-355 | one leg of a playable chain keeps the counters consistent, removes one opposing piece and keeps the mover's total |
| BoardState.LegTotals | board.py:329-355 | a capturing leg lowers the opponent's total by one and keeps the mover's |
| BoardState.LegCounters | board.py:329-355 | a leg changes each counter by the jumped piece, the departing piece and the arriving (possibly crowned) piece |
| BoardState.LegKeepsOpen | board.py:321-355 | after a leg the mover's colour stands on the landing square and every later leg is still open |
| BoardState.LegsFrom | board.py:321-355 | playing the remaining legs of a playable chain keeps the counters consistent and removes one opposing piece per leg |
| BoardState.GeneratedLeg | board.py:159-197 | each leg of a generated chain is an on-board diagonal leap over a capturable piece onto an empty, unvisited square |
| BoardState.GeneratedChainPlayable | board.py:317-355 | a chain returned for a piece is playable from the board it was generated on |
| BoardState.JumpPreservesValid | board.py:317-355 | a generated chain keeps every counter equal to its cells, removes exactly len(chain)-1 opposing pieces and keeps the mover's total |
| Evaluation.PieceScore | board.py:223-259 | in tenths: a man scores 1.0 per row advanced (row for RED, 7-row for BLUE), a king 3; plus 2.0 on the central squares, else 0.5 on the side columns for men and on any border square for kings |
| Evaluation.Mobility | board.py:261-265 | the number of destinations in the moves dict plus the number of chains in the jumps dict |
| Evaluation.StaticEval | board.py:273-295 | RED's material (men plus 3 per king), positional sum and 0.1 per move of mobility, minus BLUE's, in tenths |
| Evaluation.Eval | board.py:267-298 | the stored score when the board's key was in the cache when the search began, else the static evaluation |
| Evaluation.PieceScoreProperties | board.py:223-259 | a piece scores 0 to 7.5, EMPTY scores 0, kings score at least 3, and RED and BLUE of a rank score alike on half-turn-rotated squares |
| Evaluation.RowPositionalBounds | board.py:278-286 | one row's positional score lies between 0 and 7.5 per scanned column |
| Evaluation.PositionalBounds | board.py:278-286 | the positional score lies between 0 and 60 per scanned row |
| Evaluation.LengthsPositive | board.py:263-264 | summing non-empty lists gives at least one per entry |
| Evaluation.MobilityZero | board.py:261-265 | mobility is non-negative and zero exactly when the side has neither a move nor a chain |
| Evaluation.StaticEvalSign | board.py:273-298 | with BLUE wiped out and RED on the board the evaluation is positive, and negative in the mirrored case |
| Evaluation.NoPiecesNoScore | board.py:273-292 | a side with no pieces scores nothing: no material, no position, no mobility |
| Evaluation.NoPiecesNoMoves | board.py:261-265 | a side with no pieces has zero mobility |
| Evaluation.NoPieceOfColor | board.py:107-110 | when a side's counters are zero on a consistent board, no square holds a piece of that colour |
| Evaluation.KeepsExtend | board.py:357-360 | adding a key that is absent keeps every earlier entry |
| Evaluation.CachedIsEval | board.py:269-271 | on a consistent cache, a hit returns the value evaluate gives the position against the cache at the start of the search |
| Evaluation.StoreKeepsConsistent | board.py:294-298 | storing a missed position's static evaluation keeps the cache consistent, and that value is the position's evaluation |
| Evaluation.AddKeepsConsistent | board.py:357-360 | adding a correct entry under an absent key keeps the cache consistent |
| Boards.PositionCache.constructor | board.py:89 | the cache starts with the given entries |
| Boards.SumLengths | board.py:263-264 | the loop sums the list lengths of a dict |
| Boards.Board.constructor | board.py:106-120 | the new board holds the starting grid with counters 12/12/0/0 and the given must_jump, and its counters match its cells |
| Boards.Board.Copy | board.py:122-129 | the copy is a fresh board with the same grid, counters and must_jump |
| Boards.Board.MoveDirections | board.py:133-139 | the directions are those of the piece kind: RED forward, BLUE backward, kings all four, EMPTY none |
| Boards.Board.GetMovesForPiece | board.py:131-145 | returns exactly the legal simple destinations, in direction order |
| Boards.Board.GetJumpsForPiece | board.py:147-200 | returns exactly the maximal capture chains of the piece, in find_jumps order |
| Boards.Board.FindJumps | board.py:159-197 | the recursive search with its loop over directions returns the value-level find_jumps |
| Boards.Board.GetAllMovesForPiece | board.py:202-203 | returns both the simple moves and the chains of the piece |
| Boards.Board.GetAllMoves | board.py:205-221 | returns the moves and jumps dicts of the colour, in row-major order, with moves cleared under must_jump when a jump exists |
| Boards.Board.ScanRow | board.py:208-218 | scanning a whole row extends both dicts exactly by that row's entries |
| Boards.Board.ScanSquare | board.py:210-218 | scanning one square extends both dicts by that square's entries, if any |
| Boards.Board.CalculateMobility | board.py:261-265 | returns the total number of moves and chains, which is non-negative and zero exactly when the side cannot move |
| Boards.Board.Evaluate | board.py:267-298 | returns the cached score on a hit and the static evaluation otherwise, storing it; on a consistent cache the result is the position's evaluation and the cache stays consistent |
| Boards.Board.EvaluateAndStore | board.py:273-298 | on a miss, computes the static evaluation and stores it with the board's must_jump under the position's key |
| Boards.Board.StaticEvaluate | board.py:273-295 | material plus position plus mobility of RED minus that of BLUE, in tenths |
| Boards.Board.PlayLeg | board.py:321-355 | one iteration of play_jump: remove the jumped piece and move the jumper, crowning it on the far row |
| Boards.Board.RemoveJumped | board.py:330-340 | clears the jumped square and decrements the counter of the piece it held |
| Boards.Board.LandPiece | board.py:343-355 | empties the start square and places the piece on the end square, crowned and counted on the far row |
| Boards.Board.AddCache | board.py:357-360 | stores (evaluation, must_jump) under the board's key only when the key is absent |
| Boards.Board.PlayMove | board.py:300-315 | the board and counters become those of the move applied to the old board |
| Boards.Board.PlayJump | board.py:317-355 | the board and counters become those of the chain applied leg by leg; chains shorter than 2 change nothing |
| Search.Update | game.py:90-95 | one child: the best value and move change on a strict improvement only, so a tie keeps the earlier move; alpha takes the max (maximizer) or beta the min (minimizer) |
| Search.AlphaBeta | game.py:73-120 | value and move of minimax: the evaluation and no move at depth 0 or when check_winner reports a winner; otherwise both nested loops over move_dict with strict-improvement best move, Python max/min on the window, and both beta <= alpha breaks |
| Search.Minimax | game.py:73-120 | the plain minimax value of the same tree, with no window and no cut: the evaluation at depth 0 or in a finished game, else the max (RED) or min (BLUE) of the children's values, -inf or inf without children |
| Search.Turn | game.py:129-136 | the position after the move the search from (-inf, inf) returns for RED, or the same position when it returns none |
| Search.Max | game.py:93 | the result is at least both arguments and is one of them |
| Search.Min | game.py:115 | the result is at most both arguments and is one of them |
| Search.CutBoundGrows | game.py:94-97 | once the window has closed, later children cannot move the value back inside it |
| Search.UpdateStep | game.py:89-95 | one child's update keeps the running best, alpha and beta in step with the minimax value of the children seen |
| Search.AlphaBetaSound | game.py:73-120 | for any window alpha < beta the search is fail-soft: exact inside the window, an upper bound at or below alpha, a lower bound at or above beta |
| Search.ScanDictSound | game.py:82-97 | the scan over start squares keeps the fail-soft relation with the combined value of the remaining options |
| Search.ScanListSound | game.py:83-95 | the scan over one move list keeps the fail-soft relation with the combined value of its remaining options |
| Search.RootValue | game.py:129 | from the window (-inf, inf) the search returns the exact minimax value |
| Search.NoOptions | game.py:77-98 | a side with no options returns (-inf, None) as maximizer and (inf, None) as minimizer |
| Search.ScanListMove | game.py:90-92 | the recorded best move is always one of the options offered |
| Search.ScanDictMove | game.py:90-92 | across all start squares, the recorded best move is always an offered option |
| Search.AlphaBetaMove | game.py:73-120 | no move is returned exactly at depth 0, in a finished game, or when no child beats the starting worst; a returned move is an offered option |
| Search.ScanListRoot | game.py:83-95 | at the root, the best so far is the first option in iteration order whose child attains it |
| Search.ScanDictRoot | game.py:82-97 | the whole root scan returns the first option in iteration order whose child attains the best value |
| Search.RootChoice | game.py:77-98 | at the root, the value is the minimax value, no move comes back exactly when it is -inf, and the move's child has the root value |
| Search.TurnSpec | game.py:122-136 | the bot's turn keeps the position when the game is over, the depth is 0 or no move exists; otherwise it plays an offered option whose child has the root's minimax value |
| Rules.Winner | game.py:65-71 | BLUE when both RED counters are 0, else RED when both BLUE counters are 0, else NONE |
| Rules.SearchDepth | game.py:123-127 | 4 plus (24 - total) * 2 / 24 rounded half to even, from the total number of pieces |
| Rules.MoveDict | game.py:80-81 | the side's jumps dict as chain options when it is not empty, else its moves dict as destination options |
| Rules.Play | game.py:84-88 | the copy after play_jump of a chain or play_move of a destination |
| Rules.BotTurn | game.py:122-136 | the position after bot_move: the search at the bot's depth on the real board, with check_winner fixed, and the move it returns played, if any |
| Rules.ChainOnBoard | board.py:164 | every square of a generated chain is on the board |
| Rules.OptionLegal | game.py:80-81 | each option of move_dict starts on a piece of the side to move, is a chain exactly when that side has a jump, and is a generated chain or destination |
| Rules.MoveDictKeys | game.py:80-81 | a square is a key of move_dict exactly when it holds a piece of the side with a chain (if the side can jump) or a move (if not) |
| Rules.JumpOptionsKeys | game.py:81 | the jump options have the keys of the jumps dict |
| Rules.MoveOptionsKeys | game.py:81 | the move options have the keys of the moves dict |
| Rules.MustJumpIgnored | game.py:80-81 | move_dict is the same whether must_jump is set or not |
| Rules.ChildValid | game.py:84-88 | the copy playing any option keeps consistent counters; the mover loses nothing and the opponent loses one piece per leg of a chain |
| Rules.GeneratedPlayValid | game.py:84-88 | playing a generated move or chain of a piece of the side keeps the counters consistent and removes exactly the captured pieces |
| Rules.MoveDictKind | game.py:81-85 | move_dict holds only chains when the side has a jump and only destinations otherwise |
| Rules.OptionPlayable | game.py:84-88 | every option's squares are on the board and playing it keeps the counters consistent |
| Rules.BestPlayable | game.py:130-136 | a RED option of move_dict is found again in the fresh dicts of bot_move and dispatched to the matching play |
| Rules.WinnerSpec | game.py:65-71 | on a consistent board BLUE wins exactly when no RED piece is left, and RED wins exactly when RED pieces remain and no BLUE piece does |
| Rules.SideLeft | game.py:67-69 | a side's men and kings counters are both zero exactly when none of its pieces is on the board |
| Rules.RoundHalfEven | game.py:127 | the result is within a half of n/d, and a tie goes to the even integer |
| Rules.SearchDepthBounds | game.py:123-127 | from 24 pieces down to 0 the depth lies between 4 and 6, and it is at least 1 on any board |
| Rules.SearchDepthMonotone | game.py:123-127 | fewer pieces never give a shallower search |
| Rules.SearchDepthValues | game.py:123-127 | the depth is 4 at 24 and 18 pieces, 5 at 12, and 6 at 6 and 0 (the ties round to even) |
| Rules.BotDepth | game.py:123-127 | the depth bot_move searches a consistent board to is at least 1 |
| Rules.CheckersIs | game.py:73-120 | the checkers game values leaves by evaluate, lists move_dict and plays board copies |
| Rules.TurnLinked | game.py:129-136 | a turn keeps the board consistent and plays, when it plays, a RED option of move_dict whose child has the root value |
| Rules.BotTurnSpec | game.py:122-136 | bot_move keeps the board consistent; it leaves it unchanged when the game is over or RED has no move, and otherwise plays a RED option of move_dict that attains the minimax value at the bot's depth |
| Game.GameLogic.constructor | game.py:8-11 | the game holds a fresh starting board with the given must_jump |
| Game.GameLogic.CheckWinner | game.py:65-71 | returns BLUE, RED or NONE from the counters of the real board |
| Game.GameLogic.Minimax | game.py:73-120 | returns the value and move of the alpha-beta search over board copies, leaves the boards unchanged and keeps the cache consistent |
| Game.GameLogic.ScanOptions | game.py:82-97 | the two nested loops return the window the search reaches over move_dict, stopping when beta <= alpha |
| Game.GameLogic.ScanMoveList | game.py:83-95 | the inner loop over one move list returns the window the search reaches over it |
| Game.GameLogic.SearchChild | game.py:84-89 | the copy-play-recurse step returns the child's search value |
| Game.GameLogic.LeafValue | game.py:74-75 | the leaf returns the position's evaluation and keeps the cache consistent |
| Game.GameLogic.NodeOptions | game.py:80-81 | returns move_dict for the side and whether it holds jumps |
| Game.GameLogic.PlayOption | game.py:84-88 | returns a fresh consistent copy with the option played |
| Game.GameLogic.CopyAndPlay | game.py:84-88 | the copy plays the chain with play_jump or the destination with play_move |
| Game.GameLogic.BotMove | game.py:122-136 | the board becomes the bot's turn from the old board, stays consistent, and the cache stays consistent |
| Game.GameLogic.BotMoveIn | game.py:123-136 | searches at the bot's depth from (-inf, inf) and plays the move found, if any |
| Game.GameLogic.PlayBest | game.py:130-136 | playing the found move on the real board gives the search child of that move |
| Game.GameLogic.PlayFound | game.py:132-136 | a chain start found in jumps is played with play_jump and otherwise a start found in moves with play_move |
| Game.CheckersAI.constructor | game/ai.py:3-4 | the AI keeps the game logic it is given |
| Game.CheckersAI.Minimax | game/ai.py:6-53 | returns what the alpha-beta search of the checkers game returns, with the game's own check_winner and must_jump |
| Game.CheckersAI.BotMove | game/ai.py:55-69 | the board becomes the bot's turn from the old board and stays consistent |

## Left out

- Floating point: the weights are multiples of 0.1, so scores are exact integers in tenths, and the infinities are `NegInf` and `PosInf`. Float rounding in sums such as 0.1 * mobility is not modelled.
- Printing (`print_move`, "Bot thinking at depth ...") is not modelled. The `print_move` flag of `play_move` and `play_jump` is therefore dropped.
- Loading and saving the cache file (`load_cache` and `save_cache`, board.py:74-86) is file I/O and is left out. The module-level `cache` is a `PositionCache` object passed to the methods that use it, filled from whatever the file held.
- `self.cache` of `Board.__init__` (board.py:113) is never read or written afterwards, so it is left out.
- `GameLogic.start` (game.py:14-63), the GUI, `main.py`, `game/logic.py`, `ui/gui.py` and `utils/cache.py` are the event loop, drawing and file handling, and are left out.
- Game.GameLogic.CheckWinner: the `or not self.board.get_all_moves(...)` operands negate a pair, which is always truthy, so they never decide. The model keeps only the counter tests, which is what the code does.
- Boards.Board.PlayMove: requires both squares to be on the board. In Python an off-board index raises or wraps, but the search and `bot_move` only pass generated moves, which are on the board (Rules.OptionLegal).
- Boards.Board.PlayJump: requires every square of the chain to be on the board, for the same reason.
- Pieces.CacheKeyToBoard: requires a key of at least 64 characters. The source indexes characters 0-63 and raises on a shorter key.
- Rules.Play: it plays nothing for an action with an off-board square. Such actions never occur among generated options.
- Game.GameLogic.Minimax: the contract is stated for any game x that plays as `Rules.Checkers` does (IsCheckers) with the real board's `check_winner` fixed during the search. It also requires the board's counters to match its cells, which every constructor and play maintains.
- Game.CheckersAI.Minimax and Game.CheckersAI.BotMove: game/ai.py repeats `minimax` and `bot_move` of game.py line for line. Here they forward to the `GameLogic` methods instead of being written out a second time.
- Piece colours: core/piece.py and the top of board.py define `Piece`, `is_valid_position` and the key functions twice, identically. They are modelled once.
