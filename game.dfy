/** `GameLogic` of game.py and `CheckersAI` of game/ai.py: the winner
    test on the real board, the alpha-beta search over board copies, and
    the bot's turn. The module-level position cache the evaluations go
    through is passed in as `cache`, with `cache0` its contents when the
    search began. */
module Game {
  import opened Pieces
  import opened MoveGen
  import opened BoardState
  import opened Evaluation
  import opened Boards
  import opened Search
  import opened Rules

  class GameLogic {
    var board: Board
    var mustJump: bool

    /** `__init__` without the GUI: a fresh starting board. */
    constructor (mustJump: bool)
      ensures this.mustJump == mustJump && fresh(board)
      ensures board.Current() == State(InitialGrid(), 12, 12, 0, 0) && board.mustJump == mustJump
      ensures board.Valid()
    {
      this.mustJump := mustJump;
      board := new Board(mustJump);
    }

    /** `check_winner`, on the counters of the real board. */
    method CheckWinner() returns (winner: Outcome)
      ensures winner == Winner(board.Current())
    {
      // the `or not self.board.get_all_moves(...)` operands negate a pair,
      // which is never falsy, so only the counters decide
      if board.redPieces == 0 && board.redKings == 0 {
        return BlueWon;
      } else if board.bluePieces == 0 && board.blueKings == 0 {
        return RedWon;
      }
      return NoWinner;
    }

    /** `minimax(board, depth, alpha, beta, maximizer)`: returns what the
        search AlphaBeta returns for a game x that plays as Checkers does,
        where the real board's check_winner holds for the whole search;
        neither board is changed, and the cache keeps agreeing with the
        evaluator. */
    method Minimax(b: Board, depth: nat, alpha: Score, beta: Score, maximizer: bool,
                   cache: PositionCache, ghost cache0: map<string, CacheEntry>, ghost x: Game)
      returns (value: Score, bestMove: Option<Action>)
      requires b.Valid() && Consistent(cache.entries, cache0, mustJump)
      requires IsCheckers(x, cache0, mustJump) && x.over == Over(board.Current())
      modifies cache
      ensures Consistent(cache.entries, cache0, mustJump)
      ensures (value, bestMove) == AlphaBeta(x, b.Current(), depth, alpha, beta, maximizer)
      decreases depth, 3
    {
      var winner := CheckWinner();
      if depth == 0 || winner != NoWinner {
        var evaluation := LeafValue(b, cache, cache0, x);
        return Fin(evaluation), None;
      }
      var moveDict, isJump := NodeOptions(b, maximizer, cache0, x);
      var a, bt;
      a, bt, value, bestMove := ScanOptions(b, moveDict, isJump, depth, alpha, beta, maximizer, cache, cache0, x);
    }

    /** The outer loop of minimax, over the entries of move_dict, from the
        window (alpha, beta) and the worst score: the returned window is the
        one ScanDict computes, and the cache keeps agreeing with the
        evaluator. */
    method ScanOptions(b: Board, moveDict: Options, isJump: bool, depth: nat, alpha: Score, beta: Score, maximizer: bool,
                       cache: PositionCache, ghost cache0: map<string, CacheEntry>, ghost x: Game)
      returns (a: Score, bt: Score, bestEval: Score, bestMove: Option<Action>)
      requires depth > 0 && b.Valid() && Consistent(cache.entries, cache0, mustJump)
      requires IsCheckers(x, cache0, mustJump) && x.over == Over(board.Current())
      requires moveDict == Moves(x, b.Current(), maximizer)
      requires JumpKind(moveDict, isJump)
      modifies cache
      ensures Consistent(cache.entries, cache0, mustJump)
      ensures Window(a, bt, bestEval, bestMove)
        == ScanDict(x, b.Current(), moveDict, 0, depth, maximizer, Window(alpha, beta, Worst(maximizer), None))
      decreases depth, 2
    {
      ghost var s := b.Current();
      a, bt, bestEval, bestMove := alpha, beta, Worst(maximizer), None;
      ghost var w0 := Window(a, bt, bestEval, bestMove);
      for i := 0 to |moveDict|
        invariant Consistent(cache.entries, cache0, mustJump)
        invariant ScanDict(x, s, moveDict, 0, depth, maximizer, w0) == ScanDict(x, s, moveDict, i, depth, maximizer, Window(a, bt, bestEval, bestMove))
      {
        ghost var wi := Window(a, bt, bestEval, bestMove);
        a, bt, bestEval, bestMove := ScanMoveList(b, moveDict, i, isJump, depth, a, bt, bestEval, bestMove, maximizer, cache, cache0, x);
        if Le(bt, a) {
          assert ScanDict(x, s, moveDict, i, depth, maximizer, wi) == Window(a, bt, bestEval, bestMove);
          break;
        }
      }
    }

    /** The inner loop of minimax, over the move list of entry i: the
        returned window is the one ScanList computes. */
    method ScanMoveList(b: Board, moveDict: Options, i: int, isJump: bool, depth: nat,
                        alpha: Score, beta: Score, best: Score, move: Option<Action>, maximizer: bool,
                        cache: PositionCache, ghost cache0: map<string, CacheEntry>, ghost x: Game)
      returns (a: Score, bt: Score, bestEval: Score, bestMove: Option<Action>)
      requires depth > 0 && b.Valid() && Consistent(cache.entries, cache0, mustJump)
      requires IsCheckers(x, cache0, mustJump) && x.over == Over(board.Current())
      requires moveDict == Moves(x, b.Current(), maximizer) && 0 <= i < |moveDict|
      requires JumpKind(moveDict, isJump)
      modifies cache
      ensures Consistent(cache.entries, cache0, mustJump)
      ensures Window(a, bt, bestEval, bestMove)
        == ScanList(x, b.Current(), moveDict[i].0, moveDict[i].1, 0, depth, maximizer, Window(alpha, beta, best, move))
      decreases depth, 1
    {
      ghost var s := b.Current();
      var start, moveList := moveDict[i].0, moveDict[i].1;
      a, bt, bestEval, bestMove := alpha, beta, best, move;
      for j := 0 to |moveList|
        invariant Consistent(cache.entries, cache0, mustJump)
        invariant ScanList(x, s, start, moveList, 0, depth, maximizer, Window(alpha, beta, best, move))
          == ScanList(x, s, start, moveList, j, depth, maximizer, Window(a, bt, bestEval, bestMove))
      {
        ghost var w := Window(a, bt, bestEval, bestMove);
        var evaluation := SearchChild(b, moveDict, i, j, isJump, depth, a, bt, maximizer, cache, cache0, x);
        if maximizer {
          if Lt(bestEval, evaluation) {
            bestEval, bestMove := evaluation, Some(Action(start, moveList[j]));
          }
          a := Max(a, evaluation);
        } else {
          if Lt(evaluation, bestEval) {
            bestEval, bestMove := evaluation, Some(Action(start, moveList[j]));
          }
          bt := Min(bt, evaluation);
        }
        assert Window(a, bt, bestEval, bestMove) == Update(w, evaluation, Action(start, moveList[j]), maximizer);
        if Le(bt, a) {
          assert ScanList(x, s, start, moveList, j, depth, maximizer, w) == Window(a, bt, bestEval, bestMove);
          break;
        }
      }
    }

    /** The inner loop's body up to the window update: copy the board, play
        option (i, j) on the copy, and search the copy one level down with
        the current window. */
    method SearchChild(b: Board, moveDict: Options, i: int, j: int, isJump: bool, depth: nat,
                       alpha: Score, beta: Score, maximizer: bool,
                       cache: PositionCache, ghost cache0: map<string, CacheEntry>, ghost x: Game)
      returns (evaluation: Score)
      requires depth > 0 && b.Valid() && Consistent(cache.entries, cache0, mustJump)
      requires IsCheckers(x, cache0, mustJump) && x.over == Over(board.Current())
      requires moveDict == Moves(x, b.Current(), maximizer)
      requires 0 <= i < |moveDict| && 0 <= j < |moveDict[i].1|
      requires JumpKind(moveDict, isJump)
      modifies cache
      ensures Consistent(cache.entries, cache0, mustJump)
      ensures evaluation == AlphaBeta(x, Child(x, b.Current(), Action(moveDict[i].0, moveDict[i].1[j])), depth - 1, alpha, beta, !maximizer).0
      decreases depth, 0
    {
      ghost var s := b.Current();
      ghost var child := Child(x, s, Action(moveDict[i].0, moveDict[i].1[j]));
      var boardCopy := PlayOption(b, moveDict, i, j, isJump, maximizer, cache0, x);
      assert boardCopy.Current() == child;
      var childMove;
      evaluation, childMove := Minimax(boardCopy, depth - 1, alpha, beta, !maximizer, cache, cache0, x);
      // the search touches only the cache
      assert boardCopy.grid == child.grid && b.grid == s.grid;
      assert boardCopy.redPieces == child.redMen && boardCopy.bluePieces == child.blueMen;
      assert boardCopy.redKings == child.redKings && boardCopy.blueKings == child.blueKings;
      assert b.redPieces == s.redMen && b.bluePieces == s.blueMen;
      assert b.redKings == s.redKings && b.blueKings == s.blueKings;
      assert boardCopy.Current() == child && b.Current() == s;
      assert evaluation == AlphaBeta(x, child, depth - 1, alpha, beta, !maximizer).0;
    }

    /** `board.evaluate(self.must_jump)` at a leaf of the search. */
    method LeafValue(b: Board, cache: PositionCache, ghost cache0: map<string, CacheEntry>, ghost x: Game)
      returns (evaluation: int)
      requires b.Valid() && Consistent(cache.entries, cache0, mustJump) && IsCheckers(x, cache0, mustJump)
      modifies cache
      ensures Consistent(cache.entries, cache0, mustJump)
      ensures evaluation == Leaf(x, b.Current())
    {
      ghost var s := b.Current();
      evaluation := b.Evaluate(mustJump, cache, cache0);
      // Evaluate touches only the cache
      assert b.grid == s.grid && b.redPieces == s.redMen && b.bluePieces == s.blueMen;
      assert b.redKings == s.redKings && b.blueKings == s.blueKings;
      assert b.Current() == s && LeafAt(s);
    }

    /** The move_dict of a node: the side's jumps dict if it has any jump,
        its moves dict otherwise; isJump tells which. */
    method NodeOptions(b: Board, maximizer: bool, ghost cache0: map<string, CacheEntry>, ghost x: Game)
      returns (moveDict: Options, isJump: bool)
      requires IsCheckers(x, cache0, mustJump)
      ensures moveDict == Moves(x, b.Current(), maximizer)
      ensures JumpKind(moveDict, isJump)
    {
      assert OptionsAt(b.Current(), maximizer);
      var moves, jumps := b.GetAllMoves(if maximizer then Red else Blue, mustJump);
      moveDict := if jumps != [] then JumpOptions(jumps) else MoveOptions(moves);
      isJump := jumps != [];
      MoveDictKind(b.Current(), maximizer, mustJump);
    }

    /** The first steps of the inner loop's body: copy the board and play
        option (i, j) of move_dict on the copy, through play_jump when the
        side has jumps and play_move otherwise. */
    method PlayOption(b: Board, moveDict: Options, i: int, j: int, isJump: bool, maximizer: bool,
                      ghost cache0: map<string, CacheEntry>, ghost x: Game)
      returns (boardCopy: Board)
      requires b.Valid() && IsCheckers(x, cache0, mustJump)
      requires moveDict == Moves(x, b.Current(), maximizer)
      requires 0 <= i < |moveDict| && 0 <= j < |moveDict[i].1|
      requires JumpKind(moveDict, isJump)
      ensures fresh(boardCopy) && boardCopy.Valid()
      ensures boardCopy.Current() == Child(x, b.Current(), Action(moveDict[i].0, moveDict[i].1[j]))
    {
      ghost var s := b.Current();
      ghost var a := Action(moveDict[i].0, moveDict[i].1[j]);
      assert OptionsAt(s, maximizer) && PlayAt(s, a);
      OptionPlayable(s, maximizer, mustJump, i, j);
      boardCopy := CopyAndPlay(b, moveDict[i].0, moveDict[i].1[j], isJump);
    }

    /** `board.copy()` followed by `play_jump(move_data)` when isJump, by
        `play_move(start_pos, move_data)` otherwise. */
    method CopyAndPlay(b: Board, start: Pos, data: MoveData, isJump: bool) returns (boardCopy: Board)
      requires data.Chain? == isJump
      requires data.Chain? ==> AllOnBoard(data.path)
      requires data.Dest? ==> OnBoard(start) && OnBoard(data.to)
      ensures fresh(boardCopy)
      ensures boardCopy.Current() == Play(b.Current(), Action(start, data))
    {
      boardCopy := b.Copy();
      if isJump {
        boardCopy.PlayJump(data.path);
      } else {
        boardCopy.PlayMove(start, data.to);
      }
    }

    /** `bot_move`: search the real board from (-inf, inf) to the depth its
        piece count gives, then play the move found, through play_jump when
        its start square is a key of the jumps dict, else through play_move
        when it is a key of the moves dict. */
    method BotMove(cache: PositionCache, ghost cache0: map<string, CacheEntry>)
      requires board.Valid() && Consistent(cache.entries, cache0, mustJump)
      modifies board, cache
      ensures board.Valid() && Consistent(cache.entries, cache0, mustJump)
      ensures board.Current() == BotTurn(cache0, mustJump, old(board.Current()))
    {
      ghost var x := Checkers(cache0, mustJump, Over(board.Current()));
      CheckersIs(cache0, mustJump, Over(board.Current()));
      BotMoveIn(cache, cache0, x);
    }

    /** bot_move for a game x that plays as Checkers does. */
    method BotMoveIn(cache: PositionCache, ghost cache0: map<string, CacheEntry>, ghost x: Game)
      requires board.Valid() && Consistent(cache.entries, cache0, mustJump)
      requires IsCheckers(x, cache0, mustJump) && x.over == Over(board.Current())
      modifies board, cache
      ensures board.Valid() && Consistent(cache.entries, cache0, mustJump)
      ensures board.Current() == Turn(x, old(board.Current()), BotDepth(old(board.Current())))
    {
      ghost var s := board.Current();
      assert BoardState.Valid(s);
      var totalPieces := board.redPieces + board.redKings + board.bluePieces + board.blueKings;
      var depth := MinDepth + RoundHalfEven((InitialPieces - totalPieces) * (MaxDepth - MinDepth), InitialPieces);
      assert depth == BotDepth(s);
      var evaluation, bestMove := Minimax(board, depth, NegInf, PosInf, true, cache, cache0, x);
      assert board.Current() == s && board.Valid();
      if bestMove.Some? {
        ghost var i, j := OptionOf(x, s, depth, NegInf, PosInf, true);
        ghost var entries, mj := cache.entries, mustJump;
        PlayBest(bestMove.value.start, bestMove.value.data, i, j, cache0, x);
        assert cache.entries == entries && mustJump == mj;
      }
    }

    /** The end of bot_move: play the move found on the real board, through
        play_jump when its start square is a key of the jumps dict, else
        through play_move when it is a key of the moves dict. The move is
        option (i, j) of move_dict, so it is played exactly. */
    method PlayBest(start: Pos, data: MoveData, ghost i: int, ghost j: int,
                    ghost cache0: map<string, CacheEntry>, ghost x: Game)
      requires board.Valid() && IsCheckers(x, cache0, mustJump)
      requires var d := Moves(x, board.Current(), true);
        0 <= i < |d| && 0 <= j < |d[i].1| && d[i].0 == start && d[i].1[j] == data
      modifies board
      ensures board.Valid()
      ensures board.Current() == Child(x, old(board.Current()), Action(start, data))
    {
      ghost var s := board.Current();
      assert OptionsAt(s, true) && PlayAt(s, Action(start, data));
      BestPlayable(s, mustJump, i, j);
      PlayFound(board, start, data, mustJump);
      assert board.Current() == Play(s, Action(start, data));
    }

    /** The tail of bot_move: play_jump when start is a key of the jumps
        dict, else play_move when it is a key of the moves dict. */
    static method PlayFound(b: Board, start: Pos, data: MoveData, mustJump: bool)
      requires Dispatchable(b.grid, mustJump, start, data)
      modifies b
      ensures b.Current() == Play(old(b.Current()), Action(start, data))
    {
      var moves, jumps := b.GetAllMoves(Red, mustJump);
      if jumps != [] && HasKey(jumps, start) {
        b.PlayJump(data.path);
      } else if moves != [] && HasKey(moves, start) {
        b.PlayMove(start, data.to);
      } else {
        assert false;
      }
    }
  }

  /** `CheckersAI` of game/ai.py, which repeats GameLogic's minimax and
      bot_move, reading the board, must_jump and check_winner through its
      game_logic; here both forward to the GameLogic methods. */
  class CheckersAI {
    var gameLogic: GameLogic

    constructor (gameLogic: GameLogic)
      ensures this.gameLogic == gameLogic
    {
      this.gameLogic := gameLogic;
    }

    method Minimax(b: Board, depth: nat, alpha: Score, beta: Score, maximizer: bool,
                   cache: PositionCache, ghost cache0: map<string, CacheEntry>)
      returns (value: Score, bestMove: Option<Action>)
      requires b.Valid() && Consistent(cache.entries, cache0, gameLogic.mustJump)
      modifies cache
      ensures Consistent(cache.entries, cache0, gameLogic.mustJump)
      ensures (value, bestMove) == AlphaBeta(Checkers(cache0, gameLogic.mustJump, Over(gameLogic.board.Current())), b.Current(), depth, alpha, beta, maximizer)
    {
      CheckersIs(cache0, gameLogic.mustJump, Over(gameLogic.board.Current()));
      value, bestMove := gameLogic.Minimax(b, depth, alpha, beta, maximizer, cache, cache0, Checkers(cache0, gameLogic.mustJump, Over(gameLogic.board.Current())));
    }

    method BotMove(cache: PositionCache, ghost cache0: map<string, CacheEntry>)
      requires gameLogic.board.Valid() && Consistent(cache.entries, cache0, gameLogic.mustJump)
      modifies gameLogic.board, cache
      ensures gameLogic.board.Valid() && Consistent(cache.entries, cache0, gameLogic.mustJump)
      ensures gameLogic.board.Current() == BotTurn(cache0, gameLogic.mustJump, old(gameLogic.board.Current()))
    {
      gameLogic.BotMove(cache, cache0);
    }
  }
}
