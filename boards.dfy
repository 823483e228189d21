/** board.py's Board: a grid and four counters updated in place, the move
    generators and the evaluator that read them, and the module-level
    position cache that `evaluate` and `add_cache` share. Each method is
    proved to compute the value-level function of MoveGen, BoardState or
    Evaluation that states what it means. */
module Boards {
  import opened Pieces
  import opened MoveGen
  import opened BoardState
  import opened Evaluation

  /** The module-level `cache` dict: board key to (evaluation, must_jump). */
  class PositionCache {
    var entries: map<string, CacheEntry>

    constructor (initial: map<string, CacheEntry>)
      ensures entries == initial
    {
      entries := initial;
    }
  }

  /** `sum(len(v) for v in d.values())` over a dict in insertion order. */
  method SumLengths<T>(entries: seq<(Pos, seq<T>)>) returns (total: int)
    ensures total == Lengths(entries, |entries|)
  {
    total := 0;
    for i := 0 to |entries|
      invariant total == Lengths(entries, i)
    {
      total := total + |entries[i].1|;
    }
  }

  class Board {
    var grid: Grid
    var redPieces: int
    var bluePieces: int
    var redKings: int
    var blueKings: int
    var mustJump: bool

    /** The board as a value. */
    function Current(): State
      reads this
    {
      State(grid, redPieces, bluePieces, redKings, blueKings)
    }

    /** Each counter equals the number of cells of its kind. */
    predicate Valid()
      reads this
    {
      BoardState.Valid(Current())
    }

    /** `__init__`: RED on the dark squares of rows 0-2, BLUE on those of
        rows 5-7, counters 12/12/0/0. */
    constructor (mustJump: bool)
      ensures Current() == State(InitialGrid(), 12, 12, 0, 0)
      ensures this.mustJump == mustJump
      ensures Valid()
    {
      redPieces, bluePieces, redKings, blueKings := 12, 12, 0, 0;
      this.mustJump := mustJump;
      var g := EmptyGrid();
      for row := 0 to 8
        invariant forall r, c :: 0 <= r < 8 && 0 <= c < 8 ==>
          g[r][c] == if r < row then InitialPiece(r, c) else Empty
      {
        for col := 0 to 8
          invariant forall r, c :: 0 <= r < 8 && 0 <= c < 8 ==>
            g[r][c] == if r < row || (r == row && c < col) then InitialPiece(r, c) else Empty
        {
          if (row + col) % 2 == 1 {
            if row < 3 {
              g := Put(g, Pos(row, col), RedMan);
            } else if row > 4 {
              g := Put(g, Pos(row, col), BlueMan);
            }
          }
        }
      }
      assert forall r :: 0 <= r < 8 ==> g[r] == InitialGrid()[r];
      grid := g;
      InitialCounts();
    }

    /** `copy`: a fresh board with the same grid, counters and flag. */
    method Copy() returns (b: Board)
      ensures fresh(b)
      ensures b.Current() == Current() && b.mustJump == mustJump
    {
      b := new Board(mustJump);
      b.grid := grid;
      b.redPieces := redPieces;
      b.redKings := redKings;
      b.bluePieces := bluePieces;
      b.blueKings := blueKings;
    }

    /** The directions of `get_moves_for_piece`: forward for a man, all
        four for a king, none for an empty square. */
    static method MoveDirections(piece: Piece) returns (dirs: seq<Dir>)
      ensures dirs == MoveDirs(piece)
    {
      dirs := [];
      if piece == RedMan {
        dirs := dirs + [Dir(1, -1), Dir(1, 1)];
      } else if piece == BlueMan {
        dirs := dirs + [Dir(-1, -1), Dir(-1, 1)];
      } else if IsKing(piece) {
        dirs := dirs + [Dir(1, -1), Dir(1, 1), Dir(-1, -1), Dir(-1, 1)];
      }
    }

    /** `get_moves_for_piece`. */
    method GetMovesForPiece(piece: Piece, row: int, col: int) returns (moves: seq<Pos>)
      ensures moves == SimpleMoves(grid, piece, Pos(row, col))
      ensures forall to :: to in moves <==> IsSimpleMove(grid, piece, Pos(row, col), to)
    {
      var dirs := MoveDirections(piece);
      moves := [];
      for k := 0 to |dirs|
        invariant moves == MovesAlong(grid, dirs, Pos(row, col), k)
      {
        var newRow, newCol := row + dirs[k].dr, col + dirs[k].dc;
        ghost var before := moves;
        if IsValidPosition(newRow, newCol) && grid[newRow][newCol] == Empty {
          moves := moves + [Pos(newRow, newCol)];
        }
        assert Pos(newRow, newCol) == Step(Pos(row, col), dirs[k]);
        assert moves == before + if OnBoard(Pos(newRow, newCol)) && At(grid, Pos(newRow, newCol)) == Empty then [Pos(newRow, newCol)] else [];
      }
      forall to ensures to in moves <==> IsSimpleMove(grid, piece, Pos(row, col), to) {
        SimpleMovesSpec(grid, piece, Pos(row, col), to);
      }
    }

    /** `get_jumps_for_piece`: the directions are fixed here, once, from
        the starting piece. */
    method GetJumpsForPiece(piece: Piece, row: int, col: int) returns (jumps: seq<seq<Pos>>)
      ensures jumps == GetJumps(grid, piece, Pos(row, col))
    {
      var dirs: seq<Dir> := [];
      if IsRed(piece) {
        dirs := dirs + [Dir(1, -1), Dir(1, 1)];
      }
      if IsBlue(piece) {
        dirs := dirs + [Dir(-1, -1), Dir(-1, 1)];
      }
      if IsKing(piece) {
        if IsRed(piece) {
          dirs := dirs + [Dir(-1, -1), Dir(-1, 1)];
        } else {
          dirs := dirs + [Dir(1, -1), Dir(1, 1)];
        }
      }
      assert dirs == JumpDirs(piece);
      jumps := FindJumps(dirs, row, col, [Pos(row, col)], piece);
    }

    /** The nested `find_jumps`: the grid is only read, so pieces already
        jumped stay where they are for the rest of the search. */
    method FindJumps(dirs: seq<Dir>, row: int, col: int, path: seq<Pos>, cur: Piece) returns (found: seq<seq<Pos>>)
      ensures found == MoveGen.FindJumps(grid, dirs, Pos(row, col), path, cur)
      decreases Unvisited(path)
    {
      var at := Pos(row, col);
      found := [];
      for k := 0 to |dirs|
        invariant found == JumpsAlong(grid, dirs, at, path, cur, k)
      {
        var dr, dc := dirs[k].dr, dirs[k].dc;
        var middleRow, middleCol := row + dr, col + dc;
        var jumpRow, jumpCol := row + 2 * dr, col + 2 * dc;
        if IsValidPosition(middleRow, middleCol) && IsValidPosition(jumpRow, jumpCol) {
          var middle := grid[middleRow][middleCol];
          var newPos := Pos(jumpRow, jumpCol);
          assert Step(at, dirs[k]) == Pos(middleRow, middleCol) && Leap(at, dirs[k]) == newPos;
          if IsBlue(cur) {
            if IsRed(middle) && grid[jumpRow][jumpCol] == Empty {
              if newPos !in path {
                var next := path + [newPos];
                var newPiece := if jumpRow == 0 && !IsKing(cur) then BlueKing else cur;
                assert newPos in Unvisited(path) && newPos !in Unvisited(next);
                var sub := FindJumps(dirs, jumpRow, jumpCol, next, newPiece);
                if sub != [] {
                  found := found + sub;
                } else {
                  found := found + [next];
                }
              }
            }
          } else if IsRed(cur) {
            if IsBlue(middle) && grid[jumpRow][jumpCol] == Empty {
              if newPos !in path {
                var next := path + [newPos];
                var newPiece := if jumpRow == 7 && !IsKing(cur) then RedKing else cur;
                assert newPos in Unvisited(path) && newPos !in Unvisited(next);
                var sub := FindJumps(dirs, jumpRow, jumpCol, next, newPiece);
                if sub != [] {
                  found := found + sub;
                } else {
                  found := found + [next];
                }
              }
            }
          }
        }
      }
    }

    /** `get_all_moves_for_piece`: both lists of one piece. */
    method GetAllMovesForPiece(piece: Piece, row: int, col: int) returns (moves: seq<Pos>, jumps: seq<seq<Pos>>)
      ensures moves == SimpleMoves(grid, piece, Pos(row, col))
      ensures jumps == GetJumps(grid, piece, Pos(row, col))
    {
      moves := GetMovesForPiece(piece, row, col);
      jumps := GetJumpsForPiece(piece, row, col);
    }

    /** `get_all_moves`: one row-major scan; under must_jump the moves dict
        is dropped as soon as a jump exists. */
    method GetAllMoves(color: Color, mustJump: bool) returns (moves: seq<(Pos, seq<Pos>)>, jumps: seq<(Pos, seq<seq<Pos>>)>)
      ensures moves == MovesDict(grid, color, mustJump) && jumps == JumpsDict(grid, color)
    {
      moves, jumps := [], [];
      for row := 0 to 8
        invariant moves == MovesUpTo(grid, color, row, 0)
        invariant jumps == JumpsUpTo(grid, color, row, 0)
      {
        moves, jumps := ScanRow(color, row, moves, jumps);
      }
      if mustJump && jumps != [] {
        moves := [];
      }
    }

    /** One row of the get_all_moves scan, square by square. */
    method ScanRow(color: Color, row: int, moves: seq<(Pos, seq<Pos>)>, jumps: seq<(Pos, seq<seq<Pos>>)>)
      returns (movesAfter: seq<(Pos, seq<Pos>)>, jumpsAfter: seq<(Pos, seq<seq<Pos>>)>)
      requires 0 <= row < 8
      requires moves == MovesUpTo(grid, color, row, 0) && jumps == JumpsUpTo(grid, color, row, 0)
      ensures movesAfter == MovesUpTo(grid, color, row, 8) && jumpsAfter == JumpsUpTo(grid, color, row, 8)
    {
      movesAfter, jumpsAfter := moves, jumps;
      for col := 0 to 8
        invariant movesAfter == MovesUpTo(grid, color, row, col)
        invariant jumpsAfter == JumpsUpTo(grid, color, row, col)
      {
        movesAfter, jumpsAfter := ScanSquare(color, row, col, movesAfter, jumpsAfter);
      }
    }

    /** One square of the get_all_moves scan: an own piece with moves or
        jumps gets its entry appended to the matching dict. */
    method ScanSquare(color: Color, row: int, col: int, moves: seq<(Pos, seq<Pos>)>, jumps: seq<(Pos, seq<seq<Pos>>)>)
      returns (movesAfter: seq<(Pos, seq<Pos>)>, jumpsAfter: seq<(Pos, seq<seq<Pos>>)>)
      requires 0 <= row < 8 && 0 <= col < 8
      requires moves == MovesUpTo(grid, color, row, col) && jumps == JumpsUpTo(grid, color, row, col)
      ensures movesAfter == MovesUpTo(grid, color, row, col + 1) && jumpsAfter == JumpsUpTo(grid, color, row, col + 1)
    {
      movesAfter, jumpsAfter := moves, jumps;
      var piece := grid[row][col];
      if piece != Empty {
        var pieceColor := GetColor(piece);
        if pieceColor == Some(color) {
          var pieceMoves, pieceJumps := GetAllMovesForPiece(piece, row, col);
          if pieceMoves != [] {
            movesAfter := movesAfter + [(Pos(row, col), pieceMoves)];
          }
          if pieceJumps != [] {
            jumpsAfter := jumpsAfter + [(Pos(row, col), pieceJumps)];
          }
        }
      }
    }

    /** `_calculate_mobility`: destinations plus chains. */
    method CalculateMobility(color: Color, mustJump: bool) returns (mobility: int)
      ensures mobility == Mobility(grid, color, mustJump)
      ensures mobility >= 0
      ensures mobility == 0 <==> MovesDict(grid, color, mustJump) == [] && JumpsDict(grid, color) == []
    {
      var moves, jumps := GetAllMoves(color, mustJump);
      var totalMoves := SumLengths(moves);
      var totalJumps := SumLengths(jumps);
      mobility := totalMoves + totalJumps;
      MobilityZero(grid, color, mustJump);
    }

    /** `evaluate`: the stored value on a hit, whatever must_jump is;
        otherwise material, position and mobility in tenths, stored before
        it is returned. On a valid board and a cache that agrees with the
        evaluator, the result is what Eval prescribes and the cache keeps
        agreeing. */
    method Evaluate(mustJump: bool, cache: PositionCache, ghost cache0: map<string, CacheEntry>) returns (evaluation: int)
      modifies cache
      ensures evaluation == if Key(grid) in old(cache.entries) then old(cache.entries)[Key(grid)].score else StaticEval(Current(), mustJump)
      ensures Key(grid) in cache.entries
      ensures cache.entries == if Key(grid) in old(cache.entries) then old(cache.entries)
        else old(cache.entries)[Key(grid) := CacheEntry(StaticEval(Current(), mustJump), this.mustJump)]
      ensures Valid() && Consistent(old(cache.entries), cache0, mustJump) ==>
        evaluation == Eval(cache0, Current(), mustJump) && Consistent(cache.entries, cache0, mustJump)
    {
      var key := BoardToCacheKey(grid);
      if key in cache.entries {
        evaluation := cache.entries[key].score;
        if Valid() && Consistent(cache.entries, cache0, mustJump) {
          CachedIsEval(cache.entries, cache0, Current(), mustJump);
        }
      } else {
        evaluation := EvaluateAndStore(mustJump, cache, cache0);
      }
    }

    /** A miss: compute the static evaluation and add it to the cache. */
    method EvaluateAndStore(mustJump: bool, cache: PositionCache, ghost cache0: map<string, CacheEntry>) returns (evaluation: int)
      requires Key(grid) !in cache.entries
      modifies cache
      ensures evaluation == StaticEval(Current(), mustJump)
      ensures cache.entries == old(cache.entries)[Key(grid) := CacheEntry(evaluation, this.mustJump)]
      ensures Valid() && Consistent(old(cache.entries), cache0, mustJump) ==>
        Key(grid) !in cache0 && Consistent(cache.entries, cache0, mustJump)
    {
      ghost var st := Current();
      ghost var before := cache.entries;
      evaluation := StaticEvaluate(mustJump);
      AddCache(evaluation, cache);
      // AddCache touches only the cache: the board is the one evaluated
      assert grid == st.grid && redPieces == st.redMen && bluePieces == st.blueMen;
      assert redKings == st.redKings && blueKings == st.blueKings;
      assert Current() == st;
      if Valid() && Consistent(before, cache0, mustJump) {
        StoreKeepsConsistent(before, cache0, st, mustJump, this.mustJump);
      }
    }

    /** The uncached branch of `evaluate`: material, then a row-major
        positional scan, then mobility; RED's score minus BLUE's. */
    method StaticEvaluate(mustJump: bool) returns (evaluation: int)
      ensures evaluation == StaticEval(Current(), mustJump)
    {
      var redScore := ManValue * (redPieces + redKings * 3);
      var blueScore := ManValue * (bluePieces + blueKings * 3);
      for row := 0 to 8
        invariant redScore == Material(Current(), Red) + Positional(grid, Red, row)
        invariant blueScore == Material(Current(), Blue) + Positional(grid, Blue, row)
      {
        for col := 0 to 8
          invariant redScore == Material(Current(), Red) + Positional(grid, Red, row) + RowPositional(grid, Red, row, col)
          invariant blueScore == Material(Current(), Blue) + Positional(grid, Blue, row) + RowPositional(grid, Blue, row, col)
        {
          var piece := grid[row][col];
          if piece != Empty {
            var pieceScore := PieceScore(piece, row, col);
            if IsRed(piece) {
              redScore := redScore + pieceScore;
            } else {
              blueScore := blueScore + pieceScore;
            }
          }
        }
      }
      var redMobility := CalculateMobility(Red, mustJump);
      var blueMobility := CalculateMobility(Blue, mustJump);
      redScore := redScore + redMobility * MobilityWeight;
      blueScore := blueScore + blueMobility * MobilityWeight;
      evaluation := redScore - blueScore;
    }

    /** One pass of `play_jump`'s loop: read the moving piece, remove
        what is on the jumped square, then land as in `play_move`. */
    method PlayLeg(start: Pos, end: Pos)
      requires OnBoard(start) && OnBoard(end)
      modifies this
      ensures Current() == ApplyLeg(old(Current()), start, end)
      ensures mustJump == old(mustJump)
    {
      var piece := grid[start.row][start.col];
      var mid := Pos((start.row + end.row) / 2, (start.col + end.col) / 2);
      assert mid == Mid(start, end);
      RemoveJumped(mid);
      LandPiece(piece, start, end);
    }

    /** Discount the piece on the jumped square and empty it. */
    method RemoveJumped(mid: Pos)
      requires OnBoard(mid)
      modifies this
      ensures Current() == Capture(old(Current()), mid)
      ensures mustJump == old(mustJump)
    {
      var midPiece := grid[mid.row][mid.col];
      if midPiece == RedMan {
        redPieces := redPieces - 1;
      } else if midPiece == BlueMan {
        bluePieces := bluePieces - 1;
      } else if midPiece == RedKing {
        redKings := redKings - 1;
      } else if midPiece == BlueKing {
        blueKings := blueKings - 1;
      }
      grid := Put(grid, mid, Empty);
    }

    /** Empty the start, promote on the far row, write the end. */
    method LandPiece(piece: Piece, start: Pos, end: Pos)
      requires OnBoard(start) && OnBoard(end)
      modifies this
      ensures Current() == Land(old(Current()), piece, start, end)
      ensures mustJump == old(mustJump)
    {
      var arriving := piece;
      grid := Put(grid, start, Empty);
      if arriving == RedMan && end.row == 7 {
        arriving := RedKing;
        redPieces := redPieces - 1;
        redKings := redKings + 1;
      } else if arriving == BlueMan && end.row == 0 {
        arriving := BlueKing;
        bluePieces := bluePieces - 1;
        blueKings := blueKings + 1;
      }
      grid := Put(grid, end, arriving);
    }

    /** `add_cache`: write-once; the board's own must_jump flag is stored. */
    method AddCache(evaluation: int, cache: PositionCache)
      modifies cache
      ensures cache.entries == if Key(grid) in old(cache.entries) then old(cache.entries)
        else old(cache.entries)[Key(grid) := CacheEntry(evaluation, mustJump)]
    {
      var key := BoardToCacheKey(grid);
      if key in cache.entries {
        return;
      }
      cache.entries := cache.entries[key := CacheEntry(evaluation, mustJump)];
    }

    /** `play_move`: empty the start, promote on the far row, write the end. */
    method PlayMove(start: Pos, end: Pos)
      requires OnBoard(start) && OnBoard(end)
      modifies this
      ensures Current() == ApplyMove(old(Current()), start, end)
      ensures mustJump == old(mustJump)
    {
      var piece := grid[start.row][start.col];
      LandPiece(piece, start, end);
    }

    /** `play_jump`: nothing for fewer than two squares; otherwise each leg
        removes what is on the jumped square, moves the piece and promotes
        it on the far row. */
    method PlayJump(sequence: seq<Pos>)
      requires AllOnBoard(sequence)
      modifies this
      ensures Current() == ApplyJump(old(Current()), sequence)
      ensures mustJump == old(mustJump)
    {
      if |sequence| < 2 {
        return;
      }
      ghost var target, flag := ApplyJump(Current(), sequence), mustJump;
      for i := 0 to |sequence| - 1
        invariant ApplyLegsFrom(Current(), sequence, i) == target
        invariant mustJump == flag
      {
        ghost var s := Current();
        PlayLeg(sequence[i], sequence[i + 1]);
        assert Current() == ApplyLeg(s, sequence[i], sequence[i + 1]);
        assert ApplyLegsFrom(s, sequence, i) == ApplyLegsFrom(Current(), sequence, i + 1);
      }
    }
  }
}
