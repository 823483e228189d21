/** The static evaluation of board.py (`_evaluate_piece_position`,
    `_calculate_mobility`, `evaluate`) in integer tenths, and the module-level
    position cache it reads and writes. Positive scores favour RED. */
module Evaluation {
  import opened Pieces
  import opened MoveGen
  import opened BoardState

  /** The weights of board.py:94-98 in tenths: a king is worth three men,
      advancement 1.0 per row, central bonus 2.0, edge bonus 0.5, mobility
      0.1 per move. */
  const ManValue := 10
  const KingValue := 30
  const AdvancementWeight := 10
  const CentralBonus := 20
  const EdgeBonus := 5
  const MobilityWeight := 1

  /** CENTRAL_POSITIONS: columns 1-6 of rows 3 and 4. */
  predicate IsCentral(r: int, c: int) {
    (r == 3 || r == 4) && 1 <= c <= 6
  }

  /** `_evaluate_piece_position`: men score their advancement, kings a flat
      value; the central bonus wins over the edge bonus; men get the edge
      bonus on the side columns only, kings on any border square. */
  function PieceScore(piece: Piece, r: int, c: int): int {
    var sideEdge := c == 0 || c == 7;
    var boardEdge := sideEdge || r == 0 || r == 7;
    match piece
    case RedMan => r * AdvancementWeight + (if IsCentral(r, c) then CentralBonus else if sideEdge then EdgeBonus else 0)
    case BlueMan => (7 - r) * AdvancementWeight + (if IsCentral(r, c) then CentralBonus else if sideEdge then EdgeBonus else 0)
    case RedKing => KingValue + (if IsCentral(r, c) then CentralBonus else if boardEdge then EdgeBonus else 0)
    case BlueKing => KingValue + (if IsCentral(r, c) then CentralBonus else if boardEdge then EdgeBonus else 0)
    case Empty => 0
  }

  /** Scores lie between 0 and 7.5 on the board, EMPTY scores nothing, and
      the table is symmetric: a piece scores what the opposing piece of the
      same rank scores on the square rotated half a turn. */
  lemma PieceScoreProperties(piece: Piece, r: int, c: int)
    requires IsValidPosition(r, c)
    ensures 0 <= PieceScore(piece, r, c) <= 75
    ensures piece == Empty ==> PieceScore(piece, r, c) == 0
    ensures PieceScore(RedMan, r, c) == PieceScore(BlueMan, 7 - r, 7 - c)
    ensures PieceScore(RedKing, r, c) == PieceScore(BlueKing, 7 - r, 7 - c)
    ensures IsKing(piece) ==> PieceScore(piece, r, c) >= KingValue
  {
  }

  /** The score a cell adds to side c's positional sum. */
  function CellScore(g: Grid, c: Color, r: int, col: int): int
    requires IsValidPosition(r, col)
  {
    var piece := g[r][col];
    if piece != Empty && GetColor(piece) == Some(c) then PieceScore(piece, r, col) else 0
  }

  /** The positional sum of side c over the first `cols` cells of row r. */
  function RowPositional(g: Grid, c: Color, r: int, cols: int): int
    requires 0 <= r < 8 && 0 <= cols <= 8
  {
    if cols == 0 then 0 else RowPositional(g, c, r, cols - 1) + CellScore(g, c, r, cols - 1)
  }

  /** The positional sum of side c over the first `rows` rows. */
  function Positional(g: Grid, c: Color, rows: int): int
    requires 0 <= rows <= 8
  {
    if rows == 0 then 0 else Positional(g, c, rows - 1) + RowPositional(g, c, rows - 1, 8)
  }

  lemma {:induction false} RowPositionalBounds(g: Grid, c: Color, r: int, cols: int)
    requires 0 <= r < 8 && 0 <= cols <= 8
    ensures 0 <= RowPositional(g, c, r, cols) <= 75 * cols
  {
    if cols > 0 {
      RowPositionalBounds(g, c, r, cols - 1);
      PieceScoreProperties(g[r][cols - 1], r, cols - 1);
    }
  }

  /** The positional sums are never negative and at most 7.5 per square. */
  lemma {:induction false} PositionalBounds(g: Grid, c: Color, rows: int)
    requires 0 <= rows <= 8
    ensures 0 <= Positional(g, c, rows) <= 600 * rows
  {
    if rows > 0 {
      PositionalBounds(g, c, rows - 1);
      RowPositionalBounds(g, c, rows - 1, 8);
    }
  }

  /** Sum of the list lengths of a dict. */
  function Lengths<T>(entries: seq<(Pos, seq<T>)>, n: nat): int
    requires n <= |entries|
  {
    if n == 0 then 0 else Lengths(entries, n - 1) + |entries[n - 1].1|
  }

  /** `_calculate_mobility`: simple destinations plus the number of chains. */
  function Mobility(g: Grid, c: Color, mustJump: bool): int {
    var moves, jumps := MovesDict(g, c, mustJump), JumpsDict(g, c);
    Lengths(moves, |moves|) + Lengths(jumps, |jumps|)
  }

  lemma {:induction false} LengthsPositive<T>(entries: seq<(Pos, seq<T>)>, n: nat)
    requires n <= |entries|
    requires forall i :: 0 <= i < |entries| ==> entries[i].1 != []
    ensures Lengths(entries, n) >= n
  {
    if n > 0 {
      LengthsPositive(entries, n - 1);
    }
  }

  /** Mobility is zero exactly when the side has neither a simple move
      nor a capture. */
  lemma MobilityZero(g: Grid, c: Color, mustJump: bool)
    ensures Mobility(g, c, mustJump) >= 0
    ensures Mobility(g, c, mustJump) == 0 <==> MovesDict(g, c, mustJump) == [] && JumpsDict(g, c) == []
  {
    MovesDictEntries(g, c, mustJump);
    JumpsDictEntries(g, c);
    var moves, jumps := MovesDict(g, c, mustJump), JumpsDict(g, c);
    LengthsPositive(moves, |moves|);
    LengthsPositive(jumps, |jumps|);
  }

  /** Material in tenths: `pieces + kings * KING_VALUE`. */
  function Material(s: State, c: Color): int {
    if c == Red then ManValue * (s.redMen + 3 * s.redKings)
    else ManValue * (s.blueMen + 3 * s.blueKings)
  }

  /** A side's score: material, position and mobility. */
  function SideScore(s: State, c: Color, mustJump: bool): int {
    Material(s, c) + Positional(s.grid, c, Rows()) + MobilityWeight * Mobility(s.grid, c, mustJump)
  }

  /** What `evaluate` computes when the position is not cached. */
  function StaticEval(s: State, mustJump: bool): int {
    SideScore(s, Red, mustJump) - SideScore(s, Blue, mustJump)
  }

  /** With blue wiped out and red still on the board, the evaluation favours
      red, and symmetrically. */
  lemma StaticEvalSign(s: State, mustJump: bool)
    requires Valid(s)
    ensures Total(s, Blue) == 0 && Total(s, Red) > 0 ==> StaticEval(s, mustJump) > 0
    ensures Total(s, Red) == 0 && Total(s, Blue) > 0 ==> StaticEval(s, mustJump) < 0
  {
    CountsBounded(s);
    if Total(s, Red) == 0 {
      NoPiecesNoScore(s, Red, mustJump);
    }
    if Total(s, Blue) == 0 {
      NoPiecesNoScore(s, Blue, mustJump);
    }
    PositionalBounds(s.grid, Red, 8);
    PositionalBounds(s.grid, Blue, 8);
    MobilityZero(s.grid, Red, mustJump);
    MobilityZero(s.grid, Blue, mustJump);
  }

  /** A side without pieces scores nothing. */
  lemma NoPiecesNoScore(s: State, c: Color, mustJump: bool)
    requires Valid(s) && Total(s, c) == 0
    ensures SideScore(s, c, mustJump) == 0
  {
    CountsBounded(s);
    NoPiecesNoPosition(s, c, 8);
    NoPiecesNoMoves(s, c, mustJump);
  }

  lemma {:induction false} NoPiecesNoRow(s: State, c: Color, r: int, cols: int)
    requires Valid(s) && Total(s, c) == 0 && 0 <= r < 8 && 0 <= cols <= 8
    ensures RowPositional(s.grid, c, r, cols) == 0
  {
    if cols > 0 {
      NoPiecesNoRow(s, c, r, cols - 1);
      NoPieceOfColor(s, c, Pos(r, cols - 1));
    }
  }

  lemma {:induction false} NoPiecesNoPosition(s: State, c: Color, rows: int)
    requires Valid(s) && Total(s, c) == 0 && 0 <= rows <= 8
    ensures Positional(s.grid, c, rows) == 0
  {
    if rows > 0 {
      NoPiecesNoPosition(s, c, rows - 1);
      NoPiecesNoRow(s, c, rows - 1, 8);
    }
  }

  lemma NoPiecesNoMoves(s: State, c: Color, mustJump: bool)
    requires Valid(s) && Total(s, c) == 0
    ensures Mobility(s.grid, c, mustJump) == 0
  {
    MovesDictEntries(s.grid, c, mustJump);
    JumpsDictEntries(s.grid, c);
    var moves, jumps := MovesDict(s.grid, c, mustJump), JumpsDict(s.grid, c);
    if moves != [] {
      NoPieceOfColor(s, c, moves[0].0);
    }
    if jumps != [] {
      NoPieceOfColor(s, c, jumps[0].0);
    }
    MobilityZero(s.grid, c, mustJump);
  }

  /** With both counters of a side at zero, no square holds a piece of it. */
  lemma NoPieceOfColor(s: State, c: Color, q: Pos)
    requires Valid(s) && Total(s, c) == 0 && OnBoard(q)
    ensures GetColor(At(s.grid, q)) != Some(c)
  {
    CountsBounded(s);
    var piece := At(s.grid, q);
    if GetColor(piece) == Some(c) {
      CellCounted(s.grid, q);
    }
  }

  /** The kind in a cell is counted at least once. */
  lemma CellCounted(g: Grid, q: Pos)
    requires OnBoard(q)
    ensures Count(g, At(g, q)) >= 1
  {
    RowCountBounds(g[q.row]);
    RowInCount(g, At(g, q), q.row, 8);
  }

  // ---------------------------------------------------------------------
  // The position cache (board.py:267-271, 357-360)

  /** A cached value: the evaluation and the board's must_jump flag. */
  datatype CacheEntry = CacheEntry(score: int, mustJump: bool)

  /** What `evaluate` returns for a valid state, given the cache as it was
      before a search: the stored value on a hit, whatever must_jump is,
      the static evaluation otherwise. */
  function Eval(cache0: map<string, CacheEntry>, s: State, mustJump: bool): int {
    var key := Key(s.grid);
    if key in cache0 then cache0[key].score else StaticEval(s, mustJump)
  }

  /** The cache keeps every entry it started with, and every entry added
      since is the static evaluation of the position its key decodes to. */
  predicate Consistent(entries: map<string, CacheEntry>, cache0: map<string, CacheEntry>, mustJump: bool) {
    && Keeps(entries, cache0)
    && (forall k {:trigger StoredRight(k, entries[k], mustJump)} :: k in entries && k !in cache0 ==> StoredRight(k, entries[k], mustJump))
  }

  /** Every entry of cache0 is still in entries, unchanged. */
  predicate Keeps(entries: map<string, CacheEntry>, cache0: map<string, CacheEntry>) {
    forall k :: k in cache0 ==> k in entries && entries[k] == cache0[k]
  }

  /** Adding a fresh key keeps every earlier entry, and every key of the
      result not in cache0 is the new one or was already there. */
  lemma KeepsExtend(entries: map<string, CacheEntry>, cache0: map<string, CacheEntry>, key: string, v: CacheEntry)
    requires Keeps(entries, cache0) && key !in entries
    ensures key !in cache0
    ensures Keeps(entries[key := v], cache0)
  {
    forall k | k in cache0
      ensures k in entries[key := v] && entries[key := v][k] == cache0[k]
    {
      assert k in entries;
    }
  }

  /** A valid state is the canonical state of its grid. */
  lemma ValidIsCanonical(s: State)
    requires Valid(s)
    ensures s == Canonical(s.grid)
  {
  }

  /** On a hit, a consistent cache returns what Eval prescribes. */
  lemma CachedIsEval(entries: map<string, CacheEntry>, cache0: map<string, CacheEntry>, s: State, mustJump: bool)
    requires Consistent(entries, cache0, mustJump) && Valid(s)
    requires Key(s.grid) in entries
    ensures entries[Key(s.grid)].score == Eval(cache0, s, mustJump)
  {
    var key := Key(s.grid);
    if key !in cache0 {
      assert StoredRight(key, entries[key], mustJump);
      DecodeKey(s.grid);
      ValidIsCanonical(s);
      assert Canonical(Decode(key)) == s;
    }
  }

  /** On a miss, storing the static evaluation keeps the cache consistent,
      and a later lookup returns what Eval prescribes. */
  lemma StoreKeepsConsistent(entries: map<string, CacheEntry>, cache0: map<string, CacheEntry>, s: State, mustJump: bool, tag: bool)
    requires Consistent(entries, cache0, mustJump) && Valid(s)
    requires Key(s.grid) !in entries
    ensures Key(s.grid) !in cache0
    ensures Consistent(entries[Key(s.grid) := CacheEntry(StaticEval(s, mustJump), tag)], cache0, mustJump)
    ensures StaticEval(s, mustJump) == Eval(cache0, s, mustJump)
  {
    var key := Key(s.grid);
    var e := CacheEntry(StaticEval(s, mustJump), tag);
    DecodeKey(s.grid);
    ValidIsCanonical(s);
    assert StoredRight(key, e, mustJump);
    AddKeepsConsistent(entries, cache0, mustJump, key, e);
  }

  /** The cached value of a key added since the search began. */
  predicate StoredRight(k: string, e: CacheEntry, mustJump: bool) {
    |k| >= 64 && e.score == StaticEval(Canonical(Decode(k)), mustJump)
  }

  lemma AddKeepsConsistent(entries: map<string, CacheEntry>, cache0: map<string, CacheEntry>, mustJump: bool, key: string, e: CacheEntry)
    requires Consistent(entries, cache0, mustJump) && key !in entries && StoredRight(key, e, mustJump)
    ensures Consistent(entries[key := e], cache0, mustJump)
  {
    var m := entries[key := e];
    KeepsExtend(entries, cache0, key, e);
    forall k | k in m && k !in cache0
      ensures StoredRight(k, m[k], mustJump)
    {
      if k != key {
        assert m[k] == entries[k];
      }
    }
  }
}
