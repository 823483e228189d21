/** Cell codes, colour predicates, board coordinates and the 64-character
    canonical board key (core/piece.py, duplicated at the top of board.py). */
module Pieces {

  datatype Option<T> = None | Some(value: T)

  /** A square's content; the source codes these as the integers
      EMPTY = 0, RED = 1, BLUE = 2, RED_KING = 3, BLUE_KING = 4. */
  datatype Piece = Empty | RedMan | BlueMan | RedKing | BlueKing

  /** The side names "RED" and "BLUE". */
  datatype Color = Red | Blue

  /** A board coordinate, the source's (row, col) tuple. */
  datatype Pos = Pos(row: int, col: int)

  predicate IsValidPosition(row: int, col: int) {
    0 <= row < 8 && 0 <= col < 8
  }

  predicate OnBoard(p: Pos) {
    IsValidPosition(p.row, p.col)
  }

  /** The set of the 64 squares. */
  function Squares(): (sq: set<Pos>)
    ensures forall p :: p in sq <==> OnBoard(p)
  {
    set r, c | 0 <= r < 8 && 0 <= c < 8 :: Pos(r, c)
  }

  predicate IsRed(p: Piece) {
    p == RedMan || p == RedKing
  }

  predicate IsBlue(p: Piece) {
    p == BlueMan || p == BlueKing
  }

  predicate IsKing(p: Piece) {
    p == RedKing || p == BlueKing
  }

  function MakeKing(p: Piece): Piece {
    match p
    case RedMan => RedKing
    case BlueMan => BlueKing
    case _ => p
  }

  /** `get_color`: None for EMPTY. */
  function GetColor(p: Piece): Option<Color> {
    if IsRed(p) then Some(Red)
    else if IsBlue(p) then Some(Blue)
    else None
  }

  /** No cell is both red and blue, and EMPTY is neither. */
  lemma ColorsExclusive(p: Piece)
    ensures !(IsRed(p) && IsBlue(p))
    ensures p == Empty ==> !IsRed(p) && !IsBlue(p)
    ensures GetColor(p) == None <==> !IsRed(p) && !IsBlue(p)
    ensures GetColor(p) == None <==> p == Empty
    ensures GetColor(p) == Some(Red) <==> IsRed(p)
    ensures GetColor(p) == Some(Blue) <==> IsBlue(p)
  {
  }

  /** Promotion turns a man into the king of its colour, leaves every other
      cell alone, is idempotent and never changes the colour. */
  lemma MakeKingProperties(p: Piece)
    ensures p == RedMan ==> MakeKing(p) == RedKing
    ensures p == BlueMan ==> MakeKing(p) == BlueKing
    ensures p != RedMan && p != BlueMan ==> MakeKing(p) == p
    ensures MakeKing(MakeKing(p)) == MakeKing(p)
    ensures GetColor(MakeKing(p)) == GetColor(p)
    ensures IsKing(MakeKing(p)) <==> p != Empty
  {
  }

  // ---------------------------------------------------------------------
  // The 8x8 grid

  predicate IsGrid(g: seq<seq<Piece>>) {
    |g| == 8 && forall r :: 0 <= r < 8 ==> |g[r]| == 8
  }

  type Grid = g: seq<seq<Piece>> | IsGrid(g) witness seq(8, _ => seq(8, _ => Empty))

  /** The number of rows of the board. */
  function Rows(): int {
    8
  }

  function EmptyGrid(): (g: Grid)
    ensures forall r, c :: 0 <= r < 8 && 0 <= c < 8 ==> g[r][c] == Empty
  {
    seq(8, _ => seq(8, _ => Empty))
  }

  function At(g: Grid, p: Pos): Piece
    requires OnBoard(p)
  {
    g[p.row][p.col]
  }

  /** `board[row][col] = v`: only that cell changes. */
  function Put(g: Grid, p: Pos, v: Piece): (h: Grid)
    requires OnBoard(p)
    ensures At(h, p) == v
    ensures forall q :: OnBoard(q) && q != p ==> At(h, q) == At(g, q)
  {
    g[p.row := g[p.row][p.col := v]]
  }

  // ---------------------------------------------------------------------
  // Canonical key: one symbol per square, row-major

  function Symbol(p: Piece): char {
    match p
    case RedMan => 'r'
    case BlueMan => 'b'
    case RedKing => 'R'
    case BlueKing => 'B'
    case Empty => '0'
  }

  /** The decoder's reading of one character: anything but r, b, R, B is EMPTY. */
  function PieceOf(ch: char): Piece {
    if ch == 'r' then RedMan
    else if ch == 'b' then BlueMan
    else if ch == 'R' then RedKing
    else if ch == 'B' then BlueKing
    else Empty
  }

  predicate IsKeySymbol(ch: char) {
    ch == 'r' || ch == 'b' || ch == 'R' || ch == 'B' || ch == '0'
  }

  predicate IsKey(k: string) {
    |k| == 64 && forall i :: 0 <= i < 64 ==> IsKeySymbol(k[i])
  }

  lemma DivMod8(r: int, c: int)
    requires 0 <= r < 8 && 0 <= c < 8
    ensures (8 * r + c) / 8 == r && (8 * r + c) % 8 == c
  {
  }

  /** `board_to_cache_key`, as a value. */
  function Key(g: Grid): (k: string)
    ensures IsKey(k)
    ensures forall r, c :: 0 <= r < 8 && 0 <= c < 8 ==> k[8 * r + c] == Symbol(g[r][c])
  {
    var k := seq(64, i requires 0 <= i < 64 => Symbol(g[i / 8][i % 8]));
    assert forall r, c :: 0 <= r < 8 && 0 <= c < 8 ==> k[8 * r + c] == Symbol(g[r][c]) by {
      forall r, c | 0 <= r < 8 && 0 <= c < 8 ensures k[8 * r + c] == Symbol(g[r][c]) {
        DivMod8(r, c);
      }
    }
    k
  }

  /** `cache_key_to_board`, as a value: reads indices 0..63 only. */
  function Decode(k: string): (g: Grid)
    requires |k| >= 64
    ensures forall r, c :: 0 <= r < 8 && 0 <= c < 8 ==> g[r][c] == PieceOf(k[8 * r + c])
  {
    var g := seq(8, r requires 0 <= r < 8 => seq(8, c requires 0 <= c < 8 => PieceOf(k[8 * r + c])));
    assert IsGrid(g);
    g
  }

  /** Decoding the key of any grid gives the grid back. */
  lemma DecodeKey(g: Grid)
    ensures Decode(Key(g)) == g
  {
    var h := Decode(Key(g));
    forall r | 0 <= r < 8 ensures h[r] == g[r] {
      forall c | 0 <= c < 8 ensures h[r][c] == g[r][c] {
        assert h[r][c] == PieceOf(Symbol(g[r][c]));
      }
    }
  }

  /** Re-encoding a decoded key: a key symbol comes back unchanged, any other
      character comes back as '0'. */
  lemma KeyDecodeAt(k: string, i: int)
    requires |k| >= 64 && 0 <= i < 64
    ensures Key(Decode(k))[i] == if IsKeySymbol(k[i]) then k[i] else '0'
  {
    var r, c := i / 8, i % 8;
    assert i == 8 * r + c;
    assert Key(Decode(k))[8 * r + c] == Symbol(Decode(k)[r][c]);
  }

  /** Encoding a decoded well-formed key gives the key back. */
  lemma KeyDecode(k: string)
    requires IsKey(k)
    ensures Key(Decode(k)) == k
  {
    forall i | 0 <= i < 64 ensures Key(Decode(k))[i] == k[i] {
      KeyDecodeAt(k, i);
    }
  }

  /** Keys are canonical: two grids share a key only when they are equal. */
  lemma KeyInjective(g: Grid, h: Grid)
    requires Key(g) == Key(h)
    ensures g == h
  {
    DecodeKey(g);
    DecodeKey(h);
  }

  /** The key of a grid grows by one symbol per square, row-major. */
  lemma KeyPrefixStep(g: Grid, row: int, col: int)
    requires 0 <= row < 8 && 0 <= col < 8
    ensures Key(g)[..8 * row + col + 1] == Key(g)[..8 * row + col] + [Symbol(g[row][col])]
  {
    var k := Key(g);
    assert k[8 * row + col] == Symbol(g[row][col]);
  }

  /** `board_to_cache_key`: builds the key with an accumulator, row by row. */
  method BoardToCacheKey(board: Grid) returns (key: string)
    ensures key == Key(board)
  {
    key := "";
    for row := 0 to 8
      invariant key == Key(board)[..8 * row]
    {
      for col := 0 to 8
        invariant key == Key(board)[..8 * row + col]
      {
        var cell := board[row][col];
        var ch;
        if cell == RedMan {
          ch := 'r';
        } else if cell == BlueMan {
          ch := 'b';
        } else if cell == RedKing {
          ch := 'R';
        } else if cell == BlueKing {
          ch := 'B';
        } else {
          ch := '0';
        }
        KeyPrefixStep(board, row, col);
        key := key + [ch];
      }
    }
  }

  /** `cache_key_to_board`: fills an all-EMPTY grid square by square. */
  method CacheKeyToBoard(key: string) returns (board: Grid)
    requires |key| >= 64
    ensures board == Decode(key)
  {
    board := EmptyGrid();
    for i := 0 to 64
      invariant forall r, c :: 0 <= r < 8 && 0 <= c < 8 ==>
        board[r][c] == if 8 * r + c < i then PieceOf(key[8 * r + c]) else Empty
    {
      var row := i / 8;
      var col := i % 8;
      var here := Pos(row, col);
      if key[i] == 'r' {
        board := Put(board, here, RedMan);
      } else if key[i] == 'b' {
        board := Put(board, here, BlueMan);
      } else if key[i] == 'R' {
        board := Put(board, here, RedKing);
      } else if key[i] == 'B' {
        board := Put(board, here, BlueKing);
      }
      forall r, c | 0 <= r < 8 && 0 <= c < 8
        ensures board[r][c] == if 8 * r + c < i + 1 then PieceOf(key[8 * r + c]) else Empty
      {
        if Pos(r, c) != here {
          assert At(board, Pos(r, c)) == board[r][c];
          assert 8 * r + c != i;
        }
      }
    }
    assert forall r :: 0 <= r < 8 ==> board[r] == Decode(key)[r];
  }
}
