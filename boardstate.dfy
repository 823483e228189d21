/** The board as a value: the grid and the four counters of board.py's
    Board, the counting invariant that ties them together, the initial
    position, and play_move / play_jump as state transformers. The Board
    class in boards.dfy updates its fields in place and is proved to end in
    the states computed here. */
module BoardState {
  import opened Pieces
  import opened MoveGen

  /** `red_pieces`, `blue_pieces` count men only; a promotion moves one unit
      from the men counter to the kings counter. */
  datatype State = State(grid: Grid, redMen: int, blueMen: int, redKings: int, blueKings: int)

  /** The number of cells holding p in a row. */
  function RowCount(row: seq<Piece>, p: Piece): nat {
    if |row| == 0 then 0
    else RowCount(row[..|row| - 1], p) + (if row[|row| - 1] == p then 1 else 0)
  }

  lemma {:induction false} RowCountAppend(a: seq<Piece>, b: seq<Piece>, p: Piece)
    ensures RowCount(a + b, p) == RowCount(a, p) + RowCount(b, p)
    decreases |b|
  {
    if |b| > 0 {
      assert (a + b)[..|a + b| - 1] == a + b[..|b| - 1];
      RowCountAppend(a, b[..|b| - 1], p);
    } else {
      assert a + b == a;
    }
  }

  /** Overwriting one cell moves one unit of count from its old content to
      the new one. */
  lemma RowCountUpdate(row: seq<Piece>, i: int, v: Piece, p: Piece)
    requires 0 <= i < |row|
    ensures RowCount(row[i := v], p) == RowCount(row, p) - (if row[i] == p then 1 else 0) + (if v == p then 1 else 0)
  {
    assert row == row[..i] + [row[i]] + row[i + 1..];
    assert row[i := v] == row[..i] + [v] + row[i + 1..];
    RowCountAppend(row[..i] + [row[i]], row[i + 1..], p);
    RowCountAppend(row[..i], [row[i]], p);
    RowCountAppend(row[..i] + [v], row[i + 1..], p);
    RowCountAppend(row[..i], [v], p);
    assert [row[i]][..0] == [] && [v][..0] == [];
  }

  /** A row holds at most as many pieces as it has cells, and a cell's
      content is counted. */
  lemma {:induction false} RowCountBounds(row: seq<Piece>)
    ensures RowCount(row, RedMan) + RowCount(row, BlueMan) + RowCount(row, RedKing) + RowCount(row, BlueKing) <= |row|
    ensures forall i :: 0 <= i < |row| ==> RowCount(row, row[i]) >= 1
  {
    if |row| > 0 {
      var init := row[..|row| - 1];
      RowCountBounds(init);
      forall i | 0 <= i < |row| ensures RowCount(row, row[i]) >= 1 {
        if i < |row| - 1 {
          assert init[i] == row[i];
        }
      }
    }
  }

  /** The number of cells holding p in the first n rows. */
  function CountRows(g: Grid, p: Piece, n: nat): nat
    requires n <= 8
  {
    if n == 0 then 0 else CountRows(g, p, n - 1) + RowCount(g[n - 1], p)
  }

  /** The number of cells holding p. */
  function Count(g: Grid, p: Piece): nat {
    CountRows(g, p, Rows())
  }

  /** A row's count is part of the board's count. */
  lemma {:induction false} RowInCount(g: Grid, p: Piece, r: int, n: nat)
    requires 0 <= r < n <= 8
    ensures RowCount(g[r], p) <= CountRows(g, p, n)
  {
    if r < n - 1 {
      RowInCount(g, p, r, n - 1);
    }
  }

  /** Each counter equals the number of cells of its kind. */
  predicate Valid(s: State) {
    && s.redMen == Count(s.grid, RedMan)
    && s.blueMen == Count(s.grid, BlueMan)
    && s.redKings == Count(s.grid, RedKing)
    && s.blueKings == Count(s.grid, BlueKing)
  }

  /** The counter that tracks cells of kind q. */
  function Counter(s: State, q: Piece): int {
    match q
    case RedMan => s.redMen
    case BlueMan => s.blueMen
    case RedKing => s.redKings
    case BlueKing => s.blueKings
    case Empty => 0
  }

  lemma ValidByCounter(s: State)
    requires forall q :: q != Empty ==> Counter(s, q) == Count(s.grid, q)
    ensures Valid(s)
  {
    assert Counter(s, RedMan) == Count(s.grid, RedMan);
    assert Counter(s, BlueMan) == Count(s.grid, BlueMan);
    assert Counter(s, RedKing) == Count(s.grid, RedKing);
    assert Counter(s, BlueKing) == Count(s.grid, BlueKing);
  }

  /** The only counters a grid can carry in a valid state. */
  function Canonical(g: Grid): (s: State)
    ensures Valid(s) && s.grid == g
  {
    State(g, Count(g, RedMan), Count(g, BlueMan), Count(g, RedKing), Count(g, BlueKing))
  }

  /** Men plus kings of one side. */
  function Total(s: State, c: Color): int {
    if c == Red then s.redMen + s.redKings else s.blueMen + s.blueKings
  }

  function Opponent(c: Color): Color {
    if c == Red then Blue else Red
  }

  /** Writing one cell moves one unit of count from the old content to the new. */
  lemma PutCount(g: Grid, x: Pos, v: Piece, p: Piece)
    requires OnBoard(x)
    ensures Count(Put(g, x, v), p) == Count(g, p) - (if At(g, x) == p then 1 else 0) + (if v == p then 1 else 0)
  {
    PutRows(g, x, v, p, 8);
  }

  lemma {:induction false} PutRows(g: Grid, x: Pos, v: Piece, p: Piece, n: nat)
    requires OnBoard(x) && n <= 8
    ensures CountRows(Put(g, x, v), p, n)
      == CountRows(g, p, n) + if x.row < n then (if v == p then 1 else 0) - (if At(g, x) == p then 1 else 0) else 0
  {
    if n > 0 {
      PutRows(g, x, v, p, n - 1);
      var h := Put(g, x, v);
      if n - 1 == x.row {
        assert h[x.row] == g[x.row][x.col := v];
        RowCountUpdate(g[x.row], x.col, v, p);
      } else {
        assert h[n - 1] == g[n - 1];
      }
    }
  }

  /** There are at most 64 pieces on a board. */
  lemma CountsBounded(s: State)
    requires Valid(s)
    ensures 0 <= Total(s, Red) && 0 <= Total(s, Blue)
    ensures Total(s, Red) + Total(s, Blue) <= 64
  {
    RowsBounded(s.grid, 8);
  }

  lemma {:induction false} RowsBounded(g: Grid, n: nat)
    requires n <= 8
    ensures CountRows(g, RedMan, n) + CountRows(g, BlueMan, n) + CountRows(g, RedKing, n) + CountRows(g, BlueKing, n) <= 8 * n
  {
    if n > 0 {
      RowsBounded(g, n - 1);
      RowCountBounds(g[n - 1]);
    }
  }

  // ---------------------------------------------------------------------
  // The starting position (board.py:106-120)

  /** What `__init__` writes at (r, c): RED on the dark squares of rows 0-2,
      BLUE on those of rows 5-7, EMPTY elsewhere. */
  function InitialPiece(r: int, c: int): Piece {
    if (r + c) % 2 == 1 then
      if r < 3 then RedMan else if r > 4 then BlueMan else Empty
    else Empty
  }

  function InitialGrid(): (g: Grid)
    ensures forall r, c :: 0 <= r < 8 && 0 <= c < 8 ==> g[r][c] == InitialPiece(r, c)
  {
    var g := seq(8, r requires 0 <= r < 8 => seq(8, c requires 0 <= c < 8 => InitialPiece(r, c)));
    assert IsGrid(g);
    g
  }

  /** Per row of the starting grid: four men on the three rows of each
      side, nothing else. */
  lemma InitialRow(r: int)
    requires 0 <= r < 8
    ensures RowCount(InitialGrid()[r], RedMan) == if r < 3 then 4 else 0
    ensures RowCount(InitialGrid()[r], BlueMan) == if r > 4 then 4 else 0
    ensures RowCount(InitialGrid()[r], RedKing) == 0 && RowCount(InitialGrid()[r], BlueKing) == 0
  {
    var row := InitialGrid()[r];
    var x := if r < 3 then RedMan else if r > 4 then BlueMan else Empty;
    var y, z := if r % 2 == 0 then Empty else x, if r % 2 == 0 then x else Empty;
    assert row[0] == y && row[1] == z && row[2] == y && row[3] == z;
    assert row[4] == y && row[5] == z && row[6] == y && row[7] == z;
    AlternatingRow(row, y, z, RedMan);
    AlternatingRow(row, y, z, BlueMan);
    AlternatingRow(row, y, z, RedKing);
    AlternatingRow(row, y, z, BlueKing);
  }

  /** A row alternating y and z holds four of each. */
  lemma AlternatingRow(row: seq<Piece>, y: Piece, z: Piece, p: Piece)
    requires |row| == 8
    requires row[0] == y && row[1] == z && row[2] == y && row[3] == z
    requires row[4] == y && row[5] == z && row[6] == y && row[7] == z
    ensures RowCount(row, p) == (if y == p then 4 else 0) + (if z == p then 4 else 0)
  {
    var pair := [y, z];
    assert row == pair + pair + (pair + pair);
    assert pair[..1] == [y] && [y][..0] == [];
    assert RowCount([y], p) == (if y == p then 1 else 0);
    assert RowCount(pair, p) == (if y == p then 1 else 0) + (if z == p then 1 else 0);
    RowCountAppend(pair, pair, p);
    RowCountAppend(pair + pair, pair + pair, p);
  }

  /** The starting counters 12/12/0/0 are the counts of the starting grid. */
  lemma InitialCounts()
    ensures Valid(State(InitialGrid(), 12, 12, 0, 0))
  {
    InitialRow(0); InitialRow(1); InitialRow(2); InitialRow(3);
    InitialRow(4); InitialRow(5); InitialRow(6); InitialRow(7);
  }

  // ---------------------------------------------------------------------
  // play_move (board.py:300-315)

  /** The piece after arriving on `row`: RED promotes on row 7, BLUE on row 0. */
  function Arrive(piece: Piece, row: int): Piece {
    if piece == RedMan && row == 7 then RedKing
    else if piece == BlueMan && row == 0 then BlueKing
    else piece
  }

  /** The counters after `piece` arrives on `row`. */
  function Promote(s: State, piece: Piece, row: int): State {
    if piece == RedMan && row == 7 then State(s.grid, s.redMen - 1, s.blueMen, s.redKings + 1, s.blueKings)
    else if piece == BlueMan && row == 0 then State(s.grid, s.redMen, s.blueMen - 1, s.redKings, s.blueKings + 1)
    else s
  }

  /** The second half of a move or a leg: `piece` leaves `from` and
      arrives on `to`, promoted on the far row. */
  function Land(s: State, piece: Piece, from: Pos, to: Pos): State
    requires OnBoard(from) && OnBoard(to)
  {
    var t := Promote(s, piece, to.row);
    State(Put(Put(s.grid, from, Empty), to, Arrive(piece, to.row)), t.redMen, t.blueMen, t.redKings, t.blueKings)
  }

  function ApplyMove(s: State, from: Pos, to: Pos): State
    requires OnBoard(from) && OnBoard(to)
  {
    Land(s, At(s.grid, from), from, to)
  }

  /** A generated simple move keeps every counter equal to its count and
      leaves both sides' totals alone. */
  lemma MovePreservesValid(s: State, from: Pos, to: Pos)
    requires Valid(s) && OnBoard(from)
    requires to in SimpleMoves(s.grid, At(s.grid, from), from)
    ensures OnBoard(to)
    ensures Valid(ApplyMove(s, from, to))
    ensures Total(ApplyMove(s, from, to), Red) == Total(s, Red)
    ensures Total(ApplyMove(s, from, to), Blue) == Total(s, Blue)
  {
    SimpleMoveTarget(s.grid, At(s.grid, from), from, to);
    var t := ApplyMove(s, from, to);
    MoveGridCount(s.grid, from, to, RedMan);
    MoveGridCount(s.grid, from, to, BlueMan);
    MoveGridCount(s.grid, from, to, RedKing);
    MoveGridCount(s.grid, from, to, BlueKing);
    MoveCounters(s, from, to, RedMan);
    MoveCounters(s, from, to, BlueMan);
    MoveCounters(s, from, to, RedKing);
    MoveCounters(s, from, to, BlueKing);
    ValidByCounter(t);
  }

  /** A generated destination is an EMPTY square on the board, distinct from
      the start, and only a piece has one. */
  lemma SimpleMoveTarget(g: Grid, p: Piece, from: Pos, to: Pos)
    requires to in SimpleMoves(g, p, from)
    ensures OnBoard(to) && At(g, to) == Empty && to != from && p != Empty
  {
    SimpleMovesSpec(g, p, from, to);
  }

  /** A move moves the counters exactly as it moves the cell counts. */
  lemma MoveCounters(s: State, from: Pos, to: Pos, q: Piece)
    requires OnBoard(from) && OnBoard(to) && q != Empty
    ensures var piece := At(s.grid, from);
      Counter(ApplyMove(s, from, to), q)
      == Counter(s, q) - (if piece == q then 1 else 0) + (if Arrive(piece, to.row) == q then 1 else 0)
  {
  }

  /** A generated simple move empties the start and puts the mover on the
      destination, a king exactly when it was one or reached its far row;
      every other square is unchanged. */
  lemma MoveCells(s: State, from: Pos, to: Pos)
    requires OnBoard(from)
    requires to in SimpleMoves(s.grid, At(s.grid, from), from)
    ensures OnBoard(to) && from != to
    ensures At(ApplyMove(s, from, to).grid, from) == Empty
    ensures GetColor(At(ApplyMove(s, from, to).grid, to)) == GetColor(At(s.grid, from)) != None
    ensures IsKing(At(ApplyMove(s, from, to).grid, to)) <==>
      IsKing(At(s.grid, from)) || (IsRed(At(s.grid, from)) && to.row == 7) || (IsBlue(At(s.grid, from)) && to.row == 0)
    ensures forall q :: OnBoard(q) && q != from && q != to ==> At(ApplyMove(s, from, to).grid, q) == At(s.grid, q)
  {
    SimpleMovesSpec(s.grid, At(s.grid, from), from, to);
  }

  /** The cell counts after a move onto an EMPTY square. */
  lemma MoveGridCount(g: Grid, from: Pos, to: Pos, q: Piece)
    requires OnBoard(from) && OnBoard(to) && from != to && At(g, to) == Empty && q != Empty
    ensures var piece := At(g, from);
      Count(Put(Put(g, from, Empty), to, Arrive(piece, to.row)), q)
      == Count(g, q) - (if piece == q then 1 else 0) + (if Arrive(piece, to.row) == q then 1 else 0)
  {
    var g1 := Put(g, from, Empty);
    PutCount(g, from, Empty, q);
    PutCount(g1, to, Arrive(At(g, from), to.row), q);
  }

  // ---------------------------------------------------------------------
  // play_jump (board.py:317-355)

  /** The jumped square, with Python's floor division (both sums are
      non-negative on the board). */
  function Mid(a: Pos, b: Pos): Pos {
    Pos((a.row + b.row) / 2, (a.col + b.col) / 2)
  }

  /** The counters after the piece on the jumped square is removed; an
      EMPTY square decrements nothing. */
  function Remove(s: State, mid: Piece): State {
    if mid == RedMan then State(s.grid, s.redMen - 1, s.blueMen, s.redKings, s.blueKings)
    else if mid == BlueMan then State(s.grid, s.redMen, s.blueMen - 1, s.redKings, s.blueKings)
    else if mid == RedKing then State(s.grid, s.redMen, s.blueMen, s.redKings - 1, s.blueKings)
    else if mid == BlueKing then State(s.grid, s.redMen, s.blueMen, s.redKings, s.blueKings - 1)
    else s
  }

  /** The first half of a leg: the piece on the jumped square `mid` is
      discounted and its square emptied. */
  function Capture(s: State, mid: Pos): State
    requires OnBoard(mid)
  {
    var t := Remove(s, At(s.grid, mid));
    State(Put(s.grid, mid, Empty), t.redMen, t.blueMen, t.redKings, t.blueKings)
  }

  /** One leg: the piece read on `from` before anything changes; then
      clear the jumped square, move the piece, promote on arrival. */
  function ApplyLeg(s: State, from: Pos, to: Pos): State
    requires OnBoard(from) && OnBoard(to)
  {
    Land(Capture(s, Mid(from, to)), At(s.grid, from), from, to)
  }

  predicate AllOnBoard(ch: seq<Pos>) {
    forall k :: 0 <= k < |ch| ==> OnBoard(ch[k])
  }

  /** The legs from index i on, one after the other. */
  function ApplyLegsFrom(s: State, ch: seq<Pos>, i: nat): State
    requires AllOnBoard(ch)
    decreases |ch| - i
  {
    if i + 1 >= |ch| then s
    else ApplyLegsFrom(ApplyLeg(s, ch[i], ch[i + 1]), ch, i + 1)
  }

  function ApplyJump(s: State, ch: seq<Pos>): State
    requires AllOnBoard(ch)
  {
    if |ch| < 2 then s else ApplyLegsFrom(s, ch, 0)
  }

  /** Chain geometry: on the board, each leg two squares along a diagonal,
      no square visited twice. */
  predicate DiagonalLeg(a: Pos, b: Pos) {
    (b.row == a.row + 2 || b.row == a.row - 2) && (b.col == a.col + 2 || b.col == a.col - 2)
  }

  predicate ChainShape(ch: seq<Pos>) {
    && AllOnBoard(ch)
    && (forall k :: 0 <= k < |ch| - 1 ==> DiagonalLeg(ch[k], ch[k + 1]))
    && (forall i, j :: 0 <= i < j < |ch| ==> ch[i] != ch[j])
  }

  /** The two diagonal coordinates of a square; a capture leg moves one of
      them by 4 and keeps the other. */
  function Diag1(q: Pos): int { q.row + q.col }
  function Diag2(q: Pos): int { q.row - q.col }

  /** Both diagonal coordinates differ by a multiple of 4. */
  predicate SameLattice(a: Pos, b: Pos) {
    (Diag1(b) - Diag1(a)) % 4 == 0 && (Diag2(b) - Diag2(a)) % 4 == 0
  }

  lemma LatticeTrans(a: Pos, b: Pos, c: Pos)
    requires SameLattice(a, b) && SameLattice(a, c)
    ensures SameLattice(b, c)
  {
  }

  /** A capture leg stays on its lattice. */
  lemma LegLattice(a: Pos, b: Pos)
    requires DiagonalLeg(a, b)
    ensures SameLattice(a, b)
  {
  }

  lemma LatticeStep(a: Pos, b: Pos, c: Pos)
    requires SameLattice(a, b) && SameLattice(b, c)
    ensures SameLattice(a, c)
  {
    var x, y := Diag1(b) - Diag1(a), Diag1(c) - Diag1(b);
    var u, v := Diag2(b) - Diag2(a), Diag2(c) - Diag2(b);
    assert x == 4 * (x / 4) && y == 4 * (y / 4);
    assert u == 4 * (u / 4) && v == 4 * (v / 4);
    assert Diag1(c) - Diag1(a) == 4 * (x / 4 + y / 4);
    assert Diag2(c) - Diag2(a) == 4 * (u / 4 + v / 4);
  }

  /** Every square of a chain lies on the lattice of its first square. */
  lemma {:induction false} ChainLattice(ch: seq<Pos>, k: nat)
    requires ChainShape(ch) && k < |ch|
    ensures SameLattice(ch[0], ch[k])
  {
    if k > 0 {
      ChainLattice(ch, k - 1);
      assert DiagonalLeg(ch[k - 1], ch[k]);
      LegLattice(ch[k - 1], ch[k]);
      LatticeStep(ch[0], ch[k - 1], ch[k]);
    }
  }

  /** The jumped square of a leg is off the lattice of the leg's start. */
  lemma MidOffLattice(a: Pos, b: Pos, q: Pos)
    requires DiagonalLeg(a, b) && SameLattice(a, q)
    ensures Mid(a, b) != q
  {
  }

  /** Two capture legs on one lattice jump the same square only when they
      join the same two squares. */
  lemma SameMid(a: Pos, a2: Pos, b: Pos, b2: Pos)
    requires DiagonalLeg(a, a2) && DiagonalLeg(b, b2) && SameLattice(a, b)
    ensures Mid(a, a2) == Mid(b, b2) ==> (b == a && b2 == a2) || (b == a2 && b2 == a)
  {
  }

  /** A jumped square is never a square of the chain. */
  lemma MidOffChain(ch: seq<Pos>, k: nat, m: nat)
    requires ChainShape(ch) && k + 1 < |ch| && m < |ch|
    ensures Mid(ch[k], ch[k + 1]) != ch[m]
  {
    ChainLattice(ch, k);
    ChainLattice(ch, m);
    LatticeTrans(ch[0], ch[k], ch[m]);
    assert DiagonalLeg(ch[k], ch[k + 1]);
    MidOffLattice(ch[k], ch[k + 1], ch[m]);
  }

  /** Two legs never jump the same square. */
  lemma MidsDistinct(ch: seq<Pos>, k: nat, j: nat)
    requires ChainShape(ch) && k < j && j + 1 < |ch|
    ensures Mid(ch[k], ch[k + 1]) != Mid(ch[j], ch[j + 1])
  {
    ChainLattice(ch, k);
    ChainLattice(ch, j);
    LatticeTrans(ch[0], ch[k], ch[j]);
    assert DiagonalLeg(ch[k], ch[k + 1]) && DiagonalLeg(ch[j], ch[j + 1]);
    SameMid(ch[k], ch[k + 1], ch[j], ch[j + 1]);
    assert ch[k] != ch[j] && ch[k] != ch[j + 1];
  }

  /** Leg k jumps an opposing piece onto an EMPTY square. */
  predicate LegOpen(g: Grid, ch: seq<Pos>, k: int, p: Piece)
    requires AllOnBoard(ch) && 0 <= k < |ch| - 1
  {
    Captures(p, At(g, Mid(ch[k], ch[k + 1]))) && At(g, ch[k + 1]) == Empty
  }

  /** The chain can be played from leg i on: the piece at ch[i] is the
      mover's, each remaining jumped square holds an opposing piece and each
      remaining landing square is EMPTY. */
  predicate Playable(s: State, ch: seq<Pos>, i: nat, p: Piece) {
    && ChainShape(ch) && i < |ch|
    && Valid(s)
    && p != Empty
    && GetColor(At(s.grid, ch[i])) == GetColor(p)
    && (forall k :: i <= k < |ch| - 1 ==> LegOpen(s.grid, ch, k, p))
  }

  /** One leg of a playable chain keeps every counter equal to its count,
      removes exactly one opposing piece and keeps the mover's total. */
  lemma LegCounts(s: State, ch: seq<Pos>, i: nat, p: Piece)
    requires Playable(s, ch, i, p) && i + 1 < |ch|
    ensures var t := ApplyLeg(s, ch[i], ch[i + 1]);
      && Valid(t)
      && Total(t, Opponent(GetColor(p).value)) == Total(s, Opponent(GetColor(p).value)) - 1
      && Total(t, GetColor(p).value) == Total(s, GetColor(p).value)
  {
    var from, to := ch[i], ch[i + 1];
    assert LegOpen(s.grid, ch, i, p);
    MidOffChain(ch, i, i);
    MidOffChain(ch, i, i + 1);
    var t := ApplyLeg(s, from, to);
    forall q | q != Empty ensures Counter(t, q) == Count(t.grid, q) {
      LegGridCount(s.grid, from, to, q);
      LegCounters(s, from, to, q);
    }
    ValidByCounter(t);
    LegTotals(s, from, to, p);
  }

  /** A capturing leg takes one piece from the opponent's total and none
      from the mover's. */
  lemma LegTotals(s: State, from: Pos, to: Pos, p: Piece)
    requires OnBoard(from) && OnBoard(to) && p != Empty
    requires Captures(p, At(s.grid, Mid(from, to))) && GetColor(At(s.grid, from)) == GetColor(p)
    ensures var t := ApplyLeg(s, from, to);
      && Total(t, Opponent(GetColor(p).value)) == Total(s, Opponent(GetColor(p).value)) - 1
      && Total(t, GetColor(p).value) == Total(s, GetColor(p).value)
  {
    LegCounters(s, from, to, RedMan);
    LegCounters(s, from, to, BlueMan);
    LegCounters(s, from, to, RedKing);
    LegCounters(s, from, to, BlueKing);
  }

  /** One leg moves the counters exactly as it moves the cell counts. */
  lemma LegCounters(s: State, from: Pos, to: Pos, q: Piece)
    requires OnBoard(from) && OnBoard(to) && q != Empty
    ensures var piece := At(s.grid, from);
      Counter(ApplyLeg(s, from, to), q)
      == Counter(s, q) - (if At(s.grid, Mid(from, to)) == q then 1 else 0)
         - (if piece == q then 1 else 0) + (if Arrive(piece, to.row) == q then 1 else 0)
  {
  }

  /** The cell counts after one leg over a square distinct from both ends. */
  lemma LegGridCount(g: Grid, from: Pos, to: Pos, q: Piece)
    requires OnBoard(from) && OnBoard(to) && from != to && q != Empty
    requires Mid(from, to) != from && Mid(from, to) != to && At(g, to) == Empty
    ensures var piece := At(g, from);
      Count(Put(Put(Put(g, Mid(from, to), Empty), from, Empty), to, Arrive(piece, to.row)), q)
      == Count(g, q) - (if At(g, Mid(from, to)) == q then 1 else 0)
         - (if piece == q then 1 else 0) + (if Arrive(piece, to.row) == q then 1 else 0)
  {
    var mid := Mid(from, to);
    var g1 := Put(g, mid, Empty);
    var g2 := Put(g1, from, Empty);
    assert At(g1, from) == At(g, from) && At(g1, to) == Empty && At(g2, to) == Empty;
    PutCount(g, mid, Empty, q);
    PutCount(g1, from, Empty, q);
    PutCount(g2, to, Arrive(At(g, from), to.row), q);
  }

  /** After one leg the later legs are still open and the mover stands on
      the next square. */
  lemma LegKeepsOpen(s: State, ch: seq<Pos>, i: nat, p: Piece)
    requires Playable(s, ch, i, p) && i + 1 < |ch|
    ensures var t := ApplyLeg(s, ch[i], ch[i + 1]);
      && GetColor(At(t.grid, ch[i + 1])) == GetColor(p)
      && forall k :: i + 1 <= k < |ch| - 1 ==> LegOpen(t.grid, ch, k, p)
  {
    var from, to := ch[i], ch[i + 1];
    var mid := Mid(from, to);
    var piece := At(s.grid, from);
    var g3 := ApplyLeg(s, from, to).grid;
    assert g3 == Put(Put(Put(s.grid, mid, Empty), from, Empty), to, Arrive(piece, to.row));
    forall k | i + 1 <= k < |ch| - 1 ensures LegOpen(g3, ch, k, p) {
      assert LegOpen(s.grid, ch, k, p);
      var m := Mid(ch[k], ch[k + 1]);
      MidsDistinct(ch, i, k);
      MidOffChain(ch, k, i);
      MidOffChain(ch, k, i + 1);
      MidOffChain(ch, i, k + 1);
      assert OnBoard(m) && OnBoard(ch[k + 1]);
      assert At(g3, m) == At(s.grid, m);
      assert At(g3, ch[k + 1]) == Empty;
      assert Captures(p, At(g3, m));
      assert LegOpen(g3, ch, k, p);
    }
  }

  lemma {:induction false} LegsFrom(s: State, ch: seq<Pos>, i: nat, p: Piece)
    requires Playable(s, ch, i, p)
    ensures var t := ApplyLegsFrom(s, ch, i);
      && Valid(t)
      && Total(t, Opponent(GetColor(p).value)) == Total(s, Opponent(GetColor(p).value)) - (|ch| - 1 - i)
      && Total(t, GetColor(p).value) == Total(s, GetColor(p).value)
    decreases |ch| - i
  {
    if i + 1 < |ch| {
      LegCounts(s, ch, i, p);
      LegKeepsOpen(s, ch, i, p);
      LegsFrom(ApplyLeg(s, ch[i], ch[i + 1]), ch, i + 1, p);
    }
  }

  /** Each leg of a generated chain is a diagonal capture over an opposing
      piece onto a square that is EMPTY and new to the chain. */
  lemma GeneratedLeg(g: Grid, p: Piece, ch: seq<Pos>, k: nat)
    requires LegalChain(g, JumpDirs(p), p, ch) && OnBoard(ch[0]) && k + 1 < |ch|
    ensures OnBoard(ch[k]) && OnBoard(ch[k + 1]) && DiagonalLeg(ch[k], ch[k + 1])
    ensures ch[k + 1] !in ch[..k + 1]
    ensures Captures(p, At(g, Mid(ch[k], ch[k + 1]))) && At(g, ch[k + 1]) == Empty
  {
    var d := ChainLeg(g, JumpDirs(p), p, ch, k);
    JumpDirsUnit(p, d);
    if k > 0 {
      var e := ChainLeg(g, JumpDirs(p), p, ch, k - 1);
    }
    assert Mid(ch[k], ch[k + 1]) == Step(ch[k], d);
  }

  /** The capture that leg k of a legal chain makes. */
  lemma ChainLeg(g: Grid, dirs: seq<Dir>, p: Piece, ch: seq<Pos>, k: nat) returns (d: Dir)
    requires LegalChain(g, dirs, p, ch) && k + 1 < |ch|
    ensures d in dirs && ch[k + 1] == Leap(ch[k], d) && CanLeap(g, p, ch[k], ch[..k + 1], d)
  {
    assert LegalLeg(g, dirs, p, ch[..k + 1], ch[k + 1]);
    assert Last(ch[..k + 1]) == ch[k];
    d :| d in dirs && ch[k + 1] == Leap(ch[k], d) && CanLeap(g, p, ch[k], ch[..k + 1], d);
  }

  /** Capture directions are unit diagonal steps. */
  lemma JumpDirsUnit(p: Piece, d: Dir)
    requires d in JumpDirs(p)
    ensures (d.dr == 1 || d.dr == -1) && (d.dc == 1 || d.dc == -1)
  {
  }

  /** A generated chain has the chain geometry and is playable on the board
      it was generated from. */
  lemma GeneratedChainPlayable(s: State, from: Pos, ch: seq<Pos>)
    requires Valid(s) && OnBoard(from)
    requires ch in GetJumps(s.grid, At(s.grid, from), from)
    ensures Playable(s, ch, 0, At(s.grid, from))
  {
    var p := At(s.grid, from);
    GetJumpsSpec(s.grid, p, from, ch);
    GeneratedLeg(s.grid, p, ch, 0);
    forall k | 0 <= k < |ch| - 1 ensures LegOpen(s.grid, ch, k, p) && DiagonalLeg(ch[k], ch[k + 1]) {
      GeneratedLeg(s.grid, p, ch, k);
    }
    forall i, j | 0 <= i < j < |ch| ensures ch[i] != ch[j] {
      GeneratedLeg(s.grid, p, ch, j - 1);
      assert ch[i] == ch[..j][i];
    }
  }

  /** A generated chain keeps every counter equal to its count, removes
      exactly one opposing piece per leg and keeps the mover's total. */
  lemma JumpPreservesValid(s: State, from: Pos, ch: seq<Pos>)
    requires Valid(s) && OnBoard(from)
    requires ch in GetJumps(s.grid, At(s.grid, from), from)
    ensures AllOnBoard(ch) && GetColor(At(s.grid, from)) != None
    ensures Valid(ApplyJump(s, ch))
    ensures Total(ApplyJump(s, ch), Opponent(GetColor(At(s.grid, from)).value))
         == Total(s, Opponent(GetColor(At(s.grid, from)).value)) - (|ch| - 1)
    ensures Total(ApplyJump(s, ch), GetColor(At(s.grid, from)).value) == Total(s, GetColor(At(s.grid, from)).value)
  {
    GeneratedChainPlayable(s, from, ch);
    GetJumpsSpec(s.grid, At(s.grid, from), from, ch);
    LegsFrom(s, ch, 0, At(s.grid, from));
  }
}
