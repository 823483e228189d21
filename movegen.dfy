/** One-step moves, capture-chain search and per-side aggregation of
    board.py (get_moves_for_piece, get_jumps_for_piece / find_jumps,
    get_all_moves), stated on grid values. The Board class in boards.dfy
    runs the same loops and is proved to return these values. */
module MoveGen {
  import opened Pieces

  datatype Dir = Dir(dr: int, dc: int)

  /** The square one diagonal step away. */
  function Step(p: Pos, d: Dir): Pos {
    Pos(p.row + d.dr, p.col + d.dc)
  }

  /** The landing square of a capture in direction d. */
  function Leap(p: Pos, d: Dir): Pos {
    Pos(p.row + 2 * d.dr, p.col + 2 * d.dc)
  }

  function Last(path: seq<Pos>): Pos
    requires |path| > 0
  {
    path[|path| - 1]
  }

  /** Row-major index of a square, and back. */
  function Index(p: Pos): int {
    8 * p.row + p.col
  }

  function Sq(i: int): (p: Pos)
    requires 0 <= i < 64
    ensures OnBoard(p) && Index(p) == i
  {
    Pos(i / 8, i % 8)
  }

  /** The square of index 8 * row + col. */
  lemma SqRowCol(n: int, row: int, col: int)
    requires 0 <= row < 8 && 0 <= col < 8 && n == 8 * row + col
    ensures 0 <= n < 64 && Sq(n) == Pos(row, col)
  {
    DivMod8(row, col);
  }

  /** Distinct squares have distinct row-major indices. */
  lemma IndexInjective(p: Pos, q: Pos)
    requires OnBoard(p) && OnBoard(q) && Index(p) == Index(q)
    ensures p == q
  {
    DivMod8(p.row, p.col);
    DivMod8(q.row, q.col);
  }

  lemma SqIndex(p: Pos)
    requires OnBoard(p)
    ensures 0 <= Index(p) < 64 && Sq(Index(p)) == p
  {
    DivMod8(p.row, p.col);
  }

  // ---------------------------------------------------------------------
  // Simple moves (board.py:131-145)

  /** The directions of get_moves_for_piece: forward for men, all four for
      kings, none for EMPTY. */
  function MoveDirs(p: Piece): seq<Dir> {
    if p == RedMan then [Dir(1, -1), Dir(1, 1)]
    else if p == BlueMan then [Dir(-1, -1), Dir(-1, 1)]
    else if IsKing(p) then [Dir(1, -1), Dir(1, 1), Dir(-1, -1), Dir(-1, 1)]
    else []
  }

  /** The destinations found by the first k directions, in order. */
  function MovesAlong(g: Grid, dirs: seq<Dir>, from: Pos, k: nat): seq<Pos>
    requires k <= |dirs|
  {
    if k == 0 then []
    else
      var to := Step(from, dirs[k - 1]);
      MovesAlong(g, dirs, from, k - 1)
      + if OnBoard(to) && At(g, to) == Empty then [to] else []
  }

  /** get_moves_for_piece, as a value. */
  function SimpleMoves(g: Grid, p: Piece, from: Pos): seq<Pos> {
    MovesAlong(g, MoveDirs(p), from, |MoveDirs(p)|)
  }

  /** The independent description of a legal one-step move. */
  predicate IsSimpleMove(g: Grid, p: Piece, from: Pos, to: Pos) {
    && OnBoard(to)
    && At(g, to) == Empty
    && (to.col == from.col + 1 || to.col == from.col - 1)
    && (p == RedMan ==> to.row == from.row + 1)
    && (p == BlueMan ==> to.row == from.row - 1)
    && (IsKing(p) ==> to.row == from.row + 1 || to.row == from.row - 1)
    && p != Empty
  }

  lemma {:induction false} MovesAlongMembers(g: Grid, dirs: seq<Dir>, from: Pos, k: nat, to: Pos)
    requires k <= |dirs|
    ensures to in MovesAlong(g, dirs, from, k) <==>
      exists j :: 0 <= j < k && to == Step(from, dirs[j]) && OnBoard(to) && At(g, to) == Empty
  {
    if k > 0 {
      MovesAlongMembers(g, dirs, from, k - 1, to);
    }
  }

  /** A destination is returned exactly when it is a legal one-step move;
      EMPTY has none. */
  lemma SimpleMovesSpec(g: Grid, p: Piece, from: Pos, to: Pos)
    ensures to in SimpleMoves(g, p, from) <==> IsSimpleMove(g, p, from, to)
    ensures p == Empty ==> SimpleMoves(g, p, from) == []
  {
    var dirs := MoveDirs(p);
    MovesAlongMembers(g, dirs, from, |dirs|, to);
    if IsSimpleMove(g, p, from, to) {
      var d := Dir(to.row - from.row, to.col - from.col);
      assert to == Step(from, d);
      assert d in dirs;
      var j :| 0 <= j < |dirs| && dirs[j] == d;
    }
  }

  // ---------------------------------------------------------------------
  // Capture chains (board.py:147-200)

  /** The directions of get_jumps_for_piece, fixed once from the starting
      piece: forward for men; kings add the backward pair. */
  function JumpDirs(p: Piece): seq<Dir> {
    (if IsRed(p) then [Dir(1, -1), Dir(1, 1)] else [])
    + (if IsBlue(p) then [Dir(-1, -1), Dir(-1, 1)] else [])
    + (if IsKing(p) then (if IsRed(p) then [Dir(-1, -1), Dir(-1, 1)] else [Dir(1, -1), Dir(1, 1)]) else [])
  }

  /** The colour test of find_jumps' two branches: a blue mover captures
      red, a red mover captures blue, EMPTY captures nothing. */
  predicate Captures(mover: Piece, mid: Piece) {
    if IsBlue(mover) then IsRed(mid)
    else if IsRed(mover) then IsBlue(mid)
    else false
  }

  /** The piece carried on after landing on `row`: a man reaching its far
      row becomes a king; nothing else changes (board.py:172-176, 187-190). */
  function AfterLanding(cur: Piece, row: int): (next: Piece)
    ensures GetColor(next) == GetColor(cur)
  {
    if IsBlue(cur) then (if row == 0 && !IsKing(cur) then BlueKing else cur)
    else if IsRed(cur) then (if row == 7 && !IsKing(cur) then RedKing else cur)
    else cur
  }

  /** A capture from `at` in direction d is available: both squares on the
      board, an opposing piece in between, an EMPTY landing square that the
      chain has not visited. */
  predicate CanLeap(g: Grid, cur: Piece, at: Pos, path: seq<Pos>, d: Dir) {
    && OnBoard(Step(at, d))
    && OnBoard(Leap(at, d))
    && Captures(cur, At(g, Step(at, d)))
    && At(g, Leap(at, d)) == Empty
    && Leap(at, d) !in path
  }

  function Unvisited(path: seq<Pos>): set<Pos> {
    Squares() - set q | q in path
  }

  /** find_jumps(row, col, current_path, current_piece): the chains found
      from `at`, where `path` is the chain so far. The board is never
      changed, so captured pieces stay in place for the rest of the search. */
  function FindJumps(g: Grid, dirs: seq<Dir>, at: Pos, path: seq<Pos>, cur: Piece): seq<seq<Pos>>
    decreases Unvisited(path), |dirs| + 1
  {
    JumpsAlong(g, dirs, at, path, cur, |dirs|)
  }

  /** The chains found through the first k directions, in order. */
  function JumpsAlong(g: Grid, dirs: seq<Dir>, at: Pos, path: seq<Pos>, cur: Piece, k: nat): seq<seq<Pos>>
    requires k <= |dirs|
    decreases Unvisited(path), k
  {
    if k == 0 then []
    else
      JumpsAlong(g, dirs, at, path, cur, k - 1)
      + LegJumps(g, dirs, at, path, cur, k - 1)
  }

  /** What direction j adds: the chains extending the leg in that direction,
      or the leg's path itself when nothing extends it. */
  function LegJumps(g: Grid, dirs: seq<Dir>, at: Pos, path: seq<Pos>, cur: Piece, j: nat): seq<seq<Pos>>
    requires j < |dirs|
    decreases Unvisited(path), j
  {
    var d := dirs[j];
    if CanLeap(g, cur, at, path, d) then
      var to := Leap(at, d);
      var next := path + [to];
      assert to in Unvisited(path) && to !in Unvisited(next);
      var sub := FindJumps(g, dirs, to, next, AfterLanding(cur, to.row));
      if sub != [] then sub else [next]
    else []
  }

  /** get_jumps_for_piece, as a value. */
  function GetJumps(g: Grid, p: Piece, from: Pos): seq<seq<Pos>> {
    FindJumps(g, JumpDirs(p), from, [from], p)
  }

  /** The independent description of a chain: each square after the first
      is reached by an available capture, with the directions `dirs`, from
      the square before, for the piece p. */
  predicate LegalLeg(g: Grid, dirs: seq<Dir>, p: Piece, prefix: seq<Pos>, to: Pos) {
    |prefix| > 0 && exists d :: d in dirs && to == Leap(Last(prefix), d) && CanLeap(g, p, Last(prefix), prefix, d)
  }

  predicate LegalChain(g: Grid, dirs: seq<Dir>, p: Piece, ch: seq<Pos>) {
    |ch| > 0 && forall i :: 0 < i < |ch| ==> LegalLeg(g, dirs, p, ch[..i], ch[i])
  }

  /** Some capture continues the chain. */
  predicate Extendable(g: Grid, dirs: seq<Dir>, p: Piece, ch: seq<Pos>)
    requires |ch| > 0
  {
    exists d :: d in dirs && CanLeap(g, p, Last(ch), ch, d)
  }

  lemma CapturesByColor(a: Piece, b: Piece, mid: Piece)
    requires GetColor(a) == GetColor(b)
    ensures Captures(a, mid) == Captures(b, mid)
  {
  }

  /** The search finds nothing exactly when no direction has a capture. */
  lemma {:induction false} JumpsAlongEmpty(g: Grid, dirs: seq<Dir>, at: Pos, path: seq<Pos>, cur: Piece, k: nat)
    requires k <= |dirs|
    ensures JumpsAlong(g, dirs, at, path, cur, k) == [] <==>
      forall j :: 0 <= j < k ==> !CanLeap(g, cur, at, path, dirs[j])
  {
    if k > 0 {
      JumpsAlongEmpty(g, dirs, at, path, cur, k - 1);
    }
  }

  lemma LegalChainPrefix(g: Grid, dirs: seq<Dir>, p: Piece, ch: seq<Pos>, n: nat)
    requires LegalChain(g, dirs, p, ch) && 0 < n <= |ch|
    ensures LegalChain(g, dirs, p, ch[..n])
  {
    forall i | 0 < i < n ensures LegalLeg(g, dirs, p, ch[..n][..i], ch[..n][i]) {
      assert ch[..n][..i] == ch[..i];
      assert LegalLeg(g, dirs, p, ch[..i], ch[i]);
    }
  }

  lemma LegalChainExtend(g: Grid, dirs: seq<Dir>, p: Piece, path: seq<Pos>, d: Dir)
    requires LegalChain(g, dirs, p, path) && d in dirs
    requires CanLeap(g, p, Last(path), path, d)
    ensures LegalChain(g, dirs, p, path + [Leap(Last(path), d)])
  {
    var next := path + [Leap(Last(path), d)];
    forall i | 0 < i < |next| ensures LegalLeg(g, dirs, p, next[..i], next[i]) {
      if i < |path| {
        assert next[..i] == path[..i];
        assert LegalLeg(g, dirs, p, path[..i], path[i]);
      } else {
        assert next[..i] == path;
      }
    }
  }

  /** A maximal legal chain that strictly extends `path`. */
  predicate MaximalExtension(g: Grid, dirs: seq<Dir>, p: Piece, path: seq<Pos>, ch: seq<Pos>) {
    && |ch| > |path| > 0
    && ch[..|path|] == path
    && LegalChain(g, dirs, p, ch)
    && !Extendable(g, dirs, p, ch)
  }

  /** The search from `path` returns exactly the maximal legal chains that
      strictly extend it. */
  lemma {:induction false} FindJumpsSpec(g: Grid, dirs: seq<Dir>, p: Piece, path: seq<Pos>, cur: Piece, ch: seq<Pos>)
    requires LegalChain(g, dirs, p, path) && GetColor(cur) == GetColor(p)
    ensures ch in FindJumps(g, dirs, Last(path), path, cur) <==> MaximalExtension(g, dirs, p, path, ch)
    decreases Unvisited(path), |dirs| + 1
  {
    JumpsAlongSpec(g, dirs, p, path, cur, |dirs|, ch);
    if MaximalExtension(g, dirs, p, path, ch) {
      assert LegalLeg(g, dirs, p, ch[..|path|], ch[|path|]);
      var d :| d in dirs && ch[|path|] == Leap(Last(path), d) && CanLeap(g, p, Last(path), path, d);
      var j :| 0 <= j < |dirs| && dirs[j] == d;
    }
  }

  lemma {:induction false} JumpsAlongSpec(g: Grid, dirs: seq<Dir>, p: Piece, path: seq<Pos>, cur: Piece, k: nat, ch: seq<Pos>)
    requires k <= |dirs|
    requires LegalChain(g, dirs, p, path) && GetColor(cur) == GetColor(p)
    ensures ch in JumpsAlong(g, dirs, Last(path), path, cur, k) <==>
      MaximalExtension(g, dirs, p, path, ch)
      && exists j :: 0 <= j < k && ch[|path|] == Leap(Last(path), dirs[j])
    decreases Unvisited(path), k
  {
    if k > 0 {
      var at := Last(path);
      JumpsAlongSpec(g, dirs, p, path, cur, k - 1, ch);
      LegJumpsSpec(g, dirs, p, path, cur, k - 1, ch);
      var prev := JumpsAlong(g, dirs, at, path, cur, k - 1);
      var leg := LegJumps(g, dirs, at, path, cur, k - 1);
      assert JumpsAlong(g, dirs, at, path, cur, k) == prev + leg;
      if MaximalExtension(g, dirs, p, path, ch) {
        var first := ch[|path|];
        var before := exists j :: 0 <= j < k - 1 && first == Leap(at, dirs[j]);
        var upTo := exists j :: 0 <= j < k && first == Leap(at, dirs[j]);
        assert upTo <==> before || first == Leap(at, dirs[k - 1]) by {
          if upTo {
            var j :| 0 <= j < k && first == Leap(at, dirs[j]);
            if j < k - 1 {
              assert 0 <= j < k - 1 && first == Leap(at, dirs[j]);
            }
          }
          if before {
            var j :| 0 <= j < k - 1 && first == Leap(at, dirs[j]);
            assert 0 <= j < k && first == Leap(at, dirs[j]);
          }
          if first == Leap(at, dirs[k - 1]) {
            assert 0 <= k - 1 < k && first == Leap(at, dirs[k - 1]);
          }
        }
      }
    }
  }

  lemma {:induction false} LegJumpsSpec(g: Grid, dirs: seq<Dir>, p: Piece, path: seq<Pos>, cur: Piece, j: nat, ch: seq<Pos>)
    requires j < |dirs|
    requires LegalChain(g, dirs, p, path) && GetColor(cur) == GetColor(p)
    ensures ch in LegJumps(g, dirs, Last(path), path, cur, j) <==>
      MaximalExtension(g, dirs, p, path, ch) && ch[|path|] == Leap(Last(path), dirs[j])
    decreases Unvisited(path), j
  {
    var at := Last(path);
    var d := dirs[j];
    CanLeapByColor(g, cur, p, at, path, d);
    var to := Leap(at, d);
    FirstLegDir(g, dirs, p, path, ch, d);
    if CanLeap(g, cur, at, path, d) {
      var next := path + [to];
      assert to in Unvisited(path) && to !in Unvisited(next);
      LegalChainExtend(g, dirs, p, path, d);
      var sub := FindJumps(g, dirs, to, next, AfterLanding(cur, to.row));
      assert Last(next) == to;
      FindJumpsSpec(g, dirs, p, next, AfterLanding(cur, to.row), ch);
      LegStopsExactly(g, dirs, p, path, cur, d);
      LegThrough(g, dirs, p, path, to, ch);
      if sub != [] {
        assert LegJumps(g, dirs, at, path, cur, j) == sub;
      } else {
        assert LegJumps(g, dirs, at, path, cur, j) == [next];
        assert ch in sub <==> MaximalExtension(g, dirs, p, next, ch);
      }
    }
  }

  /** The first leg of a maximal extension is an available capture, in the
      one direction that reaches its landing square. */
  lemma FirstLegDir(g: Grid, dirs: seq<Dir>, p: Piece, path: seq<Pos>, ch: seq<Pos>, d: Dir)
    requires |path| > 0
    ensures MaximalExtension(g, dirs, p, path, ch) && ch[|path|] == Leap(Last(path), d) ==> CanLeap(g, p, Last(path), path, d)
  {
    if MaximalExtension(g, dirs, p, path, ch) && ch[|path|] == Leap(Last(path), d) {
      assert ch[..|path|] == path;
      assert LegalLeg(g, dirs, p, ch[..|path|], ch[|path|]);
      var e :| e in dirs && ch[|path|] == Leap(Last(path), e) && CanLeap(g, p, Last(path), path, e);
      assert e == d;
    }
  }

  /** Captures depend on the mover's colour only. */
  lemma CanLeapByColor(g: Grid, a: Piece, b: Piece, at: Pos, path: seq<Pos>, d: Dir)
    requires GetColor(a) == GetColor(b)
    ensures CanLeap(g, a, at, path, d) == CanLeap(g, b, at, path, d)
  {
    if OnBoard(Step(at, d)) {
      CapturesByColor(a, b, At(g, Step(at, d)));
    }
  }

  /** After one leg, the search below it is empty exactly when the leg's
      own path cannot be extended. */
  lemma LegStopsExactly(g: Grid, dirs: seq<Dir>, p: Piece, path: seq<Pos>, cur: Piece, d: Dir)
    requires |path| > 0 && GetColor(cur) == GetColor(p)
    requires CanLeap(g, cur, Last(path), path, d)
    ensures var to := Leap(Last(path), d);
      FindJumps(g, dirs, to, path + [to], AfterLanding(cur, to.row)) == []
      <==> !Extendable(g, dirs, p, path + [to])
  {
    var to := Leap(Last(path), d);
    var next := path + [to];
    var cur' := AfterLanding(cur, to.row);
    JumpsAlongEmpty(g, dirs, to, next, cur', |dirs|);
    forall e | e in dirs ensures CanLeap(g, cur', to, next, e) == CanLeap(g, p, to, next, e) {
      CanLeapByColor(g, cur', p, to, next, e);
    }
    assert Last(next) == to;
    if Extendable(g, dirs, p, next) {
      var e :| e in dirs && CanLeap(g, p, to, next, e);
      var i :| 0 <= i < |dirs| && dirs[i] == e;
    }
  }

  /** A maximal extension of `path` through `to` is either `path + [to]`
      itself or a maximal extension of it. */
  lemma LegThrough(g: Grid, dirs: seq<Dir>, p: Piece, path: seq<Pos>, to: Pos, ch: seq<Pos>)
    requires |path| > 0
    ensures MaximalExtension(g, dirs, p, path, ch) && ch[|path|] == to <==>
      (ch == path + [to] && LegalChain(g, dirs, p, ch) && !Extendable(g, dirs, p, ch))
      || MaximalExtension(g, dirs, p, path + [to], ch)
  {
    PrefixThrough(path, to, ch);
  }

  /** The sequences that extend `path` through `to` are `path + [to]` and
      the strict extensions of it. */
  lemma PrefixThrough(path: seq<Pos>, to: Pos, ch: seq<Pos>)
    ensures (|ch| > |path| && ch[..|path|] == path && ch[|path|] == to) <==>
      ch == path + [to] || (|ch| > |path| + 1 && ch[..|path| + 1] == path + [to])
  {
    var next := path + [to];
    if |ch| > |path| && ch[..|path|] == path && ch[|path|] == to {
      assert ch[..|next|] == next;
    }
    if |ch| > |path| + 1 && ch[..|next|] == next {
      assert ch[..|next|][..|path|] == path;
      assert ch[|path|] == next[|path|];
    }
    if ch == next {
      assert next[..|path|] == path;
    }
  }

  /** get_jumps_for_piece returns exactly the maximal chains from `from`
      of two or more squares, with the directions fixed by the piece. */
  lemma GetJumpsSpec(g: Grid, p: Piece, from: Pos, ch: seq<Pos>)
    ensures ch in GetJumps(g, p, from) <==>
      |ch| >= 2 && ch[0] == from
      && LegalChain(g, JumpDirs(p), p, ch) && !Extendable(g, JumpDirs(p), p, ch)
  {
    assert LegalChain(g, JumpDirs(p), p, [from]);
    FindJumpsSpec(g, JumpDirs(p), p, [from], p, ch);
    if |ch| >= 2 && ch[0] == from {
      assert ch[..1] == [from];
    }
  }

  /** Maximality: no returned chain is a strict prefix of another. */
  lemma NoChainIsStrictPrefix(g: Grid, p: Piece, from: Pos, a: seq<Pos>, b: seq<Pos>)
    requires a in GetJumps(g, p, from) && b in GetJumps(g, p, from)
    requires |a| < |b|
    ensures b[..|a|] != a
  {
    var dirs := JumpDirs(p);
    GetJumpsSpec(g, p, from, a);
    GetJumpsSpec(g, p, from, b);
  }

  // ---------------------------------------------------------------------
  // Per-side aggregation (board.py:202-221)

  /** A dict in insertion order. */
  predicate HasKey<T>(entries: seq<(Pos, T)>, p: Pos) {
    exists i :: 0 <= i < |entries| && entries[i].0 == p
  }

  /** The simple-move list of the piece at `at` when it is of colour c. */
  function OwnMoves(g: Grid, c: Color, at: Pos): seq<Pos>
    requires OnBoard(at)
  {
    var piece := At(g, at);
    if piece != Empty && GetColor(piece) == Some(c) then SimpleMoves(g, piece, at) else []
  }

  function OwnJumps(g: Grid, c: Color, at: Pos): seq<seq<Pos>>
    requires OnBoard(at)
  {
    var piece := At(g, at);
    if piece != Empty && GetColor(piece) == Some(c) then GetJumps(g, piece, at) else []
  }

  /** The moves dict after scanning, in row-major order, every square
      before (row, col): the rows above, then the first col squares of row. */
  function MovesUpTo(g: Grid, c: Color, row: int, col: int): seq<(Pos, seq<Pos>)>
    requires 0 <= row <= 8 && 0 <= col <= 8 && (row == 8 ==> col == 0)
    decreases row, col
  {
    if col == 0 then
      if row == 0 then [] else MovesUpTo(g, c, row - 1, 8)
    else
      var at := Pos(row, col - 1);
      MovesUpTo(g, c, row, col - 1) + if OwnMoves(g, c, at) != [] then [(at, OwnMoves(g, c, at))] else []
  }

  /** Every entry of the scan up to (row, col) is an own piece on a square
      before it, with its non-empty list. */
  lemma {:induction false} MovesUpToEntries(g: Grid, c: Color, row: int, col: int)
    requires 0 <= row <= 8 && 0 <= col <= 8 && (row == 8 ==> col == 0)
    ensures forall i :: 0 <= i < |MovesUpTo(g, c, row, col)| ==>
      var e := MovesUpTo(g, c, row, col)[i];
      OnBoard(e.0) && Index(e.0) < 8 * row + col && e.1 == OwnMoves(g, c, e.0) && e.1 != []
    decreases row, col
  {
    if col == 0 {
      if row > 0 {
        MovesUpToEntries(g, c, row - 1, 8);
      }
    } else {
      MovesUpToEntries(g, c, row, col - 1);
      var prev := MovesUpTo(g, c, row, col - 1);
      assert forall i :: 0 <= i < |prev| ==> MovesUpTo(g, c, row, col)[i] == prev[i];
    }
  }

  /** Appending at most one entry, keyed after every earlier key, keeps
      the keys strictly increasing. */
  lemma AscendingAppend<T>(prev: seq<(Pos, T)>, extra: seq<(Pos, T)>, n: int)
    requires forall i, j :: 0 <= i < j < |prev| ==> Index(prev[i].0) < Index(prev[j].0)
    requires forall i :: 0 <= i < |prev| ==> Index(prev[i].0) < n
    requires |extra| <= 1 && (|extra| == 1 ==> Index(extra[0].0) == n)
    ensures var cur := prev + extra;
      forall i, j :: 0 <= i < j < |cur| ==> Index(cur[i].0) < Index(cur[j].0)
  {
    var cur := prev + extra;
    forall i, j | 0 <= i < j < |cur| ensures Index(cur[i].0) < Index(cur[j].0) {
      assert cur[i] == prev[i];
      if j < |prev| {
        assert cur[j] == prev[j];
      } else {
        assert cur[j] == extra[0];
      }
    }
  }

  /** The scan's keys strictly increase in row-major order. */
  lemma {:induction false} MovesUpToSorted(g: Grid, c: Color, row: int, col: int)
    requires 0 <= row <= 8 && 0 <= col <= 8 && (row == 8 ==> col == 0)
    ensures forall i, j :: 0 <= i < j < |MovesUpTo(g, c, row, col)| ==>
      Index(MovesUpTo(g, c, row, col)[i].0) < Index(MovesUpTo(g, c, row, col)[j].0)
    decreases row, col
  {
    if col == 0 {
      if row > 0 {
        MovesUpToSorted(g, c, row - 1, 8);
      }
    } else {
      MovesUpToSorted(g, c, row, col - 1);
      MovesUpToEntries(g, c, row, col - 1);
      var at := Pos(row, col - 1);
      var extra := if OwnMoves(g, c, at) != [] then [(at, OwnMoves(g, c, at))] else [];
      AscendingAppend(MovesUpTo(g, c, row, col - 1), extra, 8 * row + col - 1);
    }
  }

  /** A key of a concatenation is a key of one of its parts. */
  lemma HasKeyAppend<T>(a: seq<(Pos, T)>, b: seq<(Pos, T)>, q: Pos)
    ensures HasKey(a + b, q) <==> HasKey(a, q) || HasKey(b, q)
  {
    var ab := a + b;
    if HasKey(a, q) {
      var i :| 0 <= i < |a| && a[i].0 == q;
      assert ab[i].0 == q;
    }
    if HasKey(b, q) {
      var i :| 0 <= i < |b| && b[i].0 == q;
      assert ab[|a| + i].0 == q;
    }
    if HasKey(ab, q) {
      var i :| 0 <= i < |ab| && ab[i].0 == q;
      if i < |a| {
        assert a[i].0 == q;
      } else {
        assert b[i - |a|].0 == q;
      }
    }
  }

  /** A square is a key of the scan exactly when it comes before (row, col)
      and its list is non-empty. */
  lemma {:induction false} MovesUpToKeys(g: Grid, c: Color, row: int, col: int, q: Pos)
    requires 0 <= row <= 8 && 0 <= col <= 8 && (row == 8 ==> col == 0) && OnBoard(q)
    ensures HasKey(MovesUpTo(g, c, row, col), q) <==> Index(q) < 8 * row + col && OwnMoves(g, c, q) != []
    decreases row, col
  {
    if col == 0 {
      if row > 0 {
        MovesUpToKeys(g, c, row - 1, 8, q);
      }
    } else {
      MovesUpToKeys(g, c, row, col - 1, q);
      var at := Pos(row, col - 1);
      var extra := if OwnMoves(g, c, at) != [] then [(at, OwnMoves(g, c, at))] else [];
      assert MovesUpTo(g, c, row, col) == MovesUpTo(g, c, row, col - 1) + extra;
      HasKeyAppend(MovesUpTo(g, c, row, col - 1), extra, q);
      assert HasKey(extra, q) <==> OwnMoves(g, c, at) != [] && at == q by {
        if HasKey(extra, q) {
          var i :| 0 <= i < |extra| && extra[i].0 == q;
        }
        if OwnMoves(g, c, at) != [] && at == q {
          assert extra[0].0 == q;
        }
      }
      assert Index(q) == 8 * row + col - 1 <==> q == at by {
        if Index(q) == 8 * row + col - 1 {
          IndexInjective(q, at);
        }
      }
    }
  }

  /** The jumps dict after scanning, in row-major order, every square
      before (row, col): the rows above, then the first col squares of row. */
  function JumpsUpTo(g: Grid, c: Color, row: int, col: int): seq<(Pos, seq<seq<Pos>>)>
    requires 0 <= row <= 8 && 0 <= col <= 8 && (row == 8 ==> col == 0)
    decreases row, col
  {
    if col == 0 then
      if row == 0 then [] else JumpsUpTo(g, c, row - 1, 8)
    else
      var at := Pos(row, col - 1);
      JumpsUpTo(g, c, row, col - 1) + if OwnJumps(g, c, at) != [] then [(at, OwnJumps(g, c, at))] else []
  }

  /** Every entry of the scan up to (row, col) is an own piece on a square
      before it, with its non-empty list. */
  lemma {:induction false} JumpsUpToEntries(g: Grid, c: Color, row: int, col: int)
    requires 0 <= row <= 8 && 0 <= col <= 8 && (row == 8 ==> col == 0)
    ensures forall i :: 0 <= i < |JumpsUpTo(g, c, row, col)| ==>
      var e := JumpsUpTo(g, c, row, col)[i];
      OnBoard(e.0) && Index(e.0) < 8 * row + col && e.1 == OwnJumps(g, c, e.0) && e.1 != []
    decreases row, col
  {
    if col == 0 {
      if row > 0 {
        JumpsUpToEntries(g, c, row - 1, 8);
      }
    } else {
      JumpsUpToEntries(g, c, row, col - 1);
      var prev := JumpsUpTo(g, c, row, col - 1);
      assert forall i :: 0 <= i < |prev| ==> JumpsUpTo(g, c, row, col)[i] == prev[i];
    }
  }

  /** The scan's keys strictly increase in row-major order. */
  lemma {:induction false} JumpsUpToSorted(g: Grid, c: Color, row: int, col: int)
    requires 0 <= row <= 8 && 0 <= col <= 8 && (row == 8 ==> col == 0)
    ensures forall i, j :: 0 <= i < j < |JumpsUpTo(g, c, row, col)| ==>
      Index(JumpsUpTo(g, c, row, col)[i].0) < Index(JumpsUpTo(g, c, row, col)[j].0)
    decreases row, col
  {
    if col == 0 {
      if row > 0 {
        JumpsUpToSorted(g, c, row - 1, 8);
      }
    } else {
      JumpsUpToSorted(g, c, row, col - 1);
      JumpsUpToEntries(g, c, row, col - 1);
      var at := Pos(row, col - 1);
      var extra := if OwnJumps(g, c, at) != [] then [(at, OwnJumps(g, c, at))] else [];
      AscendingAppend(JumpsUpTo(g, c, row, col - 1), extra, 8 * row + col - 1);
    }
  }

  /** A square is a key of the scan exactly when it comes before (row, col)
      and its list is non-empty. */
  lemma {:induction false} JumpsUpToKeys(g: Grid, c: Color, row: int, col: int, q: Pos)
    requires 0 <= row <= 8 && 0 <= col <= 8 && (row == 8 ==> col == 0) && OnBoard(q)
    ensures HasKey(JumpsUpTo(g, c, row, col), q) <==> Index(q) < 8 * row + col && OwnJumps(g, c, q) != []
    decreases row, col
  {
    if col == 0 {
      if row > 0 {
        JumpsUpToKeys(g, c, row - 1, 8, q);
      }
    } else {
      JumpsUpToKeys(g, c, row, col - 1, q);
      var at := Pos(row, col - 1);
      var extra := if OwnJumps(g, c, at) != [] then [(at, OwnJumps(g, c, at))] else [];
      assert JumpsUpTo(g, c, row, col) == JumpsUpTo(g, c, row, col - 1) + extra;
      HasKeyAppend(JumpsUpTo(g, c, row, col - 1), extra, q);
      assert HasKey(extra, q) <==> OwnJumps(g, c, at) != [] && at == q by {
        if HasKey(extra, q) {
          var i :| 0 <= i < |extra| && extra[i].0 == q;
        }
        if OwnJumps(g, c, at) != [] && at == q {
          assert extra[0].0 == q;
        }
      }
      assert Index(q) == 8 * row + col - 1 <==> q == at by {
        if Index(q) == 8 * row + col - 1 {
          IndexInjective(q, at);
        }
      }
    }
  }

  /** The jumps dict of get_all_moves(color, must_jump): every own piece
      with captures, in row-major order. */
  function JumpsDict(g: Grid, c: Color): seq<(Pos, seq<seq<Pos>>)> {
    JumpsUpTo(g, c, Rows(), 0)
  }

  /** The moves dict of get_all_moves(color, must_jump): emptied under
      must_jump as soon as the jumps dict is not. */
  function MovesDict(g: Grid, c: Color, mustJump: bool): seq<(Pos, seq<Pos>)> {
    if mustJump && JumpsDict(g, c) != [] then [] else MovesUpTo(g, c, Rows(), 0)
  }

  /** An own list is non-empty only for a piece of colour c, and is then
      that piece's list. */
  lemma OwnLists(g: Grid, c: Color, q: Pos)
    requires OnBoard(q)
    ensures OwnMoves(g, c, q) != [] <==> GetColor(At(g, q)) == Some(c) && SimpleMoves(g, At(g, q), q) != []
    ensures OwnMoves(g, c, q) != [] ==> OwnMoves(g, c, q) == SimpleMoves(g, At(g, q), q)
    ensures OwnJumps(g, c, q) != [] <==> GetColor(At(g, q)) == Some(c) && GetJumps(g, At(g, q), q) != []
    ensures OwnJumps(g, c, q) != [] ==> OwnJumps(g, c, q) == GetJumps(g, At(g, q), q)
  {
    ColorsExclusive(At(g, q));
  }

  /** The jumps dict holds, in row-major order, own pieces with their
      non-empty get_jumps_for_piece list. */
  lemma JumpsDictEntries(g: Grid, c: Color)
    ensures var js := JumpsDict(g, c);
      && (forall i :: 0 <= i < |js| ==>
            OnBoard(js[i].0) && GetColor(At(g, js[i].0)) == Some(c)
            && js[i].1 == GetJumps(g, At(g, js[i].0), js[i].0) && js[i].1 != [])
      && (forall i, j :: 0 <= i < j < |js| ==> Index(js[i].0) < Index(js[j].0))
  {
    var js := JumpsUpTo(g, c, 8, 0);
    JumpsUpToEntries(g, c, 8, 0);
    JumpsUpToSorted(g, c, 8, 0);
    forall i | 0 <= i < |js| ensures GetColor(At(g, js[i].0)) == Some(c) && js[i].1 == GetJumps(g, At(g, js[i].0), js[i].0) {
      OwnLists(g, c, js[i].0);
    }
  }

  /** A square is a key of the jumps dict exactly when it holds an own
      piece with a non-empty get_jumps_for_piece list. */
  lemma JumpsDictKey(g: Grid, c: Color, q: Pos)
    requires OnBoard(q)
    ensures HasKey(JumpsDict(g, c), q) <==> GetColor(At(g, q)) == Some(c) && GetJumps(g, At(g, q), q) != []
  {
    JumpsUpToKeys(g, c, 8, 0, q);
    OwnLists(g, c, q);
  }

  /** The moves dict is empty when must_jump applies and a jump exists;
      otherwise it holds, in row-major order, own pieces with their
      non-empty get_moves_for_piece list. */
  lemma MovesDictEntries(g: Grid, c: Color, mustJump: bool)
    ensures var ms := MovesDict(g, c, mustJump);
      && (mustJump && JumpsDict(g, c) != [] ==> ms == [])
      && (forall i :: 0 <= i < |ms| ==>
            OnBoard(ms[i].0) && GetColor(At(g, ms[i].0)) == Some(c)
            && ms[i].1 == SimpleMoves(g, At(g, ms[i].0), ms[i].0) && ms[i].1 != [])
      && (forall i, j :: 0 <= i < j < |ms| ==> Index(ms[i].0) < Index(ms[j].0))
  {
    if !(mustJump && JumpsDict(g, c) != []) {
      var ms := MovesUpTo(g, c, 8, 0);
      assert MovesDict(g, c, mustJump) == ms;
      MovesUpToEntries(g, c, 8, 0);
      MovesUpToSorted(g, c, 8, 0);
      forall i | 0 <= i < |ms| ensures GetColor(At(g, ms[i].0)) == Some(c) && ms[i].1 == SimpleMoves(g, At(g, ms[i].0), ms[i].0) {
        OwnLists(g, c, ms[i].0);
      }
    }
  }

  /** A square is a key of the moves dict exactly when it holds an own
      piece with a non-empty get_moves_for_piece list and must_jump did
      not empty the dict. */
  lemma MovesDictKey(g: Grid, c: Color, mustJump: bool, q: Pos)
    requires OnBoard(q)
    ensures HasKey(MovesDict(g, c, mustJump), q) <==>
      GetColor(At(g, q)) == Some(c) && SimpleMoves(g, At(g, q), q) != [] && !(mustJump && JumpsDict(g, c) != [])
  {
    if mustJump && JumpsDict(g, c) != [] {
      assert MovesDict(g, c, mustJump) == [];
    } else {
      assert MovesDict(g, c, mustJump) == MovesUpTo(g, c, 8, 0);
      MovesUpToKeys(g, c, 8, 0, q);
      OwnLists(g, c, q);
    }
  }
}
