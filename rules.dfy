/** The checkers side of the search in game.py: the `move_dict` a node
    scans, the child a board copy reaches, `check_winner`, and the depth
    `bot_move` searches to. `Checkers` plugs them into the search of
    module Search. */
module Rules {
  import opened Pieces
  import opened MoveGen
  import opened BoardState
  import opened Evaluation
  import opened Search

  // ---------------------------------------------------------------------
  // move_dict (game.py:80-82, 102-104)

  /** The colour `minimax` generates for: RED for the maximizer. */
  function Side(maximizer: bool): Color {
    if maximizer then Red else Blue
  }

  function Dests(ms: seq<Pos>): seq<MoveData> {
    seq(|ms|, k requires 0 <= k < |ms| => Dest(ms[k]))
  }

  function Chains(js: seq<seq<Pos>>): seq<MoveData> {
    seq(|js|, k requires 0 <= k < |js| => Chain(js[k]))
  }

  /** The moves dict with destinations as move data. */
  function MoveOptions(moves: seq<(Pos, seq<Pos>)>): Options {
    seq(|moves|, i requires 0 <= i < |moves| => (moves[i].0, Dests(moves[i].1)))
  }

  /** The jumps dict with chains as move data. */
  function JumpOptions(jumps: seq<(Pos, seq<seq<Pos>>)>): Options {
    seq(|jumps|, i requires 0 <= i < |jumps| => (jumps[i].0, Chains(jumps[i].1)))
  }

  /** `move_dict = jumps if jumps else moves` for the side to move. */
  function MoveDict(s: State, maximizer: bool, mustJump: bool): Options {
    var c := Side(maximizer);
    var jumps := JumpsDict(s.grid, c);
    if jumps != [] then JumpOptions(jumps) else MoveOptions(MovesDict(s.grid, c, mustJump))
  }

  /** The board copy after `play_jump` for a chain or `play_move` for a
      destination. The on-board guards always hold for the options of
      MoveDict (OptionLegal). */
  function Play(s: State, a: Action): State {
    match a.data
    case Chain(path) => if AllOnBoard(path) then ApplyJump(s, path) else s
    case Dest(to) => if OnBoard(a.start) && OnBoard(to) then ApplyMove(s, a.start, to) else s
  }

  /** A chain the generator returns stays on the board. */
  lemma ChainOnBoard(g: Grid, p: Piece, from: Pos, ch: seq<Pos>)
    requires OnBoard(from) && ch in GetJumps(g, p, from)
    ensures AllOnBoard(ch)
  {
    GetJumpsSpec(g, p, from, ch);
    forall k | 0 <= k < |ch|
      ensures OnBoard(ch[k])
    {
      if k > 0 {
        GeneratedLeg(g, p, ch, k - 1);
      }
    }
  }

  /** Every option of a node starts on a square of the side to move and is
      one of its generated moves: a whole jump chain exactly when that side
      has any jump, whatever must_jump says, a simple move otherwise. */
  lemma OptionLegal(s: State, maximizer: bool, mustJump: bool, i: int, j: int)
    requires 0 <= i < |MoveDict(s, maximizer, mustJump)| && 0 <= j < |MoveDict(s, maximizer, mustJump)[i].1|
    ensures var d := MoveDict(s, maximizer, mustJump);
      var c := Side(maximizer);
      var from := d[i].0;
      var data := d[i].1[j];
      && OnBoard(from) && GetColor(At(s.grid, from)) == Some(c)
      && (data.Chain? <==> JumpsDict(s.grid, c) != [])
      && (data.Chain? ==> data.path in GetJumps(s.grid, At(s.grid, from), from) && AllOnBoard(data.path))
      && (data.Dest? ==> data.to in SimpleMoves(s.grid, At(s.grid, from), from) && OnBoard(data.to))
  {
    var c := Side(maximizer);
    var jumps := JumpsDict(s.grid, c);
    if jumps != [] {
      JumpsDictEntries(s.grid, c);
      var from := jumps[i].0;
      ChainOnBoard(s.grid, At(s.grid, from), from, jumps[i].1[j]);
    } else {
      var moves := MovesDict(s.grid, c, mustJump);
      MovesDictEntries(s.grid, c, mustJump);
      SimpleMoveTarget(s.grid, At(s.grid, moves[i].0), moves[i].0, moves[i].1[j]);
    }
  }

  /** A square is a key of move_dict exactly when it holds a piece of the
      side to move that has a jump, if that side has any jump, or that has
      a simple move, if it has none. */
  lemma MoveDictKeys(s: State, maximizer: bool, mustJump: bool, q: Pos)
    requires OnBoard(q)
    ensures var c := Side(maximizer);
      HasKey(MoveDict(s, maximizer, mustJump), q) <==>
        GetColor(At(s.grid, q)) == Some(c)
        && if JumpsDict(s.grid, c) != [] then GetJumps(s.grid, At(s.grid, q), q) != []
           else SimpleMoves(s.grid, At(s.grid, q), q) != []
  {
    var c := Side(maximizer);
    if JumpsDict(s.grid, c) != [] {
      JumpsDictKey(s.grid, c, q);
      JumpOptionsKeys(JumpsDict(s.grid, c), q);
    } else {
      MovesDictKey(s.grid, c, mustJump, q);
      MoveOptionsKeys(MovesDict(s.grid, c, mustJump), q);
    }
  }

  lemma JumpOptionsKeys(jumps: seq<(Pos, seq<seq<Pos>>)>, q: Pos)
    ensures HasKey(JumpOptions(jumps), q) <==> HasKey(jumps, q)
  {
    var d := JumpOptions(jumps);
    if HasKey(jumps, q) {
      var i :| 0 <= i < |jumps| && jumps[i].0 == q;
      assert d[i].0 == q;
    }
    if HasKey(d, q) {
      var i :| 0 <= i < |d| && d[i].0 == q;
      assert jumps[i].0 == q;
    }
  }

  lemma MoveOptionsKeys(moves: seq<(Pos, seq<Pos>)>, q: Pos)
    ensures HasKey(MoveOptions(moves), q) <==> HasKey(moves, q)
  {
    var d := MoveOptions(moves);
    if HasKey(moves, q) {
      var i :| 0 <= i < |moves| && moves[i].0 == q;
      assert d[i].0 == q;
    }
    if HasKey(d, q) {
      var i :| 0 <= i < |d| && d[i].0 == q;
      assert moves[i].0 == q;
    }
  }

  /** must_jump does not change what the search scans: jumps are taken
      whenever there are any, and the moves dict only differs when they are. */
  lemma MustJumpIgnored(s: State, maximizer: bool)
    ensures MoveDict(s, maximizer, true) == MoveDict(s, maximizer, false)
  {
  }

  /** Every child of a valid position is valid; a jump chain takes
      |chain| - 1 opponent pieces and a simple move takes none, and the
      mover keeps all of its pieces. */
  lemma ChildValid(s: State, maximizer: bool, mustJump: bool, i: int, j: int)
    requires Valid(s)
    requires 0 <= i < |MoveDict(s, maximizer, mustJump)| && 0 <= j < |MoveDict(s, maximizer, mustJump)[i].1|
    ensures var d := MoveDict(s, maximizer, mustJump);
      var c := Side(maximizer);
      var data := d[i].1[j];
      var t := Play(s, Action(d[i].0, data));
      && Valid(t)
      && Total(t, c) == Total(s, c)
      && Total(t, Opponent(c)) == Total(s, Opponent(c)) - (if data.Chain? then |data.path| - 1 else 0)
  {
    var d := MoveDict(s, maximizer, mustJump);
    OptionLegal(s, maximizer, mustJump, i, j);
    GeneratedPlayValid(s, Side(maximizer), d[i].0, d[i].1[j]);
  }

  /** Playing a generated move of a piece of side c keeps the position
      valid, keeps c's pieces and takes one opponent piece per leg. */
  lemma GeneratedPlayValid(s: State, c: Color, from: Pos, data: MoveData)
    requires Valid(s) && OnBoard(from) && GetColor(At(s.grid, from)) == Some(c)
    requires data.Chain? ==> data.path in GetJumps(s.grid, At(s.grid, from), from)
    requires data.Dest? ==> data.to in SimpleMoves(s.grid, At(s.grid, from), from)
    ensures var t := Play(s, Action(from, data));
      && Valid(t)
      && Total(t, c) == Total(s, c)
      && Total(t, Opponent(c)) == Total(s, Opponent(c)) - (if data.Chain? then |data.path| - 1 else 0)
  {
    match data
    case Chain(path) =>
      JumpPreservesValid(s, from, path);
    case Dest(to) =>
      MovePreservesValid(s, from, to);
  }

  /** isJump tells the kind of every option of d: all chains when it
      holds, all destinations otherwise. */
  predicate JumpKind(d: Options, isJump: bool) {
    forall k, l :: 0 <= k < |d| && 0 <= l < |d[k].1| ==> d[k].1[l].Chain? == isJump
  }

  /** `move_dict` holds jump chains exactly when the side has a jump. */
  lemma MoveDictKind(s: State, maximizer: bool, mustJump: bool)
    ensures JumpKind(MoveDict(s, maximizer, mustJump), JumpsDict(s.grid, Side(maximizer)) != [])
  {
    var d := MoveDict(s, maximizer, mustJump);
    forall k, l | 0 <= k < |d| && 0 <= l < |d[k].1|
      ensures d[k].1[l].Chain? == (JumpsDict(s.grid, Side(maximizer)) != [])
    {
      OptionLegal(s, maximizer, mustJump, k, l);
    }
  }

  /** What copying the board and playing option (i, j) needs and gives:
      the squares of the option are on the board, and the child is valid. */
  lemma OptionPlayable(s: State, maximizer: bool, mustJump: bool, i: int, j: int)
    requires Valid(s)
    requires 0 <= i < |MoveDict(s, maximizer, mustJump)| && 0 <= j < |MoveDict(s, maximizer, mustJump)[i].1|
    ensures var d := MoveDict(s, maximizer, mustJump);
      var data := d[i].1[j];
      && (data.Chain? ==> AllOnBoard(data.path))
      && (data.Dest? ==> OnBoard(d[i].0) && OnBoard(data.to))
      && Valid(Play(s, Action(d[i].0, data)))
  {
    OptionLegal(s, maximizer, mustJump, i, j);
    ChildValid(s, maximizer, mustJump, i, j);
  }

  /** Which of play_jump and play_move bot_move can play (start, data)
      through: with jumps, start is a key of the jumps dict and data a
      chain on the board; without, start is a key of the moves dict and
      data a destination on the board. */
  predicate Dispatchable(g: Grid, mustJump: bool, start: Pos, data: MoveData) {
    var jumps, moves := JumpsDict(g, Red), MovesDict(g, Red, mustJump);
    && (jumps != [] ==> HasKey(jumps, start) && data.Chain? && AllOnBoard(data.path))
    && (jumps == [] ==> moves != [] && HasKey(moves, start) && data.Dest? && OnBoard(start) && OnBoard(data.to))
  }

  /** Every option (i, j) of RED's move_dict is dispatchable, and the
      position it reaches is valid. */
  lemma BestPlayable(s: State, mustJump: bool, i: int, j: int)
    requires Valid(s)
    requires 0 <= i < |MoveDict(s, true, mustJump)| && 0 <= j < |MoveDict(s, true, mustJump)[i].1|
    ensures var d := MoveDict(s, true, mustJump);
      && Dispatchable(s.grid, mustJump, d[i].0, d[i].1[j])
      && Valid(Play(s, Action(d[i].0, d[i].1[j])))
  {
    var d := MoveDict(s, true, mustJump);
    OptionLegal(s, true, mustJump, i, j);
    ChildValid(s, true, mustJump, i, j);
    if JumpsDict(s.grid, Red) != [] {
      JumpOptionsKeys(JumpsDict(s.grid, Red), d[i].0);
    } else {
      MoveOptionsKeys(MovesDict(s.grid, Red, mustJump), d[i].0);
    }
  }

  // ---------------------------------------------------------------------
  // check_winner (game.py:65-71)

  datatype Outcome = BlueWon | RedWon | NoWinner

  /** `check_winner`: BLUE when RED's men and kings counters are both zero,
      else RED when BLUE's are, else NONE. The `not get_all_moves(...)`
      operands test a pair, which is never falsy, so they never decide. */
  function Winner(s: State): Outcome {
    if s.redMen == 0 && s.redKings == 0 then BlueWon
    else if s.blueMen == 0 && s.blueKings == 0 then RedWon
    else NoWinner
  }

  function Over(s: State): bool {
    Winner(s) != NoWinner
  }

  /** No square holds a piece of colour c. */
  ghost predicate NoneLeft(g: Grid, c: Color) {
    forall q :: OnBoard(q) ==> GetColor(At(g, q)) != Some(c)
  }

  lemma {:induction false} RowHolds(row: seq<Piece>, p: Piece) returns (k: nat)
    requires RowCount(row, p) > 0
    ensures k < |row| && row[k] == p
    decreases |row|
  {
    if row[|row| - 1] == p {
      k := |row| - 1;
    } else {
      k := RowHolds(row[..|row| - 1], p);
    }
  }

  lemma {:induction false} GridHolds(g: Grid, p: Piece, n: nat) returns (q: Pos)
    requires n <= 8 && CountRows(g, p, n) > 0
    ensures OnBoard(q) && At(g, q) == p
  {
    if RowCount(g[n - 1], p) > 0 {
      var k := RowHolds(g[n - 1], p);
      q := Pos(n - 1, k);
    } else {
      q := GridHolds(g, p, n - 1);
    }
  }

  /** On a valid board, BLUE wins exactly when no RED piece is left, and RED
      wins exactly when RED pieces are left and no BLUE piece is. */
  lemma WinnerSpec(s: State)
    requires Valid(s)
    ensures Winner(s) == BlueWon <==> NoneLeft(s.grid, Red)
    ensures Winner(s) == RedWon <==> !NoneLeft(s.grid, Red) && NoneLeft(s.grid, Blue)
  {
    CountsBounded(s);
    SideLeft(s, Red);
    SideLeft(s, Blue);
  }

  /** A side's counters are both zero exactly when none of its pieces is on
      the board. */
  lemma SideLeft(s: State, c: Color)
    requires Valid(s)
    ensures Total(s, c) == 0 <==> NoneLeft(s.grid, c)
  {
    CountsBounded(s);
    if Total(s, c) == 0 {
      forall q | OnBoard(q)
        ensures GetColor(At(s.grid, q)) != Some(c)
      {
        NoPieceOfColor(s, c, q);
      }
    } else {
      var man, king := if c == Red then RedMan else BlueMan, if c == Red then RedKing else BlueKing;
      var q: Pos;
      if Count(s.grid, man) > 0 {
        q := GridHolds(s.grid, man, 8);
      } else {
        q := GridHolds(s.grid, king, 8);
      }
      assert GetColor(At(s.grid, q)) == Some(c);
    }
  }

  // ---------------------------------------------------------------------
  // The search depth of bot_move (game.py:123-128)

  const MaxDepth: int := 6
  const MinDepth: int := 4
  const InitialPieces: int := 24

  /** Python's `round` of n / d: the nearest integer, a tie going to the
      even one. */
  function RoundHalfEven(n: int, d: int): (r: int)
    requires d > 0
    ensures 2 * n - d <= 2 * d * r <= 2 * n + d
    ensures 2 * d * r == 2 * n - d || 2 * d * r == 2 * n + d ==> r % 2 == 0
  {
    var q, m := n / d, n % d;
    if 2 * m < d then q
    else if 2 * m > d then q + 1
    else if q % 2 == 0 then q else q + 1
  }

  /** `min_depth + round((1 - total / initial) * (max_depth - min_depth))`,
      with the fraction kept exact. */
  function SearchDepth(total: int): int {
    MinDepth + RoundHalfEven((InitialPieces - total) * (MaxDepth - MinDepth), InitialPieces)
  }

  /** From 24 pieces down to none the bot searches 4 to 6 plies, and on
      any board (at most 64 pieces) at least 1. */
  lemma SearchDepthBounds(total: int)
    ensures 0 <= total <= InitialPieces ==> MinDepth <= SearchDepth(total) <= MaxDepth
    ensures 0 <= total <= 64 ==> SearchDepth(total) >= 1
  {
  }

  /** Fewer pieces never make the search shallower. */
  lemma SearchDepthMonotone(t1: int, t2: int)
    requires t1 <= t2
    ensures SearchDepth(t2) <= SearchDepth(t1)
  {
  }

  /** The depths at the points where the fraction is exact: the ties at 18
      and 6 pieces round to the even 0 and 2. */
  lemma SearchDepthValues()
    ensures SearchDepth(24) == 4 && SearchDepth(18) == 4 && SearchDepth(12) == 5
    ensures SearchDepth(6) == 6 && SearchDepth(0) == 6
  {
  }

  // ---------------------------------------------------------------------
  // The search and the bot's turn

  /** The game `minimax` searches: leaves valued by `evaluate` against the
      cache as it stood before the search, move_dict as the options, board
      copies as children, and the real board's check_winner fixed for the
      whole search. */
  function Checkers(cache0: map<string, CacheEntry>, mustJump: bool, over: bool): Game {
    Game(s => Eval(cache0, s, mustJump), (s, maximizer) => MoveDict(s, maximizer, mustJump), Play, over)
  }

  /** LeafAt, OptionsAt and PlayAt name a leaf, a node and a move of the
      search. They serve as triggers only, so that a proof meets the link
      between a game and Checkers at the places it names and nowhere else. */
  ghost predicate LeafAt(s: State) {
    true
  }

  ghost predicate OptionsAt(s: State, maximizer: bool) {
    true
  }

  ghost predicate PlayAt(s: State, a: Action) {
    true
  }

  /** x values leaves, lists options and plays them as Checkers does for
      this cache and must_jump, whatever it says of check_winner. */
  ghost predicate IsCheckers(x: Game, cache0: map<string, CacheEntry>, mustJump: bool) {
    && (forall s {:trigger LeafAt(s)} :: LeafAt(s) ==> Leaf(x, s) == Eval(cache0, s, mustJump))
    && (forall s, maximizer {:trigger OptionsAt(s, maximizer)} :: OptionsAt(s, maximizer) ==>
          Moves(x, s, maximizer) == MoveDict(s, maximizer, mustJump))
    && (forall s, a {:trigger PlayAt(s, a)} :: PlayAt(s, a) ==> Child(x, s, a) == Play(s, a))
  }

  lemma CheckersIs(cache0: map<string, CacheEntry>, mustJump: bool, over: bool)
    ensures IsCheckers(Checkers(cache0, mustJump, over), cache0, mustJump)
  {
  }

  /** The depth bot_move searches a valid position to. */
  function BotDepth(s: State): (depth: nat)
    requires Valid(s)
    ensures 1 <= depth
  {
    CountsBounded(s);
    SearchDepthBounds(Total(s, Red) + Total(s, Blue));
    SearchDepth(Total(s, Red) + Total(s, Blue))
  }

  /** What `bot_move` leaves on the board: the position after the move the
      search from (-inf, inf) returns, or the same position when it returns
      none. */
  function BotTurn(cache0: map<string, CacheEntry>, mustJump: bool, s: State): State
    requires Valid(s)
  {
    Turn(Checkers(cache0, mustJump, Over(s)), s, BotDepth(s))
  }

  /** A turn of a game linked to Checkers keeps the position valid and
      plays, when it plays anything, a RED option of move_dict. */
  lemma TurnLinked(x: Game, cache0: map<string, CacheEntry>, mustJump: bool, s: State, depth: nat)
    requires Valid(s) && IsCheckers(x, cache0, mustJump)
    ensures var t := Turn(x, s, depth);
      && Valid(t)
      && (x.over || depth == 0 || Minimax(x, s, depth, true) == NegInf ==> t == s)
      && (!x.over && depth > 0 && Minimax(x, s, depth, true) != NegInf ==>
            exists a :: Offers(MoveDict(s, true, mustJump), a) && t == Play(s, a)
              && Minimax(x, t, depth - 1, false) == Minimax(x, s, depth, true))
  {
    var t := Turn(x, s, depth);
    TurnSpec(x, s, depth);
    assert OptionsAt(s, true);
    var r := AlphaBeta(x, s, depth, NegInf, PosInf, true);
    if r.1.Some? {
      var i, j := OptionOf(x, s, depth, NegInf, PosInf, true);
      assert PlayAt(s, r.1.value);
      ChildValid(s, true, mustJump, i, j);
    }
    if !x.over && depth > 0 && Minimax(x, s, depth, true) != NegInf {
      var a :| Offers(x.options(s, true), a) && t == x.play(s, a)
        && Minimax(x, t, depth - 1, false) == Minimax(x, s, depth, true);
      assert PlayAt(s, a);
      assert Offers(MoveDict(s, true, mustJump), a) && t == Play(s, a);
    }
  }

  /** The bot's turn keeps the board valid. It plays nothing when the game
      is over or every line loses outright (minimax value -inf); otherwise
      it plays a RED option whose position has, one ply down, the minimax
      value of the current one: the first such option in move_dict order. */
  lemma BotTurnSpec(cache0: map<string, CacheEntry>, mustJump: bool, s: State)
    requires Valid(s)
    ensures var x := Checkers(cache0, mustJump, Over(s));
      var depth := BotDepth(s);
      var t := BotTurn(cache0, mustJump, s);
      && Valid(t)
      && (Over(s) || Minimax(x, s, depth, true) == NegInf ==> t == s)
      && (!Over(s) && Minimax(x, s, depth, true) != NegInf ==>
            exists a :: Offers(MoveDict(s, true, mustJump), a) && t == Play(s, a)
              && Minimax(x, t, depth - 1, false) == Minimax(x, s, depth, true))
  {
    CheckersIs(cache0, mustJump, Over(s));
    TurnLinked(Checkers(cache0, mustJump, Over(s)), cache0, mustJump, s, BotDepth(s));
  }


}
