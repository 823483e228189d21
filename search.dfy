/** The alpha-beta search of `GameLogic.minimax` (game.py:73-120, copied
    as `CheckersAI.minimax` in game/ai.py:6-53), stated over values and
    over an abstract game: the evaluation of a leaf, the options of a
    node, the position an action leads to, and whether the real game is
    over. Next to it stands the plain minimax value of the same tree,
    and the lemmas here relate the two. */
module Search {
  import opened Pieces
  import opened BoardState

  // ---------------------------------------------------------------------
  // Values

  /** A search value: an evaluation, or one of the infinities the search
      starts its bests and its window from. */
  datatype Score = NegInf | Fin(v: int) | PosInf

  /** a <= b on the extended line. */
  predicate Le(a: Score, b: Score) {
    a.NegInf? || b.PosInf? || (a.Fin? && b.Fin? && a.v <= b.v)
  }

  predicate Lt(a: Score, b: Score) {
    !Le(b, a)
  }

  /** Python's `max(a, b)`: a, unless b is strictly greater. */
  function Max(a: Score, b: Score): (r: Score)
    ensures Le(a, r) && Le(b, r) && (r == a || r == b)
  {
    if Lt(a, b) then b else a
  }

  /** Python's `min(a, b)`: a, unless b is strictly smaller. */
  function Min(a: Score, b: Score): (r: Score)
    ensures Le(r, a) && Le(r, b) && (r == a || r == b)
  {
    if Lt(b, a) then b else a
  }

  // ---------------------------------------------------------------------
  // The game the search runs on

  /** What a move list holds: a destination (play_move) or a whole jump
      chain (play_jump). */
  datatype MoveData = Dest(to: Pos) | Chain(path: seq<Pos>)

  /** `best_move`: the start square and the move data. */
  datatype Action = Action(start: Pos, data: MoveData)

  /** `move_dict.items()`, in iteration order. */
  type Options = seq<(Pos, seq<MoveData>)>

  /** The four things the search consults: the evaluation of a leaf, the
      `move_dict` of a node for the maximizer (true) or the minimizer,
      the child a copy reaches by playing an action, and whether
      `check_winner()` reports a winner on the real board. */
  datatype Game = Game(
    leaf: State -> int,
    options: (State, bool) -> Options,
    play: (State, Action) -> State,
    over: bool)

  /** The value of a leaf, the options of a node and the child a move
      reaches, as functions of the game. */
  function Leaf(x: Game, s: State): int {
    x.leaf(s)
  }

  function Moves(x: Game, s: State, maximizer: bool): Options {
    x.options(s, maximizer)
  }

  function Child(x: Game, s: State, a: Action): State {
    x.play(s, a)
  }

  /** The search's running variables at one node. */
  datatype Window = Window(alpha: Score, beta: Score, best: Score, move: Option<Action>)

  /** `beta <= alpha`: the remaining children are skipped. */
  predicate Cut(w: Window) {
    Le(w.beta, w.alpha)
  }

  /** The starting best: `float('-inf')` for the maximizer, `float('inf')`
      for the minimizer. */
  function Worst(maximizer: bool): Score {
    if maximizer then NegInf else PosInf
  }

  /** One child evaluated to e: the best and the best move change on a
      strict improvement only (a tie keeps the earlier move); alpha (for
      the maximizer) or beta (for the minimizer) follows e. */
  function Update(w: Window, e: Score, a: Action, maximizer: bool): Window {
    if maximizer then
      var w1 := if Lt(w.best, e) then w.(best := e, move := Some(a)) else w;
      w1.(alpha := Max(w1.alpha, e))
    else
      var w1 := if Lt(e, w.best) then w.(best := e, move := Some(a)) else w;
      w1.(beta := Min(w1.beta, e))
  }

  // ---------------------------------------------------------------------
  // Alpha-beta, as the nested loops run it

  /** `minimax(board, depth, alpha, beta, maximizer)`: the evaluation at
      depth 0 or when the game is over; otherwise the scan of move_dict
      with the window, returning the best value and the best move. */
  function AlphaBeta(x: Game, s: State, depth: nat, alpha: Score, beta: Score, maximizer: bool): (Score, Option<Action>)
    decreases depth, 2, 0
  {
    if depth == 0 || x.over then (Fin(x.leaf(s)), None)
    else
      var w := ScanDict(x, s, x.options(s, maximizer), 0, depth, maximizer, Window(alpha, beta, Worst(maximizer), None));
      (w.best, w.move)
  }

  /** The outer loop from entry i: scan its move list, then stop on a cut. */
  function ScanDict(x: Game, s: State, d: Options, i: nat, depth: nat, maximizer: bool, w: Window): Window
    requires i <= |d| && depth > 0
    decreases depth, 1, |d| - i
  {
    if i == |d| then w
    else
      var w1 := ScanList(x, s, d[i].0, d[i].1, 0, depth, maximizer, w);
      if Cut(w1) then w1 else ScanDict(x, s, d, i + 1, depth, maximizer, w1)
  }

  /** The inner loop from move j: search the child one level down with the
      current window, update, and stop on a cut. */
  function ScanList(x: Game, s: State, start: Pos, list: seq<MoveData>, j: nat, depth: nat, maximizer: bool, w: Window): Window
    requires j <= |list| && depth > 0
    decreases depth, 0, |list| - j
  {
    if j == |list| then w
    else
      var a := Action(start, list[j]);
      var e := AlphaBeta(x, x.play(s, a), depth - 1, w.alpha, w.beta, !maximizer).0;
      var w1 := Update(w, e, a, maximizer);
      if Cut(w1) then w1 else ScanList(x, s, start, list, j + 1, depth, maximizer, w1)
  }

  /** The position after the move a search of s from (-inf, inf) returns
      for the maximizer, or s itself when it returns none. */
  function Turn(x: Game, s: State, depth: nat): State {
    var m := AlphaBeta(x, s, depth, NegInf, PosInf, true).1;
    if m.Some? then x.play(s, m.value) else s
  }

  // ---------------------------------------------------------------------
  // Plain minimax over the same tree

  function Combine(maximizer: bool, a: Score, b: Score): Score {
    if maximizer then Max(a, b) else Min(a, b)
  }

  /** The minimax value: the evaluation at depth 0 or when the game is
      over; otherwise the best child value for the side to move, or the
      starting best when there is no child. */
  function Minimax(x: Game, s: State, depth: nat, maximizer: bool): Score
    decreases depth, 2, 0
  {
    if depth == 0 || x.over then Fin(x.leaf(s))
    else ValueDict(x, s, x.options(s, maximizer), 0, depth, maximizer)
  }

  function ValueDict(x: Game, s: State, d: Options, i: nat, depth: nat, maximizer: bool): Score
    requires i <= |d| && depth > 0
    decreases depth, 1, |d| - i
  {
    if i == |d| then Worst(maximizer)
    else Combine(maximizer, ValueList(x, s, d[i].0, d[i].1, 0, depth, maximizer), ValueDict(x, s, d, i + 1, depth, maximizer))
  }

  function ValueList(x: Game, s: State, start: Pos, list: seq<MoveData>, j: nat, depth: nat, maximizer: bool): Score
    requires j <= |list| && depth > 0
    decreases depth, 0, |list| - j
  {
    if j == |list| then Worst(maximizer)
    else Combine(maximizer, Minimax(x, x.play(s, Action(start, list[j])), depth - 1, !maximizer),
                 ValueList(x, s, start, list, j + 1, depth, maximizer))
  }

  /** The minimax value of the child reached by option (i, j). */
  function ChildValue(x: Game, s: State, d: Options, depth: nat, maximizer: bool, i: int, j: int): Score
    requires 0 <= i < |d| && 0 <= j < |d[i].1| && depth > 0
  {
    Minimax(x, x.play(s, Action(d[i].0, d[i].1[j])), depth - 1, !maximizer)
  }

  /** Option (i, j) comes before option (p, q) in the scan order. */
  predicate Before(i: int, j: int, p: int, q: int) {
    i < p || (i == p && j < q)
  }

  /** a is one of the options of d. */
  predicate Offers(d: Options, a: Action) {
    exists i, j :: 0 <= i < |d| && 0 <= j < |d[i].1| && d[i].0 == a.start && d[i].1[j] == a.data
  }

  // ---------------------------------------------------------------------
  // Soundness of the pruning

  /** What fail-soft alpha-beta promises about its value r, searched in
      the window (alpha, beta), against the exact value v: a value at or
      below alpha bounds v from above, one at or above beta bounds it from
      below, and one strictly inside is exact. */
  predicate FailSoft(r: Score, v: Score, alpha: Score, beta: Score) {
    && (Le(r, alpha) ==> Le(v, r))
    && (Le(beta, r) ==> Le(r, v))
    && (Lt(alpha, r) && Lt(r, beta) ==> r == v)
  }

  /** The window of a node entered with (alpha, beta): the bound the side
      to move raises is the entry bound combined with the best so far. */
  predicate Tracks(maximizer: bool, w: Window, alpha: Score, beta: Score) {
    if maximizer then w.beta == beta && w.alpha == Max(alpha, w.best)
    else w.alpha == alpha && w.beta == Min(beta, w.best)
  }

  /** The exact value v of the children seen so far against the best so
      far, while no cut has happened. */
  predicate SoFar(maximizer: bool, v: Score, best: Score, alpha: Score, beta: Score) {
    if maximizer then Le(v, best) && (Lt(alpha, best) ==> v == best)
    else Le(best, v) && (Lt(best, beta) ==> v == best)
  }

  /** After a cut the best lies beyond the entry window and bounds v. */
  predicate CutBound(maximizer: bool, best: Score, v: Score, alpha: Score, beta: Score) {
    if maximizer then Le(beta, best) && Le(best, v)
    else Le(best, alpha) && Le(v, best)
  }

  /** How a scan ends: cut off, or with every child seen inside the window. */
  predicate ScanDone(maximizer: bool, w: Window, v: Score, alpha: Score, beta: Score) {
    if Cut(w) then CutBound(maximizer, w.best, v, alpha, beta)
    else Tracks(maximizer, w, alpha, beta) && SoFar(maximizer, v, w.best, alpha, beta)
  }

  lemma CombineWorst(maximizer: bool, v: Score)
    ensures Combine(maximizer, v, Worst(maximizer)) == v
    ensures Combine(maximizer, Worst(maximizer), v) == v
  {
  }

  lemma CombineAssoc(maximizer: bool, a: Score, b: Score, c: Score)
    ensures Combine(maximizer, Combine(maximizer, a, b), c) == Combine(maximizer, a, Combine(maximizer, b, c))
  {
  }

  /** A bound from a cut survives combining v with more children. */
  lemma CutBoundGrows(maximizer: bool, best: Score, v: Score, more: Score, alpha: Score, beta: Score)
    requires CutBound(maximizer, best, v, alpha, beta)
    ensures CutBound(maximizer, best, Combine(maximizer, v, more), alpha, beta)
    ensures CutBound(maximizer, best, Combine(maximizer, more, v), alpha, beta)
  {
  }

  /** One child: from a child value e that is fail-soft for the window it
      was searched in, the update keeps the scan's bookkeeping. */
  lemma UpdateStep(maximizer: bool, w: Window, e: Score, ve: Score, v: Score, alpha: Score, beta: Score, a: Action)
    requires !Cut(w) && Tracks(maximizer, w, alpha, beta) && SoFar(maximizer, v, w.best, alpha, beta)
    requires FailSoft(e, ve, w.alpha, w.beta)
    ensures ScanDone(maximizer, Update(w, e, a, maximizer), Combine(maximizer, v, ve), alpha, beta)
  {
    var w1 := Update(w, e, a, maximizer);
    if maximizer {
      if Lt(w.best, e) {
        assert w1.best == e;
        if Lt(w.alpha, e) && Lt(e, w.beta) {
          assert ve == e;
        }
      } else {
        assert w1 == w;
      }
    } else {
      if Lt(e, w.best) {
        assert w1.best == e;
        if Lt(w.alpha, e) && Lt(e, w.beta) {
          assert ve == e;
        }
      } else {
        assert w1 == w;
      }
    }
  }

  /** The value alpha-beta returns is fail-soft for its window against the
      plain minimax value. */
  lemma {:induction false} AlphaBetaSound(x: Game, s: State, depth: nat, alpha: Score, beta: Score, maximizer: bool)
    requires Lt(alpha, beta)
    ensures FailSoft(AlphaBeta(x, s, depth, alpha, beta, maximizer).0, Minimax(x, s, depth, maximizer), alpha, beta)
    decreases depth, 2, 0
  {
    if depth > 0 && !x.over {
      var d := x.options(s, maximizer);
      var w0 := Window(alpha, beta, Worst(maximizer), None);
      ScanDictSound(x, s, d, 0, depth, maximizer, w0, Worst(maximizer), alpha, beta);
      CombineWorst(maximizer, ValueDict(x, s, d, 0, depth, maximizer));
    }
  }

  lemma {:induction false} ScanDictSound(x: Game, s: State, d: Options, i: nat, depth: nat, maximizer: bool, w: Window, v: Score, alpha: Score, beta: Score)
    requires i <= |d| && depth > 0
    requires !Cut(w) && Tracks(maximizer, w, alpha, beta) && SoFar(maximizer, v, w.best, alpha, beta)
    ensures ScanDone(maximizer, ScanDict(x, s, d, i, depth, maximizer, w), Combine(maximizer, v, ValueDict(x, s, d, i, depth, maximizer)), alpha, beta)
    decreases depth, 1, |d| - i
  {
    if i == |d| {
      CombineWorst(maximizer, v);
    } else {
      var w1 := ScanList(x, s, d[i].0, d[i].1, 0, depth, maximizer, w);
      var here := ValueList(x, s, d[i].0, d[i].1, 0, depth, maximizer);
      var rest := ValueDict(x, s, d, i + 1, depth, maximizer);
      ScanListSound(x, s, d[i].0, d[i].1, 0, depth, maximizer, w, v, alpha, beta);
      CombineAssoc(maximizer, v, here, rest);
      if Cut(w1) {
        CutBoundGrows(maximizer, w1.best, Combine(maximizer, v, here), rest, alpha, beta);
      } else {
        ScanDictSound(x, s, d, i + 1, depth, maximizer, w1, Combine(maximizer, v, here), alpha, beta);
      }
    }
  }

  lemma {:induction false} ScanListSound(x: Game, s: State, start: Pos, list: seq<MoveData>, j: nat, depth: nat, maximizer: bool, w: Window, v: Score, alpha: Score, beta: Score)
    requires j <= |list| && depth > 0
    requires !Cut(w) && Tracks(maximizer, w, alpha, beta) && SoFar(maximizer, v, w.best, alpha, beta)
    ensures ScanDone(maximizer, ScanList(x, s, start, list, j, depth, maximizer, w), Combine(maximizer, v, ValueList(x, s, start, list, j, depth, maximizer)), alpha, beta)
    decreases depth, 0, |list| - j
  {
    if j == |list| {
      CombineWorst(maximizer, v);
    } else {
      var a := Action(start, list[j]);
      var child := x.play(s, a);
      var e := AlphaBeta(x, child, depth - 1, w.alpha, w.beta, !maximizer).0;
      var ve := Minimax(x, child, depth - 1, !maximizer);
      var rest := ValueList(x, s, start, list, j + 1, depth, maximizer);
      AlphaBetaSound(x, child, depth - 1, w.alpha, w.beta, !maximizer);
      var w1 := Update(w, e, a, maximizer);
      UpdateStep(maximizer, w, e, ve, v, alpha, beta, a);
      CombineAssoc(maximizer, v, ve, rest);
      if Cut(w1) {
        CutBoundGrows(maximizer, w1.best, Combine(maximizer, v, ve), rest, alpha, beta);
      } else {
        ScanListSound(x, s, start, list, j + 1, depth, maximizer, w1, Combine(maximizer, v, ve), alpha, beta);
      }
    }
  }

  /** From the full window (-inf, inf), as bot_move calls it, alpha-beta
      returns exactly the minimax value. */
  lemma RootValue(x: Game, s: State, depth: nat, maximizer: bool)
    ensures AlphaBeta(x, s, depth, NegInf, PosInf, maximizer).0 == Minimax(x, s, depth, maximizer)
  {
    AlphaBetaSound(x, s, depth, NegInf, PosInf, maximizer);
  }

  // ---------------------------------------------------------------------
  // The best move

  /** A node with nothing to play returns the starting best and no move. */
  lemma NoOptions(x: Game, s: State, depth: nat, alpha: Score, beta: Score, maximizer: bool)
    requires depth > 0 && !x.over && x.options(s, maximizer) == []
    ensures AlphaBeta(x, s, depth, alpha, beta, maximizer) == (Worst(maximizer), None)
  {
  }

  /** The move bookkeeping of a scan: there is no move exactly while the
      best is the starting one, and a move is always one of the options. */
  predicate MoveKept(d: Options, w: Window, maximizer: bool) {
    && (w.move.None? <==> w.best == Worst(maximizer))
    && (w.move.Some? ==> Offers(d, w.move.value))
  }

  lemma {:induction false} ScanListMove(x: Game, s: State, d: Options, i: nat, j: nat, depth: nat, maximizer: bool, w: Window)
    requires i < |d| && j <= |d[i].1| && depth > 0 && MoveKept(d, w, maximizer)
    ensures MoveKept(d, ScanList(x, s, d[i].0, d[i].1, j, depth, maximizer, w), maximizer)
    decreases |d[i].1| - j
  {
    if j < |d[i].1| {
      var a := Action(d[i].0, d[i].1[j]);
      var e := AlphaBeta(x, x.play(s, a), depth - 1, w.alpha, w.beta, !maximizer).0;
      var w1 := Update(w, e, a, maximizer);
      assert d[i].0 == a.start && d[i].1[j] == a.data;
      assert MoveKept(d, w1, maximizer);
      if !Cut(w1) {
        ScanListMove(x, s, d, i, j + 1, depth, maximizer, w1);
      }
    }
  }

  lemma {:induction false} ScanDictMove(x: Game, s: State, d: Options, i: nat, depth: nat, maximizer: bool, w: Window)
    requires i <= |d| && depth > 0 && MoveKept(d, w, maximizer)
    ensures MoveKept(d, ScanDict(x, s, d, i, depth, maximizer, w), maximizer)
    decreases |d| - i
  {
    if i < |d| {
      ScanListMove(x, s, d, i, 0, depth, maximizer, w);
      var w1 := ScanList(x, s, d[i].0, d[i].1, 0, depth, maximizer, w);
      if !Cut(w1) {
        ScanDictMove(x, s, d, i + 1, depth, maximizer, w1);
      }
    }
  }

  /** minimax returns no move exactly at a leaf or when no child beat the
      starting best; a move it returns is one of the node's options. */
  lemma AlphaBetaMove(x: Game, s: State, depth: nat, alpha: Score, beta: Score, maximizer: bool)
    ensures var r := AlphaBeta(x, s, depth, alpha, beta, maximizer);
      && (r.1.None? <==> depth == 0 || x.over || r.0 == Worst(maximizer))
      && (r.1.Some? ==> Offers(x.options(s, maximizer), r.1.value))
  {
    if depth > 0 && !x.over {
      ScanDictMove(x, s, x.options(s, maximizer), 0, depth, maximizer, Window(alpha, beta, Worst(maximizer), None));
    }
  }

  /** Where a move the search returns sits in the options of the node. */
  lemma OptionOf(x: Game, s: State, depth: nat, alpha: Score, beta: Score, maximizer: bool) returns (i: int, j: int)
    requires AlphaBeta(x, s, depth, alpha, beta, maximizer).1.Some?
    ensures var d := Moves(x, s, maximizer);
      var a := AlphaBeta(x, s, depth, alpha, beta, maximizer).1.value;
      0 <= i < |d| && 0 <= j < |d[i].1| && d[i].0 == a.start && d[i].1[j] == a.data
  {
    AlphaBetaMove(x, s, depth, alpha, beta, maximizer);
    var d := x.options(s, maximizer);
    var a := AlphaBeta(x, s, depth, alpha, beta, maximizer).1.value;
    i, j :| 0 <= i < |d| && 0 <= j < |d[i].1| && d[i].0 == a.start && d[i].1[j] == a.data;
  }

  /** The move m of a maximizing root is the first option, in scan order,
      whose minimax value is v. */
  predicate FirstBest(x: Game, s: State, d: Options, depth: nat, m: Option<Action>, v: Score)
    requires depth > 0
  {
    m.Some? ==>
      exists p, q ::
        && 0 <= p < |d| && 0 <= q < |d[p].1| && m.value == Action(d[p].0, d[p].1[q])
        && ChildValue(x, s, d, depth, true, p, q) == v
        && (forall p', q' :: 0 <= p' < |d| && 0 <= q' < |d[p'].1| && Before(p', q', p, q) ==>
              Lt(ChildValue(x, s, d, depth, true, p', q'), v))
  }

  /** Every option before (i, j) has minimax value at most b. */
  predicate SeenBelow(x: Game, s: State, d: Options, depth: nat, b: Score, i: int, j: int)
    requires depth > 0
  {
    forall p, q :: 0 <= p < |d| && 0 <= q < |d[p].1| && Before(p, q, i, j) ==> Le(ChildValue(x, s, d, depth, true, p, q), b)
  }

  /** The window of a maximizing root searched from (-inf, inf) before any
      cut: beta stays infinite and alpha is the best so far. */
  predicate RootWindow(w: Window) {
    w.beta == PosInf && w.alpha == w.best && !Cut(w)
  }

  lemma {:induction false} ScanListRoot(x: Game, s: State, d: Options, i: nat, j: nat, depth: nat, w: Window)
    requires i < |d| && j <= |d[i].1| && depth > 0
    requires RootWindow(w) && SeenBelow(x, s, d, depth, w.best, i, j) && FirstBest(x, s, d, depth, w.move, w.best)
    ensures var w' := ScanList(x, s, d[i].0, d[i].1, j, depth, true, w);
      && FirstBest(x, s, d, depth, w'.move, w'.best)
      && (!Cut(w') ==> RootWindow(w') && SeenBelow(x, s, d, depth, w'.best, i + 1, 0))
    decreases |d[i].1| - j
  {
    if j == |d[i].1| {
      forall p, q | 0 <= p < |d| && 0 <= q < |d[p].1| && Before(p, q, i + 1, 0)
        ensures Le(ChildValue(x, s, d, depth, true, p, q), w.best)
      {
        assert Before(p, q, i, j);
      }
    } else {
      var a := Action(d[i].0, d[i].1[j]);
      var child := x.play(s, a);
      var e := AlphaBeta(x, child, depth - 1, w.alpha, w.beta, false).0;
      var ve := ChildValue(x, s, d, depth, true, i, j);
      AlphaBetaSound(x, child, depth - 1, w.alpha, w.beta, false);
      var w1 := Update(w, e, a, true);
      if Lt(w.best, e) {
        assert ve == e;
        assert w1 == Window(e, PosInf, e, Some(a));
        assert FirstBest(x, s, d, depth, w1.move, w1.best) by {
          assert ChildValue(x, s, d, depth, true, i, j) == e;
        }
      } else {
        assert w1 == w;
      }
      assert SeenBelow(x, s, d, depth, w1.best, i, j + 1) by {
        forall p, q | 0 <= p < |d| && 0 <= q < |d[p].1| && Before(p, q, i, j + 1)
          ensures Le(ChildValue(x, s, d, depth, true, p, q), w1.best)
        {
          if Before(p, q, i, j) {
          } else {
            assert p == i && q == j;
          }
        }
      }
      if !Cut(w1) {
        ScanListRoot(x, s, d, i, j + 1, depth, w1);
      }
    }
  }

  lemma {:induction false} ScanDictRoot(x: Game, s: State, d: Options, i: nat, depth: nat, w: Window)
    requires i <= |d| && depth > 0
    requires RootWindow(w) && SeenBelow(x, s, d, depth, w.best, i, 0) && FirstBest(x, s, d, depth, w.move, w.best)
    ensures var w' := ScanDict(x, s, d, i, depth, true, w); FirstBest(x, s, d, depth, w'.move, w'.best)
    decreases |d| - i
  {
    if i < |d| {
      ScanListRoot(x, s, d, i, 0, depth, w);
      var w1 := ScanList(x, s, d[i].0, d[i].1, 0, depth, true, w);
      if !Cut(w1) {
        ScanDictRoot(x, s, d, i + 1, depth, w1);
      }
    }
  }

  /** bot_move's search: from (-inf, inf) the maximizing root returns the
      minimax value; it returns no move exactly when that value is -inf
      (or at a leaf); and the move it returns is the first option, in
      move_dict order, whose child has that minimax value, so every
      earlier option is strictly worse and later ties lose. */
  lemma RootChoice(x: Game, s: State, depth: nat)
    requires depth > 0 && !x.over
    ensures var r := AlphaBeta(x, s, depth, NegInf, PosInf, true);
      && r.0 == Minimax(x, s, depth, true)
      && (r.1.None? <==> r.0 == NegInf)
      && (r.1.Some? ==> Minimax(x, x.play(s, r.1.value), depth - 1, false) == r.0)
      && FirstBest(x, s, x.options(s, true), depth, r.1, r.0)
  {
    var d := x.options(s, true);
    var w0 := Window(NegInf, PosInf, NegInf, None);
    RootValue(x, s, depth, true);
    AlphaBetaMove(x, s, depth, NegInf, PosInf, true);
    ScanDictRoot(x, s, d, 0, depth, w0);
  }

  /** What a turn plays: nothing when the game is over, at depth 0 or when
      every line loses outright; otherwise an option of the root whose
      position has, one ply down, the root's minimax value. */
  lemma TurnSpec(x: Game, s: State, depth: nat)
    ensures var t := Turn(x, s, depth);
      && (x.over || depth == 0 || Minimax(x, s, depth, true) == NegInf ==> t == s)
      && (!x.over && depth > 0 && Minimax(x, s, depth, true) != NegInf ==>
            exists a :: Offers(x.options(s, true), a) && t == x.play(s, a)
              && Minimax(x, t, depth - 1, false) == Minimax(x, s, depth, true))
  {
    var r := AlphaBeta(x, s, depth, NegInf, PosInf, true);
    AlphaBetaMove(x, s, depth, NegInf, PosInf, true);
    if !x.over && depth > 0 {
      RootChoice(x, s, depth);
      if r.1.Some? {
        var a := r.1.value;
        assert Offers(x.options(s, true), a) && Turn(x, s, depth) == x.play(s, a);
      }
    }
  }
}
