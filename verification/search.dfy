/** Depth-limited minimax with alpha-beta pruning, the unpruned minimax it must agree with, and the computer
    player's root call on the Reversi rules. */
module Search {
  import opened Grid
  import opened Rules

  datatype Option<T> = None | Some(value: T)

  /** Stands in for the engine's infinite bounds: beyond every evaluation, which lies in [-64, 64]. */
  const Infinity: int := 100

  /** The four engine methods the search calls, as values: whether the game is over, the legal moves of a
      side, the board after a side plays a move (on a copy), and the evaluation from the computer's side. */
  datatype Game = Game(over: Board -> bool, moves: (Board, Side) -> seq<Pos>, play: (Board, Side, Pos) -> Board,
                       score: Board -> int)

  /** Every evaluation lies in [-64, 64], strictly inside the sentinel bounds. */
  ghost predicate Bounded(g: Game) {
    forall b: Board :: -64 <= g.score(b) <= 64
  }

  /** The Reversi rules as the search uses them. */
  const Reversi: Game := Game(IsGameOver, ValidMoves, (b: Board, p: Side, m: Pos) => MakeMove(b, p, m.0, m.1).1, Evaluate)

  /** The Reversi evaluation keeps every score inside the sentinel bounds. */
  lemma ReversiBounded()
    ensures Bounded(Reversi)
  {
  }

  /** The side to move: O (the computer) on maximizing plies, X on minimizing ones. */
  function SideToMove(maximizing: bool): (r: Side)
    ensures r == O <==> maximizing
  {
    if maximizing then O else X
  }

  /** Turning the ply over hands the move to the opponent, as the pass does. */
  lemma PassHandsOver(maximizing: bool)
    ensures SideToMove(!maximizing) == Opponent(SideToMove(maximizing))
  {
  }

  /** The starting value of the running best score: the worst score for the side to move. */
  function WorstScore(maximizing: bool): int {
    if maximizing then -Infinity else Infinity
  }

  /** The score strictly improves on the running best for the side to move. */
  predicate Improves(maximizing: bool, score: int, best: int) {
    if maximizing then score > best else score < best
  }

  function Max(a: int, b: int): int {
    if a >= b then a else b
  }

  function Min(a: int, b: int): int {
    if a <= b then a else b
  }

  /** The state the move loop may start an iteration in: either nothing chosen yet and the initial best,
      or a chosen move from the list with a real evaluation. */
  predicate LoopState(maximizing: bool, moves: seq<Pos>, best: int, bestMove: Option<Pos>) {
    && (bestMove.None? ==> best == WorstScore(maximizing))
    && (bestMove.Some? ==> -64 <= best <= 64 && bestMove.value in moves)
  }

  // ---------------------------------------------------------------------------
  // The engine's search, with alpha-beta pruning

  /** The engine's `minimax`: the score of b searched `depth` plies deep and the move that reaches it. */
  function Minimax(g: Game, b: Board, depth: nat, maximizing: bool, alpha: int, beta: int): (r: (int, Option<Pos>))
    requires Bounded(g)
    ensures -64 <= r.0 <= 64
    ensures depth == 0 || g.over(b) ==> r == (g.score(b), None)
    ensures r.1.Some? <==> depth > 0 && !g.over(b) && |g.moves(b, SideToMove(maximizing))| > 0
    ensures r.1.Some? ==> r.1.value in g.moves(b, SideToMove(maximizing))
    decreases depth, 1
  {
    if depth == 0 || g.over(b) then (g.score(b), None)
    else
      var moves := g.moves(b, SideToMove(maximizing));
      if |moves| == 0 then (Minimax(g, b, depth - 1, !maximizing, alpha, beta).0, None)
      else SearchMoves(g, b, depth, maximizing, moves, 0, WorstScore(maximizing), None, alpha, beta)
  }

  /** The engine's loop over moves[i..]: play each move on a copy, score it one ply deeper, keep the first
      strict improvement, narrow the window, and stop once beta <= alpha. */
  function SearchMoves(g: Game, b: Board, depth: nat, maximizing: bool, moves: seq<Pos>, i: nat,
                       best: int, bestMove: Option<Pos>, alpha: int, beta: int): (r: (int, Option<Pos>))
    requires Bounded(g) && depth >= 1 && i <= |moves| && LoopState(maximizing, moves, best, bestMove)
    ensures LoopState(maximizing, moves, r.0, r.1)
    ensures i < |moves| ==> r.1.Some?
    ensures r.1.None? ==> r.0 == best
    decreases depth, 0, |moves| - i
  {
    if i == |moves| then (best, bestMove)
    else
      var child := g.play(b, SideToMove(maximizing), moves[i]);
      var score := Minimax(g, child, depth - 1, !maximizing, alpha, beta).0;
      var improves := Improves(maximizing, score, best);
      var best' := if improves then score else best;
      var bestMove' := if improves then Some(moves[i]) else bestMove;
      var alpha' := if maximizing then Max(alpha, score) else alpha;
      var beta' := if maximizing then beta else Min(beta, score);
      if beta' <= alpha' then (best', bestMove')
      else SearchMoves(g, b, depth, maximizing, moves, i + 1, best', bestMove', alpha', beta')
  }

  // ---------------------------------------------------------------------------
  // The same search without pruning

  /** Plain minimax over the same moves in the same order, with the same tie-breaking and no cut-offs. */
  function PlainMinimax(g: Game, b: Board, depth: nat, maximizing: bool): (r: (int, Option<Pos>))
    requires Bounded(g)
    ensures -64 <= r.0 <= 64
    ensures r.1.Some? <==> depth > 0 && !g.over(b) && |g.moves(b, SideToMove(maximizing))| > 0
    ensures r.1.Some? ==> r.1.value in g.moves(b, SideToMove(maximizing))
    decreases depth, 2
  {
    if depth == 0 || g.over(b) then (g.score(b), None)
    else
      var moves := g.moves(b, SideToMove(maximizing));
      if |moves| == 0 then (PlainMinimax(g, b, depth - 1, !maximizing).0, None)
      else PlainMoves(g, b, depth, maximizing, moves, 0, WorstScore(maximizing), None)
  }

  /** The unpruned score of playing m for the side to move. */
  function ChildScore(g: Game, b: Board, depth: nat, maximizing: bool, m: Pos): (r: int)
    requires Bounded(g) && depth >= 1
    ensures -64 <= r <= 64
    decreases depth, 0
  {
    PlainMinimax(g, g.play(b, SideToMove(maximizing), m), depth - 1, !maximizing).0
  }

  /** The unpruned loop over moves[i..]. */
  function PlainMoves(g: Game, b: Board, depth: nat, maximizing: bool, moves: seq<Pos>, i: nat,
                      best: int, bestMove: Option<Pos>): (r: (int, Option<Pos>))
    requires Bounded(g) && depth >= 1 && i <= |moves| && LoopState(maximizing, moves, best, bestMove)
    ensures LoopState(maximizing, moves, r.0, r.1)
    ensures i < |moves| ==> r.1.Some?
    ensures r.1.None? ==> r.0 == best
    ensures if maximizing then r.0 >= best else r.0 <= best
    decreases depth, 1, |moves| - i
  {
    if i == |moves| then (best, bestMove)
    else
      var score := ChildScore(g, b, depth, maximizing, moves[i]);
      var improves := Improves(maximizing, score, best);
      PlainMoves(g, b, depth, maximizing, moves, i + 1,
                 if improves then score else best,
                 if improves then Some(moves[i]) else bestMove)
  }

  // ---------------------------------------------------------------------------
  // Pruning does not change the score

  /** The fail-soft alpha-beta guarantee relating a pruned score v to the true score t for the window
      (alpha, beta): a score at or below alpha bounds t from above, one at or above beta bounds it from
      below, and one strictly inside the window is exact. */
  predicate FailSoft(v: int, t: int, alpha: int, beta: int) {
    && (v <= alpha ==> t <= v)
    && (v >= beta ==> v <= t)
    && (alpha < v < beta ==> v == t)
  }

  /** What the move loop keeps true between the pruned running best and window and the plain running best,
      for a node entered with the window (alpha0, beta0). */
  predicate WindowInvariant(maximizing: bool, best: int, alpha: int, beta: int, plainBest: int, alpha0: int, beta0: int) {
    if maximizing then
      beta == beta0 && alpha == Max(alpha0, best) && best < beta0 && plainBest <= best && (best > alpha0 ==> best == plainBest)
    else
      alpha == alpha0 && beta == Min(beta0, best) && best > alpha0 && plainBest >= best && (best < beta0 ==> best == plainBest)
  }

  /** Alpha-beta search is sound for every window inside the extended score range. */
  lemma {:induction false} MinimaxFailSoft(g: Game, b: Board, depth: nat, maximizing: bool, alpha: int, beta: int)
    requires Bounded(g) && -Infinity <= alpha < beta <= Infinity
    ensures FailSoft(Minimax(g, b, depth, maximizing, alpha, beta).0, PlainMinimax(g, b, depth, maximizing).0, alpha, beta)
    decreases depth, 1
  {
    if depth > 0 && !g.over(b) {
      var moves := g.moves(b, SideToMove(maximizing));
      if |moves| == 0 {
        MinimaxFailSoft(g, b, depth - 1, !maximizing, alpha, beta);
      } else {
        var w := WorstScore(maximizing);
        SearchMovesFailSoft(g, b, depth, maximizing, moves, 0, w, None, alpha, beta, w, None, alpha, beta);
      }
    }
  }

  /** The pruned move loop is sound against the plain one, from any state satisfying the window invariant. */
  lemma {:induction false} SearchMovesFailSoft(g: Game, b: Board, depth: nat, maximizing: bool, moves: seq<Pos>, i: nat,
                                               best: int, bestMove: Option<Pos>, alpha: int, beta: int,
                                               plainBest: int, plainMove: Option<Pos>, alpha0: int, beta0: int)
    requires Bounded(g) && depth >= 1 && i <= |moves|
    requires LoopState(maximizing, moves, best, bestMove) && LoopState(maximizing, moves, plainBest, plainMove)
    requires -Infinity <= alpha0 < beta0 <= Infinity
    requires WindowInvariant(maximizing, best, alpha, beta, plainBest, alpha0, beta0)
    ensures FailSoft(SearchMoves(g, b, depth, maximizing, moves, i, best, bestMove, alpha, beta).0,
                     PlainMoves(g, b, depth, maximizing, moves, i, plainBest, plainMove).0, alpha0, beta0)
    decreases depth, 0, |moves| - i
  {
    if i < |moves| {
      var child := g.play(b, SideToMove(maximizing), moves[i]);
      var v := Minimax(g, child, depth - 1, !maximizing, alpha, beta).0;
      var t := ChildScore(g, b, depth, maximizing, moves[i]);
      MinimaxFailSoft(g, child, depth - 1, !maximizing, alpha, beta);
      var improves := Improves(maximizing, v, best);
      var best' := if improves then v else best;
      var bestMove' := if improves then Some(moves[i]) else bestMove;
      var alpha' := if maximizing then Max(alpha, v) else alpha;
      var beta' := if maximizing then beta else Min(beta, v);
      var plainImproves := Improves(maximizing, t, plainBest);
      var plainBest' := if plainImproves then t else plainBest;
      var plainMove' := if plainImproves then Some(moves[i]) else plainMove;
      assert PlainMoves(g, b, depth, maximizing, moves, i, plainBest, plainMove)
          == PlainMoves(g, b, depth, maximizing, moves, i + 1, plainBest', plainMove');
      if beta' <= alpha' {
        assert SearchMoves(g, b, depth, maximizing, moves, i, best, bestMove, alpha, beta) == (best', bestMove');
      } else {
        assert SearchMoves(g, b, depth, maximizing, moves, i, best, bestMove, alpha, beta)
            == SearchMoves(g, b, depth, maximizing, moves, i + 1, best', bestMove', alpha', beta');
        SearchMovesFailSoft(g, b, depth, maximizing, moves, i + 1, best', bestMove', alpha', beta',
                            plainBest', plainMove', alpha0, beta0);
      }
    }
  }

  /** With the root window (-Infinity, Infinity) the pruned search returns exactly what plain minimax
      returns: the same score and the same move. */
  lemma RootSearchMatchesPlain(g: Game, b: Board, depth: nat, maximizing: bool)
    requires Bounded(g)
    ensures Minimax(g, b, depth, maximizing, -Infinity, Infinity) == PlainMinimax(g, b, depth, maximizing)
  {
    if depth > 0 && !g.over(b) {
      var moves := g.moves(b, SideToMove(maximizing));
      if |moves| == 0 {
        MinimaxFailSoft(g, b, depth - 1, !maximizing, -Infinity, Infinity);
      } else {
        RootMovesMatch(g, b, depth, maximizing, moves, 0, WorstScore(maximizing), None);
      }
    }
  }

  /** At the root the window is (best so far, Infinity) for the maximizer and (-Infinity, best so far) for the
      minimizer, so no move is cut off and each child's pruned score is exact whenever it matters. */
  lemma {:induction false} RootMovesMatch(g: Game, b: Board, depth: nat, maximizing: bool, moves: seq<Pos>, i: nat,
                                          best: int, bestMove: Option<Pos>)
    requires Bounded(g) && depth >= 1 && i <= |moves| && LoopState(maximizing, moves, best, bestMove)
    ensures SearchMoves(g, b, depth, maximizing, moves, i, best, bestMove,
                        if maximizing then best else -Infinity, if maximizing then Infinity else best)
         == PlainMoves(g, b, depth, maximizing, moves, i, best, bestMove)
    decreases |moves| - i
  {
    if i < |moves| {
      var alpha := if maximizing then best else -Infinity;
      var beta := if maximizing then Infinity else best;
      var child := g.play(b, SideToMove(maximizing), moves[i]);
      var v := Minimax(g, child, depth - 1, !maximizing, alpha, beta).0;
      MinimaxFailSoft(g, child, depth - 1, !maximizing, alpha, beta);
      var improves := Improves(maximizing, v, best);
      var best' := if improves then v else best;
      var bestMove' := if improves then Some(moves[i]) else bestMove;
      assert PlainMoves(g, b, depth, maximizing, moves, i, best, bestMove)
          == PlainMoves(g, b, depth, maximizing, moves, i + 1, best', bestMove');
      RootMovesMatch(g, b, depth, maximizing, moves, i + 1, best', bestMove');
    }
  }

  // ---------------------------------------------------------------------------
  // Which move is chosen

  /** move is moves[k] for the first k whose unpruned score equals score, and no move of moves[..n] beats score. */
  ghost predicate FirstOptimal(g: Game, b: Board, depth: nat, maximizing: bool, moves: seq<Pos>, n: nat, score: int,
                               move: Option<Pos>)
    requires Bounded(g) && depth >= 1 && n <= |moves|
  {
    && (forall j :: 0 <= j < n ==> !Improves(maximizing, ChildScore(g, b, depth, maximizing, moves[j]), score))
    && exists k :: 0 <= k < n && move == Some(moves[k]) && ChildScore(g, b, depth, maximizing, moves[k]) == score
         && forall j :: 0 <= j < k ==> ChildScore(g, b, depth, maximizing, moves[j]) != score
  }

  /** A move that strictly improves on every earlier one becomes the first optimal move of the longer prefix. */
  lemma FirstOptimalImproved(g: Game, b: Board, depth: nat, maximizing: bool, moves: seq<Pos>, i: nat,
                             best: int, bestMove: Option<Pos>)
    requires Bounded(g) && depth >= 1 && i < |moves|
    requires i == 0 || FirstOptimal(g, b, depth, maximizing, moves, i, best, bestMove)
    requires Improves(maximizing, ChildScore(g, b, depth, maximizing, moves[i]), best)
    ensures FirstOptimal(g, b, depth, maximizing, moves, i + 1, ChildScore(g, b, depth, maximizing, moves[i]), Some(moves[i]))
  {
    var t := ChildScore(g, b, depth, maximizing, moves[i]);
    forall j | 0 <= j < i
      ensures !Improves(maximizing, ChildScore(g, b, depth, maximizing, moves[j]), t)
      ensures ChildScore(g, b, depth, maximizing, moves[j]) != t
    {
      assert !Improves(maximizing, ChildScore(g, b, depth, maximizing, moves[j]), best);
    }
    assert 0 <= i < i + 1 && Some(moves[i]) == Some(moves[i]) && ChildScore(g, b, depth, maximizing, moves[i]) == t;
  }

  /** A move that does not improve leaves the first optimal move of the prefix in place. */
  lemma FirstOptimalKept(g: Game, b: Board, depth: nat, maximizing: bool, moves: seq<Pos>, i: nat,
                         best: int, bestMove: Option<Pos>)
    requires Bounded(g) && depth >= 1 && 0 < i < |moves|
    requires FirstOptimal(g, b, depth, maximizing, moves, i, best, bestMove)
    requires !Improves(maximizing, ChildScore(g, b, depth, maximizing, moves[i]), best)
    ensures FirstOptimal(g, b, depth, maximizing, moves, i + 1, best, bestMove)
  {
    var k :| 0 <= k < i && bestMove == Some(moves[k]) && ChildScore(g, b, depth, maximizing, moves[k]) == best
             && forall j :: 0 <= j < k ==> ChildScore(g, b, depth, maximizing, moves[j]) != best;
    assert 0 <= k < i + 1;
  }

  /** Strict improvement keeps the earliest of several equally good moves. */
  lemma {:induction false} PlainMovesFirstOptimal(g: Game, b: Board, depth: nat, maximizing: bool, moves: seq<Pos>, i: nat,
                                                  best: int, bestMove: Option<Pos>)
    requires Bounded(g) && depth >= 1 && i <= |moves| && LoopState(maximizing, moves, best, bestMove)
    requires i == 0 ==> best == WorstScore(maximizing) && 0 < |moves|
    requires i > 0 ==> FirstOptimal(g, b, depth, maximizing, moves, i, best, bestMove)
    ensures FirstOptimal(g, b, depth, maximizing, moves, |moves|, PlainMoves(g, b, depth, maximizing, moves, i, best, bestMove).0,
                         PlainMoves(g, b, depth, maximizing, moves, i, best, bestMove).1)
    decreases |moves| - i
  {
    if i < |moves| {
      var t := ChildScore(g, b, depth, maximizing, moves[i]);
      if Improves(maximizing, t, best) {
        FirstOptimalImproved(g, b, depth, maximizing, moves, i, best, bestMove);
        PlainMovesFirstOptimal(g, b, depth, maximizing, moves, i + 1, t, Some(moves[i]));
      } else {
        FirstOptimalKept(g, b, depth, maximizing, moves, i, best, bestMove);
        PlainMovesFirstOptimal(g, b, depth, maximizing, moves, i + 1, best, bestMove);
      }
    }
  }

  /** Unless the search stops at once or passes, its move is the first legal move, in list order, whose
      score is optimal for the side to move. */
  lemma SearchMoveIsFirstOptimal(g: Game, b: Board, depth: nat, maximizing: bool)
    requires Bounded(g) && depth > 0 && !g.over(b) && |g.moves(b, SideToMove(maximizing))| > 0
    ensures FirstOptimal(g, b, depth, maximizing, g.moves(b, SideToMove(maximizing)), |g.moves(b, SideToMove(maximizing))|,
                         Minimax(g, b, depth, maximizing, -Infinity, Infinity).0, Minimax(g, b, depth, maximizing, -Infinity, Infinity).1)
  {
    var moves := g.moves(b, SideToMove(maximizing));
    PlainMovesFirstOptimal(g, b, depth, maximizing, moves, 0, WorstScore(maximizing), None);
    RootSearchMatchesPlain(g, b, depth, maximizing);
  }

  // ---------------------------------------------------------------------------
  // The search over the Reversi rules

  /** A side with no legal move passes: when the game is not over, the other side can move, and the score is
      that of the other side's search one ply shallower in the same window, with no move reported. */
  lemma PassTurn(b: Board, depth: nat, maximizing: bool, alpha: int, beta: int)
    // Bounded(Reversi) is the precondition of Minimax; it is stated first only so the next clause is well-formed.
    ensures Bounded(Reversi)
    ensures depth > 0 && !IsGameOver(b) && |ValidMoves(b, SideToMove(maximizing))| == 0 ==>
              && |ValidMoves(b, SideToMove(!maximizing))| > 0
              && Minimax(Reversi, b, depth, maximizing, alpha, beta) == (Minimax(Reversi, b, depth - 1, !maximizing, alpha, beta).0, None)
  {
    ReversiBounded();
    if depth > 0 && !IsGameOver(b) && |ValidMoves(b, SideToMove(maximizing))| == 0 {
      NoMovesIffNoLegalCell(b, SideToMove(maximizing));
      NoMovesIffNoLegalCell(b, SideToMove(!maximizing));
    }
  }

  /** The computer player's move: a maximizing search for O with the full window. */
  function BestMove(b: Board, depth: nat): (r: Option<Pos>)
    // Bounded(Reversi) is the precondition of PlainMinimax; it is stated first only so the clauses after it are well-formed.
    ensures Bounded(Reversi)
    ensures r.None? <==> depth == 0 || IsGameOver(b) || |ValidMoves(b, O)| == 0
    ensures r.Some? ==> r.value in ValidMoves(b, O)
    ensures r.Some? ==> FirstOptimal(Reversi, b, depth, true, ValidMoves(b, O), |ValidMoves(b, O)|, PlainMinimax(Reversi, b, depth, true).0, r)
  {
    ReversiBounded();
    RootSearchMatchesPlain(Reversi, b, depth, true);
    if depth > 0 && !IsGameOver(b) && |ValidMoves(b, O)| > 0 then
      SearchMoveIsFirstOptimal(Reversi, b, depth, true);
      Minimax(Reversi, b, depth, true, -Infinity, Infinity).1
    else
      Minimax(Reversi, b, depth, true, -Infinity, Infinity).1
  }

  /** One ply deep, the root search for the maximizer picks a move whose resulting board evaluates highest,
      and its score is that evaluation. */
  lemma {:induction false} DepthOneMaximizes(g: Game, b: Board)
    requires Bounded(g) && !g.over(b) && |g.moves(b, O)| > 0
    ensures Minimax(g, b, 1, true, -Infinity, Infinity).1.Some?
    ensures Minimax(g, b, 1, true, -Infinity, Infinity).0
         == g.score(g.play(b, O, Minimax(g, b, 1, true, -Infinity, Infinity).1.value))
    ensures forall m :: m in g.moves(b, O) ==> g.score(g.play(b, O, m)) <= Minimax(g, b, 1, true, -Infinity, Infinity).0
  {
    var moves := g.moves(b, O);
    SearchMoveIsFirstOptimal(g, b, 1, true);
    var r := Minimax(g, b, 1, true, -Infinity, Infinity);
    var k :| 0 <= k < |moves| && r.1 == Some(moves[k]) && ChildScore(g, b, 1, true, moves[k]) == r.0;
    assert ChildScore(g, b, 1, true, moves[k]) == g.score(g.play(b, O, moves[k]));
    forall m | m in moves
      ensures g.score(g.play(b, O, m)) <= r.0
    {
      var j :| 0 <= j < |moves| && moves[j] == m;
      assert !Improves(true, ChildScore(g, b, 1, true, moves[j]), r.0);
      assert ChildScore(g, b, 1, true, moves[j]) == g.score(g.play(b, O, m));
    }
  }

  /** One ply deep, the computer moves exactly when it has a legal move, and then plays one that maximizes the
      evaluation of the resulting board. */
  lemma DepthOneIsGreedy(b: Board)
    ensures BestMove(b, 1).Some? <==> |ValidMoves(b, O)| > 0
    ensures BestMove(b, 1).Some? ==> forall m :: m in ValidMoves(b, O) ==>
              Evaluate(MakeMove(b, O, m.0, m.1).1) <= Evaluate(MakeMove(b, O, BestMove(b, 1).value.0, BestMove(b, 1).value.1).1)
  {
    ReversiBounded();
    var moves := ValidMoves(b, O);
    if |moves| > 0 {
      assert IsLegal(b, O, moves[0].0, moves[0].1);
      DepthOneMaximizes(Reversi, b);
      var best := BestMove(b, 1).value;
      assert Reversi.score(Reversi.play(b, O, best)) == Evaluate(MakeMove(b, O, best.0, best.1).1);
      forall m | m in moves
        ensures Evaluate(MakeMove(b, O, m.0, m.1).1) <= Evaluate(MakeMove(b, O, best.0, best.1).1)
      {
        assert Reversi.score(Reversi.play(b, O, m)) == Evaluate(MakeMove(b, O, m.0, m.1).1);
      }
    }
  }
}
