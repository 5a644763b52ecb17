/** The rules engine: legal moves, playing a move, the end of the game and the evaluation. */
module Rules {
  import opened Grid
  import opened Rays

  // ---------------------------------------------------------------------------
  // Legal moves

  /** (x, y) is a legal move for p: an empty cell from which some direction outflanks an opponent line. */
  predicate IsLegal(b: Board, p: Side, x: int, y: int) {
    OnBoard(x, y) && b[x][y] == Empty && OutflanksFrom(b, p, x, y, 0)
  }

  /** Some direction with index k or later outflanks an opponent line from (x, y). */
  predicate OutflanksFrom(b: Board, p: Side, x: int, y: int, k: nat) {
    exists j :: k <= j < |Directions| && Outflanks(b, p, x, y, Directions[j])
  }

  /** The engine's direction loop for one cell: try the directions from index k on, stopping at the first capture. */
  function AnyDirectionCaptures(b: Board, p: Side, x: int, y: int, k: nat): (r: bool)
    requires k <= |Directions|
    ensures r <==> OutflanksFrom(b, p, x, y, k)
    decreases |Directions| - k
  {
    if k == |Directions| then false
    else
      CapturesIffOutflanks(b, p, x, y, Directions[k]);
      Captures(b, p, x, y, Directions[k]) || AnyDirectionCaptures(b, p, x, y, k + 1)
  }

  /** Row-major index n names exactly one cell. */
  lemma ScanIndexOf(n: int)
    requires 0 <= n < 64
    ensures OnBoard(n / 8, n % 8) && ScanIndex((n / 8, n % 8)) == n
    ensures forall m: Pos :: OnBoard(m.0, m.1) && ScanIndex(m) == n ==> m == (n / 8, n % 8)
  {
  }

  /** The engine's scan over the cells with row-major index n and later. */
  function ValidMovesFrom(b: Board, p: Side, n: nat): (r: seq<Pos>)
    requires n <= 64
    ensures forall m :: m in r <==> IsLegal(b, p, m.0, m.1) && ScanIndex(m) >= n
    ensures forall k, l :: 0 <= k < l < |r| ==> ScanIndex(r[k]) < ScanIndex(r[l])
    decreases 64 - n
  {
    if n == 64 then []
    else
      var x, y := n / 8, n % 8;
      ScanIndexOf(n);
      var rest := ValidMovesFrom(b, p, n + 1);
      if b[x][y] == Empty && AnyDirectionCaptures(b, p, x, y, 0) then [(x, y)] + rest else rest
  }

  /** The legal moves of p, each once, in row-major order (the engine's `valid_moves`). */
  function ValidMoves(b: Board, p: Side): (r: seq<Pos>)
    ensures forall m :: m in r <==> IsLegal(b, p, m.0, m.1)
    ensures forall k, l :: 0 <= k < l < |r| ==> ScanIndex(r[k]) < ScanIndex(r[l])
    ensures Distinct(r)
  {
    ValidMovesFrom(b, p, 0)
  }

  // ---------------------------------------------------------------------------
  // Playing a move

  /** Flip, on the current board, the run that direction d captures from (x, y). */
  function FlipDirection(b: Board, p: Side, x: int, y: int, d: Direction): Board {
    SetAll(b, FlipRun(b, p, x, y, d), Stone(p))
  }

  /** The engine's flipping loop: directions k, k+1, ... in turn, each walking the board left by the previous ones.
      It only ever turns opponent stones into stones of p. */
  function FlipFrom(b: Board, p: Side, x: int, y: int, k: nat): (r: Board)
    requires k <= |Directions|
    ensures forall i, j :: OnBoard(i, j) ==> At(r, i, j) == At(b, i, j) || (At(b, i, j) == Stone(Opponent(p)) && At(r, i, j) == Stone(p))
    decreases |Directions| - k
  {
    if k == |Directions| then b
    else FlipFrom(FlipDirection(b, p, x, y, Directions[k]), p, x, y, k + 1)
  }

  /** The engine's `make_move`: an illegal move is refused and changes nothing; a legal one places the stone and flips. */
  function MakeMove(b: Board, p: Side, x: int, y: int): (r: (bool, Board))
    ensures r.0 <==> IsLegal(b, p, x, y)
    ensures !r.0 ==> r.1 == b
    ensures r.0 ==> forall i, j :: OnBoard(i, j) ==>
              At(r.1, i, j) == if (i, j) == (x, y) || Flipped(b, p, x, y, i, j) then Stone(p) else At(b, i, j)
  {
    if (x, y) !in ValidMoves(b, p) then (false, b)
    else
      FlippingStarts(b, p, x, y);
      FlipFromCells(b, p, x, y, 0, Set(b, x, y, Stone(p)));
      (true, FlipFrom(Set(b, x, y, Stone(p)), p, x, y, 0))
  }

  /** (i, j) lies on the run that one of the first k directions captures, judged on board b. */
  ghost predicate FlippedBy(b: Board, p: Side, x: int, y: int, k: nat, i: int, j: int)
    requires k <= |Directions|
  {
    exists l :: 0 <= l < k && (i, j) in FlipRun(b, p, x, y, Directions[l])
  }

  /** (i, j) is captured by playing p on (x, y): it lies on an opponent run that ends on a stone of p. */
  ghost predicate Flipped(b: Board, p: Side, x: int, y: int, i: int, j: int) {
    FlippedBy(b, p, x, y, |Directions|, i, j)
  }

  /** Number of stones directions k, k+1, ... capture, each judged on board b. */
  function FlipTotal(b: Board, p: Side, x: int, y: int, k: nat): nat
    requires k <= |Directions|
    decreases |Directions| - k
  {
    if k == |Directions| then 0 else |FlipRun(b, p, x, y, Directions[k])| + FlipTotal(b, p, x, y, k + 1)
  }

  /** The total over directions k, k+1, ... includes every capture of those directions. */
  lemma {:induction false} FlipTotalCovers(b: Board, p: Side, x: int, y: int, k: nat, l: nat)
    requires k <= l < |Directions|
    ensures FlipTotal(b, p, x, y, k) >= |FlipRun(b, p, x, y, Directions[l])|
    decreases l - k
  {
    if k < l {
      FlipTotalCovers(b, p, x, y, k + 1, l);
    }
  }

  /** The cells a capture in direction d flips lie on the ray out of (x, y) in direction d. */
  lemma FlipRunOnRay(b: Board, p: Side, x: int, y: int, d: Direction)
    ensures forall k :: 0 <= k < |FlipRun(b, p, x, y, d)| ==> OnRay(x, y, d, FlipRun(b, p, x, y, d)[k].0, FlipRun(b, p, x, y, d)[k].1)
  {
    RunOnRay(b, x, y, d, x + d.0, y + d.1, Stone(Opponent(p)));
  }

  /** The board the flipping loop holds when it reaches direction k: b0 plus p on (x, y) plus the captures
      of the first k directions, all judged on b0. */
  ghost predicate FlippedSoFar(b0: Board, p: Side, x: int, y: int, k: nat, b: Board)
    requires k <= |Directions|
  {
    forall i, j :: OnBoard(i, j) ==>
      At(b, i, j) == if (i, j) == (x, y) || FlippedBy(b0, p, x, y, k, i, j) then Stone(p) else At(b0, i, j)
  }

  /** Earlier directions never touch the ray of direction k, so that ray still reads as on b0. */
  lemma LaterRayUntouched(b0: Board, p: Side, x: int, y: int, k: nat, b: Board)
    requires k < |Directions| && FlippedSoFar(b0, p, x, y, k, b)
    ensures forall i, j :: OnBoard(i, j) && OnRay(x, y, Directions[k], i, j) ==> b[i][j] == b0[i][j]
  {
    var d := Directions[k];
    DirectionsComplete();
    forall i, j | OnBoard(i, j) && OnRay(x, y, d, i, j)
      ensures b[i][j] == b0[i][j]
    {
      assert At(b, i, j) == b[i][j];
      forall l | 0 <= l < k
        ensures (i, j) !in FlipRun(b0, p, x, y, Directions[l])
      {
        FlipRunOnRay(b0, p, x, y, Directions[l]);
        if (i, j) in FlipRun(b0, p, x, y, Directions[l]) {
          RaysDisjoint(x, y, Directions[l], d, i, j);
        }
      }
    }
  }

  /** One pass of the loop flips exactly the run direction k captures on b0. */
  lemma FlipStep(b0: Board, p: Side, x: int, y: int, k: nat, b: Board)
    requires k < |Directions| && FlippedSoFar(b0, p, x, y, k, b)
    ensures FlipDirection(b, p, x, y, Directions[k]) == SetAll(b, FlipRun(b0, p, x, y, Directions[k]), Stone(p))
    ensures forall m :: 0 <= m < |FlipRun(b0, p, x, y, Directions[k])| ==>
              b[FlipRun(b0, p, x, y, Directions[k])[m].0][FlipRun(b0, p, x, y, Directions[k])[m].1] == Stone(Opponent(p))
    ensures FlippedSoFar(b0, p, x, y, k + 1, FlipDirection(b, p, x, y, Directions[k]))
  {
    var d := Directions[k];
    LaterRayUntouched(b0, p, x, y, k, b);
    FlipRunAgrees(b, b0, p, x, y, d);
    var run := FlipRun(b0, p, x, y, d);
    FlipRunOnRay(b0, p, x, y, d);
    var b' := SetAll(b, run, Stone(p));
    forall i, j | OnBoard(i, j)
      ensures At(b', i, j) == if (i, j) == (x, y) || FlippedBy(b0, p, x, y, k + 1, i, j) then Stone(p) else At(b0, i, j)
    {
      assert At(b, i, j) == b[i][j];
      if (i, j) in run {
        assert FlippedBy(b0, p, x, y, k + 1, i, j);
      } else if FlippedBy(b0, p, x, y, k + 1, i, j) {
        var l :| 0 <= l < k + 1 && (i, j) in FlipRun(b0, p, x, y, Directions[l]);
        assert FlippedBy(b0, p, x, y, k, i, j);
      }
    }
  }

  /** One pass of the loop moves exactly the stones of the run direction k captures from the opponent to p. */
  lemma FlipStepCounts(b0: Board, p: Side, x: int, y: int, k: nat, b: Board)
    requires k < |Directions| && FlippedSoFar(b0, p, x, y, k, b)
    ensures Count(FlipDirection(b, p, x, y, Directions[k]), Stone(p)) == Count(b, Stone(p)) + |FlipRun(b0, p, x, y, Directions[k])|
    ensures Count(FlipDirection(b, p, x, y, Directions[k]), Stone(Opponent(p)))
         == Count(b, Stone(Opponent(p))) - |FlipRun(b0, p, x, y, Directions[k])|
    ensures Count(FlipDirection(b, p, x, y, Directions[k]), Empty) == Count(b, Empty)
    ensures FlippedSoFar(b0, p, x, y, k + 1, FlipDirection(b, p, x, y, Directions[k]))
  {
    var run := FlipRun(b0, p, x, y, Directions[k]);
    FlipStep(b0, p, x, y, k, b);
    CountSetAll(b, run, Stone(Opponent(p)), Stone(p), Stone(p));
    CountSetAll(b, run, Stone(Opponent(p)), Stone(p), Stone(Opponent(p)));
    CountSetAll(b, run, Stone(Opponent(p)), Stone(p), Empty);
  }

  /** Directions are independent: run from the board reached at direction k, the loop ends on b0 plus p on
      (x, y) plus every capture judged on b0. */
  lemma {:induction false} FlipFromCells(b0: Board, p: Side, x: int, y: int, k: nat, b: Board)
    requires k <= |Directions| && FlippedSoFar(b0, p, x, y, k, b)
    ensures FlippedSoFar(b0, p, x, y, |Directions|, FlipFrom(b, p, x, y, k))
    decreases |Directions| - k
  {
    if k < |Directions| {
      FlipStep(b0, p, x, y, k, b);
      FlipFromCells(b0, p, x, y, k + 1, FlipDirection(b, p, x, y, Directions[k]));
    }
  }

  /** From the board reached at direction k, the loop gives p exactly the remaining captured stones. */
  lemma {:induction false} FlipFromGains(b0: Board, p: Side, x: int, y: int, k: nat, b: Board)
    requires k <= |Directions| && FlippedSoFar(b0, p, x, y, k, b)
    ensures Count(FlipFrom(b, p, x, y, k), Stone(p))
         == Count(b, Stone(p)) + FlipTotal(b0, p, x, y, k)
    decreases |Directions| - k
  {
    if k < |Directions| {
      var b' := FlipDirection(b, p, x, y, Directions[k]);
      FlipStepCounts(b0, p, x, y, k, b);
      FlipFromGains(b0, p, x, y, k + 1, b');
      assert FlipFrom(b, p, x, y, k) == FlipFrom(b', p, x, y, k + 1);
    }
  }

  /** From the board reached at direction k, the loop takes exactly the remaining captured stones from the opponent. */
  lemma {:induction false} FlipFromLosses(b0: Board, p: Side, x: int, y: int, k: nat, b: Board)
    requires k <= |Directions| && FlippedSoFar(b0, p, x, y, k, b)
    ensures Count(FlipFrom(b, p, x, y, k), Stone(Opponent(p)))
         == Count(b, Stone(Opponent(p))) - FlipTotal(b0, p, x, y, k)
    decreases |Directions| - k
  {
    if k < |Directions| {
      var b' := FlipDirection(b, p, x, y, Directions[k]);
      FlipStepCounts(b0, p, x, y, k, b);
      FlipFromLosses(b0, p, x, y, k + 1, b');
      assert FlipFrom(b, p, x, y, k) == FlipFrom(b', p, x, y, k + 1);
    }
  }

  /** The flipping loop never fills an empty cell. */
  lemma {:induction false} FlipFromKeepsEmpty(b0: Board, p: Side, x: int, y: int, k: nat, b: Board)
    requires k <= |Directions| && FlippedSoFar(b0, p, x, y, k, b)
    ensures Count(FlipFrom(b, p, x, y, k), Empty) == Count(b, Empty)
    decreases |Directions| - k
  {
    if k < |Directions| {
      var b' := FlipDirection(b, p, x, y, Directions[k]);
      FlipStepCounts(b0, p, x, y, k, b);
      FlipFromKeepsEmpty(b0, p, x, y, k + 1, b');
    }
  }

  /** Only opponent stones are captured, and a legal move captures at least one of them. */
  lemma CapturedAreOpponents(b: Board, p: Side, x: int, y: int)
    requires IsLegal(b, p, x, y)
    ensures forall i, j :: OnBoard(i, j) && Flipped(b, p, x, y, i, j) ==> b[i][j] == Stone(Opponent(p))
    ensures exists i, j :: OnBoard(i, j) && Flipped(b, p, x, y, i, j)
  {
    forall i, j | OnBoard(i, j) && Flipped(b, p, x, y, i, j)
      ensures b[i][j] == Stone(Opponent(p))
    {
      var l :| 0 <= l < |Directions| && (i, j) in FlipRun(b, p, x, y, Directions[l]);
    }
    assert OutflanksFrom(b, p, x, y, 0);
    var k :| 0 <= k < |Directions| && Outflanks(b, p, x, y, Directions[k]);
    CapturesIffOutflanks(b, p, x, y, Directions[k]);
    var c := FlipRun(b, p, x, y, Directions[k])[0];
    assert Flipped(b, p, x, y, c.0, c.1);
  }

  /** Before the loop runs, the board is b with p placed on (x, y). */
  lemma FlippingStarts(b: Board, p: Side, x: int, y: int)
    requires OnBoard(x, y)
    ensures FlippedSoFar(b, p, x, y, 0, Set(b, x, y, Stone(p)))
  {
  }

  /** A legal move captures at least one stone. */
  lemma LegalMoveFlips(b: Board, p: Side, x: int, y: int)
    requires IsLegal(b, p, x, y)
    ensures FlipTotal(b, p, x, y, 0) >= 1
  {
    assert OutflanksFrom(b, p, x, y, 0);
    var k :| 0 <= k < |Directions| && Outflanks(b, p, x, y, Directions[k]);
    CapturesIffOutflanks(b, p, x, y, Directions[k]);
    FlipTotalCovers(b, p, x, y, 0, k);
  }

  /** A legal move flips k >= 1 stones: p gains k + 1, the opponent loses k, and one empty cell is filled. */
  lemma MakeMoveCounts(b: Board, p: Side, x: int, y: int)
    requires IsLegal(b, p, x, y)
    ensures FlipTotal(b, p, x, y, 0) >= 1
    ensures Count(MakeMove(b, p, x, y).1, Stone(p)) == Count(b, Stone(p)) + FlipTotal(b, p, x, y, 0) + 1
    ensures Count(MakeMove(b, p, x, y).1, Stone(Opponent(p))) == Count(b, Stone(Opponent(p))) - FlipTotal(b, p, x, y, 0)
    ensures Count(MakeMove(b, p, x, y).1, Empty) == Count(b, Empty) - 1
  {
    LegalMoveFlips(b, p, x, y);
    var b1 := Set(b, x, y, Stone(p));
    assert MakeMove(b, p, x, y).1 == FlipFrom(b1, p, x, y, 0);
    CountSet(b, x, y, Stone(p), Stone(p));
    CountSet(b, x, y, Stone(p), Stone(Opponent(p)));
    CountSet(b, x, y, Stone(p), Empty);
    FlippingStarts(b, p, x, y);
    FlipFromGains(b, p, x, y, 0, b1);
    FlipFromLosses(b, p, x, y, 0, b1);
    FlipFromKeepsEmpty(b, p, x, y, 0, b1);
  }

  /** Playing the same cell twice in a row fails the second time, for either side. */
  lemma RepeatedMoveFails(b: Board, p: Side, s: Side, x: int, y: int)
    requires IsLegal(b, p, x, y)
    ensures !MakeMove(MakeMove(b, p, x, y).1, s, x, y).0
  {
  }

  // ---------------------------------------------------------------------------
  // End of game and evaluation

  /** The engine's `is_game_over`: neither side has a legal move anywhere. */
  function IsGameOver(b: Board): (r: bool)
    ensures r <==> forall x, y :: !IsLegal(b, X, x, y) && !IsLegal(b, O, x, y)
  {
    NoMovesIffNoLegalCell(b, X);
    NoMovesIffNoLegalCell(b, O);
    |ValidMoves(b, X)| == 0 && |ValidMoves(b, O)| == 0
  }

  /** A side has an empty move list exactly when no cell is legal for it. */
  lemma NoMovesIffNoLegalCell(b: Board, p: Side)
    ensures |ValidMoves(b, p)| == 0 <==> forall x, y :: !IsLegal(b, p, x, y)
  {
    var ms := ValidMoves(b, p);
    if |ms| > 0 {
      assert ms[0] in ms;
      assert IsLegal(b, p, ms[0].0, ms[0].1);
    } else {
      forall x, y
        ensures !IsLegal(b, p, x, y)
      {
        assert (x, y) !in ms;
      }
    }
  }

  /** The engine's `evaluate`: O's stones minus X's stones, from the computer's point of view. */
  function Evaluate(b: Board): (r: int)
    ensures -64 <= r <= 64
    ensures r > 0 <==> Count(b, Stone(O)) > Count(b, Stone(X))
    ensures r + 2 * Count(b, Stone(X)) + Count(b, Empty) == 64
  {
    CountPartition(b);
    Count(b, Stone(O)) - Count(b, Stone(X))
  }

  /** The evaluation is O's stone count minus X's stone count. */
  lemma EvaluateIsDifference(b: Board)
    ensures Evaluate(b) == Count(b, Stone(O)) - Count(b, Stone(X))
  {
    CountPartition(b);
  }

  /** The opening position is level. */
  lemma InitialEvaluation()
    ensures Evaluate(InitialBoard()) == 0
  {
    InitialCounts();
  }
}
