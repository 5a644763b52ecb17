/** Walking from a cell along one of the eight compass directions. */
module Rays {
  import opened Grid

  predicate IsStep(dx: int, dy: int) {
    -1 <= dx <= 1 && -1 <= dy <= 1 && (dx != 0 || dy != 0)
  }

  /** A unit step (dx, dy) with dx, dy in {-1, 0, 1}, not both zero. */
  type Direction = d: (int, int) | IsStep(d.0, d.1) witness (0, 1)

  /** The eight directions, in the order the engine tries them. */
  const Directions: seq<Direction> := [(-1, -1), (-1, 0), (-1, 1), (0, -1), (0, 1), (1, -1), (1, 0), (1, 1)]

  /** The list holds every unit step exactly once. */
  lemma DirectionsComplete()
    ensures |Directions| == 8
    ensures forall dx, dy :: IsStep(dx, dy) ==> (dx, dy) in Directions
    ensures forall k, l :: 0 <= k < l < |Directions| ==> Directions[k] != Directions[l]
  {
  }

  /** How many more steps in direction d stay on the board from an on-board (nx, ny); the walks' termination measure. */
  function StepsLeft(nx: int, ny: int, d: Direction): int {
    if d.0 == 1 then 8 - nx
    else if d.0 == -1 then nx + 1
    else if d.1 == 1 then 8 - ny
    else ny + 1
  }

  /** Contents of the cells from (nx, ny) onward in direction d, up to the edge of the board. */
  function Ray(b: Board, nx: int, ny: int, d: Direction): seq<Cell>
    decreases StepsLeft(nx, ny, d)
  {
    if OnBoard(nx, ny) then [b[nx][ny]] + Ray(b, nx + d.0, ny + d.1, d) else []
  }

  /** The cells the engine's walk steps over: the contiguous run of q-cells starting at (nx, ny). */
  function Run(b: Board, nx: int, ny: int, d: Direction, q: Cell): (r: seq<Pos>)
    ensures forall k :: 0 <= k < |r| ==> OnBoard(r[k].0, r[k].1) && b[r[k].0][r[k].1] == q
    decreases StepsLeft(nx, ny, d)
  {
    if OnBoard(nx, ny) && b[nx][ny] == q then [(nx, ny)] + Run(b, nx + d.0, ny + d.1, d, q) else []
  }

  /** One more step of s after k - 1 steps from v + s lands k steps of s from v. */
  lemma StepOffset(v: int, s: int, k: nat)
    requires k >= 1
    ensures (v + s) + (k - 1) * s == v + k * s
  {
  }

  /** The straight line of n cells from (nx, ny) along d. */
  function Line(nx: int, ny: int, d: Direction, n: nat): seq<Pos>
    decreases n
  {
    if n == 0 then [] else [(nx, ny)] + Line(nx + d.0, ny + d.1, d, n - 1)
  }

  lemma {:induction false} LineAt(nx: int, ny: int, d: Direction, n: nat, k: nat)
    requires k < n
    ensures |Line(nx, ny, d, n)| == n
    ensures Line(nx, ny, d, n)[k] == (nx + k * d.0, ny + k * d.1)
    decreases n
  {
    var rest := Line(nx + d.0, ny + d.1, d, n - 1);
    assert Line(nx, ny, d, n) == [(nx, ny)] + rest;
    if k > 0 {
      LineAt(nx + d.0, ny + d.1, d, n - 1, k - 1);
      assert Line(nx, ny, d, n)[k] == rest[k - 1];
      StepOffset(nx, d.0, k);
      StepOffset(ny, d.1, k);
    } else if n > 1 {
      LineAt(nx + d.0, ny + d.1, d, n - 1, 0);
    } else {
      assert rest == [];
    }
  }

  /** The walk covers a straight line along d. */
  lemma {:induction false} RunIsLine(b: Board, nx: int, ny: int, d: Direction, q: Cell)
    ensures Run(b, nx, ny, d, q) == Line(nx, ny, d, |Run(b, nx, ny, d, q)|)
    decreases StepsLeft(nx, ny, d)
  {
    if OnBoard(nx, ny) && b[nx][ny] == q {
      RunIsLine(b, nx + d.0, ny + d.1, d, q);
    }
  }

  /** The walk visits the cells in order along d: its k-th cell lies k steps from (nx, ny). */
  lemma RunAt(b: Board, nx: int, ny: int, d: Direction, q: Cell, k: nat)
    requires k < |Run(b, nx, ny, d, q)|
    ensures Run(b, nx, ny, d, q)[k] == (nx + k * d.0, ny + k * d.1)
  {
    RunIsLine(b, nx, ny, d, q);
    LineAt(nx, ny, d, |Run(b, nx, ny, d, q)|, k);
  }

  /** Where that walk stops: the first cell that is off the board or does not hold q. */
  function RunEnd(b: Board, nx: int, ny: int, d: Direction, q: Cell): (e: Pos)
    ensures OnBoard(e.0, e.1) ==> b[e.0][e.1] != q
    decreases StepsLeft(nx, ny, d)
  {
    if OnBoard(nx, ny) && b[nx][ny] == q then RunEnd(b, nx + d.0, ny + d.1, d, q) else (nx, ny)
  }

  /** A run visits each cell at most once. */
  lemma RunDistinct(b: Board, nx: int, ny: int, d: Direction, q: Cell)
    ensures Distinct(Run(b, nx, ny, d, q))
  {
    var r := Run(b, nx, ny, d, q);
    forall k, l | 0 <= k < l < |r|
      ensures r[k] != r[l]
    {
      RunAt(b, nx, ny, d, q, k);
      RunAt(b, nx, ny, d, q, l);
      StepsDiffer(k, l, d);
    }
  }

  /** Different numbers of steps along a direction end on different cells. */
  lemma StepsDiffer(k: nat, l: nat, d: Direction)
    requires k < l
    ensures k * d.0 != l * d.0 || k * d.1 != l * d.1
  {
    if d.0 == 1 || d.0 == -1 {
      assert l * d.0 - k * d.0 == (l - k) * d.0;
    } else {
      assert l * d.1 - k * d.1 == (l - k) * d.1;
    }
  }

  /** The walk stops on the board exactly when the ray goes on past the run, and then stops on the ray's next cell. */
  lemma {:induction false} RunMatchesRay(b: Board, nx: int, ny: int, d: Direction, q: Cell)
    ensures |Run(b, nx, ny, d, q)| < |Ray(b, nx, ny, d)| <==> OnBoard(RunEnd(b, nx, ny, d, q).0, RunEnd(b, nx, ny, d, q).1)
    ensures |Run(b, nx, ny, d, q)| < |Ray(b, nx, ny, d)| ==>
              Ray(b, nx, ny, d)[|Run(b, nx, ny, d, q)|] == b[RunEnd(b, nx, ny, d, q).0][RunEnd(b, nx, ny, d, q).1]
    decreases StepsLeft(nx, ny, d)
  {
    if OnBoard(nx, ny) && b[nx][ny] == q {
      var nx', ny' := nx + d.0, ny + d.1;
      RunMatchesRay(b, nx', ny', d, q);
      var run', ray' := Run(b, nx', ny', d, q), Ray(b, nx', ny', d);
      assert Run(b, nx, ny, d, q) == [(nx, ny)] + run';
      assert Ray(b, nx, ny, d) == [q] + ray';
      assert RunEnd(b, nx, ny, d, q) == RunEnd(b, nx', ny', d, q);
    } else if OnBoard(nx, ny) {
      assert Run(b, nx, ny, d, q) == [];
      assert RunEnd(b, nx, ny, d, q) == (nx, ny);
      assert Ray(b, nx, ny, d)[0] == b[nx][ny];
    } else {
      assert Run(b, nx, ny, d, q) == [];
      assert Ray(b, nx, ny, d) == [];
      assert RunEnd(b, nx, ny, d, q) == (nx, ny);
    }
  }

  /** Every cell the walk steps over reads q on the ray. */
  lemma {:induction false} RunPrefixOfRay(b: Board, nx: int, ny: int, d: Direction, q: Cell)
    ensures |Run(b, nx, ny, d, q)| <= |Ray(b, nx, ny, d)|
    ensures forall i :: 0 <= i < |Run(b, nx, ny, d, q)| ==> Ray(b, nx, ny, d)[i] == q
    decreases StepsLeft(nx, ny, d)
  {
    if OnBoard(nx, ny) && b[nx][ny] == q {
      var nx', ny' := nx + d.0, ny + d.1;
      RunPrefixOfRay(b, nx', ny', d, q);
      var run', ray' := Run(b, nx', ny', d, q), Ray(b, nx', ny', d);
      assert Run(b, nx, ny, d, q) == [(nx, ny)] + run';
      assert Ray(b, nx, ny, d) == [q] + ray';
    }
  }

  // ---------------------------------------------------------------------------
  // Capturing along one direction

  /** The ray reads one or more opponent stones followed by a stone of p. */
  predicate Brackets(ray: seq<Cell>, p: Side) {
    exists n :: 1 <= n < |ray| && ray[n] == Stone(p) && forall i :: 0 <= i < n ==> ray[i] == Stone(Opponent(p))
  }

  /** Placing p on (x, y) would outflank an opponent line in direction d. */
  predicate Outflanks(b: Board, p: Side, x: int, y: int, d: Direction) {
    Brackets(Ray(b, x + d.0, y + d.1, d), p)
  }

  /** The engine's test for direction d: step onto an opponent stone, walk over the opponent run, land on p.
      Folding the first step into the walk keeps the engine's guard that the neighbour is an opponent stone. */
  predicate Captures(b: Board, p: Side, x: int, y: int, d: Direction)
    ensures Captures(b, p, x, y, d) ==> OnBoard(x + d.0, y + d.1) && b[x + d.0][y + d.1] == Stone(Opponent(p))
    ensures Captures(b, p, x, y, d) ==> exists i, j :: OnBoard(i, j) && b[i][j] == Stone(p)
  {
    var q := Stone(Opponent(p));
    var e := RunEnd(b, x + d.0, y + d.1, d, q);
    |Run(b, x + d.0, y + d.1, d, q)| > 0 && OnBoard(e.0, e.1) && b[e.0][e.1] == Stone(p)
  }

  /** The walking test agrees with the declarative bracket condition. */
  lemma CapturesIffOutflanks(b: Board, p: Side, x: int, y: int, d: Direction)
    ensures Captures(b, p, x, y, d) <==> Outflanks(b, p, x, y, d)
  {
    var q := Stone(Opponent(p));
    var nx, ny := x + d.0, y + d.1;
    var ray := Ray(b, nx, ny, d);
    var n := |Run(b, nx, ny, d, q)|;
    RunMatchesRay(b, nx, ny, d, q);
    RunPrefixOfRay(b, nx, ny, d, q);
    if Outflanks(b, p, x, y, d) {
      var m :| 1 <= m < |ray| && ray[m] == Stone(p) && forall i :: 0 <= i < m ==> ray[i] == q;
      assert n == m;
    }
    if Captures(b, p, x, y, d) {
      assert ray[n] == Stone(p);
    }
  }

  /** The cells the engine flips in direction d: the opponent run, when it ends on a stone of p. */
  function FlipRun(b: Board, p: Side, x: int, y: int, d: Direction): (r: seq<Pos>)
    ensures forall k :: 0 <= k < |r| ==> OnBoard(r[k].0, r[k].1) && b[r[k].0][r[k].1] == Stone(Opponent(p))
    ensures Distinct(r)
    ensures |r| > 0 <==> Captures(b, p, x, y, d)
  {
    var q := Stone(Opponent(p));
    var e := RunEnd(b, x + d.0, y + d.1, d, q);
    RunDistinct(b, x + d.0, y + d.1, d, q);
    if OnBoard(e.0, e.1) && b[e.0][e.1] == Stone(p) then Run(b, x + d.0, y + d.1, d, q) else []
  }

  /** The cells flipped in direction d are the ones right next to (x, y) along d: the k-th lies k + 1 steps away. */
  lemma FlipRunAt(b: Board, p: Side, x: int, y: int, d: Direction, k: nat)
    requires k < |FlipRun(b, p, x, y, d)|
    ensures FlipRun(b, p, x, y, d)[k] == (x + (k + 1) * d.0, y + (k + 1) * d.1)
  {
    RunAt(b, x + d.0, y + d.1, d, Stone(Opponent(p)), k);
    StepOffset(x, d.0, k + 1);
    StepOffset(y, d.1, k + 1);
  }

  /** The cell reached from (nx, ny) after n steps along d, one step at a time. */
  function Advance(nx: int, ny: int, d: Direction, n: nat): Pos
    decreases n
  {
    if n == 0 then (nx, ny) else Advance(nx + d.0, ny + d.1, d, n - 1)
  }

  lemma {:induction false} AdvanceAt(nx: int, ny: int, d: Direction, n: nat)
    ensures Advance(nx, ny, d, n) == (nx + n * d.0, ny + n * d.1)
    decreases n
  {
    if n > 0 {
      AdvanceAt(nx + d.0, ny + d.1, d, n - 1);
      StepOffset(nx, d.0, n);
      StepOffset(ny, d.1, n);
    }
  }

  lemma {:induction false} RunEndAdvance(b: Board, nx: int, ny: int, d: Direction, q: Cell)
    ensures RunEnd(b, nx, ny, d, q) == Advance(nx, ny, d, |Run(b, nx, ny, d, q)|)
    decreases StepsLeft(nx, ny, d)
  {
    if OnBoard(nx, ny) && b[nx][ny] == q {
      RunEndAdvance(b, nx + d.0, ny + d.1, d, q);
    }
  }

  /** The walk stops right after its last cell: as many steps from the start as it has cells. */
  lemma RunEndAt(b: Board, nx: int, ny: int, d: Direction, q: Cell)
    ensures RunEnd(b, nx, ny, d, q) == (nx + |Run(b, nx, ny, d, q)| * d.0, ny + |Run(b, nx, ny, d, q)| * d.1)
  {
    RunEndAdvance(b, nx, ny, d, q);
    AdvanceAt(nx, ny, d, |Run(b, nx, ny, d, q)|);
  }

  /** A flipped run reaches all the way to the bracketing stone: the cell just past its last cell holds p. */
  lemma FlipRunBracketed(b: Board, p: Side, x: int, y: int, d: Direction)
    ensures var n := |FlipRun(b, p, x, y, d)|;
      n > 0 ==> OnBoard(x + (n + 1) * d.0, y + (n + 1) * d.1) && b[x + (n + 1) * d.0][y + (n + 1) * d.1] == Stone(p)
  {
    var q := Stone(Opponent(p));
    var e := RunEnd(b, x + d.0, y + d.1, d, q);
    if OnBoard(e.0, e.1) && b[e.0][e.1] == Stone(p) {
      var n := |Run(b, x + d.0, y + d.1, d, q)|;
      RunEndAdvance(b, x + d.0, y + d.1, d, q);
      assert Advance(x, y, d, n + 1) == e;
      AdvanceAt(x, y, d, n + 1);
    }
  }

  // ---------------------------------------------------------------------------
  // Geometry: rays in different directions never meet

  function Sign(v: int): int {
    if v > 0 then 1 else if v < 0 then -1 else 0
  }

  function Abs(v: int): int {
    if v < 0 then -v else v
  }

  /** (i, j) lies strictly beyond (x, y) on the line from (x, y) in direction d. */
  predicate OnRay(x: int, y: int, d: Direction, i: int, j: int) {
    (i, j) != (x, y) && Sign(i - x) == d.0 && Sign(j - y) == d.1 && (d.0 == 0 || d.1 == 0 || Abs(i - x) == Abs(j - y))
  }

  /** A cell lies on at most one of the eight rays out of (x, y), and never on (x, y) itself. */
  lemma RaysDisjoint(x: int, y: int, d1: Direction, d2: Direction, i: int, j: int)
    requires OnRay(x, y, d1, i, j) && OnRay(x, y, d2, i, j)
    ensures d1 == d2
  {
  }

  /** Every cell of a walk that starts on the ray out of (x, y) stays on that ray, and so does its end. */
  lemma {:induction false} RunOnRay(b: Board, x: int, y: int, d: Direction, nx: int, ny: int, q: Cell)
    requires OnRay(x, y, d, nx, ny)
    ensures forall k :: 0 <= k < |Run(b, nx, ny, d, q)| ==> OnRay(x, y, d, Run(b, nx, ny, d, q)[k].0, Run(b, nx, ny, d, q)[k].1)
    ensures OnRay(x, y, d, RunEnd(b, nx, ny, d, q).0, RunEnd(b, nx, ny, d, q).1)
    decreases StepsLeft(nx, ny, d)
  {
    if OnBoard(nx, ny) && b[nx][ny] == q {
      RunOnRay(b, x, y, d, nx + d.0, ny + d.1, q);
    }
  }

  /** Two boards that agree on the ray out of (x, y) give the same walk along it. */
  lemma {:induction false} RunAgrees(b1: Board, b2: Board, x: int, y: int, d: Direction, nx: int, ny: int, q: Cell)
    requires OnRay(x, y, d, nx, ny)
    requires forall i, j :: OnBoard(i, j) && OnRay(x, y, d, i, j) ==> b1[i][j] == b2[i][j]
    ensures Run(b1, nx, ny, d, q) == Run(b2, nx, ny, d, q)
    ensures RunEnd(b1, nx, ny, d, q) == RunEnd(b2, nx, ny, d, q)
    decreases StepsLeft(nx, ny, d)
  {
    if OnBoard(nx, ny) && b1[nx][ny] == q {
      RunAgrees(b1, b2, x, y, d, nx + d.0, ny + d.1, q);
    }
  }

  /** Two boards that agree on the ray out of (x, y) flip the same cells in that direction. */
  lemma FlipRunAgrees(b1: Board, b2: Board, p: Side, x: int, y: int, d: Direction)
    requires forall i, j :: OnBoard(i, j) && OnRay(x, y, d, i, j) ==> b1[i][j] == b2[i][j]
    ensures FlipRun(b1, p, x, y, d) == FlipRun(b2, p, x, y, d)
  {
    var q := Stone(Opponent(p));
    RunAgrees(b1, b2, x, y, d, x + d.0, y + d.1, q);
    RunOnRay(b1, x, y, d, x + d.0, y + d.1, q);
  }
}
