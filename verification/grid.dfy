/** Cells, boards and piece counts of an 8x8 Reversi board. */
module Grid {

  /** The two sides. X is the human player, O the computer (the side the search maximizes for). */
  datatype Side = X | O

  /** The other side. */
  function Opponent(s: Side): (r: Side)
    ensures r != s
    ensures s == X <==> r == O
  {
    match s
    case X => O
    case O => X
  }

  /** A cell is empty or holds one side's stone. */
  datatype Cell = Empty | Stone(side: Side)

  /** An 8x8 grid of cells, indexed board[row][column]. */
  type Board = b: seq<seq<Cell>> | |b| == 8 && forall i :: 0 <= i < 8 ==> |b[i]| == 8
    witness seq(8, _ => seq(8, _ => Empty))

  /** A coordinate pair (row, column), as the engine passes moves around. */
  type Pos = (int, int)

  predicate OnBoard(x: int, y: int) {
    0 <= x < 8 && 0 <= y < 8
  }

  /** The bounds test guards exactly the indexing of a board: (x, y) is on the board iff b[x][y] exists. */
  lemma OnBoardIndexes(b: Board, x: int, y: int)
    ensures OnBoard(x, y) <==> 0 <= x < |b| && 0 <= y < |b[x]|
  {
  }

  /** The content of an on-board cell. */
  function At(b: Board, i: int, j: int): Cell
    requires OnBoard(i, j)
  {
    b[i][j]
  }

  /** Index of a position in row-major scan order. */
  function ScanIndex(m: Pos): int {
    8 * m.0 + m.1
  }

  /** The board with one cell replaced. */
  function Set(b: Board, x: int, y: int, v: Cell): (r: Board)
    requires OnBoard(x, y)
    ensures r[x][y] == v
    ensures forall i, j :: OnBoard(i, j) && (i, j) != (x, y) ==> r[i][j] == b[i][j]
  {
    b[x := b[x][y := v]]
  }

  /** The board with every listed cell replaced by v, one cell after the other. */
  function SetAll(b: Board, cells: seq<Pos>, v: Cell): (r: Board)
    requires forall k :: 0 <= k < |cells| ==> OnBoard(cells[k].0, cells[k].1)
    ensures forall i, j :: OnBoard(i, j) ==> r[i][j] == if (i, j) in cells then v else b[i][j]
    decreases |cells|
  {
    if |cells| == 0 then b
    else SetAll(Set(b, cells[0].0, cells[0].1, v), cells[1..], v)
  }

  predicate Distinct(s: seq<Pos>) {
    forall k, l :: 0 <= k < l < |s| ==> s[k] != s[l]
  }

  // ---------------------------------------------------------------------------
  // Counting

  function Indicator(b: bool): nat {
    if b then 1 else 0
  }

  function CountRow(row: seq<Cell>, c: Cell): nat {
    if |row| == 0 then 0 else Indicator(row[0] == c) + CountRow(row[1..], c)
  }

  function CountRows(rows: seq<seq<Cell>>, c: Cell): nat {
    if |rows| == 0 then 0 else CountRow(rows[0], c) + CountRows(rows[1..], c)
  }

  /** A cell is empty, an X stone or an O stone. */
  lemma CellKinds(c: Cell)
    ensures c == Empty || c == Stone(X) || c == Stone(O)
  {
    match c
    case Empty =>
    case Stone(s) =>
      match s
      case X =>
      case O =>
  }

  /** Number of cells of the board holding c (the engine's `count`): at most the 64 cells of the board. */
  function Count(b: Board, c: Cell): (r: nat)
    ensures r <= 64
  {
    RowsPartition(b);
    CellKinds(c);
    CountRows(b, c)
  }

  lemma {:induction false} CountRowUpdate(row: seq<Cell>, j: int, v: Cell, c: Cell)
    requires 0 <= j < |row|
    ensures CountRow(row[j := v], c) == CountRow(row, c) - Indicator(row[j] == c) + Indicator(v == c)
    decreases j
  {
    if j > 0 {
      assert row[j := v][1..] == row[1..][j - 1 := v];
      CountRowUpdate(row[1..], j - 1, v, c);
    } else {
      assert row[j := v][1..] == row[1..];
    }
  }

  lemma {:induction false} CountRowsUpdate(rows: seq<seq<Cell>>, i: int, r: seq<Cell>, c: Cell)
    requires 0 <= i < |rows|
    ensures CountRows(rows[i := r], c) == CountRows(rows, c) - CountRow(rows[i], c) + CountRow(r, c)
    decreases i
  {
    if i > 0 {
      assert rows[i := r][1..] == rows[1..][i - 1 := r];
      CountRowsUpdate(rows[1..], i - 1, r, c);
    } else {
      assert rows[i := r][1..] == rows[1..];
    }
  }

  /** Replacing one cell moves exactly that cell between the counts of its old and new contents. */
  lemma CountSet(b: Board, x: int, y: int, v: Cell, c: Cell)
    requires OnBoard(x, y)
    ensures Count(Set(b, x, y, v), c) == Count(b, c) - Indicator(b[x][y] == c) + Indicator(v == c)
  {
    CountRowUpdate(b[x], y, v, c);
    CountRowsUpdate(b, x, b[x][y := v], c);
  }

  /** Turning a list of distinct w-cells into v-cells moves exactly that many cells from w to v. */
  lemma {:induction false} CountSetAll(b: Board, cells: seq<Pos>, w: Cell, v: Cell, c: Cell)
    requires forall k :: 0 <= k < |cells| ==> OnBoard(cells[k].0, cells[k].1) && b[cells[k].0][cells[k].1] == w
    requires Distinct(cells)
    requires w != v
    ensures c == v ==> Count(SetAll(b, cells, v), c) == Count(b, c) + |cells|
    ensures c == w ==> Count(SetAll(b, cells, v), c) == Count(b, c) - |cells|
    ensures c != v && c != w ==> Count(SetAll(b, cells, v), c) == Count(b, c)
    decreases |cells|
  {
    if |cells| > 0 {
      var b' := Set(b, cells[0].0, cells[0].1, v);
      CountSet(b, cells[0].0, cells[0].1, v, c);
      forall k | 0 <= k < |cells[1..]|
        ensures b'[cells[1..][k].0][cells[1..][k].1] == w
      {
        assert cells[1..][k] == cells[k + 1] != cells[0];
      }
      CountSetAll(b', cells[1..], w, v, c);
    }
  }

  lemma {:induction false} RowPartition(row: seq<Cell>)
    ensures CountRow(row, Stone(X)) + CountRow(row, Stone(O)) + CountRow(row, Empty) == |row|
  {
    if |row| > 0 {
      if row[0].Stone? {
        assert row[0].side.X? || row[0].side.O?;
      }
      RowPartition(row[1..]);
    }
  }

  lemma {:induction false} RowsPartition(rows: seq<seq<Cell>>)
    requires forall i :: 0 <= i < |rows| ==> |rows[i]| == 8
    ensures CountRows(rows, Stone(X)) + CountRows(rows, Stone(O)) + CountRows(rows, Empty) == 8 * |rows|
  {
    if |rows| > 0 {
      RowPartition(rows[0]);
      RowsPartition(rows[1..]);
    }
  }

  lemma {:induction false} CountRowZero(row: seq<Cell>, c: Cell)
    ensures CountRow(row, c) == 0 <==> forall k :: 0 <= k < |row| ==> row[k] != c
  {
    if |row| > 0 {
      CountRowZero(row[1..], c);
      assert forall k :: 1 <= k < |row| ==> row[k] == row[1..][k - 1];
    }
  }

  lemma {:induction false} CountRowsZero(rows: seq<seq<Cell>>, c: Cell)
    ensures CountRows(rows, c) == 0 <==> forall i, k :: 0 <= i < |rows| && 0 <= k < |rows[i]| ==> rows[i][k] != c
  {
    if |rows| > 0 {
      CountRowZero(rows[0], c);
      CountRowsZero(rows[1..], c);
      assert forall i :: 1 <= i < |rows| ==> rows[i] == rows[1..][i - 1];
    }
  }

  /** A kind has count zero exactly when no cell of the board holds it. */
  lemma CountZeroIff(b: Board, c: Cell)
    ensures Count(b, c) == 0 <==> forall i, j :: OnBoard(i, j) ==> b[i][j] != c
  {
    CountRowsZero(b, c);
  }

  /** Every cell is exactly one of the three states, so the three counts always add up to 64. */
  lemma CountPartition(b: Board)
    ensures Count(b, Stone(X)) + Count(b, Stone(O)) + Count(b, Empty) == 64
  {
    RowsPartition(b);
  }

  // ---------------------------------------------------------------------------
  // The opening position

  function EmptyBoard(): (r: Board)
    ensures forall i, j :: OnBoard(i, j) ==> r[i][j] == Empty
  {
    seq(8, _ => seq(8, _ => Empty))
  }

  /** The opening position: X on (3,3) and (4,4), O on (3,4) and (4,3), all else empty. */
  function InitialBoard(): (r: Board)
    ensures r[3][3] == Stone(X) && r[4][4] == Stone(X)
    ensures r[3][4] == Stone(O) && r[4][3] == Stone(O)
    ensures forall i, j :: OnBoard(i, j) && (i, j) !in [(3, 3), (4, 4), (3, 4), (4, 3)] ==> r[i][j] == Empty
  {
    Set(Set(Set(Set(EmptyBoard(), 3, 3, Stone(X)), 4, 4, Stone(X)), 3, 4, Stone(O)), 4, 3, Stone(O))
  }

  lemma {:induction false} CountRowAbsent(row: seq<Cell>, c: Cell)
    requires forall k :: 0 <= k < |row| ==> row[k] != c
    ensures CountRow(row, c) == 0
  {
    if |row| > 0 {
      CountRowAbsent(row[1..], c);
    }
  }

  lemma {:induction false} CountRowsAbsent(rows: seq<seq<Cell>>, c: Cell)
    requires forall i, k :: 0 <= i < |rows| && 0 <= k < |rows[i]| ==> rows[i][k] != c
    ensures CountRows(rows, c) == 0
  {
    if |rows| > 0 {
      CountRowAbsent(rows[0], c);
      CountRowsAbsent(rows[1..], c);
    }
  }

  /** Placing a stone on an empty cell adds one to that stone's count and leaves the other side's count alone. */
  lemma PlaceOnEmpty(b: Board, x: int, y: int, v: Side, s: Side)
    requires OnBoard(x, y) && b[x][y] == Empty
    ensures Count(Set(b, x, y, Stone(v)), Stone(s)) == Count(b, Stone(s)) + Indicator(v == s)
  {
    CountSet(b, x, y, Stone(v), Stone(s));
  }

  lemma InitialCountOf(s: Side)
    ensures Count(InitialBoard(), Stone(s)) == 2
  {
    var e := EmptyBoard();
    CountRowsAbsent(e, Stone(s));
    var b1 := Set(e, 3, 3, Stone(X));
    var b2 := Set(b1, 4, 4, Stone(X));
    var b3 := Set(b2, 3, 4, Stone(O));
    PlaceOnEmpty(e, 3, 3, X, s);
    PlaceOnEmpty(b1, 4, 4, X, s);
    PlaceOnEmpty(b2, 3, 4, O, s);
    PlaceOnEmpty(b3, 4, 3, O, s);
    assert Indicator(X == s) + Indicator(O == s) == 1 by {
      match s
      case X =>
      case O =>
    }
  }

  /** The opening position has two stones per side and sixty empty cells. */
  lemma InitialCounts()
    ensures Count(InitialBoard(), Stone(X)) == 2
    ensures Count(InitialBoard(), Stone(O)) == 2
    ensures Count(InitialBoard(), Empty) == 60
  {
    InitialCountOf(X);
    InitialCountOf(O);
    CountPartition(InitialBoard());
  }
}
