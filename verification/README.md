# Reversi rules engine and alpha-beta search in Dafny

This project models the core of a console Reversi (Othello) game: the `Reversi` class of `reversi.py` and the
computer player's root call in `ai_player.py`. The model covers:

- the 8x8 board and its opening position;
- piece counting;
- the legal-move scan;
- `make_move`, which places a stone and flips captured runs direction by direction;
- the end-of-game test;
- the evaluation;
- the depth-limited minimax search with alpha-beta cut-offs.

The board is an immutable value, so each search branch sees its own copy without any explicit deep copy.

Modules:

- `Grid` (`grid.dfy`): sides (`X` is the human player, `O` the computer) and cells. It also defines the
  8x8 board, single-cell and multi-cell updates, `Count`, and the opening position.
- `Rays` (`rays.dfy`): the eight directions in the engine's order and the walk along a direction (`Run`,
  `RunEnd`). It also has the engine's capture test (`Captures`), proved equal to a declarative "opponent stones
  then one of mine" condition (`Outflanks`). Rays in different directions never meet.
- `Rules` (`rules.dfy`): `ValidMoves`, `MakeMove`, `IsGameOver` and `Evaluate`.
  - `MakeMove` flips direction by direction on the board left by the previous directions, as the engine does.
  - It is proved to equal "place the stone, then flip every run that captures on the original board".
- `Search` (`search.dfy`): `Minimax` with pruning, and `PlainMinimax` without pruning.
  - Both take the four engine methods they call (game over, legal moves, play a move, evaluate) as a `Game`
    value.
  - `Reversi` is that value for the rules above, and `BestMove` is the computer player's root call.
  - The alpha-beta soundness lemmas hold for any game whose evaluation lies in [-64, 64].

Modelling choices:

- `math.inf` is the integer `Infinity = 100`, outside every evaluation.
- `valid_moves` returns `list(set)`, whose order Python leaves unspecified. The model fixes row-major order;
  the root score of the full-window search does not depend on it, the tie-breaking move does.

## Model

| member | source | states |
|---|---|---|
| Grid.Opponent | reversi.py:48 | the opponent differs from the side, and X and O are each other's opponent |
| Grid.OnBoardIndexes | reversi.py:42-43 | the bounds test holds exactly when the row and column index an existing cell of the board |
| Grid.Set | reversi.py:74 | writing one cell gives that cell the new value and leaves every other cell of the board as it was |
| Grid.SetAll | reversi.py:90-91 | writing a list of cells gives each listed cell the new value and leaves every unlisted cell as it was |
| Grid.InitialBoard | reversi.py:28-35 | the opening board holds X on (3,3) and (4,4) and O on (3,4) and (4,3); every other cell is empty |
| Grid.InitialCounts | reversi.py:28-35 | the opening board has two stones per side and sixty empty cells |
| Grid.Count | reversi.py:38-39 | no kind of cell is counted more than 64 times |
| Grid.CountZeroIff | reversi.py:38-39 | a kind's count is zero exactly when no cell of the board holds it |
| Grid.CountSet | reversi.py:39 | replacing one cell moves exactly that cell from its old kind's count to its new kind's count |
| Grid.CountSetAll | reversi.py:39 | turning n distinct cells of one kind into another moves exactly n from one count to the other and leaves the third count alone |
| Grid.CountPartition | reversi.py:39 | the counts of X, O and empty cells always add up to 64 |
| Rays.DirectionsComplete | reversi.py:10-12 | the direction list holds each of the eight unit steps exactly once |
| Rays.Run | reversi.py:83-86 | every cell the walk steps over is on the board and holds the walked-over kind |
| Rays.RunAt | reversi.py:83-86 | the walk's k-th cell is k steps along the direction from its start, so the walk is the contiguous run of the walked kind |
| Rays.RunDistinct | reversi.py:83-86 | the walk visits no cell twice |
| Rays.RunEnd | reversi.py:61-65 | the walk stops off the board or on a cell of another kind |
| Rays.RunEndAt | reversi.py:83-86 | the walk stops exactly one step past its last cell, as many steps from its start as it has cells |
| Rays.RunMatchesRay | reversi.py:61-65 | the walk stops on the board exactly when the ray continues past the run, and it stops on the ray's next cell |
| Rays.RunPrefixOfRay | reversi.py:61-63 | the walked-over run is a prefix of the ray's contents |
| Rays.Captures | reversi.py:58-65 | a capture in one direction first steps onto an on-board opponent stone (the guard before the walk), and it needs a stone of the mover on the board |
| Rays.CapturesIffOutflanks | reversi.py:57-67 | the engine's test (step onto an opponent stone, walk the run, land on one's own stone) holds iff the ray reads one or more opponent stones followed by one's own stone |
| Rays.FlipRun | reversi.py:80-91 | the cells flipped in one direction are distinct on-board opponent stones, and there are some iff that direction captures |
| Rays.FlipRunAt | reversi.py:79-86 | the k-th flipped cell in a direction lies k + 1 steps from the played cell along it, so the flipped cells are contiguous and start next to the played cell |
| Rays.FlipRunBracketed | reversi.py:83-91 | when a direction flips n stones, the cell n + 1 steps from the played cell is on the board and holds the mover's stone; with FlipRun and FlipRunAt this says the flipped cells are exactly the opponent run from the played cell up to the bracketing stone |
| Rays.RaysDisjoint | reversi.py:78-91 | no cell lies on two different rays out of the played cell |
| Rays.FlipRunAgrees | reversi.py:78-91 | two boards that agree on a direction's ray flip the same cells in that direction |
| Rules.AnyDirectionCaptures | reversi.py:57-67 | the direction loop for one cell finds a capture iff some remaining direction outflanks |
| Rules.ValidMovesFrom | reversi.py:51-66 | the scan from a row-major index lists exactly the legal cells from that index on, in strictly increasing order |
| Rules.ValidMoves | reversi.py:46-68 | a cell is listed iff it is on the board, empty, and some direction has opponent stones followed by one's own; each cell is listed once, in row-major order |
| Rules.MakeMove | reversi.py:70-93 | the move succeeds iff it is legal; an illegal move changes nothing; a legal move sets the played cell and every captured cell to the mover and leaves all other cells unchanged |
| Rules.FlipFrom | reversi.py:78-91 | the flipping loop over the directions changes no cell except turning opponent stones into the mover's |
| Rules.FlipFromCells | reversi.py:78-91 | flipping the remaining directions in turn on the evolving board ends with the captures judged on the original board |
| Rules.FlipStep | reversi.py:79-91 | one direction's pass (FlipDirection, the loop body) flips exactly the run that direction captures on the original board, and those cells still hold opponent stones when it runs |
| Rules.FlipFromGains | reversi.py:78-91 | the flipping loop gives the mover exactly the remaining captured stones |
| Rules.FlipFromLosses | reversi.py:78-91 | the flipping loop takes exactly the remaining captured stones from the opponent |
| Rules.FlipFromKeepsEmpty | reversi.py:78-91 | the flipping loop never fills an empty cell |
| Rules.FlipTotalCovers | reversi.py:78-91 | the total number of captured stones is at least the capture of any one direction |
| Rules.CapturedAreOpponents | reversi.py:83-91 | every flipped cell held an opponent stone, and a legal move flips at least one cell |
| Rules.LegalMoveFlips | reversi.py:74-91 | a legal move captures at least one stone |
| Rules.MakeMoveCounts | reversi.py:74-93 | a legal move flips k >= 1 stones: the mover gains k + 1, the opponent loses k, and the empty count falls by one |
| Rules.RepeatedMoveFails | reversi.py:70-74 | after a legal move, playing the same cell again is refused for either side |
| Rules.IsGameOver | reversi.py:95-96 | the game is over iff no cell is a legal move for either side |
| Rules.NoMovesIffNoLegalCell | reversi.py:95-96 | a side's move list is empty iff no cell is legal for it |
| Rules.Evaluate | reversi.py:99-100 | the evaluation lies in [-64, 64]; it is positive iff O has more stones than X; together with the X and empty counts it accounts for all 64 cells |
| Rules.EvaluateIsDifference | reversi.py:99-100 | the evaluation is O's stone count minus X's stone count |
| Rules.InitialEvaluation | reversi.py:99-100 | the opening position evaluates to 0 |
| Search.ReversiBounded | reversi.py:99-100 | every Reversi evaluation lies strictly inside the sentinel bounds |
| Search.SideToMove | reversi.py:106 | O moves on maximizing plies and X on minimizing ones |
| Search.PassHandsOver | reversi.py:106-111 | searching the other ply hands the move to the opponent, so a pass gives the turn to the other side |
| Search.Minimax | reversi.py:102-140 | the score lies in [-64, 64]; at depth 0 or game over the result is the evaluation with no move; a move is returned iff the side to move has one, and it is one of that side's legal moves |
| Search.SearchMoves | reversi.py:115-140 | once the loop has started, it always reports a move from the list, with a score in [-64, 64] |
| Search.PlainMinimax | reversi.py:102-140 | the unpruned search returns a score in [-64, 64] and a legal move exactly when the side to move has one |
| Search.PlainMoves | reversi.py:115-140 | the unpruned loop never ends worse than its starting best, for the side to move |
| Search.MinimaxFailSoft | reversi.py:102-140 | for every window, a pruned score inside the window is the exact minimax score, one at or below alpha bounds it from above, and one at or above beta bounds it from below |
| Search.SearchMovesFailSoft | reversi.py:115-140 | the pruned move loop keeps that fail-soft relation with the unpruned loop, cut-offs included |
| Search.RootSearchMatchesPlain | reversi.py:102-140 | with the window (-Infinity, Infinity) the pruned search returns exactly the unpruned search's score and move |
| Search.RootMovesMatch | reversi.py:115-140 | at the root no move is cut off and each branch's pruned score decides exactly as the exact score would |
| Search.FirstOptimalImproved | reversi.py:118-121 | a strictly better score replaces the best move and becomes the first optimal one |
| Search.FirstOptimalKept | reversi.py:118-121 | a score that is not strictly better keeps the earlier best move |
| Search.PlainMovesFirstOptimal | reversi.py:118-134 | the move chosen is the earliest one whose score is optimal, and no move scores better |
| Search.SearchMoveIsFirstOptimal | reversi.py:113-140 | with the root window the search returns the earliest legal move whose exact score is optimal for the side to move |
| Search.PassTurn | reversi.py:109-111 | when the side to move has no move but the game is not over, the other side has a move, and the result is the other side's score one ply shallower in the same window, with no move |
| Search.BestMove | ai_player.py:7-9 | the computer's move is absent iff the depth is 0, the game is over or O has no move; otherwise it is O's earliest legal move of optimal score |
| Search.DepthOneMaximizes | reversi.py:115-127 | one ply deep, the maximizer's score is the evaluation after its chosen move, and no legal move leads to a higher one |
| Search.DepthOneIsGreedy | ai_player.py:7-9 | one ply deep, the computer moves exactly when it has a legal move, and plays one whose resulting board evaluates highest among all its legal moves |

## Left out

- `play_game`, `print_board` and `get_player_move` (reversi.py:143-226): console input and output and the
  turn-driving loop.
- gui.py: the tkinter front end; it only presents the core.
- The `AIPlayer` class itself: only its root call convention is modelled, as `BestMove`.
- `copy.deepcopy` in `minimax`: boards are immutable values, so a branch can never change its caller's board.
- `math.inf`: replaced by the integer sentinel `Infinity = 100`. Every evaluation lies in [-64, 64], so all
  comparisons against the bounds come out as they do with infinities.
- Search.Minimax: move order is fixed to row-major instead of Python's unspecified set iteration order. The root
  score under the window (-Infinity, Infinity) does not depend on the order, since it equals `PlainMinimax`'s
  score (`RootSearchMatchesPlain`). Scores of inner calls, whose windows are narrowed, can depend on it, but they
  always fall on the same side of their window (`MinimaxFailSoft`). The move chosen among equally good moves
  depends on it. The depth is a natural number: `minimax`
  only stops at a depth of exactly 0, so it treats a negative depth as "search until the game ends"; no caller
  passes one (the console game uses 4, the computer player defaults to 3, the front end offers 1 to 6).
- The characters `'.'`, `'X'`, `'O'` for cells: cells are a datatype, so no cell can hold any other value.
