# Slider-puzzle solver, modelled in Dafny

This project models the core of an A* solver for the N-by-N sliding puzzle
(the 8-puzzle, the 15-puzzle). A `Board` holds an N-by-N grid of tiles, with 0
as the blank. It records where the blank is and caches the Manhattan heuristic.
It answers the Hamming and Manhattan distances and the goal test, and it decides
value equality. It builds its twin (two adjacent non-blank tiles of one row
exchanged) and its neighbors (the blank slid in each of four directions, in a
fixed order).

The `Solver` runs A* on the board and on its twin in lockstep, each with its
own priority queue of search nodes. A search node is an immutable back-pointer
chain. It carries its move count and its priority, which is Manhattan distance
plus moves. The solver stops when either frontier takes a goal board off its
queue. A solution is the chain of boards from the initial board to the goal.

Modules and files:

- `Wrappers.dfy`: `Option`.
- `Grids.dfy` (module `Grids`): the specification functions over grids. These
  are well-formedness, the Manhattan and Hamming sums as recursive functions,
  the goal grid, the exchange of two cells, and Java's truncating `/` and `%`.
- `Board.dfy` (module `Boards`): the board as an immutable datatype. Every
  operation the source writes with loops (the constructor, `hamming`,
  `manhattan`, `isGoal`, `equals`, `twin`, `neighbors`) is a method with loops.
  Each is proved against the functions of `Grids`, and the properties of
  neighbors and twins are lemmas.
- `SearchNode.dfy` (module `Nodes`): the search node, `compareTo`, and the
  chain invariants with their consequences.
- `MinPQ.dfy` (module `MinPQs`): the priority queue as a class over a sequence,
  with a delete-the-minimum contract.
- `Solver.dfy` (module `Search`): `step`, `solve` and the `Solver` class with
  `isSolvable`, `moves` and `solution`.

Boards are values. A grid is a `seq<seq<int>>`, and `ValidBoard` is the
invariant the constructor establishes for a well-formed puzzle: at least
2-by-2, square, tiles in 0..N*N-1, exactly one blank at the recorded position,
and a cache equal to the full Manhattan sum. The two constructors of the source
(from `int[][]` and from `short[][]`) are one method, `NewBoard`. The cached
Manhattan value is always the full recomputation, because the returned board is
always freshly built. The `+ 2` values are assigned to boards that are then
discarded.

`twin()` never moves the blank, so applied to a twin it picks the same row
again and swaps the same two cells back: `Boards.TwinInvolution` proves that
the twin of the twin is the board itself.

## Model

| member | source | states |
|---|---|---|
| Grids.RowMajorDivMod | Board.java:83-84 | the row-major index i*N+j divides back into row i and column j |
| Grids.JavaDiv | Board.java:83 | Java's `/` on int, rounding toward zero: for a >= 0 the remainder a - b*q lies in 0..b-1, for a < 0 in -(b-1)..0 |
| Grids.JavaRem | Board.java:84 | Java's `%` on int: a == b * (a / b) + r, and r has the sign of a with magnitude below b |
| Grids.TileDistance | Board.java:77-86 | a tile's Manhattan distance to its goal cell is never negative, and the blank contributes 0 |
| Grids.TileHome | Board.java:80-86 | a tile is at distance 0 exactly when it is the blank or stands on its goal cell i*N+j+1 |
| Grids.RowDistance | Board.java:76-87 | the sum over a row prefix is non-negative and is 0 exactly when every cell in it is at distance 0 |
| Grids.GridDistance | Board.java:75-88 | the sum over the first k rows is non-negative and is 0 exactly when every tile in them is at distance 0 |
| Grids.ManhattanSum | Board.java:68-90 | the Manhattan heuristic is never negative |
| Grids.RowMismatches | Board.java:59-61 | the count of mismatches in a row prefix is between 0 and its length |
| Grids.GridMismatches | Board.java:58-62 | the count of cells differing from their running index 1, 2, ..., N*N is non-negative |
| Grids.RowOutOfPlace | Board.java:59-61 | the count of non-blank tiles off their goal cell in a row prefix is 0 exactly when each is blank or at home |
| Grids.GridOutOfPlace | Board.java:54-65 | the count of non-blank tiles off their goal cell is 0 exactly when every cell is blank or at home |
| Grids.RowBlanks | Board.java:59-61 | the number of blanks in a row prefix is between 0 and its length |
| Grids.GridBlanks | Board.java:54-65 | the number of blanks in the first k rows is non-negative |
| Grids.RowMismatchSplit | Board.java:59-61 | in a row, mismatches = tiles out of place + blanks, because a blank never equals its running index |
| Grids.GridMismatchSplit | Board.java:54-65 | over the grid, mismatches = tiles out of place + blanks |
| Grids.RowBlanksCount | Board.java:59-61 | a row whose only blank is at column c has one blank before k exactly when c < k |
| Grids.GridBlanksCount | Board.java:54-65 | a grid with one blank counts one blank in its first k rows when the blank's row is below k, so hamming's final -1 cancels it |
| Grids.ExpectedIsGoalTile | Board.java:95-102 | isGoal's counter (1, 2, ..., reset to 0 at N*N) at cell (i, j) is the goal tile of that cell |
| Grids.RowMajorBound | Board.java:96-97 | every cell's row-major index lies in 0..N*N-1 |
| Grids.ExpectedStep | Board.java:100-102 | one step of isGoal's counter: increment, and reset to 0 on reaching N*N |
| Grids.ManhattanZeroIffHome | Board.java:68-90 | the Manhattan sum is 0 exactly when every tile is blank or at home |
| Grids.HomeIffGoal | Board.java:93-106 | on a well-formed grid, every tile at home is the same as the grid reading 1, ..., N*N-1, 0 |
| Grids.Exchanged | Board.java:130-132 | exchanging two cells keeps the grid square and of the same size |
| Grids.ExchangedTwice | Board.java:123-134 | exchanging the same two cells twice restores the grid |
| Grids.ExchangedSymmetric | Board.java:123-134 | the order in which the two cells are named does not matter |
| Grids.MovingBlank | Board.java:174 | exchanging the blank with a cell on the grid moves the only blank there and keeps the grid well formed |
| Grids.SwappingTiles | Board.java:116 | exchanging two non-blank cells keeps the blank where it was and keeps the grid well formed |
| Boards.ValidBoardsDeterminedByTiles | Board.java:18-31 | two valid boards with the same grid are the same board (blank position and cache follow from the grid) |
| Boards.RecordedBlankIsTheBlank | Board.java:24-27 | on a well-formed grid, the last 0 in row-major order is the only blank |
| Boards.NewBoard | Board.java:18-46 | the constructor's grid equals the input, the recorded blank is the last 0 (the only 0 on a well-formed grid), and the cache equals the full Manhattan sum |
| Boards.Dimension | Board.java:49-51 | the dimension is the number of rows |
| Boards.OnBoard | Board.java:158-160 | valid(i, j): on a square grid of N rows, true exactly when (i, j) indexes a cell of the grid |
| Boards.Manhattan | Board.java:68-90 | manhattan() returns the sum over non-blank tiles of the row and column distance to the goal cell, with `/` and `%` as Java does them; it returns a filled cache unchanged, and the value is never negative |
| Boards.Hamming | Board.java:54-65 | hamming() is the number of cells differing from 1, 2, ..., N*N minus one; on a valid board this is the number of non-blank tiles off their goal cell |
| Boards.IsGoal | Board.java:93-106 | isGoal() is true exactly when the grid reads 1, 2, ..., N*N-1, 0 in row-major order |
| Boards.RowsEqual | Board.java:152 | Arrays.equals on a row: true exactly when the rows are equal |
| Boards.Equals | Board.java:137-156 | equals() is true exactly when the dimensions agree and every cell agrees |
| Boards.Swap | Board.java:123-134 | swap() returns a grid equal to its argument except that the two given cells are exchanged |
| Boards.TwinOf | Board.java:109-121 | the twin chooses a row without the blank, keeps the blank and the dimension, exchanges cells 0 and 1 of that row, and is a valid board |
| Boards.TwinRow | Board.java:110-114 | the twin's row: a row of the board (0..N-1) other than the blank's row when N >= 2 |
| Boards.Twin | Board.java:109-121 | twin() builds exactly that board: the row is 0 when the blank is in row N-1 and N-1 otherwise, and the cache is the full recomputation |
| Boards.TwinInvolution | Board.java:109-121 | the twin of the twin is the original board |
| Boards.MoveIn | Board.java:171-177 | sliding the tile of direction e into the blank gives a valid board of the same size whose blank is at (blankRow + dy[e], blankCol + dx[e]) and whose grid is the old one with those two cells exchanged |
| Boards.OpenDirections | Board.java:169-173 | the listed directions are among the first d and each leads to a cell on the board (valid) |
| Boards.OpenDirectionsSorted | Board.java:169 | directions are listed in the order the loop tries them, none twice |
| Boards.OpenDirectionsComplete | Board.java:169-173 | every direction whose cell is on the board is listed |
| Boards.NeighborBoards | Board.java:163-182 | there are at most four neighbors and each is a valid board |
| Boards.MovesInAppend | Board.java:177 | queuing one more direction's board appends it at the end |
| Boards.NeighborIn | Board.java:174-177 | one iteration of neighbors(): swapping the blank with the cell of direction e and building a board gives that direction's board |
| Boards.Neighbors | Board.java:163-182 | neighbors() returns, in the order of dx/dy, one board per direction whose cell is on the board: the blank exchanged with that cell |
| Boards.NeighborAt | Board.java:169-178 | the board of every open direction is among the neighbors |
| Boards.DirectionOfOffset | Board.java:11-12 | the four offsets (dy, dx) are pairwise different, so the blank's displacement names the direction |
| Boards.DirectionTables | Board.java:11-12 | the tables dx and dy list exactly the four one-cell orthogonal steps: an offset (dy, dx) appears in them if and only if abs(dy) + abs(dx) == 1 |
| Boards.NeighborDirection | Board.java:163-182 | every neighbor is the board of an open direction |
| Boards.NeighborCount | Board.java:163-182 | for N >= 2 a board has between two and four neighbors |
| Boards.OpenCount | Board.java:158-173 | for N >= 2 at least one horizontal direction (0 or 1) and one vertical direction (2 or 3) are open, so at least two are |
| Boards.BlanksApart | Board.java:174 | two valid boards with their blanks in different cells have different grids |
| Boards.NeighborsDistinct | Board.java:163-182 | the neighbors of a board are pairwise different grids |
| Boards.MoveUndone | Board.java:11-12 | moving the blank in direction e and then in the opposite direction restores the board |
| Boards.NeighborSymmetric | Board.java:163-182 | a board is among the neighbors of each of its neighbors |
| Boards.SlideAdjacent | Board.java:11-12 | a slide moves the blank to an orthogonally adjacent cell and keeps the board valid |
| Boards.NeighborIsSlide | Board.java:163-182 | every neighbor is one slide away |
| Boards.SlideIsNeighbor | Board.java:163-182 | every board one slide away is a neighbor |
| Boards.GoalIffManhattanZero | Board.java:68-106 | a valid board is the goal exactly when its Manhattan distance is 0 |
| Boards.GoalIffHammingZero | Board.java:54-106 | a valid board is the goal exactly when no tile is out of place, so hamming() is 0 |
| Nodes.NewNode | Solver.java:12-22 | a node keeps its board and predecessor; moves is 0 without a predecessor and the predecessor's moves + 1 otherwise; priority is Manhattan + moves |
| Nodes.CompareTo | Solver.java:24-27 | compareTo is negative, zero or positive exactly as the first priority is below, equal to or above the second |
| Nodes.SameBoardEquivalence | Board.java:137-156 | the relation equals() decides is reflexive and symmetric |
| Nodes.AncestorMoves | Solver.java:16-19 | following prev k times from a chained node drops moves by k, and after moves links reaches a root holding the root board |
| Nodes.MovesNonNegative | Solver.java:16-19 | a chained node has moves >= 0 |
| Nodes.PathShape | Solver.java:85-86 | the boards of a chain number moves + 1, start with the root board and end with the node's board |
| Nodes.PathSlides | Solver.java:42-44 | along a chain's boards each is one slide from the one before |
| Nodes.PathLast | Solver.java:85-86 | the last board walked is the node's own |
| Nodes.RootPath | Solver.java:34 | a root node is chained from its board, has 0 moves, and its path is that board alone |
| MinPQs.MinPQ.constructor | Solver.java:51-52 | a new queue is empty |
| MinPQs.MinPQ.Insert | Solver.java:44 | insert adds exactly the node to the multiset of queued nodes |
| MinPQs.MinPQ.DelMin | Solver.java:40 | delMin removes and returns a queued node of least priority and leaves the rest |
| Search.ChildChained | Solver.java:42-44 | a neighbor of min that does not undo min's last move, made a child of min, extends min's chain |
| Search.UndoesLastMove | Solver.java:43 | the pruning test never rejects a child of the initial node, and rejects a board only when its grid equals the predecessor's |
| Search.Expand | Solver.java:42-45 | the loop inserts at most one node per board it is given |
| Search.Children | Solver.java:42-45 | step inserts at most as many nodes as there are neighbors (at most four), each a child of min one move deeper |
| Search.PredecessorPruned | Solver.java:42-43 | the board of min's predecessor is among min's neighbors and is the board the pruning test rejects |
| Search.ChildrenCount | Solver.java:42-45 | step inserts one node per neighbor for the initial node and exactly one fewer for any other node |
| Search.ExpandShape | Solver.java:42-45 | every node the loop inserts is a child of min for one of the boards, and none undoes min's last move |
| Search.ExpandSize | Solver.java:43 | of pairwise different boards at most one is pruned, and none when no board undoes the last move |
| Search.ChildrenShape | Solver.java:42-45 | step inserts at least one node; each has prev = min, moves = min.moves + 1, a neighbor board of min other than min's predecessor's, and stays chained from the root |
| Search.InsertChildren | Solver.java:42-45 | the loop adds exactly the children that do not undo the last move to the queue |
| Search.Step | Solver.java:39-47 | step removes and returns a node of least priority; the frontier afterwards is the old one minus that node plus its children; every node in it stays chained from the root |
| Search.Solve | Solver.java:49-64 | a returned node is a goal chained from the initial board; a null result comes only with a goal node chained from the twin |
| Search.Solver.constructor | Solver.java:32-37 | a goal board is its own solution with 0 moves and the one-board path; in every case a result is a goal node chained from the initial board, and no result after a completed search comes with a goal node chained from the twin |
| Search.Solver.IsSolvable | Solver.java:67-69 | true exactly when a result is held, and then that result is a goal node chained from the initial board; false after a completed search means a goal node chained from the twin was found |
| Search.Solver.Moves | Solver.java:72-76 | moves() is -1 exactly when the board is unsolvable, and otherwise the goal node's move count, which is non-negative |
| Search.Solver.Solution | Solver.java:79-89 | solution() is null exactly when unsolvable; otherwise it has moves() + 1 boards, starts at the initial board, ends at a goal board, and each board is a neighbor of the one before |
| Search.GoalPath | Solver.java:79-89 | the path of a goal node chained from the root has moves + 1 boards, from the root to a goal, each a neighbor of the one before |
| Search.PathNeighbors | Solver.java:42-44 | along a chain's boards each is among the neighbors of the one before |
| Search.PathBoards | Solver.java:83-86 | walking prev and pushing each board gives the chain's boards listed root first |

## Left out

- `main` in both files and `Board.toString`: file input, printing and formatting are I/O.
- The library classes `MinPQ`, `Queue` and `Stack` are not part of this model. `MinPQ` is a class over a sequence with an extract-minimum contract, and ties are broken by whichever minimum the scan meets first; callers may rely only on "some node of least priority". `Queue` is the sequence `neighbors()` returns. `Stack` is the sequence `solution()` returns, in iteration order.
- Search.Solve: `while (true)` becomes a loop of at most `fuel` rounds, with an `OutOfFuel` outcome. Termination of the source's loop depends on exactly one of a board and its twin being solvable, and on the state space being finite. That is not proved, and neither is the optimality of `moves()`.
- Search.Solver.constructor: when the fuel runs out, `result` is left empty and the ghost field `exhausted` records why; the source would keep searching.
- The `cachedManhattan + 2` assignments (Board.java:117-118, 175-176) go to boards that are then discarded. They have no effect, so they are not modelled.
- The `short` cast of tiles (Board.java:23) and the overflow of `compareTo`'s subtraction (Solver.java:26) are not modelled. Integers are unbounded, so this holds only for small N.
- The N = 1 board. The well-formedness invariant requires N >= 2. `Boards.IsGoal` still follows the code for N = 1: it is false because it compares against 1 first.
- Input validation: the source assumes a square grid holding a permutation of 0..N*N-1. The model requires a square grid, tiles in range and exactly one blank, and does not require the tiles to be distinct, which no operation needs.
- Boards.Swap: grids are values here, so the source's defensive row copy (`System.arraycopy`) has no counterpart. The argument is unchanged because values cannot be changed.
- Boards.Equals: the source's first test is reference identity (`y == this`). Here it is value equality, which gives the same answer. The `null` and class tests have no counterpart, because the argument is always a board.
