/**
 * The puzzle board: an immutable N-by-N grid of tiles with 0 as the blank,
 * the blank position recorded at construction and the cached Manhattan
 * distance.  Every operation that the source writes as loops is a method
 * proved against the specification functions of module Grids.
 */
module Boards {
  import opened Grids

  datatype Board = Board(tiles: Grid, n: int, blankRow: int, blankCol: int, cachedManhattan: int)

  /** Column and row offsets of the four moves, tried in this order. */
  const DX: seq<int> := [1, -1, 0, 0]
  const DY: seq<int> := [0, 0, 1, -1]

  /** A board as the constructor leaves it for a well-formed puzzle. */
  ghost predicate ValidBoard(b: Board) {
    && b.n == |b.tiles|
    && WellFormed(b.tiles, b.blankRow, b.blankCol)
    && b.cachedManhattan == ManhattanSum(b.tiles)
  }

  /** Two valid boards with the same grid are the same board. */
  lemma ValidBoardsDeterminedByTiles(a: Board, b: Board)
    requires ValidBoard(a) && ValidBoard(b) && a.tiles == b.tiles
    ensures a == b
  {
    assert b.tiles[a.blankRow][a.blankCol] == 0;
  }

  // ---------------------------------------------------------------------------
  // Construction

  /** Cell (i1, j1) comes before cell (i2, j2) in row-major order. */
  predicate Before(i1: int, j1: int, i2: int, j2: int) {
    i1 < i2 || (i1 == i2 && j1 < j2)
  }

  /** (br, bc) is the last blank among the cells before (i, j). */
  ghost predicate LastBlankBefore(g: Grid, i: int, j: int, br: int, bc: int)
    requires Square(g)
  {
    && 0 <= br < |g| && 0 <= bc < |g| && Before(br, bc, i, j) && g[br][bc] == 0
    && forall p, q :: 0 <= p < |g| && 0 <= q < |g| && Before(br, bc, p, q) && Before(p, q, i, j) ==> g[p][q] != 0
  }

  /** No cell before (i, j) is blank. */
  ghost predicate NoBlankBefore(g: Grid, i: int, j: int)
    requires Square(g)
  {
    forall p, q :: 0 <= p < |g| && 0 <= q < |g| && Before(p, q, i, j) ==> g[p][q] != 0
  }

  /** What the constructor records as the blank: the last 0 in row-major order, or (0, 0) if there is none. */
  ghost predicate RecordedBlank(g: Grid, br: int, bc: int)
    requires Square(g)
  {
    LastBlankBefore(g, |g|, 0, br, bc) || (NoBlankBefore(g, |g|, 0) && br == 0 && bc == 0)
  }

  lemma RecordedBlankIsTheBlank(g: Grid, br: int, bc: int, r: int, c: int)
    requires WellFormed(g, r, c) && RecordedBlank(g, br, bc)
    ensures br == r && bc == c
  {
    assert Before(r, c, |g|, 0);
  }

  /**
   * The constructor: copies the grid cell by cell, recording the blank as it
   * goes, then fills the Manhattan cache.
   */
  method NewBoard(blocks: Grid) returns (b: Board)
    requires Square(blocks)
    ensures b.tiles == blocks && b.n == |blocks|
    ensures RecordedBlank(blocks, b.blankRow, b.blankCol)
    ensures b.cachedManhattan == ManhattanSum(blocks)
    ensures forall r, c :: WellFormed(blocks, r, c) ==> ValidBoard(b) && b.blankRow == r && b.blankCol == c
  {
    var n := |blocks|;
    var rows: Grid := [];
    var br, bc := 0, 0;
    for i := 0 to n
      invariant rows == blocks[..i]
      invariant LastBlankBefore(blocks, i, 0, br, bc) || (NoBlankBefore(blocks, i, 0) && br == 0 && bc == 0)
    {
      var row: seq<int> := [];
      for j := 0 to n
        invariant row == blocks[i][..j]
        invariant LastBlankBefore(blocks, i, j, br, bc) || (NoBlankBefore(blocks, i, j) && br == 0 && bc == 0)
      {
        row := row + [blocks[i][j]];
        if blocks[i][j] == 0 {
          br, bc := i, j;
        }
      }
      assert row == blocks[i];
      rows := rows + [row];
    }
    assert rows == blocks;
    b := Board(rows, n, br, bc, -1);
    var m := Manhattan(b);
    b := b.(cachedManhattan := m);
    forall r, c | WellFormed(blocks, r, c)
      ensures b.blankRow == r && b.blankCol == c
    {
      RecordedBlankIsTheBlank(blocks, br, bc, r, c);
    }
  }

  // ---------------------------------------------------------------------------
  // Queries

  function Dimension(b: Board): (n: int)
    requires b.n == |b.tiles|
    ensures n == |b.tiles|
  {
    b.n
  }

  /** The Manhattan distance, from the cache when it is filled, else by summing over the grid. */
  method Manhattan(b: Board) returns (m: int)
    requires Square(b.tiles) && b.n == |b.tiles|
    requires b.cachedManhattan == -1 || b.cachedManhattan == ManhattanSum(b.tiles)
    ensures m == ManhattanSum(b.tiles)
    ensures m >= 0
  {
    if b.cachedManhattan != -1 {
      return b.cachedManhattan;
    }
    var n := b.n;
    m := 0;
    for i := 0 to n
      invariant m == GridDistance(b.tiles, i)
    {
      for j := 0 to n
        invariant m == GridDistance(b.tiles, i) + RowDistance(b.tiles[i], n, i, j)
      {
        var tile := b.tiles[i][j];
        if tile != 0 {
          var gRow := JavaDiv(tile - 1, n);
          var gCol := JavaRem(tile - 1, n);
          m := m + Abs(gRow - i) + Abs(gCol - j);
        }
      }
    }
  }

  /**
   * The Hamming distance: counts the cells that differ from a counter running
   * 1, 2, ..., N*N and subtracts one for the blank, which always differs.
   */
  method Hamming(b: Board) returns (h: int)
    requires Square(b.tiles) && b.n == |b.tiles|
    ensures h == GridMismatches(b.tiles, b.n) - 1
    ensures ValidBoard(b) ==> h == GridOutOfPlace(b.tiles, b.n)
  {
    var n := b.n;
    var expected := 1;
    var hamming := 0;
    for i := 0 to n
      invariant expected == i * n + 1
      invariant hamming == GridMismatches(b.tiles, i)
    {
      for j := 0 to n
        invariant expected == i * n + j + 1
        invariant hamming == GridMismatches(b.tiles, i) + RowMismatches(b.tiles[i], n, i, j)
      {
        if b.tiles[i][j] != expected {
          hamming := hamming + 1;
        }
        expected := expected + 1;
      }
      assert expected == (i + 1) * n + 1;
    }
    h := hamming - 1;
    if ValidBoard(b) {
      GridMismatchSplit(b.tiles, n);
      GridBlanksCount(b.tiles, n, b.blankRow, b.blankCol);
    }
  }

  /** The goal test: compares each cell with a counter 1, 2, ... that wraps to 0 on reaching N*N. */
  method IsGoal(b: Board) returns (r: bool)
    requires Square(b.tiles) && b.n == |b.tiles|
    ensures r <==> IsGoalGrid(b.tiles)
  {
    var n := b.n;
    var goal := 1;
    ghost var k := 0;
    for i := 0 to n
      invariant k == i * n
      invariant k < n * n ==> goal == ExpectedTile(n, k)
      invariant forall p, q :: 0 <= p < i && 0 <= q < n ==> b.tiles[p][q] == GoalTile(n, p, q)
    {
      for j := 0 to n
        invariant k == i * n + j
        invariant k < n * n ==> goal == ExpectedTile(n, k)
        invariant forall p, q :: 0 <= p < i && 0 <= q < n ==> b.tiles[p][q] == GoalTile(n, p, q)
        invariant forall q :: 0 <= q < j ==> b.tiles[i][q] == GoalTile(n, i, q)
      {
        RowMajorBound(n, i, j);
        ExpectedIsGoalTile(n, i, j);
        if b.tiles[i][j] != goal {
          return false;
        }
        if k + 1 < n * n {
          ExpectedStep(n, k);
        }
        goal := goal + 1;
        if goal == n * n {
          goal := 0;
        }
        k := k + 1;
      }
      assert k == (i + 1) * n;
    }
    return true;
  }

  /** Board.valid: (i, j) lies on the board. */
  predicate OnBoard(b: Board, i: int, j: int): (r: bool)
    ensures |b.tiles| == b.n && Square(b.tiles) ==> (r <==> 0 <= i < |b.tiles| && 0 <= j < |b.tiles[i]|)
  {
    i < b.n && i >= 0 && j < b.n && j >= 0
  }

  // ---------------------------------------------------------------------------
  // Equality

  /** Arrays.equals on one row: the same length and the same tile in every column. */
  function RowsEqual(x: seq<int>, y: seq<int>): (r: bool)
    ensures r <==> x == y
  {
    |x| == |y| && forall k :: 0 <= k < |x| ==> x[k] == y[k]
  }

  /** Value equality of boards: the same dimension and the same tile in every cell. */
  method Equals(a: Board, y: Board) returns (r: bool)
    requires |a.tiles| == a.n && |y.tiles| == y.n
    ensures r <==> a.n == y.n && a.tiles == y.tiles
  {
    if a == y {
      return true;
    }
    var n := Dimension(y);
    if n != a.n {
      return false;
    }
    for i := 0 to n
      invariant forall p :: 0 <= p < i ==> a.tiles[p] == y.tiles[p]
    {
      if !RowsEqual(a.tiles[i], y.tiles[i]) {
        return false;
      }
    }
    assert a.tiles == y.tiles;
    return true;
  }

  // ---------------------------------------------------------------------------
  // Derived boards

  /**
   * The grid with cells (fromRow, fromCol) and (toRow, toCol) exchanged.  The
   * source copies every row before exchanging; grids are values here, so the
   * result is a new grid and the argument is left as it was.
   */
  method Swap(g: Grid, fromRow: int, fromCol: int, toRow: int, toCol: int) returns (h: Grid)
    requires Square(g) && 0 <= fromRow < |g| && 0 <= fromCol < |g| && 0 <= toRow < |g| && 0 <= toCol < |g|
    ensures Square(h) && |h| == |g|
    ensures h[fromRow][fromCol] == g[toRow][toCol] && h[toRow][toCol] == g[fromRow][fromCol]
    ensures forall i, j ::
      0 <= i < |g| && 0 <= j < |g| && !(i == fromRow && j == fromCol) && !(i == toRow && j == toCol)
      ==> h[i][j] == g[i][j]
    ensures h == Exchanged(g, fromRow, fromCol, toRow, toCol)
  {
    h := g;
    var temp := h[fromRow][fromCol];
    h := h[fromRow := h[fromRow][fromCol := h[toRow][toCol]]];
    h := h[toRow := h[toRow][toCol := temp]];
    ghost var e := Exchanged(g, fromRow, fromCol, toRow, toCol);
    forall i | 0 <= i < |g| ensures h[i] == e[i] {
      assert |h[i]| == |e[i]|;
    }
  }

  /** The row twin() exchanges in: the first row when the blank is in the last, else the last. */
  function TwinRow(b: Board): (r: int)
    ensures b.n >= 2 && 0 <= b.blankRow < b.n ==> 0 <= r < b.n && r != b.blankRow
  {
    if b.blankRow == b.n - 1 then 0 else b.n - 1
  }

  /** The twin: the first two cells of a row without the blank exchanged, cache recomputed. */
  ghost function TwinOf(b: Board): (t: Board)
    requires ValidBoard(b)
    ensures ValidBoard(t)
    ensures TwinRow(b) != b.blankRow
    ensures t.n == b.n && t.blankRow == b.blankRow && t.blankCol == b.blankCol
    ensures t.tiles == Exchanged(b.tiles, TwinRow(b), 0, TwinRow(b), 1)
  {
    var row := TwinRow(b);
    var g := Exchanged(b.tiles, row, 0, row, 1);
    SwappingTiles(b.tiles, b.blankRow, b.blankCol, row, 0, row, 1);
    Board(g, b.n, b.blankRow, b.blankCol, ManhattanSum(g))
  }

  method Twin(b: Board) returns (t: Board)
    requires ValidBoard(b)
    ensures t == TwinOf(b)
    ensures t.tiles == Exchanged(b.tiles, TwinRow(b), 0, TwinRow(b), 1)
    ensures t.blankRow == b.blankRow && t.blankCol == b.blankCol
    ensures t.cachedManhattan == ManhattanSum(t.tiles)
  {
    var row: int;
    if b.blankRow == b.n - 1 {
      row := 0;
    } else {
      row := b.n - 1;
    }
    var newBlocks := Swap(b.tiles, row, 0, row, 1);
    SwappingTiles(b.tiles, b.blankRow, b.blankCol, row, 0, row, 1);
    t := NewBoard(newBlocks);
  }

  /** The twin of the twin is the board itself: the blank stays, so the same row is chosen again. */
  lemma TwinInvolution(b: Board)
    requires ValidBoard(b)
    ensures TwinOf(TwinOf(b)) == b
  {
    var t := TwinOf(b);
    ExchangedTwice(b.tiles, TwinRow(b), 0, TwinRow(b), 1);
    ValidBoardsDeterminedByTiles(TwinOf(t), b);
  }

  /** Direction e, offset (DY[e], DX[e]) from the blank, leads to a cell on the board. */
  predicate Open(b: Board, e: int)
    requires 0 <= e < 4
  {
    OnBoard(b, b.blankRow + DY[e], b.blankCol + DX[e])
  }

  /**
   * The board reached by moving the blank of b in direction e: the tile at
   * (blankRow + DY[e], blankCol + DX[e]) slides into the blank.
   */
  ghost function MoveIn(b: Board, e: int): (m: Board)
    requires ValidBoard(b) && 0 <= e < 4 && Open(b, e)
    ensures ValidBoard(m) && m.n == b.n
    ensures m.tiles == Exchanged(b.tiles, m.blankRow, m.blankCol, b.blankRow, b.blankCol)
    ensures m.blankRow == b.blankRow + DY[e] && m.blankCol == b.blankCol + DX[e]
  {
    var row := b.blankRow + DY[e];
    var col := b.blankCol + DX[e];
    var g := Exchanged(b.tiles, row, col, b.blankRow, b.blankCol);
    MovingBlank(b.tiles, b.blankRow, b.blankCol, row, col);
    Board(g, b.n, row, col, ManhattanSum(g))
  }

  /** The open directions among the first d, in the order neighbors() tries them. */
  function OpenDirections(b: Board, d: int): (ds: seq<int>)
    requires 0 <= d <= 4
    ensures |ds| <= d
    ensures forall k :: 0 <= k < |ds| ==> 0 <= ds[k] < d && Open(b, ds[k])
  {
    if d == 0 then []
    else OpenDirections(b, d - 1) + (if Open(b, d - 1) then [d - 1] else [])
  }

  /** The directions are listed in increasing order, so none twice. */
  lemma {:induction false} OpenDirectionsSorted(b: Board, d: int)
    requires 0 <= d <= 4
    ensures forall k1, k2 :: 0 <= k1 < k2 < |OpenDirections(b, d)| ==>
      OpenDirections(b, d)[k1] < OpenDirections(b, d)[k2]
  {
    if d > 0 {
      OpenDirectionsSorted(b, d - 1);
    }
  }

  /** Every open direction among the first d is listed. */
  lemma {:induction false} OpenDirectionsComplete(b: Board, d: int, e: int)
    requires 0 <= e < d <= 4 && Open(b, e)
    ensures e in OpenDirections(b, d)
  {
    if e < d - 1 {
      OpenDirectionsComplete(b, d - 1, e);
    }
  }

  /** The board of each direction of ds, in order. */
  ghost function MovesIn(b: Board, ds: seq<int>): (ns: seq<Board>)
    requires ValidBoard(b)
    requires forall k :: 0 <= k < |ds| ==> 0 <= ds[k] < 4 && Open(b, ds[k])
  {
    seq(|ds|, k requires 0 <= k < |ds| => MoveIn(b, ds[k]))
  }

  /** The boards neighbors() returns: one per open direction, in direction order. */
  ghost function NeighborBoards(b: Board): (ns: seq<Board>)
    requires ValidBoard(b)
    ensures |ns| <= 4
    ensures forall k :: 0 <= k < |ns| ==> ValidBoard(ns[k])
  {
    MovesIn(b, OpenDirections(b, 4))
  }

  /** Appending a direction appends its board. */
  lemma MovesInAppend(b: Board, ds: seq<int>, e: int)
    requires ValidBoard(b) && 0 <= e < 4 && Open(b, e)
    requires forall k :: 0 <= k < |ds| ==> 0 <= ds[k] < 4 && Open(b, ds[k])
    ensures MovesIn(b, ds + [e]) == MovesIn(b, ds) + [MoveIn(b, e)]
  {
  }

  /** One branch of neighbors(): a copy of the grid with the blank and the tile in direction e swapped, made a board. */
  method NeighborIn(b: Board, e: int) returns (next: Board)
    requires ValidBoard(b) && 0 <= e < 4 && Open(b, e)
    ensures next == MoveIn(b, e)
  {
    var row := b.blankRow + DY[e];
    var col := b.blankCol + DX[e];
    var newBlocks := Swap(b.tiles, row, col, b.blankRow, b.blankCol);
    MovingBlank(b.tiles, b.blankRow, b.blankCol, row, col);
    next := NewBoard(newBlocks);
    ghost var m := MoveIn(b, e);
    assert next.tiles == m.tiles;
  }

  /** neighbors(): tries the four directions in order and queues the board of each open one. */
  method Neighbors(b: Board) returns (ns: seq<Board>)
    requires ValidBoard(b)
    ensures ns == NeighborBoards(b)
  {
    ns := [];
    for i := 0 to 4
      invariant ns == MovesIn(b, OpenDirections(b, i))
    {
      var row := b.blankRow + DY[i];
      var col := b.blankCol + DX[i];
      if OnBoard(b, row, col) {
        var next := NeighborIn(b, i);
        MovesInAppend(b, OpenDirections(b, i), i);
        ns := ns + [next];
      }
    }
  }

  // ---------------------------------------------------------------------------
  // Properties of the board operations

  /** The board of an open direction is among the neighbors. */
  lemma NeighborAt(b: Board, e: int)
    requires ValidBoard(b) && 0 <= e < 4 && Open(b, e)
    ensures MoveIn(b, e) in NeighborBoards(b)
  {
    var ds := OpenDirections(b, 4);
    OpenDirectionsComplete(b, 4, e);
    var k :| 0 <= k < |ds| && ds[k] == e;
    assert NeighborBoards(b)[k] == MoveIn(b, e);
  }

  /** Which of the four directions takes the blank of b to the blank of c. */
  function Direction(b: Board, c: Board): int {
    var dr, dc := c.blankRow - b.blankRow, c.blankCol - b.blankCol;
    if dr == DY[0] && dc == DX[0] then 0
    else if dr == DY[1] && dc == DX[1] then 1
    else if dr == DY[2] && dc == DX[2] then 2
    else 3
  }

  /** The tables dx and dy list exactly the four one-cell orthogonal steps. */
  lemma DirectionTables(dy: int, dx: int)
    ensures Abs(dy) + Abs(dx) == 1 <==> exists e :: 0 <= e < 4 && DY[e] == dy && DX[e] == dx
  {
    if Abs(dy) + Abs(dx) == 1 {
      var e := if dx == 1 then 0 else if dx == -1 then 1 else if dy == 1 then 2 else 3;
      assert DY[e] == dy && DX[e] == dx;
    }
  }

  /** The offsets of the four directions are pairwise different, so a blank's displacement names its direction. */
  lemma DirectionOfOffset(b: Board, c: Board, e: int)
    requires 0 <= e < 4
    requires c.blankRow == b.blankRow + DY[e] && c.blankCol == b.blankCol + DX[e]
    ensures Direction(b, c) == e
  {
  }

  /** Each neighbor is the board of an open direction. */
  lemma NeighborDirection(b: Board, c: Board)
    requires ValidBoard(b) && c in NeighborBoards(b)
    ensures 0 <= Direction(b, c) < 4 && Open(b, Direction(b, c)) && c == MoveIn(b, Direction(b, c))
  {
    var ns, ds := NeighborBoards(b), OpenDirections(b, 4);
    var k :| 0 <= k < |ns| && ns[k] == c;
    var e := ds[k];
    assert c == MoveIn(b, e);
    DirectionOfOffset(b, c, e);
  }

  /** A board has between two and four neighbors. */
  lemma NeighborCount(b: Board)
    requires ValidBoard(b)
    ensures 2 <= |NeighborBoards(b)| <= 4
  {
    OpenCount(b);
  }

  /** On a board at least 2 wide, one horizontal and one vertical direction are open. */
  lemma OpenCount(b: Board)
    requires b.n >= 2 && OnBoard(b, b.blankRow, b.blankCol)
    ensures 0 in OpenDirections(b, 4) || 1 in OpenDirections(b, 4)
    ensures 2 in OpenDirections(b, 4) || 3 in OpenDirections(b, 4)
    ensures |OpenDirections(b, 4)| >= 2
  {
    var ds := OpenDirections(b, 4);
    var eh := if b.blankCol + 1 < b.n then 0 else 1;
    var ev := if b.blankRow + 1 < b.n then 2 else 3;
    OpenDirectionsComplete(b, 4, eh);
    OpenDirectionsComplete(b, 4, ev);
    var kh :| 0 <= kh < |ds| && ds[kh] == eh;
    var kv :| 0 <= kv < |ds| && ds[kv] == ev;
    assert kh != kv;
  }

  /** Two valid boards whose blanks are in different cells have different grids. */
  lemma BlanksApart(x: Board, y: Board)
    requires ValidBoard(x) && ValidBoard(y) && x.n == y.n
    requires x.blankRow != y.blankRow || x.blankCol != y.blankCol
    ensures x.tiles != y.tiles
  {
    assert x.tiles[x.blankRow][x.blankCol] == 0;
    assert y.tiles[x.blankRow][x.blankCol] != 0;
  }

  /** The neighbors of a board are pairwise different grids. */
  lemma NeighborsDistinct(b: Board)
    requires ValidBoard(b)
    ensures forall k1, k2 :: 0 <= k1 < k2 < |NeighborBoards(b)| ==>
      NeighborBoards(b)[k1].tiles != NeighborBoards(b)[k2].tiles
  {
    var ns, ds := NeighborBoards(b), OpenDirections(b, 4);
    OpenDirectionsSorted(b, 4);
    forall k1, k2 | 0 <= k1 < k2 < |ns| ensures ns[k1].tiles != ns[k2].tiles {
      var x, y := ns[k1], ns[k2];
      assert x == MoveIn(b, ds[k1]) && y == MoveIn(b, ds[k2]);
      DirectionOfOffset(b, x, ds[k1]);
      DirectionOfOffset(b, y, ds[k2]);
      BlanksApart(x, y);
    }
  }

  /** The direction that undoes direction e. */
  function Opposite(e: int): int {
    if e == 0 then 1 else if e == 1 then 0 else if e == 2 then 3 else 2
  }

  /** Moving the blank back the way it came restores the board. */
  lemma MoveUndone(b: Board, e: int)
    requires ValidBoard(b) && 0 <= e < 4 && Open(b, e)
    ensures Open(MoveIn(b, e), Opposite(e))
    ensures MoveIn(MoveIn(b, e), Opposite(e)) == b
  {
    var c := MoveIn(b, e);
    var back := MoveIn(c, Opposite(e));
    assert back.tiles == Exchanged(c.tiles, b.blankRow, b.blankCol, c.blankRow, c.blankCol);
    ExchangedSymmetric(b.tiles, c.blankRow, c.blankCol, b.blankRow, b.blankCol);
    ExchangedTwice(b.tiles, b.blankRow, b.blankCol, c.blankRow, c.blankCol);
    ValidBoardsDeterminedByTiles(back, b);
  }

  /** Moves can be undone: a board is among the neighbors of each of its neighbors. */
  lemma NeighborSymmetric(b: Board, c: Board)
    requires ValidBoard(b) && c in NeighborBoards(b)
    ensures ValidBoard(c) && b in NeighborBoards(c)
  {
    NeighborDirection(b, c);
    var e := Direction(b, c);
    MoveUndone(b, e);
    NeighborAt(c, Opposite(e));
  }

  /**
   * c is b after one slide: c's blank lies one step from b's in the direction
   * of the offsets DX, DY that matches, and c is b with that move made.
   */
  ghost predicate Slide(b: Board, c: Board) {
    && ValidBoard(b)
    && 0 <= Direction(b, c) < 4
    && Open(b, Direction(b, c))
    && c == MoveIn(b, Direction(b, c))
  }

  /** A slide moves the blank to an orthogonally adjacent cell and keeps the board valid. */
  lemma SlideAdjacent(b: Board, c: Board)
    requires Slide(b, c)
    ensures ValidBoard(c) && c.n == b.n
    ensures Abs(c.blankRow - b.blankRow) + Abs(c.blankCol - b.blankCol) == 1
  {
  }

  /** Every neighbor of a board is one slide away. */
  lemma NeighborIsSlide(b: Board, c: Board)
    requires ValidBoard(b) && c in NeighborBoards(b)
    ensures Slide(b, c)
  {
    NeighborDirection(b, c);
  }

  /** Every board one slide away is a neighbor. */
  lemma SlideIsNeighbor(b: Board, c: Board)
    requires Slide(b, c)
    ensures c in NeighborBoards(b)
  {
    NeighborAt(b, Direction(b, c));
  }

  /** A well-formed board is the goal exactly when its Manhattan distance is 0. */
  lemma GoalIffManhattanZero(b: Board)
    requires ValidBoard(b)
    ensures IsGoalGrid(b.tiles) <==> b.cachedManhattan == 0
  {
    ManhattanZeroIffHome(b.tiles);
    HomeIffGoal(b.tiles, b.blankRow, b.blankCol);
  }

  /** A well-formed board is the goal exactly when no tile is out of place. */
  lemma GoalIffHammingZero(b: Board)
    requires ValidBoard(b)
    ensures IsGoalGrid(b.tiles) <==> GridOutOfPlace(b.tiles, b.n) == 0
  {
    HomeIffGoal(b.tiles, b.blankRow, b.blankCol);
  }
}
