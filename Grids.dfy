/**
 * Pure facts about square grids of tiles stored row by row, where 0 is the
 * blank.  These are the specification functions the board operations are
 * proved against.
 */
module Grids {

  type Grid = seq<seq<int>>

  /** Every row is as long as there are rows. */
  ghost predicate Square(g: Grid) {
    forall i :: 0 <= i < |g| ==> |g[i]| == |g|
  }

  /** Every tile is one of 0 .. N*N-1. */
  ghost predicate TilesInRange(g: Grid)
    requires Square(g)
  {
    forall i, j :: 0 <= i < |g| && 0 <= j < |g| ==> 0 <= g[i][j] < |g| * |g|
  }

  /** The only blank of the grid is at (br, bc). */
  ghost predicate BlankOnlyAt(g: Grid, br: int, bc: int)
    requires Square(g)
  {
    && 0 <= br < |g| && 0 <= bc < |g| && g[br][bc] == 0
    && forall i, j :: 0 <= i < |g| && 0 <= j < |g| && g[i][j] == 0 ==> i == br && j == bc
  }

  /** A puzzle the solver is given: at least 2-by-2, square, tiles in range, one blank at (br, bc). */
  ghost predicate WellFormed(g: Grid, br: int, bc: int) {
    |g| >= 2 && Square(g) && TilesInRange(g) && BlankOnlyAt(g, br, bc)
  }

  // ---------------------------------------------------------------------------
  // Arithmetic as the source's language does it

  /** Integer division truncating toward zero, as `/` on Java `int`. */
  function JavaDiv(a: int, b: int): (q: int)
    requires b > 0
    ensures a >= 0 ==> 0 <= a - b * q < b
    ensures a < 0 ==> -b < a - b * q <= 0
  {
    if a >= 0 then a / b else -((-a) / b)
  }

  /** The remainder that goes with JavaDiv, as `%` on Java `int`. */
  function JavaRem(a: int, b: int): (r: int)
    requires b > 0
    ensures a == b * JavaDiv(a, b) + r
    ensures a >= 0 ==> 0 <= r < b
    ensures a < 0 ==> -b < r <= 0
  {
    a - b * JavaDiv(a, b)
  }

  function Abs(x: int): int {
    if x < 0 then -x else x
  }

  lemma {:induction false} MulAtLeast(x: int, n: int)
    requires x >= 1 && n >= 0
    ensures x * n >= n
  {
    if x > 1 {
      MulAtLeast(x - 1, n);
      assert x * n == (x - 1) * n + n;
    }
  }

  /** Row-major position i*n + j divides back into row i and column j. */
  lemma RowMajorDivMod(i: int, j: int, n: int)
    requires n > 0 && i >= 0 && 0 <= j < n
    ensures (i * n + j) / n == i && (i * n + j) % n == j
  {
    var a := i * n + j;
    var q, r := a / n, a % n;
    assert a == q * n + r && 0 <= r < n;
    if q > i {
      MulAtLeast(q - i, n);
      assert false;
    } else if q < i {
      MulAtLeast(i - q, n);
      assert false;
    }
  }

  // ---------------------------------------------------------------------------
  // Manhattan distance

  /** How far tile t standing at (i, j) is from its goal cell; the blank counts 0. */
  function TileDistance(t: int, n: int, i: int, j: int): (d: int)
    requires n > 0
    ensures d >= 0
    ensures t == 0 ==> d == 0
  {
    if t == 0 then 0 else Abs(JavaDiv(t - 1, n) - i) + Abs(JavaRem(t - 1, n) - j)
  }

  /** A valid tile is at distance 0 exactly when it is the blank or sits on its goal cell. */
  lemma TileHome(t: int, n: int, i: int, j: int)
    requires n > 0 && t >= 0 && i >= 0 && 0 <= j < n
    ensures TileDistance(t, n, i, j) == 0 <==> (t == 0 || t == i * n + j + 1)
  {
    if t != 0 {
      var a := t - 1;
      assert JavaDiv(a, n) == a / n && JavaRem(a, n) == a % n;
      if t == i * n + j + 1 {
        RowMajorDivMod(i, j, n);
      }
    }
  }

  /** Distance summed over the first k cells of row i. */
  function RowDistance(row: seq<int>, n: int, i: int, k: int): (d: int)
    requires n > 0 && 0 <= k <= |row|
    ensures d >= 0
    ensures d == 0 <==> forall j :: 0 <= j < k ==> TileDistance(row[j], n, i, j) == 0
  {
    if k == 0 then 0 else RowDistance(row, n, i, k - 1) + TileDistance(row[k - 1], n, i, k - 1)
  }

  /** Distance summed over the first k rows. */
  function GridDistance(g: Grid, k: int): (d: int)
    requires Square(g) && 0 <= k <= |g|
    ensures d >= 0
    ensures d == 0 <==> forall i, j :: 0 <= i < k && 0 <= j < |g| ==> TileDistance(g[i][j], |g|, i, j) == 0
  {
    if k == 0 then 0 else GridDistance(g, k - 1) + RowDistance(g[k - 1], |g|, k - 1, |g|)
  }

  /** The Manhattan heuristic: sum over non-blank tiles of their distance to goal. */
  ghost function ManhattanSum(g: Grid): (d: int)
    requires Square(g)
    ensures d >= 0
  {
    GridDistance(g, |g|)
  }

  // ---------------------------------------------------------------------------
  // Hamming distance

  /** Cells among the first k of row i whose tile differs from i*n + j + 1. */
  function RowMismatches(row: seq<int>, n: int, i: int, k: int): (c: int)
    requires 0 <= k <= |row|
    ensures 0 <= c <= k
  {
    if k == 0 then 0 else RowMismatches(row, n, i, k - 1) + (if row[k - 1] != i * n + k then 1 else 0)
  }

  function GridMismatches(g: Grid, k: int): (c: int)
    requires Square(g) && 0 <= k <= |g|
    ensures c >= 0
  {
    if k == 0 then 0 else GridMismatches(g, k - 1) + RowMismatches(g[k - 1], |g|, k - 1, |g|)
  }

  /** Non-blank tiles among the first k of row i that are not on their goal cell. */
  function RowOutOfPlace(row: seq<int>, n: int, i: int, k: int): (c: int)
    requires 0 <= k <= |row|
    ensures 0 <= c <= k
    ensures c == 0 <==> forall j :: 0 <= j < k ==> row[j] == 0 || row[j] == i * n + j + 1
  {
    if k == 0 then 0
    else RowOutOfPlace(row, n, i, k - 1) + (if row[k - 1] != 0 && row[k - 1] != i * n + k then 1 else 0)
  }

  function GridOutOfPlace(g: Grid, k: int): (c: int)
    requires Square(g) && 0 <= k <= |g|
    ensures c >= 0
    ensures c == 0 <==> forall i, j :: 0 <= i < k && 0 <= j < |g| ==> g[i][j] == 0 || g[i][j] == i * |g| + j + 1
  {
    if k == 0 then 0 else GridOutOfPlace(g, k - 1) + RowOutOfPlace(g[k - 1], |g|, k - 1, |g|)
  }

  function RowBlanks(row: seq<int>, k: int): (c: int)
    requires 0 <= k <= |row|
    ensures 0 <= c <= k
  {
    if k == 0 then 0 else RowBlanks(row, k - 1) + (if row[k - 1] == 0 then 1 else 0)
  }

  function GridBlanks(g: Grid, k: int): (c: int)
    requires Square(g) && 0 <= k <= |g|
    ensures c >= 0
  {
    if k == 0 then 0 else GridBlanks(g, k - 1) + RowBlanks(g[k - 1], |g|)
  }

  /** A cell counts as a mismatch exactly when it is the blank or an out-of-place tile. */
  lemma {:induction false} RowMismatchSplit(row: seq<int>, n: int, i: int, k: int)
    requires 0 <= k <= |row| && i >= 0 && n >= 0
    ensures RowMismatches(row, n, i, k) == RowOutOfPlace(row, n, i, k) + RowBlanks(row, k)
  {
    if k > 0 {
      RowMismatchSplit(row, n, i, k - 1);
      assert i * n >= 0;
    }
  }

  lemma {:induction false} GridMismatchSplit(g: Grid, k: int)
    requires Square(g) && 0 <= k <= |g|
    ensures GridMismatches(g, k) == GridOutOfPlace(g, k) + GridBlanks(g, k)
  {
    if k > 0 {
      GridMismatchSplit(g, k - 1);
      RowMismatchSplit(g[k - 1], |g|, k - 1, |g|);
    }
  }

  /** RowBlanks counts the zeros: one when the only zero is at column c, none when there is none. */
  lemma {:induction false} RowBlanksCount(row: seq<int>, k: int, c: int)
    requires 0 <= k <= |row|
    requires forall j :: 0 <= j < k && row[j] == 0 ==> j == c
    ensures RowBlanks(row, k) == (if 0 <= c < k && row[c] == 0 then 1 else 0)
  {
    if k > 0 {
      RowBlanksCount(row, k - 1, c);
    }
  }

  lemma {:induction false} GridBlanksCount(g: Grid, k: int, br: int, bc: int)
    requires Square(g) && 0 <= k <= |g| && BlankOnlyAt(g, br, bc)
    ensures GridBlanks(g, k) == (if br < k then 1 else 0)
  {
    if k > 0 {
      GridBlanksCount(g, k - 1, br, bc);
      RowBlanksCount(g[k - 1], |g|, if k - 1 == br then bc else -1);
    }
  }

  // ---------------------------------------------------------------------------
  // The goal arrangement

  /**
   * The tile the goal test expects at (i, j): 1, 2, ... in row-major order and
   * the blank in the last cell.  On a 1-by-1 grid the test expects 1, because it
   * compares the first cell before it wraps its counter to 0.
   */
  function GoalTile(n: int, i: int, j: int): int {
    if n >= 2 && i == n - 1 && j == n - 1 then 0 else i * n + j + 1
  }

  /** The value the goal test's counter holds when it reaches row-major position k < N*N. */
  function ExpectedTile(n: int, k: int): int {
    if k > 0 && k == n * n - 1 then 0 else k + 1
  }

  lemma ExpectedIsGoalTile(n: int, i: int, j: int)
    requires 0 <= i < n && 0 <= j < n
    ensures ExpectedTile(n, i * n + j) == GoalTile(n, i, j)
  {
    assert n * n == (n - 1) * n + n;
    if i < n - 1 {
      MulAtLeast(n - 1 - i, n);
      assert (n - 1 - i) * n == (n - 1) * n - i * n;
      assert i * n + j < n * n - 1;
    } else {
      assert i * n == (n - 1) * n;
      if n >= 2 {
        MulAtLeast(n - 1, n);
      }
    }
  }

  /** Row-major positions of an N-by-N grid are below N*N. */
  lemma RowMajorBound(n: int, i: int, j: int)
    requires 0 <= i < n && 0 <= j < n
    ensures 0 <= i * n + j < n * n
  {
    assert n * n == (n - 1) * n + n;
    if i < n - 1 {
      MulAtLeast(n - 1 - i, n);
      assert (n - 1 - i) * n == (n - 1) * n - i * n;
    }
    assert i * n >= 0;
  }

  /** One step of the goal test's counter: add one, wrapping to 0 on reaching N*N. */
  lemma ExpectedStep(n: int, k: int)
    requires 0 <= k && k + 1 < n * n
    ensures ExpectedTile(n, k + 1) == (if ExpectedTile(n, k) + 1 == n * n then 0 else ExpectedTile(n, k) + 1)
  {
  }

  ghost predicate IsGoalGrid(g: Grid)
    requires Square(g)
  {
    forall i, j :: 0 <= i < |g| && 0 <= j < |g| ==> g[i][j] == GoalTile(|g|, i, j)
  }

  /** Every non-blank tile is on its goal cell. */
  ghost predicate AllTilesHome(g: Grid)
    requires Square(g)
  {
    forall i, j :: 0 <= i < |g| && 0 <= j < |g| ==> g[i][j] == 0 || g[i][j] == i * |g| + j + 1
  }

  lemma ManhattanZeroIffHome(g: Grid)
    requires Square(g) && TilesInRange(g)
    ensures ManhattanSum(g) == 0 <==> AllTilesHome(g)
  {
    var n := |g|;
    forall i, j | 0 <= i < n && 0 <= j < n
      ensures TileDistance(g[i][j], n, i, j) == 0 <==> (g[i][j] == 0 || g[i][j] == i * n + j + 1)
    {
      TileHome(g[i][j], n, i, j);
    }
  }

  /** On a well-formed grid, all tiles home means the blank is last: the grid is the goal. */
  lemma HomeIffGoal(g: Grid, br: int, bc: int)
    requires WellFormed(g, br, bc)
    ensures AllTilesHome(g) <==> IsGoalGrid(g)
  {
    var n := |g|;
    if AllTilesHome(g) {
      assert (n - 1) * n + (n - 1) + 1 == n * n;
      assert g[n - 1][n - 1] == 0;
      forall i, j | 0 <= i < n && 0 <= j < n
        ensures g[i][j] == GoalTile(n, i, j)
      {
        if !(i == n - 1 && j == n - 1) {
          assert g[i][j] != 0;
        }
      }
    }
  }

  // ---------------------------------------------------------------------------
  // Exchanging two cells

  /** The grid with cells (r1, c1) and (r2, c2) exchanged and every other cell kept. */
  function Exchanged(g: Grid, r1: int, c1: int, r2: int, c2: int): (h: Grid)
    requires Square(g) && 0 <= r1 < |g| && 0 <= c1 < |g| && 0 <= r2 < |g| && 0 <= c2 < |g|
    ensures Square(h) && |h| == |g|
  {
    seq(|g|, i requires 0 <= i < |g| =>
      seq(|g|, j requires 0 <= j < |g| =>
        if i == r1 && j == c1 then g[r2][c2]
        else if i == r2 && j == c2 then g[r1][c1]
        else g[i][j]))
  }

  lemma ExchangedTwice(g: Grid, r1: int, c1: int, r2: int, c2: int)
    requires Square(g) && 0 <= r1 < |g| && 0 <= c1 < |g| && 0 <= r2 < |g| && 0 <= c2 < |g|
    ensures Exchanged(Exchanged(g, r1, c1, r2, c2), r1, c1, r2, c2) == g
  {
    var h := Exchanged(Exchanged(g, r1, c1, r2, c2), r1, c1, r2, c2);
    forall i | 0 <= i < |g| ensures h[i] == g[i] {
      assert |h[i]| == |g[i]|;
    }
  }

  lemma ExchangedSymmetric(g: Grid, r1: int, c1: int, r2: int, c2: int)
    requires Square(g) && 0 <= r1 < |g| && 0 <= c1 < |g| && 0 <= r2 < |g| && 0 <= c2 < |g|
    ensures Exchanged(g, r1, c1, r2, c2) == Exchanged(g, r2, c2, r1, c1)
  {
    var h, h' := Exchanged(g, r1, c1, r2, c2), Exchanged(g, r2, c2, r1, c1);
    forall i | 0 <= i < |g| ensures h[i] == h'[i] {
      assert |h[i]| == |h'[i]|;
    }
  }

  /** Exchanging the blank with another cell moves the blank there and keeps the grid well formed. */
  lemma MovingBlank(g: Grid, br: int, bc: int, r: int, c: int)
    requires WellFormed(g, br, bc) && 0 <= r < |g| && 0 <= c < |g|
    ensures WellFormed(Exchanged(g, r, c, br, bc), r, c)
  {
  }

  /** Exchanging two cells that do not hold the blank keeps the blank and well-formedness. */
  lemma SwappingTiles(g: Grid, br: int, bc: int, r1: int, c1: int, r2: int, c2: int)
    requires WellFormed(g, br, bc)
    requires 0 <= r1 < |g| && 0 <= c1 < |g| && 0 <= r2 < |g| && 0 <= c2 < |g|
    requires !(r1 == br && c1 == bc) && !(r2 == br && c2 == bc)
    ensures WellFormed(Exchanged(g, r1, c1, r2, c2), br, bc)
  {
  }
}
