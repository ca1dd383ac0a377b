/**
 * The Gomoku board as a value: a GRID_SIZE x GRID_SIZE grid of cell codes
 * (0 empty, 1 black, 2 white), indexed as grid[i][j] with i the column and
 * j the row, exactly as the game's two-dimensional array is.
 */
module Board {

  /** Number of lines in each direction: a 15x15 board. */
  const GRID_SIZE: int := 15

  /** Cell codes stored in the board. */
  const EMPTY: int := 0
  const BLACK: int := 1
  const WHITE: int := 2

  type Grid = seq<seq<int>>

  predicate InBounds(i: int, j: int) {
    0 <= i < GRID_SIZE && 0 <= j < GRID_SIZE
  }

  /** A grid has GRID_SIZE columns of GRID_SIZE cells each. */
  predicate WellFormed(g: Grid) {
    |g| == GRID_SIZE && forall i :: 0 <= i < |g| ==> |g[i]| == GRID_SIZE
  }

  /** Every cell holds one of the three cell codes. */
  ghost predicate CodesValid(g: Grid)
    requires WellFormed(g)
  {
    forall i, j :: InBounds(i, j) ==> g[i][j] in {EMPTY, BLACK, WHITE}
  }

  /** The board with no stone on it. */
  function EmptyGrid(): (g: Grid)
    ensures WellFormed(g) && CodesValid(g)
    ensures forall i, j :: InBounds(i, j) ==> g[i][j] == EMPTY
  {
    seq(GRID_SIZE, _ => seq(GRID_SIZE, _ => EMPTY))
  }

  /** The grid with cell (i, j) set to v. */
  function Place(g: Grid, i: int, j: int, v: int): (r: Grid)
    requires WellFormed(g) && InBounds(i, j)
    ensures WellFormed(r)
    ensures r[i][j] == v
    ensures forall k, l :: InBounds(k, l) && (k != i || l != j) ==> r[k][l] == g[k][l]
  {
    g[i := g[i][j := v]]
  }

  /** Number of entries of row equal to c. */
  function RowCount(row: seq<int>, c: int): nat {
    if row == [] then 0 else (if row[0] == c then 1 else 0) + RowCount(row[1..], c)
  }

  /** Number of cells of g holding c. */
  function StoneCount(g: seq<seq<int>>, c: int): nat {
    if g == [] then 0 else RowCount(g[0], c) + StoneCount(g[1..], c)
  }

  /** Writing one entry changes a row's count only by that entry's old and new value. */
  lemma {:induction false} RowCountUpdate(row: seq<int>, j: int, v: int, c: int)
    requires 0 <= j < |row|
    ensures RowCount(row[j := v], c)
         == RowCount(row, c) - (if row[j] == c then 1 else 0) + (if v == c then 1 else 0)
  {
    if j > 0 {
      assert row[j := v][1..] == row[1..][j - 1 := v];
      RowCountUpdate(row[1..], j - 1, v, c);
    } else {
      assert row[j := v][1..] == row[1..];
    }
  }

  /** Writing one cell changes a grid's count only by that cell's old and new value. */
  lemma {:induction false} StoneCountPlace(g: seq<seq<int>>, i: int, j: int, v: int, c: int)
    requires 0 <= i < |g| && 0 <= j < |g[i]|
    ensures StoneCount(g[i := g[i][j := v]], c)
         == StoneCount(g, c) - (if g[i][j] == c then 1 else 0) + (if v == c then 1 else 0)
  {
    if i > 0 {
      assert g[i := g[i][j := v]][1..] == g[1..][i - 1 := g[1..][i - 1][j := v]];
      StoneCountPlace(g[1..], i - 1, j, v, c);
    } else {
      assert g[i := g[i][j := v]][1..] == g[1..];
      RowCountUpdate(g[0], j, v, c);
    }
  }

  lemma {:induction false} RowCountNone(row: seq<int>, c: int)
    requires forall k :: 0 <= k < |row| ==> row[k] != c
    ensures RowCount(row, c) == 0
  {
    if row != [] {
      RowCountNone(row[1..], c);
    }
  }

  lemma {:induction false} StoneCountNone(g: seq<seq<int>>, c: int)
    requires forall i, j :: 0 <= i < |g| && 0 <= j < |g[i]| ==> g[i][j] != c
    ensures StoneCount(g, c) == 0
  {
    if g != [] {
      RowCountNone(g[0], c);
      StoneCountNone(g[1..], c);
    }
  }

  /** The empty board holds no black and no white stone. */
  lemma EmptyGridHasNoStones()
    ensures StoneCount(EmptyGrid(), BLACK) == 0 && StoneCount(EmptyGrid(), WHITE) == 0
  {
    StoneCountNone(EmptyGrid(), BLACK);
    StoneCountNone(EmptyGrid(), WHITE);
  }
}
