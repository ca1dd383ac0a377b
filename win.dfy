/**
 * Win detection: whether the stone at (x, y) completes five in a row.
 *
 * IsWin is the scan the game performs (two directional walks per
 * orientation, counted from the placed stone); FiveInRow is an independent
 * statement of the rule (five consecutive cells of the placed stone's colour
 * on one of the four lines through it). WinIsFiveInRow proves they agree.
 */
module WinCheck {
  import opened Board

  /** A step vector (di, dj) on the board. */
  type Delta = (int, int)

  /** A run of this many stones wins. */
  const WIN_LENGTH: int := 5

  /** The four orientations (horizontal, vertical, `\` and `/`), each as a pair of opposite steps. */
  const DIRECTIONS: seq<seq<Delta>> :=
    [[(1, 0), (-1, 0)], [(0, 1), (0, -1)], [(1, 1), (-1, -1)], [(1, -1), (-1, 1)]]

  predicate IsDirection(d: Delta) {
    -1 <= d.0 <= 1 && -1 <= d.1 <= 1 && d != (0, 0)
  }

  /** An orientation is a direction followed by its opposite. */
  predicate IsOrientation(dir: seq<Delta>) {
    |dir| == 2 && IsDirection(dir[0]) && dir[1] == (-dir[0].0, -dir[0].1)
  }

  lemma DirectionsAreOrientations()
    ensures |DIRECTIONS| == 4
    ensures forall o :: 0 <= o < |DIRECTIONS| ==> IsOrientation(DIRECTIONS[o])
  {
  }

  /** How many more steps of sign d a coordinate i can take before leaving the board. */
  function Dist(i: int, d: int): int {
    if d > 0 then GRID_SIZE - i else if d < 0 then i + 1 else 0
  }

  /** Coordinate i moved k steps of sign d (d is -1, 0 or 1). */
  function Along(i: int, k: int, d: int): int {
    if d > 0 then i + k else if d < 0 then i - k else i
  }

  /** Cell (i, j) is on the board and holds c. */
  predicate Holds(g: Grid, c: int, i: int, j: int)
    requires WellFormed(g)
  {
    InBounds(i, j) && g[i][j] == c
  }

  /**
   * The walk of the scan: the number of consecutive cells, starting at
   * (i, j) and stepping by d, that are on the board and hold c.
   */
  function Walk(g: Grid, c: int, i: int, j: int, d: Delta): nat
    requires WellFormed(g) && IsDirection(d)
    decreases Dist(i, d.0) + Dist(j, d.1)
  {
    if Holds(g, c, i, j) then 1 + Walk(g, c, i + d.0, j + d.1, d) else 0
  }

  /** The walk from the neighbour of (x, y) in direction d, over cells of (x, y)'s colour. */
  function Reach(g: Grid, x: int, y: int, d: Delta): nat
    requires WellFormed(g) && InBounds(x, y) && IsDirection(d)
  {
    Walk(g, g[x][y], x + d.0, y + d.1, d)
  }

  /** The scan's count after walking the first k steps of dir: the stone itself plus each walk. */
  function RunCount(g: Grid, x: int, y: int, dir: seq<Delta>, k: nat): nat
    requires WellFormed(g) && InBounds(x, y)
    requires k <= |dir| && forall t :: 0 <= t < |dir| ==> IsDirection(dir[t])
  {
    if k == 0 then 1 else RunCount(g, x, y, dir, k - 1) + Reach(g, x, y, dir[k - 1])
  }

  /** The count the scan reaches for orientation o. */
  function LineLength(g: Grid, x: int, y: int, o: int): nat
    requires WellFormed(g) && InBounds(x, y) && 0 <= o < |DIRECTIONS|
  {
    DirectionsAreOrientations();
    RunCount(g, x, y, DIRECTIONS[o], |DIRECTIONS[o]|)
  }

  /** The scan's verdict: some orientation counts at least WIN_LENGTH stones. */
  predicate IsWin(g: Grid, x: int, y: int)
    requires WellFormed(g) && InBounds(x, y)
  {
    exists o :: 0 <= o < |DIRECTIONS| && LineLength(g, x, y, o) >= WIN_LENGTH
  }

  /**
   * The WIN_LENGTH cells along d at offsets -s .. WIN_LENGTH - 1 - s from
   * (x, y) are all on the board and hold c.
   */
  ghost predicate Window(g: Grid, c: int, x: int, y: int, d: Delta, s: int)
    requires WellFormed(g)
  {
    forall t :: -s <= t < WIN_LENGTH - s ==> Holds(g, c, Along(x, t, d.0), Along(y, t, d.1))
  }

  /** Reference rule: (x, y) is one of five consecutive stones of its colour on some line. */
  ghost predicate FiveInRow(g: Grid, x: int, y: int)
    requires WellFormed(g) && InBounds(x, y)
  {
    DirectionsAreOrientations();
    exists o, s :: 0 <= o < |DIRECTIONS| && 0 <= s < WIN_LENGTH && Window(g, g[x][y], x, y, DIRECTIONS[o][0], s)
  }

  // ---------------------------------------------------------------------
  // What a walk counts

  /** Every cell a walk counts is on the board and holds c. */
  lemma {:induction false} WalkCells(g: Grid, c: int, i: int, j: int, d: Delta, k: nat)
    requires WellFormed(g) && IsDirection(d)
    requires k < Walk(g, c, i, j, d)
    ensures Holds(g, c, Along(i, k, d.0), Along(j, k, d.1))
    decreases k
  {
    if k > 0 {
      WalkCells(g, c, i + d.0, j + d.1, d, k - 1);
    }
  }

  /** A walk stops at the first cell that is off the board or holds something other than c. */
  lemma {:induction false} WalkStops(g: Grid, c: int, i: int, j: int, d: Delta)
    requires WellFormed(g) && IsDirection(d)
    ensures !Holds(g, c, Along(i, Walk(g, c, i, j, d), d.0), Along(j, Walk(g, c, i, j, d), d.1))
    decreases Dist(i, d.0) + Dist(j, d.1)
  {
    if Holds(g, c, i, j) {
      WalkStops(g, c, i + d.0, j + d.1, d);
    }
  }

  /** A walk counts at least every run of c-cells that starts where it starts. */
  lemma {:induction false} WalkAtLeast(g: Grid, c: int, i: int, j: int, d: Delta, n: nat)
    requires WellFormed(g) && IsDirection(d)
    requires forall t :: 0 <= t < n ==> Holds(g, c, Along(i, t, d.0), Along(j, t, d.1))
    ensures n <= Walk(g, c, i, j, d)
    decreases n
  {
    if n > 0 {
      assert Holds(g, c, Along(i, 0, d.0), Along(j, 0, d.1));
      var i', j' := i + d.0, j + d.1;
      forall t | 0 <= t < n - 1
        ensures Holds(g, c, Along(i', t, d.0), Along(j', t, d.1))
      {
        assert Holds(g, c, Along(i, t + 1, d.0), Along(j, t + 1, d.1));
      }
      WalkAtLeast(g, c, i', j', d, n - 1);
    }
  }

  /** While the coordinate moved by a nonzero step can stay on the board, it bounds the walk. */
  lemma {:induction false} WalkBoundedBy(g: Grid, c: int, i: int, j: int, d: Delta)
    requires WellFormed(g) && IsDirection(d)
    requires d.0 != 0 ==> Dist(i, d.0) >= 0
    requires d.0 == 0 ==> Dist(j, d.1) >= 0
    ensures Walk(g, c, i, j, d) <= if d.0 != 0 then Dist(i, d.0) else Dist(j, d.1)
    decreases Dist(i, d.0) + Dist(j, d.1)
  {
    if Holds(g, c, i, j) {
      WalkBoundedBy(g, c, i + d.0, j + d.1, d);
    }
  }

  /** Each walk of the scan takes fewer than GRID_SIZE steps. */
  lemma ReachBounded(g: Grid, x: int, y: int, d: Delta)
    requires WellFormed(g) && InBounds(x, y) && IsDirection(d)
    ensures Reach(g, x, y, d) <= GRID_SIZE - 1
  {
    WalkBoundedBy(g, g[x][y], x + d.0, y + d.1, d);
  }

  /** A walk sees only which cells hold c: what the other cells hold does not matter. */
  lemma {:induction false} WalkSeesOnlyColour(g: Grid, h: Grid, c: int, i: int, j: int, d: Delta)
    requires WellFormed(g) && WellFormed(h) && IsDirection(d)
    requires forall k, l :: InBounds(k, l) ==> (g[k][l] == c <==> h[k][l] == c)
    ensures Walk(g, c, i, j, d) == Walk(h, c, i, j, d)
    decreases Dist(i, d.0) + Dist(j, d.1)
  {
    if Holds(g, c, i, j) {
      WalkSeesOnlyColour(g, h, c, i + d.0, j + d.1, d);
    }
  }

  // ---------------------------------------------------------------------
  // The scan decides the rule

  /** The count of an orientation is the stone plus the walks both ways. */
  lemma LineLengthBothWays(g: Grid, x: int, y: int, o: int)
    requires WellFormed(g) && InBounds(x, y) && 0 <= o < |DIRECTIONS|
    ensures IsOrientation(DIRECTIONS[o])
    ensures LineLength(g, x, y, o) == 1 + Reach(g, x, y, DIRECTIONS[o][0]) + Reach(g, x, y, DIRECTIONS[o][1])
  {
    DirectionsAreOrientations();
    var dir := DIRECTIONS[o];
    assert RunCount(g, x, y, dir, 1) == 1 + Reach(g, x, y, dir[0]);
  }

  /** A run of at least WIN_LENGTH through (x, y) along d contains a window of WIN_LENGTH cells. */
  lemma LongRunHasWindow(g: Grid, x: int, y: int, d: Delta)
    requires WellFormed(g) && InBounds(x, y) && IsDirection(d)
    requires 1 + Reach(g, x, y, d) + Reach(g, x, y, (-d.0, -d.1)) >= WIN_LENGTH
    ensures exists s :: 0 <= s < WIN_LENGTH && Window(g, g[x][y], x, y, d, s)
  {
    var c := g[x][y];
    var e: Delta := (-d.0, -d.1);
    var back := Reach(g, x, y, e);
    var s := if back < WIN_LENGTH - 1 then back else WIN_LENGTH - 1;
    forall t | -s <= t < WIN_LENGTH - s
      ensures Holds(g, c, Along(x, t, d.0), Along(y, t, d.1))
    {
      if t > 0 {
        WalkCells(g, c, x + d.0, y + d.1, d, t - 1);
      } else if t < 0 {
        WalkCells(g, c, x + e.0, y + e.1, e, -t - 1);
      }
    }
    assert Window(g, c, x, y, d, s);
  }

  /** A window of WIN_LENGTH cells through (x, y) along d makes the two walks long enough. */
  lemma WindowMakesLongRun(g: Grid, x: int, y: int, d: Delta, s: int)
    requires WellFormed(g) && InBounds(x, y) && IsDirection(d)
    requires 0 <= s < WIN_LENGTH && Window(g, g[x][y], x, y, d, s)
    ensures 1 + Reach(g, x, y, d) + Reach(g, x, y, (-d.0, -d.1)) >= WIN_LENGTH
  {
    var c := g[x][y];
    var e: Delta := (-d.0, -d.1);
    var foreX, foreY := x + d.0, y + d.1;
    forall t | 0 <= t < WIN_LENGTH - 1 - s
      ensures Holds(g, c, Along(foreX, t, d.0), Along(foreY, t, d.1))
    {
      assert Holds(g, c, Along(x, t + 1, d.0), Along(y, t + 1, d.1));
    }
    WalkAtLeast(g, c, foreX, foreY, d, WIN_LENGTH - 1 - s);
    var backX, backY := x + e.0, y + e.1;
    forall t | 0 <= t < s
      ensures Holds(g, c, Along(backX, t, e.0), Along(backY, t, e.1))
    {
      assert Holds(g, c, Along(x, -t - 1, d.0), Along(y, -t - 1, d.1));
    }
    WalkAtLeast(g, c, backX, backY, e, s);
  }

  /** The scan wins exactly when the placed stone is one of five in a row; longer runs win too. */
  lemma WinIsFiveInRow(g: Grid, x: int, y: int)
    requires WellFormed(g) && InBounds(x, y)
    ensures IsWin(g, x, y) <==> FiveInRow(g, x, y)
  {
    DirectionsAreOrientations();
    if IsWin(g, x, y) {
      var o :| 0 <= o < |DIRECTIONS| && LineLength(g, x, y, o) >= WIN_LENGTH;
      LineLengthBothWays(g, x, y, o);
      LongRunHasWindow(g, x, y, DIRECTIONS[o][0]);
      var s :| 0 <= s < WIN_LENGTH && Window(g, g[x][y], x, y, DIRECTIONS[o][0], s);
      assert 0 <= o < |DIRECTIONS| && 0 <= s < WIN_LENGTH && Window(g, g[x][y], x, y, DIRECTIONS[o][0], s);
    }
    if FiveInRow(g, x, y) {
      var o, s :| 0 <= o < |DIRECTIONS| && 0 <= s < WIN_LENGTH && Window(g, g[x][y], x, y, DIRECTIONS[o][0], s);
      WindowMakesLongRun(g, x, y, DIRECTIONS[o][0], s);
      LineLengthBothWays(g, x, y, o);
    }
  }

  /** One orientation's count sees only which cells hold the placed stone's colour. */
  lemma LineLengthSeesOnlyColour(g: Grid, h: Grid, x: int, y: int, o: int)
    requires WellFormed(g) && WellFormed(h) && InBounds(x, y) && 0 <= o < |DIRECTIONS|
    requires g[x][y] == h[x][y]
    requires forall k, l :: InBounds(k, l) ==> (g[k][l] == g[x][y] <==> h[k][l] == g[x][y])
    ensures LineLength(g, x, y, o) == LineLength(h, x, y, o)
  {
    LineLengthBothWays(g, x, y, o);
    LineLengthBothWays(h, x, y, o);
    var d0, d1 := DIRECTIONS[o][0], DIRECTIONS[o][1];
    WalkSeesOnlyColour(g, h, g[x][y], x + d0.0, y + d0.1, d0);
    WalkSeesOnlyColour(g, h, g[x][y], x + d1.0, y + d1.1, d1);
  }

  /**
   * Only cells of the placed stone's colour take part in the verdict:
   * empty cells and the opponent's stones are interchangeable.
   */
  lemma WinSeesOnlyOwnColour(g: Grid, h: Grid, x: int, y: int)
    requires WellFormed(g) && WellFormed(h) && InBounds(x, y)
    requires g[x][y] == h[x][y]
    requires forall k, l :: InBounds(k, l) ==> (g[k][l] == g[x][y] <==> h[k][l] == g[x][y])
    ensures IsWin(g, x, y) <==> IsWin(h, x, y)
  {
    forall o | 0 <= o < |DIRECTIONS|
      ensures LineLength(g, x, y, o) == LineLength(h, x, y, o)
    {
      LineLengthSeesOnlyColour(g, h, x, y, o);
    }
  }
}
