/**
 * The game object: the board array and the two flags the click handler
 * updates in place. Each method is proved against the rules in module Rules
 * and the scan specification in module WinCheck.
 */
module Gomoku {
  import opened Board
  import opened WinCheck
  import opened Rules

  class Game {
    /** board[i, j] is the code of column i, row j: 0 empty, 1 black, 2 white. */
    var board: array2<int>
    var isBlackTurn: bool
    var gameOver: bool

    ghost predicate Valid()
      reads this
    {
      board.Length0 == GRID_SIZE && board.Length1 == GRID_SIZE
    }

    /** The board's contents as a value. */
    ghost function Cells(): (g: Grid)
      requires Valid()
      reads this, board
      ensures WellFormed(g)
      ensures forall i, j :: InBounds(i, j) ==> g[i][j] == board[i, j]
    {
      var b := board;
      seq(GRID_SIZE, i requires 0 <= i < b.Length0 reads b =>
        seq(GRID_SIZE, j requires 0 <= j < b.Length1 reads b => b[i, j]))
    }

    ghost function State(): GameState
      requires Valid()
      reads this, board
    {
      GameState(Cells(), isBlackTurn, gameOver)
    }

    /** A new game: the board is allocated and reset. */
    constructor ()
      ensures Valid() && fresh(board)
      ensures State() == Initial()
    {
      board := new int[GRID_SIZE, GRID_SIZE];
      isBlackTurn := true;
      gameOver := false;
      new;
      Init();
    }

    /** Reset: every cell empty, black to move, game in progress. */
    method Init()
      requires Valid()
      modifies this`isBlackTurn, this`gameOver, board
      ensures Valid()
      ensures State() == Initial()
    {
      for i := 0 to GRID_SIZE
        invariant forall k, l :: 0 <= k < i && 0 <= l < GRID_SIZE ==> board[k, l] == EMPTY
      {
        for j := 0 to GRID_SIZE
          invariant forall k, l :: 0 <= k < i && 0 <= l < GRID_SIZE ==> board[k, l] == EMPTY
          invariant forall l :: 0 <= l < j ==> board[i, l] == EMPTY
        {
          board[i, j] := EMPTY;
        }
      }
      isBlackTurn := true;
      gameOver := false;
      SameGrid(Cells(), Initial().board);
    }

    /** Record a stone of the given side on (i, j). */
    method PlacePiece(i: int, j: int, isBlack: bool)
      requires Valid() && InBounds(i, j)
      modifies board
      ensures Valid()
      ensures Cells() == Place(old(Cells()), i, j, Stone(isBlack))
    {
      board[i, j] := if isBlack then BLACK else WHITE;
      SameGrid(Cells(), Place(old(Cells()), i, j, Stone(isBlack)));
    }

    /**
     * Handle a click on grid cell (i, j): ignored when the game is over, the
     * cell is off the board or occupied; otherwise place the mover's stone,
     * then end the game on a win or pass the turn.
     */
    method Click(i: int, j: int)
      requires Valid()
      modifies this`isBlackTurn, this`gameOver, board
      ensures Valid()
      ensures State() == Step(old(State()), i, j)
    {
      if gameOver {
        return;
      }
      if i < 0 || i >= GRID_SIZE || j < 0 || j >= GRID_SIZE {
        return;
      }
      if board[i, j] == EMPTY {
        PlacePiece(i, j, isBlackTurn);
        var win := CheckWin(i, j);
        if win {
          gameOver := true;
        } else {
          isBlackTurn := !isBlackTurn;
        }
      }
    }

    /**
     * The win scan: for each orientation, count the stone at (x, y) plus the
     * cells of its colour reached by walking both ways; win when some count
     * reaches WIN_LENGTH.
     */
    method CheckWin(x: int, y: int) returns (win: bool)
      requires Valid() && InBounds(x, y)
      ensures win == IsWin(Cells(), x, y)
      ensures win <==> FiveInRow(Cells(), x, y)
    {
      ghost var g := Cells();
      WinIsFiveInRow(g, x, y);
      DirectionsAreOrientations();
      var color := board[x, y];
      for o := 0 to |DIRECTIONS|
        invariant forall p :: 0 <= p < o ==> LineLength(g, x, y, p) < WIN_LENGTH
      {
        var dir := DIRECTIONS[o];
        var count := 1;
        for k := 0 to |dir|
          invariant count == RunCount(g, x, y, dir, k)
        {
          var delta := dir[k];
          var i := x + delta.0;
          var j := y + delta.1;
          while i >= 0 && i < GRID_SIZE && j >= 0 && j < GRID_SIZE && board[i, j] == color
            invariant count + Walk(g, color, i, j, delta) == RunCount(g, x, y, dir, k + 1)
            decreases Dist(i, delta.0) + Dist(j, delta.1)
          {
            count := count + 1;
            i := i + delta.0;
            j := j + delta.1;
          }
        }
        assert count == LineLength(g, x, y, o);
        if count >= WIN_LENGTH {
          return true;
        }
      }
      return false;
    }
  }

  /** Two well-formed grids that agree on every cell are equal. */
  lemma SameGrid(g: Grid, h: Grid)
    requires WellFormed(g) && WellFormed(h)
    requires forall i, j :: InBounds(i, j) ==> g[i][j] == h[i][j]
    ensures g == h
  {
    forall i | 0 <= i < GRID_SIZE
      ensures g[i] == h[i]
    {
      assert forall j :: 0 <= j < GRID_SIZE ==> g[i][j] == h[i][j];
    }
  }
}
