/**
 * The game's rules on values: the state held by the game (board, side to
 * move, game over), the state a fresh game starts in, and what one click
 * does to it. The class in module Gomoku is proved to follow these rules.
 */
module Rules {
  import opened Board
  import opened WinCheck

  datatype GameState = GameState(board: Grid, isBlackTurn: bool, gameOver: bool)

  /** The cell code of the side to move. */
  function Stone(isBlack: bool): (v: int)
    ensures v == BLACK <==> isBlack
    ensures v == WHITE <==> !isBlack
  {
    if isBlack then BLACK else WHITE
  }

  /** The state after a reset: an empty board, black to move, game in progress. */
  function Initial(): (s: GameState)
    ensures WellFormed(s.board) && CodesValid(s.board)
    ensures forall i, j :: InBounds(i, j) ==> s.board[i][j] == EMPTY
    ensures s.isBlackTurn && !s.gameOver
  {
    GameState(EmptyGrid(), true, false)
  }

  /** A click on (i, j) places a stone: the game is on, (i, j) is on the board and empty. */
  predicate Accepts(s: GameState, i: int, j: int)
    requires WellFormed(s.board)
  {
    !s.gameOver && InBounds(i, j) && s.board[i][j] == EMPTY
  }

  /**
   * One click on grid cell (i, j): ignored unless accepted; otherwise the
   * side to move's stone is written and, if it wins, the game ends with the
   * turn flag left on the winner, else the turn passes.
   */
  function Step(s: GameState, i: int, j: int): (r: GameState)
    requires WellFormed(s.board)
    ensures WellFormed(r.board)
  {
    if !Accepts(s, i, j) then s
    else
      var b := Place(s.board, i, j, Stone(s.isBlackTurn));
      if IsWin(b, i, j) then GameState(b, s.isBlackTurn, true)
      else GameState(b, !s.isBlackTurn, s.gameOver)
  }

  /** The state after a sequence of clicks. */
  function Play(s: GameState, moves: seq<(int, int)>): (r: GameState)
    requires WellFormed(s.board)
    ensures WellFormed(r.board)
    decreases |moves|
  {
    if moves == [] then s else Play(Step(s, moves[0].0, moves[0].1), moves[1..])
  }

  // ---------------------------------------------------------------------
  // One click

  /** A click changes the state exactly when it is accepted. */
  lemma RejectedClickChangesNothing(s: GameState, i: int, j: int)
    requires WellFormed(s.board)
    ensures !Accepts(s, i, j) <==> Step(s, i, j) == s
  {
    if Accepts(s, i, j) {
      assert Step(s, i, j).board[i][j] != s.board[i][j];
    }
  }

  /** An accepted click writes the mover's stone on (i, j) and no other cell. */
  lemma AcceptedClickWritesOneCell(s: GameState, i: int, j: int)
    requires WellFormed(s.board) && Accepts(s, i, j)
    ensures Step(s, i, j).board[i][j] == Stone(s.isBlackTurn)
    ensures forall k, l :: InBounds(k, l) && (k != i || l != j) ==> Step(s, i, j).board[k][l] == s.board[k][l]
  {
  }

  /**
   * After an accepted click exactly one holds: the new stone wins, the game
   * is over and the turn flag still names the winner; or it does not win,
   * the turn passes and the game goes on.
   */
  lemma AcceptedClickOutcome(s: GameState, i: int, j: int)
    requires WellFormed(s.board) && Accepts(s, i, j)
    ensures var r := Step(s, i, j);
      if IsWin(r.board, i, j) then
        r.gameOver && r.isBlackTurn == s.isBlackTurn && r.board[i][j] == Stone(r.isBlackTurn)
        && FiveInRow(r.board, i, j)
      else
        !r.gameOver && r.isBlackTurn == !s.isBlackTurn
  {
    var r := Step(s, i, j);
    WinIsFiveInRow(r.board, i, j);
  }

  /** No click removes or recolours a stone. */
  lemma ClickKeepsStones(s: GameState, i: int, j: int)
    requires WellFormed(s.board)
    ensures forall k, l :: InBounds(k, l) && s.board[k][l] != EMPTY ==> Step(s, i, j).board[k][l] == s.board[k][l]
  {
  }

  /** Clicking the same cell twice in a row does nothing the second time. */
  lemma SecondClickIgnored(s: GameState, i: int, j: int)
    requires WellFormed(s.board)
    ensures Step(Step(s, i, j), i, j) == Step(s, i, j)
  {
    var r := Step(s, i, j);
    if Accepts(s, i, j) {
      assert r.board[i][j] != EMPTY;
    }
    RejectedClickChangesNothing(r, i, j);
  }

  // ---------------------------------------------------------------------
  // Sequences of clicks

  /** Once placed, a stone stays until the next reset. */
  lemma {:induction false} PlayKeepsStones(s: GameState, moves: seq<(int, int)>, k: int, l: int)
    requires WellFormed(s.board) && InBounds(k, l) && s.board[k][l] != EMPTY
    ensures Play(s, moves).board[k][l] == s.board[k][l]
    decreases |moves|
  {
    if moves != [] {
      var next := Step(s, moves[0].0, moves[0].1);
      ClickKeepsStones(s, moves[0].0, moves[0].1);
      PlayKeepsStones(next, moves[1..], k, l);
    }
  }

  /** A finished game ignores every further click. */
  lemma {:induction false} GameOverIsFinal(s: GameState, moves: seq<(int, int)>)
    requires WellFormed(s.board) && s.gameOver
    ensures Play(s, moves) == s
    decreases |moves|
  {
    if moves != [] {
      RejectedClickChangesNothing(s, moves[0].0, moves[0].1);
      GameOverIsFinal(s, moves[1..]);
    }
  }

  /**
   * The stones on the board match the turn flags: black has one stone more
   * than white when white is to move, and when black has just won; equally
   * many otherwise. Every cell holds a valid code.
   */
  ghost predicate Balanced(s: GameState)
    requires WellFormed(s.board)
  {
    CodesValid(s.board)
    && StoneCount(s.board, BLACK) == StoneCount(s.board, WHITE) + (if s.isBlackTurn == s.gameOver then 1 else 0)
  }

  lemma InitialBalanced()
    ensures Balanced(Initial())
  {
    EmptyGridHasNoStones();
  }

  /** Every click keeps the stone counts in line with the turn flags. */
  lemma StepKeepsBalanced(s: GameState, i: int, j: int)
    requires WellFormed(s.board) && Balanced(s)
    ensures Balanced(Step(s, i, j))
  {
    if Accepts(s, i, j) {
      var v := Stone(s.isBlackTurn);
      StoneCountPlace(s.board, i, j, v, BLACK);
      StoneCountPlace(s.board, i, j, v, WHITE);
    }
  }

  lemma {:induction false} PlayKeepsBalanced(s: GameState, moves: seq<(int, int)>)
    requires WellFormed(s.board) && Balanced(s)
    ensures Balanced(Play(s, moves))
    decreases |moves|
  {
    if moves != [] {
      StepKeepsBalanced(s, moves[0].0, moves[0].1);
      PlayKeepsBalanced(Step(s, moves[0].0, moves[0].1), moves[1..]);
    }
  }

  /**
   * While the game is on, black is to move exactly when an even number of
   * stones lies on the board; once it is over, the flag names the side that
   * placed the last stone.
   */
  ghost predicate TurnMatchesStones(s: GameState)
    requires WellFormed(s.board)
  {
    var placed := StoneCount(s.board, BLACK) + StoneCount(s.board, WHITE);
    (!s.gameOver ==> (s.isBlackTurn <==> placed % 2 == 0))
    && (s.gameOver ==> (s.isBlackTurn <==> placed % 2 == 1))
  }

  lemma BalancedTurn(s: GameState)
    requires WellFormed(s.board) && Balanced(s)
    ensures TurnMatchesStones(s)
  {
    var white := StoneCount(s.board, WHITE);
    var extra := if s.isBlackTurn == s.gameOver then 1 else 0;
    assert StoneCount(s.board, BLACK) + white == 2 * white + extra;
  }

  /** In every game started from a reset the turn alternates with the stones placed. */
  lemma TurnAlternates(moves: seq<(int, int)>)
    ensures TurnMatchesStones(Play(Initial(), moves))
  {
    InitialBalanced();
    PlayKeepsBalanced(Initial(), moves);
    BalancedTurn(Play(Initial(), moves));
  }
}
