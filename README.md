# Gomoku game logic in Dafny

This project models the game logic of a browser Gomoku (five-in-a-row) game in
`main.js`. Two players take turns on a 15x15 board. The state consists of three
globals:

- `chessBoard`, a grid of cell codes: 0 for empty, 1 for black, 2 for white;
- `isBlackTurn`, the side to move;
- `gameOver`.

`init` empties the board and gives black the first move. The click handler
ignores a click when:

- the game is over;
- the cell is off the board;
- the cell is occupied.

Otherwise it records the mover's stone and runs `checkWin`. A win ends the game
and leaves the turn flag on the winner. Without a win, the turn passes to the
other side. `checkWin` starts from the new stone. For each of the four
orientations it walks outward both ways over stones of the same colour and
counts them. The stone wins when some orientation counts at least five.

The project has four modules:

- `Board` (`board.dfy`) describes the grid as a value. It holds the constants
  `GRID_SIZE`, `EMPTY`, `BLACK` and `WHITE`, the empty grid, a one-cell update
  and stone counts.
- `WinCheck` (`win.dfy`) specifies the scan. `Walk` is one directional walk,
  `LineLength` is one orientation's count, and `IsWin` is the verdict. The
  module also states the rule on its own terms: `FiveInRow` holds when the
  placed stone is one of five consecutive cells of its colour on a line. The
  lemma `WinIsFiveInRow` proves the two agree.
- `Rules` (`rules.dfy`) describes the game state as a value.
  - `Initial` is the state after a reset.
  - `Step` is the effect of one click on grid cell `(i, j)`.
  - `Play` applies a sequence of clicks.
  - Lemmas state the click handler's promises.
- `Gomoku` (`gomoku.dfy`) holds the class `Game`. Its fields are the
  `array2<int>` board and the two flags. Its methods are `Init`, `Click`,
  `PlacePiece` (the board write inside `drawPiece`) and `CheckWin`, written
  with the source's loops. `Init` ties the new state to `Initial`, `Click`
  ties it to `Step`, `PlacePiece` ties the new board to `Place`, and
  `CheckWin` ties the scan's result to `IsWin`. `Cells()` and
  `State()` give the object's contents as a value.

The clock, the canvas and the DOM are not modelled. `Click` takes the grid
indices that the source computes from the pointer position.

Three points about the code's interface, which the model follows:

- A rejected click returns nothing: no rejection reason is reported, whether
  the game is over, the cell is off the board or it is occupied. The model's
  `Click` has no result either. The code has no separate query for a cell's
  contents or for the side to move; callers read the globals directly, as the
  model's `Cells()` and `State()` do.
- Placing the stone and checking for a win happen inside the click
  handler. The stone is written by `drawPiece`. The model keeps that order: the
  stone is placed first, then the scan runs on the updated board.
- The code does not take the winner's colour as a parameter. `checkWin` reads
  the colour from the cell that was just written. `Reach` and `FiveInRow` take
  the colour from the board too.

## Model

| member | source | states |
|---|---|---|
| `Board.EmptyGrid` | main.js:19-24 | the reset grid has 15x15 cells, all equal to 0 |
| `Board.Place` | main.js:84 | recording a stone sets cell (i, j) to the given code and leaves every other cell as it was |
| `Rules.Accepts` | main.js:102-116 | true exactly when the game is not over, (i, j) is on the board and the cell holds 0: the three guards of the click handler. `RejectedClickChangesNothing` proves these are exactly the clicks that change the state |
| `Rules.Step` | main.js:101-134 | the click handler as a function of the state. Its own contract says only that the result is a 15x15 board. Its meaning is stated by `RejectedClickChangesNothing`, `AcceptedClickWritesOneCell`, `AcceptedClickOutcome`, `ClickKeepsStones`, `SecondClickIgnored` and `StepKeepsBalanced` |
| `Rules.Play` | main.js:101-134 | the handler applied to each click of a sequence in turn, always giving a 15x15 board. `PlayKeepsStones`, `GameOverIsFinal`, `PlayKeepsBalanced` and `TurnAlternates` state what it keeps |
| `Rules.Initial` | main.js:17-28 | after a reset every cell is empty, black is to move and the game is not over |
| `Rules.Stone` | main.js:84 | the code written is 1 exactly when black moves and 2 exactly when white moves |
| `Rules.RejectedClickChangesNothing` | main.js:101-134 | a click changes the state exactly when the game is not over, the cell is on the board and it is empty; otherwise the board and both flags are unchanged |
| `Rules.AcceptedClickWritesOneCell` | main.js:116-118 | an accepted click writes the mover's code on (i, j) and no other cell |
| `Rules.AcceptedClickOutcome` | main.js:121-131 | after an accepted click exactly one of two things holds. Either the scan wins: the game is over, the turn flag is unchanged and names the colour just placed, and that stone is one of five in a row. Or it does not win: the turn flag is negated and the game goes on |
| `Rules.ClickKeepsStones` | main.js:113-133 | no click turns an occupied cell empty or changes its colour |
| `Rules.SecondClickIgnored` | main.js:116 | a second click on the same cell right after the first changes nothing |
| `Rules.PlayKeepsStones` | main.js:101-134 | over any sequence of clicks, a placed stone stays until the next reset |
| `Rules.GameOverIsFinal` | main.js:102 | once the game is over, every further sequence of clicks leaves the state unchanged |
| `Rules.StepKeepsBalanced` | main.js:116-131 | each click keeps the invariant linking the stone counts to the flags. Black has one stone more than white when white is to move or black has won; otherwise the counts are equal. Every cell holds 0, 1 or 2 |
| `Rules.TurnAlternates` | main.js:121-131 | in any game since a reset that is not over, black is to move exactly when the number of stones is even. In a finished game, the flag names the side that placed the last stone |
| `WinCheck.Walk` | main.js:156-164 | the count of the `while` loop: consecutive cells from (i, j) in steps of d that are on the board and hold the colour. It has no `ensures` of its own. `WalkCells`, `WalkStops` and `WalkAtLeast` prove it is the length of the longest such run |
| `WinCheck.Reach` | main.js:153-164 | one directional walk of the scan: it starts at the neighbour of (x, y) and follows the colour of (x, y). `ReachBounded` bounds it by GRID_SIZE - 1 |
| `WinCheck.RunCount` | main.js:148-165 | `count` after the walks of the first k steps of an orientation: 1 for the stone itself plus each walk. `CheckWin`'s loop invariants are stated with it |
| `WinCheck.LineLength` | main.js:148-165 | `count` after both walks of orientation o. `LineLengthBothWays` proves it is 1 plus the walk toward +delta plus the walk toward -delta |
| `WinCheck.IsWin` | main.js:137-171 | the verdict of `checkWin`: some orientation's count reaches 5. `WinIsFiveInRow` proves it holds exactly when the stone is one of five in a row, and `CheckWin` is proved to return it |
| `WinCheck.DirectionsAreOrientations` | main.js:141-146 | the four orientations are each a unit step followed by its opposite |
| `WinCheck.WalkCells` | main.js:156-164 | every cell a walk counts is on the board and holds the placed stone's colour |
| `WinCheck.WalkStops` | main.js:156-160 | a walk stops at the first cell that is off the board, empty or of the other colour |
| `WinCheck.WalkAtLeast` | main.js:156-164 | a walk counts every consecutive run of same-colour cells that lies ahead of it |
| `WinCheck.ReachBounded` | main.js:153-164 | each directional walk of the scan counts at most GRID_SIZE - 1 cells |
| `WinCheck.WalkSeesOnlyColour` | main.js:159 | a walk depends only on which cells hold the colour it follows |
| `WinCheck.WinSeesOnlyOwnColour` | main.js:137-171 | the verdict depends only on which cells hold the placed stone's colour, so the opponent's stones count no more than empty cells |
| `WinCheck.LineLengthBothWays` | main.js:148-165 | an orientation's count is 1 plus the walk toward +delta plus the walk toward -delta |
| `WinCheck.WinIsFiveInRow` | main.js:141-167 | the scan wins exactly when the placed stone is one of five consecutive same-colour cells on a horizontal, vertical or diagonal line. Exactly five wins, and so do longer runs |
| `Gomoku.Game.constructor` | main.js:11-14 | a new game owns a fresh 15x15 board and starts in the reset state |
| `Gomoku.Game.Init` | main.js:17-28 | reset fills the board with 0 in place, sets black to move and clears game over, so the new state is `Initial()` |
| `Gomoku.Game.PlacePiece` | main.js:84 | the board afterwards is the old board with the mover's code written at (i, j) |
| `Gomoku.Game.Click` | main.js:101-134 | the state after the click handler is `Step` of the state before |
| `Gomoku.Game.CheckWin` | main.js:137-171 | the scan's loops return exactly `IsWin` of the board, which is equivalent to `FiveInRow`. It has no `modifies` clause, so it changes neither the board nor the flags. That every cell the loops read is on the board is not an `ensures` clause: Dafny's verified array-bounds checks on the loops show it |

## Left out

- Canvas rendering is not modelled: `drawBoard` and the drawing half of `drawPiece`. This is graphics output with floating-point geometry. Only the board write of `drawPiece` is modelled, as `PlacePiece`.
- `updateStatus` is not modelled. It builds DOM text from the two flags and changes no game state.
- The delayed victory `alert` is not modelled. It is a timed UI callback that does not touch game state.
- The mapping from pointer pixels to grid indices (`Math.floor` of the offset divided by the cell size) is not modelled. `Click` takes integer grid indices, and any integer is accepted, including off-board ones.
- The DOM lookups and the startup call are not modelled. `restartGame` only calls `init`, so `Init` covers it.
- `Init`: the source replaces each column with a fresh array, while the model fills the existing 15x15 array in place. No reader of the board can tell the difference.
- `CheckWin` requires (x, y) to be on the board. The source's only call (main.js:121) follows its bounds check (main.js:113). Off the board the source behaves in two ways. With `x` off the board, `chessBoard[x]` is `undefined` and reading `chessBoard[x][y]` throws a TypeError. With only `y` off the board, `color` is `undefined`; no cell is `=== undefined`, so every count stays 1 and `checkWin` returns false. Neither case is modelled.
- `CheckWin`: that the scan reads only on-board cells is shown by Dafny's array-bounds checks on its loops, together with `ReachBounded`. No `ensures` clause states it.
