# Tic Tac Toe game core, in Dafny

This project models the game logic of the React Tic Tac Toe front end
(`tic_tac_toe_frontend/src/App.js`), then proves properties of that model.
The logic covers:

- the winner scan over the eight fixed triples;
- the full-board test;
- the state of the `App` component: the board, the turn flag and the score tally;
- the `winner`/`draw` values derived from the board;
- the square click handler;
- the score effect;
- the restart handler.

The project is split into three modules:

- `rules.dfy` (module `Rules`) holds the pure board logic:
  - `Winner` is a recursive specification of the scan.
  - `CalculateWinner` is the loop of the source, proved equal to it.
  - `IsDraw` and `Drawn` give the draw test.
  - `MoveAllowed` is the guard of the click handler.
  - Lemmas relate these to "some triple holds three equal marks" and "every
    cell is filled".
- `engine.dfy` (module `Engine`) holds the session:
  - `Session` is the state as a value.
  - `Click` and `Restart` are its transitions. The score update runs as part
    of an accepted click.
  - `Run` replays a sequence of actions.
  - `Game` is a class whose fields are the component's state: an `array` for
    the board, the turn flag and the tally. Its handlers are proved to follow
    `Click` and `Restart`: `Abstract() == Click(old(Abstract()), idx)`.
  - Lemmas state:
    - what a click changes;
    - that a win is credited to the mover and counted once;
    - that finished games refuse clicks;
    - who starts after a restart;
    - that in every reachable session a winner is the player who is not next.
- `scenarios.dfy` (module `Scenarios`) plays concrete games:
  - a top-row win for X;
  - a full-board draw;
  - a repeated click.

The board is kept as React keeps it. A click never writes into the current
array: it copies it (`slice`) into a fresh array and writes the copy. A
restart installs a fresh empty array.

The restart rule follows line 188 as written. After a win, X starts exactly
when O won, so the loser starts. In every reachable session the turn flag
already names the loser at that point, so the flag is left unchanged.
Otherwise the flag is flipped. After a draw the flip gives the first move to
the player who placed the last mark (`Engine.RestartAfterDraw`). A drawn
board is full, and nine is odd, so the last mark of any game of clicks that
began on an empty board is its starter's: the same player starts again
(`Engine.DrawRestartKeepsStarter`, for every such game;
`Scenarios.FullBoardDraw` plays one). The comment on that line says that
the starter alternates; the model follows the code.

## Model

| member | source | states |
|---|---|---|
| Rules.MarkOf | tic_tac_toe_frontend/src/App.js:164 | The mark placed is X exactly when `xIsNext` holds, otherwise O |
| Rules.Lines | tic_tac_toe_frontend/src/App.js:10-19 | The eight triples in the source's scan order: three rows, three columns, two diagonals, each of three indices in 0..8 |
| Rules.WinnerFromSpec | tic_tac_toe_frontend/src/App.js:20-30 | The scan from triple i returns null exactly when no triple from i on holds three equal marks; otherwise it returns the first such triple and its mark |
| Rules.WinnerSpec | tic_tac_toe_frontend/src/App.js:8-31 | `calculateWinner` returns null exactly when no line is won; otherwise it returns the first won line in scan order, one of the eight fixed lines, and all three of its cells hold the reported mark |
| Rules.CalculateWinner | tic_tac_toe_frontend/src/App.js:8-31 | The loop with its early return computes the winner scan's specification on the array's cells |
| Rules.WinnerFrom | tic_tac_toe_frontend/src/App.js:20-30 | The scan's loop from triple i on, written as recursion; specified by `Rules.WinnerFromSpec` |
| Rules.Winner | tic_tac_toe_frontend/src/App.js:8-31 | `calculateWinner` as a function of the board; specified by `Rules.WinnerSpec`, and `Rules.CalculateWinner` is proved to compute it |
| Rules.WinnerMark | tic_tac_toe_frontend/src/App.js:155 | The winning mark alone: the winner scan's mark, or null when there is none |
| Rules.IsDraw | tic_tac_toe_frontend/src/App.js:36-38 | `isDraw`: every cell is non-null; related to the filled-cell count by `Engine.FullCount` and to `draw` by `Rules.DrawnSpec` |
| Rules.Drawn | tic_tac_toe_frontend/src/App.js:156 | `draw = !winner && isDraw(squares)`; specified by `Rules.DrawnSpec` (full board and no line won) |
| Rules.MoveAllowed | tic_tac_toe_frontend/src/App.js:162 | The negation of the guard `squares[idx] \|\| winner`; specified by `Rules.TerminalRefusesMoves` and `Rules.NewWinnerOwnsMove` |
| Rules.DrawnSpec | tic_tac_toe_frontend/src/App.js:36-38 | `draw` (no winner and `isDraw`) holds exactly when every cell is filled and no line is won; a drawn board has no winner |
| Rules.TerminalRefusesMoves | tic_tac_toe_frontend/src/App.js:162 | The click guard lets a move through only while there is no winner and no draw, so on a won or drawn board every click is refused; while the game is undecided some cell still accepts a move |
| Rules.NewWinnerOwnsMove | tic_tac_toe_frontend/src/App.js:160-167 | After an allowed move, any winner of the new board is the player who moved, and the winning line runs through the cell just played |
| Engine.ScoreAfter | tic_tac_toe_frontend/src/App.js:170-183 | The score effect adds one to the winner's counter; failing a winner, it adds one to draws on a draw; otherwise nothing. No counter shrinks, and the total grows by one exactly when the game is decided |
| Engine.Initial | tic_tac_toe_frontend/src/App.js:143-151 | The initial state: empty board, X to move, zero tally; `Engine.EmptyBoardUndecided` shows it undecided and `Engine.Game.constructor` builds it |
| Engine.Click | tic_tac_toe_frontend/src/App.js:160-183 | `handleSquareClick` with the score effect it sets off; specified by `Engine.ClickMoves`, `Engine.ClickScores`, `Engine.FinishedGameIgnoresClicks` and `Engine.ClickKeepsConsistent`, and followed by `Engine.Game.HandleSquareClick` |
| Engine.Restart | tic_tac_toe_frontend/src/App.js:186-189 | `handleRestart`; specified by `Engine.RestartClears`, `Engine.RestartAfterWin`, `Engine.RestartAfterDraw`, `Engine.DrawRestartKeepsStarter` and `Engine.RestartKeepsConsistent`, and followed by `Engine.Game.HandleRestart` |
| Engine.EmptyBoardUndecided | tic_tac_toe_frontend/src/App.js:143 | The initial and restarted board `Array(9).fill(null)` has no winner and is not a draw |
| Engine.ClickMoves | tic_tac_toe_frontend/src/App.js:160-167 | A refused click leaves the session unchanged. An accepted one writes the mover's mark into the clicked cell only, keeps the other eight cells and passes the turn |
| Engine.ClickScores | tic_tac_toe_frontend/src/App.js:160-183 | The tally changes exactly when an accepted click wins or draws. A win adds one to the mover's counter only; a draw adds one to draws only; no counter decreases |
| Engine.FinishedGameIgnoresClicks | tic_tac_toe_frontend/src/App.js:162 | Once the board is won or drawn, a click changes nothing, so the result is counted once |
| Engine.RestartClears | tic_tac_toe_frontend/src/App.js:186-189 | A restart empties the board (no winner, no draw) and keeps the tally |
| Engine.RestartAfterWin | tic_tac_toe_frontend/src/App.js:188 | Restarting after the winning click leaves the turn flag as it is, and the player who starts is not the one who won |
| Engine.RestartAfterDraw | tic_tac_toe_frontend/src/App.js:188 | Restarting after the drawing click gives the first move to the player who placed the last mark |
| Engine.ClickKeepsConsistent | tic_tac_toe_frontend/src/App.js:160-167 | A click preserves the invariant that a board's winner is the player who is not next to move |
| Engine.RestartKeepsConsistent | tic_tac_toe_frontend/src/App.js:186-189 | A restart leaves an undecided board, so the invariant holds after it whatever the new flag |
| Engine.RunKeepsConsistent | tic_tac_toe_frontend/src/App.js:160-189 | Any sequence of clicks and restarts keeps that invariant. After a win, the restart rule's two branches agree: the flag is kept |
| Engine.FillOneMore | tic_tac_toe_frontend/src/App.js:163-165 | Writing a mark into an empty cell of the copied board adds exactly one filled cell |
| Engine.FullCount | tic_tac_toe_frontend/src/App.js:36-38 | `isDraw` holds exactly when the number of filled cells equals the number of cells, and the count never exceeds it |
| Engine.ClickKeepsTurnParity | tic_tac_toe_frontend/src/App.js:160-167 | One click either fills one cell and passes the turn or does neither, so the flag stays equal to the starting flag exactly when an even number of cells is filled |
| Engine.ClicksKeepTurnParity | tic_tac_toe_frontend/src/App.js:160-167 | Over any run of clicks, the turn flag equals the starting flag exactly when an even number of cells is filled |
| Engine.DrawnTurnRestart | tic_tac_toe_frontend/src/App.js:188 | On a drawn board (nine cells filled, an odd count) whose flag is in step with starting flag f, the restart sets the flag to f |
| Engine.DrawRestartKeepsStarter | tic_tac_toe_frontend/src/App.js:188 | For every game of clicks from an empty board with starting flag f that ends drawn, the restart sets the flag back to f: the same player starts again |
| Engine.RunScoresGrow | tic_tac_toe_frontend/src/App.js:170-183 | No score counter ever decreases, whatever sequence of clicks and restarts is played |
| Engine.Slice | tic_tac_toe_frontend/src/App.js:163 | `squares.slice()` yields a fresh array with the same cells |
| Engine.Game.constructor | tic_tac_toe_frontend/src/App.js:143-151 | The component starts with nine empty cells, X to move and all counters at zero |
| Engine.Game.Status | tic_tac_toe_frontend/src/App.js:154-156 | `winnerInfo` and `draw` are the winner scan and the draw test of the current board. A reported winner is the player who is not next, and a won board is not a draw |
| Engine.Game.UpdateScores | tic_tac_toe_frontend/src/App.js:170-183 | The effect's update of the tally equals the score function applied to the board's winner and draw |
| Engine.Game.HandleSquareClick | tic_tac_toe_frontend/src/App.js:160-167 | The handler, followed by the score effect it triggers, moves the fields to `Click` of the old state and keeps the invariant. A refused click keeps the same array; an accepted one installs a fresh copy |
| Engine.Game.HandleRestart | tic_tac_toe_frontend/src/App.js:186-189 | The handler moves the fields to `Restart` of the old state with a fresh empty array, and keeps the invariant |
| Scenarios.TopRowWin | tic_tac_toe_frontend/src/App.js:160-183 | Clicks on 0, 3, 1, 4, 2 give X the top row, reported as the line 0, 1, 2, and the tally X 1, O 0, draws 0 |
| Scenarios.TopRowAftermath | tic_tac_toe_frontend/src/App.js:186-189 | After that win a click on a free cell is refused, and the restart clears the board, keeps the tally and lets O start |
| Scenarios.FullBoardDraw | tic_tac_toe_frontend/src/App.js:170-189 | Clicks on 0, 1, 2, 4, 3, 5, 7, 6, 8 fill the board with no line won. The result is counted as one draw, and after the restart X starts again |
| Scenarios.RepeatedClick | tic_tac_toe_frontend/src/App.js:162 | A second click on the cell just played leaves board, turn and tally unchanged |

## Left out

- Rendering is not modelled, because it only displays the state and changes none of it. This covers:
  - the components `Square`, `GameBoard`, `StatusPanel`, `ScorePanel` and `RestartButton`;
  - the JSX of `App`;
  - the theme attribute set on mount;
  - the footer's current year.
- React's scheduling is not modelled. In the source the score effect runs after the render that follows a click, whenever `winner` or `draw` changes. The model runs it straight after every accepted click. This is equivalent because the only other changes to those values (mount, and restart) produce no winner and no draw, and there the effect does nothing. Effects run twice under development-mode checks; that is not modelled either.
- The restart button is only shown on a won or drawn board. `Restart` and `HandleRestart` accept any session, which is how the handler itself behaves.
- Click indices are required to be in 0..8, because the handler is only ever bound to the nine squares; other values are not modelled.
- JavaScript values are modelled as types, so no JavaScript coercion rules are modelled. The cells `'X'`, `'O'` and `null` are the datatype `Cell`. Truthiness of a cell is "not empty". The tally object keyed by the winner's string is the record `Scores` with `Of(mark)`.
- The counters are unbounded naturals; JavaScript number precision limits are not modelled.
