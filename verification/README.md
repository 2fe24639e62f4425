# Tic-tac-toe game engine in Dafny

This project models the game engine of a browser tic-tac-toe game written in
JavaScript and React. The whole engine lives in `src/index.js`. The model has
two parts, without the rendering.

- **Outcome evaluator** (`outcome.dfy`, module `Outcome`). It holds the fixed
  table of eight winning combinations and `calculateWinner`, which returns the
  first completed line in table order. It also holds `isCombinationPossible`
  and `isDraw`. A cell is `Empty`, `X` or `O`; JavaScript's "truthy cell" reads
  as "not `Empty`".
- **Game state machine** (`game.dfy`, module `Game`). The state is the record
  `history`, `stepNumber`, `xIsNext`, `order`. Its transitions are
  `handleClick(i)`, `jumpTo(step)` and `changeOrder()`. The model also covers
  the projections `sort()` (ordering the move list) and `getLocation(i)`, and
  the status choice of `render()`. Each `setState` call is read as an atomic
  replacement of the fields it names.
- `history.dfy` (module `History`) holds the history entry record and the
  stable sort by move number behind `sort()`.
- `scenarios.dfy` (module `Scenarios`) plays concrete games through the engine
  as sequences of user events.
- `wrappers.dfy` holds `Option`, which stands for JavaScript's `null`.

The invariant `Game.Valid` captures what every reachable state satisfies:
- the history is non-empty and starts with the empty board, no selected
  square and move 0;
- `history[k].move == k` for every k;
- each later entry is its predecessor with one empty cell filled by the mover
  of that step, played on a board that had no winner;
- `0 <= stepNumber < |history|`;
- `xIsNext == (stepNumber % 2 == 0)`.

`Game.RunPreservesValid` proves the invariant holds after any sequence of
board clicks, move-list clicks and sort-button clicks.

## Reading the code

`isCombinationPossible` is modelled exactly as written. Its loop binds
`square` once, to `combination[0]`. The inner loop binds `nextSquare` once
per outer pass, to `combination[i]`. So every cell of a line is compared only
with the line's first cell, and a line whose first cell is empty always
counts as "possible".

A natural reading of "draw" is that every line already holds both an X and
an O, so no line can still be completed. The code is stricter: it also needs
the first cell of every line to be occupied.
`Outcome.DrawLinesHoldBothMarks` proves that every draw in the code's sense
is a draw in the natural sense.
`Outcome.BothMarksOnEveryLineIsNotEnough` exhibits a board with both marks on
every line and cell 0 empty. The code does not call that board a draw. The
model follows the code.

`xIsNext` is stored, not derived from `stepNumber`: `handleClick` negates
it and `jumpTo` recomputes it from parity. The model keeps the stored flag.
The invariant `Game.Valid` includes `xIsNext == (stepNumber % 2 == 0)`, and
`Game.HandleClickPreservesValid`, `Game.JumpToPreservesValid` and
`Game.RunPreservesValid` show that every reachable state keeps the two equal.

## Model

| member | source | states |
|---|---|---|
| Outcome.WinnerFrom | src/index.js:175-183 | the scan from table position k returns the first completed line at or after k, or None exactly when no later line is complete |
| Outcome.CalculateWinner | src/index.js:174-184 | the result is None exactly when no table line has three equal marks; otherwise it is a table line whose cells hold one mark, and no earlier line in the table is complete |
| Outcome.InnerScan | src/index.js:200-204 | the inner loop fails exactly when cell `combination[i]` holds a mark different from the first cell's, however many passes it makes |
| Outcome.OuterScan | src/index.js:198-206 | from pass i on, the outer loop fails exactly when the first cell holds a mark and some cell at position i or later clashes with it |
| Outcome.IsCombinationPossible | src/index.js:197-208 | false exactly when the line's first cell holds a mark and some cell of the line holds the other mark; a line with an empty first cell is always possible |
| Outcome.IsDrawCharacterization | src/index.js:186-195 | a board is a draw exactly when every line starts with a mark and has a later cell holding the other mark |
| Outcome.EmptyBoardUndecided | src/index.js:55 | the all-empty starting board has no winner and is not a draw |
| Outcome.CompletedLineIsNotDraw | src/index.js:186-208 | a board containing any completed line is never a draw |
| Outcome.WinnerIsNotDraw | src/index.js:174-195 | whenever calculateWinner finds a line, isDraw is false |
| Outcome.LineStarts | src/index.js:163-172 | the first cells of the eight lines are exactly cells 0, 1, 2, 3 and 6 |
| Outcome.EmptyLineStartIsNotDraw | src/index.js:197-208 | a board with cell 0, 1, 2, 3 or 6 empty is not a draw |
| Outcome.DrawLinesHoldBothMarks | src/index.js:186-208 | on a draw every line holds both an X and an O |
| Outcome.BothMarksOnEveryLineIsNotEnough | src/index.js:197-208 | the board _ X O / O X X / X O O holds both marks on every line, yet is not a draw because cell 0 is empty |
| Outcome.DrawWithEmptyCell | src/index.js:186-208 | the board X O X / X _ O / O X O, with cell 4 still empty, has no winner and is a draw |
| Outcome.FullBoardIsDraw | src/index.js:186-208 | the full board X O X / X O O / O X X has no winner and is a draw |
| History.Insert | src/index.js:109 | inserting an entry yields the old entries plus that one, as a multiset |
| History.InsertSorted | src/index.js:108-112 | inserting into a sequence ordered by move keeps it ordered |
| History.SortByMove | src/index.js:105-113 | the move list is a permutation of the history, ordered by move ascending for Asc and descending for Desc |
| History.SortSortedIsIdentity | src/index.js:108-112 | a history already ordered by move comes back unchanged |
| History.SortDescIsReverse | src/index.js:110-111 | with strictly increasing move numbers, the descending list is the history reversed |
| History.SortAscIsIdentity | src/index.js:108-109 | with strictly increasing move numbers, the ascending list is the history itself |
| Game.KeptLength | src/index.js:72 | `slice(0, stepNumber + 1)` keeps the smaller of stepNumber + 1 and the history's length: at least one entry, no more than either bound, and equal to one of them |
| Game.HandleClick | src/index.js:71-89 | an occupied cell or a won board leaves the state unchanged; otherwise the kept prefix is preserved and one entry is appended whose board differs from the current one only at cell i, which holds the mover's mark; that entry records square i and move stepNumber + 1; the turn flips and the order is untouched |
| Game.JumpTo | src/index.js:91-97 | jumping changes only the step and the turn; history and order are untouched and X moves next exactly on even steps |
| Game.ChangeOrder | src/index.js:99-103 | the order flips and nothing else changes |
| Game.Sort | src/index.js:105-113 | the move list is a permutation of the state's history ordered by move per the state's order |
| Game.Location | src/index.js:65-69 | row and column satisfy 3 * row + col == i with col < 3, and row < 3 for every board cell |
| Game.GameStatus | src/index.js:118-138 | the status is a winner exactly when some line is complete, naming a mark that fills the winning line; a draw exactly when isDraw holds; otherwise the player to move |
| Game.InitialIsValid | src/index.js:52-63 | the starting state satisfies the invariant and its status says X moves next |
| Game.ValidCurrent | src/index.js:72-73 | in a valid state handleClick keeps stepNumber + 1 entries and plays on the displayed board |
| Game.HandleClickPreservesValid | src/index.js:71-89 | a click keeps the invariant; an accepted one cuts the history after the step, appends one entry and advances the step by one |
| Game.HandleClickIdempotent | src/index.js:76 | clicking the same cell again after a click changes nothing more |
| Game.HandleClickChangesIffAccepted | src/index.js:76-88 | a click changes the state exactly when the cell is empty and the board has no winner |
| Game.DrawDoesNotBlockClick | src/index.js:76 | an empty cell of a displayed board that isDraw reports as drawn still accepts a move |
| Game.JumpToPreservesValid | src/index.js:91-97 | jumping to an existing step keeps the invariant |
| Game.ChangeOrderPreservesValid | src/index.js:99-103 | toggling the order keeps the invariant and cannot create it |
| Game.ChangeOrderInvolution | src/index.js:101 | toggling the order twice restores the state |
| Game.SortOfValid | src/index.js:105-113 | in a valid state the ascending list is the history and the descending list is its reverse |
| Game.ListedMovesAreSteps | src/index.js:122-127 | every move number shown in the move list is an existing step, so the jumps it offers stay in range |
| Game.LocationInvertsCellAt | src/index.js:32 | getLocation recovers the row and column of the index renderRow gives to a cell |
| Game.CellAtInvertsLocation | src/index.js:65-69 | the rendered index of a cell's location is the cell itself |
| Game.StatusTextInjective | src/index.js:134-138 | different statuses produce different status lines |
| Game.ApplyPreservesValid | src/index.js:122-152 | every user event keeps the invariant |
| Game.RunPreservesValid | src/index.js:52-103 | every state reachable through user events satisfies the invariant |
| Scenarios.ClickAtTip | src/index.js:71-88 | a click at the newest step on an open board appends one entry with the mover's mark on the cell, keeps the older entries, and flips the turn |
| Scenarios.RunOpenClicks | src/index.js:71-88 | a run of n clicks on open boards appends n entries, keeps the earlier history, ends on the board filled in turn, and passes the turn n times |
| Scenarios.ColumnWin | src/index.js:174-184 | X at 0, 3, 6 and O at 1, 2 give a win on line [0, 3, 6] and the status Winner(X) |
| Scenarios.ClickAfterWinIsIgnored | src/index.js:76 | after that win any click leaves the state unchanged |
| Scenarios.FullBoardDraw | src/index.js:132-137 | nine moves with no completed line end with the status Draw |
| Scenarios.DrawStillAcceptsMove | src/index.js:76 | a game whose status is Draw with cell 4 empty still accepts a move there |
| Scenarios.BranchFromEarlierStep | src/index.js:72-87 | after three moves, a jump to move 1 and a new move leave a history of three entries |

## Left out

- Rendering: `Square`, `Board`, `renderSquare`, `renderRow` markup, CSS class names and `ReactDOM.render` are presentation with no logical contract. Only the cell index formula of `renderRow` is modelled, as `Game.CellAt`.
- `setState` is asynchronous and merges fields. Each transition is modelled as an atomic replacement of the fields it names.
- The `moveCounter` field written by `jumpTo` is never read, so it is not part of the state.
- The sort button's label reads `this.order` rather than `this.state.order`. It is a UI string with no effect on state.
- Game.Location: returns the pair (row, col) and not the formatted string `(row, col)`, because string templating is presentation.
- Game.HandleClick: requires a non-empty history, because the source reads the last kept entry and would throw on an empty one. Cell indices are the type `CellIndex` (0 to 8), the only values the board passes.
- Game.JumpTo: accepts any step number. The source never guards the range, and its callers only pass move numbers of existing entries. `Game.ListedMovesAreSteps` and `Game.JumpToPreservesValid` state that.
- Events on the move list name an item of the rendered list. An item index past the end of the list has no button, so `Game.Apply` treats it as no event.
- JavaScript truthiness is reduced to "cell is not `Empty`"; the values are exactly `null`, `"X"` and `"O"`.
