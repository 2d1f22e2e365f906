# Tic-tac-toe game logic, modelled in Dafny

This project models the game logic of a browser tic-tac-toe game whose whole
program is `src/App.js`, leaving out the React rendering. It covers three parts:

- **Win detector** (`calculateWinner`). It scans a fixed table of eight lines:
  three rows, three columns and two diagonals. It returns the first line in
  table order whose three squares hold the same mark, together with that mark,
  or nothing.
- **Board** (`Board.handleClick` and the status line). A click is ignored when
  the board already has a winner or the square is taken. Otherwise the squares
  are copied, and the mover's mark ("X" when `xIsNext`, else "O") is written
  into the copy. The status line shows either the winner, a draw, or the player
  who moves next.
- **Game** (`Game`). This holds `history`, the board snapshots, and
  `currentMove`, the pointer to the snapshot on display. `handlePlay` cuts the
  history after the pointer, appends the new board and points at it. `jumpTo`
  moves only the pointer. `xIsNext` is the parity of the pointer. The move list
  (`history.map`) has one entry per snapshot: a marker for the current move, a
  jump button for each other move.

Files and modules:

| file | module | contents |
|---|---|---|
| tictactoe.dfy | `TicTacToe` | `Cell`, `Board` (nine squares), the line table, `Winner` as a specification, and `CalculateWinner` as the loop proved against it |
| boardpanel.dfy | `BoardPanel` | `NextSquares` (what a click produces), `HandleClick` (the copy and write, on arrays), the legal-move relation, and the status line |
| history.dfy | `History` | `GameHistory`, the shape of every history the game can build, and its invariants |
| decimal.dfy | `Decimal` | the decimal text of a move number, as JavaScript writes integers below 10^21; a game's move numbers are 0 to 9 |
| movelist.dfy | `MoveList` | classification and labels of the move list |
| gamestate.dfy | `GameState` | class `Game` with `history` and `currentMove`, and its handlers |
| scenarios.dfy | `Scenarios` | client games that use only `Game`'s contracts |

Squares are the datatype `Cell = Empty | X | O`, where `Empty` stands for the
source's `null`. The source's truthiness tests (`squares[i]`, `if (winner)`)
become comparisons with `Empty`. A history is a `seq<Board>` of values.
`Game.Valid()` says that `history` is a `GameHistory` and that `currentMove`
is in range. A `GameHistory` starts with the empty board, and each later
snapshot is a legal move from the one before it by the player whose turn it
was.

## Model

| member | source | states |
|---|---|---|
| TicTacToe.LinesOnBoard | src/App.js:150-159 | the table has eight lines and every index in it is a square of the board |
| TicTacToe.FirstLine | src/App.js:161-171 | the index of the first line at or after `k` that the board completes: every line visited before it is incomplete, and 8 means no line is complete |
| TicTacToe.Winner | src/App.js:149-173 | a result exists exactly when some line of the table has three equal non-empty squares; the returned line is in the table, and all three of its squares hold the returned mark, which is not empty |
| TicTacToe.WinnerIsFirst | src/App.js:161-170 | when line `k` is complete and every earlier line is not, the result is exactly line `k` with the mark in its squares |
| TicTacToe.EmptyBoardHasNoWinner | src/App.js:67 | the all-null starting board has no winner |
| TicTacToe.CalculateWinner | src/App.js:161-172 | the loop with its early return gives exactly the first complete line in table order, or nothing |
| BoardPanel.NextSquares | src/App.js:19-29 | a click is rejected exactly when the board has a winner or square `i` is taken; otherwise the new board holds the mover's mark at `i` and equals the old board everywhere else |
| BoardPanel.HandleClick | src/App.js:19-29 | the copy-and-write gives a fresh array whose contents are those of `NextSquares`; the array clicked on is not modified |
| BoardPanel.NextSquaresIsLegal | src/App.js:20-28 | every board a click produces is a legal move: the old board had no winner, and exactly one empty square got the mover's mark |
| BoardPanel.LegalMoveIsClick | src/App.js:20-28 | conversely, every legal move by the mover is produced by a click on some square |
| BoardPanel.NewLineThroughMove | src/App.js:20-28 | on a board with no winner, a line completed by a move runs through the square just played and holds the mover's mark |
| BoardPanel.StatusWinner | src/App.js:35-36 | the status reads "Winner: " followed by a mark exactly when the board has a winner with that mark |
| BoardPanel.StatusDraw | src/App.js:37-38 | the status reads "It's a Draw!" exactly when there is no winner and no square is empty |
| BoardPanel.StatusNamesMover | src/App.js:39-41 | while a click can still be accepted, the status names the player whose mark that click places |
| History.MarkCounts | src/App.js:66-81 | the board after `n` moves of a game holds (n+1)/2 X marks, n/2 O marks and 9 - n empty squares, so the players alternate and X moves first |
| History.HistoryBound | src/App.js:77-81 | a game history never holds more than ten snapshots |
| History.TurnFromCounts | src/App.js:70 | `xIsNext` (an even pointer) holds exactly when both players have placed the same number of marks |
| History.SquaresNeverChange | src/App.js:22-28 | once a square is filled, it keeps that mark in every later snapshot |
| History.NoMoveAfterWin | src/App.js:20-21 | a snapshot followed by another one has no winner, so play stops at the first win |
| History.OnlyLastMoverWins | src/App.js:20-21 | a complete line can appear only in the last snapshot, never in the first, and it holds the mark of the player who made the last move |
| History.TruncateAndAppend | src/App.js:78 | cutting a game history after snapshot `k` and appending a legal move from snapshot `k` gives a game history |
| Decimal.NatToString | src/App.js:91 | the text of a move number is a non-empty string of decimal digits with no leading zero |
| Decimal.NatToStringValue | src/App.js:91 | reading the text back as a decimal number gives the number |
| Decimal.NatToStringInjective | src/App.js:91 | different move numbers get different texts |
| MoveList.Moves | src/App.js:87-127 | the list has one entry per snapshot, and entry `k` stands for move `k` |
| MoveList.CurrentEntryUnique | src/App.js:119-126 | an entry is a current-move marker exactly when its index is `currentMove` |
| MoveList.CurrentEntryKind | src/App.js:119-125 | the current marker is the start marker at move 0, X-tagged at an odd move and O-tagged at an even move above 0 |
| MoveList.JumpTargets | src/App.js:112-116 | every button jumps to its own index, which lies inside the history and is not the current move, and is labelled with that move's description |
| MoveList.DescriptionsDistinct | src/App.js:88-94 | "Go to start" and the "Go to move №n" labels are pairwise different |
| MoveList.CaptionsDistinct | src/App.js:96-117 | no two entries of a list show the same text |
| GameState.Game.constructor | src/App.js:67-68 | a new game has one all-null board, is at move 0, and satisfies the game invariant |
| GameState.Game.HandlePlay | src/App.js:77-81 | the new history is the old one up to and including the pointer, followed by the new board; the pointer moves to its end, one past the old pointer; the invariant is kept |
| GameState.Game.JumpTo | src/App.js:83-85 | only the pointer changes, to the requested snapshot; the history is unchanged and the invariant is kept |
| GameState.Game.Click | src/App.js:133 | a click on the displayed board either changes nothing (rejected) or replaces the history after the pointer with the board `NextSquares` gives, and advances the pointer by one |
| GameState.StatusInGame | src/App.js:31-41 | within a game, the status names as winner only the player who made the last move, and announces a draw only after the ninth move |
| GameState.CurrentEntryShowsMover | src/App.js:119-125 | at a move above 0, the current marker is X-tagged exactly when X made that move and O-tagged exactly when O made it |
| GameState.GameCurrentEntryShowsMover | src/App.js:87-125 | the same for a game object's own move list: the marker at `currentMove` carries the tag of the player who made the displayed move |

## Left out

- Rendering: the `Square` component and its class names, the rows and cells of
  the board, the list elements and their `key` props (src/App.js:3-16, 43-63,
  96-117, 129-146). These are presentation only. Of the move list, the model
  keeps the kind of each entry, its move and its text.
- The sort toggle (`sortState`, src/App.js:69, 72-75, 136-141) is not modelled
  as an operation. Under "ASC", the initial state, `sort` gets no comparator.
  Then every entry, a React element object, compares as the same string
  "[object Object]". Since `Array.prototype.sort` is stable, the entries stay in
  history order, which is the order `MoveList.Moves` gives. Only the "DESC"
  order depends on the engine: its comparator applies `>` to those objects and
  answers -1 for every pair, which is not a consistent order.
- `useState` scheduling and re-rendering are not modelled. `handlePlay` and
  `jumpTo` update the two fields of `Game` at once.
- `calculateWinner` is called several times per render (src/App.js:31-32), and
  once more per click (src/App.js:20). It is pure, so the model calls it once
  for the status and once in `HandleClick`.
- Arrays held in the history: the source keeps references to arrays that are
  never written after `slice()`. The model keeps the history as a sequence of
  board values, and uses an array only inside `HandleClick`, for the copy and
  the write. So aliasing between snapshots is not modelled.
- Decimal.NatToString: writes every natural number as plain digits. JavaScript
  switches to exponent form from 10^21 up ("1e+21"). That difference never
  shows here, because a game's move numbers are 0 to 9 (`History.HistoryBound`).
- BoardPanel.HandleClick: requires `0 <= i < 9` and a nine-square array. Every
  call comes from one of the nine squares the board renders, so an
  out-of-range index never reaches it.
- GameState.Game.HandlePlay: requires the new board to be a legal move from the
  displayed board. Its only caller, the board's `onPlay`, passes exactly such a
  board.
- GameState.Game.JumpTo: requires a target inside the history. Its only caller
  is a button of the move list, and every button's target is inside the
  history (`MoveList.JumpTargets`).
