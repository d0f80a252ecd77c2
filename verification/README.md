# Tic-tac-toe game state, modelled in Dafny

The Android app `com.example.theme` is a 3×3 tic-tac-toe game with a
two-player mode and a play-against-the-bot mode. It keeps win, loss and draw
statistics. This project models the game-state core of its single activity,
`MainActivity`: placing a mark, the bot's random reply, the win and draw
checks, the outcome bookkeeping, reset and the mode switch.

- `board.dfy` (module `Board`) holds the pure side: cells, the eight
  winning lines, and the row-and-column interleaved scan that decides the
  winner. It compares that scan with an order-free definition of "has three
  in a line". It also keeps the counting invariant that X and O alternate.
- `game.dfy` (module `TicTacToe`) holds the activity as a class `Game`. The
  nine grid buttons become an `array<Cell>`. The flags `playerXTurn`,
  `gameOver` and `isPlayWithBot` become fields, and so do the three
  persisted counters. Each Java method becomes a method that changes exactly
  the fields it touches. Its contract ties the new state to the pure
  functions `Outcome` and `Tallied` of the old state.
- `scenarios.dfy` (module `Scenarios`) states three example games (a
  top-row win, a full-board draw and a ↘-diagonal win) on `Outcome` and
  `Tallied`, one position after each move. It also states two consequences
  for callers of the class: the bot takes the only free cell, and a
  finished game ignores every tap.

Points of the code the model keeps:
- The winner check interleaves rows and columns: in each iteration of its
  loop it tests row `i` and then column `i`, so the order is row 0,
  column 0, row 1, column 1, row 2, column 2, then the ↘ diagonal and the
  ↙ diagonal. `Board.ScanOrder` has this order, and
  `Board.WinnerIsFirstMatch` states it.
- There is no range check on the cell index. The index is the position of
  the tapped button in the grid, so `MakeMove` requires `index < 9`, and
  only the occupied-cell and game-over checks are modelled as ignored
  input.
- A mode switch also resets the board, so a finished game can be left
  through reset or through either mode button.

## Model

| member | source | states |
|---|---|---|
| Board.ScanOrderInterleaves | app/src/main/java/com/example/theme/MainActivity.java:167-175 | entries `2i` and `2i+1` of the scan order are row `i` and column `i`: the loop tests a row, then the column with the same number |
| Board.ScanOrderCoversLines | app/src/main/java/com/example/theme/MainActivity.java:167-183 | some line of the scan order is won by `s` iff `s` holds three cells in a row, a column or a diagonal: the eight tests cover exactly the eight lines |
| Board.WinnerFromFirst | app/src/main/java/com/example/theme/MainActivity.java:167-185 | scanning from position `k` yields `s` iff some line at or after `k` is uniformly `s` and every line between `k` and it is not uniform |
| Board.WinnerFromFinds | app/src/main/java/com/example/theme/MainActivity.java:167-185 | if any line at or after `k` is uniformly filled, the scan from `k` returns some mark rather than `null` |
| Board.WinnerIsFirstMatch | app/src/main/java/com/example/theme/MainActivity.java:158-186 | the winner is `s` iff the first uniformly filled line in the interleaved scan order is filled with `s` |
| Board.WinnerSound | app/src/main/java/com/example/theme/MainActivity.java:158-186 | a reported winner is a mark, never the empty text, and holds a full row, column or diagonal |
| Board.WinnerNoneIff | app/src/main/java/com/example/theme/MainActivity.java:158-186 | the winner check returns `null` iff no mark holds three in a line |
| Board.WinnerUnique | app/src/main/java/com/example/theme/MainActivity.java:158-186 | when exactly one mark holds a line, the scan reports that mark, whatever its order |
| Board.EmptyBoardNotTerminal | app/src/main/java/com/example/theme/MainActivity.java:199-207 | the cleared board has nine cells, no winner and is not full, so a reset game is not over |
| Board.PlaceAlternates | app/src/main/java/com/example/theme/MainActivity.java:113-117 | putting the mover's mark on an empty cell and passing the turn keeps "X has as many marks as O, one more when O is to move" |
| Board.ThreeCellsCount | app/src/main/java/com/example/theme/MainActivity.java:168-181 | three distinct cells holding one mark mean that mark has been placed at least three times |
| Board.FewMarksNoWinner | app/src/main/java/com/example/theme/MainActivity.java:158-186 | while both marks have been placed fewer than three times, no line can be won |
| Board.EmptyBoardAlternates | app/src/main/java/com/example/theme/MainActivity.java:199-207 | the cleared board with X to move satisfies the alternation invariant |
| TicTacToe.Symbol | app/src/main/java/com/example/theme/MainActivity.java:113 | a winning mark is reported as the text "X" or "O", exactly for that mark, and never as the draw text |
| TicTacToe.Tallied | app/src/main/java/com/example/theme/MainActivity.java:209-227 | recording a result raises the sum of the counters by one and lowers none: the X counter iff the result is "X", the O counter iff "O", the draw counter for any other text |
| TicTacToe.Outcome | app/src/main/java/com/example/theme/MainActivity.java:144-156 | the state check reports a result iff the board is terminal: some line is won or no cell is empty |
| TicTacToe.OutcomeMeaning | app/src/main/java/com/example/theme/MainActivity.java:144-156 | the result is "X" or "O" exactly when the scan finds that mark, and that mark holds a line; it is the draw text iff the board is full and no line is won, so a win takes precedence over a full board; there is no result iff a cell is empty and no line is won |
| TicTacToe.Game.constructor | app/src/main/java/com/example/theme/MainActivity.java:24-26 | a new game has an empty board, X to move, is not over, is in two-player mode, and starts from the stored counters |
| TicTacToe.Game.MakeMove | app/src/main/java/com/example/theme/MainActivity.java:110-122 | a tap on an occupied cell or after the game is over changes nothing; otherwise the mover's mark is placed, the outcome is recorded once iff the board became terminal, and the turn passes; in bot mode, after an X move that does not end the game, O answers on some empty cell, that position's outcome is recorded, and X is to move again; the invariant is kept |
| TicTacToe.Game.PlaceMark | app/src/main/java/com/example/theme/MainActivity.java:113-117 | on an empty cell of an unfinished game the mover's mark is placed, that position's outcome is recorded, the turn passes and the invariant is kept |
| TicTacToe.Game.BotReply | app/src/main/java/com/example/theme/MainActivity.java:119-121 | when O is to move in an unfinished game the bot takes some empty cell, that position's outcome is recorded, X is to move again and the invariant is kept |
| TicTacToe.Game.SettledIsValid | app/src/main/java/com/example/theme/MainActivity.java:115-117 | a board whose outcome has been recorded, with the alternation invariant, satisfies the game invariant |
| TicTacToe.Game.BotMakeMove | app/src/main/java/com/example/theme/MainActivity.java:124-142 | with no empty cell the bot does nothing; otherwise it writes O on one previously empty cell, records that position's outcome, and passes the turn |
| TicTacToe.Game.AvailableCells | app/src/main/java/com/example/theme/MainActivity.java:126-133 | the collected indices are exactly the empty cells, in increasing board order, and the list is empty iff the board is full |
| TicTacToe.Game.CheckGameState | app/src/main/java/com/example/theme/MainActivity.java:144-156 | when the board has a result, exactly that result is tallied once and the game is over; otherwise the flag and the counters are unchanged |
| TicTacToe.Game.CheckForWinner | app/src/main/java/com/example/theme/MainActivity.java:158-186 | copying the buttons into a 3×3 field and testing row `i`, column `i`, then both diagonals returns `Winner` of the board: the mark of the first line of the scan order filled with one mark, or none (the meaning of `Winner` is given by the `Board.Winner…` lemmas above) |
| TicTacToe.Game.CheckForDraw | app/src/main/java/com/example/theme/MainActivity.java:188-197 | returns true iff `IsFull` holds of the board, that is, iff no cell is empty |
| TicTacToe.Game.ResetGame | app/src/main/java/com/example/theme/MainActivity.java:199-207 | every cell is cleared, the game is not over, X is to move, the counters and mode are untouched, and the invariant holds |
| TicTacToe.Game.SaveStats | app/src/main/java/com/example/theme/MainActivity.java:209-227 | the counters become the tally of the old counters with this result: one more X win, O win or draw |
| TicTacToe.Game.SetMode | app/src/main/java/com/example/theme/MainActivity.java:62-72 | both mode buttons set the bot flag and then start a fresh game |
| Scenarios.TopRowWin | app/src/main/java/com/example/theme/MainActivity.java:144-156 | X:0, O:4, X:1, O:5 leave the game open; X:2 completes the top row, the result is "X", and it counts as one more X win |
| Scenarios.FullBoardDraw | app/src/main/java/com/example/theme/MainActivity.java:144-156 | X:0, O:1, X:2, O:4, X:3, O:5, X:7, O:6 leave the game open; X:8 fills the board without a line, the result is a draw, and it counts as one more draw |
| Scenarios.DiagonalWin | app/src/main/java/com/example/theme/MainActivity.java:177-179 | X:0, O:1, X:4, O:2 leave the game open; X:8 completes the ↘ diagonal and X wins |
| Scenarios.BotTakesLastCell | app/src/main/java/com/example/theme/MainActivity.java:124-142 | when only the bottom-right cell is empty, the bot's move puts O there and fills the board |
| Scenarios.FrozenUntilReset | app/src/main/java/com/example/theme/MainActivity.java:110-111 | once the game is over, any sequence of taps leaves the board, the turn, the mode, the game-over flag and the statistics unchanged |

## Left out

- The light and dark theme (MainActivity.java lines 33-41 and 77-108) is not modelled: its preference, its icon and whatever the platform does when the night mode changes.
- Android views, the grid layout, button texts and Toast messages are left out. A button's text is modelled as a `Cell`, and the messages have no effect on the state.
- SharedPreferences persistence is left out. The three counters are fields of `Game`, and the stored values at start-up are the constructor's parameter. `loadStats` and `updateStats` (lines 229-247) only display the counters and are not modelled.
- The bot's `java.util.Random` choice is left out. `BotMakeMove` picks any one of the available cells, so uniformity is not modelled.
- TicTacToe.Tallied: counters are unbounded integers, so Java's 32-bit `int` wrap-around after 2^31 - 1 games is not modelled.
- Whole games played through `Game` method by method are not modelled. The example games are stated on `Outcome` and `Tallied`, which the methods' contracts are proved against, so the model does not show those games through the array updates of the class.
