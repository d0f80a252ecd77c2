/**
 * Example games and two consequences of the move contracts. The three
 * example games are stated on the pure functions `Outcome` and `Tallied`,
 * one position after each move; the two methods are callers of `Game`
 * that rely only on the contracts of its methods.
 */
module Scenarios {
  import opened Board
  import opened TicTacToe

  /** X takes the top row: X:0, O:4, X:1, O:5, X:2. No earlier position
      ends the game; the last is an X win, recorded as one more X win. */
  lemma TopRowWin(t: Stats)
    ensures Outcome(EmptyBoard[0 := X]) == None
    ensures Outcome(EmptyBoard[0 := X][4 := O]) == None
    ensures Outcome(EmptyBoard[0 := X][4 := O][1 := X]) == None
    ensures Outcome(EmptyBoard[0 := X][4 := O][1 := X][5 := O]) == None
    ensures Outcome(EmptyBoard[0 := X][4 := O][1 := X][5 := O][2 := X]) == Some("X")
    ensures Tallied(t, "X") == Stats(t.xWins + 1, t.oWins, t.draws)
  {
  }

  /** All nine cells filled without a line: X:0, O:1, X:2, O:4, X:3, O:5,
      X:7, O:6, X:8 ends in a draw, recorded as one more draw. */
  lemma FullBoardDraw(t: Stats)
    ensures Outcome(EmptyBoard[0 := X]) == None
    ensures Outcome(EmptyBoard[0 := X][1 := O]) == None
    ensures Outcome(EmptyBoard[0 := X][1 := O][2 := X]) == None
    ensures Outcome(EmptyBoard[0 := X][1 := O][2 := X][4 := O]) == None
    ensures Outcome(EmptyBoard[0 := X][1 := O][2 := X][4 := O][3 := X]) == None
    ensures Outcome(EmptyBoard[0 := X][1 := O][2 := X][4 := O][3 := X][5 := O]) == None
    ensures Outcome(EmptyBoard[0 := X][1 := O][2 := X][4 := O][3 := X][5 := O][7 := X]) == None
    ensures Outcome(EmptyBoard[0 := X][1 := O][2 := X][4 := O][3 := X][5 := O][7 := X][6 := O]) == None
    ensures Outcome(EmptyBoard[0 := X][1 := O][2 := X][4 := O][3 := X][5 := O][7 := X][6 := O][8 := X])
            == Some(DrawResult)
    ensures Tallied(t, DrawResult) == Stats(t.xWins, t.oWins, t.draws + 1)
  {
    var eight := EmptyBoard[0 := X][1 := O][2 := X][4 := O][3 := X][5 := O][7 := X][6 := O];
    assert eight == [X, O, X, X, O, O, O, X, Empty];
    assert eight[8] == Empty;
  }

  /** X takes the diagonal from the top-left corner: X:0, O:1, X:4, O:2, X:8. */
  lemma DiagonalWin()
    ensures Outcome(EmptyBoard[0 := X]) == None
    ensures Outcome(EmptyBoard[0 := X][1 := O]) == None
    ensures Outcome(EmptyBoard[0 := X][1 := O][4 := X]) == None
    ensures Outcome(EmptyBoard[0 := X][1 := O][4 := X][2 := O]) == None
    ensures Outcome(EmptyBoard[0 := X][1 := O][4 := X][2 := O][8 := X]) == Some("X")
  {
  }

  /** With only the bottom-right cell left empty, the bot can only play there. */
  method BotTakesLastCell(g: Game)
    requires g.board.Length == 9
    requires forall k :: 0 <= k < 8 ==> g.board[k] != Empty
    requires g.board[8] == Empty
    modifies g`playerXTurn, g`gameOver, g`xWins, g`oWins, g`draws, g.board
    ensures g.board[8] == O && IsFull(g.board[..])
  {
    g.BotMakeMove();
  }

  /** Once a game is over, no sequence of taps changes the board, the turn
      or the statistics until the game is reset. */
  method FrozenUntilReset(g: Game, taps: seq<nat>)
    requires g.Valid() && g.gameOver
    requires forall i :: 0 <= i < |taps| ==> taps[i] < 9
    modifies g`playerXTurn, g`gameOver, g`xWins, g`oWins, g`draws, g.board
    ensures g.board[..] == old(g.board[..]) && g.playerXTurn == old(g.playerXTurn)
    ensures g.gameOver && g.Tally() == old(g.Tally())
    ensures g.isPlayWithBot == old(g.isPlayWithBot)
  {
    for i := 0 to |taps|
      invariant g.Valid() && g.gameOver
      invariant g.board[..] == old(g.board[..]) && g.playerXTurn == old(g.playerXTurn)
      invariant g.Tally() == old(g.Tally())
    {
      g.MakeMove(taps[i]);
    }
  }
}
