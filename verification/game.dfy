/**
 * The game engine of the activity: the nine buttons of the grid become an
 * array of cells, and the turn, game-over and bot-mode flags and the three
 * statistics counters become fields that the move, bot, outcome, reset,
 * statistics and mode operations update in place.
 */
module TicTacToe {
  import opened Board

  /** The three counters of the statistics store. */
  datatype Stats = Stats(xWins: int, oWins: int, draws: int)

  /** The result the game hands to the statistics store when nobody won. */
  const DrawResult: string := "Ничья"

  /** The text a winning mark shows on its button. */
  function Symbol(c: Cell): (r: string)
    ensures r == "X" <==> c == X
    ensures r == "O" <==> c == O
    ensures r != DrawResult
  {
    match c
    case Empty => ""
    case X => "X"
    case O => "O"
  }

  /** The counters after recording `result`: an X win, an O win, or, for any
      other result, a draw. */
  function Tallied(t: Stats, result: string): (r: Stats)
    ensures r.xWins + r.oWins + r.draws == t.xWins + t.oWins + t.draws + 1
    ensures r.xWins >= t.xWins && r.oWins >= t.oWins && r.draws >= t.draws
    ensures r.xWins > t.xWins <==> result == "X"
    ensures r.oWins > t.oWins <==> result == "O"
    ensures r.draws > t.draws <==> result != "X" && result != "O"
  {
    if result == "X" then t.(xWins := t.xWins + 1)
    else if result == "O" then t.(oWins := t.oWins + 1)
    else t.(draws := t.draws + 1)
  }

  /** What the outcome check hands to the statistics store, if the game has
      ended: the winner's symbol, which takes precedence, or the draw result. */
  function Outcome(b: seq<Cell>): (r: Option<string>)
    requires |b| == 9
    ensures r.Some? <==> Terminal(b)
  {
    match Winner(b)
    case Some(w) => Some(Symbol(w))
    case None =>
      if IsFull(b) then Some(DrawResult) else None
  }

  /** The recorded outcome means what it says: a reported winner takes
      precedence over a full board, an X or O result has three in a line for
      that mark, and a draw is a full board without one. */
  lemma OutcomeMeaning(b: seq<Cell>)
    requires |b| == 9
    ensures Outcome(b) == Some("X") <==> Winner(b) == Some(X)
    ensures Outcome(b) == Some("O") <==> Winner(b) == Some(O)
    ensures Outcome(b) == Some(DrawResult) <==> Winner(b).None? && IsFull(b)
    ensures Outcome(b) == Some("X") ==> HasLine(b, X)
    ensures Outcome(b) == Some("O") ==> HasLine(b, O)
    ensures Outcome(b) == Some(DrawResult) <==> IsFull(b) && forall s :: !HasLine(b, s)
    ensures Outcome(b).None? <==> !IsFull(b) && forall s :: !HasLine(b, s)
  {
    WinnerNoneIff(b);
    if Winner(b).Some? {
      WinnerSound(b, Winner(b).value);
    }
  }

  class Game {
    /** The grid, row-major: cell i is the button at row i / 3, column i % 3. */
    var board: array<Cell>
    var playerXTurn: bool
    var gameOver: bool
    var isPlayWithBot: bool
    /** The values stored under the keys "XWins", "OWins" and "Draws". The
        statistics methods read and write these keys one at a time, so they
        are three fields here; `Tally` reads them back as one `Stats` value,
        the value `Tallied` computes on. */
    var xWins: int
    var oWins: int
    var draws: int

    ghost function Tally(): Stats
      reads this
    {
      Stats(xWins, oWins, draws)
    }

    /** The object invariant: the grid has nine cells, X moved first and the
        players alternated, and the game is over exactly when the board shows
        a winner or is full. */
    ghost predicate Valid()
      reads this, board
    {
      board.Length == 9 &&
      TurnsAlternate(board[..], playerXTurn) &&
      (gameOver <==> Terminal(board[..]))
    }

    /** The current board is `b`, and the flag and counters are what the
        outcome check leaves when it runs on `b` from `over0` and `t0`. */
    ghost predicate Settled(b: seq<Cell>, over0: bool, t0: Stats)
      reads this, board
      requires |b| == 9
    {
      board[..] == b &&
      match Outcome(b)
      case Some(result) => gameOver && Tally() == Tallied(t0, result)
      case None => gameOver == over0 && Tally() == t0
    }

    /** A fresh activity: empty grid, X to move, two-player mode, and the
        counters as the statistics store holds them. */
    constructor (stored: Stats)
      ensures Valid() && fresh(board)
      ensures board[..] == EmptyBoard && playerXTurn && !gameOver && !isPlayWithBot
      ensures Tally() == stored
    {
      board := new Cell[9](_ => Empty);
      playerXTurn := true;
      gameOver := false;
      isPlayWithBot := false;
      xWins, oWins, draws := stored.xWins, stored.oWins, stored.draws;
      new;
      assert board[..] == EmptyBoard;
      EmptyBoardNotTerminal();
      EmptyBoardAlternates();
    }

    /** A tap on cell `index`: ignored on an occupied cell or a finished game;
        otherwise the player to move marks the cell, the outcome is checked,
        the turn passes, and in bot mode the bot answers while the game goes on. */
    method MakeMove(index: nat)
      requires Valid() && index < 9
      modifies this`playerXTurn, this`gameOver, this`xWins, this`oWins, this`draws, board
      ensures Valid()
      ensures old(board[index] != Empty || gameOver) ==>
                board[..] == old(board[..]) && playerXTurn == old(playerXTurn) &&
                gameOver == old(gameOver) && Tally() == old(Tally())
      ensures old(board[index] == Empty && !gameOver) ==>
                var placed := old(board[..])[index := Mark(old(playerXTurn))];
                if isPlayWithBot && !Terminal(placed) && old(playerXTurn) then
                  playerXTurn == old(playerXTurn) &&
                  exists k :: 0 <= k < 9 && placed[k] == Empty &&
                              Settled(placed[k := O], false, old(Tally()))
                else
                  playerXTurn == !old(playerXTurn) &&
                  Settled(placed, false, old(Tally()))
    {
      if board[index] != Empty || gameOver {
        return;
      }
      ghost var placed := board[..][index := Mark(playerXTurn)];
      PlaceMark(index);
      assert gameOver == Terminal(placed);

      if isPlayWithBot && !gameOver && !playerXTurn {
        BotReply();
      }
    }

    /** The bot answers in an unfinished game where O is to move: O takes
        some empty cell, the outcome is checked and X is to move again. */
    method BotReply()
      requires Valid() && !gameOver && !playerXTurn
      modifies this`playerXTurn, this`gameOver, this`xWins, this`oWins, this`draws, board
      ensures Valid() && playerXTurn
      ensures exists k :: 0 <= k < 9 && old(board[..])[k] == Empty &&
                          Settled(old(board[..])[k := O], false, old(Tally()))
    {
      ghost var b := board[..];
      assert !IsFull(b);
      BotMakeMove();
      ghost var k :| 0 <= k < 9 && b[k] == Empty && Settled(b[k := O], false, old(Tally()));
      PlaceAlternates(b, k, false);
      SettledIsValid(b[k := O], old(Tally()));
    }

    /** The player to move marks an empty cell of an unfinished game, the
        outcome is checked and the turn passes. */
    method PlaceMark(index: nat)
      requires Valid() && index < 9 && board[index] == Empty && !gameOver
      modifies this`playerXTurn, this`gameOver, this`xWins, this`oWins, this`draws, board
      ensures Valid()
      ensures playerXTurn == !old(playerXTurn)
      ensures Settled(old(board[..])[index := Mark(old(playerXTurn))], false, old(Tally()))
    {
      ghost var placed := board[..][index := Mark(playerXTurn)];
      PlaceAlternates(board[..], index, playerXTurn);
      board[index] := if playerXTurn then X else O;
      assert board[..] == placed;

      CheckGameState();
      playerXTurn := !playerXTurn;
      SettledIsValid(placed, old(Tally()));
    }

    /** A board reached by alternating moves from an unfinished game, once
        the outcome check has run on it, satisfies the object invariant. */
    lemma SettledIsValid(b: seq<Cell>, t0: Stats)
      requires board.Length == 9 && |b| == 9
      requires Settled(b, false, t0) && TurnsAlternate(b, playerXTurn)
      ensures Valid()
    {
    }

    /** The bot's move: collect the empty cells in grid order and, if there
        is one, write O into one of them chosen at random, check the outcome
        and pass the turn. The random choice is left open. */
    method BotMakeMove()
      requires board.Length == 9
      modifies this`playerXTurn, this`gameOver, this`xWins, this`oWins, this`draws, board
      ensures IsFull(old(board[..])) ==>
                board[..] == old(board[..]) && playerXTurn == old(playerXTurn) &&
                gameOver == old(gameOver) && Tally() == old(Tally())
      ensures !IsFull(old(board[..])) ==>
                playerXTurn == !old(playerXTurn) &&
                exists k :: 0 <= k < 9 && old(board[..])[k] == Empty &&
                            Settled(old(board[..])[k := O], old(gameOver), old(Tally()))
    {
      var available := AvailableCells();
      if |available| > 0 {
        var pick :| 0 <= pick < |available|;
        var cell := available[pick];
        ghost var before := board[..];
        board[cell] := O;
        assert board[..] == before[cell := O];
        CheckGameState();
        playerXTurn := !playerXTurn;
      } else {
        assert IsFull(board[..]);
      }
    }

    /** The indices of the empty cells, in grid order. */
    method AvailableCells() returns (available: seq<nat>)
      requires board.Length == 9
      ensures forall j :: 0 <= j < |available| ==> available[j] < 9 && board[available[j]] == Empty
      ensures forall k :: 0 <= k < 9 && board[k] == Empty ==> k in available
      ensures forall i, j :: 0 <= i < j < |available| ==> available[i] < available[j]
      ensures |available| == 0 <==> IsFull(board[..])
    {
      available := [];
      for i := 0 to 9
        invariant forall j :: 0 <= j < |available| ==> available[j] < i && board[available[j]] == Empty
        invariant forall k :: 0 <= k < i && board[k] == Empty ==> k in available
        invariant forall a, c :: 0 <= a < c < |available| ==> available[a] < available[c]
      {
        if board[i] == Empty {
          available := available + [i];
        }
      }
      if !IsFull(board[..]) {
        var k :| 0 <= k < 9 && board[..][k] == Empty;
        assert k in available;
      }
      if |available| > 0 {
        assert board[..][available[0]] == Empty;
      }
    }

    /** Announce a winner or a draw, if there is one: record it in the
        statistics and freeze the game. Otherwise nothing changes. */
    method CheckGameState()
      requires board.Length == 9
      modifies this`gameOver, this`xWins, this`oWins, this`draws
      ensures Settled(old(board[..]), old(gameOver), old(Tally()))
    {
      var winner := CheckForWinner();
      if winner.Some? {
        WinnerSound(board[..], winner.value);
        SaveStats(Symbol(winner.value));
        gameOver := true;
      } else {
        var draw := CheckForDraw();
        if draw {
          SaveStats(DrawResult);
          gameOver := true;
        }
      }
    }

    /** Scan the lines in the game's order: row i, then column i, for
        i = 0, 1, 2, then the two diagonals; report the first that holds
        three equal marks. */
    method CheckForWinner() returns (winner: Option<Cell>)
      requires board.Length == 9
      ensures winner == Winner(board[..])
    {
      ghost var b := board[..];
      var field := new Cell[3, 3];
      for i := 0 to 9
        invariant forall r, c :: 0 <= r < 3 && 0 <= c < 3 && 3 * r + c < i ==> field[r, c] == b[3 * r + c]
      {
        field[i / 3, i % 3] := board[i];
      }

      for i := 0 to 3
        invariant forall r, c :: 0 <= r < 3 && 0 <= c < 3 ==> field[r, c] == b[3 * r + c]
        invariant WinnerFrom(b, 2 * i) == Winner(b)
      {
        ScanOrderInterleaves(i);
        assert field[i, 0] == b[3 * i] && field[i, 1] == b[3 * i + 1] && field[i, 2] == b[3 * i + 2];
        assert field[0, i] == b[i] && field[1, i] == b[3 + i] && field[2, i] == b[6 + i];
        if field[i, 0] == field[i, 1] && field[i, 1] == field[i, 2] && field[i, 0] != Empty {
          return Some(field[i, 0]);
        }
        if field[0, i] == field[1, i] && field[1, i] == field[2, i] && field[0, i] != Empty {
          return Some(field[0, i]);
        }
      }

      if field[0, 0] == field[1, 1] && field[1, 1] == field[2, 2] && field[0, 0] != Empty {
        return Some(field[0, 0]);
      }
      if field[0, 2] == field[1, 1] && field[1, 1] == field[2, 0] && field[0, 2] != Empty {
        return Some(field[0, 2]);
      }
      return None;
    }

    /** The board is a draw candidate when no cell is empty. */
    method CheckForDraw() returns (full: bool)
      requires board.Length == 9
      ensures full <==> IsFull(board[..])
    {
      for i := 0 to 9
        invariant forall k :: 0 <= k < i ==> board[k] != Empty
      {
        if board[i] == Empty {
          return false;
        }
      }
      return true;
    }

    /** Clear every cell, unfreeze the game and give X the first move; the
        mode and the statistics stay. */
    method ResetGame()
      requires board.Length == 9
      modifies this`gameOver, this`playerXTurn, board
      ensures Valid()
      ensures board[..] == EmptyBoard && !gameOver && playerXTurn
    {
      for i := 0 to board.Length
        invariant forall k :: 0 <= k < i ==> board[k] == Empty
      {
        board[i] := Empty;
      }
      gameOver := false;
      playerXTurn := true;
      assert board[..] == EmptyBoard;
      EmptyBoardNotTerminal();
      EmptyBoardAlternates();
    }

    /** Record one finished game: an X win for "X", an O win for "O", a
        draw for anything else. */
    method SaveStats(result: string)
      modifies this`xWins, this`oWins, this`draws
      ensures Tally() == Tallied(old(Tally()), result)
    {
      var x, o, d := xWins, oWins, draws;
      if result == "X" {
        x := x + 1;
        xWins := x;
      } else if result == "O" {
        o := o + 1;
        oWins := o;
      } else {
        d := d + 1;
        draws := d;
      }
    }

    /** The mode buttons: choose between playing the bot and playing a
        friend, then start a new game. */
    method SetMode(withBot: bool)
      requires board.Length == 9
      modifies this`isPlayWithBot, this`gameOver, this`playerXTurn, board
      ensures Valid()
      ensures isPlayWithBot == withBot
      ensures board[..] == EmptyBoard && !gameOver && playerXTurn
    {
      isPlayWithBot := withBot;
      ResetGame();
    }
  }
}
