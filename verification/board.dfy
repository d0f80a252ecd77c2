/**
 * The 3x3 tic-tac-toe board as a value: nine cells addressed row-major
 * (cell i sits at row i / 3, column i % 3), the eight winning lines, the
 * winner scan in the order the game checks them, the full-board test and
 * the mark counts that record whose turn it is.
 */
module Board {

  datatype Cell = Empty | X | O

  datatype Option<T> = None | Some(value: T)

  /** A cell address on the 3x3 grid. */
  type Index = i: nat | i < 9

  /** Three cell addresses that win when they hold the same mark. */
  type Line = (Index, Index, Index)

  const EmptyBoard: seq<Cell> := [Empty, Empty, Empty, Empty, Empty, Empty, Empty, Empty, Empty]

  /** Row `r`, left to right. */
  function Row(r: nat): Line
    requires r < 3
  {
    (3 * r, 3 * r + 1, 3 * r + 2)
  }

  /** Column `c`, top to bottom. */
  function Column(c: nat): Line
    requires c < 3
  {
    (c, c + 3, c + 6)
  }

  /** The diagonal from the top-left corner. */
  const Diagonal: Line := (0, 4, 8)

  /** The diagonal from the top-right corner. */
  const AntiDiagonal: Line := (2, 4, 6)

  /** The order in which the game inspects the lines: row i then column i
      for i = 0, 1, 2, then the two diagonals. */
  const ScanOrder: seq<Line> :=
    [Row(0), Column(0), Row(1), Column(1), Row(2), Column(2), Diagonal, AntiDiagonal]

  /** The mark that wins line `l`, if its three cells agree and are not empty. */
  function LineWinner(b: seq<Cell>, l: Line): Option<Cell>
    requires |b| == 9
  {
    if b[l.0] == b[l.1] && b[l.1] == b[l.2] && b[l.0] != Empty then Some(b[l.0]) else None
  }

  /** The first line, from position `k` of the scan order on, that has a winner. */
  function WinnerFrom(b: seq<Cell>, k: nat): Option<Cell>
    requires |b| == 9
    decreases |ScanOrder| - k
  {
    if k >= |ScanOrder| then None
    else
      var w := LineWinner(b, ScanOrder[k]);
      if w.Some? then w else WinnerFrom(b, k + 1)
  }

  /** The winner the game reports: the first winning line in scan order. */
  function Winner(b: seq<Cell>): Option<Cell>
    requires |b| == 9
  {
    WinnerFrom(b, 0)
  }

  /** No cell is empty. */
  predicate IsFull(b: seq<Cell>)
  {
    forall i :: 0 <= i < |b| ==> b[i] != Empty
  }

  /** The game has ended: someone won, or nobody can move. */
  predicate Terminal(b: seq<Cell>)
    requires |b| == 9
  {
    Winner(b).Some? || IsFull(b)
  }

  // ---------------------------------------------------------------------
  // An order-free reference definition of "s has three in a line"

  ghost predicate Filled(b: seq<Cell>, l: Line, s: Cell)
    requires |b| == 9
  {
    b[l.0] == s && b[l.1] == s && b[l.2] == s
  }

  /** Mark `s` occupies a whole row, column or diagonal. */
  ghost predicate HasLine(b: seq<Cell>, s: Cell)
    requires |b| == 9
  {
    s != Empty &&
    ((exists r :: 0 <= r < 3 && Filled(b, Row(r), s)) ||
     (exists c :: 0 <= c < 3 && Filled(b, Column(c), s)) ||
     Filled(b, Diagonal, s) ||
     Filled(b, AntiDiagonal, s))
  }

  /** Line `j` is the first line at or after position `k` of the scan order
      that has a winner, and `s` wins it. */
  ghost predicate FirstMatchFrom(b: seq<Cell>, k: nat, j: nat, s: Cell)
    requires |b| == 9
  {
    k <= j < |ScanOrder| &&
    LineWinner(b, ScanOrder[j]) == Some(s) &&
    forall i :: k <= i < j ==> LineWinner(b, ScanOrder[i]).None?
  }

  /** Line `j` of the scan order is the first one that has a winner, and `s` wins it. */
  ghost predicate FirstMatch(b: seq<Cell>, j: nat, s: Cell)
    requires |b| == 9
  {
    FirstMatchFrom(b, 0, j, s)
  }

  /** Row i and column i sit next to each other in the scan order. */
  lemma ScanOrderInterleaves(i: nat)
    requires i < 3
    ensures ScanOrder[2 * i] == Row(i) && ScanOrder[2 * i + 1] == Column(i)
  {
  }

  /** The scan order lists exactly the rows, columns and diagonals. */
  lemma ScanOrderCoversLines(b: seq<Cell>, s: Cell)
    requires |b| == 9
    ensures HasLine(b, s) <==>
            s != Empty && exists j :: 0 <= j < |ScanOrder| && Filled(b, ScanOrder[j], s)
  {
    if s != Empty && exists j :: 0 <= j < |ScanOrder| && Filled(b, ScanOrder[j], s) {
      var j :| 0 <= j < |ScanOrder| && Filled(b, ScanOrder[j], s);
      if j < 6 {
        ScanOrderInterleaves(j / 2);
      }
    }
    if HasLine(b, s) {
      if exists r :: 0 <= r < 3 && Filled(b, Row(r), s) {
        var r :| 0 <= r < 3 && Filled(b, Row(r), s);
        ScanOrderInterleaves(r);
        assert Filled(b, ScanOrder[2 * r], s);
      } else if exists c :: 0 <= c < 3 && Filled(b, Column(c), s) {
        var c :| 0 <= c < 3 && Filled(b, Column(c), s);
        ScanOrderInterleaves(c);
        assert Filled(b, ScanOrder[2 * c + 1], s);
      } else if Filled(b, Diagonal, s) {
        assert Filled(b, ScanOrder[6], s);
      } else {
        assert Filled(b, ScanOrder[7], s);
      }
    }
  }

  /** Scanning from `k` finds `s` exactly when `s` wins the first winning line at or after `k`. */
  lemma {:induction false} WinnerFromFirst(b: seq<Cell>, k: nat, s: Cell)
    requires |b| == 9 && k <= |ScanOrder|
    ensures WinnerFrom(b, k) == Some(s) <==> exists j: nat :: FirstMatchFrom(b, k, j, s)
    decreases |ScanOrder| - k
  {
    if k < |ScanOrder| {
      WinnerFromFirst(b, k + 1, s);
      if LineWinner(b, ScanOrder[k]).None? {
        if exists j: nat :: FirstMatchFrom(b, k, j, s) {
          var j: nat :| FirstMatchFrom(b, k, j, s);
          assert FirstMatchFrom(b, k + 1, j, s);
        }
        var next := k + 1;
        if exists j: nat :: FirstMatchFrom(b, next, j, s) {
          var j: nat :| FirstMatchFrom(b, next, j, s);
          assert FirstMatchFrom(b, k, j, s);
        }
      } else {
        if WinnerFrom(b, k) == Some(s) {
          assert FirstMatchFrom(b, k, k, s);
        }
        if exists j: nat :: FirstMatchFrom(b, k, j, s) {
          var j: nat :| FirstMatchFrom(b, k, j, s);
          assert j == k;
        }
      }
    }
  }

  /** Some line at or after `k` has a winner, so the scan from `k` reports one. */
  lemma {:induction false} WinnerFromFinds(b: seq<Cell>, k: nat, j: nat)
    requires |b| == 9 && k <= j < |ScanOrder|
    requires LineWinner(b, ScanOrder[j]).Some?
    ensures WinnerFrom(b, k).Some?
    decreases j - k
  {
    if k < j && LineWinner(b, ScanOrder[k]).None? {
      WinnerFromFinds(b, k + 1, j);
    }
  }

  /** The reported winner is the mark of the first winning line in scan order. */
  lemma WinnerIsFirstMatch(b: seq<Cell>, s: Cell)
    requires |b| == 9
    ensures Winner(b) == Some(s) <==> exists j: nat :: FirstMatch(b, j, s)
  {
    WinnerFromFirst(b, 0, s);
    if Winner(b) == Some(s) {
      var j: nat :| FirstMatchFrom(b, 0, j, s);
      assert FirstMatch(b, j, s);
    }
  }

  /** A reported winner really holds three in a line. */
  lemma WinnerSound(b: seq<Cell>, s: Cell)
    requires |b| == 9
    requires Winner(b) == Some(s)
    ensures s != Empty && HasLine(b, s)
  {
    WinnerIsFirstMatch(b, s);
    var j: nat :| FirstMatch(b, j, s);
    assert Filled(b, ScanOrder[j], s);
    ScanOrderCoversLines(b, s);
  }

  /** No winner is reported exactly when no mark holds three in a line. */
  lemma WinnerNoneIff(b: seq<Cell>)
    requires |b| == 9
    ensures Winner(b).None? <==> forall s :: !HasLine(b, s)
  {
    if Winner(b).Some? {
      WinnerSound(b, Winner(b).value);
    }
    if exists s :: HasLine(b, s) {
      var s :| HasLine(b, s);
      ScanOrderCoversLines(b, s);
      var j :| 0 <= j < |ScanOrder| && Filled(b, ScanOrder[j], s);
      WinnerFromFinds(b, 0, j);
    }
  }

  /** When only one mark holds a line, that mark is reported, whatever the scan order. */
  lemma WinnerUnique(b: seq<Cell>, s: Cell)
    requires |b| == 9
    requires HasLine(b, s)
    requires forall t :: t != s ==> !HasLine(b, t)
    ensures Winner(b) == Some(s)
  {
    WinnerNoneIff(b);
    WinnerSound(b, Winner(b).value);
  }

  /** The empty board has no winner and is not full. */
  lemma EmptyBoardNotTerminal()
    ensures |EmptyBoard| == 9 && !Terminal(EmptyBoard)
  {
    WinnerNoneIff(EmptyBoard);
    assert EmptyBoard[0] == Empty;
  }

  // ---------------------------------------------------------------------
  // Turn bookkeeping

  /** The mark the player to move writes. */
  function Mark(xTurn: bool): Cell
  {
    if xTurn then X else O
  }

  function Count(b: seq<Cell>, c: Cell): nat
  {
    multiset(b)[c]
  }

  /** X moves first and the players alternate: when it is X's turn both have
      moved equally often, otherwise X has moved once more. */
  predicate TurnsAlternate(b: seq<Cell>, xTurn: bool)
  {
    Count(b, X) == Count(b, O) + (if xTurn then 0 else 1)
  }

  /** The player to move writing into an empty cell hands the turn over. */
  lemma PlaceAlternates(b: seq<Cell>, k: nat, xTurn: bool)
    requires k < |b| && b[k] == Empty
    requires TurnsAlternate(b, xTurn)
    ensures TurnsAlternate(b[k := Mark(xTurn)], !xTurn)
  {
    assert multiset(b[k := Mark(xTurn)]) == multiset(b) - multiset{Empty} + multiset{Mark(xTurn)};
  }

  /** Three distinct cells holding `s` make at least three copies of `s`. */
  lemma ThreeCellsCount(b: seq<Cell>, p: nat, q: nat, r: nat, s: Cell)
    requires p < q < r < |b|
    requires b[p] == s && b[q] == s && b[r] == s
    ensures Count(b, s) >= 3
  {
    assert b == b[..p] + [b[p]] + b[p + 1..q] + [b[q]] + b[q + 1..r] + [b[r]] + b[r + 1..];
  }

  /** A mark placed fewer than three times cannot hold a line, so nobody wins
      before X's third move. */
  lemma FewMarksNoWinner(b: seq<Cell>)
    requires |b| == 9
    requires Count(b, X) < 3 && Count(b, O) < 3
    ensures Winner(b).None?
  {
    forall s | HasLine(b, s) ensures false {
      ScanOrderCoversLines(b, s);
      var j :| 0 <= j < |ScanOrder| && Filled(b, ScanOrder[j], s);
      var l := ScanOrder[j];
      assert l.0 < l.1 < l.2 by {
        if j < 6 { ScanOrderInterleaves(j / 2); }
      }
      ThreeCellsCount(b, l.0, l.1, l.2, s);
    }
    WinnerNoneIff(b);
  }

  lemma EmptyBoardAlternates()
    ensures TurnsAlternate(EmptyBoard, true)
  {
    assert forall c :: c != Empty ==> c !in EmptyBoard;
  }
}
