/**
 * The history of board snapshots kept by the `Game` component of src/App.js,
 * and what holds of every history that the game can build.
 */
module History {
  import opened TicTacToe
  import opened BoardPanel

  /** The mark placed when moving from snapshot `n`: "X" on even `n`, "O" on odd. */
  function MarkFor(n: nat): Cell
  {
    MarkOf(n % 2 == 0)
  }

  /**
   * A history the game can build: it starts with the empty board and each
   * snapshot is a legal move from the one before it, players alternating with X first.
   */
  predicate GameHistory(h: seq<Board>)
  {
    |h| > 0 && h[0] == EmptyBoard &&
    forall n :: 0 <= n < |h| - 1 ==> LegalMove(h[n], h[n + 1], MarkFor(n))
  }

  /** Number of squares of `b` holding `c`. */
  function Count(b: Board, c: Cell): nat
  {
    multiset(b)[c]
  }

  lemma EmptyBoardCounts()
    ensures Count(EmptyBoard, Empty) == 9 && Count(EmptyBoard, X) == 0 && Count(EmptyBoard, O) == 0
  {
  }

  /** A board with no empty square has an `Empty` count of zero. */
  lemma FullBoardHasNoEmpty(b: Board)
    requires forall j :: 0 <= j < 9 ==> b[j] != Empty
    ensures Count(b, Empty) == 0
  {
  }

  /** Writing a mark into an empty square moves one unit of count from Empty to that mark. */
  lemma CountAfterMove(b: Board, i: int, m: Cell)
    requires 0 <= i < 9 && b[i] == Empty && m != Empty
    ensures Count(b[i := m], Empty) == Count(b, Empty) - 1
    ensures Count(b[i := m], m) == Count(b, m) + 1
    ensures forall c :: c != Empty && c != m ==> Count(b[i := m], c) == Count(b, c)
  {
  }

  /** After `n` moves the board holds ceil(n/2) X marks, floor(n/2) O marks and 9 - n empty squares. */
  lemma {:induction false} MarkCounts(h: seq<Board>, n: nat)
    requires GameHistory(h) && n < |h|
    ensures Count(h[n], X) == (n + 1) / 2
    ensures Count(h[n], O) == n / 2
    ensures Count(h[n], Empty) == 9 - n
  {
    if n == 0 {
      EmptyBoardCounts();
    } else {
      MarkCounts(h, n - 1);
      assert LegalMove(h[n - 1], h[n], MarkFor(n - 1));
      var i :| 0 <= i < 9 && h[n - 1][i] == Empty && h[n] == h[n - 1][i := MarkFor(n - 1)];
      CountAfterMove(h[n - 1], i, MarkFor(n - 1));
    }
  }

  /** A game never has more than ten snapshots: each move fills one of nine squares. */
  lemma HistoryBound(h: seq<Board>)
    requires GameHistory(h)
    ensures |h| <= 10
  {
    MarkCounts(h, |h| - 1);
  }

  /** X moves next exactly when both players have placed the same number of marks. */
  lemma TurnFromCounts(h: seq<Board>, n: nat)
    requires GameHistory(h) && n < |h|
    ensures MarkFor(n) == X <==> Count(h[n], X) == Count(h[n], O)
  {
    MarkCounts(h, n);
  }

  /** A filled square keeps its mark in every later snapshot. */
  lemma {:induction false} SquaresNeverChange(h: seq<Board>, m: nat, n: nat, j: int)
    requires GameHistory(h) && m <= n < |h| && 0 <= j < 9 && h[m][j] != Empty
    ensures h[n][j] == h[m][j]
  {
    if m < n {
      SquaresNeverChange(h, m, n - 1, j);
      assert LegalMove(h[n - 1], h[n], MarkFor(n - 1));
    }
  }

  /** Every snapshot that has a successor has no winner: play stops at the first win. */
  lemma NoMoveAfterWin(h: seq<Board>, n: nat)
    requires GameHistory(h) && n < |h| - 1
    ensures Winner(h[n]).None?
  {
    assert LegalMove(h[n], h[n + 1], MarkFor(n));
  }

  /**
   * Only the last snapshot of a history can hold a completed line, and every
   * completed line there holds the mark of the player who made the last move.
   */
  lemma OnlyLastMoverWins(h: seq<Board>, n: nat, k: nat)
    requires GameHistory(h) && n < |h|
    requires k < |Lines| && Completes(h[n], Lines[k])
    ensures n == |h| - 1 && n > 0
    ensures h[n][Lines[k].a] == MarkFor(n - 1)
  {
    assert Winner(h[n]).Some?;
    if n < |h| - 1 {
      NoMoveAfterWin(h, n);
      assert false;
    }
    if n == 0 {
      EmptyBoardHasNoWinner();
      assert false;
    }
    assert LegalMove(h[n - 1], h[n], MarkFor(n - 1));
    var i :| 0 <= i < 9 && h[n - 1][i] == Empty && h[n] == h[n - 1][i := MarkFor(n - 1)];
    NewLineThroughMove(h[n - 1], i, MarkFor(n - 1), k);
  }

  /** Cutting a history after snapshot `k` and appending a legal move from it gives a history. */
  lemma TruncateAndAppend(h: seq<Board>, k: nat, next: Board)
    requires GameHistory(h) && k < |h|
    requires LegalMove(h[k], next, MarkFor(k))
    ensures GameHistory(h[..k + 1] + [next])
  {
  }
}
