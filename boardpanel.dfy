/**
 * The game logic inside the `Board` component of src/App.js: the click
 * handler that produces the next board, and the status line.
 */
module BoardPanel {
  import opened TicTacToe

  /** The mark a click places: "X" when `xIsNext`, else "O". */
  function MarkOf(xIsNext: bool): Cell
  {
    if xIsNext then X else O
  }

  /** `prev` has no winner and `next` is `prev` with one empty square set to `mark`. */
  predicate LegalMove(prev: Board, next: Board, mark: Cell)
  {
    Winner(prev).None? &&
    exists i :: 0 <= i < 9 && prev[i] == Empty && next == prev[i := mark]
  }

  /**
   * What a click on square `i` produces: None when the board already has a
   * winner or the square is taken, otherwise the board with the mover's mark at `i`.
   */
  function NextSquares(squares: Board, i: int, xIsNext: bool): (r: Option<Board>)
    requires 0 <= i < 9
    ensures r.None? <==> Winner(squares).Some? || squares[i] != Empty
    ensures r.Some? ==> r.value[i] == MarkOf(xIsNext)
    ensures r.Some? ==> forall j :: 0 <= j < 9 && j != i ==> r.value[j] == squares[j]
  {
    if Winner(squares).Some? || squares[i] != Empty then None
    else Some(squares[i := MarkOf(xIsNext)])
  }

  /** Every board a click produces is a legal move by the player whose turn it is. */
  lemma NextSquaresIsLegal(squares: Board, i: int, xIsNext: bool)
    requires 0 <= i < 9
    ensures NextSquares(squares, i, xIsNext).Some? ==>
      LegalMove(squares, NextSquares(squares, i, xIsNext).value, MarkOf(xIsNext))
  {
  }

  /** Conversely, every legal move is what a click on some square produces. */
  lemma LegalMoveIsClick(prev: Board, next: Board, xIsNext: bool)
    requires LegalMove(prev, next, MarkOf(xIsNext))
    ensures exists i :: 0 <= i < 9 && NextSquares(prev, i, xIsNext) == Some(next)
  {
    var i :| 0 <= i < 9 && prev[i] == Empty && next == prev[i := MarkOf(xIsNext)];
    assert NextSquares(prev, i, xIsNext) == Some(next);
  }

  /**
   * A line that a legal move completes runs through the square just played and
   * holds the mover's mark: the board before the move had no completed line.
   */
  lemma NewLineThroughMove(prev: Board, i: int, mark: Cell, k: nat)
    requires 0 <= i < 9 && Winner(prev).None? && prev[i] == Empty
    requires k < |Lines| && Completes(prev[i := mark], Lines[k])
    ensures i == Lines[k].a || i == Lines[k].b || i == Lines[k].c
    ensures prev[i := mark][Lines[k].a] == mark
  {
  }

  /**
   * `handleClick`: ignore the click when the board has a winner or the square is
   * taken; otherwise copy the squares and write the mover's mark into the copy.
   * `squares` itself is not modified.
   */
  method HandleClick(squares: array<Cell>, xIsNext: bool, i: int) returns (next: Option<array<Cell>>)
    requires squares.Length == 9 && 0 <= i < 9
    ensures next.None? <==> NextSquares(squares[..], i, xIsNext).None?
    ensures next.Some? ==> fresh(next.value) && next.value[..] == NextSquares(squares[..], i, xIsNext).value
  {
    var won := CalculateWinner(squares[..]);
    if won.Some? || squares[i] != Empty {
      return None;
    }
    var nextSquares := new Cell[9];
    forall j | 0 <= j < 9 {
      nextSquares[j] := squares[j];
    }
    if xIsNext {
      nextSquares[i] := X;
    } else {
      nextSquares[i] := O;
    }
    assert nextSquares[..] == squares[..][i := MarkOf(xIsNext)];
    return Some(nextSquares);
  }

  /** How a mark is written in the status line. */
  function MarkText(m: Cell): string
    requires m != Empty
  {
    if m == X then "X" else "O"
  }

  /** The status line above the board. */
  function Status(squares: Board, xIsNext: bool): string
  {
    match Winner(squares)
    case Some(w) => "Winner: " + MarkText(w.winner)
    case None =>
      if Empty !in squares then "It's a Draw!"
      else "Next player is " + (if xIsNext then "X" else "O")
  }

  /** The status announces a winner exactly when the board has one, and names its mark. */
  lemma StatusWinner(squares: Board, xIsNext: bool, m: Cell)
    requires m != Empty
    ensures Status(squares, xIsNext) == "Winner: " + MarkText(m) <==>
      Winner(squares).Some? && Winner(squares).value.winner == m
  {
    var s := Status(squares, xIsNext);
    if Winner(squares).None? {
      assert s[0] != ("Winner: " + MarkText(m))[0];
    } else if Winner(squares).value.winner != m {
      assert s[8] != ("Winner: " + MarkText(m))[8];
    }
  }

  /** A draw is announced exactly when no line is completed and no square is empty. */
  lemma StatusDraw(squares: Board, xIsNext: bool)
    ensures Status(squares, xIsNext) == "It's a Draw!" <==>
      Winner(squares).None? && forall j :: 0 <= j < 9 ==> squares[j] != Empty
  {
  }

  /**
   * While the game goes on, the status names the player whose mark the next
   * accepted click places.
   */
  lemma StatusNamesMover(squares: Board, xIsNext: bool, i: int)
    requires 0 <= i < 9 && NextSquares(squares, i, xIsNext).Some?
    ensures Status(squares, xIsNext) ==
      "Next player is " + MarkText(NextSquares(squares, i, xIsNext).value[i])
  {
  }
}
