/**
 * Cells, boards and the win detector of the tic-tac-toe game
 * (`calculateWinner` in src/App.js).
 */
module TicTacToe {

  /** A square: `null`, "X" or "O" in the source. */
  datatype Cell = Empty | X | O

  datatype Option<+T> = None | Some(value: T)

  /** Nine squares in row-major order. */
  type Board = b: seq<Cell> | |b| == 9 witness EmptyBoard

  const EmptyBoard: seq<Cell> := [Empty, Empty, Empty, Empty, Empty, Empty, Empty, Empty, Empty]

  /** A row, a column or a diagonal, as three square indices. */
  datatype Line = Line(a: int, b: int, c: int)
  {
    predicate OnBoard() { 0 <= a < 9 && 0 <= b < 9 && 0 <= c < 9 }
  }

  /** The table of lines in the order the search visits them. */
  const Lines: seq<Line> := [
    Line(0, 1, 2), Line(3, 4, 5), Line(6, 7, 8),
    Line(0, 3, 6), Line(1, 4, 7), Line(2, 5, 8),
    Line(0, 4, 8), Line(2, 4, 6)
  ]

  /** What `calculateWinner` returns when it finds a line: the mark and the line. */
  datatype Win = Win(winner: Cell, winLine: Line)

  lemma LinesOnBoard()
    ensures |Lines| == 8
    ensures forall k :: 0 <= k < |Lines| ==> Lines[k].OnBoard()
  {
  }

  /** The three squares of `l` hold the same mark. */
  predicate Completes(b: Board, l: Line)
    requires l.OnBoard()
  {
    b[l.a] != Empty && b[l.a] == b[l.b] && b[l.a] == b[l.c]
  }

  /** Index of the first line at or after `k` that `b` completes, or 8 when there is none. */
  function FirstLine(b: Board, k: nat): (r: nat)
    requires k <= |Lines|
    ensures k <= r <= |Lines|
    ensures r < |Lines| ==> Completes(b, Lines[r])
    ensures forall j :: k <= j < r ==> !Completes(b, Lines[j])
    decreases |Lines| - k
  {
    if k == |Lines| then k
    else if Completes(b, Lines[k]) then k
    else FirstLine(b, k + 1)
  }

  /**
   * The win detector: the first completed line in table order with its mark,
   * or None when no line is completed.
   */
  function Winner(b: Board): (r: Option<Win>)
    ensures r.Some? <==> exists k :: 0 <= k < |Lines| && Completes(b, Lines[k])
    ensures r.Some? ==> r.value.winLine in Lines && Completes(b, r.value.winLine)
    ensures r.Some? ==> var l := r.value.winLine;
      r.value.winner != Empty &&
      b[l.a] == r.value.winner && b[l.b] == r.value.winner && b[l.c] == r.value.winner
  {
    var k := FirstLine(b, 0);
    if k < |Lines| then Some(Win(b[Lines[k].a], Lines[k])) else None
  }

  /** The result is the first completed line: every earlier line of the table is incomplete. */
  lemma WinnerIsFirst(b: Board, k: nat)
    requires k < |Lines| && Completes(b, Lines[k])
    requires forall j :: 0 <= j < k ==> !Completes(b, Lines[j])
    ensures Winner(b) == Some(Win(b[Lines[k].a], Lines[k]))
  {
  }

  /** The board a game starts from has no winner. */
  lemma EmptyBoardHasNoWinner()
    ensures Winner(EmptyBoard) == None
  {
  }

  /** The loop of `calculateWinner`: visit the lines in order, return at the first completed one. */
  method CalculateWinner(squares: Board) returns (r: Option<Win>)
    ensures r == Winner(squares)
  {
    for i := 0 to |Lines|
      invariant forall j :: 0 <= j < i ==> !Completes(squares, Lines[j])
    {
      var l := Lines[i];
      if squares[l.a] != Empty && squares[l.a] == squares[l.b] && squares[l.a] == squares[l.c] {
        WinnerIsFirst(squares, i);
        return Some(Win(squares[l.a], l));
      }
    }
    return None;
  }
}
