/**
 * Client games that use only the contracts of `Game`, in the style of a test
 * harness: what a caller can conclude about concrete sequences of clicks.
 * After each click the board on display is checked line by line, so that the
 * next click's outcome follows from `NextSquares`.
 */
module Scenarios {
  import opened TicTacToe
  import opened GameState

  /** X0 O4 X1: three accepted clicks, each by the player whose turn it is. */
  method Opening() returns (g: Game)
    ensures fresh(g) && g.Valid() && g.currentMove == 3 && |g.history| == 4
    ensures g.CurrentSquares() == [X, X, Empty, Empty, O, Empty, Empty, Empty, Empty]
  {
    g := new Game();
    EmptyBoardHasNoWinner();
    g.Click(0);
    var b := g.CurrentSquares();
    assert b == [X, Empty, Empty, Empty, Empty, Empty, Empty, Empty, Empty];
    forall k | 0 <= k < |Lines| ensures !Completes(b, Lines[k]) { }
    g.Click(4);
    b := g.CurrentSquares();
    assert b == [X, Empty, Empty, Empty, O, Empty, Empty, Empty, Empty];
    forall k | 0 <= k < |Lines| ensures !Completes(b, Lines[k]) { }
    g.Click(1);
  }

  /**
   * After the opening, O3 X8 O5: O completes the middle row, the status names
   * O, and the next click is ignored.
   */
  method MiddleRowForO()
  {
    var g := Opening();
    var b := g.CurrentSquares();
    forall k | 0 <= k < |Lines| ensures !Completes(b, Lines[k]) { }
    g.Click(3);
    b := g.CurrentSquares();
    assert b == [X, X, Empty, O, O, Empty, Empty, Empty, Empty];
    forall k | 0 <= k < |Lines| ensures !Completes(b, Lines[k]) { }
    g.Click(8);
    b := g.CurrentSquares();
    assert b == [X, X, Empty, O, O, Empty, Empty, Empty, X];
    forall k | 0 <= k < |Lines| ensures !Completes(b, Lines[k]) { }
    g.Click(5);
    b := g.CurrentSquares();
    assert b == [X, X, Empty, O, O, O, Empty, Empty, X];
    WinnerIsFirst(b, 1);
    assert g.StatusLine() == "Winner: O";
    g.Click(6);
    assert |g.history| == 7 && g.currentMove == 6;
  }

  /** Jumping back to move 1 and playing again discards moves 2 and 3. */
  method BranchAfterJump()
  {
    var g := new Game();
    EmptyBoardHasNoWinner();
    g.Click(0);
    var b := g.CurrentSquares();
    assert b == [X, Empty, Empty, Empty, Empty, Empty, Empty, Empty, Empty];
    forall k | 0 <= k < |Lines| ensures !Completes(b, Lines[k]) { }
    g.Click(4);
    b := g.CurrentSquares();
    assert b == [X, Empty, Empty, Empty, O, Empty, Empty, Empty, Empty];
    forall k | 0 <= k < |Lines| ensures !Completes(b, Lines[k]) { }
    g.Click(8);
    assert |g.history| == 4;
    g.JumpTo(1);
    g.Click(2);
    assert |g.history| == 3 && g.currentMove == 2;
    assert g.history[2] == [X, Empty, O, Empty, Empty, Empty, Empty, Empty, Empty];
  }

  /**
   * From X1 O4 X2 O5 X3 O8 X6 O7, X plays square 0 and completes both the top
   * row and the left column; the top row is reported because it comes first
   * in the table.
   */
  method TwoLinesAtOnce(g: Game)
    requires g.Valid() && g.CurrentSquares() == [Empty, X, X, X, O, O, X, O, O]
    requires g.XIsNext()
    modifies g
  {
    var b := g.CurrentSquares();
    forall k | 0 <= k < |Lines| ensures !Completes(b, Lines[k]) { }
    g.Click(0);
    b := g.CurrentSquares();
    assert b == [X, X, X, X, O, O, X, O, O];
    assert Completes(b, Lines[0]) && Completes(b, Lines[3]);
    WinnerIsFirst(b, 0);
    assert Winner(b) == Some(Win(X, Line(0, 1, 2)));
  }
}
