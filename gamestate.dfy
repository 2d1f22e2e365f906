/**
 * The state of the `Game` component of src/App.js: the list of board
 * snapshots, the pointer to the snapshot on display, and the handlers that
 * change them.
 */
module GameState {
  import opened TicTacToe
  import opened BoardPanel
  import opened History
  import opened MoveList

  class Game {
    /** Board snapshots, one per move played; index 0 is the empty board. */
    var history: seq<Board>
    /** The snapshot on display and played from. */
    var currentMove: nat

    ghost predicate Valid()
      reads this
    {
      GameHistory(history) && currentMove < |history|
    }

    /** A new game: one empty board, at move 0. */
    constructor ()
      ensures Valid()
      ensures history == [EmptyBoard] && currentMove == 0
    {
      history := [EmptyBoard];
      currentMove := 0;
    }

    /** X plays next when the pointer is even. */
    function XIsNext(): bool
      reads this
    {
      currentMove % 2 == 0
    }

    function CurrentSquares(): Board
      reads this
      requires Valid()
    {
      history[currentMove]
    }

    /**
     * `handlePlay`: drop every snapshot after the pointer, append the new board
     * and point at it. Its one caller passes a legal move from the current board
     * by the player whose turn it is.
     */
    method HandlePlay(nextSquares: Board)
      requires Valid()
      requires LegalMove(CurrentSquares(), nextSquares, MarkOf(XIsNext()))
      modifies this
      ensures Valid()
      ensures history == old(history[..currentMove + 1]) + [nextSquares]
      ensures currentMove == |history| - 1 == old(currentMove) + 1
    {
      TruncateAndAppend(history, currentMove, nextSquares);
      var nextHistory := history[..currentMove + 1] + [nextSquares];
      history := nextHistory;
      currentMove := |nextHistory| - 1;
    }

    /** `jumpTo`: move the pointer to a snapshot of the history; the history is untouched. */
    method JumpTo(nextMove: nat)
      requires Valid() && nextMove < |history|
      modifies this`currentMove
      ensures Valid()
      ensures history == old(history) && currentMove == nextMove
    {
      currentMove := nextMove;
    }

    /**
     * A click on square `i` of the displayed board: `handleClick` on the current
     * squares with the current turn, and `handlePlay` with the board it produces.
     */
    method Click(i: int)
      requires Valid() && 0 <= i < 9
      modifies this
      ensures Valid()
      ensures var played := NextSquares(old(CurrentSquares()), i, old(XIsNext()));
        if played.None? then history == old(history) && currentMove == old(currentMove)
        else history == old(history[..currentMove + 1]) + [played.value] &&
             currentMove == old(currentMove) + 1
    {
      var current := history[currentMove];
      var squares := new Cell[9](j => if 0 <= j < 9 then current[j] else Empty);
      assert squares[..] == current;
      var next := HandleClick(squares, XIsNext(), i);
      if next.Some? {
        NextSquaresIsLegal(current, i, XIsNext());
        HandlePlay(next.value[..]);
      }
    }

    /** The status line of the displayed board. */
    function StatusLine(): string
      reads this
      requires Valid()
    {
      Status(CurrentSquares(), XIsNext())
    }

    /** The move list for the current history and pointer. */
    function MoveItems(): seq<MoveItem>
      reads this
    {
      Moves(|history|, currentMove)
    }
  }

  /**
   * What the status line says at snapshot `n` of a game: a winner can only be
   * the player who made the last move, and a draw is only announced after
   * the ninth move.
   */
  lemma StatusInGame(h: seq<Board>, n: nat)
    requires GameHistory(h) && n < |h|
    ensures Winner(h[n]).Some? ==> n > 0 && Status(h[n], n % 2 == 0) == "Winner: " + MarkText(MarkFor(n - 1))
    ensures Status(h[n], n % 2 == 0) == "It's a Draw!" ==> n == 9
  {
    if Winner(h[n]).Some? {
      var w := Winner(h[n]).value;
      var k :| 0 <= k < |Lines| && Lines[k] == w.winLine;
      OnlyLastMoverWins(h, n, k);
    }
    StatusDraw(h[n], n % 2 == 0);
    if Status(h[n], n % 2 == 0) == "It's a Draw!" {
      MarkCounts(h, n);
      FullBoardHasNoEmpty(h[n]);
    }
  }

  /**
   * The current entry of the move list is X-tagged exactly when X made the
   * move that produced the displayed board, and O-tagged exactly when O did.
   */
  lemma CurrentEntryShowsMover(h: seq<Board>, n: nat)
    requires GameHistory(h) && 0 < n < |h|
    ensures Moves(|h|, n)[n].CurrentX? <==> Count(h[n], X) > Count(h[n], O)
    ensures Moves(|h|, n)[n].CurrentO? <==> Count(h[n], X) == Count(h[n], O)
  {
    MarkCounts(h, n);
  }

  /**
   * The same on a game object: in its own move list, the marker of a move above
   * 0 is X-tagged exactly when X made the move on display.
   */
  lemma GameCurrentEntryShowsMover(g: Game)
    requires g.Valid() && g.currentMove > 0
    ensures g.MoveItems()[g.currentMove].CurrentX? <==> Count(g.CurrentSquares(), X) > Count(g.CurrentSquares(), O)
    ensures g.MoveItems()[g.currentMove].CurrentO? <==> Count(g.CurrentSquares(), X) == Count(g.CurrentSquares(), O)
  {
    CurrentEntryShowsMover(g.history, g.currentMove);
  }
}
