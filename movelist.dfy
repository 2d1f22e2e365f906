/**
 * The list of moves beside the board (`history.map` in the `Game` component of
 * src/App.js): one entry per snapshot, the entry of the current move shown as
 * a marker and every other entry as a button that jumps to its move.
 */
module MoveList {
  import opened Decimal

  /** The four kinds of entry the list renders. */
  datatype MoveItem =
    | StartHere                                  // current entry, move 0
    | CurrentX(move: nat)                        // current entry, odd move (X played it)
    | CurrentO(move: nat)                        // current entry, even move above 0 (O played it)
    | JumpButton(move: nat, description: string) // any other entry
  {
    /** The move an entry stands for. */
    function Move(): nat
    {
      match this
      case StartHere => 0
      case CurrentX(m) => m
      case CurrentO(m) => m
      case JumpButton(m, _) => m
    }

    predicate IsCurrent()
    {
      !JumpButton?
    }

    /** The text the entry shows. */
    function Caption(): string
    {
      match this
      case StartHere => "You are at start"
      case CurrentX(m) => "You are at move №" + NatToString(m)
      case CurrentO(m) => "You are at move №" + NatToString(m)
      case JumpButton(_, d) => d
    }
  }

  /** The label of the button that jumps to `move`. */
  function Description(move: nat): string
  {
    if move > 0 then "Go to move №" + NatToString(move) else "Go to start"
  }

  /** The entry for `move` when the game is at `currentMove`. */
  function Classify(move: nat, currentMove: nat): MoveItem
  {
    if move == currentMove && move == 0 then StartHere
    else if move == currentMove && move % 2 != 0 then CurrentX(move)
    else if move == currentMove && move % 2 == 0 then CurrentO(move)
    else JumpButton(move, Description(move))
  }

  /** The list for a history of `count` snapshots. */
  function Moves(count: nat, currentMove: nat): (r: seq<MoveItem>)
    ensures |r| == count
    ensures forall k :: 0 <= k < count ==> r[k].Move() == k
  {
    seq(count, move requires 0 <= move => Classify(move, currentMove))
  }

  /** The entry at `currentMove` is the one current entry of the list. */
  lemma CurrentEntryUnique(count: nat, currentMove: nat, k: nat)
    requires k < count
    ensures Moves(count, currentMove)[k].IsCurrent() <==> k == currentMove
  {
  }

  /**
   * The current entry is the start marker at move 0, X-tagged at an odd move
   * and O-tagged at an even move above 0.
   */
  lemma CurrentEntryKind(count: nat, currentMove: nat)
    requires currentMove < count
    ensures var e := Moves(count, currentMove)[currentMove];
      (e.StartHere? <==> currentMove == 0) &&
      (e.CurrentX? <==> currentMove % 2 == 1) &&
      (e.CurrentO? <==> currentMove > 0 && currentMove % 2 == 0)
  {
  }

  /** Every button jumps to a move of the history other than the current one, and is labelled by it. */
  lemma JumpTargets(count: nat, currentMove: nat, k: nat)
    requires k < count && Moves(count, currentMove)[k].JumpButton?
    ensures var e := Moves(count, currentMove)[k];
      e.move == k && e.move < count && e.move != currentMove && e.description == Description(k)
  {
  }

  /** Buttons for different moves carry different labels. */
  lemma DescriptionsDistinct(a: nat, b: nat)
    requires Description(a) == Description(b)
    ensures a == b
  {
    var prefix := "Go to move №";
    if a > 0 && b > 0 {
      assert NatToString(a) == Description(a)[|prefix|..];
      assert NatToString(b) == Description(b)[|prefix|..];
      NatToStringInjective(a, b);
    }
  }

  /** No two entries of a list show the same text. */
  lemma CaptionsDistinct(count: nat, currentMove: nat, j: nat, k: nat)
    requires j < k < count
    ensures Moves(count, currentMove)[j].Caption() != Moves(count, currentMove)[k].Caption()
  {
    var ms := Moves(count, currentMove);
    if ms[j].IsCurrent() || ms[k].IsCurrent() {
      assert ms[j].Caption()[0] != ms[k].Caption()[0];
    } else if ms[j].Caption() == ms[k].Caption() {
      DescriptionsDistinct(j, k);
    }
  }
}
