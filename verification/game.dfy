/**
 The `Game` component of src/index.js without its rendering: the state
 record, the transitions `handleClick`, `jumpTo` and `changeOrder`, the
 read-only projections `sort()` and `getLocation(i)`, and the status choice
 of `render()`. A `setState` call reads as "replace these fields".
 */
module Game {
  import opened Wrappers
  import opened Outcome
  import opened History

  datatype GameState = GameState(history: seq<Entry>, stepNumber: nat, xIsNext: bool, order: Order)

  const InitialEntry: Entry := Entry(EmptyBoard, None, 0)

  /** The state a game starts in. */
  const Initial: GameState := GameState([InitialEntry], 0, true, Asc)

  /** The mark of the player to move. */
  function MarkOf(xIsNext: bool): Cell {
    if xIsNext then X else O
  }

  /**
   How many entries `history.slice(0, stepNumber + 1)` keeps: the smaller of
   `stepNumber + 1` and the history's length.
   */
  function KeptLength(s: GameState): (n: nat)
    requires |s.history| > 0
    ensures 1 <= n <= |s.history| && n <= s.stepNumber + 1
    ensures n == s.stepNumber + 1 || n == |s.history|
  {
    if s.stepNumber + 1 <= |s.history| then s.stepNumber + 1 else |s.history|
  }

  /** The board `handleClick` plays on: the last kept entry's squares. */
  function Current(s: GameState): Board
    requires |s.history| > 0
  {
    s.history[KeptLength(s) - 1].squares
  }

  /** The newest history entry. */
  function Latest(s: GameState): Entry
    requires |s.history| > 0
  {
    s.history[|s.history| - 1]
  }

  /** `handleClick(i)` goes ahead: the cell is empty and the board has no winner. */
  predicate Accepts(s: GameState, i: CellIndex)
    requires |s.history| > 0
  {
    Current(s)[i] == Empty && CalculateWinner(Current(s)).None?
  }

  /**
   `handleClick(i)`: drop the entries after the current step, and unless the
   cell is taken or the game is won, append the board with the mover's mark
   on cell `i` and pass the turn.
   */
  function HandleClick(s: GameState, i: CellIndex): (r: GameState)
    requires |s.history| > 0
    ensures !Accepts(s, i) ==> r == s
    ensures Accepts(s, i) ==>
      && |r.history| == KeptLength(s) + 1
      && r.history[..KeptLength(s)] == s.history[..KeptLength(s)]
      && r.stepNumber == KeptLength(s)
      && r.xIsNext == !s.xIsNext
      && r.order == s.order
    ensures Accepts(s, i) ==>
      && Latest(r).selectedSquare == Some(i)
      && Latest(r).move == s.stepNumber + 1
      && Latest(r).squares[i] == MarkOf(s.xIsNext)
      && forall c :: 0 <= c < 9 && c != i ==> Latest(r).squares[c] == Current(s)[c]
  {
    var kept := s.history[..KeptLength(s)];
    var squares := Current(s);
    if squares[i] != Empty || CalculateWinner(squares).Some? then s
    else
      var entry := Entry(squares[i := MarkOf(s.xIsNext)], Some(i), s.stepNumber + 1);
      GameState(kept + [entry], |kept|, !s.xIsNext, s.order)
  }

  /** `jumpTo(step)`: move the displayed step and derive the turn from its parity. */
  function JumpTo(s: GameState, step: nat): (r: GameState)
    ensures r.history == s.history && r.order == s.order
    ensures r.stepNumber == step
    ensures r.xIsNext <==> step % 2 == 0
  {
    s.(stepNumber := step, xIsNext := step % 2 == 0)
  }

  /** `changeOrder()`: toggle between ascending and descending move lists. */
  function ChangeOrder(s: GameState): (r: GameState)
    ensures r.order != s.order
    ensures r.history == s.history && r.stepNumber == s.stepNumber && r.xIsNext == s.xIsNext
  {
    s.(order := if s.order == Asc then Desc else Asc)
  }

  /** `sort()`: a copy of the history ordered by move number per `order`. */
  function Sort(s: GameState): (r: seq<Entry>)
    ensures multiset(r) == multiset(s.history)
    ensures Sorted(s.order, r)
  {
    SortByMove(s.order, s.history)
  }

  /** `getLocation(i)`: the (row, column) of cell `i`. */
  function Location(i: nat): (r: (nat, nat))
    ensures 3 * r.0 + r.1 == i && r.1 < 3
    ensures i < 9 ==> r.0 < 3
  {
    (i / 3, i % 3)
  }

  /** The cell index `renderRow(row)` gives to column `col`. */
  function CellAt(row: nat, col: nat): nat {
    3 * row + col
  }

  /** The three outcomes `render()` chooses between for its status line. */
  datatype Status = Winner(mark: Cell) | Draw | NextPlayer(player: Cell)

  /** The board `render()` shows: the one at the displayed step. */
  function Displayed(s: GameState): Board
    requires s.stepNumber < |s.history|
  {
    s.history[s.stepNumber].squares
  }

  /** The status of the displayed step: a winner first, then a draw, then whose turn it is. */
  function GameStatus(s: GameState): (r: Status)
    requires s.stepNumber < |s.history|
    ensures r.Winner? <==> exists k :: 0 <= k < |Lines| && Completed(Displayed(s), Lines[k])
    ensures r.Winner? ==> r.mark != Empty && CalculateWinner(Displayed(s)).Some?
    ensures r.Winner? ==> forall c :: c in CalculateWinner(Displayed(s)).value ==> Displayed(s)[c] == r.mark
    ensures r.Draw? <==> IsDraw(Displayed(s))
    ensures r.NextPlayer? ==> r.player == MarkOf(s.xIsNext)
  {
    var b := Displayed(s);
    WinnerIsNotDraw(b);
    match CalculateWinner(b)
    case Some(line) => Winner(b[line[0]])
    case None => if IsDraw(b) then Draw else NextPlayer(MarkOf(s.xIsNext))
  }

  /** The status line's text. */
  function StatusText(st: Status): string {
    match st
    case Winner(m) => "Winner: " + MarkText(m)
    case Draw => "This is a draw"
    case NextPlayer(m) => "Next Player: " + MarkText(m)
  }

  function MarkText(m: Cell): string {
    match m
    case X => "X"
    case O => "O"
    case Empty => ""
  }

  // ---------------------------------------------------------------------------
  // The invariant every reachable state keeps
  // ---------------------------------------------------------------------------

  /** Entry `k` records one legal move played on entry `k - 1`. */
  predicate StepOk(h: seq<Entry>, k: nat)
    requires 0 < k < |h|
  {
    var prev := h[k - 1].squares;
    && h[k].selectedSquare.Some?
    && prev[h[k].selectedSquare.value] == Empty
    && CalculateWinner(prev).None?
    && h[k].squares == prev[h[k].selectedSquare.value := MarkOf(k % 2 == 1)]
  }

  predicate Valid(s: GameState) {
    && |s.history| > 0
    && s.history[0] == InitialEntry
    && (forall k :: 0 <= k < |s.history| ==> s.history[k].move == k)
    && (forall k :: 0 < k < |s.history| ==> StepOk(s.history, k))
    && s.stepNumber < |s.history|
    && s.xIsNext == (s.stepNumber % 2 == 0)
  }

  lemma InitialIsValid()
    ensures Valid(Initial)
    ensures GameStatus(Initial) == NextPlayer(X)
  {
    EmptyBoardUndecided();
  }

  /** In a valid state `handleClick` keeps exactly the entries up to the displayed step. */
  lemma ValidCurrent(s: GameState)
    requires Valid(s)
    ensures KeptLength(s) == s.stepNumber + 1
    ensures Current(s) == s.history[s.stepNumber].squares
  {
  }

  /** An accepted click from a valid state: history is cut after the step and grows by one. */
  lemma HandleClickPreservesValid(s: GameState, i: CellIndex)
    requires Valid(s)
    ensures Valid(HandleClick(s, i))
    ensures Accepts(s, i) ==>
      var r := HandleClick(s, i);
      && r.history == s.history[..s.stepNumber + 1] + [r.history[s.stepNumber + 1]]
      && r.stepNumber == s.stepNumber + 1
  {
    var r := HandleClick(s, i);
    if Accepts(s, i) {
      var h := r.history;
      var n := s.stepNumber;
      assert h[..n + 1] == s.history[..n + 1];
      assert h == s.history[..n + 1] + [h[n + 1]];
      forall k | 0 <= k < |h| ensures h[k].move == k {
        if k <= n { assert h[k] == s.history[k]; }
      }
      forall k | 0 < k < |h| ensures StepOk(h, k) {
        if k <= n {
          assert h[k] == s.history[k] && h[k - 1] == s.history[k - 1];
          assert StepOk(s.history, k);
        } else {
          assert h[k - 1] == s.history[n];
          assert h[k].squares == h[k - 1].squares[i := MarkOf(s.xIsNext)];
        }
      }
      assert h[0] == s.history[0];
    }
  }

  /** Clicking the same cell twice has the effect of clicking it once. */
  lemma HandleClickIdempotent(s: GameState, i: CellIndex)
    requires |s.history| > 0
    ensures HandleClick(HandleClick(s, i), i) == HandleClick(s, i)
  {
    var r := HandleClick(s, i);
    if Accepts(s, i) {
      assert KeptLength(r) == |r.history|;
      assert !Accepts(r, i);
    }
  }

  /** A click changes the state exactly when it is accepted. */
  lemma HandleClickChangesIffAccepted(s: GameState, i: CellIndex)
    requires |s.history| > 0
    ensures HandleClick(s, i) == s <==> !Accepts(s, i)
  {
    if Accepts(s, i) {
      assert |HandleClick(s, i).history| != |s.history| || HandleClick(s, i).stepNumber != s.stepNumber;
    }
  }

  /** `handleClick` never consults `isDraw`: an empty cell of a drawn board still takes a move. */
  lemma DrawDoesNotBlockClick(s: GameState, i: CellIndex)
    requires Valid(s) && IsDraw(Displayed(s)) && Displayed(s)[i] == Empty
    ensures Accepts(s, i)
    ensures HandleClick(s, i) != s
  {
    WinnerIsNotDraw(Displayed(s));
    ValidCurrent(s);
    HandleClickChangesIffAccepted(s, i);
  }

  /** Jumping to an existing step keeps the state valid. */
  lemma JumpToPreservesValid(s: GameState, step: nat)
    requires Valid(s) && step < |s.history|
    ensures Valid(JumpTo(s, step))
  {
  }

  lemma ChangeOrderPreservesValid(s: GameState)
    ensures Valid(ChangeOrder(s)) <==> Valid(s)
  {
  }

  /** `changeOrder()` twice restores the state. */
  lemma ChangeOrderInvolution(s: GameState)
    ensures ChangeOrder(ChangeOrder(s)) == s
  {
  }

  /** In a valid state the ascending move list is the history and the descending one its reverse. */
  lemma SortOfValid(s: GameState)
    requires Valid(s)
    ensures s.order == Asc ==> Sort(s) == s.history
    ensures s.order == Desc ==> Sort(s) == Reverse(s.history)
  {
    assert StrictlyIncreasing(s.history);
    if s.order == Asc {
      SortAscIsIdentity(s.history);
    } else {
      SortDescIsReverse(s.history);
    }
  }

  /** Every move number in the move list names an existing step, so jumps stay in range. */
  lemma ListedMovesAreSteps(s: GameState, k: nat)
    requires Valid(s) && k < |Sort(s)|
    ensures Sort(s)[k].move < |s.history|
  {
    var e := Sort(s)[k];
    assert e in multiset(Sort(s));
    assert e in multiset(s.history);
    var j :| 0 <= j < |s.history| && s.history[j] == e;
  }

  /** `getLocation` inverts the index `renderRow` gives to row `row`, column `col`. */
  lemma LocationInvertsCellAt(row: nat, col: nat)
    requires row < 3 && col < 3
    ensures Location(CellAt(row, col)) == (row, col)
  {
  }

  lemma CellAtInvertsLocation(i: CellIndex)
    ensures CellAt(Location(i).0, Location(i).1) == i
  {
  }

  /** Different statuses read differently. */
  lemma StatusTextInjective(a: Status, b: Status)
    requires a.Winner? ==> a.mark != Empty
    requires b.Winner? ==> b.mark != Empty
    requires a.NextPlayer? ==> a.player != Empty
    requires b.NextPlayer? ==> b.player != Empty
    requires a != b
    ensures StatusText(a) != StatusText(b)
  {
    var ta, tb := StatusText(a), StatusText(b);
    if a.Winner? && b.Winner? {
      assert ta[8] != tb[8];
    } else if a.NextPlayer? && b.NextPlayer? {
      assert ta[13] != tb[13];
    } else {
      assert ta[0] != tb[0];
    }
  }

  // ---------------------------------------------------------------------------
  // Events of the user interface
  // ---------------------------------------------------------------------------

  /**
   A click on board cell `cell`, on item `item` of the rendered move list
   (which calls `jumpTo` with that entry's move number), or on the sort button.
   */
  datatype Event = Click(cell: CellIndex) | ListItem(item: nat) | SortButton

  /** One event; a list item that is not rendered has no button, so changes nothing. */
  function Apply(s: GameState, ev: Event): (r: GameState)
    requires |s.history| > 0
    ensures |r.history| > 0
  {
    match ev
    case Click(i) => HandleClick(s, i)
    case ListItem(k) => if k < |Sort(s)| then JumpTo(s, Sort(s)[k].move) else s
    case SortButton => ChangeOrder(s)
  }

  function Run(s: GameState, evs: seq<Event>): (r: GameState)
    requires |s.history| > 0
    ensures |r.history| > 0
    decreases |evs|
  {
    if |evs| == 0 then s else Run(Apply(s, evs[0]), evs[1..])
  }

  lemma ApplyPreservesValid(s: GameState, ev: Event)
    requires Valid(s)
    ensures Valid(Apply(s, ev))
  {
    match ev
    case Click(i) => HandleClickPreservesValid(s, i);
    case ListItem(k) =>
      if k < |Sort(s)| {
        ListedMovesAreSteps(s, k);
        JumpToPreservesValid(s, Sort(s)[k].move);
      }
    case SortButton =>
  }

  /** Every state reachable from a valid one through user events is valid. */
  lemma {:induction false} RunPreservesValid(s: GameState, evs: seq<Event>)
    requires Valid(s)
    ensures Valid(Run(s, evs))
    decreases |evs|
  {
    if |evs| > 0 {
      ApplyPreservesValid(s, evs[0]);
      RunPreservesValid(Apply(s, evs[0]), evs[1..]);
    }
  }
}
