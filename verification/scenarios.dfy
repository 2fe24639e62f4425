/** Games played through the engine from the starting state, one user event at a time. */
module Scenarios {
  import opened Wrappers
  import opened Outcome
  import opened History
  import opened Game

  const E := Empty

  /** The displayed step is the newest entry. */
  predicate AtTip(s: GameState) {
    |s.history| > 0 && s.stepNumber + 1 == |s.history|
  }

  /** Board clicks, one event per cell. */
  function Clicks(cells: seq<CellIndex>): (evs: seq<Event>)
    ensures |evs| == |cells|
    ensures forall k :: 0 <= k < |cells| ==> evs[k] == Click(cells[k])
  {
    if |cells| == 0 then [] else [Click(cells[0])] + Clicks(cells[1..])
  }

  /** The board after placing marks on `cells` in turn, starting with `MarkOf(x)`. */
  function Fill(b: Board, cells: seq<CellIndex>, x: bool): Board
    decreases |cells|
  {
    if |cells| == 0 then b else Fill(b[cells[0] := MarkOf(x)], cells[1..], !x)
  }

  /** Every click in `cells` lands on an empty cell of a board nobody has won yet. */
  predicate OpenPlay(b: Board, cells: seq<CellIndex>, x: bool)
    decreases |cells|
  {
    |cells| == 0 ||
    (b[cells[0]] == Empty && CalculateWinner(b) == None && OpenPlay(b[cells[0] := MarkOf(x)], cells[1..], !x))
  }

  /** A click at the newest step on an open board appends one entry and passes the turn. */
  lemma ClickAtTip(s: GameState, i: CellIndex)
    requires AtTip(s) && Latest(s).squares[i] == Empty && CalculateWinner(Latest(s).squares) == None
    ensures Extends(HandleClick(s, i), s, 1, Latest(s).squares[i := MarkOf(s.xIsNext)])
  {
    assert s.history[..KeptLength(s)] == s.history;
  }

  lemma RunClicksCons(s: GameState, cells: seq<CellIndex>)
    requires |s.history| > 0 && |cells| > 0
    ensures Run(s, Clicks(cells)) == Run(HandleClick(s, cells[0]), Clicks(cells[1..]))
  {
    assert Clicks(cells)[1..] == Clicks(cells[1..]);
  }

  /** `r` is `s` after `n` more moves that ended on board `b`, with the turn passed `n` times. */
  predicate Extends(r: GameState, s: GameState, n: nat, b: Board) {
    && AtTip(r)
    && |r.history| == |s.history| + n
    && r.history[..|s.history|] == s.history
    && Latest(r).squares == b
    && r.xIsNext == (s.xIsNext == (n % 2 == 0))
    && r.order == s.order
  }

  lemma ExtendsTrans(r: GameState, m: GameState, s: GameState, n: nat, b: Board)
    requires AtTip(s) && AtTip(m) && Extends(r, m, n, b)
    requires Extends(m, s, 1, Latest(m).squares)
    ensures Extends(r, s, n + 1, b)
  {
    assert r.history[..|s.history|] == r.history[..|m.history|][..|s.history|];
  }

  /** Clicks at the newest step on open boards each append one entry and pass the turn. */
  lemma {:induction false} RunOpenClicks(s: GameState, cells: seq<CellIndex>)
    requires AtTip(s) && OpenPlay(Latest(s).squares, cells, s.xIsNext)
    ensures Extends(Run(s, Clicks(cells)), s, |cells|, Fill(Latest(s).squares, cells, s.xIsNext))
    decreases |cells|
  {
    if |cells| == 0 {
      assert s.history[..|s.history|] == s.history;
    } else {
      RunClicksCons(s, cells);
      ClickAtTip(s, cells[0]);
      var s' := HandleClick(s, cells[0]);
      RunOpenClicks(s', cells[1..]);
      ExtendsTrans(Run(s', Clicks(cells[1..])), s', s, |cells| - 1, Fill(Latest(s).squares, cells, s.xIsNext));
    }
  }

  /** Placing `h` and then `t` is placing `h + t`. */
  lemma {:induction false} FillAppend(b: Board, h: seq<CellIndex>, t: seq<CellIndex>, x: bool)
    ensures Fill(b, h + t, x) == Fill(Fill(b, h, x), t, x == (|h| % 2 == 0))
    decreases |h|
  {
    if |h| == 0 {
      assert h + t == t;
    } else {
      assert (h + t)[0] == h[0] && (h + t)[1..] == h[1..] + t;
      FillAppend(b[h[0] := MarkOf(x)], h[1..], t, !x);
    }
  }

  /** Open play of `h`, then open play of `t` from where `h` left off, is open play of `h + t`. */
  lemma {:induction false} OpenPlayAppend(b: Board, h: seq<CellIndex>, t: seq<CellIndex>, x: bool)
    requires OpenPlay(b, h, x)
    requires OpenPlay(Fill(b, h, x), t, x == (|h| % 2 == 0))
    ensures OpenPlay(b, h + t, x)
    decreases |h|
  {
    if |h| == 0 {
      assert h + t == t;
    } else {
      var b' := b[h[0] := MarkOf(x)];
      assert Fill(b, h, x) == Fill(b', h[1..], !x);
      assert (x == (|h| % 2 == 0)) == (!x == (|h[1..]| % 2 == 0));
      OpenPlayAppend(b', h[1..], t, !x);
      assert (h + t)[0] == h[0] && (h + t)[1..] == h[1..] + t;
    }
  }

  /** Running two event sequences one after the other. */
  lemma {:induction false} RunAppend(s: GameState, a: seq<Event>, b: seq<Event>)
    requires |s.history| > 0
    ensures Run(s, a + b) == Run(Run(s, a), b)
    decreases |a|
  {
    if |a| == 0 {
      assert a + b == b;
    } else {
      assert (a + b)[0] == a[0];
      assert (a + b)[1..] == a[1..] + b;
      RunAppend(Apply(s, a[0]), a[1..], b);
    }
  }

  // ---------------------------------------------------------------------------
  // X wins on the first column
  // ---------------------------------------------------------------------------

  /** X plays 0, 3 and 6 while O plays 1 and 2. */
  function ColumnGame(): GameState {
    Run(Initial, Clicks([0, 1, 3, 2, 6]))
  }

  /** X completes the first column and the status names X the winner. */
  lemma ColumnWin()
    ensures ColumnGame().stepNumber < |ColumnGame().history|
    ensures Displayed(ColumnGame()) == [X, O, O, X, Empty, Empty, X, Empty, Empty]
    ensures CalculateWinner(Displayed(ColumnGame())) == Some(Lines[3])
    ensures GameStatus(ColumnGame()) == Winner(X)
  {
    ColumnGameBoard();
    WonOnFirstColumn(ColumnGame());
  }

  lemma ColumnGameBoard()
    ensures AtTip(ColumnGame())
    ensures Latest(ColumnGame()).squares == [X, O, O, X, E, E, X, E, E]
  {
    ColumnGameIsOpen();
    RunOpenClicks(Initial, [0, 1, 3, 2, 6]);
  }

  /** The moves of `ColumnGame()` land on empty cells of boards nobody has won. */
  lemma ColumnGameIsOpen()
    ensures OpenPlay(EmptyBoard, [0, 1, 3, 2, 6], true)
    ensures Fill(EmptyBoard, [0, 1, 3, 2, 6], true) == [X, O, O, X, E, E, X, E, E]
  {
    ColumnGameMoves1();
    ColumnGameMoves2();
    OpenPlayAppend(EmptyBoard, [0, 1, 3], [2, 6], true);
    FillAppend(EmptyBoard, [0, 1, 3], [2, 6], true);
    assert [0, 1, 3] + [2, 6] == [0, 1, 3, 2, 6];
  }

  lemma ColumnGameMoves1()
    ensures OpenPlay(EmptyBoard, [0, 1, 3], true)
    ensures Fill(EmptyBoard, [0, 1, 3], true) == [X, O, E, X, E, E, E, E, E]
  {
  }

  lemma ColumnGameMoves2()
    ensures OpenPlay([X, O, E, X, E, E, E, E, E], [2, 6], false)
    ensures Fill([X, O, E, X, E, E, E, E, E], [2, 6], false) == [X, O, O, X, E, E, X, E, E]
  {
  }

  lemma WonOnFirstColumn(s: GameState)
    requires AtTip(s) && Latest(s).squares == [X, O, O, X, E, E, X, E, E]
    ensures s.stepNumber < |s.history|
    ensures Displayed(s) == [X, O, O, X, Empty, Empty, X, Empty, Empty]
    ensures CalculateWinner(Displayed(s)) == Some(Lines[3])
    ensures GameStatus(s) == Winner(X)
  {
    assert CalculateWinner([X, O, O, X, E, E, X, E, E]) == Some(Lines[3]);
  }

  /** Once the game is won, a click on the displayed step changes nothing. */
  lemma ClickAfterWinIsIgnored(i: CellIndex)
    ensures HandleClick(ColumnGame(), i) == ColumnGame()
  {
    ColumnWin();
    InitialIsValid();
    RunPreservesValid(Initial, Clicks([0, 1, 3, 2, 6]));
    ValidCurrent(ColumnGame());
  }

  // ---------------------------------------------------------------------------
  // A full board with no completed line
  // ---------------------------------------------------------------------------

  /** Nine moves that complete no line. */
  function FullGame(): GameState {
    Run(Initial, Clicks([0, 1, 2, 4, 3, 5, 7, 6, 8]))
  }

  /** The nine moves end in a draw. */
  lemma FullBoardDraw()
    ensures FullGame().stepNumber < |FullGame().history|
    ensures Displayed(FullGame()) == [X, O, X, X, O, O, O, X, X]
    ensures GameStatus(FullGame()) == Draw
  {
    FullGameBoard();
    DrawnWhenFull(FullGame());
  }

  lemma FullGameBoard()
    ensures AtTip(FullGame())
    ensures Latest(FullGame()).squares == [X, O, X, X, O, O, O, X, X]
  {
    FullGameIsOpen();
    RunOpenClicks(Initial, [0, 1, 2, 4, 3, 5, 7, 6, 8]);
  }

  /** The moves of `FullGame()` land on empty cells of boards nobody has won. */
  lemma FullGameIsOpen()
    ensures OpenPlay(EmptyBoard, [0, 1, 2, 4, 3, 5, 7, 6, 8], true)
    ensures Fill(EmptyBoard, [0, 1, 2, 4, 3, 5, 7, 6, 8], true) == [X, O, X, X, O, O, O, X, X]
  {
    FullGameMoves1();
    FullGameMoves2();
    FullGameMoves3();
    OpenPlayAppend(EmptyBoard, [0, 1, 2], [4, 3, 5], true);
    FillAppend(EmptyBoard, [0, 1, 2], [4, 3, 5], true);
    assert [0, 1, 2] + [4, 3, 5] == [0, 1, 2, 4, 3, 5];
    OpenPlayAppend(EmptyBoard, [0, 1, 2, 4, 3, 5], [7, 6, 8], true);
    FillAppend(EmptyBoard, [0, 1, 2, 4, 3, 5], [7, 6, 8], true);
    assert [0, 1, 2, 4, 3, 5] + [7, 6, 8] == [0, 1, 2, 4, 3, 5, 7, 6, 8];
  }

  lemma FullGameMoves1()
    ensures OpenPlay(EmptyBoard, [0, 1, 2], true)
    ensures Fill(EmptyBoard, [0, 1, 2], true) == [X, O, X, E, E, E, E, E, E]
  {
  }

  lemma FullGameMoves2()
    ensures OpenPlay([X, O, X, E, E, E, E, E, E], [4, 3, 5], false)
    ensures Fill([X, O, X, E, E, E, E, E, E], [4, 3, 5], false) == [X, O, X, X, O, O, E, E, E]
  {
  }

  lemma FullGameMoves3()
    ensures OpenPlay([X, O, X, X, O, O, E, E, E], [7, 6, 8], true)
    ensures Fill([X, O, X, X, O, O, E, E, E], [7, 6, 8], true) == [X, O, X, X, O, O, O, X, X]
  {
  }

  lemma DrawnWhenFull(s: GameState)
    requires AtTip(s) && Latest(s).squares == [X, O, X, X, O, O, O, X, X]
    ensures s.stepNumber < |s.history|
    ensures GameStatus(s) == Draw
  {
    FullBoardIsDraw(Displayed(s));
  }

  // ---------------------------------------------------------------------------
  // A drawn board with an empty cell
  // ---------------------------------------------------------------------------

  /** Eight moves that leave only cell 4 empty and block every line. */
  function BlockedGame(): GameState {
    Run(Initial, Clicks([0, 1, 2, 5, 3, 6, 7, 8]))
  }

  /**
   The status line calls the game a draw, yet cell 4 still takes a move:
   `handleClick` checks only the cell and the winner, never `isDraw`.
   */
  lemma DrawStillAcceptsMove()
    ensures BlockedGame().stepNumber < |BlockedGame().history|
    ensures GameStatus(BlockedGame()) == Draw
    ensures Accepts(BlockedGame(), 4)
    ensures |HandleClick(BlockedGame(), 4).history| == |BlockedGame().history| + 1
  {
    BlockedGameBoard();
    DrawnWithCellFourOpen(BlockedGame());
  }

  lemma BlockedGameBoard()
    ensures AtTip(BlockedGame())
    ensures Latest(BlockedGame()).squares == [X, O, X, X, E, O, O, X, O]
  {
    BlockedGameIsOpen();
    RunOpenClicks(Initial, [0, 1, 2, 5, 3, 6, 7, 8]);
  }

  /** The moves of `BlockedGame()` land on empty cells of boards nobody has won. */
  lemma BlockedGameIsOpen()
    ensures OpenPlay(EmptyBoard, [0, 1, 2, 5, 3, 6, 7, 8], true)
    ensures Fill(EmptyBoard, [0, 1, 2, 5, 3, 6, 7, 8], true) == [X, O, X, X, E, O, O, X, O]
  {
    BlockedGameMoves1();
    BlockedGameMoves2();
    BlockedGameMoves3();
    OpenPlayAppend(EmptyBoard, [0, 1, 2], [5, 3, 6], true);
    FillAppend(EmptyBoard, [0, 1, 2], [5, 3, 6], true);
    assert [0, 1, 2] + [5, 3, 6] == [0, 1, 2, 5, 3, 6];
    OpenPlayAppend(EmptyBoard, [0, 1, 2, 5, 3, 6], [7, 8], true);
    FillAppend(EmptyBoard, [0, 1, 2, 5, 3, 6], [7, 8], true);
    assert [0, 1, 2, 5, 3, 6] + [7, 8] == [0, 1, 2, 5, 3, 6, 7, 8];
  }

  lemma BlockedGameMoves1()
    ensures OpenPlay(EmptyBoard, [0, 1, 2], true)
    ensures Fill(EmptyBoard, [0, 1, 2], true) == [X, O, X, E, E, E, E, E, E]
  {
  }

  lemma BlockedGameMoves2()
    ensures OpenPlay([X, O, X, E, E, E, E, E, E], [5, 3, 6], false)
    ensures Fill([X, O, X, E, E, E, E, E, E], [5, 3, 6], false) == [X, O, X, X, E, O, O, E, E]
  {
  }

  lemma BlockedGameMoves3()
    ensures OpenPlay([X, O, X, X, E, O, O, E, E], [7, 8], true)
    ensures Fill([X, O, X, X, E, O, O, E, E], [7, 8], true) == [X, O, X, X, E, O, O, X, O]
  {
  }

  lemma DrawnWithCellFourOpen(s: GameState)
    requires AtTip(s) && Latest(s).squares == [X, O, X, X, E, O, O, X, O]
    ensures s.stepNumber < |s.history|
    ensures GameStatus(s) == Draw
    ensures Accepts(s, 4)
    ensures |HandleClick(s, 4).history| == |s.history| + 1
  {
    DrawWithEmptyCell(Displayed(s));
    assert Current(s) == Displayed(s);
  }

  // ---------------------------------------------------------------------------
  // Branching from an earlier step
  // ---------------------------------------------------------------------------

  /** Three moves, a jump back to move 1 from the move list, and a move on cell 4. */
  function BranchGame(): GameState {
    Run(Initial, Clicks([0, 1, 2]) + [ListItem(1), Click(4)])
  }

  /** Moving from an earlier step cuts the history after it before appending. */
  lemma BranchFromEarlierStep()
    ensures |BranchGame().history| == 3
    ensures BranchGame().stepNumber == 2
    ensures Displayed(BranchGame()) == [X, E, E, E, O, E, E, E, E]
  {
    ThreeMoves();
    RunAppend(Initial, Clicks([0, 1, 2]), [ListItem(1), Click(4)]);
    BranchAtMoveOne(Run(Initial, Clicks([0, 1, 2])));
  }

  /** After three moves the history holds four entries and entry 1 has X on cell 0. */
  lemma ThreeMoves()
    ensures var s := Run(Initial, Clicks([0, 1, 2]));
      Valid(s) && s.order == Asc && |s.history| == 4 && s.history[1].squares == [X, E, E, E, E, E, E, E, E]
  {
    var s1 := Run(Initial, Clicks([0]));
    FirstMove();
    assert OpenPlay([X, E, E, E, E, E, E, E, E], [1, 2], false);
    RunOpenClicks(s1, [1, 2]);
    var s3 := Run(s1, Clicks([1, 2]));
    assert s3.history[1] == s3.history[..2][1];
    RunPreservesValid(s1, Clicks([1, 2]));
    assert Clicks([0, 1, 2]) == Clicks([0]) + Clicks([1, 2]);
    RunAppend(Initial, Clicks([0]), Clicks([1, 2]));
  }

  /** After X plays cell 0 the state is valid and entry 1 holds that board. */
  lemma FirstMove()
    ensures var s := Run(Initial, Clicks([0]));
      Valid(s) && AtTip(s) && |s.history| == 2 && s.xIsNext == false && s.order == Asc
      && Latest(s).squares == [X, E, E, E, E, E, E, E, E]
  {
    EmptyBoardUndecided();
    RunOpenClicks(Initial, [0]);
    InitialIsValid();
    RunPreservesValid(Initial, Clicks([0]));
  }

  lemma BranchAtMoveOne(s: GameState)
    requires Valid(s) && s.order == Asc && |s.history| == 4
    requires s.history[1].squares == [X, E, E, E, E, E, E, E, E]
    ensures |Run(s, [ListItem(1), Click(4)]).history| == 3
    ensures Run(s, [ListItem(1), Click(4)]).stepNumber == 2
    ensures Displayed(Run(s, [ListItem(1), Click(4)])) == [X, E, E, E, O, E, E, E, E]
  {
    SortOfValid(s);
    var j := JumpTo(s, 1);
    assert Apply(s, ListItem(1)) == j;
    JumpToPreservesValid(s, 1);
    HandleClickPreservesValid(j, 4);
    ValidCurrent(j);
    assert CalculateWinner([X, E, E, E, E, E, E, E, E]) == None;
    assert Accepts(j, 4);
    assert Run(s, [ListItem(1), Click(4)]) == Run(j, [Click(4)]) == HandleClick(j, 4);
  }
}
