/**
 The outcome evaluator of src/index.js: the fixed table of winning lines,
 `calculateWinner`, `isCombinationPossible` and `isDraw`, as pure functions
 over a 9-cell board. A JavaScript cell is `null`, `"X"` or `"O"`; "truthy"
 reads as "not Empty".
 */
module Outcome {
  import opened Wrappers

  datatype Cell = Empty | X | O

  /** A board position, row-major: index = 3 * row + col. */
  type CellIndex = i: nat | i < 9

  type Board = b: seq<Cell> | |b| == 9 witness [Empty, Empty, Empty, Empty, Empty, Empty, Empty, Empty, Empty]

  /** `Array(9).fill(null)` */
  const EmptyBoard: Board := [Empty, Empty, Empty, Empty, Empty, Empty, Empty, Empty, Empty]

  /** A winning combination: three cell indices. */
  type Line = l: seq<CellIndex> | |l| == 3 witness [0, 1, 2]

  /** `winningCombinations`: rows, then columns, then the two diagonals. */
  const Lines: seq<Line> := [
    [0, 1, 2],
    [3, 4, 5],
    [6, 7, 8],
    [0, 3, 6],
    [1, 4, 7],
    [2, 5, 8],
    [0, 4, 8],
    [2, 4, 6]
  ]

  /** The three cells of `l` hold the same mark. */
  predicate Completed(b: Board, l: Line) {
    b[l[0]] != Empty && b[l[0]] == b[l[1]] && b[l[0]] == b[l[2]]
  }

  /** The loop of `calculateWinner`, from table position `k` on. */
  function WinnerFrom(b: Board, k: nat): (r: Option<nat>)
    requires k <= |Lines|
    ensures r.Some? ==> k <= r.value < |Lines| && Completed(b, Lines[r.value])
    ensures r.Some? ==> forall j :: k <= j < r.value ==> !Completed(b, Lines[j])
    ensures r.None? ==> forall j :: k <= j < |Lines| ==> !Completed(b, Lines[j])
    decreases |Lines| - k
  {
    if k == |Lines| then None
    else if Completed(b, Lines[k]) then Some(k)
    else WinnerFrom(b, k + 1)
  }

  /** `calculateWinner`: the first completed line in table order, or None. */
  function CalculateWinner(b: Board): (r: Option<Line>)
    ensures r.Some? ==> r.value in Lines && Completed(b, r.value)
    ensures r.Some? ==> exists k :: 0 <= k < |Lines| && Lines[k] == r.value
                                    && forall j :: 0 <= j < k ==> !Completed(b, Lines[j])
    ensures r.None? <==> forall k :: 0 <= k < |Lines| ==> !Completed(b, Lines[k])
  {
    match WinnerFrom(b, 0)
    case None => None
    case Some(k) => Some(Lines[k])
  }

  /** Cell `l[i]` holds a mark that differs from the mark on the line's first cell. */
  predicate Clashes(b: Board, l: Line, i: nat)
    requires i < 3
  {
    b[l[i]] != Empty && b[l[0]] != b[l[i]]
  }

  /**
   The inner loop of `isCombinationPossible`. Its variable `nextSquare` is
   bound once, to `combination[i]`, so every pass compares the same cell.
   */
  function InnerScan(b: Board, l: Line, i: nat, j: nat): (r: bool)
    requires i < 3
    ensures r <==> (j >= 3 || !Clashes(b, l, i))
    decreases 3 - j
  {
    if j >= 3 then true
    else if Clashes(b, l, i) then false
    else InnerScan(b, l, i, j + 1)
  }

  /**
   The outer loop of `isCombinationPossible`. Its variable `square` is bound
   once, to `combination[0]`, so the inner loop only runs when the line's
   first cell holds a mark.
   */
  function OuterScan(b: Board, l: Line, i: nat): (r: bool)
    ensures r <==> !(b[l[0]] != Empty && exists k :: i <= k < 3 && Clashes(b, l, k))
    decreases 3 - i
  {
    if i >= 3 then true
    else if b[l[0]] != Empty && !InnerScan(b, l, i, i) then false
    else OuterScan(b, l, i + 1)
  }

  /**
   `isCombinationPossible(combination, squares)` as written: false exactly when
   the first cell holds a mark and some cell of the line holds the other mark.
   A line whose first cell is empty is always reported possible.
   */
  function IsCombinationPossible(l: Line, b: Board): (r: bool)
    ensures !r <==> b[l[0]] != Empty && exists k :: 0 <= k < 3 && Clashes(b, l, k)
    ensures b[l[0]] == Empty ==> r
  {
    OuterScan(b, l, 0)
  }

  /** `isDraw`: no line of the table is still possible. */
  predicate IsDraw(b: Board) {
    !exists k :: 0 <= k < |Lines| && IsCombinationPossible(Lines[k], b)
  }

  /** Some cell of `l` holds mark `m`. */
  predicate Holds(b: Board, l: Line, m: Cell) {
    b[l[0]] == m || b[l[1]] == m || b[l[2]] == m
  }

  /** The empty starting board has no winner and is not a draw. */
  lemma EmptyBoardUndecided()
    ensures CalculateWinner(EmptyBoard) == None
    ensures !IsDraw(EmptyBoard)
  {
    assert IsCombinationPossible(Lines[0], EmptyBoard);
  }

  /** `isDraw` in terms of cells: every line starts with a mark and holds the other one too. */
  lemma IsDrawCharacterization(b: Board)
    ensures IsDraw(b) <==> forall k :: 0 <= k < |Lines| ==>
      b[Lines[k][0]] != Empty && exists i :: 1 <= i < 3 && Clashes(b, Lines[k], i)
  {
    forall k | 0 <= k < |Lines|
      ensures !IsCombinationPossible(Lines[k], b) <==>
        b[Lines[k][0]] != Empty && exists i :: 1 <= i < 3 && Clashes(b, Lines[k], i)
    {
      assert !Clashes(b, Lines[k], 0);
    }
  }

  /** A completed line is always possible, so a board holding one is never a draw. */
  lemma CompletedLineIsNotDraw(b: Board, k: nat)
    requires k < |Lines| && Completed(b, Lines[k])
    ensures !IsDraw(b)
  {
    var l := Lines[k];
    assert forall i :: 0 <= i < 3 ==> !Clashes(b, l, i);
    assert IsCombinationPossible(l, b);
  }

  /** Whenever `calculateWinner` finds a line, `isDraw` is false. */
  lemma WinnerIsNotDraw(b: Board)
    ensures CalculateWinner(b).Some? ==> !IsDraw(b)
  {
    if CalculateWinner(b).Some? {
      var k :| 0 <= k < |Lines| && Lines[k] == CalculateWinner(b).value;
      CompletedLineIsNotDraw(b, k);
    }
  }

  /** The cells on which some line starts: the only cells whose emptiness rules out a draw. */
  lemma LineStarts()
    ensures (set k | 0 <= k < |Lines| :: Lines[k][0]) == {0, 1, 2, 3, 6}
  {
    var starts := set k | 0 <= k < |Lines| :: Lines[k][0];
    assert Lines[0][0] in starts && Lines[4][0] in starts && Lines[5][0] in starts;
    assert Lines[1][0] in starts && Lines[2][0] in starts;
  }

  /** A board whose cell 0, 1, 2, 3 or 6 is empty is not a draw. */
  lemma EmptyLineStartIsNotDraw(b: Board, c: CellIndex)
    requires c in {0, 1, 2, 3, 6} && b[c] == Empty
    ensures !IsDraw(b)
  {
    var k := if c == 0 then 0 else if c == 1 then 4 else if c == 2 then 5 else if c == 3 then 1 else 2;
    assert Lines[k][0] == c;
    assert IsCombinationPossible(Lines[k], b);
  }

  /** Every line of a draw holds both an X and an O. */
  lemma DrawLinesHoldBothMarks(b: Board)
    ensures IsDraw(b) ==> forall k :: 0 <= k < |Lines| ==> Holds(b, Lines[k], X) && Holds(b, Lines[k], O)
  {
    if IsDraw(b) {
      forall k | 0 <= k < |Lines|
        ensures Holds(b, Lines[k], X) && Holds(b, Lines[k], O)
      {
        assert !IsCombinationPossible(Lines[k], b);
        var i :| 0 <= i < 3 && Clashes(b, Lines[k], i);
      }
    }
  }

  /**
   The converse fails: on this board every line holds both marks, so no line
   can be completed, yet cell 0 is empty and the board is not a draw.
   */
  lemma BothMarksOnEveryLineIsNotEnough(b: Board)
    requires b == [Empty, X, O, O, X, X, X, O, O]
    ensures forall k :: 0 <= k < |Lines| ==> Holds(b, Lines[k], X) && Holds(b, Lines[k], O)
    ensures !IsDraw(b)
  {
    EmptyLineStartIsNotDraw(b, 0);
  }

  /** A draw can still leave cells empty: here cell 4 is empty. */
  lemma DrawWithEmptyCell(b: Board)
    requires b == [X, O, X, X, Empty, O, O, X, O]
    ensures IsDraw(b) && b[4] == Empty && CalculateWinner(b) == None
  {
    IsDrawCharacterization(b);
    assert Clashes(b, Lines[0], 1) && Clashes(b, Lines[1], 2) && Clashes(b, Lines[2], 1);
    assert Clashes(b, Lines[3], 2) && Clashes(b, Lines[4], 2) && Clashes(b, Lines[5], 2);
    assert Clashes(b, Lines[6], 2) && Clashes(b, Lines[7], 2);
  }

  /** A full board on which no line is complete is a draw. */
  lemma FullBoardIsDraw(b: Board)
    requires b == [X, O, X, X, O, O, O, X, X]
    ensures IsDraw(b) && CalculateWinner(b) == None
  {
    IsDrawCharacterization(b);
    assert Clashes(b, Lines[0], 1) && Clashes(b, Lines[1], 1) && Clashes(b, Lines[2], 1);
    assert Clashes(b, Lines[3], 2) && Clashes(b, Lines[4], 2) && Clashes(b, Lines[5], 1);
    assert Clashes(b, Lines[6], 1) && Clashes(b, Lines[7], 1);
  }
}
