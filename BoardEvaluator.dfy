/**
 * Pure predicates over a nine-cell board: who (if anyone) has won, and
 * whether the game is drawn.
 */
module BoardEvaluator {
  import opened Wrappers
  import opened Model

  /** The eight winning lines in scan order: three rows, three columns, two diagonals. */
  const WinLines: seq<(Cell, Cell, Cell)> :=
    [ (0, 1, 2), (3, 4, 5), (6, 7, 8),
      (0, 3, 6), (1, 4, 7), (2, 5, 8),
      (0, 4, 8), (2, 4, 6) ]

  /**
   * The table holds eight distinct lines: every row (three consecutive
   * cells starting a row), every column (cells three apart starting in the
   * top row) and the two diagonals.
   */
  lemma WinLinesAreLines()
    ensures |WinLines| == 8
    ensures forall k | 0 <= k < |WinLines| ::
              var l := WinLines[k];
              || (l.0 % 3 == 0 && l.1 == l.0 + 1 && l.2 == l.0 + 2)
              || (l.0 < 3 && l.1 == l.0 + 3 && l.2 == l.0 + 6)
              || l == (0, 4, 8) || l == (2, 4, 6)
    ensures forall k, k' | 0 <= k < k' < |WinLines| :: WinLines[k] != WinLines[k']
  {
  }

  /** Line `k` holds `m` in all three of its cells. */
  predicate Completes(board: Board, m: Movement, k: nat)
    requires |board| == 9 && k < |WinLines|
  {
    var l := WinLines[k];
    board[l.0] == Some(m) && board[l.1] == Some(m) && board[l.2] == Some(m)
  }

  /** `m` occupies some complete line. */
  predicate Owns(board: Board, m: Movement)
    requires |board| == 9
  {
    exists k :: 0 <= k < |WinLines| && Completes(board, m, k)
  }

  /** The first cell of line `k` holds a symbol that owns some complete line. */
  predicate Candidate(board: Board, k: nat)
    requires |board| == 9 && k < |WinLines|
  {
    var head := board[WinLines[k].0];
    head.Some? && Owns(board, head.value)
  }

  /**
   * The stream of `winner`, from line `k` on: the symbol in the first cell
   * of each line, skipping `null`, keeping the first that owns any complete
   * line.
   */
  function WinnerFrom(board: Board, k: nat): (r: Option<Movement>)
    requires |board| == 9 && k <= |WinLines|
    ensures r.Some? ==> Owns(board, r.value)
    ensures r.Some? ==> exists j :: k <= j < |WinLines| && board[WinLines[j].0] == r && Candidate(board, j)
                                   && forall i :: k <= i < j ==> !Candidate(board, i)
    ensures (exists j :: k <= j < |WinLines| && Candidate(board, j)) ==> r.Some?
    decreases |WinLines| - k
  {
    if k == |WinLines| then None
    else
      var head := board[WinLines[k].0];
      if head.Some? && Owns(board, head.value) then head else WinnerFrom(board, k + 1)
  }

  /**
   * `winner`: some symbol iff some line is complete, and then the first
   * line-start symbol (in line order) that owns a complete line.
   */
  function Winner(board: Board): (r: Option<Movement>)
    requires |board| == 9
    ensures r.Some? ==> Owns(board, r.value)
    ensures r.None? <==> !Owns(board, X) && !Owns(board, O)
  {
    OwnerIsCandidate(board, X);
    OwnerIsCandidate(board, O);
    var r := WinnerFrom(board, 0);
    SomeMovement(r);
    r
  }

  /** A complete line of `m`, when there is one. */
  ghost function WitnessLine(board: Board, m: Movement): (k: nat)
    requires |board| == 9 && Owns(board, m)
    ensures k < |WinLines| && Completes(board, m, k)
  {
    var k :| 0 <= k < |WinLines| && Completes(board, m, k); k
  }

  /** The start of a complete line of `m` is a candidate of the scan. */
  lemma OwnerIsCandidate(board: Board, m: Movement)
    requires |board| == 9
    ensures Owns(board, m) ==> exists j :: 0 <= j < |WinLines| && Candidate(board, j)
  {
    if Owns(board, m) {
      var k := WitnessLine(board, m);
      assert Candidate(board, k);
    }
  }

  /** Every cell is occupied. */
  predicate IsFull(board: Board) {
    forall i | 0 <= i < |board| :: board[i].Some?
  }

  /** `isDraw`: the board is full and neither symbol owns a line. */
  function IsDraw(board: Board): (r: bool)
    requires |board| == 9
    ensures r <==> IsFull(board) && !Owns(board, X) && !Owns(board, O)
  {
    IsFull(board) && Winner(board).None?
  }

  /** On a board where exactly one symbol owns a line, that symbol is the winner. */
  lemma WinnerUnique(board: Board, m: Movement)
    requires |board| == 9 && Owns(board, m)
    requires forall m' :: m' != m ==> !Owns(board, m')
    ensures Winner(board) == Some(m)
  {
  }

  /** The all-`null` board has no winner. */
  lemma EmptyBoardHasNoWinner()
    ensures Winner(EmptyBoard()).None?
  {
  }

  /** Neither an unfinished board nor a board with a winner is a draw. */
  lemma DrawExcludes(board: Board)
    requires |board| == 9
    ensures (exists i :: 0 <= i < 9 && board[i].None?) ==> !IsDraw(board)
    ensures Winner(board).Some? ==> !IsDraw(board)
  {
  }

  /** A board with a single symbol on it has no winner: every line spans three cells. */
  lemma SingleMarkNoWinner(i: Cell, m: Movement)
    ensures Winner(EmptyBoard()[i := Some(m)]).None?
  {
    var b := EmptyBoard()[i := Some(m)];
    forall k, m' | 0 <= k < |WinLines|
      ensures !Completes(b, m', k)
    {
      var l := WinLines[k];
      assert l.0 != l.1;
    }
  }

  /**
   * Putting `m` into an empty cell of a board without a winner can only make
   * `m` the winner: every line it completes passes through that cell.
   */
  lemma PlacingOnlyMoverWins(board: Board, i: Cell, m: Movement)
    requires |board| == 9 && board[i].None? && Winner(board).None?
    ensures Winner(board[i := Some(m)]) != Some(if m == X then O else X)
  {
    var after := board[i := Some(m)];
    var other := if m == X then O else X;
    if Owns(after, other) {
      var k := WitnessLine(after, other);
      assert Completes(board, other, k);
    }
  }
}
