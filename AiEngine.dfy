/**
 * TicTacToeAiEngine: exhaustive minimax over a nine-character board in
 * which '_' marks an empty cell. The search simulates a move in place in a
 * `char` array, recurses and undoes the move.
 */
module AiEngine {
  import opened Wrappers
  import opened Model
  import BoardEvaluator

  const EmptyMark: char := '_'
  const WinScore: int := 1_000_000_000
  /** Java's `Integer.MIN_VALUE` and `Integer.MAX_VALUE`, the initial bests. */
  const IntMin: int := -0x8000_0000
  const IntMax: int := 0x7fff_ffff

  /** The symbol the search minimises for. */
  function Opponent(maxSymbol: char): (r: char)
    ensures r != maxSymbol && r != EmptyMark
    ensures r == 'X' || r == 'O'
    ensures maxSymbol == 'X' || maxSymbol == 'O' ==> {r, maxSymbol} == {'X', 'O'}
  {
    if maxSymbol == 'X' then 'O' else 'X'
  }

  // ---------------------------------------------------------------------
  // Specification functions on the board as a sequence

  /** Line `k` of the shared line table holds `p` in all three cells. */
  predicate LineOf(c: seq<char>, p: char, k: nat)
    requires |c| == 9 && k < |BoardEvaluator.WinLines|
  {
    var l := BoardEvaluator.WinLines[k];
    c[l.0] == p && c[l.1] == p && c[l.2] == p
  }

  /** `p` has three in a line. */
  predicate HasLine(c: seq<char>, p: char)
    requires |c| == 9
  {
    exists k :: 0 <= k < |BoardEvaluator.WinLines| && LineOf(c, p, k)
  }

  /** No cell is '_'. */
  predicate Full(c: seq<char>) {
    forall i | 0 <= i < |c| :: c[i] != EmptyMark
  }

  /** `computeBestMove` returns -1 on such a board. */
  predicate Terminal(c: seq<char>, maxSymbol: char)
    requires |c| == 9
  {
    HasLine(c, maxSymbol) || HasLine(c, Opponent(maxSymbol)) || Full(c)
  }

  function EmptyCount(c: seq<char>): nat {
    multiset(c)[EmptyMark]
  }

  /**
   * Termination measure of the search: every minimising ply fills a cell;
   * a maximising ply fills one too unless the maximising symbol is '_'.
   */
  function Measure(c: seq<char>, aiTurn: bool): nat {
    2 * EmptyCount(c) + (if aiTurn then 1 else 0)
  }

  function Mover(aiTurn: bool, max: char, min: char): char {
    if aiTurn then max else min
  }

  function Max(a: int, b: int): int { if a >= b then a else b }
  function Min(a: int, b: int): int { if a <= b then a else b }

  lemma FillDecreases(c: seq<char>, i: nat, aiTurn: bool, max: char, min: char)
    requires |c| == 9 && i < 9 && c[i] == EmptyMark && min != EmptyMark
    ensures Measure(c[i := Mover(aiTurn, max, min)], !aiTurn) < Measure(c, aiTurn)
  {
    assert multiset(c[i := Mover(aiTurn, max, min)]) == multiset(c) - multiset{EmptyMark} + multiset{Mover(aiTurn, max, min)};
  }

  /**
   * The value `minimax` computes for board `c` with `aiTurn` to move:
   * +WinScore if `max` has a line, -WinScore if `min` has, 0 if full,
   * otherwise the best over the empty cells for the side to move.
   */
  function Score(c: seq<char>, aiTurn: bool, max: char, min: char): (r: int)
    requires |c| == 9 && min != EmptyMark
    ensures r == WinScore || r == -WinScore || r == 0
    decreases Measure(c, aiTurn), 10
  {
    if HasLine(c, max) then WinScore
    else if HasLine(c, min) then -WinScore
    else if Full(c) then 0
    else Best(c, aiTurn, max, min, 9)
  }

  /**
   * The `best` of `minimax`'s loop after cells 0 .. i-1: the maximum (or
   * minimum) of the scores of the empty cells so far, started at
   * `Integer.MIN_VALUE` (or `Integer.MAX_VALUE`).
   */
  function Best(c: seq<char>, aiTurn: bool, max: char, min: char, i: nat): (r: int)
    requires |c| == 9 && min != EmptyMark && i <= 9
    ensures (exists j :: 0 <= j < i && c[j] == EmptyMark) ==> r == WinScore || r == -WinScore || r == 0
    ensures (forall j :: 0 <= j < i ==> c[j] != EmptyMark) ==> r == (if aiTurn then IntMin else IntMax)
    decreases Measure(c, aiTurn), i
  {
    if i == 0 then (if aiTurn then IntMin else IntMax)
    else
      var acc := Best(c, aiTurn, max, min, i - 1);
      if c[i - 1] != EmptyMark then acc
      else
        var s := ChildScore(c, aiTurn, max, min, i - 1);
        if aiTurn then Max(acc, s) else Min(acc, s)
  }

  /** The score of the board after the side to move plays in cell `j`. */
  function ChildScore(c: seq<char>, aiTurn: bool, max: char, min: char, j: nat): int
    requires |c| == 9 && min != EmptyMark && j < 9 && c[j] == EmptyMark
    decreases Measure(c, aiTurn), 0
  {
    FillDecreases(c, j, aiTurn, max, min);
    Score(c[j := Mover(aiTurn, max, min)], !aiTurn, max, min)
  }

  /**
   * `minimax`'s loop computes the maximum (on the AI's turn) or the minimum
   * (otherwise) of the children's scores: it bounds the score of every
   * empty cell seen so far and is attained by one of them.
   */
  lemma {:induction false} BestIsExtremum(c: seq<char>, aiTurn: bool, max: char, min: char, i: nat)
    requires |c| == 9 && min != EmptyMark && i <= 9
    ensures forall j | 0 <= j < i && c[j] == EmptyMark ::
              if aiTurn then ChildScore(c, aiTurn, max, min, j) <= Best(c, aiTurn, max, min, i)
              else ChildScore(c, aiTurn, max, min, j) >= Best(c, aiTurn, max, min, i)
    ensures (exists j :: 0 <= j < i && c[j] == EmptyMark) ==>
              exists j :: 0 <= j < i && c[j] == EmptyMark && ChildScore(c, aiTurn, max, min, j) == Best(c, aiTurn, max, min, i)
    decreases i
  {
    if i > 0 {
      BestIsExtremum(c, aiTurn, max, min, i - 1);
      if c[i - 1] == EmptyMark {
        var s := ChildScore(c, aiTurn, max, min, i - 1);
        var acc := Best(c, aiTurn, max, min, i - 1);
        var best := Best(c, aiTurn, max, min, i);
        assert best == if aiTurn then Max(acc, s) else Min(acc, s);
        forall j | 0 <= j < i && c[j] == EmptyMark
          ensures if aiTurn then ChildScore(c, aiTurn, max, min, j) <= best
                  else ChildScore(c, aiTurn, max, min, j) >= best
        {
          if j == i - 1 {
            assert ChildScore(c, aiTurn, max, min, j) == s;
          }
        }
        if !(exists j :: 0 <= j < i - 1 && c[j] == EmptyMark) {
          assert acc == if aiTurn then IntMin else IntMax;
        }
      } else {
        assert Best(c, aiTurn, max, min, i) == Best(c, aiTurn, max, min, i - 1);
      }
    }
  }

  /**
   * Hence `Score` is the minimax value: on a board that is not finished it
   * is the maximum (AI to move) or minimum (opponent to move) over the
   * empty cells of the children's scores, and some empty cell attains it.
   */
  lemma ScoreIsMinimax(c: seq<char>, aiTurn: bool, max: char, min: char)
    requires |c| == 9 && min != EmptyMark
    requires !HasLine(c, max) && !HasLine(c, min) && !Full(c)
    ensures forall j | 0 <= j < 9 && c[j] == EmptyMark ::
              if aiTurn then ChildScore(c, aiTurn, max, min, j) <= Score(c, aiTurn, max, min)
              else ChildScore(c, aiTurn, max, min, j) >= Score(c, aiTurn, max, min)
    ensures exists j :: 0 <= j < 9 && c[j] == EmptyMark && ChildScore(c, aiTurn, max, min, j) == Score(c, aiTurn, max, min)
  {
    BestIsExtremum(c, aiTurn, max, min, 9);
  }

  /** The score `computeBestMove` gives to playing `maxSymbol` in cell `j`. */
  function MoveScore(c: seq<char>, maxSymbol: char, j: nat): int
    requires |c| == 9 && j < 9
  {
    Score(c[j := maxSymbol], false, maxSymbol, Opponent(maxSymbol))
  }

  // ---------------------------------------------------------------------
  // The engine's methods

  /** `isWinner`: scans the line table for three `p` in a row. */
  method IsWinner(c: array<char>, p: char) returns (r: bool)
    requires c.Length == 9
    ensures r == HasLine(c[..], p)
  {
    for k := 0 to |BoardEvaluator.WinLines|
      invariant forall j :: 0 <= j < k ==> !LineOf(c[..], p, j)
    {
      var l := BoardEvaluator.WinLines[k];
      if c[l.0] == p && c[l.1] == p && c[l.2] == p {
        assert LineOf(c[..], p, k);
        return true;
      }
    }
    return false;
  }

  /** `isFull`: no cell holds '_'. */
  method IsFull(c: array<char>) returns (r: bool)
    ensures r == Full(c[..])
  {
    for i := 0 to c.Length
      invariant forall j :: 0 <= j < i ==> c[j] != EmptyMark
    {
      if c[i] == EmptyMark {
        assert c[..][i] == EmptyMark;
        return false;
      }
    }
    return true;
  }

  /**
   * `minimax`: simulates each empty cell in place, recurses with the turn
   * flipped, undoes the move; the array is unchanged afterwards.
   */
  method Minimax(cells: array<char>, aiTurn: bool, max: char, min: char) returns (score: int)
    requires cells.Length == 9 && min != EmptyMark
    modifies cells
    ensures cells[..] == old(cells[..])
    ensures score == Score(old(cells[..]), aiTurn, max, min)
    decreases Measure(cells[..], aiTurn)
  {
    var w := IsWinner(cells, max);
    if w { return WinScore; }
    w := IsWinner(cells, min);
    if w { return -WinScore; }
    var f := IsFull(cells);
    if f { return 0; }

    ghost var b := cells[..];
    var current := if aiTurn then max else min;
    var best := if aiTurn then IntMin else IntMax;
    for i := 0 to 9
      invariant cells[..] == b
      invariant best == Best(b, aiTurn, max, min, i)
    {
      if cells[i] != EmptyMark { continue; }
      cells[i] := current;
      FillDecreases(b, i, aiTurn, max, min);
      var s := Minimax(cells, !aiTurn, max, min);
      cells[i] := EmptyMark;
      assert cells[..] == b[i := current][i := EmptyMark];
      best := if aiTurn then Max(best, s) else Min(best, s);
    }
    return best;
  }

  /**
   * The nine move scores of `c`, tied to `MoveScore` only through terms
   * `MoveScore(c, maxSymbol, j)`, so that the scan over them does not
   * unfold the search.
   */
  lemma MoveScores(c: seq<char>, maxSymbol: char) returns (scores: seq<int>)
    requires |c| == 9
    ensures |scores| == 9
    ensures forall j {:trigger MoveScore(c, maxSymbol, j)} | 0 <= j < 9 :: scores[j] == MoveScore(c, maxSymbol, j)
  {
    scores := seq(9, j requires 0 <= j < 9 => MoveScore(c, maxSymbol, j));
  }

  /** One step of `computeBestMove`'s loop: play cell `i`, score the board, undo the move. */
  method TryCell(cells: array<char>, maxSymbol: char, min: char, i: nat) returns (score: int)
    requires cells.Length == 9 && i < 9 && cells[i] == EmptyMark && min == Opponent(maxSymbol)
    modifies cells
    ensures cells[..] == old(cells[..])
    ensures score == MoveScore(old(cells[..]), maxSymbol, i)
  {
    ghost var board := cells[..];
    cells[i] := maxSymbol;
    assert cells[..] == board[i := maxSymbol];
    score := Minimax(cells, false, maxSymbol, min);
    cells[i] := EmptyMark;
    assert cells[..] == board[i := maxSymbol][i := EmptyMark];
  }

  /**
   * The loop of `computeBestMove`: tries every empty cell in ascending
   * order and keeps the first one with a strictly higher score.
   */
  method BestEmptyCell(cells: array<char>, maxSymbol: char) returns (bestMove: int)
    requires cells.Length == 9 && !Full(cells[..])
    modifies cells
    ensures cells[..] == old(cells[..])
    ensures 0 <= bestMove < 9 && old(cells[..])[bestMove] == EmptyMark
    ensures forall j :: 0 <= j < 9 && old(cells[..])[j] == EmptyMark ==>
              MoveScore(old(cells[..]), maxSymbol, j) <= MoveScore(old(cells[..]), maxSymbol, bestMove)
    ensures forall j :: 0 <= j < bestMove && old(cells[..])[j] == EmptyMark ==>
              MoveScore(old(cells[..]), maxSymbol, j) < MoveScore(old(cells[..]), maxSymbol, bestMove)
  {
    ghost var board := cells[..];
    ghost var scores := MoveScores(board, maxSymbol);
    var min := Opponent(maxSymbol);
    var bestScore := IntMin;
    bestMove := -1;
    for i := 0 to 9
      invariant cells[..] == board
      invariant bestMove == -1 <==> forall j :: 0 <= j < i ==> board[j] != EmptyMark
      invariant bestMove == -1 ==> bestScore == IntMin
      invariant bestMove != -1 ==>
                  && 0 <= bestMove < i && board[bestMove] == EmptyMark
                  && bestScore == scores[bestMove]
      invariant forall j :: 0 <= j < i && board[j] == EmptyMark ==> scores[j] <= bestScore
      invariant forall j :: 0 <= j < bestMove && board[j] == EmptyMark ==> scores[j] < bestScore
    {
      if cells[i] != EmptyMark { continue; }
      var score := TryCell(cells, maxSymbol, min, i);
      assert score == scores[i];
      if score > bestScore {
        bestScore := score;
        bestMove := i;
      }
    }
  }

  /**
   * `computeBestMove`: -1 on a terminal board; otherwise the empty cell with
   * the highest minimax score, the lowest such index on ties. A board that
   * is not nine characters long is an IllegalArgumentException.
   */
  method ComputeBestMove(board: seq<char>, maxSymbol: char) returns (r: Result<int, Error>)
    ensures |board| != 9 <==> r == Failure(IllegalArgument)
    ensures |board| == 9 ==> r.Success? && (r.value == -1 <==> Terminal(board, maxSymbol))
    ensures |board| == 9 && !Terminal(board, maxSymbol) ==>
      && 0 <= r.value < 9 && board[r.value] == EmptyMark
      && (forall j :: 0 <= j < 9 && board[j] == EmptyMark ==> MoveScore(board, maxSymbol, j) <= MoveScore(board, maxSymbol, r.value))
      && (forall j :: 0 <= j < r.value && board[j] == EmptyMark ==> MoveScore(board, maxSymbol, j) < MoveScore(board, maxSymbol, r.value))
  {
    if |board| != 9 {
      return Failure(IllegalArgument);
    }
    var min := Opponent(maxSymbol);
    var cells := new char[9](i => if 0 <= i < |board| then board[i] else EmptyMark);
    assert cells[..] == board;

    var w1 := IsWinner(cells, maxSymbol);
    var w2 := IsWinner(cells, min);
    var f := IsFull(cells);
    if w1 || w2 || f {
      return Success(-1);
    }

    var bestMove := BestEmptyCell(cells, maxSymbol);
    return Success(bestMove);
  }
}
