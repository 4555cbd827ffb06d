/**
 * The standalone rule engine of gomoku.py: a square board of integers (0 empty, 1 and 2
 * the players) of configurable size and winning length. `Placed` and `WinsFrom` describe
 * `place` and `_check_win_from` as functions; the class `Gomoku` holds the state the
 * source updates in place, and its methods are proved to compute those functions.
 */
module SimpleGomoku {
  import opened Common
  import opened Grid

  /** The directions `_check_win_from` scans, in its order. */
  const Directions: seq<(int, int)> := [(1, 0), (0, 1), (1, 1), (1, -1)]

  function ZeroBoard(n: nat): (b: seq<seq<int>>)
    ensures IsSquare(b, n) && forall i, j :: 0 <= i < n && 0 <= j < n ==> b[i][j] == 0
  {
    seq(n, _ => seq(n, _ => 0))
  }

  /** `_check_win_from(row, col)`: some direction counts `winLen` stones of the cell's value through it. */
  predicate WinsFrom(b: seq<seq<int>>, n: nat, r: int, c: int, winLen: int)
    requires IsSquare(b, n) && InBounds(n, r, c)
  {
    exists i :: 0 <= i < |Directions| && AxisCount(b, n, r, c, Directions[i].0, Directions[i].1) >= winLen
  }

  /** The ray-counting test agrees with a brute-force search for `winLen` in a row through the cell. */
  lemma WinsFromIffRun(b: seq<seq<int>>, n: nat, r: int, c: int, winLen: int)
    requires IsSquare(b, n) && InBounds(n, r, c) && winLen >= 1
    ensures WinsFrom(b, n, r, c, winLen) <==> RowOfThrough(b, n, r, c, winLen)
  {
    assert forall i :: 0 <= i < |Directions| ==> Directions[i] in Axes;
    assert forall i :: 0 <= i < |Axes| ==> Axes[i] in Directions;
    if WinsFrom(b, n, r, c, winLen) {
      var i :| 0 <= i < |Directions| && AxisCount(b, n, r, c, Directions[i].0, Directions[i].1) >= winLen;
      var j :| 0 <= j < |Axes| && Axes[j] == Directions[i];
      AxisCountIffLine(b, n, r, c, Axes[j].0, Axes[j].1, winLen);
    }
    if RowOfThrough(b, n, r, c, winLen) {
      var j :| 0 <= j < |Axes| && LineThrough(b, n, r, c, Axes[j].0, Axes[j].1, b[r][c], winLen);
      var i :| 0 <= i < |Directions| && Directions[i] == Axes[j];
      AxisCountIffLine(b, n, r, c, Axes[j].0, Axes[j].1, winLen);
    }
  }

  /** The turn change of `place`: 1 after 2, 2 after anything else. */
  function Toggle(p: int): (q: int)
    ensures (q == 1 || q == 2) && (p == 1 ==> q == 2) && (p == 2 ==> q == 1)
  {
    if p == 2 then 1 else 2
  }

  /** The fields of a `Gomoku` that `place` and `reset` change. */
  datatype Position = Position(board: seq<seq<int>>, currentPlayer: int, winner: Option<int>)

  /** `place(row, col)` on a `n`-sized board with winning length `winLen`. */
  function Placed(s: Position, n: nat, winLen: int, row: int, col: int): (Position, bool)
    requires IsSquare(s.board, n)
  {
    if s.winner.Some? || !InBounds(n, row, col) || s.board[row][col] != 0 then (s, false)
    else
      var b := s.board[row := s.board[row][col := s.currentPlayer]];
      if WinsFrom(b, n, row, col, winLen) then (Position(b, s.currentPlayer, Some(s.currentPlayer)), true)
      else (Position(b, Toggle(s.currentPlayer), None), true)
  }

  /**
   * `place` refuses once there is a winner, off the board and on an occupied cell, changing
   * nothing; otherwise it writes the mover into exactly that cell, and either declares the
   * mover the winner (a line of `winLen` through the cell) keeping the turn, or hands the
   * turn to the other player.
   */
  lemma PlaceSpec(s: Position, n: nat, winLen: int, row: int, col: int)
    requires IsSquare(s.board, n) && winLen >= 1
    ensures var (s', ok) := Placed(s, n, winLen, row, col);
      (ok <==> s.winner == None && InBounds(n, row, col) && s.board[row][col] == 0) &&
      (!ok ==> s' == s) &&
      (ok ==>
        IsSquare(s'.board, n) &&
        (forall i, j :: 0 <= i < n && 0 <= j < n ==>
          s'.board[i][j] == if (i, j) == (row, col) then s.currentPlayer else s.board[i][j]) &&
        (s'.winner == Some(s.currentPlayer) <==> RowOfThrough(s'.board, n, row, col, winLen)) &&
        (s'.winner.Some? ==> s'.currentPlayer == s.currentPlayer) &&
        (s'.winner == None ==> s'.currentPlayer == Toggle(s.currentPlayer)))
  {
    var (s', ok) := Placed(s, n, winLen, row, col);
    if ok {
      WinsFromIffRun(s'.board, n, row, col, winLen);
    }
  }

  /** With players 1 and 2 only, the turn stays with one of them. */
  lemma PlaceKeepsPlayers(s: Position, n: nat, winLen: int, row: int, col: int)
    requires IsSquare(s.board, n) && (s.currentPlayer == 1 || s.currentPlayer == 2)
    ensures var s' := Placed(s, n, winLen, row, col).0;
      IsSquare(s'.board, n) && (s'.currentPlayer == 1 || s'.currentPlayer == 2)
  {
  }

  /** `get_available_moves`: the zero cells, row by row. */
  function AvailableMoves(b: seq<seq<int>>, n: nat): seq<Pos>
    requires IsSquare(b, n)
  {
    MatchingRows(b, n, 0, n)
  }

  /** The available moves are exactly the zero cells, each once, in row-major order. */
  lemma AvailableMovesSpec(b: seq<seq<int>>, n: nat)
    requires IsSquare(b, n)
    ensures forall x :: x in AvailableMoves(b, n) <==> InBounds(n, x.0, x.1) && b[x.0][x.1] == 0
    ensures RowMajorSorted(AvailableMoves(b, n))
  {
    MatchingRowsSpec(b, n, 0, n);
  }

  /** One direction of `_check_win_from`: the cell itself, then the walks forward and backward. */
  method CountThrough(b: seq<seq<int>>, n: nat, row: int, col: int, dr: int, dc: int) returns (count: nat)
    requires IsSquare(b, n) && InBounds(n, row, col) && IsStep(dr, dc)
    ensures count == AxisCount(b, n, row, col, dr, dc)
  {
    var ahead := Walk(b, n, row + dr, col + dc, dr, dc, b[row][col]);
    var behind := Walk(b, n, row - dr, col - dc, -dr, -dc, b[row][col]);
    count := 1 + ahead + behind;
  }

  /** A `while` walk of `_check_win_from`: steps along `(dr, dc)` while the cell holds `p`. */
  method Walk(b: seq<seq<int>>, n: nat, r: int, c: int, dr: int, dc: int, p: int) returns (k: nat)
    requires IsSquare(b, n) && IsStep(dr, dc)
    ensures k == Ray(b, n, r, c, dr, dc, p)
  {
    k := 0;
    var r', c' := r, c;
    while 0 <= r' < n && 0 <= c' < n && b[r'][c'] == p
      invariant k + Ray(b, n, r', c', dr, dc, p) == Ray(b, n, r, c, dr, dc, p)
      decreases Room(n, r', c', dr, dc)
    {
      k := k + 1;
      r', c' := r' + dr, c' + dc;
    }
  }

  lemma FullIffNoMoves(b: seq<seq<int>>, n: nat)
    requires IsSquare(b, n)
    ensures (forall r, c :: 0 <= r < n && 0 <= c < n ==> b[r][c] != 0) <==> AvailableMoves(b, n) == []
  {
    AvailableMovesSpec(b, n);
    if AvailableMoves(b, n) != [] {
      var x := AvailableMoves(b, n)[0];
      assert x in AvailableMoves(b, n);
    } else {
      forall r, c | 0 <= r < n && 0 <= c < n
        ensures b[r][c] != 0
      {
        assert (r, c) !in AvailableMoves(b, n);
      }
    }
  }

  class Gomoku {
    const size: nat
    const winLen: int
    var board: seq<seq<int>>
    var currentPlayer: int
    var winner: Option<int>

    function State(): Position
      reads this
    {
      Position(board, currentPlayer, winner)
    }

    ghost predicate Valid()
      reads this
    {
      size >= winLen >= 3 && IsSquare(board, size)
    }

    /** `Gomoku(size, win_len)`; the source asserts `size >= win_len >= 3`. */
    constructor(size: nat, winLen: int)
      requires size >= winLen >= 3
      ensures Valid() && this.size == size && this.winLen == winLen
      ensures State() == Position(ZeroBoard(size), 1, None)
    {
      this.size := size;
      this.winLen := winLen;
      board := ZeroBoard(size);
      currentPlayer := 1;
      winner := None;
    }

    /** `reset`: an empty board, player 1 to move, no winner. */
    method Reset()
      requires Valid()
      modifies this
      ensures Valid() && State() == Position(ZeroBoard(size), 1, None)
    {
      board := ZeroBoard(size);
      currentPlayer := 1;
      winner := None;
    }

    /** `place(row, col)`. */
    method Place(row: int, col: int) returns (ok: bool)
      requires Valid()
      modifies this
      ensures Valid()
      ensures (State(), ok) == Placed(old(State()), size, winLen, row, col)
    {
      if winner.Some? {
        return false;
      }
      if !(0 <= row < size && 0 <= col < size) {
        return false;
      }
      if board[row][col] != 0 {
        return false;
      }
      board := board[row := board[row][col := currentPlayer]];
      var win := CheckWinFrom(row, col);
      if win {
        winner := Some(currentPlayer);
      } else {
        currentPlayer := if currentPlayer == 2 then 1 else 2;
      }
      return true;
    }

    /** `_check_win_from(row, col)`: the first direction whose count reaches `winLen` decides. */
    method CheckWinFrom(row: int, col: int) returns (win: bool)
      requires Valid() && InBounds(size, row, col)
      ensures win == WinsFrom(board, size, row, col, winLen)
    {
      for i := 0 to |Directions|
        invariant forall j :: 0 <= j < i ==> AxisCount(board, size, row, col, Directions[j].0, Directions[j].1) < winLen
      {
        var count := CountThrough(board, size, row, col, Directions[i].0, Directions[i].1);
        if count >= winLen {
          return true;
        }
      }
      return false;
    }

    /** `get_available_moves`. */
    method GetAvailableMoves() returns (moves: seq<Pos>)
      requires Valid()
      ensures moves == AvailableMoves(board, size)
    {
      moves := [];
      for r := 0 to size
        invariant moves == MatchingRows(board, size, 0, r)
      {
        for c := 0 to size
          invariant moves == MatchingRows(board, size, 0, r) + MatchingInRow(board, size, 0, r, c)
        {
          if board[r][c] == 0 {
            moves := moves + [(r, c)];
          }
        }
      }
    }

    /** `is_full`: no cell is zero, which is to say no move is available. */
    predicate IsFull()
      requires Valid()
      reads this
      ensures IsFull() <==> AvailableMoves(board, size) == []
    {
      FullIffNoMoves(board, size);
      forall r, c :: 0 <= r < size && 0 <= c < size ==> board[r][c] != 0
    }
  }

  /** The unit test of invalid placement: on a 5x5 board the first `place(0, 0)` succeeds, a second one and `place(10, 10)` fail. */
  lemma InvalidPlacementExample()
    ensures var s0 := Position(ZeroBoard(5), 1, None);
      var (s1, ok1) := Placed(s0, 5, 3, 0, 0);
      ok1 && !Placed(s1, 5, 3, 0, 0).1 && !Placed(s1, 5, 3, 10, 10).1
  {
    var s0 := Position(ZeroBoard(5), 1, None);
    var s1 := Placed(s0, 5, 3, 0, 0).0;
    assert s1.board[0][0] == 1;
  }
}
