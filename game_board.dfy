/**
 * The `GomokuGame` class of gomoku_game.py: its fields are updated in place by
 * `MakeMove`, `UndoMove` and `ResetGame`, and its scans are the source's loops. Every
 * method is proved to produce what the matching function of `GameRules` describes.
 */
module GameBoard {
  import opened Common
  import opened Grid
  import opened GameRules

  class GomokuGame {
    var numPlayers: int
    var players: seq<Player>
    var playerIndex: int
    var board: seq<seq<Player>>
    var currentPlayer: Player
    var history: seq<Move>
    var state: Status
    var winner: Option<Player>

    /** The fields as a value. */
    function Snapshot(): Game
      reads this
    {
      Game(numPlayers, players, playerIndex, board, currentPlayer, history, state, winner)
    }

    ghost predicate Valid()
      reads this
    {
      ValidGame(Snapshot())
    }

    constructor(numPlayers: int)
      requires 2 <= numPlayers <= 5
      ensures Valid() && Snapshot() == NewGame(numPlayers).value
    {
      this.numPlayers := numPlayers;
      players := AllPlayers[..numPlayers];
      playerIndex := 0;
      board := EmptyBoard();
      currentPlayer := AllPlayers[0];
      history := [];
      state := Playing;
      winner := None;
    }

    /** `GomokuGame(num_players)`: `null` where the constructor raises `ValueError`. */
    static method Create(numPlayers: int) returns (g: GomokuGame?)
      ensures g != null <==> 2 <= numPlayers <= 5
      ensures g != null ==> fresh(g) && g.Valid() && g.Snapshot() == NewGame(numPlayers).value
    {
      if numPlayers < 2 || numPlayers > 5 {
        return null;
      }
      g := new GomokuGame(numPlayers);
    }

    /** `reset_game`. */
    method ResetGame()
      requires Valid()
      modifies this
      ensures Valid() && Snapshot() == GameRules.ResetGame(old(Snapshot()))
    {
      board := EmptyBoard();
      playerIndex := 0;
      currentPlayer := players[0];
      history := [];
      state := Playing;
      winner := None;
    }

    /** `make_move`: proved to do what `GameRules.MakeMove` describes. */
    method MakeMove(row: int, col: int) returns (ok: bool)
      requires Valid()
      modifies this
      ensures Valid()
      ensures (Snapshot(), ok) == GameRules.MakeMove(old(Snapshot()), row, col)
      ensures ok <==> IsValidMove(old(board), row, col) && old(state) == Playing
    {
      if !IsValidMove(board, row, col) || state != Playing {
        return false;
      }
      board := board[row := board[row][col := currentPlayer]];
      history := history + [Move(row, col, currentPlayer)];
      var won := CheckWin(row, col);
      if won {
        winner := Some(currentPlayer);
        if currentPlayer == Black {
          state := BlackWins;
        } else if currentPlayer == White {
          state := WhiteWins;
        } else {
          state := BlackWins;
        }
      } else {
        var full := IsBoardFull();
        if full {
          state := Draw;
        } else {
          playerIndex := (playerIndex + 1) % |players|;
          currentPlayer := players[playerIndex];
        }
      }
      return true;
    }

    /** `undo_move`: proved to do what `GameRules.UndoMove` describes. */
    method UndoMove() returns (outcome: UndoOutcome)
      requires Valid()
      modifies this
      ensures Valid()
      ensures (Snapshot(), outcome) == GameRules.UndoMove(old(Snapshot()))
    {
      if history == [] {
        return NothingToUndo;
      }
      var last := history[|history| - 1];
      history := history[..|history| - 1];
      if !(Indexable(last.row) && Indexable(last.col)) {
        return IndexError;
      }
      var r, c := PyIndex(last.row), PyIndex(last.col);
      board := board[r := board[r][c := Empty]];
      currentPlayer := last.player;
      state := Playing;
      winner := None;
      return Undone;
    }

    /** `check_win`: walks both ways along each axis, counting the cell's colour. */
    method CheckWin(row: int, col: int) returns (win: bool)
      requires IsSquare(board, BoardSize) && InBounds(BoardSize, row, col)
      ensures win == GameRules.CheckWin(board, row, col)
    {
      var player := board[row][col];
      if player == Empty {
        return false;
      }
      for i := 0 to |Axes|
        invariant forall j :: 0 <= j < i ==> AxisCount(board, BoardSize, row, col, Axes[j].0, Axes[j].1) < WinLength
      {
        var count := CountAxis(row, col, Axes[i].0, Axes[i].1);
        if count >= WinLength {
          return true;
        }
      }
      return false;
    }

    /** The two walks of `check_win` along one axis: the cell plus the stones of its colour both ways. */
    method CountAxis(row: int, col: int, dr: int, dc: int) returns (count: nat)
      requires IsSquare(board, BoardSize) && InBounds(BoardSize, row, col) && IsStep(dr, dc)
      ensures count == AxisCount(board, BoardSize, row, col, dr, dc)
    {
      var player := board[row][col];
      count := CountOn(1, row + dr, col + dc, dr, dc, player);
      count := CountOn(count, row - dr, col - dc, -dr, -dc, player);
    }

    /** One walk of `check_win`: adds to `count` each stone of `player` met from `(r, c)` along `(dr, dc)`. */
    method CountOn(count: nat, r: int, c: int, dr: int, dc: int, player: Player) returns (count': nat)
      requires IsSquare(board, BoardSize) && IsStep(dr, dc)
      ensures count' == count + Ray(board, BoardSize, r, c, dr, dc, player)
    {
      count' := count;
      var r', c' := r, c;
      while InBounds(BoardSize, r', c') && board[r'][c'] == player
        invariant count' - count + Ray(board, BoardSize, r', c', dr, dc, player) == Ray(board, BoardSize, r, c, dr, dc, player)
        decreases Room(BoardSize, r', c', dr, dc)
      {
        count' := count' + 1;
        r', c' := r' + dr, c' + dc;
      }
    }

    /** `is_board_full`: stops at the first empty cell. */
    method IsBoardFull() returns (full: bool)
      requires IsSquare(board, BoardSize)
      ensures full == GameRules.IsBoardFull(board)
    {
      for i := 0 to BoardSize
        invariant forall i', j :: 0 <= i' < i && 0 <= j < BoardSize ==> board[i'][j] != Empty
      {
        for j := 0 to BoardSize
          invariant forall j' :: 0 <= j' < j ==> board[i][j'] != Empty
        {
          if board[i][j] == Empty {
            return false;
          }
        }
      }
      return true;
    }

    /** `get_legal_moves`: the empty cells, row by row. */
    method GetLegalMoves() returns (moves: seq<Pos>)
      requires IsSquare(board, BoardSize)
      ensures moves == LegalMoves(board)
    {
      moves := [];
      for row := 0 to BoardSize
        invariant moves == MatchingRows(board, BoardSize, Empty, row)
      {
        for col := 0 to BoardSize
          invariant moves == MatchingRows(board, BoardSize, Empty, row) + MatchingInRow(board, BoardSize, Empty, row, col)
        {
          if board[row][col] == Empty {
            moves := moves + [(row, col)];
          }
        }
      }
    }

    /** `get_smart_moves(limit)`; `arrange` is the order in which the set is turned into a list. */
    method GetSmartMoves(limit: nat, arrange: Arranger) returns (moves: seq<Pos>)
      requires IsSquare(board, BoardSize)
      ensures moves == SmartMoves(Snapshot(), limit, arrange)
    {
      if history == [] {
        return OpeningMoves;
      }
      var candidates: set<Pos> := {};
      for row := 0 to BoardSize
        invariant forall x :: x in candidates <==> SeenBefore(board, x, row, 0)
      {
        for col := 0 to BoardSize
          invariant forall x :: x in candidates <==> SeenBefore(board, x, row, col)
        {
          if board[row][col] != Empty {
            for k := 0 to |Offsets|
              invariant forall x :: x in candidates <==>
                SeenBefore(board, x, row, col) || AddedFrom(board, x, row, col, k)
            {
              var (dr, dc) := Offsets[k];
              var newRow, newCol := row + dr, col + dc;
              if 0 <= newRow < BoardSize && 0 <= newCol < BoardSize && board[newRow][newCol] == Empty {
                candidates := candidates + {(newRow, newCol)};
              }
            }
          }
          SeenStep(board, row, col);
        }
        SeenNextRow(board, row);
      }
      forall x ensures x in candidates <==> x in NeighbourSet(board) {
        SeenAll(board, x);
        NeighbourSetMember(board, x);
      }
      assert candidates == NeighbourSet(board);
      moves := arrange(candidates);
      moves := if |moves| > limit then moves[..limit] else moves;
    }

    /**
     * One of the two walks of `_evaluate_line`: the stones of `player` met from `(r, c)`
     * along `(dr, dc)`, and 1 when the walk stopped at a stone of another colour.
     */
    method WalkLine(r: int, c: int, dr: int, dc: int, player: Player) returns (count: nat, blocks: int)
      requires IsSquare(board, BoardSize) && IsStep(dr, dc)
      ensures Run(count, blocks) == Walk(board, r, c, dr, dc, player)
    {
      count, blocks := 0, 0;
      var r', c' := r, c;
      while InBounds(BoardSize, r', c')
        invariant count + Walk(board, r', c', dr, dc, player).count == Walk(board, r, c, dr, dc, player).count
        invariant Walk(board, r', c', dr, dc, player).blocked == Walk(board, r, c, dr, dc, player).blocked
        invariant blocks == 0
        decreases Room(BoardSize, r', c', dr, dc)
      {
        if board[r'][c'] == player {
          count := count + 1;
        } else if board[r'][c'] != Empty {
          blocks := blocks + 1;
          return;
        } else {
          return;
        }
        r', c' := r' + dr, c' + dc;
      }
    }

    /** `_evaluate_line`: walks the run both ways, then scores the total count and blocked ends. */
    method EvaluateLine(row: int, col: int, dr: int, dc: int, player: Player) returns (score: int)
      requires IsSquare(board, BoardSize) && IsStep(dr, dc)
      ensures score == GameRules.EvaluateLine(board, row, col, dr, dc, player)
    {
      var ahead, blockedAhead := WalkLine(row + dr, col + dc, dr, dc, player);
      var behind, blockedBehind := WalkLine(row - dr, col - dc, -dr, -dc, player);
      score := LineScore(ahead + behind, blockedAhead + blockedBehind);
    }

    /** `_evaluate_position_potential`. */
    method Potential(row: int, col: int, player: Player) returns (total: int)
      requires IsSquare(board, BoardSize) && InBounds(BoardSize, row, col)
      ensures total == GameRules.Potential(board, row, col, player)
    {
      if board[row][col] != Empty {
        return 0;
      }
      total := 0;
      for i := 0 to |Axes|
        invariant total == AxesScore(board, row, col, player, i)
      {
        var (dr, dc) := Axes[i];
        var lineScore := EvaluateLine(row, col, dr, dc, player);
        total := total + lineScore;
      }
    }

    /** `evaluate_position(player)`. */
    method EvaluatePosition(player: Player) returns (score: int)
      requires IsSquare(board, BoardSize)
      ensures score == GameRules.EvaluatePosition(Snapshot(), player)
    {
      if state == BlackWins {
        return if player == Black then 10000 else -10000;
      } else if state == WhiteWins {
        return if player == White then 10000 else -10000;
      } else if state == Draw {
        return 0;
      }
      score := 0;
      var opponent := if player == Black then White else Black;
      for row := 0 to BoardSize
        invariant score == RowsScore(board, row, player, opponent)
      {
        for col := 0 to BoardSize
          invariant score == RowsScore(board, row, player, opponent) + RowScore(board, row, col, player, opponent)
        {
          if board[row][col] == Empty {
            var mine := Potential(row, col, player);
            var theirs := Potential(row, col, opponent);
            score := score + mine;
            score := score - theirs;
          }
        }
      }
    }

    /** `copy`: a fresh two-player game carrying over board, turn, history, state and winner. */
    method Copy() returns (g: GomokuGame)
      requires Valid()
      ensures fresh(g) && g.Valid() && g.Snapshot() == CopyGame(Snapshot())
    {
      g := new GomokuGame(2);
      g.board := board;
      g.currentPlayer := currentPlayer;
      g.history := history;
      g.state := state;
      g.winner := winner;
    }
  }

  // ---------------------------------------------------------------------------------
  // Loop invariants of `get_smart_moves`
  // ---------------------------------------------------------------------------------

  /** The stone `k` steps of `Offsets` behind `x` was scanned before `(row, col)`. */
  ghost predicate StoneBefore(b: Board, x: Pos, k: int, row: int, col: int)
    requires IsSquare(b, BoardSize) && 0 <= k < |Offsets|
  {
    var s := (x.0 - Offsets[k].0, x.1 - Offsets[k].1);
    InBounds(BoardSize, s.0, s.1) && b[s.0][s.1] != Empty && RowMajorBefore(s, (row, col))
  }

  /** `x` has been collected once the scan has reached `(row, col)`. */
  ghost predicate SeenBefore(b: Board, x: Pos, row: int, col: int)
    requires IsSquare(b, BoardSize)
  {
    IsValidMove(b, x.0, x.1) && exists k :: 0 <= k < |Offsets| && StoneBefore(b, x, k, row, col)
  }

  /** `x` is one of the first `k` neighbours tried from the stone at `(row, col)`. */
  ghost predicate AddedFrom(b: Board, x: Pos, row: int, col: int, k: int)
    requires IsSquare(b, BoardSize) && InBounds(BoardSize, row, col)
  {
    b[row][col] != Empty && IsValidMove(b, x.0, x.1) &&
    exists j :: 0 <= j < k && j < |Offsets| && x == (row + Offsets[j].0, col + Offsets[j].1)
  }

  lemma SeenStep(b: Board, row: int, col: int)
    requires IsSquare(b, BoardSize) && InBounds(BoardSize, row, col)
    ensures forall x :: SeenBefore(b, x, row, col + 1) <==>
      SeenBefore(b, x, row, col) || AddedFrom(b, x, row, col, |Offsets|)
  {
    forall x ensures SeenBefore(b, x, row, col + 1) <==>
      SeenBefore(b, x, row, col) || AddedFrom(b, x, row, col, |Offsets|)
    {
      SeenStepAt(b, row, col, x);
    }
  }

  /** `SeenStep` for one square `x`. */
  lemma SeenStepAt(b: Board, row: int, col: int, x: Pos)
    requires IsSquare(b, BoardSize) && InBounds(BoardSize, row, col)
    ensures SeenBefore(b, x, row, col + 1) <==> SeenBefore(b, x, row, col) || AddedFrom(b, x, row, col, |Offsets|)
  {
    if SeenBefore(b, x, row, col + 1) && !SeenBefore(b, x, row, col) {
      var k :| 0 <= k < |Offsets| && StoneBefore(b, x, k, row, col + 1);
      assert !StoneBefore(b, x, k, row, col);
      assert x == (row + Offsets[k].0, col + Offsets[k].1);
    }
    if AddedFrom(b, x, row, col, |Offsets|) {
      var j :| 0 <= j < |Offsets| && x == (row + Offsets[j].0, col + Offsets[j].1);
      assert StoneBefore(b, x, j, row, col + 1);
    }
    if SeenBefore(b, x, row, col) {
      var k :| 0 <= k < |Offsets| && StoneBefore(b, x, k, row, col);
      assert StoneBefore(b, x, k, row, col + 1);
    }
  }

  lemma SeenNextRow(b: Board, row: int)
    requires IsSquare(b, BoardSize)
    ensures forall x :: SeenBefore(b, x, row, BoardSize) <==> SeenBefore(b, x, row + 1, 0)
  {
    forall x ensures SeenBefore(b, x, row, BoardSize) <==> SeenBefore(b, x, row + 1, 0) {
      if SeenBefore(b, x, row, BoardSize) {
        var k :| 0 <= k < |Offsets| && StoneBefore(b, x, k, row, BoardSize);
        assert StoneBefore(b, x, k, row + 1, 0);
      }
      if SeenBefore(b, x, row + 1, 0) {
        var k :| 0 <= k < |Offsets| && StoneBefore(b, x, k, row + 1, 0);
        assert StoneBefore(b, x, k, row, BoardSize);
      }
    }
  }

  lemma SeenAll(b: Board, x: Pos)
    requires IsSquare(b, BoardSize)
    ensures SeenBefore(b, x, BoardSize, 0) <==> IsValidMove(b, x.0, x.1) && NearStone(b, x.0, x.1)
  {
    if IsValidMove(b, x.0, x.1) && NearStone(b, x.0, x.1) {
      var k :| 0 <= k < |Offsets| &&
        InBounds(BoardSize, x.0 - Offsets[k].0, x.1 - Offsets[k].1) &&
        b[x.0 - Offsets[k].0][x.1 - Offsets[k].1] != Empty;
      assert StoneBefore(b, x, k, BoardSize, 0);
    }
  }
}
