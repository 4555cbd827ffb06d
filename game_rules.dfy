/**
 * The rules of gomoku_game.py as values: the state of a `GomokuGame` is a `Game`, and
 * every operation of the class has a function here that gives the state it produces.
 * The class in game_board.dfy is proved against these functions, and the search in
 * search_spec.dfy explores game trees built from them.
 */
module GameRules {
  import opened Common
  import opened Grid

  const BoardSize := 15
  const WinLength := 5

  datatype Player = Empty | Black | White | Red | Blue | Green

  /** The enum values of `Player`. */
  function PlayerValue(p: Player): int {
    match p
    case Empty => 0
    case Black => 1
    case White => 2
    case Red => 3
    case Blue => 4
    case Green => 5
  }

  datatype Status = Playing | BlackWins | WhiteWins | Draw

  datatype Move = Move(row: int, col: int, player: Player)

  type Board = seq<seq<Player>>

  /** Turn order of `Player.get_all_players`. */
  const AllPlayers: seq<Player> := [Black, White, Red, Blue, Green]

  /** The fields of a `GomokuGame`. */
  datatype Game = Game(
    numPlayers: int,
    players: seq<Player>,
    playerIndex: int,
    board: Board,
    currentPlayer: Player,
    history: seq<Move>,
    state: Status,
    winner: Option<Player>)

  predicate ValidGame(g: Game) {
    IsSquare(g.board, BoardSize) &&
    2 <= g.numPlayers <= 5 && g.players == AllPlayers[..g.numPlayers] &&
    0 <= g.playerIndex < |g.players|
  }

  function EmptyRow(): (row: seq<Player>)
    ensures |row| == BoardSize && forall j :: 0 <= j < BoardSize ==> row[j] == Empty
  {
    seq(BoardSize, _ => Empty)
  }

  function EmptyBoard(): (b: Board)
    ensures IsSquare(b, BoardSize)
    ensures forall i, j :: 0 <= i < BoardSize && 0 <= j < BoardSize ==> b[i][j] == Empty
  {
    seq(BoardSize, _ => EmptyRow())
  }

  /** `GomokuGame(num_players)`: `None` where the constructor raises `ValueError`. */
  function NewGame(numPlayers: int): (g: Option<Game>)
    ensures g.Some? <==> 2 <= numPlayers <= 5
    ensures g.Some? ==> (ValidGame(g.value) && g.value.playerIndex == 0 &&
      g.value.currentPlayer == Black && g.value.history == [] &&
      g.value.state == Playing && g.value.winner == None)
  {
    if numPlayers < 2 || numPlayers > 5 then None
    else
      var players := AllPlayers[..numPlayers];
      Some(Game(numPlayers, players, 0, EmptyBoard(), players[0], [], Playing, None))
  }

  /** `reset_game`: an empty board, the first player to move, no history and no winner. */
  function ResetGame(g: Game): Game
    requires ValidGame(g)
  {
    g.(board := EmptyBoard(), playerIndex := 0, currentPlayer := g.players[0], history := [],
       state := Playing, winner := None)
  }

  /** `is_valid_move`: on the board and empty. */
  predicate IsValidMove(b: Board, r: int, c: int)
    requires IsSquare(b, BoardSize)
  {
    InBounds(BoardSize, r, c) && b[r][c] == Empty
  }

  /** `check_win`: an empty cell never wins; otherwise some axis counts five or more. */
  predicate CheckWin(b: Board, r: int, c: int)
    requires IsSquare(b, BoardSize) && InBounds(BoardSize, r, c)
  {
    b[r][c] != Empty && WinsThrough(b, BoardSize, r, c, WinLength)
  }

  /** `check_win` agrees with a brute-force search for five in a row through the cell. */
  lemma CheckWinIffFiveInRow(b: Board, r: int, c: int)
    requires IsSquare(b, BoardSize) && InBounds(BoardSize, r, c)
    ensures CheckWin(b, r, c) <==> b[r][c] != Empty && RowOfThrough(b, BoardSize, r, c, WinLength)
  {
    WinsThroughIffRow(b, BoardSize, r, c, WinLength);
  }

  /** `is_board_full`. */
  predicate IsBoardFull(b: Board)
    requires IsSquare(b, BoardSize)
  {
    forall i, j :: 0 <= i < BoardSize && 0 <= j < BoardSize ==> b[i][j] != Empty
  }

  /** Game state reported for a win by `p`; players other than Black and White also report `BlackWins`. */
  function WinState(p: Player): Status {
    if p == Black then BlackWins else if p == White then WhiteWins else BlackWins
  }

  function Place(b: Board, r: int, c: int, p: Player): (b': Board)
    requires IsSquare(b, BoardSize) && InBounds(BoardSize, r, c)
    ensures IsSquare(b', BoardSize) && b'[r][c] == p
    ensures forall i, j :: 0 <= i < BoardSize && 0 <= j < BoardSize && (i != r || j != c) ==> b'[i][j] == b[i][j]
  {
    b[r := b[r][c := p]]
  }

  /**
   * `make_move`: the state afterwards and whether the move was made. A made move either
   * wins (the turn stays), fills the board (draw) or passes the turn on in rotation.
   */
  function MakeMove(g: Game, r: int, c: int): (res: (Game, bool))
    requires ValidGame(g)
    ensures ValidGame(res.0)
    ensures res.1 && res.0.state == Playing ==> res.0.currentPlayer == res.0.players[res.0.playerIndex]
  {
    if !IsValidMove(g.board, r, c) || g.state != Playing then (g, false)
    else
      var p := g.currentPlayer;
      var b := Place(g.board, r, c, p);
      var h := g.history + [Move(r, c, p)];
      if CheckWin(b, r, c) then
        (g.(board := b, history := h, winner := Some(p), state := WinState(p)), true)
      else if IsBoardFull(b) then
        (g.(board := b, history := h, state := Draw), true)
      else
        var i := (g.playerIndex + 1) % |g.players|;
        (g.(board := b, history := h, playerIndex := i, currentPlayer := g.players[i]), true)
  }

  /** A move is made exactly when it is valid and the game is still being played. */
  lemma MakeMoveAccepts(g: Game, r: int, c: int)
    requires ValidGame(g)
    ensures MakeMove(g, r, c).1 <==> IsValidMove(g.board, r, c) && g.state == Playing
    ensures !MakeMove(g, r, c).1 ==> MakeMove(g, r, c).0 == g
  {
  }

  /**
   * A made move writes the mover's stone into exactly the target cell, records exactly one
   * move, and then exactly one of three things happens: a win by the mover (turn kept),
   * a draw on a full board, or the turn passing to the next player in rotation.
   */
  lemma MakeMoveEffect(g: Game, r: int, c: int)
    requires ValidGame(g) && IsValidMove(g.board, r, c) && g.state == Playing
    ensures var g' := MakeMove(g, r, c).0;
      var p := g.currentPlayer;
      g'.board[r][c] == p &&
      (forall i, j :: 0 <= i < BoardSize && 0 <= j < BoardSize && (i != r || j != c) ==>
        g'.board[i][j] == g.board[i][j]) &&
      g'.history == g.history + [Move(r, c, p)] &&
      (CheckWin(g'.board, r, c) ==>
        g'.winner == Some(p) && g'.state == WinState(p) && g'.currentPlayer == p &&
        g'.playerIndex == g.playerIndex) &&
      (!CheckWin(g'.board, r, c) && IsBoardFull(g'.board) ==>
        g'.state == Draw && g'.winner == g.winner && g'.currentPlayer == p) &&
      (!CheckWin(g'.board, r, c) && !IsBoardFull(g'.board) ==>
        g'.state == Playing && g'.playerIndex == (g.playerIndex + 1) % g.numPlayers &&
        g'.currentPlayer == g.players[g'.playerIndex])
  {
  }

  /** How `undo_move` ends: it undid a move, found no history, or raised `IndexError` after the pop. */
  datatype UndoOutcome = Undone | NothingToUndo | IndexError

  /** A position Python accepts as an index into a row or column list of the board. */
  predicate Indexable(i: int) {
    -BoardSize <= i < BoardSize
  }

  /** The element Python's `board[i]` reaches: a negative position counts from the end. */
  function PyIndex(i: int): (k: int)
    requires Indexable(i)
    ensures 0 <= k < BoardSize && (k - i) % BoardSize == 0
  {
    if i < 0 then i + BoardSize else i
  }

  /**
   * `undo_move`: nothing to undo on an empty history; otherwise the last move is popped and
   * its cell cleared through Python's list indexing, so a negative coordinate from a loaded
   * record wraps to the far side and one outside `-15..14` raises `IndexError` after the pop,
   * leaving the rest of the game untouched. The player index is left as it was.
   */
  function UndoMove(g: Game): (res: (Game, UndoOutcome))
    requires ValidGame(g)
    ensures ValidGame(res.0)
    ensures res.1 == NothingToUndo <==> g.history == []
    ensures res.1 == NothingToUndo ==> res.0 == g
    ensures g.history != [] ==> var m := g.history[|g.history| - 1];
      res.0.history == g.history[..|g.history| - 1] &&
      (res.1 == IndexError <==> !(Indexable(m.row) && Indexable(m.col))) &&
      (res.1 == IndexError ==> res.0 == g.(history := res.0.history)) &&
      (res.1 == Undone ==>
        res.0.board[PyIndex(m.row)][PyIndex(m.col)] == Empty &&
        (forall i, j :: 0 <= i < BoardSize && 0 <= j < BoardSize && (i != PyIndex(m.row) || j != PyIndex(m.col)) ==>
          res.0.board[i][j] == g.board[i][j]) &&
        res.0.currentPlayer == m.player && res.0.state == Playing && res.0.winner == None &&
        res.0.playerIndex == g.playerIndex && res.0.players == g.players)
  {
    if g.history == [] then (g, NothingToUndo)
    else
      var m := g.history[|g.history| - 1];
      var popped := g.(history := g.history[..|g.history| - 1]);
      if !(Indexable(m.row) && Indexable(m.col)) then (popped, IndexError)
      else
        (popped.(board := Place(g.board, PyIndex(m.row), PyIndex(m.col), Empty),
                 currentPlayer := m.player, state := Playing, winner := None), Undone)
  }

  /** Undoing a move just made restores the board and the history, but not the turn rotation. */
  lemma UndoAfterMove(g: Game, r: int, c: int)
    requires ValidGame(g) && IsValidMove(g.board, r, c) && g.state == Playing
    ensures var g' := MakeMove(g, r, c).0;
      var u := UndoMove(g').0;
      UndoMove(g').1 == Undone && u.board == g.board && u.history == g.history && u.currentPlayer == g.currentPlayer &&
      u.state == Playing && u.winner == None && u.playerIndex == g'.playerIndex
  {
    var g' := MakeMove(g, r, c).0;
    var u := UndoMove(g').0;
    assert g'.history[|g'.history| - 1] == Move(r, c, g.currentPlayer);
    assert g'.history[..|g'.history| - 1] == g.history;
    forall i | 0 <= i < BoardSize ensures u.board[i] == g.board[i] {
      assert |u.board[i]| == |g.board[i]| == BoardSize;
      forall j | 0 <= j < BoardSize ensures u.board[i][j] == g.board[i][j] {
      }
    }
  }

  /**
   * `copy`: a fresh two-player game with player index 0 that takes over the board,
   * the current player, the history, the state and the winner, but not the rotation.
   */
  function CopyGame(g: Game): (c: Game)
    ensures ValidGame(c) || !IsSquare(g.board, BoardSize)
  {
    Game(2, AllPlayers[..2], 0, g.board, g.currentPlayer, g.history, g.state, g.winner)
  }

  /**
   * On a copy, every move that does not end the game hands the turn to White: the copy's
   * index 0 is advanced to 1 whoever moved.
   */
  lemma CopyThenMoveHandsTurnToWhite(g: Game, r: int, c: int)
    requires ValidGame(g)
    requires var res := MakeMove(CopyGame(g), r, c); res.1 && res.0.state == Playing
    ensures MakeMove(CopyGame(g), r, c).0.currentPlayer == White
    ensures MakeMove(CopyGame(g), r, c).0.playerIndex == 1
  {
  }

  /** `get_legal_moves`: the empty cells in row-major order. */
  function LegalMoves(b: Board): seq<Pos>
    requires IsSquare(b, BoardSize)
  {
    MatchingRows(b, BoardSize, Empty, BoardSize)
  }

  /** The legal moves are exactly the valid moves, each once, in row-major order; none on a full board. */
  lemma LegalMovesSpec(b: Board)
    requires IsSquare(b, BoardSize)
    ensures forall x :: x in LegalMoves(b) <==> IsValidMove(b, x.0, x.1)
    ensures RowMajorSorted(LegalMoves(b)) && Distinct(LegalMoves(b))
    ensures LegalMoves(b) == [] <==> IsBoardFull(b)
  {
    MatchingRowsSpec(b, BoardSize, Empty, BoardSize);
    var s := LegalMoves(b);
    if !IsBoardFull(b) {
      var i, j :| 0 <= i < BoardSize && 0 <= j < BoardSize && b[i][j] == Empty;
      assert (i, j) in s;
    }
    if s != [] {
      assert s[0] in s;
    }
  }

  /** The neighbour steps in the order `get_smart_moves` tries them (`dr`, then `dc`, skipping `(0, 0)`). */
  const Offsets: seq<(int, int)> := [(-1, -1), (-1, 0), (-1, 1), (0, -1), (0, 1), (1, -1), (1, 0), (1, 1)]

  /** Some stone lies at Chebyshev distance 1 from `(r, c)`. */
  predicate NearStone(b: Board, r: int, c: int)
    requires IsSquare(b, BoardSize)
  {
    exists k :: 0 <= k < |Offsets| &&
      InBounds(BoardSize, r - Offsets[k].0, c - Offsets[k].1) &&
      b[r - Offsets[k].0][c - Offsets[k].1] != Empty
  }

  /** The set `get_smart_moves` collects: empty cells next to some stone. */
  function NeighbourSet(b: Board): set<Pos>
    requires IsSquare(b, BoardSize)
  {
    set r, c | 0 <= r < BoardSize && 0 <= c < BoardSize && b[r][c] == Empty && NearStone(b, r, c) :: (r, c)
  }

  lemma NeighbourSetMember(b: Board, x: Pos)
    requires IsSquare(b, BoardSize)
    ensures x in NeighbourSet(b) <==>
      IsValidMove(b, x.0, x.1) && NearStone(b, x.0, x.1)
  {
    if IsValidMove(b, x.0, x.1) && NearStone(b, x.0, x.1) {
      assert x == (x.0, x.1);
    }
  }

  /** An order in which `list(set)` may enumerate a set. */
  type Arranger = set<Pos> -> seq<Pos>

  ghost predicate ListsSets(arrange: Arranger) {
    forall s :: IsListing(arrange(s), s)
  }

  /** Centre and its four orthogonal neighbours, offered before any move has been made. */
  const OpeningMoves: seq<Pos> := [(7, 7), (6, 7), (8, 7), (7, 6), (7, 8)]

  /**
   * `get_smart_moves(limit)`: the opening five while the history is empty; otherwise the
   * first `limit` elements of the neighbour set as `arrange` enumerates it.
   */
  function SmartMoves(g: Game, limit: nat, arrange: Arranger): seq<Pos>
    requires IsSquare(g.board, BoardSize)
  {
    if g.history == [] then OpeningMoves else Take(arrange(NeighbourSet(g.board)), limit)
  }

  /**
   * With a non-empty history, the smart moves are at most `limit` distinct valid moves,
   * each next to a stone.
   */
  lemma SmartMovesSpec(g: Game, limit: nat, arrange: Arranger)
    requires IsSquare(g.board, BoardSize) && ListsSets(arrange) && g.history != []
    ensures var s := SmartMoves(g, limit, arrange);
      |s| <= limit && Distinct(s) &&
      forall x :: x in s ==> IsValidMove(g.board, x.0, x.1) && NearStone(g.board, x.0, x.1)
  {
    var all := arrange(NeighbourSet(g.board));
    assert IsListing(all, NeighbourSet(g.board));
    TakeDistinct(all, limit);
    forall x | x in SmartMoves(g, limit, arrange)
      ensures IsValidMove(g.board, x.0, x.1) && NearStone(g.board, x.0, x.1)
    {
      assert x in all;
      var i :| 0 <= i < |all| && all[i] == x;
      assert x in (set i | 0 <= i < |all| :: all[i]);
      NeighbourSetMember(g.board, x);
    }
  }

  // ---------------------------------------------------------------------------------
  // Static evaluation
  // ---------------------------------------------------------------------------------

  /** The points `_evaluate_line` awards for `count` stones and `blocks` blocked ends. */
  function LineScore(count: int, blocks: int): int {
    if count >= 4 then 1000
    else if count == 3 then (if blocks == 0 then 100 else 10)
    else if count == 2 then (if blocks == 0 then 10 else 2)
    else if count == 1 then 1
    else 0
  }

  /** More stones never score less, and a blocked end never scores more. */
  lemma LineScoreMonotone(count: int, count': int, blocks: int, blocks': int)
    requires 0 <= count <= count' && 0 <= blocks' <= blocks
    ensures LineScore(count, blocks) <= LineScore(count', blocks')
    ensures LineScore(count, blocks) in {0, 1, 2, 10, 100, 1000}
  {
  }

  /** The first cell after the run of `p` from `(r, c)` along `(dr, dc)`. */
  function RunEnd(b: Board, r: int, c: int, dr: int, dc: int, p: Player): Pos
    requires IsSquare(b, BoardSize) && IsStep(dr, dc)
  {
    var k := Ray(b, BoardSize, r, c, dr, dc, p);
    (Along(r, dr, k), Along(c, dc, k))
  }

  /** One step of the walk: a cell holding `p` extends the run, any other cell ends it. */
  lemma RunStep(b: Board, r: int, c: int, dr: int, dc: int, p: Player)
    requires IsSquare(b, BoardSize) && IsStep(dr, dc)
    ensures Holds(b, BoardSize, r, c, p) ==>
      Ray(b, BoardSize, r, c, dr, dc, p) == 1 + Ray(b, BoardSize, r + dr, c + dc, dr, dc, p) &&
      RunEnd(b, r, c, dr, dc, p) == RunEnd(b, r + dr, c + dc, dr, dc, p)
    ensures !Holds(b, BoardSize, r, c, p) ==>
      Ray(b, BoardSize, r, c, dr, dc, p) == 0 && RunEnd(b, r, c, dr, dc, p) == (r, c)
  {
    var k := Ray(b, BoardSize, r, c, dr, dc, p);
    if k > 0 {
      AlongShift(r, dr, k);
      AlongShift(c, dc, k);
    }
  }

  /**
   * 1 when the run of `p` from `(r, c)` along `(dr, dc)` is stopped by a stone on the board,
   * 0 when it is stopped by an empty cell or by the edge.
   */
  function EndBlocked(b: Board, r: int, c: int, dr: int, dc: int, p: Player): int
    requires IsSquare(b, BoardSize) && IsStep(dr, dc)
  {
    var e := RunEnd(b, r, c, dr, dc, p);
    if InBounds(BoardSize, e.0, e.1) && b[e.0][e.1] != Empty then 1 else 0
  }

  /** What one walk of `_evaluate_line` yields: the stones counted and the blocked ends met. */
  datatype Run = Run(count: nat, blocked: int)

  /**
   * One walk of `_evaluate_line` from `(r, c)` along `(dr, dc)`: a stone of `p` is counted
   * and the walk goes on; a stone of the other colour blocks and stops it; an empty cell
   * or the edge stops it unblocked.
   */
  function Walk(b: Board, r: int, c: int, dr: int, dc: int, p: Player): Run
    requires IsSquare(b, BoardSize) && IsStep(dr, dc)
    decreases Room(BoardSize, r, c, dr, dc)
  {
    if !InBounds(BoardSize, r, c) then Run(0, 0)
    else if b[r][c] == p then
      var rest := Walk(b, r + dr, c + dc, dr, dc, p);
      Run(rest.count + 1, rest.blocked)
    else if b[r][c] != Empty then Run(0, 1)
    else Run(0, 0)
  }

  /** The walk counts exactly the run of `p` and reports whether a stone ends it. */
  lemma {:induction false} WalkMeasuresRun(b: Board, r: int, c: int, dr: int, dc: int, p: Player)
    requires IsSquare(b, BoardSize) && IsStep(dr, dc)
    ensures Walk(b, r, c, dr, dc, p) == Run(Ray(b, BoardSize, r, c, dr, dc, p), EndBlocked(b, r, c, dr, dc, p))
    decreases Room(BoardSize, r, c, dr, dc)
  {
    if Holds(b, BoardSize, r, c, p) {
      WalkMeasuresRun(b, r + dr, c + dc, dr, dc, p);
      WalkExtends(b, r, c, dr, dc, p);
    } else {
      WalkStops(b, r, c, dr, dc, p);
    }
  }

  lemma WalkExtends(b: Board, r: int, c: int, dr: int, dc: int, p: Player)
    requires IsSquare(b, BoardSize) && IsStep(dr, dc) && Holds(b, BoardSize, r, c, p)
    requires Walk(b, r + dr, c + dc, dr, dc, p) ==
      Run(Ray(b, BoardSize, r + dr, c + dc, dr, dc, p), EndBlocked(b, r + dr, c + dc, dr, dc, p))
    ensures Walk(b, r, c, dr, dc, p) == Run(Ray(b, BoardSize, r, c, dr, dc, p), EndBlocked(b, r, c, dr, dc, p))
  {
    RunStep(b, r, c, dr, dc, p);
  }

  lemma WalkStops(b: Board, r: int, c: int, dr: int, dc: int, p: Player)
    requires IsSquare(b, BoardSize) && IsStep(dr, dc) && !Holds(b, BoardSize, r, c, p)
    ensures Walk(b, r, c, dr, dc, p) == Run(Ray(b, BoardSize, r, c, dr, dc, p), EndBlocked(b, r, c, dr, dc, p))
  {
    RunStep(b, r, c, dr, dc, p);
  }

  /** `_evaluate_line`: both walks away from `(r, c)`, then the score of their totals. */
  function EvaluateLine(b: Board, r: int, c: int, dr: int, dc: int, p: Player): int
    requires IsSquare(b, BoardSize) && IsStep(dr, dc)
  {
    var ahead, behind := Walk(b, r + dr, c + dc, dr, dc, p), Walk(b, r - dr, c - dc, -dr, -dc, p);
    LineScore(ahead.count + behind.count, ahead.blocked + behind.blocked)
  }

  /** Only an on-board stone blocks: a run that ends at the edge of the board is open on that side. */
  lemma EdgeDoesNotBlock(b: Board, r: int, c: int, dr: int, dc: int, p: Player)
    requires IsSquare(b, BoardSize) && IsStep(dr, dc)
    ensures var k := Ray(b, BoardSize, r, c, dr, dc, p);
      EndBlocked(b, r, c, dr, dc, p) == 1 <==>
        InBounds(BoardSize, Along(r, dr, k), Along(c, dc, k)) &&
        b[Along(r, dr, k)][Along(c, dc, k)] != Empty &&
        b[Along(r, dr, k)][Along(c, dc, k)] != p
  {
    RayCells(b, BoardSize, r, c, dr, dc, p);
  }

  /** Sum of the line scores along the first `k` of the four axes. */
  function AxesScore(b: Board, r: int, c: int, p: Player, k: nat): int
    requires IsSquare(b, BoardSize) && k <= |Axes|
  {
    if k == 0 then 0 else AxesScore(b, r, c, p, k - 1) + EvaluateLine(b, r, c, Axes[k - 1].0, Axes[k - 1].1, p)
  }

  /** `_evaluate_position_potential`: nothing for an occupied cell, else the four axes' line scores. */
  function Potential(b: Board, r: int, c: int, p: Player): int
    requires IsSquare(b, BoardSize) && InBounds(BoardSize, r, c)
  {
    if b[r][c] != Empty then 0 else AxesScore(b, r, c, p, |Axes|)
  }

  lemma {:induction false} AxesScoreBounds(b: Board, r: int, c: int, p: Player, k: nat)
    requires IsSquare(b, BoardSize) && k <= |Axes|
    ensures 0 <= AxesScore(b, r, c, p, k) <= 1000 * k
  {
    if k > 0 {
      AxesScoreBounds(b, r, c, p, k - 1);
    }
  }

  /** A cell's potential is between 0 and four winning lines' worth. */
  lemma PotentialBounds(b: Board, r: int, c: int, p: Player)
    requires IsSquare(b, BoardSize) && InBounds(BoardSize, r, c)
    ensures 0 <= Potential(b, r, c, p) <= 4000
  {
    AxesScoreBounds(b, r, c, p, |Axes|);
  }

  /** `evaluate_position` weighs the player against Black, or against White when the player is Black. */
  function Opponent(p: Player): Player {
    if p == Black then White else Black
  }

  /** What the cell `(r, c)` adds to the score of `p` against `q`. */
  function CellScore(b: Board, r: int, c: int, p: Player, q: Player): int
    requires IsSquare(b, BoardSize) && InBounds(BoardSize, r, c)
  {
    if b[r][c] == Empty then Potential(b, r, c, p) - Potential(b, r, c, q) else 0
  }

  /** Sum of `CellScore` over the cells `(row, j)`, `j < col`. */
  function RowScore(b: Board, row: nat, col: nat, p: Player, q: Player): int
    requires IsSquare(b, BoardSize) && row < BoardSize && col <= BoardSize
  {
    if col == 0 then 0 else RowScore(b, row, col - 1, p, q) + CellScore(b, row, col - 1, p, q)
  }

  /** Sum of `CellScore` over the rows `0 .. row - 1`. */
  function RowsScore(b: Board, row: nat, p: Player, q: Player): int
    requires IsSquare(b, BoardSize) && row <= BoardSize
  {
    if row == 0 then 0 else RowsScore(b, row - 1, p, q) + RowScore(b, row - 1, BoardSize, p, q)
  }

  /** `evaluate_position(player)`. */
  function EvaluatePosition(g: Game, p: Player): int
    requires IsSquare(g.board, BoardSize)
  {
    match g.state
    case BlackWins => if p == Black then 10000 else -10000
    case WhiteWins => if p == White then 10000 else -10000
    case Draw => 0
    case Playing => RowsScore(g.board, BoardSize, p, Opponent(p))
  }

  /** Largest absolute value of a static evaluation: 225 cells of at most 4000 points. */
  const EvalBound := 900000

  lemma {:induction false} RowScoreBounds(b: Board, row: nat, col: nat, p: Player, q: Player)
    requires IsSquare(b, BoardSize) && row < BoardSize && col <= BoardSize
    ensures -4000 * col <= RowScore(b, row, col, p, q) <= 4000 * col
  {
    if col > 0 {
      RowScoreBounds(b, row, col - 1, p, q);
      PotentialBounds(b, row, col - 1, p);
      PotentialBounds(b, row, col - 1, q);
    }
  }

  lemma {:induction false} RowsScoreBounds(b: Board, row: nat, p: Player, q: Player)
    requires IsSquare(b, BoardSize) && row <= BoardSize
    ensures -60000 * row <= RowsScore(b, row, p, q) <= 60000 * row
  {
    if row > 0 {
      RowsScoreBounds(b, row - 1, p, q);
      RowScoreBounds(b, row - 1, BoardSize, p, q);
    }
  }

  /** Every static evaluation lies within `EvalBound` of zero. */
  lemma EvaluationBounded(g: Game, p: Player)
    requires IsSquare(g.board, BoardSize)
    ensures -EvalBound <= EvaluatePosition(g, p) <= EvalBound
  {
    RowsScoreBounds(g.board, BoardSize, p, Opponent(p));
  }

  lemma {:induction false} RowScoreAntisymmetric(b: Board, row: nat, col: nat, p: Player, q: Player)
    requires IsSquare(b, BoardSize) && row < BoardSize && col <= BoardSize
    ensures RowScore(b, row, col, p, q) == -RowScore(b, row, col, q, p)
  {
    if col > 0 {
      RowScoreAntisymmetric(b, row, col - 1, p, q);
    }
  }

  lemma {:induction false} RowsScoreAntisymmetric(b: Board, row: nat, p: Player, q: Player)
    requires IsSquare(b, BoardSize) && row <= BoardSize
    ensures RowsScore(b, row, p, q) == -RowsScore(b, row, q, p)
  {
    if row > 0 {
      RowsScoreAntisymmetric(b, row - 1, p, q);
      RowScoreAntisymmetric(b, row - 1, BoardSize, p, q);
    }
  }

  /** The evaluation is zero-sum between Black and White on every board and in every state. */
  lemma EvaluationZeroSum(g: Game)
    requires IsSquare(g.board, BoardSize)
    ensures EvaluatePosition(g, Black) == -EvaluatePosition(g, White)
  {
    RowsScoreAntisymmetric(g.board, BoardSize, Black, White);
  }
}
