/**
 * The `AIPlayer` class of ai_player.py. Its search statistics are fields updated in place,
 * the wall clock is read through the `expired` oracle of `Env` (one reading per check,
 * counted by `clock`), and every method is proved to compute what the functions of
 * `SearchSpec` and `RootSpec` describe.
 */
module Ai {
  import opened Common
  import opened Grid
  import opened GameRules
  import opened GameBoard
  import opened SearchSpec
  import opened RootSpec

  /**
   * One of the two capped walks of `_find_critical_blocks`: the stones of `p` met from
   * `(r, c)` along `(dr, dc)`, at most five, and 1 when the walk stopped at an empty cell.
   */
  method CappedWalk(b: Board, r: int, c: int, dr: int, dc: int, p: Player) returns (count: nat, open: nat)
    requires IsSquare(b, BoardSize) && IsStep(dr, dc)
    ensures Walked(count, open) == CappedScan(b, r, c, dr, dc, p, 0)
  {
    count, open := 0, 0;
    var r', c' := r, c;
    while InBounds(BoardSize, r', c') && count < 5
      invariant count <= 5 && open == 0
      invariant CappedScan(b, r', c', dr, dc, p, count) == CappedScan(b, r, c, dr, dc, p, 0)
      decreases 5 - count
    {
      if b[r'][c'] == p {
        count := count + 1;
      } else if b[r'][c'] == Empty {
        open := open + 1;
        break;
      } else {
        break;
      }
      r', c' := r' + dr, c' + dc;
    }
  }

  /** Both capped walks of `_find_critical_blocks` along one axis through `(row, col)`. */
  method Tally(b: Board, row: int, col: int, dr: int, dc: int, p: Player) returns (count: nat, openEnds: nat)
    requires IsSquare(b, BoardSize) && IsStep(dr, dc)
    ensures Walked(count, openEnds) == AxisTally(b, row, col, p, dr, dc)
  {
    var ahead, openAhead := CappedWalk(b, row + dr, col + dc, dr, dc, p);
    var behind, openBehind := CappedWalk(b, row - dr, col - dc, -dr, -dc, p);
    count, openEnds := ahead + behind, openAhead + openBehind;
  }

  /** One direction of the scan: tally its two walks and raise the flag the tally calls for. */
  method ScanAxis(b: Board, m: Pos, k: nat, p: Player, four: bool, openThree: bool, three: bool)
    returns (four': bool, openThree': bool, three': bool)
    requires IsSquare(b, BoardSize) && k < |Axes| && !four
    requires Flags(four, openThree, three) == ScanAxes(b, m, p, k)
    ensures Flags(four', openThree', three') == ScanAxes(b, m, p, k + 1)
  {
    var count, openEnds := Tally(b, m.0, m.1, Axes[k].0, Axes[k].1, p);
    ScanAxesStep(b, m, p, k);
    four', openThree', three' := four, openThree, three;
    if count >= 4 {
      four' := true;
    } else if count == 3 && openEnds == 2 {
      openThree' := true;
    } else if count == 3 && openEnds >= 1 {
      three' := true;
    }
  }

  class AIPlayer {
    const player: Player
    const opponent: Player
    const difficulty: string
    const settings: Settings
    var nodesEvaluated: nat
    var pruningCount: nat
    var maxDepthReached: int
    var nodesByDepth: map<int, nat>
    var currentSearchDepth: int
    /** Readings of the wall clock taken so far. */
    var clock: nat

    /** The statistics fields as a value. */
    function Counters(): Stats
      reads this
    {
      Stats(nodesEvaluated, pruningCount, maxDepthReached, nodesByDepth, currentSearchDepth, clock)
    }

    ghost predicate Valid() {
      TierSettings(difficulty) == Some(settings) && opponent == Opponent(player)
    }

    constructor(player: Player, difficulty: string)
      requires TierSettings(difficulty).Some?
      ensures Valid() && this.player == player && this.difficulty == difficulty
      ensures Counters() == Stats(0, 0, 0, map[], 0, 0)
    {
      this.player := player;
      opponent := if player == Black then White else Black;
      this.difficulty := difficulty;
      settings := TierSettings(difficulty).value;
      nodesEvaluated := 0;
      pruningCount := 0;
      maxDepthReached := 0;
      nodesByDepth := map[];
      currentSearchDepth := 0;
      clock := 0;
    }

    /** `AIPlayer(player, difficulty)`: `null` where the constructor raises `ValueError`. */
    static method Create(player: Player, difficulty: string) returns (ai: AIPlayer?)
      ensures ai != null <==> difficulty in Tiers
      ensures ai != null ==> fresh(ai) && ai.Valid() && ai.player == player && ai.difficulty == difficulty
    {
      TiersStrictlyIncrease(difficulty);
      if difficulty != "easy" && difficulty != "medium" && difficulty != "hard" && difficulty != "expert" {
        return null;
      }
      ai := new AIPlayer(player, difficulty);
    }

    /** Reads the wall clock: whether the time limit has passed. */
    method TimeUp(env: Env) returns (up: bool)
      modifies this
      ensures up == env.expired(old(clock)) && clock == old(clock) + 1
      ensures Counters() == old(Counters()).(clock := old(clock) + 1)
    {
      up := env.expired(clock);
      clock := clock + 1;
    }

    /** `_minimax(game, depth, alpha, beta, maximizing, current_depth = ply)`. */
    method Minimax(env: Env, game: GomokuGame, depth: nat, alpha: int, beta: int, maximizing: bool, ply: int)
      returns (o: Outcome)
      requires Valid() && env.me == player && game.Valid()
      modifies this
      ensures (o, Counters()) == AlphaBeta(env, game.Snapshot(), depth, alpha, beta, maximizing, ply, old(Counters()))
      decreases depth, 1
    {
      ghost var g := game.Snapshot();
      nodesEvaluated := nodesEvaluated + 1;
      var level := currentSearchDepth - depth + ply;
      maxDepthReached := Max(maxDepthReached, level);
      if level !in nodesByDepth {
        nodesByDepth := nodesByDepth[level := 0];
      }
      nodesByDepth := nodesByDepth[level := nodesByDepth[level] + 1];
      assert Counters() == Visit(old(Counters()), level);
      var up := TimeUp(env);
      if up {
        return TimedOut;
      }
      if depth == 0 || game.state != Playing {
        var score := game.EvaluatePosition(player);
        return Done(score);
      }
      var cs := game.GetSmartMoves(if depth > 2 then 40 else 30, env.arrange);
      if cs == [] {
        var score := game.EvaluatePosition(player);
        return Done(score);
      }
      if maximizing {
        o := MaxSearch(env, game, cs, depth, alpha, beta, ply);
      } else {
        o := MinSearch(env, game, cs, depth, alpha, beta, ply);
      }
    }

    /** The maximizing branch of `_minimax`: raises `alpha` and keeps `max_eval`. */
    method MaxSearch(env: Env, game: GomokuGame, cs: seq<Pos>, depth: nat, alpha: int, beta: int, ply: int)
      returns (o: Outcome)
      requires Valid() && env.me == player && game.Valid() && depth >= 1
      modifies this
      ensures (o, Counters()) == MaxLoop(env, game.Snapshot(), cs, 0, depth, alpha, beta, NegInf, ply, old(Counters()))
      decreases depth, 0
    {
      ghost var g := game.Snapshot();
      var best, alpha' := NegInf, alpha;
      for i := 0 to |cs|
        invariant game.Snapshot() == g
        invariant MaxLoop(env, g, cs, 0, depth, alpha, beta, NegInf, ply, old(Counters())) ==
                  MaxLoop(env, g, cs, i, depth, alpha', beta, best, ply, Counters())
      {
        ghost var before := Counters();
        var score := SearchChild(env, game, cs[i], depth - 1, alpha', beta, false, ply + 1);
        MaxLoopStep(env, g, cs, i, depth, alpha', beta, best, ply, before, score, Counters());
        if score.TimedOut? {
          return TimedOut;
        }
        best := Max(best, score.score);
        alpha' := Max(alpha', score.score);
        if beta <= alpha' {
          pruningCount := pruningCount + 1;
          return Done(best);
        }
      }
      return Done(best);
    }

    /** The minimizing branch of `_minimax`: lowers `beta` and keeps `min_eval`. */
    method MinSearch(env: Env, game: GomokuGame, cs: seq<Pos>, depth: nat, alpha: int, beta: int, ply: int)
      returns (o: Outcome)
      requires Valid() && env.me == player && game.Valid() && depth >= 1
      modifies this
      ensures (o, Counters()) == MinLoop(env, game.Snapshot(), cs, 0, depth, alpha, beta, PosInf, ply, old(Counters()))
      decreases depth, 0
    {
      ghost var g := game.Snapshot();
      var best, beta' := PosInf, beta;
      for i := 0 to |cs|
        invariant game.Snapshot() == g
        invariant MinLoop(env, g, cs, 0, depth, alpha, beta, PosInf, ply, old(Counters())) ==
                  MinLoop(env, g, cs, i, depth, alpha, beta', best, ply, Counters())
      {
        ghost var before := Counters();
        var score := SearchChild(env, game, cs[i], depth - 1, alpha, beta', true, ply + 1);
        MinLoopStep(env, g, cs, i, depth, alpha, beta', best, ply, before, score, Counters());
        if score.TimedOut? {
          return TimedOut;
        }
        best := Min(best, score.score);
        beta' := Min(beta', score.score);
        if beta' <= alpha {
          pruningCount := pruningCount + 1;
          return Done(best);
        }
      }
      return Done(best);
    }

    /** The threat flags of `_find_critical_blocks` for one move. */
    method ClassifyMove(game: GomokuGame, row: int, col: int) returns (cat: Block)
      requires IsSquare(game.board, BoardSize)
      ensures cat == Classify(game.board, (row, col), opponent)
    {
      var b, m := game.board, (row, col);
      var blocksFour, blocksOpenThree, blocksThree := false, false, false;
      var k := 0;
      while k < |Axes| && !blocksFour
        invariant 0 <= k <= |Axes|
        invariant Flags(blocksFour, blocksOpenThree, blocksThree) == ScanAxes(b, m, opponent, k)
      {
        blocksFour, blocksOpenThree, blocksThree := ScanAxis(b, m, k, opponent, blocksFour, blocksOpenThree, blocksThree);
        k := k + 1;
      }
      ScanAxesStops(b, m, opponent, k);
      if blocksFour {
        cat := FourBlock;
      } else if blocksOpenThree {
        cat := OpenThreeBlock;
      } else if blocksThree {
        cat := ThreeBlock;
      } else {
        cat := NoBlock;
      }
    }

    /** The first loop of `_find_critical_blocks`: the moves that block a four, an open three or a three. */
    method TagMoves(game: GomokuGame, legal: seq<Pos>) returns (fours: seq<Pos>, openThrees: seq<Pos>, threes: seq<Pos>)
      requires game.Valid()
      ensures fours == Tagged(game.board, legal, opponent, FourBlock)
      ensures openThrees == Tagged(game.board, legal, opponent, OpenThreeBlock)
      ensures threes == Tagged(game.board, legal, opponent, ThreeBlock)
    {
      fours, openThrees, threes := [], [], [];
      for i := 0 to |legal|
        invariant fours == Tagged(game.board, legal[..i], opponent, FourBlock)
        invariant openThrees == Tagged(game.board, legal[..i], opponent, OpenThreeBlock)
        invariant threes == Tagged(game.board, legal[..i], opponent, ThreeBlock)
      {
        assert legal[..i + 1][..i] == legal[..i];
        var (row, col) := legal[i];
        var cat := ClassifyMove(game, row, col);
        if cat == FourBlock {
          fours := fours + [legal[i]];
        } else if cat == OpenThreeBlock {
          openThrees := openThrees + [legal[i]];
        } else if cat == ThreeBlock {
          threes := threes + [legal[i]];
        }
      }
      assert legal[..|legal|] == legal;
    }

    /** The second loop of `_find_critical_blocks`: the other moves with which the opponent would end the game. */
    method FindThreats(game: GomokuGame, legal: seq<Pos>, critical: seq<Pos>) returns (threats: seq<Pos>)
      requires game.Valid()
      ensures threats == Threats(game.Snapshot(), legal, opponent, critical)
    {
      ghost var g := game.Snapshot();
      threats := [];
      for i := 0 to |legal|
        invariant game.Snapshot() == g
        invariant threats == Threats(g, legal[..i], opponent, critical)
      {
        assert legal[..i + 1][..i] == legal[..i];
        if legal[i] !in critical {
          var (row, col) := legal[i];
          var copy := game.Copy();
          copy.currentPlayer := opponent;
          var _ := copy.MakeMove(row, col);
          if copy.state != Playing {
            threats := threats + [legal[i]];
          }
        }
      }
      assert legal[..|legal|] == legal;
    }

    /** `_find_critical_blocks(game, legal_moves)`. */
    method FindCriticalBlocks(game: GomokuGame, legal: seq<Pos>) returns (blocks: seq<Pos>)
      requires game.Valid()
      ensures blocks == CriticalBlocks(game.Snapshot(), legal, opponent)
    {
      var fours, openThrees, threes := TagMoves(game, legal);
      var critical := fours + openThrees + threes;
      var threats := FindThreats(game, legal, critical);
      blocks := threats + critical;
    }

    /** `[m for m in legal_moves if m not in critical_blocks]`. */
    static method Others(legal: seq<Pos>, critical: seq<Pos>) returns (others: seq<Pos>)
      ensures others == Without(legal, critical)
    {
      others := [];
      for i := 0 to |legal|
        invariant others == Without(legal[..i], critical)
      {
        assert legal[..i + 1][..i] == legal[..i];
        if legal[i] !in critical {
          others := others + [legal[i]];
        }
      }
      assert legal[..|legal|] == legal;
    }

    /** The pre-scoring loop of `_minimax_root`: each move's static score after playing it on a copy. */
    method ScoreMoves(game: GomokuGame, moves: seq<Pos>) returns (scored: seq<(int, Pos)>)
      requires game.Valid()
      ensures scored == Scored(game.Snapshot(), player, moves)
    {
      scored := [];
      for i := 0 to |moves|
        invariant scored == Scored(game.Snapshot(), player, moves[..i])
      {
        assert moves[..i + 1][..i] == moves[..i];
        var (row, col) := moves[i];
        var copy := game.Copy();
        var _ := copy.MakeMove(row, col);
        var score := copy.EvaluatePosition(player);
        scored := scored + [(score, moves[i])];
      }
      assert moves[..|moves|] == moves;
    }

    /** The move ordering of `_minimax_root`: critical blocks first, pre-scored, then sorted. */
    method OrderMoves(game: GomokuGame, legal: seq<Pos>) returns (order: seq<(int, Pos)>)
      requires Valid() && game.Valid()
      ensures order == RootOrder(game.Snapshot(), player, legal)
    {
      var critical := FindCriticalBlocks(game, legal);
      var ordered := legal;
      if critical != [] {
        var others := Others(legal, critical);
        ordered := critical + others;
      }
      var scored := ScoreMoves(game, ordered);
      order := SortDesc(scored);
    }

    /** `_minimax_root(game, max_depth, legal_moves)`. */
    method MinimaxRoot(env: Env, game: GomokuGame, maxDepth: nat, legal: seq<Pos>) returns (r: RootOutcome)
      requires Valid() && env.me == player && game.Valid() && maxDepth >= 1
      modifies this
      ensures (r, Counters()) == RootSearch(env, game.Snapshot(), maxDepth, legal, old(Counters()))
    {
      currentSearchDepth := maxDepth;
      var scored := OrderMoves(game, legal);
      r := SearchOrdered(env, game, maxDepth, scored);
    }

    /** `game.copy()`, `make_move` on the copy and `_minimax` on the position reached. */
    method SearchChild(env: Env, game: GomokuGame, move: Pos, depth: nat, alpha: int, beta: int, maximizing: bool, ply: int)
      returns (o: Outcome)
      requires Valid() && env.me == player && game.Valid()
      modifies this
      ensures (o, Counters()) == Search(env, game.Snapshot(), move, depth, alpha, beta, maximizing, ply, old(Counters()))
      decreases depth, 2
    {
      var (row, col) := move;
      var copy := game.Copy();
      var _ := copy.MakeMove(row, col);
      o := Minimax(env, copy, depth, alpha, beta, maximizing, ply);
    }

    /** The loop of `_minimax_root` over the ordered moves, with window `(alpha, +inf)`. */
    method SearchOrdered(env: Env, game: GomokuGame, maxDepth: nat, scored: seq<(int, Pos)>) returns (r: RootOutcome)
      requires Valid() && env.me == player && game.Valid() && maxDepth >= 1
      modifies this
      ensures (r, Counters()) == RootLoop(env, game.Snapshot(), maxDepth, scored, 0, NegInf, None, NegInf, old(Counters()))
    {
      ghost var g := game.Snapshot();
      ghost var st0 := Counters();
      var best: Option<Pos>, bestScore := None, NegInf;
      var alpha, beta := NegInf, PosInf;
      for i := 0 to |scored|
        invariant game.Snapshot() == g
        invariant RootLoop(env, g, maxDepth, scored, 0, NegInf, None, NegInf, st0) ==
                  RootLoop(env, g, maxDepth, scored, i, alpha, best, bestScore, Counters())
      {
        ghost var st := Counters();
        var up := TimeUp(env);
        if up {
          RootLoopExpired(env, g, maxDepth, scored, i, alpha, best, bestScore, st);
          return RootTimedOut;
        }
        var (_, move) := scored[i];
        var score := SearchChild(env, game, move, maxDepth - 1, alpha, beta, false, 1);
        RootLoopChild(env, g, maxDepth, scored, i, alpha, best, bestScore, st, score, Counters());
        if score.TimedOut? {
          return RootTimedOut;
        }
        if score.score > bestScore {
          bestScore := score.score;
          best := Some(move);
        }
        alpha := Max(alpha, score.score);
        if beta <= alpha {
          pruningCount := pruningCount + 1;
          return RootDone(best, bestScore);
        }
      }
      return RootDone(best, bestScore);
    }

    /** The candidate list of `get_move`, with `pick` standing for `random.sample`. */
    method GetCandidates(env: Env, game: GomokuGame, pick: Sampler) returns (cands: seq<Pos>)
      requires game.Valid()
      ensures cands == Candidates(game.Snapshot(), settings, env.arrange, pick)
    {
      if settings.useSmartMoves {
        cands := game.GetSmartMoves(settings.maxCandidates, env.arrange);
      } else {
        cands := game.GetLegalMoves();
        if |cands| > settings.maxCandidates {
          cands := pick(cands, settings.maxCandidates);
        }
      }
    }

    /**
     * One pass of the deepening loop of `get_move`: stop when time is up, else search to
     * `depth` and keep the move found; `more` says whether to go one level deeper.
     */
    method DeepenOnce(env: Env, game: GomokuGame, cands: seq<Pos>, depth: nat, best: Pos) returns (more: bool, best': Pos)
      requires Valid() && env.me == player && game.Valid() && depth >= 1
      modifies this
      ensures more ==> depth <= settings.maxDepth
      ensures Deepen(env, game.Snapshot(), cands, depth, settings.maxDepth, best, old(Counters())) ==
              if more then Deepen(env, game.Snapshot(), cands, depth + 1, settings.maxDepth, best', Counters())
              else (best', Counters())
    {
      more, best' := false, best;
      if depth > settings.maxDepth {
        return;
      }
      var up := TimeUp(env);
      if up {
        return;
      }
      var r := MinimaxRoot(env, game, depth, cands);
      if r.RootTimedOut? {
        return;
      }
      if r.move.Some? {
        best' := r.move.value;
      }
      more := r.score < 9000;
    }

    /** `get_move(game)`. */
    method GetMove(env: Env, game: GomokuGame, pick: Sampler) returns (a: MoveAnswer)
      requires Valid() && env.me == player && game.Valid()
      modifies this
      ensures (a, Counters()) == RootSpec.GetMove(env, settings, game.Snapshot(), pick, old(Counters()))
    {
      ghost var g := game.Snapshot();
      if game.currentPlayer != player {
        return NotMyTurn;
      }
      if game.history == [] {
        return Answer(Some((BoardSize / 2, BoardSize / 2)));
      }
      nodesEvaluated, pruningCount, maxDepthReached, nodesByDepth, currentSearchDepth := 0, 0, 0, map[], 0;
      var cands := GetCandidates(env, game, pick);
      if cands == [] {
        return Answer(None);
      }
      if |cands| == 1 {
        return Answer(Some(cands[0]));
      }
      ghost var st0 := Counters();
      var best, depth, more := cands[0], 1, true;
      while more
        invariant depth >= 1 && game.Snapshot() == g
        invariant more ==> depth <= settings.maxDepth + 1
        invariant more ==> Deepen(env, g, cands, 1, settings.maxDepth, cands[0], st0) ==
                           Deepen(env, g, cands, depth, settings.maxDepth, best, Counters())
        invariant !more ==> Deepen(env, g, cands, 1, settings.maxDepth, cands[0], st0) == (best, Counters())
        decreases if more then settings.maxDepth + 2 - depth else 0
      {
        more, best := DeepenOnce(env, game, cands, depth, best);
        depth := depth + 1;
      }
      return Answer(Some(best));
    }
  }
}
