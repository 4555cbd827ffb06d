/**
 * What `AIPlayer._minimax` computes, as functions. `AlphaBeta` follows the method step by
 * step: the statistics it updates, the clock it reads and the fail-soft cut-offs. `Value`
 * is the plain minimax value over the same candidate lists. `AlphaBetaSound` is the
 * fail-soft theorem relating the two, and `FullWindowIsMinimax` its corollary for the
 * window (-inf, +inf).
 */
module SearchSpec {
  import opened Common
  import opened Grid
  import opened GameRules

  /** Integer stand-ins for `float('-inf')` and `float('inf')`: beyond every evaluation. */
  const NegInf := -1_000_000_000
  const PosInf := 1_000_000_000

  /**
   * What the search depends on besides the position: the AI's colour, the order in which
   * `list(set)` enumerates candidate sets, and the clock, `expired(k)` telling whether the
   * time limit has passed at the `k`-th reading.
   */
  datatype Env = Env(me: Player, arrange: Arranger, expired: nat -> bool)

  /** The statistics fields of an `AIPlayer`, and the number of clock readings so far. */
  datatype Stats = Stats(
    nodes: nat,
    prunes: nat,
    maxDepth: int,
    byDepth: map<int, nat>,
    searchDepth: int,
    clock: nat)

  /** A search either returns a score or is abandoned by `TimeoutError`. */
  datatype Outcome = Done(score: int) | TimedOut

  /** The position after `game.copy()` and `make_move(row, col)` on the copy. */
  function Child(g: Game, m: Pos): (c: Game)
    requires IsSquare(g.board, BoardSize)
    ensures ValidGame(c)
  {
    MakeMove(CopyGame(g), m.0, m.1).0
  }

  /** Statistics after entering a node at search depth `level`. */
  function Visit(st: Stats, level: int): Stats {
    st.(nodes := st.nodes + 1, maxDepth := Max(st.maxDepth, level),
        byDepth := st.byDepth[level := (if level in st.byDepth then st.byDepth[level] else 0) + 1])
  }

  /** Candidate cap inside the tree: 40 above depth 2, 30 otherwise. */
  function NodeLimit(depth: int): nat {
    if depth > 2 then 40 else 30
  }

  /** `_minimax(game, depth, alpha, beta, maximizing, current_depth = ply)`. */
  function AlphaBeta(env: Env, g: Game, depth: nat, alpha: int, beta: int, maximizing: bool, ply: int, st: Stats): (Outcome, Stats)
    requires IsSquare(g.board, BoardSize)
    decreases depth, 1, 0
  {
    var st1 := Visit(st, st.searchDepth - depth + ply);
    if env.expired(st1.clock) then (TimedOut, st1.(clock := st1.clock + 1))
    else
      var st2 := st1.(clock := st1.clock + 1);
      if depth == 0 || g.state != Playing then (Done(EvaluatePosition(g, env.me)), st2)
      else
        var cs := SmartMoves(g, NodeLimit(depth), env.arrange);
        if cs == [] then (Done(EvaluatePosition(g, env.me)), st2)
        else if maximizing then MaxLoop(env, g, cs, 0, depth, alpha, beta, NegInf, ply, st2)
        else MinLoop(env, g, cs, 0, depth, alpha, beta, PosInf, ply, st2)
  }

  /** `_minimax` on the position that playing `m` on a copy of `g` leads to. */
  function Search(env: Env, g: Game, m: Pos, depth: nat, alpha: int, beta: int, maximizing: bool, ply: int, st: Stats): (Outcome, Stats)
    requires IsSquare(g.board, BoardSize)
    decreases depth, 2, 0
  {
    AlphaBeta(env, Child(g, m), depth, alpha, beta, maximizing, ply, st)
  }

  /** The maximizing loop from candidate `i` on, with the window's lower end `alpha` and `best = max_eval`. */
  function MaxLoop(env: Env, g: Game, cs: seq<Pos>, i: nat, depth: nat, alpha: int, beta: int, best: int, ply: int, st: Stats): (Outcome, Stats)
    requires IsSquare(g.board, BoardSize) && i <= |cs| && depth >= 1
    decreases depth, 0, |cs| - i
  {
    if i == |cs| then (Done(best), st)
    else
      var (o, st') := Search(env, g, cs[i], depth - 1, alpha, beta, false, ply + 1, st);
      if o.TimedOut? then (TimedOut, st')
      else
        var best', alpha' := Max(best, o.score), Max(alpha, o.score);
        if beta <= alpha' then (Done(best'), st'.(prunes := st'.prunes + 1))
        else MaxLoop(env, g, cs, i + 1, depth, alpha', beta, best', ply, st')
  }

  /** The minimizing loop from candidate `i` on, with the window's upper end `beta` and `best = min_eval`. */
  function MinLoop(env: Env, g: Game, cs: seq<Pos>, i: nat, depth: nat, alpha: int, beta: int, best: int, ply: int, st: Stats): (Outcome, Stats)
    requires IsSquare(g.board, BoardSize) && i <= |cs| && depth >= 1
    decreases depth, 0, |cs| - i
  {
    if i == |cs| then (Done(best), st)
    else
      var (o, st') := Search(env, g, cs[i], depth - 1, alpha, beta, true, ply + 1, st);
      if o.TimedOut? then (TimedOut, st')
      else
        var best', beta' := Min(best, o.score), Min(beta, o.score);
        if beta' <= alpha then (Done(best'), st'.(prunes := st'.prunes + 1))
        else MinLoop(env, g, cs, i + 1, depth, alpha, beta', best', ply, st')
  }

  /** One candidate of the maximizing loop, with the child's search result `(o, st')` named. */
  lemma MaxLoopStep(env: Env, g: Game, cs: seq<Pos>, i: nat, depth: nat, alpha: int, beta: int, best: int, ply: int, st: Stats,
                    o: Outcome, st': Stats)
    requires IsSquare(g.board, BoardSize) && i < |cs| && depth >= 1
    requires (o, st') == Search(env, g, cs[i], depth - 1, alpha, beta, false, ply + 1, st)
    ensures o.TimedOut? ==> MaxLoop(env, g, cs, i, depth, alpha, beta, best, ply, st) == (TimedOut, st')
    ensures o.Done? && beta <= Max(alpha, o.score) ==>
      MaxLoop(env, g, cs, i, depth, alpha, beta, best, ply, st) == (Done(Max(best, o.score)), st'.(prunes := st'.prunes + 1))
    ensures o.Done? && beta > Max(alpha, o.score) ==>
      MaxLoop(env, g, cs, i, depth, alpha, beta, best, ply, st) ==
      MaxLoop(env, g, cs, i + 1, depth, Max(alpha, o.score), beta, Max(best, o.score), ply, st')
  {
  }

  /** One candidate of the minimizing loop, with the child's search result `(o, st')` named. */
  lemma MinLoopStep(env: Env, g: Game, cs: seq<Pos>, i: nat, depth: nat, alpha: int, beta: int, best: int, ply: int, st: Stats,
                    o: Outcome, st': Stats)
    requires IsSquare(g.board, BoardSize) && i < |cs| && depth >= 1
    requires (o, st') == Search(env, g, cs[i], depth - 1, alpha, beta, true, ply + 1, st)
    ensures o.TimedOut? ==> MinLoop(env, g, cs, i, depth, alpha, beta, best, ply, st) == (TimedOut, st')
    ensures o.Done? && Min(beta, o.score) <= alpha ==>
      MinLoop(env, g, cs, i, depth, alpha, beta, best, ply, st) == (Done(Min(best, o.score)), st'.(prunes := st'.prunes + 1))
    ensures o.Done? && Min(beta, o.score) > alpha ==>
      MinLoop(env, g, cs, i, depth, alpha, beta, best, ply, st) ==
      MinLoop(env, g, cs, i + 1, depth, alpha, Min(beta, o.score), Min(best, o.score), ply, st')
  {
  }

  // ---------------------------------------------------------------------------------
  // The reference: plain minimax over the same candidate lists
  // ---------------------------------------------------------------------------------

  function Value(env: Env, g: Game, depth: nat, maximizing: bool): int
    requires IsSquare(g.board, BoardSize)
    decreases depth, 1, 0
  {
    if depth == 0 || g.state != Playing then EvaluatePosition(g, env.me)
    else
      var cs := SmartMoves(g, NodeLimit(depth), env.arrange);
      if cs == [] then EvaluatePosition(g, env.me)
      else if maximizing then MaxFrom(env, g, cs, 0, depth)
      else MinFrom(env, g, cs, 0, depth)
  }

  /** Largest value among the children reached by `cs[i..]`, `NegInf` if there are none. */
  function MaxFrom(env: Env, g: Game, cs: seq<Pos>, i: nat, depth: nat): int
    requires IsSquare(g.board, BoardSize) && i <= |cs| && depth >= 1
    decreases depth, 0, |cs| - i
  {
    if i == |cs| then NegInf
    else Max(Value(env, Child(g, cs[i]), depth - 1, false), MaxFrom(env, g, cs, i + 1, depth))
  }

  /** Smallest value among the children reached by `cs[i..]`, `PosInf` if there are none. */
  function MinFrom(env: Env, g: Game, cs: seq<Pos>, i: nat, depth: nat): int
    requires IsSquare(g.board, BoardSize) && i <= |cs| && depth >= 1
    decreases depth, 0, |cs| - i
  {
    if i == |cs| then PosInf
    else Min(Value(env, Child(g, cs[i]), depth - 1, true), MinFrom(env, g, cs, i + 1, depth))
  }

  // ---------------------------------------------------------------------------------
  // Fail-soft alpha-beta
  // ---------------------------------------------------------------------------------

  /**
   * The fail-soft guarantee for a result `r` searched with window `(alpha, beta)` when the
   * true value is `m`: a fail-low bounds `m` from above, a fail-high from below, and a
   * result inside the window is exact.
   */
  predicate FailSoft(r: int, m: int, alpha: int, beta: int) {
    (r <= alpha ==> m <= r) && (r >= beta ==> m >= r) && (alpha < r < beta ==> m == r)
  }

  lemma {:induction false} AlphaBetaSound(env: Env, g: Game, depth: nat, alpha: int, beta: int, maximizing: bool, ply: int, st: Stats)
    requires IsSquare(g.board, BoardSize) && NegInf <= alpha < beta <= PosInf
    ensures var o := AlphaBeta(env, g, depth, alpha, beta, maximizing, ply, st).0;
      o.Done? ==> FailSoft(o.score, Value(env, g, depth, maximizing), alpha, beta)
    decreases depth, 1, 0
  {
    var st1 := Visit(st, st.searchDepth - depth + ply);
    var st2 := st1.(clock := st1.clock + 1);
    if !env.expired(st1.clock) && depth != 0 && g.state == Playing {
      var cs := SmartMoves(g, NodeLimit(depth), env.arrange);
      if cs != [] {
        if maximizing {
          MaxLoopSound(env, g, cs, 0, depth, alpha, beta, NegInf, ply, st2);
        } else {
          MinLoopSound(env, g, cs, 0, depth, alpha, beta, PosInf, ply, st2);
        }
      }
    }
  }

  /**
   * What a maximizing loop from candidate `i` returns, with `best <= alpha < beta`: it
   * fails high only if some remaining child is worth at least the result; otherwise no
   * remaining child is worth more than the result, and a result above `alpha` is attained.
   */
  predicate MaxSound(o: Outcome, rest: int, alpha: int, beta: int, best: int) {
    o.Done? ==>
      (o.score >= beta ==> rest >= o.score) &&
      (o.score < beta ==> rest <= o.score && o.score >= best) &&
      (alpha < o.score < beta ==> rest >= o.score)
  }

  /** The mirror image of `MaxSound` for a minimizing loop, with `alpha < beta <= best`. */
  predicate MinSound(o: Outcome, rest: int, alpha: int, beta: int, best: int) {
    o.Done? ==>
      (o.score <= alpha ==> rest <= o.score) &&
      (o.score > alpha ==> rest >= o.score && o.score <= best) &&
      (alpha < o.score < beta ==> rest <= o.score)
  }

  /** Loop form of the theorem for a maximizing node. */
  lemma {:induction false} MaxLoopSound(env: Env, g: Game, cs: seq<Pos>, i: nat, depth: nat, alpha: int, beta: int, best: int, ply: int, st: Stats)
    requires IsSquare(g.board, BoardSize) && i <= |cs| && depth >= 1
    requires NegInf <= best <= alpha < beta <= PosInf
    ensures MaxSound(MaxLoop(env, g, cs, i, depth, alpha, beta, best, ply, st).0, MaxFrom(env, g, cs, i, depth), alpha, beta, best)
    decreases depth, 0, |cs| - i
  {
    if i < |cs| {
      var (o, st') := Search(env, g, cs[i], depth - 1, alpha, beta, false, ply + 1, st);
      AlphaBetaSound(env, Child(g, cs[i]), depth - 1, alpha, beta, false, ply + 1, st);
      if o.Done? {
        var best', alpha' := Max(best, o.score), Max(alpha, o.score);
        if beta > alpha' {
          assert best' <= alpha';
          MaxLoopSound(env, g, cs, i + 1, depth, alpha', beta, best', ply, st');
        }
      }
      MaxLoopSoundStep(env, g, cs, i, depth, alpha, beta, best, ply, st);
    }
  }

  /** One candidate of `MaxLoopSound`: the child's fail-soft bound and the rest of the loop give the claim. */
  lemma MaxLoopSoundStep(env: Env, g: Game, cs: seq<Pos>, i: nat, depth: nat, alpha: int, beta: int, best: int, ply: int, st: Stats)
    requires IsSquare(g.board, BoardSize) && i < |cs| && depth >= 1
    requires NegInf <= best <= alpha < beta <= PosInf
    requires var (o, st') := Search(env, g, cs[i], depth - 1, alpha, beta, false, ply + 1, st);
      (o.Done? ==> FailSoft(o.score, Value(env, Child(g, cs[i]), depth - 1, false), alpha, beta)) &&
      (o.Done? && beta > Max(alpha, o.score) ==>
        MaxSound(MaxLoop(env, g, cs, i + 1, depth, Max(alpha, o.score), beta, Max(best, o.score), ply, st').0,
                 MaxFrom(env, g, cs, i + 1, depth), Max(alpha, o.score), beta, Max(best, o.score)))
    ensures MaxSound(MaxLoop(env, g, cs, i, depth, alpha, beta, best, ply, st).0, MaxFrom(env, g, cs, i, depth), alpha, beta, best)
  {
    var (o, st') := Search(env, g, cs[i], depth - 1, alpha, beta, false, ply + 1, st);
    var v, rest := Value(env, Child(g, cs[i]), depth - 1, false), MaxFrom(env, g, cs, i + 1, depth);
    assert MaxFrom(env, g, cs, i, depth) == Max(v, rest);
    if o.Done? {
      var best', alpha' := Max(best, o.score), Max(alpha, o.score);
      if beta <= alpha' {
        assert MaxLoop(env, g, cs, i, depth, alpha, beta, best, ply, st).0 == Done(best');
      } else {
        assert MaxLoop(env, g, cs, i, depth, alpha, beta, best, ply, st) ==
               MaxLoop(env, g, cs, i + 1, depth, alpha', beta, best', ply, st');
      }
    }
  }

  /** Loop form of the theorem for a minimizing node. */
  lemma {:induction false} MinLoopSound(env: Env, g: Game, cs: seq<Pos>, i: nat, depth: nat, alpha: int, beta: int, best: int, ply: int, st: Stats)
    requires IsSquare(g.board, BoardSize) && i <= |cs| && depth >= 1
    requires NegInf <= alpha < beta <= best <= PosInf
    ensures MinSound(MinLoop(env, g, cs, i, depth, alpha, beta, best, ply, st).0, MinFrom(env, g, cs, i, depth), alpha, beta, best)
    decreases depth, 0, |cs| - i
  {
    if i < |cs| {
      var (o, st') := Search(env, g, cs[i], depth - 1, alpha, beta, true, ply + 1, st);
      AlphaBetaSound(env, Child(g, cs[i]), depth - 1, alpha, beta, true, ply + 1, st);
      if o.Done? {
        var best', beta' := Min(best, o.score), Min(beta, o.score);
        if beta' > alpha {
          assert beta' <= best';
          MinLoopSound(env, g, cs, i + 1, depth, alpha, beta', best', ply, st');
        }
      }
      MinLoopSoundStep(env, g, cs, i, depth, alpha, beta, best, ply, st);
    }
  }

  /** One candidate of `MinLoopSound`. */
  lemma MinLoopSoundStep(env: Env, g: Game, cs: seq<Pos>, i: nat, depth: nat, alpha: int, beta: int, best: int, ply: int, st: Stats)
    requires IsSquare(g.board, BoardSize) && i < |cs| && depth >= 1
    requires NegInf <= alpha < beta <= best <= PosInf
    requires var (o, st') := Search(env, g, cs[i], depth - 1, alpha, beta, true, ply + 1, st);
      (o.Done? ==> FailSoft(o.score, Value(env, Child(g, cs[i]), depth - 1, true), alpha, beta)) &&
      (o.Done? && Min(beta, o.score) > alpha ==>
        MinSound(MinLoop(env, g, cs, i + 1, depth, alpha, Min(beta, o.score), Min(best, o.score), ply, st').0,
                 MinFrom(env, g, cs, i + 1, depth), alpha, Min(beta, o.score), Min(best, o.score)))
    ensures MinSound(MinLoop(env, g, cs, i, depth, alpha, beta, best, ply, st).0, MinFrom(env, g, cs, i, depth), alpha, beta, best)
  {
    var (o, st') := Search(env, g, cs[i], depth - 1, alpha, beta, true, ply + 1, st);
    var v, rest := Value(env, Child(g, cs[i]), depth - 1, true), MinFrom(env, g, cs, i + 1, depth);
    assert MinFrom(env, g, cs, i, depth) == Min(v, rest);
    if o.Done? {
      var best', beta' := Min(best, o.score), Min(beta, o.score);
      if beta' <= alpha {
        assert MinLoop(env, g, cs, i, depth, alpha, beta, best, ply, st).0 == Done(best');
      } else {
        assert MinLoop(env, g, cs, i, depth, alpha, beta, best, ply, st) ==
               MinLoop(env, g, cs, i + 1, depth, alpha, beta', best', ply, st');
      }
    }
  }

  predicate InEvalRange(v: int) {
    -EvalBound <= v <= EvalBound
  }

  /** Every score the search returns is a static evaluation or a max/min of them. */
  lemma {:induction false} AlphaBetaBounded(env: Env, g: Game, depth: nat, alpha: int, beta: int, maximizing: bool, ply: int, st: Stats)
    requires IsSquare(g.board, BoardSize)
    ensures var o := AlphaBeta(env, g, depth, alpha, beta, maximizing, ply, st).0;
      o.Done? ==> InEvalRange(o.score)
    decreases depth, 1, 0
  {
    EvaluationBounded(g, env.me);
    var st1 := Visit(st, st.searchDepth - depth + ply);
    var st2 := st1.(clock := st1.clock + 1);
    if !env.expired(st1.clock) && depth != 0 && g.state == Playing {
      var cs := SmartMoves(g, NodeLimit(depth), env.arrange);
      if cs != [] {
        if maximizing {
          MaxLoopBounded(env, g, cs, 0, depth, alpha, beta, NegInf, ply, st2);
        } else {
          MinLoopBounded(env, g, cs, 0, depth, alpha, beta, PosInf, ply, st2);
        }
      }
    }
  }

  lemma {:induction false} MaxLoopBounded(env: Env, g: Game, cs: seq<Pos>, i: nat, depth: nat, alpha: int, beta: int, best: int, ply: int, st: Stats)
    requires IsSquare(g.board, BoardSize) && i <= |cs| && depth >= 1
    requires best == NegInf || InEvalRange(best)
    requires i < |cs| || InEvalRange(best)
    ensures var o := MaxLoop(env, g, cs, i, depth, alpha, beta, best, ply, st).0;
      o.Done? ==> InEvalRange(o.score)
    decreases depth, 0, |cs| - i
  {
    if i < |cs| {
      var (o, st') := Search(env, g, cs[i], depth - 1, alpha, beta, false, ply + 1, st);
      AlphaBetaBounded(env, Child(g, cs[i]), depth - 1, alpha, beta, false, ply + 1, st);
      if o.Done? {
        var best', alpha' := Max(best, o.score), Max(alpha, o.score);
        if beta > alpha' {
          MaxLoopBounded(env, g, cs, i + 1, depth, alpha', beta, best', ply, st');
        }
      }
    }
  }

  lemma {:induction false} MinLoopBounded(env: Env, g: Game, cs: seq<Pos>, i: nat, depth: nat, alpha: int, beta: int, best: int, ply: int, st: Stats)
    requires IsSquare(g.board, BoardSize) && i <= |cs| && depth >= 1
    requires best == PosInf || InEvalRange(best)
    requires i < |cs| || InEvalRange(best)
    ensures var o := MinLoop(env, g, cs, i, depth, alpha, beta, best, ply, st).0;
      o.Done? ==> InEvalRange(o.score)
    decreases depth, 0, |cs| - i
  {
    if i < |cs| {
      var (o, st') := Search(env, g, cs[i], depth - 1, alpha, beta, true, ply + 1, st);
      AlphaBetaBounded(env, Child(g, cs[i]), depth - 1, alpha, beta, true, ply + 1, st);
      if o.Done? {
        var best', beta' := Min(best, o.score), Min(beta, o.score);
        if beta' > alpha {
          MinLoopBounded(env, g, cs, i + 1, depth, alpha, beta', best', ply, st');
        }
      }
    }
  }

  /** With the window (-inf, +inf) a completed search returns exactly the minimax value. */
  lemma FullWindowIsMinimax(env: Env, g: Game, depth: nat, maximizing: bool, ply: int, st: Stats)
    requires IsSquare(g.board, BoardSize)
    ensures var o := AlphaBeta(env, g, depth, NegInf, PosInf, maximizing, ply, st).0;
      o.Done? ==> o.score == Value(env, g, depth, maximizing)
  {
    AlphaBetaSound(env, g, depth, NegInf, PosInf, maximizing, ply, st);
    AlphaBetaBounded(env, g, depth, NegInf, PosInf, maximizing, ply, st);
  }

  // ---------------------------------------------------------------------------------
  // Candidate order does not matter to the value
  // ---------------------------------------------------------------------------------

  /** Minimax values are static evaluations or maxima and minima of them. */
  lemma {:induction false} ValueBounded(env: Env, g: Game, depth: nat, maximizing: bool)
    requires IsSquare(g.board, BoardSize)
    ensures InEvalRange(Value(env, g, depth, maximizing))
    decreases depth, 1, 0
  {
    EvaluationBounded(g, env.me);
    if depth != 0 && g.state == Playing {
      var cs := SmartMoves(g, NodeLimit(depth), env.arrange);
      if cs != [] {
        MaxFromBounded(env, g, cs, 0, depth);
        MinFromBounded(env, g, cs, 0, depth);
      }
    }
  }

  lemma {:induction false} MaxFromBounded(env: Env, g: Game, cs: seq<Pos>, i: nat, depth: nat)
    requires IsSquare(g.board, BoardSize) && i < |cs| && depth >= 1
    ensures InEvalRange(MaxFrom(env, g, cs, i, depth))
    decreases depth, 0, |cs| - i
  {
    ValueBounded(env, Child(g, cs[i]), depth - 1, false);
    if i + 1 < |cs| {
      MaxFromBounded(env, g, cs, i + 1, depth);
    }
  }

  lemma {:induction false} MinFromBounded(env: Env, g: Game, cs: seq<Pos>, i: nat, depth: nat)
    requires IsSquare(g.board, BoardSize) && i < |cs| && depth >= 1
    ensures InEvalRange(MinFrom(env, g, cs, i, depth))
    decreases depth, 0, |cs| - i
  {
    ValueBounded(env, Child(g, cs[i]), depth - 1, true);
    if i + 1 < |cs| {
      MinFromBounded(env, g, cs, i + 1, depth);
    }
  }

  /** `MaxFrom` is the largest child value: an upper bound that child `j` attains. */
  lemma {:induction false} MaxFromIsMax(env: Env, g: Game, cs: seq<Pos>, i: nat, depth: nat) returns (j: nat)
    requires IsSquare(g.board, BoardSize) && i < |cs| && depth >= 1
    ensures forall k :: i <= k < |cs| ==> Value(env, Child(g, cs[k]), depth - 1, false) <= MaxFrom(env, g, cs, i, depth)
    ensures i <= j < |cs| && MaxFrom(env, g, cs, i, depth) == Value(env, Child(g, cs[j]), depth - 1, false)
    decreases |cs| - i
  {
    ValueBounded(env, Child(g, cs[i]), depth - 1, false);
    var v, m := Value(env, Child(g, cs[i]), depth - 1, false), MaxFrom(env, g, cs, i, depth);
    j := i;
    if i + 1 < |cs| {
      var rest := MaxFrom(env, g, cs, i + 1, depth);
      var j' := MaxFromIsMax(env, g, cs, i + 1, depth);
      assert m == Max(v, rest);
      if v < rest {
        j := j';
      }
      forall k | i < k < |cs| ensures Value(env, Child(g, cs[k]), depth - 1, false) <= m {
        assert Value(env, Child(g, cs[k]), depth - 1, false) <= rest;
      }
    }
  }

  /** `MinFrom` is the smallest child value: a lower bound that child `j` attains. */
  lemma {:induction false} MinFromIsMin(env: Env, g: Game, cs: seq<Pos>, i: nat, depth: nat) returns (j: nat)
    requires IsSquare(g.board, BoardSize) && i < |cs| && depth >= 1
    ensures forall k :: i <= k < |cs| ==> MinFrom(env, g, cs, i, depth) <= Value(env, Child(g, cs[k]), depth - 1, true)
    ensures i <= j < |cs| && MinFrom(env, g, cs, i, depth) == Value(env, Child(g, cs[j]), depth - 1, true)
    decreases |cs| - i
  {
    ValueBounded(env, Child(g, cs[i]), depth - 1, true);
    var v, m := Value(env, Child(g, cs[i]), depth - 1, true), MinFrom(env, g, cs, i, depth);
    j := i;
    if i + 1 < |cs| {
      var rest := MinFrom(env, g, cs, i + 1, depth);
      var j' := MinFromIsMin(env, g, cs, i + 1, depth);
      assert m == Min(v, rest);
      if v > rest {
        j := j';
      }
      forall k | i < k < |cs| ensures m <= Value(env, Child(g, cs[k]), depth - 1, true) {
        assert rest <= Value(env, Child(g, cs[k]), depth - 1, true);
      }
    }
  }

  /** Two candidate lists with the same elements, in any order, give a maximizing node the same value. */
  lemma MaxFromSameSet(env: Env, g: Game, cs: seq<Pos>, cs': seq<Pos>, depth: nat)
    requires IsSquare(g.board, BoardSize) && depth >= 1
    requires forall x :: x in cs <==> x in cs'
    ensures MaxFrom(env, g, cs, 0, depth) == MaxFrom(env, g, cs', 0, depth)
  {
    if cs' != [] {
      assert cs'[0] in cs;
    }
    if cs != [] {
      assert cs[0] in cs';
      var j := MaxFromIsMax(env, g, cs, 0, depth);
      var j' := MaxFromIsMax(env, g, cs', 0, depth);
      assert cs[j] in cs';
      assert cs'[j'] in cs;
    }
  }

  /** Two candidate lists with the same elements, in any order, give a minimizing node the same value. */
  lemma MinFromSameSet(env: Env, g: Game, cs: seq<Pos>, cs': seq<Pos>, depth: nat)
    requires IsSquare(g.board, BoardSize) && depth >= 1
    requires forall x :: x in cs <==> x in cs'
    ensures MinFrom(env, g, cs, 0, depth) == MinFrom(env, g, cs', 0, depth)
  {
    if cs' != [] {
      assert cs'[0] in cs;
    }
    if cs != [] {
      assert cs[0] in cs';
      var j := MinFromIsMin(env, g, cs, 0, depth);
      var j' := MinFromIsMin(env, g, cs', 0, depth);
      assert cs[j] in cs';
      assert cs'[j'] in cs;
    }
  }

  /** Two candidate lists with the same elements, in any order, give a node the same value. */
  lemma CandidateOrderIrrelevant(env: Env, g: Game, cs: seq<Pos>, cs': seq<Pos>, depth: nat)
    requires IsSquare(g.board, BoardSize) && depth >= 1
    requires forall x :: x in cs <==> x in cs'
    ensures MaxFrom(env, g, cs, 0, depth) == MaxFrom(env, g, cs', 0, depth)
    ensures MinFrom(env, g, cs, 0, depth) == MinFrom(env, g, cs', 0, depth)
  {
    MaxFromSameSet(env, g, cs, cs', depth);
    MinFromSameSet(env, g, cs, cs', depth);
  }

  // ---------------------------------------------------------------------------------
  // Counters
  // ---------------------------------------------------------------------------------

  /**
   * Every call counts its own node, a leaf exactly that one, and a cut-off happens at most
   * once per counted node.
   */
  lemma {:induction false} AlphaBetaCounts(env: Env, g: Game, depth: nat, alpha: int, beta: int, maximizing: bool, ply: int, st: Stats)
    requires IsSquare(g.board, BoardSize)
    ensures CallCounts(st, AlphaBeta(env, g, depth, alpha, beta, maximizing, ply, st).1)
    ensures depth == 0 ==> AlphaBeta(env, g, depth, alpha, beta, maximizing, ply, st).1.nodes == st.nodes + 1
    decreases depth, 1, 0
  {
    var st1 := Visit(st, st.searchDepth - depth + ply);
    var st2 := st1.(clock := st1.clock + 1);
    if !env.expired(st1.clock) && depth != 0 && g.state == Playing {
      var cs := SmartMoves(g, NodeLimit(depth), env.arrange);
      if cs != [] {
        if maximizing {
          MaxLoopCounts(env, g, cs, 0, depth, alpha, beta, NegInf, ply, st2);
        } else {
          MinLoopCounts(env, g, cs, 0, depth, alpha, beta, PosInf, ply, st2);
        }
      }
    }
  }

  /** What a loop does to the counters: nodes only grow, each counted node adds at most one cut-off, plus one for the loop. */
  predicate LoopCounts(st: Stats, st': Stats) {
    st'.nodes >= st.nodes && st'.prunes - st.prunes <= st'.nodes - st.nodes + 1 &&
    st'.clock >= st.clock && st'.searchDepth == st.searchDepth
  }

  /** What a call does to the counters: it counts its own node besides. */
  predicate CallCounts(st: Stats, st': Stats) {
    st'.nodes >= st.nodes + 1 && st'.prunes - st.prunes <= st'.nodes - st.nodes &&
    st'.clock > st.clock && st'.searchDepth == st.searchDepth
  }

  lemma {:induction false} MaxLoopCounts(env: Env, g: Game, cs: seq<Pos>, i: nat, depth: nat, alpha: int, beta: int, best: int, ply: int, st: Stats)
    requires IsSquare(g.board, BoardSize) && i <= |cs| && depth >= 1
    ensures LoopCounts(st, MaxLoop(env, g, cs, i, depth, alpha, beta, best, ply, st).1)
    decreases depth, 0, |cs| - i
  {
    if i < |cs| {
      var (o, st') := Search(env, g, cs[i], depth - 1, alpha, beta, false, ply + 1, st);
      AlphaBetaCounts(env, Child(g, cs[i]), depth - 1, alpha, beta, false, ply + 1, st);
      if o.Done? {
        var best', alpha' := Max(best, o.score), Max(alpha, o.score);
        if beta > alpha' {
          MaxLoopCounts(env, g, cs, i + 1, depth, alpha', beta, best', ply, st');
        }
      }
      MaxLoopCountsStep(env, g, cs, i, depth, alpha, beta, best, ply, st);
    }
  }

  /** One candidate of `MaxLoopCounts`: the child's call and the rest of the loop give the claim. */
  lemma MaxLoopCountsStep(env: Env, g: Game, cs: seq<Pos>, i: nat, depth: nat, alpha: int, beta: int, best: int, ply: int, st: Stats)
    requires IsSquare(g.board, BoardSize) && i < |cs| && depth >= 1
    requires var (o, st') := Search(env, g, cs[i], depth - 1, alpha, beta, false, ply + 1, st);
      CallCounts(st, st') &&
      (o.Done? && beta > Max(alpha, o.score) ==>
        LoopCounts(st', MaxLoop(env, g, cs, i + 1, depth, Max(alpha, o.score), beta, Max(best, o.score), ply, st').1))
    ensures LoopCounts(st, MaxLoop(env, g, cs, i, depth, alpha, beta, best, ply, st).1)
  {
    var (o, st') := Search(env, g, cs[i], depth - 1, alpha, beta, false, ply + 1, st);
    if o.Done? {
      var best', alpha' := Max(best, o.score), Max(alpha, o.score);
      if beta <= alpha' {
        assert MaxLoop(env, g, cs, i, depth, alpha, beta, best, ply, st).1 == st'.(prunes := st'.prunes + 1);
      } else {
        assert MaxLoop(env, g, cs, i, depth, alpha, beta, best, ply, st) ==
               MaxLoop(env, g, cs, i + 1, depth, alpha', beta, best', ply, st');
      }
    }
  }

  lemma {:induction false} MinLoopCounts(env: Env, g: Game, cs: seq<Pos>, i: nat, depth: nat, alpha: int, beta: int, best: int, ply: int, st: Stats)
    requires IsSquare(g.board, BoardSize) && i <= |cs| && depth >= 1
    ensures LoopCounts(st, MinLoop(env, g, cs, i, depth, alpha, beta, best, ply, st).1)
    decreases depth, 0, |cs| - i
  {
    if i < |cs| {
      var (o, st') := Search(env, g, cs[i], depth - 1, alpha, beta, true, ply + 1, st);
      AlphaBetaCounts(env, Child(g, cs[i]), depth - 1, alpha, beta, true, ply + 1, st);
      if o.Done? {
        var best', beta' := Min(best, o.score), Min(beta, o.score);
        if beta' > alpha {
          MinLoopCounts(env, g, cs, i + 1, depth, alpha, beta', best', ply, st');
        }
      }
      MinLoopCountsStep(env, g, cs, i, depth, alpha, beta, best, ply, st);
    }
  }

  /** One candidate of `MinLoopCounts`. */
  lemma MinLoopCountsStep(env: Env, g: Game, cs: seq<Pos>, i: nat, depth: nat, alpha: int, beta: int, best: int, ply: int, st: Stats)
    requires IsSquare(g.board, BoardSize) && i < |cs| && depth >= 1
    requires var (o, st') := Search(env, g, cs[i], depth - 1, alpha, beta, true, ply + 1, st);
      CallCounts(st, st') &&
      (o.Done? && Min(beta, o.score) > alpha ==>
        LoopCounts(st', MinLoop(env, g, cs, i + 1, depth, alpha, Min(beta, o.score), Min(best, o.score), ply, st').1))
    ensures LoopCounts(st, MinLoop(env, g, cs, i, depth, alpha, beta, best, ply, st).1)
  {
    var (o, st') := Search(env, g, cs[i], depth - 1, alpha, beta, true, ply + 1, st);
    if o.Done? {
      var best', beta' := Min(best, o.score), Min(beta, o.score);
      if beta' <= alpha {
        assert MinLoop(env, g, cs, i, depth, alpha, beta, best, ply, st).1 == st'.(prunes := st'.prunes + 1);
      } else {
        assert MinLoop(env, g, cs, i, depth, alpha, beta, best, ply, st) ==
               MinLoop(env, g, cs, i + 1, depth, alpha, beta', best', ply, st');
      }
    }
  }
}
