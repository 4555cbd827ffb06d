# Gomoku rules engine, alpha-beta move chooser and lobby bookkeeping in Dafny

This project models the core of a Python Gomoku game (five in a row on a 15 x 15 board)
and proves properties of that model. It covers six parts:

- **`GomokuGame`** (`game_rules.dfy`, `game_board.dfy`, `grid.dfy`). The board of
  `Player` cells. It covers:
  - move validation and placement, with turn rotation through `player_index`;
  - the four-axis win scan;
  - undo and copy;
  - the two candidate generators;
  - the integer position heuristic.

  `GameRules` states the game as values. Class `GameBoard.GomokuGame` keeps the same state
  in fields that its methods update in place, and each method's loops are proved to
  compute the `GameRules` function.
- **`AIPlayer`** (`search_spec.dfy`, `root_spec.dfy`, `ai_player.dfy`).
  - The difficulty table.
  - Fail-soft alpha-beta `_minimax`, with its node, prune and per-depth counters.
  - `_find_critical_blocks`.
  - The scoring, sorting and search loop of `_minimax_root`.
  - The iterative deepening of `get_move`.

  `SearchSpec` and `RootSpec` give what these compute as functions. `Value` is a plain
  minimax reference over the same candidate lists. Class `Ai.AIPlayer` is proved against
  these functions.
- **`Gomoku`** (`simple_gomoku.dfy`). The stand-alone engine on an integer board, with a
  configurable size and win length.
- **Save records and settings** (`game_states.dfy`, `json.dfy`).
  - The record a game is saved as, and reading it back.
  - The structural validator.
  - The `.json` file-name rule.
  - `GameSettings` with its defaults.
- **`LobbyManager`** (`lobby_rules.dfy`, `lobby.dfy`). Players, rooms and who sits where.
  `Consistent` is the invariant that every room assignment points at an existing room
  where the player is host or guest. Every operation is proved to keep it.
- **`ServerConfigManager`** (`server_config_rules.dfy`, `server_config.dfy`). The
  name-to-config registry and its `current_config` name. The names are kept in
  insertion order, because `remove_config` falls back to the first remaining name.

Where a class updates fields in place, the class's methods are proved equal to a value
function on the whole state (`Snapshot()`, `State()`, `Counters()`). The lemmas about
that function carry the properties.

The model uses the following substitutions for the clock, randomness, set order and infinities:

- **Clock.** Every `time.time() - start_time > time_limit` test reads an oracle,
  `Env.expired(k)`, where `k` counts the readings so far. A `TimeoutError` becomes the
  `TimedOut` outcome.
- **Sampling.** `random.sample` is a parameter `pick`, assumed only to return the
  requested number of distinct elements of its input.
- **Set order.** The order in which `list(set)` lists a set is a parameter `arrange`,
  assumed only to list each element once.
- **Infinities.** `float('-inf')` and `float('inf')` are the integers
  `-1_000_000_000` and `1_000_000_000`. Every evaluation lies within +-900000, so they
  are never reached.

Some behaviour of the code is worth stating plainly, because a reader might expect otherwise:

- **No mate-distance shading.** A finished game or a depth-0 node scores the plain static
  evaluation. Wins are not shaded by distance.
- **No candidates.** A node without candidates is scored by the static evaluation, not
  by 0.
- **Candidate order.** Candidates come in `list(set)` order, not ranked by proximity.
  An empty history gives the five centre cells.
- **Deepening.** Iterative deepening does not move the previous depth's best move to the
  front.
- **Time checks.** The clock is read at every node, not only between depths.
- **Evaluation.** Only empty cells are scored, as their potential for each side. The
  opponent's potential is subtracted without a defensive weight.
- **No place and retract.** The search copies the game for each child instead of
  placing and retracting stones, so the searched position is never changed.
- **Shared line counter.** `_evaluate_line` keeps one counter across its two walks. The
  model sums two walks (`Walk`), which gives the same numbers.
- **Turn index.** `undo_move` and `copy` leave `player_index` as it was or reset it to 0,
  so the current player is not always the one at `player_index`.

## Model

| member | source | states |
|---|---|---|
| GameRules.EmptyBoard | src/gomoku_game.py:81-82 | a fresh board is 15 x 15 and every cell is Empty |
| GameRules.NewGame | src/gomoku_game.py:70-86 | a game exists exactly for 2 to 5 players; it starts with Black to move, index 0, no history, state Playing and no winner |
| GameRules.CheckWinIffFiveInRow | src/gomoku_game.py:151-187 | the axis scan reports a win exactly when the cell holds a stone and five or more consecutive equal stones through it lie on one axis, overlines included |
| GameRules.Place | src/gomoku_game.py:113 | the target cell gets the stone and every other cell keeps its contents |
| GameRules.MakeMove | src/gomoku_game.py:104-136 | a move keeps the game well formed (square board, 2 to 5 players, player index in range); a move that is made and leaves the game Playing hands the turn to the player at the new index |
| GameRules.MakeMoveAccepts | src/gomoku_game.py:98-110 | a move is accepted exactly when the cell is on the board and empty and the game is still being played; a refused move changes nothing |
| GameRules.MakeMoveEffect | src/gomoku_game.py:112-134 | an accepted move puts the mover's stone in exactly that cell and appends exactly one record. A win makes the mover the winner, sets the matching state and keeps the turn. A full board without a win is a draw. Otherwise the index advances modulo the player count |
| GameRules.UndoMove | src/gomoku_game.py:138-149 | nothing to undo exactly on an empty history, which is left unchanged. Otherwise the last move is popped; a coordinate outside -15..14 raises `IndexError` after the pop with nothing else changed, and otherwise the cell Python indexing reaches (negatives wrap) is cleared, the move's player is current, the game is Playing with no winner, and the player index is kept |
| GameRules.UndoAfterMove | src/gomoku_game.py:138-149 | undoing a move restores the board, history and current player, sets Playing and no winner, and leaves the player index where the move put it |
| GameRules.CopyGame | src/gomoku_game.py:321-329 | a copy of a well-formed game is a well-formed two-player game |
| GameRules.CopyThenMoveHandsTurnToWhite | src/gomoku_game.py:321-329 | because a copy restarts the player index at 0, any non-final move on a copy hands the turn to White, index 1 |
| GameRules.LegalMovesSpec | src/gomoku_game.py:197-204 | the legal moves are exactly the empty cells, each once, in row-major order; the list is empty exactly when the board is full |
| GameRules.NeighbourSetMember | src/gomoku_game.py:217-232 | the candidate set holds exactly the empty cells next to some stone |
| GameRules.SmartMovesSpec | src/gomoku_game.py:206-236 | with a history, the smart moves are at most `limit` distinct empty cells, each next to a stone |
| GameRules.LineScoreMonotone | src/gomoku_game.py:309-319 | a line score is one of 0, 1, 2, 10, 100, 1000, and never drops with a longer run or fewer blocks |
| GameRules.WalkMeasuresRun | src/gomoku_game.py:284-294 | one walk of `_evaluate_line` counts exactly the run of the player's stones and reports a block exactly when an opponent stone ends it |
| GameRules.EdgeDoesNotBlock | src/gomoku_game.py:285-292 | a walk is blocked exactly when the cell after the run is on the board and holds a stone of another player; the board edge does not block |
| GameRules.AxesScoreBounds | src/gomoku_game.py:268-275 | the sum over the first k axes is between 0 and 1000 k |
| GameRules.PotentialBounds | src/gomoku_game.py:263-275 | a cell's potential is between 0 and 4000 |
| GameRules.RowScoreBounds | src/gomoku_game.py:254-259 | the running score over a row prefix of `col` cells is within +-4000 `col` |
| GameRules.RowsScoreBounds | src/gomoku_game.py:254-259 | the running score over the first `row` rows is within +-60000 `row` |
| GameRules.EvaluationBounded | src/gomoku_game.py:238-261 | every evaluation lies within +-900000 |
| GameRules.RowScoreAntisymmetric | src/gomoku_game.py:254-259 | swapping the two players negates the running score of a row prefix |
| GameRules.RowsScoreAntisymmetric | src/gomoku_game.py:254-259 | swapping the two players negates the running score over whole rows |
| GameRules.EvaluationZeroSum | src/gomoku_game.py:238-261 | on every board the evaluation for Black is the negation of the evaluation for White |
| Grid.AxisCountIffLine | src/gomoku_game.py:165-185 | the two-sided count along one axis reaches `len` exactly when some `len` consecutive cells through the cell all hold its colour |
| Grid.WinsThroughIffRow | src/gomoku_game.py:151-187 | the four-axis ray count agrees with the brute-force window scan on every board |
| Grid.RayCells | src/gomoku_game.py:169-174 | the cells a walk counts all hold the colour, and the cell after them does not |
| Grid.MatchingRowsSpec | src/gomoku_game.py:197-204 | the row-major scan lists exactly the cells with the given contents, in strictly increasing row-major order |
| GameBoard.GomokuGame.constructor | src/gomoku_game.py:70-86 | the new object holds the game `NewGame` gives for that player count |
| GameBoard.GomokuGame.Create | src/gomoku_game.py:70-86 | no game exactly when the player count is outside 2..5 (where the constructor raises `ValueError`); otherwise a fresh object holding the game `NewGame` gives |
| GameBoard.GomokuGame.ResetGame | src/gomoku_game.py:88-96 | the fields become an empty board, index 0, the first player, no history, Playing and no winner |
| GameBoard.GomokuGame.MakeMove | src/gomoku_game.py:104-136 | the new state and the answer are those of `GameRules.MakeMove`; the answer is true exactly for an empty on-board cell while Playing |
| GameBoard.GomokuGame.UndoMove | src/gomoku_game.py:138-149 | the new state and the outcome (undone, nothing to undo, or `IndexError` after the pop) are those of `GameRules.UndoMove` |
| GameBoard.GomokuGame.CheckWin | src/gomoku_game.py:151-187 | the loop over the axes answers `GameRules.CheckWin`, so it reports five in a row through the cell |
| GameBoard.GomokuGame.CountAxis | src/gomoku_game.py:165-182 | the count is the stone itself plus the run of its colour in both directions of the axis |
| GameBoard.GomokuGame.CountOn | src/gomoku_game.py:169-174 | the while loop adds exactly the length of the run ahead |
| GameBoard.GomokuGame.IsBoardFull | src/gomoku_game.py:189-195 | the nested scan answers whether no cell is Empty |
| GameBoard.GomokuGame.GetLegalMoves | src/gomoku_game.py:197-204 | the nested loops build exactly the row-major list of empty cells |
| GameBoard.GomokuGame.GetSmartMoves | src/gomoku_game.py:206-236 | the nested loops build the set of empty neighbours of stones, and the result is its listing cut to `limit` (the five centre cells with no history) |
| GameBoard.SeenAll | src/gomoku_game.py:217-235 | after the whole scan a cell is in the set exactly when it is empty and next to a stone |
| GameBoard.GomokuGame.WalkLine | src/gomoku_game.py:284-294 | the while loop's count and blocks are the run and block of `Walk` |
| GameBoard.GomokuGame.EvaluateLine | src/gomoku_game.py:277-319 | the score is the table value for both walks together |
| GameBoard.GomokuGame.Potential | src/gomoku_game.py:263-275 | the potential is the sum of the four line scores of an empty cell, 0 for an occupied one |
| GameBoard.GomokuGame.EvaluatePosition | src/gomoku_game.py:238-261 | +-10000 for a decided game, 0 for a draw, otherwise the accumulated potentials of empty cells for the player minus those for the opponent |
| GameBoard.GomokuGame.Copy | src/gomoku_game.py:321-329 | the copy is a fresh object holding `CopyGame` of this game |
| RootSpec.TiersStrictlyIncrease | src/ai_player.py:42-50 | exactly easy, medium, hard and expert are known; depth, time limit and candidate cap strictly increase along them; only easy skips smart moves |
| Ai.AIPlayer.constructor | src/ai_player.py:17-50 | a known tier yields a player with zeroed statistics; an unknown tier cannot construct one |
| Ai.AIPlayer.Create | src/ai_player.py:17-50 | no player exactly when the tier is not one of easy, medium, hard and expert (where the constructor raises `ValueError`); otherwise a fresh, well-formed player for that colour and tier |
| RootSpec.CappedScanSpec | src/ai_player.py:340-352 | the threat walk counts the opponent's run capped at five, and one open end exactly when that run ends at an empty cell |
| Ai.CappedWalk | src/ai_player.py:340-352 | the while loop yields the capped count and open end of `CappedScan` |
| Ai.Tally | src/ai_player.py:336-367 | the two walks of one direction give the tally of that axis |
| Ai.ScanAxis | src/ai_player.py:334-380 | one direction raises the four, open-three and three flags as the scan over the axes so far prescribes |
| Ai.AIPlayer.ClassifyMove | src/ai_player.py:327-381 | a move's block class is the one the direction scan decides |
| Ai.AIPlayer.TagMoves | src/ai_player.py:327-388 | the three lists are the legal moves of each block class, in order |
| RootSpec.TaggedSpec | src/ai_player.py:383-388 | a class list holds exactly the legal moves of that class, without duplicates when the legal moves have none |
| RootSpec.ThreatsSpec | src/ai_player.py:399-414 | the threat list holds exactly the legal moves outside the critical list where an opponent move ends the game |
| Ai.AIPlayer.FindThreats | src/ai_player.py:399-414 | the loop yields exactly the threat list of `Threats` |
| RootSpec.CriticalBlocksSpec | src/ai_player.py:314-416 | the result holds exactly the legal moves that block something or after which the opponent's move ends the game (a win or a draw, and every move once the game is already over); it is duplicate-free, and ordered with opponent wins first, then fours, open threes and threes |
| Ai.AIPlayer.FindCriticalBlocks | src/ai_player.py:314-416 | the method yields the list `CriticalBlocks` describes |
| RootSpec.WithoutSpec | src/ai_player.py:148 | the remaining moves are exactly the legal ones not among the critical ones, still duplicate-free |
| Ai.AIPlayer.Others | src/ai_player.py:148 | the comprehension yields `Without(legal, critical)`: the legal moves not among the critical blocks, in their order |
| RootSpec.ScoredSpec | src/ai_player.py:154-160 | each scored pair is the evaluation of the position after that move, for the AI, beside the move, in order |
| RootSpec.ScoredMembers | src/ai_player.py:154-160 | a pair is scored exactly when its move is a candidate and its score is that move's evaluation |
| Ai.AIPlayer.ScoreMoves | src/ai_player.py:154-160 | the loop builds exactly the scored list |
| RootSpec.InsertSpec | src/ai_player.py:163 | inserting into a descending list keeps it descending and adds exactly that element |
| RootSpec.SortDescSpec | src/ai_player.py:163 | the sort gives a descending permutation of its input |
| RootSpec.SortedDescUnique | src/ai_player.py:163 | two descending permutations of the same pairs are equal, so the order is determined by the pairs alone |
| RootSpec.CriticalOrderOverridden | src/ai_player.py:144-163 | for distinct candidates the root order is the descending sort of the scored candidates, whatever the critical blocks put first |
| RootSpec.RootOrderMoves | src/ai_player.py:144-163 | every move in the root order is a candidate |
| RootSpec.RootOrderSize | src/ai_player.py:144-163 | a non-empty candidate list gives a non-empty root order |
| Ai.AIPlayer.OrderMoves | src/ai_player.py:144-163 | the method yields the root order |
| SearchSpec.Child | src/ai_player.py:157-158 | the position after a copied move is a well-formed game |
| SearchSpec.AlphaBetaSound | src/ai_player.py:234-294 | a completed search is fail-soft with respect to the minimax value: at most alpha bounds the value from above, at least beta bounds it from below, and in between it is exact |
| SearchSpec.FullWindowIsMinimax | src/ai_player.py:234-294 | with the window (-inf, +inf) a completed search returns exactly the minimax value |
| SearchSpec.AlphaBetaBounded | src/ai_player.py:254-294 | every completed search result lies within the evaluation range |
| SearchSpec.ValueBounded | src/ai_player.py:254-261 | the minimax value lies within the evaluation range |
| SearchSpec.MaxLoopSound | src/ai_player.py:263-278 | the maximizing sibling loop is fail-soft with respect to the best child value from that point |
| SearchSpec.MinLoopSound | src/ai_player.py:279-294 | the minimizing sibling loop is fail-soft with respect to the least child value from that point |
| SearchSpec.MaxLoopBounded | src/ai_player.py:263-278 | a completed maximizing loop result lies within the evaluation range |
| SearchSpec.MinLoopBounded | src/ai_player.py:279-294 | a completed minimizing loop result lies within the evaluation range |
| SearchSpec.MaxLoopStep | src/ai_player.py:265-276 | one maximizing iteration times out with its child, cuts off with one prune count when beta <= alpha, or continues with raised alpha and best |
| SearchSpec.MinLoopStep | src/ai_player.py:281-292 | one minimizing iteration times out with its child, cuts off with one prune count when beta <= alpha, or continues with lowered beta and best |
| SearchSpec.MaxFromIsMax | src/ai_player.py:263-278 | the maximizing reference value is at least every child's value and equals one of them |
| SearchSpec.MinFromIsMin | src/ai_player.py:279-294 | the minimizing reference value is at most every child's value and equals one of them |
| SearchSpec.MaxFromSameSet | src/ai_player.py:263-278 | the maximizing value depends only on the set of candidates |
| SearchSpec.MinFromSameSet | src/ai_player.py:279-294 | the minimizing value depends only on the set of candidates |
| SearchSpec.CandidateOrderIrrelevant | src/ai_player.py:258-294 | reordering the candidates does not change either minimax value |
| SearchSpec.AlphaBetaCounts | src/ai_player.py:240-294 | a search counts at least its own node, each cut-off adds at most one prune per counted node, the clock advances, and a leaf counts exactly one node |
| SearchSpec.MaxLoopCounts | src/ai_player.py:265-278 | a maximizing loop never lowers the node count and adds at most one prune per node it counts, plus one |
| SearchSpec.MinLoopCounts | src/ai_player.py:281-294 | a minimizing loop never lowers the node count and adds at most one prune per node it counts, plus one |
| Ai.AIPlayer.TimeUp | src/ai_player.py:250-251 | a clock check answers the oracle at the current reading and counts one reading |
| Ai.AIPlayer.Minimax | src/ai_player.py:234-294 | the result and the new statistics are those of `AlphaBeta` |
| Ai.AIPlayer.MaxSearch | src/ai_player.py:263-278 | the maximizing loop's result and statistics are those of `MaxLoop` |
| Ai.AIPlayer.MinSearch | src/ai_player.py:279-294 | the minimizing loop's result and statistics are those of `MinLoop` |
| Ai.AIPlayer.SearchChild | src/ai_player.py:184-188 | searching a copied child gives the outcome and statistics of `Search` |
| RootSpec.RootValueAt | src/ai_player.py:184-188 | the value recorded for the j-th root move is the minimax value of its child |
| RootSpec.RootChildResult | src/ai_player.py:187-217 | a root child searched with window (alpha, +inf) returns its true value when above alpha, and a bound on it otherwise |
| RootSpec.RootLoopExpired | src/ai_player.py:171-173 | an expired clock at a root iteration ends the root search as timed out |
| RootSpec.RootLoopChild | src/ai_player.py:184-217 | one root iteration times out with its child, cuts off with one prune count, or continues with the improved best move, best score and alpha |
| RootSpec.FirstMaxStep | src/ai_player.py:208-212 | replacing the best move only on a strictly greater score keeps the first maximum |
| RootSpec.RootLoopFindsFirstBest | src/ai_player.py:171-217 | a completed root loop returns the first root move whose value is the greatest, with that value |
| RootSpec.RootLoopMove | src/ai_player.py:171-217 | a completed root loop over a non-empty order returns some move of that order |
| RootSpec.RootSearchMove | src/ai_player.py:135-232 | a completed root search returns one of the candidates |
| RootSpec.RootSearchFindsFirstBest | src/ai_player.py:135-232 | a completed root search returns the first move, in the sorted order, whose minimax value is the greatest |
| Ai.AIPlayer.SearchOrdered | src/ai_player.py:165-217 | the root loop's result and statistics are those of `RootLoop` |
| Ai.AIPlayer.MinimaxRoot | src/ai_player.py:135-232 | the root search's result and statistics are those of `RootSearch` |
| RootSpec.CandidatesValid | src/ai_player.py:87-94 | after the first move every candidate is distinct, on the board and empty |
| Ai.AIPlayer.GetCandidates | src/ai_player.py:87-94 | smart moves capped by the tier, or legal moves sampled down to the cap for easy |
| RootSpec.Deepen | src/ai_player.py:104-129 | iterative deepening settles on the starting move or one of the candidates |
| RootSpec.DeepenStep | src/ai_player.py:104-129 | past the last depth, on an expired clock or on a timed-out search the loop ends keeping the best move; a completed search replaces it by the move found, and the loop stops there when the score is at least 9000 and goes one depth deeper otherwise |
| RootSpec.DeepenKeepsOrAdopts | src/ai_player.py:103-129 | the move returned is the starting move or the move of a completed root search at a depth between the first and the last |
| Ai.AIPlayer.DeepenOnce | src/ai_player.py:106-129 | one depth step either stops, keeping the move, or continues deepening from the move a completed search returned |
| RootSpec.GetMoveSpec | src/ai_player.py:52-133 | wrong turn is refused. An empty history gives (7, 7). Otherwise there is no move exactly when there are no candidates, the sole candidate is returned when there is one, and any move is a candidate and a valid move |
| Ai.AIPlayer.GetMove | src/ai_player.py:52-133 | the answer and statistics are those of `RootSpec.GetMove` |
| Common.Take | src/gomoku_game.py:236 | a prefix has length `min(n, len)` and the first elements |
| Common.TakeDistinct | src/gomoku_game.py:236 | a prefix of a duplicate-free list is duplicate-free and drawn from it |
| SimpleGomoku.ZeroBoard | src/gomoku.py:14 | the board is `size` x `size` and all zero |
| SimpleGomoku.Toggle | src/gomoku.py:35 | the turn toggles 1 to 2 and 2 to 1, and is always 1 or 2 |
| SimpleGomoku.WinsFromIffRun | src/gomoku.py:38-57 | the axis walk reports a win exactly when `win_len` consecutive equal cells run through the cell on some axis |
| SimpleGomoku.PlaceSpec | src/gomoku.py:23-36 | placing succeeds exactly with no winner, on the board and on a zero cell. A refusal changes nothing. Success writes the mover into exactly that cell; the mover wins exactly when a run through the cell results, and keeps the turn; otherwise the turn toggles |
| SimpleGomoku.PlaceKeepsPlayers | src/gomoku.py:32-35 | the current player stays 1 or 2 |
| SimpleGomoku.AvailableMovesSpec | src/gomoku.py:59-65 | the available moves are exactly the zero cells, in row-major order |
| SimpleGomoku.FullIffNoMoves | src/gomoku.py:67-68 | the board is full exactly when there are no available moves |
| SimpleGomoku.CountThrough | src/gomoku.py:41-54 | the two walks count the stone plus the run in both directions |
| SimpleGomoku.Walk | src/gomoku.py:44-48 | one while loop counts exactly the run ahead |
| SimpleGomoku.InvalidPlacementExample | src/gomoku.py:25-30 | placing on an occupied cell or off the board is refused |
| SimpleGomoku.Gomoku.constructor | src/gomoku.py:10-16 | with `size >= win_len >= 3`, the engine starts all zero, player 1, no winner |
| SimpleGomoku.Gomoku.Reset | src/gomoku.py:18-21 | the engine returns to all zero, player 1, no winner |
| SimpleGomoku.Gomoku.Place | src/gomoku.py:23-36 | the new state and answer are those of `Placed` |
| SimpleGomoku.Gomoku.CheckWinFrom | src/gomoku.py:38-57 | the loops answer the win test through the cell |
| SimpleGomoku.Gomoku.GetAvailableMoves | src/gomoku.py:59-65 | the loops build exactly the available-moves list |
| SimpleGomoku.Gomoku.IsFull | src/gomoku.py:67-68 | full exactly when there are no available moves |
| GameStates.WithJsonSuffix | src/game_states.py:46-47 | the name ends in `.json`; it is the name itself when it already did, and the name plus `.json` otherwise |
| GameStates.WithJsonSuffixIdempotent | src/game_states.py:81-82 | normalising twice equals normalising once |
| GameStates.PlayerFromValue | src/gomoku_game.py:11-18 | a player exists exactly for the values 0 to 5, and it has that value |
| GameStates.PlayerOfValue | src/game_states.py:266 | a player's value reads back as that player |
| GameStates.StatusOf | src/gomoku_game.py:35-40 | a state is read exactly from its own string |
| GameStates.ParseBoard | src/game_states.py:264-266 | the parsed board is 15 x 15 with the player of each recorded cell |
| GameStates.ParseMoves | src/game_states.py:274-281 | one move per record, in order, each the record's move |
| GameStates.DeserializeGame | src/game_states.py:250-287 | the cell-by-cell fill and the move appends give `DeserializedGame`, which is `None` wherever a lookup or enum conversion raises, and also on a move whose `row` or `col` is not an integer |
| GameStates.DeserializeSerialize | src/game_states.py:225-287 | reading a serialised game back gives its copy: board, current player, state, winner and history |
| GameStates.EmptyWinnerIsLost | src/game_states.py:271 | a recorded winner of Empty reads back as no winner |
| GameStates.ValidateSaveData | src/game_states.py:289-329 | the early-return checks answer exactly `ValidSaveData`: the required keys, a 15 x 15 board and cells 0, 1 or 2 |
| GameStates.SaveDataValidIff | src/game_states.py:289-329 | a saved record passes validation exactly when its board holds only Empty, Black and White |
| GameStates.SaveLoadRoundTrip | src/game_states.py:94-108 | saving and loading such a game gives its copy, the extra data or `{}`, and the stamps |
| GameStates.SavedMultiColourGameRejected | src/game_states.py:320-324 | a saved game with a stone of a third colour does not load |
| GameStates.ValidRecordWithoutWinnerNotLoaded | src/game_states.py:301-311 | validation ignores `winner`, so a record without it validates yet does not load |
| GameStates.LoadSettings | src/game_states.py:353-374 | the settings hold every default key and every loaded key; loaded values win, defaults fill the rest |
| GameStates.GameSettings.constructor | src/game_states.py:337-351 | the settings are the loaded merge |
| GameStates.GameSettings.Get | src/game_states.py:392-394 | the stored value for a present key, the default otherwise |
| GameStates.GameSettings.Set | src/game_states.py:396-398 | afterwards `get` of that key answers the value and no other key changes |
| GameStates.GameSettings.ResetToDefaults | src/game_states.py:400-402 | the settings become exactly the defaults |
| JsonValues.Get | src/game_states.py:394 | `dict.get`: the stored value for a present key, the default otherwise |
| LobbyRules.RoomPredicates | src/lobby_manager.py:46-60 | a room holds 1 or 2 players, 2 exactly when full, and can be joined exactly when waiting with one player |
| LobbyRules.EmptyLobbyConsistent | src/lobby_manager.py:81-86 | the empty lobby is consistent |
| LobbyRules.AddPlayerKeeps | src/lobby_manager.py:88-102 | adding a player keeps consistency, maps the client to the new player and leaves rooms and seats alone |
| LobbyRules.CreateRoomSpec | src/lobby_manager.py:127-158 | a room is created exactly for a known client whose player is in no room. It takes the next id with the player as host and no guest, the counter advances, and the host is seated. Otherwise nothing changes. Consistency is kept |
| LobbyRules.JoinRoomSpec | src/lobby_manager.py:160-189 | joining succeeds exactly for a known, unseated player and a joinable room whose password matches when private. The player becomes the guest and is seated. Otherwise nothing changes. Consistency is kept |
| LobbyRules.LeaveRoomSpec | src/lobby_manager.py:191-221 | leaving succeeds exactly for a seated player. A host closes the room and unseats both players; a guest empties the guest seat and the room returns to waiting. Consistency is kept |
| LobbyRules.HostLeaves | src/lobby_manager.py:205-212 | a host leaving keeps consistency |
| LobbyRules.GuestLeaves | src/lobby_manager.py:214-217 | a guest leaving keeps consistency |
| LobbyRules.RemovePlayerSpec | src/lobby_manager.py:104-125 | removal succeeds exactly for a known client with a player. Afterwards the player is unseated, sits in no room and is gone from both maps. Otherwise nothing changes. Consistency is kept |
| LobbyRules.StartGameSpec | src/lobby_manager.py:248-257 | starting succeeds exactly for an existing full room, which becomes Playing; otherwise nothing changes |
| LobbyRules.InsertNewestSpec | src/lobby_manager.py:227-232 | inserting the summary of a room not yet listed keeps the list in listing order (newest first, rooms with equal creation times by ascending id) and duplicate-free, and adds exactly that summary |
| LobbyRules.InsertNewestMembers | src/lobby_manager.py:232 | the insertion holds exactly the old elements and the new one |
| LobbyRules.InsertNewestOrder | src/lobby_manager.py:227-232 | the insertion keeps listing order: newest first, and rooms with the same creation time by ascending room id, which is the order `self.rooms` yields them in and the stable sort keeps |
| Lobby.LobbyManager.constructor | src/lobby_manager.py:81-86 | the manager starts empty with room counter 1, which is consistent |
| Lobby.LobbyManager.AddPlayer | src/lobby_manager.py:88-102 | the new state and player are those of `AddPlayer` |
| Lobby.LobbyManager.CreateRoom | src/lobby_manager.py:127-158 | the new state and room are those of `CreateRoom` |
| Lobby.LobbyManager.JoinRoom | src/lobby_manager.py:160-189 | the new state and room are those of `JoinRoom` |
| Lobby.LobbyManager.LeaveRoom | src/lobby_manager.py:191-221 | the new state and answer are those of `LeaveRoom` |
| Lobby.LobbyManager.RemovePlayer | src/lobby_manager.py:104-125 | the new state and answer are those of `RemovePlayer` |
| Lobby.LobbyManager.StartGame | src/lobby_manager.py:248-257 | the new state and answer are those of `StartGame` |
| Lobby.LobbyManager.GetPublicRooms | src/lobby_manager.py:224-233 | the answer lists the summaries of exactly the public joinable rooms, each once, newest first and, among rooms with the same creation time, in creation order (ascending room id) |
| LobbyRules.EqualTimesByCreation | src/lobby_manager.py:227-232 | of two rooms with the same creation time, the one created first is listed first, and the other order is not a listing |
| LobbyRules.NewestFirstUnique | src/lobby_manager.py:232 | two lists of the same summaries, both in listing order, are equal |
| LobbyRules.PublicListingUnique | src/lobby_manager.py:224-233 | the public listing is determined by the rooms: any two answers that list exactly the public rooms in listing order are the same list |
| ServerConfigRules.ServerTypeOf | src/server_config.py:13-18 | a server type is read exactly from its own string |
| ServerConfigRules.FromDictToDict | src/server_config.py:34-44 | `from_dict(to_dict(c))` is `c` |
| ServerConfigRules.FromDictUnknownType | src/server_config.py:41-44 | a dictionary with an unknown server type is refused |
| ServerConfigRules.Without | src/server_config.py:167 | deleting a key keeps exactly the other names, in order, without duplicates |
| ServerConfigRules.AddConfigSpec | src/server_config.py:138-145 | adding fails and changes nothing exactly when the name is taken. Otherwise the config is stored under its name, listed last, and `current_config` is unchanged |
| ServerConfigRules.UpdateConfigSpec | src/server_config.py:147-160 | updating fails and changes nothing exactly for an unknown name. Otherwise the old key is gone, the config is stored under its own name, and a `current_config` naming the old name follows the rename. A rename takes the old name out of the order and lists the new name last, unless it was already listed, where it stays |
| ServerConfigRules.RemoveConfigSpec | src/server_config.py:162-174 | removing fails and changes nothing exactly for an unknown name. Otherwise the entry is gone and the others keep their order. A `current_config` naming it moves to the first remaining name, or to none when none remains |
| ServerConfigRules.SetCurrentConfigSpec | src/server_config.py:176-183 | setting succeeds exactly for a known name and changes only `current_config` |
| ServerConfigRules.GetCurrentConfig | src/server_config.py:185-189 | there is a current config exactly when `current_config` is set and names a stored config, and then it is that config |
| ServerConfigRules.GetConnectionInfoSpec | src/server_config.py:203-208 | there is connection info exactly when there is a current config, and it is that config's host and port |
| ServerConfigRules.EmptyNameNeverCurrent | src/server_config.py:185-189 | a config named `""` can be made current, yet there is then no current config |
| ServerConfigRules.DefaultIndex | src/server_config.py:92-126 | the index names the default of that name, or is past the end when no default has it |
| ServerConfigRules.AddDefaultsKeeps | src/server_config.py:128-130 | adding defaults keeps every stored entry, the order of old names and `current_config` |
| ServerConfigRules.AddDefaultsAdds | src/server_config.py:128-130 | after the first k defaults their names are present and every new entry is one of them |
| ServerConfigRules.EnsureDefaultsSpec | src/server_config.py:90-134 | afterwards the four default names are present and stored configs keep their entries and order. Every new entry is the default of its name. An unset `current_config` becomes "Local Development", which is then current; a set one is kept |
| ServerConfigs.ServerConfigManager.constructor | src/server_config.py:50-55 | the registry is the loaded one with the defaults ensured |
| ServerConfigs.ServerConfigManager.EnsureDefaultConfigs | src/server_config.py:90-136 | the new registry is `EnsureDefaults` of the old |
| ServerConfigs.ServerConfigManager.AddMissingDefaults | src/server_config.py:128-130 | the loop adds the missing defaults as `AddDefaults` does |
| ServerConfigs.ServerConfigManager.PutIfMissing | src/server_config.py:129-130 | a default is stored only under a name not yet taken |
| ServerConfigs.ServerConfigManager.AddConfig | src/server_config.py:138-145 | the new registry and answer are those of `AddConfig` |
| ServerConfigs.ServerConfigManager.UpdateConfig | src/server_config.py:147-160 | the new registry and answer are those of `UpdateConfig` |
| ServerConfigs.ServerConfigManager.RemoveConfig | src/server_config.py:162-174 | the new registry and answer are those of `RemoveConfig` |
| ServerConfigs.ServerConfigManager.SetCurrentConfig | src/server_config.py:176-183 | the new registry and answer are those of `SetCurrentConfig` |

## Left out

- Printing, the pygame interface, sockets, threads and the backend server are not part
  of this model. Neither are the Monte-Carlo AI in src/ai.py and the validator and entry
  scripts.
- File I/O is not modelled. This covers `save_game`, `load_game`, `delete_save_file`,
  the quick-save helpers, `get_save_files` with its modification-time sort,
  `load_settings`/`save_settings` file access and `_load_configs`/`_save_configs`.
  - A parsed file is passed in as a `Json` value or an optional registry.
  - A write is a no-op.
  - The `datetime` stamps are parameters.
- The AI's `real_time_stats`, `move_evaluations`, `search_time` and `get_statistics`
  are left out. They are display-only, use floating point, and do not influence the
  move chosen.
- `RandomAI` is not part of this model.
- `Ai.AIPlayer.constructor`: where the source raises `ValueError` for an unknown tier, the
  constructor instead requires a known one. `TierSettings` is `None` exactly for the
  unknown tiers.
- `Ai.AIPlayer.GetMove`: the `ValueError` for a call out of turn becomes the answer
  `NotMyTurn`.
- `Ai.AIPlayer.GetCandidates`: the easy tier's `random.sample` is the parameter `pick`.
  The only assumption is that it returns the requested number of distinct elements, so
  the model does not fix which sample is taken.
- `GameBoard.GomokuGame.GetSmartMoves`: the order of `list(set)` is the parameter
  `arrange`, assumed only to list each element once. Which `limit` cells survive the cut
  is therefore not determined.
- `Ai.AIPlayer.TimeUp`: the wall clock is an oracle over the number of readings, and
  time limits are kept in tenths of a second. Elapsed time itself is not modelled.
- `float('-inf')` and `float('inf')` are integer sentinels beyond the evaluation range.
  Comparisons with them behave as with the floats.
- `Lobby.LobbyManager.AddPlayer`: player ids `player_<k>_<t>` are the pair `(k, t)` and
  room ids `room_<n>` the number `n`. The clock reading `now` is a parameter, so two
  calls in the same second can produce the same id, as in the source.
- `Lobby.LobbyManager.JoinRoom`: rooms and player records are values. The source returns
  and stores the same mutable `GameRoom` object, and that aliasing is not modelled.
- `cleanup_inactive_rooms`, `get_player_room`, `get_room_info` and `get_lobby_stats`
  are not modelled. They are read-only or time-based housekeeping outside the room
  invariant.
- `ServerConfigs.ServerConfigManager.constructor`: the registry read by `_load_configs`
  is a parameter. A file that fails to parse is the empty registry.
- `ServerConfigRules.FromDictToDict`: `from_dict` rewriting its argument's `server_type`
  in place is not modelled.
- `get_config`, `get_all_configs`, `get_config_names` and `get_server_config` are plain
  lookups and are not modelled separately.
- `GameStates.LoadSettings`: a settings file that is not a JSON object is treated like a
  missing file. The source's `dict.update` merges a JSON array of two-element pairs, does
  nothing for an empty array or empty string, and raises (so the defaults are used) for
  other values. The model gives the defaults in all these cases.
- `GameStates.DeserializeGame`: a move's `row` and `col` are integers here. The source's
  `Move` stores any value unchecked, so a record whose `row` is a string, a boolean or a
  float loads there but gives `None` here. JSON floats are not represented at all.
- `ServerConfigRules.FromDict`: fields are typed here (`name`, `host` strings, `port` an
  integer, `use_ssl` a boolean, optional strings or `null`). The dataclass constructor
  stores values of any type, so a dictionary with, say, a string `port` gives a config
  there and `None` here. JSON floats are not represented at all.
- The board string of `get_board_string` and `__str__` is not modelled.
