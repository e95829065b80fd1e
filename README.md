# Verified model of three AI course exercises

This project is a Dafny model of the core of three exercises from one
repository, with proofs of what their code promises.

- **Othello agents** (`starter_code/starter_code/agent.py`, `agent_test.py`):
  - depth-limited minimax and alpha-beta search, written as mutually recursive max and min nodes;
  - optional node ordering;
  - four memo dictionaries per agent, cleared by every `select_move_*` call;
  - the board evaluation functions the search uses.
- **Sokoban heuristics** (`Sokoban_Starter/solution.py`) and the fixture parser
  `parse_state_string` (`Sokoban_Starter/tester.py`):
  - Manhattan distance and Manhattan paths;
  - obstacle counting and the deadlock tests;
  - the plain, "better" and alternate heuristics, including the one-entry memo of `heur_alternate`.
- **CSP exercise** (`csp/csp/puzzle_csp.py`, `propagators.py`, `test_error.py`):
  - the tuple generators for addition, subtraction and multiplication cages;
  - the binary and n-ary grid encodings and the cage (KenKen-style) encoding;
  - the propagators `prop_BT`, `prop_FC` and `prop_FI`;
  - the n-queens model and its DWO test.

The modules follow the programs.

- **Othello: shared definitions.**
  - `Othello` holds the board, the move, the oracle and the one assumption the search rests on.
  - `ExtInts` stands in for Python's `float('-inf')`/`float('inf')`.
  - `SearchFolds` holds the running maximum/minimum with a strict comparison, plus fail-soft facts.
  - `StableSort` models `list.sort(key=…, reverse=…)`.
- **Othello: evaluation and search.**
  - `AgentEval`, `AgentTestEval`: utility, heuristic and move evaluation of each agent.
  - `AgentSearch`: both searches as functions of the board, with caching off.
  - `AgentProperties`: the theorems about those functions.
  - `SearchCaches`: the memo invariants.
- **Othello: stateful agents.** `AgentCache.Agent` and `AgentTestCache.TestAgent` are the stateful searches:
  - the module-level dictionaries become fields;
  - the node functions become methods proved against `AgentSearch`.
- **Sokoban:**
  - `Sokoban`: the state;
  - `SokobanGeometry`: distance, path and obstacle count;
  - `SokobanDeadlock`: the deadlock tests;
  - `SokobanHeuristics`: the heuristics, and the class `AlternateMemo` for the two globals;
  - `SokobanParser`: `parse_state_string`.
- **CSP:**
  - `CspTuples`: `itertools.product` and `itertools.permutations`;
  - `CageTuples`: the cage generators;
  - `CspBase`: the CSP the propagators work on, the class `Csp`;
  - `CspGrids`: `puzzle_csp.py`;
  - `Propagators`: `prop_BT`, `prop_FC`;
  - `FullInference`: `prop_FI`;
  - `Queens`: `test_error.py`.

**Environment assumptions:**

- **`othello_shared` is not part of this model.** Its `get_possible_moves`, `play_move` and `get_score` are the three function fields of an `Oracle` value. The search assumes one thing about them (`Othello.Sound`): a legal move fills exactly one empty square. This matters in two ways:
  - it makes a search with limit `-1` (no depth limit) terminate;
  - it makes the minimax memo sound even though the memo is keyed by the board alone. Within one search, a board's remaining depth is fixed by its number of empty squares.
- **`cspbase` is not part of this model.** Its behaviour is modelled as the propagators rely on it:
  - a variable has a domain, a set of live values and an optional assigned value;
  - `cur_domain` of an assigned variable is `[value]`, otherwise the live values in domain order;
  - `has_support(v, d)` holds when some tuple of the constraint has `d` at `v` and every other scope variable's entry in its current domain.

## Model

| member | source | states |
|---|---|---|
| AgentEval.UtilityAntisymmetric | starter_code/starter_code/agent.py:27-35 | the utility for player 1 is the disc difference p1 − p2 and is the negation of the utility for player 2 |
| AgentEval.SquareWeights | starter_code/starter_code/agent.py:64-115 | a weight table exists exactly for board sizes 4 to 8 and then has one weight per square |
| AgentEval.GetSquareWeightSum | starter_code/starter_code/agent.py:121-133 | the accumulator loop computes the board's weighted sum over all rows and columns |
| AgentEval.BoardWeightIsOwnMinusOpponent | starter_code/starter_code/agent.py:121-133 | the weighted sum is the weight of one's own discs minus the weight of the discs of `3 - color`; empty squares count 0 |
| AgentEval.BoardWeightAntisymmetric | starter_code/starter_code/agent.py:121-133 | the weighted sums for the two colours are negations |
| AgentEval.HeuristicAntisymmetric | starter_code/starter_code/agent.py:38-62 | the heuristic, mobility surplus times 40 plus weight sum times 60, is antisymmetric between the two colours |
| AgentEval.Evaluations | starter_code/starter_code/agent.py:136-146 | one evaluation per legal move, in move order: the move, the board after it, and that board's heuristic for the mover |
| AgentEval.EvaluateMoveMax | starter_code/starter_code/agent.py:136-148 | the evaluations sorted non-increasing by utility, a permutation of the unsorted list, with moves of equal utility kept in move order |
| AgentEval.EvaluateMoveMin | starter_code/starter_code/agent.py:150-162 | the evaluations sorted non-decreasing by utility, a permutation, with ties kept in move order |
| StableSort.SortDesc | starter_code/starter_code/agent.py:147 | the sort returns a permutation, non-increasing by key, and keeps the relative order of equal keys |
| StableSort.InsertSorted | starter_code/starter_code/agent.py:147 | inserting into a sorted list keeps it sorted |
| ExtInts.Add | Sokoban_Starter/solution.py:159-165 | adding Python infinities: the sum is `inf` exactly when one summand is, and otherwise the integer sum |
| SearchFolds.MaxFrom | starter_code/starter_code/agent.py:201-210 | the running maximum with strict `>`: not below any value; either the start or the first index that attains the maximum |
| SearchFolds.MinFrom | starter_code/starter_code/agent.py:166-214 | the running minimum with strict `<`: not above any value; either the start or the first index that attains the minimum |
| SearchFolds.MaxValueBySet | starter_code/starter_code/agent.py:201-210 | the maximum depends only on the set of values, not on their order |
| SearchFolds.FailSoftByValue | starter_code/starter_code/agent.py:328-331 | the fail-soft relation: inside the window v itself, at or below α a value ≤ α, at or above β a value ≥ β |
| SearchFolds.FailSoftFullWindow | starter_code/starter_code/agent.py:453 | with the window (−∞, +∞), fail-soft means equal |
| AgentTestEval.UtilityMatchesFirstAgent | starter_code/starter_code/agent_test.py:23-30 | the second agent's utility is antisymmetric and agrees with the first agent's for colours 1 and 2 |
| AgentTestEval.OpponentInvolution | starter_code/starter_code/agent_test.py:111-115 | `get_opponent` returns 1 or 2, and it is an involution without fixed points on {1, 2} |
| AgentTestEval.SquaresOnBoard | starter_code/starter_code/agent_test.py:55-58 | on boards larger than 6 every corner, X-, C- and A-square lies on the board |
| AgentTestEval.DiskScoreCounts | starter_code/starter_code/agent_test.py:60-84 | a square list's score is the own weight times the own discs on it minus the opponent weight times the opponent discs; empty squares add nothing |
| AgentTestEval.HeuristicByCounts | starter_code/starter_code/agent_test.py:34-93 | on boards of more than 6 rows the heuristic is 70 × utility + 70 × mobility difference + Σ over corner, X-, C- and A-squares of (own weight × own discs − opponent weight × opponent discs), so an own disc there never lowers it and an opponent disc never raises it |
| AgentTestEval.AddDiskWeights | starter_code/starter_code/agent_test.py:60-84 | each `result +=` loop adds exactly the disc score of its square list |
| AgentTestEval.ComputeHeuristic | starter_code/starter_code/agent_test.py:34-93 | the loops compute the heuristic, which equals the utility on boards of size ≤ 6 |
| AgentTestEval.PlayedBoards | starter_code/starter_code/agent_test.py:97-104 | one successor board per move, in move order |
| AgentTestEval.MoveDict | starter_code/starter_code/agent_test.py:97-104 | the dictionary's keys are exactly the successor boards; each maps to a legal move that produces it |
| AgentTestEval.MoveDictKeepsLast | starter_code/starter_code/agent_test.py:103 | when two moves lead to the same board, the later move's entry overwrites the earlier one |
| AgentTestEval.AfterMoveBoards | starter_code/starter_code/agent_test.py:97-108 | the board list is a permutation of the successor boards; it is in move order unless `ordering == 1` |
| AgentTestEval.AfterMoveBoardsAreKeys | starter_code/starter_code/agent_test.py:97-108 | a board is in the list exactly when it is a key of the dictionary, and exactly when it is a successor |
| AgentTestEval.AfterMoveBoardList | starter_code/starter_code/agent_test.py:97-108 | the method returns list and dictionary; with `ordering == 1` the list is sorted non-increasing by the mover's heuristic, stable and a permutation; otherwise it is in move order |
| AgentSearch.PlayedFewer | starter_code/starter_code/agent.py:198-210 | under the oracle assumption every legal move leaves fewer empty squares, the measure that makes the unlimited search terminate |
| AgentSearch.MinimaxMax | starter_code/starter_code/agent.py:217-258 | minimax max node with caching off: a finite value; no move exactly at limit 0 or when there are no moves, and then the leaf utility; otherwise a legal move |
| AgentSearch.MinimaxMin | starter_code/starter_code/agent.py:166-214 | minimax min node: the same for the opponent's moves, and the leaf utility is still taken for `color` |
| AgentSearch.MinimaxMaxIsFirstBest | starter_code/starter_code/agent.py:245-254 | the max node returns the largest child value and the first move attaining it |
| AgentSearch.MinimaxMinIsFirstBest | starter_code/starter_code/agent.py:201-210 | the min node returns the smallest child value and the first move attaining it |
| AgentSearch.Unordered | starter_code/starter_code/agent.py:334-352 | without ordering the children are (board after move, move) in move order |
| AgentSearch.PairsSameElements | starter_code/starter_code/agent.py:312-331 | reordering the evaluations does not change which (board, move) children are visited |
| AgentSearch.PairsOfEvaluations | starter_code/starter_code/agent.py:136-148 | the children of the unsorted evaluations are exactly the unordered children |
| AgentSearch.TestChildren | starter_code/starter_code/agent_test.py:238-276 | the second agent visits the boards of `after_move_board_list` with the moves the dictionary gives them; every child is a legal (board, move) pair and every successor is visited |
| AgentSearch.EvaluatedChildren | starter_code/starter_code/agent.py:312-352 | the children the first agent visits: one per move, each a legal (board, move) pair, in move order when `ordering == 0` |
| AgentSearch.MaxChildren | starter_code/starter_code/agent.py:390-428 | the children of a max node are the legal successors of `color`, one per move, all covered |
| AgentSearch.MinChildren | starter_code/starter_code/agent.py:312-352 | the children of a min node are the opponent's legal successors, one per move, all covered |
| AgentSearch.MaxChildrenSorted | starter_code/starter_code/agent.py:390-408 | with ordering on, a max node visits the children in the order of `evaluate_move_max` |
| AgentSearch.MinChildrenSorted | starter_code/starter_code/agent.py:312-331 | with ordering on, a min node visits the children in the order of `evaluate_move_min` |
| AgentSearch.ChildrenUnordered | starter_code/starter_code/agent.py:334-352 | with ordering off, both nodes visit the children in move order |
| AgentSearch.ABMaxLoopStep | starter_code/starter_code/agent.py:405-408 | one loop step of the max node: the maximum and α are updated, and the loop stops exactly when `beta <= alpha` |
| AgentSearch.ABMinLoopStep | starter_code/starter_code/agent.py:328-331 | one loop step of the min node: the minimum and β are updated, and the loop stops exactly when `beta <= alpha` |
| AgentSearch.ChildFewer | starter_code/starter_code/agent.py:312-352 | a visited child is a legal move's board with fewer empty squares |
| AgentSearch.ABMaxLoop | starter_code/starter_code/agent.py:390-428 | the max node's child loop never lowers the running maximum, and any improvement is a finite child value |
| AgentSearch.ABMinLoop | starter_code/starter_code/agent.py:312-352 | the min node's child loop never raises the running minimum, and any improvement is a finite child value |
| AgentSearch.ABMax | starter_code/starter_code/agent.py:359-433 | alpha-beta max node with caching off: a finite value; no move exactly at limit 0 or with no moves, and then the leaf; otherwise a legal move, never a placeholder |
| AgentSearch.ABMin | starter_code/starter_code/agent.py:280-357 | alpha-beta min node: the same for the opponent's moves |
| AgentProperties.MinValuesOf | starter_code/starter_code/agent.py:201-210 | the minimax values of a list of children, one per child |
| AgentProperties.MaxNodeValueInAnyOrder | starter_code/starter_code/agent.py:245-254 | the max node's value is the maximum over its children in whatever order they are visited |
| AgentProperties.MinNodeValueInAnyOrder | starter_code/starter_code/agent.py:201-210 | the min node's value is the minimum over its children in whatever order they are visited |
| AgentProperties.MinimaxMaxValue | starter_code/starter_code/agent.py:245-254 | a max node with moves returns exactly the first best move and its value |
| AgentProperties.ABMaxFailSoftNode | starter_code/starter_code/agent.py:359-433 | alpha-beta max is fail-soft around the minimax value for every non-empty window and every ordering |
| AgentProperties.ABMinFailSoftNode | starter_code/starter_code/agent.py:280-357 | alpha-beta min is fail-soft around the minimax value for every non-empty window and every ordering |
| AgentProperties.ABMaxBoundsByValue | starter_code/starter_code/agent.py:328-331 | inside the window alpha-beta returns the minimax value v; when v ≤ α it returns ≤ α; when v ≥ β it returns ≥ β |
| AgentProperties.ABMaxLoopFullWindow | starter_code/starter_code/agent.py:425-428 | with β = +∞ and no ordering, the max loop never cuts off and is the plain running maximum |
| AgentProperties.AlphaBetaRootValue | starter_code/starter_code/agent.py:453 | at the root the window (−∞, +∞) gives the minimax value, for both agents and either ordering |
| AgentProperties.OrderingKeepsRootValue | starter_code/starter_code/agent.py:390-408 | node ordering does not change the alpha-beta root value |
| AgentProperties.AlphaBetaRootUnordered | starter_code/starter_code/agent.py:435-454 | for the first agent with ordering off, the alpha-beta root returns the same move and value as minimax |
| SearchCaches.StoreMaxAnswer | starter_code/starter_code/agent.py:256-257 | storing a max node's true answer keeps every memo entry equal to the cache-free answer at its depth |
| SearchCaches.StoreABMaxAnswer | starter_code/starter_code/agent.py:431-432 | storing an alpha-beta answer keeps every memo entry a finite value with a legal move |
| AgentCache.Agent.constructor | starter_code/starter_code/agent.py:13-16 | the four dictionaries start empty |
| AgentCache.Agent.MinimaxMaxNode | starter_code/starter_code/agent.py:217-258 | with or without caching the method returns the cache-free minimax max answer, and keeps the memo entries true; with caching on, a node that has moves and depth left is afterwards stored under its board with the answer returned |
| AgentCache.Agent.MaxMovesLoop | starter_code/starter_code/agent.py:245-254 | the move loop returns the cache-free answer and keeps the memos true |
| AgentCache.Agent.MinimaxMinNode | starter_code/starter_code/agent.py:166-214 | with or without caching the method returns the cache-free minimax min answer and keeps the memos true; with caching on, a node that has moves and depth left is afterwards stored under its board with the answer returned |
| AgentCache.Agent.MinMovesLoop | starter_code/starter_code/agent.py:201-210 | the move loop returns the cache-free answer and keeps the memos true |
| AgentCache.Agent.SelectMoveMinimax | starter_code/starter_code/agent.py:260-277 | after clearing both memos, returns minimax's move: none exactly at limit 0 or when there are no moves, otherwise a legal move |
| AgentCache.Agent.AlphaBetaMaxNode | starter_code/starter_code/agent.py:359-433 | with caching off, the alpha-beta max answer; with caching on, a memo hit returns the stored entry; always a finite value and a legal move whenever moves exist; with caching on, a node that has moves and depth left is afterwards stored under its board with the answer returned |
| AgentCache.Agent.MaxChildOrder | starter_code/starter_code/agent.py:390-393 | the evaluations of `evaluate_move_max` give the max node's children |
| AgentCache.Agent.MaxChildrenLoop | starter_code/starter_code/agent.py:390-428 | the child loop with α updates and the cut returns the alpha-beta max answer when caching is off |
| AgentCache.Agent.MaxChildAnswer | starter_code/starter_code/agent.py:396-404 | one child's call returns that child's alpha-beta min answer when caching is off |
| AgentCache.Agent.AlphaBetaMinNode | starter_code/starter_code/agent.py:280-357 | the min node: the alpha-beta min answer with caching off; a memo hit returns the stored entry; with caching on, a node that has moves and depth left is afterwards stored under its board with the answer returned |
| AgentCache.Agent.MinChildOrder | starter_code/starter_code/agent.py:312-316 | the evaluations of `evaluate_move_min` give the min node's children |
| AgentCache.Agent.MinChildrenLoop | starter_code/starter_code/agent.py:312-352 | the min node's child loop returns the alpha-beta min answer when caching is off |
| AgentCache.Agent.MinChildAnswer | starter_code/starter_code/agent.py:318-327 | one child's call returns that child's alpha-beta max answer when caching is off |
| AgentCache.Agent.SelectMoveAlphabeta | starter_code/starter_code/agent.py:435-454 | after clearing both memos: no move exactly at limit 0 or with no moves, otherwise a legal move; with caching off, alpha-beta's move, which is minimax's when ordering is off too |
| AgentCache.MaxChildAt | starter_code/starter_code/agent.py:390-404 | the i-th child visited is the i-th sorted evaluation when ordering is on, and the i-th move's board otherwise |
| AgentTestCache.TestAgent.constructor | starter_code/starter_code/agent_test.py:16-20 | the four dictionaries start empty |
| AgentTestCache.TestAgent.MinimaxMinNode | starter_code/starter_code/agent_test.py:118-162 | with or without caching, the cache-free minimax min answer of the second agent; the memos stay true; with `caching == 1`, a node that has moves and depth left is afterwards stored under its board with the answer returned |
| AgentTestCache.TestAgent.MinimaxMaxNode | starter_code/starter_code/agent_test.py:164-205 | with or without caching, the cache-free minimax max answer; the memos stay true; with `caching == 1`, a node that has moves and depth left is afterwards stored under its board with the answer returned |
| AgentTestCache.TestAgent.SelectMoveMinimax | starter_code/starter_code/agent_test.py:208-224 | after clearing both memos, minimax's move: none exactly at limit 0 or with no moves, otherwise a legal move |
| AgentTestCache.TestAgent.AlphaBetaMinNode | starter_code/starter_code/agent_test.py:227-276 | with caching off, the alpha-beta min answer; a memo hit returns the stored entry; the move is legal whenever moves exist; with `caching == 1`, a node that has moves and depth left is afterwards stored under its board with the answer returned |
| AgentTestCache.TestAgent.MinBoardsLoop | starter_code/starter_code/agent_test.py:255-270 | the loop over `after_move_board_list` with the β cut returns the alpha-beta min answer when caching is off |
| AgentTestCache.TestAgent.AlphaBetaMaxNode | starter_code/starter_code/agent_test.py:279-327 | with caching off, the alpha-beta max answer; a memo hit returns the stored entry; with `caching == 1`, a node that has moves and depth left is afterwards stored under its board with the answer returned |
| AgentTestCache.TestAgent.MaxBoardsLoop | starter_code/starter_code/agent_test.py:306-321 | the loop over the sorted boards with the α cut returns the alpha-beta max answer when caching is off |
| AgentTestCache.TestAgent.SelectMoveAlphabeta | starter_code/starter_code/agent_test.py:330-348 | after clearing both memos: no move exactly at limit 0 or with no moves, otherwise a legal move; alpha-beta's move with caching off |
| AgentTestCache.TestChildAt | starter_code/starter_code/agent_test.py:255-262 | the i-th visited child is the i-th listed board with its dictionary move, a legal move |
| Sokoban.ListOf | Sokoban_Starter/solution.py:106-107 | `list(set)` lists each element of the set exactly once |
| Sokoban.ListOfElements | Sokoban_Starter/solution.py:106-107 | such a list holds exactly the set's elements, without repeats |
| SokobanGeometry.ManhattanSymmetric | Sokoban_Starter/solution.py:256-262 | the distance is symmetric |
| SokobanGeometry.ManhattanZeroIff | Sokoban_Starter/solution.py:256-262 | the distance is 0 exactly when the points coincide |
| SokobanGeometry.ManhattanTriangle | Sokoban_Starter/solution.py:256-262 | the distance satisfies the triangle inequality |
| SokobanGeometry.ManhattanPath | Sokoban_Starter/solution.py:320-342 | the two append loops build the path from p1 to p2 |
| SokobanGeometry.PathEnds | Sokoban_Starter/solution.py:320-342 | the path starts at p1, ends at p2 and has distance + 1 points |
| SokobanGeometry.PathSteps | Sokoban_Starter/solution.py:320-342 | consecutive points of the path are at distance 1 |
| SokobanGeometry.PathRowThenColumn | Sokoban_Starter/solution.py:320-342 | the x-steps lie on p1's row and come first; the y-steps then lie on p2's column |
| SokobanGeometry.PathDistinct | Sokoban_Starter/solution.py:320-342 | no point of the path repeats |
| SokobanGeometry.RemoveFirst | Sokoban_Starter/solution.py:310-314 | `list.remove` takes away one occurrence |
| SokobanGeometry.ObstacleCostBounds | Sokoban_Starter/solution.py:302-318 | the obstacle count is even, at most 2 × (distance + 1), and 0 exactly when no listed square is on the path |
| SokobanGeometry.ObstacleCount | Sokoban_Starter/solution.py:302-318 | the method computes twice the number of path points among the boxes, obstacles and robots, after the end points are removed once each |
| SokobanGeometry.ObstacleList | Sokoban_Starter/solution.py:308-314 | the list after the removals is the multiset of blockers |
| SokobanGeometry.SumListed | Sokoban_Starter/solution.py:317 | the sum adds 2 for each path point still listed |
| SokobanGeometry.ScannedOnce | Sokoban_Starter/solution.py:308 | when no two things share a square, the concatenated list holds each occupied square once |
| SokobanGeometry.ObstacleCostInterior | Sokoban_Starter/solution.py:302-318 | for distinct end points the count is twice the number of occupied squares strictly inside the path |
| SokobanDeadlock.WallCornerIsCorner | Sokoban_Starter/solution.py:265-274 | `wall_corner_deadlock` holds exactly when the box is against a side wall and against the top or bottom wall, that is in a corner of the grid |
| SokobanDeadlock.CornerTestsMeanStuckBothWays | Sokoban_Starter/solution.py:13-41 | the two corner tests together say the box is blocked both vertically and horizontally |
| SokobanDeadlock.HorizontalDeadlockIff | Sokoban_Starter/solution.py:276-287 | `horizontal_deadlock` holds exactly when the box is against a side wall and no available storage square is in its column |
| SokobanDeadlock.VerticalDeadlockIff | Sokoban_Starter/solution.py:289-300 | `vertical_deadlock` holds exactly when the box is against the top or bottom wall and no available storage square is in its row |
| SokobanDeadlock.IsDeadlock | Sokoban_Starter/solution.py:55-74 | `is_deadlock` is true exactly when some available box meets one of the four tests, so it is false on an empty list |
| SokobanDeadlock.DeadlockByStorageSet | Sokoban_Starter/solution.py:55-74 | the deadlock tests depend only on the set of storage squares, not on the order `list` puts them in |
| SokobanHeuristics.Nearest | Sokoban_Starter/solution.py:160-163 | the distance to the nearest storage square is `inf` exactly when there is none, otherwise a natural number |
| SokobanHeuristics.NearestIsNearest | Sokoban_Starter/solution.py:160-163 | a finite nearest distance is attained by a storage square and bounded by the distance to every other |
| SokobanHeuristics.ManhattanSumPick | Sokoban_Starter/solution.py:159-165 | the sum over the boxes can be taken in any order: any box can be split off |
| SokobanHeuristics.HeurManhattanDistance | Sokoban_Starter/solution.py:148-165 | the nested loops compute the sum of each box's nearest-storage distance |
| SokobanHeuristics.NearestStorage | Sokoban_Starter/solution.py:161-163 | the inner loop with `min` computes the nearest distance |
| SokobanHeuristics.NearestZeroIff | Sokoban_Starter/solution.py:160-163 | a box's nearest distance is 0 exactly when it is on storage |
| SokobanHeuristics.ManhattanZeroIffStored | Sokoban_Starter/solution.py:148-165 | the heuristic is 0 exactly when every box is on storage |
| SokobanHeuristics.ManhattanInfIff | Sokoban_Starter/solution.py:148-165 | the heuristic is `inf` exactly when there are boxes and no storage |
| SokobanHeuristics.Least | Sokoban_Starter/solution.py:126-131 | a minimum starting from `inf`: `inf` exactly on an empty list |
| SokobanHeuristics.LeastIsMinimum | Sokoban_Starter/solution.py:126-131 | on a non-empty list it is a member of the list, below every element |
| SokobanHeuristics.BetterTotal | Sokoban_Starter/solution.py:117-142 | the better heuristic is never −∞ and, when finite, is non-negative |
| SokobanHeuristics.HeurBetter | Sokoban_Starter/solution.py:117-142 | the loops with the pair memo compute, over the available boxes, the nearest robot cost plus the nearest free-storage cost, each distance plus obstacle count |
| SokobanHeuristics.CachedCost | Sokoban_Starter/solution.py:128-138 | a memo lookup returns the pair's true cost, and stores it when it was missing |
| SokobanHeuristics.MemoStore | Sokoban_Starter/solution.py:128-130 | storing a true cost keeps every memo entry true, so the memo never changes the result |
| SokobanHeuristics.NearestRobot | Sokoban_Starter/solution.py:126-131 | the robot loop computes the cheapest robot-to-box cost |
| SokobanHeuristics.NearestFreeStorage | Sokoban_Starter/solution.py:133-138 | the storage loop computes the cheapest box-to-storage cost |
| SokobanHeuristics.BetterInfIff | Sokoban_Starter/solution.py:117-142 | the value is `inf` exactly when some box is listed and there are no robots or no free storage squares |
| SokobanHeuristics.BetterByStorageSet | Sokoban_Starter/solution.py:133-138 | only the set of free storage squares matters, not its order |
| SokobanHeuristics.BetterRemove | Sokoban_Starter/solution.py:125-140 | the total is any one box's term plus the total over the other boxes |
| SokobanHeuristics.BetterByBoxOrder | Sokoban_Starter/solution.py:106 | the order in which `list` puts the boxes does not matter |
| SokobanHeuristics.AlternateByListing | Sokoban_Starter/solution.py:106-113 | whatever lists `list(set)` yields, the deadlock test and the value are the same |
| SokobanHeuristics.AlternateSolved | Sokoban_Starter/solution.py:106-113 | a state with every box on storage gets the value 0 |
| SokobanHeuristics.ManhattanFreeOnly | Sokoban_Starter/solution.py:159-165 | boxes already on storage add nothing to the Manhattan heuristic |
| SokobanHeuristics.ManhattanBelowBetter | Sokoban_Starter/solution.py:117-142 | the Manhattan heuristic is never above the better heuristic |
| SokobanHeuristics.AlternateDominatesManhattan | Sokoban_Starter/solution.py:81-114 | the alternate heuristic's value is never below the Manhattan heuristic |
| SokobanHeuristics.AlternateMemo.constructor | Sokoban_Starter/solution.py:76-79 | both globals start as `None` |
| SokobanHeuristics.AlternateMemo.HeurAlternate | Sokoban_Starter/solution.py:98-114 | when the boxes equal the remembered box set, the remembered value is returned, whatever the robots; otherwise `inf` on a deadlock and the better value if not, and both globals are updated to this box set and value |
| SokobanParser.StripStart | Sokoban_Starter/tester.py:12 | strips exactly the leading whitespace, in Python's full `isspace` sense (ASCII and Unicode separators) |
| SokobanParser.StripEnd | Sokoban_Starter/tester.py:12 | strips exactly the trailing whitespace, in Python's full `isspace` sense (ASCII and Unicode separators) |
| SokobanParser.StripShape | Sokoban_Starter/tester.py:12 | `strip()` returns the infix between leading and trailing whitespace (every character Python's `isspace` accepts) and starts and ends with a non-space |
| SokobanParser.Split | Sokoban_Starter/tester.py:12 | `split('\n')` yields at least one part, none containing the separator |
| SokobanParser.SplitJoin | Sokoban_Starter/tester.py:12 | joining the parts with the separator gives back the text |
| SokobanParser.SplitCount | Sokoban_Starter/tester.py:12 | there is one more part than separators |
| SokobanParser.ToLower | Sokoban_Starter/tester.py:35-37 | `lower()` maps an upper-case letter to a lower-case one |
| SokobanParser.ParseStateString | Sokoban_Starter/tester.py:11-42 | height is the line count − 2 and width the first line's length − 2; each character at (x, y) adds (x − 1, y − 1) to the storage, box or obstacle set as the character says, `#` only strictly inside; robots are sorted by letter with each letter's last position |
| SokobanParser.SortedRobots | Sokoban_Starter/tester.py:40-41 | the robots come out in letter order, each at its letter's last position |
| SokobanParser.ScanStep | Sokoban_Starter/tester.py:21-37 | one cell of the scan extends what was parsed before it |
| SokobanParser.ParsedRobotsApart | Sokoban_Starter/tester.py:33-41 | no two parsed robots share a position |
| SokobanParser.LettersDistinct | Sokoban_Starter/tester.py:40-41 | the letters come out in strictly increasing order |
| SokobanParser.ParsedSquares | Sokoban_Starter/tester.py:23-37 | a position is storage, box or obstacle exactly when the text cell one right and one down holds the matching character |
| SokobanParser.ObstaclesInside | Sokoban_Starter/tester.py:25-27 | every parsed obstacle lies inside the outer wall |
| CspTuples.ProductMembers | csp/csp/puzzle_csp.py:228 | `itertools.product(domain, repeat=k)` yields exactly the length-k tuples over the domain |
| CspTuples.ProductDistinct | csp/csp/puzzle_csp.py:228 | over a domain without repeats, the product has no repeated tuple |
| CspTuples.PermsMembers | csp/csp/puzzle_csp.py:127-128 | `itertools.permutations(s)` yields exactly the rearrangements of s |
| CspTuples.PermsCount | csp/csp/puzzle_csp.py:127-128 | there are n! of them |
| CspTuples.PermsDistinct | csp/csp/puzzle_csp.py:127-128 | over distinct values, no rearrangement repeats |
| CageTuples.AdditionTuples | csp/csp/puzzle_csp.py:226-233 | exactly the length-k tuples over the domain with the target sum, each once |
| CageTuples.MultiplicationTuples | csp/csp/puzzle_csp.py:261-268 | exactly the length-k tuples over the domain with the target product, each once |
| CageTuples.Difference | csp/csp/puzzle_csp.py:244-247 | the loop computes the left-to-right difference |
| CageTuples.SubtractionTuples | csp/csp/puzzle_csp.py:238-258 | raises exactly for a cage of no cells (`combination[0]` of an empty tuple); otherwise exactly the rearrangements of tuples whose left-to-right difference is the target, each once |
| CageTuples.SolvingCombinations | csp/csp/puzzle_csp.py:240-249 | the first loop keeps exactly the tuples with the desired difference |
| CageTuples.Rearrangements | csp/csp/puzzle_csp.py:252-256 | the set holds exactly the rearrangements of the kept tuples |
| CageTuples.ListOfTuples | csp/csp/puzzle_csp.py:258 | `list(set)` holds the set's tuples once each |
| CageTuples.SubtractionClosed | csp/csp/puzzle_csp.py:238-258 | the table holds every tuple with the desired difference and is closed under rearrangement |
| CspBase.LiveValues | csp/csp/propagators.py:149 | the current domain holds exactly the domain values still live, in domain order |
| CspBase.DomainWipedOut | csp/csp/propagators.py:114-115 | a current domain is empty exactly when the variable is unassigned and no value is live |
| CspBase.UnassignedVars | csp/csp/propagators.py:92 | exactly the unassigned variables of a scope |
| CspBase.NoneUnassigned | csp/csp/propagators.py:65-72 | no unassigned variable in a scope means the scope is fully assigned |
| CspBase.ConsWithVar | csp/csp/propagators.py:85-88 | exactly the constraints whose scope contains the variable, each once |
| CspBase.SolutionSupports | csp/csp/propagators.py:158 | a solution within the current domains gives every value it uses a support |
| CspBase.TotalLivePrune | csp/csp/propagators.py:159 | each prune removes exactly one live value |
| CspBase.Csp.constructor | csp/csp/test_error.py:38-40 | a new CSP has a fresh variable per domain and the given constraints |
| CspBase.Csp.Assign | csp/csp/propagators.py:99 | assigning a value in the current domain of an unassigned variable sets it, and anything else changes nothing |
| CspBase.Csp.Unassign | csp/csp/propagators.py:111 | unassigning clears only that variable's value |
| CspBase.Csp.PruneValue | csp/csp/propagators.py:106 | pruning removes one value from one variable's live set |
| CspGrids.GridDomain | csp/csp/puzzle_csp.py:42-43 | the domain is 1..n |
| CspGrids.GridVariables | csp/csp/puzzle_csp.py:46-52 | n·n variables over the domain, laid out as an n × n board |
| CspGrids.NotEqualTuples | csp/csp/puzzle_csp.py:58-69 | exactly the pairs of different domain values, each once |
| CspGrids.RowPairs | csp/csp/puzzle_csp.py:58-69 | for one row, n(n − 1)/2 not-equal constraints, one per unordered pair of its cells |
| CspGrids.ColumnPairs | csp/csp/puzzle_csp.py:72-82 | for one column, n(n − 1)/2 not-equal constraints, one per unordered pair of its cells |
| CspGrids.BinaryNeGrid | csp/csp/puzzle_csp.py:36-95 | raises exactly on an empty grid or header; otherwise n·n variables over 1..n and n²(n − 1) not-equal constraints covering every same-row and same-column pair |
| CspGrids.PermutationTuples | csp/csp/puzzle_csp.py:127-128 | exactly the n! rearrangements of 1..n, each once |
| CspGrids.NaryAdGrid | csp/csp/puzzle_csp.py:99-158 | raises exactly on an empty grid or header; otherwise one all-different constraint per row and then per column, 2n in all |
| CspGrids.ColumnCells | csp/csp/puzzle_csp.py:136-141 | the scope of a column constraint is that column's cells from top to bottom |
| CspGrids.PyIndex | csp/csp/puzzle_csp.py:191-197 | Python list indexing: a negative index counts from the end, anything beyond raises |
| CspGrids.CellCode | csp/csp/puzzle_csp.py:191-197 | the cell code `rc` decodes to row r − 1 and column c − 1 |
| CspGrids.LookUp | csp/csp/puzzle_csp.py:191-197 | the lookup `var_list[code // 10 - 1][code % 10 - 1]` finds the variable the code names, or raises |
| CspGrids.CageCells | csp/csp/puzzle_csp.py:191-197 | the cage's variables in order, or an error when a code is off the board |
| CspGrids.OperationTuples | csp/csp/puzzle_csp.py:201-212 | op codes 0, 1, 2, 3 select addition, subtraction, division and multiplication; any other code reuses the previous cage's tuples and raises on the first cage |
| CspGrids.CageConstraint | csp/csp/puzzle_csp.py:179-218 | a two-element cage becomes a unary constraint with the single tuple `(value,)`; longer cages get their cells and the selected generator's tuples; raises exactly when a code or the first operation is bad |
| CspGrids.CagedCsp | csp/csp/puzzle_csp.py:161-223 | raises exactly when the grid is empty or a cage is bad; otherwise the binary encoding followed by one constraint per cage, in order, so the count is the binary count plus the number of cages |
| CspGrids.BinarySolutions | csp/csp/puzzle_csp.py:36-95 | an assignment solves the binary grid exactly when it is a Latin square over 1..n |
| CspGrids.NarySolutions | csp/csp/puzzle_csp.py:99-158 | an assignment solves the n-ary grid exactly when it is a Latin square over 1..n |
| CspGrids.SameSolutions | csp/csp/puzzle_csp.py:36-158 | the binary and n-ary encodings have the same solutions |
| CspGrids.OrderingOfValues | csp/csp/puzzle_csp.py:127-128 | a tuple is a rearrangement of 1..n exactly when its entries are distinct and within 1..n |
| CspGrids.CagedProblemOk | csp/csp/puzzle_csp.py:161-223 | with well-formed cages, the caged CSP is well formed: every scope names existing variables and every tuple fits its scope |
| CspGrids.CagedSolution | csp/csp/puzzle_csp.py:161-223 | a solution of the caged CSP is a Latin square and meets every cage's sum, difference, product or fixed value |
| CspGrids.CageSolution | csp/csp/puzzle_csp.py:179-212 | a tuple of a cage's table meets that cage's arithmetic |
| Propagators.PruningCompose | csp/csp/propagators.py:29-35 | the pruning record of two runs in a row is the concatenation of their records |
| Propagators.SoundCompose | csp/csp/propagators.py:29-35 | two sound prunings in a row are sound: no solution within the current domains is lost |
| Propagators.ScopeValues | csp/csp/propagators.py:67-70 | the values of a fully assigned scope, in scope order |
| Propagators.CheckIfAssigned | csp/csp/propagators.py:65-72 | a constraint passes exactly when it is not fully assigned or its values satisfy it |
| Propagators.PropBT | csp/csp/propagators.py:59-73 | never prunes; returns True with no new variable; otherwise True exactly when every fully assigned constraint on the new variable is satisfied |
| Propagators.Considered | csp/csp/propagators.py:83-88 | all constraints when there is no new variable, else exactly those whose scope contains it |
| Propagators.ForwardCheckedStable | csp/csp/propagators.py:76-117 | a forward-checked constraint stays forward-checked as domains shrink |
| Propagators.PruneSound | csp/csp/propagators.py:96-108 | pruning an unsupported value loses no solution |
| Propagators.TryValue | csp/csp/propagators.py:96-111 | assign, `has_support`, unassign: a supported value is kept; an unsupported one is pruned, soundly; the assignment is restored |
| Propagators.ForwardCheck | csp/csp/propagators.py:94-115 | forward checking the lone unassigned variable of a constraint changes only that variable's live set; prunes exactly the values it reports, each unsupported; reports a wipe-out exactly when the domain is emptied, and then has pruned a value of it; every value left is supported |
| Propagators.PropFC | csp/csp/propagators.py:76-117 | assignments unchanged and domains only shrink; the returned pairs are exactly the values removed, each once, each unsupported in a constraint with one unassigned variable; sound; False only when a variable that lost values in this call has an emptied domain; True leaves every considered constraint forward-checked |
| FullInference.InitialQueue | csp/csp/propagators.py:127-136 | the queue starts as every unassigned variable, or the new variable alone, with no repeats |
| FullInference.ReviseVar | csp/csp/propagators.py:149-165 | revising one scope variable prunes only live, unsupported values, soundly; reports a change exactly when something was pruned; a wipe-out empties the variable after pruning one of its values; and leaves the variable arc-consistent unless wiped out |
| FullInference.Requeue | csp/csp/propagators.py:168-171 | a variable is appended only when its domain changed and only when absent, so the queue never holds it twice |
| FullInference.ConsistentPop | csp/csp/propagators.py:140-143 | popping the head leaves only that variable's constraints still to revise |
| FullInference.ConsistentStep | csp/csp/propagators.py:144-171 | a revision either keeps the other arcs consistent or requeues the changed variable |
| FullInference.ReviseConstraint | csp/csp/propagators.py:143-171 | revising one constraint's other variables keeps the queue invariant and reports a wipe-out only when a variable emptied in this call lost a live value in it |
| FullInference.RevisePopped | csp/csp/propagators.py:139-171 | handling one popped variable keeps the queue invariant; a wipe-out names a variable it emptied by pruning |
| FullInference.PropFI | csp/csp/propagators.py:122-173 | prunes soundly, each value once; False only when a variable that lost values in this call has an emptied domain; True with no domain emptied; from a start consistent except on the queue, True ends generalised arc consistent |
| FullInference.AssignmentKeepsSettled | csp/csp/propagators.py:127-136 | after an assignment in a GAC state, only the new variable's constraints need revising |
| FullInference.FreshStartSettled | csp/csp/propagators.py:127-133 | with nothing assigned and no unary constraints, queueing every variable covers every arc |
| FullInference.SupportShrinks | csp/csp/propagators.py:158 | a support stays a support in larger domains |
| FullInference.ReviseVarAsWritten | csp/csp/propagators.py:149-165 | the loop as written: it prunes every current-domain value without support, including the assigned value of an assigned variable whether or not that value is still live |
| FullInference.PruneUnsupported | csp/csp/propagators.py:158-161 | the value is reported exactly when it has no support, and is then pruned |
| FullInference.AsWrittenRepeats | csp/csp/propagators.py:139-171 | on the input under Findings the as-written revision reports the same pruned pair again in the next round, with no state change, so the queue never empties |
| FullInference.OnlyTupleMisses | csp/csp/propagators.py:158 | in that input neither assigned value has a support |
| Queens.QueensCheckMeans | csp/csp/test_error.py:10-14 | `queensCheck` holds exactly when the two queens do not attack by row or diagonal, and it is symmetric |
| Queens.AllConsMembers | csp/csp/test_error.py:28-36 | the constraints are exactly one per pair qi < qj |
| Queens.AllConsCount | csp/csp/test_error.py:28-36 | there are n(n − 1)/2 of them |
| Queens.NQueens | csp/csp/test_error.py:16-41 | n fresh variables over 1..n and exactly the pair constraints |
| Queens.PairConstraints | csp/csp/test_error.py:28-36 | the loop builds the pair constraints in order |
| Queens.SatisfyingPairs | csp/csp/test_error.py:31-35 | each constraint's tuples are exactly the pairs of dom × dom that satisfy `queensCheck`, in product order |
| Queens.FirstQueenFI | csp/csp/test_error.py:47-51 | after Q1 := 2, the corrected `prop_FI` returns True and the state is generalised arc consistent |
| Queens.SecondQueenFI | csp/csp/test_error.py:52-54 | after Q2 := 5, the corrected `prop_FI` returns False |
| Queens.DwoTestAsWritten | csp/csp/test_error.py:46-54 | the test's two calls, run with the corrected `prop_FI`: the first returns True and the second returns False |
| Queens.FirstQueenFC | csp/csp/test_error.py:47-51 | with `prop_FC` instead, the first step returns True |
| Queens.SecondQueenFC | csp/csp/test_error.py:52-54 | with `prop_FC` instead, the second step returns True |
| Queens.DwoTestForwardChecking | csp/csp/test_error.py:46-54 | the test with forward checking: both calls return True, as its assertions expect |

## Left out

- `run_ai` of both agents is not modelled. It is stdin/stdout protocol handling (starter_code/starter_code/agent.py:457-512, agent_test.py:351-406).
- `eprint` and the unused `random`/`time` imports are not modelled; they are I/O only.
- `othello_shared` (`find_lines`, `get_possible_moves`, `play_move`, `get_score`) is not part of this model. It enters as the `Oracle` parameter, and the only assumption made is that a legal move fills one empty square.
- The agents' dictionary keys (`str(board)`, tuples of rows) are modelled as the board value itself, since two boards get the same key exactly when they are equal.
- Python's floating `inf` is modelled by `ExtInts.ExtInt`. No other float arithmetic occurs in the modelled code.
- AgentCache.Agent.AlphaBetaMaxNode: with caching on, only the shape of the answer (finite value, legal move, a memo hit returned verbatim) is stated. The memo stores results that depend on the window, so no equality with the cache-free search is claimed.
- AgentCache.Agent.AlphaBetaMinNode: the same as the max node — with caching on, only the shape of the answer is stated.
- AgentCache.Agent.SelectMoveAlphabeta: with caching on, only "a legal move exactly when one exists" is stated.
- AgentTestCache.TestAgent.AlphaBetaMaxNode: with caching on, only the shape of the answer is stated.
- AgentTestCache.TestAgent.AlphaBetaMinNode: with caching on, only the shape of the answer is stated.
- AgentTestCache.TestAgent.SelectMoveAlphabeta: with caching on, only "a legal move exactly when one exists" is stated.
- The module-level memo dictionaries become fields of one agent object. Clearing them at the start of every `select_move_*` is modelled, but sharing them among several agent objects is not.
- `fval_function`, `weighted_astar`, `iterative_astar` and `iterative_gbfs` are not modelled. They need the search engine, a float weight and `os.times()` deadlines, none of which is part of this model.
- `heur_zero` is not modelled; it is the constant 0.
- `test`, `verify_inverse`, `bfs` and `VERIFY` in `tester.py` are not modelled. They need `tqdm`, `successors` and `state_string`, which are not part of this model.
- The DEAD and ALIVE fixtures of `tester.py` are not modelled, and neither are the two checks on them: equal box and storage counts, and `heur_alternate` being `inf` exactly on the DEAD ones. Each fixture would have to be written out as a concrete board and evaluated in the verifier. The general facts the checks rest on are proved instead: `SokobanParser.ParseStateString`, `SokobanDeadlock.IsDeadlock` and `SokobanHeuristics.AlternateMemo.HeurAlternate`.
- SokobanHeuristics.AlternateMemo.HeurAlternate: the memo is keyed on `state.boxes` only, as in the source. So a call whose boxes match the previous call returns the previous value even when the robots have moved, and the contract says exactly that.
- `get_satisfying_tuples_for_division` is not modelled, because it rests on float `/=` equality. `caged_csp` takes the division generator as the parameter `DivisionTable`.
- The variable and constraint name strings of `cspbase` are not modelled. Neither are its internals (`Variable`, `Constraint`, `CSP`, the backtracking driver), which are not part of this model; the behaviour relied on is written into `CspBase`.
- CspBase.Csp.constructor: every domain and every constraint scope must be free of repeats. `cspbase` accepts repeats, and `caged_csp` can build a scope with a repeated cell (a cage that lists a cell twice, or two cell codes that name the same cell under Python's negative indexing, which `CspGrids.CagedProblemOk` excludes). Problems with repeated scope variables or repeated domain values are not modelled.
- Propagators.PropBT: its results on a problem with a repeated scope variable or a repeated domain value are not covered, since such a problem is not modelled (see `CspBase.Csp.constructor`).
- Propagators.PropFC: its results on a problem with a repeated scope variable or a repeated domain value are not covered, for the same reason.
- FullInference.PropFI: its results on a problem with a repeated scope variable or a repeated domain value are not covered, for the same reason.
- FullInference.PropFI: unary constraints are never revised. Revising a constraint visits only the scope members other than the popped variable, so a unary constraint has nothing to revise. The GAC conclusion is therefore stated under the hypothesis that every arc outside the queue is already consistent. `FullInference.AssignmentKeepsSettled` and `FullInference.FreshStartSettled` discharge that hypothesis for the two ways the search calls it.
- FullInference.PropFI: it models the corrected revision, which prunes only live values. The code as written is modelled by `FullInference.ReviseVarAsWritten` (see Findings).
- Queens.FirstQueenFI: it runs the corrected `FullInference.PropFI`, which prunes only live values. That the revision as written (`FullInference.ReviseVarAsWritten`) takes the same steps on this input is not proved. The result for the code as written is therefore not covered.
- Queens.SecondQueenFI: it also runs the corrected `FullInference.PropFI`. Agreement with `FullInference.ReviseVarAsWritten` on this input is not proved, for the same reason.
- Queens.DwoTestAsWritten: it is the test's call sequence run with the corrected `FullInference.PropFI`. Its `ok1 && !ok2` is proved for that revision only, not for the revision as written.
- Othello.Board: only square boards of 4 to 8 rows are modelled. agent_test.py, and agent.py with ordering off, run on any size; those other sizes are not covered. Also left out is agent.py's error path with ordering on: outside 4 to 8 rows `get_square_weights` returns None, so `get_square_weight_sum` raises a TypeError.

## Findings

| source | as written | input that shows it | evidently intended | confidence | as-written member | corrected member |
|---|---|---|---|---|---|---|
| csp/csp/propagators.py:149-171 | `prop_FI` prunes every value of `cur_domain()` that has no support. For an assigned variable `cur_domain()` is `[value]` even after that value was pruned, so an assigned value without support is pruned and reported again in every round. `changed` is set, the variable is requeued, and the queue never empties. This contradicts the note at lines 34-35, which says never to prune a value twice. The claim rests on `cspbase`'s `cur_domain()` and `in_cur_domain` for an assigned variable, which are not part of this model; `CspBase.LiveValues` states the behaviour assumed. | two variables over {1, 2}, assigned 1 and 2, one constraint on both whose only tuple is (1, 1), and the call `prop_FI(csp, newVar=` the first variable `)` (with `newVar` None the queue starts empty, since no variable is unassigned) | prune only values still live, never twice | not executed | FullInference.AsWrittenRepeats | FullInference.PropFI |
| csp/csp/test_error.py:46-54 | `test_DWO_FC` is named and worded for forward checking but calls `prop_FI`. On 6-queens after Q1 := 2 and Q2 := 5, generalised arc consistency empties a domain, so the second call returns False and the assertion at line 54 fails. | `nQueens(6)`, assign Q1 := 2, `prop_FI`, assign Q2 := 5, `prop_FI` | call `prop_FC`, for which both calls return True | not executed | Queens.DwoTestAsWritten | Queens.DwoTestForwardChecking |

The first row's corrected propagator is also the one used in the second row's test. In that scenario the corrected and the as-written revisions could differ only if some assigned value lost its support. That was not established separately, so the second row states its result for the corrected `prop_FI`.
