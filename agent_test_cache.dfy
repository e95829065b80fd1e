/**
 * The search of starter_code/agent_test.py as the program runs it: the
 * four module-level dictionaries `min_caching`, `max_caching`,
 * `alpha_caching` and `beta_caching` become the fields of a `TestAgent`.
 * A node reads its dictionary whenever `caching` is set but writes it only
 * when `caching == 1`; the alpha-beta nodes walk the board list of
 * `after_move_board_list` and look each board's move up in its
 * dictionary; every max node (and every alpha-beta min node) starts from
 * the placeholder move `(-1, -1)`.
 *
 * With caching off every method computes exactly the functions of
 * `AgentSearch` for `AgentTestPy`; with caching on, minimax still does.
 */
module AgentTestCache {
  import opened Wrappers
  import opened ExtInts
  import opened Othello
  import opened SearchFolds
  import opened AgentSearch
  import opened SearchCaches
  import AgentTestEval
  import AgentProperties

  /** The placeholder `best_move` the loops start from. */
  const NoMove: Move := (-1, -1)

  /**
   * `boards` and `dict` are what `after_move_board_list` returns for the
   * mover's moves `ms` (the equation sits behind `k` so that the loops do
   * not unfold it).
   */
  ghost predicate BoardLists(o: Oracle, b: Board, mover: int, ms: seq<Move>, ordering: int,
                             boards: seq<Board>, dict: map<Board, Move>) {
    forall k | k == ordering ::
      boards == AgentTestEval.AfterMoveBoards(o, b, mover, ms, k) && dict == AgentTestEval.MoveDict(o, b, mover, ms)
  }

  /**
   * Child `i` of a node of the second agent is the `i`-th board of the
   * list with the move the dictionary holds for it: a legal move of the
   * mover leading to that board.
   */
  lemma TestChildAt(o: SoundOracle, b: Board, mover: int, ordering: int, moves: seq<Move>,
                    boards: seq<Board>, dict: map<Board, Move>, cs: seq<(Board, Move)>, i: nat)
    requires moves == o.moves(b, mover) && i < |moves|
    requires BoardLists(o, b, mover, moves, ordering, boards, dict)
    requires cs == TestChildren(o, b, mover, moves, ordering)
    ensures i < |boards| && boards[i] in dict && cs[i] == (boards[i], dict[boards[i]])
    ensures dict[boards[i]] in moves
    ensures Empties(boards[i]) < Empties(b)
  {
    assert boards == AgentTestEval.AfterMoveBoards(o, b, mover, moves, ordering);
    assert cs[i].0 == ChildBoards(cs)[i];
    assert cs[i] in cs;
    ChildFewer(o, b, mover, cs[i]);
  }

  /** Child `i` of a max node of the second agent: board `i` of the list and its move. */
  lemma MaxBoardAt(o: SoundOracle, b: Board, color: int, ordering: int, moves: seq<Move>,
                   boards: seq<Board>, dict: map<Board, Move>, cs: seq<(Board, Move)>, i: nat)
    requires moves == o.moves(b, color) && i < |moves|
    requires BoardLists(o, b, color, moves, ordering, boards, dict)
    requires AreMaxChildren(AgentTestPy, o, b, color, ordering, cs)
    ensures i < |boards| && boards[i] in dict && i < |cs| && cs[i] == (boards[i], dict[boards[i]])
    ensures Empties(boards[i]) < Empties(b)
  {
    assert cs == MaxChildren(AgentTestPy, o, b, color, ordering);
    TestChildAt(o, b, color, ordering, moves, boards, dict, cs, i);
  }

  /** Child `i` of a min node of the second agent: board `i` of the list and its move. */
  lemma MinBoardAt(o: SoundOracle, b: Board, color: int, ordering: int, moves: seq<Move>,
                   boards: seq<Board>, dict: map<Board, Move>, cs: seq<(Board, Move)>, i: nat)
    requires moves == o.moves(b, Opponent(color)) && i < |moves|
    requires BoardLists(o, b, Opponent(color), moves, ordering, boards, dict)
    requires AreMinChildren(AgentTestPy, o, b, color, ordering, cs)
    ensures i < |boards| && boards[i] in dict && i < |cs| && cs[i] == (boards[i], dict[boards[i]])
    ensures Empties(boards[i]) < Empties(b)
  {
    assert cs == MinChildren(AgentTestPy, o, b, color, ordering);
    TestChildAt(o, b, Opponent(color), ordering, moves, boards, dict, cs, i);
  }

  class TestAgent {
    /** The game rules the agent is run against. */
    const o: SoundOracle
    /** `min_caching`, `max_caching`, `alpha_caching`, `beta_caching`. */
    var minCaching: map<Board, NodeResult>
    var maxCaching: map<Board, NodeResult>
    var alphaCaching: map<Board, NodeResult>
    var betaCaching: map<Board, NodeResult>

    /** The module as it is loaded: all four dictionaries empty. */
    constructor(o: SoundOracle)
      ensures this.o == o
      ensures minCaching == map[] && maxCaching == map[] && alphaCaching == map[] && betaCaching == map[]
    {
      this.o := o;
      minCaching := map[];
      maxCaching := map[];
      alphaCaching := map[];
      betaCaching := map[];
    }

    // ---------------------------------------------------------------- minimax

    /** A legal move fills one empty square, so the child sits at the same base as its parent. */
    lemma PlayedOneFewer(b: Board, mover: int, m: Move)
      requires m in o.moves(b, mover)
      ensures Empties(o.play(b, mover, m)) + 1 == Empties(b)
    {
    }

    /**
     * `minimax_min_node`: a cached answer is returned as it is; the depth
     * limit is checked before the moves; the first strictly least child
     * value is kept and stored when `caching == 1`.
     */
    method MinimaxMinNode(board: Board, color: int, limit: int, caching: int, ghost base: int) returns (r: NodeResult)
      requires limit == base + Empties(board)
      requires MinimaxCachesAgree(AgentTestPy, o, color, base, maxCaching, minCaching)
      modifies this`minCaching, this`maxCaching
      ensures IsMinimaxMin(AgentTestPy, o, board, color, limit, r)
      ensures MinimaxCachesAgree(AgentTestPy, o, color, base, maxCaching, minCaching)
      ensures caching == 1 && limit != 0 && |o.moves(board, Opponent(color))| > 0 ==> board in minCaching && minCaching[board] == r
      decreases Empties(board), 1
    {
      if caching != 0 && board in minCaching {
        return minCaching[board];
      }
      if limit == 0 {
        MinLeafAnswer(AgentTestPy, o, board, color, limit);
        return NodeResult(None, Fin(AgentTestEval.ComputeUtility(o, board, color)));
      }
      var opponentColor := Opponent(color);
      var moves := o.moves(board, opponentColor);
      if |moves| == 0 {
        MinLeafAnswer(AgentTestPy, o, board, color, limit);
        return NodeResult(None, Fin(AgentTestEval.ComputeUtility(o, board, color)));
      }
      r := MinMovesLoop(board, color, limit, caching, moves, base);
      if caching == 1 {
        StoreMinAnswer(AgentTestPy, o, color, base, maxCaching, minCaching, board, r);
        minCaching := minCaching[board := r];
      }
    }

    /** The loop of `minimax_min_node` over the opponent's moves; `best_move` starts as `None`. */
    method MinMovesLoop(board: Board, color: int, limit: int, caching: int, moves: seq<Move>, ghost base: int) returns (r: NodeResult)
      requires limit == base + Empties(board)
      requires limit != 0 && moves == o.moves(board, Opponent(color)) && |moves| > 0
      requires MinimaxCachesAgree(AgentTestPy, o, color, base, maxCaching, minCaching)
      modifies this`minCaching, this`maxCaching
      ensures IsMinimaxMin(AgentTestPy, o, board, color, limit, r)
      ensures MinimaxCachesAgree(AgentTestPy, o, color, base, maxCaching, minCaching)
      decreases Empties(board), 0
    {
      ghost var target := MinFoldStart(AgentTestPy, o, board, color, limit);
      var bestMove: Option<Move> := None;
      var minimumUtility := PosInf;
      ghost var bestIndex := -1;
      for i := 0 to |moves|
        invariant MinFoldEndsAt(AgentTestPy, o, board, color, limit, i, Best(bestIndex, minimumUtility), target)
        invariant (bestIndex == -1 && bestMove == None) || (0 <= bestIndex < i && bestMove == Some(moves[bestIndex]))
        invariant MinimaxCachesAgree(AgentTestPy, o, color, base, maxCaching, minCaching)
      {
        var afterMoveBoard := o.play(board, Opponent(color), moves[i]);
        PlayedOneFewer(board, Opponent(color), moves[i]);
        var child := MinimaxMaxNode(afterMoveBoard, color, limit - 1, caching, base);
        var currentUtility := child.utility;
        MinFoldAdvance(AgentTestPy, o, board, color, limit, i, Best(bestIndex, minimumUtility), target, child);
        if Lt(currentUtility, minimumUtility) {
          bestMove, minimumUtility := Some(moves[i]), currentUtility;
          bestIndex := i;
        }
      }
      MinFoldEnd(AgentTestPy, o, board, color, limit, Best(bestIndex, minimumUtility), target);
      r := NodeResult(bestMove, minimumUtility);
    }

    /** `minimax_max_node`: the mirror image, keeping the first strictly greatest child value. */
    method MinimaxMaxNode(board: Board, color: int, limit: int, caching: int, ghost base: int) returns (r: NodeResult)
      requires limit == base + Empties(board)
      requires MinimaxCachesAgree(AgentTestPy, o, color, base, maxCaching, minCaching)
      modifies this`minCaching, this`maxCaching
      ensures IsMinimaxMax(AgentTestPy, o, board, color, limit, r)
      ensures MinimaxCachesAgree(AgentTestPy, o, color, base, maxCaching, minCaching)
      ensures caching == 1 && limit != 0 && |o.moves(board, color)| > 0 ==> board in maxCaching && maxCaching[board] == r
      decreases Empties(board), 1
    {
      if caching != 0 && board in maxCaching {
        return maxCaching[board];
      }
      if limit == 0 {
        MaxLeafAnswer(AgentTestPy, o, board, color, limit);
        return NodeResult(None, Fin(AgentTestEval.ComputeUtility(o, board, color)));
      }
      var moves := o.moves(board, color);
      if |moves| == 0 {
        MaxLeafAnswer(AgentTestPy, o, board, color, limit);
        return NodeResult(None, Fin(AgentTestEval.ComputeUtility(o, board, color)));
      }
      r := MaxMovesLoop(board, color, limit, caching, moves, base);
      if caching == 1 {
        StoreMaxAnswer(AgentTestPy, o, color, base, maxCaching, minCaching, board, r);
        maxCaching := maxCaching[board := r];
      }
    }

    /**
     * The loop of `minimax_max_node` over the moves.  `best_move` starts
     * as the placeholder `(-1, -1)`; the first child's finite value always
     * beats -inf, so the placeholder is never returned.
     */
    method MaxMovesLoop(board: Board, color: int, limit: int, caching: int, moves: seq<Move>, ghost base: int) returns (r: NodeResult)
      requires limit == base + Empties(board)
      requires limit != 0 && moves == o.moves(board, color) && |moves| > 0
      requires MinimaxCachesAgree(AgentTestPy, o, color, base, maxCaching, minCaching)
      modifies this`minCaching, this`maxCaching
      ensures IsMinimaxMax(AgentTestPy, o, board, color, limit, r)
      ensures MinimaxCachesAgree(AgentTestPy, o, color, base, maxCaching, minCaching)
      decreases Empties(board), 0
    {
      ghost var target := MaxFoldStart(AgentTestPy, o, board, color, limit);
      var bestMove := NoMove;
      var maximumUtility := NegInf;
      ghost var bestIndex := -1;
      for i := 0 to |moves|
        invariant MaxFoldEndsAt(AgentTestPy, o, board, color, limit, i, Best(bestIndex, maximumUtility), target)
        invariant (bestIndex == -1 && bestMove == NoMove) || (0 <= bestIndex < i && bestMove == moves[bestIndex])
        invariant MinimaxCachesAgree(AgentTestPy, o, color, base, maxCaching, minCaching)
      {
        var afterMoveBoard := o.play(board, color, moves[i]);
        PlayedOneFewer(board, color, moves[i]);
        var child := MinimaxMinNode(afterMoveBoard, color, limit - 1, caching, base);
        var currentUtility := child.utility;
        MaxFoldAdvance(AgentTestPy, o, board, color, limit, i, Best(bestIndex, maximumUtility), target, child);
        if Lt(maximumUtility, currentUtility) {
          bestMove, maximumUtility := moves[i], currentUtility;
          bestIndex := i;
        }
      }
      MaxFoldEnd(AgentTestPy, o, board, color, limit, Best(bestIndex, maximumUtility), target);
      r := NodeResult(Some(bestMove), maximumUtility);
    }

    /**
     * `select_move_minimax`: clears `min_caching` and `max_caching`,
     * searches, and returns the root's move, with or without caching the
     * minimax move.
     */
    method SelectMoveMinimax(board: Board, color: int, limit: int, caching: int) returns (move: Option<Move>)
      modifies this`minCaching, this`maxCaching
      ensures move == MinimaxMax(AgentTestPy, o, board, color, limit).move
      ensures move.None? <==> limit == 0 || |o.moves(board, color)| == 0
      ensures move.Some? ==> move.value in o.moves(board, color)
      ensures MinimaxCachesAgree(AgentTestPy, o, color, limit - Empties(board), maxCaching, minCaching)
    {
      minCaching := map[];
      maxCaching := map[];
      ghost var base := limit - Empties(board);
      var r := MinimaxMaxNode(board, color, limit, caching, base);
      move := r.move;
    }

    // ------------------------------------------------------------- alpha-beta

    /**
     * `alphabeta_min_node`.  With caching off it computes `ABMin`; with
     * caching on, a board in `beta_caching` returns its entry.  Either way
     * every answer is a leaf or a legal opponent move with a finite utility.
     */
    method AlphaBetaMinNode(board: Board, color: int, alpha: ExtInt, beta: ExtInt, limit: int,
                            caching: int, ordering: int) returns (r: NodeResult)
      requires AlphaBetaCachesSane(o, color, alphaCaching, betaCaching)
      modifies this`alphaCaching, this`betaCaching
      ensures caching == 0 ==> IsABMin(AgentTestPy, o, board, color, alpha, beta, limit, ordering, r)
      ensures AlphaBetaCachesSane(o, color, alphaCaching, betaCaching)
      ensures caching == 1 && limit != 0 && |o.moves(board, Opponent(color))| > 0 ==> board in betaCaching && betaCaching[board] == r
      ensures caching != 0 && board in old(betaCaching) ==> r == old(betaCaching)[board]
      ensures r.utility.Fin?
      ensures r.move.None? ==> r == Leaf(AgentTestPy, o, board, color) && (limit == 0 || |o.moves(board, Opponent(color))| == 0)
      ensures r.move.Some? ==> r.move.value in o.moves(board, Opponent(color))
      ensures limit != 0 && |o.moves(board, Opponent(color))| > 0 ==> r.move.Some?
      ensures caching == 0 || board !in old(betaCaching) ==> (limit == 0 ==> r.move.None?)
      decreases Empties(board), 2
    {
      if caching != 0 && board in betaCaching {
        return betaCaching[board];
      }
      if limit == 0 {
        ABMinLeafAnswer(AgentTestPy, o, board, color, alpha, beta, limit, ordering);
        return NodeResult(None, Fin(AgentTestEval.ComputeUtility(o, board, color)));
      }
      var opponentColor := Opponent(color);
      var moves := o.moves(board, opponentColor);
      if |moves| == 0 {
        ABMinLeafAnswer(AgentTestPy, o, board, color, alpha, beta, limit, ordering);
        return NodeResult(None, Fin(AgentTestEval.ComputeUtility(o, board, color)));
      }
      var boardList, boardMoveDict := AgentTestEval.AfterMoveBoardList(o, board, opponentColor, moves, ordering);
      r := MinBoardsLoop(board, color, alpha, beta, limit, caching, ordering, moves, boardList, boardMoveDict);
      if caching == 1 {
        StoreABMinAnswer(o, color, alphaCaching, betaCaching, board, r);
        betaCaching := betaCaching[board := r];
      }
    }

    /**
     * The loop of `alphabeta_min_node` over the board list: each board's
     * max-node value may lower `beta`, and the loop stops once
     * `beta <= alpha`.
     */
    method MinBoardsLoop(board: Board, color: int, alpha: ExtInt, beta: ExtInt, limit: int, caching: int, ordering: int,
                         moves: seq<Move>, boardList: seq<Board>, boardMoveDict: map<Board, Move>)
      returns (r: NodeResult)
      requires limit != 0 && moves == o.moves(board, Opponent(color)) && |moves| > 0
      requires BoardLists(o, board, Opponent(color), moves, ordering, boardList, boardMoveDict) && |boardList| == |moves|
      requires AlphaBetaCachesSane(o, color, alphaCaching, betaCaching)
      modifies this`alphaCaching, this`betaCaching
      ensures caching == 0 ==> IsABMin(AgentTestPy, o, board, color, alpha, beta, limit, ordering, r)
      ensures AlphaBetaCachesSane(o, color, alphaCaching, betaCaching)
      ensures r.utility.Fin? && r.move.Some? && r.move.value in moves
      decreases Empties(board), 1
    {
      ghost var cs := MinChildList(AgentTestPy, o, board, color, ordering);
      ghost var target := MinLoopStart(AgentTestPy, o, board, color, cs, alpha, beta, limit, ordering);
      var bestMove := NoMove;
      var minimumUtility := PosInf;
      var b := beta;
      ghost var bestIndex := -1;
      var i := 0;
      while i < |boardList|
        invariant |boardList| == |cs| && 0 <= i <= |cs|
        invariant (i == 0 && bestIndex == -1 && bestMove == NoMove && minimumUtility == PosInf)
               || (0 <= bestIndex < i && bestMove == cs[bestIndex].1 && minimumUtility.Fin?)
        invariant caching == 0 ==>
          MinLoopEndsAt(AgentTestPy, o, board, color, cs, i, alpha, b, Best(bestIndex, minimumUtility), limit, ordering, target)
        invariant AlphaBetaCachesSane(o, color, alphaCaching, betaCaching)
      {
        var move, child := MinBoardAnswer(board, color, alpha, b, limit, caching, ordering, moves, boardList, boardMoveDict, cs, i);
        var currentUtility := child.utility;
        ghost var acc := Best(bestIndex, minimumUtility);
        if Lt(currentUtility, minimumUtility) {
          bestMove, minimumUtility := move, currentUtility;
          bestIndex := i;
        }
        ghost var b0 := b;
        b := Min(b, minimumUtility);
        MinLoopAdvance(AgentTestPy, o, board, color, cs, i, alpha, b0, acc, limit, ordering, target, child,
                       Best(bestIndex, minimumUtility), b, caching);
        if Le(b, alpha) {
          break;
        }
        i := i + 1;
      }
      if caching == 0 && i == |boardList| {
        MinLoopEnd(AgentTestPy, o, board, color, cs, alpha, b, Best(bestIndex, minimumUtility), limit, ordering, target);
      }
      r := NodeResult(Some(bestMove), minimumUtility);
    }

    /** Board `i` of an alpha-beta min node's list: its move from the dictionary and its max-node answer. */
    method MinBoardAnswer(board: Board, color: int, alpha: ExtInt, beta: ExtInt, limit: int, caching: int, ordering: int,
                          moves: seq<Move>, boardList: seq<Board>, boardMoveDict: map<Board, Move>,
                          ghost cs: seq<(Board, Move)>, i: nat)
      returns (move: Move, child: NodeResult)
      requires limit != 0 && moves == o.moves(board, Opponent(color)) && i < |moves|
      requires AreMinChildren(AgentTestPy, o, board, color, ordering, cs)
      requires BoardLists(o, board, Opponent(color), moves, ordering, boardList, boardMoveDict) && |boardList| == |moves|
      requires AlphaBetaCachesSane(o, color, alphaCaching, betaCaching)
      modifies this`alphaCaching, this`betaCaching
      ensures i < |cs| && move == cs[i].1
      ensures caching == 0 ==> IsABMax(AgentTestPy, o, cs[i].0, color, alpha, beta, limit - 1, ordering, child)
      ensures child.utility.Fin?
      ensures AlphaBetaCachesSane(o, color, alphaCaching, betaCaching)
      decreases Empties(board), 0
    {
      MinBoardAt(o, board, color, ordering, moves, boardList, boardMoveDict, cs, i);
      var afterMoveBoard := boardList[i];
      move := boardMoveDict[afterMoveBoard];
      child := AlphaBetaMaxNode(afterMoveBoard, color, alpha, beta, limit - 1, caching, ordering);
    }

    /**
     * `alphabeta_max_node`.  With caching off it computes `ABMax`; with
     * caching on, a board in `alpha_caching` returns its entry.
     */
    method AlphaBetaMaxNode(board: Board, color: int, alpha: ExtInt, beta: ExtInt, limit: int,
                            caching: int, ordering: int) returns (r: NodeResult)
      requires AlphaBetaCachesSane(o, color, alphaCaching, betaCaching)
      modifies this`alphaCaching, this`betaCaching
      ensures caching == 0 ==> IsABMax(AgentTestPy, o, board, color, alpha, beta, limit, ordering, r)
      ensures AlphaBetaCachesSane(o, color, alphaCaching, betaCaching)
      ensures caching == 1 && limit != 0 && |o.moves(board, color)| > 0 ==> board in alphaCaching && alphaCaching[board] == r
      ensures caching != 0 && board in old(alphaCaching) ==> r == old(alphaCaching)[board]
      ensures r.utility.Fin?
      ensures r.move.None? ==> r == Leaf(AgentTestPy, o, board, color) && (limit == 0 || |o.moves(board, color)| == 0)
      ensures r.move.Some? ==> r.move.value in o.moves(board, color)
      ensures limit != 0 && |o.moves(board, color)| > 0 ==> r.move.Some?
      ensures caching == 0 || board !in old(alphaCaching) ==> (limit == 0 ==> r.move.None?)
      decreases Empties(board), 2
    {
      if caching != 0 && board in alphaCaching {
        return alphaCaching[board];
      }
      if limit == 0 {
        ABMaxLeafAnswer(AgentTestPy, o, board, color, alpha, beta, limit, ordering);
        return NodeResult(None, Fin(AgentTestEval.ComputeUtility(o, board, color)));
      }
      var moves := o.moves(board, color);
      if |moves| == 0 {
        ABMaxLeafAnswer(AgentTestPy, o, board, color, alpha, beta, limit, ordering);
        return NodeResult(None, Fin(AgentTestEval.ComputeUtility(o, board, color)));
      }
      var boardList, boardMoveDict := AgentTestEval.AfterMoveBoardList(o, board, color, moves, ordering);
      r := MaxBoardsLoop(board, color, alpha, beta, limit, caching, ordering, moves, boardList, boardMoveDict);
      if caching == 1 {
        StoreABMaxAnswer(o, color, alphaCaching, betaCaching, board, r);
        alphaCaching := alphaCaching[board := r];
      }
    }

    /**
     * The loop of `alphabeta_max_node` over the board list: each board's
     * min-node value may raise `alpha`, and the loop stops once
     * `beta <= alpha`.
     */
    method MaxBoardsLoop(board: Board, color: int, alpha: ExtInt, beta: ExtInt, limit: int, caching: int, ordering: int,
                         moves: seq<Move>, boardList: seq<Board>, boardMoveDict: map<Board, Move>)
      returns (r: NodeResult)
      requires limit != 0 && moves == o.moves(board, color) && |moves| > 0
      requires BoardLists(o, board, color, moves, ordering, boardList, boardMoveDict) && |boardList| == |moves|
      requires AlphaBetaCachesSane(o, color, alphaCaching, betaCaching)
      modifies this`alphaCaching, this`betaCaching
      ensures caching == 0 ==> IsABMax(AgentTestPy, o, board, color, alpha, beta, limit, ordering, r)
      ensures AlphaBetaCachesSane(o, color, alphaCaching, betaCaching)
      ensures r.utility.Fin? && r.move.Some? && r.move.value in moves
      decreases Empties(board), 1
    {
      ghost var cs := MaxChildList(AgentTestPy, o, board, color, ordering);
      ghost var target := MaxLoopStart(AgentTestPy, o, board, color, cs, alpha, beta, limit, ordering);
      var bestMove := NoMove;
      var maximumUtility := NegInf;
      var a := alpha;
      ghost var bestIndex := -1;
      var i := 0;
      while i < |boardList|
        invariant |boardList| == |cs| && 0 <= i <= |cs|
        invariant (i == 0 && bestIndex == -1 && bestMove == NoMove && maximumUtility == NegInf)
               || (0 <= bestIndex < i && bestMove == cs[bestIndex].1 && maximumUtility.Fin?)
        invariant caching == 0 ==>
          MaxLoopEndsAt(AgentTestPy, o, board, color, cs, i, a, beta, Best(bestIndex, maximumUtility), limit, ordering, target)
        invariant AlphaBetaCachesSane(o, color, alphaCaching, betaCaching)
      {
        var move, child := MaxBoardAnswer(board, color, a, beta, limit, caching, ordering, moves, boardList, boardMoveDict, cs, i);
        var currentUtility := child.utility;
        ghost var acc := Best(bestIndex, maximumUtility);
        if Lt(maximumUtility, currentUtility) {
          bestMove, maximumUtility := move, currentUtility;
          bestIndex := i;
        }
        ghost var a0 := a;
        a := Max(a, maximumUtility);
        MaxLoopAdvance(AgentTestPy, o, board, color, cs, i, a0, beta, acc, limit, ordering, target, child,
                       Best(bestIndex, maximumUtility), a, caching);
        if Le(beta, a) {
          break;
        }
        i := i + 1;
      }
      if caching == 0 && i == |boardList| {
        MaxLoopEnd(AgentTestPy, o, board, color, cs, a, beta, Best(bestIndex, maximumUtility), limit, ordering, target);
      }
      r := NodeResult(Some(bestMove), maximumUtility);
    }

    /** Board `i` of an alpha-beta max node's list: its move from the dictionary and its min-node answer. */
    method MaxBoardAnswer(board: Board, color: int, alpha: ExtInt, beta: ExtInt, limit: int, caching: int, ordering: int,
                          moves: seq<Move>, boardList: seq<Board>, boardMoveDict: map<Board, Move>,
                          ghost cs: seq<(Board, Move)>, i: nat)
      returns (move: Move, child: NodeResult)
      requires limit != 0 && moves == o.moves(board, color) && i < |moves|
      requires AreMaxChildren(AgentTestPy, o, board, color, ordering, cs)
      requires BoardLists(o, board, color, moves, ordering, boardList, boardMoveDict) && |boardList| == |moves|
      requires AlphaBetaCachesSane(o, color, alphaCaching, betaCaching)
      modifies this`alphaCaching, this`betaCaching
      ensures i < |cs| && move == cs[i].1
      ensures caching == 0 ==> IsABMin(AgentTestPy, o, cs[i].0, color, alpha, beta, limit - 1, ordering, child)
      ensures child.utility.Fin?
      ensures AlphaBetaCachesSane(o, color, alphaCaching, betaCaching)
      decreases Empties(board), 0
    {
      MaxBoardAt(o, board, color, ordering, moves, boardList, boardMoveDict, cs, i);
      var afterMoveBoard := boardList[i];
      move := boardMoveDict[afterMoveBoard];
      child := AlphaBetaMinNode(afterMoveBoard, color, alpha, beta, limit - 1, caching, ordering);
    }

    /**
     * `select_move_alphabeta`: clears `alpha_caching` and `beta_caching`
     * and searches the root in the window (-inf, inf).  The move is a
     * legal move exactly when the root is not a leaf, and with caching off
     * it is the alpha-beta move.
     */
    method SelectMoveAlphabeta(board: Board, color: int, limit: int, caching: int, ordering: int)
      returns (move: Option<Move>)
      modifies this`alphaCaching, this`betaCaching
      ensures move.None? <==> limit == 0 || |o.moves(board, color)| == 0
      ensures move.Some? ==> move.value in o.moves(board, color)
      ensures caching == 0 ==> move == ABMax(AgentTestPy, o, board, color, NegInf, PosInf, limit, ordering).move
      ensures AlphaBetaCachesSane(o, color, alphaCaching, betaCaching)
    {
      alphaCaching := map[];
      betaCaching := map[];
      var r := AlphaBetaMaxNode(board, color, NegInf, PosInf, limit, caching, ordering);
      move := r.move;
    }
  }
}
