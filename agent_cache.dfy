/**
 * The search of starter_code/agent.py as the program runs it: the four
 * module-level memo dictionaries become the fields of an `Agent`, the node
 * functions become methods that read and fill them, and
 * `select_move_minimax` / `select_move_alphabeta` clear their pair before
 * searching.
 *
 * With caching off every method computes exactly the functions of
 * `AgentSearch` for `AgentPy`.  With caching on, minimax still does
 * (`MinimaxCachesAgree`); for alpha-beta only the shape of every answer is
 * kept (`AlphaBetaCachesSane`).
 */
module AgentCache {
  import opened Wrappers
  import opened ExtInts
  import opened Othello
  import opened SearchFolds
  import opened StableSort
  import opened AgentEval
  import opened AgentSearch
  import opened SearchCaches
  import AgentProperties

  /**
   * Child `i` of a max node, in the order `ordering` selects: taken from
   * the sorted evaluations, or played from move `i`.
   */
  lemma MaxChildAt(o: SoundOracle, b: Board, color: int, ordering: int, moves: seq<Move>, es: seq<Evaluation>,
                    cs: seq<(Board, Move)>, i: nat)
    requires moves == o.moves(b, color) && i < |moves|
    requires AreMaxChildren(AgentPy, o, b, color, ordering, cs)
    requires ordering != 0 ==> AreMaxChildren(AgentPy, o, b, color, ordering, Pairs(es))
    ensures i < |cs|
    ensures ordering != 0 ==> i < |es| && cs[i] == (es[i].board, es[i].move)
    ensures ordering == 0 ==> cs[i] == (o.play(b, color, moves[i]), moves[i])
    ensures cs[i].1 in moves
    ensures Empties(cs[i].0) < Empties(b)
  {
    assert cs == MaxChildren(AgentPy, o, b, color, ordering);
    if ordering != 0 {
      assert Pairs(es) == MaxChildren(AgentPy, o, b, color, ordering);
    }
    assert cs[i] in cs;
    ChildFewer(o, b, color, cs[i]);
  }

  /** Child `i` of a min node, in the order `ordering` selects. */
  lemma MinChildAt(o: SoundOracle, b: Board, color: int, ordering: int, moves: seq<Move>, es: seq<Evaluation>,
                    cs: seq<(Board, Move)>, i: nat)
    requires moves == o.moves(b, Opponent(color)) && i < |moves|
    requires AreMinChildren(AgentPy, o, b, color, ordering, cs)
    requires ordering != 0 ==> AreMinChildren(AgentPy, o, b, color, ordering, Pairs(es))
    ensures i < |cs|
    ensures ordering != 0 ==> i < |es| && cs[i] == (es[i].board, es[i].move)
    ensures ordering == 0 ==> cs[i] == (o.play(b, Opponent(color), moves[i]), moves[i])
    ensures cs[i].1 in moves
    ensures Empties(cs[i].0) < Empties(b)
  {
    assert cs == MinChildren(AgentPy, o, b, color, ordering);
    if ordering != 0 {
      assert Pairs(es) == MinChildren(AgentPy, o, b, color, ordering);
    }
    assert cs[i] in cs;
    ChildFewer(o, b, Opponent(color), cs[i]);
  }

  class Agent {
    /** The game rules the agent is run against. */
    const o: SoundOracle
    /** `min_cache`, `max_cache`, `alpha_max_cache`, `alpha_min_cache`. */
    var minCache: map<Board, NodeResult>
    var maxCache: map<Board, NodeResult>
    var alphaMaxCache: map<Board, NodeResult>
    var alphaMinCache: map<Board, NodeResult>

    /** The module as it is loaded: all four dictionaries empty. */
    constructor(o: SoundOracle)
      ensures this.o == o
      ensures minCache == map[] && maxCache == map[] && alphaMaxCache == map[] && alphaMinCache == map[]
    {
      this.o := o;
      minCache := map[];
      maxCache := map[];
      alphaMaxCache := map[];
      alphaMinCache := map[];
    }

    // ---------------------------------------------------------------- minimax

    /** A legal move fills one empty square, so the child sits at the same base as its parent. */
    lemma PlayedOneFewer(b: Board, mover: int, m: Move)
      requires m in o.moves(b, mover)
      ensures Empties(o.play(b, mover, m)) + 1 == Empties(b)
    {
    }

    /**
     * `minimax_max_node`: a cached answer is returned as it is; otherwise
     * the children are searched in move order, the first strictly best is
     * kept, and (caching on) the answer is stored.
     */
    method MinimaxMaxNode(board: Board, color: int, limit: int, caching: int, ghost base: int) returns (r: NodeResult)
      requires limit == base + Empties(board)
      requires MinimaxCachesAgree(AgentPy, o, color, base, maxCache, minCache)
      modifies this`minCache, this`maxCache
      ensures IsMinimaxMax(AgentPy, o, board, color, limit, r)
      ensures MinimaxCachesAgree(AgentPy, o, color, base, maxCache, minCache)
      ensures caching != 0 && limit != 0 && |o.moves(board, color)| > 0 ==> board in maxCache && maxCache[board] == r
      decreases Empties(board), 1
    {
      if caching != 0 && board in maxCache {
        return maxCache[board];
      }
      var moves := o.moves(board, color);
      if limit == 0 || |moves| == 0 {
        MaxLeafAnswer(AgentPy, o, board, color, limit);
        return NodeResult(None, Fin(ComputeUtility(o, board, color)));
      }
      r := MaxMovesLoop(board, color, limit, caching, moves, base);
      if caching != 0 {
        StoreMaxAnswer(AgentPy, o, color, base, maxCache, minCache, board, r);
        maxCache := maxCache[board := r];
      }
    }

    /** The loop of `minimax_max_node` over the moves, in move order. */
    method MaxMovesLoop(board: Board, color: int, limit: int, caching: int, moves: seq<Move>, ghost base: int) returns (r: NodeResult)
      requires limit == base + Empties(board)
      requires limit != 0 && moves == o.moves(board, color) && |moves| > 0
      requires MinimaxCachesAgree(AgentPy, o, color, base, maxCache, minCache)
      modifies this`minCache, this`maxCache
      ensures IsMinimaxMax(AgentPy, o, board, color, limit, r)
      ensures MinimaxCachesAgree(AgentPy, o, color, base, maxCache, minCache)
      decreases Empties(board), 0
    {
      ghost var target := MaxFoldStart(AgentPy, o, board, color, limit);
      var bestMove: Option<Move> := None;
      var maxUtility := NegInf;
      ghost var bestIndex := -1;
      for i := 0 to |moves|
        invariant MaxFoldEndsAt(AgentPy, o, board, color, limit, i, Best(bestIndex, maxUtility), target)
        invariant (bestIndex == -1 && bestMove == None) || (0 <= bestIndex < i && bestMove == Some(moves[bestIndex]))
        invariant MinimaxCachesAgree(AgentPy, o, color, base, maxCache, minCache)
      {
        var newBoard := o.play(board, color, moves[i]);
        PlayedOneFewer(board, color, moves[i]);
        var child := MinimaxMinNode(newBoard, color, limit - 1, caching, base);
        var utility := child.utility;
        MaxFoldAdvance(AgentPy, o, board, color, limit, i, Best(bestIndex, maxUtility), target, child);
        if Lt(maxUtility, utility) {
          maxUtility := utility;
          bestMove := Some(moves[i]);
          bestIndex := i;
        }
      }
      MaxFoldEnd(AgentPy, o, board, color, limit, Best(bestIndex, maxUtility), target);
      r := NodeResult(bestMove, maxUtility);
    }

    /** `minimax_min_node`: the opponent moves; the first strictly least child value is kept. */
    method MinimaxMinNode(board: Board, color: int, limit: int, caching: int, ghost base: int) returns (r: NodeResult)
      requires limit == base + Empties(board)
      requires MinimaxCachesAgree(AgentPy, o, color, base, maxCache, minCache)
      modifies this`minCache, this`maxCache
      ensures IsMinimaxMin(AgentPy, o, board, color, limit, r)
      ensures MinimaxCachesAgree(AgentPy, o, color, base, maxCache, minCache)
      ensures caching != 0 && limit != 0 && |o.moves(board, Opponent(color))| > 0 ==> board in minCache && minCache[board] == r
      decreases Empties(board), 1
    {
      if caching != 0 && board in minCache {
        return minCache[board];
      }
      var oppColor := Opponent(color);
      var moves := o.moves(board, oppColor);
      if limit == 0 || |moves| == 0 {
        MinLeafAnswer(AgentPy, o, board, color, limit);
        return NodeResult(None, Fin(ComputeUtility(o, board, color)));
      }
      r := MinMovesLoop(board, color, limit, caching, moves, base);
      if caching != 0 {
        StoreMinAnswer(AgentPy, o, color, base, maxCache, minCache, board, r);
        minCache := minCache[board := r];
      }
    }

    /** The loop of `minimax_min_node` over the opponent's moves, in move order. */
    method MinMovesLoop(board: Board, color: int, limit: int, caching: int, moves: seq<Move>, ghost base: int) returns (r: NodeResult)
      requires limit == base + Empties(board)
      requires limit != 0 && moves == o.moves(board, Opponent(color)) && |moves| > 0
      requires MinimaxCachesAgree(AgentPy, o, color, base, maxCache, minCache)
      modifies this`minCache, this`maxCache
      ensures IsMinimaxMin(AgentPy, o, board, color, limit, r)
      ensures MinimaxCachesAgree(AgentPy, o, color, base, maxCache, minCache)
      decreases Empties(board), 0
    {
      ghost var target := MinFoldStart(AgentPy, o, board, color, limit);
      var bestMove: Option<Move> := None;
      var minUtility := PosInf;
      ghost var bestIndex := -1;
      for i := 0 to |moves|
        invariant MinFoldEndsAt(AgentPy, o, board, color, limit, i, Best(bestIndex, minUtility), target)
        invariant (bestIndex == -1 && bestMove == None) || (0 <= bestIndex < i && bestMove == Some(moves[bestIndex]))
        invariant MinimaxCachesAgree(AgentPy, o, color, base, maxCache, minCache)
      {
        var newBoard := o.play(board, Opponent(color), moves[i]);
        PlayedOneFewer(board, Opponent(color), moves[i]);
        var child := MinimaxMaxNode(newBoard, color, limit - 1, caching, base);
        var utility := child.utility;
        MinFoldAdvance(AgentPy, o, board, color, limit, i, Best(bestIndex, minUtility), target, child);
        if Lt(utility, minUtility) {
          minUtility := utility;
          bestMove := Some(moves[i]);
          bestIndex := i;
        }
      }
      MinFoldEnd(AgentPy, o, board, color, limit, Best(bestIndex, minUtility), target);
      r := NodeResult(bestMove, minUtility);
    }

    /**
     * `select_move_minimax`: clears the two minimax caches, searches, and
     * returns the root's move, with or without caching the minimax move.
     */
    method SelectMoveMinimax(board: Board, color: int, limit: int, caching: int) returns (move: Option<Move>)
      modifies this`minCache, this`maxCache
      ensures move == MinimaxMax(AgentPy, o, board, color, limit).move
      ensures move.None? <==> limit == 0 || |o.moves(board, color)| == 0
      ensures move.Some? ==> move.value in o.moves(board, color)
      ensures MinimaxCachesAgree(AgentPy, o, color, limit - Empties(board), maxCache, minCache)
    {
      minCache := map[];
      maxCache := map[];
      ghost var base := limit - Empties(board);
      var r := MinimaxMaxNode(board, color, limit, caching, base);
      move := r.move;
    }

    // ------------------------------------------------------------- alpha-beta

    /**
     * `alphabeta_max_node`.  With caching off it computes `ABMax`; with
     * caching on, a cached board returns its entry.  Either way every
     * answer is a leaf or a legal move with a finite utility.
     */
    method AlphaBetaMaxNode(board: Board, color: int, alpha: ExtInt, beta: ExtInt, limit: int,
                            caching: int, ordering: int) returns (r: NodeResult)
      requires AlphaBetaCachesSane(o, color, alphaMaxCache, alphaMinCache)
      modifies this`alphaMaxCache, this`alphaMinCache
      ensures caching == 0 ==> IsABMax(AgentPy, o, board, color, alpha, beta, limit, ordering, r)
      ensures AlphaBetaCachesSane(o, color, alphaMaxCache, alphaMinCache)
      ensures caching != 0 && limit != 0 && |o.moves(board, color)| > 0 ==> board in alphaMaxCache && alphaMaxCache[board] == r
      ensures caching != 0 && board in old(alphaMaxCache) ==> r == old(alphaMaxCache)[board]
      ensures r.utility.Fin?
      ensures r.move.None? ==> r == Leaf(AgentPy, o, board, color) && (limit == 0 || |o.moves(board, color)| == 0)
      ensures r.move.Some? ==> r.move.value in o.moves(board, color)
      ensures limit != 0 && |o.moves(board, color)| > 0 ==> r.move.Some?
      ensures caching == 0 || board !in old(alphaMaxCache) ==> (limit == 0 ==> r.move.None?)
      decreases Empties(board), 2
    {
      if caching != 0 && board in alphaMaxCache {
        return alphaMaxCache[board];
      }
      if limit == 0 {
        ABMaxLeafAnswer(AgentPy, o, board, color, alpha, beta, limit, ordering);
        return NodeResult(None, Fin(ComputeUtility(o, board, color)));
      }
      var moves := o.moves(board, color);
      if |moves| == 0 {
        ABMaxLeafAnswer(AgentPy, o, board, color, alpha, beta, limit, ordering);
        return NodeResult(None, Fin(ComputeUtility(o, board, color)));
      }
      var evaluations: seq<Evaluation> := [];
      if ordering != 0 {
        evaluations := MaxChildOrder(board, color, ordering, moves);
      }
      r := MaxChildrenLoop(board, color, alpha, beta, limit, caching, ordering, moves, evaluations);
      if caching != 0 {
        StoreABMaxAnswer(o, color, alphaMaxCache, alphaMinCache, board, r);
        alphaMaxCache := alphaMaxCache[board := r];
      }
    }

    /** The children of a max node as `evaluate_move_max` orders them. */
    method MaxChildOrder(board: Board, color: int, ordering: int, moves: seq<Move>) returns (evaluations: seq<Evaluation>)
      requires ordering != 0 && moves == o.moves(board, color)
      ensures AreMaxChildren(AgentPy, o, board, color, ordering, Pairs(evaluations))
    {
      evaluations := EvaluateMoveMax(o, board, moves, color);
      MaxChildrenSorted(o, board, color, ordering, evaluations);
    }

    /**
     * The loop of `alphabeta_max_node` over the children in the order
     * `ordering` selects: each child's min-node value may raise `alpha`,
     * and the loop stops once `alpha >= beta`.
     */
    method MaxChildrenLoop(board: Board, color: int, alpha: ExtInt, beta: ExtInt, limit: int,
                            caching: int, ordering: int, moves: seq<Move>, evaluations: seq<Evaluation>)
      returns (r: NodeResult)
      requires limit != 0 && moves == o.moves(board, color) && |moves| > 0
      requires ordering != 0 ==> AreMaxChildren(AgentPy, o, board, color, ordering, Pairs(evaluations))
      requires AlphaBetaCachesSane(o, color, alphaMaxCache, alphaMinCache)
      modifies this`alphaMaxCache, this`alphaMinCache
      ensures caching == 0 ==> IsABMax(AgentPy, o, board, color, alpha, beta, limit, ordering, r)
      ensures AlphaBetaCachesSane(o, color, alphaMaxCache, alphaMinCache)
      ensures r.utility.Fin? && r.move.Some? && r.move.value in moves
      decreases Empties(board), 1
    {
      ghost var cs := MaxChildList(AgentPy, o, board, color, ordering);
      ghost var target := MaxLoopStart(AgentPy, o, board, color, cs, alpha, beta, limit, ordering);
      var bestMove: Option<Move> := None;
      var maxUtility := NegInf;
      var a := alpha;
      ghost var bestIndex := -1;
      var i := 0;
      while i < |moves|
        invariant 0 <= i <= |moves|
        invariant (i == 0 && bestIndex == -1 && bestMove == None && maxUtility == NegInf)
               || (0 <= bestIndex < i && bestMove == Some(cs[bestIndex].1) && maxUtility.Fin?)
        invariant caching == 0 ==>
          MaxLoopEndsAt(AgentPy, o, board, color, cs, i, a, beta, Best(bestIndex, maxUtility), limit, ordering, target)
        invariant AlphaBetaCachesSane(o, color, alphaMaxCache, alphaMinCache)
      {
        var move, child := MaxChildAnswer(board, color, a, beta, limit, caching, ordering, moves, evaluations, cs, i);
        var utility := child.utility;
        ghost var acc := Best(bestIndex, maxUtility);
        if Lt(maxUtility, utility) {
          maxUtility := utility;
          bestMove := Some(move);
          bestIndex := i;
        }
        ghost var a0 := a;
        a := Max(a, maxUtility);
        MaxLoopAdvance(AgentPy, o, board, color, cs, i, a0, beta, acc, limit, ordering, target, child, Best(bestIndex, maxUtility), a, caching);
        if Le(beta, a) {
          break;
        }
        i := i + 1;
      }
      if caching == 0 && i == |moves| {
        MaxLoopEnd(AgentPy, o, board, color, cs, a, beta, Best(bestIndex, maxUtility), limit, ordering, target);
      }
      r := NodeResult(bestMove, maxUtility);
    }

    /** Child `i` of an alpha-beta max node in loop order: its move and its min-node answer. */
    method MaxChildAnswer(board: Board, color: int, alpha: ExtInt, beta: ExtInt, limit: int,
                          caching: int, ordering: int, moves: seq<Move>, evaluations: seq<Evaluation>,
                          ghost cs: seq<(Board, Move)>, i: nat)
      returns (move: Move, child: NodeResult)
      requires limit != 0 && moves == o.moves(board, color) && i < |moves|
      requires AreMaxChildren(AgentPy, o, board, color, ordering, cs)
      requires ordering != 0 ==> AreMaxChildren(AgentPy, o, board, color, ordering, Pairs(evaluations))
      requires AlphaBetaCachesSane(o, color, alphaMaxCache, alphaMinCache)
      modifies this`alphaMaxCache, this`alphaMinCache
      ensures i < |cs| && move == cs[i].1
      ensures caching == 0 ==> IsABMin(AgentPy, o, cs[i].0, color, alpha, beta, limit - 1, ordering, child)
      ensures child.utility.Fin?
      ensures AlphaBetaCachesSane(o, color, alphaMaxCache, alphaMinCache)
      decreases Empties(board), 0
    {
      MaxChildAt(o, board, color, ordering, moves, evaluations, cs, i);
      var newBoard;
      if ordering != 0 {
        newBoard, move := evaluations[i].board, evaluations[i].move;
      } else {
        newBoard, move := o.play(board, color, moves[i]), moves[i];
      }
      child := AlphaBetaMinNode(newBoard, color, alpha, beta, limit - 1, caching, ordering);
    }

    /** `alphabeta_min_node`: the mirror image, lowering `beta`. */
    method AlphaBetaMinNode(board: Board, color: int, alpha: ExtInt, beta: ExtInt, limit: int,
                            caching: int, ordering: int) returns (r: NodeResult)
      requires AlphaBetaCachesSane(o, color, alphaMaxCache, alphaMinCache)
      modifies this`alphaMaxCache, this`alphaMinCache
      ensures caching == 0 ==> IsABMin(AgentPy, o, board, color, alpha, beta, limit, ordering, r)
      ensures AlphaBetaCachesSane(o, color, alphaMaxCache, alphaMinCache)
      ensures caching != 0 && limit != 0 && |o.moves(board, Opponent(color))| > 0 ==> board in alphaMinCache && alphaMinCache[board] == r
      ensures caching != 0 && board in old(alphaMinCache) ==> r == old(alphaMinCache)[board]
      ensures r.utility.Fin?
      ensures r.move.None? ==> r == Leaf(AgentPy, o, board, color) && (limit == 0 || |o.moves(board, Opponent(color))| == 0)
      ensures r.move.Some? ==> r.move.value in o.moves(board, Opponent(color))
      ensures limit != 0 && |o.moves(board, Opponent(color))| > 0 ==> r.move.Some?
      ensures caching == 0 || board !in old(alphaMinCache) ==> (limit == 0 ==> r.move.None?)
      decreases Empties(board), 2
    {
      if caching != 0 && board in alphaMinCache {
        return alphaMinCache[board];
      }
      var oppColor := Opponent(color);
      if limit == 0 {
        ABMinLeafAnswer(AgentPy, o, board, color, alpha, beta, limit, ordering);
        return NodeResult(None, Fin(ComputeUtility(o, board, color)));
      }
      var moves := o.moves(board, oppColor);
      if |moves| == 0 {
        ABMinLeafAnswer(AgentPy, o, board, color, alpha, beta, limit, ordering);
        return NodeResult(None, Fin(ComputeUtility(o, board, color)));
      }
      var evaluations: seq<Evaluation> := [];
      if ordering != 0 {
        evaluations := MinChildOrder(board, color, ordering, moves);
      }
      r := MinChildrenLoop(board, color, alpha, beta, limit, caching, ordering, moves, evaluations);
      if caching != 0 {
        StoreABMinAnswer(o, color, alphaMaxCache, alphaMinCache, board, r);
        alphaMinCache := alphaMinCache[board := r];
      }
    }

    /** The children of a min node as `evaluate_move_min` orders them. */
    method MinChildOrder(board: Board, color: int, ordering: int, moves: seq<Move>) returns (evaluations: seq<Evaluation>)
      requires ordering != 0 && moves == o.moves(board, Opponent(color))
      ensures AreMinChildren(AgentPy, o, board, color, ordering, Pairs(evaluations))
    {
      evaluations := EvaluateMoveMin(o, board, moves, Opponent(color));
      MinChildrenSorted(o, board, color, ordering, evaluations);
    }

    /** The loop of `alphabeta_min_node`: each child's max-node value may lower `beta`. */
    method MinChildrenLoop(board: Board, color: int, alpha: ExtInt, beta: ExtInt, limit: int,
                            caching: int, ordering: int, moves: seq<Move>, evaluations: seq<Evaluation>)
      returns (r: NodeResult)
      requires limit != 0 && moves == o.moves(board, Opponent(color)) && |moves| > 0
      requires ordering != 0 ==> AreMinChildren(AgentPy, o, board, color, ordering, Pairs(evaluations))
      requires AlphaBetaCachesSane(o, color, alphaMaxCache, alphaMinCache)
      modifies this`alphaMaxCache, this`alphaMinCache
      ensures caching == 0 ==> IsABMin(AgentPy, o, board, color, alpha, beta, limit, ordering, r)
      ensures AlphaBetaCachesSane(o, color, alphaMaxCache, alphaMinCache)
      ensures r.utility.Fin? && r.move.Some? && r.move.value in moves
      decreases Empties(board), 1
    {
      ghost var cs := MinChildList(AgentPy, o, board, color, ordering);
      ghost var target := MinLoopStart(AgentPy, o, board, color, cs, alpha, beta, limit, ordering);
      var bestMove: Option<Move> := None;
      var minUtility := PosInf;
      var b := beta;
      ghost var bestIndex := -1;
      var i := 0;
      while i < |moves|
        invariant 0 <= i <= |moves|
        invariant (i == 0 && bestIndex == -1 && bestMove == None && minUtility == PosInf)
               || (0 <= bestIndex < i && bestMove == Some(cs[bestIndex].1) && minUtility.Fin?)
        invariant caching == 0 ==>
          MinLoopEndsAt(AgentPy, o, board, color, cs, i, alpha, b, Best(bestIndex, minUtility), limit, ordering, target)
        invariant AlphaBetaCachesSane(o, color, alphaMaxCache, alphaMinCache)
      {
        var move, child := MinChildAnswer(board, color, alpha, b, limit, caching, ordering, moves, evaluations, cs, i);
        var utility := child.utility;
        ghost var acc := Best(bestIndex, minUtility);
        if Lt(utility, minUtility) {
          minUtility := utility;
          bestMove := Some(move);
          bestIndex := i;
        }
        ghost var b0 := b;
        b := Min(b, minUtility);
        MinLoopAdvance(AgentPy, o, board, color, cs, i, alpha, b0, acc, limit, ordering, target, child, Best(bestIndex, minUtility), b, caching);
        if Le(b, alpha) {
          break;
        }
        i := i + 1;
      }
      if caching == 0 && i == |moves| {
        MinLoopEnd(AgentPy, o, board, color, cs, alpha, b, Best(bestIndex, minUtility), limit, ordering, target);
      }
      r := NodeResult(bestMove, minUtility);
    }

    /** Child `i` of an alpha-beta min node in loop order: its move and its max-node answer. */
    method MinChildAnswer(board: Board, color: int, alpha: ExtInt, beta: ExtInt, limit: int,
                          caching: int, ordering: int, moves: seq<Move>, evaluations: seq<Evaluation>,
                          ghost cs: seq<(Board, Move)>, i: nat)
      returns (move: Move, child: NodeResult)
      requires limit != 0 && moves == o.moves(board, Opponent(color)) && i < |moves|
      requires AreMinChildren(AgentPy, o, board, color, ordering, cs)
      requires ordering != 0 ==> AreMinChildren(AgentPy, o, board, color, ordering, Pairs(evaluations))
      requires AlphaBetaCachesSane(o, color, alphaMaxCache, alphaMinCache)
      modifies this`alphaMaxCache, this`alphaMinCache
      ensures i < |cs| && move == cs[i].1
      ensures caching == 0 ==> IsABMax(AgentPy, o, cs[i].0, color, alpha, beta, limit - 1, ordering, child)
      ensures child.utility.Fin?
      ensures AlphaBetaCachesSane(o, color, alphaMaxCache, alphaMinCache)
      decreases Empties(board), 0
    {
      MinChildAt(o, board, color, ordering, moves, evaluations, cs, i);
      var newBoard;
      if ordering != 0 {
        newBoard, move := evaluations[i].board, evaluations[i].move;
      } else {
        newBoard, move := o.play(board, Opponent(color), moves[i]), moves[i];
      }
      child := AlphaBetaMaxNode(newBoard, color, alpha, beta, limit - 1, caching, ordering);
    }

    /**
     * `select_move_alphabeta`: clears the two alpha-beta caches and searches
     * the root in the window (-inf, inf).  The move is a legal move exactly
     * when the root is not a leaf; with caching off it is the alpha-beta
     * move, and without ordering as well it is the minimax move.
     */
    method SelectMoveAlphabeta(board: Board, color: int, limit: int, caching: int, ordering: int)
      returns (move: Option<Move>)
      modifies this`alphaMaxCache, this`alphaMinCache
      ensures move.None? <==> limit == 0 || |o.moves(board, color)| == 0
      ensures move.Some? ==> move.value in o.moves(board, color)
      ensures caching == 0 ==> move == ABMax(AgentPy, o, board, color, NegInf, PosInf, limit, ordering).move
      ensures caching == 0 && ordering == 0 ==> move == MinimaxMax(AgentPy, o, board, color, limit).move
      ensures AlphaBetaCachesSane(o, color, alphaMaxCache, alphaMinCache)
    {
      alphaMaxCache := map[];
      alphaMinCache := map[];
      var r := AlphaBetaMaxNode(board, color, NegInf, PosInf, limit, caching, ordering);
      move := r.move;
      if caching == 0 && ordering == 0 {
        AgentProperties.AlphaBetaRootUnordered(o, board, color, limit);
      }
    }
  }
}
