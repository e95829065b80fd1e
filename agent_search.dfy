/**
 * The game-tree search of the two agents, starter_code/agent.py and
 * starter_code/agent_test.py, with caching switched off, as functions of
 * the board: minimax and alpha-beta, each as a pair of mutually recursive
 * max/min nodes.  `color` is always the player the search is run for; a
 * max node lets `color` move, a min node the opponent.  The two agents
 * search alike and differ only in the leaf utility and in the order the
 * children are visited, so every function takes the agent as `v`.  The
 * stateful versions with the memo dictionaries are in `AgentCache` and
 * `AgentTestCache` and are proved to compute these functions.
 */
module AgentSearch {
  import opened Wrappers
  import opened ExtInts
  import opened Othello
  import opened SearchFolds
  import opened StableSort
  import opened AgentEval
  import AgentTestEval

  /** The agent a search belongs to: starter_code/agent.py or starter_code/agent_test.py. */
  datatype Variant = AgentPy | AgentTestPy

  /** The agent's `compute_utility`. */
  function LeafUtility(v: Variant, o: Oracle, b: Board, color: int): int {
    match v
    case AgentPy => ComputeUtility(o, b, color)
    case AgentTestPy => AgentTestEval.ComputeUtility(o, b, color)
  }

  /** What every node returns at the depth limit or when the mover has no move. */
  function Leaf(v: Variant, o: Oracle, b: Board, color: int): NodeResult {
    NodeResult(None, Fin(LeafUtility(v, o, b, color)))
  }

  /** A legal move leaves fewer empty squares. */
  lemma PlayedFewer(o: SoundOracle, b: Board, mover: int, m: Move)
    requires m in o.moves(b, mover)
    ensures Empties(o.play(b, mover, m)) < Empties(b)
  {
  }

  // ---------------------------------------------------------------- minimax

  /** The minimax values of a max node's children, in move order. */
  function MaxChildValues(v: Variant, o: SoundOracle, b: Board, color: int, limit: int): (vs: seq<ExtInt>)
    ensures |vs| == |o.moves(b, color)|
    ensures forall j :: 0 <= j < |vs| ==> vs[j].Fin?
    decreases Empties(b), 0
  {
    var ms := o.moves(b, color);
    seq(|ms|, j requires 0 <= j < |ms| =>
      PlayedFewer(o, b, color, ms[j]);
      MinimaxMin(v, o, o.play(b, color, ms[j]), color, limit - 1).utility)
  }

  /** The minimax values of a min node's children, in the opponent's move order. */
  function MinChildValues(v: Variant, o: SoundOracle, b: Board, color: int, limit: int): (vs: seq<ExtInt>)
    ensures |vs| == |o.moves(b, Opponent(color))|
    ensures forall j :: 0 <= j < |vs| ==> vs[j].Fin?
    decreases Empties(b), 0
  {
    var opp := Opponent(color);
    var ms := o.moves(b, opp);
    seq(|ms|, j requires 0 <= j < |ms| =>
      PlayedFewer(o, b, opp, ms[j]);
      MinimaxMax(v, o, o.play(b, opp, ms[j]), color, limit - 1).utility)
  }

  /**
   * `minimax_max_node` with caching off: the first move (in move order)
   * whose min-node value is the largest.  `limit == -1` (or any negative
   * limit) never reaches 0, so the search then runs to the end of the game.
   */
  function MinimaxMax(v: Variant, o: SoundOracle, b: Board, color: int, limit: int): (r: NodeResult)
    ensures r.utility.Fin?
    ensures r.move.None? <==> limit == 0 || |o.moves(b, color)| == 0
    ensures r.move.None? ==> r == Leaf(v, o, b, color)
    ensures r.move.Some? ==> r.move.value in o.moves(b, color)
    decreases Empties(b), 1
  {
    var ms := o.moves(b, color);
    if limit == 0 || |ms| == 0 then Leaf(v, o, b, color)
    else
      var vs := MaxChildValues(v, o, b, color, limit);
      MaxFromFinite(vs);
      var best := MaxFrom(vs, 0, MaxStart);
      NodeResult(Some(ms[best.index]), best.value)
  }

  /** `minimax_min_node` with caching off: the opponent's first move of least max-node value. */
  function MinimaxMin(v: Variant, o: SoundOracle, b: Board, color: int, limit: int): (r: NodeResult)
    ensures r.utility.Fin?
    ensures r.move.None? <==> limit == 0 || |o.moves(b, Opponent(color))| == 0
    ensures r.move.None? ==> r == Leaf(v, o, b, color)
    ensures r.move.Some? ==> r.move.value in o.moves(b, Opponent(color))
    decreases Empties(b), 1
  {
    var ms := o.moves(b, Opponent(color));
    if limit == 0 || |ms| == 0 then Leaf(v, o, b, color)
    else
      var vs := MinChildValues(v, o, b, color, limit);
      MinFromFinite(vs);
      var best := MinFrom(vs, 0, MinStart);
      NodeResult(Some(ms[best.index]), best.value)
  }

  /**
   * A max node that is not a leaf returns the largest child value and the
   * first move reaching it: every earlier move's value is strictly smaller.
   */
  lemma MinimaxMaxIsFirstBest(v: Variant, o: SoundOracle, b: Board, color: int, limit: int)
    requires limit != 0 && |o.moves(b, color)| > 0
    ensures var r, ms, vs := MinimaxMax(v, o, b, color, limit), o.moves(b, color), MaxChildValues(v, o, b, color, limit);
            exists k :: 0 <= k < |ms| && r.move == Some(ms[k]) && r.utility == vs[k]
              && (forall j :: 0 <= j < |ms| ==> Le(vs[j], r.utility))
              && (forall j :: 0 <= j < k ==> Lt(vs[j], r.utility))
  {
    var best := MaxFrom(MaxChildValues(v, o, b, color, limit), 0, MaxStart);
    assert 0 <= best.index;
  }

  /** A min node that is not a leaf returns the least child value and the first move reaching it. */
  lemma MinimaxMinIsFirstBest(v: Variant, o: SoundOracle, b: Board, color: int, limit: int)
    requires limit != 0 && |o.moves(b, Opponent(color))| > 0
    ensures var r, ms, vs := MinimaxMin(v, o, b, color, limit), o.moves(b, Opponent(color)), MinChildValues(v, o, b, color, limit);
            exists k :: 0 <= k < |ms| && r.move == Some(ms[k]) && r.utility == vs[k]
              && (forall j :: 0 <= j < |ms| ==> Le(r.utility, vs[j]))
              && (forall j :: 0 <= j < k ==> Lt(r.utility, vs[j]))
  {
    var best := MinFrom(MinChildValues(v, o, b, color, limit), 0, MinStart);
    assert 0 <= best.index;
  }

  // ------------------------------------------------------------- alpha-beta

  /** The children in move order: each resulting board with the move that led to it. */
  function Unordered(o: Oracle, b: Board, mover: int, ms: seq<Move>): (cs: seq<(Board, Move)>)
    ensures |cs| == |ms|
    ensures forall j :: 0 <= j < |ms| ==> cs[j] == (o.play(b, mover, ms[j]), ms[j])
  {
    seq(|ms|, j requires 0 <= j < |ms| => (o.play(b, mover, ms[j]), ms[j]))
  }

  /** The `(new_board, move)` part of each evaluation. */
  function Pairs(es: seq<Evaluation>): (cs: seq<(Board, Move)>)
    ensures |cs| == |es|
    ensures forall j :: 0 <= j < |es| ==> cs[j] == (es[j].board, es[j].move)
  {
    seq(|es|, j requires 0 <= j < |es| => (es[j].board, es[j].move))
  }

  lemma PairsSameElements(es: seq<Evaluation>, fs: seq<Evaluation>)
    requires multiset(es) == multiset(fs)
    ensures forall c :: c in Pairs(es) <==> c in Pairs(fs)
  {
    forall c | c in Pairs(es) ensures c in Pairs(fs) {
      var j :| 0 <= j < |es| && Pairs(es)[j] == c;
      assert es[j] in multiset(fs);
      var k :| 0 <= k < |fs| && fs[k] == es[j];
      assert Pairs(fs)[k] == c;
    }
    forall c | c in Pairs(fs) ensures c in Pairs(es) {
      var j :| 0 <= j < |fs| && Pairs(fs)[j] == c;
      assert fs[j] in multiset(es);
      var k :| 0 <= k < |es| && es[k] == fs[j];
      assert Pairs(es)[k] == c;
    }
  }

  lemma PairsOfEvaluations(o: Oracle, b: Board, ms: seq<Move>, mover: int)
    ensures Pairs(Evaluations(o, b, ms, mover)) == Unordered(o, b, mover, ms)
  {
  }

  /** The boards of a list of children. */
  function ChildBoards(cs: seq<(Board, Move)>): (bs: seq<Board>)
    ensures |bs| == |cs| && forall j :: 0 <= j < |cs| ==> bs[j] == cs[j].0
  {
    seq(|cs|, j requires 0 <= j < |cs| => cs[j].0)
  }

  /** A legal move paired with its board is one of the children in move order. */
  lemma InUnordered(o: Oracle, b: Board, mover: int, ms: seq<Move>, m: Move)
    requires m in ms
    ensures (o.play(b, mover, m), m) in Unordered(o, b, mover, ms)
  {
    var k :| 0 <= k < |ms| && ms[k] == m;
    assert Unordered(o, b, mover, ms)[k] == (o.play(b, mover, m), m);
  }

  /** A list with the elements of the move-order children holds every child board. */
  lemma CoversUnordered(o: Oracle, b: Board, mover: int, ms: seq<Move>, cs: seq<(Board, Move)>)
    requires forall c :: c in cs <==> c in Unordered(o, b, mover, ms)
    ensures forall j :: 0 <= j < |ms| ==> o.play(b, mover, ms[j]) in ChildBoards(cs)
  {
    forall j | 0 <= j < |ms| ensures o.play(b, mover, ms[j]) in ChildBoards(cs) {
      assert Unordered(o, b, mover, ms)[j] in Unordered(o, b, mover, ms);
      var k :| 0 <= k < |cs| && cs[k] == Unordered(o, b, mover, ms)[j];
      assert ChildBoards(cs)[k] == o.play(b, mover, ms[j]);
    }
  }

  /**
   * The children of the second agent: the boards of
   * `after_move_board_list`, each paired with the move
   * `board_move_dict` gives back for it.
   */
  function TestChildren(o: Oracle, b: Board, mover: int, ms: seq<Move>, ordering: int): (cs: seq<(Board, Move)>)
    ensures ChildBoards(cs) == AgentTestEval.AfterMoveBoards(o, b, mover, ms, ordering)
    ensures forall j :: 0 <= j < |cs| ==>
              cs[j].0 in AgentTestEval.MoveDict(o, b, mover, ms) && cs[j].1 == AgentTestEval.MoveDict(o, b, mover, ms)[cs[j].0]
    ensures forall c :: c in cs ==> c in Unordered(o, b, mover, ms)
    ensures forall j :: 0 <= j < |ms| ==> o.play(b, mover, ms[j]) in ChildBoards(cs)
  {
    var bs := AgentTestEval.AfterMoveBoards(o, b, mover, ms, ordering);
    var d := AgentTestEval.MoveDict(o, b, mover, ms);
    AgentTestEval.AfterMoveBoardsAreKeys(o, b, mover, ms, ordering);
    assert forall j :: 0 <= j < |bs| ==> bs[j] in d by {
      forall j | 0 <= j < |bs| ensures bs[j] in d {
        assert bs[j] in bs;
      }
    }
    var cs := WithMoves(bs, d);
    assert ChildBoards(cs) == bs;
    TestChildrenLegal(o, b, mover, ms, ordering, cs);
    cs
  }

  /** Each board paired with the move the dictionary holds for it. */
  function WithMoves(bs: seq<Board>, d: map<Board, Move>): (cs: seq<(Board, Move)>)
    requires forall j :: 0 <= j < |bs| ==> bs[j] in d
    ensures |cs| == |bs| && forall j :: 0 <= j < |bs| ==> cs[j] == (bs[j], d[bs[j]])
  {
    seq(|bs|, j requires 0 <= j < |bs| => (bs[j], d[bs[j]]))
  }

  /** The pairs of the second agent's children are legal moves with their boards, and they reach every board. */
  lemma TestChildrenLegal(o: Oracle, b: Board, mover: int, ms: seq<Move>, ordering: int, cs: seq<(Board, Move)>)
    requires ChildBoards(cs) == AgentTestEval.AfterMoveBoards(o, b, mover, ms, ordering)
    requires forall j :: 0 <= j < |cs| ==>
               cs[j].0 in AgentTestEval.MoveDict(o, b, mover, ms) && cs[j].1 == AgentTestEval.MoveDict(o, b, mover, ms)[cs[j].0]
    ensures forall c :: c in cs ==> c in Unordered(o, b, mover, ms)
    ensures forall j :: 0 <= j < |ms| ==> o.play(b, mover, ms[j]) in ChildBoards(cs)
  {
    AgentTestEval.AfterMoveBoardsAreKeys(o, b, mover, ms, ordering);
    forall c | c in cs ensures c in Unordered(o, b, mover, ms) {
      InUnordered(o, b, mover, ms, c.1);
    }
    forall j | 0 <= j < |ms| ensures o.play(b, mover, ms[j]) in ChildBoards(cs) {
      assert AgentTestEval.PlayedBoards(o, b, mover, ms)[j] == o.play(b, mover, ms[j]);
    }
  }

  /**
   * The children of the first agent: with `ordering` set, the pairs of
   * the evaluations stably sorted by `key` (`evaluate_move_max` sorts by
   * the heuristic, `evaluate_move_min` by its negation); otherwise move
   * order.
   */
  function EvaluatedChildren(o: Oracle, b: Board, mover: int, ms: seq<Move>, ordering: int, key: Evaluation -> int)
    : (cs: seq<(Board, Move)>)
    ensures |cs| == |ms|
    ensures forall c :: c in cs ==> c in Unordered(o, b, mover, ms)
    ensures forall j :: 0 <= j < |ms| ==> o.play(b, mover, ms[j]) in ChildBoards(cs)
    ensures ordering == 0 ==> cs == Unordered(o, b, mover, ms)
  {
    if ordering != 0 then
      var es := Evaluations(o, b, ms, mover);
      PairsSameElements(SortDesc(es, key), es);
      PairsOfEvaluations(o, b, ms, mover);
      CoversUnordered(o, b, mover, ms, Pairs(SortDesc(es, key)));
      Pairs(SortDesc(es, key))
    else
      CoversUnordered(o, b, mover, ms, Unordered(o, b, mover, ms));
      Unordered(o, b, mover, ms)
  }

  /**
   * The order in which a max node visits its children.  The first agent
   * sorts by non-increasing heuristic value of the resulting board when
   * `ordering` is set (`evaluate_move_max`); the second sorts its board
   * list by non-increasing heuristic when `ordering == 1`; otherwise both
   * keep move order.  Either way every child is a legal move with its
   * board, and every move's board is visited.
   */
  function MaxChildren(v: Variant, o: Oracle, b: Board, color: int, ordering: int): (cs: seq<(Board, Move)>)
    ensures |cs| == |o.moves(b, color)|
    ensures forall c :: c in cs ==> c in Unordered(o, b, color, o.moves(b, color))
    ensures forall j :: 0 <= j < |o.moves(b, color)| ==> o.play(b, color, o.moves(b, color)[j]) in ChildBoards(cs)
  {
    match v
    case AgentPy => EvaluatedChildren(o, b, color, o.moves(b, color), ordering, UtilityKey)
    case AgentTestPy => TestChildren(o, b, color, o.moves(b, color), ordering)
  }

  /**
   * The order in which a min node visits the opponent's children.  The
   * first agent sorts by non-decreasing heuristic value from the
   * opponent's view when `ordering` is set (`evaluate_move_min` with the
   * opponent's colour); the second sorts by non-increasing heuristic from
   * the opponent's view when `ordering == 1`; otherwise move order.
   */
  function MinChildren(v: Variant, o: Oracle, b: Board, color: int, ordering: int): (cs: seq<(Board, Move)>)
    ensures |cs| == |o.moves(b, Opponent(color))|
    ensures forall c :: c in cs ==> c in Unordered(o, b, Opponent(color), o.moves(b, Opponent(color)))
    ensures forall j :: 0 <= j < |o.moves(b, Opponent(color))| ==>
              o.play(b, Opponent(color), o.moves(b, Opponent(color))[j]) in ChildBoards(cs)
  {
    match v
    case AgentPy => EvaluatedChildren(o, b, Opponent(color), o.moves(b, Opponent(color)), ordering, NegUtilityKey)
    case AgentTestPy => TestChildren(o, b, Opponent(color), o.moves(b, Opponent(color)), ordering)
  }

  /** With ordering on, a max node of the first agent visits the pairs of `evaluate_move_max`'s list. */
  lemma MaxChildrenSorted(o: Oracle, b: Board, color: int, ordering: int, es: seq<Evaluation>)
    requires ordering != 0 && es == SortDesc(Evaluations(o, b, o.moves(b, color), color), UtilityKey)
    ensures MaxChildren(AgentPy, o, b, color, ordering) == Pairs(es)
  {
  }

  /** With ordering on, a min node of the first agent visits the pairs of `evaluate_move_min`'s list for the opponent. */
  lemma MinChildrenSorted(o: Oracle, b: Board, color: int, ordering: int, es: seq<Evaluation>)
    requires ordering != 0 && es == SortDesc(Evaluations(o, b, o.moves(b, Opponent(color)), Opponent(color)), NegUtilityKey)
    ensures MinChildren(AgentPy, o, b, color, ordering) == Pairs(es)
  {
  }

  /** Without ordering the first agent visits the children in move order. */
  lemma ChildrenUnordered(o: Oracle, b: Board, color: int)
    ensures MaxChildren(AgentPy, o, b, color, 0) == Unordered(o, b, color, o.moves(b, color))
    ensures MinChildren(AgentPy, o, b, color, 0) == Unordered(o, b, Opponent(color), o.moves(b, Opponent(color)))
  {
  }

  /**
   * One round of `alphabeta_max_node`'s loop: with `v` the value of child
   * `i`, the loop either stops with the updated best or goes on from
   * child `i + 1` with the raised `alpha`.
   */
  lemma ABMaxLoopStep(v: Variant, o: SoundOracle, b: Board, color: int, cs: seq<(Board, Move)>, i: nat,
                      alpha: ExtInt, beta: ExtInt, acc: Best, limit: int, ordering: int,
                      u: ExtInt, acc': Best, alpha': ExtInt)
    requires cs == MaxChildren(v, o, b, color, ordering) && i < |cs|
    requires u == ABMin(v, o, cs[i].0, color, alpha, beta, limit - 1, ordering).utility
    requires acc' == (if Lt(acc.value, u) then Best(i, u) else acc) && alpha' == Max(alpha, acc'.value)
    ensures Le(beta, alpha') ==> ABMaxLoop(v, o, b, color, cs, i, alpha, beta, acc, limit, ordering) == acc'
    ensures !Le(beta, alpha') ==>
      ABMaxLoop(v, o, b, color, cs, i, alpha, beta, acc, limit, ordering)
      == ABMaxLoop(v, o, b, color, cs, i + 1, alpha', beta, acc', limit, ordering)
  {
  }

  /** One round of `alphabeta_min_node`'s loop. */
  lemma ABMinLoopStep(v: Variant, o: SoundOracle, b: Board, color: int, cs: seq<(Board, Move)>, i: nat,
                      alpha: ExtInt, beta: ExtInt, acc: Best, limit: int, ordering: int,
                      u: ExtInt, acc': Best, beta': ExtInt)
    requires cs == MinChildren(v, o, b, color, ordering) && i < |cs|
    requires u == ABMax(v, o, cs[i].0, color, alpha, beta, limit - 1, ordering).utility
    requires acc' == (if Lt(u, acc.value) then Best(i, u) else acc) && beta' == Min(beta, acc'.value)
    ensures Le(beta', alpha) ==> ABMinLoop(v, o, b, color, cs, i, alpha, beta, acc, limit, ordering) == acc'
    ensures !Le(beta', alpha) ==>
      ABMinLoop(v, o, b, color, cs, i, alpha, beta, acc, limit, ordering)
      == ABMinLoop(v, o, b, color, cs, i + 1, alpha, beta', acc', limit, ordering)
  {
  }

  /** Every child in either order comes from a legal move and has fewer empty squares than its parent. */
  lemma ChildFewer(o: SoundOracle, b: Board, mover: int, c: (Board, Move))
    requires c in Unordered(o, b, mover, o.moves(b, mover))
    ensures c.1 in o.moves(b, mover) && c.0 == o.play(b, mover, c.1)
    ensures Empties(c.0) < Empties(b)
  {
    var ms := o.moves(b, mover);
    var j :| 0 <= j < |ms| && Unordered(o, b, mover, ms)[j] == c;
    PlayedFewer(o, b, mover, ms[j]);
  }

  /**
   * The loop of `alphabeta_max_node` over children `cs[i..]`: each child is
   * searched as a min node in the current window; the running best is
   * replaced on a strict improvement, `alpha` becomes `max(alpha, best)`,
   * and the loop stops as soon as `beta <= alpha`.
   */
  function ABMaxLoop(v: Variant, o: SoundOracle, b: Board, color: int, cs: seq<(Board, Move)>, i: nat,
                     alpha: ExtInt, beta: ExtInt, acc: Best, limit: int, ordering: int): (r: Best)
    requires cs == MaxChildren(v, o, b, color, ordering) && i <= |cs|
    ensures Le(acc.value, r.value)
    ensures r == acc || (i <= r.index < |cs| && Lt(acc.value, r.value) && r.value.Fin?)
    ensures i < |cs| && acc.value == NegInf ==> r != acc
    decreases Empties(b), 0, |cs| - i
  {
    if i == |cs| then acc
    else
      assert cs[i] in cs;
      ChildFewer(o, b, color, cs[i]);
      var u := ABMin(v, o, cs[i].0, color, alpha, beta, limit - 1, ordering).utility;
      var acc' := if Lt(acc.value, u) then Best(i, u) else acc;
      var alpha' := Max(alpha, acc'.value);
      if Le(beta, alpha') then acc'
      else ABMaxLoop(v, o, b, color, cs, i + 1, alpha', beta, acc', limit, ordering)
  }

  /**
   * The loop of `alphabeta_min_node`: each child is searched as a max
   * node; the running best is replaced on a strict decrease, `beta`
   * becomes `min(beta, best)`, and the loop stops once `beta <= alpha`.
   */
  function ABMinLoop(v: Variant, o: SoundOracle, b: Board, color: int, cs: seq<(Board, Move)>, i: nat,
                     alpha: ExtInt, beta: ExtInt, acc: Best, limit: int, ordering: int): (r: Best)
    requires cs == MinChildren(v, o, b, color, ordering) && i <= |cs|
    ensures Le(r.value, acc.value)
    ensures r == acc || (i <= r.index < |cs| && Lt(r.value, acc.value) && r.value.Fin?)
    ensures i < |cs| && acc.value == PosInf ==> r != acc
    decreases Empties(b), 0, |cs| - i
  {
    if i == |cs| then acc
    else
      assert cs[i] in cs;
      ChildFewer(o, b, Opponent(color), cs[i]);
      var u := ABMax(v, o, cs[i].0, color, alpha, beta, limit - 1, ordering).utility;
      var acc' := if Lt(u, acc.value) then Best(i, u) else acc;
      var beta' := Min(beta, acc'.value);
      if Le(beta', alpha) then acc'
      else ABMinLoop(v, o, b, color, cs, i + 1, alpha, beta', acc', limit, ordering)
  }

  /**
   * `alphabeta_max_node` with caching off: children in the order chosen
   * by `ordering`, `alpha` raised to the best value after each child,
   * and a cut-off as soon as `alpha >= beta`.
   */
  function ABMax(v: Variant, o: SoundOracle, b: Board, color: int, alpha: ExtInt, beta: ExtInt, limit: int, ordering: int): (r: NodeResult)
    ensures r.utility.Fin?
    ensures r.move.None? <==> limit == 0 || |o.moves(b, color)| == 0
    ensures r.move.None? ==> r == Leaf(v, o, b, color)
    ensures r.move.Some? ==> r.move.value in o.moves(b, color)
    decreases Empties(b), 1, 0
  {
    if limit == 0 then Leaf(v, o, b, color)
    else
      var ms := o.moves(b, color);
      if |ms| == 0 then Leaf(v, o, b, color)
      else
        var cs := MaxChildren(v, o, b, color, ordering);
        var best := ABMaxLoop(v, o, b, color, cs, 0, alpha, beta, MaxStart, limit, ordering);
        assert cs[best.index] in cs;
        ChildFewer(o, b, color, cs[best.index]);
        NodeResult(Some(cs[best.index].1), best.value)
  }

  /** `alphabeta_min_node` with caching off: the mirror image, lowering `beta`. */
  function ABMin(v: Variant, o: SoundOracle, b: Board, color: int, alpha: ExtInt, beta: ExtInt, limit: int, ordering: int): (r: NodeResult)
    ensures r.utility.Fin?
    ensures r.move.None? <==> limit == 0 || |o.moves(b, Opponent(color))| == 0
    ensures r.move.None? ==> r == Leaf(v, o, b, color)
    ensures r.move.Some? ==> r.move.value in o.moves(b, Opponent(color))
    decreases Empties(b), 1, 0
  {
    if limit == 0 then Leaf(v, o, b, color)
    else
      var ms := o.moves(b, Opponent(color));
      if |ms| == 0 then Leaf(v, o, b, color)
      else
        var cs := MinChildren(v, o, b, color, ordering);
        var best := ABMinLoop(v, o, b, color, cs, 0, alpha, beta, MinStart, limit, ordering);
        assert cs[best.index] in cs;
        ChildFewer(o, b, Opponent(color), cs[best.index]);
        NodeResult(Some(cs[best.index].1), best.value)
  }
}
