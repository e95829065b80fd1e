/**
 * What the memo dictionaries of both agents may hold, and the one-step
 * facts their node methods use to stay in step with the search functions
 * of `AgentSearch`.  A board stands for its own key: the first agent keys
 * by `str(board)`, the second by the tuple of its rows, and both are
 * one-to-one on boards.
 *
 * Within one search every stored minimax answer is the minimax value at
 * the limit that board always has (`MinimaxCachesAgree`).  Alpha-beta
 * stores window-dependent results, so for it only the shape of every
 * answer is kept (`AlphaBetaCachesSane`).
 */
module SearchCaches {
  import opened Wrappers
  import opened ExtInts
  import opened Othello
  import opened SearchFolds
  import opened AgentSearch

  /** `r` is what a max node of `b` returns with caching off. */
  ghost predicate IsMinimaxMax(v: Variant, o: SoundOracle, b: Board, color: int, limit: int, r: NodeResult) {
    forall k | k == limit :: r == MinimaxMax(v, o, b, color, k)
  }

  /** `r` is what a min node of `b` returns with caching off. */
  ghost predicate IsMinimaxMin(v: Variant, o: SoundOracle, b: Board, color: int, limit: int, r: NodeResult) {
    forall k | k == limit :: r == MinimaxMin(v, o, b, color, k)
  }

  /** The minimax max loop, resumed at child `i` with running best `acc`, ends with `target`. */
  ghost predicate MaxFoldEndsAt(v: Variant, o: SoundOracle, b: Board, color: int, limit: int, i: nat, acc: Best, target: Best)
    requires i <= |o.moves(b, color)|
  {
    forall k: nat | k == i :: MaxFrom(MaxChildValues(v, o, b, color, limit), k, acc) == target
  }

  /** The minimax min loop, resumed at child `i` with running best `acc`, ends with `target`. */
  ghost predicate MinFoldEndsAt(v: Variant, o: SoundOracle, b: Board, color: int, limit: int, i: nat, acc: Best, target: Best)
    requires i <= |o.moves(b, Opponent(color))|
  {
    forall k: nat | k == i :: MinFrom(MinChildValues(v, o, b, color, limit), k, acc) == target
  }

  /** A minimax max node that is not a leaf answers with where its loop ends. */
  lemma MaxFoldStart(v: Variant, o: SoundOracle, b: Board, color: int, limit: int) returns (target: Best)
    requires limit != 0 && |o.moves(b, color)| > 0
    ensures MaxFoldEndsAt(v, o, b, color, limit, 0, MaxStart, target)
    ensures 0 <= target.index < |o.moves(b, color)|
    ensures IsMinimaxMax(v, o, b, color, limit, NodeResult(Some(o.moves(b, color)[target.index]), target.value))
  {
    var vs := MaxChildValues(v, o, b, color, limit);
    MaxFromFinite(vs);
    target := MaxFrom(vs, 0, MaxStart);
  }

  /** A minimax min node that is not a leaf answers with where its loop ends. */
  lemma MinFoldStart(v: Variant, o: SoundOracle, b: Board, color: int, limit: int) returns (target: Best)
    requires limit != 0 && |o.moves(b, Opponent(color))| > 0
    ensures MinFoldEndsAt(v, o, b, color, limit, 0, MinStart, target)
    ensures 0 <= target.index < |o.moves(b, Opponent(color))|
    ensures IsMinimaxMin(v, o, b, color, limit, NodeResult(Some(o.moves(b, Opponent(color))[target.index]), target.value))
  {
    var vs := MinChildValues(v, o, b, color, limit);
    MinFromFinite(vs);
    target := MinFrom(vs, 0, MinStart);
  }

  /** One round of the minimax max loop: child `i`'s min-node value replaces the best if strictly greater. */
  lemma MaxFoldAdvance(v: Variant, o: SoundOracle, b: Board, color: int, limit: int, i: nat, acc: Best, target: Best, child: NodeResult)
    requires i < |o.moves(b, color)|
    requires MaxFoldEndsAt(v, o, b, color, limit, i, acc, target)
    requires IsMinimaxMin(v, o, o.play(b, color, o.moves(b, color)[i]), color, limit - 1, child)
    ensures MaxFoldEndsAt(v, o, b, color, limit, i + 1, if Lt(acc.value, child.utility) then Best(i, child.utility) else acc, target)
  {
    var vs := MaxChildValues(v, o, b, color, limit);
    assert MaxFrom(vs, i, acc) == target;
    assert child == MinimaxMin(v, o, o.play(b, color, o.moves(b, color)[i]), color, limit - 1);
  }

  /** The minimax max loop that has seen every child holds its answer. */
  lemma MaxFoldEnd(v: Variant, o: SoundOracle, b: Board, color: int, limit: int, acc: Best, target: Best)
    requires MaxFoldEndsAt(v, o, b, color, limit, |o.moves(b, color)|, acc, target)
    ensures acc == target
  {
    assert MaxFrom(MaxChildValues(v, o, b, color, limit), |o.moves(b, color)|, acc) == target;
  }

  /** One round of the minimax min loop: child `i`'s max-node value replaces the best if strictly smaller. */
  lemma MinFoldAdvance(v: Variant, o: SoundOracle, b: Board, color: int, limit: int, i: nat, acc: Best, target: Best, child: NodeResult)
    requires i < |o.moves(b, Opponent(color))|
    requires MinFoldEndsAt(v, o, b, color, limit, i, acc, target)
    requires IsMinimaxMax(v, o, o.play(b, Opponent(color), o.moves(b, Opponent(color))[i]), color, limit - 1, child)
    ensures MinFoldEndsAt(v, o, b, color, limit, i + 1, if Lt(child.utility, acc.value) then Best(i, child.utility) else acc, target)
  {
    var vs := MinChildValues(v, o, b, color, limit);
    assert MinFrom(vs, i, acc) == target;
    assert child == MinimaxMax(v, o, o.play(b, Opponent(color), o.moves(b, Opponent(color))[i]), color, limit - 1);
  }

  /** The minimax min loop that has seen every opponent move holds its answer. */
  lemma MinFoldEnd(v: Variant, o: SoundOracle, b: Board, color: int, limit: int, acc: Best, target: Best)
    requires MinFoldEndsAt(v, o, b, color, limit, |o.moves(b, Opponent(color))|, acc, target)
    ensures acc == target
  {
    assert MinFrom(MinChildValues(v, o, b, color, limit), |o.moves(b, Opponent(color))|, acc) == target;
  }

  /**
   * Within one search from a root with limit `L`, a board with `e` empty
   * squares is always reached with limit `base + e`, `base` being `L`
   * minus the root's empty squares.  Every stored minimax answer is the
   * minimax value at that limit.
   */
  ghost predicate MinimaxCachesAgree(v: Variant, o: SoundOracle, color: int, base: int,
                                     maxCache: map<Board, NodeResult>, minCache: map<Board, NodeResult>)
  {
    && (forall b :: b in maxCache ==> IsMinimaxMax(v, o, b, color, base + Empties(b), maxCache[b]))
    && (forall b :: b in minCache ==> IsMinimaxMin(v, o, b, color, base + Empties(b), minCache[b]))
  }

  /** A minimax max node at depth 0 or without moves answers with its leaf. */
  lemma MaxLeafAnswer(v: Variant, o: SoundOracle, b: Board, color: int, limit: int)
    requires limit == 0 || |o.moves(b, color)| == 0
    ensures IsMinimaxMax(v, o, b, color, limit, Leaf(v, o, b, color))
  {
  }

  /** A minimax min node at depth 0 or without opponent moves answers with its leaf. */
  lemma MinLeafAnswer(v: Variant, o: SoundOracle, b: Board, color: int, limit: int)
    requires limit == 0 || |o.moves(b, Opponent(color))| == 0
    ensures IsMinimaxMin(v, o, b, color, limit, Leaf(v, o, b, color))
  {
  }

  /** Storing a max node's true answer keeps the caches in agreement. */
  lemma StoreMaxAnswer(v: Variant, o: SoundOracle, color: int, base: int, maxCache: map<Board, NodeResult>,
                       minCache: map<Board, NodeResult>, b: Board, r: NodeResult)
    requires MinimaxCachesAgree(v, o, color, base, maxCache, minCache)
    requires IsMinimaxMax(v, o, b, color, base + Empties(b), r)
    ensures MinimaxCachesAgree(v, o, color, base, maxCache[b := r], minCache)
  {
  }

  /** Storing a min node's true answer keeps the caches in agreement. */
  lemma StoreMinAnswer(v: Variant, o: SoundOracle, color: int, base: int, maxCache: map<Board, NodeResult>,
                       minCache: map<Board, NodeResult>, b: Board, r: NodeResult)
    requires MinimaxCachesAgree(v, o, color, base, maxCache, minCache)
    requires IsMinimaxMin(v, o, b, color, base + Empties(b), r)
    ensures MinimaxCachesAgree(v, o, color, base, maxCache, minCache[b := r])
  {
  }

  /** Every stored alpha-beta answer names a legal move of the node's mover and a finite utility. */
  ghost predicate AlphaBetaCachesSane(o: SoundOracle, color: int,
                                      alphaMaxCache: map<Board, NodeResult>, alphaMinCache: map<Board, NodeResult>)
  {
    && (forall b :: b in alphaMaxCache ==>
          alphaMaxCache[b].utility.Fin? && alphaMaxCache[b].move.Some?
          && alphaMaxCache[b].move.value in o.moves(b, color))
    && (forall b :: b in alphaMinCache ==>
          alphaMinCache[b].utility.Fin? && alphaMinCache[b].move.Some?
          && alphaMinCache[b].move.value in o.moves(b, Opponent(color)))
  }

  /** Storing an alpha-beta max answer with a finite utility and a legal move keeps the caches sane. */
  lemma StoreABMaxAnswer(o: SoundOracle, color: int, alphaMaxCache: map<Board, NodeResult>,
                         alphaMinCache: map<Board, NodeResult>, b: Board, r: NodeResult)
    requires AlphaBetaCachesSane(o, color, alphaMaxCache, alphaMinCache)
    requires r.utility.Fin? && r.move.Some? && r.move.value in o.moves(b, color)
    ensures AlphaBetaCachesSane(o, color, alphaMaxCache[b := r], alphaMinCache)
  {
  }

  /** Storing an alpha-beta min answer with a finite utility and a legal opponent move keeps the caches sane. */
  lemma StoreABMinAnswer(o: SoundOracle, color: int, alphaMaxCache: map<Board, NodeResult>,
                         alphaMinCache: map<Board, NodeResult>, b: Board, r: NodeResult)
    requires AlphaBetaCachesSane(o, color, alphaMaxCache, alphaMinCache)
    requires r.utility.Fin? && r.move.Some? && r.move.value in o.moves(b, Opponent(color))
    ensures AlphaBetaCachesSane(o, color, alphaMaxCache, alphaMinCache[b := r])
  {
  }

  /** `r` is what `alphabeta_max_node` returns with caching off. */
  ghost predicate IsABMax(v: Variant, o: SoundOracle, b: Board, color: int, alpha: ExtInt, beta: ExtInt, limit: int, ordering: int, r: NodeResult) {
    forall k | k == limit :: r == ABMax(v, o, b, color, alpha, beta, k, ordering)
  }

  /** `r` is what `alphabeta_min_node` returns with caching off. */
  ghost predicate IsABMin(v: Variant, o: SoundOracle, b: Board, color: int, alpha: ExtInt, beta: ExtInt, limit: int, ordering: int, r: NodeResult) {
    forall k | k == limit :: r == ABMin(v, o, b, color, alpha, beta, k, ordering)
  }

  /** An alpha-beta max node at depth 0 or without moves answers with its leaf, whatever the window. */
  lemma ABMaxLeafAnswer(v: Variant, o: SoundOracle, b: Board, color: int, alpha: ExtInt, beta: ExtInt, limit: int, ordering: int)
    requires limit == 0 || |o.moves(b, color)| == 0
    ensures IsABMax(v, o, b, color, alpha, beta, limit, ordering, Leaf(v, o, b, color))
  {
  }

  /** An alpha-beta min node at depth 0 or without opponent moves answers with its leaf, whatever the window. */
  lemma ABMinLeafAnswer(v: Variant, o: SoundOracle, b: Board, color: int, alpha: ExtInt, beta: ExtInt, limit: int, ordering: int)
    requires limit == 0 || |o.moves(b, Opponent(color))| == 0
    ensures IsABMin(v, o, b, color, alpha, beta, limit, ordering, Leaf(v, o, b, color))
  {
  }

  /**
   * `cs` is the list of children a max node visits (the equation sits
   * behind `k`, so that a loop over `cs` does not unfold the list).
   */
  ghost predicate AreMaxChildren(v: Variant, o: Oracle, b: Board, color: int, ordering: int, cs: seq<(Board, Move)>) {
    forall k | k == ordering :: cs == MaxChildren(v, o, b, color, k)
  }

  /** `cs` is the list of children a min node visits. */
  ghost predicate AreMinChildren(v: Variant, o: Oracle, b: Board, color: int, ordering: int, cs: seq<(Board, Move)>) {
    forall k | k == ordering :: cs == MinChildren(v, o, b, color, k)
  }

  /** The children of a max node: one per move, each a legal move. */
  lemma MaxChildList(v: Variant, o: SoundOracle, b: Board, color: int, ordering: int) returns (cs: seq<(Board, Move)>)
    ensures AreMaxChildren(v, o, b, color, ordering, cs) && |cs| == |o.moves(b, color)|
    ensures forall j :: 0 <= j < |cs| ==> cs[j].1 in o.moves(b, color)
  {
    cs := MaxChildren(v, o, b, color, ordering);
    forall j | 0 <= j < |cs| ensures cs[j].1 in o.moves(b, color) {
      assert cs[j] in cs;
      ChildFewer(o, b, color, cs[j]);
    }
  }

  /** The children of a min node: one per opponent move, each a legal opponent move. */
  lemma MinChildList(v: Variant, o: SoundOracle, b: Board, color: int, ordering: int) returns (cs: seq<(Board, Move)>)
    ensures AreMinChildren(v, o, b, color, ordering, cs) && |cs| == |o.moves(b, Opponent(color))|
    ensures forall j :: 0 <= j < |cs| ==> cs[j].1 in o.moves(b, Opponent(color))
  {
    cs := MinChildren(v, o, b, color, ordering);
    forall j | 0 <= j < |cs| ensures cs[j].1 in o.moves(b, Opponent(color)) {
      assert cs[j] in cs;
      ChildFewer(o, b, Opponent(color), cs[j]);
    }
  }

  /**
   * The loop of `alphabeta_max_node`, resumed at child `i` with the current
   * `alpha` and running best `acc`, ends with `target`.
   */
  ghost predicate MaxLoopEndsAt(v: Variant, o: SoundOracle, b: Board, color: int, cs: seq<(Board, Move)>, i: nat,
                                alpha: ExtInt, beta: ExtInt, acc: Best, limit: int, ordering: int, target: Best)
    requires AreMaxChildren(v, o, b, color, ordering, cs) && i <= |cs|
  {
    assert cs == MaxChildren(v, o, b, color, ordering);
    forall k: nat | k == i :: ABMaxLoop(v, o, b, color, cs, k, alpha, beta, acc, limit, ordering) == target
  }

  /** The loop of `alphabeta_min_node`, resumed at child `i`, ends with `target`. */
  ghost predicate MinLoopEndsAt(v: Variant, o: SoundOracle, b: Board, color: int, cs: seq<(Board, Move)>, i: nat,
                                alpha: ExtInt, beta: ExtInt, acc: Best, limit: int, ordering: int, target: Best)
    requires AreMinChildren(v, o, b, color, ordering, cs) && i <= |cs|
  {
    assert cs == MinChildren(v, o, b, color, ordering);
    forall k: nat | k == i :: ABMinLoop(v, o, b, color, cs, k, alpha, beta, acc, limit, ordering) == target
  }

  /** A max node that is not a leaf answers with where its loop ends. */
  lemma MaxLoopStart(v: Variant, o: SoundOracle, b: Board, color: int, cs: seq<(Board, Move)>,
                     alpha: ExtInt, beta: ExtInt, limit: int, ordering: int)
    returns (target: Best)
    requires AreMaxChildren(v, o, b, color, ordering, cs)
    requires limit != 0 && |o.moves(b, color)| > 0
    ensures MaxLoopEndsAt(v, o, b, color, cs, 0, alpha, beta, MaxStart, limit, ordering, target)
    ensures 0 <= target.index < |cs|
    ensures IsABMax(v, o, b, color, alpha, beta, limit, ordering, NodeResult(Some(cs[target.index].1), target.value))
  {
    assert cs == MaxChildren(v, o, b, color, ordering);
    target := ABMaxLoop(v, o, b, color, cs, 0, alpha, beta, MaxStart, limit, ordering);
  }

  /** A min node that is not a leaf answers with where its loop ends. */
  lemma MinLoopStart(v: Variant, o: SoundOracle, b: Board, color: int, cs: seq<(Board, Move)>,
                     alpha: ExtInt, beta: ExtInt, limit: int, ordering: int)
    returns (target: Best)
    requires AreMinChildren(v, o, b, color, ordering, cs)
    requires limit != 0 && |o.moves(b, Opponent(color))| > 0
    ensures MinLoopEndsAt(v, o, b, color, cs, 0, alpha, beta, MinStart, limit, ordering, target)
    ensures 0 <= target.index < |cs|
    ensures IsABMin(v, o, b, color, alpha, beta, limit, ordering, NodeResult(Some(cs[target.index].1), target.value))
  {
    assert cs == MinChildren(v, o, b, color, ordering);
    target := ABMinLoop(v, o, b, color, cs, 0, alpha, beta, MinStart, limit, ordering);
  }

  /** One round of the max loop keeps its end fixed, or reaches it on a cut-off. */
  lemma MaxLoopAdvance(v: Variant, o: SoundOracle, b: Board, color: int, cs: seq<(Board, Move)>, i: nat,
                       alpha: ExtInt, beta: ExtInt, acc: Best, limit: int, ordering: int, target: Best,
                       child: NodeResult, acc': Best, alpha': ExtInt, caching: int)
    requires AreMaxChildren(v, o, b, color, ordering, cs) && i < |cs|
    requires caching == 0 ==> MaxLoopEndsAt(v, o, b, color, cs, i, alpha, beta, acc, limit, ordering, target)
    requires caching == 0 ==> IsABMin(v, o, cs[i].0, color, alpha, beta, limit - 1, ordering, child)
    requires acc' == (if Lt(acc.value, child.utility) then Best(i, child.utility) else acc) && alpha' == Max(alpha, acc'.value)
    ensures caching == 0 && Le(beta, alpha') ==> acc' == target
    ensures caching == 0 && !Le(beta, alpha') ==> MaxLoopEndsAt(v, o, b, color, cs, i + 1, alpha', beta, acc', limit, ordering, target)
  {
    if caching == 0 {
      assert cs == MaxChildren(v, o, b, color, ordering);
      assert ABMaxLoop(v, o, b, color, cs, i, alpha, beta, acc, limit, ordering) == target;
      ABMaxLoopStep(v, o, b, color, cs, i, alpha, beta, acc, limit, ordering, child.utility, acc', alpha');
    }
  }

  /** The max loop of an alpha-beta node that has seen every child holds its answer. */
  lemma MaxLoopEnd(v: Variant, o: SoundOracle, b: Board, color: int, cs: seq<(Board, Move)>,
                  alpha: ExtInt, beta: ExtInt, acc: Best, limit: int, ordering: int, target: Best)
    requires AreMaxChildren(v, o, b, color, ordering, cs)
    requires MaxLoopEndsAt(v, o, b, color, cs, |cs|, alpha, beta, acc, limit, ordering, target)
    ensures acc == target
  {
    assert cs == MaxChildren(v, o, b, color, ordering);
    assert ABMaxLoop(v, o, b, color, cs, |cs|, alpha, beta, acc, limit, ordering) == target;
  }

  /** One round of the min loop keeps its end fixed, or reaches it on a cut-off. */
  lemma MinLoopAdvance(v: Variant, o: SoundOracle, b: Board, color: int, cs: seq<(Board, Move)>, i: nat,
                       alpha: ExtInt, beta: ExtInt, acc: Best, limit: int, ordering: int, target: Best,
                       child: NodeResult, acc': Best, beta': ExtInt, caching: int)
    requires AreMinChildren(v, o, b, color, ordering, cs) && i < |cs|
    requires caching == 0 ==> MinLoopEndsAt(v, o, b, color, cs, i, alpha, beta, acc, limit, ordering, target)
    requires caching == 0 ==> IsABMax(v, o, cs[i].0, color, alpha, beta, limit - 1, ordering, child)
    requires acc' == (if Lt(child.utility, acc.value) then Best(i, child.utility) else acc) && beta' == Min(beta, acc'.value)
    ensures caching == 0 && Le(beta', alpha) ==> acc' == target
    ensures caching == 0 && !Le(beta', alpha) ==> MinLoopEndsAt(v, o, b, color, cs, i + 1, alpha, beta', acc', limit, ordering, target)
  {
    if caching == 0 {
      assert cs == MinChildren(v, o, b, color, ordering);
      assert ABMinLoop(v, o, b, color, cs, i, alpha, beta, acc, limit, ordering) == target;
      ABMinLoopStep(v, o, b, color, cs, i, alpha, beta, acc, limit, ordering, child.utility, acc', beta');
    }
  }

  /** The min loop of an alpha-beta node that has seen every child holds its answer. */
  lemma MinLoopEnd(v: Variant, o: SoundOracle, b: Board, color: int, cs: seq<(Board, Move)>,
                  alpha: ExtInt, beta: ExtInt, acc: Best, limit: int, ordering: int, target: Best)
    requires AreMinChildren(v, o, b, color, ordering, cs)
    requires MinLoopEndsAt(v, o, b, color, cs, |cs|, alpha, beta, acc, limit, ordering, target)
    ensures acc == target
  {
    assert cs == MinChildren(v, o, b, color, ordering);
    assert ABMinLoop(v, o, b, color, cs, |cs|, alpha, beta, acc, limit, ordering) == target;
  }
}
