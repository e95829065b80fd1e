/**
 * What the searches of both agents promise, proved about the functions in
 * `AgentSearch`: alpha-beta is fail-soft round minimax, so at the root
 * (window -inf, inf) it returns the minimax value, with or without node
 * ordering.
 */
module AgentProperties {
  import opened Wrappers
  import opened ExtInts
  import opened Othello
  import opened SearchFolds
  import opened AgentSearch

  /** The min-node minimax values of a list of children, in list order. */
  function MinValuesOf(v: Variant, o: SoundOracle, cs: seq<(Board, Move)>, color: int, limit: int): (vs: seq<ExtInt>)
    ensures |vs| == |cs|
    ensures forall j :: 0 <= j < |cs| ==> vs[j] == MinimaxMin(v, o, cs[j].0, color, limit).utility
  {
    seq(|cs|, j requires 0 <= j < |cs| => MinimaxMin(v, o, cs[j].0, color, limit).utility)
  }

  /** The max-node minimax values of a list of children, in list order. */
  function MaxValuesOf(v: Variant, o: SoundOracle, cs: seq<(Board, Move)>, color: int, limit: int): (vs: seq<ExtInt>)
    ensures |vs| == |cs|
    ensures forall j :: 0 <= j < |cs| ==> vs[j] == MinimaxMax(v, o, cs[j].0, color, limit).utility
  {
    seq(|cs|, j requires 0 <= j < |cs| => MinimaxMax(v, o, cs[j].0, color, limit).utility)
  }

  /**
   * A child list whose children all occur in `ds` and which reaches every
   * board of `ds` has the same set of min-node values as `ds`: a child's
   * value depends on its board alone.
   */
  lemma MinValuesBySet(v: Variant, o: SoundOracle, cs: seq<(Board, Move)>, ds: seq<(Board, Move)>, color: int, limit: int)
    requires forall c :: c in cs ==> c in ds
    requires forall j :: 0 <= j < |ds| ==> ds[j].0 in ChildBoards(cs)
    ensures forall x :: x in MinValuesOf(v, o, cs, color, limit) <==> x in MinValuesOf(v, o, ds, color, limit)
  {
    forall x | x in MinValuesOf(v, o, cs, color, limit) ensures x in MinValuesOf(v, o, ds, color, limit) {
      var j :| 0 <= j < |cs| && MinValuesOf(v, o, cs, color, limit)[j] == x;
      assert cs[j] in cs;
      var k :| 0 <= k < |ds| && ds[k] == cs[j];
      assert MinValuesOf(v, o, ds, color, limit)[k] == x;
    }
    forall x | x in MinValuesOf(v, o, ds, color, limit) ensures x in MinValuesOf(v, o, cs, color, limit) {
      var j :| 0 <= j < |ds| && MinValuesOf(v, o, ds, color, limit)[j] == x;
      var k :| 0 <= k < |cs| && ChildBoards(cs)[k] == ds[j].0;
      assert MinValuesOf(v, o, cs, color, limit)[k] == x;
    }
  }

  /** The same for max-node values. */
  lemma MaxValuesBySet(v: Variant, o: SoundOracle, cs: seq<(Board, Move)>, ds: seq<(Board, Move)>, color: int, limit: int)
    requires forall c :: c in cs ==> c in ds
    requires forall j :: 0 <= j < |ds| ==> ds[j].0 in ChildBoards(cs)
    ensures forall x :: x in MaxValuesOf(v, o, cs, color, limit) <==> x in MaxValuesOf(v, o, ds, color, limit)
  {
    forall x | x in MaxValuesOf(v, o, cs, color, limit) ensures x in MaxValuesOf(v, o, ds, color, limit) {
      var j :| 0 <= j < |cs| && MaxValuesOf(v, o, cs, color, limit)[j] == x;
      assert cs[j] in cs;
      var k :| 0 <= k < |ds| && ds[k] == cs[j];
      assert MaxValuesOf(v, o, ds, color, limit)[k] == x;
    }
    forall x | x in MaxValuesOf(v, o, ds, color, limit) ensures x in MaxValuesOf(v, o, cs, color, limit) {
      var j :| 0 <= j < |ds| && MaxValuesOf(v, o, ds, color, limit)[j] == x;
      var k :| 0 <= k < |cs| && ChildBoards(cs)[k] == ds[j].0;
      assert MaxValuesOf(v, o, cs, color, limit)[k] == x;
    }
  }

  /** A max node's minimax value is the max loop over its children in the order alpha-beta visits them. */
  lemma MaxNodeValueInAnyOrder(v: Variant, o: SoundOracle, b: Board, color: int, limit: int, ordering: int)
    requires limit != 0 && |o.moves(b, color)| > 0
    ensures MaxFrom(MinValuesOf(v, o, MaxChildren(v, o, b, color, ordering), color, limit - 1), 0, MaxStart).value
         == MinimaxMax(v, o, b, color, limit).utility
  {
    var cs := MaxChildren(v, o, b, color, ordering);
    var us := Unordered(o, b, color, o.moves(b, color));
    MinValuesBySet(v, o, cs, us, color, limit - 1);
    assert MaxChildValues(v, o, b, color, limit) == MinValuesOf(v, o, us, color, limit - 1);
    MaxValueBySet(MinValuesOf(v, o, cs, color, limit - 1), MaxChildValues(v, o, b, color, limit));
  }

  /** A min node's minimax value is the min loop over its children in the order alpha-beta visits them. */
  lemma MinNodeValueInAnyOrder(v: Variant, o: SoundOracle, b: Board, color: int, limit: int, ordering: int)
    requires limit != 0 && |o.moves(b, Opponent(color))| > 0
    ensures MinFrom(MaxValuesOf(v, o, MinChildren(v, o, b, color, ordering), color, limit - 1), 0, MinStart).value
         == MinimaxMin(v, o, b, color, limit).utility
  {
    var cs := MinChildren(v, o, b, color, ordering);
    var us := Unordered(o, b, Opponent(color), o.moves(b, Opponent(color)));
    MaxValuesBySet(v, o, cs, us, color, limit - 1);
    assert MinChildValues(v, o, b, color, limit) == MaxValuesOf(v, o, us, color, limit - 1);
    MinValueBySet(MaxValuesOf(v, o, cs, color, limit - 1), MinChildValues(v, o, b, color, limit));
  }

  /** A minimax max node that has children takes the first best of their values. */
  lemma MinimaxMaxValue(v: Variant, o: SoundOracle, b: Board, color: int, limit: int, vs: seq<ExtInt>)
    requires limit != 0 && |o.moves(b, color)| > 0
    requires vs == MaxChildValues(v, o, b, color, limit)
    ensures var best := MaxFrom(vs, 0, MaxStart);
            && 0 <= best.index < |vs|
            && MinimaxMax(v, o, b, color, limit) == NodeResult(Some(o.moves(b, color)[best.index]), best.value)
  {
    MaxFromFinite(vs);
  }

  /** The loop goes on after child `i` with the invariant restored; the rest of the loop is fail-soft. */
  lemma MaxLoopContinue(v: Variant, o: SoundOracle, b: Board, color: int, cs: seq<(Board, Move)>, vs: seq<ExtInt>, i: nat,
                        alpha0: ExtInt, alpha: ExtInt, beta: ExtInt, acc: Best, m: Best, limit: int, ordering: int,
                        acc': Best, m': Best, alpha': ExtInt)
    requires cs == MaxChildren(v, o, b, color, ordering) && vs == MinValuesOf(v, o, cs, color, limit - 1) && i < |cs|
    requires acc' == (if Lt(acc.value, ABMin(v, o, cs[i].0, color, alpha, beta, limit - 1, ordering).utility)
                     then Best(i, ABMin(v, o, cs[i].0, color, alpha, beta, limit - 1, ordering).utility) else acc)
    requires alpha' == Max(alpha, acc'.value) && !Le(beta, alpha')
    requires alpha' == Max(alpha0, acc'.value) && Lt(alpha', beta)
    requires Le(m'.value, acc'.value) && (Lt(alpha0, acc'.value) ==> m'.value == acc'.value)
    requires MaxFrom(vs, i, m) == MaxFrom(vs, i + 1, m')
    ensures FailSoft(MaxFrom(vs, i, m).value, alpha0, beta,
                     ABMaxLoop(v, o, b, color, cs, i, alpha, beta, acc, limit, ordering).value)
    decreases Empties(b), 0, |cs| - i, 0
  {
    ABMaxLoopFailSoft(v, o, b, color, cs, vs, i + 1, alpha0, alpha', beta, acc', m', limit, ordering);
  }

  /** Child `i` of the loop, searched in the loop's current window, is fail-soft round its minimax value. */
  lemma MaxLoopChildFailSoft(v: Variant, o: SoundOracle, b: Board, color: int, cs: seq<(Board, Move)>, vs: seq<ExtInt>,
                            i: nat, alpha: ExtInt, beta: ExtInt, limit: int, ordering: int)
    requires cs == MaxChildren(v, o, b, color, ordering) && vs == MinValuesOf(v, o, cs, color, limit - 1) && i < |cs|
    requires Lt(alpha, beta)
    ensures FailSoft(vs[i], alpha, beta, ABMin(v, o, cs[i].0, color, alpha, beta, limit - 1, ordering).utility)
    decreases Empties(b), 0, |cs| - i, 0
  {
    assert cs[i] in cs;
    ChildFewer(o, b, color, cs[i]);
    ABMinFailSoftNode(v, o, cs[i].0, color, alpha, beta, limit - 1, ordering);
  }

  /**
   * The alpha-beta max loop is fail-soft round the minimax max loop over
   * the same children.  `alpha0` is the window's lower end as the node
   * received it; `m` is the minimax running best over the same children
   * so far.
   */
  lemma {:induction false} ABMaxLoopFailSoft(v: Variant, o: SoundOracle, b: Board, color: int, cs: seq<(Board, Move)>,
                                             vs: seq<ExtInt>, i: nat, alpha0: ExtInt, alpha: ExtInt, beta: ExtInt,
                                             acc: Best, m: Best, limit: int, ordering: int)
    requires cs == MaxChildren(v, o, b, color, ordering) && vs == MinValuesOf(v, o, cs, color, limit - 1) && i <= |cs|
    requires alpha == Max(alpha0, acc.value) && Lt(alpha, beta)
    requires Le(m.value, acc.value) && (Lt(alpha0, acc.value) ==> m.value == acc.value)
    ensures FailSoft(MaxFrom(vs, i, m).value, alpha0, beta,
                     ABMaxLoop(v, o, b, color, cs, i, alpha, beta, acc, limit, ordering).value)
    decreases Empties(b), 0, |cs| - i, 1
  {
    if i == |cs| {
      LeTotal(acc.value, alpha0);
    } else {
      MaxLoopChildFailSoft(v, o, b, color, cs, vs, i, alpha, beta, limit, ordering);
      var u := ABMin(v, o, cs[i].0, color, alpha, beta, limit - 1, ordering).utility;
      MaxLoopStep(vs, i, alpha0, alpha, beta, acc, m, u);
      var acc' := if Lt(acc.value, u) then Best(i, u) else acc;
      var m' := if Lt(m.value, vs[i]) then Best(i, vs[i]) else m;
      var alpha' := Max(alpha, acc'.value);
      if !Le(beta, alpha') {
        MaxLoopContinue(v, o, b, color, cs, vs, i, alpha0, alpha, beta, acc, m, limit, ordering, acc', m', alpha');
      }
    }
  }

  /** The loop goes on after child `i` with the invariant restored; the rest of the loop is fail-soft. */
  lemma MinLoopContinue(v: Variant, o: SoundOracle, b: Board, color: int, cs: seq<(Board, Move)>, vs: seq<ExtInt>, i: nat,
                        beta0: ExtInt, alpha: ExtInt, beta: ExtInt, acc: Best, m: Best, limit: int, ordering: int,
                        acc': Best, m': Best, beta': ExtInt)
    requires cs == MinChildren(v, o, b, color, ordering) && vs == MaxValuesOf(v, o, cs, color, limit - 1) && i < |cs|
    requires acc' == (if Lt(ABMax(v, o, cs[i].0, color, alpha, beta, limit - 1, ordering).utility, acc.value)
                     then Best(i, ABMax(v, o, cs[i].0, color, alpha, beta, limit - 1, ordering).utility) else acc)
    requires beta' == Min(beta, acc'.value) && !Le(beta', alpha)
    requires beta' == Min(beta0, acc'.value) && Lt(alpha, beta')
    requires Le(acc'.value, m'.value) && (Lt(acc'.value, beta0) ==> m'.value == acc'.value)
    requires MinFrom(vs, i, m) == MinFrom(vs, i + 1, m')
    ensures FailSoft(MinFrom(vs, i, m).value, alpha, beta0,
                     ABMinLoop(v, o, b, color, cs, i, alpha, beta, acc, limit, ordering).value)
    decreases Empties(b), 0, |cs| - i, 0
  {
    ABMinLoopFailSoft(v, o, b, color, cs, vs, i + 1, beta0, alpha, beta', acc', m', limit, ordering);
  }

  /** Child `i` of the loop, searched in the loop's current window, is fail-soft round its minimax value. */
  lemma MinLoopChildFailSoft(v: Variant, o: SoundOracle, b: Board, color: int, cs: seq<(Board, Move)>, vs: seq<ExtInt>,
                            i: nat, alpha: ExtInt, beta: ExtInt, limit: int, ordering: int)
    requires cs == MinChildren(v, o, b, color, ordering) && vs == MaxValuesOf(v, o, cs, color, limit - 1) && i < |cs|
    requires Lt(alpha, beta)
    ensures FailSoft(vs[i], alpha, beta, ABMax(v, o, cs[i].0, color, alpha, beta, limit - 1, ordering).utility)
    decreases Empties(b), 0, |cs| - i, 0
  {
    assert cs[i] in cs;
    ChildFewer(o, b, Opponent(color), cs[i]);
    ABMaxFailSoftNode(v, o, cs[i].0, color, alpha, beta, limit - 1, ordering);
  }

  /** The alpha-beta min loop is fail-soft round the minimax min loop. */
  lemma {:induction false} ABMinLoopFailSoft(v: Variant, o: SoundOracle, b: Board, color: int, cs: seq<(Board, Move)>,
                                             vs: seq<ExtInt>, i: nat, beta0: ExtInt, alpha: ExtInt, beta: ExtInt,
                                             acc: Best, m: Best, limit: int, ordering: int)
    requires cs == MinChildren(v, o, b, color, ordering) && vs == MaxValuesOf(v, o, cs, color, limit - 1) && i <= |cs|
    requires beta == Min(beta0, acc.value) && Lt(alpha, beta)
    requires Le(acc.value, m.value) && (Lt(acc.value, beta0) ==> m.value == acc.value)
    ensures FailSoft(MinFrom(vs, i, m).value, alpha, beta0,
                     ABMinLoop(v, o, b, color, cs, i, alpha, beta, acc, limit, ordering).value)
    decreases Empties(b), 0, |cs| - i, 1
  {
    if i == |cs| {
      LeTotal(acc.value, beta0);
    } else {
      MinLoopChildFailSoft(v, o, b, color, cs, vs, i, alpha, beta, limit, ordering);
      var u := ABMax(v, o, cs[i].0, color, alpha, beta, limit - 1, ordering).utility;
      MinLoopStep(vs, i, beta0, alpha, beta, acc, m, u);
      var acc' := if Lt(u, acc.value) then Best(i, u) else acc;
      var m' := if Lt(vs[i], m.value) then Best(i, vs[i]) else m;
      var beta' := Min(beta, acc'.value);
      if !Le(beta', alpha) {
        MinLoopContinue(v, o, b, color, cs, vs, i, beta0, alpha, beta, acc, m, limit, ordering, acc', m', beta');
      }
    }
  }

  /**
   * Alpha-beta max node with caching off, in any window with
   * `alpha < beta` and with or without ordering, is fail-soft round the
   * minimax value: inside the window it is the minimax value, at or below
   * `alpha` it bounds it from above, at or above `beta` from below.
   */
  lemma {:induction false} ABMaxFailSoftNode(v: Variant, o: SoundOracle, b: Board, color: int, alpha: ExtInt, beta: ExtInt,
                                             limit: int, ordering: int)
    requires Lt(alpha, beta)
    ensures FailSoft(MinimaxMax(v, o, b, color, limit).utility, alpha, beta,
                     ABMax(v, o, b, color, alpha, beta, limit, ordering).utility)
    decreases Empties(b), 1, 0, 0
  {
    if limit != 0 && |o.moves(b, color)| > 0 {
      var cs := MaxChildren(v, o, b, color, ordering);
      var vs := MinValuesOf(v, o, cs, color, limit - 1);
      ABMaxLoopFailSoft(v, o, b, color, cs, vs, 0, alpha, alpha, beta, MaxStart, MaxStart, limit, ordering);
      MaxNodeValueInAnyOrder(v, o, b, color, limit, ordering);
    } else {
      assert MinimaxMax(v, o, b, color, limit) == ABMax(v, o, b, color, alpha, beta, limit, ordering);
    }
  }

  /** Alpha-beta min node with caching off is fail-soft round the minimax value. */
  lemma {:induction false} ABMinFailSoftNode(v: Variant, o: SoundOracle, b: Board, color: int, alpha: ExtInt, beta: ExtInt,
                                             limit: int, ordering: int)
    requires Lt(alpha, beta)
    ensures FailSoft(MinimaxMin(v, o, b, color, limit).utility, alpha, beta,
                     ABMin(v, o, b, color, alpha, beta, limit, ordering).utility)
    decreases Empties(b), 1, 0, 0
  {
    if limit != 0 && |o.moves(b, Opponent(color))| > 0 {
      var cs := MinChildren(v, o, b, color, ordering);
      var vs := MaxValuesOf(v, o, cs, color, limit - 1);
      ABMinLoopFailSoft(v, o, b, color, cs, vs, 0, beta, alpha, beta, MinStart, MinStart, limit, ordering);
      MinNodeValueInAnyOrder(v, o, b, color, limit, ordering);
    } else {
      assert MinimaxMin(v, o, b, color, limit) == ABMin(v, o, b, color, alpha, beta, limit, ordering);
    }
  }

  /** The same bounds read from the minimax side: what a window result tells about the true value. */
  lemma ABMaxBoundsByValue(v: Variant, o: SoundOracle, b: Board, color: int, alpha: ExtInt, beta: ExtInt, limit: int, ordering: int)
    requires Lt(alpha, beta)
    ensures var v, r := MinimaxMax(v, o, b, color, limit).utility, ABMax(v, o, b, color, alpha, beta, limit, ordering).utility;
            && (Lt(alpha, v) && Lt(v, beta) ==> r == v)
            && (Le(v, alpha) ==> Le(r, alpha))
            && (Le(beta, v) ==> Le(beta, r))
  {
    ABMaxFailSoftNode(v, o, b, color, alpha, beta, limit, ordering);
    FailSoftByValue(MinimaxMax(v, o, b, color, limit).utility, alpha, beta,
                    ABMax(v, o, b, color, alpha, beta, limit, ordering).utility);
  }

  /** The full-window loop goes on after child `i` with a finite best; the rest of it matches minimax. */
  lemma MaxFullWindowContinue(v: Variant, o: SoundOracle, b: Board, color: int, cs: seq<(Board, Move)>,
                              vs: seq<ExtInt>, i: nat, acc: Best, limit: int, acc': Best)
    requires cs == MaxChildren(v, o, b, color, 0) && vs == MinValuesOf(v, o, cs, color, limit - 1) && i < |cs|
    requires acc' == (if Lt(acc.value, ABMin(v, o, cs[i].0, color, acc.value, PosInf, limit - 1, 0).utility)
                      then Best(i, ABMin(v, o, cs[i].0, color, acc.value, PosInf, limit - 1, 0).utility) else acc)
    requires acc'.value != PosInf && Max(acc.value, acc'.value) == acc'.value
    requires MaxFrom(vs, i, acc) == MaxFrom(vs, i + 1, acc')
    ensures ABMaxLoop(v, o, b, color, cs, i, acc.value, PosInf, acc, limit, 0) == MaxFrom(vs, i, acc)
    decreases |cs| - i, 0
  {
    ABMaxLoopFullWindow(v, o, b, color, cs, vs, i + 1, acc', limit);
  }

  /**
   * In the full window the alpha-beta max loop visits every child and
   * takes the same steps as the minimax max loop.
   */
  lemma {:induction false} ABMaxLoopFullWindow(v: Variant, o: SoundOracle, b: Board, color: int, cs: seq<(Board, Move)>,
                                               vs: seq<ExtInt>, i: nat, acc: Best, limit: int)
    requires cs == MaxChildren(v, o, b, color, 0) && vs == MinValuesOf(v, o, cs, color, limit - 1) && i <= |cs|
    requires acc.value != PosInf
    ensures ABMaxLoop(v, o, b, color, cs, i, acc.value, PosInf, acc, limit, 0) == MaxFrom(vs, i, acc)
    decreases |cs| - i, 1
  {
    if i < |cs| {
      MaxLoopChildFailSoft(v, o, b, color, cs, vs, i, acc.value, PosInf, limit, 0);
      var u := ABMin(v, o, cs[i].0, color, acc.value, PosInf, limit - 1, 0).utility;
      FullWindowMaxStep(vs, i, acc, u);
      var acc' := if Lt(acc.value, u) then Best(i, u) else acc;
      if acc'.value != PosInf {
        MaxFullWindowContinue(v, o, b, color, cs, vs, i, acc, limit, acc');
      }
    }
  }

  /**
   * `select_move_alphabeta`'s root search, window (-inf, inf), returns the
   * minimax value, with or without node ordering.
   */
  lemma AlphaBetaRootValue(v: Variant, o: SoundOracle, b: Board, color: int, limit: int, ordering: int)
    ensures ABMax(v, o, b, color, NegInf, PosInf, limit, ordering).utility == MinimaxMax(v, o, b, color, limit).utility
  {
    ABMaxFailSoftNode(v, o, b, color, NegInf, PosInf, limit, ordering);
    FailSoftFullWindow(MinimaxMax(v, o, b, color, limit).utility, ABMax(v, o, b, color, NegInf, PosInf, limit, ordering).utility);
  }

  /** Node ordering does not change the root value. */
  lemma OrderingKeepsRootValue(v: Variant, o: SoundOracle, b: Board, color: int, limit: int, ordering: int)
    ensures ABMax(v, o, b, color, NegInf, PosInf, limit, ordering).utility
         == ABMax(v, o, b, color, NegInf, PosInf, limit, 0).utility
  {
    AlphaBetaRootValue(v, o, b, color, limit, ordering);
    AlphaBetaRootValue(v, o, b, color, limit, 0);
  }

  /**
   * Without ordering the root alpha-beta search chooses exactly the
   * minimax move as well as its value.
   */
  lemma AlphaBetaRootUnordered(o: SoundOracle, b: Board, color: int, limit: int)
    ensures ABMax(AgentPy, o, b, color, NegInf, PosInf, limit, 0) == MinimaxMax(AgentPy, o, b, color, limit)
  {
    var v := AgentPy;
    var ms := o.moves(b, color);
    if limit != 0 && |ms| > 0 {
      var cs := MaxChildren(v, o, b, color, 0);
      ChildrenUnordered(o, b, color);
      var vs := MinValuesOf(v, o, cs, color, limit - 1);
      assert vs == MaxChildValues(v, o, b, color, limit);
      ABMaxLoopFullWindow(v, o, b, color, cs, vs, 0, MaxStart, limit);
      MinimaxMaxValue(v, o, b, color, limit, vs);
    } else {
      assert MinimaxMax(v, o, b, color, limit) == ABMax(v, o, b, color, NegInf, PosInf, limit, 0);
    }
  }
}
