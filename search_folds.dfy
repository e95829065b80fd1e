/**
 * The loops inside the Othello search nodes, stated once for both agents.
 *
 * A minimax node walks over its children's values keeping the best one
 * seen so far, replaced only on a strict improvement.  An alpha-beta node
 * does the same but asks each child for its value inside the current
 * window, narrows the window with every child, and stops as soon as the
 * window is empty; its loop is in `AgentSearch`, and the steps it takes
 * are stated here on values.
 */
module SearchFolds {
  import opened ExtInts

  /** The running best: the index of the child that set it (`-1`: the initial value) and its value. */
  datatype Best = Best(index: int, value: ExtInt)

  /**
   * The minimax max loop over `vs[i..]`: a child replaces the running best
   * only when its value is strictly greater.  The result is a maximum of
   * `acc` and `vs[i..]`, attained first at `r.index`.
   */
  function MaxFrom(vs: seq<ExtInt>, i: nat, acc: Best): (r: Best)
    requires i <= |vs|
    ensures Le(acc.value, r.value)
    ensures forall j :: i <= j < |vs| ==> Le(vs[j], r.value)
    ensures r == acc || (i <= r.index < |vs| && vs[r.index] == r.value && Lt(acc.value, r.value)
                         && forall j :: i <= j < r.index ==> Lt(vs[j], r.value))
    decreases |vs| - i
  {
    if i == |vs| then acc
    else MaxFrom(vs, i + 1, if Lt(acc.value, vs[i]) then Best(i, vs[i]) else acc)
  }

  /** The minimax min loop: the mirror image of `MaxFrom`, replacing on strictly smaller. */
  function MinFrom(vs: seq<ExtInt>, i: nat, acc: Best): (r: Best)
    requires i <= |vs|
    ensures Le(r.value, acc.value)
    ensures forall j :: i <= j < |vs| ==> Le(r.value, vs[j])
    ensures r == acc || (i <= r.index < |vs| && vs[r.index] == r.value && Lt(r.value, acc.value)
                         && forall j :: i <= j < r.index ==> Lt(r.value, vs[j]))
    decreases |vs| - i
  {
    if i == |vs| then acc
    else MinFrom(vs, i + 1, if Lt(vs[i], acc.value) then Best(i, vs[i]) else acc)
  }

  /** The start of a max loop (`-inf`, no move yet) and of a min loop (`inf`). */
  const MaxStart := Best(-1, NegInf)
  const MinStart := Best(-1, PosInf)

  /** The value of a max loop depends only on the set of values it sees. */
  lemma MaxValueBySet(vs: seq<ExtInt>, ws: seq<ExtInt>)
    requires forall x :: x in vs <==> x in ws
    ensures MaxFrom(vs, 0, MaxStart).value == MaxFrom(ws, 0, MaxStart).value
  {
    var r, s := MaxFrom(vs, 0, MaxStart), MaxFrom(ws, 0, MaxStart);
    if r != MaxStart {
      assert r.value in ws;
      var j :| 0 <= j < |ws| && ws[j] == r.value;
    }
    if s != MaxStart {
      assert s.value in vs;
      var j :| 0 <= j < |vs| && vs[j] == s.value;
    }
    LeTotal(r.value, s.value);
  }

  /** The value of a min loop depends only on the set of values it sees. */
  lemma MinValueBySet(vs: seq<ExtInt>, ws: seq<ExtInt>)
    requires forall x :: x in vs <==> x in ws
    ensures MinFrom(vs, 0, MinStart).value == MinFrom(ws, 0, MinStart).value
  {
    var r, s := MinFrom(vs, 0, MinStart), MinFrom(ws, 0, MinStart);
    if r != MinStart {
      assert r.value in ws;
      var j :| 0 <= j < |ws| && ws[j] == r.value;
    }
    if s != MinStart {
      assert s.value in vs;
      var j :| 0 <= j < |vs| && vs[j] == s.value;
    }
    LeTotal(r.value, s.value);
  }

  /** A max loop over at least one finite value picks a child, and its value is finite. */
  lemma MaxFromFinite(vs: seq<ExtInt>)
    requires |vs| > 0
    requires forall j :: 0 <= j < |vs| ==> vs[j].Fin?
    ensures 0 <= MaxFrom(vs, 0, MaxStart).index < |vs|
    ensures MaxFrom(vs, 0, MaxStart).value.Fin?
  {
    assert Le(vs[0], MaxFrom(vs, 0, MaxStart).value);
  }

  /** A min loop over at least one finite value picks a child, and its value is finite. */
  lemma MinFromFinite(vs: seq<ExtInt>)
    requires |vs| > 0
    requires forall j :: 0 <= j < |vs| ==> vs[j].Fin?
    ensures 0 <= MinFrom(vs, 0, MinStart).index < |vs|
    ensures MinFrom(vs, 0, MinStart).value.Fin?
  {
    assert Le(MinFrom(vs, 0, MinStart).value, vs[0]);
  }

  /**
   * Fail-soft alpha-beta: `r` is what a search in window (a, b) returned
   * and `v` is the node's true minimax value.  A result at or below `a`
   * is an upper bound of `v`, a result strictly inside the window is `v`
   * itself, and a result at or above `b` is a lower bound of `v`.
   */
  predicate FailSoft(v: ExtInt, a: ExtInt, b: ExtInt, r: ExtInt) {
    && (Le(r, a) ==> Le(v, r))
    && (Lt(a, r) && Lt(r, b) ==> v == r)
    && (Le(b, r) ==> Le(r, v))
  }

  /** The same bound read from the true value's side. */
  lemma FailSoftByValue(v: ExtInt, a: ExtInt, b: ExtInt, r: ExtInt)
    requires Lt(a, b) && FailSoft(v, a, b, r)
    ensures Lt(a, v) && Lt(v, b) ==> r == v
    ensures Le(v, a) ==> Le(r, a)
    ensures Le(b, v) ==> Le(b, r)
  {
    LeTotal(r, a);
    LeTotal(r, b);
  }

  /** In the full window a fail-soft result is the true value. */
  lemma FailSoftFullWindow(v: ExtInt, r: ExtInt)
    requires FailSoft(v, NegInf, PosInf, r)
    ensures r == v
  {
  }

  /** One child of an alpha-beta max loop keeps the loop invariant, or ends the loop above `beta`. */
  lemma ABMaxStep(alpha0: ExtInt, alpha: ExtInt, beta: ExtInt, u: ExtInt, m: ExtInt, w: ExtInt, v: ExtInt)
    requires FailSoft(w, alpha, beta, v)
    requires alpha == Max(alpha0, u) && Lt(alpha, beta)
    requires Le(m, u) && (Lt(alpha0, u) ==> m == u)
    ensures var u', m' := (if Lt(u, v) then v else u), (if Lt(m, w) then w else m);
            if Le(beta, Max(alpha, u')) then u' == v && Le(beta, v) && Le(v, w) && Lt(alpha0, v)
            else Max(alpha, u') == Max(alpha0, u') && Lt(Max(alpha, u'), beta)
                 && Le(m', u') && (Lt(alpha0, u') ==> m' == u')
  {
    LeTotal(v, alpha);
    LeTotal(v, beta);
  }

  /** One child of an alpha-beta min loop keeps the loop invariant, or ends the loop below `alpha`. */
  lemma ABMinStep(beta0: ExtInt, alpha: ExtInt, beta: ExtInt, u: ExtInt, m: ExtInt, w: ExtInt, v: ExtInt)
    requires FailSoft(w, alpha, beta, v)
    requires beta == Min(beta0, u) && Lt(alpha, beta)
    requires Le(u, m) && (Lt(u, beta0) ==> m == u)
    ensures var u', m' := (if Lt(v, u) then v else u), (if Lt(w, m) then w else m);
            if Le(Min(beta, u'), alpha) then u' == v && Le(v, alpha) && Le(w, v) && Lt(v, beta0)
            else Min(beta, u') == Min(beta0, u') && Lt(alpha, Min(beta, u'))
                 && Le(u', m') && (Lt(u', beta0) ==> m' == u')
  {
    LeTotal(v, alpha);
    LeTotal(v, beta);
  }

  /** A result outside the window that bounds the true value from the right side is fail-soft. */
  lemma FailSoftCutoff(v: ExtInt, a: ExtInt, b: ExtInt, r: ExtInt)
    requires (Le(b, r) && Le(r, v) && Lt(a, r)) || (Le(r, a) && Le(v, r) && Lt(r, b))
    ensures FailSoft(v, a, b, r)
  {
    LeTotal(r, a);
    LeTotal(r, b);
  }

  /**
   * A max loop cut off at child `i` with result `v`: `v` is at most the
   * child's true value, so it is a fail-soft lower bound of the whole loop.
   */
  lemma MaxCutoff(vs: seq<ExtInt>, i: nat, m: Best, a: ExtInt, b: ExtInt, v: ExtInt)
    requires i < |vs| && Le(b, v) && Le(v, vs[i]) && Lt(a, v)
    ensures FailSoft(MaxFrom(vs, i + 1, if Lt(m.value, vs[i]) then Best(i, vs[i]) else m).value, a, b, v)
  {
    var m' := if Lt(m.value, vs[i]) then Best(i, vs[i]) else m;
    var total := MaxFrom(vs, i + 1, m').value;
    LeTotal(m.value, vs[i]);
    LeTransitive(vs[i], m'.value, total);
    LeTransitive(v, vs[i], total);
    FailSoftCutoff(total, a, b, v);
  }

  /** A min loop cut off at child `i` with result `v`: an upper bound of the whole loop. */
  lemma MinCutoff(vs: seq<ExtInt>, i: nat, m: Best, a: ExtInt, b: ExtInt, v: ExtInt)
    requires i < |vs| && Le(v, a) && Le(vs[i], v) && Lt(v, b)
    ensures FailSoft(MinFrom(vs, i + 1, if Lt(vs[i], m.value) then Best(i, vs[i]) else m).value, a, b, v)
  {
    var m' := if Lt(vs[i], m.value) then Best(i, vs[i]) else m;
    var total := MinFrom(vs, i + 1, m').value;
    LeTotal(m.value, vs[i]);
    LeTransitive(total, m'.value, vs[i]);
    LeTransitive(total, vs[i], v);
    FailSoftCutoff(total, a, b, v);
  }

  /**
   * One child of the alpha-beta max loop, stated on values: `w` is the
   * child's true value, `v` what it returned in window (alpha, beta), `acc`
   * the loop's running best and `m` the minimax loop's.  Either the loop
   * stops with a fail-soft result, or the loop invariant holds again.
   */
  lemma MaxLoopStep(vs: seq<ExtInt>, i: nat, alpha0: ExtInt, alpha: ExtInt, beta: ExtInt, acc: Best, m: Best, v: ExtInt)
    requires i < |vs| && FailSoft(vs[i], alpha, beta, v)
    requires alpha == Max(alpha0, acc.value) && Lt(alpha, beta)
    requires Le(m.value, acc.value) && (Lt(alpha0, acc.value) ==> m.value == acc.value)
    ensures var acc', m' := (if Lt(acc.value, v) then Best(i, v) else acc), (if Lt(m.value, vs[i]) then Best(i, vs[i]) else m);
            && MaxFrom(vs, i, m) == MaxFrom(vs, i + 1, m')
            && (Le(beta, Max(alpha, acc'.value)) ==> FailSoft(MaxFrom(vs, i + 1, m').value, alpha0, beta, acc'.value))
            && (!Le(beta, Max(alpha, acc'.value)) ==>
                  && Max(alpha, acc'.value) == Max(alpha0, acc'.value) && Lt(Max(alpha, acc'.value), beta)
                  && Le(m'.value, acc'.value) && (Lt(alpha0, acc'.value) ==> m'.value == acc'.value))
  {
    ABMaxStep(alpha0, alpha, beta, acc.value, m.value, vs[i], v);
    var acc' := if Lt(acc.value, v) then Best(i, v) else acc;
    if Le(beta, Max(alpha, acc'.value)) {
      MaxCutoff(vs, i, m, alpha0, beta, v);
    }
  }

  /** One child of the alpha-beta min loop, stated on values. */
  lemma MinLoopStep(vs: seq<ExtInt>, i: nat, beta0: ExtInt, alpha: ExtInt, beta: ExtInt, acc: Best, m: Best, v: ExtInt)
    requires i < |vs| && FailSoft(vs[i], alpha, beta, v)
    requires beta == Min(beta0, acc.value) && Lt(alpha, beta)
    requires Le(acc.value, m.value) && (Lt(acc.value, beta0) ==> m.value == acc.value)
    ensures var acc', m' := (if Lt(v, acc.value) then Best(i, v) else acc), (if Lt(vs[i], m.value) then Best(i, vs[i]) else m);
            && MinFrom(vs, i, m) == MinFrom(vs, i + 1, m')
            && (Le(Min(beta, acc'.value), alpha) ==> FailSoft(MinFrom(vs, i + 1, m').value, alpha, beta0, acc'.value))
            && (!Le(Min(beta, acc'.value), alpha) ==>
                  && Min(beta, acc'.value) == Min(beta0, acc'.value) && Lt(alpha, Min(beta, acc'.value))
                  && Le(acc'.value, m'.value) && (Lt(acc'.value, beta0) ==> m'.value == acc'.value))
  {
    ABMinStep(beta0, alpha, beta, acc.value, m.value, vs[i], v);
    var acc' := if Lt(v, acc.value) then Best(i, v) else acc;
    if Le(Min(beta, acc'.value), alpha) {
      MinCutoff(vs, i, m, alpha, beta0, v);
    }
  }

  /**
   * In the full window (`alpha` = the running best, `beta` = inf) one
   * child makes the alpha-beta max loop and the minimax max loop take the
   * same step; the alpha-beta loop stops only on an infinite best, and
   * there the minimax loop has nothing left to change.
   */
  lemma FullWindowMaxStep(vs: seq<ExtInt>, i: nat, acc: Best, v: ExtInt)
    requires i < |vs| && FailSoft(vs[i], acc.value, PosInf, v) && acc.value != PosInf
    ensures var acc' := if Lt(acc.value, v) then Best(i, v) else acc;
            && acc' == (if Lt(acc.value, vs[i]) then Best(i, vs[i]) else acc)
            && Max(acc.value, acc'.value) == acc'.value
            && MaxFrom(vs, i, acc) == MaxFrom(vs, i + 1, acc')
            && (acc'.value == PosInf ==> MaxFrom(vs, i + 1, acc') == acc')
  {
    LeTotal(v, acc.value);
  }
}
