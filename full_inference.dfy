/**
 * `prop_FI` of csp/csp/propagators.py: generalised arc consistency driven
 * by a queue of variables.  Popping a variable `w` revises, for every
 * constraint on `w`, every other variable of the constraint against it;
 * a variable that loses a value joins the queue unless already there.
 *
 * This is the corrected propagator: a value is pruned only while it is
 * still live.  `ReviseVarAsWritten` is the loop as the source writes it,
 * which also "prunes" an assigned variable's value that is already gone.
 */
module FullInference {
  import opened Wrappers
  import opened CspTuples
  import opened CspBase
  import opened Propagators

  /** Another variable of the constraint waits in the queue, so the pair will be revised again. */
  predicate Awaiting(c: Constraint, v: nat, queue: seq<nat>) {
    exists u :: u in queue && u in c.scope && u != v
  }

  /** Arc consistency of every (constraint, variable) pair that is neither awaiting the queue nor still to revise. */
  ghost predicate ConsistentBut(vars: seq<Variable>, cons: seq<Constraint>, queue: seq<nat>, todo: set<(nat, nat)>) {
    forall k, v :: 0 <= k < |cons| && v in cons[k].scope && !Awaiting(cons[k], v, queue) && (k, v) !in todo ==>
      ArcConsistent(vars, cons[k], v)
  }

  /** The pairs of constraint `k` with each variable of `vs` other than `w`. */
  ghost function PairsOf(k: nat, vs: seq<nat>, w: nat): set<(nat, nat)> {
    set v | v in vs && v != w :: (k, v)
  }

  /** The pairs popping `w` revises: each constraint of `ks` with each of its other variables. */
  ghost function Around(cons: seq<Constraint>, ks: seq<nat>, w: nat): set<(nat, nat)>
    requires forall i :: 0 <= i < |ks| ==> ks[i] < |cons|
  {
    if ks == [] then {} else PairsOf(ks[0], cons[ks[0]].scope, w) + Around(cons, ks[1..], w)
  }

  lemma {:induction false} AroundMembers(cons: seq<Constraint>, ks: seq<nat>, w: nat, k: nat, v: nat)
    requires forall i :: 0 <= i < |ks| ==> ks[i] < |cons|
    ensures (k, v) in Around(cons, ks, w) <==> k in ks && v in cons[k].scope && v != w
  {
    if ks != [] {
      AroundMembers(cons, ks[1..], w, k, v);
      assert k in ks <==> k == ks[0] || k in ks[1..];
    }
  }

  /** With nothing queued and nothing to revise, the pairs left are all of them. */
  lemma ConsistentAll(vars: seq<Variable>, cons: seq<Constraint>)
    requires ConsistentBut(vars, cons, [], {})
    ensures Gac(vars, cons)
  {
  }

  // ------------------------------------------------------- the queue

  /** The queue `prop_FI` starts from: every unassigned variable in order, or the new variable alone. */
  function InitialQueueOf(vars: seq<Variable>, newVar: Option<nat>): seq<nat> {
    if newVar.None? then UnassignedVars(vars, AllIndices(|vars|)) else [newVar.value]
  }

  lemma {:induction false} UnassignedDistinct(vars: seq<Variable>, scope: seq<nat>)
    requires Distinct(scope)
    ensures Distinct(UnassignedVars(vars, scope))
  {
    if scope != [] {
      assert Distinct(scope[1..]) by {
        forall a, b | 0 <= a < b < |scope[1..]| ensures scope[1..][a] != scope[1..][b] {
          assert scope[1..][a] == scope[a + 1] && scope[1..][b] == scope[b + 1];
        }
      }
      UnassignedDistinct(vars, scope[1..]);
      var rest := UnassignedVars(vars, scope[1..]);
      var r := UnassignedVars(vars, scope);
      if scope[0] < |vars| && !IsAssigned(vars[scope[0]]) {
        forall a, b | 0 <= a < b < |r| ensures r[a] != r[b] {
          if a == 0 {
            assert r[b] == rest[b - 1] && rest[b - 1] in rest;
            var m :| 0 <= m < |scope[1..]| && scope[1..][m] == rest[b - 1];
            assert scope[m + 1] != scope[0];
          } else {
            assert r[a] == rest[a - 1] && r[b] == rest[b - 1];
          }
        }
      }
    }
  }

  /**
   * The start of `prop_FI`: with no new variable, every unassigned
   * variable, each added once; otherwise the new variable.
   */
  method InitialQueue(csp: Csp, newVar: Option<nat>) returns (queue: seq<nat>)
    requires newVar.Some? ==> newVar.value < |csp.vars|
    ensures queue == InitialQueueOf(csp.vars, newVar)
    ensures Distinct(queue) && forall u :: u in queue ==> u < |csp.vars|
    ensures newVar.None? ==> forall u :: u in queue <==> 0 <= u < |csp.vars| && !IsAssigned(csp.vars[u])
  {
    if newVar.Some? {
      return [newVar.value];
    }
    var all := UnassignedVars(csp.vars, AllIndices(|csp.vars|));
    assert Distinct(AllIndices(|csp.vars|));
    UnassignedDistinct(csp.vars, AllIndices(|csp.vars|));
    queue := [];
    for i := 0 to |all|
      invariant queue == all[..i]
    {
      assert all[i] !in queue by {
        forall m | 0 <= m < i ensures queue[m] != all[i] {
          assert queue[m] == all[m];
        }
      }
      if all[i] !in queue {
        queue := queue + [all[i]];
      }
      assert all[..i + 1] == all[..i] + [all[i]];
    }
    assert all[..|all|] == all;
  }

  // ------------------------------------------------------- revising one variable

  /** A value with no support belongs to no solution the state allows. */
  lemma PruneSoundDirect(cons: seq<Constraint>, vars: seq<Variable>, k: nat, x: nat, d: int)
    requires k < |cons| && x < |vars| && x in cons[k].scope
    requires d in vars[x].dom && d in vars[x].live && (IsAssigned(vars[x]) ==> d == vars[x].value.value)
    requires !HasSupport(vars, cons[k], x, d)
    ensures Sound(cons, vars, Pruned(vars, x, d))
  {
    assert InCurDomain(vars[x], d);
    forall s | SameAssignment(s, vars) && Shrinks(vars, s) && Gac(s, cons) ensures Shrinks(Pruned(vars, x, d), s) {
      NarrowingSupport(s, vars, cons[k], x, d);
    }
    forall sol | IsSolution(cons, sol) && Within(sol, vars) ensures Within(sol, Pruned(vars, x, d)) {
      if sol[x] == d {
        SolutionSupports(cons, vars, sol, k, x);
      }
    }
  }

  /**
   * The innermost loop of `prop_FI`, corrected: each value of `x`'s
   * current domain that is still live and has no support in constraint
   * `k` is pruned; the loop stops when `x` loses its last value.
   */
  method ReviseVar(csp: Csp, k: nat, x: nat) returns (changed: bool, wiped: bool, pruned: seq<(nat, int)>)
    requires csp.Valid() && k < |csp.cons| && x < |csp.vars| && x in csp.cons[k].scope
    modifies csp
    ensures csp.Valid()
    ensures Pruning(csp.cons, old(csp.vars), csp.vars, pruned)
    ensures forall v :: 0 <= v < |csp.vars| && v != x ==> csp.vars[v] == old(csp.vars[v])
    ensures changed <==> pruned != []
    ensures !changed ==> csp.vars == old(csp.vars)
    ensures changed ==> TotalLive(csp.vars) < TotalLive(old(csp.vars))
    ensures wiped ==> changed && CurDomainSize(csp.vars[x]) == 0 && exists d :: (x, d) in pruned
    ensures !wiped ==> NoneEmptied(old(csp.vars), csp.vars)
    ensures !wiped ==> ArcConsistent(csp.vars, csp.cons[k], x)
  {
    ghost var start := csp.vars;
    ghost var cons := csp.cons;
    var c := csp.cons[k];
    var ds := CurDomain(csp.vars[x]);
    assert ScannedSoFar(cons, k, x, start, ds, 0, start, []) by {
      ScannedStart(cons, k, x, start);
    }
    changed, wiped, pruned := false, false, [];
    for j := 0 to |ds|
      invariant csp.Valid() && |csp.vars| == |start|
      invariant ScannedSoFar(cons, k, x, start, ds, j, csp.vars, pruned)
      invariant changed <==> pruned != []
      invariant TotalLive(csp.vars) + |pruned| == TotalLive(start)
      invariant changed ==> CurDomainSize(csp.vars[x]) > 0
    {
      var d := ds[j];
      ghost var before, prunedBefore := csp.vars, pruned;
      assert d in csp.vars[x].dom && (IsAssigned(csp.vars[x]) ==> d == csp.vars[x].value.value) by {
        assert Scanned(cons, k, x, start, ds, j, before, prunedBefore);
        ScannedNext(cons, k, x, start, ds, j, before, prunedBefore);
      }
      if d in csp.vars[x].live && !HasSupport(csp.vars, c, x, d) {
        PruneSoundDirect(cons, before, k, x, d);
        TotalLivePrune(before, x, d);
        csp.PruneValue(x, d);
        changed := true;
        pruned := pruned + [(x, d)];
        assert ScannedSoFar(cons, k, x, start, ds, j + 1, csp.vars, pruned) by {
          assert Scanned(cons, k, x, start, ds, j, before, prunedBefore);
          ScannedPrune(cons, k, x, start, ds, j, before, prunedBefore);
        }
        if CurDomainSize(csp.vars[x]) == 0 {
          wiped := true;
          assert (x, d) in pruned;
          assert Scanned(cons, k, x, start, ds, j + 1, csp.vars, pruned);
          ScannedOutcome(cons, k, x, start, ds, j + 1, csp.vars, pruned);
          return;
        }
      } else {
        assert ScannedSoFar(cons, k, x, start, ds, j + 1, csp.vars, pruned) by {
          assert Scanned(cons, k, x, start, ds, j, before, prunedBefore);
          ScannedKeep(cons, k, x, start, ds, j, before, prunedBefore);
        }
      }
    }
    assert Scanned(cons, k, x, start, ds, |ds|, csp.vars, pruned);
    ScannedOutcome(cons, k, x, start, ds, |ds|, csp.vars, pruned);
  }

  // ------------------------------------------------------- arc consistency bookkeeping

  /** The queue after revising `v`: extended by `v` when its domain changed and it is not already there. */
  function Requeue(queue: seq<nat>, v: nat, changed: bool): (r: seq<nat>)
    ensures forall u :: u in r <==> u in queue || (changed && u == v)
    ensures Distinct(queue) ==> Distinct(r)
  {
    if changed && v !in queue then
      assert Distinct(queue) ==> Distinct(queue + [v]) by {
        if Distinct(queue) {
          forall a, b | 0 <= a < b < |queue + [v]| ensures (queue + [v])[a] != (queue + [v])[b] {
            if b == |queue| {
              assert (queue + [v])[a] == queue[a];
            }
          }
        }
      }
      queue + [v]
    else queue
  }

  /** A tuple valid before stays valid when no variable of its scope changed. */
  lemma ValidUntouched(a: seq<Variable>, b: seq<Variable>, c: Constraint, t: seq<int>)
    requires |a| == |b| && forall u :: u in c.scope && u < |a| ==> a[u] == b[u]
    ensures TupleIsValid(a, c, t) ==> TupleIsValid(b, c, t)
  {
    if TupleIsValid(a, c, t) {
      forall i | 0 <= i < |c.scope| ensures c.scope[i] < |b| && InCurDomain(b[c.scope[i]], t[i]) {
        assert c.scope[i] in c.scope;
      }
    }
  }

  /** Arc consistency of a variable survives changes outside the constraint. */
  lemma ArcUntouched(a: seq<Variable>, b: seq<Variable>, c: Constraint, v: nat)
    requires |a| == |b| && v in c.scope && forall u :: u in c.scope && u < |a| ==> a[u] == b[u]
    requires ArcConsistent(a, c, v)
    ensures ArcConsistent(b, c, v)
  {
    forall d | InCurDomain(b[v], d) && d in b[v].live ensures HasSupport(b, c, v, d) {
      var t, i :| t in c.tuples && 0 <= i < |c.scope| && c.scope[i] == v && i < |t| && t[i] == d
                  && TupleIsValid(a, c, t);
      ValidUntouched(a, b, c, t);
    }
  }

  /** Arc consistency of a variable survives the loss of its own values. */
  lemma ArcSelf(a: seq<Variable>, b: seq<Variable>, c: Constraint, v: nat)
    requires SameAssignment(a, b) && Shrinks(a, b) && Distinct(c.scope) && v < |a|
    requires forall u :: 0 <= u < |a| && u != v ==> a[u] == b[u]
    requires ArcConsistent(a, c, v)
    ensures ArcConsistent(b, c, v)
  {
    forall d | InCurDomain(b[v], d) && d in b[v].live ensures HasSupport(b, c, v, d) {
      var t, i :| t in c.tuples && 0 <= i < |c.scope| && c.scope[i] == v && i < |t| && t[i] == d
                  && TupleIsValid(a, c, t);
      ValidSelf(a, b, c, t, v, i);
    }
  }

  /** A tuple valid before stays valid when only `v` lost values and its entry is still current. */
  lemma ValidSelf(a: seq<Variable>, b: seq<Variable>, c: Constraint, t: seq<int>, v: nat, i: nat)
    requires |a| == |b| && Distinct(c.scope) && v < |b|
    requires forall u :: 0 <= u < |a| && u != v ==> a[u] == b[u]
    requires i < |c.scope| && c.scope[i] == v && i < |t| && InCurDomain(b[v], t[i])
    requires TupleIsValid(a, c, t)
    ensures TupleIsValid(b, c, t)
  {
    forall p | 0 <= p < |c.scope| ensures c.scope[p] < |b| && InCurDomain(b[c.scope[p]], t[p]) {
      if p != i {
        assert c.scope[p] != v;
      }
    }
  }

  lemma {:induction false} PairsOfStep(k: nat, s: seq<nat>, w: nat)
    requires s != []
    ensures PairsOf(k, s, w) == (if s[0] == w then {} else {(k, s[0])}) + PairsOf(k, s[1..], w)
  {
    forall p ensures p in PairsOf(k, s, w) <==> p in (if s[0] == w then {} else {(k, s[0])}) + PairsOf(k, s[1..], w) {
      var (k', v) := p;
      assert v in s <==> v == s[0] || v in s[1..];
    }
  }

  /** Popping `w` hands every pair of a constraint on `w` with one of its other variables to revision. */
  lemma ConsistentPop(vars: seq<Variable>, cons: seq<Constraint>, w: nat, queue: seq<nat>)
    requires queue != [] && queue[0] == w
    requires ConsistentBut(vars, cons, queue, {})
    ensures ConsistentBut(vars, cons, queue[1..], Around(cons, ConsWithVar(cons, w), w))
  {
    var ks := ConsWithVar(cons, w);
    forall k, v | 0 <= k < |cons| && v in cons[k].scope && !Awaiting(cons[k], v, queue[1..]) && (k, v) !in Around(cons, ks, w)
      ensures ArcConsistent(vars, cons[k], v)
    {
      AroundMembers(cons, ks, w, k, v);
      assert queue == [w] + queue[1..];
    }
  }

  /** Revising `v` on constraint `k` settles the pair `(k, v)` and leaves every settled pair settled. */
  lemma ConsistentStep(cons: seq<Constraint>, vars: seq<Variable>, next: seq<Variable>, queue: seq<nat>,
                       todo: set<(nat, nat)>, k: nat, v: nat, changed: bool)
    requires forall j :: 0 <= j < |cons| ==> Distinct(cons[j].scope)
    requires k < |cons| && v in cons[k].scope && v < |vars|
    requires SameAssignment(vars, next) && Shrinks(vars, next)
    requires forall u :: 0 <= u < |vars| && u != v ==> next[u] == vars[u]
    requires !changed ==> next == vars
    requires ConsistentBut(vars, cons, queue, {(k, v)} + todo)
    requires ArcConsistent(next, cons[k], v)
    ensures ConsistentBut(next, cons, Requeue(queue, v, changed), todo)
  {
    var q := Requeue(queue, v, changed);
    forall k2, v2 | 0 <= k2 < |cons| && v2 in cons[k2].scope && !Awaiting(cons[k2], v2, q) && (k2, v2) !in todo
      ensures ArcConsistent(next, cons[k2], v2)
    {
      if (k2, v2) != (k, v) {
        assert !Awaiting(cons[k2], v2, queue);
        assert ArcConsistent(vars, cons[k2], v2);
        if !changed {
        } else if v2 == v {
          ArcSelf(vars, next, cons[k2], v);
        } else {
          assert v !in cons[k2].scope by {
            assert v in q;
          }
          ArcUntouched(vars, next, cons[k2], v2);
        }
      }
    }
  }

  // ------------------------------------------------------- revising a popped variable

  /** The queue only grows, keeps no repeats and names existing variables. */
  predicate QueueGrows(queue0: seq<nat>, queue: seq<nat>, n: nat) {
    && Distinct(queue)
    && (forall u :: u in queue ==> u < n)
    && (forall u :: u in queue0 ==> u in queue)
  }

  /** Either some live value went, or nothing changed at all. */
  predicate Progressed(vars0: seq<Variable>, queue0: seq<nat>, vars: seq<Variable>, queue: seq<nat>) {
    TotalLive(vars) < TotalLive(vars0) || (vars == vars0 && queue == queue0)
  }

  /**
   * What the loop over the scope of constraint `k` has established after
   * the first `i` scope entries, popping `w`: the pruning so far, the
   * queue so far and, when the pairs were settled at the start, every
   * pair settled except those still to revise.
   */
  ghost predicate Revision(cons: seq<Constraint>, k: nat, w: nat, i: nat, rest: set<(nat, nat)>, gac: bool,
                           vars0: seq<Variable>, queue0: seq<nat>, vars: seq<Variable>, queue: seq<nat>, pruned: seq<(nat, int)>)
  {
    && k < |cons| && i <= |cons[k].scope| && |vars| == |vars0|
    && Pruning(cons, vars0, vars, pruned)
    && QueueGrows(queue0, queue, |vars|)
    && Progressed(vars0, queue0, vars, queue)
    && NoneEmptied(vars0, vars)
    && (gac ==> ConsistentBut(vars, cons, queue, PairsOf(k, cons[k].scope[i..], w) + rest))
  }

  /** `Revision`, in a form the verifier only opens on request. */
  ghost predicate RevisionSoFar(cons: seq<Constraint>, k: nat, w: nat, i: nat, rest: set<(nat, nat)>, gac: bool,
                                vars0: seq<Variable>, queue0: seq<nat>, vars: seq<Variable>, queue: seq<nat>, pruned: seq<(nat, int)>)
  {
    forall u | u == vars :: Revision(cons, k, w, i, rest, gac, vars0, queue0, u, queue, pruned)
  }

  lemma RevisionStart(cons: seq<Constraint>, k: nat, w: nat, rest: set<(nat, nat)>, vars0: seq<Variable>, queue0: seq<nat>)
    requires k < |cons| && Distinct(queue0) && forall u :: u in queue0 ==> u < |vars0|
    ensures RevisionSoFar(cons, k, w, 0, rest, ConsistentBut(vars0, cons, queue0, PairsOf(k, cons[k].scope, w) + rest),
                          vars0, queue0, vars0, queue0, [])
  {
    assert cons[k].scope[0..] == cons[k].scope;
    assert Revision(cons, k, w, 0, rest, ConsistentBut(vars0, cons, queue0, PairsOf(k, cons[k].scope, w) + rest),
                    vars0, queue0, vars0, queue0, []);
  }

  /** The queue so far is one `ReviseVar` may be followed by. */
  lemma RevisionNext(cons: seq<Constraint>, k: nat, w: nat, i: nat, rest: set<(nat, nat)>, gac: bool,
                     vars0: seq<Variable>, queue0: seq<nat>, vars: seq<Variable>, queue: seq<nat>, pruned: seq<(nat, int)>)
    requires RevisionSoFar(cons, k, w, i, rest, gac, vars0, queue0, vars, queue, pruned)
    ensures Distinct(queue) && forall u :: u in queue ==> u < |vars|
  {
    assert Revision(cons, k, w, i, rest, gac, vars0, queue0, vars, queue, pruned);
  }

  /** The popped variable itself is not revised. */
  lemma RevisionSkip(cons: seq<Constraint>, k: nat, w: nat, i: nat, rest: set<(nat, nat)>, gac: bool,
                     vars0: seq<Variable>, queue0: seq<nat>, vars: seq<Variable>, queue: seq<nat>, pruned: seq<(nat, int)>)
    requires RevisionSoFar(cons, k, w, i, rest, gac, vars0, queue0, vars, queue, pruned)
    requires k < |cons| && i < |cons[k].scope| && cons[k].scope[i] == w
    ensures RevisionSoFar(cons, k, w, i + 1, rest, gac, vars0, queue0, vars, queue, pruned)
  {
    assert Revision(cons, k, w, i, rest, gac, vars0, queue0, vars, queue, pruned);
    var scope := cons[k].scope;
    PairsOfStep(k, scope[i..], w);
    assert scope[i..][1..] == scope[i + 1..];
    assert Revision(cons, k, w, i + 1, rest, gac, vars0, queue0, vars, queue, pruned);
  }

  /** Revising the next scope entry `v` without wiping it out. */
  lemma RevisionStep(cons: seq<Constraint>, k: nat, w: nat, i: nat, rest: set<(nat, nat)>, gac: bool,
                     vars0: seq<Variable>, queue0: seq<nat>, vars: seq<Variable>, queue: seq<nat>, pruned: seq<(nat, int)>,
                     next: seq<Variable>, changed: bool, more: seq<(nat, int)>)
    requires RevisionSoFar(cons, k, w, i, rest, gac, vars0, queue0, vars, queue, pruned)
    requires forall j :: 0 <= j < |cons| ==> Distinct(cons[j].scope)
    requires k < |cons| && i < |cons[k].scope| && cons[k].scope[i] != w && cons[k].scope[i] < |vars|
    requires Pruning(cons, vars, next, more)
    requires forall u :: 0 <= u < |vars| && u != cons[k].scope[i] ==> next[u] == vars[u]
    requires !changed ==> next == vars
    requires changed ==> TotalLive(next) < TotalLive(vars)
    requires NoneEmptied(vars, next)
    requires ArcConsistent(next, cons[k], cons[k].scope[i])
    ensures RevisionSoFar(cons, k, w, i + 1, rest, gac, vars0, queue0, next, Requeue(queue, cons[k].scope[i], changed), pruned + more)
  {
    assert Revision(cons, k, w, i, rest, gac, vars0, queue0, vars, queue, pruned);
    var scope := cons[k].scope;
    var v := scope[i];
    PairsOfStep(k, scope[i..], w);
    assert scope[i..][1..] == scope[i + 1..];
    PruningCompose(cons, vars0, vars, next, pruned, more);
    NoneEmptiedCompose(vars0, vars, next);
    if gac {
      ConsistentStep(cons, vars, next, queue, PairsOf(k, scope[i + 1..], w) + rest, k, v, changed);
    }
    assert Revision(cons, k, w, i + 1, rest, gac, vars0, queue0, next, Requeue(queue, v, changed), pruned + more);
  }

  /** A revision that wiped a variable out still pruned soundly and made progress. */
  lemma RevisionWiped(cons: seq<Constraint>, k: nat, w: nat, i: nat, rest: set<(nat, nat)>, gac: bool,
                      vars0: seq<Variable>, queue0: seq<nat>, vars: seq<Variable>, queue: seq<nat>, pruned: seq<(nat, int)>,
                      next: seq<Variable>, more: seq<(nat, int)>)
    requires RevisionSoFar(cons, k, w, i, rest, gac, vars0, queue0, vars, queue, pruned)
    requires Pruning(cons, vars, next, more) && TotalLive(next) < TotalLive(vars)
    ensures |next| == |vars0| && Pruning(cons, vars0, next, pruned + more)
    ensures QueueGrows(queue0, queue, |next|) && Progressed(vars0, queue0, next, queue)
  {
    assert Revision(cons, k, w, i, rest, gac, vars0, queue0, vars, queue, pruned);
    PruningCompose(cons, vars0, vars, next, pruned, more);
  }

  lemma RevisionOutcome(cons: seq<Constraint>, k: nat, w: nat, rest: set<(nat, nat)>, gac: bool,
                        vars0: seq<Variable>, queue0: seq<nat>, vars: seq<Variable>, queue: seq<nat>, pruned: seq<(nat, int)>)
    requires k < |cons| && RevisionSoFar(cons, k, w, |cons[k].scope|, rest, gac, vars0, queue0, vars, queue, pruned)
    ensures |vars| == |vars0| && Pruning(cons, vars0, vars, pruned)
    ensures QueueGrows(queue0, queue, |vars|) && Progressed(vars0, queue0, vars, queue)
    ensures NoneEmptied(vars0, vars)
    ensures gac ==> ConsistentBut(vars, cons, queue, rest)
  {
    assert Revision(cons, k, w, |cons[k].scope|, rest, gac, vars0, queue0, vars, queue, pruned);
    assert cons[k].scope[|cons[k].scope|..] == [];
    assert PairsOf(k, [], w) == {};
  }

  /**
   * The loop over the scope of constraint `k` in `prop_FI` after popping
   * `w`: every other variable of the scope is revised against `k` and, if
   * it lost a value, queued unless already queued.  `rest` is the ghost
   * set of pairs still to revise for other constraints of `w`.
   */
  method ReviseConstraint(csp: Csp, k: nat, w: nat, queue: seq<nat>, ghost rest: set<(nat, nat)>)
    returns (wiped: bool, newQueue: seq<nat>, pruned: seq<(nat, int)>)
    requires csp.Valid() && k < |csp.cons|
    requires Distinct(queue) && forall u :: u in queue ==> u < |csp.vars|
    modifies csp
    ensures csp.Valid() && |csp.vars| == |old(csp.vars)|
    ensures Pruning(csp.cons, old(csp.vars), csp.vars, pruned)
    ensures QueueGrows(queue, newQueue, |csp.vars|)
    ensures Progressed(old(csp.vars), queue, csp.vars, newQueue)
    ensures wiped ==> EmptiedLosing(old(csp.vars), csp.vars)
    ensures !wiped ==> NoneEmptied(old(csp.vars), csp.vars)
    ensures !wiped && ConsistentBut(old(csp.vars), csp.cons, queue, PairsOf(k, csp.cons[k].scope, w) + rest) ==>
      ConsistentBut(csp.vars, csp.cons, newQueue, rest)
  {
    ghost var vars0 := csp.vars;
    ghost var cons := csp.cons;
    var scope := csp.cons[k].scope;
    ghost var gac := ConsistentBut(vars0, cons, queue, PairsOf(k, scope, w) + rest);
    RevisionStart(cons, k, w, rest, vars0, queue);
    wiped, newQueue, pruned := false, queue, [];
    for i := 0 to |scope|
      invariant csp.Valid() && |csp.vars| == |vars0| && csp.cons == cons
      invariant RevisionSoFar(cons, k, w, i, rest, gac, vars0, queue, csp.vars, newQueue, pruned)
    {
      var v := scope[i];
      ghost var before, queueBefore, prunedBefore := csp.vars, newQueue, pruned;
      if v != w {
        assert v < |csp.vars| by {
          assert ConstraintOk(cons[k], |csp.vars|);
        }
        var changed, wipedHere, more := ReviseVar(csp, k, v);
        pruned := pruned + more;
        if wipedHere {
          RevisionWiped(cons, k, w, i, rest, gac, vars0, queue, before, queueBefore, prunedBefore, csp.vars, more);
          ghost var d :| (v, d) in more;
          PrunedEmptied(vars0, csp.vars, pruned, v, d);
          wiped := true;
          return;
        }
        RevisionNext(cons, k, w, i, rest, gac, vars0, queue, before, queueBefore, prunedBefore);
        newQueue := Requeue(newQueue, v, changed);
        assert forall j :: 0 <= j < |cons| ==> Distinct(cons[j].scope) by {
          assert forall j :: 0 <= j < |cons| ==> ConstraintOk(cons[j], |csp.vars|);
        }
        RevisionStep(cons, k, w, i, rest, gac, vars0, queue, before, queueBefore, prunedBefore, csp.vars, changed, more);
      } else {
        RevisionSkip(cons, k, w, i, rest, gac, vars0, queue, before, queueBefore, prunedBefore);
      }
    }
    RevisionOutcome(cons, k, w, rest, gac, vars0, queue, csp.vars, newQueue, pruned);
  }

  /** Queue growth and progress compose. */
  lemma ProgressCompose(vars0: seq<Variable>, queue0: seq<nat>, vars1: seq<Variable>, queue1: seq<nat>,
                        vars2: seq<Variable>, queue2: seq<nat>, n: nat)
    requires QueueGrows(queue0, queue1, n) && QueueGrows(queue1, queue2, n)
    requires Progressed(vars0, queue0, vars1, queue1) && Progressed(vars1, queue1, vars2, queue2)
    ensures QueueGrows(queue0, queue2, n) && Progressed(vars0, queue0, vars2, queue2)
  {
  }

  /**
   * What the loop over the constraints `ks` of the popped `w` has
   * established after the first `a` of them.
   */
  ghost predicate Popped(cons: seq<Constraint>, w: nat, ks: seq<nat>, a: nat, gac: bool,
                         vars0: seq<Variable>, queue0: seq<nat>, vars: seq<Variable>, queue: seq<nat>, pruned: seq<(nat, int)>)
  {
    && a <= |ks| && (forall j :: 0 <= j < |ks| ==> ks[j] < |cons|) && |vars| == |vars0|
    && Pruning(cons, vars0, vars, pruned)
    && QueueGrows(queue0, queue, |vars|)
    && Progressed(vars0, queue0, vars, queue)
    && NoneEmptied(vars0, vars)
    && (gac ==> ConsistentBut(vars, cons, queue, Around(cons, ks[a..], w)))
  }

  /** `Popped`, in a form the verifier only opens on request. */
  ghost predicate PoppedSoFar(cons: seq<Constraint>, w: nat, ks: seq<nat>, a: nat, gac: bool,
                              vars0: seq<Variable>, queue0: seq<nat>, vars: seq<Variable>, queue: seq<nat>, pruned: seq<(nat, int)>)
  {
    forall u | u == vars :: Popped(cons, w, ks, a, gac, vars0, queue0, u, queue, pruned)
  }

  lemma PoppedStart(cons: seq<Constraint>, w: nat, ks: seq<nat>, vars0: seq<Variable>, queue0: seq<nat>)
    requires (forall j :: 0 <= j < |ks| ==> ks[j] < |cons|)
    requires Distinct(queue0) && forall u :: u in queue0 ==> u < |vars0|
    ensures PoppedSoFar(cons, w, ks, 0, ConsistentBut(vars0, cons, queue0, Around(cons, ks, w)), vars0, queue0, vars0, queue0, [])
  {
    assert ks[0..] == ks;
    assert Popped(cons, w, ks, 0, ConsistentBut(vars0, cons, queue0, Around(cons, ks, w)), vars0, queue0, vars0, queue0, []);
  }

  /** The queue so far is one `ReviseConstraint` may be called with. */
  lemma PoppedNext(cons: seq<Constraint>, w: nat, ks: seq<nat>, a: nat, gac: bool,
                   vars0: seq<Variable>, queue0: seq<nat>, vars: seq<Variable>, queue: seq<nat>, pruned: seq<(nat, int)>)
    requires PoppedSoFar(cons, w, ks, a, gac, vars0, queue0, vars, queue, pruned)
    ensures Distinct(queue) && forall u :: u in queue ==> u < |vars|
  {
    assert Popped(cons, w, ks, a, gac, vars0, queue0, vars, queue, pruned);
  }

  lemma PoppedStep(cons: seq<Constraint>, w: nat, ks: seq<nat>, a: nat, gac: bool,
                   vars0: seq<Variable>, queue0: seq<nat>, vars: seq<Variable>, queue: seq<nat>, pruned: seq<(nat, int)>,
                   next: seq<Variable>, nextQueue: seq<nat>, more: seq<(nat, int)>)
    requires PoppedSoFar(cons, w, ks, a, gac, vars0, queue0, vars, queue, pruned) && a < |ks|
    requires forall j :: 0 <= j < |ks| ==> ks[j] < |cons|
    requires |next| == |vars| && Pruning(cons, vars, next, more)
    requires QueueGrows(queue, nextQueue, |vars|) && Progressed(vars, queue, next, nextQueue)
    requires NoneEmptied(vars, next)
    requires ConsistentBut(vars, cons, queue, PairsOf(ks[a], cons[ks[a]].scope, w) + Around(cons, ks[a + 1..], w)) ==>
      ConsistentBut(next, cons, nextQueue, Around(cons, ks[a + 1..], w))
    ensures PoppedSoFar(cons, w, ks, a + 1, gac, vars0, queue0, next, nextQueue, pruned + more)
  {
    assert Popped(cons, w, ks, a, gac, vars0, queue0, vars, queue, pruned);
    assert ks[a..][0] == ks[a] && ks[a..][1..] == ks[a + 1..];
    PruningCompose(cons, vars0, vars, next, pruned, more);
    NoneEmptiedCompose(vars0, vars, next);
    ProgressCompose(vars0, queue0, vars, queue, next, nextQueue, |vars|);
    assert Popped(cons, w, ks, a + 1, gac, vars0, queue0, next, nextQueue, pruned + more);
  }

  /** A constraint revision that wiped a variable out still pruned soundly and made progress. */
  lemma PoppedWiped(cons: seq<Constraint>, w: nat, ks: seq<nat>, a: nat, gac: bool,
                    vars0: seq<Variable>, queue0: seq<nat>, vars: seq<Variable>, queue: seq<nat>, pruned: seq<(nat, int)>,
                    next: seq<Variable>, nextQueue: seq<nat>, more: seq<(nat, int)>)
    requires PoppedSoFar(cons, w, ks, a, gac, vars0, queue0, vars, queue, pruned)
    requires |next| == |vars| && Pruning(cons, vars, next, more)
    requires QueueGrows(queue, nextQueue, |vars|) && Progressed(vars, queue, next, nextQueue)
    ensures |next| == |vars0| && Pruning(cons, vars0, next, pruned + more)
    ensures QueueGrows(queue0, nextQueue, |next|) && Progressed(vars0, queue0, next, nextQueue)
  {
    assert Popped(cons, w, ks, a, gac, vars0, queue0, vars, queue, pruned);
    PruningCompose(cons, vars0, vars, next, pruned, more);
    ProgressCompose(vars0, queue0, vars, queue, next, nextQueue, |vars|);
  }

  lemma PoppedOutcome(cons: seq<Constraint>, w: nat, ks: seq<nat>, gac: bool,
                      vars0: seq<Variable>, queue0: seq<nat>, vars: seq<Variable>, queue: seq<nat>, pruned: seq<(nat, int)>)
    requires PoppedSoFar(cons, w, ks, |ks|, gac, vars0, queue0, vars, queue, pruned)
    ensures |vars| == |vars0| && Pruning(cons, vars0, vars, pruned)
    ensures QueueGrows(queue0, queue, |vars|) && Progressed(vars0, queue0, vars, queue)
    ensures NoneEmptied(vars0, vars)
    ensures gac ==> ConsistentBut(vars, cons, queue, {})
  {
    assert Popped(cons, w, ks, |ks|, gac, vars0, queue0, vars, queue, pruned);
    assert ks[|ks|..] == [];
  }

  /**
   * The body of `prop_FI`'s main loop after popping `w`: each constraint
   * on `w`, in order, revised against `w`, stopping at the first variable
   * wiped out.
   */
  method RevisePopped(csp: Csp, w: nat, queue: seq<nat>) returns (wiped: bool, newQueue: seq<nat>, pruned: seq<(nat, int)>)
    requires csp.Valid()
    requires Distinct(queue) && forall u :: u in queue ==> u < |csp.vars|
    modifies csp
    ensures csp.Valid() && |csp.vars| == |old(csp.vars)|
    ensures Pruning(csp.cons, old(csp.vars), csp.vars, pruned)
    ensures QueueGrows(queue, newQueue, |csp.vars|)
    ensures Progressed(old(csp.vars), queue, csp.vars, newQueue)
    ensures wiped ==> EmptiedLosing(old(csp.vars), csp.vars)
    ensures !wiped ==> NoneEmptied(old(csp.vars), csp.vars)
    ensures !wiped && ConsistentBut(old(csp.vars), csp.cons, queue, Around(csp.cons, ConsWithVar(csp.cons, w), w)) ==>
      ConsistentBut(csp.vars, csp.cons, newQueue, {})
  {
    ghost var vars0 := csp.vars;
    ghost var cons := csp.cons;
    var ks := ConsWithVar(csp.cons, w);
    ghost var gac := ConsistentBut(vars0, cons, queue, Around(cons, ks, w));
    PoppedStart(cons, w, ks, vars0, queue);
    wiped, newQueue, pruned := false, queue, [];
    for a := 0 to |ks|
      invariant csp.Valid() && |csp.vars| == |vars0| && csp.cons == cons
      invariant PoppedSoFar(cons, w, ks, a, gac, vars0, queue, csp.vars, newQueue, pruned)
    {
      ghost var before, queueBefore, prunedBefore := csp.vars, newQueue, pruned;
      PoppedNext(cons, w, ks, a, gac, vars0, queue, before, queueBefore, prunedBefore);
      var wipedHere, q, more := ReviseConstraint(csp, ks[a], w, newQueue, Around(cons, ks[a + 1..], w));
      pruned := pruned + more;
      if wipedHere {
        PoppedWiped(cons, w, ks, a, gac, vars0, queue, before, queueBefore, prunedBefore, csp.vars, q, more);
        EmptiedWithin(vars0, before, csp.vars, prunedBefore, more);
        wiped, newQueue := true, q;
        return;
      }
      newQueue := q;
      PoppedStep(cons, w, ks, a, gac, vars0, queue, before, queueBefore, prunedBefore, csp.vars, newQueue, more);
    }
    PoppedOutcome(cons, w, ks, gac, vars0, queue, csp.vars, newQueue, pruned);
  }

  /**
   * `prop_FI`, corrected: starting from the initial queue, pop the first
   * variable, revise every constraint on it, and stop with failure at the
   * first variable wiped out.  Every value pruned was live and pruned
   * once, no solution within the domains is lost, and on success every
   * pair is arc consistent provided the pairs not awaiting the initial
   * queue already were.
   */
  method PropFI(csp: Csp, newVar: Option<nat>) returns (ok: bool, pruned: seq<(nat, int)>)
    requires csp.Valid()
    requires newVar.Some? ==> newVar.value < |csp.vars|
    modifies csp
    ensures csp.Valid()
    ensures Pruning(csp.cons, old(csp.vars), csp.vars, pruned)
    ensures !ok ==> EmptiedBy(old(csp.vars), csp.vars)
    ensures ok ==> NoneEmptied(old(csp.vars), csp.vars)
    ensures ok && ConsistentBut(old(csp.vars), csp.cons, InitialQueueOf(old(csp.vars), newVar), {}) ==> Gac(csp.vars, csp.cons)
  {
    ghost var vars0 := csp.vars;
    ghost var cons := csp.cons;
    var queue: seq<nat> := InitialQueue(csp, newVar);
    ghost var gac := ConsistentBut(vars0, cons, queue, {});
    pruned := [];
    while queue != []
      invariant csp.Valid() && |csp.vars| == |vars0| && csp.cons == cons
      invariant Pruning(cons, vars0, csp.vars, pruned)
      invariant NoneEmptied(vars0, csp.vars)
      invariant Distinct(queue) && forall u :: u in queue ==> u < |csp.vars|
      invariant gac ==> ConsistentBut(csp.vars, cons, queue, {})
      decreases TotalLive(csp.vars), |queue|
    {
      var w := queue[0];
      ghost var before, prunedBefore := csp.vars, pruned;
      if gac {
        ConsistentPop(csp.vars, cons, w, queue);
      }
      assert Distinct(queue[1..]) by {
        forall a, b | 0 <= a < b < |queue[1..]| ensures queue[1..][a] != queue[1..][b] {
          assert queue[1..][a] == queue[a + 1] && queue[1..][b] == queue[b + 1];
        }
      }
      assert forall u :: u in queue[1..] ==> u in queue;
      var wiped, q, more := RevisePopped(csp, w, queue[1..]);
      PruningCompose(cons, vars0, before, csp.vars, prunedBefore, more);
      pruned := pruned + more;
      if wiped {
        EmptiedWithin(vars0, before, csp.vars, prunedBefore, more);
        LosingEmptied(vars0, csp.vars);
        return false, pruned;
      }
      NoneEmptiedCompose(vars0, before, csp.vars);
      queue := q;
    }
    ok := true;
  }

  // ------------------------------------------------------- where the settled pairs come from

  /**
   * After a call that left every pair arc consistent, assigning a live
   * value to an unassigned `x` unsettles only the pairs awaiting `x`
   * itself: the start `prop_FI(csp, x)` needs.
   */
  lemma AssignmentKeepsSettled(vars: seq<Variable>, cons: seq<Constraint>, x: nat, d: int)
    requires forall k :: 0 <= k < |cons| ==> Distinct(cons[k].scope)
    requires Gac(vars, cons)
    requires x < |vars| && !IsAssigned(vars[x]) && InCurDomain(vars[x], d)
    ensures ConsistentBut(WithValue(vars, x, d), cons, InitialQueueOf(WithValue(vars, x, d), Some(x)), {})
  {
    forall k, v | 0 <= k < |cons| && v in cons[k].scope && !Awaiting(cons[k], v, [x])
      ensures ArcConsistent(WithValue(vars, x, d), cons[k], v)
    {
      AssignmentKeepsPair(vars, cons[k], x, d, v);
    }
  }

  /** One pair of `AssignmentKeepsSettled`. */
  lemma AssignmentKeepsPair(vars: seq<Variable>, c: Constraint, x: nat, d: int, v: nat)
    requires Distinct(c.scope) && v in c.scope && !Awaiting(c, v, [x])
    requires ArcConsistent(vars, c, v)
    requires x < |vars| && !IsAssigned(vars[x]) && InCurDomain(vars[x], d)
    ensures ArcConsistent(WithValue(vars, x, d), c, v)
  {
    if v == x {
      assert HasSupport(vars, c, x, d);
      AssignedSupported(vars, c, x, d);
    } else {
      assert x !in c.scope by {
        assert x in [x];
      }
      ArcUntouched(vars, WithValue(vars, x, d), c, v);
    }
  }

  /** A supported value keeps its support once assigned. */
  lemma AssignedSupported(vars: seq<Variable>, c: Constraint, x: nat, d: int)
    requires Distinct(c.scope) && x < |vars| && d in vars[x].dom
    requires HasSupport(vars, c, x, d)
    ensures HasSupport(WithValue(vars, x, d), c, x, d)
  {
    var next := WithValue(vars, x, d);
    var t, i :| t in c.tuples && 0 <= i < |c.scope| && c.scope[i] == x && i < |t| && t[i] == d
                && TupleIsValid(vars, c, t);
    ValidSelf(vars, next, c, t, x, i);
  }

  /**
   * Before any assignment, with every constraint over two variables or
   * more, every pair awaits the initial queue: with no new variable
   * `prop_FI` then reaches arc consistency.
   */
  lemma FreshStartSettled(vars: seq<Variable>, cons: seq<Constraint>)
    requires forall v :: 0 <= v < |vars| ==> !IsAssigned(vars[v])
    requires forall k :: 0 <= k < |cons| ==> ConstraintOk(cons[k], |vars|) && |cons[k].scope| >= 2
    ensures ConsistentBut(vars, cons, InitialQueueOf(vars, None), {})
  {
    var queue := InitialQueueOf(vars, None);
    forall k, v | 0 <= k < |cons| && v in cons[k].scope ensures Awaiting(cons[k], v, queue) {
      var scope := cons[k].scope;
      var u := if scope[0] != v then scope[0] else scope[1];
      assert scope[0] != scope[1];
      assert u in scope && u < |vars|;
      assert u in AllIndices(|vars|);
    }
  }

  // ------------------------------------------------------- the innermost loop as written

  /** Losing live values loses support, never gains it. */
  lemma SupportShrinks(a: seq<Variable>, b: seq<Variable>, c: Constraint, x: nat, d: int)
    requires SameAssignment(a, b) && Shrinks(a, b)
    requires HasSupport(b, c, x, d)
    ensures HasSupport(a, c, x, d)
  {
    var t, i :| t in c.tuples && 0 <= i < |c.scope| && c.scope[i] == x && i < |t| && t[i] == d && TupleIsValid(b, c, t);
    assert TupleIsValid(a, c, t);
  }

  /**
   * What the innermost loop as written has established after trying the
   * first `j` values `ds` of `x`'s current domain: the values it reported,
   * at most one per try, each pruned, and every tried value that had no
   * support at the start among them.
   */
  ghost predicate Listed(c: Constraint, x: nat, start: seq<Variable>, ds: seq<int>, j: nat,
                         vars: seq<Variable>, pruned: seq<(nat, int)>, changed: bool)
  {
    && x < |start| && j <= |ds| && ds == CurDomain(start[x]) && (forall d :: d in ds ==> d in start[x].dom)
    && vars == PrunedAll(start, x, PrunedValues(pruned))
    && (changed <==> pruned != [])
    && |pruned| <= j
    && (forall p :: p in pruned ==> p.0 == x && p.1 in ds)
    && (forall i :: 0 <= i < j && !HasSupport(start, c, x, ds[i]) ==> (x, ds[i]) in pruned)
  }

  /** `Listed`, in a form the verifier only opens on request. */
  ghost predicate ListedSoFar(c: Constraint, x: nat, start: seq<Variable>, ds: seq<int>, j: nat,
                              vars: seq<Variable>, pruned: seq<(nat, int)>, changed: bool)
  {
    forall u | u == vars :: Listed(c, x, start, ds, j, u, pruned, changed)
  }

  lemma ListedStart(c: Constraint, x: nat, start: seq<Variable>)
    requires x < |start| && VariableOk(start[x])
    ensures ListedSoFar(c, x, start, CurDomain(start[x]), 0, start, [], false)
  {
    assert PrunedValues([]) == {};
    assert start[x].(live := start[x].live - {}) == start[x];
    assert Listed(c, x, start, CurDomain(start[x]), 0, start, [], false);
  }

  /** The next value to try is a domain value of `x`. */
  lemma ListedNext(c: Constraint, x: nat, start: seq<Variable>, ds: seq<int>, j: nat,
                   vars: seq<Variable>, pruned: seq<(nat, int)>, changed: bool)
    requires ListedSoFar(c, x, start, ds, j, vars, pruned, changed) && j < |ds|
    ensures x < |vars| == |start| && ds[j] in vars[x].dom
  {
    assert Listed(c, x, start, ds, j, vars, pruned, changed);
    assert ds[j] in ds;
  }

  /** The next value had no support and was pruned. */
  lemma ListedPrune(c: Constraint, x: nat, start: seq<Variable>, ds: seq<int>, j: nat,
                    vars: seq<Variable>, pruned: seq<(nat, int)>, changed: bool)
    requires ListedSoFar(c, x, start, ds, j, vars, pruned, changed) && j < |ds| && x < |vars|
    requires !HasSupport(vars, c, x, ds[j])
    ensures ListedSoFar(c, x, start, ds, j + 1, Pruned(vars, x, ds[j]), pruned + [(x, ds[j])], true)
  {
    assert Listed(c, x, start, ds, j, vars, pruned, changed);
    var d := ds[j];
    PrunedAllSnoc(start, x, PrunedValues(pruned), d);
    assert PrunedValues(pruned + [(x, d)]) == PrunedValues(pruned) + {d};
    assert Listed(c, x, start, ds, j + 1, Pruned(vars, x, ds[j]), pruned + [(x, ds[j])], true);
  }

  /** The next value had support; it had support at the start as well. */
  lemma ListedKeep(c: Constraint, x: nat, start: seq<Variable>, ds: seq<int>, j: nat,
                   vars: seq<Variable>, pruned: seq<(nat, int)>, changed: bool)
    requires ListedSoFar(c, x, start, ds, j, vars, pruned, changed) && j < |ds|
    requires HasSupport(vars, c, x, ds[j])
    ensures ListedSoFar(c, x, start, ds, j + 1, vars, pruned, changed)
  {
    assert Listed(c, x, start, ds, j, vars, pruned, changed);
    assert SameAssignment(start, vars) && Shrinks(start, vars);
    SupportShrinks(start, vars, c, x, ds[j]);
    assert Listed(c, x, start, ds, j + 1, vars, pruned, changed);
  }

  lemma ListedOutcome(c: Constraint, x: nat, start: seq<Variable>, ds: seq<int>, j: nat,
                      vars: seq<Variable>, pruned: seq<(nat, int)>, changed: bool)
    requires ListedSoFar(c, x, start, ds, j, vars, pruned, changed) && x < |start|
    ensures vars == PrunedAll(start, x, PrunedValues(pruned))
    ensures changed <==> pruned != []
    ensures |pruned| <= |CurDomain(start[x])|
    ensures forall p :: p in pruned ==> p.0 == x && p.1 in CurDomain(start[x])
    ensures j == |ds| ==> forall d :: d in CurDomain(start[x]) && !HasSupport(start, c, x, d) ==> (x, d) in pruned
  {
    assert Listed(c, x, start, ds, j, vars, pruned, changed);
    if j == |ds| {
      forall d | d in ds && !HasSupport(start, c, x, d) ensures (x, d) in pruned {
        var i :| 0 <= i < |ds| && ds[i] == d;
      }
    }
  }

  /**
   * The innermost loop of `prop_FI` as written: every value of `x`'s
   * current domain without support is pruned and reported, live or not.
   * For an assigned `x` the current domain is its value, pruned or not,
   * so a value pruned before is reported again and `changed` is set
   * although nothing changed.
   */
  method ReviseVarAsWritten(csp: Csp, k: nat, x: nat) returns (changed: bool, wiped: bool, pruned: seq<(nat, int)>)
    requires csp.Valid() && k < |csp.cons| && x < |csp.vars| && x in csp.cons[k].scope
    modifies csp
    ensures csp.Valid()
    ensures csp.vars == PrunedAll(old(csp.vars), x, PrunedValues(pruned))
    ensures changed <==> pruned != []
    ensures |pruned| <= |CurDomain(old(csp.vars[x]))|
    ensures forall p :: p in pruned ==> p.0 == x && p.1 in CurDomain(old(csp.vars[x]))
    ensures wiped ==> CurDomainSize(csp.vars[x]) == 0
    ensures !wiped ==> forall d :: d in CurDomain(old(csp.vars[x])) && !HasSupport(old(csp.vars), csp.cons[k], x, d) ==> (x, d) in pruned
  {
    ghost var start := csp.vars;
    var c := csp.cons[k];
    var ds := CurDomain(csp.vars[x]);
    ListedStart(c, x, start);
    changed, wiped, pruned := false, false, [];
    for j := 0 to |ds|
      invariant csp.Valid() && |csp.vars| == |start| && csp.cons[k] == c
      invariant ListedSoFar(c, x, start, ds, j, csp.vars, pruned, changed)
    {
      ghost var before := csp.vars;
      var d := ds[j];
      ListedNext(c, x, start, ds, j, before, pruned, changed);
      var reported := PruneUnsupported(csp, c, x, d);
      if reported {
        ListedPrune(c, x, start, ds, j, before, pruned, changed);
        changed := true;
        pruned := pruned + [(x, d)];
        if CurDomainSize(csp.vars[x]) == 0 {
          wiped := true;
          ListedOutcome(c, x, start, ds, j + 1, csp.vars, pruned, changed);
          return;
        }
      } else {
        ListedKeep(c, x, start, ds, j, before, pruned, changed);
      }
    }
    ListedOutcome(c, x, start, ds, |ds|, csp.vars, pruned, changed);
  }

  /** One step of the loop as written: prune `d` from `x` when it has no support in `c`. */
  method PruneUnsupported(csp: Csp, c: Constraint, x: nat, d: int) returns (reported: bool)
    requires csp.Valid() && x < |csp.vars| && d in csp.vars[x].dom
    modifies csp
    ensures csp.Valid()
    ensures reported <==> !HasSupport(old(csp.vars), c, x, d)
    ensures csp.vars == if reported then Pruned(old(csp.vars), x, d) else old(csp.vars)
  {
    reported := !HasSupport(csp.vars, c, x, d);
    if reported {
      csp.PruneValue(x, d);
    }
  }

  /**
   * Two variables over {1, 2}, both assigned (0 to 1, 1 to 2), and one
   * constraint whose only tuple is (1, 1).  Revising variable 0, then 1,
   * then 0 again as `prop_FI` does when the queue alternates between them:
   * the third revision reports the pair (0, 1) again and `changed`,
   * although the state did not change, so variable 0 is queued again and
   * the queue never empties.
   */
  method AsWrittenRepeats() returns (first: seq<(nat, int)>, again: seq<(nat, int)>, stillChanged: bool, sameState: bool)
    ensures first == [(0, 1)] && again == [(0, 1)]
    ensures stillChanged && sameState
  {
    var csp := RepeatsSetup();
    first := RepeatsFirstRound(csp);
    var between := csp.vars;
    OnlyTupleMisses(csp.vars, csp.cons[0], 0, 1);
    var changed, wiped, pruned := ReviseVarAsWritten(csp, 0, 0);
    assert pruned == [(0, 1)] by {
      assert (0, 1) in pruned;
    }
    again, stillChanged := pruned, changed;
    assert csp.vars[0].live == between[0].live;
    sameState := csp.vars == between;
  }

  /** Revising variable 0, then variable 1: each loses its assigned value from its live values. */
  method RepeatsFirstRound(csp: Csp) returns (first: seq<(nat, int)>)
    requires csp.Valid() && csp.cons == [Constraint([0, 1], [[1, 1]])] && |csp.vars| == 2
    requires csp.vars[0].value == Some(1) && csp.vars[1].value == Some(2)
    modifies csp
    ensures csp.Valid() && |csp.vars| == 2
    ensures csp.vars[0].value == Some(1) && csp.vars[1].value == Some(2)
    ensures 1 !in csp.vars[0].live
    ensures first == [(0, 1)]
  {
    var c := csp.cons[0];
    OnlyTupleMisses(csp.vars, c, 0, 1);
    var changed1, wiped1, pruned1 := ReviseVarAsWritten(csp, 0, 0);
    assert pruned1 == [(0, 1)] by {
      assert (0, 1) in pruned1;
    }
    first := pruned1;
    OnlyTupleMisses(csp.vars, c, 1, 2);
    var changed2, wiped2, pruned2 := ReviseVarAsWritten(csp, 0, 1);
  }

  /** The problem of `AsWrittenRepeats` with its two assignments made. */
  method RepeatsSetup() returns (csp: Csp)
    ensures fresh(csp) && csp.Valid() && csp.cons == [Constraint([0, 1], [[1, 1]])] && |csp.vars| == 2
    ensures csp.vars[0].value == Some(1) && csp.vars[1].value == Some(2)
    ensures 1 in csp.vars[0].live
  {
    csp := new Csp(Problem([[1, 2], [1, 2]], [Constraint([0, 1], [[1, 1]])]));
    assert InCurDomain(csp.vars[0], 1) && !IsAssigned(csp.vars[0]);
    csp.Assign(0, 1);
    assert InCurDomain(csp.vars[1], 2) && !IsAssigned(csp.vars[1]);
    csp.Assign(1, 2);
  }

  /** With variable 0 assigned 1 and variable 1 assigned 2, the tuple (1, 1) supports neither. */
  lemma OnlyTupleMisses(vars: seq<Variable>, c: Constraint, x: nat, d: int)
    requires c == Constraint([0, 1], [[1, 1]]) && |vars| == 2
    requires vars[0].value == Some(1) && vars[1].value == Some(2)
    requires (x, d) == (0, 1) || (x, d) == (1, 2)
    ensures !HasSupport(vars, c, x, d)
  {
    forall t, i | t in c.tuples && 0 <= i < |c.scope| && c.scope[i] == x && i < |t| && t[i] == d
      ensures !TupleIsValid(vars, c, t)
    {
      assert t == [1, 1];
      assert c.scope[1] == 1 && !InCurDomain(vars[1], t[1]);
    }
  }
}
