/**
 * The propagators of csp/csp/propagators.py.  Each one is called with
 * the problem and, optionally, the variable the search has just assigned;
 * it answers whether the search may go on and lists, once each, the
 * (variable, value) pairs it pruned so that the search can restore them.
 */
module Propagators {
  import opened Wrappers
  import opened CspTuples
  import opened CspBase

  /** `pruned` names, once each, exactly the values that were live in `a` and are not in `b`. */
  ghost predicate PrunedExactly(a: seq<Variable>, b: seq<Variable>, pruned: seq<(nat, int)>) {
    && |a| == |b|
    && Distinct(pruned)
    && (forall v, d :: (v, d) in pruned <==> 0 <= v < |a| && d in a[v].live && d !in b[v].live)
  }

  /** Every value of `v`'s current domain that is still live has support in `c`. */
  ghost predicate ArcConsistent(vars: seq<Variable>, c: Constraint, v: nat) {
    v < |vars| && forall d :: InCurDomain(vars[v], d) && d in vars[v].live ==> HasSupport(vars, c, v, d)
  }

  /** Generalised arc consistency: every variable of every constraint is arc consistent with it. */
  ghost predicate Gac(vars: seq<Variable>, cons: seq<Constraint>) {
    forall k, v :: 0 <= k < |cons| && v in cons[k].scope ==> ArcConsistent(vars, cons[k], v)
  }

  /**
   * No solution that the old state allowed is lost, and neither is any
   * arc-consistent narrowing of it: only values without support go.
   */
  ghost predicate Sound(cons: seq<Constraint>, a: seq<Variable>, b: seq<Variable>) {
    && (forall sol :: IsSolution(cons, sol) && Within(sol, a) ==> Within(sol, b))
    && (forall s {:trigger Gac(s, cons)} :: SameAssignment(s, a) && Shrinks(a, s) && Gac(s, cons) ==> Shrinks(b, s))
  }

  /** A value an arc-consistent narrowing keeps has support in the wider state too. */
  lemma NarrowingSupport(s: seq<Variable>, vars: seq<Variable>, c: Constraint, x: nat, d: int)
    requires SameAssignment(s, vars) && Shrinks(vars, s) && ArcConsistent(s, c, x)
    ensures InCurDomain(vars[x], d) && d in s[x].live ==> HasSupport(vars, c, x, d)
  {
    if InCurDomain(vars[x], d) && d in s[x].live {
      assert InCurDomain(s[x], d);
      SupportWidens(s, vars, c, x, d);
    }
  }

  /** Support in a narrowing is support in the wider state. */
  lemma SupportWidens(s: seq<Variable>, vars: seq<Variable>, c: Constraint, x: nat, d: int)
    requires SameAssignment(s, vars) && Shrinks(vars, s) && HasSupport(s, c, x, d)
    ensures HasSupport(vars, c, x, d)
  {
    var t, i :| t in c.tuples && 0 <= i < |c.scope| && c.scope[i] == x && i < |t| && t[i] == d && TupleIsValid(s, c, t);
    forall p | 0 <= p < |c.scope| ensures c.scope[p] < |vars| && InCurDomain(vars[c.scope[p]], t[p]) {
      assert InCurDomain(s[c.scope[p]], t[p]);
    }
    assert TupleIsValid(vars, c, t);
  }

  /**
   * What a propagator may do to the variables: keep the assignment, remove
   * live values only, list each removed value once, and lose no solution.
   */
  ghost predicate Pruning(cons: seq<Constraint>, a: seq<Variable>, b: seq<Variable>, pruned: seq<(nat, int)>) {
    && SameAssignment(a, b) && Shrinks(a, b)
    && PrunedExactly(a, b, pruned)
    && Sound(cons, a, b)
  }

  /**
   * A dead end caused by the step from `a` to `b`: some variable lost live
   * values in it (under `PrunedExactly`, it appears in the pruned list) and its
   * current domain is now empty.
   */
  ghost predicate EmptiedBy(a: seq<Variable>, b: seq<Variable>) {
    exists v :: 0 <= v < |a| && v < |b| && b[v].live != a[v].live && CurDomainSize(b[v]) == 0
  }

  /** `EmptiedBy`, naming the live value `d` the emptied variable lost. */
  ghost predicate EmptiedLosing(a: seq<Variable>, b: seq<Variable>) {
    exists v, d :: 0 <= v < |a| && v < |b| && d in a[v].live && d !in b[v].live && CurDomainSize(b[v]) == 0
  }

  /** Naming the lost value is the stronger statement. */
  lemma LosingEmptied(a: seq<Variable>, b: seq<Variable>)
    requires EmptiedLosing(a, b)
    ensures EmptiedBy(a, b)
  {
    var u, d :| 0 <= u < |a| && u < |b| && d in a[u].live && d !in b[u].live && CurDomainSize(b[u]) == 0;
    assert b[u].live != a[u].live;
  }

  /** A pruned pair whose variable is left empty is a dead end caused by the step. */
  lemma PrunedEmptied(a: seq<Variable>, b: seq<Variable>, pruned: seq<(nat, int)>, x: nat, d: int)
    requires PrunedExactly(a, b, pruned) && (x, d) in pruned
    requires x < |b| && CurDomainSize(b[x]) == 0
    ensures EmptiedLosing(a, b)
  {
    assert d in a[x].live && d !in b[x].live;
  }

  /** A dead end caused by the last step of a pruning is caused by the whole pruning. */
  lemma EmptiedWithin(a: seq<Variable>, b: seq<Variable>, c: seq<Variable>, p: seq<(nat, int)>, q: seq<(nat, int)>)
    requires PrunedExactly(b, c, q) && PrunedExactly(a, c, p + q)
    requires EmptiedLosing(b, c)
    ensures EmptiedLosing(a, c)
  {
    var u, d :| 0 <= u < |b| && u < |c| && d in b[u].live && d !in c[u].live && CurDomainSize(c[u]) == 0;
    assert (u, d) in q;
    PrunedEmptied(a, c, p + q, u, d);
  }

  /** Two prunings in a row make one. */
  lemma PruningCompose(cons: seq<Constraint>, a: seq<Variable>, b: seq<Variable>, c: seq<Variable>, p: seq<(nat, int)>, q: seq<(nat, int)>)
    requires Pruning(cons, a, b, p) && Pruning(cons, b, c, q)
    ensures Pruning(cons, a, c, p + q)
  {
    PrunedCompose(a, b, c, p, q);
    SoundCompose(cons, a, b, c);
  }

  /** Every variable that lost a value between `a` and `b` still has a value. */
  predicate NoneEmptied(a: seq<Variable>, b: seq<Variable>) {
    forall v :: 0 <= v < |a| && v < |b| && b[v].live != a[v].live ==> CurDomainSize(b[v]) > 0
  }

  /** Losing no variable's last value composes. */
  lemma NoneEmptiedCompose(a: seq<Variable>, b: seq<Variable>, c: seq<Variable>)
    requires SameAssignment(a, b) && SameAssignment(b, c)
    requires NoneEmptied(a, b) && NoneEmptied(b, c)
    ensures NoneEmptied(a, c)
  {
    forall v | 0 <= v < |a| && v < |c| && c[v].live != a[v].live ensures CurDomainSize(c[v]) > 0 {
      if c[v].live == b[v].live {
        assert c[v] == b[v];
      }
    }
  }

  /** Two prunings in a row are listed by the concatenation of their lists. */
  lemma PrunedCompose(a: seq<Variable>, b: seq<Variable>, c: seq<Variable>, p: seq<(nat, int)>, q: seq<(nat, int)>)
    requires Shrinks(a, b) && Shrinks(b, c)
    requires PrunedExactly(a, b, p) && PrunedExactly(b, c, q)
    ensures PrunedExactly(a, c, p + q)
  {
    forall x, y | 0 <= x < |p| && 0 <= y < |q| ensures p[x] != q[y] {
      var (v, d) := p[x];
      var (w, e) := q[y];
      assert (v, d) in p && (w, e) in q;
    }
    DistinctConcat(p, q);
  }

  /** Soundness composes. */
  lemma SoundCompose(cons: seq<Constraint>, a: seq<Variable>, b: seq<Variable>, c: seq<Variable>)
    requires SameAssignment(a, b) && Sound(cons, a, b) && Sound(cons, b, c)
    ensures Sound(cons, a, c)
  {
    forall s | SameAssignment(s, a) && Shrinks(a, s) && Gac(s, cons) ensures Shrinks(c, s) {
      assert Shrinks(b, s) && SameAssignment(s, b);
    }
  }

  // ---------------------------------------------------------------- prop_BT

  /** A fully assigned constraint is satisfied by the assigned values. */
  predicate Satisfied(vars: seq<Variable>, c: Constraint) {
    FullyAssigned(vars, c.scope) ==> Check(c, AssignedValues(vars, c.scope))
  }

  /** Every fully assigned constraint on `v` is satisfied by the assigned values. */
  predicate AssignedConsistent(vars: seq<Variable>, cons: seq<Constraint>, v: nat) {
    forall k :: 0 <= k < |cons| && v in cons[k].scope ==> Satisfied(vars, cons[k])
  }

  /** The loop that collects `get_assigned_value()` of each scope variable. */
  method ScopeValues(csp: Csp, scope: seq<nat>) returns (vals: seq<int>)
    requires FullyAssigned(csp.vars, scope)
    ensures |vals| == |scope|
    ensures forall i :: 0 <= i < |scope| ==> vals[i] == csp.vars[scope[i]].value.value
  {
    vals := [];
    for i := 0 to |scope|
      invariant |vals| == i
      invariant forall j :: 0 <= j < i ==> vals[j] == csp.vars[scope[j]].value.value
    {
      vals := vals + [csp.vars[scope[i]].value.value];
    }
  }

  /** One pass of the loop of `prop_BT`: a fully assigned constraint is checked, any other passes. */
  method CheckIfAssigned(csp: Csp, k: nat) returns (fine: bool)
    requires csp.Valid() && k < |csp.cons|
    ensures fine <==> Satisfied(csp.vars, csp.cons[k])
  {
    var c := csp.cons[k];
    NoneUnassigned(csp.vars, c);
    fine := true;
    if NUnassigned(csp.vars, c) == 0 {
      var vals := ScopeValues(csp, c.scope);
      assert vals == AssignedValues(csp.vars, c.scope);
      fine := Check(c, vals);
    }
  }

  /**
   * `prop_BT`: prunes nothing; with no new variable it accepts, otherwise
   * it accepts exactly when every fully assigned constraint on the new
   * variable is satisfied.
   */
  method PropBT(csp: Csp, newVar: Option<nat>) returns (ok: bool, pruned: seq<(nat, int)>)
    requires csp.Valid()
    requires newVar.Some? ==> newVar.value < |csp.vars|
    ensures pruned == []
    ensures ok <==> newVar.None? || AssignedConsistent(csp.vars, csp.cons, newVar.value)
  {
    pruned := [];
    if newVar.None? {
      return true, [];
    }
    var v := newVar.value;
    var vars, cons := csp.vars, csp.cons;
    var ks := ConsWithVar(cons, v);
    for i := 0 to |ks|
      invariant forall j :: 0 <= j < i ==> Satisfied(vars, cons[ks[j]])
    {
      var fine := CheckIfAssigned(csp, ks[i]);
      if !fine {
        assert ks[i] in ks;
        return false, [];
      }
    }
    forall k | 0 <= k < |cons| && v in cons[k].scope ensures Satisfied(vars, cons[k]) {
      assert k in ks;
      var j :| 0 <= j < |ks| && ks[j] == k;
    }
    return true, [];
  }

  // ---------------------------------------------------------------- prop_FC

  /** The constraints forward checking looks at: all of them, or those on the new variable. */
  function Considered(cons: seq<Constraint>, newVar: Option<nat>): (ks: seq<nat>)
    ensures forall k :: k in ks <==> 0 <= k < |cons| && (newVar.Some? ==> newVar.value in cons[k].scope)
    ensures forall i :: 0 <= i < |ks| ==> ks[i] < |cons|
  {
    if newVar.None? then AllIndices(|cons|) else ConsWithVar(cons, newVar.value)
  }

  /** `0, 1, ..., n - 1`. */
  function AllIndices(n: nat): (ks: seq<nat>)
    ensures forall k :: k in ks <==> 0 <= k < n
    ensures |ks| == n && forall i :: 0 <= i < |ks| ==> ks[i] == i
  {
    if n == 0 then [] else AllIndices(n - 1) + [n - 1]
  }

  /** When the constraint has one unassigned variable left, each value in that variable's current domain has support. */
  ghost predicate ForwardChecked(vars: seq<Variable>, c: Constraint) {
    forall y, d :: y in c.scope && y < |vars| && !IsAssigned(vars[y]) && NUnassigned(vars, c) == 1 && InCurDomain(vars[y], d)
      ==> HasSupport(vars, c, y, d)
  }

  /**
   * `p` is a value of the one unassigned variable of some constraint among
   * `ks`, and that constraint gives it no support once it is assigned.
   */
  ghost predicate LoneUnsupported(vars: seq<Variable>, cons: seq<Constraint>, ks: seq<nat>, p: (nat, int)) {
    exists k :: k in ks && k < |cons| && NUnassigned(vars, cons[k]) == 1 && p.0 in cons[k].scope && p.0 < |vars|
                && !IsAssigned(vars[p.0]) && !HasSupport(WithValue(vars, p.0, p.1), cons[k], p.0, p.1)
  }

  /**
   * Whether a tentatively assigned `x` has support depends only on the
   * assignment and on the scope variables other than `x` that are not
   * assigned.
   */
  lemma TentativeSupportSame(a: seq<Variable>, b: seq<Variable>, c: Constraint, x: nat, d: int)
    requires SameAssignment(a, b) && x < |a|
    requires forall u :: u in c.scope && u != x && u < |a| ==> IsAssigned(a[u]) || a[u] == b[u]
    ensures HasSupport(WithValue(a, x, d), c, x, d) <==> HasSupport(WithValue(b, x, d), c, x, d)
  {
    var wa, wb := WithValue(a, x, d), WithValue(b, x, d);
    forall t ensures TupleIsValid(wa, c, t) <==> TupleIsValid(wb, c, t) {
      forall i | 0 <= i < |c.scope| && i < |t| && c.scope[i] < |a|
        ensures InCurDomain(wa[c.scope[i]], t[i]) <==> InCurDomain(wb[c.scope[i]], t[i])
      {
        if c.scope[i] != x {
          assert c.scope[i] in c.scope;
        }
      }
    }
  }

  /** Forward checking stays established while the assignment stays and only live values go. */
  lemma ForwardCheckedStable(a: seq<Variable>, b: seq<Variable>, c: Constraint)
    requires SameAssignment(a, b) && Shrinks(a, b) && ConstraintOk(c, |a|)
    requires ForwardChecked(a, c)
    ensures ForwardChecked(b, c)
  {
    UnassignedSame(a, b, c.scope);
    forall y, d | y in c.scope && y < |b| && !IsAssigned(b[y]) && NUnassigned(b, c) == 1 && InCurDomain(b[y], d)
      ensures HasSupport(b, c, y, d)
    {
      assert InCurDomain(a[y], d) && HasSupport(a, c, y, d);
      LoneSupportStays(a, b, c, y, d);
    }
  }

  /** One value of `ForwardCheckedStable`. */
  lemma LoneSupportStays(a: seq<Variable>, b: seq<Variable>, c: Constraint, y: nat, d: int)
    requires SameAssignment(a, b) && Shrinks(a, b) && ConstraintOk(c, |a|)
    requires y in c.scope && y < |b| && !IsAssigned(b[y]) && NUnassigned(b, c) == 1 && InCurDomain(b[y], d)
    requires HasSupport(a, c, y, d)
    ensures HasSupport(b, c, y, d)
  {
    UnassignedSame(a, b, c.scope);
    var r := UnassignedVars(b, c.scope);
    assert y in r && r == [r[0]];
    assert forall w :: w in c.scope && w < |b| && !IsAssigned(b[w]) ==> w in r;
    var t, i :| t in c.tuples && 0 <= i < |c.scope| && c.scope[i] == y && i < |t| && t[i] == d && TupleIsValid(a, c, t);
    TupleStaysValid(a, b, c, t, y, i);
  }

  /** A tuple valid before stays valid when only the one unassigned variable `y` loses values other than its entry. */
  lemma TupleStaysValid(a: seq<Variable>, b: seq<Variable>, c: Constraint, t: seq<int>, y: nat, i: nat)
    requires SameAssignment(a, b) && Shrinks(a, b) && ConstraintOk(c, |a|)
    requires i < |c.scope| && c.scope[i] == y && i < |t| && InCurDomain(b[y], t[i])
    requires forall w :: w in c.scope && w < |b| && !IsAssigned(b[w]) ==> w == y
    requires TupleIsValid(a, c, t)
    ensures TupleIsValid(b, c, t)
  {
    forall p | 0 <= p < |c.scope| ensures InCurDomain(b[c.scope[p]], t[p]) {
      if !IsAssigned(b[c.scope[p]]) {
        assert c.scope[p] == y;
        assert p == i;
      }
    }
  }

  /** The state with `x` assigned `d`. */
  function WithValue(vars: seq<Variable>, x: nat, d: int): seq<Variable>
    requires x < |vars|
  {
    vars[x := vars[x].(value := Some(d))]
  }

  /** Support found while `x` is tentatively assigned a live value holds once it is unassigned again. */
  lemma SupportUnassigned(vars: seq<Variable>, c: Constraint, x: nat, d: int)
    requires x < |vars| && !IsAssigned(vars[x]) && d in vars[x].dom && d in vars[x].live
    requires Distinct(c.scope)
    requires HasSupport(WithValue(vars, x, d), c, x, d)
    ensures HasSupport(vars, c, x, d)
  {
    var w := WithValue(vars, x, d);
    var t, i :| t in c.tuples && 0 <= i < |c.scope| && c.scope[i] == x && i < |t| && t[i] == d && TupleIsValid(w, c, t);
    forall p | 0 <= p < |c.scope| ensures c.scope[p] < |vars| && InCurDomain(vars[c.scope[p]], t[p]) {
      if c.scope[p] == x {
        assert p == i;
      }
    }
    assert TupleIsValid(vars, c, t);
  }

  /** Pruning one value of `x` keeps the support of a different value of `x`. */
  lemma SupportAfterPrune(vars: seq<Variable>, c: Constraint, x: nat, d: int, e: int)
    requires x < |vars| && d != e && Distinct(c.scope)
    requires HasSupport(vars, c, x, d)
    ensures HasSupport(Pruned(vars, x, e), c, x, d)
  {
    var w := Pruned(vars, x, e);
    var t, i :| t in c.tuples && 0 <= i < |c.scope| && c.scope[i] == x && i < |t| && t[i] == d && TupleIsValid(vars, c, t);
    forall p | 0 <= p < |c.scope| ensures c.scope[p] < |w| && InCurDomain(w[c.scope[p]], t[p]) {
      if c.scope[p] == x {
        assert p == i;
      }
    }
    assert TupleIsValid(w, c, t);
  }

  /** Support for `d` holds as well once `x` is tentatively assigned `d`. */
  lemma SupportAssigned(vars: seq<Variable>, c: Constraint, x: nat, d: int)
    requires x < |vars| && Distinct(c.scope)
    ensures HasSupport(vars, c, x, d) ==> HasSupport(WithValue(vars, x, d), c, x, d)
  {
    if HasSupport(vars, c, x, d) {
      var w := WithValue(vars, x, d);
      var t, i :| t in c.tuples && 0 <= i < |c.scope| && c.scope[i] == x && i < |t| && t[i] == d && TupleIsValid(vars, c, t);
      forall p | 0 <= p < |c.scope| ensures c.scope[p] < |w| && InCurDomain(w[c.scope[p]], t[p]) {
        if c.scope[p] == x {
          assert p == i;
        }
      }
      assert TupleIsValid(w, c, t);
    }
  }

  /** A value without support while tentatively assigned belongs to no solution the state allows. */
  lemma PruneSound(cons: seq<Constraint>, vars: seq<Variable>, k: nat, x: nat, d: int)
    requires k < |cons| && x < |vars| && x in cons[k].scope && Distinct(cons[k].scope)
    requires !IsAssigned(vars[x]) && d in vars[x].dom
    requires !HasSupport(WithValue(vars, x, d), cons[k], x, d)
    ensures Sound(cons, vars, Pruned(vars, x, d))
  {
    forall s | SameAssignment(s, vars) && Shrinks(vars, s) && Gac(s, cons) ensures Shrinks(Pruned(vars, x, d), s) {
      NarrowingSupport(s, vars, cons[k], x, d);
      SupportAssigned(vars, cons[k], x, d);
    }
    forall sol | IsSolution(cons, sol) && Within(sol, vars) ensures Within(sol, Pruned(vars, x, d)) {
      if sol[x] == d {
        assert Within(sol, WithValue(vars, x, d));
        SolutionSupports(cons, WithValue(vars, x, d), sol, k, x);
      }
    }
  }

  /**
   * One pass of the inner loop of `prop_FC`: `x` is assigned `d`, the
   * value is pruned when the constraint gives it no support, and `x` is
   * unassigned again.
   */
  method TryValue(csp: Csp, k: nat, x: nat, d: int) returns (supported: bool)
    requires csp.Valid() && k < |csp.cons| && x < |csp.vars|
    requires x in csp.cons[k].scope && !IsAssigned(csp.vars[x]) && d in csp.vars[x].dom && d in csp.vars[x].live
    modifies csp
    ensures csp.Valid()
    ensures csp.vars == if supported then old(csp.vars) else Pruned(old(csp.vars), x, d)
    ensures supported ==> HasSupport(csp.vars, csp.cons[k], x, d)
    ensures !supported ==> Sound(csp.cons, old(csp.vars), csp.vars)
    ensures !supported ==> !HasSupport(WithValue(old(csp.vars), x, d), csp.cons[k], x, d)
  {
    ghost var before := csp.vars;
    csp.Assign(x, d);
    assert csp.vars == WithValue(before, x, d);
    supported := HasSupport(csp.vars, csp.cons[k], x, d);
    if supported {
      SupportUnassigned(before, csp.cons[k], x, d);
    } else {
      PruneSound(csp.cons, before, k, x, d);
      csp.PruneValue(x, d);
    }
    csp.Unassign(x);
    assert csp.vars[x] == (if supported then before else Pruned(before, x, d))[x];
  }

  /** The values named by a list of pruned pairs. */
  ghost function PrunedValues(pruned: seq<(nat, int)>): set<int> {
    set p | p in pruned :: p.1
  }

  /** The state with every value of `gone` pruned from `x`. */
  function PrunedAll(vars: seq<Variable>, x: nat, gone: set<int>): seq<Variable>
    requires x < |vars|
  {
    vars[x := vars[x].(live := vars[x].live - gone)]
  }

  /**
   * What the inner loop of `prop_FC` has established after trying the
   * first `j` values `ds` of the unassigned `x`'s current domain on
   * constraint `k`: the values it pruned, once each, are those that lost
   * their support, every tried value still live has support, and no
   * solution is lost.
   */
  ghost predicate Scanned(cons: seq<Constraint>, k: nat, x: nat, start: seq<Variable>, ds: seq<int>, j: nat,
                          vars: seq<Variable>, pruned: seq<(nat, int)>)
  {
    && k < |cons| && x < |start| && j <= |ds|
    && ds == CurDomain(start[x]) && Distinct(ds) && (forall d :: d in ds ==> d in start[x].dom)
    && vars == PrunedAll(start, x, PrunedValues(pruned))
    && (forall p :: p in pruned ==> p.0 == x && p.1 in ds[..j] && p.1 in start[x].live)
    && Distinct(pruned)
    && (forall d :: d in ds[..j] && d in vars[x].live ==> HasSupport(vars, cons[k], x, d))
    && Sound(cons, start, vars)
  }

  /** `Scanned`, in a form the verifier only opens on request. */
  ghost predicate ScannedSoFar(cons: seq<Constraint>, k: nat, x: nat, start: seq<Variable>, ds: seq<int>, j: nat,
                               vars: seq<Variable>, pruned: seq<(nat, int)>)
  {
    forall w | w == vars :: Scanned(cons, k, x, start, ds, j, w, pruned)
  }

  lemma ScannedStart(cons: seq<Constraint>, k: nat, x: nat, start: seq<Variable>)
    requires k < |cons| && x < |start| && VariableOk(start[x])
    ensures Scanned(cons, k, x, start, CurDomain(start[x]), 0, start, [])
  {
    LiveValuesDistinct(start[x].dom, start[x].live);
    assert PrunedValues([]) == {};
    assert start[x].live - {} == start[x].live;
  }

  /** The next value to try is in the domain and not yet pruned, and it is live when `x` is unassigned. */
  lemma ScannedNext(cons: seq<Constraint>, k: nat, x: nat, start: seq<Variable>, ds: seq<int>, j: nat,
                    vars: seq<Variable>, pruned: seq<(nat, int)>)
    requires Scanned(cons, k, x, start, ds, j, vars, pruned) && j < |ds|
    ensures x < |vars| && vars[x].value == start[x].value && ds[j] in vars[x].dom
    ensures !IsAssigned(start[x]) ==> ds[j] in vars[x].live
    ensures IsAssigned(start[x]) ==> ds[j] == start[x].value.value
    ensures (x, ds[j]) !in pruned
  {
    var d := ds[j];
    assert d in ds;
    forall p | p in pruned ensures p.1 != d {
      var m :| 0 <= m < j && ds[..j][m] == p.1;
      assert ds[m] != ds[j];
    }
  }

  /** A pair not yet listed extends a list without repeats, and adds its value to the pruned values. */
  lemma PrunedSnoc(pruned: seq<(nat, int)>, x: nat, d: int)
    requires Distinct(pruned) && (x, d) !in pruned
    ensures Distinct(pruned + [(x, d)])
    ensures PrunedValues(pruned + [(x, d)]) == PrunedValues(pruned) + {d}
  {
    var p' := pruned + [(x, d)];
    forall a, b | 0 <= a < b < |p'| ensures p'[a] != p'[b] {
      if b == |pruned| {
        assert p'[a] in pruned;
      }
    }
  }

  /** Pruning one more value of `x` is pruning the enlarged set. */
  lemma PrunedAllSnoc(start: seq<Variable>, x: nat, gone: set<int>, d: int)
    requires x < |start|
    ensures Pruned(PrunedAll(start, x, gone), x, d) == PrunedAll(start, x, gone + {d})
  {
    assert start[x].live - gone - {d} == start[x].live - (gone + {d});
  }

  /** A live value of an unassigned variable keeps its current domain non-empty. */
  lemma LiveValueKept(v: Variable, d: int)
    requires !IsAssigned(v) && d in v.dom && d in v.live
    ensures CurDomainSize(v) > 0
  {
    DomainWipedOut(v);
  }

  lemma ScannedKeep(cons: seq<Constraint>, k: nat, x: nat, start: seq<Variable>, ds: seq<int>, j: nat,
                    vars: seq<Variable>, pruned: seq<(nat, int)>)
    requires Scanned(cons, k, x, start, ds, j, vars, pruned) && j < |ds|
    requires ds[j] in vars[x].live ==> HasSupport(vars, cons[k], x, ds[j])
    ensures Scanned(cons, k, x, start, ds, j + 1, vars, pruned)
  {
    assert ds[..j + 1] == ds[..j] + [ds[j]];
  }

  lemma ScannedPrune(cons: seq<Constraint>, k: nat, x: nat, start: seq<Variable>, ds: seq<int>, j: nat,
                     vars: seq<Variable>, pruned: seq<(nat, int)>)
    requires Scanned(cons, k, x, start, ds, j, vars, pruned) && j < |ds| && ConstraintOk(cons[k], |start|)
    requires ds[j] in vars[x].live
    requires Sound(cons, vars, Pruned(vars, x, ds[j]))
    ensures Scanned(cons, k, x, start, ds, j + 1, Pruned(vars, x, ds[j]), pruned + [(x, ds[j])])
  {
    var d := ds[j];
    var next := Pruned(vars, x, d);
    ScannedNext(cons, k, x, start, ds, j, vars, pruned);
    assert d in start[x].live;
    PrunedListSnoc(pruned, x, d, ds, j, start[x].live);
    PrunedAllSnoc(start, x, PrunedValues(pruned), d);
    TriedSupport(cons[k], x, ds, j, vars);
    SoundCompose(cons, start, vars, next);
  }

  /** The pruned list extended by the value just tried. */
  lemma PrunedListSnoc(pruned: seq<(nat, int)>, x: nat, d: int, ds: seq<int>, j: nat, live: set<int>)
    requires j < |ds| && d == ds[j] && d in live && (x, d) !in pruned && Distinct(pruned)
    requires forall p :: p in pruned ==> p.0 == x && p.1 in ds[..j] && p.1 in live
    ensures forall p :: p in pruned + [(x, d)] ==> p.0 == x && p.1 in ds[..j + 1] && p.1 in live
    ensures Distinct(pruned + [(x, d)])
    ensures PrunedValues(pruned + [(x, d)]) == PrunedValues(pruned) + {d}
  {
    assert ds[..j + 1] == ds[..j] + [d];
    PrunedSnoc(pruned, x, d);
  }

  /** Pruning the value just tried keeps the support of the values tried before it. */
  lemma TriedSupport(c: Constraint, x: nat, ds: seq<int>, j: nat, vars: seq<Variable>)
    requires x < |vars| && Distinct(c.scope) && j < |ds| && Distinct(ds)
    requires forall e :: e in ds[..j] && e in vars[x].live ==> HasSupport(vars, c, x, e)
    ensures forall e :: e in ds[..j + 1] && e in Pruned(vars, x, ds[j])[x].live ==> HasSupport(Pruned(vars, x, ds[j]), c, x, e)
  {
    assert ds[..j + 1] == ds[..j] + [ds[j]];
    assert ds[j] !in ds[..j] by {
      forall m | 0 <= m < j ensures ds[..j][m] != ds[j] {
        assert ds[..j][m] == ds[m];
      }
    }
    ScannedSupport(c, x, ds[..j], vars, ds[j]);
  }

  /** Pruning `d` from `x` keeps the support of the other values tried. */
  lemma ScannedSupport(c: Constraint, x: nat, tried: seq<int>, vars: seq<Variable>, d: int)
    requires x < |vars| && Distinct(c.scope) && d !in tried
    requires forall e :: e in tried && e in vars[x].live ==> HasSupport(vars, c, x, e)
    ensures forall e :: e in tried && e in Pruned(vars, x, d)[x].live ==> HasSupport(Pruned(vars, x, d), c, x, e)
  {
    forall e | e in tried && e in Pruned(vars, x, d)[x].live ensures HasSupport(Pruned(vars, x, d), c, x, e) {
      SupportAfterPrune(vars, c, x, e, d);
    }
  }

  /** What the loop has established, stated on the states before and after. */
  lemma ScannedOutcome(cons: seq<Constraint>, k: nat, x: nat, start: seq<Variable>, ds: seq<int>, j: nat,
                       vars: seq<Variable>, pruned: seq<(nat, int)>)
    requires Scanned(cons, k, x, start, ds, j, vars, pruned)
    ensures SameAssignment(start, vars) && Shrinks(start, vars)
    ensures forall v :: 0 <= v < |vars| && v != x ==> vars[v] == start[v]
    ensures PrunedExactly(start, vars, pruned)
    ensures Sound(cons, start, vars)
    ensures pruned == [] ==> vars == start
    ensures j == |ds| ==> forall d :: InCurDomain(vars[x], d) && d in vars[x].live ==> HasSupport(vars, cons[k], x, d)
  {
    forall v, d ensures (v, d) in pruned <==> 0 <= v < |start| && d in start[v].live && d !in vars[v].live {
      if (v, d) in pruned {
        assert d in PrunedValues(pruned) && d in ds;
      }
      if 0 <= v < |start| && d in start[v].live && d !in vars[v].live {
        assert v == x && d in PrunedValues(pruned);
        var p :| p in pruned && p.1 == d;
      }
    }
    if j == |ds| {
      assert ds[..j] == ds;
    }
    if pruned == [] {
      assert PrunedValues(pruned) == {};
      assert start[x].live - {} == start[x].live;
    }
  }

  /**
   * The inner loop of `prop_FC` for the constraint `k` whose one
   * unassigned variable is `x`: each value of `x`'s current domain is
   * tried as an assignment and pruned when the constraint gives it no
   * support; the loop stops when `x` loses its last value.
   */
  method ForwardCheck(csp: Csp, k: nat, x: nat) returns (wiped: bool, pruned: seq<(nat, int)>)
    requires csp.Valid() && k < |csp.cons| && x < |csp.vars|
    requires x in csp.cons[k].scope && !IsAssigned(csp.vars[x])
    modifies csp
    ensures csp.Valid()
    ensures SameAssignment(old(csp.vars), csp.vars) && Shrinks(old(csp.vars), csp.vars)
    ensures forall v :: 0 <= v < |csp.vars| && v != x ==> csp.vars[v] == old(csp.vars[v])
    ensures PrunedExactly(old(csp.vars), csp.vars, pruned)
    ensures Sound(csp.cons, old(csp.vars), csp.vars)
    ensures wiped ==> CurDomainSize(csp.vars[x]) == 0 && exists d :: (x, d) in pruned
    ensures !wiped && csp.vars[x].live != old(csp.vars[x].live) ==> CurDomainSize(csp.vars[x]) > 0
    ensures !wiped ==> forall d :: InCurDomain(csp.vars[x], d) ==> HasSupport(csp.vars, csp.cons[k], x, d)
    ensures PrunedUnsupported(csp.cons[k], x, old(csp.vars), pruned)
  {
    ghost var start := csp.vars;
    ghost var cons := csp.cons;
    var ds := CurDomain(csp.vars[x]);
    assert ScannedSoFar(cons, k, x, start, ds, 0, start, []) by {
      ScannedStart(cons, k, x, start);
    }
    wiped, pruned := false, [];
    for j := 0 to |ds|
      invariant csp.Valid() && |csp.vars| == |start|
      invariant ScannedSoFar(cons, k, x, start, ds, j, csp.vars, pruned)
      invariant csp.vars[x].live != start[x].live ==> CurDomainSize(csp.vars[x]) > 0
      invariant PrunedUnsupported(cons[k], x, start, pruned)
    {
      var d := ds[j];
      ghost var before, prunedBefore := csp.vars, pruned;
      assert !IsAssigned(csp.vars[x]) && d in csp.vars[x].dom && d in csp.vars[x].live by {
        assert Scanned(cons, k, x, start, ds, j, before, prunedBefore);
        ScannedNext(cons, k, x, start, ds, j, before, prunedBefore);
      }
      var supported := TryValue(csp, k, x, d);
      if supported {
        assert ScannedSoFar(cons, k, x, start, ds, j + 1, csp.vars, pruned) by {
          assert Scanned(cons, k, x, start, ds, j, before, prunedBefore);
          ScannedKeep(cons, k, x, start, ds, j, before, prunedBefore);
        }
        LiveValueKept(csp.vars[x], d);
      } else {
        pruned := pruned + [(x, d)];
        assert ScannedSoFar(cons, k, x, start, ds, j + 1, csp.vars, pruned) by {
          assert Scanned(cons, k, x, start, ds, j, before, prunedBefore);
          ScannedPrune(cons, k, x, start, ds, j, before, prunedBefore);
        }
        assert PrunedUnsupported(cons[k], x, start, pruned) by {
          assert Scanned(cons, k, x, start, ds, j, before, prunedBefore);
          TentativeSupportSame(before, start, cons[k], x, d);
        }
      }
      if CurDomainSize(csp.vars[x]) == 0 {
        wiped := true;
        assert (x, d) in pruned;
        assert Scanned(cons, k, x, start, ds, j + 1, csp.vars, pruned);
        ScannedOutcome(cons, k, x, start, ds, j + 1, csp.vars, pruned);
        return;
      }
    }
    assert Scanned(cons, k, x, start, ds, |ds|, csp.vars, pruned);
    ScannedOutcome(cons, k, x, start, ds, |ds|, csp.vars, pruned);
  }

  /** Each value pruned from `x` has no support in `c` once `x` is assigned it. */
  ghost predicate PrunedUnsupported(c: Constraint, x: nat, start: seq<Variable>, pruned: seq<(nat, int)>)
    requires x < |start|
  {
    forall p :: p in pruned ==> !HasSupport(WithValue(start, x, p.1), c, x, p.1)
  }

  /** What `prop_FC` guarantees whether or not it stops early. */
  ghost predicate FCCore(cons: seq<Constraint>, ks: seq<nat>, start: seq<Variable>, vars: seq<Variable>, pruned: seq<(nat, int)>) {
    && Pruning(cons, start, vars, pruned)
    && (forall p :: p in pruned ==> LoneUnsupported(start, cons, ks, p))
  }

  /**
   * What the loop of `prop_FC` has established after the first `i`
   * considered constraints: the guarantees above, no variable that lost
   * a value is empty, and each of those constraints is forward checked.
   */
  ghost predicate Checked(cons: seq<Constraint>, ks: seq<nat>, i: nat, start: seq<Variable>, vars: seq<Variable>, pruned: seq<(nat, int)>) {
    && i <= |ks|
    && FCCore(cons, ks, start, vars, pruned)
    && (forall v :: 0 <= v < |vars| && vars[v].live != start[v].live ==> CurDomainSize(vars[v]) > 0)
    && (forall j :: 0 <= j < i ==> ks[j] < |cons| && ForwardChecked(vars, cons[ks[j]]))
  }

  /** `Checked`, in a form the verifier only opens on request. */
  ghost predicate CheckedSoFar(cons: seq<Constraint>, ks: seq<nat>, i: nat, start: seq<Variable>, vars: seq<Variable>, pruned: seq<(nat, int)>) {
    forall w | w == vars :: Checked(cons, ks, i, start, w, pruned)
  }

  lemma CheckedStart(cons: seq<Constraint>, ks: seq<nat>, start: seq<Variable>)
    ensures Checked(cons, ks, 0, start, start, [])
  {
  }

  /** A constraint without exactly one unassigned variable is passed over. */
  lemma CheckedSkip(cons: seq<Constraint>, ks: seq<nat>, i: nat, start: seq<Variable>, vars: seq<Variable>, pruned: seq<(nat, int)>)
    requires Checked(cons, ks, i, start, vars, pruned) && i < |ks| && ks[i] < |cons|
    requires NUnassigned(vars, cons[ks[i]]) != 1
    ensures Checked(cons, ks, i + 1, start, vars, pruned)
  {
  }

  /** Forward checking constraint `ks[i]` on its one unassigned variable `x`. */
  lemma CheckedStep(cons: seq<Constraint>, ks: seq<nat>, i: nat, start: seq<Variable>, vars: seq<Variable>, pruned: seq<(nat, int)>,
                    x: nat, wiped: bool, next: seq<Variable>, more: seq<(nat, int)>)
    requires Checked(cons, ks, i, start, vars, pruned) && i < |ks| && ks[i] < |cons|
    requires forall k :: 0 <= k < |cons| ==> ConstraintOk(cons[k], |vars|)
    requires NUnassigned(vars, cons[ks[i]]) == 1 && x in UnassignedVars(vars, cons[ks[i]].scope)
    requires SameAssignment(vars, next) && Shrinks(vars, next)
    requires forall v :: 0 <= v < |next| && v != x ==> next[v] == vars[v]
    requires PrunedExactly(vars, next, more) && Sound(cons, vars, next)
    requires x < |vars| && PrunedUnsupported(cons[ks[i]], x, vars, more)
    requires !wiped && next[x].live != vars[x].live ==> CurDomainSize(next[x]) > 0
    requires !wiped ==> forall d :: InCurDomain(next[x], d) ==> HasSupport(next, cons[ks[i]], x, d)
    ensures FCCore(cons, ks, start, next, pruned + more)
    ensures !wiped ==> Checked(cons, ks, i + 1, start, next, pruned + more)
  {
    CoreStep(cons, ks, i, start, vars, pruned, x, next, more);
    if !wiped {
      CheckedKeeps(cons, ks, i, start, vars, pruned, x, next);
      JustChecked(cons[ks[i]], vars, x, next);
    }
  }

  lemma CoreStep(cons: seq<Constraint>, ks: seq<nat>, i: nat, start: seq<Variable>, vars: seq<Variable>, pruned: seq<(nat, int)>,
                 x: nat, next: seq<Variable>, more: seq<(nat, int)>)
    requires FCCore(cons, ks, start, vars, pruned) && i < |ks| && ks[i] < |cons|
    requires NUnassigned(vars, cons[ks[i]]) == 1 && x in UnassignedVars(vars, cons[ks[i]].scope)
    requires SameAssignment(vars, next) && Shrinks(vars, next)
    requires forall v :: 0 <= v < |next| && v != x ==> next[v] == vars[v]
    requires PrunedExactly(vars, next, more) && Sound(cons, vars, next)
    requires x < |vars| && PrunedUnsupported(cons[ks[i]], x, vars, more)
    ensures FCCore(cons, ks, start, next, pruned + more)
  {
    assert forall p :: p in more ==> p.0 == x by {
      forall p | p in more ensures p.0 == x {
        assert (p.0, p.1) in more;
      }
    }
    MoreUnsupported(cons, ks, i, start, vars, x, more);
    assert forall p :: p in pruned + more ==> p in pruned || p in more;
    PrunedCompose(start, vars, next, pruned, more);
    SoundCompose(cons, start, vars, next);
  }

  /** The values forward checking just pruned from `x` were unsupported already at the start. */
  lemma MoreUnsupported(cons: seq<Constraint>, ks: seq<nat>, i: nat, start: seq<Variable>, vars: seq<Variable>,
                        x: nat, more: seq<(nat, int)>)
    requires i < |ks| && ks[i] < |cons| && SameAssignment(start, vars)
    requires NUnassigned(vars, cons[ks[i]]) == 1 && x in UnassignedVars(vars, cons[ks[i]].scope)
    requires x < |vars| && PrunedUnsupported(cons[ks[i]], x, vars, more)
    requires forall p :: p in more ==> p.0 == x
    ensures forall p :: p in more ==> LoneUnsupported(start, cons, ks, p)
  {
    var c := cons[ks[i]];
    UnassignedSame(start, vars, c.scope);
    OthersAssigned(vars, c, x);
    forall p | p in more ensures LoneUnsupported(start, cons, ks, p) {
      TentativeSupportSame(vars, start, c, x, p.1);
      assert ks[i] in ks;
    }
  }

  /** When `x` is the one unassigned variable of `c`, every other variable of its scope is assigned. */
  lemma OthersAssigned(vars: seq<Variable>, c: Constraint, x: nat)
    requires NUnassigned(vars, c) == 1 && x in UnassignedVars(vars, c.scope)
    ensures forall u :: u in c.scope && u < |vars| && !IsAssigned(vars[u]) ==> u == x
  {
    var r := UnassignedVars(vars, c.scope);
    forall u | u in c.scope && u < |vars| && !IsAssigned(vars[u]) ensures u == x {
      OnlyMember(r, x, u);
    }
  }

  lemma OnlyMember(r: seq<nat>, x: nat, u: nat)
    requires |r| == 1 && x in r && u in r
    ensures u == x
  {
  }

  /** The constraint just forward checked on its one unassigned variable is forward checked. */
  lemma JustChecked(c: Constraint, vars: seq<Variable>, x: nat, next: seq<Variable>)
    requires NUnassigned(vars, c) == 1 && x in UnassignedVars(vars, c.scope)
    requires SameAssignment(vars, next)
    requires forall d :: InCurDomain(next[x], d) ==> HasSupport(next, c, x, d)
    ensures ForwardChecked(next, c)
  {
    UnassignedSame(vars, next, c.scope);
    var r := UnassignedVars(next, c.scope);
    assert r == [r[0]] && x in r;
  }

  /** The earlier constraints stay forward checked, and no variable that lost a value is empty. */
  lemma CheckedKeeps(cons: seq<Constraint>, ks: seq<nat>, i: nat, start: seq<Variable>, vars: seq<Variable>, pruned: seq<(nat, int)>,
                     x: nat, next: seq<Variable>)
    requires Checked(cons, ks, i, start, vars, pruned)
    requires forall k :: 0 <= k < |cons| ==> ConstraintOk(cons[k], |vars|)
    requires SameAssignment(vars, next) && Shrinks(vars, next)
    requires x < |next| && forall v :: 0 <= v < |next| && v != x ==> next[v] == vars[v]
    requires next[x].live != vars[x].live ==> CurDomainSize(next[x]) > 0
    ensures forall j :: 0 <= j < i ==> ForwardChecked(next, cons[ks[j]])
    ensures forall v :: 0 <= v < |next| && next[v].live != start[v].live ==> CurDomainSize(next[v]) > 0
  {
    forall j | 0 <= j < i ensures ForwardChecked(next, cons[ks[j]]) {
      ForwardCheckedStable(vars, next, cons[ks[j]]);
    }
    forall v | 0 <= v < |next| && next[v].live != start[v].live ensures CurDomainSize(next[v]) > 0 {
      if v == x && next[x].live == vars[x].live {
        assert next[x] == vars[x];
      }
    }
  }

  /**
   * `prop_FC`: forward checks every considered constraint that has one
   * unassigned variable left, and reports a dead end as soon as a domain
   * is wiped out.
   */
  method PropFC(csp: Csp, newVar: Option<nat>) returns (ok: bool, pruned: seq<(nat, int)>)
    requires csp.Valid()
    requires newVar.Some? ==> newVar.value < |csp.vars|
    modifies csp
    ensures csp.Valid()
    ensures SameAssignment(old(csp.vars), csp.vars) && Shrinks(old(csp.vars), csp.vars)
    ensures PrunedExactly(old(csp.vars), csp.vars, pruned)
    ensures forall p :: p in pruned ==> LoneUnsupported(old(csp.vars), csp.cons, Considered(csp.cons, newVar), p)
    ensures Sound(csp.cons, old(csp.vars), csp.vars)
    ensures !ok ==> EmptiedBy(old(csp.vars), csp.vars)
    ensures ok ==> forall v :: 0 <= v < |csp.vars| && csp.vars[v].live != old(csp.vars[v].live) ==> CurDomainSize(csp.vars[v]) > 0
    ensures ok ==> forall k :: k in Considered(csp.cons, newVar) ==> ForwardChecked(csp.vars, csp.cons[k])
  {
    ghost var start := csp.vars;
    ghost var cons := csp.cons;
    var ks := Considered(csp.cons, newVar);
    pruned := [];
    assert CheckedSoFar(cons, ks, 0, start, start, []) by {
      CheckedStart(cons, ks, start);
    }
    for i := 0 to |ks|
      invariant csp.Valid() && |csp.vars| == |start|
      invariant CheckedSoFar(cons, ks, i, start, csp.vars, pruned)
    {
      var k := ks[i];
      var c := csp.cons[k];
      ghost var before, prunedBefore := csp.vars, pruned;
      if NUnassigned(csp.vars, c) == 1 {
        var us := UnassignedVars(csp.vars, c.scope);
        var x := us[0];
        assert x in us;
        var wiped, more := ForwardCheck(csp, k, x);
        pruned := pruned + more;
        assert FCCore(cons, ks, start, csp.vars, pruned) && (!wiped ==> CheckedSoFar(cons, ks, i + 1, start, csp.vars, pruned)) by {
          assert Checked(cons, ks, i, start, before, prunedBefore);
          CheckedStep(cons, ks, i, start, before, prunedBefore, x, wiped, csp.vars, more);
        }
        if wiped {
          ghost var d :| (x, d) in more;
          PrunedEmptied(start, csp.vars, pruned, x, d);
          LosingEmptied(start, csp.vars);
          return false, pruned;
        }
      } else {
        assert CheckedSoFar(cons, ks, i + 1, start, csp.vars, pruned) by {
          assert Checked(cons, ks, i, start, before, prunedBefore);
          CheckedSkip(cons, ks, i, start, before, prunedBefore);
        }
      }
    }
    assert Checked(cons, ks, |ks|, start, csp.vars, pruned);
    forall k | k in ks ensures ForwardChecked(csp.vars, csp.cons[k]) {
      var j :| 0 <= j < |ks| && ks[j] == k;
    }
    return true, pruned;
  }
}
