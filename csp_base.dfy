/**
 * The constraint-problem objects the CSP exercise works on (`cspbase`,
 * which is not part of this model, is described here by the behaviour the
 * encodings and propagators rely on).  Variables are numbered by the
 * order in which they are added to the problem; a constraint names its
 * scope by those numbers.
 */
module CspBase {
  import opened Wrappers
  import opened CspTuples

  /** A constraint: the variables it ranges over and its satisfying tuples, in the order they were added. */
  datatype Constraint = Constraint(scope: seq<nat>, tuples: seq<seq<int>>)

  /** A variable: its permanent domain, the domain values not yet pruned, and its assigned value if any. */
  datatype Variable = Variable(dom: seq<int>, live: set<int>, value: Option<int>)

  /** A problem as the encodings build it: each variable's domain, and the constraints in the order added. */
  datatype Problem = Problem(doms: seq<seq<int>>, cons: seq<Constraint>)

  /** Scope entries name existing variables, none twice, and every tuple gives one value per scope entry. */
  predicate ConstraintOk(c: Constraint, n: nat) {
    && (forall i :: 0 <= i < |c.scope| ==> c.scope[i] < n)
    && Distinct(c.scope)
    && (forall t :: t in c.tuples ==> |t| == |c.scope|)
  }

  /** Every domain lists each value once and every constraint is well formed. */
  predicate ProblemOk(p: Problem) {
    && (forall v :: 0 <= v < |p.doms| ==> Distinct(p.doms[v]))
    && (forall k :: 0 <= k < |p.cons| ==> ConstraintOk(p.cons[k], |p.doms|))
  }

  /** A variable whose live values and assigned value come from its domain, which has no repeats. */
  predicate VariableOk(x: Variable) {
    && Distinct(x.dom)
    && (forall d :: d in x.live ==> d in x.dom)
    && (x.value.Some? ==> x.value.value in x.dom)
  }

  predicate IsAssigned(x: Variable) {
    x.value.Some?
  }

  /** The live values in domain order. */
  function LiveValues(dom: seq<int>, live: set<int>): (r: seq<int>)
    ensures |r| <= |dom|
    ensures forall d :: d in r <==> d in dom && d in live
  {
    if dom == [] then []
    else (if dom[0] in live then [dom[0]] else []) + LiveValues(dom[1..], live)
  }

  /** The live values of a domain without repeats have no repeats. */
  lemma {:induction false} LiveValuesDistinct(dom: seq<int>, live: set<int>)
    requires Distinct(dom)
    ensures Distinct(LiveValues(dom, live))
  {
    if dom != [] {
      var rest := LiveValues(dom[1..], live);
      LiveValuesDistinct(dom[1..], live);
      if dom[0] in live {
        var r := [dom[0]] + rest;
        forall a, b | 0 <= a < b < |r| ensures r[a] != r[b] {
          if a == 0 {
            assert r[b] == rest[b - 1] && rest[b - 1] in rest;
            var k :| 0 <= k < |dom[1..]| && dom[1..][k] == rest[b - 1];
            assert dom[k + 1] == r[b];
          } else {
            assert r[a] == rest[a - 1] && r[b] == rest[b - 1];
          }
        }
      }
    }
  }

  /** `cur_domain`: the assigned value alone, or the live values in domain order. */
  function CurDomain(x: Variable): seq<int> {
    if IsAssigned(x) then [x.value.value] else LiveValues(x.dom, x.live)
  }

  /** `cur_domain_size`: 1 for an assigned variable, else the number of live domain entries. */
  function CurDomainSize(x: Variable): nat {
    if IsAssigned(x) then 1 else |LiveValues(x.dom, x.live)|
  }

  /** Nothing live is left in the domain. */
  predicate NoneLive(x: Variable) {
    forall d :: d in x.dom ==> d !in x.live
  }

  /** An unassigned variable's current domain is empty exactly when no domain value is live; an assigned one never is. */
  lemma DomainWipedOut(x: Variable)
    ensures CurDomainSize(x) == 0 <==> !IsAssigned(x) && NoneLive(x)
  {
    if !IsAssigned(x) {
      var r := LiveValues(x.dom, x.live);
      if r != [] {
        assert r[0] in r;
        var e := r[0];
        assert e in x.dom && e in x.live;
        assert NoneLive(x) ==> e !in x.live;
      }
    }
  }

  /** The current domain lists exactly the values `in_cur_domain` accepts. */
  lemma CurDomainMembers(x: Variable, d: int)
    requires VariableOk(x)
    ensures d in CurDomain(x) <==> InCurDomain(x, d)
  {
  }

  /** `in_cur_domain`: a domain value equal to the assignment, or live when unassigned. */
  predicate InCurDomain(x: Variable, d: int) {
    d in x.dom && (if IsAssigned(x) then d == x.value.value else d in x.live)
  }

  /** `tuple_is_valid`: every entry is in the current domain of its scope variable. */
  predicate TupleIsValid(vars: seq<Variable>, c: Constraint, t: seq<int>) {
    && |t| == |c.scope|
    && forall i :: 0 <= i < |c.scope| ==> c.scope[i] < |vars| && InCurDomain(vars[c.scope[i]], t[i])
  }

  /** `has_support(v, d)`: a satisfying tuple with `d` at a position of `v` that is valid throughout. */
  predicate HasSupport(vars: seq<Variable>, c: Constraint, v: nat, d: int) {
    exists t, i :: t in c.tuples && 0 <= i < |c.scope| && c.scope[i] == v && i < |t| && t[i] == d
                   && TupleIsValid(vars, c, t)
  }

  /** `get_unasgn_vars`: the unassigned scope variables, in scope order. */
  function UnassignedVars(vars: seq<Variable>, scope: seq<nat>): (r: seq<nat>)
    ensures forall v :: v in r <==> v in scope && v < |vars| && !IsAssigned(vars[v])
    ensures |r| <= |scope|
  {
    if scope == [] then []
    else (if scope[0] < |vars| && !IsAssigned(vars[scope[0]]) then [scope[0]] else []) + UnassignedVars(vars, scope[1..])
  }

  /** `get_n_unasgn`. */
  function NUnassigned(vars: seq<Variable>, c: Constraint): nat {
    |UnassignedVars(vars, c.scope)|
  }

  /** The values of the scope variables, all assigned, in scope order. */
  function AssignedValues(vars: seq<Variable>, scope: seq<nat>): (vals: seq<int>)
    requires forall i :: 0 <= i < |scope| ==> scope[i] < |vars| && vars[scope[i]].value.Some?
    ensures |vals| == |scope|
    ensures forall i :: 0 <= i < |scope| ==> vals[i] == vars[scope[i]].value.value
  {
    seq(|scope|, i requires 0 <= i < |scope| => vars[scope[i]].value.value)
  }

  /** Every scope variable exists and is assigned. */
  predicate FullyAssigned(vars: seq<Variable>, scope: seq<nat>) {
    forall i :: 0 <= i < |scope| ==> scope[i] < |vars| && IsAssigned(vars[scope[i]])
  }

  /** On a well-formed constraint, `get_n_unasgn() == 0` says exactly that the scope is fully assigned. */
  lemma NoneUnassigned(vars: seq<Variable>, c: Constraint)
    requires ConstraintOk(c, |vars|)
    ensures NUnassigned(vars, c) == 0 <==> FullyAssigned(vars, c.scope)
  {
    var r := UnassignedVars(vars, c.scope);
    if r != [] {
      var e := r[0];
      assert e in r;
      var i :| 0 <= i < |c.scope| && c.scope[i] == e;
      assert !IsAssigned(vars[c.scope[i]]);
    }
  }

  /** The unassigned scope variables depend only on the assignment. */
  lemma {:induction false} UnassignedSame(a: seq<Variable>, b: seq<Variable>, scope: seq<nat>)
    requires SameAssignment(a, b)
    ensures UnassignedVars(a, scope) == UnassignedVars(b, scope)
  {
    if scope != [] {
      UnassignedSame(a, b, scope[1..]);
    }
  }

  /** `check`: the values form a satisfying tuple. */
  predicate Check(c: Constraint, vals: seq<int>) {
    vals in c.tuples
  }

  /** `get_cons_with_var`: the indices of the constraints whose scope holds `v`, in the order added. */
  function ConsWithVar(cons: seq<Constraint>, v: nat): (ks: seq<nat>)
    ensures forall k :: k in ks <==> 0 <= k < |cons| && v in cons[k].scope
    ensures Distinct(ks)
    ensures forall i :: 0 <= i < |ks| ==> ks[i] < |cons|
  {
    ConsWithVarFrom(cons, v, 0)
  }

  function ConsWithVarFrom(cons: seq<Constraint>, v: nat, from: nat): (ks: seq<nat>)
    requires from <= |cons|
    ensures forall k :: k in ks <==> from <= k < |cons| && v in cons[k].scope
    ensures Distinct(ks)
    ensures forall i :: 0 <= i < |ks| ==> ks[i] < |cons|
    decreases |cons| - from
  {
    if from == |cons| then []
    else (if v in cons[from].scope then [from] else []) + ConsWithVarFrom(cons, v, from + 1)
  }

  /** The same variables, domains and assignments; only live values may differ. */
  predicate SameAssignment(a: seq<Variable>, b: seq<Variable>) {
    |a| == |b| && forall v :: 0 <= v < |a| ==> a[v].dom == b[v].dom && a[v].value == b[v].value
  }

  /** No live value was added. */
  predicate Shrinks(a: seq<Variable>, b: seq<Variable>) {
    |a| == |b| && forall v :: 0 <= v < |a| ==> b[v].live <= a[v].live
  }

  /** The projection of a complete assignment onto a scope. */
  function Project(sol: seq<int>, scope: seq<nat>): (t: seq<int>)
    requires forall i :: 0 <= i < |scope| ==> scope[i] < |sol|
    ensures |t| == |scope|
    ensures forall i :: 0 <= i < |scope| ==> t[i] == sol[scope[i]]
  {
    seq(|scope|, i requires 0 <= i < |scope| => sol[scope[i]])
  }

  /** A complete assignment that satisfies every constraint. */
  predicate IsSolution(cons: seq<Constraint>, sol: seq<int>) {
    forall k :: 0 <= k < |cons| ==>
      (forall i :: 0 <= i < |cons[k].scope| ==> cons[k].scope[i] < |sol|) && Project(sol, cons[k].scope) in cons[k].tuples
  }

  /** The complete assignment agrees with the assignments and current domains. */
  predicate Within(sol: seq<int>, vars: seq<Variable>) {
    |sol| == |vars| && forall v :: 0 <= v < |vars| ==> InCurDomain(vars[v], sol[v])
  }

  /** A solution within the current domains supports each of its own values. */
  lemma SolutionSupports(cons: seq<Constraint>, vars: seq<Variable>, sol: seq<int>, k: nat, v: nat)
    requires IsSolution(cons, sol) && Within(sol, vars)
    requires k < |cons| && v in cons[k].scope
    ensures HasSupport(vars, cons[k], v, sol[v])
  {
    var c := cons[k];
    var t := Project(sol, c.scope);
    var i :| 0 <= i < |c.scope| && c.scope[i] == v;
    assert t in c.tuples && t[i] == sol[v];
    assert TupleIsValid(vars, c, t);
  }

  /** The number of live values over all variables. */
  function TotalLive(vars: seq<Variable>): nat {
    if vars == [] then 0 else |vars[0].live| + TotalLive(vars[1..])
  }

  /** Removing a live value of one variable lowers the total by one. */
  lemma {:induction false} TotalLivePrune(vars: seq<Variable>, v: nat, d: int)
    requires v < |vars| && d in vars[v].live
    ensures TotalLive(vars[v := vars[v].(live := vars[v].live - {d})]) == TotalLive(vars) - 1
  {
    var vars' := vars[v := vars[v].(live := vars[v].live - {d})];
    if v == 0 {
      assert vars'[1..] == vars[1..];
    } else {
      assert vars'[1..] == vars[1..][v - 1 := vars[v].(live := vars[v].live - {d})];
      TotalLivePrune(vars[1..], v - 1, d);
    }
  }

  /** Fewer live values never raise the total. */
  lemma {:induction false} TotalLiveShrinks(a: seq<Variable>, b: seq<Variable>)
    requires Shrinks(a, b)
    ensures TotalLive(b) <= TotalLive(a)
  {
    if a != [] {
      assert Shrinks(a[1..], b[1..]);
      TotalLiveShrinks(a[1..], b[1..]);
      assert |b[0].live| <= |a[0].live| by {
        SubsetCard(b[0].live, a[0].live);
      }
    }
  }

  lemma SubsetCard(s: set<int>, t: set<int>)
    requires s <= t
    ensures |s| <= |t|
  {
    assert t == s + (t - s);
  }

  /** The live state with one value pruned. */
  function Pruned(vars: seq<Variable>, v: nat, d: int): seq<Variable>
    requires v < |vars|
  {
    vars[v := vars[v].(live := vars[v].live - {d})]
  }

  /** `Variable(name, domain)`: every domain value live, no assignment. */
  function Fresh(dom: seq<int>): (x: Variable)
    ensures forall d :: d in x.live <==> d in dom
    ensures x.dom == dom && !IsAssigned(x)
  {
    Variable(dom, (set d | d in dom), None)
  }

  /**
   * The mutable part of a problem: its variables (the Python `Variable`
   * objects, whose `curdom`, here the set of live values, and assignment
   * change) and its constraints, which do not change.
   */
  class Csp {
    var vars: seq<Variable>
    const cons: seq<Constraint>

    ghost predicate Valid()
      reads this
    {
      && (forall v :: 0 <= v < |vars| ==> VariableOk(vars[v]))
      && (forall k :: 0 <= k < |cons| ==> ConstraintOk(cons[k], |vars|))
    }

    /** `CSP(name, vars)` followed by `add_constraint` for each constraint: every value live, nothing assigned. */
    constructor (p: Problem)
      requires ProblemOk(p)
      ensures |vars| == |p.doms| && cons == p.cons
      ensures forall v :: 0 <= v < |vars| ==> vars[v] == Fresh(p.doms[v])
      ensures Valid()
    {
      vars := seq(|p.doms|, v requires 0 <= v < |p.doms| => Fresh(p.doms[v]));
      cons := p.cons;
    }

    /** `assign`: refused (no change) when already assigned or the value is not in the current domain. */
    method Assign(v: nat, d: int)
      requires v < |vars| && Valid()
      modifies this
      ensures Valid()
      ensures old(IsAssigned(vars[v]) || !InCurDomain(vars[v], d)) ==> vars == old(vars)
      ensures old(!IsAssigned(vars[v]) && InCurDomain(vars[v], d)) ==> vars == old(vars[v := vars[v].(value := Some(d))])
    {
      if !IsAssigned(vars[v]) && InCurDomain(vars[v], d) {
        vars := vars[v := vars[v].(value := Some(d))];
      }
    }

    /** `unassign`: refused (no change) when not assigned. */
    method Unassign(v: nat)
      requires v < |vars| && Valid()
      modifies this
      ensures Valid()
      ensures vars == old(vars[v := vars[v].(value := None)])
    {
      vars := vars[v := vars[v].(value := None)];
    }

    /** `prune_value`: the value is no longer live. */
    method PruneValue(v: nat, d: int)
      requires v < |vars| && Valid() && d in vars[v].dom
      modifies this
      ensures Valid()
      ensures vars == Pruned(old(vars), v, d)
    {
      vars := Pruned(vars, v, d);
    }
  }
}
