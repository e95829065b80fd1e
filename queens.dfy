/**
 * The n-queens problem that csp/csp/test_error.py builds to test the
 * propagators, and that file's test of a dead end reported too early.
 * Row r's queen (`Q(r+1)` in the test) is variable r; its value is the
 * column 1..n the queen stands in.
 */
module Queens {
  import opened Wrappers
  import opened CspTuples
  import opened CspBase
  import opened Propagators
  import opened FullInference
  import CspGrids

  function Abs(x: int): nat {
    if x < 0 then -x else x
  }

  /** `queensCheck`: queens of rows `qi` and `qj` in columns `i` and `j` share no column and no diagonal. */
  predicate QueensCheck(qi: int, qj: int, i: int, j: int) {
    i != j && Abs(i - j) != Abs(qi - qj)
  }

  /** Two queens attack each other along their column or along one of their diagonals. */
  predicate Attack(qi: int, qj: int, i: int, j: int) {
    i == j || i - j == qi - qj || i - j == qj - qi
  }

  /** The check accepts exactly the placements without an attack, whichever queen comes first. */
  lemma QueensCheckMeans(qi: int, qj: int, i: int, j: int)
    ensures QueensCheck(qi, qj, i, j) <==> !Attack(qi, qj, i, j)
    ensures QueensCheck(qi, qj, i, j) <==> QueensCheck(qj, qi, j, i)
  {
  }

  /* ---------------- the problem `nQueens(n)` builds ---------------- */

  /** A pair of columns the check accepts for rows `qi` and `qj`. */
  predicate Fits(qi: int, qj: int, t: seq<int>) {
    |t| == 2 && QueensCheck(qi, qj, t[0], t[1])
  }

  /** The tuples of `ts` the check accepts, in their order. */
  function Satisfying(qi: int, qj: int, ts: seq<seq<int>>): seq<seq<int>> {
    if ts == [] then []
    else Satisfying(qi, qj, ts[..|ts| - 1]) + (if Fits(qi, qj, ts[|ts| - 1]) then [ts[|ts| - 1]] else [])
  }

  lemma {:induction false} SatisfyingMembers(qi: int, qj: int, ts: seq<seq<int>>, t: seq<int>)
    ensures t in Satisfying(qi, qj, ts) <==> t in ts && Fits(qi, qj, t)
  {
    if ts != [] {
      var front := ts[..|ts| - 1];
      SatisfyingMembers(qi, qj, front, t);
      assert ts == front + [ts[|ts| - 1]];
    }
  }

  /** The satisfying tuples of the constraint between rows `qi` and `qj`, in `itertools.product` order. */
  ghost function QueensTuples(n: nat, qi: nat, qj: nat): seq<seq<int>> {
    Satisfying(qi, qj, Product(CspGrids.Values(n), 2))
  }

  /** The table holds exactly the column pairs 1..n that the check accepts. */
  lemma QueensTuplesMembers(n: nat, qi: nat, qj: nat, t: seq<int>)
    ensures t in QueensTuples(n, qi, qj) <==> |t| == 2 && 1 <= t[0] <= n && 1 <= t[1] <= n && QueensCheck(qi, qj, t[0], t[1])
  {
    var dom := CspGrids.Values(n);
    CspGrids.OneToMembers(dom, n);
    SatisfyingMembers(qi, qj, Product(dom, 2), t);
    ProductMembers(dom, 2, t);
    if |t| == 2 {
      assert Over(t, dom) <==> t[0] in dom && t[1] in dom;
    }
  }

  /** The constraint `C(Q(qi+1), Q(qj+1))`. */
  ghost function QueensConstraint(n: nat, qi: nat, qj: nat): Constraint {
    Constraint([qi, qj], QueensTuples(n, qi, qj))
  }

  /** The constraints of row `qi` with rows `qj`, `qj + 1`, ..., `n - 1`. */
  ghost function RowCons(n: nat, qi: nat, qj: nat): seq<Constraint>
    decreases n - qj
  {
    if qj >= n then [] else [QueensConstraint(n, qi, qj)] + RowCons(n, qi, qj + 1)
  }

  /** The constraints of rows `qi`, ..., `n - 1` with the rows below them, in the order `nQueens` adds them. */
  ghost function AllCons(n: nat, qi: nat): seq<Constraint>
    decreases n - qi
  {
    if qi >= n then [] else RowCons(n, qi, qi + 1) + AllCons(n, qi + 1)
  }

  /** A constraint between two different rows of the board. */
  ghost predicate RowPair(n: nat, c: Constraint) {
    |c.scope| == 2 && c.scope[0] < c.scope[1] < n && c == QueensConstraint(n, c.scope[0], c.scope[1])
  }

  lemma {:induction false} RowConsMembers(n: nat, qi: nat, qj: nat, c: Constraint)
    requires qi < qj
    ensures c in RowCons(n, qi, qj) <==> RowPair(n, c) && c.scope[0] == qi && qj <= c.scope[1]
    decreases n - qj
  {
    if qj < n {
      RowConsMembers(n, qi, qj + 1, c);
    }
  }

  /** The problem has one constraint for each pair of rows `qi < qj` at or after row `from`, and no other. */
  lemma {:induction false} AllConsMembers(n: nat, from: nat, c: Constraint)
    ensures c in AllCons(n, from) <==> RowPair(n, c) && from <= c.scope[0]
    decreases n - from
  {
    if from < n {
      RowConsMembers(n, from, from + 1, c);
      AllConsMembers(n, from + 1, c);
    }
  }

  lemma {:induction false} RowConsCount(n: nat, qi: nat, qj: nat)
    requires qj <= n
    ensures |RowCons(n, qi, qj)| == n - qj
    decreases n - qj
  {
    if qj < n {
      RowConsCount(n, qi, qj + 1);
    }
  }

  /** There are `m (m - 1) / 2` constraints for the last `m` rows. */
  lemma {:induction false} AllConsCount(n: nat, from: nat)
    requires from <= n
    ensures |AllCons(n, from)| == (n - from) * (n - from - 1) / 2
    decreases n - from
  {
    if from < n {
      var m := n - from;
      RowConsCount(n, from, from + 1);
      AllConsCount(n, from + 1);
      assert (m - 1) * (m - 2) + 2 * (m - 1) == m * (m - 1);
    }
  }

  /** Each constraint ranges over two different rows and its tuples have two entries. */
  lemma QueensProblemOk(n: nat, doms: seq<seq<int>>)
    requires |doms| == n && forall v :: 0 <= v < n ==> doms[v] == CspGrids.Values(n)
    ensures ProblemOk(Problem(doms, AllCons(n, 0)))
  {
    CspGrids.OneToMembers(CspGrids.Values(n), n);
    var cons := AllCons(n, 0);
    forall k | 0 <= k < |cons| ensures ConstraintOk(cons[k], n) {
      var c := cons[k];
      AllConsMembers(n, 0, c);
      forall t | t in c.tuples ensures |t| == 2 {
        QueensTuplesMembers(n, c.scope[0], c.scope[1], t);
      }
    }
  }

  /**
   * `nQueens(n)`: a variable per row over the columns 1..n, each with its
   * domain unpruned and unassigned, and a constraint per pair of rows in
   * the order the nested loops add them.
   */
  method NQueens(n: nat) returns (csp: Csp)
    ensures fresh(csp) && csp.Valid()
    ensures |csp.vars| == n && forall v :: 0 <= v < n ==> csp.vars[v] == Fresh(CspGrids.Values(n))
    ensures csp.cons == AllCons(n, 0)
  {
    var dom: seq<int> := [];
    for i := 0 to n
      invariant CspGrids.IsOneTo(dom, i)
    {
      dom := dom + [i + 1];
    }
    assert dom == CspGrids.Values(n);
    var doms: seq<seq<int>> := [];
    for i := 0 to n
      invariant |doms| == i && forall v :: 0 <= v < i ==> doms[v] == dom
    {
      doms := doms + [dom];
    }
    var cons := PairConstraints(n, dom);
    QueensProblemOk(n, doms);
    csp := new Csp(Problem(doms, cons));
  }

  /** The nested loops of `nQueens` over the row pairs `qi < qj`, one constraint each. */
  method PairConstraints(n: nat, dom: seq<int>) returns (cons: seq<Constraint>)
    requires dom == CspGrids.Values(n)
    ensures cons == AllCons(n, 0)
  {
    ghost var all := AllCons(n, 0);
    cons := [];
    for qi := 0 to n
      invariant cons + AllCons(n, qi) == all
    {
      RowStart(cons, n, qi);
      for qj := qi + 1 to n
        invariant cons + RowCons(n, qi, qj) + AllCons(n, qi + 1) == all
      {
        var sat := SatisfyingPairs(qi, qj, dom);
        PairStep(cons, n, qi, qj);
        cons := cons + [Constraint([qi, qj], sat)];
      }
      RowEnd(cons, n, qi);
    }
    assert AllCons(n, n) == [];
  }

  lemma RowStart(prefix: seq<Constraint>, n: nat, qi: nat)
    requires qi < n && prefix + AllCons(n, qi) == AllCons(n, 0)
    ensures prefix + RowCons(n, qi, qi + 1) + AllCons(n, qi + 1) == AllCons(n, 0)
  {
    assert AllCons(n, qi) == RowCons(n, qi, qi + 1) + AllCons(n, qi + 1);
  }

  lemma PairStep(prefix: seq<Constraint>, n: nat, qi: nat, qj: nat)
    requires qi < qj < n && prefix + RowCons(n, qi, qj) + AllCons(n, qi + 1) == AllCons(n, 0)
    ensures prefix + [QueensConstraint(n, qi, qj)] + RowCons(n, qi, qj + 1) + AllCons(n, qi + 1) == AllCons(n, 0)
  {
    var c, rest, below := QueensConstraint(n, qi, qj), RowCons(n, qi, qj + 1), AllCons(n, qi + 1);
    assert RowCons(n, qi, qj) == [c] + rest;
    ConcatAssoc(prefix, [c], rest, below);
  }

  lemma ConcatAssoc(a: seq<Constraint>, b: seq<Constraint>, c: seq<Constraint>, d: seq<Constraint>)
    ensures a + (b + c) + d == a + b + c + d
  {
  }

  lemma RowEnd(prefix: seq<Constraint>, n: nat, qi: nat)
    requires prefix + RowCons(n, qi, n) + AllCons(n, qi + 1) == AllCons(n, 0)
    ensures prefix + AllCons(n, qi + 1) == AllCons(n, 0)
  {
    assert RowCons(n, qi, n) == [];
  }

  /** The loop over `itertools.product(dom, dom)` that collects the tuples the check accepts. */
  method SatisfyingPairs(qi: nat, qj: nat, dom: seq<int>) returns (sat: seq<seq<int>>)
    ensures sat == Satisfying(qi, qj, Product(dom, 2))
  {
    var ts := Product(dom, 2);
    sat := [];
    for m := 0 to |ts|
      invariant sat == Satisfying(qi, qj, ts[..m])
    {
      ProductMembers(dom, 2, ts[m]);
      assert ts[..m + 1][..m] == ts[..m];
      if QueensCheck(qi, qj, ts[m][0], ts[m][1]) {
        sat := sat + [ts[m]];
      }
    }
    assert ts[..|ts|] == ts;
  }

  /* ---------------- support in the n-queens constraints ---------------- */

  /** The other row of the scope `[qi, qj]`. */
  function Other(qi: nat, qj: nat, v: nat): nat {
    if v == qi then qj else qi
  }

  /** Column `d` of row `v` has support in the constraint of its row pair when a column of the other row is accepted with it. */
  lemma PairSupport(vars: seq<Variable>, n: nat, qi: nat, qj: nat, v: nat, d: int, e: int)
    requires qi < qj < n && n <= |vars| && (v == qi || v == qj)
    requires 1 <= d <= n && 1 <= e <= n && QueensCheck(v, Other(qi, qj, v), d, e)
    requires InCurDomain(vars[v], d) && InCurDomain(vars[Other(qi, qj, v)], e)
    ensures HasSupport(vars, QueensConstraint(n, qi, qj), v, d)
  {
    var c := QueensConstraint(n, qi, qj);
    var t := if v == qi then [d, e] else [e, d];
    var i := if v == qi then 0 else 1;
    QueensTuplesMembers(n, qi, qj, t);
    assert TupleIsValid(vars, c, t);
    assert t in c.tuples && c.scope[i] == v && t[i] == d;
  }

  /** Conversely, a support of `d` holds a column of the other row's current domain accepted with `d`. */
  lemma SupportPartner(vars: seq<Variable>, n: nat, qi: nat, qj: nat, v: nat, d: int) returns (e: int)
    requires qi < qj < n && n <= |vars| && (v == qi || v == qj)
    requires HasSupport(vars, QueensConstraint(n, qi, qj), v, d)
    ensures InCurDomain(vars[Other(qi, qj, v)], e) && QueensCheck(v, Other(qi, qj, v), d, e)
  {
    var c := QueensConstraint(n, qi, qj);
    var t, i :| t in c.tuples && 0 <= i < |c.scope| && c.scope[i] == v && i < |t| && t[i] == d && TupleIsValid(vars, c, t);
    QueensTuplesMembers(n, qi, qj, t);
    e := t[1 - i];
    assert c.scope[1 - i] == Other(qi, qj, v);
  }

  /** Among the first four columns one is safe from a queen in another row. */
  lemma FreeColumn(v: nat, w: nat, d: int) returns (e: int)
    requires v != w
    ensures 1 <= e <= 4 && QueensCheck(v, w, d, e)
  {
    if QueensCheck(v, w, d, 1) {
      e := 1;
    } else if QueensCheck(v, w, d, 2) {
      e := 2;
    } else if QueensCheck(v, w, d, 3) {
      e := 3;
    } else {
      e := 4;
    }
  }

  /** Every row unassigned with all its columns live. */
  ghost predicate FreshBoard(vars: seq<Variable>, n: nat) {
    |vars| == n && forall v :: 0 <= v < n ==> vars[v] == Fresh(CspGrids.Values(n))
  }

  /** On four or more columns the fresh board is arc consistent. */
  lemma FreshGac(vars: seq<Variable>, n: nat)
    requires n >= 4 && FreshBoard(vars, n)
    ensures Gac(vars, AllCons(n, 0))
  {
    var cons := AllCons(n, 0);
    CspGrids.OneToMembers(CspGrids.Values(n), n);
    forall k, v | 0 <= k < |cons| && v in cons[k].scope ensures ArcConsistent(vars, cons[k], v) {
      var c := cons[k];
      assert c in cons;
      AllConsMembers(n, 0, c);
      forall d | InCurDomain(vars[v], d) && d in vars[v].live ensures HasSupport(vars, c, v, d) {
        var e := FreeColumn(v, Other(c.scope[0], c.scope[1], v), d);
        PairSupport(vars, n, c.scope[0], c.scope[1], v, d, e);
      }
    }
  }

  /* ---------------- revising a row against another, on explicit columns ---------------- */

  /** Some column of `sb` is accepted with column `d`. */
  predicate SomeSupport(a: nat, b: nat, d: int, sb: seq<int>) {
    sb != [] && (QueensCheck(a, b, d, sb[0]) || SomeSupport(a, b, d, sb[1..]))
  }

  lemma {:induction false} SomeSupportMeans(a: nat, b: nat, d: int, sb: seq<int>)
    ensures SomeSupport(a, b, d, sb) <==> exists e :: e in sb && QueensCheck(a, b, d, e)
  {
    if sb != [] {
      SomeSupportMeans(a, b, d, sb[1..]);
      assert sb == [sb[0]] + sb[1..];
    }
  }

  /** The columns of `sa` that some column of `sb` accepts: row `a` revised against row `b`. */
  function Supported(a: nat, b: nat, sa: seq<int>, sb: seq<int>): seq<int> {
    if sa == [] then []
    else (if SomeSupport(a, b, sa[0], sb) then [sa[0]] else []) + Supported(a, b, sa[1..], sb)
  }

  lemma {:induction false} SupportedMembers(a: nat, b: nat, sa: seq<int>, sb: seq<int>, d: int)
    ensures d in Supported(a, b, sa, sb) <==> d in sa && SomeSupport(a, b, d, sb)
  {
    if sa != [] {
      SupportedMembers(a, b, sa[1..], sb, d);
      assert sa == [sa[0]] + sa[1..];
    }
  }

  /** Revising `sa` for row `a` against `sb` for row `b` keeps `out` (stated for `sa` alone). */
  ghost predicate RevisesTo(a: nat, b: nat, sa: seq<int>, sb: seq<int>, out: seq<int>) {
    forall t | t == sa :: Supported(a, b, t, sb) == out
  }

  /** In an arc-consistent state, row `a` keeps only columns that some current column of row `b` accepts. */
  lemma Narrow(vars: seq<Variable>, n: nat, a: nat, b: nat, sa: seq<int>, sb: seq<int>)
    requires Gac(vars, AllCons(n, 0)) && a != b && a < n && b < n && n <= |vars|
    requires !IsAssigned(vars[a])
    requires forall d :: InCurDomain(vars[a], d) ==> d in sa
    requires forall e :: InCurDomain(vars[b], e) ==> e in sb
    ensures forall d :: InCurDomain(vars[a], d) ==> d in Supported(a, b, sa, sb)
  {
    var cons := AllCons(n, 0);
    var qi, qj := if a < b then a else b, if a < b then b else a;
    var c := QueensConstraint(n, qi, qj);
    AllConsMembers(n, 0, c);
    var k :| 0 <= k < |cons| && cons[k] == c;
    assert a in cons[k].scope;
    forall d | InCurDomain(vars[a], d) ensures d in Supported(a, b, sa, sb) {
      assert ArcConsistent(vars, cons[k], a);
      var e := SupportPartner(vars, n, qi, qj, a, d);
      SomeSupportMeans(a, b, d, sb);
      SupportedMembers(a, b, sa, sb, d);
    }
  }

  /** `Narrow` with the revised columns given as `out`. */
  lemma NarrowTo(vars: seq<Variable>, n: nat, a: nat, b: nat, sa: seq<int>, sb: seq<int>, out: seq<int>)
    requires Gac(vars, AllCons(n, 0)) && a != b && a < n && b < n && n <= |vars|
    requires !IsAssigned(vars[a]) && RevisesTo(a, b, sa, sb, out)
    requires forall d :: InCurDomain(vars[a], d) ==> d in sa
    requires forall e :: InCurDomain(vars[b], e) ==> e in sb
    ensures forall d :: InCurDomain(vars[a], d) ==> d in out
  {
    Narrow(vars, n, a, b, sa, sb);
    assert Supported(a, b, sa, sb) == out;
  }

  /** Every column of `sa` is accepted with some column of `sb`: revising row `a` against row `b` keeps `sa`. */
  predicate AllSupported(a: nat, b: nat, sa: seq<int>, sb: seq<int>) {
    sa == [] || (SomeSupport(a, b, sa[0], sb) && AllSupported(a, b, sa[1..], sb))
  }

  lemma {:induction false} AllSupportedMeans(a: nat, b: nat, sa: seq<int>, sb: seq<int>)
    ensures AllSupported(a, b, sa, sb) <==> Supported(a, b, sa, sb) == sa
  {
    if sa != [] {
      AllSupportedMeans(a, b, sa[1..], sb);
      assert sa == [sa[0]] + sa[1..];
      if !SomeSupport(a, b, sa[0], sb) {
        assert |Supported(a, b, sa[1..], sb)| <= |sa[1..]| by {
          SupportedShorter(a, b, sa[1..], sb);
        }
      }
    }
  }

  lemma {:induction false} SupportedShorter(a: nat, b: nat, sa: seq<int>, sb: seq<int>)
    ensures |Supported(a, b, sa, sb)| <= |sa|
  {
    if sa != [] {
      SupportedShorter(a, b, sa[1..], sb);
    }
  }

  /** Every pair of rows from `(a, b)` on, in the constraints' order, keeps its columns when revised both ways. */
  predicate PairsRevised(table: seq<seq<int>>, a: nat, b: nat)
    decreases |table| - a, |table| - b
  {
    if a >= |table| then true
    else if b >= |table| then PairsRevised(table, a + 1, a + 2)
    else
      && AllSupported(a, b, table[a], table[b])
      && AllSupported(b, a, table[b], table[a])
      && PairsRevised(table, a, b + 1)
  }

  lemma {:induction false} PairsRevisedMeans(table: seq<seq<int>>, a: nat, b: nat, p: nat, q: nat)
    requires PairsRevised(table, a, b) && p < q < |table| && (a < p || (a == p && b <= q))
    ensures AllSupported(p, q, table[p], table[q]) && AllSupported(q, p, table[q], table[p])
    decreases |table| - a, |table| - b
  {
    if b >= |table| {
      PairsRevisedMeans(table, a + 1, a + 2, p, q);
    } else if a != p || b != q {
      PairsRevisedMeans(table, a, b + 1, p, q);
    }
  }

  /** A state whose current domains are the rows of a table that every revision keeps is arc consistent. */
  lemma TableGac(vars: seq<Variable>, n: nat, table: seq<seq<int>>)
    requires n <= |vars| && |table| == n && PairsRevised(table, 0, 1)
    requires forall v :: 0 <= v < n ==> vars[v].dom == CspGrids.Values(n)
    requires forall v, d :: 0 <= v < n ==> (InCurDomain(vars[v], d) <==> d in table[v])
    ensures Gac(vars, AllCons(n, 0))
  {
    var cons := AllCons(n, 0);
    CspGrids.OneToMembers(CspGrids.Values(n), n);
    forall k, v | 0 <= k < |cons| && v in cons[k].scope ensures ArcConsistent(vars, cons[k], v) {
      var c := cons[k];
      assert c in cons;
      AllConsMembers(n, 0, c);
      var w := Other(c.scope[0], c.scope[1], v);
      PairsRevisedMeans(table, 0, 1, c.scope[0], c.scope[1]);
      forall d | InCurDomain(vars[v], d) && d in vars[v].live ensures HasSupport(vars, c, v, d) {
        AllSupportedMeans(v, w, table[v], table[w]);
        SupportedMembers(v, w, table[v], table[w], d);
        SomeSupportMeans(v, w, d, table[w]);
        var e :| e in table[w] && QueensCheck(v, w, d, e);
        PairSupport(vars, n, c.scope[0], c.scope[1], v, d, e);
      }
    }
  }

  /* ---------------- `test_DWO_FC`: six queens, Q1 := 2, then Q2 := 5 ---------------- */

  /** The columns 1..6. */
  lemma SixColumns()
    ensures CspGrids.Values(6) == [1, 2, 3, 4, 5, 6]
  {
  }

  /** Every row of the table lists at least one column, and only columns 1..n. */
  predicate WellFormedTable(table: seq<seq<int>>, n: nat) {
    table == [] || (table[0] != [] && InColumns(table[0], n) && WellFormedTable(table[1..], n))
  }

  predicate InColumns(row: seq<int>, n: nat) {
    row == [] || (1 <= row[0] <= n && InColumns(row[1..], n))
  }

  lemma {:induction false} InColumnsMeans(row: seq<int>, n: nat, d: int)
    requires InColumns(row, n) && d in row
    ensures 1 <= d <= n
  {
    if row[0] != d {
      assert row == [row[0]] + row[1..];
      InColumnsMeans(row[1..], n, d);
    }
  }

  lemma {:induction false} WellFormedTableMeans(table: seq<seq<int>>, n: nat, v: nat)
    requires WellFormedTable(table, n) && v < |table|
    ensures table[v] != [] && forall d :: d in table[v] ==> 1 <= d <= n
  {
    if v == 0 {
      forall d | d in table[0] ensures 1 <= d <= n {
        InColumnsMeans(table[0], n, d);
      }
    } else {
      WellFormedTableMeans(table[1..], n, v - 1);
    }
  }

  /** A table of columns, one row per queen, that every revision keeps (stated for `table` alone). */
  ghost predicate RevisedTable(table: seq<seq<int>>) {
    forall t | t == table :: PairsRevised(t, 0, 1)
  }

  /** A table with `n` rows, none empty, of columns 1..n (stated for `table` alone). */
  ghost predicate TableShape(table: seq<seq<int>>, n: nat) {
    forall t | t == table :: |t| == n && WellFormedTable(t, n)
  }

  /** The state with the columns of `table` live in each unassigned row. */
  ghost function TableState(a: seq<Variable>, table: seq<seq<int>>): (s: seq<Variable>)
    requires |table| == |a|
    ensures |s| == |a|
  {
    seq(|a|, v requires 0 <= v < |a| => if IsAssigned(a[v]) then a[v] else a[v].(live := set d | d in table[v]))
  }

  /**
   * Narrowing every unassigned row of a board to the row of a table that
   * every revision keeps, where the table names the assigned rows'
   * columns, gives an arc-consistent state below the board.
   */
  lemma TableStateGac(a: seq<Variable>, n: nat, table: seq<seq<int>>)
    requires RevisedTable(table) && TableShape(table, n) && |a| == n
    requires forall v :: 0 <= v < n ==> a[v].dom == CspGrids.Values(n)
    requires forall v :: 0 <= v < n && IsAssigned(a[v]) ==> table[v] == [a[v].value.value]
    requires forall v, d :: 0 <= v < n && !IsAssigned(a[v]) && d in a[v].dom ==> d in a[v].live
    ensures Gac(TableState(a, table), AllCons(n, 0))
    ensures SameAssignment(TableState(a, table), a) && Shrinks(a, TableState(a, table))
  {
    assert |table| == n && PairsRevised(table, 0, 1) && WellFormedTable(table, n);
    var s := TableState(a, table);
    CspGrids.OneToMembers(CspGrids.Values(n), n);
    forall v, d | 0 <= v < n ensures InCurDomain(s[v], d) <==> d in table[v] {
      WellFormedTableMeans(table, n, v);
    }
    TableGac(s, n, table);
    forall v, d | 0 <= v < n && d in s[v].live ensures d in a[v].live {
      WellFormedTableMeans(table, n, v);
    }
  }

  /**
   * A propagator that removes nothing an arc-consistent state below the
   * board still holds leaves every row of such a table live, so no
   * variable without a value runs out of columns.
   */
  lemma SoundKeepsTable(cons: seq<Constraint>, a: seq<Variable>, b: seq<Variable>, n: nat, table: seq<seq<int>>)
    requires RevisedTable(table) && TableShape(table, n) && |a| == n && IsQueensCons(cons, n)
    requires forall v :: 0 <= v < n ==> a[v].dom == CspGrids.Values(n)
    requires forall v :: 0 <= v < n && IsAssigned(a[v]) ==> table[v] == [a[v].value.value]
    requires forall v, d :: 0 <= v < n && !IsAssigned(a[v]) && d in a[v].dom ==> d in a[v].live
    requires Sound(cons, a, b) && SameAssignment(a, b)
    ensures forall v, d :: 0 <= v < n && !IsAssigned(a[v]) && d in table[v] ==> d in b[v].live
    ensures forall v :: 0 <= v < n ==> CurDomainSize(b[v]) > 0
  {
    var s := TableState(a, table);
    TableStateGac(a, n, table);
    QueensConsOpen(cons, n);
    assert Shrinks(b, s);
    assert forall v, d :: 0 <= v < n && !IsAssigned(a[v]) && d in table[v] ==> d in s[v].live;
    assert |table| == n && WellFormedTable(table, n);
    forall v | 0 <= v < n ensures CurDomainSize(b[v]) > 0 {
      WellFormedTableMeans(table, n, v);
      KeptRow(a, b, n, table[v], v);
    }
  }

  /** A row that keeps a live column, or has a value, is not wiped out. */
  lemma KeptRow(a: seq<Variable>, b: seq<Variable>, n: nat, row: seq<int>, v: nat)
    requires v < n && SameAssignment(a, b) && v < |a| && a[v].dom == CspGrids.Values(n)
    requires row != [] && forall d :: d in row ==> 1 <= d <= n
    requires !IsAssigned(a[v]) ==> row[0] in b[v].live
    ensures CurDomainSize(b[v]) > 0
  {
    CspGrids.OneToMembers(CspGrids.Values(n), n);
    DomainWipedOut(b[v]);
    assert row[0] in row && b[v].dom == a[v].dom && b[v].value == a[v].value;
    assert 1 <= row[0] <= n;
    assert row[0] in CspGrids.Values(n);
    assert row[0] in b[v].dom;
    assert !IsAssigned(b[v]) ==> row[0] in b[v].live;
  }

  /** An arc-consistent choice of columns after Q1 := 2 that keeps column 5 of Q2. */
  function FirstTable(): seq<seq<int>> {
    [[2], [4, 5, 6], [1, 3, 6], [1, 3, 4, 6], [1, 3, 4, 5], [1, 3, 4, 5, 6]]
  }

  lemma FirstTableRevised()
    ensures RevisedTable(FirstTable())
  {
    assert PairsRevised(FirstTable(), 0, 1);
  }

  lemma FirstTableShape()
    ensures TableShape(FirstTable(), 6)
  {
    assert WellFormedTable(FirstTable(), 6);
  }

  /**
   * After Q1 := 2 a propagator that removes nothing an arc-consistent
   * state still holds keeps column 5 of Q2, and every row keeps a column.
   */
  lemma FirstStepKeeps(cons: seq<Constraint>, v0: seq<Variable>, a0: seq<Variable>, v1: seq<Variable>)
    requires FreshBoard(v0, 6) && IsQueensCons(cons, 6) && a0 == WithValue(v0, 0, 2)
    requires Sound(cons, a0, v1) && SameAssignment(a0, v1)
    ensures 5 in v1[1].live && 1 in v1[2].live
    ensures forall v :: 0 <= v < 6 ==> CurDomainSize(v1[v]) > 0
  {
    FirstTableRevised();
    FirstTableShape();
    FirstBoard(v0, a0);
    SoundKeepsTable(cons, a0, v1, 6, FirstTable());
    assert 5 in FirstTable()[1] && 1 in FirstTable()[2];
  }

  /** The board after Q1 := 2: only Q1 has a value, and every other row has all its columns live. */
  lemma FirstBoard(v0: seq<Variable>, a0: seq<Variable>)
    requires FreshBoard(v0, 6) && a0 == WithValue(v0, 0, 2)
    ensures |a0| == 6 && forall v :: 0 <= v < 6 ==> a0[v].dom == CspGrids.Values(6)
    ensures forall v :: 0 <= v < 6 ==> (IsAssigned(a0[v]) <==> v == 0)
    ensures forall v :: 0 <= v < 6 && IsAssigned(a0[v]) ==> FirstTable()[v] == [a0[v].value.value]
    ensures forall v, d :: 0 <= v < 6 && !IsAssigned(a0[v]) && d in a0[v].dom ==> d in a0[v].live
  {
    assert FirstTable()[0] == [2];
  }

  // Rows Q3..Q6 revised against Q1 in column 2 and then against Q2 in column 5.
  lemma QThreeAgainstQueens()
    ensures RevisesTo(2, 0, [1, 2, 3, 4, 5, 6], [2], [1, 3, 5, 6]) && RevisesTo(2, 1, [1, 3, 5, 6], [5], [1, 3])
  {
    assert Supported(2, 0, [1, 2, 3, 4, 5, 6], [2]) == [1, 3, 5, 6];
    assert Supported(2, 1, [1, 3, 5, 6], [5]) == [1, 3];
  }

  lemma QFourAgainstQueens()
    ensures RevisesTo(3, 0, [1, 2, 3, 4, 5, 6], [2], [1, 3, 4, 6]) && RevisesTo(3, 1, [1, 3, 4, 6], [5], [1, 4, 6])
  {
    assert Supported(3, 0, [1, 2, 3, 4, 5, 6], [2]) == [1, 3, 4, 6];
    assert Supported(3, 1, [1, 3, 4, 6], [5]) == [1, 4, 6];
  }

  lemma QFiveAgainstQueens()
    ensures RevisesTo(4, 0, [1, 2, 3, 4, 5, 6], [2], [1, 3, 4, 5]) && RevisesTo(4, 1, [1, 3, 4, 5], [5], [1, 3, 4])
  {
    assert Supported(4, 0, [1, 2, 3, 4, 5, 6], [2]) == [1, 3, 4, 5];
    assert Supported(4, 1, [1, 3, 4, 5], [5]) == [1, 3, 4];
  }

  lemma QSixAgainstQueens()
    ensures RevisesTo(5, 0, [1, 2, 3, 4, 5, 6], [2], [1, 3, 4, 5, 6]) && RevisesTo(5, 1, [1, 3, 4, 5, 6], [5], [3, 4, 6])
  {
    assert Supported(5, 0, [1, 2, 3, 4, 5, 6], [2]) == [1, 3, 4, 5, 6];
    assert Supported(5, 1, [1, 3, 4, 5, 6], [5]) == [3, 4, 6];
  }

  /** The free rows revised against each other until Q3 has no column left. */
  lemma FreeRowsRevisions()
    ensures RevisesTo(4, 2, [1, 3, 4], [1, 3], [4]) && RevisesTo(3, 4, [1, 4, 6], [4], [1, 6])
    ensures RevisesTo(5, 4, [3, 4, 6], [4], [6]) && RevisesTo(3, 5, [1, 6], [6], [1])
    ensures RevisesTo(2, 3, [1, 3], [1], [3]) && RevisesTo(2, 5, [3], [6], [])
  {
    assert Supported(4, 2, [1, 3, 4], [1, 3]) == [4] && Supported(3, 4, [1, 4, 6], [4]) == [1, 6];
    assert Supported(5, 4, [3, 4, 6], [4]) == [6] && Supported(3, 5, [1, 6], [6]) == [1];
    assert Supported(2, 3, [1, 3], [1]) == [3] && Supported(2, 5, [3], [6]) == [];
  }

  /**
   * After Q1 := 2 and Q2 := 5, revising the four free rows against the two
   * queens and then against each other leaves Q3 no column: every
   * arc-consistent state with these two queens has an empty row.
   */
  lemma SecondStepWipesOut(v2: seq<Variable>)
    requires |v2| == 6 && Gac(v2, AllCons(6, 0))
    requires forall v :: 0 <= v < 6 ==> v2[v].dom == CspGrids.Values(6)
    requires v2[0].value == Some(2) && v2[1].value == Some(5)
    requires forall v :: 2 <= v < 6 ==> v2[v].value == None
    ensures forall d :: !InCurDomain(v2[2], d)
  {
    AgainstQueens(v2);
    FreeRowsRevisions();
    NarrowTo(v2, 6, 4, 2, [1, 3, 4], [1, 3], [4]);
    NarrowTo(v2, 6, 3, 4, [1, 4, 6], [4], [1, 6]);
    NarrowTo(v2, 6, 5, 4, [3, 4, 6], [4], [6]);
    NarrowTo(v2, 6, 3, 5, [1, 6], [6], [1]);
    NarrowTo(v2, 6, 2, 3, [1, 3], [1], [3]);
    NarrowTo(v2, 6, 2, 5, [3], [6], []);
  }

  /** The columns of the four free rows that neither Q1 in column 2 nor Q2 in column 5 attacks. */
  lemma AgainstQueens(v2: seq<Variable>)
    requires |v2| == 6 && Gac(v2, AllCons(6, 0))
    requires forall v :: 0 <= v < 6 ==> v2[v].dom == CspGrids.Values(6)
    requires v2[0].value == Some(2) && v2[1].value == Some(5)
    requires forall v :: 2 <= v < 6 ==> v2[v].value == None
    ensures forall d :: InCurDomain(v2[2], d) ==> d in [1, 3]
    ensures forall d :: InCurDomain(v2[3], d) ==> d in [1, 4, 6]
    ensures forall d :: InCurDomain(v2[4], d) ==> d in [1, 3, 4]
    ensures forall d :: InCurDomain(v2[5], d) ==> d in [3, 4, 6]
  {
    QThreeAgainstQueens();
    QFourAgainstQueens();
    QFiveAgainstQueens();
    QSixAgainstQueens();
    AgainstQueensRow(v2, 2, [1, 3, 5, 6], [1, 3]);
    AgainstQueensRow(v2, 3, [1, 3, 4, 6], [1, 4, 6]);
    AgainstQueensRow(v2, 4, [1, 3, 4, 5], [1, 3, 4]);
    AgainstQueensRow(v2, 5, [1, 3, 4, 5, 6], [3, 4, 6]);
  }

  /** Row `v` revised against Q1 keeps `s0`, and then against Q2 keeps `s1`. */
  lemma AgainstQueensRow(v2: seq<Variable>, v: nat, s0: seq<int>, s1: seq<int>)
    requires |v2| == 6 && Gac(v2, AllCons(6, 0)) && 2 <= v < 6
    requires forall v :: 0 <= v < 6 ==> v2[v].dom == CspGrids.Values(6)
    requires v2[0].value == Some(2) && v2[1].value == Some(5) && v2[v].value == None
    requires RevisesTo(v, 0, [1, 2, 3, 4, 5, 6], [2], s0) && RevisesTo(v, 1, s0, [5], s1)
    ensures forall d :: InCurDomain(v2[v], d) ==> d in s1
  {
    SixColumns();
    NarrowTo(v2, 6, v, 0, [1, 2, 3, 4, 5, 6], [2], s0);
    NarrowTo(v2, 6, v, 1, s0, [5], s1);
  }

  /**
   * A propagator that leaves Q3 of this board without a column cannot both
   * reach arc consistency and report that no row was emptied.
   */
  lemma SecondStepFails(cons: seq<Constraint>, a1: seq<Variable>, v2: seq<Variable>)
    requires IsQueensCons(cons, 6) && |a1| == 6 && forall v :: 0 <= v < 6 ==> a1[v].dom == CspGrids.Values(6)
    requires a1[0].value == Some(2) && a1[1].value == Some(5)
    requires forall v :: 2 <= v < 6 ==> a1[v].value == None
    requires 1 in a1[2].live && SameAssignment(a1, v2)
    ensures Gac(v2, cons) ==> !NoneEmptied(a1, v2)
  {
    QueensConsOpen(cons, 6);
    if Gac(v2, cons) {
      SecondStepWipesOut(v2);
      CspGrids.OneToMembers(CspGrids.Values(6), 6);
      assert NoneLive(v2[2]) by {
        forall d | d in v2[2].dom ensures d !in v2[2].live {
          assert !InCurDomain(v2[2], d);
        }
      }
      DomainWipedOut(v2[2]);
      assert 1 in v2[2].dom && v2[2].live != a1[2].live && CurDomainSize(v2[2]) == 0;
    }
  }

  /* ---------------- forward checking on the board ---------------- */

  /**
   * Forward checking only removes a column that a constraint with one
   * free row rejects: it keeps every live column of a free row that each
   * queen already placed accepts.
   */
  lemma ForwardCheckKeeps(a: seq<Variable>, b: seq<Variable>, n: nat, ks: seq<nat>, pruned: seq<(nat, int)>, v: nat, e: int)
    requires |a| == n && PrunedExactly(a, b, pruned)
    requires forall w :: 0 <= w < n ==> a[w].dom == CspGrids.Values(n)
    requires forall w :: 0 <= w < n && IsAssigned(a[w]) ==> a[w].value.value in a[w].dom
    requires forall p :: p in pruned ==> LoneUnsupported(a, AllCons(n, 0), ks, p)
    requires v < n && !IsAssigned(a[v]) && e in a[v].live && e in a[v].dom
    requires forall w :: 0 <= w < n && IsAssigned(a[w]) ==> QueensCheck(v, w, e, a[w].value.value)
    ensures e in b[v].live
  {
    if e !in b[v].live {
      var cons := AllCons(n, 0);
      assert (v, e) in pruned;
      var k :| k in ks && k < |cons| && NUnassigned(a, cons[k]) == 1 && v in cons[k].scope && v < |a|
               && !IsAssigned(a[v]) && !HasSupport(WithValue(a, v, e), cons[k], v, e);
      var c := cons[k];
      assert c in cons;
      AllConsMembers(n, 0, c);
      var w := Other(c.scope[0], c.scope[1], v);
      OthersAssigned(a, c, v);
      assert IsAssigned(a[w]);
      CspGrids.OneToMembers(CspGrids.Values(n), n);
      PairSupport(WithValue(a, v, e), n, c.scope[0], c.scope[1], v, e, a[w].value.value);
      assert false;
    }
  }

  /** After Q1 := 2, forward checking leaves Q2 column 5, Q3..Q5 column 1 and Q6 column 3. */
  lemma FirstCheckKeeps(cons: seq<Constraint>, v0: seq<Variable>, a0: seq<Variable>, v1: seq<Variable>, ks: seq<nat>, pruned: seq<(nat, int)>)
    requires IsQueensCons(cons, 6) && FreshBoard(v0, 6) && a0 == WithValue(v0, 0, 2)
    requires PrunedExactly(a0, v1, pruned) && SameAssignment(a0, v1)
    requires forall p :: p in pruned ==> LoneUnsupported(a0, cons, ks, p)
    ensures 5 in v1[1].live && 1 in v1[2].live && 1 in v1[3].live && 1 in v1[4].live && 3 in v1[5].live
    ensures forall v :: 0 <= v < 6 ==> CurDomainSize(v1[v]) > 0
  {
    QueensConsOpen(cons, 6);
    FirstCheckRow(v0, a0, v1, ks, pruned, 1, 5);
    FirstCheckRow(v0, a0, v1, ks, pruned, 2, 1);
    FirstCheckRow(v0, a0, v1, ks, pruned, 3, 1);
    FirstCheckRow(v0, a0, v1, ks, pruned, 4, 1);
    FirstCheckRow(v0, a0, v1, ks, pruned, 5, 3);
    FirstRowsKept(v0, a0, v1);
  }

  /** One row of `FirstCheckKeeps`: a column that Q1 in column 2 accepts stays. */
  lemma FirstCheckRow(v0: seq<Variable>, a0: seq<Variable>, v1: seq<Variable>, ks: seq<nat>, pruned: seq<(nat, int)>, v: nat, e: int)
    requires FreshBoard(v0, 6) && a0 == WithValue(v0, 0, 2)
    requires PrunedExactly(a0, v1, pruned)
    requires forall p :: p in pruned ==> LoneUnsupported(a0, AllCons(6, 0), ks, p)
    requires 1 <= v < 6 && 1 <= e <= 6 && QueensCheck(v, 0, e, 2)
    ensures e in v1[v].live
  {
    FirstBoard(v0, a0);
    CspGrids.OneToMembers(CspGrids.Values(6), 6);
    ForwardCheckKeeps(a0, v1, 6, ks, pruned, v, e);
  }

  /** After Q2 := 5 as well, forward checking still leaves Q3..Q5 column 1 and Q6 column 3. */
  lemma SecondCheckKeeps(cons: seq<Constraint>, a1: seq<Variable>, v2: seq<Variable>, ks: seq<nat>, pruned: seq<(nat, int)>)
    requires IsQueensCons(cons, 6) && |a1| == 6 && forall v :: 0 <= v < 6 ==> a1[v].dom == CspGrids.Values(6)
    requires a1[0].value == Some(2) && a1[1].value == Some(5)
    requires forall v :: 2 <= v < 6 ==> a1[v].value == None
    requires 1 in a1[2].live && 1 in a1[3].live && 1 in a1[4].live && 3 in a1[5].live
    requires PrunedExactly(a1, v2, pruned) && SameAssignment(a1, v2)
    requires forall p :: p in pruned ==> LoneUnsupported(a1, cons, ks, p)
    ensures forall v :: 0 <= v < 6 ==> CurDomainSize(v2[v]) > 0
  {
    QueensConsOpen(cons, 6);
    SecondCheckRow(a1, v2, ks, pruned, 2, 1);
    SecondCheckRow(a1, v2, ks, pruned, 3, 1);
    SecondCheckRow(a1, v2, ks, pruned, 4, 1);
    SecondCheckRow(a1, v2, ks, pruned, 5, 3);
    SecondRowsKept(a1, v2);
  }

  /** One row of `SecondCheckKeeps`: a live column that Q1 in column 2 and Q2 in column 5 accept stays. */
  lemma SecondCheckRow(a1: seq<Variable>, v2: seq<Variable>, ks: seq<nat>, pruned: seq<(nat, int)>, v: nat, e: int)
    requires |a1| == 6 && forall v :: 0 <= v < 6 ==> a1[v].dom == CspGrids.Values(6)
    requires a1[0].value == Some(2) && a1[1].value == Some(5)
    requires forall v :: 2 <= v < 6 ==> a1[v].value == None
    requires PrunedExactly(a1, v2, pruned)
    requires forall p :: p in pruned ==> LoneUnsupported(a1, AllCons(6, 0), ks, p)
    requires 2 <= v < 6 && 1 <= e <= 6 && e in a1[v].live && QueensCheck(v, 0, e, 2) && QueensCheck(v, 1, e, 5)
    ensures e in v2[v].live
  {
    CspGrids.OneToMembers(CspGrids.Values(6), 6);
    ForwardCheckKeeps(a1, v2, 6, ks, pruned, v, e);
  }

  /** A row that holds a column of its domain, its queen's or a live one, is not empty. */
  lemma RowKept(a: seq<Variable>, b: seq<Variable>, v: nat, d: int)
    requires SameAssignment(a, b) && v < |a| && d in a[v].dom && (IsAssigned(a[v]) || d in b[v].live)
    ensures CurDomainSize(b[v]) > 0
  {
    assert b[v].dom == a[v].dom && b[v].value == a[v].value;
    DomainWipedOut(b[v]);
  }

  /** With the columns that the first forward check keeps, no row is empty. */
  lemma FirstRowsKept(v0: seq<Variable>, a0: seq<Variable>, v1: seq<Variable>)
    requires FreshBoard(v0, 6) && a0 == WithValue(v0, 0, 2) && SameAssignment(a0, v1)
    requires 5 in v1[1].live && 1 in v1[2].live && 1 in v1[3].live && 1 in v1[4].live && 3 in v1[5].live
    ensures forall v :: 0 <= v < 6 ==> CurDomainSize(v1[v]) > 0
  {
    FirstBoard(v0, a0);
    CspGrids.OneToMembers(CspGrids.Values(6), 6);
    RowKept(a0, v1, 0, 2);
    RowKept(a0, v1, 1, 5);
    RowKept(a0, v1, 2, 1);
    RowKept(a0, v1, 3, 1);
    RowKept(a0, v1, 4, 1);
    RowKept(a0, v1, 5, 3);
  }

  /** With the columns that the second forward check keeps, no row is empty. */
  lemma SecondRowsKept(a1: seq<Variable>, v2: seq<Variable>)
    requires |a1| == 6 && forall v :: 0 <= v < 6 ==> a1[v].dom == CspGrids.Values(6)
    requires a1[0].value == Some(2) && a1[1].value == Some(5) && SameAssignment(a1, v2)
    requires 1 in v2[2].live && 1 in v2[3].live && 1 in v2[4].live && 3 in v2[5].live
    ensures forall v :: 0 <= v < 6 ==> CurDomainSize(v2[v]) > 0
  {
    CspGrids.OneToMembers(CspGrids.Values(6), 6);
    RowKept(a1, v2, 0, 2);
    RowKept(a1, v2, 1, 5);
    RowKept(a1, v2, 2, 1);
    RowKept(a1, v2, 3, 1);
    RowKept(a1, v2, 4, 1);
    RowKept(a1, v2, 5, 3);
  }

  /* ---------------- test_DWO_FC ---------------- */

  /** `cons` is the constraint list of `nQueens(n)` (stated for `n` alone). */
  ghost predicate IsQueensCons(cons: seq<Constraint>, n: nat) {
    forall m | m == n :: cons == AllCons(m, 0)
  }

  lemma QueensConsOpen(cons: seq<Constraint>, n: nat)
    requires IsQueensCons(cons, n)
    ensures cons == AllCons(n, 0)
  {
  }

  /** `FreshGac` for the six-queens constraint list. */
  lemma FreshQueensGac(cons: seq<Constraint>, vars: seq<Variable>)
    requires IsQueensCons(cons, 6) && FreshBoard(vars, 6)
    ensures Gac(vars, cons)
  {
    QueensConsOpen(cons, 6);
    FreshGac(vars, 6);
  }

  /** The board once Q1 holds column 2: the other rows free, every domain the columns 1..6. */
  ghost predicate FirstQueenPlaced(v: seq<Variable>) {
    && |v| == 6
    && (forall r :: 0 <= r < 6 ==> v[r].dom == CspGrids.Values(6))
    && v[0].value == Some(2)
    && (forall r :: 1 <= r < 6 ==> v[r].value == None)
  }

  /**
   * Lines 47-51 of the test: six queens, Q1 := 2, then `prop_FI`, which succeeds and reaches
   * arc consistency. The call is to the corrected revision (`FullInference.PropFI`).
   */
  method FirstQueenFI(queens: Csp) returns (ok: bool)
    requires queens.Valid() && FreshBoard(queens.vars, 6) && IsQueensCons(queens.cons, 6)
    modifies queens
    ensures queens.Valid() && FirstQueenPlaced(queens.vars)
    ensures ok && Gac(queens.vars, queens.cons) && 5 in queens.vars[1].live && 1 in queens.vars[2].live
  {
    ghost var v0 := queens.vars;
    CspGrids.OneToMembers(CspGrids.Values(6), 6);
    FreshQueensGac(queens.cons, v0);
    queens.Assign(0, 2);
    ghost var a0 := queens.vars;
    assert a0 == WithValue(v0, 0, 2);
    AssignmentKeepsSettled(v0, queens.cons, 0, 2);
    var pruned;
    ok, pruned := PropFI(queens, Some(0));
    FirstStepKeeps(queens.cons, v0, a0, queens.vars);
    FirstBoard(v0, a0);
  }

  /**
   * Lines 52-53 of the test: Q2 := 5, then `prop_FI`, which finds Q3 without a column and
   * reports a dead end. The call is to the corrected revision (`FullInference.PropFI`).
   */
  method SecondQueenFI(queens: Csp) returns (ok: bool)
    requires queens.Valid() && FirstQueenPlaced(queens.vars) && IsQueensCons(queens.cons, 6)
    requires Gac(queens.vars, queens.cons) && 5 in queens.vars[1].live && 1 in queens.vars[2].live
    modifies queens
    ensures !ok
  {
    ghost var v1 := queens.vars;
    CspGrids.OneToMembers(CspGrids.Values(6), 6);
    queens.Assign(1, 5);
    ghost var a1 := queens.vars;
    AssignmentKeepsSettled(v1, queens.cons, 1, 5);
    var pruned;
    ok, pruned := PropFI(queens, Some(1));
    SecondStepFails(queens.cons, a1, queens.vars);
  }

  /**
   * The test's call sequence (`test_DWO_FC`, which calls `prop_FI`), run with the
   * corrected revision: the first call succeeds, the second reports a dead end, so
   * the assertion on line 54 fails.
   */
  method DwoTestAsWritten() returns (ok1: bool, ok2: bool)
    ensures ok1 && !ok2
  {
    var queens := NQueens(6);
    assert IsQueensCons(queens.cons, 6);
    ok1 := FirstQueenFI(queens);
    ok2 := SecondQueenFI(queens);
  }

  /** Line 47-51 with `prop_FC`: Q1 := 2 and forward checking succeed and leave the columns one solution needs. */
  method FirstQueenFC(queens: Csp) returns (ok: bool)
    requires queens.Valid() && FreshBoard(queens.vars, 6) && IsQueensCons(queens.cons, 6)
    modifies queens
    ensures queens.Valid() && FirstQueenPlaced(queens.vars)
    ensures ok && 5 in queens.vars[1].live && 1 in queens.vars[2].live && 1 in queens.vars[3].live
    ensures 1 in queens.vars[4].live && 3 in queens.vars[5].live
  {
    ghost var v0 := queens.vars;
    CspGrids.OneToMembers(CspGrids.Values(6), 6);
    queens.Assign(0, 2);
    ghost var a0 := queens.vars;
    assert a0 == WithValue(v0, 0, 2);
    var pruned;
    ok, pruned := PropFC(queens, Some(0));
    FirstCheckKeeps(queens.cons, v0, a0, queens.vars, Considered(queens.cons, Some(0)), pruned);
    FirstBoard(v0, a0);
  }

  /** Lines 52-54 with `prop_FC`: Q2 := 5 and forward checking succeed. */
  method SecondQueenFC(queens: Csp) returns (ok: bool)
    requires queens.Valid() && FirstQueenPlaced(queens.vars) && IsQueensCons(queens.cons, 6)
    requires 5 in queens.vars[1].live && 1 in queens.vars[2].live && 1 in queens.vars[3].live
    requires 1 in queens.vars[4].live && 3 in queens.vars[5].live
    modifies queens
    ensures ok
  {
    CspGrids.OneToMembers(CspGrids.Values(6), 6);
    queens.Assign(1, 5);
    ghost var a1 := queens.vars;
    var pruned;
    ok, pruned := PropFC(queens, Some(1));
    SecondCheckKeeps(queens.cons, a1, queens.vars, Considered(queens.cons, Some(1)), pruned);
  }

  /** The test with the propagator its name and messages refer to, `prop_FC`: both calls succeed. */
  method DwoTestForwardChecking() returns (ok1: bool, ok2: bool)
    ensures ok1 && ok2
  {
    var queens := NQueens(6);
    assert IsQueensCons(queens.cons, 6);
    ok1 := FirstQueenFC(queens);
    ok2 := SecondQueenFC(queens);
  }
}
