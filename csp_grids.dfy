/**
 * The FunPuzz encodings of csp/csp/puzzle_csp.py.  A puzzle is a list of
 * integer lists: the first holds the grid size, each later one a cage.
 * The grid's cell (r, c) is the variable numbered r * n + c, the order in
 * which the encodings add the board's variables to the problem.
 */
module CspGrids {
  import opened Wrappers
  import opened CspTuples
  import opened CageTuples
  import opened CspBase

  /** An encoding: the problem and the board of variable numbers, row by row. */
  datatype Encoding = Encoding(problem: Problem, board: seq<seq<nat>>)

  /**
   * The variable of cell (r, c) on an n-by-n board, r * n + c, counted
   * row by row so that the solver does not see the product.
   */
  function Cell(n: nat, r: nat, c: nat): nat {
    if r == 0 then c else n + Cell(n, r - 1, c)
  }

  lemma {:induction false} CellValue(n: nat, r: nat, c: nat)
    ensures Cell(n, r, c) == r * n + c
  {
    if r > 0 {
      CellValue(n, r - 1, c);
    }
  }

  lemma CellBound(n: nat, r: nat, c: nat)
    requires r < n && c < n
    ensures Cell(n, r, c) < n * n
  {
    CellValue(n, r, c);
    assert r * n + c < r * n + n == (r + 1) * n <= n * n;
  }

  /** Different cells are different variables. */
  lemma {:induction false} CellInjective(n: nat, r1: nat, c1: nat, r2: nat, c2: nat)
    requires c1 < n && c2 < n
    ensures Cell(n, r1, c1) == Cell(n, r2, c2) <==> r1 == r2 && c1 == c2
  {
    if r1 > 0 && r2 > 0 {
      CellInjective(n, r1 - 1, c1, r2 - 1, c2);
    }
  }

  /** The values 1..n in order. */
  predicate IsOneTo(domain: seq<int>, n: nat) {
    |domain| == n && forall i :: 0 <= i < n ==> domain[i] == i + 1
  }

  lemma OneToMembers(domain: seq<int>, n: nat)
    requires IsOneTo(domain, n)
    ensures Distinct(domain)
    ensures forall d :: d in domain <==> 1 <= d <= n
  {
    forall d | 1 <= d <= n ensures d in domain {
      assert domain[d - 1] == d;
    }
  }

  /** The board of an n-by-n grid: row r holds the variables of its cells in column order. */
  predicate IsBoard(board: seq<seq<nat>>, n: nat) {
    |board| == n && forall r :: 0 <= r < n ==> |board[r]| == n && forall c :: 0 <= c < n ==> board[r][c] == Cell(n, r, c)
  }

  /** The grid size the encodings read, `fpuzz_grid[0][0]`; `range` of a negative size is empty. */
  function GridSize(grid: seq<seq<int>>): nat
    requires grid != [] && grid[0] != []
  {
    if grid[0][0] > 0 then grid[0][0] else 0
  }

  /** The loop that fills `domain` with 1..size. */
  method GridDomain(size: int) returns (domain: seq<int>)
    ensures IsOneTo(domain, if size > 0 then size else 0)
  {
    domain := [];
    var i := 0;
    while i < size
      invariant 0 <= i && (size > 0 ==> i <= size) && (size <= 0 ==> i == 0)
      invariant IsOneTo(domain, i)
    {
      domain := domain + [i + 1];
      i := i + 1;
    }
  }

  /**
   * The nested loops that create one variable over `domain` per cell, row
   * by row, followed by the loop adding them to the problem in that order.
   */
  method GridVariables(domain: seq<int>) returns (doms: seq<seq<int>>, board: seq<seq<nat>>)
    ensures |doms| == |domain| * |domain| && forall v :: 0 <= v < |doms| ==> doms[v] == domain
    ensures IsBoard(board, |domain|)
  {
    var n := |domain|;
    doms, board := [], [];
    for r := 0 to n
      invariant |doms| == r * n && forall v :: 0 <= v < |doms| ==> doms[v] == domain
      invariant |board| == r && forall a :: 0 <= a < r ==> |board[a]| == n && forall c :: 0 <= c < n ==> board[a][c] == Cell(n, a, c)
    {
      var row: seq<nat> := [];
      for c := 0 to n
        invariant |doms| == r * n + c && forall v :: 0 <= v < |doms| ==> doms[v] == domain
        invariant |row| == c && forall b :: 0 <= b < c ==> row[b] == Cell(n, r, b)
      {
        row := row + [Cell(n, r, c)];
        doms := doms + [domain];
      }
      board := board + [row];
      assert r * n + n == (r + 1) * n;
    }
  }

  /** Exactly the ordered pairs of different domain values, each once. */
  ghost predicate NotEqualTable(tuples: seq<seq<int>>, domain: seq<int>) {
    && (forall t :: t in tuples <==> |t| == 2 && t[0] in domain && t[1] in domain && t[0] != t[1])
    && Distinct(tuples)
    && |tuples| == |domain| * (|domain| - 1)
  }

  /**
   * The loop over `itertools.product(domain, domain)` keeping the pairs
   * `x != y`: over a domain without repeats, each of the n(n-1) pairs once.
   */
  method NotEqualTuples(domain: seq<int>) returns (sat: seq<seq<int>>)
    ensures forall t :: t in sat <==> |t| == 2 && t[0] in domain && t[1] in domain && t[0] != t[1]
    ensures Distinct(domain) ==> NotEqualTable(sat, domain)
  {
    var n := |domain|;
    sat := [];
    for a := 0 to n
      invariant forall t :: t in sat <==> (|t| == 2 && t[0] in domain[..a] && t[1] in domain && t[0] != t[1])
      invariant Distinct(domain) ==> Distinct(sat) && |sat| == a * (n - 1)
    {
      var row := PairsWith(domain, a);
      if Distinct(domain) {
        forall i, j | 0 <= i < |sat| && 0 <= j < |row| ensures sat[i] != row[j] {
          assert sat[i] in sat && row[j] in row;
          assert domain[a] !in domain[..a] by {
            forall i | 0 <= i < a ensures domain[..a][i] != domain[a] {
              assert domain[i] != domain[a];
            }
          }
        }
        DistinctConcat(sat, row);
      }
      sat := sat + row;
      assert domain[..a + 1] == domain[..a] + [domain[a]];
      assert a * (n - 1) + (n - 1) == (a + 1) * (n - 1);
    }
    assert domain[..n] == domain;
  }

  /** One round of the product loop: the pairs `(domain[a], y)` with `y` different. */
  method PairsWith(domain: seq<int>, a: nat) returns (row: seq<seq<int>>)
    requires a < |domain|
    ensures forall t :: t in row <==> (|t| == 2 && t[0] == domain[a] && t[1] in domain && t[1] != t[0])
    ensures Distinct(domain) ==> Distinct(row) && |row| == |domain| - 1
  {
    var x := domain[a];
    row := [];
    for b := 0 to |domain|
      invariant forall t :: t in row <==> (|t| == 2 && t[0] == x && t[1] in domain[..b] && t[1] != t[0])
      invariant Distinct(domain) ==> Distinct(row) && |row| == b - (if a < b then 1 else 0)
    {
      var y := domain[b];
      if x != y {
        var pair := [x, y];
        if Distinct(domain) {
          assert y !in domain[..b] by {
            forall i | 0 <= i < b ensures domain[..b][i] != y {
              assert domain[i] != domain[b];
            }
          }
        }
        FreshPairAppend(row, pair);
        forall t | |t| == 2 && t[0] == x && t[1] == y ensures t == pair {
          assert t == [t[0], t[1]];
        }
        row := row + [pair];
      } else {
        assert Distinct(domain) ==> a == b;
      }
      assert domain[..b + 1] == domain[..b] + [y];
    }
    assert domain[..|domain|] == domain;
  }

  lemma FreshPairAppend(sat: seq<seq<int>>, pair: seq<int>)
    ensures Distinct(sat) && pair !in sat ==> Distinct(sat + [pair])
  {
    if Distinct(sat) && pair !in sat {
      forall i, j | 0 <= i < j < |sat + [pair]| ensures (sat + [pair])[i] != (sat + [pair])[j] {
        if j == |sat| {
          assert (sat + [pair])[i] == sat[i];
        }
      }
    }
  }

  /** Two cells of row r, in column order. */
  ghost predicate InRow(s: seq<nat>, n: nat, r: nat) {
    exists a, b :: 0 <= a < b < n && s == [Cell(n, r, a), Cell(n, r, b)]
  }

  /** Two cells of column c, in row order. */
  ghost predicate InColumn(s: seq<nat>, n: nat, c: nat) {
    exists a, b :: 0 <= a < b < n && s == [Cell(n, a, c), Cell(n, b, c)]
  }

  /** Some constraint of `cons` has scope `s`. */
  ghost predicate HasScope(cons: seq<Constraint>, s: seq<nat>) {
    exists q :: 0 <= q < |cons| && cons[q].scope == s
  }

  lemma HasScopeConcat(cons: seq<Constraint>, more: seq<Constraint>, s: seq<nat>)
    ensures HasScope(cons, s) || HasScope(more, s) ==> HasScope(cons + more, s)
  {
    if HasScope(cons, s) {
      var q :| 0 <= q < |cons| && cons[q].scope == s;
      assert (cons + more)[q] == cons[q];
    } else if HasScope(more, s) {
      var q :| 0 <= q < |more| && more[q].scope == s;
      assert (cons + more)[|cons| + q] == more[q];
    }
  }

  /** The pairs a < b < n with a below j: the j loop's count after j rounds. */
  ghost function PairsBefore(n: nat, j: nat): nat
    requires j <= n
  {
    if j == 0 then 0 else PairsBefore(n, j - 1) + (n - j)
  }

  lemma {:induction false} PairsBeforeClosed(n: nat, j: nat)
    requires j <= n
    ensures 2 * PairsBefore(n, j) == j * (2 * n - 1 - j)
  {
    if j > 0 {
      PairsBeforeClosed(n, j - 1);
      assert j * (2 * n - 1 - j) == (j - 1) * (2 * n - j) + 2 * (n - j);
    }
  }

  /**
   * The j/k loops for row i: one not-equal constraint per pair of its
   * cells, n(n-1)/2 of them.
   */
  method RowPairs(board: seq<seq<nat>>, n: nat, i: nat, domain: seq<int>) returns (cons: seq<Constraint>)
    requires IsBoard(board, n) && i < n && Distinct(domain)
    ensures 2 * |cons| == n * (n - 1)
    ensures forall q :: 0 <= q < |cons| ==> NotEqualTable(cons[q].tuples, domain) && InRow(cons[q].scope, n, i)
    ensures forall a, b :: 0 <= a < b < n ==> HasScope(cons, [Cell(n, i, a), Cell(n, i, b)])
  {
    cons := [];
    for j := 0 to n
      invariant |cons| == PairsBefore(n, j)
      invariant forall q :: 0 <= q < |cons| ==> NotEqualTable(cons[q].tuples, domain) && InRow(cons[q].scope, n, i)
      invariant forall a, b :: 0 <= a < j && a < b < n ==> HasScope(cons, [Cell(n, i, a), Cell(n, i, b)])
    {
      var more := RowPairsFrom(board, n, i, j, domain);
      forall a, b | 0 <= a < j + 1 && a < b < n ensures HasScope(cons + more, [Cell(n, i, a), Cell(n, i, b)]) {
        HasScopeConcat(cons, more, [Cell(n, i, a), Cell(n, i, b)]);
      }
      cons := cons + more;
    }
    PairsBeforeClosed(n, n);
  }

  /** The k loop for row i and column j: cell (i, j) against each later cell of the row. */
  method RowPairsFrom(board: seq<seq<nat>>, n: nat, i: nat, j: nat, domain: seq<int>) returns (cons: seq<Constraint>)
    requires IsBoard(board, n) && i < n && Distinct(domain) && j < n
    ensures |cons| == n - 1 - j
    ensures forall q :: 0 <= q < |cons| ==> NotEqualTable(cons[q].tuples, domain) && InRow(cons[q].scope, n, i)
    ensures forall b :: j < b < n ==> HasScope(cons, [Cell(n, i, j), Cell(n, i, b)])
  {
    cons := [];
    for k := j + 1 to n
      invariant RowRun(cons, n, i, j, k, domain)
    {
      var sat := NotEqualTuples(domain);
      var c := Constraint([board[i][j], board[i][k]], sat);
      RowRunStep(cons, c, n, i, j, k, domain);
      cons := cons + [c];
    }
  }

  /** The k loop's invariant: one constraint per later column below k. */
  ghost predicate RowRun(cons: seq<Constraint>, n: nat, i: nat, j: nat, k: nat, domain: seq<int>) {
    && |cons| == k - j - 1
    && (forall q :: 0 <= q < |cons| ==> NotEqualTable(cons[q].tuples, domain) && InRow(cons[q].scope, n, i))
    && (forall b :: j < b < k ==> HasScope(cons, [Cell(n, i, j), Cell(n, i, b)]))
  }

  lemma RowRunStep(cons: seq<Constraint>, c: Constraint, n: nat, i: nat, j: nat, k: nat, domain: seq<int>)
    requires j < k < n && RowRun(cons, n, i, j, k, domain)
    requires c.scope == [Cell(n, i, j), Cell(n, i, k)] && NotEqualTable(c.tuples, domain)
    ensures RowRun(cons + [c], n, i, j, k + 1, domain)
  {
    var ext := cons + [c];
    assert InRow(c.scope, n, i);
    forall q | 0 <= q < |ext| ensures NotEqualTable(ext[q].tuples, domain) && InRow(ext[q].scope, n, i) {
      if q < |cons| {
        assert ext[q] == cons[q];
      } else {
        assert ext[q] == c;
      }
    }
    forall b | j < b < k + 1 ensures HasScope(ext, [Cell(n, i, j), Cell(n, i, b)]) {
      if b < k {
        HasScopeConcat(cons, [c], [Cell(n, i, j), Cell(n, i, b)]);
      } else {
        assert ext[|cons|].scope == [Cell(n, i, j), Cell(n, i, b)];
      }
    }
  }

  /**
   * The second j/k loops for column i: one not-equal constraint per pair
   * of its cells, n(n-1)/2 of them.
   */
  method ColumnPairs(board: seq<seq<nat>>, n: nat, i: nat, domain: seq<int>) returns (cons: seq<Constraint>)
    requires IsBoard(board, n) && i < n && Distinct(domain)
    ensures 2 * |cons| == n * (n - 1)
    ensures forall q :: 0 <= q < |cons| ==> NotEqualTable(cons[q].tuples, domain) && InColumn(cons[q].scope, n, i)
    ensures forall a, b :: 0 <= a < b < n ==> HasScope(cons, [Cell(n, a, i), Cell(n, b, i)])
  {
    cons := [];
    for j := 0 to n
      invariant |cons| == PairsBefore(n, j)
      invariant forall q :: 0 <= q < |cons| ==> NotEqualTable(cons[q].tuples, domain) && InColumn(cons[q].scope, n, i)
      invariant forall a, b :: 0 <= a < j && a < b < n ==> HasScope(cons, [Cell(n, a, i), Cell(n, b, i)])
    {
      var more := ColumnPairsFrom(board, n, i, j, domain);
      forall a, b | 0 <= a < j + 1 && a < b < n ensures HasScope(cons + more, [Cell(n, a, i), Cell(n, b, i)]) {
        HasScopeConcat(cons, more, [Cell(n, a, i), Cell(n, b, i)]);
      }
      cons := cons + more;
    }
    PairsBeforeClosed(n, n);
  }

  /** The k loop for column i and row j: cell (j, i) against each later cell of the column. */
  method ColumnPairsFrom(board: seq<seq<nat>>, n: nat, i: nat, j: nat, domain: seq<int>) returns (cons: seq<Constraint>)
    requires IsBoard(board, n) && i < n && Distinct(domain) && j < n
    ensures |cons| == n - 1 - j
    ensures forall q :: 0 <= q < |cons| ==> NotEqualTable(cons[q].tuples, domain) && InColumn(cons[q].scope, n, i)
    ensures forall b :: j < b < n ==> HasScope(cons, [Cell(n, j, i), Cell(n, b, i)])
  {
    cons := [];
    for k := j + 1 to n
      invariant ColumnRun(cons, n, i, j, k, domain)
    {
      var sat := NotEqualTuples(domain);
      var c := Constraint([board[j][i], board[k][i]], sat);
      ColumnRunStep(cons, c, n, i, j, k, domain);
      cons := cons + [c];
    }
  }

  /** The k loop's invariant: one constraint per later row below k. */
  ghost predicate ColumnRun(cons: seq<Constraint>, n: nat, i: nat, j: nat, k: nat, domain: seq<int>) {
    && |cons| == k - j - 1
    && (forall q :: 0 <= q < |cons| ==> NotEqualTable(cons[q].tuples, domain) && InColumn(cons[q].scope, n, i))
    && (forall b :: j < b < k ==> HasScope(cons, [Cell(n, j, i), Cell(n, b, i)]))
  }

  lemma ColumnRunStep(cons: seq<Constraint>, c: Constraint, n: nat, i: nat, j: nat, k: nat, domain: seq<int>)
    requires j < k < n && ColumnRun(cons, n, i, j, k, domain)
    requires c.scope == [Cell(n, j, i), Cell(n, k, i)] && NotEqualTable(c.tuples, domain)
    ensures ColumnRun(cons + [c], n, i, j, k + 1, domain)
  {
    var ext := cons + [c];
    assert InColumn(c.scope, n, i);
    forall q | 0 <= q < |ext| ensures NotEqualTable(ext[q].tuples, domain) && InColumn(ext[q].scope, n, i) {
      if q < |cons| {
        assert ext[q] == cons[q];
      } else {
        assert ext[q] == c;
      }
    }
    forall b | j < b < k + 1 ensures HasScope(ext, [Cell(n, j, i), Cell(n, b, i)]) {
      if b < k {
        HasScopeConcat(cons, [c], [Cell(n, j, i), Cell(n, b, i)]);
      } else {
        assert ext[|cons|].scope == [Cell(n, j, i), Cell(n, b, i)];
      }
    }
  }

  /** Two cells of one row or of one column. */
  ghost predicate LineScope(s: seq<nat>, n: nat) {
    exists r :: 0 <= r < n && (InRow(s, n, r) || InColumn(s, n, r))
  }

  /** Exactly the n(n-1) pairs of different values from 1..n, each once. */
  ghost predicate NotEqualPairs(tuples: seq<seq<int>>, n: nat) {
    && (forall t :: t in tuples <==> |t| == 2 && 1 <= t[0] <= n && 1 <= t[1] <= n && t[0] != t[1])
    && Distinct(tuples)
    && |tuples| == n * (n - 1)
  }

  /** Every pair of cells in a row and every pair in a column is some constraint's scope. */
  ghost predicate AllLinePairs(cons: seq<Constraint>, n: nat, lines: nat) {
    forall r, a, b :: 0 <= r < lines && 0 <= a < b < n ==>
      HasScope(cons, [Cell(n, r, a), Cell(n, r, b)]) && HasScope(cons, [Cell(n, a, r), Cell(n, b, r)])
  }

  /**
   * What `binary_ne_grid` builds for grid size n: n*n variables over 1..n
   * in row-major order, and one not-equal constraint per pair of cells in a
   * row and per pair in a column, n*n*(n-1) constraints in all.
   */
  ghost predicate BinaryEncoding(e: Encoding, n: nat) {
    && IsBoard(e.board, n)
    && |e.problem.doms| == n * n
    && (forall v :: 0 <= v < n * n ==> IsOneTo(e.problem.doms[v], n))
    && |e.problem.cons| == n * n * (n - 1)
    && (forall q :: 0 <= q < |e.problem.cons| ==>
          NotEqualPairs(e.problem.cons[q].tuples, n) && LineScope(e.problem.cons[q].scope, n))
    && AllLinePairs(e.problem.cons, n, n)
    && ProblemOk(e.problem)
  }

  /**
   * `binary_ne_grid`: the size is read from `fpuzz_grid[0][0]`, which
   * raises on an empty puzzle or an empty first list.
   */
  method BinaryNeGrid(grid: seq<seq<int>>) returns (r: Result<Encoding>)
    ensures r.Raises? <==> grid == [] || grid[0] == []
    ensures r.Ok? ==> BinaryEncoding(r.value, GridSize(grid))
  {
    if grid == [] || grid[0] == [] {
      return Raises("IndexError: list index out of range");
    }
    var domain := GridDomain(grid[0][0]);
    var doms, board := GridVariables(domain);
    var n := |domain|;
    OneToMembers(domain, n);
    ghost var m := n * (n - 1);
    var cons: seq<Constraint> := [];
    for i := 0 to n
      invariant |cons| == i * m
      invariant forall q :: 0 <= q < |cons| ==> NotEqualTable(cons[q].tuples, domain) && LineScope(cons[q].scope, n)
      invariant AllLinePairs(cons, n, i)
    {
      var rows := RowPairs(board, n, i, domain);
      var cols := ColumnPairs(board, n, i, domain);
      LinesAppend(cons, rows, cols, n, i, domain);
      cons := cons + rows + cols;
      assert i * m + m == (i + 1) * m;
    }
    var e := Encoding(Problem(doms, cons), board);
    BinaryWellFormed(e, n, domain);
    r := Ok(e);
  }

  /** One round of the i loop keeps the loop's invariant. */
  lemma LinesAppend(cons: seq<Constraint>, rows: seq<Constraint>, cols: seq<Constraint>, n: nat, i: nat, domain: seq<int>)
    requires i < n
    requires forall q :: 0 <= q < |cons| ==> NotEqualTable(cons[q].tuples, domain) && LineScope(cons[q].scope, n)
    requires forall q :: 0 <= q < |rows| ==> NotEqualTable(rows[q].tuples, domain) && InRow(rows[q].scope, n, i)
    requires forall q :: 0 <= q < |cols| ==> NotEqualTable(cols[q].tuples, domain) && InColumn(cols[q].scope, n, i)
    requires AllLinePairs(cons, n, i)
    requires forall a, b :: 0 <= a < b < n ==> HasScope(rows, [Cell(n, i, a), Cell(n, i, b)])
    requires forall a, b :: 0 <= a < b < n ==> HasScope(cols, [Cell(n, a, i), Cell(n, b, i)])
    ensures forall q :: 0 <= q < |cons + rows + cols| ==>
      NotEqualTable((cons + rows + cols)[q].tuples, domain) && LineScope((cons + rows + cols)[q].scope, n)
    ensures AllLinePairs(cons + rows + cols, n, i + 1)
  {
    var all := cons + rows + cols;
    forall q | 0 <= q < |all| ensures NotEqualTable(all[q].tuples, domain) && LineScope(all[q].scope, n) {
      if q < |cons| {
        assert all[q] == cons[q];
      } else if q < |cons| + |rows| {
        assert all[q] == rows[q - |cons|];
        assert InRow(all[q].scope, n, i);
      } else {
        assert all[q] == cols[q - |cons| - |rows|];
        assert InColumn(all[q].scope, n, i);
      }
    }
    forall r, a, b | 0 <= r < i + 1 && 0 <= a < b < n
      ensures HasScope(all, [Cell(n, r, a), Cell(n, r, b)]) && HasScope(all, [Cell(n, a, r), Cell(n, b, r)])
    {
      HasScopeConcat(cons, rows, [Cell(n, r, a), Cell(n, r, b)]);
      HasScopeConcat(cons + rows, cols, [Cell(n, r, a), Cell(n, r, b)]);
      HasScopeConcat(cons, rows, [Cell(n, a, r), Cell(n, b, r)]);
      HasScopeConcat(cons + rows, cols, [Cell(n, a, r), Cell(n, b, r)]);
    }
  }

  /** A row or column pair names two different variables of the board. */
  lemma LineScopeOk(s: seq<nat>, n: nat)
    requires LineScope(s, n)
    ensures |s| == 2 && s[0] < n * n && s[1] < n * n && s[0] != s[1]
  {
    var r :| 0 <= r < n && (InRow(s, n, r) || InColumn(s, n, r));
    if InRow(s, n, r) {
      var a, b :| 0 <= a < b < n && s == [Cell(n, r, a), Cell(n, r, b)];
      CellBound(n, r, a);
      CellBound(n, r, b);
      CellInjective(n, r, a, r, b);
    } else {
      var a, b :| 0 <= a < b < n && s == [Cell(n, a, r), Cell(n, b, r)];
      CellBound(n, a, r);
      CellBound(n, b, r);
      CellInjective(n, a, r, b, r);
    }
  }

  /** The loops' results make a well-formed binary encoding. */
  lemma BinaryWellFormed(e: Encoding, n: nat, domain: seq<int>)
    requires IsOneTo(domain, n) && IsBoard(e.board, n)
    requires |e.problem.doms| == n * n && forall v :: 0 <= v < |e.problem.doms| ==> e.problem.doms[v] == domain
    requires |e.problem.cons| == n * (n * (n - 1))
    requires forall q :: 0 <= q < |e.problem.cons| ==>
      NotEqualTable(e.problem.cons[q].tuples, domain) && LineScope(e.problem.cons[q].scope, n)
    requires AllLinePairs(e.problem.cons, n, n)
    ensures BinaryEncoding(e, n)
  {
    var cons := e.problem.cons;
    OneToMembers(domain, n);
    forall q | 0 <= q < |cons| ensures NotEqualPairs(cons[q].tuples, n) && ConstraintOk(cons[q], n * n) {
      PairConstraintOk(cons[q], n, domain);
    }
    CubeAssoc(n);
  }

  lemma CubeAssoc(n: nat)
    ensures n * (n * (n - 1)) == n * n * (n - 1)
  {
  }

  /** A not-equal constraint over a row or column pair is well formed. */
  lemma PairConstraintOk(c: Constraint, n: nat, domain: seq<int>)
    requires IsOneTo(domain, n)
    requires NotEqualTable(c.tuples, domain) && LineScope(c.scope, n)
    ensures NotEqualPairs(c.tuples, n) && ConstraintOk(c, n * n)
  {
    OneToMembers(domain, n);
    LineScopeOk(c.scope, n);
    assert Distinct(c.scope) by {
      forall x, y | 0 <= x < y < |c.scope| ensures c.scope[x] != c.scope[y] {
        assert x == 0 && y == 1;
      }
    }
  }

  /** The values 1..n as a sequence, for stating tables over them. */
  ghost function Values(n: nat): (d: seq<int>)
    ensures IsOneTo(d, n)
  {
    seq(n, i => i + 1)
  }

  /** Exactly the n! orderings of 1..n, each once. */
  ghost predicate AllDiffTable(tuples: seq<seq<int>>, n: nat) {
    && (forall t :: t in tuples <==> multiset(t) == multiset(Values(n)))
    && Distinct(tuples)
    && |tuples| == Factorial(n)
  }

  /** Row r's cells in column order. */
  ghost predicate RowScope(s: seq<nat>, n: nat, r: nat) {
    |s| == n && forall c :: 0 <= c < n ==> s[c] == Cell(n, r, c)
  }

  /** Column c's cells in row order. */
  ghost predicate ColumnScope(s: seq<nat>, n: nat, c: nat) {
    |s| == n && forall r :: 0 <= r < n ==> s[r] == Cell(n, r, c)
  }

  /**
   * What `nary_ad_grid` builds for grid size n: the variables of the
   * binary encoding, then one all-different constraint per row followed by
   * one per column, each holding every ordering of 1..n.
   */
  ghost predicate NaryEncoding(e: Encoding, n: nat) {
    && IsBoard(e.board, n)
    && |e.problem.doms| == n * n
    && (forall v :: 0 <= v < n * n ==> IsOneTo(e.problem.doms[v], n))
    && |e.problem.cons| == 2 * n
    && (forall r :: 0 <= r < n ==> RowScope(e.problem.cons[r].scope, n, r))
    && (forall q :: n <= q < 2 * n ==> ColumnScope(e.problem.cons[q].scope, n, q - n))
    && (forall q :: 0 <= q < 2 * n ==> AllDiffTable(e.problem.cons[q].tuples, n))
    && ProblemOk(e.problem)
  }

  /** The loop copying `itertools.permutations(domain, len(domain))` into `sat_tuples`. */
  method PermutationTuples(domain: seq<int>) returns (sat: seq<seq<int>>)
    ensures forall t :: t in sat <==> multiset(t) == multiset(domain)
    ensures |sat| == Factorial(|domain|)
    ensures Distinct(domain) ==> Distinct(sat)
  {
    var perms := Perms(domain);
    sat := [];
    for i := 0 to |perms|
      invariant sat == perms[..i]
    {
      sat := sat + [perms[i]];
    }
    assert sat == perms;
    forall t ensures t in sat <==> multiset(t) == multiset(domain) {
      PermsMembers(domain, t);
    }
    PermsCount(domain);
    if Distinct(domain) {
      PermsDistinct(domain);
    }
  }

  /** An all-different table over 1..n. */
  lemma AllDiffOver(sat: seq<seq<int>>, domain: seq<int>, n: nat)
    requires IsOneTo(domain, n)
    requires forall t :: t in sat <==> multiset(t) == multiset(domain)
    requires |sat| == Factorial(|domain|) && Distinct(sat)
    ensures AllDiffTable(sat, n)
  {
    assert domain == Values(n);
  }

  /**
   * `nary_ad_grid`: the size is read from `fpuzz_grid[0][0]`, which
   * raises on an empty puzzle or an empty first list.
   */
  method NaryAdGrid(grid: seq<seq<int>>) returns (r: Result<Encoding>)
    ensures r.Raises? <==> grid == [] || grid[0] == []
    ensures r.Ok? ==> NaryEncoding(r.value, GridSize(grid))
  {
    if grid == [] || grid[0] == [] {
      return Raises("IndexError: list index out of range");
    }
    var domain := GridDomain(grid[0][0]);
    var doms, board := GridVariables(domain);
    var n := |domain|;
    OneToMembers(domain, n);
    var cons: seq<Constraint> := [];
    for r := 0 to n
      invariant |cons| == r
      invariant forall q :: 0 <= q < r ==> RowScope(cons[q].scope, n, q) && AllDiffTable(cons[q].tuples, n)
    {
      var sat := PermutationTuples(domain);
      AllDiffOver(sat, domain, n);
      cons := cons + [Constraint(board[r], sat)];
    }
    for c := 0 to n
      invariant |cons| == n + c
      invariant forall q :: 0 <= q < n ==> RowScope(cons[q].scope, n, q) && AllDiffTable(cons[q].tuples, n)
      invariant forall q :: n <= q < n + c ==> ColumnScope(cons[q].scope, n, q - n) && AllDiffTable(cons[q].tuples, n)
    {
      var column := ColumnCells(board, n, c);
      var sat := PermutationTuples(domain);
      AllDiffOver(sat, domain, n);
      cons := cons + [Constraint(column, sat)];
    }
    var e := Encoding(Problem(doms, cons), board);
    NaryWellFormed(e, n, domain);
    r := Ok(e);
  }

  /** The loop collecting `var_list[r][c]` over the rows r. */
  method ColumnCells(board: seq<seq<nat>>, n: nat, c: nat) returns (column: seq<nat>)
    requires IsBoard(board, n) && c < n
    ensures ColumnScope(column, n, c)
  {
    column := [];
    for r := 0 to n
      invariant |column| == r && forall a :: 0 <= a < r ==> column[a] == Cell(n, a, c)
    {
      column := column + [board[r][c]];
    }
  }

  /** A whole row or column names n different variables of the board. */
  lemma LineOk(s: seq<nat>, n: nat, i: nat)
    requires i < n && (RowScope(s, n, i) || ColumnScope(s, n, i))
    ensures (forall a :: 0 <= a < |s| ==> s[a] < n * n) && Distinct(s)
  {
    if RowScope(s, n, i) {
      forall a | 0 <= a < n ensures s[a] < n * n {
        CellBound(n, i, a);
      }
      forall a, b | 0 <= a < b < n ensures s[a] != s[b] {
        CellInjective(n, i, a, i, b);
      }
    } else {
      forall a | 0 <= a < n ensures s[a] < n * n {
        CellBound(n, a, i);
      }
      forall a, b | 0 <= a < b < n ensures s[a] != s[b] {
        CellInjective(n, a, i, b, i);
      }
    }
  }

  lemma NaryWellFormed(e: Encoding, n: nat, domain: seq<int>)
    requires IsOneTo(domain, n) && IsBoard(e.board, n)
    requires |e.problem.doms| == n * n && forall v :: 0 <= v < |e.problem.doms| ==> e.problem.doms[v] == domain
    requires |e.problem.cons| == 2 * n
    requires forall q :: 0 <= q < n ==> RowScope(e.problem.cons[q].scope, n, q) && AllDiffTable(e.problem.cons[q].tuples, n)
    requires forall q :: n <= q < 2 * n ==> ColumnScope(e.problem.cons[q].scope, n, q - n) && AllDiffTable(e.problem.cons[q].tuples, n)
    ensures NaryEncoding(e, n)
  {
    var cons := e.problem.cons;
    OneToMembers(domain, n);
    forall q | 0 <= q < 2 * n ensures ConstraintOk(cons[q], n * n) {
      LineConstraintOk(cons[q], n, if q < n then q else q - n);
    }
  }

  /** An all-different constraint over a whole row or column is well formed. */
  lemma LineConstraintOk(c: Constraint, n: nat, i: nat)
    requires i < n && (RowScope(c.scope, n, i) || ColumnScope(c.scope, n, i)) && AllDiffTable(c.tuples, n)
    ensures ConstraintOk(c, n * n)
  {
    LineOk(c.scope, n, i);
    forall t | t in c.tuples ensures |t| == |c.scope| {
      assert |multiset(t)| == |multiset(Values(n))|;
    }
  }

  /** Python's `xs[i]` on a list of length n: a negative index counts from the end, anything else raises. */
  function PyIndex(i: int, n: nat): (r: Option<nat>)
    ensures r.Some? <==> 0 <= i + n && i < n
    ensures r.Some? ==> r.value < n && (if i >= 0 then r.value == i else r.value == i + n)
  {
    if 0 <= i < n then Some(i) else if 0 <= i + n && i < 0 then Some(i + n) else None
  }

  /**
   * The variable a cell code names: `var_list[code // 10 - 1][code % 10 - 1]`.
   * Python's `//` and `%` by 10 floor, as Dafny's do for a positive divisor.
   */
  function CellOf(code: int, n: nat): Option<nat> {
    var row, col := PyIndex(code / 10 - 1, n), PyIndex(code % 10 - 1, n);
    if row.Some? && col.Some? then Some(Cell(n, row.value, col.value)) else None
  }

  /** The code `rc` of a cell in row r and column c, counted from 1, names that cell. */
  lemma CellCode(code: int, n: nat, r: nat, c: nat)
    requires 1 <= r <= n && 1 <= c <= 9 && c <= n && code == 10 * r + c
    ensures CellOf(code, n) == Some(Cell(n, r - 1, c - 1))
  {
    assert code / 10 == r && code % 10 == c;
  }

  /** The division generator, whose float arithmetic is not part of this model. */
  type DivisionTable = (nat, int, seq<int>) -> seq<seq<int>>

  /** A cage: a cell code and a value, or cell codes followed by a target and an operation code. */
  predicate Unary(cage: seq<int>) {
    |cage| == 2
  }

  function Target(cage: seq<int>): int
    requires |cage| >= 2
  {
    cage[|cage| - 2]
  }

  function Operation(cage: seq<int>): int
    requires |cage| >= 2
  {
    cage[|cage| - 1]
  }

  /**
   * Encoding cage `cage` raises: a cage too short to hold a target and an
   * operation, a cell code off the board, or, on the first cage, an
   * operation code naming no generator (`sat_tuples` is then unbound).
   */
  predicate CageFails(cage: seq<int>, n: nat, first: bool) {
    if Unary(cage) then CellOf(cage[0], n).None?
    else
      || |cage| < 2
      || (exists i :: 0 <= i < |cage| - 2 && CellOf(cage[i], n).None?)
      || (first && !(0 <= Operation(cage) <= 3))
  }

  /** The constraint's scope holds the variables the cage's cell codes name, in order. */
  ghost predicate CageScope(cage: seq<int>, n: nat, scope: seq<nat>)
    requires |cage| >= 2
  {
    if Unary(cage) then |scope| == 1 && CellOf(cage[0], n) == Some(scope[0])
    else |scope| == |cage| - 2 && forall i :: 0 <= i < |scope| ==> CellOf(cage[i], n) == Some(scope[i])
  }

  /**
   * The constraint's tuples: the single `(value,)` of a two-element cage,
   * otherwise what `OperationTable` says over 1..n.
   */
  ghost predicate CageTable(cage: seq<int>, n: nat, division: DivisionTable, prev: Option<seq<seq<int>>>, tuples: seq<seq<int>>)
    requires |cage| >= 2
  {
    if Unary(cage) then tuples == [[cage[1]]]
    else OperationTable(Operation(cage), |cage| - 2, Target(cage), Values(n), division, prev, tuples)
  }

  /**
   * The tuples of a cage of k cells: those of the generator the operation
   * code selects, each once, and for any other code the previous cage's
   * tuples.
   */
  ghost predicate OperationTable(op: int, k: nat, target: int, domain: seq<int>, division: DivisionTable,
                                 prev: Option<seq<seq<int>>>, tuples: seq<seq<int>>) {
    if op == 0 then Distinct(tuples) && forall t :: t in tuples <==> |t| == k && Over(t, domain) && Sum(t) == target
    else if op == 1 then Distinct(tuples) && forall t :: t in tuples <==> RearrangedDifference(t, k, target, domain)
    else if op == 2 then tuples == division(k, target, domain)
    else if op == 3 then Distinct(tuples) && forall t :: t in tuples <==> |t| == k && Over(t, domain) && Prod(t) == target
    else prev.Some? && tuples == prev.value
  }

  /** The lookup `var_list[row][col]` of a cell code. */
  method LookUp(board: seq<seq<nat>>, n: nat, code: int) returns (v: Option<nat>)
    requires IsBoard(board, n)
    ensures v == CellOf(code, n)
  {
    var row := PyIndex(code / 10 - 1, n);
    var col := PyIndex(code % 10 - 1, n);
    if row.None? || col.None? {
      return None;
    }
    return Some(board[row.value][col.value]);
  }

  /** One round of the cage loop of `caged_csp`: the constraint for `cage`. */
  method CageConstraint(cage: seq<int>, board: seq<seq<nat>>, n: nat, domain: seq<int>, division: DivisionTable,
                        last: Option<seq<seq<int>>>) returns (r: Result<Constraint>)
    requires IsBoard(board, n) && IsOneTo(domain, n)
    ensures r.Raises? <==> CageFails(cage, n, last.None?)
    ensures r.Ok? ==> |cage| >= 2 && CageScope(cage, n, r.value.scope) && CageTable(cage, n, division, last, r.value.tuples)
  {
    if |cage| == 2 {
      var cell, value := cage[0], cage[1];
      var v := LookUp(board, n, cell);
      if v.None? {
        return Raises("IndexError: list index out of range");
      }
      return Ok(Constraint([v.value], [[value]]));
    }
    if |cage| < 2 {
      return Raises("IndexError: list index out of range");
    }
    var cells, target, operation := cage[..|cage| - 2], cage[|cage| - 2], cage[|cage| - 1];
    var cellVars := CageCells(cells, board, n);
    if cellVars.None? {
      return Raises("IndexError: list index out of range");
    }
    OneToMembers(domain, n);
    var sat := OperationTuples(operation, |cells|, target, domain, division, last);
    if sat.Raises? {
      return Raises(sat.reason);
    }
    assert domain == Values(n);
    return Ok(Constraint(cellVars.value, sat.value));
  }

  /** The loop collecting `cell_vars`: the variable of each cell code, or none when one is off the board. */
  method CageCells(cells: seq<int>, board: seq<seq<nat>>, n: nat) returns (r: Option<seq<nat>>)
    requires IsBoard(board, n)
    ensures r.None? <==> exists i :: 0 <= i < |cells| && CellOf(cells[i], n).None?
    ensures r.Some? ==> |r.value| == |cells| && forall i :: 0 <= i < |cells| ==> CellOf(cells[i], n) == Some(r.value[i])
  {
    var cellVars: seq<nat> := [];
    for i := 0 to |cells|
      invariant |cellVars| == i && forall j :: 0 <= j < i ==> CellOf(cells[j], n) == Some(cellVars[j])
    {
      var v := LookUp(board, n, cells[i]);
      if v.None? {
        return None;
      }
      cellVars := cellVars + [v.value];
    }
    return Some(cellVars);
  }

  /** The `if operation == ...` chain: the tuples of a cage of k cells, or the unbound `sat_tuples`. */
  method OperationTuples(operation: int, k: nat, target: int, domain: seq<int>, division: DivisionTable,
                         last: Option<seq<seq<int>>>) returns (r: Result<seq<seq<int>>>)
    requires k > 0 && Distinct(domain)
    ensures r.Raises? <==> last.None? && !(0 <= operation <= 3)
    ensures r.Ok? ==> OperationTable(operation, k, target, domain, division, last, r.value)
  {
    if operation == 0 {
      var sat := AdditionTuples(k, target, domain);
      return Ok(sat);
    } else if operation == 1 {
      var sub := SubtractionTuples(k, target, domain);
      return Ok(sub.value);
    } else if operation == 2 {
      return Ok(division(k, target, domain));
    } else if operation == 3 {
      var sat := MultiplicationTuples(k, target, domain);
      return Ok(sat);
    } else if last.Some? {
      return Ok(last.value);
    }
    return Raises("UnboundLocalError: local variable 'sat_tuples' referenced before assignment");
  }

  /** The tuples the cage before cage q left in `sat_tuples`: none before the first cage. */
  ghost function Previous(cons: seq<Constraint>, base: nat, q: nat): Option<seq<seq<int>>>
    requires 1 <= q && base + q - 1 <= |cons|
  {
    if q == 1 then None else Some(cons[base + q - 2].tuples)
  }

  /** The constraints after the first `base` encode cages 1..q-1 of the puzzle, in order. */
  ghost predicate CagesEncoded(grid: seq<seq<int>>, n: nat, division: DivisionTable, cons: seq<Constraint>, base: nat, q: nat)
    requires q <= |grid|
  {
    && 1 <= q && |cons| == base + q - 1
    && (forall p :: 1 <= p < q ==> !CageFails(grid[p], n, p == 1))
    && (forall p :: 1 <= p < q ==>
          (|grid[p]| >= 2 && CageScope(grid[p], n, cons[base + p - 1].scope)
           && CageTable(grid[p], n, division, Previous(cons, base, p), cons[base + p - 1].tuples)))
  }

  /**
   * What `caged_csp` builds for a puzzle of size n: the binary encoding,
   * followed by one constraint per cage in puzzle order.
   */
  ghost predicate CagedEncoding(grid: seq<seq<int>>, division: DivisionTable, e: Encoding)
    requires grid != [] && grid[0] != []
  {
    var n := GridSize(grid);
    var base := n * n * (n - 1);
    && |e.problem.cons| == base + |grid| - 1
    && BinaryEncoding(Encoding(Problem(e.problem.doms, e.problem.cons[..base]), e.board), n)
    && CagesEncoded(grid, n, division, e.problem.cons, base, |grid|)
  }

  /** Encoding the puzzle raises: it has no size, or some cage fails. */
  predicate CagedFails(grid: seq<seq<int>>) {
    grid == [] || grid[0] == [] || exists q :: 1 <= q < |grid| && CageFails(grid[q], GridSize(grid), q == 1)
  }

  /**
   * `caged_csp`: the binary encoding, then one constraint per cage of
   * `fpuzz_grid[1:]`.  The division generator is the parameter `division`.
   */
  method CagedCsp(grid: seq<seq<int>>, division: DivisionTable) returns (r: Result<Encoding>)
    ensures r.Raises? <==> CagedFails(grid)
    ensures r.Ok? ==> grid != [] && grid[0] != [] && CagedEncoding(grid, division, r.value)
  {
    if grid == [] || grid[0] == [] {
      return Raises("IndexError: list index out of range");
    }
    var domain := GridDomain(grid[0][0]);
    var binary := BinaryNeGrid(grid);
    var n := GridSize(grid);
    var e := binary.value;
    var cons := e.problem.cons;
    ghost var base := |cons|;
    var last: Option<seq<seq<int>>> := None;
    for q := 1 to |grid|
      invariant CagesEncoded(grid, n, division, cons, base, q)
      invariant cons[..base] == e.problem.cons
      invariant last == Previous(cons, base, q)
    {
      var c := CageConstraint(grid[q], e.board, n, domain, division, last);
      if c.Raises? {
        return Raises(c.reason);
      }
      CagesStep(grid, n, division, cons, base, q, c.value);
      cons := cons + [c.value];
      last := Some(c.value.tuples);
    }
    assert e.problem.cons == cons[..base];
    r := Ok(Encoding(Problem(e.problem.doms, cons), e.board));
  }

  lemma CagesStep(grid: seq<seq<int>>, n: nat, division: DivisionTable, cons: seq<Constraint>, base: nat, q: nat, c: Constraint)
    requires q < |grid| && CagesEncoded(grid, n, division, cons, base, q)
    requires !CageFails(grid[q], n, q == 1)
    requires |grid[q]| >= 2 && CageScope(grid[q], n, c.scope) && CageTable(grid[q], n, division, Previous(cons, base, q), c.tuples)
    ensures CagesEncoded(grid, n, division, cons + [c], base, q + 1)
    ensures Previous(cons + [c], base, q + 1) == Some(c.tuples)
  {
    var next := cons + [c];
    forall p | 1 <= p < q + 1
      ensures |grid[p]| >= 2 && CageScope(grid[p], n, next[base + p - 1].scope)
        && CageTable(grid[p], n, division, Previous(next, base, p), next[base + p - 1].tuples)
    {
      assert next[base + p - 1] == if p == q then c else cons[base + p - 1];
      assert Previous(next, base, p) == Previous(cons, base, p);
    }
  }

  /** Every variable of an n-by-n board is some cell's: row v / n, column v % n. */
  lemma CellOfVariable(n: nat, v: nat) returns (r: nat, c: nat)
    requires v < n * n
    ensures r < n && c < n && v == Cell(n, r, c)
  {
    r, c := v / n, v % n;
    CellValue(n, r, c);
    if r >= n {
      MulMono(n, r, n);
    }
  }

  lemma MulMono(n: nat, a: nat, b: nat)
    requires a >= b
    ensures a * n >= b * n
  {
  }

  /** Variables u and w exist and hold different values. */
  ghost predicate Differ(sol: seq<int>, u: nat, w: nat) {
    u < |sol| && w < |sol| && sol[u] != sol[w]
  }

  /**
   * A filled n-by-n grid with values from 1..n in which two different
   * cells of one row, or of one column, never hold the same value.
   */
  ghost predicate LatinSquare(sol: seq<int>, n: nat) {
    && |sol| == n * n
    && (forall v :: 0 <= v < n * n ==> 1 <= sol[v] <= n)
    && (forall r, a, b :: 0 <= r < n && 0 <= a < b < n ==>
          Differ(sol, Cell(n, r, a), Cell(n, r, b)) && Differ(sol, Cell(n, a, r), Cell(n, b, r)))
  }

  /**
   * The solutions of the binary encoding are exactly the Latin squares
   * (from size 2 on: a 1-by-1 grid has no constraint at all).
   */
  lemma BinarySolutions(e: Encoding, n: nat, sol: seq<int>)
    requires BinaryEncoding(e, n) && |sol| == n * n && n >= 2
    ensures IsSolution(e.problem.cons, sol) <==> LatinSquare(sol, n)
  {
    if IsSolution(e.problem.cons, sol) {
      BinarySolutionLatin(e, n, sol);
    }
    if LatinSquare(sol, n) {
      LatinBinarySolution(e, n, sol);
    }
  }

  /** A constraint over the pair (u, w) holds in a solution: the two cells differ and lie in 1..n. */
  lemma PairSatisfied(e: Encoding, n: nat, sol: seq<int>, u: nat, w: nat)
    requires BinaryEncoding(e, n) && |sol| == n * n && IsSolution(e.problem.cons, sol)
    requires HasScope(e.problem.cons, [u, w])
    ensures Differ(sol, u, w) && 1 <= sol[u] <= n && 1 <= sol[w] <= n
  {
    var q :| 0 <= q < |e.problem.cons| && e.problem.cons[q].scope == [u, w];
    var t := Project(sol, [u, w]);
    assert t in e.problem.cons[q].tuples;
    assert NotEqualPairs(e.problem.cons[q].tuples, n);
  }

  lemma BinarySolutionLatin(e: Encoding, n: nat, sol: seq<int>)
    requires BinaryEncoding(e, n) && |sol| == n * n && n >= 2 && IsSolution(e.problem.cons, sol)
    ensures LatinSquare(sol, n)
  {
    forall r, a, b | 0 <= r < n && 0 <= a < b < n
      ensures Differ(sol, Cell(n, r, a), Cell(n, r, b)) && Differ(sol, Cell(n, a, r), Cell(n, b, r))
    {
      PairSatisfied(e, n, sol, Cell(n, r, a), Cell(n, r, b));
      PairSatisfied(e, n, sol, Cell(n, a, r), Cell(n, b, r));
    }
    forall v | 0 <= v < n * n ensures 1 <= sol[v] <= n {
      VariableInRange(e, n, sol, v);
    }
  }

  /** From size 2 on every variable is in some row pair, so a solution gives it a value from 1..n. */
  lemma VariableInRange(e: Encoding, n: nat, sol: seq<int>, v: nat)
    requires BinaryEncoding(e, n) && |sol| == n * n && n >= 2 && IsSolution(e.problem.cons, sol)
    requires v < n * n
    ensures 1 <= sol[v] <= n
  {
    var r, c := CellOfVariable(n, v);
    var b := if c == 0 then 1 else c;
    RowPairScope(e, n, r, b);
    PairSatisfied(e, n, sol, Cell(n, r, 0), Cell(n, r, b));
    assert v == Cell(n, r, 0) || v == Cell(n, r, b);
  }

  lemma RowPairScope(e: Encoding, n: nat, r: nat, b: nat)
    requires BinaryEncoding(e, n) && r < n && 0 < b < n
    ensures HasScope(e.problem.cons, [Cell(n, r, 0), Cell(n, r, b)])
  {
    assert AllLinePairs(e.problem.cons, n, n);
  }

  lemma LatinBinarySolution(e: Encoding, n: nat, sol: seq<int>)
    requires BinaryEncoding(e, n) && LatinSquare(sol, n)
    ensures IsSolution(e.problem.cons, sol)
  {
    var cons := e.problem.cons;
    forall q | 0 <= q < |cons|
      ensures (forall i :: 0 <= i < |cons[q].scope| ==> cons[q].scope[i] < |sol|) && Project(sol, cons[q].scope) in cons[q].tuples
    {
      var s := cons[q].scope;
      LineScopeOk(s, n);
      var r :| 0 <= r < n && (InRow(s, n, r) || InColumn(s, n, r));
      var t := Project(sol, s);
      assert t == [sol[s[0]], sol[s[1]]];
      assert Differ(sol, s[0], s[1]) by {
        if InRow(s, n, r) {
          var a, b :| 0 <= a < b < n && s == [Cell(n, r, a), Cell(n, r, b)];
        } else {
          var a, b :| 0 <= a < b < n && s == [Cell(n, a, r), Cell(n, b, r)];
        }
      }
      assert NotEqualPairs(cons[q].tuples, n);
    }
  }

  /** The set of a sequence's elements. */
  ghost function Elements(s: seq<int>): (e: set<int>)
    ensures forall x :: x in e <==> x in s
  {
    if s == [] then {} else {s[0]} + Elements(s[1..])
  }

  /** A sequence has no repeats when its tail has none and does not hold its head. */
  lemma DistinctCons(s: seq<int>)
    requires s != []
    ensures Distinct(s) <==> Distinct(s[1..]) && s[0] !in s[1..]
  {
    var rest := s[1..];
    if Distinct(rest) && s[0] !in rest {
      forall i, j | 0 <= i < j < |s| ensures s[i] != s[j] {
        assert s[j] == rest[j - 1];
        if i > 0 {
          assert s[i] == rest[i - 1];
        }
      }
    }
    if Distinct(s) {
      forall i, j | 0 <= i < j < |rest| ensures rest[i] != rest[j] {
        assert rest[i] == s[i + 1] && rest[j] == s[j + 1];
      }
      forall j | 0 <= j < |rest| ensures rest[j] != s[0] {
        assert rest[j] == s[j + 1];
      }
    }
  }

  /** The set of a sequence's elements has at most its length, and exactly that when none repeats. */
  lemma {:induction false} ElementCount(s: seq<int>)
    ensures |Elements(s)| <= |s|
    ensures |Elements(s)| == |s| <==> Distinct(s)
  {
    if s != [] {
      ElementCount(s[1..]);
      DistinctCons(s);
      if s[0] in s[1..] {
        assert Elements(s) == Elements(s[1..]);
      }
    }
  }

  /** In a sequence without repeats each element occurs once. */
  lemma {:induction false} Multiplicity(s: seq<int>, x: int)
    requires Distinct(s)
    ensures multiset(s)[x] == if x in s then 1 else 0
  {
    if s != [] {
      var rest := s[1..];
      assert s == [s[0]] + rest;
      DistinctCons(s);
      Multiplicity(rest, x);
      assert multiset(s) == multiset{s[0]} + multiset(rest);
    }
  }

  /**
   * A length-n sequence orders 1..n exactly when its values are different
   * and all lie in 1..n.
   */
  lemma OrderingOfValues(t: seq<int>, n: nat)
    requires |t| == n
    ensures multiset(t) == multiset(Values(n)) <==> Distinct(t) && forall i :: 0 <= i < n ==> 1 <= t[i] <= n
  {
    if multiset(t) == multiset(Values(n)) {
      OrderingDistinct(t, n);
    }
    if Distinct(t) && forall i :: 0 <= i < n ==> 1 <= t[i] <= n {
      DistinctOrdering(t, n);
    }
  }

  lemma OrderingDistinct(t: seq<int>, n: nat)
    requires |t| == n && multiset(t) == multiset(Values(n))
    ensures Distinct(t) && forall i :: 0 <= i < n ==> 1 <= t[i] <= n
  {
    var vs := Values(n);
    MultisetElements(t, vs);
    OneToMembers(vs, n);
    ElementCount(vs);
    ElementCount(t);
    forall i | 0 <= i < n ensures 1 <= t[i] <= n {
      assert t[i] in Elements(t);
    }
  }

  /** Orderings of each other hold the same elements. */
  lemma MultisetElements(s: seq<int>, t: seq<int>)
    requires multiset(s) == multiset(t)
    ensures Elements(s) == Elements(t)
  {
    forall x ensures x in Elements(s) <==> x in Elements(t) {
      assert x in s <==> x in multiset(s);
      assert x in t <==> x in multiset(t);
    }
  }

  lemma DistinctOrdering(t: seq<int>, n: nat)
    requires |t| == n && Distinct(t) && forall i :: 0 <= i < n ==> 1 <= t[i] <= n
    ensures multiset(t) == multiset(Values(n))
  {
    var vs := Values(n);
    OneToMembers(vs, n);
    ElementCount(vs);
    ElementCount(t);
    FullSubset(Elements(t), Elements(vs));
    SameElements(t, vs);
  }

  /** A subset as large as the whole set is the whole set. */
  lemma FullSubset(a: set<int>, b: set<int>)
    requires a <= b && |a| == |b|
    ensures a == b
  {
    assert b == a + (b - a);
  }

  /** Two sequences without repeats holding the same elements are orderings of each other. */
  lemma SameElements(s: seq<int>, t: seq<int>)
    requires Distinct(s) && Distinct(t) && Elements(s) == Elements(t)
    ensures multiset(s) == multiset(t)
  {
    forall x ensures multiset(s)[x] == multiset(t)[x] {
      Multiplicity(s, x);
      Multiplicity(t, x);
    }
  }

  /** The solutions of the n-ary encoding are exactly the Latin squares. */
  lemma NarySolutions(e: Encoding, n: nat, sol: seq<int>)
    requires NaryEncoding(e, n) && |sol| == n * n
    ensures IsSolution(e.problem.cons, sol) <==> LatinSquare(sol, n)
  {
    if IsSolution(e.problem.cons, sol) {
      NarySolutionLatin(e, n, sol);
    }
    if LatinSquare(sol, n) {
      LatinNarySolution(e, n, sol);
    }
  }

  /** Both encodings of a grid from size 2 on have the same solutions. */
  lemma SameSolutions(binary: Encoding, nary: Encoding, n: nat, sol: seq<int>)
    requires BinaryEncoding(binary, n) && NaryEncoding(nary, n) && n >= 2 && |sol| == n * n
    ensures IsSolution(binary.problem.cons, sol) <==> IsSolution(nary.problem.cons, sol)
  {
    BinarySolutions(binary, n, sol);
    NarySolutions(nary, n, sol);
  }

  /** In a solution, the values of a whole row or column are different and lie in 1..n. */
  lemma LineSatisfied(e: Encoding, n: nat, sol: seq<int>, q: nat)
    requires NaryEncoding(e, n) && |sol| == n * n && IsSolution(e.problem.cons, sol) && q < 2 * n
    ensures |e.problem.cons[q].scope| == n
    ensures Distinct(Project(sol, e.problem.cons[q].scope))
    ensures forall i :: 0 <= i < n ==> 1 <= Project(sol, e.problem.cons[q].scope)[i] <= n
  {
    var c := e.problem.cons[q];
    var t := Project(sol, c.scope);
    assert t in c.tuples;
    assert AllDiffTable(c.tuples, n);
    if q < n {
      assert RowScope(c.scope, n, q);
    } else {
      assert ColumnScope(c.scope, n, q - n);
    }
    OrderingOfValues(t, n);
  }

  lemma NarySolutionLatin(e: Encoding, n: nat, sol: seq<int>)
    requires NaryEncoding(e, n) && |sol| == n * n && IsSolution(e.problem.cons, sol)
    ensures LatinSquare(sol, n)
  {
    forall r, a, b | 0 <= r < n && 0 <= a < b < n
      ensures Differ(sol, Cell(n, r, a), Cell(n, r, b)) && Differ(sol, Cell(n, a, r), Cell(n, b, r))
    {
      LinesDiffer(e, n, sol, r, a, b);
    }
    forall v | 0 <= v < n * n ensures 1 <= sol[v] <= n {
      CellSatisfied(e, n, sol, v);
    }
  }

  /** Row r and column r of a solution hold different values at a and at b. */
  lemma LinesDiffer(e: Encoding, n: nat, sol: seq<int>, r: nat, a: nat, b: nat)
    requires NaryEncoding(e, n) && |sol| == n * n && IsSolution(e.problem.cons, sol)
    requires r < n && a < b < n
    ensures Differ(sol, Cell(n, r, a), Cell(n, r, b)) && Differ(sol, Cell(n, a, r), Cell(n, b, r))
  {
    LineDiffers(e, n, sol, r, a, b);
    LineDiffers(e, n, sol, n + r, a, b);
  }

  /** Line q of a solution (row q, or column q - n) holds different values at positions a and b. */
  lemma LineDiffers(e: Encoding, n: nat, sol: seq<int>, q: nat, a: nat, b: nat)
    requires NaryEncoding(e, n) && |sol| == n * n && IsSolution(e.problem.cons, sol)
    requires q < 2 * n && a < b < n
    ensures q < n ==> Differ(sol, Cell(n, q, a), Cell(n, q, b))
    ensures n <= q ==> Differ(sol, Cell(n, a, q - n), Cell(n, b, q - n))
  {
    var s := e.problem.cons[q].scope;
    LineSatisfied(e, n, sol, q);
    var t := Project(sol, s);
    assert t[a] != t[b];
    if q < n {
      assert RowScope(s, n, q);
    } else {
      assert ColumnScope(s, n, q - n);
    }
    assert s[a] < |sol| && s[b] < |sol| && t[a] == sol[s[a]] && t[b] == sol[s[b]];
  }

  /** Each cell of a solution holds a value from 1..n. */
  lemma CellSatisfied(e: Encoding, n: nat, sol: seq<int>, v: nat)
    requires NaryEncoding(e, n) && |sol| == n * n && IsSolution(e.problem.cons, sol)
    requires v < n * n
    ensures 1 <= sol[v] <= n
  {
    var cons := e.problem.cons;
    var r, c := CellOfVariable(n, v);
    LineSatisfied(e, n, sol, r);
    assert RowScope(cons[r].scope, n, r);
    assert Project(sol, cons[r].scope)[c] == sol[v];
  }

  lemma LatinNarySolution(e: Encoding, n: nat, sol: seq<int>)
    requires NaryEncoding(e, n) && LatinSquare(sol, n)
    ensures IsSolution(e.problem.cons, sol)
  {
    var cons := e.problem.cons;
    forall q | 0 <= q < |cons|
      ensures (forall i :: 0 <= i < |cons[q].scope| ==> cons[q].scope[i] < |sol|) && Project(sol, cons[q].scope) in cons[q].tuples
    {
      LatinLine(e, n, sol, q);
    }
  }

  lemma LatinLine(e: Encoding, n: nat, sol: seq<int>, q: nat)
    requires NaryEncoding(e, n) && LatinSquare(sol, n) && q < 2 * n
    ensures forall i :: 0 <= i < |e.problem.cons[q].scope| ==> e.problem.cons[q].scope[i] < |sol|
    ensures Project(sol, e.problem.cons[q].scope) in e.problem.cons[q].tuples
  {
    var c := e.problem.cons[q];
    var i := if q < n then q else q - n;
    assert RowScope(c.scope, n, i) || ColumnScope(c.scope, n, i);
    LineOk(c.scope, n, i);
    var t := Project(sol, c.scope);
    assert Distinct(t) by {
      forall a, b | 0 <= a < b < n ensures t[a] != t[b] {
        assert Differ(sol, c.scope[a], c.scope[b]);
      }
    }
    forall a | 0 <= a < n ensures 1 <= t[a] <= n {
      assert c.scope[a] < n * n;
    }
    DistinctOrdering(t, n);
    assert AllDiffTable(c.tuples, n);
  }

  /** A cell code that names a variable names one of the board's. */
  lemma CellOfBound(code: int, n: nat)
    requires CellOf(code, n).Some?
    ensures CellOf(code, n).value < n * n
  {
    var row, col := PyIndex(code / 10 - 1, n), PyIndex(code % 10 - 1, n);
    CellBound(n, row.value, col.value);
  }

  /** No two cell codes of the cage name the same variable. */
  predicate DistinctCells(cage: seq<int>, n: nat) {
    forall i, j :: 0 <= i < j < |cage| - 2 ==> CellOf(cage[i], n) != CellOf(cage[j], n)
  }

  /** A cage with a known operation and no cell named twice. */
  predicate CageWellFormed(cage: seq<int>, n: nat) {
    |cage| >= 2 && (Unary(cage) || (0 <= Operation(cage) <= 3 && DistinctCells(cage, n)))
  }

  /** The division generator gives tuples of the cage's length. */
  ghost predicate DivisionArity(division: DivisionTable, n: nat) {
    forall k: nat, target, t :: t in division(k, target, Values(n)) ==> |t| == k
  }

  /**
   * The caged encoding is a well-formed problem when every cage names a
   * known operation and no cell twice.
   */
  lemma CagedProblemOk(grid: seq<seq<int>>, division: DivisionTable, e: Encoding)
    requires grid != [] && grid[0] != [] && CagedEncoding(grid, division, e)
    requires forall q :: 1 <= q < |grid| ==> CageWellFormed(grid[q], GridSize(grid))
    requires DivisionArity(division, GridSize(grid))
    ensures ProblemOk(e.problem)
  {
    var n: int := GridSize(grid);
    var base: int := n * n * (n - 1);
    var cons := e.problem.cons;
    var binary := Problem(e.problem.doms, cons[..base]);
    assert ProblemOk(binary);
    forall k | 0 <= k < |cons| ensures ConstraintOk(cons[k], |e.problem.doms|) {
      if k < base {
        assert cons[k] == binary.cons[k];
      } else {
        var q := k - base + 1;
        assert CageScope(grid[q], n, cons[base + q - 1].scope);
        CageConstraintOk(grid[q], n, division, Previous(cons, base, q), cons[k]);
      }
    }
  }

  lemma CageConstraintOk(cage: seq<int>, n: nat, division: DivisionTable, prev: Option<seq<seq<int>>>, c: Constraint)
    requires CageWellFormed(cage, n) && DivisionArity(division, n)
    requires CageScope(cage, n, c.scope) && CageTable(cage, n, division, prev, c.tuples)
    ensures ConstraintOk(c, n * n)
  {
    forall i | 0 <= i < |c.scope| ensures c.scope[i] < n * n {
      CellOfBound(cage[i], n);
    }
    if !Unary(cage) {
      forall t | t in c.tuples ensures |t| == |c.scope| {
        if Operation(cage) == 1 {
          var s :| |s| == |c.scope| && |c.scope| > 0 && Over(s, Values(n)) && LeftDifference(s) == Target(cage) && multiset(t) == multiset(s);
          assert |multiset(t)| == |multiset(s)|;
        }
      }
    }
  }

  /**
   * What the cells of a cage hold in a solution: the given value for a
   * two-element cage, otherwise the operation's target.  Division and
   * reused tables come from outside the model and say nothing here.
   */
  ghost predicate CageValues(cage: seq<int>, n: nat, vals: seq<int>)
    requires |cage| >= 2
  {
    if Unary(cage) then vals == [cage[1]]
    else if Operation(cage) == 0 then Sum(vals) == Target(cage)
    else if Operation(cage) == 1 then RearrangedDifference(vals, |cage| - 2, Target(cage), Values(n))
    else if Operation(cage) == 3 then Prod(vals) == Target(cage)
    else true
  }

  /** The cells a cage names, read off a complete assignment, meet the cage. */
  ghost predicate CageHolds(cage: seq<int>, n: nat, sol: seq<int>)
    requires |cage| >= 2
  {
    forall cells: seq<nat> :: CageScope(cage, n, cells) && (forall i :: 0 <= i < |cells| ==> cells[i] < |sol|) ==>
      CageValues(cage, n, Project(sol, cells))
  }

  /** A cage's cell codes fix its scope. */
  lemma CageScopeUnique(cage: seq<int>, n: nat, s: seq<nat>, s': seq<nat>)
    requires |cage| >= 2 && CageScope(cage, n, s) && CageScope(cage, n, s')
    ensures s == s'
  {
    assert |s| == |s'|;
    forall i | 0 <= i < |s| ensures s[i] == s'[i] {
      if Unary(cage) {
        assert CellOf(cage[0], n) == Some(s[0]) == Some(s'[0]);
      } else {
        assert CellOf(cage[i], n) == Some(s[i]) == Some(s'[i]);
      }
    }
  }

  /** A solution of the caged encoding is a Latin square that meets every cage. */
  lemma CagedSolution(grid: seq<seq<int>>, division: DivisionTable, e: Encoding, sol: seq<int>)
    requires grid != [] && grid[0] != [] && CagedEncoding(grid, division, e)
    requires GridSize(grid) >= 2 && |sol| == GridSize(grid) * GridSize(grid)
    requires IsSolution(e.problem.cons, sol)
    ensures LatinSquare(sol, GridSize(grid))
    ensures forall p :: 1 <= p < |grid| ==> |grid[p]| >= 2 && CageHolds(grid[p], GridSize(grid), sol)
  {
    var n: int := GridSize(grid);
    var base: int := n * n * (n - 1);
    var cons := e.problem.cons;
    var binary := Encoding(Problem(e.problem.doms, cons[..base]), e.board);
    assert IsSolution(binary.problem.cons, sol) by {
      forall k | 0 <= k < base ensures binary.problem.cons[k] == cons[k] { }
    }
    BinarySolutions(binary, n, sol);
    forall p | 1 <= p < |grid| ensures |grid[p]| >= 2 && CageHolds(grid[p], n, sol) {
      CageSolution(grid[p], n, division, Previous(cons, base, p), cons[base + p - 1], sol);
    }
  }

  lemma CageSolution(cage: seq<int>, n: nat, division: DivisionTable, prev: Option<seq<seq<int>>>, c: Constraint, sol: seq<int>)
    requires |cage| >= 2 && CageScope(cage, n, c.scope) && CageTable(cage, n, division, prev, c.tuples)
    requires (forall i :: 0 <= i < |c.scope| ==> c.scope[i] < |sol|) && Project(sol, c.scope) in c.tuples
    ensures CageHolds(cage, n, sol)
  {
    forall cells: seq<nat> | CageScope(cage, n, cells) && (forall i :: 0 <= i < |cells| ==> cells[i] < |sol|)
      ensures CageValues(cage, n, Project(sol, cells))
    {
      CageScopeUnique(cage, n, cells, c.scope);
    }
  }
}
