/**
 * The cage-table generators of csp/csp/puzzle_csp.py: every tuple, one
 * value per cage cell, whose sum, left-to-right difference (in any
 * order of the cells) or product reaches the cage target.  The Python
 * functions take the cage's variable list and only use its length `k`.
 */
module CageTuples {
  import opened Wrappers
  import opened CspTuples

  /** Python's `sum` of a tuple. */
  function Sum(t: seq<int>): int {
    if t == [] then 0 else t[0] + Sum(t[1..])
  }

  /** `math.prod` of a tuple; the empty product is 1. */
  function Prod(t: seq<int>): int {
    if t == [] then 1 else t[0] * Prod(t[1..])
  }

  /** The first entry minus all later ones, as the subtraction cage reads its cells. */
  ghost function LeftDifference(t: seq<int>): int
    requires t != []
  {
    t[0] - Sum(t[1..])
  }

  /** `get_satisfying_tuples_for_addition`: the product tuples whose sum is the target. */
  method AdditionTuples(k: nat, target: int, domain: seq<int>) returns (sat: seq<seq<int>>)
    ensures forall t :: t in sat <==> |t| == k && Over(t, domain) && Sum(t) == target
    ensures Distinct(domain) ==> Distinct(sat)
  {
    sat := [];
    var combos := Product(domain, k);
    for i := 0 to |combos|
      invariant forall t :: t in sat <==> t in combos[..i] && Sum(t) == target
      invariant Distinct(combos) ==> Distinct(sat)
    {
      var combo := combos[i];
      if Sum(combo) == target {
        FreshAppend(combos, i, sat);
        sat := sat + [combo];
      }
      assert combos[..i + 1] == combos[..i] + [combo];
    }
    assert combos[..|combos|] == combos;
    ProductAll(domain, k);
    if Distinct(domain) {
      ProductDistinct(domain, k);
    }
  }

  /** `get_satisfying_tuples_for_multiplication`: the product tuples whose product is the target. */
  method MultiplicationTuples(k: nat, target: int, domain: seq<int>) returns (sat: seq<seq<int>>)
    ensures forall t :: t in sat <==> |t| == k && Over(t, domain) && Prod(t) == target
    ensures Distinct(domain) ==> Distinct(sat)
  {
    sat := [];
    var combos := Product(domain, k);
    for i := 0 to |combos|
      invariant forall t :: t in sat <==> t in combos[..i] && Prod(t) == target
      invariant Distinct(combos) ==> Distinct(sat)
    {
      var combo := combos[i];
      if Prod(combo) == target {
        FreshAppend(combos, i, sat);
        sat := sat + [combo];
      }
      assert combos[..i + 1] == combos[..i] + [combo];
    }
    assert combos[..|combos|] == combos;
    ProductAll(domain, k);
    if Distinct(domain) {
      ProductDistinct(domain, k);
    }
  }

  /** Appending the next element of a list without repeats to a list drawn from its prefix keeps it without repeats. */
  lemma FreshAppend(combos: seq<seq<int>>, i: nat, sat: seq<seq<int>>)
    requires i < |combos|
    requires forall t :: t in sat ==> t in combos[..i]
    ensures Distinct(combos) && Distinct(sat) ==> Distinct(sat + [combos[i]])
  {
    if Distinct(combos) && Distinct(sat) {
      var ext := sat + [combos[i]];
      forall a, b | 0 <= a < b < |ext| ensures ext[a] != ext[b] {
        if b == |sat| {
          assert ext[a] == sat[a] && sat[a] in combos[..i];
          var j :| 0 <= j < i && combos[..i][j] == sat[a];
          assert combos[j] != combos[i];
        } else {
          assert ext[a] == sat[a] && ext[b] == sat[b];
        }
      }
    }
  }

  /** Membership in the whole product, for every tuple. */
  lemma ProductAll(domain: seq<int>, k: nat)
    ensures forall t :: t in Product(domain, k) <==> |t| == k && Over(t, domain)
  {
    forall t ensures t in Product(domain, k) <==> |t| == k && Over(t, domain) {
      ProductMembers(domain, k, t);
    }
  }

  /** The loop that subtracts every later entry from the first. */
  method Difference(combination: seq<int>) returns (r: int)
    requires combination != []
    ensures r == LeftDifference(combination)
  {
    r := combination[0];
    for i := 1 to |combination|
      invariant r == combination[0] - Sum(combination[1..i])
    {
      SumSnoc(combination[1..i], combination[i]);
      assert combination[1..i + 1] == combination[1..i] + [combination[i]];
      r := r - combination[i];
    }
    assert combination[1..|combination|] == combination[1..];
  }

  lemma {:induction false} SumSnoc(t: seq<int>, x: int)
    ensures Sum(t + [x]) == Sum(t) + x
  {
    if t != [] {
      assert (t + [x])[1..] == t[1..] + [x];
      SumSnoc(t[1..], x);
    }
  }

  /** `t` rearranges a length-`k` tuple over the domain whose left-to-right difference is `desired`. */
  ghost predicate RearrangedDifference(t: seq<int>, k: nat, desired: int, domain: seq<int>) {
    exists s :: |s| == k && k > 0 && Over(s, domain) && LeftDifference(s) == desired && multiset(t) == multiset(s)
  }

  /**
   * `get_satisfying_tuples_for_subtraction`: every arrangement of every
   * product tuple whose left-to-right difference is the target, each once,
   * in the unspecified order of a Python set.  With no cells the first
   * `combination[0]` raises.
   */
  method SubtractionTuples(k: nat, desired: int, domain: seq<int>) returns (r: Result<seq<seq<int>>>)
    ensures r.Raises? <==> k == 0
    ensures r.Ok? ==> Distinct(r.value)
    ensures r.Ok? ==> forall t :: t in r.value <==> RearrangedDifference(t, k, desired, domain)
  {
    if k == 0 {
      // `product(domain, repeat=0)` yields one empty tuple, whose `[0]` fails.
      return Raises("IndexError: tuple index out of range");
    }
    var solutions := SolvingCombinations(k, desired, domain);
    var finalSolutions := Rearrangements(solutions);
    var list := ListOfTuples(finalSolutions);
    forall t ensures t in list <==> RearrangedDifference(t, k, desired, domain) {
      if t in finalSolutions {
        var j :| 0 <= j < |solutions| && multiset(t) == multiset(solutions[j]);
        assert solutions[j] in solutions;
      }
      if RearrangedDifference(t, k, desired, domain) {
        var s :| |s| == k && k > 0 && Over(s, domain) && LeftDifference(s) == desired && multiset(t) == multiset(s);
        assert s in solutions;
        var j :| 0 <= j < |solutions| && solutions[j] == s;
      }
    }
    r := Ok(list);
  }

  /** The first loop of the subtraction generator: the product tuples whose difference is the target. */
  method SolvingCombinations(k: nat, desired: int, domain: seq<int>) returns (solutions: seq<seq<int>>)
    requires k > 0
    ensures forall s :: s in solutions <==> |s| == k && Over(s, domain) && LeftDifference(s) == desired
  {
    var combos := Product(domain, k);
    solutions := [];
    for i := 0 to |combos|
      invariant forall s :: s in solutions <==> s in combos[..i] && |s| == k && LeftDifference(s) == desired
    {
      var combination := combos[i];
      ProductMembers(domain, k, combination);
      var d := Difference(combination);
      if d == desired {
        solutions := solutions + [combination];
      }
      assert combos[..i + 1] == combos[..i] + [combination];
    }
    assert combos[..|combos|] == combos;
    ProductAll(domain, k);
  }

  /** The second loop: the set of every permutation of every solution. */
  method Rearrangements(solutions: seq<seq<int>>) returns (finalSolutions: set<seq<int>>)
    ensures forall t :: t in finalSolutions <==> exists j :: 0 <= j < |solutions| && multiset(t) == multiset(solutions[j])
  {
    finalSolutions := {};
    for i := 0 to |solutions|
      invariant forall t :: t in finalSolutions <==> exists j :: 0 <= j < i && multiset(t) == multiset(solutions[j])
    {
      var perms := Perms(solutions[i]);
      ghost var before := finalSolutions;
      for j := 0 to |perms|
        invariant finalSolutions == before + set m | 0 <= m < j :: perms[m]
      {
        finalSolutions := finalSolutions + {perms[j]};
      }
      forall t ensures t in finalSolutions <==> t in before || multiset(t) == multiset(solutions[i]) {
        PermsMembers(solutions[i], t);
        if t in perms {
          var m :| 0 <= m < |perms| && perms[m] == t;
        }
      }
    }
  }

  /** Python's `list(s)` of a set of tuples, in an order the model leaves open. */
  method ListOfTuples(s: set<seq<int>>) returns (xs: seq<seq<int>>)
    ensures forall t :: t in xs <==> t in s
    ensures Distinct(xs)
  {
    xs := [];
    var rest := s;
    while rest != {}
      invariant rest <= s
      invariant forall t :: t in xs <==> t in s && t !in rest
      invariant Distinct(xs)
      decreases |rest|
    {
      var t :| t in rest;
      xs := xs + [t];
      rest := rest - {t};
    }
  }

  /** The subtraction table holds every solving tuple and is closed under rearranging. */
  lemma SubtractionClosed(k: nat, desired: int, domain: seq<int>, table: seq<seq<int>>, t: seq<int>, u: seq<int>)
    requires forall t :: t in table <==> RearrangedDifference(t, k, desired, domain)
    ensures |t| == k && k > 0 && Over(t, domain) && LeftDifference(t) == desired ==> t in table
    ensures t in table && multiset(u) == multiset(t) ==> u in table
  {
    if |t| == k && k > 0 && Over(t, domain) && LeftDifference(t) == desired {
      assert RearrangedDifference(t, k, desired, domain);
    }
    if t in table && multiset(u) == multiset(t) {
      var s :| |s| == k && k > 0 && Over(s, domain) && LeftDifference(s) == desired && multiset(t) == multiset(s);
      assert RearrangedDifference(u, k, desired, domain);
    }
  }
}
