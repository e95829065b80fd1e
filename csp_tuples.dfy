/**
 * Tuple enumeration behind the CSP encodings: `itertools.product(domain,
 * repeat=k)` and `itertools.permutations(s)`, both in the library's own
 * order and with its duplicates.
 */
module CspTuples {

  /** No element occurs twice. */
  predicate Distinct<T(==)>(xs: seq<T>) {
    forall i, j :: 0 <= i < j < |xs| ==> xs[i] != xs[j]
  }

  /** Every entry of the tuple is a domain value. */
  predicate Over(t: seq<int>, domain: seq<int>) {
    forall i :: 0 <= i < |t| ==> t[i] in domain
  }

  /** Each tail with `x` put in front. */
  function PrefixAll(x: int, tails: seq<seq<int>>): (ps: seq<seq<int>>)
    ensures |ps| == |tails|
    ensures forall i :: 0 <= i < |ps| ==> ps[i] == [x] + tails[i]
  {
    seq(|tails|, i requires 0 <= i < |tails| => [x] + tails[i])
  }

  /** A prefixed tuple is in the list exactly when its tail is. */
  lemma PrefixAllMembers(x: int, tails: seq<seq<int>>, t: seq<int>)
    ensures t in PrefixAll(x, tails) <==> t != [] && t[0] == x && t[1..] in tails
  {
    var ps := PrefixAll(x, tails);
    if t != [] && t[0] == x && t[1..] in tails {
      var i :| 0 <= i < |tails| && tails[i] == t[1..];
      assert ps[i] == t;
    }
  }

  /** Prefixing keeps distinct tails distinct. */
  lemma PrefixAllDistinct(x: int, tails: seq<seq<int>>)
    requires Distinct(tails)
    ensures Distinct(PrefixAll(x, tails))
  {
    var ps := PrefixAll(x, tails);
    forall i, j | 0 <= i < j < |ps| ensures ps[i] != ps[j] {
      assert ps[i][1..] == tails[i] && ps[j][1..] == tails[j];
    }
  }

  /* ---------------- itertools.product ---------------- */

  /** The tails prefixed with each domain value in turn. */
  function PrefixEach(domain: seq<int>, tails: seq<seq<int>>): seq<seq<int>> {
    if domain == [] then [] else PrefixAll(domain[0], tails) + PrefixEach(domain[1..], tails)
  }

  /** `itertools.product(domain, repeat=k)`: the first position varies slowest. */
  function Product(domain: seq<int>, k: nat): seq<seq<int>> {
    if k == 0 then [[]] else PrefixEach(domain, Product(domain, k - 1))
  }

  lemma {:induction false} PrefixEachMembers(domain: seq<int>, tails: seq<seq<int>>, t: seq<int>)
    ensures t in PrefixEach(domain, tails) <==> t != [] && t[0] in domain && t[1..] in tails
  {
    if domain != [] {
      PrefixAllMembers(domain[0], tails, t);
      PrefixEachMembers(domain[1..], tails, t);
      assert domain == [domain[0]] + domain[1..];
    }
  }

  /** The product holds exactly the length-`k` tuples over the domain. */
  lemma {:induction false} ProductMembers(domain: seq<int>, k: nat, t: seq<int>)
    ensures t in Product(domain, k) <==> |t| == k && Over(t, domain)
  {
    if k > 0 {
      PrefixEachMembers(domain, Product(domain, k - 1), t);
      if t != [] {
        ProductMembers(domain, k - 1, t[1..]);
        assert Over(t, domain) <==> t[0] in domain && Over(t[1..], domain) by {
          if t[0] in domain && Over(t[1..], domain) {
            forall i | 0 <= i < |t| ensures t[i] in domain {
              if i > 0 { assert t[i] == t[1..][i - 1]; }
            }
          }
        }
      }
    }
  }

  lemma {:induction false} PrefixEachDistinct(domain: seq<int>, tails: seq<seq<int>>)
    requires Distinct(domain) && Distinct(tails)
    ensures Distinct(PrefixEach(domain, tails))
  {
    if domain != [] {
      var front := PrefixAll(domain[0], tails);
      var rest := PrefixEach(domain[1..], tails);
      PrefixAllDistinct(domain[0], tails);
      PrefixEachDistinct(domain[1..], tails);
      forall i, j | 0 <= i < |front| && 0 <= j < |rest| ensures front[i] != rest[j] {
        PrefixEachMembers(domain[1..], tails, rest[j]);
        assert rest[j] in rest;
        var k :| 0 <= k < |domain[1..]| && domain[1..][k] == rest[j][0];
        assert domain[k + 1] == rest[j][0];
      }
      DistinctConcat(front, rest);
    }
  }

  /** Over a domain without repeats the product lists each tuple once. */
  lemma {:induction false} ProductDistinct(domain: seq<int>, k: nat)
    requires Distinct(domain)
    ensures Distinct(Product(domain, k))
  {
    if k > 0 {
      ProductDistinct(domain, k - 1);
      PrefixEachDistinct(domain, Product(domain, k - 1));
    }
  }

  /* ---------------- itertools.permutations ---------------- */

  /** `s` without its element at index `i`. */
  function RemoveAt(s: seq<int>, i: nat): (r: seq<int>)
    requires i < |s|
    ensures |r| == |s| - 1
    ensures multiset(r) == multiset(s) - multiset{s[i]}
  {
    assert s == s[..i] + [s[i]] + s[i + 1..];
    s[..i] + s[i + 1..]
  }

  /**
   * `itertools.permutations(s)`: for each index in turn, that element
   * followed by every arrangement of the others.  Equal elements at
   * different indices give repeated tuples, as in the library.
   */
  function Perms(s: seq<int>): seq<seq<int>>
    decreases |s|, |s| + 1
  {
    if s == [] then [[]] else PermsFrom(s, 0)
  }

  /** The arrangements of `s` that start with an element at index `i` or later. */
  function PermsFrom(s: seq<int>, i: nat): seq<seq<int>>
    requires i <= |s|
    decreases |s|, |s| - i
  {
    if i == |s| then [] else PrefixAll(s[i], Perms(RemoveAt(s, i))) + PermsFrom(s, i + 1)
  }

  lemma {:induction false} PermsFromMembers(s: seq<int>, i: nat, t: seq<int>)
    requires i <= |s|
    ensures t in PermsFrom(s, i) <==> exists j :: i <= j < |s| && t != [] && t[0] == s[j] && t[1..] in Perms(RemoveAt(s, j))
    decreases |s| - i
  {
    if i < |s| {
      PrefixAllMembers(s[i], Perms(RemoveAt(s, i)), t);
      PermsFromMembers(s, i + 1, t);
    }
  }

  /** The permutations of `s` are exactly the sequences with the same elements, counted with multiplicity. */
  lemma {:induction false} PermsMembers(s: seq<int>, t: seq<int>)
    ensures t in Perms(s) <==> multiset(t) == multiset(s)
    decreases |s|, 1
  {
    if s == [] {
      if multiset(t) == multiset(s) {
        assert |t| == |multiset(t)| == 0;
      }
    } else {
      PermsFromMembers(s, 0, t);
      if t in Perms(s) {
        PermOfPerms(s, t);
      }
      if multiset(t) == multiset(s) {
        PermsOfPerm(s, t);
      }
    }
  }

  /** Each listed arrangement has the elements of `s`. */
  lemma {:induction false} PermOfPerms(s: seq<int>, t: seq<int>)
    requires s != [] && exists j :: 0 <= j < |s| && t != [] && t[0] == s[j] && t[1..] in Perms(RemoveAt(s, j))
    ensures multiset(t) == multiset(s)
    decreases |s|, 0
  {
    var j :| 0 <= j < |s| && t != [] && t[0] == s[j] && t[1..] in Perms(RemoveAt(s, j));
    var r := RemoveAt(s, j);
    PermsMembers(r, t[1..]);
    HeadSplit(t);
    HeadSplitAt(s, j);
  }

  lemma HeadSplit(t: seq<int>)
    requires t != []
    ensures multiset(t) == multiset{t[0]} + multiset(t[1..])
  {
    assert t == [t[0]] + t[1..];
  }

  lemma HeadSplitAt(s: seq<int>, j: nat)
    requires j < |s|
    ensures multiset(s) == multiset{s[j]} + multiset(RemoveAt(s, j))
  {
    assert s == s[..j] + [s[j]] + s[j + 1..];
  }

  /** Each sequence with the elements of `s` is listed, after the index of an element equal to its head. */
  lemma {:induction false} PermsOfPerm(s: seq<int>, t: seq<int>)
    requires s != [] && multiset(t) == multiset(s)
    ensures exists j :: 0 <= j < |s| && t != [] && t[0] == s[j] && t[1..] in Perms(RemoveAt(s, j))
    decreases |s|, 0
  {
    assert |t| == |multiset(t)| == |s| > 0;
    HeadSplit(t);
    assert t[0] in multiset(s);
    var j :| 0 <= j < |s| && s[j] == t[0];
    HeadSplitAt(s, j);
    assert multiset(t[1..]) == multiset(RemoveAt(s, j));
    PermsMembers(RemoveAt(s, j), t[1..]);
  }

  function Factorial(n: nat): (f: nat)
    ensures f >= 1
  {
    if n == 0 then 1 else n * Factorial(n - 1)
  }

  lemma {:induction false} PermsFromCount(s: seq<int>, i: nat)
    requires i <= |s|
    ensures |s| > 0 ==> |PermsFrom(s, i)| == (|s| - i) * Factorial(|s| - 1)
    decreases |s|, 0, |s| - i
  {
    if i < |s| {
      var f := Factorial(|s| - 1);
      PermsCount(RemoveAt(s, i));
      PermsFromCount(s, i + 1);
      assert |PermsFrom(s, i)| == f + |PermsFrom(s, i + 1)|;
      assert (|s| - i) * f == f + (|s| - i - 1) * f;
    }
  }

  /** `permutations(s)` yields `|s|!` tuples. */
  lemma {:induction false} PermsCount(s: seq<int>)
    ensures |Perms(s)| == Factorial(|s|)
    decreases |s|, 1, 0
  {
    if s != [] {
      PermsFromCount(s, 0);
    }
  }

  /** Every arrangement listed from index `i` on starts with an element at index `i` or later. */
  lemma {:induction false} PermsFromHeads(s: seq<int>, i: nat, t: seq<int>)
    requires i <= |s| && t in PermsFrom(s, i)
    ensures t != [] && exists j :: i <= j < |s| && t[0] == s[j]
    decreases |s| - i
  {
    PermsFromMembers(s, i, t);
  }

  lemma RemoveAtDistinct(s: seq<int>, i: nat)
    requires i < |s| && Distinct(s)
    ensures Distinct(RemoveAt(s, i))
  {
    var r := RemoveAt(s, i);
    forall a, b | 0 <= a < b < |r| ensures r[a] != r[b] {
      var a', b' := if a < i then a else a + 1, if b < i then b else b + 1;
      assert r[a] == s[a'] && r[b] == s[b'];
    }
  }

  /** Two lists without repeats and with no common element concatenate to one without repeats. */
  lemma DistinctConcat<T>(front: seq<T>, rest: seq<T>)
    requires Distinct(front) && Distinct(rest)
    requires forall a, b :: 0 <= a < |front| && 0 <= b < |rest| ==> front[a] != rest[b]
    ensures Distinct(front + rest)
  {
    forall a, b | 0 <= a < b < |front + rest| ensures (front + rest)[a] != (front + rest)[b] {
      if b < |front| {
        assert (front + rest)[a] == front[a] && (front + rest)[b] == front[b];
      } else if a >= |front| {
        assert (front + rest)[a] == rest[a - |front|] && (front + rest)[b] == rest[b - |front|];
      } else {
        assert (front + rest)[a] == front[a] && (front + rest)[b] == rest[b - |front|];
      }
    }
  }

  lemma {:induction false} PermsFromDistinct(s: seq<int>, i: nat)
    requires i <= |s| && Distinct(s)
    ensures Distinct(PermsFrom(s, i))
    decreases |s|, 0, |s| - i
  {
    if i < |s| {
      var r := RemoveAt(s, i);
      RemoveAtDistinct(s, i);
      PermsDistinct(r);
      PrefixAllDistinct(s[i], Perms(r));
      PermsFromDistinct(s, i + 1);
      var front, rest := PrefixAll(s[i], Perms(r)), PermsFrom(s, i + 1);
      forall a, b | 0 <= a < |front| && 0 <= b < |rest| ensures front[a] != rest[b] {
        assert rest[b] in rest;
        PermsFromHeads(s, i + 1, rest[b]);
        var j :| i + 1 <= j < |s| && rest[b][0] == s[j];
        assert front[a][0] == s[i];
      }
      DistinctConcat(front, rest);
    }
  }

  /** The permutations of a sequence without repeats are all different. */
  lemma {:induction false} PermsDistinct(s: seq<int>)
    requires Distinct(s)
    ensures Distinct(Perms(s))
    decreases |s|, 1, 0
  {
    if s != [] {
      PermsFromDistinct(s, 0);
    }
  }
}
