/**
 * Python's `list.sort(key=..., reverse=True)`: a stable sort into
 * non-increasing key order.  (`reverse=True` keeps equal keys in their
 * original order.)  An ascending sort is the same sort on the negated key.
 */
module StableSort {
  /** Non-increasing by `key`. */
  ghost predicate SortedDesc<T>(s: seq<T>, key: T -> int) {
    forall i, j :: 0 <= i < j < |s| ==> key(s[i]) >= key(s[j])
  }

  /** The elements of `s` whose key is `k`, in their order in `s`. */
  function WithKey<T>(s: seq<T>, key: T -> int, k: int): seq<T> {
    if s == [] then []
    else (if key(s[0]) == k then [s[0]] else []) + WithKey(s[1..], key, k)
  }

  lemma {:induction false} WithKeyAppend<T>(a: seq<T>, b: seq<T>, key: T -> int, k: int)
    ensures WithKey(a + b, key, k) == WithKey(a, key, k) + WithKey(b, key, k)
  {
    if a == [] {
      assert a + b == b;
    } else {
      var h := if key(a[0]) == k then [a[0]] else [];
      assert (a + b)[0] == a[0] && (a + b)[1..] == a[1..] + b;
      WithKeyAppend(a[1..], b, key, k);
      assert WithKey(a + b, key, k) == h + (WithKey(a[1..], key, k) + WithKey(b, key, k));
      assert WithKey(a, key, k) == h + WithKey(a[1..], key, k);
    }
  }

  /** No element of a sorted sequence that starts below `k` has key `k`. */
  lemma {:induction false} WithKeyBelow<T>(s: seq<T>, key: T -> int, k: int)
    requires SortedDesc(s, key)
    requires s != [] ==> key(s[0]) < k
    ensures WithKey(s, key, k) == []
  {
    if s != [] {
      assert SortedDesc(s[1..], key);
      assert s[1..] != [] ==> key(s[1..][0]) <= key(s[0]);
      WithKeyBelow(s[1..], key, k);
    }
  }

  /** Inserts `x` after every element whose key is at least `x`'s key. */
  function Insert<T>(x: T, s: seq<T>, key: T -> int): (r: seq<T>)
    ensures multiset(r) == multiset(s) + multiset{x}
    ensures |r| == |s| + 1
  {
    if s == [] then [x]
    else if key(s[0]) >= key(x) then
      assert s == [s[0]] + s[1..];
      [s[0]] + Insert(x, s[1..], key)
    else
      [x] + s
  }

  lemma {:induction false} InsertSorted<T>(x: T, s: seq<T>, key: T -> int)
    requires SortedDesc(s, key)
    ensures SortedDesc(Insert(x, s, key), key)
  {
    if s != [] && key(s[0]) >= key(x) {
      var t := Insert(x, s[1..], key);
      assert SortedDesc(s[1..], key);
      InsertSorted(x, s[1..], key);
      forall j | 0 <= j < |t| ensures key(s[0]) >= key(t[j]) {
        assert t[j] in multiset(t);
        if t[j] != x {
          assert t[j] in multiset(s[1..]);
          var k :| 0 <= k < |s[1..]| && s[1..][k] == t[j];
          assert s[k + 1] == t[j];
        }
      }
      PrependSorted(s[0], t, key);
      assert Insert(x, s, key) == [s[0]] + t;
    }
  }

  /** An element no smaller than anything in a sorted sequence may go in front of it. */
  lemma PrependSorted<T>(y: T, t: seq<T>, key: T -> int)
    requires SortedDesc(t, key)
    requires forall j :: 0 <= j < |t| ==> key(y) >= key(t[j])
    ensures SortedDesc([y] + t, key)
  {
    var u := [y] + t;
    forall i, j | 0 <= i < j < |u| ensures key(u[i]) >= key(u[j]) {
      assert u[j] == t[j - 1];
      if i > 0 {
        assert u[i] == t[i - 1];
      }
    }
  }

  /** Inserting keeps, for every key, the earlier elements of that key before `x`. */
  lemma {:induction false} InsertWithKey<T>(x: T, s: seq<T>, key: T -> int, k: int)
    requires SortedDesc(s, key)
    ensures WithKey(Insert(x, s, key), key, k) == WithKey(s, key, k) + WithKey([x], key, k)
  {
    if s == [] {
      assert Insert(x, s, key) == [x];
      assert WithKey(s, key, k) == [];
    } else if key(s[0]) >= key(x) {
      assert SortedDesc(s[1..], key);
      InsertWithKey(x, s[1..], key, k);
      assert Insert(x, s, key) == [s[0]] + Insert(x, s[1..], key);
      InsertWithKeyPassed(x, s, Insert(x, s[1..], key), Insert(x, s, key), key, k);
    } else {
      InsertWithKeyFront(x, s, key, k);
    }
  }

  /** The step of `InsertWithKey` where `x` moves past the first element `s[0]` of `r = [s[0]] + t`. */
  lemma InsertWithKeyPassed<T>(x: T, s: seq<T>, t: seq<T>, r: seq<T>, key: T -> int, k: int)
    requires s != [] && r == [s[0]] + t
    requires WithKey(t, key, k) == WithKey(s[1..], key, k) + WithKey([x], key, k)
    ensures WithKey(r, key, k) == WithKey(s, key, k) + WithKey([x], key, k)
  {
    var h := if key(s[0]) == k then [s[0]] else [];
    assert r[0] == s[0] && r[1..] == t;
    assert WithKey(r, key, k) == h + WithKey(t, key, k);
    assert WithKey(s, key, k) == h + WithKey(s[1..], key, k);
  }

  /** The step of `InsertWithKey` where `x` goes in front. */
  lemma InsertWithKeyFront<T>(x: T, s: seq<T>, key: T -> int, k: int)
    requires SortedDesc(s, key)
    requires s != [] && key(s[0]) < key(x)
    ensures WithKey(Insert(x, s, key), key, k) == WithKey(s, key, k) + WithKey([x], key, k)
  {
    assert Insert(x, s, key) == [x] + s;
    WithKeyAppend([x], s, key, k);
    if key(x) == k {
      WithKeyBelow(s, key, k);
      assert WithKey([x], key, k) == [x];
    } else {
      assert WithKey([x], key, k) == [];
    }
  }

  /** Insertion sort, taking the input from left to right. */
  function SortDesc<T>(s: seq<T>, key: T -> int): (r: seq<T>)
    ensures |r| == |s|
    ensures multiset(r) == multiset(s)
    ensures SortedDesc(r, key)
    ensures forall k :: WithKey(r, key, k) == WithKey(s, key, k)
    decreases |s|
  {
    if s == [] then []
    else
      var init := s[..|s| - 1];
      var last := s[|s| - 1];
      var sorted := SortDesc(init, key);
      assert s == init + [last];
      var r := Insert(last, sorted, key);
      InsertSorted(last, sorted, key);
      assert forall k :: WithKey(r, key, k) == WithKey(s, key, k) by {
        forall k ensures WithKey(r, key, k) == WithKey(s, key, k) {
          InsertWithKey(last, sorted, key, k);
          WithKeyAppend(init, [last], key, k);
        }
      }
      r
  }
}
