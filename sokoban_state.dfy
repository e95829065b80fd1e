/**
 * The warehouse state the Sokoban heuristics read (`SokobanState` of
 * Sokoban_Starter/sokoban.py, which is not part of this model): the grid
 * size, the robots in their fixed order, and the sets of boxes, storage
 * squares and obstacles.  Positions are `(x, y)` pairs with `x` the column
 * and `y` the row, both counted from 0 inside the outer wall.
 */
module Sokoban {
  type Pos = (int, int)

  datatype State = State(
    width: int,
    height: int,
    robots: seq<Pos>,
    boxes: set<Pos>,
    storage: set<Pos>,
    obstacles: set<Pos>)

  /**
   * Python's `list(s)` of a set: its elements once each, in an order the
   * model leaves open (the loop picks any remaining element).
   */
  method ListOf(s: set<Pos>) returns (xs: seq<Pos>)
    ensures multiset(xs) == multiset(s)
    ensures |xs| == |s|
  {
    xs := [];
    var rest := s;
    while rest != {}
      invariant rest <= s
      invariant multiset(xs) + multiset(rest) == multiset(s)
      invariant |xs| + |rest| == |s|
      decreases |rest|
    {
      var p :| p in rest;
      xs := xs + [p];
      rest := rest - {p};
    }
  }

  /** Every element of a list built by `ListOf` is in the set and occurs once. */
  lemma ListOfElements(s: set<Pos>, xs: seq<Pos>)
    requires multiset(xs) == multiset(s)
    ensures forall p :: p in xs <==> p in s
    ensures forall i, j :: 0 <= i < j < |xs| ==> xs[i] != xs[j]
  {
    forall p ensures p in xs <==> p in s {
      assert p in xs <==> p in multiset(xs);
    }
    forall i, j | 0 <= i < j < |xs| ensures xs[i] != xs[j] {
      TwoOccurrences(xs, i, j);
    }
  }

  /** Two equal elements at different indices count twice. */
  lemma TwoOccurrences<T>(xs: seq<T>, i: nat, j: nat)
    requires i < j < |xs|
    ensures xs[i] == xs[j] ==> multiset(xs)[xs[i]] >= 2
  {
    assert xs == xs[..i] + [xs[i]] + xs[i + 1..j] + [xs[j]] + xs[j + 1..];
  }
}
