/**
 * Grid geometry of Sokoban_Starter/solution.py: the Manhattan distance,
 * the list of points on the "x first, then y" Manhattan path between two
 * positions, and the obstacle surcharge `obstacle_count` adds for every
 * blocked point on that path.
 */
module SokobanGeometry {
  import opened Sokoban

  function Abs(x: int): nat {
    if x < 0 then -x else x
  }

  /** `mahattan_distance`: the sum of the horizontal and vertical offsets. */
  function ManhattanDistance(a: Pos, b: Pos): nat {
    Abs(a.0 - b.0) + Abs(a.1 - b.1)
  }

  lemma ManhattanSymmetric(a: Pos, b: Pos)
    ensures ManhattanDistance(a, b) == ManhattanDistance(b, a)
  {
  }

  lemma ManhattanZeroIff(a: Pos, b: Pos)
    ensures ManhattanDistance(a, b) == 0 <==> a == b
  {
  }

  lemma ManhattanTriangle(a: Pos, b: Pos, c: Pos)
    ensures ManhattanDistance(a, c) <= ManhattanDistance(a, b) + ManhattanDistance(b, c)
  {
  }

  // ------------------------------------------------------------ manhattan_path

  /** The step `manhattan_path` walks from `a` towards `b` along one axis: +1 only when `b` is larger. */
  function Dir(a: int, b: int): int {
    if b > a then 1 else -1
  }

  /** The points the first loop appends: along row `p1.1`, one column at a time, ending in column `p2.0`. */
  function XLeg(p1: Pos, p2: Pos): (leg: seq<Pos>)
    ensures |leg| == Abs(p2.0 - p1.0)
  {
    seq(Abs(p2.0 - p1.0), k => (p1.0 + Dir(p1.0, p2.0) * (k + 1), p1.1))
  }

  /** The points the second loop appends: along column `p2.0`, one row at a time, ending in row `p2.1`. */
  function YLeg(p1: Pos, p2: Pos): (leg: seq<Pos>)
    ensures |leg| == Abs(p2.1 - p1.1)
  {
    seq(Abs(p2.1 - p1.1), k => (p2.0, p1.1 + Dir(p1.1, p2.1) * (k + 1)))
  }

  /** The list `manhattan_path(p1, p2)` returns. */
  function PathOf(p1: Pos, p2: Pos): seq<Pos> {
    [p1] + XLeg(p1, p2) + YLeg(p1, p2)
  }

  /** `manhattan_path`: `p1`, then the x-steps, then the y-steps, appended one at a time. */
  method ManhattanPath(p1: Pos, p2: Pos) returns (path: seq<Pos>)
    ensures path == PathOf(p1, p2)
  {
    path := [p1];
    var dirX := if p2.0 > p1.0 then 1 else -1;
    var dirY := if p2.1 > p1.1 then 1 else -1;
    var x := p1.0;
    while x != p2.0
      invariant if dirX == 1 then p1.0 <= x <= p2.0 else p2.0 <= x <= p1.0
      invariant path == [p1] + XLeg(p1, p2)[..Abs(x - p1.0)]
      decreases Abs(p2.0 - x)
    {
      assert XLeg(p1, p2)[..Abs(x + dirX - p1.0)] == XLeg(p1, p2)[..Abs(x - p1.0)] + [(x + dirX, p1.1)];
      path := path + [(x + dirX, p1.1)];
      x := x + dirX;
    }
    assert XLeg(p1, p2)[..Abs(x - p1.0)] == XLeg(p1, p2);
    ghost var xPath := path;
    var y := p1.1;
    while y != p2.1
      invariant if dirY == 1 then p1.1 <= y <= p2.1 else p2.1 <= y <= p1.1
      invariant path == xPath + YLeg(p1, p2)[..Abs(y - p1.1)]
      decreases Abs(p2.1 - y)
    {
      assert YLeg(p1, p2)[..Abs(y + dirY - p1.1)] == YLeg(p1, p2)[..Abs(y - p1.1)] + [(p2.0, y + dirY)];
      path := path + [(p2.0, y + dirY)];
      y := y + dirY;
    }
    assert YLeg(p1, p2)[..Abs(y - p1.1)] == YLeg(p1, p2);
  }

  /** The path starts at `p1`, ends at `p2` and has one point more than the distance between them. */
  lemma PathEnds(p1: Pos, p2: Pos)
    ensures var path := PathOf(p1, p2);
            && path[0] == p1 && path[|path| - 1] == p2
            && |path| == ManhattanDistance(p1, p2) + 1
  {
    var path := PathOf(p1, p2);
    var xs, ys := XLeg(p1, p2), YLeg(p1, p2);
    if |ys| > 0 {
      assert path[|path| - 1] == ys[|ys| - 1];
    } else if |xs| > 0 {
      assert path[|path| - 1] == xs[|xs| - 1];
    }
  }

  /** Consecutive points of the path are neighbours. */
  lemma PathSteps(p1: Pos, p2: Pos)
    ensures var path := PathOf(p1, p2);
            forall i :: 0 <= i < |path| - 1 ==> ManhattanDistance(path[i], path[i + 1]) == 1
  {
    var path := PathOf(p1, p2);
    var xs, ys := XLeg(p1, p2), YLeg(p1, p2);
    forall i | 0 <= i < |path| - 1 ensures ManhattanDistance(path[i], path[i + 1]) == 1 {
      if i == 0 && |xs| > 0 {
        assert path[1] == xs[0];
      } else if i == 0 {
        assert path[1] == ys[0];
      } else if i < |xs| {
        assert path[i] == xs[i - 1] && path[i + 1] == xs[i];
      } else if i == |xs| {
        assert path[i + 1] == ys[0];
      } else {
        assert path[i] == ys[i - 1 - |xs|] && path[i + 1] == ys[i - |xs|];
      }
    }
  }

  /**
   * The x-steps stay in row `p1.1` and the y-steps in column `p2.0`; the
   * corner `(p2.0, p1.1)` closes the x-steps.
   */
  lemma PathRowThenColumn(p1: Pos, p2: Pos)
    ensures var path, dx := PathOf(p1, p2), Abs(p2.0 - p1.0);
            && (forall i :: 0 <= i <= dx ==> path[i].1 == p1.1)
            && (forall i :: dx <= i < |path| ==> path[i].0 == p2.0)
  {
    var path := PathOf(p1, p2);
    var xs := XLeg(p1, p2);
    forall i | 1 <= i <= |xs| ensures path[i] == xs[i - 1] {
    }
    if |xs| > 0 {
      assert path[|xs|] == xs[|xs| - 1];
    }
  }

  /** No point occurs twice on the path. */
  lemma PathDistinct(p1: Pos, p2: Pos)
    ensures var path := PathOf(p1, p2);
            forall i, j :: 0 <= i < j < |path| ==> path[i] != path[j]
  {
    var path := PathOf(p1, p2);
    var xs, ys := XLeg(p1, p2), YLeg(p1, p2);
    var dx := |xs|;
    forall i, j | 0 <= i < j < |path| ensures path[i] != path[j] {
      if j <= dx {
        assert path[j] == xs[j - 1];
        if i > 0 {
          assert path[i] == xs[i - 1];
        }
        assert path[i].0 != path[j].0;
      } else {
        assert path[j] == ys[j - 1 - dx];
        if i > dx {
          assert path[i] == ys[i - 1 - dx];
        } else if i > 0 {
          assert path[i] == xs[i - 1];
        }
        assert path[i].1 != path[j].1;
      }
    }
  }

  // ------------------------------------------------------------ obstacle_count

  /** Python's `list.remove(x)` on a list holding `x`: the first occurrence goes. */
  function RemoveFirst(xs: seq<Pos>, x: Pos): (r: seq<Pos>)
    requires x in xs
    ensures multiset(r) == multiset(xs) - multiset{x}
    ensures |r| == |xs| - 1
  {
    assert xs == [xs[0]] + xs[1..];
    if xs[0] == x then xs[1..]
    else [xs[0]] + RemoveFirst(xs[1..], x)
  }

  /** Number of points of `path` that occur in the obstacle list `ms`. */
  function CountIn(path: seq<Pos>, ms: multiset<Pos>): nat {
    if path == [] then 0
    else (if path[0] in ms then 1 else 0) + CountIn(path[1..], ms)
  }

  /** At most every point is counted, and none is exactly when no point is listed. */
  lemma {:induction false} CountInBounds(path: seq<Pos>, ms: multiset<Pos>)
    ensures CountIn(path, ms) <= |path|
    ensures CountIn(path, ms) == 0 <==> forall p :: p in path ==> p !in ms
  {
    if path != [] {
      CountInBounds(path[1..], ms);
      assert path == [path[0]] + path[1..];
    }
  }

  /**
   * What `obstacle_count` scans: the boxes, obstacles and robots of the
   * state, with one occurrence of each end point taken out.
   */
  function Blockers(a: Pos, b: Pos, s: State): multiset<Pos> {
    multiset(s.boxes) + multiset(s.obstacles) + multiset(s.robots) - multiset{a} - multiset{b}
  }

  /** The value of `obstacle_count(a, b, state)`: two steps for every blocked point of the path. */
  function ObstacleCost(a: Pos, b: Pos, s: State): nat {
    2 * CountBlocked(PathOf(a, b), a, b, s)
  }

  /**
   * `p` is still listed once the end points `a` and `b` are taken out.  The
   * one-point quantifier keeps the verifier from expanding the scanned list
   * wherever a cost is merely mentioned.
   */
  predicate Blocked(p: Pos, a: Pos, b: Pos, s: State) {
    forall q | q == p :: q in Blockers(a, b, s)
  }

  /** Number of points of `path` still listed. */
  function CountBlocked(path: seq<Pos>, a: Pos, b: Pos, s: State): nat {
    if path == [] then 0
    else (if Blocked(path[0], a, b, s) then 1 else 0) + CountBlocked(path[1..], a, b, s)
  }

  /** Counting blocked points is counting the points in the list of blockers. */
  lemma {:induction false} CountBlockedIsCountIn(path: seq<Pos>, a: Pos, b: Pos, s: State)
    ensures CountBlocked(path, a, b, s) == CountIn(path, Blockers(a, b, s))
  {
    if path != [] {
      CountBlockedIsCountIn(path[1..], a, b, s);
      assert Blocked(path[0], a, b, s) <==> path[0] in Blockers(a, b, s);
    }
  }

  /** The surcharge is even, at most two per path point, and zero exactly when the path is clear. */
  lemma ObstacleCostBounds(a: Pos, b: Pos, s: State)
    ensures var c := ObstacleCost(a, b, s);
            c % 2 == 0 && c <= 2 * (ManhattanDistance(a, b) + 1)
            && (c == 0 <==> forall p :: p in PathOf(a, b) ==> p !in Blockers(a, b, s))
  {
    var path := PathOf(a, b);
    PathEnds(a, b);
    CountBlockedIsCountIn(path, a, b, s);
    CountInBounds(path, Blockers(a, b, s));
  }

  /**
   * `obstacle_count`: lists the boxes, obstacles and robots, removes the two
   * end points when present, and adds 2 for each path point still listed.
   */
  method ObstacleCount(box: Pos, position: Pos, state: State) returns (count: nat)
    ensures count == ObstacleCost(box, position, state)
  {
    var list := ObstacleList(box, position, state);
    var mPath := ManhattanPath(box, position);
    count := SumListed(mPath, list);
    CountBlockedIsCountIn(mPath, box, position, state);
  }

  /** `sum(2 for element in m_path if element in obstacle_list)`. */
  method SumListed(mPath: seq<Pos>, list: seq<Pos>) returns (count: nat)
    ensures count == 2 * CountIn(mPath, multiset(list))
  {
    count := 0;
    for i := 0 to |mPath|
      invariant count == 2 * CountIn(mPath[..i], multiset(list))
    {
      CountInSplit(mPath[..i], [mPath[i]], multiset(list));
      assert mPath[..i + 1] == mPath[..i] + [mPath[i]];
      if mPath[i] in list {
        count := count + 2;
      }
    }
    assert mPath[..|mPath|] == mPath;
  }

  /** The list `obstacle_count` scans, after the end points are removed from it. */
  method ObstacleList(box: Pos, position: Pos, state: State) returns (list: seq<Pos>)
    ensures multiset(list) == Blockers(box, position, state)
  {
    var boxList := ListOf(state.boxes);
    var obstacleList := ListOf(state.obstacles);
    list := boxList + obstacleList + state.robots;
    ghost var all := multiset(state.boxes) + multiset(state.obstacles) + multiset(state.robots);
    assert multiset(list) == all;
    if box in list {
      list := RemoveFirst(list, box);
    }
    RemoveIfPresent(all, box);
    ghost var afterBox := all - multiset{box};
    assert multiset(list) == afterBox;
    if position in list {
      list := RemoveFirst(list, position);
    }
    RemoveIfPresent(afterBox, position);
  }

  /** Taking out an element that is not there leaves a multiset as it is. */
  lemma RemoveIfPresent(ms: multiset<Pos>, x: Pos)
    ensures x !in ms ==> ms - multiset{x} == ms
  {
  }

  lemma {:induction false} CountInSplit(xs: seq<Pos>, ys: seq<Pos>, ms: multiset<Pos>)
    ensures CountIn(xs + ys, ms) == CountIn(xs, ms) + CountIn(ys, ms)
  {
    if xs == [] {
      assert xs + ys == ys;
    } else {
      assert (xs + ys)[1..] == xs[1..] + ys;
      CountInSplit(xs[1..], ys, ms);
    }
  }

  /** The squares holding a box, an obstacle or a robot. */
  function Occupied(s: State): set<Pos> {
    s.boxes + s.obstacles + set r | r in s.robots
  }

  /** No square holds two of the things `obstacle_count` scans. */
  ghost predicate ApartAll(s: State) {
    && s.boxes !! s.obstacles
    && (forall i :: 0 <= i < |s.robots| ==> s.robots[i] !in s.boxes + s.obstacles)
    && (forall i, j :: 0 <= i < j < |s.robots| ==> s.robots[i] != s.robots[j])
  }

  /** Then the scanned list holds each occupied square once. */
  lemma ScannedOnce(s: State)
    requires ApartAll(s)
    ensures forall p :: (multiset(s.boxes) + multiset(s.obstacles) + multiset(s.robots))[p] == multiset(Occupied(s))[p]
  {
    forall p ensures (multiset(s.boxes) + multiset(s.obstacles) + multiset(s.robots))[p] == multiset(Occupied(s))[p] {
      RobotsOnce(s.robots, p);
    }
  }

  /**
   * When no square holds two of the scanned things, the surcharge is two
   * for every point strictly between the end points that holds a box, an
   * obstacle or a robot.
   */
  lemma ObstacleCostInterior(a: Pos, b: Pos, s: State)
    requires a != b && ApartAll(s)
    ensures var path := PathOf(a, b);
            ObstacleCost(a, b, s) == 2 * CountIn(path[1..|path| - 1], multiset(Occupied(s)))
  {
    var path := PathOf(a, b);
    var bl := Blockers(a, b, s);
    CountBlockedIsCountIn(path, a, b, s);
    MidAvoidsEnds(a, b);
    var mid := path[1..|path| - 1];
    CountInEnds(path, bl);
    EndsNotBlockers(a, b, s);
    BlockersBetween(a, b, s, mid);
    CountInSame(mid, bl, multiset(Occupied(s)));
  }

  /** The path has two distinct end points and no point strictly inside it is one of them. */
  lemma MidAvoidsEnds(a: Pos, b: Pos)
    requires a != b
    ensures var path := PathOf(a, b);
            && |path| >= 2 && path[0] == a && path[|path| - 1] == b
            && var mid := path[1..|path| - 1];
               forall i :: 0 <= i < |mid| ==> mid[i] != a && mid[i] != b
  {
    var path := PathOf(a, b);
    PathEnds(a, b);
    ManhattanZeroIff(a, b);
    PathDistinct(a, b);
    var mid := path[1..|path| - 1];
    forall i | 0 <= i < |mid| ensures mid[i] != a && mid[i] != b {
      assert mid[i] == path[i + 1];
    }
  }

  /** Counting along a path of two or more points: the first point, the inside, the last point. */
  lemma CountInEnds(path: seq<Pos>, ms: multiset<Pos>)
    requires |path| >= 2
    ensures CountIn(path, ms)
         == (if path[0] in ms then 1 else 0) + CountIn(path[1..|path| - 1], ms)
            + (if path[|path| - 1] in ms then 1 else 0)
  {
    var mid := path[1..|path| - 1];
    assert path[1..] == mid + [path[|path| - 1]];
    CountInSplit(mid, [path[|path| - 1]], ms);
  }

  /** Once one occurrence of each end point is taken out, neither is still listed. */
  lemma EndsNotBlockers(a: Pos, b: Pos, s: State)
    requires a != b && ApartAll(s)
    ensures a !in Blockers(a, b, s) && b !in Blockers(a, b, s)
  {
    ScannedOnce(s);
  }

  /** Away from the end points, the scanned list holds exactly the occupied squares. */
  lemma BlockersBetween(a: Pos, b: Pos, s: State, mid: seq<Pos>)
    requires ApartAll(s)
    requires forall i :: 0 <= i < |mid| ==> mid[i] != a && mid[i] != b
    ensures forall i :: 0 <= i < |mid| ==> (mid[i] in Blockers(a, b, s) <==> mid[i] in multiset(Occupied(s)))
  {
    ScannedOnce(s);
  }

  /** Each position occurs at most once in a list of distinct robots. */
  lemma {:induction false} RobotsOnce(rs: seq<Pos>, p: Pos)
    requires forall i, j :: 0 <= i < j < |rs| ==> rs[i] != rs[j]
    ensures multiset(rs)[p] == if p in rs then 1 else 0
  {
    if rs != [] {
      assert rs == [rs[0]] + rs[1..];
      RobotsOnce(rs[1..], p);
    }
  }

  /** Two obstacle lists that hold the same points of `path` count it alike. */
  lemma {:induction false} CountInSame(path: seq<Pos>, ms: multiset<Pos>, ns: multiset<Pos>)
    requires forall i :: 0 <= i < |path| ==> (path[i] in ms <==> path[i] in ns)
    ensures CountIn(path, ms) == CountIn(path, ns)
  {
    if path != [] {
      CountInSame(path[1..], ms, ns);
    }
  }
}
