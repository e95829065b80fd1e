/**
 * The distance heuristics of Sokoban_Starter/solution.py: the plain
 * Manhattan heuristic over all boxes, the "better" Manhattan heuristic that
 * also counts the robot's walk and detours around blocked squares, and the
 * alternate heuristic that adds deadlock detection and remembers its last
 * answer.  Python's `math.inf` is `PosInf` of `ExtInts`.
 */
module SokobanHeuristics {
  import opened Wrappers
  import opened ExtInts
  import opened Sokoban
  import opened SokobanGeometry
  import opened SokobanDeadlock

  /* ---------------- heur_manhattan_distance ---------------- */

  /** `m` is the distance from `box` to a nearest square of `S`. */
  ghost predicate IsNearest(box: Pos, S: set<Pos>, m: int) {
    (exists t :: t in S && ManhattanDistance(box, t) == m)
    && forall t :: t in S ==> m <= ManhattanDistance(box, t)
  }

  lemma {:induction false} NearestExists(box: Pos, S: set<Pos>)
    requires S != {}
    ensures exists m :: IsNearest(box, S, m)
    decreases |S|
  {
    var t :| t in S;
    if S == {t} {
      assert IsNearest(box, S, ManhattanDistance(box, t));
    } else {
      NearestExists(box, S - {t});
      var m :| IsNearest(box, S - {t}, m);
      if ManhattanDistance(box, t) < m {
        assert IsNearest(box, S, ManhattanDistance(box, t));
      } else {
        assert IsNearest(box, S, m);
      }
    }
  }

  /** The inner loop's answer: `inf` for no storage, else the distance to a nearest storage square. */
  ghost function Nearest(box: Pos, S: set<Pos>): (d: ExtInt)
    ensures d.PosInf? <==> S == {}
    ensures d.Fin? ==> d.value >= 0
  {
    if S == {} then PosInf
    else
      NearestExists(box, S);
      var m :| IsNearest(box, S, m);
      Fin(m)
  }

  /** For some storage, the inner loop's answer is the distance to a nearest storage square. */
  lemma NearestIsNearest(box: Pos, S: set<Pos>)
    ensures Nearest(box, S).Fin? ==> IsNearest(box, S, Nearest(box, S).value)
  {
  }

  /** The sum over the boxes of `B` of their nearest storage distances, in any order. */
  ghost function ManhattanSum(B: set<Pos>, S: set<Pos>): (h: ExtInt)
    ensures h.Fin? ==> h.value >= 0
    ensures !h.NegInf?
    decreases |B|
  {
    if B == {} then Fin(0)
    else
      var b :| b in B;
      Add(ManhattanSum(B - {b}, S), Nearest(b, S))
  }

  /** The sum does not depend on which box is taken first. */
  lemma {:induction false} ManhattanSumPick(B: set<Pos>, S: set<Pos>, x: Pos)
    requires x in B
    ensures ManhattanSum(B, S) == Add(ManhattanSum(B - {x}, S), Nearest(x, S))
    decreases |B|
  {
    var y :| y in B && ManhattanSum(B, S) == Add(ManhattanSum(B - {y}, S), Nearest(y, S));
    if y != x {
      var r := B - {y} - {x};
      assert B - {x} - {y} == r;
      ManhattanSumPick(B - {y}, S, x);
      ManhattanSumPick(B - {x}, S, y);
      AddSwap(ManhattanSum(r, S), Nearest(x, S), Nearest(y, S));
    }
  }

  /** Adding two terms in either order gives the same sum. */
  lemma AddSwap(a: ExtInt, b: ExtInt, c: ExtInt)
    requires !a.NegInf? && !b.NegInf? && !c.NegInf?
    ensures Add(Add(a, b), c) == Add(Add(a, c), b)
  {
  }

  /** Adding a term to the running sum first, or to the rest first, gives the same total. */
  lemma AddRegroup(a: ExtInt, b: ExtInt, c: ExtInt)
    requires !a.NegInf? && !b.NegInf? && !c.NegInf?
    ensures Add(a, Add(b, c)) == Add(Add(a, c), b)
  {
  }

  /** `heur_manhattan_distance`: for each box, the least distance to a storage square, summed. */
  method HeurManhattanDistance(state: State) returns (h: ExtInt)
    ensures h == ManhattanSum(state.boxes, state.storage)
  {
    var sumDist := Fin(0);
    var boxes := state.boxes;
    while boxes != {}
      invariant boxes <= state.boxes
      invariant !sumDist.NegInf?
      invariant ManhattanSum(state.boxes, state.storage) == Add(sumDist, ManhattanSum(boxes, state.storage))
      decreases |boxes|
    {
      var box :| box in boxes;
      var dist := NearestStorage(box, state.storage);
      ManhattanSumPick(boxes, state.storage, box);
      AddRegroup(sumDist, ManhattanSum(boxes - {box}, state.storage), dist);
      sumDist := Add(sumDist, dist);
      boxes := boxes - {box};
    }
    h := sumDist;
  }

  /** The inner loop of `heur_manhattan_distance`: a running `min` over the storage squares. */
  method NearestStorage(box: Pos, storage: set<Pos>) returns (dist: ExtInt)
    ensures dist == Nearest(box, storage)
  {
    dist := PosInf;
    var rest := storage;
    ghost var seen := {};
    while rest != {}
      invariant seen + rest == storage && seen !! rest
      invariant ScannedNearest(box, seen, dist)
      decreases |rest|
    {
      var t :| t in rest;
      NearestAdd(box, seen, t, dist);
      dist := Min(dist, Fin(ManhattanDistance(box, t)));
      rest := rest - {t};
      seen := seen + {t};
    }
    ScannedAll(box, storage, seen, dist);
  }

  /**
   * `dist` is the running `min` over the squares `seen` so far: `inf` before
   * the first one, then the nearest distance among them.  Stated through a
   * one-point quantifier so that the loop does not unfold it.
   */
  ghost predicate ScannedNearest(box: Pos, seen: set<Pos>, dist: ExtInt) {
    forall k | k == seen :: NearestSoFar(box, k, dist)
  }

  ghost predicate NearestSoFar(box: Pos, seen: set<Pos>, dist: ExtInt) {
    && (dist.PosInf? <==> seen == {})
    && !dist.NegInf?
    && (dist.Fin? ==> IsNearest(box, seen, dist.value))
  }

  /** One more storage square scanned. */
  lemma NearestAdd(box: Pos, seen: set<Pos>, t: Pos, dist: ExtInt)
    requires ScannedNearest(box, seen, dist)
    ensures ScannedNearest(box, seen + {t}, Min(dist, Fin(ManhattanDistance(box, t))))
  {
    assert NearestSoFar(box, seen, dist);
    assert NearestSoFar(box, seen + {t}, Min(dist, Fin(ManhattanDistance(box, t))));
  }

  /** Once every square is scanned, the running `min` is the nearest distance. */
  lemma ScannedAll(box: Pos, storage: set<Pos>, seen: set<Pos>, dist: ExtInt)
    requires seen == storage && ScannedNearest(box, seen, dist)
    ensures dist == Nearest(box, storage)
  {
    assert NearestSoFar(box, seen, dist);
    NearestIsNearest(box, storage);
    if dist.Fin? {
      NearestUnique(box, storage, dist.value, Nearest(box, storage).value);
    }
  }

  /** The nearest distance is unique. */
  lemma NearestUnique(box: Pos, S: set<Pos>, m: int, m': int)
    requires IsNearest(box, S, m) && IsNearest(box, S, m')
    ensures m == m'
  {
  }

  /** A box's term is zero exactly when the box is on storage. */
  lemma NearestZeroIff(box: Pos, S: set<Pos>)
    ensures Nearest(box, S) == Fin(0) <==> box in S
  {
    if box in S {
      assert ManhattanDistance(box, box) == 0;
    }
    if Nearest(box, S) == Fin(0) {
      NearestIsNearest(box, S);
      var t :| t in S && ManhattanDistance(box, t) == 0;
      ManhattanZeroIff(box, t);
    }
  }

  /** The Manhattan heuristic is 0 exactly in a goal state: every box is on storage. */
  lemma {:induction false} ManhattanZeroIffStored(B: set<Pos>, S: set<Pos>)
    ensures ManhattanSum(B, S) == Fin(0) <==> B <= S
    decreases |B|
  {
    if B != {} {
      var b :| b in B;
      ManhattanSumPick(B, S, b);
      ManhattanZeroIffStored(B - {b}, S);
      NearestZeroIff(b, S);
    }
  }

  /** The Manhattan heuristic is `inf` exactly when there are boxes but no storage at all. */
  lemma {:induction false} ManhattanInfIff(B: set<Pos>, S: set<Pos>)
    ensures ManhattanSum(B, S).PosInf? <==> B != {} && S == {}
    decreases |B|
  {
    if B != {} {
      var b :| b in B;
      ManhattanSumPick(B, S, b);
      ManhattanInfIff(B - {b}, S);
    }
  }

  /* ---------------- heur_better_mahanttan_distance ---------------- */

  /** What `heur_better_mahanttan_distance` stores for the pair `(a, b)`: walk plus detours. */
  function PairCost(a: Pos, b: Pos, s: State): nat {
    ManhattanDistance(a, b) + ObstacleCost(a, b, s)
  }

  /** The pair costs of a state, as one function. */
  function Costs(s: State): (Pos, Pos) -> nat {
    (a: Pos, b: Pos) => PairCost(a, b, s)
  }

  /** A running `min` from `inf` over a list of costs. */
  function Least(xs: seq<nat>): (r: ExtInt)
    ensures r.PosInf? <==> xs == []
    ensures r.Fin? ==> r.value >= 0
    ensures !r.NegInf?
  {
    if xs == [] then PosInf
    else Min(Least(xs[..|xs| - 1]), Fin(xs[|xs| - 1]))
  }

  /** A non-empty list's running minimum is one of its costs and no cost is below it. */
  lemma {:induction false} LeastIsMinimum(xs: seq<nat>)
    requires xs != []
    ensures Least(xs).value in xs
    ensures forall i :: 0 <= i < |xs| ==> Least(xs).value <= xs[i]
  {
    var front := xs[..|xs| - 1];
    if front != [] {
      LeastIsMinimum(front);
      assert forall i :: 0 <= i < |front| ==> xs[i] == front[i];
    }
  }

  /** The least cost depends only on which costs occur, not on their order or repetition. */
  lemma LeastBySet(xs: seq<nat>, ys: seq<nat>)
    requires forall x :: x in xs <==> x in ys
    ensures Least(xs) == Least(ys)
  {
    if ys != [] {
      assert ys[0] in xs;
    }
    if xs != [] {
      assert xs[0] in ys;
      LeastIsMinimum(xs);
      LeastIsMinimum(ys);
      var a, b := Least(xs).value, Least(ys).value;
      assert a in ys && b in xs;
    }
  }

  /** The costs of reaching `box` from each robot, in robot order. */
  function RobotCosts(cost: (Pos, Pos) -> nat, robots: seq<Pos>, box: Pos): (cs: seq<nat>)
    ensures |cs| == |robots|
  {
    seq(|robots|, i requires 0 <= i < |robots| => cost(robots[i], box))
  }

  /** The costs of pushing `box` to each listed storage square. */
  function StorageCosts(cost: (Pos, Pos) -> nat, box: Pos, storage: seq<Pos>): (cs: seq<nat>)
    ensures |cs| == |storage|
  {
    seq(|storage|, i requires 0 <= i < |storage| => cost(box, storage[i]))
  }

  /** One box's contribution: nearest robot plus nearest free storage. */
  function BoxTerm(cost: (Pos, Pos) -> nat, robots: seq<Pos>, box: Pos, storage: seq<Pos>): (t: ExtInt)
    ensures !t.NegInf?
  {
    Add(Least(RobotCosts(cost, robots, box)), Least(StorageCosts(cost, box, storage)))
  }

  /** The value of `heur_better_mahanttan_distance`: the box terms summed from 0 in list order. */
  function BetterTotal(cost: (Pos, Pos) -> nat, robots: seq<Pos>, boxes: seq<Pos>, storage: seq<Pos>): (h: ExtInt)
    ensures !h.NegInf?
    ensures h.Fin? ==> h.value >= 0
  {
    if boxes == [] then Fin(0)
    else Add(BetterTotal(cost, robots, boxes[..|boxes| - 1], storage), BoxTerm(cost, robots, boxes[|boxes| - 1], storage))
  }

  /** Every remembered pair holds that pair's cost. */
  predicate MemoSound(memo: map<(Pos, Pos), nat>, s: State) {
    forall k :: k in memo ==> memo[k] == PairCost(k.0, k.1, s)
  }

  /**
   * `heur_better_mahanttan_distance`: for each box, the cheapest robot and the
   * cheapest free storage square, remembering each pair's cost in a
   * dictionary so that no pair is costed twice.
   */
  method HeurBetter(state: State, availableBox: seq<Pos>, availableStorage: seq<Pos>) returns (h: ExtInt)
    ensures h == BetterTotal(Costs(state), state.robots, availableBox, availableStorage)
  {
    var totalDist := Fin(0);
    var memo: map<(Pos, Pos), nat> := map[];
    for i := 0 to |availableBox|
      invariant totalDist == BetterTotal(Costs(state), state.robots, availableBox[..i], availableStorage)
      invariant MemoSound(memo, state)
    {
      var box := availableBox[i];
      var minRobot;
      minRobot, memo := NearestRobot(state, box, memo);
      var minStorage;
      minStorage, memo := NearestFreeStorage(state, box, availableStorage, memo);
      assert availableBox[..i + 1][..i] == availableBox[..i];
      totalDist := Add(totalDist, Add(minRobot, minStorage));
    }
    assert availableBox[..|availableBox|] == availableBox;
    h := totalDist;
  }

  /** The dictionary lookup of `heur_better_mahanttan_distance`, costing the pair on a miss. */
  method CachedCost(state: State, a: Pos, b: Pos, memo0: map<(Pos, Pos), nat>)
    returns (v: nat, memo: map<(Pos, Pos), nat>)
    requires MemoSound(memo0, state)
    ensures v == Costs(state)(a, b)
    ensures MemoSound(memo, state)
    ensures (a, b) in memo && memo[(a, b)] == v
    ensures memo.Keys == memo0.Keys + {(a, b)}
  {
    memo := memo0;
    if (a, b) !in memo {
      var detour := ObstacleCount(a, b, state);
      MemoStore(memo, state, a, b, ManhattanDistance(a, b) + detour);
      memo := memo[(a, b) := ManhattanDistance(a, b) + detour];
    }
    v := memo[(a, b)];
  }

  /** Remembering a pair's true cost keeps the dictionary sound. */
  lemma MemoStore(memo: map<(Pos, Pos), nat>, s: State, a: Pos, b: Pos, v: nat)
    requires MemoSound(memo, s) && v == PairCost(a, b, s)
    ensures MemoSound(memo[(a, b) := v], s)
  {
  }

  /** One more step of a running `min`. */
  lemma LeastStep(xs: seq<nat>, j: nat, x: nat)
    requires j < |xs| && x == xs[j]
    ensures Least(xs[..j + 1]) == Min(Least(xs[..j]), Fin(x))
  {
    assert xs[..j + 1][..j] == xs[..j];
  }

  /** The robot loop of `heur_better_mahanttan_distance`. */
  method NearestRobot(state: State, box: Pos, memo0: map<(Pos, Pos), nat>)
    returns (minDist: ExtInt, memo: map<(Pos, Pos), nat>)
    requires MemoSound(memo0, state)
    ensures minDist == Least(RobotCosts(Costs(state), state.robots, box))
    ensures MemoSound(memo, state)
  {
    memo := memo0;
    minDist := PosInf;
    ghost var costs := RobotCosts(Costs(state), state.robots, box);
    for j := 0 to |state.robots|
      invariant minDist == Least(costs[..j])
      invariant MemoSound(memo, state)
    {
      var c;
      c, memo := CachedCost(state, state.robots[j], box, memo);
      LeastStep(costs, j, c);
      minDist := Min(minDist, Fin(c));
    }
    assert costs[..|state.robots|] == costs;
  }

  /** The storage loop of `heur_better_mahanttan_distance`. */
  method NearestFreeStorage(state: State, box: Pos, availableStorage: seq<Pos>, memo0: map<(Pos, Pos), nat>)
    returns (minDist: ExtInt, memo: map<(Pos, Pos), nat>)
    requires MemoSound(memo0, state)
    ensures minDist == Least(StorageCosts(Costs(state), box, availableStorage))
    ensures MemoSound(memo, state)
  {
    memo := memo0;
    minDist := PosInf;
    ghost var costs := StorageCosts(Costs(state), box, availableStorage);
    for j := 0 to |availableStorage|
      invariant minDist == Least(costs[..j])
      invariant MemoSound(memo, state)
    {
      var c;
      c, memo := CachedCost(state, box, availableStorage[j], memo);
      LeastStep(costs, j, c);
      minDist := Min(minDist, Fin(c));
    }
    assert costs[..|availableStorage|] == costs;
  }

  /** The better heuristic is `inf` exactly when some box has no robot or no free storage to use. */
  lemma {:induction false} BetterInfIff(cost: (Pos, Pos) -> nat, robots: seq<Pos>, boxes: seq<Pos>, storage: seq<Pos>)
    ensures BetterTotal(cost, robots, boxes, storage).PosInf? <==> boxes != [] && (robots == [] || storage == [])
  {
    if boxes != [] {
      BetterInfIff(cost, robots, boxes[..|boxes| - 1], storage);
    }
  }

  /** Listing the free storage squares in another order, or with repeats, does not change the value. */
  lemma {:induction false} BetterByStorageSet(cost: (Pos, Pos) -> nat, robots: seq<Pos>, boxes: seq<Pos>,
                                              storage: seq<Pos>, storage': seq<Pos>)
    requires forall p :: p in storage <==> p in storage'
    ensures BetterTotal(cost, robots, boxes, storage) == BetterTotal(cost, robots, boxes, storage')
  {
    if boxes != [] {
      BetterByStorageSet(cost, robots, boxes[..|boxes| - 1], storage, storage');
      var box := boxes[|boxes| - 1];
      StorageCostsBySet(cost, box, storage, storage');
      LeastBySet(StorageCosts(cost, box, storage), StorageCosts(cost, box, storage'));
    }
  }

  /** Two listings of the same storage squares give the same costs, possibly in another order. */
  lemma StorageCostsBySet(cost: (Pos, Pos) -> nat, box: Pos, storage: seq<Pos>, storage': seq<Pos>)
    requires forall p :: p in storage <==> p in storage'
    ensures var cs, cs' := StorageCosts(cost, box, storage), StorageCosts(cost, box, storage');
            forall x :: x in cs <==> x in cs'
  {
    var cs, cs' := StorageCosts(cost, box, storage), StorageCosts(cost, box, storage');
    forall x ensures x in cs <==> x in cs' {
      if x in cs {
        var i :| 0 <= i < |cs| && cs[i] == x;
        assert storage[i] in storage;
        var j :| 0 <= j < |storage'| && storage'[j] == storage[i];
        assert cs'[j] == x;
      }
      if x in cs' {
        var j :| 0 <= j < |cs'| && cs'[j] == x;
        assert storage'[j] in storage';
        var i :| 0 <= i < |storage| && storage[i] == storage'[j];
        assert cs[i] == x;
      }
    }
  }

  /** Taking any one box out of the list and adding its term last gives the same total. */
  lemma {:induction false} BetterRemove(cost: (Pos, Pos) -> nat, robots: seq<Pos>, boxes: seq<Pos>, storage: seq<Pos>, k: nat)
    requires k < |boxes|
    ensures BetterTotal(cost, robots, boxes, storage)
         == Add(BetterTotal(cost, robots, boxes[..k] + boxes[k + 1..], storage), BoxTerm(cost, robots, boxes[k], storage))
  {
    var n := |boxes|;
    if k == n - 1 {
      assert boxes[..k] + boxes[k + 1..] == boxes[..n - 1];
    } else {
      var front := boxes[..n - 1];
      BetterRemove(cost, robots, front, storage, k);
      var zs := boxes[..k] + boxes[k + 1..];
      assert front[..k] + front[k + 1..] == zs[..|zs| - 1];
      assert zs[|zs| - 1] == boxes[n - 1];
      assert front[k] == boxes[k];
      AddSwap(BetterTotal(cost, robots, zs[..|zs| - 1], storage),
              BoxTerm(cost, robots, boxes[k], storage), BoxTerm(cost, robots, boxes[n - 1], storage));
    }
  }

  /** The order in which the boxes are listed does not change the value. */
  lemma {:induction false} BetterByBoxOrder(cost: (Pos, Pos) -> nat, robots: seq<Pos>, boxes: seq<Pos>, boxes': seq<Pos>, storage: seq<Pos>)
    requires multiset(boxes) == multiset(boxes')
    ensures BetterTotal(cost, robots, boxes, storage) == BetterTotal(cost, robots, boxes', storage)
    decreases |boxes|
  {
    if boxes != [] {
      var n := |boxes|;
      var x := boxes[n - 1];
      assert x in multiset(boxes');
      var k :| 0 <= k < |boxes'| && boxes'[k] == x;
      var rest' := boxes'[..k] + boxes'[k + 1..];
      assert boxes' == boxes'[..k] + [x] + boxes'[k + 1..];
      assert boxes == boxes[..n - 1] + [x];
      assert multiset(boxes') == multiset(rest') + multiset{x};
      assert multiset(boxes) == multiset(boxes[..n - 1]) + multiset{x};
      assert multiset(rest') == multiset(boxes') - multiset{x};
      assert multiset(boxes[..n - 1]) == multiset(boxes) - multiset{x};
      BetterByBoxOrder(cost, robots, boxes[..n - 1], rest', storage);
      BetterRemove(cost, robots, boxes', storage, k);
    } else {
      assert boxes' == [];
    }
  }

  /* ---------------- heur_alternate ---------------- */

  /** A fixed listing of a set, the specification's stand-in for Python's `list(s)`. */
  ghost function Listing(S: set<Pos>): (xs: seq<Pos>)
    ensures multiset(xs) == multiset(S)
    decreases |S|
  {
    if S == {} then []
    else
      var p :| p in S;
      Listing(S - {p}) + [p]
  }

  /** The boxes not yet on storage. */
  function FreeBoxes(s: State): set<Pos> {
    s.boxes - s.storage
  }

  /** The storage squares not yet holding a box. */
  function FreeStorage(s: State): set<Pos> {
    s.storage - s.boxes
  }

  /** Some box not on storage is deadlocked, judged against the free storage squares. */
  ghost predicate StateDeadlocked(s: State) {
    exists b :: b in FreeBoxes(s) && BoxDeadlocked(b, s, Listing(FreeStorage(s)))
  }

  /** What `heur_alternate` computes when it does not reuse its last answer. */
  ghost function AlternateValue(s: State): ExtInt {
    if StateDeadlocked(s) then PosInf
    else BetterTotal(Costs(s), s.robots, Listing(FreeBoxes(s)), Listing(FreeStorage(s)))
  }

  /** Whatever order `list` puts the free boxes and storage squares in, `heur_alternate` gets the same value. */
  lemma AlternateByListing(s: State, boxList: seq<Pos>, storageList: seq<Pos>)
    requires multiset(boxList) == multiset(FreeBoxes(s))
    requires multiset(storageList) == multiset(FreeStorage(s))
    ensures (exists i :: 0 <= i < |boxList| && BoxDeadlocked(boxList[i], s, storageList)) <==> StateDeadlocked(s)
    ensures BetterTotal(Costs(s), s.robots, boxList, storageList)
         == BetterTotal(Costs(s), s.robots, Listing(FreeBoxes(s)), Listing(FreeStorage(s)))
  {
    var bs, ss := Listing(FreeBoxes(s)), Listing(FreeStorage(s));
    ListOfElements(FreeBoxes(s), boxList);
    ListOfElements(FreeStorage(s), storageList);
    ListOfElements(FreeStorage(s), ss);
    forall b ensures BoxDeadlocked(b, s, storageList) <==> BoxDeadlocked(b, s, ss) {
      DeadlockByStorageSet(b, s, storageList, ss);
    }
    if exists i :: 0 <= i < |boxList| && BoxDeadlocked(boxList[i], s, storageList) {
      var i :| 0 <= i < |boxList| && BoxDeadlocked(boxList[i], s, storageList);
      assert boxList[i] in FreeBoxes(s);
    }
    if StateDeadlocked(s) {
      var b :| b in FreeBoxes(s) && BoxDeadlocked(b, s, ss);
      assert b in boxList;
    }
    BetterByBoxOrder(Costs(s), s.robots, boxList, bs, storageList);
    BetterByStorageSet(Costs(s), s.robots, bs, storageList, ss);
  }

  /** A state with every box on storage scores 0. */
  lemma AlternateSolved(s: State)
    requires s.boxes <= s.storage
    ensures AlternateValue(s) == Fin(0)
  {
    assert FreeBoxes(s) == {};
    assert Listing(FreeBoxes(s)) == [];
  }

  /** Adding never-smaller terms gives a never-smaller sum. */
  lemma AddMono(a: ExtInt, b: ExtInt, c: ExtInt, d: ExtInt)
    requires !a.NegInf? && !b.NegInf? && !c.NegInf? && !d.NegInf?
    requires Le(a, c) && Le(b, d)
    ensures Le(Add(a, b), Add(c, d))
  {
  }

  /** Boxes already on storage add nothing to the Manhattan heuristic. */
  lemma {:induction false} ManhattanFreeOnly(B: set<Pos>, S: set<Pos>)
    ensures ManhattanSum(B, S) == ManhattanSum(B - S, S)
    decreases |B|
  {
    if B != {} {
      var b :| b in B;
      ManhattanSumPick(B, S, b);
      ManhattanFreeOnly(B - {b}, S);
      if b in S {
        NearestZeroIff(b, S);
        assert B - {b} - S == B - S;
      } else {
        assert (B - S) - {b} == B - {b} - S;
        ManhattanSumPick(B - S, S, b);
      }
    }
  }

  /** A box's distance to its nearest storage square is at most its term in the better heuristic. */
  lemma NearestBelowBoxTerm(s: State, b: Pos, S: set<Pos>, storage: seq<Pos>)
    requires forall p :: p in storage ==> p in S
    ensures Le(Nearest(b, S), BoxTerm(Costs(s), s.robots, b, storage))
  {
    var cs := StorageCosts(Costs(s), b, storage);
    if storage != [] {
      LeastIsMinimum(cs);
      var i :| 0 <= i < |cs| && cs[i] == Least(cs).value;
      assert storage[i] in S;
      NearestIsNearest(b, S);
      assert cs[i] == PairCost(b, storage[i], s);
    }
  }

  /** Summed over the free boxes, the Manhattan distances stay at or below the better heuristic. */
  lemma {:induction false} ManhattanBelowBetter(s: State, boxes: seq<Pos>, B: set<Pos>, S: set<Pos>, storage: seq<Pos>)
    requires multiset(boxes) == multiset(B)
    requires forall p :: p in storage ==> p in S
    ensures Le(ManhattanSum(B, S), BetterTotal(Costs(s), s.robots, boxes, storage))
    decreases |boxes|
  {
    if boxes != [] {
      var x := boxes[|boxes| - 1];
      var front := boxes[..|boxes| - 1];
      assert boxes == front + [x];
      assert x in multiset(B);
      assert multiset(B - {x}) == multiset(B) - multiset{x};
      assert multiset(front) == multiset(boxes) - multiset{x};
      ManhattanBelowBetter(s, front, B - {x}, S, storage);
      ManhattanSumPick(B, S, x);
      NearestBelowBoxTerm(s, x, S, storage);
      AddMono(ManhattanSum(B - {x}, S), Nearest(x, S),
              BetterTotal(Costs(s), s.robots, front, storage), BoxTerm(Costs(s), s.robots, x, storage));
    }
  }

  /** `heur_alternate` never scores a state below `heur_manhattan_distance`. */
  lemma AlternateDominatesManhattan(s: State)
    ensures Le(ManhattanSum(s.boxes, s.storage), AlternateValue(s))
  {
    if !StateDeadlocked(s) {
      ManhattanFreeOnly(s.boxes, s.storage);
      ListOfElements(FreeStorage(s), Listing(FreeStorage(s)));
      ManhattanBelowBetter(s, Listing(FreeBoxes(s)), FreeBoxes(s), s.storage, Listing(FreeStorage(s)));
    }
  }

  /**
   * The two module-level globals of `heur_alternate`: the box set it last
   * saw and the value it returned for it.  Python starts both at `None`.
   */
  class AlternateMemo {
    var prevState: Option<set<Pos>>
    var prevCal: Option<ExtInt>

    /** A remembered box set always comes with its value. */
    ghost predicate Valid()
      reads this
    {
      prevState.Some? ==> prevCal.Some?
    }

    constructor ()
      ensures Valid()
      ensures prevState == None && prevCal == None
    {
      prevState := None;
      prevCal := None;
    }

    /**
     * `heur_alternate`: the remembered value when the boxes are where they
     * were at the previous call; otherwise `inf` for a deadlock and the
     * better Manhattan value if not, remembered for next time.
     */
    method HeurAlternate(state: State) returns (h: ExtInt)
      requires Valid()
      modifies this
      ensures Valid()
      ensures old(prevState) == Some(state.boxes) ==>
                h == old(prevCal).value && prevState == old(prevState) && prevCal == old(prevCal)
      ensures old(prevState) != Some(state.boxes) ==>
                h == AlternateValue(state) && prevState == Some(state.boxes) && prevCal == Some(h)
    {
      if prevState == Some(state.boxes) {
        return prevCal.value;
      }
      prevState := Some(state.boxes);
      var availableBox := ListOf(state.boxes - state.storage);
      var availableStorage := ListOf(state.storage - state.boxes);
      AlternateByListing(state, availableBox, availableStorage);
      var dead := IsDeadlock(state, availableBox, availableStorage);
      if dead {
        h := PosInf;
      } else {
        h := HeurBetter(state, availableBox, availableStorage);
      }
      prevCal := Some(h);
    }
  }
}
