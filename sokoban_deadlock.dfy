/**
 * The deadlock tests of Sokoban_Starter/solution.py: a box that can never
 * reach storage because it sits in a grid corner, is pinned along both
 * axes by walls, obstacles or other boxes, or lies against an outer wall
 * whose row or column has no free storage left.
 */
module SokobanDeadlock {
  import opened Sokoban

  /** `is_against_left_right_wall`: the box is in the first or last column. */
  predicate AgainstLeftRightWall(box: Pos, s: State) {
    box.0 == 0 || box.0 == s.width - 1
  }

  /** `is_against_top_down_wall`: the box is in the first or last row. */
  predicate AgainstTopDownWall(box: Pos, s: State) {
    box.1 == 0 || box.1 == s.height - 1
  }

  /** `wall_corner_deadlock`: the box is on one of the four listed corner squares. */
  predicate WallCornerDeadlock(box: Pos, s: State) {
    box in [(0, 0), (0, s.height - 1), (s.width - 1, 0), (s.width - 1, s.height - 1)]
  }

  /** The listed corners are exactly the squares against both a side wall and a top or bottom wall. */
  lemma WallCornerIsCorner(box: Pos, s: State)
    ensures WallCornerDeadlock(box, s) <==> AgainstLeftRightWall(box, s) && AgainstTopDownWall(box, s)
  {
    var corners := [(0, 0), (0, s.height - 1), (s.width - 1, 0), (s.width - 1, s.height - 1)];
    if AgainstLeftRightWall(box, s) && AgainstTopDownWall(box, s) {
      if box.0 == 0 && box.1 == 0 {
        assert box == corners[0];
      } else if box.0 == 0 {
        assert box == corners[1];
      } else if box.1 == 0 {
        assert box == corners[2];
      } else {
        assert box == corners[3];
      }
    }
  }

  /** The squares `corner_obs_deadlock` treats as blocking: obstacles and every box. */
  function Blocking(s: State): set<Pos> {
    s.obstacles + s.boxes
  }

  /**
   * `corner_obs_deadlock`: a blocked square above or below together with a
   * blocked square to the left or right, or a side wall with a blocked
   * square above or below, or a top or bottom wall with a blocked square to
   * the left or right.
   */
  predicate CornerObsDeadlock(box: Pos, s: State) {
    var d := Blocking(s);
    var up, down := (box.0, box.1 - 1), (box.0, box.1 + 1);
    var left, right := (box.0 - 1, box.1), (box.0 + 1, box.1);
    if up in d && left in d then true
    else if up in d && right in d then true
    else if down in d && left in d then true
    else if down in d && right in d then true
    else if AgainstLeftRightWall(box, s) && up in d then true
    else if AgainstLeftRightWall(box, s) && down in d then true
    else if AgainstTopDownWall(box, s) && left in d then true
    else AgainstTopDownWall(box, s) && right in d
  }

  /** The box cannot move vertically: a blocked square or the top or bottom wall is next to it. */
  predicate StuckVertically(box: Pos, s: State) {
    (box.0, box.1 - 1) in Blocking(s) || (box.0, box.1 + 1) in Blocking(s) || AgainstTopDownWall(box, s)
  }

  /** The box cannot move horizontally: a blocked square or a side wall is next to it. */
  predicate StuckHorizontally(box: Pos, s: State) {
    (box.0 - 1, box.1) in Blocking(s) || (box.0 + 1, box.1) in Blocking(s) || AgainstLeftRightWall(box, s)
  }

  /**
   * The two corner tests together say that the box is stuck along both
   * axes: the wall-only case is `wall_corner_deadlock`, every other case
   * `corner_obs_deadlock`.
   */
  lemma CornerTestsMeanStuckBothWays(box: Pos, s: State)
    ensures WallCornerDeadlock(box, s) || CornerObsDeadlock(box, s)
        <==> StuckVertically(box, s) && StuckHorizontally(box, s)
  {
    WallCornerIsCorner(box, s);
  }

  /** Some listed storage square lies in column `c`. */
  predicate StorageInColumn(storage: seq<Pos>, c: int) {
    exists i :: 0 <= i < |storage| && storage[i].0 == c
  }

  /** Some listed storage square lies in row `r`. */
  predicate StorageInRow(storage: seq<Pos>, r: int) {
    exists i :: 0 <= i < |storage| && storage[i].1 == r
  }

  /** `horizontal_deadlock`: the box is in the first or last column and no free storage is in that column. */
  predicate HorizontalDeadlock(box: Pos, s: State, storage: seq<Pos>) {
    if box.0 == 0 && !StorageInColumn(storage, 0) then true
    else box.0 == s.width - 1 && !StorageInColumn(storage, s.width - 1)
  }

  /** `vertical_deadlock`: the box is in the first or last row and no free storage is in that row. */
  predicate VerticalDeadlock(box: Pos, s: State, storage: seq<Pos>) {
    if box.1 == 0 && !StorageInRow(storage, 0) then true
    else box.1 == s.height - 1 && !StorageInRow(storage, s.height - 1)
  }

  /**
   * Even on a one-column grid, where both tests look at the same column,
   * the horizontal test holds exactly for a box against a side wall whose
   * own column has no free storage.
   */
  lemma HorizontalDeadlockIff(box: Pos, s: State, storage: seq<Pos>)
    ensures HorizontalDeadlock(box, s, storage) <==> AgainstLeftRightWall(box, s) && !StorageInColumn(storage, box.0)
  {
  }

  /** The vertical counterpart: a box in an edge row whose own row has no free storage. */
  lemma VerticalDeadlockIff(box: Pos, s: State, storage: seq<Pos>)
    ensures VerticalDeadlock(box, s, storage) <==> AgainstTopDownWall(box, s) && !StorageInRow(storage, box.1)
  {
  }

  /** One of the four tests of `is_deadlock` holds for the box. */
  predicate BoxDeadlocked(box: Pos, s: State, storage: seq<Pos>) {
    WallCornerDeadlock(box, s) || CornerObsDeadlock(box, s)
    || VerticalDeadlock(box, s, storage) || HorizontalDeadlock(box, s, storage)
  }

  /** `is_deadlock`: scans the boxes not on storage and stops at the first deadlocked one. */
  method IsDeadlock(state: State, availableBox: seq<Pos>, availableStorage: seq<Pos>) returns (r: bool)
    ensures r <==> exists i :: 0 <= i < |availableBox| && BoxDeadlocked(availableBox[i], state, availableStorage)
  {
    for i := 0 to |availableBox|
      invariant forall k :: 0 <= k < i ==> !BoxDeadlocked(availableBox[k], state, availableStorage)
    {
      var box := availableBox[i];
      if WallCornerDeadlock(box, state) {
        return true;
      } else if CornerObsDeadlock(box, state) {
        return true;
      } else if VerticalDeadlock(box, state, availableStorage) {
        return true;
      } else if HorizontalDeadlock(box, state, availableStorage) {
        return true;
      }
    }
    return false;
  }

  /** The tests only ask whether storage squares are listed, never in which order. */
  lemma DeadlockByStorageSet(box: Pos, s: State, storage: seq<Pos>, storage': seq<Pos>)
    requires forall p :: p in storage <==> p in storage'
    ensures BoxDeadlocked(box, s, storage) <==> BoxDeadlocked(box, s, storage')
  {
    forall c ensures StorageInColumn(storage, c) <==> StorageInColumn(storage', c) {
      if StorageInColumn(storage, c) {
        var i :| 0 <= i < |storage| && storage[i].0 == c;
        assert storage[i] in storage';
      }
      if StorageInColumn(storage', c) {
        var i :| 0 <= i < |storage'| && storage'[i].0 == c;
        assert storage'[i] in storage;
      }
    }
    forall r ensures StorageInRow(storage, r) <==> StorageInRow(storage', r) {
      if StorageInRow(storage, r) {
        var i :| 0 <= i < |storage| && storage[i].1 == r;
        assert storage[i] in storage';
      }
      if StorageInRow(storage', r) {
        var i :| 0 <= i < |storage'| && storage'[i].1 == r;
        assert storage'[i] in storage;
      }
    }
  }
}
