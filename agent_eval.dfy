/**
 * The static evaluation of the first agent (starter_code/agent.py):
 * the terminal utility, the weighted-square heuristic, and the move
 * evaluation lists that drive node ordering.
 */
module AgentEval {
  import opened Wrappers
  import opened Othello
  import opened StableSort

  /** `compute_utility`: the colour's disc count minus the other player's (colour 1 is dark). */
  function ComputeUtility(o: Oracle, b: Board, color: int): int {
    var (p1, p2) := o.score(b);
    if color == 1 then p1 - p2 else p2 - p1
  }

  /** The two players' utilities of a board are opposite. */
  lemma UtilityAntisymmetric(o: Oracle, b: Board)
    ensures ComputeUtility(o, b, 1) == -ComputeUtility(o, b, 2)
    ensures ComputeUtility(o, b, 1) == o.score(b).0 - o.score(b).1
  {
  }

  /**
   * `get_square_weights`: the static weight of every square, row after
   * row, for the board sizes the agent supports; `None` for any other size.
   */
  function SquareWeights(n: int): (w: Option<seq<int>>)
    ensures w.Some? <==> 4 <= n <= 8
    ensures w.Some? ==> |w.value| == n * n
  {
    if n == 8 then Some([
      120, -20, 20, 5, 5, 20, -20, 120,
      -20, -40, -5, -5, -5, -5, -40, -20,
      20, -5, 15, 3, 3, 15, -5, 20,
      5, -5, 3, 3, 3, 3, -5, 5,
      5, -5, 3, 3, 3, 3, -5, 5,
      20, -5, 15, 3, 3, 15, -5, 20,
      -20, -40, -5, -5, -5, -5, -40, -20,
      120, -20, 20, 5, 5, 20, -20, 120])
    else if n == 7 then Some([
      120, -30, 20, 20, 20, -30, 120,
      -30, -50, -10, -10, -10, -50, -30,
      20, -10, 5, 0, 5, -10, 20,
      20, -10, 0, 10, 0, -10, 20,
      20, -10, 5, 0, 5, -10, 20,
      -30, -50, -10, -10, -10, -50, -30,
      120, -30, 20, 20, 20, -30, 120])
    else if n == 6 then Some([
      120, -30, 20, 20, -30, 120,
      -30, -50, -10, -10, -50, -30,
      20, -10, 5, 5, -10, 20,
      20, -10, 5, 5, -10, 20,
      -30, -50, -10, -10, -50, -30,
      120, -30, 20, 20, -30, 120])
    else if n == 5 then Some([
      100, -20, 10, -20, 100,
      -20, -40, -5, -40, -20,
      10, -5, 0, -5, 10,
      -20, -40, -5, -40, -20,
      100, -20, 10, -20, 100])
    else if n == 4 then Some([
      100, -10, -10, 100,
      -10, -20, -20, -10,
      -10, -20, -20, -10,
      100, -10, -10, 100])
    else None
  }

  /** What one square adds to the weight sum: its weight if it is the colour's, minus it if it is `3 - color`'s. */
  function CellWeight(cell: int, color: int, weight: int): int {
    if cell == color then weight else if cell == 3 - color then -weight else 0
  }

  /** The weight sum over squares `(i, 0) .. (i, j - 1)` of row `i`. */
  function RowWeight(b: Board, color: int, w: seq<int>, i: nat, j: nat): int
    requires i < |b| && j <= |b| && |w| == |b| * |b|
  {
    if j == 0 then 0
    else
      assert i * |b| + (j - 1) < |b| * |b| by { NatProductBound(i, j - 1, |b|); }
      RowWeight(b, color, w, i, j - 1) + CellWeight(b[i][j - 1], color, w[i * |b| + (j - 1)])
  }

  /** The weight sum over rows `0 .. i - 1`. */
  function BoardWeight(b: Board, color: int, w: seq<int>, i: nat): int
    requires i <= |b| && |w| == |b| * |b|
  {
    if i == 0 then 0 else BoardWeight(b, color, w, i - 1) + RowWeight(b, color, w, i - 1, |b|)
  }

  /** Flat index `i * n + j` of a square of an `n` by `n` board is in range. */
  lemma NatProductBound(i: nat, j: nat, n: nat)
    requires i < n && j < n
    ensures i * n + j < n * n
  {
    assert i * n <= (n - 1) * n;
  }

  /**
   * `get_square_weight_sum`: the nested loop over all squares.  The
   * weight list is indexed by `i * len(board) + j`, so it needs one entry
   * per square.
   */
  method GetSquareWeightSum(b: Board, color: int, w: seq<int>) returns (sum: int)
    requires |w| == |b| * |b|
    ensures sum == BoardWeight(b, color, w, |b|)
  {
    sum := 0;
    for i := 0 to |b|
      invariant sum == BoardWeight(b, color, w, i)
    {
      ghost var before := sum;
      for j := 0 to |b[i]|
        invariant sum == before + RowWeight(b, color, w, i, j)
      {
        NatProductBound(i, j, |b|);
        if b[i][j] == color {
          sum := sum + w[i * |b| + j];
        } else if b[i][j] == 3 - color {
          sum := sum - w[i * |b| + j];
        }
      }
    }
  }

  /** The weights `color` owns in row `i` up to column `j`, its own squares only. */
  function OwnRowWeight(b: Board, v: int, w: seq<int>, i: nat, j: nat): int
    requires i < |b| && j <= |b| && |w| == |b| * |b|
  {
    if j == 0 then 0
    else
      assert i * |b| + (j - 1) < |b| * |b| by { NatProductBound(i, j - 1, |b|); }
      OwnRowWeight(b, v, w, i, j - 1) + (if b[i][j - 1] == v then w[i * |b| + (j - 1)] else 0)
  }

  /** The weights of all squares holding `v`. */
  function OwnWeight(b: Board, v: int, w: seq<int>, i: nat): int
    requires i <= |b| && |w| == |b| * |b|
  {
    if i == 0 then 0 else OwnWeight(b, v, w, i - 1) + OwnRowWeight(b, v, w, i - 1, |b|)
  }

  /**
   * For a player colour the weight sum is the player's square weights
   * minus the opponent's; empty squares add nothing.
   */
  lemma {:induction false} BoardWeightIsOwnMinusOpponent(b: Board, color: int, w: seq<int>, i: nat)
    requires color == 1 || color == 2
    requires i <= |b| && |w| == |b| * |b|
    ensures BoardWeight(b, color, w, i) == OwnWeight(b, color, w, i) - OwnWeight(b, 3 - color, w, i)
  {
    if i > 0 {
      BoardWeightIsOwnMinusOpponent(b, color, w, i - 1);
      RowWeightIsOwnMinusOpponent(b, color, w, i - 1, |b|);
    }
  }

  lemma {:induction false} RowWeightIsOwnMinusOpponent(b: Board, color: int, w: seq<int>, i: nat, j: nat)
    requires color == 1 || color == 2
    requires i < |b| && j <= |b| && |w| == |b| * |b|
    ensures RowWeight(b, color, w, i, j) == OwnRowWeight(b, color, w, i, j) - OwnRowWeight(b, 3 - color, w, i, j)
  {
    if j > 0 {
      RowWeightIsOwnMinusOpponent(b, color, w, i, j - 1);
    }
  }

  /** The two players' weight sums are opposite. */
  lemma {:induction false} BoardWeightAntisymmetric(b: Board, w: seq<int>, i: nat)
    requires i <= |b| && |w| == |b| * |b|
    ensures BoardWeight(b, 1, w, i) == -BoardWeight(b, 2, w, i)
  {
    if i > 0 {
      BoardWeightAntisymmetric(b, w, i - 1);
      RowWeightAntisymmetric(b, w, i - 1, |b|);
    }
  }

  lemma {:induction false} RowWeightAntisymmetric(b: Board, w: seq<int>, i: nat, j: nat)
    requires i < |b| && j <= |b| && |w| == |b| * |b|
    ensures RowWeight(b, 1, w, i, j) == -RowWeight(b, 2, w, i, j)
  {
    if j > 0 {
      RowWeightAntisymmetric(b, w, i, j - 1);
    }
  }

  /** `count_mobility`: the number of legal moves of a colour. */
  function CountMobility(o: Oracle, b: Board, color: int): nat {
    |o.moves(b, color)|
  }

  /**
   * `compute_heuristic`: the mobility difference weighted 40 plus the
   * square-weight sum weighted 60.
   */
  function ComputeHeuristic(o: Oracle, b: Board, color: int): int {
    var w := SquareWeights(|b|).value;
    var oppColor := if color == 1 then 2 else 1;
    (CountMobility(o, b, color) - CountMobility(o, b, oppColor)) * 40 + BoardWeight(b, color, w, |b|) * 60
  }

  /** The two players' heuristic values of a board are opposite. */
  lemma HeuristicAntisymmetric(o: Oracle, b: Board)
    ensures ComputeHeuristic(o, b, 1) == -ComputeHeuristic(o, b, 2)
  {
    BoardWeightAntisymmetric(b, SquareWeights(|b|).value, |b|);
  }

  /** One entry of `evaluate_move_*`: `(utility, new_board, move)`. */
  datatype Evaluation = Evaluation(utility: int, board: Board, move: Move)

  function UtilityKey(e: Evaluation): int { e.utility }
  function NegUtilityKey(e: Evaluation): int { -e.utility }

  /** The evaluations before sorting: one per move, in move order, from the mover's view. */
  function Evaluations(o: Oracle, b: Board, moves: seq<Move>, color: int): (es: seq<Evaluation>)
    ensures |es| == |moves|
    ensures forall j :: 0 <= j < |moves| ==>
      es[j].move == moves[j] && es[j].board == o.play(b, color, moves[j])
      && es[j].utility == ComputeHeuristic(o, es[j].board, color)
  {
    seq(|moves|, j requires 0 <= j < |moves| =>
      var nb := o.play(b, color, moves[j]);
      Evaluation(ComputeHeuristic(o, nb, color), nb, moves[j]))
  }

  /**
   * `evaluate_move_max`: the evaluations, sorted by non-increasing utility;
   * equal utilities stay in move order.
   */
  method EvaluateMoveMax(o: Oracle, b: Board, moves: seq<Move>, color: int) returns (es: seq<Evaluation>)
    ensures es == SortDesc(Evaluations(o, b, moves, color), UtilityKey)
    ensures multiset(es) == multiset(Evaluations(o, b, moves, color))
    ensures forall i, j :: 0 <= i < j < |es| ==> es[i].utility >= es[j].utility
    ensures forall k :: WithKey(es, UtilityKey, k) == WithKey(Evaluations(o, b, moves, color), UtilityKey, k)
  {
    es := [];
    for i := 0 to |moves|
      invariant es == Evaluations(o, b, moves[..i], color)
    {
      var newBoard := o.play(b, color, moves[i]);
      var utility := ComputeHeuristic(o, newBoard, color);
      es := es + [Evaluation(utility, newBoard, moves[i])];
    }
    assert moves[..|moves|] == moves;
    es := SortDesc(es, UtilityKey);
  }

  /**
   * `evaluate_move_min`: the evaluations, sorted by non-decreasing utility;
   * equal utilities stay in move order.
   */
  method EvaluateMoveMin(o: Oracle, b: Board, moves: seq<Move>, color: int) returns (es: seq<Evaluation>)
    ensures es == SortDesc(Evaluations(o, b, moves, color), NegUtilityKey)
    ensures multiset(es) == multiset(Evaluations(o, b, moves, color))
    ensures forall i, j :: 0 <= i < j < |es| ==> es[i].utility <= es[j].utility
    ensures forall k :: WithKey(es, NegUtilityKey, k) == WithKey(Evaluations(o, b, moves, color), NegUtilityKey, k)
  {
    es := [];
    for i := 0 to |moves|
      invariant es == Evaluations(o, b, moves[..i], color)
    {
      var newBoard := o.play(b, color, moves[i]);
      var utility := ComputeHeuristic(o, newBoard, color);
      es := es + [Evaluation(utility, newBoard, moves[i])];
    }
    assert moves[..|moves|] == moves;
    es := SortDesc(es, NegUtilityKey);
  }
}
