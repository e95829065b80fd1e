/**
 * The static evaluation of the second agent (starter_code/agent_test.py):
 * its terminal utility, its corner-and-edge heuristic, and
 * `after_move_board_list`, which plays every move, remembers which move
 * led to each resulting board, and optionally sorts the boards by the
 * heuristic.
 */
module AgentTestEval {
  import opened Othello
  import opened StableSort
  import AgentEval

  /** `compute_utility`: the light count minus the dark count for colour 2, the reverse for any other colour. */
  function ComputeUtility(o: Oracle, b: Board, color: int): int {
    var (s1, s2) := o.score(b);
    if color == 2 then s2 - s1 else s1 - s2
  }

  /**
   * The two agents' utilities agree for the two player colours; for any
   * other colour they are opposite (one treats it as dark, the other as
   * light).
   */
  lemma UtilityMatchesFirstAgent(o: Oracle, b: Board, color: int)
    ensures ComputeUtility(o, b, 1) == -ComputeUtility(o, b, 2)
    ensures color == 1 || color == 2 ==> ComputeUtility(o, b, color) == AgentEval.ComputeUtility(o, b, color)
    ensures color != 1 && color != 2 ==> ComputeUtility(o, b, color) == -AgentEval.ComputeUtility(o, b, color)
  {
  }

  /** `get_opponent` is `Opponent`: it swaps the two player colours and undoes itself on them. */
  lemma OpponentInvolution(color: int)
    ensures Opponent(color) == 1 || Opponent(color) == 2
    ensures color == 1 || color == 2 ==> Opponent(Opponent(color)) == color && Opponent(color) != color
  {
  }

  // ---------------------------------------------------------------- heuristic

  const SelfCornerWeight := 5000
  const SelfXSquareWeight := 400
  const SelfCSquareWeight := 220
  const SelfASquareWeight := 70
  const OppCornerWeight := 5000
  const OppXSquareWeight := 200
  const OppCSquareWeight := 80
  const OppASquareWeight := 70

  /** The squares `compute_heuristic` reads, as (row, column) of an `n` by `n` board: the four corners. */
  function Corners(n: int): seq<(int, int)> {
    [(0, 0), (n - 1, 0), (0, n - 1), (n - 1, n - 1)]
  }

  /** The X-squares, diagonally inside each corner. */
  function XSquares(n: int): seq<(int, int)> {
    [(1, 1), (1, n - 2), (n - 2, 1), (n - 2, n - 2)]
  }

  /** The C-squares, on the edge next to each corner. */
  function CSquares(n: int): seq<(int, int)> {
    [(1, 0), (0, 1), (0, n - 2), (n - 2, 0), (n - 1, 1), (1, n - 1), (n - 2, n - 1), (n - 1, n - 2)]
  }

  /** The A-squares, on the edge two away from each corner. */
  function ASquares(n: int): seq<(int, int)> {
    [(2, 0), (n - 3, 0), (0, 2), (0, n - 3), (n - 1, 2), (n - 1, n - 3), (2, n - 1), (n - 3, n - 1)]
  }

  /** Every square of the list lies on the board. */
  ghost predicate OnBoard(b: Board, sq: seq<(int, int)>) {
    forall j :: 0 <= j < |sq| ==> 0 <= sq[j].0 < |b| && 0 <= sq[j].1 < |b|
  }

  /** On the boards the heuristic scores (7 or 8 rows) every square it reads lies on the board. */
  lemma SquaresOnBoard(b: Board)
    requires |b| > 6
    ensures OnBoard(b, Corners(|b|)) && OnBoard(b, XSquares(|b|)) && OnBoard(b, CSquares(|b|)) && OnBoard(b, ASquares(|b|))
  {
  }

  /** The discs on a list of squares. */
  function Disks(b: Board, sq: seq<(int, int)>): (ds: seq<int>)
    requires OnBoard(b, sq)
    ensures |ds| == |sq| && forall j :: 0 <= j < |sq| ==> ds[j] == b[sq[j].0][sq[j].1]
  {
    seq(|sq|, j requires 0 <= j < |sq| => b[sq[j].0][sq[j].1])
  }

  /** What one disc adds: `selfW` if it is the colour's, minus `oppW` if it is the opponent's, else nothing. */
  function DiskTerm(disk: int, color: int, opp: int, selfW: int, oppW: int): int {
    if disk == color then selfW else if disk == opp then -oppW else 0
  }

  /** The sum of the terms of a list of discs, taken from left to right. */
  function DiskScore(ds: seq<int>, color: int, opp: int, selfW: int, oppW: int): int {
    if ds == [] then 0
    else DiskScore(ds[..|ds| - 1], color, opp, selfW, oppW) + DiskTerm(ds[|ds| - 1], color, opp, selfW, oppW)
  }

  /** One more disc adds one more weight. */
  lemma MulSucc(w: int, k: int)
    ensures w * (k + 1) == w * k + w
  {
  }

  /**
   * The disc part of the score counts discs: every disc of the colour
   * adds `selfW`, every disc of the opponent takes `oppW`, and empty
   * squares (or any other value) add nothing.
   */
  lemma {:induction false} DiskScoreCounts(ds: seq<int>, color: int, opp: int, selfW: int, oppW: int)
    requires color != opp
    ensures DiskScore(ds, color, opp, selfW, oppW) == selfW * multiset(ds)[color] - oppW * multiset(ds)[opp]
  {
    if ds != [] {
      var init := ds[..|ds| - 1];
      DiskScoreCounts(init, color, opp, selfW, oppW);
      var last := ds[|ds| - 1];
      assert ds == init + [last];
      assert multiset(ds) == multiset(init) + multiset{last};
      var own, other := multiset(init)[color], multiset(init)[opp];
      assert DiskScore(ds, color, opp, selfW, oppW)
          == selfW * own - oppW * other + DiskTerm(last, color, opp, selfW, oppW);
      if last == color {
        assert multiset(ds)[color] == own + 1 && multiset(ds)[opp] == other;
        MulSucc(selfW, own);
      } else if last == opp {
        assert multiset(ds)[color] == own && multiset(ds)[opp] == other + 1;
        MulSucc(oppW, other);
      } else {
        assert multiset(ds)[color] == own && multiset(ds)[opp] == other;
      }
    }
  }

  /**
   * `compute_heuristic`: the utility on boards of at most 6 rows;
   * otherwise 70 times the utility, the weighted corner, X-, C- and
   * A-square discs, and 70 times the mobility difference.
   */
  function Heuristic(o: Oracle, b: Board, color: int): int {
    var n := |b|;
    var u := ComputeUtility(o, b, color);
    if n <= 6 then u
    else
      SquaresOnBoard(b);
      var opp := Opponent(color);
      u * 70
      + DiskScore(Disks(b, Corners(n)), color, opp, SelfCornerWeight, OppCornerWeight)
      + DiskScore(Disks(b, XSquares(n)), color, opp, SelfXSquareWeight, OppXSquareWeight)
      + DiskScore(Disks(b, CSquares(n)), color, opp, SelfCSquareWeight, OppCSquareWeight)
      + DiskScore(Disks(b, ASquares(n)), color, opp, SelfASquareWeight, OppASquareWeight)
      + (|o.moves(b, color)| - |o.moves(b, opp)|) * 70
  }

  /** How many discs of `color` lie on the squares `sq`. */
  function CountOn(b: Board, sq: seq<(int, int)>, color: int): nat
    requires OnBoard(b, sq)
  {
    multiset(Disks(b, sq))[color]
  }

  /**
   * On 7- and 8-row boards the heuristic is 70 times the utility and the
   * mobility difference, plus each own disc on a corner, X-, C- or
   * A-square at that square's own weight, minus each opponent disc there
   * at the opponent weight: an own disc on a weighted square never lowers
   * it and an opponent disc never raises it.
   */
  lemma HeuristicByCounts(o: Oracle, b: Board, color: int)
    requires |b| > 6
    ensures var n := |b|;
            var opp := Opponent(color);
            Heuristic(o, b, color)
            == ComputeUtility(o, b, color) * 70 + (|o.moves(b, color)| - |o.moves(b, opp)|) * 70
               + SelfCornerWeight * CountOn(b, Corners(n), color) - OppCornerWeight * CountOn(b, Corners(n), opp)
               + SelfXSquareWeight * CountOn(b, XSquares(n), color) - OppXSquareWeight * CountOn(b, XSquares(n), opp)
               + SelfCSquareWeight * CountOn(b, CSquares(n), color) - OppCSquareWeight * CountOn(b, CSquares(n), opp)
               + SelfASquareWeight * CountOn(b, ASquares(n), color) - OppASquareWeight * CountOn(b, ASquares(n), opp)
  {
    var n := |b|;
    var opp := Opponent(color);
    SquaresOnBoard(b);
    DiskScoreCounts(Disks(b, Corners(n)), color, opp, SelfCornerWeight, OppCornerWeight);
    DiskScoreCounts(Disks(b, XSquares(n)), color, opp, SelfXSquareWeight, OppXSquareWeight);
    DiskScoreCounts(Disks(b, CSquares(n)), color, opp, SelfCSquareWeight, OppCSquareWeight);
    DiskScoreCounts(Disks(b, ASquares(n)), color, opp, SelfASquareWeight, OppASquareWeight);
  }

  /** One of `compute_heuristic`'s `for disk in ...` loops, adding each disc's term to `result`. */
  method AddDiskWeights(start: int, ds: seq<int>, color: int, opp: int, selfW: int, oppW: int) returns (result: int)
    ensures result == start + DiskScore(ds, color, opp, selfW, oppW)
  {
    result := start;
    for i := 0 to |ds|
      invariant result == start + DiskScore(ds[..i], color, opp, selfW, oppW)
    {
      assert ds[..i + 1][..i] == ds[..i];
      if ds[i] == color {
        result := result + selfW;
      } else if ds[i] == opp {
        result := result - oppW;
      }
    }
    assert ds[..|ds|] == ds;
  }

  /**
   * `compute_heuristic` as the program runs it: the four disc lists are
   * read off the board and scanned one after the other.
   */
  method ComputeHeuristic(o: Oracle, b: Board, color: int) returns (result: int)
    ensures result == Heuristic(o, b, color)
    ensures |b| <= 6 ==> result == ComputeUtility(o, b, color)
  {
    var size := |b|;
    result := ComputeUtility(o, b, color);
    if size <= 6 {
      return;
    }
    result := result * 70;
    var opp := Opponent(color);
    SquaresOnBoard(b);
    var cornerList := [b[0][0], b[size - 1][0], b[0][size - 1], b[size - 1][size - 1]];
    var xsqrList := [b[1][1], b[1][size - 2], b[size - 2][1], b[size - 2][size - 2]];
    var csqrList := [b[1][0], b[0][1], b[0][size - 2], b[size - 2][0],
                     b[size - 1][1], b[1][size - 1], b[size - 2][size - 1], b[size - 1][size - 2]];
    var asqrList := [b[2][0], b[size - 3][0], b[0][2], b[0][size - 3],
                     b[size - 1][2], b[size - 1][size - 3], b[2][size - 1], b[size - 3][size - 1]];
    assert cornerList == Disks(b, Corners(size));
    assert xsqrList == Disks(b, XSquares(size));
    assert csqrList == Disks(b, CSquares(size));
    assert asqrList == Disks(b, ASquares(size));
    result := AddDiskWeights(result, cornerList, color, opp, SelfCornerWeight, OppCornerWeight);
    result := AddDiskWeights(result, xsqrList, color, opp, SelfXSquareWeight, OppXSquareWeight);
    result := AddDiskWeights(result, csqrList, color, opp, SelfCSquareWeight, OppCSquareWeight);
    result := AddDiskWeights(result, asqrList, color, opp, SelfASquareWeight, OppASquareWeight);
    var ownMove := |o.moves(b, color)|;
    var opponentMove := |o.moves(b, opp)|;
    result := result + (ownMove - opponentMove) * 70;
  }

  // ------------------------------------------------------ after_move_board_list

  /** The board each move leads to, in move order. */
  function PlayedBoards(o: Oracle, b: Board, color: int, ms: seq<Move>): (bs: seq<Board>)
    ensures |bs| == |ms| && forall j :: 0 <= j < |ms| ==> bs[j] == o.play(b, color, ms[j])
  {
    seq(|ms|, j requires 0 <= j < |ms| => o.play(b, color, ms[j]))
  }

  /**
   * `board_move_dict`: every resulting board mapped to a move that leads
   * to it; when two moves lead to the same board the later one is kept.
   */
  function MoveDict(o: Oracle, b: Board, color: int, ms: seq<Move>): (d: map<Board, Move>)
    ensures forall nb :: nb in d <==> nb in PlayedBoards(o, b, color, ms)
    ensures forall nb :: nb in d ==> d[nb] in ms && o.play(b, color, d[nb]) == nb
    decreases |ms|
  {
    if ms == [] then map[]
    else
      var init := ms[..|ms| - 1];
      var d0 := MoveDict(o, b, color, init);
      assert PlayedBoards(o, b, color, ms) == PlayedBoards(o, b, color, init) + [o.play(b, color, ms[|ms| - 1])];
      d0[o.play(b, color, ms[|ms| - 1]) := ms[|ms| - 1]]
  }

  /**
   * The move kept for a board is the last move leading to it: no later
   * move in the list produces the same board.
   */
  lemma {:induction false} MoveDictKeepsLast(o: Oracle, b: Board, color: int, ms: seq<Move>, j: nat)
    requires j < |ms|
    requires forall k :: j < k < |ms| ==> o.play(b, color, ms[k]) != o.play(b, color, ms[j])
    ensures MoveDict(o, b, color, ms)[o.play(b, color, ms[j])] == ms[j]
  {
    if j < |ms| - 1 {
      var init := ms[..|ms| - 1];
      assert forall k :: j < k < |init| ==> init[k] == ms[k];
      MoveDictKeepsLast(o, b, color, init, j);
      assert init[j] == ms[j];
    }
  }

  /** The sort key of `after_move_board_list`: the heuristic of the board for the mover. */
  function HeuristicKey(o: Oracle, color: int): Board -> int {
    (nb: Board) => Heuristic(o, nb, color)
  }

  /**
   * `new_board_list`: the resulting boards in move order, or, when
   * `ordering == 1`, stably sorted by non-increasing heuristic.
   */
  function AfterMoveBoards(o: Oracle, b: Board, color: int, ms: seq<Move>, ordering: int): (bs: seq<Board>)
    ensures |bs| == |ms| && multiset(bs) == multiset(PlayedBoards(o, b, color, ms))
    ensures ordering != 1 ==> bs == PlayedBoards(o, b, color, ms)
  {
    if ordering == 1 then SortDesc(PlayedBoards(o, b, color, ms), HeuristicKey(o, color))
    else PlayedBoards(o, b, color, ms)
  }

  /** The board list and the dictionary hold the same boards: those the moves lead to. */
  lemma AfterMoveBoardsAreKeys(o: Oracle, b: Board, color: int, ms: seq<Move>, ordering: int)
    ensures forall nb :: nb in AfterMoveBoards(o, b, color, ms, ordering) <==> nb in MoveDict(o, b, color, ms)
    ensures forall nb :: nb in AfterMoveBoards(o, b, color, ms, ordering) <==> nb in PlayedBoards(o, b, color, ms)
  {
    var bs := AfterMoveBoards(o, b, color, ms, ordering);
    forall nb ensures nb in bs <==> nb in PlayedBoards(o, b, color, ms) {
      assert nb in bs <==> nb in multiset(bs);
      assert nb in PlayedBoards(o, b, color, ms) <==> nb in multiset(PlayedBoards(o, b, color, ms));
    }
  }

  /**
   * `after_move_board_list`: one resulting board per move with the
   * dictionary back to the moves; with `ordering == 1` the list is sorted
   * by non-increasing heuristic, equal heuristics staying in move order.
   */
  method AfterMoveBoardList(o: Oracle, b: Board, color: int, ms: seq<Move>, ordering: int)
    returns (boards: seq<Board>, dict: map<Board, Move>)
    ensures boards == AfterMoveBoards(o, b, color, ms, ordering) && dict == MoveDict(o, b, color, ms)
    ensures multiset(boards) == multiset(PlayedBoards(o, b, color, ms))
    ensures ordering == 1 ==> SortedDesc(boards, HeuristicKey(o, color))
    ensures ordering == 1 ==> forall k :: WithKey(boards, HeuristicKey(o, color), k) == WithKey(PlayedBoards(o, b, color, ms), HeuristicKey(o, color), k)
    ensures ordering != 1 ==> boards == PlayedBoards(o, b, color, ms)
    ensures forall nb :: nb in boards <==> nb in dict
    ensures forall nb :: nb in dict ==> dict[nb] in ms && o.play(b, color, dict[nb]) == nb
  {
    boards := [];
    dict := map[];
    for i := 0 to |ms|
      invariant boards == PlayedBoards(o, b, color, ms[..i]) && dict == MoveDict(o, b, color, ms[..i])
    {
      var newBoard := o.play(b, color, ms[i]);
      assert ms[..i + 1][..i] == ms[..i];
      boards := boards + [newBoard];
      dict := dict[newBoard := ms[i]];
    }
    assert ms[..|ms|] == ms;
    if ordering == 1 {
      boards := SortDesc(boards, HeuristicKey(o, color));
    }
    AfterMoveBoardsAreKeys(o, b, color, ms, ordering);
  }
}
