/**
 * The game interface the Othello agents rely on (`othello_shared`):
 * boards, moves, and the move/score oracles, which are not part of this
 * model and are therefore parameters of every search.
 */
module Othello {
  import opened Wrappers
  import opened ExtInts

  /** A board is a list of rows; the agents are run on square boards with 4 to 8 rows. */
  ghost predicate IsGrid(b: seq<seq<int>>) {
    4 <= |b| <= 8 && forall i :: 0 <= i < |b| ==> |b[i]| == |b|
  }

  type Board = b: seq<seq<int>> | IsGrid(b)
    witness [[0, 0, 0, 0], [0, 0, 0, 0], [0, 0, 0, 0], [0, 0, 0, 0]]

  /** A move `(i, j)` as returned by `get_possible_moves`. */
  type Move = (int, int)

  /**
   * `get_possible_moves(board, color)`, `play_move(board, color, i, j)` and
   * `get_score(board)`, which returns (dark count, light count).
   */
  datatype Oracle = Oracle(
    moves: (Board, int) -> seq<Move>,
    play: (Board, int, Move) -> Board,
    score: Board -> (int, int))

  /** Number of cells of a row equal to `v`. */
  function CountInRow(row: seq<int>, v: int): (n: nat)
    ensures n <= |row|
  {
    if row == [] then 0 else (if row[0] == v then 1 else 0) + CountInRow(row[1..], v)
  }

  /** Number of cells of all rows equal to `v`. */
  function CountInRows(b: seq<seq<int>>, v: int): nat {
    if b == [] then 0 else CountInRow(b[0], v) + CountInRows(b[1..], v)
  }

  /** Number of empty squares (cell value 0). */
  function Empties(b: Board): nat {
    CountInRows(b, 0)
  }

  /**
   * The assumption the whole search rests on: playing a legal move fills
   * exactly one empty square.  It makes the game finite (so a search with
   * no depth limit terminates) and it fixes the depth at which a board can
   * occur within one search.
   */
  ghost predicate Sound(o: Oracle) {
    forall b: Board, c: int, m: Move :: m in o.moves(b, c) ==> Empties(o.play(b, c, m)) + 1 == Empties(b)
  }

  /** The oracles for which the assumption holds. */
  type SoundOracle = o: Oracle | Sound(o)
    witness Oracle((b: Board, c: int) => [], (b: Board, c: int, m: Move) => b, (b: Board) => (0, 0))

  /** A node's answer: the chosen move (`None` at a leaf) and its utility. */
  datatype NodeResult = NodeResult(move: Option<Move>, utility: ExtInt)

  /** The opponent's colour as the agents compute it (`2` for `1`, otherwise `1`). */
  function Opponent(color: int): int {
    if color == 1 then 2 else 1
  }
}
