/** The shared vocabulary of the game: marks, squares, boards, verdicts and the
    small records exchanged between the game engine, the session and the score
    panel (src/types/game.types.ts). */
module Types {

  /** `null` in the source becomes `None`. */
  datatype Option<T> = None | Some(value: T)

  /** A mark placed on the board (the source's `Player`). */
  datatype Player = X | O

  /** A square: a mark, or `None` for an empty square. */
  type Cell = Option<Player>

  /** A square index; the board is row-major:
        0 1 2
        3 4 5
        6 7 8 */
  type Index = i: int | 0 <= i < 9

  /** A board is always exactly nine squares. */
  type Board = b: seq<Cell> | |b| == 9
    witness [None, None, None, None, None, None, None, None, None]

  /** One of the winning triples. */
  datatype Line = Line(a: Index, b: Index, c: Index)

  /** The verdict on a board; `line` is present only for a win. */
  datatype GameState = GameState(isOver: bool, winner: Option<Player>, isDraw: bool, line: Option<Line>)

  datatype Difficulty = Easy | Medium | Hard

  datatype GameMode = HumanVsHuman | HumanVsAI

  /** The tally kept by the application. */
  datatype Scores = Scores(x: nat, o: nat, ties: nat)

  /** What the search returns: a score and, below a node that was expanded, the move. */
  datatype MinimaxResult = MinimaxResult(score: int, move: Option<Index>)

  const EMPTY_BOARD: Board := [None, None, None, None, None, None, None, None, None]

  /** The verdict `{ isOver: false, winner: null, isDraw: false }`. */
  const ONGOING: GameState := GameState(false, None, false, None)

  /** The verdict `{ isOver: true, winner: null, isDraw: true }`. */
  const DRAWN: GameState := GameState(true, None, true, None)

  /** `player === 'X' ? 'O' : 'X'` */
  function Opponent(p: Player): Player {
    if p == X then O else X
  }
}
