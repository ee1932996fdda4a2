/** The rules engine and the minimax move selector (src/features/game/utils/aiUtils.ts). */
module AiUtils {
  import opened Types

  // ---------------------------------------------------------------------------
  // Board queries
  // ---------------------------------------------------------------------------

  /** The winning triples in scan order: rows, then columns, then diagonals. */
  const LINES: seq<Line> := [
    Line(0, 1, 2), Line(3, 4, 5), Line(6, 7, 8),
    Line(0, 3, 6), Line(1, 4, 7), Line(2, 5, 8),
    Line(0, 4, 8), Line(2, 4, 6)
  ]

  /** Three equal marks on the line. */
  predicate Completes(b: Board, l: Line) {
    b[l.a].Some? && b[l.a] == b[l.b] && b[l.a] == b[l.c]
  }

  /** `squares.every(square => square !== null)` */
  predicate IsFull(b: Board) {
    forall i: Index :: b[i].Some?
  }

  predicate StrictlyAscending(s: seq<Index>) {
    forall j1, j2 :: 0 <= j1 < j2 < |s| ==> s[j1] < s[j2]
  }

  /** The empty squares with index `k` or more, in ascending order. */
  function EmptyFrom(b: Board, k: nat): seq<Index>
    requires k <= 9
    decreases 9 - k
  {
    if k == 9 then []
    else if b[k].None? then [k as Index] + EmptyFrom(b, k + 1) else EmptyFrom(b, k + 1)
  }

  lemma {:induction false} EmptyFromElements(b: Board, k: nat)
    requires k <= 9
    ensures |EmptyFrom(b, k)| <= 9 - k
    ensures forall j :: 0 <= j < |EmptyFrom(b, k)| ==> k <= EmptyFrom(b, k)[j] && b[EmptyFrom(b, k)[j]].None?
    decreases 9 - k
  {
    if k < 9 {
      EmptyFromElements(b, k + 1);
    }
  }

  lemma {:induction false} EmptyFromMembers(b: Board, k: nat)
    requires k <= 9
    ensures forall i: Index :: i in EmptyFrom(b, k) <==> k <= i && b[i].None?
    decreases 9 - k
  {
    if k < 9 {
      EmptyFromMembers(b, k + 1);
    }
  }

  lemma {:induction false} EmptyFromAscending(b: Board, k: nat)
    requires k <= 9
    ensures StrictlyAscending(EmptyFrom(b, k))
    decreases 9 - k
  {
    if k < 9 {
      EmptyFromAscending(b, k + 1);
      EmptyFromElements(b, k + 1);
    }
  }

  lemma EmptyFromSpec(b: Board, k: nat)
    requires k <= 9
    ensures var r := EmptyFrom(b, k);
            && |r| <= 9 - k
            && (forall j :: 0 <= j < |r| ==> k <= r[j] && b[r[j]].None?)
            && (forall i: Index :: i in r <==> k <= i && b[i].None?)
            && StrictlyAscending(r)
  {
    EmptyFromElements(b, k);
    EmptyFromMembers(b, k);
    EmptyFromAscending(b, k);
  }

  /** getEmptySquares: the indices of the empty squares, ascending. The
      contract says when the list is empty; which squares it holds is stated
      by EmptySquaresSpec. */
  function GetEmptySquares(b: Board): (r: seq<Index>)
    ensures |r| <= 9
    ensures |r| == 0 <==> IsFull(b)
  {
    EmptyFromSpec(b, 0);
    var r := EmptyFrom(b, 0);
    assert |r| == 0 ==> IsFull(b) by {
      if |r| == 0 {
        forall i: Index ensures b[i].Some? {
          assert i !in r;
        }
      }
    }
    assert |r| > 0 ==> !IsFull(b) by {
      if |r| > 0 {
        assert b[r[0]].None?;
      }
    }
    r
  }

  /** The list holds exactly the empty squares, each once, in ascending order. */
  lemma EmptySquaresSpec(b: Board)
    ensures var r := GetEmptySquares(b);
            && (forall j :: 0 <= j < |r| ==> b[r[j]].None?)
            && (forall i: Index :: i in r <==> b[i].None?)
            && StrictlyAscending(r)
  {
    EmptyFromSpec(b, 0);
  }

  lemma EmptyAt(b: Board, j: nat)
    requires j < |GetEmptySquares(b)|
    ensures b[GetEmptySquares(b)[j]].None?
  {
    EmptySquaresSpec(b);
  }

  /** makeRandomMove; `pick` is the random draw, reduced into the candidate list. */
  function MakeRandomMove(b: Board, pick: nat): (r: Option<Index>)
    ensures r.None? <==> IsFull(b)
    ensures r.Some? ==> b[r.value].None?
  {
    var empties := GetEmptySquares(b);
    if |empties| == 0 then None
    else
      EmptyAt(b, pick % |empties|);
      Some(empties[pick % |empties|])
  }

  // ---------------------------------------------------------------------------
  // The evaluator
  // ---------------------------------------------------------------------------

  /** The `for` loop of checkGameState from line `i` of the table on, together
      with what follows it once the table is exhausted. */
  function ScanLines(b: Board, i: nat): GameState
    requires i <= |LINES|
    decreases |LINES| - i
  {
    if i == |LINES| then
      if IsFull(b) then DRAWN else ONGOING
    else if Completes(b, LINES[i]) then
      GameState(true, b[LINES[i].a], false, Some(LINES[i]))
    else
      ScanLines(b, i + 1)
  }

  /** checkGameState. Its contract gives the shape every verdict has; which
      verdict a board gets is stated by the lemmas below. */
  function CheckGameState(b: Board): (gs: GameState)
    ensures gs.isOver == (gs.winner.Some? || gs.isDraw)
    ensures gs.isDraw ==> gs.winner.None? && IsFull(b)
    ensures gs.line.Some? <==> gs.winner.Some?
    ensures gs.line.Some? ==> gs.line.value in LINES && Completes(b, gs.line.value)
                              && gs.winner == b[gs.line.value.a]
    ensures IsFull(b) ==> gs.isOver
  {
    LinesScanned(b, 0);
    ScanLines(b, 0)
  }

  lemma {:induction false} LinesScanned(b: Board, i: nat)
    requires i <= |LINES|
    ensures var gs := ScanLines(b, i);
            && gs.isOver == (gs.winner.Some? || gs.isDraw)
            && (gs.isDraw ==> gs.winner.None? && IsFull(b))
            && (gs.line.Some? <==> gs.winner.Some?)
            && (gs.line.Some? ==> gs.line.value in LINES && Completes(b, gs.line.value)
                                  && gs.winner == b[gs.line.value.a])
            && (IsFull(b) ==> gs.isOver)
    decreases |LINES| - i
  {
    if i < |LINES| && !Completes(b, LINES[i]) {
      LinesScanned(b, i + 1);
    }
  }

  lemma {:induction false} ScanPassesOver(b: Board, i: nat, k: nat)
    requires i <= k <= |LINES|
    requires forall j :: i <= j < k ==> !Completes(b, LINES[j])
    ensures ScanLines(b, i) == ScanLines(b, k)
    decreases k - i
  {
    if i < k {
      ScanPassesOver(b, i + 1, k);
    }
  }

  /** When some line is complete, the first complete line in table order
      (rows, columns, diagonals) decides the verdict. */
  lemma FirstCompleteLineWins(b: Board, k: nat)
    requires k < |LINES| && Completes(b, LINES[k])
    requires forall j :: 0 <= j < k ==> !Completes(b, LINES[j])
    ensures CheckGameState(b) == GameState(true, b[LINES[k].a], false, Some(LINES[k]))
  {
    ScanPassesOver(b, 0, k);
  }

  /** With no complete line, a full board is a draw and any other board is
      still in play. */
  lemma NoCompleteLine(b: Board)
    requires forall k :: 0 <= k < |LINES| ==> !Completes(b, LINES[k])
    ensures CheckGameState(b) == if IsFull(b) then DRAWN else ONGOING
  {
    ScanPassesOver(b, 0, |LINES|);
  }

  /** The verdict names a winner exactly when some line is complete. */
  lemma WinnerIffCompleteLine(b: Board)
    ensures CheckGameState(b).winner.Some? <==> exists k :: 0 <= k < |LINES| && Completes(b, LINES[k])
  {
    if exists k :: 0 <= k < |LINES| && Completes(b, LINES[k]) {
      var k :| 0 <= k < |LINES| && Completes(b, LINES[k]);
      var first := FirstComplete(b, k);
      FirstCompleteLineWins(b, first);
    } else {
      NoCompleteLine(b);
    }
  }

  /** Some complete line at or before `k` comes before every other one. */
  lemma {:induction false} FirstComplete(b: Board, k: nat) returns (first: nat)
    requires k < |LINES| && Completes(b, LINES[k])
    ensures first <= k && Completes(b, LINES[first])
    ensures forall j :: 0 <= j < first ==> !Completes(b, LINES[j])
  {
    if exists j :: 0 <= j < k && Completes(b, LINES[j]) {
      var j :| 0 <= j < k && Completes(b, LINES[j]);
      first := FirstComplete(b, j);
    } else {
      first := k;
    }
  }

  /** Playing the empty square `m` for `p` makes `p` the winner. */
  predicate Wins(b: Board, m: Index, p: Player) {
    b[m].None? && CheckGameState(b[m := Some(p)]).winner == Some(p)
  }

  /** `m` is the lowest-index square where `p` wins at once. */
  predicate IsLowestWin(b: Board, m: Index, p: Player) {
    Wins(b, m, p) && forall j: Index :: j < m ==> !Wins(b, j, p)
  }

  /** `p` has a square that wins at once. */
  predicate CanWin(b: Board, p: Player) {
    exists m: Index :: Wins(b, m, p)
  }

  // ---------------------------------------------------------------------------
  // Minimax with alpha-beta pruning
  // ---------------------------------------------------------------------------

  /** Stand-ins for `-Infinity` and `Infinity`: every score is in [-10, 10]. */
  const NEG_INF: int := -1000
  const POS_INF: int := 1000

  /** The depth limit of makeAIMove, and the one used when five or fewer squares are empty. */
  const DEFAULT_MAX_DEPTH: nat := 6
  const ENDGAME_MAX_DEPTH: nat := 9

  /** The root-move preferences tried when more than six squares are empty. */
  const PRIORITY_MOVES: seq<Index> := [4, 0, 2, 6, 8]

  /** The corners makeAIMove chooses among on its second move. */
  const CORNERS: seq<Index> := [0, 2, 6, 8]

  function Max(x: int, y: int): int { if x >= y then x else y }
  function Min(x: int, y: int): int { if x <= y then x else y }

  /** The score of a node that is not expanded: a win for the AI counts
      `10 - depth`, a win for its opponent `depth - 10`, anything else 0. */
  function TerminalScore(gs: GameState, ai: Player, depth: nat): int {
    if gs.winner == Some(ai) then 10 - depth
    else if gs.winner.Some? then depth - 10
    else 0
  }

  /** The first of `candidates` that `moves` includes. */
  function FirstIncluded(candidates: seq<Index>, moves: seq<Index>): (r: Option<Index>)
    ensures r.Some? ==> r.value in candidates && r.value in moves
    ensures r.None? <==> forall c :: c in candidates ==> c !in moves
    ensures r.Some? ==> exists k :: 0 <= k < |candidates| && candidates[k] == r.value
                          && forall j :: 0 <= j < k ==> candidates[j] !in moves
  {
    if |candidates| == 0 then None
    else if candidates[0] in moves then Some(candidates[0])
    else
      var r := FirstIncluded(candidates[1..], moves);
      assert forall c :: c in candidates[1..] ==> c in candidates;
      assert r.Some? ==> exists k :: 0 <= k < |candidates| && candidates[k] == r.value
                          && forall j :: 0 <= j < k ==> candidates[j] !in moves by {
        if r.Some? {
          var k :| 0 <= k < |candidates[1..]| && candidates[1..][k] == r.value
                   && forall j :: 0 <= j < k ==> candidates[1..][j] !in moves;
          assert candidates[k + 1] == r.value;
          assert forall j :: 0 <= j < k + 1 ==> candidates[j] !in moves by {
            forall j | 0 <= j < k + 1 ensures candidates[j] !in moves {
              if j > 0 { assert candidates[j] == candidates[1..][j - 1]; }
            }
          }
        }
      }
      r
  }

  /** minimax(squares, player, aiPlayer, depth, isMaximizing, alpha, beta, maxDepth). */
  function Minimax(b: Board, player: Player, ai: Player, depth: nat, isMax: bool,
                   alpha: int, beta: int, maxDepth: nat): MinimaxResult
    decreases maxDepth - depth, 1
  {
    var gs := CheckGameState(b);
    if gs.isOver || depth >= maxDepth then
      MinimaxResult(TerminalScore(gs, ai, depth), None)
    else
      var moves := GetEmptySquares(b);
      if |moves| == 0 then
        MinimaxResult(0, None)
      else
        var priority := if depth == 0 && |moves| > 6 then FirstIncluded(PRIORITY_MOVES, moves) else None;
        if priority.Some? then
          MinimaxResult(0, priority)
        else
          Search(b, player, ai, depth, isMax, moves, 0,
                 if isMax then NEG_INF else POS_INF, None, alpha, beta, maxDepth)
  }

  /** The `for (const move of availableMoves)` loop of minimax from `moves[i]` on,
      with the running bestScore, bestMove, alpha and beta; a cutoff ends it. */
  function Search(b: Board, player: Player, ai: Player, depth: nat, isMax: bool,
                  moves: seq<Index>, i: nat, bestScore: int, bestMove: Option<Index>,
                  alpha: int, beta: int, maxDepth: nat): MinimaxResult
    requires i <= |moves| && depth < maxDepth
    decreases maxDepth - depth, 0, |moves| - i
  {
    if i == |moves| then
      MinimaxResult(bestScore, bestMove)
    else
      var move := moves[i];
      var score := ChildScore(b, player, ai, depth, isMax, move, alpha, beta, maxDepth);
      var improves := if isMax then score > bestScore else score < bestScore;
      var best := if improves then score else bestScore;
      var bestMove' := if improves then Some(move) else bestMove;
      var alpha' := if isMax then Max(alpha, best) else alpha;
      var beta' := if isMax then beta else Min(beta, best);
      if beta' <= alpha' then
        MinimaxResult(best, bestMove')
      else
        Search(b, player, ai, depth, isMax, moves, i + 1, best, bestMove', alpha', beta', maxDepth)
  }

  /** The score minimax gives the board after `player` plays `m`. */
  function ChildScore(b: Board, player: Player, ai: Player, depth: nat, isMax: bool, m: Index,
                      alpha: int, beta: int, maxDepth: nat): int
    requires depth < maxDepth
    decreases maxDepth - depth, 0, 0
  {
    Minimax(b[m := Some(player)], Opponent(player), ai, depth + 1, !isMax, alpha, beta, maxDepth).score
  }

  // The reference: plain minimax with the same scoring and depth limit, no
  // pruning, no root shortcut.

  /** The minimax value of `b` when `player` is to move. */
  function Value(b: Board, player: Player, ai: Player, depth: nat, isMax: bool, maxDepth: nat): int
    decreases maxDepth - depth, 1
  {
    var gs := CheckGameState(b);
    if gs.isOver || depth >= maxDepth then
      TerminalScore(gs, ai, depth)
    else
      var moves := GetEmptySquares(b);
      if |moves| == 0 then 0 else BestValue(b, player, ai, depth, isMax, moves, 0, maxDepth)
  }

  /** The best (largest when maximizing, else smallest) value among the
      children reached through `moves[i..]`. */
  function BestValue(b: Board, player: Player, ai: Player, depth: nat, isMax: bool,
                     moves: seq<Index>, i: nat, maxDepth: nat): int
    requires i <= |moves| && depth < maxDepth
    decreases maxDepth - depth, 0, |moves| - i
  {
    if i == |moves| then
      if isMax then NEG_INF else POS_INF
    else
      var child := ChildValue(b, player, ai, depth, isMax, moves[i], maxDepth);
      var rest := BestValue(b, player, ai, depth, isMax, moves, i + 1, maxDepth);
      if isMax then Max(child, rest) else Min(child, rest)
  }

  /** The value of playing `m` for `player`. */
  function ChildValue(b: Board, player: Player, ai: Player, depth: nat, isMax: bool, m: Index, maxDepth: nat): int
    requires depth < maxDepth
    decreases maxDepth - depth, 0, 0
  {
    Value(b[m := Some(player)], Opponent(player), ai, depth + 1, !isMax, maxDepth)
  }

  /** `m` is the lowest-index empty square whose value is `v`; every empty
      square before it is strictly worse for the side to move. */
  predicate IsFirstBest(b: Board, player: Player, ai: Player, depth: nat, isMax: bool, maxDepth: nat,
                        m: Index, v: int)
    requires depth < maxDepth
  {
    && b[m].None?
    && ChildValue(b, player, ai, depth, isMax, m, maxDepth) == v
    && forall j: Index :: j < m && b[j].None? ==>
         if isMax then ChildValue(b, player, ai, depth, isMax, j, maxDepth) < v
         else ChildValue(b, player, ai, depth, isMax, j, maxDepth) > v
  }

  // ---------------------------------------------------------------------------
  // makeAIMove
  // ---------------------------------------------------------------------------

  /** The depth limit makeAIMove passes to minimax. */
  function DepthLimit(emptyCount: nat): nat {
    if emptyCount <= 5 then ENDGAME_MAX_DEPTH else DEFAULT_MAX_DEPTH
  }

  /** makeAIMove(squares, aiPlayer, difficulty); `randomise` is the medium test
      `Math.random() < 0.3`, `pick` the random index draw. */
  function MakeAIMove(b: Board, ai: Player, difficulty: Difficulty, randomise: bool, pick: nat): Option<Index> {
    var emptyCount := |GetEmptySquares(b)|;
    if emptyCount == 9 then Some(4)
    else if emptyCount == 8 then
      if b[4].Some? then Some(CORNERS[pick % |CORNERS|]) else Some(4)
    else if difficulty == Easy then MakeRandomMove(b, pick)
    else if difficulty == Medium && randomise then MakeRandomMove(b, pick)
    else Minimax(b, ai, ai, 0, true, NEG_INF, POS_INF, DepthLimit(emptyCount)).move
  }
}
