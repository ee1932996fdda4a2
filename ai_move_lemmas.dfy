/** What makeAIMove of aiUtils.ts guarantees: a legal square, the opening
    book, the random branch, and on the minimax branch an optimal move --
    in particular an immediate win whenever one exists. */
module AiMoveLemmas {
  import opened Types
  import opened AiUtils
  import opened AiUtilsLemmas

  // ---------------------------------------------------------------------------
  // Facts about the search at the root
  // ---------------------------------------------------------------------------

  /** With at most two marks on the board no line is complete, so the game is
      still in play. */
  lemma EarlyBoardOngoing(b: Board)
    requires |GetEmptySquares(b)| > 6
    ensures CheckGameState(b) == ONGOING
  {
    forall k | 0 <= k < |LINES|
      ensures !Completes(b, LINES[k])
    {
      if Completes(b, LINES[k]) {
        var l := LINES[k];
        assert l.a != l.b && l.b != l.c && l.a != l.c;
        ThreeFilledFrom(b, l.a, l.b, l.c, 0);
      }
    }
    NoCompleteLine(b);
  }

  /** With more than six empty squares the root search does not search: it
      answers the first free square of centre, top-left, top-right (two marks
      cannot cover all three) with score 0. */
  lemma PriorityShortcut(b: Board, player: Player, ai: Player, isMax: bool,
                         alpha: int, beta: int, maxDepth: nat)
    requires |GetEmptySquares(b)| > 6 && 0 < maxDepth
    ensures Minimax(b, player, ai, 0, isMax, alpha, beta, maxDepth)
            == MinimaxResult(0, Some(if b[4].None? then 4 else if b[0].None? then 0 else 2))
  {
    EarlyBoardOngoing(b);
    PriorityAvailable(b);
    var moves := GetEmptySquares(b);
    EmptySquaresSpec(b);
    var r := FirstIncluded(PRIORITY_MOVES, moves);
    var first := if b[4].None? then 0 else if b[0].None? then 1 else 2;
    assert PRIORITY_MOVES[first] in moves;
    assert forall j :: 0 <= j < first ==> PRIORITY_MOVES[j] !in moves;
    assert r.Some?;
    var k :| 0 <= k < |PRIORITY_MOVES| && PRIORITY_MOVES[k] == r.value
             && forall j :: 0 <= j < k ==> PRIORITY_MOVES[j] !in moves;
    assert k == first;
  }

  /** Searched with the full window (-Infinity, Infinity), a node gets its exact
      minimax value, and the move is the lowest-index empty square attaining
      it: pruning loses nothing at the root. */
  lemma RootSearchExact(b: Board, player: Player, ai: Player, depth: nat, isMax: bool, maxDepth: nat)
    requires depth + |GetEmptySquares(b)| <= 9
    requires depth > 0 || |GetEmptySquares(b)| <= 6
    requires !CheckGameState(b).isOver && depth < maxDepth
    ensures var r := Minimax(b, player, ai, depth, isMax, NEG_INF, POS_INF, maxDepth);
            && r.score == Value(b, player, ai, depth, isMax, maxDepth)
            && r.move.Some?
            && IsFirstBest(b, player, ai, depth, isMax, maxDepth, r.move.value, r.score)
  {
    MinimaxBounds(b, player, ai, depth, isMax, NEG_INF, POS_INF, maxDepth);
    AlphaBetaNode(b, player, ai, depth, isMax, NEG_INF, POS_INF, maxDepth);
  }

  lemma {:induction false} BestValueDominates(b: Board, player: Player, ai: Player, depth: nat, isMax: bool,
                                              moves: seq<Index>, i: nat, j: nat, maxDepth: nat)
    requires i <= j < |moves| && depth < maxDepth
    ensures var v := BestValue(b, player, ai, depth, isMax, moves, i, maxDepth);
            var c := ChildValue(b, player, ai, depth, isMax, moves[j], maxDepth);
            if isMax then c <= v else c >= v
    decreases j - i
  {
    if i < j {
      BestValueDominates(b, player, ai, depth, isMax, moves, i + 1, j, maxDepth);
    }
  }

  /** No move is better than the minimax value: it is the largest child value
      at a maximizing node and the smallest at a minimizing one. */
  lemma ValueDominates(b: Board, player: Player, ai: Player, depth: nat, isMax: bool, maxDepth: nat, m: Index)
    requires !CheckGameState(b).isOver && depth < maxDepth && b[m].None?
    ensures var v := Value(b, player, ai, depth, isMax, maxDepth);
            var c := ChildValue(b, player, ai, depth, isMax, m, maxDepth);
            if isMax then c <= v else c >= v
  {
    var moves := GetEmptySquares(b);
    EmptySquaresSpec(b);
    assert m in moves;
    var j :| 0 <= j < |moves| && moves[j] == m;
    BestValueDominates(b, player, ai, depth, isMax, moves, 0, j, maxDepth);
  }

  /** A child value of 9 at the root means the move wins on the spot: every
      later win or loss scores less. */
  lemma NineMeansImmediateWin(b: Board, ai: Player, m: Index, maxDepth: nat)
    requires b[m].None? && 0 < maxDepth
    requires ChildValue(b, ai, ai, 0, true, m, maxDepth) == 9
    ensures CheckGameState(b[m := Some(ai)]).winner == Some(ai)
  {
    var child := b[m := Some(ai)];
    FillReducesEmpty(b, m, ai);
    var gs := CheckGameState(child);
    if !gs.isOver && 1 < maxDepth {
      var moves := GetEmptySquares(child);
      BestValueBounds(child, Opponent(ai), ai, 1, false, moves, 0, maxDepth);
      assert false;
    }
  }

  // ---------------------------------------------------------------------------
  // makeAIMove
  // ---------------------------------------------------------------------------

  /** The opening book: with eight or nine empty squares the AI takes the
      centre when it is free, and otherwise a corner, which is then free. */
  lemma OpeningMoves(b: Board, ai: Player, difficulty: Difficulty, randomise: bool, pick: nat)
    requires |GetEmptySquares(b)| >= 8
    ensures var r := MakeAIMove(b, ai, difficulty, randomise, pick);
            && r.Some? && b[r.value].None?
            && (b[4].None? ==> r == Some(4))
            && (b[4].Some? ==> r.value in CORNERS)
  {
    var r := MakeAIMove(b, ai, difficulty, randomise, pick);
    if b[4].Some? {
      OneFilledFrom(b, 4, 0);
      var c := CORNERS[pick % |CORNERS|];
      assert c in CORNERS;
      assert r == Some(c);
      if b[c].Some? {
        TwoFilled(b, 4, c);
      }
    }
  }

  /** With the centre taken in the opening, every corner is the AI's answer
      for some draw. */
  lemma OpeningCornerCovers(b: Board, ai: Player, difficulty: Difficulty, randomise: bool, c: Index)
    requires |GetEmptySquares(b)| >= 8 && b[4].Some? && c in CORNERS
    ensures exists pick: nat :: MakeAIMove(b, ai, difficulty, randomise, pick) == Some(c)
  {
    OneFilledFrom(b, 4, 0);
    var j :| 0 <= j < |CORNERS| && CORNERS[j] == c;
    SmallModulus(j, |CORNERS|);
    assert MakeAIMove(b, ai, difficulty, randomise, j) == Some(c);
  }

  /** makeAIMove only ever proposes an empty square; it proposes none on a full
      board, and always proposes one while the game is in play. */
  lemma AIMoveLegal(b: Board, ai: Player, difficulty: Difficulty, randomise: bool, pick: nat)
    ensures var r := MakeAIMove(b, ai, difficulty, randomise, pick);
            && (r.Some? ==> b[r.value].None?)
            && (IsFull(b) ==> r.None?)
            && (!CheckGameState(b).isOver ==> r.Some?)
  {
    var n := |GetEmptySquares(b)|;
    if n >= 8 {
      OpeningMoves(b, ai, difficulty, randomise, pick);
    } else if difficulty == Easy || (difficulty == Medium && randomise) {
    } else {
      MinimaxBounds(b, ai, ai, 0, true, NEG_INF, POS_INF, DepthLimit(n));
    }
  }

  /** On the random branch (easy, or medium when the draw says so) every empty
      square is a possible answer, and nothing else is. */
  lemma RandomBranchCoversEmpties(b: Board, ai: Player, difficulty: Difficulty, randomise: bool)
    requires difficulty == Easy || (difficulty == Medium && randomise)
    requires |GetEmptySquares(b)| < 8
    ensures forall pick: nat :: MakeAIMove(b, ai, difficulty, randomise, pick).Some? ==>
              b[MakeAIMove(b, ai, difficulty, randomise, pick).value].None?
    ensures forall i: Index :: b[i].None? ==>
              exists pick: nat :: MakeAIMove(b, ai, difficulty, randomise, pick) == Some(i)
  {
    forall i: Index | b[i].None?
      ensures exists pick: nat :: MakeAIMove(b, ai, difficulty, randomise, pick) == Some(i)
    {
      RandomMoveCoversEmpties(b, i);
      var pick: nat :| MakeRandomMove(b, pick) == Some(i);
      assert MakeAIMove(b, ai, difficulty, randomise, pick) == Some(i);
    }
  }

  /** On the minimax branch with seven empty squares the AI plays the first
      free square of centre, top-left, top-right. */
  lemma SearchBranchSevenEmpty(b: Board, ai: Player, difficulty: Difficulty, randomise: bool, pick: nat)
    requires difficulty == Hard || (difficulty == Medium && !randomise)
    requires |GetEmptySquares(b)| == 7
    ensures MakeAIMove(b, ai, difficulty, randomise, pick)
            == Some(if b[4].None? then 4 else if b[0].None? then 0 else 2)
  {
    PriorityShortcut(b, ai, ai, true, NEG_INF, POS_INF, DepthLimit(7));
  }

  /** On the minimax branch with six or fewer empty squares the AI plays a move
      of optimal minimax value (to depth 6, or to the end of the game with five
      or fewer empty squares), the lowest-index one among equals. */
  lemma SearchBranchOptimal(b: Board, ai: Player, difficulty: Difficulty, randomise: bool, pick: nat)
    requires difficulty == Hard || (difficulty == Medium && !randomise)
    requires !CheckGameState(b).isOver && |GetEmptySquares(b)| <= 6
    ensures var d := DepthLimit(|GetEmptySquares(b)|);
            var r := MakeAIMove(b, ai, difficulty, randomise, pick);
            && r.Some?
            && IsFirstBest(b, ai, ai, 0, true, d, r.value, Value(b, ai, ai, 0, true, d))
  {
    RootSearchExact(b, ai, ai, 0, true, DepthLimit(|GetEmptySquares(b)|));
  }

  /** An immediate win is worth 9 to the AI at the root. */
  lemma WinScoresNine(b: Board, ai: Player, m: Index, maxDepth: nat)
    requires Wins(b, m, ai) && 0 < maxDepth
    ensures ChildValue(b, ai, ai, 0, true, m, maxDepth) == 9
  {
    FillReducesEmpty(b, m, ai);
    assert CheckGameState(b[m := Some(ai)]).isOver;
  }

  /** On the minimax branch with six or fewer empty squares the AI completes a
      line whenever it can, choosing the lowest-index winning square. */
  lemma SearchBranchTakesWin(b: Board, ai: Player, difficulty: Difficulty, randomise: bool, pick: nat)
    requires difficulty == Hard || (difficulty == Medium && !randomise)
    requires !CheckGameState(b).isOver && |GetEmptySquares(b)| <= 6
    requires CanWin(b, ai)
    ensures var r := MakeAIMove(b, ai, difficulty, randomise, pick);
            r.Some? && IsLowestWin(b, r.value, ai)
  {
    var n := |GetEmptySquares(b)|;
    var d := DepthLimit(n);
    SearchBranchOptimal(b, ai, difficulty, randomise, pick);
    var m := MakeAIMove(b, ai, difficulty, randomise, pick).value;
    var v := Value(b, ai, ai, 0, true, d);
    var w: Index :| Wins(b, w, ai);
    WinScoresNine(b, ai, w, d);
    ValueDominates(b, ai, ai, 0, true, d, w);
    assert v <= 9 by {
      var moves := GetEmptySquares(b);
      BestValueBounds(b, ai, ai, 0, true, moves, 0, d);
    }
    NineMeansImmediateWin(b, ai, m, d);
    forall j: Index | j < m
      ensures !Wins(b, j, ai)
    {
      if Wins(b, j, ai) {
        WinScoresNine(b, ai, j, d);
      }
    }
  }
}
