/** What the minimax selector of aiUtils.ts guarantees: score bounds, legal
    moves, that alpha-beta pruning agrees with plain minimax, and the rules
    of makeAIMove. */
module AiUtilsLemmas {
  import opened Types
  import opened AiUtils

  // ---------------------------------------------------------------------------
  // Counting empty squares
  // ---------------------------------------------------------------------------

  lemma {:induction false} FillFrom(b: Board, m: Index, p: Player, k: nat)
    requires b[m].None? && k <= 9
    ensures |EmptyFrom(b[m := Some(p)], k)| == |EmptyFrom(b, k)| - (if k <= m then 1 else 0)
    decreases 9 - k
  {
    if k < 9 {
      FillFrom(b, m, p, k + 1);
    }
  }

  /** Playing on an empty square leaves one empty square fewer. */
  lemma FillReducesEmpty(b: Board, m: Index, p: Player)
    requires b[m].None?
    ensures |GetEmptySquares(b[m := Some(p)])| == |GetEmptySquares(b)| - 1
  {
    FillFrom(b, m, p, 0);
  }

  /** Playing the `i`-th empty square is legal and leaves one empty square fewer. */
  lemma PlayReducesEmpty(b: Board, moves: seq<Index>, i: nat, p: Player)
    requires moves == GetEmptySquares(b) && i < |moves|
    ensures b[moves[i]].None?
    ensures |GetEmptySquares(b[moves[i] := Some(p)])| == |moves| - 1
  {
    EmptySquaresSpec(b);
    FillReducesEmpty(b, moves[i], p);
  }

  lemma {:induction false} OneFilledFrom(b: Board, p: Index, k: nat)
    requires b[p].Some? && k <= 9
    ensures |EmptyFrom(b, k)| <= 9 - k - (if k <= p then 1 else 0)
    decreases 9 - k
  {
    if k < 9 {
      OneFilledFrom(b, p, k + 1);
    }
  }

  lemma {:induction false} TwoFilledFrom(b: Board, p: Index, q: Index, k: nat)
    requires p != q && b[p].Some? && b[q].Some? && k <= 9
    ensures |EmptyFrom(b, k)| <= 9 - k - (if k <= p then 1 else 0) - (if k <= q then 1 else 0)
    decreases 9 - k
  {
    if k < 9 {
      TwoFilledFrom(b, p, q, k + 1);
    }
  }

  /** A board with two marks has at most seven empty squares. */
  lemma TwoFilled(b: Board, p: Index, q: Index)
    requires p != q && b[p].Some? && b[q].Some?
    ensures |GetEmptySquares(b)| <= 7
  {
    TwoFilledFrom(b, p, q, 0);
  }

  lemma {:induction false} ThreeFilledFrom(b: Board, p: Index, q: Index, t: Index, k: nat)
    requires p != q && q != t && p != t && b[p].Some? && b[q].Some? && b[t].Some? && k <= 9
    ensures |EmptyFrom(b, k)| <= 9 - k - (if k <= p then 1 else 0) - (if k <= q then 1 else 0)
                                       - (if k <= t then 1 else 0)
    decreases 9 - k
  {
    if k < 9 {
      ThreeFilledFrom(b, p, q, t, k + 1);
    }
  }

  /** With more than six empty squares one of centre, top-left and top-right
      is free, so one of the priority squares is. */
  lemma PriorityAvailable(b: Board)
    requires |GetEmptySquares(b)| > 6
    ensures b[4].None? || b[0].None? || b[2].None?
    ensures FirstIncluded(PRIORITY_MOVES, GetEmptySquares(b)).Some?
  {
    if b[4].Some? && b[0].Some? && b[2].Some? {
      ThreeFilledFrom(b, 4, 0, 2, 0);
    }
    var moves := GetEmptySquares(b);
    var c: Index := if b[4].None? then 4 else if b[0].None? then 0 else 2;
    assert c in moves;
    assert c in PRIORITY_MOVES;
  }

  // ---------------------------------------------------------------------------
  // makeRandomMove
  // ---------------------------------------------------------------------------

  lemma SmallModulus(j: nat, n: nat)
    requires j < n
    ensures j % n == j
  {
  }

  /** Every empty square is the outcome of some draw. */
  lemma RandomMoveCoversEmpties(b: Board, i: Index)
    requires b[i].None?
    ensures exists pick: nat :: MakeRandomMove(b, pick) == Some(i)
  {
    var empties := GetEmptySquares(b);
    assert i in empties;
    var j :| 0 <= j < |empties| && empties[j] == i;
    SmallModulus(j, |empties|);
    assert MakeRandomMove(b, j) == Some(i);
  }

  // ---------------------------------------------------------------------------
  // Scores and moves of the search
  // ---------------------------------------------------------------------------

  /** A node that is not expanded: a finished board, or the depth limit; a win
      is scored even at the depth limit. */
  lemma LeafScores(b: Board, player: Player, ai: Player, depth: nat, isMax: bool,
                   alpha: int, beta: int, maxDepth: nat)
    requires CheckGameState(b).isOver || depth >= maxDepth
    ensures var gs := CheckGameState(b);
            var r := Minimax(b, player, ai, depth, isMax, alpha, beta, maxDepth);
            && r.move.None?
            && (gs.winner == Some(ai) ==> r.score == 10 - depth)
            && (gs.winner == Some(Opponent(ai)) ==> r.score == depth - 10)
            && (gs.winner.None? ==> r.score == 0)
  {
  }

  /** The unpruned value lies between a loss now and a win now. */
  lemma {:induction false} ValueBounds(b: Board, player: Player, ai: Player, depth: nat, isMax: bool, maxDepth: nat)
    requires depth + |GetEmptySquares(b)| <= 9
    ensures depth - 10 <= Value(b, player, ai, depth, isMax, maxDepth) <= 10 - depth
    decreases maxDepth - depth, 1
  {
    var gs := CheckGameState(b);
    if gs.isOver || depth >= maxDepth {
      return;
    }
    var moves := GetEmptySquares(b);
    if |moves| > 0 {
      BestValueBounds(b, player, ai, depth, isMax, moves, 0, maxDepth);
    }
  }

  lemma {:induction false} BestValueBounds(b: Board, player: Player, ai: Player, depth: nat, isMax: bool,
                                           moves: seq<Index>, i: nat, maxDepth: nat)
    requires moves == GetEmptySquares(b) && i < |moves| && depth < maxDepth
    requires depth + |moves| <= 9
    ensures depth + 1 - 10 <= BestValue(b, player, ai, depth, isMax, moves, i, maxDepth) <= 10 - (depth + 1)
    decreases maxDepth - depth, 0, |moves| - i
  {
    var m := moves[i];
    PlayReducesEmpty(b, moves, i, player);
    ChildValueBounds(b, player, ai, depth, isMax, m, maxDepth);
    var c := ChildValue(b, player, ai, depth, isMax, m, maxDepth);
    var rest := BestValue(b, player, ai, depth, isMax, moves, i + 1, maxDepth);
    if i + 1 < |moves| {
      BestValueBounds(b, player, ai, depth, isMax, moves, i + 1, maxDepth);
    }
    CombineBounds(isMax, c, rest, depth + 1 - 10, 10 - (depth + 1));
  }

  lemma {:induction false} ChildValueBounds(b: Board, player: Player, ai: Player, depth: nat, isMax: bool,
                                            m: Index, maxDepth: nat)
    requires depth < maxDepth
    requires depth + 1 + |GetEmptySquares(b[m := Some(player)])| <= 9
    ensures depth + 1 - 10 <= ChildValue(b, player, ai, depth, isMax, m, maxDepth) <= 10 - (depth + 1)
    decreases maxDepth - depth, 0, 0
  {
    ValueBounds(b[m := Some(player)], Opponent(player), ai, depth + 1, !isMax, maxDepth);
  }

  /** Folding a value in [lo, hi] into a best-so-far that is in [lo, hi] or
      still the sentinel keeps the result in [lo, hi]. */
  lemma CombineBounds(isMax: bool, c: int, rest: int, lo: int, hi: int)
    requires NEG_INF < lo <= c <= hi < POS_INF
    requires (lo <= rest <= hi) || rest == (if isMax then NEG_INF else POS_INF)
    ensures lo <= (if isMax then Max(c, rest) else Min(c, rest)) <= hi
  {
  }

  /** Whatever the window, every score is in [-10, 10], the move is an empty
      square, and a move is returned exactly when the node is expanded. */
  lemma {:induction false} MinimaxBounds(b: Board, player: Player, ai: Player, depth: nat, isMax: bool,
                                         alpha: int, beta: int, maxDepth: nat)
    requires depth + |GetEmptySquares(b)| <= 9
    ensures var r := Minimax(b, player, ai, depth, isMax, alpha, beta, maxDepth);
            && -10 <= r.score <= 10
            && (r.move.Some? ==> b[r.move.value].None?)
            && (r.move.Some? <==> !CheckGameState(b).isOver && depth < maxDepth)
    decreases maxDepth - depth, 1
  {
    var gs := CheckGameState(b);
    if gs.isOver || depth >= maxDepth {
      return;
    }
    var moves := GetEmptySquares(b);
    assert |moves| > 0;
    EmptySquaresSpec(b);
    var priority := if depth == 0 && |moves| > 6 then FirstIncluded(PRIORITY_MOVES, moves) else None;
    if priority.None? {
      SearchBounds(b, player, ai, depth, isMax, moves, 0, if isMax then NEG_INF else POS_INF, None,
                   alpha, beta, maxDepth);
    }
  }

  lemma {:induction false} SearchBounds(b: Board, player: Player, ai: Player, depth: nat, isMax: bool,
                                        moves: seq<Index>, i: nat, best: int, bestMove: Option<Index>,
                                        alpha: int, beta: int, maxDepth: nat)
    requires moves == GetEmptySquares(b) && i <= |moves| && depth < maxDepth
    requires depth + |moves| <= 9
    requires || (-10 <= best <= 10 && bestMove.Some? && b[bestMove.value].None?)
             || (i < |moves| && best == if isMax then NEG_INF else POS_INF)
    ensures var r := Search(b, player, ai, depth, isMax, moves, i, best, bestMove, alpha, beta, maxDepth);
            -10 <= r.score <= 10 && r.move.Some? && b[r.move.value].None?
    decreases maxDepth - depth, 0, |moves| - i
  {
    if i == |moves| {
      return;
    }
    var m := moves[i];
    PlayReducesEmpty(b, moves, i, player);
    ChildScoreBounds(b, player, ai, depth, isMax, m, alpha, beta, maxDepth);
    var score := ChildScore(b, player, ai, depth, isMax, m, alpha, beta, maxDepth);
    var improves := if isMax then score > best else score < best;
    var best' := if improves then score else best;
    var bestMove' := if improves then Some(m) else bestMove;
    var alpha' := if isMax then Max(alpha, best') else alpha;
    var beta' := if isMax then beta else Min(beta, best');
    ImprovesOnSentinel(isMax, score, best);
    var r := Search(b, player, ai, depth, isMax, moves, i, best, bestMove, alpha, beta, maxDepth);
    if alpha' < beta' {
      assert r == Search(b, player, ai, depth, isMax, moves, i + 1, best', bestMove', alpha', beta', maxDepth);
      SearchBounds(b, player, ai, depth, isMax, moves, i + 1, best', bestMove', alpha', beta', maxDepth);
    } else {
      assert r == MinimaxResult(best', bestMove');
    }
  }

  lemma {:induction false} ChildScoreBounds(b: Board, player: Player, ai: Player, depth: nat, isMax: bool,
                                            m: Index, alpha: int, beta: int, maxDepth: nat)
    requires b[m].None? && depth < maxDepth
    requires depth + 1 + |GetEmptySquares(b[m := Some(player)])| <= 9
    ensures -10 <= ChildScore(b, player, ai, depth, isMax, m, alpha, beta, maxDepth) <= 10
    decreases maxDepth - depth, 0, 0
  {
    MinimaxBounds(b[m := Some(player)], Opponent(player), ai, depth + 1, !isMax, alpha, beta, maxDepth);
  }

  /** A score in [-10, 10] always beats the sentinel the loop starts from. */
  lemma ImprovesOnSentinel(isMax: bool, score: int, best: int)
    requires -10 <= score <= 10
    requires (-10 <= best <= 10) || best == (if isMax then NEG_INF else POS_INF)
    ensures var improves := if isMax then score > best else score < best;
            && -10 <= (if improves then score else best) <= 10
            && (best == (if isMax then NEG_INF else POS_INF) ==> improves)
  {
  }

  // ---------------------------------------------------------------------------
  // Alpha-beta pruning agrees with plain minimax
  // ---------------------------------------------------------------------------

  /** The fail-soft relation between a pruned result `r` and the true value `v`
      for the window (alpha, beta): inside the window the result is exact, and
      outside it is a bound on the same side. */
  predicate FailSoft(r: int, v: int, alpha: int, beta: int) {
    && (r <= alpha ==> v <= r)
    && (r >= beta ==> v >= r)
    && (alpha < r < beta ==> v == r)
  }

  /** Pruning is only an optimisation: within any window the search result is
      fail-soft for the unpruned value, and inside the window the chosen move is
      the lowest-index empty square attaining it. */
  lemma {:induction false} AlphaBetaNode(b: Board, player: Player, ai: Player, depth: nat, isMax: bool,
                                         alpha: int, beta: int, maxDepth: nat)
    requires NEG_INF <= alpha < beta <= POS_INF
    requires depth > 0 || |GetEmptySquares(b)| <= 6
    ensures var r := Minimax(b, player, ai, depth, isMax, alpha, beta, maxDepth);
            && FailSoft(r.score, Value(b, player, ai, depth, isMax, maxDepth), alpha, beta)
            && (alpha < r.score < beta && !CheckGameState(b).isOver && depth < maxDepth ==>
                  r.move.Some? && IsFirstBest(b, player, ai, depth, isMax, maxDepth, r.move.value, r.score))
    decreases maxDepth - depth, 1
  {
    var gs := CheckGameState(b);
    if gs.isOver || depth >= maxDepth {
      return;
    }
    var moves := GetEmptySquares(b);
    assert |moves| > 0;
    var r := Search(b, player, ai, depth, isMax, moves, 0, if isMax then NEG_INF else POS_INF, None,
                    alpha, beta, maxDepth);
    assert Minimax(b, player, ai, depth, isMax, alpha, beta, maxDepth) == r;
    var k: nat;
    if isMax {
      k := SearchMax(b, player, ai, depth, moves, 0, NEG_INF, None, alpha, beta, maxDepth);
    } else {
      k := SearchMin(b, player, ai, depth, moves, 0, POS_INF, None, alpha, beta, maxDepth);
    }
    if alpha < r.score < beta {
      FirstBestAt(b, player, ai, depth, isMax, maxDepth, moves, k, r.score);
    }
  }

  lemma {:induction false} ChildAlphaBeta(b: Board, player: Player, ai: Player, depth: nat, isMax: bool,
                                          m: Index, alpha: int, beta: int, maxDepth: nat)
    requires NEG_INF <= alpha < beta <= POS_INF && depth < maxDepth
    ensures FailSoft(ChildScore(b, player, ai, depth, isMax, m, alpha, beta, maxDepth),
                     ChildValue(b, player, ai, depth, isMax, m, maxDepth), alpha, beta)
    decreases maxDepth - depth, 0, 0
  {
    AlphaBetaNode(b[m := Some(player)], Opponent(player), ai, depth + 1, !isMax, alpha, beta, maxDepth);
  }

  /** Index form of IsFirstBest over the ascending list of empty squares. */
  lemma FirstBestAt(b: Board, player: Player, ai: Player, depth: nat, isMax: bool, maxDepth: nat,
                    moves: seq<Index>, k: nat, v: int)
    requires moves == GetEmptySquares(b) && k < |moves| && depth < maxDepth
    requires ChildValue(b, player, ai, depth, isMax, moves[k], maxDepth) == v
    requires forall j :: 0 <= j < k ==>
               if isMax then ChildValue(b, player, ai, depth, isMax, moves[j], maxDepth) < v
               else ChildValue(b, player, ai, depth, isMax, moves[j], maxDepth) > v
    ensures IsFirstBest(b, player, ai, depth, isMax, maxDepth, moves[k], v)
  {
    EmptySquaresSpec(b);
    forall j: Index | j < moves[k] && b[j].None?
      ensures if isMax then ChildValue(b, player, ai, depth, isMax, j, maxDepth) < v
              else ChildValue(b, player, ai, depth, isMax, j, maxDepth) > v
    {
      assert j in moves;
      var jj :| 0 <= jj < |moves| && moves[jj] == j;
      assert jj < k;
    }
  }

  /** The loop of a maximizing node from `moves[i]` on. */
  lemma {:induction false} SearchMax(b: Board, player: Player, ai: Player, depth: nat,
                                     moves: seq<Index>, i: nat, best: int, bestMove: Option<Index>,
                                     alpha: int, beta: int, maxDepth: nat) returns (k: nat)
    requires moves == GetEmptySquares(b) && i <= |moves| && depth < maxDepth
    requires NEG_INF <= best <= alpha < beta <= POS_INF
    ensures var r := Search(b, player, ai, depth, true, moves, i, best, bestMove, alpha, beta, maxDepth);
            && best <= r.score
            && FailSoft(r.score, BestValue(b, player, ai, depth, true, moves, i, maxDepth), alpha, beta)
            && (r.score == best ==> r.move == bestMove)
            && (alpha < r.score < beta ==>
                  && i <= k < |moves| && r.move == Some(moves[k])
                  && ChildValue(b, player, ai, depth, true, moves[k], maxDepth) == r.score
                  && forall j :: i <= j < k ==> ChildValue(b, player, ai, depth, true, moves[j], maxDepth) < r.score)
    decreases maxDepth - depth, 0, |moves| - i
  {
    if i == |moves| {
      return 0;
    }
    var m := moves[i];
    ChildAlphaBeta(b, player, ai, depth, true, m, alpha, beta, maxDepth);
    var s := ChildScore(b, player, ai, depth, true, m, alpha, beta, maxDepth);
    var c := ChildValue(b, player, ai, depth, true, m, maxDepth);
    var best' := if s > best then s else best;
    var bestMove' := if s > best then Some(m) else bestMove;
    var alpha' := Max(alpha, best');
    var r := Search(b, player, ai, depth, true, moves, i, best, bestMove, alpha, beta, maxDepth);
    var rest := BestValue(b, player, ai, depth, true, moves, i + 1, maxDepth);
    assert BestValue(b, player, ai, depth, true, moves, i, maxDepth) == Max(c, rest);
    if beta <= alpha' {
      assert r == MinimaxResult(best', bestMove');
      MaxCutoff(s, c, best, alpha, beta, rest);
      k := i;
    } else {
      assert r == Search(b, player, ai, depth, true, moves, i + 1, best', bestMove', alpha', beta, maxDepth);
      var k' := SearchMax(b, player, ai, depth, moves, i + 1, best', bestMove', alpha', beta, maxDepth);
      MaxContinue(s, c, best, alpha, beta, r.score, rest);
      if alpha < r.score < beta && r.score == best' && s > best {
        k := i;
      } else {
        k := k';
        if alpha < r.score < beta {
          WorseFirst(b, player, ai, depth, true, maxDepth, moves, i, k, r.score);
        }
      }
    }
  }

  /** Extends "every child in moves[i + 1..k] is worse than v" down to i. */
  lemma WorseFirst(b: Board, player: Player, ai: Player, depth: nat, isMax: bool, maxDepth: nat,
                   moves: seq<Index>, i: nat, k: nat, v: int)
    requires i < k <= |moves| && depth < maxDepth
    requires var c := ChildValue(b, player, ai, depth, isMax, moves[i], maxDepth);
             if isMax then c < v else c > v
    requires forall j :: i + 1 <= j < k ==>
               var c := ChildValue(b, player, ai, depth, isMax, moves[j], maxDepth);
               if isMax then c < v else c > v
    ensures forall j :: i <= j < k ==>
              var c := ChildValue(b, player, ai, depth, isMax, moves[j], maxDepth);
              if isMax then c < v else c > v
  {
  }

  /** A cutoff at a maximizing node: the score reached beta, and the true value
      is at least as large. */
  lemma MaxCutoff(s: int, c: int, best: int, alpha: int, beta: int, rest: int)
    requires FailSoft(s, c, alpha, beta) && best <= alpha < beta
    requires beta <= Max(alpha, if s > best then s else best)
    ensures FailSoft(if s > best then s else best, Max(c, rest), alpha, beta)
  {
  }

  /** The search goes on at a maximizing node with alpha raised to the best
      score so far: the result for the rest of the loop carries over. */
  lemma MaxContinue(s: int, c: int, best: int, alpha: int, beta: int, rs: int, rest: int)
    requires FailSoft(s, c, alpha, beta) && best <= alpha < beta
    requires Max(alpha, if s > best then s else best) < beta
    requires FailSoft(rs, rest, Max(alpha, if s > best then s else best), beta)
    requires (if s > best then s else best) <= rs
    ensures FailSoft(rs, Max(c, rest), alpha, beta)
    ensures alpha < rs < beta && rs == (if s > best then s else best) && s > best ==> c == rs
    ensures alpha < rs < beta && !(rs == (if s > best then s else best) && s > best) ==>
              c < rs && Max(alpha, if s > best then s else best) < rs
  {
  }

  /** The loop of a minimizing node from `moves[i]` on. */
  lemma {:induction false} SearchMin(b: Board, player: Player, ai: Player, depth: nat,
                                     moves: seq<Index>, i: nat, best: int, bestMove: Option<Index>,
                                     alpha: int, beta: int, maxDepth: nat) returns (k: nat)
    requires moves == GetEmptySquares(b) && i <= |moves| && depth < maxDepth
    requires NEG_INF <= alpha < beta <= best <= POS_INF
    ensures var r := Search(b, player, ai, depth, false, moves, i, best, bestMove, alpha, beta, maxDepth);
            && r.score <= best
            && FailSoft(r.score, BestValue(b, player, ai, depth, false, moves, i, maxDepth), alpha, beta)
            && (r.score == best ==> r.move == bestMove)
            && (alpha < r.score < beta ==>
                  && i <= k < |moves| && r.move == Some(moves[k])
                  && ChildValue(b, player, ai, depth, false, moves[k], maxDepth) == r.score
                  && forall j :: i <= j < k ==> ChildValue(b, player, ai, depth, false, moves[j], maxDepth) > r.score)
    decreases maxDepth - depth, 0, |moves| - i
  {
    if i == |moves| {
      return 0;
    }
    var m := moves[i];
    ChildAlphaBeta(b, player, ai, depth, false, m, alpha, beta, maxDepth);
    var s := ChildScore(b, player, ai, depth, false, m, alpha, beta, maxDepth);
    var c := ChildValue(b, player, ai, depth, false, m, maxDepth);
    var best' := if s < best then s else best;
    var bestMove' := if s < best then Some(m) else bestMove;
    var beta' := Min(beta, best');
    var r := Search(b, player, ai, depth, false, moves, i, best, bestMove, alpha, beta, maxDepth);
    var rest := BestValue(b, player, ai, depth, false, moves, i + 1, maxDepth);
    assert BestValue(b, player, ai, depth, false, moves, i, maxDepth) == Min(c, rest);
    if beta' <= alpha {
      assert r == MinimaxResult(best', bestMove');
      MinCutoff(s, c, best, alpha, beta, rest);
      k := i;
    } else {
      assert r == Search(b, player, ai, depth, false, moves, i + 1, best', bestMove', alpha, beta', maxDepth);
      var k' := SearchMin(b, player, ai, depth, moves, i + 1, best', bestMove', alpha, beta', maxDepth);
      MinContinue(s, c, best, alpha, beta, r.score, rest);
      if alpha < r.score < beta && r.score == best' && s < best {
        k := i;
      } else {
        k := k';
        if alpha < r.score < beta {
          WorseFirst(b, player, ai, depth, false, maxDepth, moves, i, k, r.score);
        }
      }
    }
  }

  /** A cutoff at a minimizing node: the score fell to alpha, and the true
      value is at most as large. */
  lemma MinCutoff(s: int, c: int, best: int, alpha: int, beta: int, rest: int)
    requires FailSoft(s, c, alpha, beta) && alpha < beta <= best
    requires Min(beta, if s < best then s else best) <= alpha
    ensures FailSoft(if s < best then s else best, Min(c, rest), alpha, beta)
  {
  }

  /** The search goes on at a minimizing node with beta lowered to the best
      score so far: the result for the rest of the loop carries over. */
  lemma MinContinue(s: int, c: int, best: int, alpha: int, beta: int, rs: int, rest: int)
    requires FailSoft(s, c, alpha, beta) && alpha < beta <= best
    requires alpha < Min(beta, if s < best then s else best)
    requires FailSoft(rs, rest, alpha, Min(beta, if s < best then s else best))
    requires rs <= (if s < best then s else best)
    ensures FailSoft(rs, Min(c, rest), alpha, beta)
    ensures alpha < rs < beta && rs == (if s < best then s else best) && s < best ==> c == rs
    ensures alpha < rs < beta && !(rs == (if s < best then s else best) && s < best) ==>
              c > rs && rs < Min(beta, if s < best then s else best)
  {
  }
}
