/** The game session hook (src/features/game/hooks/useGameWithAI.ts): its own
    copy of the rules engine, its rule-based move chooser, and the session
    state -- the move history, the position shown, the settings and the
    "AI is thinking" flag -- with the operations the screen calls. */
module GameHook {
  import opened Types
  import AiUtils
  import AiUtilsLemmas

  // ---------------------------------------------------------------------------
  // The hook's copy of checkGameState
  // ---------------------------------------------------------------------------

  /** The hook's own table of winning triples. */
  const LINES: seq<Line> := [
    Line(0, 1, 2), Line(3, 4, 5), Line(6, 7, 8),
    Line(0, 3, 6), Line(1, 4, 7), Line(2, 5, 8),
    Line(0, 4, 8), Line(2, 4, 6)
  ]

  /** checkGameState as the hook writes it: a loop over the table that returns
      on the first complete line, then the full-board test. It gives every
      board the same verdict as the rules engine of aiUtils.ts. */
  method CheckGameState(b: Board) returns (gs: GameState)
    ensures gs == AiUtils.CheckGameState(b)
  {
    assert LINES == AiUtils.LINES;
    var i := 0;
    while i < |LINES|
      invariant 0 <= i <= |LINES|
      invariant AiUtils.ScanLines(b, i) == AiUtils.CheckGameState(b)
    {
      var l := LINES[i];
      if b[l.a].Some? && b[l.a] == b[l.b] && b[l.a] == b[l.c] {
        return GameState(true, b[l.a], false, Some(l));
      }
      i := i + 1;
    }
    if forall j: Index :: b[j].Some? {
      return DRAWN;
    }
    return ONGOING;
  }

  // ---------------------------------------------------------------------------
  // The hook's makeAIMove
  // ---------------------------------------------------------------------------

  const CORNERS: seq<Index> := [0, 2, 6, 8]
  const SIDES: seq<Index> := [1, 3, 5, 7]

  /** `candidates.filter(c => squares[c] === null)` */
  function FreeOf(candidates: seq<Index>, b: Board): (r: seq<Index>)
    ensures forall c :: c in r <==> c in candidates && b[c].None?
    ensures |r| <= |candidates|
  {
    if |candidates| == 0 then []
    else
      var rest := FreeOf(candidates[1..], b);
      if b[candidates[0]].None? then [candidates[0]] + rest else rest
  }

  /** The chooser answers at random: easy always, medium when the draw
      `Math.random() < 0.3` (here `randomise`) comes out true. */
  predicate RandomBranch(difficulty: Difficulty, randomise: bool) {
    difficulty == Easy || (difficulty == Medium && randomise)
  }

  /** The square a random draw `pick` selects from a non-empty list:
      `list[Math.floor(Math.random() * list.length)]`. */
  function Draw(list: seq<Index>, pick: nat): (r: Index)
    requires |list| > 0
    ensures r in list
  {
    list[pick % |list|]
  }

  /** Each square of a list is the one some draw selects. */
  lemma DrawCovers(list: seq<Index>, c: Index)
    requires c in list
    ensures exists pick: nat :: Draw(list, pick) == c
  {
    var j :| 0 <= j < |list| && list[j] == c;
    AiUtilsLemmas.SmallModulus(j, |list|);
    assert Draw(list, j) == c;
  }

  /** Each free candidate square is the one the random choice among the free
      candidates lands on for some draw. */
  lemma FreeDrawCovers(candidates: seq<Index>, b: Board, c: Index)
    requires c in candidates && b[c].None?
    ensures |FreeOf(candidates, b)| > 0
    ensures exists pick: nat :: Draw(FreeOf(candidates, b), pick) == c
  {
    DrawCovers(FreeOf(candidates, b), c);
  }

  /** What the hook's chooser answers on board `b` for player `ai`: no square
      exactly when the board is full, otherwise an empty one; at random on the
      random branch; otherwise the lowest immediate win, else the lowest
      immediate block, else the centre, else the draw among the free corners,
      else the draw among the free sides. */
  predicate ChooserAnswer(b: Board, ai: Player, difficulty: Difficulty, randomise: bool, pick: nat,
                          r: Option<Index>)
  {
    && (r.None? <==> AiUtils.IsFull(b))
    && (r.Some? ==> b[r.value].None?)
    && (RandomBranch(difficulty, randomise) ==> r == AiUtils.MakeRandomMove(b, pick))
    && (!RandomBranch(difficulty, randomise) && AiUtils.CanWin(b, ai) ==>
          r.Some? && AiUtils.IsLowestWin(b, r.value, ai))
    && (!RandomBranch(difficulty, randomise) && !AiUtils.CanWin(b, ai) && AiUtils.CanWin(b, Opponent(ai)) ==>
          r.Some? && AiUtils.IsLowestWin(b, r.value, Opponent(ai)))
    && ((!RandomBranch(difficulty, randomise) && !AiUtils.CanWin(b, ai) && !AiUtils.CanWin(b, Opponent(ai))
         && b[4].None?) ==> r == Some(4))
    && ((!RandomBranch(difficulty, randomise) && !AiUtils.CanWin(b, ai) && !AiUtils.CanWin(b, Opponent(ai))
         && b[4].Some? && |FreeOf(CORNERS, b)| > 0) ==>
          r == Some(Draw(FreeOf(CORNERS, b), pick)) && r.value in CORNERS)
    && ((!RandomBranch(difficulty, randomise) && !AiUtils.CanWin(b, ai) && !AiUtils.CanWin(b, Opponent(ai))
         && b[4].Some? && |FreeOf(CORNERS, b)| == 0 && !AiUtils.IsFull(b)) ==>
          |FreeOf(SIDES, b)| > 0 && r == Some(Draw(FreeOf(SIDES, b), pick)) && r.value in SIDES)
  }

  /** Every square is the centre, a corner or a side, so with all three
      groups filled the board is full. */
  lemma FilledGroupsFillBoard(b: Board)
    ensures b[4].Some? && |FreeOf(CORNERS, b)| == 0 && |FreeOf(SIDES, b)| == 0 ==> AiUtils.IsFull(b)
  {
    if b[4].Some? && |FreeOf(CORNERS, b)| == 0 && |FreeOf(SIDES, b)| == 0 {
      forall i: Index
        ensures b[i].Some?
      {
        assert i == 4 || i in CORNERS || i in SIDES;
      }
    }
  }

  /** A winning square found at position `k` of the ascending list of empty
      squares, after none before it won, is the lowest winning square. */
  lemma LowestFromScan(b: Board, p: Player, empties: seq<Index>, k: nat)
    requires empties == AiUtils.GetEmptySquares(b) && k < |empties|
    requires forall j :: 0 <= j < k ==> !AiUtils.Wins(b, empties[j], p)
    requires AiUtils.Wins(b, empties[k], p)
    ensures AiUtils.IsLowestWin(b, empties[k], p)
  {
    AiUtils.EmptySquaresSpec(b);
    forall m: Index | m < empties[k]
      ensures !AiUtils.Wins(b, m, p)
    {
      if b[m].None? {
        assert m in empties;
        var j :| 0 <= j < |empties| && empties[j] == m;
        assert j < k;
      }
    }
  }

  /** A scan of all empty squares that found no winning square shows there is none. */
  lemma NoneFromScan(b: Board, p: Player, empties: seq<Index>)
    requires empties == AiUtils.GetEmptySquares(b)
    requires forall j :: 0 <= j < |empties| ==> !AiUtils.Wins(b, empties[j], p)
    ensures !AiUtils.CanWin(b, p)
  {
    AiUtils.EmptySquaresSpec(b);
    forall m: Index
      ensures !AiUtils.Wins(b, m, p)
    {
      if b[m].None? {
        assert m in empties;
        var j :| 0 <= j < |empties| && empties[j] == m;
      }
    }
  }

  /** The first square of the ascending list `empties` where `p` wins at once,
      if any: the hook's `for (const squareIndex of emptySquares)` loop. */
  method FindWin(b: Board, p: Player, empties: seq<Index>) returns (r: Option<Index>)
    requires empties == AiUtils.GetEmptySquares(b)
    ensures r.Some? <==> AiUtils.CanWin(b, p)
    ensures r.Some? ==> AiUtils.IsLowestWin(b, r.value, p)
  {
    var k := 0;
    while k < |empties|
      invariant 0 <= k <= |empties|
      invariant forall j :: 0 <= j < k ==> !AiUtils.Wins(b, empties[j], p)
    {
      var square := empties[k];
      AiUtils.EmptyAt(b, k);
      var gs := CheckGameState(b[square := Some(p)]);
      if gs.winner == Some(p) {
        LowestFromScan(b, p, empties, k);
        return Some(square);
      }
      assert !AiUtils.Wins(b, empties[k], p);
      assert forall j :: 0 <= j < k + 1 ==> !AiUtils.Wins(b, empties[j], p) by {
        forall j | 0 <= j < k + 1
          ensures !AiUtils.Wins(b, empties[j], p)
        {
          if j == k { }
        }
      }
      k := k + 1;
    }
    NoneFromScan(b, p, empties);
    return None;
  }

  /** makeAIMove of the hook: at random on the random branch, otherwise the
      lowest immediate win, else the lowest immediate block, else the centre,
      else a free corner, else a free side. `pick` is the random index draw. */
  method MakeAIMove(b: Board, ai: Player, difficulty: Difficulty, randomise: bool, pick: nat)
    returns (r: Option<Index>)
    ensures ChooserAnswer(b, ai, difficulty, randomise, pick, r)
  {
    var empties := AiUtils.GetEmptySquares(b);
    if |empties| == 0 {
      return None;
    }
    if difficulty == Easy {
      AiUtils.EmptyAt(b, pick % |empties|);
      return Some(empties[pick % |empties|]);
    }
    if difficulty == Medium && randomise {
      AiUtils.EmptyAt(b, pick % |empties|);
      return Some(empties[pick % |empties|]);
    }
    var win := FindWin(b, ai, empties);
    if win.Some? {
      return win;
    }
    var block := FindWin(b, Opponent(ai), empties);
    if block.Some? {
      return block;
    }
    if b[4].None? {
      return Some(4);
    }
    var corners := FreeOf(CORNERS, b);
    if |corners| > 0 {
      return Some(Draw(corners, pick));
    }
    var sides := FreeOf(SIDES, b);
    FilledGroupsFillBoard(b);
    if |sides| > 0 {
      return Some(Draw(sides, pick));
    }
    // The fallback `emptySquares[random]`: with the centre, the corners and
    // the sides all filled the board is full, which was excluded above.
    assert false;
  }

  // ---------------------------------------------------------------------------
  // The move history
  // ---------------------------------------------------------------------------

  /** The mark placed by move `k + 1`: X on even `k`, O on odd. */
  function Mover(k: nat): Player {
    if k % 2 == 0 then X else O
  }

  /** `c` is `a` with `p`'s mark on one empty square. */
  predicate IsPly(a: Board, c: Board, p: Player) {
    exists m: Index :: a[m].None? && c == a[m := Some(p)]
  }

  /** Every entry of the history is the previous one plus the mover's mark;
      the first entry is the empty board. */
  predicate PlayedFromStart(h: seq<Board>) {
    && |h| > 0
    && h[0] == EMPTY_BOARD
    && forall k :: 0 <= k < |h| - 1 ==> IsPly(h[k], h[k + 1], Mover(k))
  }

  /** `[...history.slice(0, currentMove + 1), next]` keeps a history played
      from the start when `next` is the mover's ply after entry `cm`. */
  lemma ExtendHistory(h: seq<Board>, cm: nat, next: Board)
    requires PlayedFromStart(h) && cm < |h|
    requires IsPly(h[cm], next, Mover(cm))
    ensures PlayedFromStart(h[..cm + 1] + [next])
  {
    var h' := h[..cm + 1] + [next];
    forall k | 0 <= k < |h'| - 1
      ensures IsPly(h'[k], h'[k + 1], Mover(k))
    {
      if k < cm {
        assert h'[k] == h[k] && h'[k + 1] == h[k + 1];
      } else {
        assert h'[k] == h[cm] && h'[k + 1] == next;
      }
    }
  }

  /** The number of `p`'s marks among the squares `k` to 8. */
  function CountFrom(b: Board, p: Player, k: nat): nat
    requires k <= 9
    decreases 9 - k
  {
    if k == 9 then 0 else (if b[k] == Some(p) then 1 else 0) + CountFrom(b, p, k + 1)
  }

  function Count(b: Board, p: Player): nat {
    CountFrom(b, p, 0)
  }

  lemma {:induction false} PlyCountsFrom(a: Board, m: Index, p: Player, q: Player, k: nat)
    requires a[m].None? && k <= 9
    ensures CountFrom(a[m := Some(p)], q, k)
            == CountFrom(a, q, k) + (if q == p && k <= m then 1 else 0)
    decreases 9 - k
  {
    if k < 9 {
      PlyCountsFrom(a, m, p, q, k + 1);
    }
  }

  /** A ply adds one mark of the mover and none of the other player. */
  lemma PlyCounts(a: Board, c: Board, p: Player)
    requires IsPly(a, c, p)
    ensures Count(c, p) == Count(a, p) + 1
    ensures Count(c, Opponent(p)) == Count(a, Opponent(p))
  {
    var m: Index :| a[m].None? && c == a[m := Some(p)];
    PlyCountsFrom(a, m, p, p, 0);
    PlyCountsFrom(a, m, p, Opponent(p), 0);
  }

  lemma {:induction false} EmptyCountFrom(p: Player, k: nat)
    requires k <= 9
    ensures CountFrom(EMPTY_BOARD, p, k) == 0
    decreases 9 - k
  {
    if k < 9 {
      EmptyCountFrom(p, k + 1);
    }
  }

  /** After `k` moves there are `k` marks on the board, and X is one ahead of O
      exactly when `k` is odd. */
  lemma {:induction false} MarkBalance(h: seq<Board>, k: nat)
    requires PlayedFromStart(h) && k < |h|
    ensures Count(h[k], X) + Count(h[k], O) == k
    ensures Count(h[k], X) == Count(h[k], O) + k % 2
  {
    if k == 0 {
      EmptyCountFrom(X, 0);
      EmptyCountFrom(O, 0);
    } else {
      MarkBalance(h, k - 1);
      assert IsPly(h[k - 1], h[k], Mover(k - 1));
      PlyCounts(h[k - 1], h[k], Mover(k - 1));
      BalanceStep(k, Count(h[k - 1], X), Count(h[k - 1], O), Count(h[k], X), Count(h[k], O));
    }
  }

  lemma BalanceStep(k: nat, x0: int, o0: int, x: int, o: int)
    requires k > 0
    requires x0 + o0 == k - 1 && x0 == o0 + (k - 1) % 2
    requires if (k - 1) % 2 == 0 then x == x0 + 1 && o == o0 else x == x0 && o == o0 + 1
    ensures x + o == k && x == o + k % 2
  {
  }

  // ---------------------------------------------------------------------------
  // The session
  // ---------------------------------------------------------------------------

  /** The state of useGameWithAI and the operations it hands to the screen. */
  class GameSession {
    var history: seq<Board>
    var currentMove: nat
    var gameMode: GameMode
    var aiDifficulty: Difficulty
    var humanPlayer: Player
    var isAIThinking: bool

    /** The history is never empty and the position shown is one of its entries. */
    predicate Valid()
      reads this
    {
      |history| > 0 && currentMove < |history|
    }

    /** Moreover the history is a game played from the empty board. */
    predicate Consistent()
      reads this
    {
      Valid() && PlayedFromStart(history)
    }

    /** `currentMove % 2 === 0` */
    predicate XIsNext()
      reads this
    {
      currentMove % 2 == 0
    }

    function CurrentPlayer(): Player
      reads this
    {
      if XIsNext() then X else O
    }

    function CurrentSquares(): Board
      reads this
      requires Valid()
    {
      history[currentMove]
    }

    function AiPlayer(): Player
      reads this
    {
      Opponent(humanPlayer)
    }

    /** gameState(): the verdict on the position shown. */
    function CurrentState(): GameState
      reads this
      requires Valid()
    {
      AiUtils.CheckGameState(CurrentSquares())
    }

    /** `gameMode === 'human' || currentPlayer === humanPlayer` */
    predicate IsHumanTurn()
      reads this
    {
      gameMode == HumanVsHuman || CurrentPlayer() == humanPlayer
    }

    /** The condition of the effect that starts the AI's turn. */
    predicate AiTurnDue()
      reads this
      requires Valid()
    {
      gameMode == HumanVsAI && !CurrentState().isOver && CurrentPlayer() == AiPlayer()
      && !isAIThinking && |history| > 0
    }

    /** handleSquareClick accepts a click on square `i`: the square is empty,
        the game is not over, the AI is not thinking, and in a game against
        the AI it is the human's turn. */
    predicate ClickAccepted(i: Index)
      reads this
      requires Valid()
    {
      !(CurrentSquares()[i].Some? || CurrentState().isOver || isAIThinking
        || (gameMode == HumanVsAI && CurrentPlayer() != humanPlayer))
    }

    /** The initial state: one empty board, two humans, medium, X for the human. */
    constructor ()
      ensures history == [EMPTY_BOARD] && currentMove == 0
      ensures gameMode == HumanVsHuman && aiDifficulty == Medium && humanPlayer == X && !isAIThinking
      ensures Consistent()
    {
      history := [EMPTY_BOARD];
      currentMove := 0;
      gameMode := HumanVsHuman;
      aiDifficulty := Medium;
      humanPlayer := X;
      isAIThinking := false;
    }

    /** handlePlay: drop the entries after the position shown, append `next`
        and show it. */
    method HandlePlay(next: Board)
      requires Valid()
      modifies this
      ensures history == old(history[..currentMove + 1]) + [next]
      ensures currentMove == old(currentMove) + 1 == |history| - 1
      ensures gameMode == old(gameMode) && aiDifficulty == old(aiDifficulty)
      ensures humanPlayer == old(humanPlayer) && isAIThinking == old(isAIThinking)
      ensures Valid()
    {
      history := history[..currentMove + 1] + [next];
      currentMove := |history| - 1;
    }

    /** jumpTo: show entry `k` of the history; nothing is discarded. */
    method JumpTo(k: nat)
      requires Valid() && k < |history|
      modifies this
      ensures currentMove == k && history == old(history)
      ensures gameMode == old(gameMode) && aiDifficulty == old(aiDifficulty)
      ensures humanPlayer == old(humanPlayer) && isAIThinking == old(isAIThinking)
      ensures old(Consistent()) ==> Consistent()
    {
      currentMove := k;
    }

    /** handleSquareClick: an accepted click plays the mover's mark on square
        `i`; a refused one changes nothing. */
    method HandleSquareClick(i: Index)
      requires Valid()
      modifies this
      ensures old(ClickAccepted(i)) ==>
                && history == old(history[..currentMove + 1]) + [old(CurrentSquares())[i := Some(old(CurrentPlayer()))]]
                && currentMove == old(currentMove) + 1
      ensures !old(ClickAccepted(i)) ==> history == old(history) && currentMove == old(currentMove)
      ensures gameMode == old(gameMode) && aiDifficulty == old(aiDifficulty)
      ensures humanPlayer == old(humanPlayer) && isAIThinking == old(isAIThinking)
      ensures Valid()
      ensures old(Consistent()) ==> Consistent()
    {
      if CurrentSquares()[i].Some? || CurrentState().isOver || isAIThinking
         || (gameMode == HumanVsAI && CurrentPlayer() != humanPlayer) {
        return;
      }
      var squares := CurrentSquares();
      var player := CurrentPlayer();
      var next := squares[i := Some(player)];
      ghost var h := history;
      ghost var cm := currentMove;
      HandlePlay(next);
      assert player == old(CurrentPlayer());
      if PlayedFromStart(h) {
        assert IsPly(h[cm], next, Mover(cm)) by {
          assert h[cm][i].None? && next == h[cm][i := Some(Mover(cm))];
        }
        ExtendHistory(h, cm, next);
      }
    }

    /** processAITurn, with the 600 ms delay collapsed into one step: the rule
        chooser picks a square for the AI on the position shown, the mover's
        mark goes there, and the thinking flag ends up cleared. */
    method ProcessAITurn(randomise: bool, pick: nat) returns (move: Option<Index>)
      requires Valid()
      modifies this
      ensures move.None? <==> AiUtils.IsFull(old(CurrentSquares()))
      ensures move.Some? ==>
                && old(CurrentSquares())[move.value].None?
                && history == old(history[..currentMove + 1]) + [old(CurrentSquares())[move.value := Some(old(CurrentPlayer()))]]
                && currentMove == old(currentMove) + 1
      ensures move.None? ==> history == old(history) && currentMove == old(currentMove)
      ensures ChooserAnswer(old(CurrentSquares()), old(AiPlayer()), old(aiDifficulty), randomise, pick, move)
      ensures gameMode == old(gameMode) && aiDifficulty == old(aiDifficulty) && humanPlayer == old(humanPlayer)
      ensures !isAIThinking
      ensures Valid()
      ensures old(Consistent()) ==> Consistent()
    {
      isAIThinking := true;
      var squares := CurrentSquares();
      var player := CurrentPlayer();
      ghost var h := history;
      ghost var cm := currentMove;
      move := MakeAIMove(squares, AiPlayer(), aiDifficulty, randomise, pick);
      if move.Some? {
        var next := squares[move.value := Some(player)];
        HandlePlay(next);
        if PlayedFromStart(h) {
          assert IsPly(h[cm], next, Mover(cm)) by {
            assert h[cm][move.value].None? && next == h[cm][move.value := Some(Mover(cm))];
          }
          ExtendHistory(h, cm, next);
        }
      }
      isAIThinking := false;
    }

    /** The effect that runs after every change: when the AI's turn is due it
        takes it on the square the chooser answers, and it always finds one;
        otherwise nothing happens. On the rule branch an immediate win for the
        AI is never missed. */
    method AiTurnEffect(randomise: bool, pick: nat) returns (move: Option<Index>)
      requires Valid()
      modifies this
      ensures !old(AiTurnDue()) ==>
                && move.None? && history == old(history) && currentMove == old(currentMove)
                && isAIThinking == old(isAIThinking)
      ensures old(AiTurnDue()) ==>
                && move.Some? && old(CurrentSquares())[move.value].None?
                && history == old(history[..currentMove + 1]) + [old(CurrentSquares())[move.value := Some(AiPlayer())]]
                && currentMove == old(currentMove) + 1 && !isAIThinking
      ensures old(AiTurnDue()) ==>
                ChooserAnswer(old(CurrentSquares()), old(AiPlayer()), old(aiDifficulty), randomise, pick, move)
      ensures old(AiTurnDue()) && !RandomBranch(aiDifficulty, randomise)
              && AiUtils.CanWin(old(CurrentSquares()), AiPlayer()) ==>
                CurrentState().winner == Some(AiPlayer()) && CurrentState().isOver
      ensures gameMode == old(gameMode) && aiDifficulty == old(aiDifficulty) && humanPlayer == old(humanPlayer)
      ensures Valid()
      ensures old(Consistent()) ==> Consistent()
    {
      if gameMode == HumanVsAI && !CurrentState().isOver && CurrentPlayer() == AiPlayer()
         && !isAIThinking && |history| > 0 {
        move := ProcessAITurn(randomise, pick);
      } else {
        move := None;
      }
    }

    /** startNewGame: one empty board and the given settings. */
    method StartNewGame(mode: GameMode, difficulty: Difficulty, player: Player)
      modifies this
      ensures history == [EMPTY_BOARD] && currentMove == 0
      ensures gameMode == mode && aiDifficulty == difficulty && humanPlayer == player && !isAIThinking
      ensures Consistent()
    {
      history := [EMPTY_BOARD];
      currentMove := 0;
      gameMode := mode;
      aiDifficulty := difficulty;
      humanPlayer := player;
      isAIThinking := false;
    }

    method SetGameMode(mode: GameMode)
      modifies this
      ensures gameMode == mode
      ensures history == old(history) && currentMove == old(currentMove) && aiDifficulty == old(aiDifficulty)
      ensures humanPlayer == old(humanPlayer) && isAIThinking == old(isAIThinking)
    {
      gameMode := mode;
    }

    method SetAiDifficulty(difficulty: Difficulty)
      modifies this
      ensures aiDifficulty == difficulty
      ensures history == old(history) && currentMove == old(currentMove) && gameMode == old(gameMode)
      ensures humanPlayer == old(humanPlayer) && isAIThinking == old(isAIThinking)
    {
      aiDifficulty := difficulty;
    }

    method SetHumanPlayer(player: Player)
      modifies this
      ensures humanPlayer == player
      ensures history == old(history) && currentMove == old(currentMove) && gameMode == old(gameMode)
      ensures aiDifficulty == old(aiDifficulty) && isAIThinking == old(isAIThinking)
    {
      humanPlayer := player;
    }
  }

  /** In a session played from the start, X is to move exactly when both
      players have placed the same number of marks; otherwise X is one ahead. */
  lemma TurnParity(s: GameSession)
    requires s.Consistent()
    ensures s.XIsNext() <==> Count(s.CurrentSquares(), X) == Count(s.CurrentSquares(), O)
    ensures !s.XIsNext() <==> Count(s.CurrentSquares(), X) == Count(s.CurrentSquares(), O) + 1
  {
    MarkBalance(s.history, s.currentMove);
  }
}
