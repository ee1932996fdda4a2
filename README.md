# Tic-tac-toe with a computer opponent: a verified model

This project models, in Dafny, the core of a React tic-tac-toe game. The
game offers human-vs-human play and human-vs-AI play with three AI
difficulties. The model covers five parts:

- **The rules engine** (`aiUtils.ts`): which squares are empty, the win/draw
  verdict, a random move, minimax with alpha-beta pruning, and the AI move
  selector built on it. It is modelled as pure functions in `ai_utils.dfy`
  (module `AiUtils`). Their properties are proved in `ai_utils_lemmas.dfy`
  (`AiUtilsLemmas`, the search) and `ai_move_lemmas.dfy` (`AiMoveLemmas`,
  the move selector).
- **The game session hook** (`useGameWithAI.ts`), in `game_hook.dfy` (module
  `GameHook`), in three pieces:
  - its own loop-based copy of the verdict, proved equal to the engine's;
  - its rule-based move chooser (win, block, centre, corner, side);
  - the session itself, a class: move history, position shown, settings and
    the "AI is thinking" flag.
- **The score keeping** of the application shell (`App.tsx`), in `app.dfy`
  (module `App`).
- **The game panel** (`Game.tsx`), in `game.dfy` (module `GameComponent`). It
  reports a finished game to the application when its winner, draw flag or
  over flag differs from the last outcome reported, which it keeps in a
  reference.
- **Shared vocabulary** in `types.dfy` (module `Types`): boards, marks,
  verdicts and scores.

## How the model is set up

A board is a sequence of nine `Option<Player>` squares. `null` is `None`.

Randomness comes in as arguments:

- `pick: nat` is the draw `Math.floor(Math.random() * n)`. It is reduced
  with `pick % n` into the list it indexes.
- `randomise: bool` is the medium-difficulty test `Math.random() < 0.3`.

Properties that hold for every random outcome are quantified over these
arguments. Properties that say "every empty square can come out" are
existentials over `pick`.

`-Infinity` and `Infinity` in minimax are the constants `-1000` and `1000`.
Every score is in [-10, 10], so the comparisons come out the same. Three
lemmas say so:

- `AiUtilsLemmas.MinimaxBounds` and `AiUtilsLemmas.ValueBounds` bound every
  score;
- `AiUtilsLemmas.AlphaBetaNode` holds for every window inside this range.

Minimax has two parts:

- `AiUtils.Minimax` and `AiUtils.Search` model the source's recursion and its
  `for` loop with `break`. They are a mutually recursive fold over the list of
  empty squares and keep the loop's `bestScore`, `bestMove`, `alpha` and
  `beta`.
- **The reference** is plain minimax with the same scoring and depth limit,
  but no pruning and no root shortcut (`AiUtils.Value`, `AiUtils.BestValue`).

The central property is the **fail-soft relation** between the pruned score
`r` and the unpruned value `v`, in any window (`AiUtilsLemmas.FailSoft`):

- `v <= r` when `r <= alpha`;
- `v >= r` when `r >= beta`;
- `v == r` inside the window.

Inside the window, the move returned is the lowest-index empty square with
that value. At the root the window is (-1000, 1000). With six or fewer empty
squares the AI's search move is therefore exactly a minimax-optimal move
(`AiMoveLemmas.RootSearchExact`, `AiMoveLemmas.SearchBranchOptimal`). With
seven empty squares the root answers from its priority list without searching
(`AiMoveLemmas.SearchBranchSevenEmpty`). With eight or nine the opening book
answers before minimax is called (`AiMoveLemmas.OpeningMoves`).

The session state, the score keeper and the panel are classes whose methods
update their fields. React's state updates are applied at once. Effects
(`useEffect`) are methods the environment calls after each change:

- `GameHook.GameSession.AiTurnEffect`;
- `GameComponent.Game.ReportOutcome`.

## Model

| member | source | states |
|---|---|---|
| AiUtils.GetEmptySquares | src/features/game/utils/aiUtils.ts:4-8 | The list has at most nine entries and is empty exactly when the board is full. |
| AiUtils.EmptySquaresSpec | src/features/game/utils/aiUtils.ts:4-8 | The list holds exactly the empty squares, each once, in ascending index order. |
| AiUtils.EmptyFromSpec | src/features/game/utils/aiUtils.ts:5-7 | The suffix scan behind getEmptySquares from square `k` on lists exactly the empty squares at or after `k`, ascending. |
| AiUtils.EmptyAt | src/features/game/utils/aiUtils.ts:4-8 | Every entry of the list is an empty square. |
| AiUtils.MakeRandomMove | src/features/game/utils/aiUtils.ts:10-17 | No move exactly when the board is full; otherwise the move is an empty square. |
| AiUtilsLemmas.RandomMoveCoversEmpties | src/features/game/utils/aiUtils.ts:10-17 | Every empty square is the result of some random draw. |
| AiUtils.ScanLines | src/features/game/utils/aiUtils.ts:26-50 | The line scan behind checkGameState. Its behaviour is stated by LinesScanned, ScanPassesOver, FirstCompleteLineWins and NoCompleteLine. |
| AiUtils.CheckGameState | src/features/game/utils/aiUtils.ts:19-51 | Over means a winner or a draw. A draw has no winner and a full board. A line is reported exactly with a winner, and it is one of the eight lines, complete, in the winner's mark. A full board is always over. |
| AiUtils.LinesScanned | src/features/game/utils/aiUtils.ts:26-50 | The same shape facts for the scan from any line of the table on. |
| AiUtils.ScanPassesOver | src/features/game/utils/aiUtils.ts:26-36 | Lines that are not complete are skipped. |
| AiUtils.FirstCompleteLineWins | src/features/game/utils/aiUtils.ts:26-36 | The first complete line in table order (rows, columns, diagonals) decides the verdict: over, its mark wins, not a draw, that line. |
| AiUtils.NoCompleteLine | src/features/game/utils/aiUtils.ts:38-50 | With no complete line, a full board is a draw and any other board is still in play, with no winner. |
| AiUtils.WinnerIffCompleteLine | src/features/game/utils/aiUtils.ts:19-51 | There is a winner exactly when some line is complete. |
| AiUtils.FirstComplete | src/features/game/utils/aiUtils.ts:26-36 | When some line is complete, there is a first complete line at or before it. |
| AiUtils.FirstIncluded | src/features/game/utils/aiUtils.ts:89-96 | The priority loop returns a candidate that is available, the first such one. It returns nothing exactly when no candidate is available. |
| AiUtilsLemmas.PriorityAvailable | src/features/game/utils/aiUtils.ts:89-96 | With more than six empty squares one of the priority squares is free, so the shortcut always answers. |
| AiUtils.Minimax | src/features/game/utils/aiUtils.ts:54-135 | Minimax with alpha-beta pruning. Its behaviour is stated by LeafScores, MinimaxBounds, AlphaBetaNode and PriorityShortcut. |
| AiUtils.Search | src/features/game/utils/aiUtils.ts:98-134 | The move loop of minimax, with its alpha/beta updates and its cutoff. Its behaviour is stated by SearchBounds, SearchMax, SearchMin and FirstBestAt. |
| AiUtils.ChildScore | src/features/game/utils/aiUtils.ts:104-112 | The score of one move in the loop: the recursive call on the board with the mover's mark played. Its behaviour is stated by ChildScoreBounds and ChildAlphaBeta. |
| AiUtilsLemmas.LeafScores | src/features/game/utils/aiUtils.ts:65-77 | A finished board, or one at the depth limit, scores `10 - depth` for an AI win, `depth - 10` for an opponent win and 0 otherwise, with no move. |
| AiUtilsLemmas.ValueBounds | src/features/game/utils/aiUtils.ts:54-135 | The unpruned minimax value lies between a loss now (`depth - 10`) and a win now (`10 - depth`). |
| AiUtilsLemmas.BestValueBounds | src/features/game/utils/aiUtils.ts:98-126 | The best child value over a non-empty move list lies between a loss and a win one move deeper. |
| AiUtilsLemmas.MinimaxBounds | src/features/game/utils/aiUtils.ts:54-135 | In any window the search scores in [-10, 10]. It returns a move exactly when the node is expanded (not finished, below the depth limit), and the move is an empty square. |
| AiUtilsLemmas.SearchBounds | src/features/game/utils/aiUtils.ts:98-134 | The move loop ends with a score in [-10, 10] and a move on an empty square, whether it starts from the infinite sentinel or from a best score already in range. |
| AiUtilsLemmas.AlphaBetaNode | src/features/game/utils/aiUtils.ts:54-135 | Pruning is sound: in any window the pruned score is fail-soft for the unpruned value. Inside the window the returned move is the lowest-index empty square with that value. |
| AiUtilsLemmas.SearchMax | src/features/game/utils/aiUtils.ts:114-119 | The loop at a maximizing node, with its alpha update and its cutoff, is fail-soft for the best child value of the remaining moves. |
| AiUtilsLemmas.SearchMin | src/features/game/utils/aiUtils.ts:120-126 | The same at a minimizing node, with its beta update. |
| AiUtilsLemmas.FirstBestAt | src/features/game/utils/aiUtils.ts:114-126 | Because a later move replaces the best only when strictly better, the move kept is the lowest-index empty square with the best value. |
| AiMoveLemmas.EarlyBoardOngoing | src/features/game/utils/aiUtils.ts:19-51 | With more than six empty squares no line can be complete, so the game is in play. |
| AiMoveLemmas.PriorityShortcut | src/features/game/utils/aiUtils.ts:88-96 | At the root with more than six empty squares, minimax answers score 0 and the first free square of centre, top-left, top-right. |
| AiMoveLemmas.RootSearchExact | src/features/game/utils/aiUtils.ts:54-63 | With the default window (-Infinity, Infinity), an expanded node gets its exact minimax value and a move that is the lowest-index optimal square. |
| AiMoveLemmas.ValueDominates | src/features/game/utils/aiUtils.ts:114-126 | No empty square has a better child value than the node's minimax value. |
| AiMoveLemmas.NineMeansImmediateWin | src/features/game/utils/aiUtils.ts:65-77 | A child value of 9 at the root means that move completes a line for the AI. |
| AiMoveLemmas.WinScoresNine | src/features/game/utils/aiUtils.ts:65-77 | A move that completes a line for the AI has child value 9 at the root. |
| AiMoveLemmas.OpeningMoves | src/features/game/utils/aiUtils.ts:146-159 | With nine or eight empty squares the AI takes the centre if it is free, and otherwise a corner, which is then free. |
| AiMoveLemmas.OpeningCornerCovers | src/features/game/utils/aiUtils.ts:151-156 | With the centre taken in the opening, every corner is the AI's answer for some random draw. |
| AiUtils.MakeAIMove | src/features/game/utils/aiUtils.ts:137-177 | The AI move selector. Its behaviour is stated by OpeningMoves, OpeningCornerCovers, AIMoveLegal, RandomBranchCoversEmpties and the SearchBranch lemmas. |
| AiMoveLemmas.AIMoveLegal | src/features/game/utils/aiUtils.ts:137-177 | makeAIMove only returns empty squares, returns nothing on a full board, and always returns a square while the game is in play. |
| AiMoveLemmas.RandomBranchCoversEmpties | src/features/game/utils/aiUtils.ts:161-169 | On easy, and on medium when the 30% draw fires, every answer is an empty square and every empty square is a possible answer. |
| AiMoveLemmas.SearchBranchSevenEmpty | src/features/game/utils/aiUtils.ts:171-176 | On the search branch with seven empty squares the AI plays the first free square of centre, top-left, top-right. |
| AiMoveLemmas.SearchBranchOptimal | src/features/game/utils/aiUtils.ts:171-176 | On the search branch with six or fewer empty squares the AI plays the lowest-index move of optimal minimax value. The depth is 9 with five or fewer empty squares and 6 otherwise. |
| AiMoveLemmas.SearchBranchTakesWin | src/features/game/utils/aiUtils.ts:171-176 | On the search branch with six or fewer empty squares, if the AI can win at once it does, on the lowest-index winning square. |
| GameHook.CheckGameState | src/features/game/hooks/useGameWithAI.ts:12-46 | The hook's copy of checkGameState, a loop with an early return, gives every board the same verdict as the engine's. |
| GameHook.FreeOf | src/features/game/hooks/useGameWithAI.ts:128 | The filter keeps exactly the candidates whose square is empty. |
| GameHook.Draw | src/features/game/hooks/useGameWithAI.ts:128-137 | The random pick from a non-empty list is an entry of the list. |
| GameHook.DrawCovers | src/features/game/hooks/useGameWithAI.ts:128-137 | Every entry of the list is the pick for some random draw. |
| GameHook.FreeDrawCovers | src/features/game/hooks/useGameWithAI.ts:128-137 | Every free corner, and every free side, is the chooser's random pick among the free ones for some draw. |
| GameHook.FilledGroupsFillBoard | src/features/game/hooks/useGameWithAI.ts:123-140 | Centre, corners and sides cover the board, so the final fallback of the chooser is never reached. |
| GameHook.LowestFromScan | src/features/game/hooks/useGameWithAI.ts:102-109 | A win found in the ascending scan after no earlier square won is the lowest-index winning square. |
| GameHook.NoneFromScan | src/features/game/hooks/useGameWithAI.ts:102-109 | A full scan that found no win shows no square wins. |
| GameHook.FindWin | src/features/game/hooks/useGameWithAI.ts:102-120 | The win and block loops find a square exactly when the given player can win at once, and it is the lowest such square. |
| GameHook.ChooserAnswer | src/features/game/hooks/useGameWithAI.ts:82-141 | The chooser's answer written out as one condition: no square exactly on a full board; otherwise an empty one; makeRandomMove's answer on the random branch; otherwise the lowest win, else the lowest block, else the centre, else the pick among the free corners, else the pick among the free sides. |
| GameHook.MakeAIMove | src/features/game/hooks/useGameWithAI.ts:82-141 | The answer is ChooserAnswer: no move exactly on a full board; every move is an empty square. The random branch is makeRandomMove's answer. Otherwise, in order: the lowest immediate win, else the lowest immediate block, else the centre, else the random pick among the free corners, else the random pick among the free sides. |
| GameHook.ExtendHistory | src/features/game/hooks/useGameWithAI.ts:70-74 | Truncating the history after the position shown and appending the mover's ply keeps a history played from the empty board. |
| GameHook.PlyCounts | src/features/game/hooks/useGameWithAI.ts:205-207 | A ply adds one mark of the mover and none of the other player. |
| GameHook.MarkBalance | src/features/game/hooks/useGameWithAI.ts:59-61 | After `k` moves of a history played from the start there are `k` marks, and X is one ahead of O exactly when `k` is odd. |
| GameHook.TurnParity | src/features/game/hooks/useGameWithAI.ts:59-61 | `currentMove % 2 === 0` reflects the board: X is to move exactly when both players have the same number of marks, and otherwise X has one more. |
| GameHook.GameSession.XIsNext | src/features/game/hooks/useGameWithAI.ts:59 | `currentMove % 2 === 0`. TurnParity states what it means on the board. |
| GameHook.GameSession.CurrentPlayer | src/features/game/hooks/useGameWithAI.ts:61 | X when X is next, otherwise O. TurnParity and MarkBalance state that this is the player whose turn the board shows. |
| GameHook.GameSession.AiPlayer | src/features/game/hooks/useGameWithAI.ts:62 | The human's opponent. ProcessAITurn and AiTurnEffect state the AI's moves for this player. |
| GameHook.GameSession.CurrentState | src/features/game/hooks/useGameWithAI.ts:64-66 | The engine's verdict on the position shown. CheckGameState's contract and GameComponent.Game.WinningLine state its meaning. |
| GameHook.GameSession.IsHumanTurn | src/features/game/hooks/useGameWithAI.ts:230 | The hook's `isHumanTurn` output. No other part of the model uses it. |
| GameHook.GameSession.AiTurnDue | src/features/game/hooks/useGameWithAI.ts:177-185 | The condition of the AI-turn effect. AiTurnEffect states what happens when it holds and when it does not. |
| GameHook.GameSession.ClickAccepted | src/features/game/hooks/useGameWithAI.ts:194-200 | The guard of handleSquareClick. HandleSquareClick states what happens when it holds and when it does not. |
| GameHook.GameSession.constructor | src/features/game/hooks/useGameWithAI.ts:50-55 | One empty board shown, human-vs-human, medium, X for the human, not thinking; the history is played from the start. |
| GameHook.GameSession.HandlePlay | src/features/game/hooks/useGameWithAI.ts:70-74 | The history is cut after the position shown, the new board is appended and shown; the settings are unchanged. |
| GameHook.GameSession.JumpTo | src/features/game/hooks/useGameWithAI.ts:77-79 | Only the position shown changes; the history is kept. |
| GameHook.GameSession.HandleSquareClick | src/features/game/hooks/useGameWithAI.ts:189-218 | An accepted click plays the mover's mark on the square, through handlePlay. A click on a filled square, after the end, while the AI thinks, or on the AI's turn changes nothing. A history played from the start stays so. |
| GameHook.GameSession.ProcessAITurn | src/features/game/hooks/useGameWithAI.ts:144-158 | The move is the chooser's answer (ChooserAnswer) on the position shown, for the AI's mark, the difficulty and the draws. That square receives the mover's mark through handlePlay, or nothing changes on a full board. The thinking flag ends cleared. |
| GameHook.GameSession.AiTurnEffect | src/features/game/hooks/useGameWithAI.ts:175-186 | When the AI's turn is due, the AI plays the chooser's answer (ChooserAnswer) with its own mark, and a square is always found. On the rule branch it completes a line whenever it can. Otherwise nothing changes. |
| GameHook.GameSession.StartNewGame | src/features/game/hooks/useGameWithAI.ts:161-172 | One empty board and the given settings, not thinking. |
| GameHook.GameSession.SetGameMode | src/features/game/hooks/useGameWithAI.ts:52 | Only the game mode changes. |
| GameHook.GameSession.SetAiDifficulty | src/features/game/hooks/useGameWithAI.ts:53 | Only the difficulty changes. |
| GameHook.GameSession.SetHumanPlayer | src/features/game/hooks/useGameWithAI.ts:54 | Only the human's mark changes. |
| App.ScoreUpdate | src/App.tsx:40-54 | A win or a draw adds exactly one to the tally, nothing is ever taken away, and each counter grows exactly for its own outcome. |
| App.ScoreUpdateOfVerdict | src/App.tsx:38-56 | For an engine verdict, the tally grows by one exactly when the game is over, into the winner's counter or the ties. |
| App.ScoreKeeper.constructor | src/App.tsx:26 | The tally starts at zero with no game in progress. |
| App.ScoreKeeper.UpdateScores | src/App.tsx:38-56 | A finished game applies the updater; any other verdict leaves the tally alone. |
| App.ScoreKeeper.HandleResetScores | src/App.tsx:72-75 | The tally is zero, the game-in-progress flag is unchanged, and the "Scores reset!" message is raised. |
| App.ScoreKeeper.HandleGameStateChange | src/App.tsx:108-111 | The verdict is scored, and a game is in progress exactly when the verdict is neither over nor a draw. |
| GameComponent.ShouldReport | src/features/game/Game.tsx:57-61 | The condition of the reporting effect. SameOutcomeNotReported, FreshReportsEveryFinish and the two SecondWin lemmas state its behaviour. |
| GameComponent.SameOutcomeNotReported | src/features/game/Game.tsx:57-61 | A verdict with the same winner, draw and over flags as the last report is never reported again, so replaying the history does not score a game twice. |
| GameComponent.FreshReportsEveryFinish | src/features/game/Game.tsx:49-61 | With the initial reference, every finished game after a move is reported. |
| GameComponent.XTopRowVerdict | src/features/game/utils/aiUtils.ts:26-36 | A board where X completes the top row is a win for X on that row. |
| GameComponent.XLeftColumnVerdict | src/features/game/utils/aiUtils.ts:26-36 | A board where X completes the left column, and no row, is a win for X on that column. |
| GameComponent.SecondWinUnreportedAsWritten | src/features/game/Game.tsx:56-82 | As written, a second consecutive win by X after a new game is not reported. |
| GameComponent.SecondWinReportedWhenReset | src/features/game/Game.tsx:56-82 | With the reference reset on a new game, the same second win is reported. |
| GameComponent.InProgressIffMoved | src/features/game/Game.tsx:45 | For a history played from the start, `history.length > 1` holds exactly when the last position is not the empty board. |
| GameComponent.Game.GameInProgress | src/features/game/Game.tsx:45 | `history.length > 1`. InProgressIffMoved states its meaning on the board. |
| GameComponent.Game.constructor | src/features/game/Game.tsx:49-53 | The reference starts as "not over, no winner, no draw". |
| GameComponent.Game.WinningLine | src/features/game/Game.tsx:117 | A line is highlighted exactly when somebody won; it is one of the eight lines, complete, in the winner's mark. |
| GameComponent.Game.ReportOutcome | src/features/game/Game.tsx:56-76 | A new finished outcome is announced (winner or draw), passed to handleGameStateChange, which scores it, and remembered. Otherwise nothing changes. |
| GameComponent.Game.HandleNewGameAsWritten | src/features/game/Game.tsx:79-82 | A new game with the panel's settings; the reference keeps the last reported outcome. |
| GameComponent.Game.HandleNewGame | src/features/game/Game.tsx:79-82 | A new game with the panel's settings, and the reference is reset so the next game is reported whatever its outcome. |

## Left out

- Timers are left out: the 600 ms AI delay, the 3 s confetti and notification
  timers. processAITurn runs as one step. A jumpTo or new game during the
  delay, which the source allows, is not modelled.
- The probability distribution of the random draws is not modelled. The model
  quantifies over every outcome; `Math.random() < 0.3` is the argument
  `randomise`.
- Notifications are modelled only as the decision to raise them. The panel's
  are `GameComponent.Notice`, and the application's "Scores reset!" message is
  what `App.ScoreKeeper.HandleResetScores` returns. Their display and timing
  are left out. The application's other messages belong to handlers outside
  this model (game mode, difficulty, player, theme and animation speed changes,
  src/App.tsx:78-106).
  Confetti, themes, animation speed, tabs, the settings panel and all
  rendering are left out too.
- GameHook.MakeAIMove: the easy and medium-random branches do not model the
  hook's separate `Math.random` calls. The same `pick` argument is used as
  the draw on each path, and only one draw is used on any path.
- GameHook.MakeAIMove: the list of empty squares is computed with the engine's
  `AiUtils.GetEmptySquares`. The hook builds the same list with the same
  `map`/`filter` expression.
- The hook's `gameState()` is the engine's `AiUtils.CheckGameState`. The
  hook's own copy, `GameHook.CheckGameState`, is proved to give the same
  verdict on every board.
- Difficulty is the enumeration easy/medium/hard. `makeAIMove` of
  aiUtils.ts takes any string, and any other string behaves like hard.
- The `-Infinity`/`Infinity` stand-ins `-1000`/`1000` are faithful only while
  every score is below 1000 in magnitude. The bound lemmas show this for every
  board that can arise (empty squares plus depth at most 9).
- GameHook.GameSession.JumpTo requires an index into the history. The panel
  only calls it with 0 and with 1 to `history.length - 1`
  (src/features/game/Game.tsx:160, 173).
- The prop-synchronising effects of the panel (src/features/game/Game.tsx:33-43)
  are the setters of the session. Whether React runs them in the same order is
  not modelled.
- React's rendering model is not modelled: the batching of state updates, the
  memoisation of callbacks and effect dependency tracking.

## Findings

| source | as written | input that shows it | evidently intended | confidence | as-written member | corrected member |
|---|---|---|---|---|---|---|
| src/features/game/Game.tsx:79-82 | handleNewGame starts a new game but never resets prevGameStateRef. The reporting effect (lines 56-76) only reports an outcome whose winner, draw flag or over flag differs from the reference. | X wins game 1 on the top row and the 1-0 is scored. "Play Again", then X wins game 2 on the left column. The verdict's flags equal the reference, so game 2 is neither announced nor scored. | Every finished game is reported and scored once. | not executed | GameComponent.SecondWinUnreportedAsWritten | GameComponent.SecondWinReportedWhenReset |
