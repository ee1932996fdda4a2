/** The game panel (src/features/game/Game.tsx): it owns a game session,
    reports a finished game to the application when its winner, draw flag or
    over flag differs from the last outcome reported, and offers a new game. */
module GameComponent {
  import opened Types
  import AiUtils
  import GameHook
  import App

  /** The notifications the panel raises. */
  datatype Notice = WinNotice(winner: Player) | DrawNotice | NewGameNotice

  /** The initial value of prevGameStateRef: `{ isOver: false, winner: null, isDraw: false }`. */
  const NOTHING_REPORTED: GameState := ONGOING

  /** The condition of the reporting effect: the game shown is over, at least
      one move was made, and the verdict differs from the last one reported in
      its winner, its draw flag or its over flag. */
  predicate ShouldReport(prev: GameState, gs: GameState, currentMove: nat) {
    gs.isOver && currentMove > 0
    && (prev.winner != gs.winner || prev.isDraw != gs.isDraw || prev.isOver != gs.isOver)
  }

  /** A verdict with the same winner, draw flag and over flag as the one last
      reported is never reported again: stepping back through the history and
      forward to the final position does not score the game twice. */
  lemma SameOutcomeNotReported(prev: GameState, gs: GameState, currentMove: nat)
    requires prev.winner == gs.winner && prev.isDraw == gs.isDraw && prev.isOver == gs.isOver
    ensures !ShouldReport(prev, gs, currentMove)
  {
  }

  /** With nothing reported yet, every finished game after at least one move
      is reported. */
  lemma FreshReportsEveryFinish(gs: GameState, currentMove: nat)
    requires gs.isOver && currentMove > 0
    ensures ShouldReport(NOTHING_REPORTED, gs, currentMove)
  {
  }

  /** X completes the top row. */
  const X_TOP_ROW: Board := [Some(X), Some(X), Some(X), Some(O), Some(O), None, None, None, None]

  /** X completes the left column; no row is complete. */
  const X_LEFT_COLUMN: Board := [Some(X), Some(O), None, Some(X), Some(O), None, Some(X), None, None]

  lemma XTopRowVerdict()
    ensures AiUtils.CheckGameState(X_TOP_ROW) == GameState(true, Some(X), false, Some(Line(0, 1, 2)))
  {
    AiUtils.FirstCompleteLineWins(X_TOP_ROW, 0);
  }

  lemma XLeftColumnVerdict()
    ensures AiUtils.CheckGameState(X_LEFT_COLUMN) == GameState(true, Some(X), false, Some(Line(0, 3, 6)))
  {
    assert !AiUtils.Completes(X_LEFT_COLUMN, AiUtils.LINES[0]);
    assert !AiUtils.Completes(X_LEFT_COLUMN, AiUtils.LINES[1]);
    assert !AiUtils.Completes(X_LEFT_COLUMN, AiUtils.LINES[2]);
    AiUtils.FirstCompleteLineWins(X_LEFT_COLUMN, 3);
  }

  /** As written, handleNewGame keeps prevGameStateRef: when X wins one game
      and, after Play Again, wins the next one too, the second win is not
      reported, so it is neither announced nor scored. */
  lemma SecondWinUnreportedAsWritten()
    ensures ShouldReport(NOTHING_REPORTED, AiUtils.CheckGameState(X_TOP_ROW), 5)
    ensures !ShouldReport(AiUtils.CheckGameState(X_TOP_ROW), AiUtils.CheckGameState(X_LEFT_COLUMN), 5)
  {
    XTopRowVerdict();
    XLeftColumnVerdict();
  }

  /** With the reference reset on a new game, the second win is reported. */
  lemma SecondWinReportedWhenReset()
    ensures ShouldReport(NOTHING_REPORTED, AiUtils.CheckGameState(X_LEFT_COLUMN), 5)
  {
    XLeftColumnVerdict();
  }

  /** In a session played from the start, some move is on record exactly
      when the last position of the history is not the empty board. */
  lemma InProgressIffMoved(g: Game)
    requires g.session.Consistent()
    ensures g.GameInProgress() <==> g.session.history[|g.session.history| - 1] != EMPTY_BOARD
  {
    var h := g.session.history;
    var n := |h| - 1;
    GameHook.MarkBalance(h, n);
    GameHook.EmptyCountFrom(X, 0);
    GameHook.EmptyCountFrom(O, 0);
  }

  /** The panel: its session, the application's score keeper it reports to,
      and prevGameStateRef. */
  class Game {
    const session: GameHook.GameSession
    const app: App.ScoreKeeper
    var prevGameState: GameState

    constructor (session: GameHook.GameSession, app: App.ScoreKeeper)
      ensures this.session == session && this.app == app
      ensures prevGameState == NOTHING_REPORTED
    {
      this.session := session;
      this.app := app;
      prevGameState := NOTHING_REPORTED;
    }

    /** `history.length > 1`: some move is on record. */
    predicate GameInProgress()
      reads this, session
    {
      |session.history| > 1
    }

    /** The line the board highlights: the winning line, and none unless
        somebody won. */
    function WinningLine(): (l: Option<Line>)
      reads this, session
      requires session.Valid()
      ensures l.Some? <==> session.CurrentState().winner.Some?
      ensures l.Some? ==> && l.value in AiUtils.LINES
                          && AiUtils.Completes(session.CurrentSquares(), l.value)
                          && session.CurrentState().winner == session.CurrentSquares()[l.value.a]
    {
      var gs := session.CurrentState();
      if gs.winner.Some? then gs.line else None
    }

    /** The reporting effect, run after each change of the position shown:
        a new outcome is announced, handed to the application (which scores
        it) and remembered; anything else changes nothing. */
    method ReportOutcome() returns (notice: Option<Notice>)
      requires session.Valid()
      modifies this, app
      ensures var gs := session.CurrentState();
              if ShouldReport(old(prevGameState), gs, session.currentMove) then
                && prevGameState == gs
                && app.scores == App.ScoreUpdate(old(app.scores), gs)
                && !app.gameInProgress
                && notice == (if gs.winner.Some? then Some(WinNotice(gs.winner.value)) else Some(DrawNotice))
              else
                && prevGameState == old(prevGameState)
                && app.scores == old(app.scores) && app.gameInProgress == old(app.gameInProgress)
                && notice.None?
    {
      var gs := session.CurrentState();
      notice := None;
      if gs.isOver && session.currentMove > 0
         && (prevGameState.winner != gs.winner || prevGameState.isDraw != gs.isDraw
             || prevGameState.isOver != gs.isOver) {
        if gs.winner.Some? {
          notice := Some(WinNotice(gs.winner.value));
        } else if gs.isDraw {
          notice := Some(DrawNotice);
        }
        app.HandleGameStateChange(gs);
        prevGameState := gs;
      }
    }

    /** handleNewGame as written: a fresh session with the panel's settings;
        prevGameStateRef keeps the last outcome reported. */
    method HandleNewGameAsWritten(mode: GameMode, difficulty: Difficulty, player: Player)
      returns (notice: Notice)
      modifies session
      ensures session.history == [EMPTY_BOARD] && session.currentMove == 0
      ensures session.gameMode == mode && session.aiDifficulty == difficulty
      ensures session.humanPlayer == player && !session.isAIThinking
      ensures session.Consistent()
      ensures prevGameState == old(prevGameState)
      ensures notice == NewGameNotice
    {
      session.StartNewGame(mode, difficulty, player);
      notice := NewGameNotice;
    }

    /** handleNewGame, forgetting the last outcome reported, so that the new
        game is reported when it ends whatever its outcome. */
    method HandleNewGame(mode: GameMode, difficulty: Difficulty, player: Player)
      returns (notice: Notice)
      modifies this, session
      ensures session.history == [EMPTY_BOARD] && session.currentMove == 0
      ensures session.gameMode == mode && session.aiDifficulty == difficulty
      ensures session.humanPlayer == player && !session.isAIThinking
      ensures session.Consistent()
      ensures prevGameState == NOTHING_REPORTED
      ensures notice == NewGameNotice
    {
      session.StartNewGame(mode, difficulty, player);
      prevGameState := NOTHING_REPORTED;
      notice := NewGameNotice;
    }
  }
}
