/** The score keeping of the application shell (src/App.tsx): the tally of
    wins and ties, and the "game in progress" flag the settings panel reads. */
module App {
  import opened Types
  import AiUtils

  /** The number of games the tally records. */
  function Total(s: Scores): nat {
    s.x + s.o + s.ties
  }

  /** The updater updateScores hands to setScores: a copy of the previous
      tally with the counter of the verdict's outcome bumped. */
  function ScoreUpdate(prev: Scores, gs: GameState): (r: Scores)
    ensures Total(r) == Total(prev) + (if gs.winner.Some? || gs.isDraw then 1 else 0)
    ensures r.x >= prev.x && r.o >= prev.o && r.ties >= prev.ties
    ensures r.x > prev.x <==> gs.winner == Some(X)
    ensures r.o > prev.o <==> gs.winner == Some(O)
    ensures r.ties > prev.ties <==> gs.winner.None? && gs.isDraw
  {
    match gs.winner
    case Some(X) => prev.(x := prev.x + 1)
    case Some(O) => prev.(o := prev.o + 1)
    case None => if gs.isDraw then prev.(ties := prev.ties + 1) else prev
  }

  /** For a verdict of the rules engine, a finished game adds exactly one to
      the tally -- to the winner's counter, or to the ties on a draw -- and a
      game still in play adds nothing. */
  lemma ScoreUpdateOfVerdict(prev: Scores, b: Board)
    ensures var gs := AiUtils.CheckGameState(b);
            var r := ScoreUpdate(prev, gs);
            && (Total(r) == Total(prev) + 1 <==> gs.isOver)
            && (!gs.isOver ==> r == prev)
            && (gs.isDraw ==> r == prev.(ties := prev.ties + 1))
            && (gs.winner == Some(X) ==> r == prev.(x := prev.x + 1))
            && (gs.winner == Some(O) ==> r == prev.(o := prev.o + 1))
  {
  }

  /** The message the application shows when the tally is reset. */
  const SCORES_RESET_MESSAGE: string := "Scores reset!"

  /** The application state that scoring touches. */
  class ScoreKeeper {
    var scores: Scores
    var gameInProgress: bool

    /** `{ x: 0, o: 0, ties: 0 }` and no game in progress. */
    constructor ()
      ensures scores == Scores(0, 0, 0) && !gameInProgress
    {
      scores := Scores(0, 0, 0);
      gameInProgress := false;
    }

    /** updateScores: a finished game bumps one counter; any other verdict
        leaves the tally alone. */
    method UpdateScores(gs: GameState)
      modifies this
      ensures scores == if gs.isOver then ScoreUpdate(old(scores), gs) else old(scores)
      ensures gameInProgress == old(gameInProgress)
    {
      if gs.isOver {
        scores := ScoreUpdate(scores, gs);
      }
    }

    /** handleResetScores: the tally goes back to zero, and the application
        shows the "Scores reset!" message. */
    method HandleResetScores() returns (message: string)
      modifies this
      ensures scores == Scores(0, 0, 0)
      ensures gameInProgress == old(gameInProgress)
      ensures message == SCORES_RESET_MESSAGE
    {
      scores := Scores(0, 0, 0);
      message := SCORES_RESET_MESSAGE;
    }

    /** handleGameStateChange: score the verdict, and a game is in progress
        exactly when the verdict is neither over nor a draw. */
    method HandleGameStateChange(gs: GameState)
      modifies this
      ensures scores == if gs.isOver then ScoreUpdate(old(scores), gs) else old(scores)
      ensures gameInProgress == (!gs.isOver && !gs.isDraw)
    {
      UpdateScores(gs);
      gameInProgress := !gs.isOver && !gs.isDraw;
    }
  }
}
