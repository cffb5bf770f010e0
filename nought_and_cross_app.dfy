/** The status line and the click guard of the noughts-and-crosses page
    (src/games/nought-and-cross/components/app.tsx). `isWin` and `filledBoard`
    come from game-model.ts, which is not part of this model; they are
    parameters here. */
module NoughtAndCrossApp {

  import opened RandomSelection
  import opened NoughtAndCross
  import NoughtAndCrossAi

  /** What the controller displays. */
  datatype Status = StatusWinO | StatusWinX | StatusDraw | StatusNextO | StatusNextX | StatusNone

  /** A status that ends the game (a win or a draw). */
  predicate IsGameOver(s: Status)
  {
    s.StatusWinO? || s.StatusWinX? || s.StatusDraw?
  }

  /** `status()`. The current-mark signal is a `Cell`: a mark for the player to
      move, or `Empty` when it holds neither mark. */
  function GameStatus(board: seq<Cell>, turn: Cell, isWin: (seq<Cell>, Mark) -> bool,
                      filledBoard: seq<Cell> -> bool): (s: Status)
    ensures s == StatusWinO <==> isWin(board, MarkO)
    ensures s == StatusWinX <==> !isWin(board, MarkO) && isWin(board, MarkX)
    ensures s == StatusDraw <==> !isWin(board, MarkO) && !isWin(board, MarkX) && filledBoard(board)
    ensures s == StatusNextO <==>
      !isWin(board, MarkO) && !isWin(board, MarkX) && !filledBoard(board) && turn == Marked(MarkO)
    ensures s == StatusNextX <==>
      !isWin(board, MarkO) && !isWin(board, MarkX) && !filledBoard(board) && turn == Marked(MarkX)
    ensures s == StatusNone <==>
      !isWin(board, MarkO) && !isWin(board, MarkX) && !filledBoard(board) && turn == Empty
  {
    if isWin(board, MarkO) then StatusWinO
    else if isWin(board, MarkX) then StatusWinX
    else if filledBoard(board) then StatusDraw
    else
      match turn
      case Marked(MarkO) => StatusNextO
      case Marked(MarkX) => StatusNextX
      case Empty => StatusNone
  }

  /** The status reports the end of the game exactly when some player has a
      line or the board is full, whoever is to move. */
  lemma GameOverIff(board: seq<Cell>, turn: Cell, isWin: (seq<Cell>, Mark) -> bool,
                    filledBoard: seq<Cell> -> bool)
    ensures IsGameOver(GameStatus(board, turn, isWin, filledBoard)) <==>
      (exists m: Mark :: isWin(board, m)) || filledBoard(board)
  {
    assert forall m: Mark :: isWin(board, m) ==> m == MarkO || m == MarkX;
    if isWin(board, MarkO) || isWin(board, MarkX) {
      var m := if isWin(board, MarkO) then MarkO else MarkX;
      assert isWin(board, m);
    }
  }

  /** `handleClick`: the index is passed on to the waiting human player
      (`resolve(index)`) only when that cell is `Empty`; a click on an occupied
      cell, or outside the board (`undefined !== Empty`), does nothing. */
  function HandleClick(board: seq<Cell>, index: int): (resolved: Option<int>)
    ensures resolved.Some? <==> 0 <= index < |board| && board[index] == Empty
    ensures resolved.Some? ==> resolved.value == index
  {
    if At(board, index) != Some(Empty) then None else Some(index)
  }

  /** The cell either AI player chooses is one the click guard accepts: both
      players only ever choose moves a human could also make. */
  lemma AiChoicesPassClickGuard(board: seq<Cell>, lines: seq<Line>, mark: Mark,
                                isWin: (seq<Cell>, Mark) -> bool, draw: Draw)
    ensures var r := NoughtAndCrossAi.AiChoice(board, lines, mark, draw);
            r.Place? ==> HandleClick(board, r.index) == Some(r.index)
    ensures var r := NoughtAndCrossAi.GameAiChoice(board, mark, isWin, draw);
            r.Place? ==> HandleClick(board, r.index) == Some(r.index)
  {
    NoughtAndCrossAi.AiPlacesOnEmpty(board, lines, mark, draw);
    NoughtAndCrossAi.GameAiPlacesOnEmpty(board, mark, isWin, draw);
  }
}
