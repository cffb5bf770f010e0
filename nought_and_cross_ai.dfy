/** The two noughts-and-crosses AI players of src/games/nought-and-cross/ai.ts.
    Both sort the empty cells into three lists (cells that win now, cells that
    stop the opponent winning next, any empty cell) and pick at random from the
    first non-empty one. */
module NoughtAndCrossAi {

  import opened RandomSelection
  import opened NoughtAndCross

  // ---------------------------------------------------------------------------
  // aiPlayer.getMarkIndex: the lines are read directly.
  // ---------------------------------------------------------------------------

  /** `x` is the one `Empty` cell of `line` whose other two cells hold `who`. */
  predicate CompletesLine(board: seq<Cell>, line: Line, who: Mark, x: int)
  {
    var (c1, c2, c3) := (At(board, line.0), At(board, line.1), At(board, line.2));
    || (x == line.0 && c1 == Some(Empty) && c2 == Some(Marked(who)) && c3 == Some(Marked(who)))
    || (x == line.1 && c2 == Some(Empty) && c3 == Some(Marked(who)) && c1 == Some(Marked(who)))
    || (x == line.2 && c3 == Some(Empty) && c1 == Some(Marked(who)) && c2 == Some(Marked(who)))
  }

  /** A completing cell is a cell of the board, and it is `Empty`. */
  lemma CompletingCellIsEmpty(board: seq<Cell>, line: Line, who: Mark, x: int)
    requires CompletesLine(board, line, who, x)
    ensures 0 <= x < |board| && board[x] == Empty
  {
    var (c1, c2, c3) := (At(board, line.0), At(board, line.1), At(board, line.2));
    if x == line.0 && c1 == Some(Empty) {
    } else if x == line.1 && c2 == Some(Empty) {
    } else {
      assert c3 == Some(Empty);
    }
  }

  /** What one line pushes, in the order of the three tests of the loop body. */
  function LinePushes(board: seq<Cell>, line: Line, who: Mark): (r: seq<int>)
    ensures forall x :: x in r <==> CompletesLine(board, line, who, x)
  {
    var (c1, c2, c3) := (At(board, line.0), At(board, line.1), At(board, line.2));
    (if c1 == Some(Marked(who)) && c1 == c2 && c3 == Some(Empty) then [line.2] else []) +
    (if c2 == Some(Marked(who)) && c2 == c3 && c1 == Some(Empty) then [line.0] else []) +
    (if c3 == Some(Marked(who)) && c3 == c1 && c2 == Some(Empty) then [line.1] else [])
  }

  /** There is a line that `who` completes at `x`. */
  predicate CompletesSomeLine(board: seq<Cell>, lines: seq<Line>, who: Mark, x: int)
  {
    exists j :: 0 <= j < |lines| && CompletesLine(board, lines[j], who, x)
  }

  /** Everything the loop over `lines` pushes for `who`: `clearCells` for the
      player's own mark, `interCells` for the opponent's. */
  function LineCells(board: seq<Cell>, lines: seq<Line>, who: Mark): (r: seq<int>)
    ensures forall x :: x in r <==> CompletesSomeLine(board, lines, who, x)
    decreases |lines|
  {
    if |lines| == 0 then []
    else
      var last := |lines| - 1;
      var prefix := LineCells(board, lines[..last], who);
      assert forall j :: 0 <= j < last ==> lines[..last][j] == lines[j];
      prefix + LinePushes(board, lines[last], who)
  }

  /** The answer of `aiPlayer.getMarkIndex` for a board, the winning lines, the
      player's mark and the one draw of `Math.random()`. */
  function AiChoice(board: seq<Cell>, lines: seq<Line>, mark: Mark, draw: Draw): Choice
  {
    Decide(LineCells(board, lines, mark), LineCells(board, lines, mark.Opponent()),
           EmptyIndices(board), draw)
  }

  /** `aiPlayer.getMarkIndex`, as the loops that build the three lists. */
  method GetMarkIndex(board: seq<Cell>, lines: seq<Line>, mark: Mark, draw: Draw) returns (r: Choice)
    ensures r == AiChoice(board, lines, mark, draw)
  {
    var clearCells: seq<int> := [];
    var interCells: seq<int> := [];
    var emptyCells: seq<int> := [];
    var opponent := mark.Opponent();

    for k := 0 to |lines|
      invariant clearCells == LineCells(board, lines[..k], mark)
      invariant interCells == LineCells(board, lines[..k], opponent)
    {
      var line := lines[k];
      var c1, c2, c3 := At(board, line.0), At(board, line.1), At(board, line.2);
      if c1 == Some(Marked(opponent)) && c1 == c2 && c3 == Some(Empty) {
        interCells := interCells + [line.2];
      }
      if c2 == Some(Marked(opponent)) && c2 == c3 && c1 == Some(Empty) {
        interCells := interCells + [line.0];
      }
      if c3 == Some(Marked(opponent)) && c3 == c1 && c2 == Some(Empty) {
        interCells := interCells + [line.1];
      }
      if c1 == Some(Marked(mark)) && c1 == c2 && c3 == Some(Empty) {
        clearCells := clearCells + [line.2];
      }
      if c2 == Some(Marked(mark)) && c2 == c3 && c1 == Some(Empty) {
        clearCells := clearCells + [line.0];
      }
      if c3 == Some(Marked(mark)) && c3 == c1 && c2 == Some(Empty) {
        clearCells := clearCells + [line.1];
      }
      assert lines[..k + 1][..k] == lines[..k];
    }
    assert lines[..|lines|] == lines;

    for i := 0 to |board|
      invariant emptyCells == EmptyIndices(board[..i])
    {
      if board[i] == Empty {
        emptyCells := emptyCells + [i];
      }
      assert board[..i + 1][..i] == board[..i];
    }
    assert board[..|board|] == board;

    if |emptyCells| == 0 {
      return Reset;
    }
    r := FirstAvailable(clearCells, interCells, emptyCells, draw);
  }

  /** `getMarkIndex` gives up exactly when no cell is empty. */
  lemma AiResetIff(board: seq<Cell>, lines: seq<Line>, mark: Mark, draw: Draw)
    ensures AiChoice(board, lines, mark, draw) == Reset <==> !HasEmptyCell(board)
  {
    EmptyIndicesNoneIff(board);
  }

  /** Whatever `getMarkIndex` places on is an empty cell of the board. */
  lemma AiPlacesOnEmpty(board: seq<Cell>, lines: seq<Line>, mark: Mark, draw: Draw)
    ensures var r := AiChoice(board, lines, mark, draw);
            r.Place? ==> 0 <= r.index < |board| && board[r.index] == Empty
  {
    var r := AiChoice(board, lines, mark, draw);
    if r.Place? {
      var clear := LineCells(board, lines, mark);
      var inter := LineCells(board, lines, mark.Opponent());
      if r.index in clear {
        var j :| 0 <= j < |lines| && CompletesLine(board, lines[j], mark, r.index);
        CompletingCellIsEmpty(board, lines[j], mark, r.index);
      } else if r.index in inter {
        var j :| 0 <= j < |lines| && CompletesLine(board, lines[j], mark.Opponent(), r.index);
        CompletingCellIsEmpty(board, lines[j], mark.Opponent(), r.index);
      }
    }
  }

  /** A cell that completes one of the player's own lines always wins the pick. */
  lemma AiWinsFirst(board: seq<Cell>, lines: seq<Line>, mark: Mark, draw: Draw, x: int)
    requires CompletesSomeLine(board, lines, mark, x)
    ensures var r := AiChoice(board, lines, mark, draw);
            r.Place? && CompletesSomeLine(board, lines, mark, r.index)
  {
    var j :| 0 <= j < |lines| && CompletesLine(board, lines[j], mark, x);
    CompletingCellIsEmpty(board, lines[j], mark, x);
    assert x in EmptyIndices(board);
    assert x in LineCells(board, lines, mark);
  }

  /** With nothing to complete, a cell that blocks an opponent's line wins the pick. */
  lemma AiBlocksSecond(board: seq<Cell>, lines: seq<Line>, mark: Mark, draw: Draw, x: int)
    requires forall y :: !CompletesSomeLine(board, lines, mark, y)
    requires CompletesSomeLine(board, lines, mark.Opponent(), x)
    ensures var r := AiChoice(board, lines, mark, draw);
            r.Place? && CompletesSomeLine(board, lines, mark.Opponent(), r.index)
  {
    var j :| 0 <= j < |lines| && CompletesLine(board, lines[j], mark.Opponent(), x);
    CompletingCellIsEmpty(board, lines[j], mark.Opponent(), x);
    assert x in EmptyIndices(board);
    assert x in LineCells(board, lines, mark.Opponent());
    var clear := LineCells(board, lines, mark);
    assert clear == [] || clear[0] in clear;
  }

  // ---------------------------------------------------------------------------
  // gameNoughtAndCrossAi: each empty cell is tried by placing a mark on a copy.
  // ---------------------------------------------------------------------------

  /** Placing `who` on the empty cell `x` of a copy of `board` makes `isWin` hold. */
  predicate WinsByPlacing(board: seq<Cell>, x: int, who: Mark, isWin: (seq<Cell>, Mark) -> bool)
  {
    0 <= x < |board| && board[x] == Empty && isWin(board[x := Marked(who)], who)
  }

  /** The indices below `n` that `WinsByPlacing` accepts, in index order: what the
      loop over `board.entries()` pushes for `who`. */
  function Trials(board: seq<Cell>, n: nat, who: Mark, isWin: (seq<Cell>, Mark) -> bool): (r: seq<int>)
    requires n <= |board|
    ensures forall x :: x in r <==> x < n && WinsByPlacing(board, x, who, isWin)
  {
    if n == 0 then []
    else
      var prefix := Trials(board, n - 1, who, isWin);
      prefix + (if WinsByPlacing(board, n - 1, who, isWin) then [n - 1] else [])
  }

  /** No index below `n` is pushed exactly when no index below `n` wins by placing. */
  lemma {:induction false} TrialsNoneIff(board: seq<Cell>, n: nat, who: Mark, isWin: (seq<Cell>, Mark) -> bool)
    requires n <= |board|
    ensures |Trials(board, n, who, isWin)| == 0 <==> forall x :: 0 <= x < n ==> !WinsByPlacing(board, x, who, isWin)
  {
    if n > 0 {
      TrialsNoneIff(board, n - 1, who, isWin);
      var last := if WinsByPlacing(board, n - 1, who, isWin) then [n - 1] else [];
      assert Trials(board, n, who, isWin) == Trials(board, n - 1, who, isWin) + last;
      assert |Trials(board, n, who, isWin)| == |Trials(board, n - 1, who, isWin)| + |last|;
    }
  }

  /** `gameNoughtAndCrossAi`'s answer for a board, a mark, the `isWin` test and
      the one draw of `Math.random()`. */
  function GameAiChoice(board: seq<Cell>, mark: Mark, isWin: (seq<Cell>, Mark) -> bool, draw: Draw): Choice
  {
    Decide(Trials(board, |board|, mark, isWin), Trials(board, |board|, mark.Opponent(), isWin),
           EmptyIndices(board), draw)
  }

  /** `gameNoughtAndCrossAi`. The board is an array that the method only reads:
      the trial placements are made on copies (`board.with`). */
  method GameNoughtAndCrossAi(board: array<Cell>, mark: Mark, isWin: (seq<Cell>, Mark) -> bool, draw: Draw)
    returns (r: Choice)
    ensures r == GameAiChoice(board[..], mark, isWin, draw)
  {
    var clearCells: seq<int> := [];
    var interCells: seq<int> := [];
    var emptyCells: seq<int> := [];
    var opponent := mark.Opponent();

    for index := 0 to board.Length
      invariant clearCells == Trials(board[..], index, mark, isWin)
      invariant interCells == Trials(board[..], index, opponent, isWin)
    {
      if board[index] != Empty {
        continue;
      }
      if isWin(board[..][index := Marked(mark)], mark) {
        clearCells := clearCells + [index];
      }
      if isWin(board[..][index := Marked(opponent)], opponent) {
        interCells := interCells + [index];
      }
    }

    for index := 0 to board.Length
      invariant emptyCells == EmptyIndices(board[..index])
    {
      if board[index] == Empty {
        emptyCells := emptyCells + [index];
      }
      assert board[..index + 1][..index] == board[..index];
    }
    assert board[..board.Length] == board[..];

    if |emptyCells| == 0 {
      return Reset;
    }
    r := FirstAvailable(clearCells, interCells, emptyCells, draw);
  }

  /** `gameNoughtAndCrossAi` gives up exactly when no cell is empty. */
  lemma GameAiResetIff(board: seq<Cell>, mark: Mark, isWin: (seq<Cell>, Mark) -> bool, draw: Draw)
    ensures GameAiChoice(board, mark, isWin, draw) == Reset <==> !HasEmptyCell(board)
  {
    EmptyIndicesNoneIff(board);
  }

  /** Whatever `gameNoughtAndCrossAi` places on is an empty cell of the board. */
  lemma GameAiPlacesOnEmpty(board: seq<Cell>, mark: Mark, isWin: (seq<Cell>, Mark) -> bool, draw: Draw)
    ensures var r := GameAiChoice(board, mark, isWin, draw);
            r.Place? ==> 0 <= r.index < |board| && board[r.index] == Empty
  {
  }

  /** An empty cell on which the player's own mark wins always wins the pick. */
  lemma GameAiWinsFirst(board: seq<Cell>, mark: Mark, isWin: (seq<Cell>, Mark) -> bool, draw: Draw, x: int)
    requires WinsByPlacing(board, x, mark, isWin)
    ensures var r := GameAiChoice(board, mark, isWin, draw);
            r.Place? && WinsByPlacing(board, r.index, mark, isWin)
  {
    assert x in EmptyIndices(board);
    assert x in Trials(board, |board|, mark, isWin);
  }

  /** With no winning cell, an empty cell on which the opponent would win wins the pick. */
  lemma GameAiBlocksSecond(board: seq<Cell>, mark: Mark, isWin: (seq<Cell>, Mark) -> bool, draw: Draw, x: int)
    requires forall y :: !WinsByPlacing(board, y, mark, isWin)
    requires WinsByPlacing(board, x, mark.Opponent(), isWin)
    ensures var r := GameAiChoice(board, mark, isWin, draw);
            r.Place? && WinsByPlacing(board, r.index, mark.Opponent(), isWin)
  {
    TrialsNoneIff(board, |board|, mark, isWin);
    assert x in EmptyIndices(board);
    assert x in Trials(board, |board|, mark.Opponent(), isWin);
  }

  // ---------------------------------------------------------------------------
  // The two players agree when `isWin` is the line test.
  // ---------------------------------------------------------------------------

  /** All three cells of `line` hold `who`. */
  predicate HoldsLine(board: seq<Cell>, line: Line, who: Mark)
  {
    At(board, line.0) == Some(Marked(who)) && At(board, line.1) == Some(Marked(who))
      && At(board, line.2) == Some(Marked(who))
  }

  /** A reference `isWin` for the winning lines: some line is all `who`. */
  predicate LinesWin(lines: seq<Line>, board: seq<Cell>, who: Mark)
  {
    exists j :: 0 <= j < |lines| && HoldsLine(board, lines[j], who)
  }

  /** Every line names three different cells. */
  predicate DistinctCells(lines: seq<Line>)
  {
    forall j :: 0 <= j < |lines| ==>
      lines[j].0 != lines[j].1 && lines[j].1 != lines[j].2 && lines[j].0 != lines[j].2
  }

  /** Reading a board after placing `c` on cell `x`. */
  lemma AtAfterPlacing(board: seq<Cell>, x: int, c: Cell, i: int)
    requires 0 <= x < |board|
    ensures At(board[x := c], i) == if i == x then Some(c) else At(board, i)
  {
  }

  /** While `who` holds no line yet, placing `who` on `x` makes a line exactly
      when `x` is a completing cell of some line: the trial placements of
      `gameNoughtAndCrossAi` find the same cells as the line scan of
      `getMarkIndex`. */
  lemma TrialMatchesScan(board: seq<Cell>, lines: seq<Line>, who: Mark, x: int)
    requires DistinctCells(lines)
    requires !LinesWin(lines, board, who)
    ensures WinsByPlacing(board, x, who, (b, m) => LinesWin(lines, b, m)) <==>
            CompletesSomeLine(board, lines, who, x)
  {
    if CompletesSomeLine(board, lines, who, x) {
      var j :| 0 <= j < |lines| && CompletesLine(board, lines[j], who, x);
      CompletingCellIsEmpty(board, lines[j], who, x);
      var placed := board[x := Marked(who)];
      AtAfterPlacing(board, x, Marked(who), lines[j].0);
      AtAfterPlacing(board, x, Marked(who), lines[j].1);
      AtAfterPlacing(board, x, Marked(who), lines[j].2);
      assert HoldsLine(placed, lines[j], who);
    }
    if WinsByPlacing(board, x, who, (b, m) => LinesWin(lines, b, m)) {
      var placed := board[x := Marked(who)];
      assert LinesWin(lines, placed, who);
      var j :| 0 <= j < |lines| && HoldsLine(placed, lines[j], who);
      var line := lines[j];
      AtAfterPlacing(board, x, Marked(who), line.0);
      AtAfterPlacing(board, x, Marked(who), line.1);
      AtAfterPlacing(board, x, Marked(who), line.2);
      assert !HoldsLine(board, line, who);
      assert CompletesLine(board, line, who, x);
    }
  }
}
