/** The values the noughts-and-crosses game works on: marks, board cells and the
    move an AI player answers with. The game's own types and helper modules
    (types.ts, game.ts, game-model.ts) are not part of this model; what the core
    needs from them is defined here. */
module NoughtAndCross {

  import opened RandomSelection

  /** The two marks, `MarkO` and `MarkX`. */
  datatype Mark = MarkO | MarkX {
    /** `invertMark` and `turnMark`: the other player's mark. */
    function Opponent(): (o: Mark)
      ensures o != this
    {
      if MarkO? then MarkX else MarkO
    }
  }

  /** A board cell: `Empty` (also called `CellEmpty`) or a placed mark. */
  datatype Cell = Empty | Marked(mark: Mark)

  /** Three cell indices that make a line (`winnerLines` holds such triples). */
  type Line = (int, int, int)

  /** An AI player's answer: a cell index to mark, or `Reset` when it gives up. */
  datatype Choice = Reset | Place(index: int)

  /** JavaScript's `board[i]`: the cell, or `undefined` outside the board. */
  function At(board: seq<Cell>, i: int): (c: Option<Cell>)
    ensures c.Some? <==> 0 <= i < |board|
    ensures c.Some? ==> c.value == board[i]
  {
    if 0 <= i < |board| then Some(board[i]) else None
  }

  /** True when `board` has a cell that is `Empty`. */
  predicate HasEmptyCell(board: seq<Cell>)
  {
    exists i :: 0 <= i < |board| && board[i] == Empty
  }

  /** The indices of the `Empty` cells, in ascending order (the loop over
      `board.entries()` that fills `emptyCells`). */
  function EmptyIndices(board: seq<Cell>): (r: seq<int>)
    ensures forall x :: x in r <==> 0 <= x < |board| && board[x] == Empty
    ensures forall p :: 0 <= p < |r| ==> r[p] < |board|
    ensures forall p, q :: 0 <= p < q < |r| ==> r[p] < r[q]
    decreases |board|
  {
    if |board| == 0 then []
    else
      var last := |board| - 1;
      EmptyIndices(board[..last]) + (if board[last] == Empty then [last] else [])
  }

  /** `emptyCells` is empty exactly when the board has no `Empty` cell. */
  lemma EmptyIndicesNoneIff(board: seq<Cell>)
    ensures |EmptyIndices(board)| == 0 <==> !HasEmptyCell(board)
  {
    var r := EmptyIndices(board);
    if HasEmptyCell(board) {
      var i :| 0 <= i < |board| && board[i] == Empty;
      assert i in r;
    }
  }

  /** The final pick shared by both AI players,
      `randomSelect(clear) ?? randomSelect(inter) ?? randomSelect(empty) ?? Reset`.
      `randomSelect` draws only for a non-empty list, so exactly one draw of
      `Math.random()` happens, for the first non-empty list. */
  function FirstAvailable(clear: seq<int>, inter: seq<int>, empty: seq<int>, draw: Draw): (r: Choice)
    ensures r == Reset <==> |clear| == 0 && |inter| == 0 && |empty| == 0
    ensures |clear| > 0 ==> r.Place? && r.index in clear
    ensures |clear| == 0 && |inter| > 0 ==> r.Place? && r.index in inter
    ensures |clear| == 0 && |inter| == 0 && |empty| > 0 ==> r.Place? && r.index in empty
  {
    match RandomSelect(clear, draw)
    case Some(i) => Place(i)
    case None =>
      match RandomSelect(inter, draw)
      case Some(i) => Place(i)
      case None =>
        match RandomSelect(empty, draw)
        case Some(i) => Place(i)
        case None => Reset
  }

  /** The common tail of both AI players: `Reset` when there is no empty cell,
      otherwise the prioritised random pick. */
  function Decide(clear: seq<int>, inter: seq<int>, empty: seq<int>, draw: Draw): (r: Choice)
    ensures r == Reset <==> |empty| == 0
    ensures |empty| > 0 && |clear| > 0 ==> r.Place? && r.index in clear
    ensures |empty| > 0 && |clear| == 0 && |inter| > 0 ==> r.Place? && r.index in inter
    ensures |empty| > 0 && |clear| == 0 && |inter| == 0 ==> r.Place? && r.index in empty
  {
    if |empty| == 0 then Reset else FirstAvailable(clear, inter, empty, draw)
  }
}
