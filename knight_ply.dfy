/** Knight pseudo-move generation (chess/wasm/src/get_ply/knight.rs): the eight
    L-shaped steps fed to a step iterator. The iterator (get_ply/steps.rs) is
    not part of this model; `StepPlies` gives the sequence of plies it yields,
    in the order the behaviour test fixes. */
module KnightPly {

  import opened ChessState

  /** A step as a pair of coordinate offsets. */
  type Step = (int, int)

  function Abs(n: int): nat
  {
    if n < 0 then -n else n
  }

  /** An L-shaped offset: one coordinate changes by 1, the other by 2. */
  predicate IsKnightOffset(s: Step)
  {
    (Abs(s.0) == 1 && Abs(s.1) == 2) || (Abs(s.0) == 2 && Abs(s.1) == 1)
  }

  /** `KNIGHT_STEPS`. */
  function KnightSteps(): (s: seq<Step>)
    ensures |s| == 8
    ensures forall i, j :: 0 <= i < j < |s| ==> s[i] != s[j]
    ensures forall i :: 0 <= i < |s| ==> IsKnightOffset(s[i])
  {
    [(1, 2), (1, -2), (-1, 2), (-1, -2), (2, 1), (2, -1), (-2, 1), (-2, -1)]
  }

  /** The table lists every L-shaped offset, so the eight entries are all of them. */
  lemma KnightStepsComplete(s: Step)
    ensures s in KnightSteps() <==> IsKnightOffset(s)
  {
    if IsKnightOffset(s) {
      var steps := KnightSteps();
      if Abs(s.0) == 1 && Abs(s.1) == 2 {
        assert s == steps[0] || s == steps[1] || s == steps[2] || s == steps[3];
      } else {
        assert s == steps[4] || s == steps[5] || s == steps[6] || s == steps[7];
      }
    }
  }

  /** The square one step away from `from`. */
  function Target(from: Position, s: Step): Position
  {
    Position(from.x + s.0, from.y + s.1)
  }

  /** `to` holds a piece of the same side as the piece standing on `from`. */
  predicate Friendly(squares: seq<BoardSquare>, from: Position, to: Position)
  {
    var mover := SquareAt(squares, from);
    var there := SquareAt(squares, to);
    mover.Occupied? && there.Occupied? && mover.mark == there.mark
  }

  /** A step may land on `to`: it is on the board and not held by a friendly
      piece. An opposing piece there does not stop the move. */
  predicate Admissible(squares: seq<BoardSquare>, from: Position, to: Position)
  {
    OnBoard(to) && !Friendly(squares, from, to)
  }

  /** What the step iterator yields for `steps`, in table order: one plain move
      from `from` for every admissible target. */
  function StepPlies(squares: seq<BoardSquare>, from: Position, steps: seq<Step>): (r: seq<Ply>)
    ensures |r| <= |steps|
    ensures forall k :: 0 <= k < |r| ==> r[k].from == from && Admissible(squares, from, r[k].to)
  {
    if |steps| == 0 then []
    else
      var to := Target(from, steps[0]);
      (if Admissible(squares, from, to) then [Move(from, to)] else []) + StepPlies(squares, from, steps[1..])
  }

  /** A move to `to` is yielded exactly when some step of the table leads to
      `to` and `to` is admissible. */
  lemma {:induction false} StepPliesMembers(squares: seq<BoardSquare>, from: Position, steps: seq<Step>, to: Position)
    ensures Move(from, to) in StepPlies(squares, from, steps) <==>
      exists j :: 0 <= j < |steps| && to == Target(from, steps[j]) && Admissible(squares, from, to)
  {
    if |steps| > 0 {
      StepPliesMembers(squares, from, steps[1..], to);
      assert forall j :: 1 <= j < |steps| ==> steps[j] == steps[1..][j - 1];
      if exists j :: 0 <= j < |steps| && to == Target(from, steps[j]) && Admissible(squares, from, to) {
        var j :| 0 <= j < |steps| && to == Target(from, steps[j]) && Admissible(squares, from, to);
        if j > 0 {
          assert to == Target(from, steps[1..][j - 1]);
        }
      }
    }
  }

  /** Splitting the step table splits the yielded plies the same way: the plies
      of earlier steps come first. */
  lemma {:induction false} StepPliesAppend(squares: seq<BoardSquare>, from: Position, a: seq<Step>, b: seq<Step>)
    ensures StepPlies(squares, from, a + b) == StepPlies(squares, from, a) + StepPlies(squares, from, b)
  {
    if |a| > 0 {
      assert (a + b)[1..] == a[1..] + b;
      StepPliesAppend(squares, from, a[1..], b);
    } else {
      assert a + b == b;
    }
  }

  /** `get_knight_ply`: the knight's pseudo-moves from `from`. It only reads the
      board. */
  function GetKnightPly(board: Board, from: Position): (r: seq<Ply>)
    requires board.Valid()
    reads board, board.squares
    ensures |r| <= 8
    ensures forall k :: 0 <= k < |r| ==> r[k].from == from
    ensures forall to :: Move(from, to) in r <==>
      OnBoard(to) && IsKnightOffset((to.x - from.x, to.y - from.y)) && !Friendly(board.squares[..], from, to)
  {
    var r := StepPlies(board.squares[..], from, KnightSteps());
    assert forall to :: Move(from, to) in r <==>
      OnBoard(to) && IsKnightOffset((to.x - from.x, to.y - from.y)) && !Friendly(board.squares[..], from, to) by {
      forall to
        ensures Move(from, to) in r <==>
          OnBoard(to) && IsKnightOffset((to.x - from.x, to.y - from.y)) && !Friendly(board.squares[..], from, to)
      {
        var s := (to.x - from.x, to.y - from.y);
        KnightStepsComplete(s);
        StepPliesMembers(board.squares[..], from, KnightSteps(), to);
        if s in KnightSteps() {
          var j :| 0 <= j < |KnightSteps()| && KnightSteps()[j] == s;
          assert to == Target(from, KnightSteps()[j]);
        }
      }
    }
    r
  }

  /** The board of `test_knight_iterator` as the knight on (4, 4) sees it: the
      eight targets of `KNIGHT_STEPS` hold, in table order, nothing, nothing,
      nothing, nothing, a black pawn, nothing, nothing and a white pawn. */
  predicate ScenarioBoard(squares: seq<BoardSquare>)
  {
    && SquareAt(squares, Position(4, 4)) == Occupied(White, Knight)
    && SquareAt(squares, Position(5, 6)) == EmptySquare
    && SquareAt(squares, Position(5, 2)) == EmptySquare
    && SquareAt(squares, Position(3, 6)) == EmptySquare
    && SquareAt(squares, Position(3, 2)) == EmptySquare
    && SquareAt(squares, Position(6, 5)) == Occupied(Black, Pawn)
    && SquareAt(squares, Position(6, 3)) == EmptySquare
    && SquareAt(squares, Position(2, 5)) == EmptySquare
    && SquareAt(squares, Position(2, 3)) == Occupied(White, Pawn)
  }

  /** The seven plies `test_knight_iterator` expects, in order, and then the end. */
  function ScenarioPlies(): seq<Ply>
  {
    [ Move(Position(4, 4), Position(5, 6)),
      Move(Position(4, 4), Position(5, 2)),
      Move(Position(4, 4), Position(3, 6)),
      Move(Position(4, 4), Position(3, 2)),
      Move(Position(4, 4), Position(6, 5)),
      Move(Position(4, 4), Position(6, 3)),
      Move(Position(4, 4), Position(2, 5)) ]
  }

  /** One step of the unrolling: an admissible step `k` puts its move in front
      of what the later steps yield. */
  lemma StepOnto(squares: seq<BoardSquare>, from: Position, steps: seq<Step>, k: nat)
    requires k < |steps| && Admissible(squares, from, Target(from, steps[k]))
    ensures StepPlies(squares, from, steps[k..]) == [Move(from, Target(from, steps[k]))] + StepPlies(squares, from, steps[k + 1..])
  {
    assert steps[k..][1..] == steps[k + 1..];
  }

  /** On such a board the knight's plies are exactly the expected seven. */
  lemma {:induction false} ScenarioYields(squares: seq<BoardSquare>)
    requires ScenarioBoard(squares)
    ensures StepPlies(squares, Position(4, 4), KnightSteps()) == ScenarioPlies()
  {
    var from := Position(4, 4);
    var steps := KnightSteps();
    var expected := ScenarioPlies();
    assert StepPlies(squares, from, steps[8..]) == [];
    assert StepPlies(squares, from, steps[7..]) == [] by {
      assert steps[7..][1..] == steps[8..];
      assert Friendly(squares, from, Target(from, steps[7]));
    }
    StepOnto(squares, from, steps, 6);
    StepOnto(squares, from, steps, 5);
    StepOnto(squares, from, steps, 4);
    StepOnto(squares, from, steps, 3);
    StepOnto(squares, from, steps, 2);
    StepOnto(squares, from, steps, 1);
    StepOnto(squares, from, steps, 0);
    assert steps[0..] == steps;
  }

  /** `test_knight_iterator`: a white knight on (4, 4), a white pawn on (2, 3)
      and a black pawn on (6, 5). The iterator yields seven plies in table
      order: the friendly pawn's square is skipped and the enemy pawn's square
      comes as a plain move. */
  method KnightIteratorScenario() returns (plies: seq<Ply>)
    ensures plies == ScenarioPlies()
  {
    var board := new Board();
    board.SetPiece(Position(4, 4), Occupied(White, Knight));
    board.SetPiece(Position(2, 3), Occupied(White, Pawn));
    board.SetPiece(Position(6, 5), Occupied(Black, Pawn));
    var from := Position(4, 4);
    plies := GetKnightPly(board, from);
    ScenarioYields(board.squares[..]);
  }
}
