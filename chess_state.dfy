/** The part of the chess board state that knight move generation reads. The
    Rust modules that define it (state/board.rs, state/position.rs,
    state/board_square.rs, state/piece.rs, state/mark.rs, state/ply.rs) are not
    part of this model; this module gives them the smallest form the knight
    generator and its test need. */
module ChessState {

  /** The side a piece belongs to. */
  datatype Mark = White | Black

  /** The kinds of chess piece. */
  datatype Piece = Pawn | Knight | Bishop | Rook | Queen | King

  /** The content of one square: empty, or a piece of one side. */
  datatype BoardSquare = EmptySquare | Occupied(mark: Mark, piece: Piece)

  /** A square as its two coordinates, `Position::new(x, y)`; in the test's
      diagram `x` is the row and `y` the column. */
  datatype Position = Position(x: int, y: int)

  /** A ply; only plain moves are needed here (`Ply::new_move`). */
  datatype Ply = Move(from: Position, to: Position)

  /** True for the 64 squares of the 8 x 8 board. */
  predicate OnBoard(p: Position)
  {
    0 <= p.x < 8 && 0 <= p.y < 8
  }

  /** Where a square's content is kept, row by row. */
  function SquareIndex(p: Position): (i: nat)
    requires OnBoard(p)
    ensures i < 64
    ensures i / 8 == p.x && i % 8 == p.y
  {
    p.x * 8 + p.y
  }

  /** The content of square `p` of a 64-entry board; nothing off the board. */
  function SquareAt(squares: seq<BoardSquare>, p: Position): BoardSquare
  {
    if OnBoard(p) && |squares| == 64 then squares[SquareIndex(p)] else EmptySquare
  }

  /** A chess board, updated in place by `set_piece`. */
  class Board {
    var squares: array<BoardSquare>

    ghost predicate Valid()
      reads this
    {
      squares.Length == 64
    }

    /** `Board::new()`: an empty board. */
    constructor ()
      ensures Valid() && fresh(squares)
      ensures forall p :: SquareAt(squares[..], p) == EmptySquare
    {
      squares := new BoardSquare[64](_ => EmptySquare);
    }

    /** `set_piece`: square `p` now holds `s`; every other square is unchanged. */
    method SetPiece(p: Position, s: BoardSquare)
      requires Valid() && OnBoard(p)
      modifies squares
      ensures Valid()
      ensures squares[..] == old(squares[..])[SquareIndex(p) := s]
      ensures SquareAt(squares[..], p) == s
      ensures forall q :: q != p ==> SquareAt(squares[..], q) == SquareAt(old(squares[..]), q)
    {
      squares[SquareIndex(p)] := s;
    }
  }
}
