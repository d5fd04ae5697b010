/** main.py: the first version of the engine, without check detection. Its
    move generator differs from the later scripts for the queen, and its click
    handler differs in how it selects a piece and in keeping the selection
    after a click on a square that is not a destination. */
module MainScript {
  import opened Chessboard
  import Moves

  /** get_possible_moves of main.py. Pawns, rooks, bishops, knights and kings
      follow the same rules as in the later scripts; a queen of either colour
      takes the moves of a white rook and then those of a white bishop, so a
      black queen treats black pieces as capturable and white pieces as
      blockers. */
  function PossibleMoves(b: Board, p: Piece, s: Square): (r: seq<Square>)
    requires InBounds(s)
    ensures forall t :: t in r ==> InBounds(t) && t != s
    ensures p.kind != Queen ==> r == Moves.PossibleMoves(b, p, s)
    ensures p.kind == Queen ==> r == Moves.PossibleMoves(b, Piece(White, Queen), s)
    ensures forall t :: t in r ==> !HoldsColor(b, t, if p.kind == Queen then White else p.color)
  {
    if p.kind == Queen then
      Moves.PossibleMoves(b, Piece(White, Rook), s) + Moves.PossibleMoves(b, Piece(White, Bishop), s)
    else
      Moves.PossibleMoves(b, p, s)
  }

  /** In the starting position the black queen on (0, 3) has the square of the
      black pawn in front of it, (1, 3), among its destinations. */
  lemma BlackQueenTakesOwnPawn()
    ensures HoldsColor(InitialBoard(), Square(1, 3), Black)
    ensures Square(1, 3) in PossibleMoves(InitialBoard(), Piece(Black, Queen), Square(0, 3))
    ensures Square(1, 3) !in Moves.PossibleMoves(InitialBoard(), Piece(Black, Queen), Square(0, 3))
  {
  }

  /** The outcome of evaluating a Python condition: a truth value, or an
      IndexError raised while evaluating it. */
  datatype Eval = Value(b: bool) | RaisesIndexError

  /** The selection test of the click handler. Python parses it as
      (piece != "" and turn is white and piece is white) or (turn is black and
      piece is black); the second operand reads the first letter of the piece
      even when the square is empty, which raises. */
  function SelectionTest(cell: Cell, turn: Color): (e: Eval)
    ensures e == RaisesIndexError <==> cell.None? && turn == Black
    ensures e.Value? ==> (e.b <==> OwnPiece(cell, turn))
  {
    if cell.Some? && turn == White && cell.value.color == White then Value(true)
    else if turn != Black then Value(false)
    else if cell.None? then RaisesIndexError
    else Value(cell.value.color == Black)
  }

  class Game {
    const board: array<Cell>
    var turn: Color
    var selectedPiece: Option<Piece>
    var selectedPos: Option<Square>

    /** A selected piece stands on the selected square and belongs to the
        side to move. */
    ghost predicate Valid()
      reads this, board
    {
      && board.Length == 64
      && (selectedPos.Some? ==> InBounds(selectedPos.value))
      && (selectedPiece.Some? ==>
            selectedPos.Some? && board[Idx(selectedPos.value)] == selectedPiece
            && selectedPiece.value.color == turn)
    }

    /** The module-level initial state: the starting position, White to move,
        nothing selected. */
    constructor ()
      ensures Valid()
      ensures board[..] == InitialBoard() && turn == White
      ensures selectedPiece.None? && selectedPos.None?
    {
      board := new Cell[64](i => if 0 <= i < 64 then InitialBoard()[i] else None);
      turn := White;
      selectedPiece, selectedPos := None, None;
      new;
      assert board[..] == InitialBoard();
    }

    /** A mouse click on (row, col). Without a selection, the selection test
        decides; when it raises, `raised` is set and nothing changes (the
        script stops there). With a selection, a destination of the selected
        piece receives it, the origin is emptied, the turn passes and the
        selected piece is dropped (the selected square is left as it was); a
        click anywhere else changes nothing, so the selection stays. */
    method Click(row: int, col: int) returns (raised: bool)
      requires Valid()
      requires 0 <= row < 8 && 0 <= col < 8
      modifies this, board
      ensures Valid()
      ensures var sq := Square(row, col);
              var cell := old(board[..])[Idx(sq)];
              if old(selectedPiece).None? then
                && board[..] == old(board[..]) && turn == old(turn)
                && (raised <==> cell.None? && old(turn) == Black)
                && if OwnPiece(cell, old(turn)) then
                     selectedPiece == cell && selectedPos == Some(sq)
                   else
                     selectedPiece.None? && selectedPos == old(selectedPos)
              else
                var piece, origin := old(selectedPiece).value, old(selectedPos).value;
                && !raised && selectedPos == old(selectedPos)
                && if sq in PossibleMoves(old(board[..]), piece, origin) then
                     && board[..] == Relocate(old(board[..]), piece, origin, sq)
                     && turn == Opponent(old(turn)) && selectedPiece.None?
                   else
                     board[..] == old(board[..]) && turn == old(turn) && selectedPiece == old(selectedPiece)
    {
      raised := false;
      var sq := Square(row, col);
      if selectedPiece.None? {
        var piece := board[Idx(sq)];
        var test := SelectionTest(piece, turn);
        if test == RaisesIndexError {
          return true;
        }
        if test.b {
          selectedPiece := piece;
          selectedPos := Some(sq);
        }
      } else {
        var moves := PossibleMoves(board[..], selectedPiece.value, selectedPos.value);
        if sq in moves {
          board[Idx(sq)] := selectedPiece;
          board[Idx(selectedPos.value)] := None;
          turn := Opponent(turn);
          selectedPiece := None;
        }
      }
    }
  }
}
