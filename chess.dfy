/** Chess.py: the classical engine. Its move generator and its check and
    escape tests behave exactly like those of QuantamChess.py and are shared
    (modules Moves and Check); what is its own is the click handler and the
    end-of-frame victory and checkmate logic, held by class `Game`. */
module Chess {
  import opened Chessboard
  import opened Moves
  import opened Check

  /** The messages the end of a frame draws before the game stops. */
  datatype EndMessage = KingGone(winner: Color) | Checkmate(winner: Color)

  /** The victory check and then the checkmate check at the end of a frame. A
      missing white king makes Black the winner, else a missing black king
      makes White the winner; independently, the side to move being in check
      with no escape names the other side. Both messages can be drawn in one
      frame, since nothing skips the second check after the first. */
  ghost function EndMessages(b: Board, turn: Color): (r: seq<EndMessage>)
    ensures |r| <= 2
    ensures KingGone(Black) in r <==> !HasKing(b, White)
    ensures KingGone(White) in r <==> HasKing(b, White) && !HasKing(b, Black)
    ensures (exists w :: Checkmate(w) in r) <==> IsInCheck(b, turn) && !HasEscape(b, turn)
    ensures forall w :: Checkmate(w) in r ==> w == Opponent(turn)
  {
    (if !HasKing(b, White) then [KingGone(Black)]
     else if !HasKing(b, Black) then [KingGone(White)]
     else [])
    + (if IsInCheck(b, turn) && !HasEscape(b, turn) then [Checkmate(Opponent(turn))] else [])
  }

  /** A checkmate is announced only for a side to move that has a king, whose
      square some opposing piece can move to, and none of whose moves leads
      out of check. */
  lemma CheckmateMeans(b: Board, turn: Color, w: Color)
    requires Checkmate(w) in EndMessages(b, turn)
    ensures w == Opponent(turn) && HasKing(b, turn)
    ensures exists j :: 0 <= j < 64 && Attacks(b, turn, j, FindKing(b, turn).value)
    ensures forall i :: 0 <= i < 64 && b[i].Some? && b[i].value.color == turn ==>
              forall t :: t in PossibleMoves(b, b[i].value, SquareAt(i)) ==>
                IsInCheck(Relocate(b, b[i].value, SquareAt(i), t), turn)
  {
    assert IsInCheck(b, turn) && !HasEscape(b, turn);
    IsInCheckSpec(b, turn);
    forall i | 0 <= i < 64 && b[i].Some? && b[i].value.color == turn
      ensures forall t :: t in PossibleMoves(b, b[i].value, SquareAt(i)) ==>
                IsInCheck(Relocate(b, b[i].value, SquareAt(i), t), turn)
    {
      assert !Escapes(b, turn, i);
    }
  }

  /** When the side to move has no king, exactly one message is drawn, the one
      for the missing king, and no checkmate. */
  lemma NoKingNoCheckmate(b: Board, turn: Color)
    requires !HasKing(b, turn)
    ensures |EndMessages(b, turn)| == 1 && EndMessages(b, turn)[0].KingGone?
  {
    IsInCheckSpec(b, turn);
  }

  class Game {
    const board: array<Cell>
    var turn: Color
    var selectedPiece: Option<Piece>
    var selectedPos: Option<Square>

    /** A selected piece stands on the selected square and belongs to the
        side to move. */
    ghost predicate Valid()
      reads this, board
    {
      && board.Length == 64
      && (selectedPos.Some? ==> InBounds(selectedPos.value))
      && (selectedPiece.Some? ==>
            selectedPos.Some? && board[Idx(selectedPos.value)] == selectedPiece
            && selectedPiece.value.color == turn)
    }

    /** The module-level initial state: the starting position, White to move,
        nothing selected. */
    constructor ()
      ensures Valid()
      ensures board[..] == InitialBoard() && turn == White
      ensures selectedPiece.None? && selectedPos.None?
    {
      board := new Cell[64](i => if 0 <= i < 64 then InitialBoard()[i] else None);
      turn := White;
      selectedPiece, selectedPos := None, None;
      new;
      assert board[..] == InitialBoard();
    }

    /** A mouse click on (row, col). Without a selection, a piece of the side
        to move becomes the selection. With one, a destination of the selected
        piece receives it, the origin is emptied and the turn passes; any other
        square leaves board and turn alone. Either way the selected piece is
        dropped (the selected square is left as it was). */
    method Click(row: int, col: int)
      requires Valid()
      requires 0 <= row < 8 && 0 <= col < 8
      modifies this, board
      ensures Valid()
      ensures var sq := Square(row, col);
              var cell := old(board[..])[Idx(sq)];
              if old(selectedPiece).None? then
                && board[..] == old(board[..]) && turn == old(turn)
                && if OwnPiece(cell, old(turn)) then
                     selectedPiece == cell && selectedPos == Some(sq)
                   else
                     selectedPiece.None? && selectedPos == old(selectedPos)
              else
                var piece, origin := old(selectedPiece).value, old(selectedPos).value;
                && selectedPiece.None? && selectedPos == old(selectedPos)
                && if sq in PossibleMoves(old(board[..]), piece, origin) then
                     board[..] == Relocate(old(board[..]), piece, origin, sq) && turn == Opponent(old(turn))
                   else
                     board[..] == old(board[..]) && turn == old(turn)
    {
      var sq := Square(row, col);
      if selectedPiece.None? {
        var piece := board[Idx(sq)];
        if OwnPiece(piece, turn) {
          selectedPiece := piece;
          selectedPos := Some(sq);
        }
      } else {
        var moves := PossibleMoves(board[..], selectedPiece.value, selectedPos.value);
        if sq in moves {
          board[Idx(sq)] := selectedPiece;
          board[Idx(selectedPos.value)] := None;
          turn := Opponent(turn);
        }
        selectedPiece := None;
      }
    }

    /** The end of a frame: the victory check, then the checkmate check for the
        side to move, which tries its moves on the board and takes them back. */
    method EndOfFrame() returns (msgs: seq<EndMessage>)
      requires Valid()
      modifies board
      ensures Valid() && board[..] == old(board[..])
      ensures msgs == EndMessages(board[..], turn)
    {
      msgs := [];
      if Some(Piece(White, King)) !in board[..] {
        msgs := [KingGone(Black)];
      } else if Some(Piece(Black, King)) !in board[..] {
        msgs := [KingGone(White)];
      }
      if IsInCheck(board[..], turn) {
        var any := HasAnyMoves(board, turn);
        if !any {
          msgs := msgs + [Checkmate(Opponent(turn))];
        }
      }
    }
  }
}
