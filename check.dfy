/** Check and escape detection, the same in QuantamChess.py (`is_in_check`,
    `has_any_moves`) and Chess.py (`is_king_in_check`, `has_legal_moves`):
    a king is in check when its square is among the moves of an opposing
    piece, and a side can escape when one of its moves, tried on the board and
    then taken back, leaves its king out of check. */
module Check {
  import opened Chessboard
  import opened Moves

  /** The piece on index `i` belongs to the opponent of `c` and has `k` among
      its moves. */
  predicate Attacks(b: Board, c: Color, i: int, k: Square)
    requires 0 <= i < 64
  {
    b[i].Some? && b[i].value.color != c && k in PossibleMoves(b, b[i].value, SquareAt(i))
  }

  /** The scan over the opposing pieces from index `i` on, stopping at the
      first whose moves contain `k`. */
  function AttackedFrom(b: Board, c: Color, k: Square, i: nat): bool
    requires i <= 64
    decreases 64 - i
  {
    if i == 64 then false
    else if Attacks(b, c, i, k) then true
    else AttackedFrom(b, c, k, i + 1)
  }

  lemma {:induction false} AttackedFromSpec(b: Board, c: Color, k: Square, i: nat)
    requires i <= 64
    ensures AttackedFrom(b, c, k, i) <==> exists j :: i <= j < 64 && Attacks(b, c, j, k)
    decreases 64 - i
  {
    if i < 64 && !Attacks(b, c, i, k) {
      AttackedFromSpec(b, c, k, i + 1);
    }
  }

  /** is_in_check / is_king_in_check: find the king of colour `c`, then scan
      the opposing pieces. */
  function IsInCheck(b: Board, c: Color): bool {
    match FindKing(b, c)
    case None => false
    case Some(k) => AttackedFrom(b, c, k, 0)
  }

  /** A side without a king is never in check; otherwise it is in check
      exactly when some opposing piece has the square of its first king in
      row-major order among its moves. */
  lemma IsInCheckSpec(b: Board, c: Color)
    ensures !HasKing(b, c) ==> !IsInCheck(b, c)
    ensures FindKing(b, c).Some? <==> HasKing(b, c)
    ensures HasKing(b, c) ==>
              var k := FindKing(b, c).value;
              && InBounds(k) && b[Idx(k)] == Some(Piece(c, King))
              && (IsInCheck(b, c) <==> exists j :: 0 <= j < 64 && Attacks(b, c, j, k))
  {
    FindKingSpec(b, c);
    if HasKing(b, c) {
      AttackedFromSpec(b, c, FindKing(b, c).value, 0);
    }
  }

  /** Moving the piece of colour `c` on index `i` to one of its destinations
      leaves `c` out of check. */
  ghost predicate Escapes(b: Board, c: Color, i: int)
    requires 0 <= i < 64
  {
    b[i].Some? && b[i].value.color == c
    && exists t :: t in PossibleMoves(b, b[i].value, SquareAt(i))
                   && !IsInCheck(Relocate(b, b[i].value, SquareAt(i), t), c)
  }

  /** Colour `c` has some move after which it is not in check. */
  ghost predicate HasEscape(b: Board, c: Color) {
    exists i :: 0 <= i < 64 && Escapes(b, c, i)
  }

  /** Every destination in `ts` leaves colour `c` in check when the piece `p`
      on `from` is moved there. */
  ghost predicate AllInCheck(b: Board, c: Color, p: Piece, from: Square, ts: seq<Square>)
    requires InBounds(from) && forall t :: t in ts ==> InBounds(t)
    decreases |ts|
  {
    |ts| == 0
    || (AllInCheck(b, c, p, from, ts[..|ts| - 1]) && IsInCheck(Relocate(b, p, from, ts[|ts| - 1]), c))
  }

  lemma {:induction false} AllInCheckMeans(b: Board, c: Color, p: Piece, from: Square, ts: seq<Square>)
    requires InBounds(from) && forall t :: t in ts ==> InBounds(t)
    ensures AllInCheck(b, c, p, from, ts) <==> forall t :: t in ts ==> IsInCheck(Relocate(b, p, from, t), c)
    decreases |ts|
  {
    if |ts| > 0 {
      var init, last := ts[..|ts| - 1], ts[|ts| - 1];
      assert ts == init + [last];
      AllInCheckMeans(b, c, p, from, init);
      if AllInCheck(b, c, p, from, ts) {
        forall t | t in ts
          ensures IsInCheck(Relocate(b, p, from, t), c)
        {
          if t != last {
            assert t in init;
          }
        }
      } else if AllInCheck(b, c, p, from, init) {
        assert last in ts && !IsInCheck(Relocate(b, p, from, last), c);
      } else {
        var t :| t in init && !IsInCheck(Relocate(b, p, from, t), c);
        assert t in ts;
      }
    }
  }

  /** A destination at position `j` that leaves colour `c` out of check
      falsifies the record of failed trials. */
  lemma EscapeFound(b: Board, c: Color, p: Piece, from: Square, ts: seq<Square>, j: int)
    requires InBounds(from) && forall t :: t in ts ==> InBounds(t)
    requires 0 <= j < |ts| && !IsInCheck(Relocate(b, p, from, ts[j]), c)
    ensures !AllInCheck(b, c, p, from, ts)
  {
    AllInCheckMeans(b, c, p, from, ts);
    assert ts[j] in ts;
  }

  /** One trial: the piece on `from` is written on `to`, `from` is emptied,
      check is tested, and both cells are put back. */
  method TryMove(board: array<Cell>, color: Color, piece: Piece, from: Square, to: Square)
    returns (inCheck: bool)
    requires board.Length == 64 && InBounds(from) && InBounds(to) && board[Idx(from)] == Some(piece)
    modifies board
    ensures board[..] == old(board[..])
    ensures inCheck == IsInCheck(Relocate(old(board[..]), piece, from, to), color)
  {
    ghost var b0: Board := board[..];
    var saved := board[Idx(to)];
    board[Idx(to)] := board[Idx(from)];
    board[Idx(from)] := None;
    assert board[..] == Relocate(b0, piece, from, to);
    inCheck := IsInCheck(board[..], color);
    board[Idx(from)] := board[Idx(to)];
    board[Idx(to)] := saved;
    assert board[..] == b0;
  }

  /** The innermost loop: the destinations in `moves` are tried in turn until
      one leaves `color` out of check. */
  method TryMoves(board: array<Cell>, color: Color, piece: Piece, from: Square, moves: seq<Square>)
    returns (found: bool)
    requires board.Length == 64 && InBounds(from) && board[Idx(from)] == Some(piece)
    requires forall t :: t in moves ==> InBounds(t)
    modifies board
    ensures board[..] == old(board[..])
    ensures found <==> !AllInCheck(old(board[..]), color, piece, from, moves)
  {
    ghost var b0: Board := board[..];
    for j := 0 to |moves|
      invariant board[..] == b0
      invariant AllInCheck(b0, color, piece, from, moves[..j])
    {
      var inCheck := TryMove(board, color, piece, from, moves[j]);
      if !inCheck {
        EscapeFound(b0, color, piece, from, moves, j);
        return true;
      }
      assert moves[..j + 1][..j] == moves[..j] && moves[..j + 1][j] == moves[j];
      assert AllInCheck(b0, color, piece, from, moves[..j + 1]);
    }
    assert moves[..|moves|] == moves;
    return false;
  }

  /** The body of the two outer loops for the square `from`: a piece of
      `color` there has its moves tried. */
  method TryPiece(board: array<Cell>, color: Color, from: Square) returns (found: bool)
    requires board.Length == 64 && InBounds(from)
    modifies board
    ensures board[..] == old(board[..])
    ensures found <==> Escapes(board[..], color, Idx(from))
  {
    var cell := board[Idx(from)];
    if cell.None? || cell.value.color != color {
      return false;
    }
    var moves := PossibleMoves(board[..], cell.value, from);
    found := TryMoves(board, color, cell.value, from, moves);
    AllInCheckMeans(old(board[..]), color, cell.value, from, moves);
  }

  /** has_any_moves / has_legal_moves: tries every move of every piece of
      `color` on the board itself, restoring both cells after each trial, and
      answers whether some trial leaves `color` out of check. */
  method HasAnyMoves(board: array<Cell>, color: Color) returns (found: bool)
    requires board.Length == 64
    modifies board
    ensures board[..] == old(board[..])
    ensures found <==> HasEscape(board[..], color)
  {
    ghost var b0: Board := board[..];
    for r := 0 to 8
      invariant board[..] == b0
      invariant forall i :: 0 <= i < r * 8 ==> !Escapes(b0, color, i)
    {
      for c := 0 to 8
        invariant board[..] == b0
        invariant forall i :: 0 <= i < r * 8 + c ==> !Escapes(b0, color, i)
      {
        var any := TryPiece(board, color, Square(r, c));
        if any {
          return true;
        }
      }
    }
    return false;
  }
}
