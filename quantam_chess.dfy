/** QuantamChess.py: the rules engine with the quantum move protocol. The
    script's globals (`board`, `turn`, the selection and the quantum state)
    become the fields of class `Game`; its keyboard and mouse handlers become
    the methods of that class. */
module QuantamChess {
  import opened Chessboard
  import Moves
  import opened Check

  /** The pawn branch of get_possible_moves, written with `direction` and
      `start_row` and with the two diagonal columns written out. */
  function PawnMoves(b: Board, c: Color, s: Square): (r: seq<Square>)
    requires InBounds(s)
    ensures r == Moves.PawnMoves(b, c, s)
  {
    var direction := if c == White then -1 else 1;
    var startRow := if c == White then 6 else 1;
    var opponent := if c == White then Black else White;
    var one := Square(s.row + direction, s.col);
    var two := Square(s.row + 2 * direction, s.col);
    (if 0 <= s.row + direction < 8 && IsEmpty(b, one) then [one] else [])
    + (if s.row == startRow && IsEmpty(b, one) && IsEmpty(b, two) then [two] else [])
    + (if HoldsColor(b, Square(s.row + direction, s.col - 1), opponent)
       then [Square(s.row + direction, s.col - 1)] else [])
    + (if HoldsColor(b, Square(s.row + direction, s.col + 1), opponent)
       then [Square(s.row + direction, s.col + 1)] else [])
  }

  /** A candidate square marked on the board blocks the ray it lies on: once
      the quantum piece is written on the square `k` steps along `d`, no square
      further along `d` is on that ray, so the second candidate, computed on
      the board that shows the first, cannot lie beyond it. */
  lemma GhostBlocksRay(b: Board, p: Piece, s: Square, d: Dir, k: int, m: int)
    requires InBounds(s) && Moves.UnitDir(d) && 1 <= k < m
    requires InBounds(Moves.Step(s, d, k))
    ensures Moves.Step(s, d, m) !in Moves.Ray(b[Idx(Moves.Step(s, d, k)) := Some(p)], p.color, s, d)
  {
    var g := b[Idx(Moves.Step(s, d, k)) := Some(p)];
    var t := Moves.Step(s, d, m);
    Moves.RayReaches(g, p.color, s, d, t);
  }

  /** Two rays from the same square meet only if they are the same ray, at
      the same distance. */
  lemma StepsMeet(s: Square, d: Dir, e: Dir, m: int, n: int)
    requires Moves.UnitDir(d) && Moves.UnitDir(e) && m >= 1 && n >= 1
    requires Moves.Step(s, d, m) == Moves.Step(s, e, n)
    ensures d == e && m == n
  {
  }

  /** The second candidate of a rook, bishop or queen cannot lie beyond the
      first along the same direction: the destinations are computed on the
      board that already shows the quantum piece on the first candidate, and
      that square blocks the ray it lies on (`GhostBlocksRay`), while no other
      direction leads to a square along `d`. */
  lemma GhostBlocksSecondCandidate(b: Board, p: Piece, s: Square, d: Dir, k: int, m: int)
    requires InBounds(s) && (p.kind == Rook || p.kind == Bishop || p.kind == Queen)
    requires d in Moves.SliderDirs(p.kind) && 1 <= k < m
    requires InBounds(Moves.Step(s, d, k))
    ensures Moves.Step(s, d, m) !in Moves.PossibleMoves(b[Idx(Moves.Step(s, d, k)) := Some(p)], p, s)
  {
    var g := b[Idx(Moves.Step(s, d, k)) := Some(p)];
    var t := Moves.Step(s, d, m);
    var dirs := Moves.SliderDirs(p.kind);
    Moves.SliderMoves(g, p, s, t);
    if Moves.SlidesTo(g, p.color, s, dirs, t) {
      var i :| 0 <= i < |dirs| && Moves.Reaches(g, p.color, s, dirs[i], t);
      var n :| n >= 1 && t == Moves.Step(s, dirs[i], n) && InBounds(t) && !HoldsColor(g, t, p.color)
               && forall j :: 1 <= j < n ==> IsEmpty(g, Moves.Step(s, dirs[i], j));
      // no other direction leads to a square along `d` ...
      StepsMeet(s, d, dirs[i], m, n);
      // ... and along `d` itself the first candidate blocks the ray
      GhostBlocksRay(b, p, s, d, k, m);
      Moves.RayReaches(g, p.color, s, d, t);
    }
  }

  /** What the main loop shows after a frame: the game goes on, a king is in
      check (shown only while no piece is selected), or a side has won. */
  datatype Verdict = Playing | CheckShown(side: Color) | Won(winner: Color)

  /** The win detection of the main loop: a missing king decides first (White's
      is looked at before Black's), then White in check without an escape,
      then Black in check without an escape. It does not look at whose turn it is. */
  ghost function FrameVerdict(b: Board, nothingSelected: bool): (v: Verdict)
    ensures v == Won(Black) <==>
              !HasKing(b, White) || (HasKing(b, Black) && IsInCheck(b, White) && !HasEscape(b, White))
    ensures v == Won(White) <==>
              HasKing(b, White)
              && (!HasKing(b, Black) || (!IsInCheck(b, White) && IsInCheck(b, Black) && !HasEscape(b, Black)))
    ensures v.CheckShown? ==> nothingSelected && IsInCheck(b, v.side) && HasEscape(b, v.side)
    // White's check is looked at first, so it is White's banner when both are in check
    ensures v.CheckShown? && IsInCheck(b, White) ==> v.side == White
    ensures v == Playing ==>
              HasKing(b, White) && HasKing(b, Black) && (!nothingSelected || (!IsInCheck(b, White) && !IsInCheck(b, Black)))
  {
    if !HasKing(b, White) then Won(Black)
    else if !HasKing(b, Black) then Won(White)
    else if IsInCheck(b, White) then
      (if !HasEscape(b, White) then Won(Black)
       else if nothingSelected then CheckShown(White) else Playing)
    else if IsInCheck(b, Black) then
      (if !HasEscape(b, Black) then Won(White)
       else if nothingSelected then CheckShown(Black) else Playing)
    else Playing
  }

  class Game {
    const board: array<Cell>
    var turn: Color
    var selectedPiece: Option<Piece>
    var selectedPos: Option<Square>
    var quantumMode: bool
    var quantumPiece: Option<Piece>
    var quantumPositions: seq<Square>
    var quantumBoard: map<Square, seq<Piece>>

    /** The invariant the handlers keep. A selected piece stands on the selected
        square and belongs to the side to move. A quantum piece exists only in
        quantum mode and belongs to the side to move. At most two distinct
        candidate squares are pending; each holds the quantum piece and has a
        ghost entry. While fewer than two are pending the selection is the
        quantum piece on its origin, which is not a candidate; once two are
        pending the selection is cleared. */
    ghost predicate Valid()
      reads this, board
    {
      && board.Length == 64
      && (selectedPos.Some? ==> InBounds(selectedPos.value))
      && (selectedPiece.Some? ==>
            selectedPos.Some? && board[Idx(selectedPos.value)] == selectedPiece
            && selectedPiece.value.color == turn)
      && (quantumPiece.Some? ==> quantumMode && quantumPiece.value.color == turn)
      && |quantumPositions| <= 2
      && (|quantumPositions| > 0 ==> quantumPiece.Some?)
      && (|quantumPositions| == 2 ==> quantumPositions[0] != quantumPositions[1])
      && (forall p :: p in quantumPositions ==>
            InBounds(p) && board[Idx(p)] == quantumPiece
            && p in quantumBoard && quantumBoard[p] == [quantumPiece.value])
      && (quantumPiece.Some? && |quantumPositions| < 2 ==>
            selectedPiece == quantumPiece && selectedPos.value !in quantumPositions)
      && (quantumPiece.Some? && |quantumPositions| == 2 ==> selectedPiece.None? && selectedPos.None?)
    }

    /** The module-level initial state: the starting position, White to move,
        nothing selected, quantum mode off. */
    constructor ()
      ensures Valid()
      ensures board[..] == InitialBoard() && turn == White
      ensures selectedPiece.None? && selectedPos.None?
      ensures !quantumMode && quantumPiece.None? && quantumPositions == [] && quantumBoard == map[]
    {
      board := new Cell[64](i => if 0 <= i < 64 then InitialBoard()[i] else None);
      turn := White;
      selectedPiece, selectedPos := None, None;
      quantumMode, quantumPiece, quantumPositions, quantumBoard := false, None, [], map[];
      new;
      assert board[..] == InitialBoard();
    }

    /** The win detection at the top of each frame (lines 249-278). It calls
        has_any_moves, which leaves the board as it found it. */
    method Judge() returns (v: Verdict)
      requires Valid()
      modifies board
      ensures Valid() && board[..] == old(board[..])
      ensures v == FrameVerdict(board[..], selectedPiece.None?)
    {
      if Some(Piece(White, King)) !in board[..] {
        return Won(Black);
      } else if Some(Piece(Black, King)) !in board[..] {
        return Won(White);
      }
      if IsInCheck(board[..], White) {
        var any := HasAnyMoves(board, White);
        if !any {
          v := Won(Black);
        } else if selectedPiece.None? {
          v := CheckShown(White);
        } else {
          v := Playing;
        }
      } else if IsInCheck(board[..], Black) {
        var any := HasAnyMoves(board, Black);
        if !any {
          v := Won(White);
        } else if selectedPiece.None? {
          v := CheckShown(Black);
        } else {
          v := Playing;
        }
      } else {
        v := Playing;
      }
    }

    /** Key Q: toggles quantum mode. Leaving it drops the pending quantum move and
        the selection; ghosts already written to the board and to the quantum
        board stay where they are. */
    method ToggleQuantumMode()
      requires Valid()
      modifies this
      ensures Valid()
      ensures quantumMode == !old(quantumMode)
      ensures board[..] == old(board[..]) && turn == old(turn) && quantumBoard == old(quantumBoard)
      ensures quantumMode ==>
                quantumPiece == old(quantumPiece) && quantumPositions == old(quantumPositions)
                && selectedPiece == old(selectedPiece) && selectedPos == old(selectedPos)
      ensures !quantumMode ==>
                quantumPiece.None? && quantumPositions == [] && selectedPiece.None? && selectedPos.None?
    {
      quantumMode := !quantumMode;
      if !quantumMode {
        quantumPiece := None;
        quantumPositions := [];
        selectedPiece := None;
        selectedPos := None;
      }
    }

    /** Key M: collapses a quantum piece with two pending candidates onto one of
        them, chosen at random; the other candidate is emptied, both ghost
        entries are deleted, quantum mode ends and the turn passes. In any other
        state the key does nothing. */
    method Collapse() returns (chosen: Option<Square>)
      requires Valid()
      modifies this, board
      ensures Valid()
      ensures old(quantumPiece).None? || |old(quantumPositions)| != 2 ==>
                chosen.None? && unchanged(this) && unchanged(board)
      ensures old(quantumPiece).Some? && |old(quantumPositions)| == 2 ==>
                var a, b := old(quantumPositions)[0], old(quantumPositions)[1];
                && chosen.Some? && (chosen.value == a || chosen.value == b)
                && var other := if chosen.value == a then b else a;
                && board[..] == old(board[..])[Idx(chosen.value) := old(quantumPiece)][Idx(other) := None]
                && quantumBoard == old(quantumBoard) - {a, b}
                && quantumPiece.None? && quantumPositions == [] && !quantumMode
                && selectedPiece.None? && selectedPos == old(selectedPos)
                && turn == Opponent(old(turn))
    {
      if quantumPiece.None? || |quantumPositions| != 2 {
        return None;
      }
      ghost var b0 := board[..];
      ghost var m0 := quantumBoard;
      assert quantumPositions[0] in quantumPositions;
      var c :| c in quantumPositions;
      var a, b := quantumPositions[0], quantumPositions[1];
      var other := if c == a then b else a;
      board[Idx(c)] := quantumPiece;
      ghost var b1 := board[..];
      for i := 0 to 2
        invariant quantumPositions == [a, b] && board.Length == 64
        invariant turn == old(turn) && quantumPiece == old(quantumPiece) && quantumMode == old(quantumMode)
        invariant selectedPiece == old(selectedPiece) && selectedPos == old(selectedPos)
        invariant i == 0 ==> board[..] == b1 && quantumBoard == m0
        invariant i == 1 ==> board[..] == (if a != c then b1[Idx(a) := None] else b1)
                             && quantumBoard == m0 - {a}
        invariant i == 2 ==> board[..] == b1[Idx(other) := None] && quantumBoard == m0 - {a, b}
      {
        var pos := quantumPositions[i];
        if pos != c {
          board[Idx(pos)] := None;
        }
        if pos in quantumBoard {
          quantumBoard := quantumBoard - {pos};
        }
      }
      quantumPiece := None;
      quantumPositions := [];
      selectedPiece := None;
      quantumMode := false;
      turn := Opponent(turn);
      return Some(c);
    }

    /** A click in quantum mode with no quantum piece yet: an own piece becomes
        the quantum piece and the selection. When it has exactly one destination
        it is moved there at once (origin emptied first), the turn passes and
        quantum mode ends. A click on anything else does nothing. */
    method PickUp(row: int, col: int)
      requires Valid() && quantumMode && quantumPiece.None?
      requires 0 <= row < 8 && 0 <= col < 8
      modifies this, board
      ensures Valid()
      ensures quantumBoard == old(quantumBoard) && quantumPositions == old(quantumPositions)
      ensures var sq := Square(row, col);
              var cell := old(board[..])[Idx(sq)];
              if !OwnPiece(cell, old(turn)) then
                unchanged(this) && unchanged(board)
              else
                var moves := Moves.PossibleMoves(old(board[..]), cell.value, sq);
                if |moves| == 1 then
                  && board[..] == old(board[..])[Idx(sq) := None][Idx(moves[0]) := cell]
                  && turn == Opponent(old(turn)) && !quantumMode && quantumPiece.None?
                  && selectedPiece.None? && selectedPos.None? && quantumPositions == []
                else
                  && board[..] == old(board[..]) && turn == old(turn) && quantumMode
                  && quantumPiece == cell && selectedPiece == cell && selectedPos == Some(sq)
    {
      var sq := Square(row, col);
      var cell := board[Idx(sq)];
      if OwnPiece(cell, turn) {
        quantumPiece := cell;
        selectedPos := Some(sq);
        selectedPiece := cell;
        var validMoves := Moves.PossibleMoves(board[..], cell.value, sq);
        if |validMoves| == 1 {
          var onlyPos := validMoves[0];
          board[Idx(sq)] := None;
          board[Idx(onlyPos)] := cell;
          quantumPiece := None;
          quantumPositions := [];
          selectedPiece := None;
          selectedPos := None;
          quantumMode := false;
          turn := Opponent(turn);
        }
      }
    }

    /** A click in quantum mode once a quantum piece is picked up: a destination
        of the piece from its origin, computed on the current board (which
        already shows any earlier candidate), that is not yet a candidate
        becomes one: the piece is written there and a ghost entry recorded. On
        the second candidate the origin is emptied and the selection cleared.
        Any other click does nothing. The script crashes on a click after the
        second candidate (the origin is then None), so that state is excluded. */
    method MarkCandidate(row: int, col: int)
      requires Valid() && quantumMode && quantumPiece.Some? && |quantumPositions| < 2
      requires 0 <= row < 8 && 0 <= col < 8
      modifies this, board
      ensures Valid()
      ensures quantumMode && quantumPiece == old(quantumPiece) && turn == old(turn)
      ensures var sq := Square(row, col);
              var p := old(quantumPiece).value;
              var origin := old(selectedPos).value;
              if sq in old(quantumPositions) || sq !in Moves.PossibleMoves(old(board[..]), p, origin) then
                unchanged(this) && unchanged(board)
              else
                && quantumPositions == old(quantumPositions) + [sq]
                && quantumBoard == old(quantumBoard)[sq := [p]]
                && if |quantumPositions| == 2 then
                     && board[..] == old(board[..])[Idx(sq) := Some(p)][Idx(origin) := None]
                     && selectedPiece.None? && selectedPos.None?
                   else
                     && board[..] == old(board[..])[Idx(sq) := Some(p)]
                     && selectedPiece == old(selectedPiece) && selectedPos == old(selectedPos)
    {
      var sq := Square(row, col);
      var origin := selectedPos.value;
      var validMoves := Moves.PossibleMoves(board[..], quantumPiece.value, origin);
      if sq !in quantumPositions && sq in validMoves {
        quantumPositions := quantumPositions + [sq];
        board[Idx(sq)] := quantumPiece;
        quantumBoard := quantumBoard[sq := [quantumPiece.value]];
        if |quantumPositions| == 2 {
          board[Idx(origin)] := None;
          selectedPiece := None;
          selectedPos := None;
        }
      }
    }

    /** A click outside quantum mode. Without a selection, a piece of the side to
        move becomes the selection. With one, a destination of the selected
        piece receives it, the origin is emptied and the turn passes; any other
        square leaves board and turn alone. Either way the selected piece is
        dropped (the selected square is left as it was). */
    method ClassicalClick(row: int, col: int)
      requires Valid() && !quantumMode
      requires 0 <= row < 8 && 0 <= col < 8
      modifies this, board
      ensures Valid()
      ensures !quantumMode && quantumPiece == old(quantumPiece)
      ensures quantumPositions == old(quantumPositions) && quantumBoard == old(quantumBoard)
      ensures var sq := Square(row, col);
              var cell := old(board[..])[Idx(sq)];
              if old(selectedPiece).None? then
                && board[..] == old(board[..]) && turn == old(turn)
                && if OwnPiece(cell, old(turn)) then
                     selectedPiece == cell && selectedPos == Some(sq)
                   else
                     selectedPiece.None? && selectedPos == old(selectedPos)
              else
                var piece, origin := old(selectedPiece).value, old(selectedPos).value;
                && selectedPiece.None? && selectedPos == old(selectedPos)
                && if sq in Moves.PossibleMoves(old(board[..]), piece, origin) then
                     board[..] == Relocate(old(board[..]), piece, origin, sq) && turn == Opponent(old(turn))
                   else
                     board[..] == old(board[..]) && turn == old(turn)
    {
      var sq := Square(row, col);
      if selectedPiece.None? {
        var piece := board[Idx(sq)];
        if OwnPiece(piece, turn) {
          selectedPiece := piece;
          selectedPos := Some(sq);
        }
      } else {
        var moves := Moves.PossibleMoves(board[..], selectedPiece.value, selectedPos.value);
        if sq in moves {
          board[Idx(sq)] := selectedPiece;
          board[Idx(selectedPos.value)] := None;
          turn := Opponent(turn);
        }
        selectedPiece := None;
      }
    }
  }
}
