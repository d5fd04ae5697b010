/** The data shared by the three copies of the engine: colours, pieces, squares
    and the 8x8 board, flattened row-major into 64 optional cells. The source
    spells a piece as a two-letter string ("wp", "bk", ...) and an empty square
    as ""; here a piece is a (colour, kind) pair and an empty square is None. */
module Chessboard {

  datatype Option<T> = None | Some(value: T)

  datatype Color = White | Black

  datatype Kind = Pawn | Rook | Knight | Bishop | Queen | King

  datatype Piece = Piece(color: Color, kind: Kind)

  type Cell = Option<Piece>

  /** A board square; row 0 is Black's back rank, row 7 White's. Squares off
      the board are representable, since the move generators compute them
      before testing bounds. */
  datatype Square = Square(row: int, col: int)

  /** A step or an offset on the board. */
  datatype Dir = Dir(dr: int, dc: int)

  type Board = b: seq<Cell> | |b| == 64 witness seq(64, _ => None)

  function Opponent(c: Color): (o: Color)
    ensures o != c
  {
    if c == White then Black else White
  }

  predicate InBounds(s: Square) {
    0 <= s.row < 8 && 0 <= s.col < 8
  }

  /** Row-major position of a square in a board. */
  function Idx(s: Square): (i: nat)
    requires InBounds(s)
    ensures i < 64 && SquareAt(i) == s
  {
    s.row * 8 + s.col
  }

  function SquareAt(i: nat): (s: Square)
    requires i < 64
    ensures InBounds(s)
  {
    Square(i / 8, i % 8)
  }


  /** The square is on the board and empty (the source's `board[r][c] == ""`). */
  predicate IsEmpty(b: Board, s: Square) {
    InBounds(s) && b[Idx(s)].None?
  }

  /** The square is on the board and holds a piece of colour `c`. */
  predicate HoldsColor(b: Board, s: Square, c: Color) {
    InBounds(s) && b[Idx(s)].Some? && b[Idx(s)].value.color == c
  }

  function Shift(s: Square, d: Dir): Square {
    Square(s.row + d.dr, s.col + d.dc)
  }

  /** The cell holds a piece of the side to move, the condition under which a
      click selects it. */
  predicate OwnPiece(cell: Cell, turn: Color) {
    cell.Some? && cell.value.color == turn
  }

  /** The board after `p` is written on `to` and then `from` is emptied, in the
      order in which the classical click handlers and the trial moves of the
      check test do it. The quantum pick-up with a single destination writes
      in the other order, which gives the same board when the squares differ. */
  function Relocate(b: Board, p: Piece, from: Square, to: Square): (r: Board)
    requires InBounds(from) && InBounds(to)
    ensures r[Idx(from)] == None
    ensures from != to ==> r[Idx(to)] == Some(p)
    ensures forall i :: 0 <= i < 64 && i != Idx(from) && i != Idx(to) ==> r[i] == b[i]
  {
    b[Idx(to) := Some(p)][Idx(from) := None]
  }

  /** The board must contain the king of colour `c` somewhere. */
  predicate HasKing(b: Board, c: Color) {
    Some(Piece(c, King)) in b
  }

  /** The first square in row-major order that holds the king of colour `c`,
      scanning from index `i`. */
  function FindKingFrom(b: Board, c: Color, i: nat): Option<Square>
    requires i <= 64
    decreases 64 - i
  {
    if i == 64 then None
    else if b[i] == Some(Piece(c, King)) then Some(SquareAt(i))
    else FindKingFrom(b, c, i + 1)
  }

  /** find_king: the scan from the top-left corner. */
  function FindKing(b: Board, c: Color): Option<Square> {
    FindKingFrom(b, c, 0)
  }

  /** The scan from `i` answers the first index at or after `i` holding the
      king, and None exactly when there is none from `i` on. */
  lemma {:induction false} FindKingFromSpec(b: Board, c: Color, i: nat)
    requires i <= 64
    ensures var k := FindKingFrom(b, c, i);
            && (k.Some? ==> InBounds(k.value) && i <= Idx(k.value)
                            && b[Idx(k.value)] == Some(Piece(c, King))
                            && forall j :: i <= j < Idx(k.value) ==> b[j] != Some(Piece(c, King)))
            && (k.None? <==> forall j :: i <= j < 64 ==> b[j] != Some(Piece(c, King)))
    decreases 64 - i
  {
    if i < 64 && b[i] != Some(Piece(c, King)) {
      FindKingFromSpec(b, c, i + 1);
    }
  }

  /** find_king answers the first square in row-major order holding the king
      of colour `c`, and None exactly when the board has no such king. */
  lemma FindKingSpec(b: Board, c: Color)
    ensures var k := FindKing(b, c);
            && (k.Some? ==> InBounds(k.value) && b[Idx(k.value)] == Some(Piece(c, King))
                            && forall j :: 0 <= j < Idx(k.value) ==> b[j] != Some(Piece(c, King)))
            && (k.None? <==> !HasKing(b, c))
  {
    FindKingFromSpec(b, c, 0);
    if HasKing(b, c) {
      var j :| 0 <= j < 64 && b[j] == Some(Piece(c, King));
    }
  }

  function BackRank(col: int): Kind
    requires 0 <= col < 8
  {
    [Rook, Knight, Bishop, Queen, King, Bishop, Knight, Rook][col]
  }

  function InitialCell(row: int, col: int): Cell
    requires 0 <= row < 8 && 0 <= col < 8
  {
    if row == 0 then Some(Piece(Black, BackRank(col)))
    else if row == 1 then Some(Piece(Black, Pawn))
    else if row == 6 then Some(Piece(White, Pawn))
    else if row == 7 then Some(Piece(White, BackRank(col)))
    else None
  }

  /** The standard starting position the three scripts set up. */
  function InitialBoard(): (b: Board)
    ensures forall i :: 0 <= i < 64 ==> b[i] == InitialCell(i / 8, i % 8)
  {
    seq(64, i requires 0 <= i < 64 => InitialCell(i / 8, i % 8))
  }
}
