/** Building blocks of `get_possible_moves` that the three scripts share: the
    sliding ray of rooks and bishops, the fixed offsets of knights and kings,
    and the pawn rules as main.py and Chess.py write them. Each block takes the
    colour `own` that the script compares occupants against: a square holding a
    piece of colour `own` blocks, any other piece may be captured. */
module Moves {
  import opened Chessboard

  /** A unit step: each component in -1..1 and not both zero. */
  predicate UnitDir(d: Dir) {
    -1 <= d.dr <= 1 && -1 <= d.dc <= 1 && d != Dir(0, 0)
  }

  function Scale(k: int, x: int): int
    requires -1 <= x <= 1
  {
    if x == 0 then 0 else if x > 0 then k else -k
  }

  /** The square `k` unit steps along `d` from `s`. */
  function Step(s: Square, d: Dir, k: int): Square
    requires UnitDir(d)
  {
    Square(s.row + Scale(k, d.dr), s.col + Scale(k, d.dc))
  }

  /** How many more steps a coordinate `x` can take in direction `dx` before
      it leaves the board (0 when it does not move). */
  function Reach(x: int, dx: int): int {
    if dx > 0 then 8 - x else if dx < 0 then x + 1 else 0
  }

  /** One ray of a sliding piece standing on `s`: the `while True` loop that
      steps `r, c` by `dr, dc`, appends each empty square, appends the first
      occupied square only when it does not hold colour `own`, and stops there
      or at the edge of the board. */
  function Ray(b: Board, own: Color, s: Square, d: Dir): (r: seq<Square>)
    requires InBounds(s) && UnitDir(d)
    // the k-th square of the ray is k steps from the origin and on the board
    ensures forall i :: 0 <= i < |r| ==> r[i] == Step(s, d, i + 1) && InBounds(r[i])
    // every square before the last one is empty
    ensures forall i :: 0 <= i < |r| - 1 ==> IsEmpty(b, r[i])
    // the last square is empty or holds a capturable piece
    ensures |r| > 0 ==> !HoldsColor(b, r[|r| - 1], own)
    // the ray goes as far as it may: after an empty last square (or none at all)
    // comes the edge of the board or a piece of colour `own`; after a capture, nothing
    ensures |r| == 0 || IsEmpty(b, r[|r| - 1]) ==>
              !InBounds(Step(s, d, |r| + 1)) || HoldsColor(b, Step(s, d, |r| + 1), own)
    decreases Reach(s.row, d.dr) + Reach(s.col, d.dc)
  {
    var n := Shift(s, d);
    assert n == Step(s, d, 1);
    if !InBounds(n) then []
    else if b[Idx(n)].None? then
      var rest := Ray(b, own, n, d);
      assert forall k :: Step(n, d, k) == Step(s, d, k + 1);
      [n] + rest
    else if b[Idx(n)].value.color != own then [n]
    else []
  }

  /** What every square of a ray satisfies: on the board, not the origin, and
      not holding colour `own`. */
  lemma RaySquare(b: Board, own: Color, s: Square, d: Dir, t: Square)
    requires InBounds(s) && UnitDir(d) && t in Ray(b, own, s, d)
    ensures InBounds(t) && t != s && !HoldsColor(b, t, own)
  {
    var r := Ray(b, own, s, d);
    var i :| 0 <= i < |r| && r[i] == t;
    if i < |r| - 1 {
      assert IsEmpty(b, r[i]);
    }
  }

  /** The reference description of what a slider reaches along `d`: the square
      `k` steps away, on the board and not holding colour `own`, with every
      square strictly between it and the origin empty. */
  ghost predicate Reaches(b: Board, own: Color, s: Square, d: Dir, t: Square)
    requires UnitDir(d)
  {
    exists k :: k >= 1 && t == Step(s, d, k) && InBounds(t) && !HoldsColor(b, t, own)
                && forall m :: 1 <= m < k ==> IsEmpty(b, Step(s, d, m))
  }

  /** A square `k` steps away that the reference description allows is on
      the ray. */
  lemma {:induction false} ReachedOnRay(b: Board, own: Color, s: Square, d: Dir, k: int)
    requires InBounds(s) && UnitDir(d) && k >= 1
    requires InBounds(Step(s, d, k)) && !HoldsColor(b, Step(s, d, k), own)
    requires forall m :: 1 <= m < k ==> IsEmpty(b, Step(s, d, m))
    ensures Step(s, d, k) in Ray(b, own, s, d)
    decreases Reach(s.row, d.dr) + Reach(s.col, d.dc)
  {
    var n := Shift(s, d);
    assert n == Step(s, d, 1);
    if k > 1 {
      assert IsEmpty(b, n);
      assert forall j :: Step(n, d, j) == Step(s, d, j + 1);
      assert forall m :: 1 <= m < k - 1 ==> IsEmpty(b, Step(n, d, m)) by {
        forall m | 1 <= m < k - 1 ensures IsEmpty(b, Step(n, d, m)) {
          assert IsEmpty(b, Step(s, d, m + 1));
        }
      }
      ReachedOnRay(b, own, n, d, k - 1);
    }
  }

  /** The ray contains exactly the squares the reference description allows:
      the empty squares up to the first occupied one, that one iff it may be
      captured, and nothing beyond. */
  lemma RayReaches(b: Board, own: Color, s: Square, d: Dir, t: Square)
    requires InBounds(s) && UnitDir(d)
    ensures t in Ray(b, own, s, d) <==> Reaches(b, own, s, d, t)
  {
    var r := Ray(b, own, s, d);
    if t in r {
      var i :| 0 <= i < |r| && r[i] == t;
      RaySquare(b, own, s, d, t);
      assert forall m :: 1 <= m < i + 1 ==> IsEmpty(b, Step(s, d, m)) by {
        forall m | 1 <= m < i + 1 ensures IsEmpty(b, Step(s, d, m)) {
          assert r[m - 1] == Step(s, d, m);
        }
      }
    }
    if Reaches(b, own, s, d, t) {
      var k :| k >= 1 && t == Step(s, d, k) && InBounds(t) && !HoldsColor(b, t, own)
               && forall m :: 1 <= m < k ==> IsEmpty(b, Step(s, d, m));
      ReachedOnRay(b, own, s, d, k);
    }
  }

  /** The rays of a sliding piece, one direction after the other. */
  function Slide(b: Board, own: Color, s: Square, dirs: seq<Dir>): (r: seq<Square>)
    requires InBounds(s) && forall i :: 0 <= i < |dirs| ==> UnitDir(dirs[i])
    ensures forall t :: t in r ==> InBounds(t) && t != s && !HoldsColor(b, t, own)
  {
    if dirs == [] then []
    else
      var first := Ray(b, own, s, dirs[0]);
      assert forall t :: t in first ==> InBounds(t) && t != s && !HoldsColor(b, t, own) by {
        forall t | t in first ensures InBounds(t) && t != s && !HoldsColor(b, t, own) {
          RaySquare(b, own, s, dirs[0], t);
        }
      }
      first + Slide(b, own, s, dirs[1..])
  }

  /** A slider reaches `t` along one of `dirs`. */
  ghost predicate SlidesTo(b: Board, own: Color, s: Square, dirs: seq<Dir>, t: Square)
    requires forall i :: 0 <= i < |dirs| ==> UnitDir(dirs[i])
  {
    exists i :: 0 <= i < |dirs| && Reaches(b, own, s, dirs[i], t)
  }

  /** The rays together hold exactly the squares some direction reaches. */
  lemma {:induction false} SlideReaches(b: Board, own: Color, s: Square, dirs: seq<Dir>, t: Square)
    requires InBounds(s) && forall i :: 0 <= i < |dirs| ==> UnitDir(dirs[i])
    ensures t in Slide(b, own, s, dirs) <==> SlidesTo(b, own, s, dirs, t)
    decreases |dirs|
  {
    if dirs != [] {
      RayReaches(b, own, s, dirs[0], t);
      SlideReaches(b, own, s, dirs[1..], t);
      if SlidesTo(b, own, s, dirs, t) {
        var i :| 0 <= i < |dirs| && Reaches(b, own, s, dirs[i], t);
        if i > 0 {
          assert dirs[1..][i - 1] == dirs[i];
        }
      }
      if SlidesTo(b, own, s, dirs[1..], t) {
        var i :| 0 <= i < |dirs[1..]| && Reaches(b, own, s, dirs[1..][i], t);
        assert dirs[i + 1] == dirs[1..][i];
      }
    }
  }

  /** The squares reached by one fixed offset from `s` that are on the board and
      do not hold colour `own`. */
  predicate LeapTarget(b: Board, own: Color, s: Square, o: Dir, t: Square) {
    t == Shift(s, o) && InBounds(t) && !HoldsColor(b, t, own)
  }

  /** `t` is the target of one of the offsets. */
  predicate LeapsTo(b: Board, own: Color, s: Square, offsets: seq<Dir>, t: Square) {
    exists i :: 0 <= i < |offsets| && LeapTarget(b, own, s, offsets[i], t)
  }

  /** The offset list splits into its first offset and the rest. */
  lemma LeapsToSplit(b: Board, own: Color, s: Square, offsets: seq<Dir>, t: Square)
    requires offsets != []
    ensures LeapsTo(b, own, s, offsets, t) <==>
              LeapTarget(b, own, s, offsets[0], t) || LeapsTo(b, own, s, offsets[1..], t)
  {
  }

  /** Knight and king moves: each offset in turn, kept when its square is on the
      board and empty or held by a piece not of colour `own`. */
  function Leaps(b: Board, own: Color, s: Square, offsets: seq<Dir>): (r: seq<Square>)
    ensures |r| <= |offsets|
    ensures forall t :: t in r <==> LeapsTo(b, own, s, offsets, t)
  {
    if offsets == [] then []
    else
      var t := Shift(s, offsets[0]);
      var rest := Leaps(b, own, s, offsets[1..]);
      assert forall u :: LeapsTo(b, own, s, offsets, u) <==>
                         LeapTarget(b, own, s, offsets[0], u) || LeapsTo(b, own, s, offsets[1..], u) by {
        forall u ensures LeapsTo(b, own, s, offsets, u) <==>
                         LeapTarget(b, own, s, offsets[0], u) || LeapsTo(b, own, s, offsets[1..], u) {
          LeapsToSplit(b, own, s, offsets, u);
        }
      }
      (if InBounds(t) && !HoldsColor(b, t, own) then [t] else []) + rest
  }

  const ROOK_DIRS: seq<Dir> := [Dir(-1, 0), Dir(1, 0), Dir(0, -1), Dir(0, 1)]
  const BISHOP_DIRS: seq<Dir> := [Dir(-1, -1), Dir(-1, 1), Dir(1, -1), Dir(1, 1)]
  const KNIGHT_OFFSETS: seq<Dir> :=
    [Dir(-2, -1), Dir(-2, 1), Dir(2, -1), Dir(2, 1), Dir(-1, -2), Dir(-1, 2), Dir(1, -2), Dir(1, 2)]
  const KING_OFFSETS: seq<Dir> :=
    [Dir(-1, 0), Dir(1, 0), Dir(0, -1), Dir(0, 1), Dir(-1, -1), Dir(-1, 1), Dir(1, -1), Dir(1, 1)]

  /** The row a pawn of colour `c` moves toward: White up the board, Black down. */
  function Forward(c: Color): int {
    if c == White then -1 else 1
  }

  function StartRow(c: Color): int {
    if c == White then 6 else 1
  }

  /** The white pawn of main.py and Chess.py: up one square, up two from row
      6, and diagonally up onto a black piece. */
  function WhitePawnMoves(b: Board, s: Square): (r: seq<Square>)
    requires InBounds(s)
    ensures Square(s.row - 1, s.col) in r <==> IsEmpty(b, Square(s.row - 1, s.col))
    ensures Square(s.row - 2, s.col) in r <==>
              s.row == 6 && IsEmpty(b, Square(s.row - 1, s.col)) && IsEmpty(b, Square(s.row - 2, s.col))
    ensures Square(s.row - 1, s.col - 1) in r <==> HoldsColor(b, Square(s.row - 1, s.col - 1), Black)
    ensures Square(s.row - 1, s.col + 1) in r <==> HoldsColor(b, Square(s.row - 1, s.col + 1), Black)
    ensures forall t :: t in r ==> (t.row == s.row - 1 && s.col - 1 <= t.col <= s.col + 1)
                                   || t == Square(s.row - 2, s.col)
    ensures forall t :: t in r ==> InBounds(t) && t != s && !HoldsColor(b, t, White)
  {
    var row, col := s.row, s.col;
    (if row > 0 && IsEmpty(b, Square(row - 1, col)) then [Square(row - 1, col)] else [])
    + (if row == 6 && IsEmpty(b, Square(row - 2, col)) && IsEmpty(b, Square(row - 1, col))
       then [Square(row - 2, col)] else [])
    + (if row > 0 && col > 0 && HoldsColor(b, Square(row - 1, col - 1), Black)
       then [Square(row - 1, col - 1)] else [])
    + (if row > 0 && col < 7 && HoldsColor(b, Square(row - 1, col + 1), Black)
       then [Square(row - 1, col + 1)] else [])
  }

  /** The black pawn of main.py and Chess.py: down one square, down two from
      row 1, and diagonally down onto a white piece. */
  function BlackPawnMoves(b: Board, s: Square): (r: seq<Square>)
    requires InBounds(s)
    ensures Square(s.row + 1, s.col) in r <==> IsEmpty(b, Square(s.row + 1, s.col))
    ensures Square(s.row + 2, s.col) in r <==>
              s.row == 1 && IsEmpty(b, Square(s.row + 1, s.col)) && IsEmpty(b, Square(s.row + 2, s.col))
    ensures Square(s.row + 1, s.col - 1) in r <==> HoldsColor(b, Square(s.row + 1, s.col - 1), White)
    ensures Square(s.row + 1, s.col + 1) in r <==> HoldsColor(b, Square(s.row + 1, s.col + 1), White)
    ensures forall t :: t in r ==> (t.row == s.row + 1 && s.col - 1 <= t.col <= s.col + 1)
                                   || t == Square(s.row + 2, s.col)
    ensures forall t :: t in r ==> InBounds(t) && t != s && !HoldsColor(b, t, Black)
  {
    var row, col := s.row, s.col;
    (if row < 7 && IsEmpty(b, Square(row + 1, col)) then [Square(row + 1, col)] else [])
    + (if row == 1 && IsEmpty(b, Square(row + 2, col)) && IsEmpty(b, Square(row + 1, col))
       then [Square(row + 2, col)] else [])
    + (if row < 7 && col > 0 && HoldsColor(b, Square(row + 1, col - 1), White)
       then [Square(row + 1, col - 1)] else [])
    + (if row < 7 && col < 7 && HoldsColor(b, Square(row + 1, col + 1), White)
       then [Square(row + 1, col + 1)] else [])
  }

  /** The pawn rules of main.py and Chess.py, stated for either colour. */
  function PawnMoves(b: Board, c: Color, s: Square): (r: seq<Square>)
    requires InBounds(s)
    // one step forward iff that square is on the board and empty
    ensures Square(s.row + Forward(c), s.col) in r <==> IsEmpty(b, Square(s.row + Forward(c), s.col))
    // two steps iff on the starting rank and both squares ahead are empty
    ensures Square(s.row + 2 * Forward(c), s.col) in r <==>
              s.row == StartRow(c) && IsEmpty(b, Square(s.row + Forward(c), s.col))
              && IsEmpty(b, Square(s.row + 2 * Forward(c), s.col))
    // one step diagonally forward iff that square holds an opposing piece
    ensures Square(s.row + Forward(c), s.col - 1) in r <==>
              HoldsColor(b, Square(s.row + Forward(c), s.col - 1), Opponent(c))
    ensures Square(s.row + Forward(c), s.col + 1) in r <==>
              HoldsColor(b, Square(s.row + Forward(c), s.col + 1), Opponent(c))
    // and nothing else
    ensures forall t :: t in r ==>
              (t.row == s.row + Forward(c) && s.col - 1 <= t.col <= s.col + 1)
              || t == Square(s.row + 2 * Forward(c), s.col)
    // every destination is on the board, is not the origin and holds no piece of the pawn's colour
    ensures forall t :: t in r ==> InBounds(t) && t != s && !HoldsColor(b, t, c)
  {
    if c == White then WhitePawnMoves(b, s) else BlackPawnMoves(b, s)
  }

  /** get_possible_moves of QuantamChess.py and Chess.py: candidate
      destinations of piece `p` standing on `s`, in the order the scripts append
      them. A square holding a piece of the mover's colour is never a
      destination. The queen takes the rook list and then the bishop list of
      its own colour. */
  function PossibleMoves(b: Board, p: Piece, s: Square): (r: seq<Square>)
    requires InBounds(s)
    ensures forall t :: t in r ==> InBounds(t) && t != s && !HoldsColor(b, t, p.color)
    decreases p.kind == Queen
  {
    match p.kind
    case Pawn => PawnMoves(b, p.color, s)
    case Rook => Slide(b, p.color, s, ROOK_DIRS)
    case Bishop => Slide(b, p.color, s, BISHOP_DIRS)
    case Queen => PossibleMoves(b, Piece(p.color, Rook), s) + PossibleMoves(b, Piece(p.color, Bishop), s)
    case Knight => Leaps(b, p.color, s, KNIGHT_OFFSETS)
    case King => Leaps(b, p.color, s, KING_OFFSETS)
  }

  /** The directions a rook, bishop or queen slides along. */
  function SliderDirs(k: Kind): seq<Dir> {
    if k == Rook then ROOK_DIRS else if k == Bishop then BISHOP_DIRS else ROOK_DIRS + BISHOP_DIRS
  }

  /** The queen's directions are those of the rook followed by those of the
      bishop, so it reaches what either of them reaches. */
  lemma SlidesToConcat(b: Board, own: Color, s: Square, t: Square)
    ensures SlidesTo(b, own, s, ROOK_DIRS + BISHOP_DIRS, t) <==>
              SlidesTo(b, own, s, ROOK_DIRS, t) || SlidesTo(b, own, s, BISHOP_DIRS, t)
  {
    var dirs := ROOK_DIRS + BISHOP_DIRS;
    if SlidesTo(b, own, s, dirs, t) {
      var i :| 0 <= i < |dirs| && Reaches(b, own, s, dirs[i], t);
      if i >= 4 {
        assert BISHOP_DIRS[i - 4] == dirs[i];
      } else {
        assert ROOK_DIRS[i] == dirs[i];
      }
    }
    if SlidesTo(b, own, s, ROOK_DIRS, t) {
      var i :| 0 <= i < 4 && Reaches(b, own, s, ROOK_DIRS[i], t);
      assert dirs[i] == ROOK_DIRS[i];
    }
    if SlidesTo(b, own, s, BISHOP_DIRS, t) {
      var i :| 0 <= i < 4 && Reaches(b, own, s, BISHOP_DIRS[i], t);
      assert dirs[i + 4] == BISHOP_DIRS[i];
    }
  }

  /** Rook, bishop and queen: a square is a destination exactly when the piece
      reaches it along one of its directions, the queen along those of the rook
      and the bishop of its own colour. */
  lemma SliderMoves(b: Board, p: Piece, s: Square, t: Square)
    requires InBounds(s) && (p.kind == Rook || p.kind == Bishop || p.kind == Queen)
    ensures t in PossibleMoves(b, p, s) <==> SlidesTo(b, p.color, s, SliderDirs(p.kind), t)
  {
    SlideReaches(b, p.color, s, ROOK_DIRS, t);
    SlideReaches(b, p.color, s, BISHOP_DIRS, t);
    if p.kind == Queen {
      assert PossibleMoves(b, p, s) == Slide(b, p.color, s, ROOK_DIRS) + Slide(b, p.color, s, BISHOP_DIRS);
      SlidesToConcat(b, p.color, s, t);
    }
  }
}
