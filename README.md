# Quantum Chess rules engine in Dafny

A model of the rules engine of a small pygame chess program that exists in
three versions: `main.py` (plain chess without check detection),
`Chess.py` (adds check and checkmate) and `QuantamChess.py` (adds a "quantum"
move in which a piece is placed on two candidate squares and later collapses
at random onto one of them).

The board is an 8x8 grid, row 0 being Black's back rank and row 7 White's. It
is stored as 64 cells in row-major order, each empty or holding a piece, a
(colour, kind) pair in place of the scripts' two-letter strings. The modules
follow the scripts:

- `Chessboard` (chessboard.dfy): pieces, squares, the board, the starting
  position, the move write order of the classical click handlers and the
  trial moves (`Relocate`; the quantum pick-up writes in the other order, with
  the same result since its two squares differ), and `find_king`.
- `Moves` (moves.dfy): `get_possible_moves` as QuantamChess.py and Chess.py
  write it (both behave alike), built from the sliding ray, the fixed offsets
  of knights and kings and the pawn rules; with a reference description of what
  a slider reaches and the proof that the generator produces exactly that.
- `Check` (check.dfy): `is_in_check` / `is_king_in_check` as functions, and
  `has_any_moves` / `has_legal_moves` as methods that try every move on the
  board array in place and take it back, proved to leave the board as it was
  and to answer whether some move leaves the side out of check.
- `QuantamChess` (quantam_chess.dfy): the pawn rules in that script's own
  form, the win detection of its main loop, and class `Game` whose fields are
  the script's globals and whose methods are its key and click handlers.
- `Chess` (chess.dfy): class `Game` with the click handler and the end-of-frame
  victory and checkmate messages.
- `MainScript` (main_script.dfy): main.py's move generator (its queen moves
  with white rules whatever its colour), the selection test exactly as Python
  parses it, and class `Game` with its click handler.

Randomness (`random.choice`) is a nondeterministic pick returned as the
out-parameter `chosen`; mouse clicks arrive as (row, col) pairs.

The model keeps these behaviours of the scripts, which a reader might not
expect:

- QuantamChess.py's win detection looks at White's check before Black's,
  whichever side is to move (QuantamChess.py:265-278).
- Leaving quantum mode keeps the candidate pieces already written on the
  board and the ghost entries (QuantamChess.py:290-297).
- Chess.py can draw a king-capture message and a checkmate message in the same
  frame, since the checkmate check is not skipped (Chess.py:237-251).
- main.py keeps the selection after a click on a square that is not a
  destination (main.py:208-223); the other two scripts drop it.
- A side with two kings on the board (possible in QuantamChess.py when the
  quantum piece is a king) is tested on its first king in row-major order.
- After a completed classical move all three scripts clear the selected piece
  but not the selected square (Chess.py:235, QuantamChess.py:359,
  main.py:220); the model keeps the stale square too. The quantum pick-up
  with a single destination clears both (QuantamChess.py:333-334).

## Model

| member | source | states |
|---|---|---|
| Chessboard.Relocate | Chess.py:232-233 | the origin becomes empty, the destination (if different) holds the piece, every other cell is unchanged |
| Chessboard.FindKingFromSpec | Chess.py:149-155 | the scan from index i returns the first index at or after i holding that colour's king, and None exactly when there is none from i on |
| Chessboard.FindKingSpec | Chess.py:149-155 | find_king returns the first square in row-major order holding that colour's king, and None exactly when the board has no such king |
| Moves.Ray | Chess.py:79-93 | the k-th square of a ray is k steps from the origin and on the board; all squares but the last are empty; the last does not hold the mover's colour; after an empty last square the next one is off the board or holds the mover's colour |
| Moves.RaySquare | QuantamChess.py:88-100 | every square of a ray is on the board, is not the origin and does not hold the mover's colour |
| Moves.ReachedOnRay | QuantamChess.py:88-100 | a square k steps away, on the board, not of the mover's colour, with every square before it empty, is on the ray |
| Moves.RayReaches | QuantamChess.py:84-100 | a square is on the ray exactly when it satisfies the reference description: empty squares up to the first occupied one, that one iff capturable, nothing beyond |
| Moves.Slide | QuantamChess.py:84-100 | every square from the rays is on the board, is not the origin and does not hold the mover's colour |
| Moves.SlideReaches | QuantamChess.py:84-118 | a square is among the rays of a list of directions exactly when one of those directions reaches it |
| Moves.SlidesToConcat | QuantamChess.py:120-122 | reaching along the rook directions followed by the bishop directions is reaching along either |
| Moves.SliderMoves | Chess.py:77-115 | rook, bishop and queen destinations are exactly the squares reached along their directions, the queen's being the rook's and bishop's of its own colour |
| Moves.LeapsToSplit | Chess.py:117-123 | a square is an offset target of a list iff it is the target of the first offset or of the rest |
| Moves.Leaps | Chess.py:117-131 | knight and king destinations are exactly the on-board offset squares that are empty or hold a piece of the other colour; there are no more of them than offsets |
| Moves.WhitePawnMoves | main.py:63-76 | one step up iff empty; two steps up iff on row 6 and both squares empty; each upward diagonal iff it holds a black piece; nothing else; never off the board, the origin or a white piece |
| Moves.BlackPawnMoves | main.py:78-91 | the mirror image downward from row 1, capturing only white pieces |
| Moves.PawnMoves | Chess.py:57-75 | the same rules for either colour stated through its forward direction and starting row |
| Moves.PossibleMoves | Chess.py:54-133 | every destination is on the board, is not the origin and does not hold a piece of the mover's colour |
| QuantamChess.PawnMoves | QuantamChess.py:71-82 | the pawn branch written with direction, start row and the two diagonal columns written out yields exactly the list of the colour-specific rules |
| Check.AttackedFromSpec | QuantamChess.py:201-207 | the scan of opposing pieces from index i succeeds iff some opposing piece at or after i has the king square among its moves |
| Check.IsInCheckSpec | QuantamChess.py:190-207 | false when the colour has no king; otherwise true iff some opposing piece has the square of its first king among its moves |
| Check.AllInCheckMeans | QuantamChess.py:214-223 | the prefix-wise record of failed trials holds iff every listed destination leaves the side in check |
| Check.EscapeFound | QuantamChess.py:216-223 | one destination whose trial leaves the side out of check is enough to stop the scan with a success |
| Check.TryMove | QuantamChess.py:216-221 | one trial on the board array: the answer is the check status after moving the piece, and both cells are restored |
| Check.TryMoves | QuantamChess.py:214-223 | the destinations are tried in order; true iff one leaves the side out of check; the board is restored |
| Check.TryPiece | Chess.py:173-184 | true iff the square holds a piece of the side with a move that leaves it out of check; the board is restored |
| Check.HasAnyMoves | Chess.py:170-185 | the board is unchanged on return, and the answer is true iff some move of some piece of that colour leaves it out of check |
| QuantamChess.GhostBlocksRay | QuantamChess.py:338-342 | once the first candidate is written on the board, no square beyond it along the same direction is on that ray |
| QuantamChess.GhostBlocksSecondCandidate | QuantamChess.py:337-342 | for a rook, bishop or queen, no square beyond the first candidate along the same direction is among the destinations computed on the board that shows the first candidate, so it cannot be chosen as the second candidate |
| QuantamChess.FrameVerdict | QuantamChess.py:249-278 | Black wins iff the white king is missing or, both kings present, White is in check with no escape; White wins iff the white king is present and the black king is missing, or White is not in check and Black is in check with no escape; a check is shown only when nothing is selected, and it is White's whenever White is in check |
| QuantamChess.Game.constructor | QuantamChess.py:37-56 | the starting position, White to move, nothing selected, quantum mode off and no quantum state |
| QuantamChess.Game.Judge | QuantamChess.py:249-278 | the verdict is the frame verdict of the board, and the board is unchanged although escapes are tried on it |
| QuantamChess.Game.ToggleQuantumMode | QuantamChess.py:290-297 | the mode flips; leaving it drops the quantum piece, the candidates and the selection but keeps the board and the ghost entries |
| QuantamChess.Game.Collapse | QuantamChess.py:298-310 | with a quantum piece and two candidates: the piece ends on the chosen one, which is one of the two, the other is emptied whatever it held, both ghost entries go, quantum state and selected piece are cleared, quantum mode ends and the turn passes once; otherwise nothing changes |
| QuantamChess.Game.PickUp | QuantamChess.py:319-336 | an own piece becomes the quantum piece and the selection; with exactly one destination it is moved there at once, the turn passes, quantum mode ends and no candidates remain; other clicks change nothing |
| QuantamChess.Game.MarkCandidate | QuantamChess.py:337-346 | a destination of the quantum piece that is not yet a candidate becomes one, holding the piece and a ghost entry; the second candidate empties the origin and clears the selection; any other click changes nothing |
| QuantamChess.Game.ClassicalClick | QuantamChess.py:347-359 | selecting needs an own piece; with a selection, a destination gets the piece, the origin is emptied and the turn passes, any other square leaves board and turn alone, and the selected piece is dropped either way |
| Chess.EndMessages | Chess.py:237-251 | a missing white king names Black, else a missing black king names White; a checkmate message appears iff the side to move is in check with no escape and always names the other side |
| Chess.CheckmateMeans | Chess.py:246-251 | a checkmate is announced only for a side to move that has a king attacked by an opposing piece and none of whose moves leads out of check |
| Chess.NoKingNoCheckmate | Chess.py:237-251 | when the side to move has no king exactly one message is drawn, a king-capture one |
| Chess.Game.constructor | Chess.py:32-45 | the starting position, White to move, nothing selected |
| Chess.Game.Click | Chess.py:224-235 | selecting needs an own piece; with a selection, a destination gets the piece, the origin is emptied and the turn passes, any other square leaves board and turn alone, and the selected piece is dropped either way |
| Chess.Game.EndOfFrame | Chess.py:237-251 | the messages are the end messages of the board and the side to move, and the board is unchanged although escapes are tried on it |
| MainScript.PossibleMoves | main.py:60-154 | every destination is on the board and not the origin; other pieces move as in the later scripts; a queen of either colour moves as a white queen, so it never lands on a white piece |
| MainScript.BlackQueenTakesOwnPawn | main.py:131-134 | in the starting position the black queen lists the square of its own pawn in front of it, which the own-colour generator does not |
| MainScript.SelectionTest | main.py:204 | the test raises exactly for an empty square with Black to move; otherwise it is true iff the square holds a piece of the side to move |
| MainScript.Game.constructor | main.py:34-48 | the starting position, White to move, nothing selected |
| MainScript.Game.Click | main.py:196-223 | without a selection the test decides, and when it raises nothing changes; with one, a destination gets the piece, the origin is emptied, the turn passes and the selected piece is dropped, while any other square changes nothing and keeps the selection |

## Findings

| source | as written | input that shows it | evidently intended | confidence | as-written member | corrected member |
|---|---|---|---|---|---|---|
| main.py:133-134 | the queen takes the moves of `"wr"` and `"wb"` whatever its colour | the starting position: the black queen on (0, 3) lists (1, 3), the square of its own pawn | the rook and bishop of the queen's own colour, as QuantamChess.py:121-122 and Chess.py:114-115 write it | high; not executed | MainScript.BlackQueenTakesOwnPawn | Moves.PossibleMoves |
| main.py:204 | `piece != "" and (white test) or (black test)` groups as `(piece != "" and white test) or black test` | nothing selected, Black to move, a click on an empty square: `piece[0]` on `""` raises IndexError | `piece != "" and (white test or black test)`, as Chess.py:226 writes it | high; not executed | MainScript.SelectionTest | Chess.Game.Click |

## Left out

- All pygame code: window, images, drawing, highlights, fonts, messages on screen, delays, the event loop and the `print` calls. The "Check!" banners are only the check tests they display.
- `get_square_from_pos`: clicks are given as (row, col) with both in 0..7.
- The uniform distribution of `random.choice`: the model only says the chosen square is one of the two candidates.
- QuantamChess.py's `game_started` flag and ENTER splash screen, and the `quantum_moves` variable, which nothing reads.
- What happens after the game ends (`run = False`): the methods can still be called.
- QuantamChess.Game.MarkCandidate: requires fewer than two candidates; the script crashes on a candidate click after the second, since the selected square is then None.
- MainScript.Game.Click: when the selection test raises, the script stops; the model reports `raised` and leaves the state unchanged.
- The two-letter piece strings: a board cell holds either nothing or one of the twelve pieces, so malformed strings cannot occur.
