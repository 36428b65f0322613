# ChessGame move generators in Dafny

This project models the piece-movement core of `create_board.py` from the
ChessGame repository. The core consists of:

- the board helpers of the base class `Piece`: `check_in_board_boundaries`,
  `attack_same_kind` and `check_if_boundary`;
- the ray generators `plain_search`, `populate_rows` and `populate_diagonals`;
- the `access_fields` of `Queen`, `Bishop`, `Rock` (the rook) and `Horse` (the
  knight), and of `Pawn` together with `append_only_if_beatable`;
- `King.is_checked`;
- `take_picture_name`.

The code is modelled **as written**, not as textbook chess. Some of its
behaviour differs from the rules of chess, and the model proves those effects
(see "What the code does" below).

The board is an 8×8 grid. Each cell holds either a piece or a non-piece
filler. In Dafny this is the value type `seq<seq<Option<Piece>>>`, and a piece
is its class (`Kind`), its colour and the pawn's `start_pos` flag. The
generators only read the board, so as a value it cannot change.

Each loop of the source is a `method` with a `for` loop:

- `plain_search`;
- the four-flag loop of `populate_diagonals`;
- the table loop of `Horse.access_fields`;
- the scans of `is_checked`.

The pawn generators build their lists with appends. Every such method is
proved equal to a specification function, and the lemmas about those
functions state what the result contains.

The files and modules are:

| file | module | contents |
|---|---|---|
| `wrappers.dfy` | `Wrappers` | `Option` |
| `board.dfy` | `Boards` | cells, bounds, colour tests, `check_if_boundary` |
| `rays.dfy` | `Rays` | `plain_search`, `populate_rows`, `populate_diagonals`, and the queen, bishop and rook generators |
| `offsets.dfy` | `Offsets` | the knight and pawn generators |
| `check.dfy` | `Check` | `is_checked` |
| `pieces.dfy` | `Pieces` | dispatch by class, picture names |

## What the code does

- `check_if_boundary` returns true for every square. So `plain_search` stops
  at the first index of its range. Each `populate_diagonals` direction also
  becomes blocked at its first in-board square. As a result, every ray yields
  at most its adjacent square, and only when that square holds a piece of the
  other colour. A rook or queen with an empty neighbour gets nothing in that
  direction.
- The diagonal loop runs over `range(1, col + 1)`. A piece in column 0
  therefore gets no diagonal squares at all.
- The knight table lists (-1, +2) twice and never lists (+1, +2).
- `is_checked` tests for `Queen` twice on the diagonals and never tests for
  `Bishop`.
- The pawn double step looks only at its destination square. It never looks
  at the square it passes over.

## Model

| member | source | states |
|---|---|---|
| `Boards.CheckIfBoundary` | create_board.py:18-24 | This always answers true. It appends `(row, col)` exactly when the cell holds a piece of the other colour; otherwise the list is unchanged. |
| `Boards.InBoardBoundariesExactly` | create_board.py:26-28 | `check_in_board_boundaries` holds iff both coordinates lie in `0..len(board)`, which is `0..8`. Then the cell can be read, although the column is compared with the number of rows. |
| `Boards.CellClassification` | create_board.py:19-31 | `attack_same_kind` holds iff the cell holds a piece whose `is_white` equals the mover's. A filler cell is neither own-colour nor other-colour; an occupied cell is exactly one of the two. |
| `Boards.AdjacentExactly` | create_board.py:18-28 | A ray's first-square contribution has at most one element. It is that square exactly when the square is on the board and holds a piece of the other colour. |
| `Rays.RangeLength` | create_board.py:77 | `range(start, end, step)` with a step of ±1 is non-empty exactly when `start` lies before `end` in the step's direction. |
| `Rays.PlainSearch` | create_board.py:75-83 | The result is empty for an empty range. Otherwise it is exactly the first probed square, when that square holds a piece of the other colour. |
| `Rays.PopulateRows` | create_board.py:66-73 | The up, down, left and right searches concatenate to the orthogonal specification. |
| `Rays.RowSquaresExactly` | create_board.py:66-83 | There are at most four orthogonal squares. A square is returned iff it is an orthogonal neighbour on the board holding a piece of the other colour. |
| `Rays.Probe` | create_board.py:41-45 | One loop direction: an unblocked direction that reaches the board becomes blocked and contributes what `check_if_boundary` appends. A blocked direction contributes nothing and stays blocked. |
| `Rays.DiagonalsAt` | create_board.py:41-63 | One iteration of the diagonal loop updates each of the four flags and appends the four directions' contributions in the source's order. |
| `Rays.PopulateDiagonals` | create_board.py:33-64 | The loop returns the diagonal specification. Each direction adds at most its adjacent square, and nothing comes from column 0. |
| `Rays.DiagonalSquaresExactly` | create_board.py:33-64 | There are at most four diagonal squares, and none from column 0. Otherwise a square is returned iff it is a diagonal neighbour on the board holding a piece of the other colour. |
| `Rays.QueenAccessFields` | create_board.py:91-97 | The queen's result is the orthogonal result followed by the diagonal result. |
| `Rays.BishopAccessFields` | create_board.py:127-129 | The bishop's result is the diagonal result. |
| `Rays.RockAccessFields` | create_board.py:132-134 | The rook's result is the orthogonal result. |
| `Rays.RowSquaresAllowed` | create_board.py:66-83 | Every orthogonal square is on the board and holds no piece of the mover's colour. |
| `Rays.DiagonalSquaresAllowed` | create_board.py:33-64 | Every diagonal square is on the board and holds no piece of the mover's colour. |
| `Rays.QueenSquaresOneStep` | create_board.py:68-97 | Every queen square is one step from the origin and is not the origin. Orthogonal squares share the origin's row or column; diagonal squares share neither. |
| `Rays.RookStopsAtFirstSquare` | create_board.py:66-83 | Take a white rook on (7, 0) and a black pawn on (2, 0), with nothing else on the board. The rook gets no squares at all. |
| `Offsets.HorseAccessFields` | create_board.py:137-149 | The loop returns the table-driven specification, in table order. |
| `Offsets.HorseSquaresUpToExactly` | create_board.py:142-148 | After `n` entries, a square has been collected iff one of the first `n` entries points at it and passes the test. |
| `Offsets.HorseSquaresExactly` | create_board.py:137-149 | A knight square is returned iff some table entry points at it and the square is on the board and free of the knight's colour. |
| `Offsets.HorseSquaresAllowed` | create_board.py:146-148 | Every knight square is on the board and holds no piece of the knight's colour. |
| `Offsets.HorseMissesOneTwo` | create_board.py:139-140 | The square (+1, +2) from the origin is never returned. |
| `Offsets.HorseRepeatsMinusOneTwo` | create_board.py:139-148 | When the square (-1, +2) is open to the knight, it appears exactly twice in the result. |
| `Offsets.AppendOnlyIfBeatable` | create_board.py:116-124 | The result is `col + 1`, then `col - 1`, on the forward row. Each is included only when it is a column and holds a piece of the other colour. |
| `Offsets.BeatableExactly` | create_board.py:116-124 | There are at most two capture squares. They are exactly the forward diagonals that are on the board and hold a piece of the other colour. |
| `Offsets.BeatableSquaresAllowed` | create_board.py:116-124 | Every capture square is on the board and holds no piece of the pawn's colour. |
| `Offsets.PawnAccessFields` | create_board.py:105-114 | The result is the double step, then the single step, then the captures. |
| `Offsets.PawnSquaresExactly` | create_board.py:105-124 | The double step is included iff `start_pos` holds and its destination is empty. The single step is included iff it is empty. The captures are those of `append_only_if_beatable`. Each square is on the board and free of the pawn's colour. |
| `Offsets.PawnSquaresAllowed` | create_board.py:105-124 | Every pawn square is on the board and holds no piece of the pawn's colour. |
| `Offsets.PawnJumpsOverPiece` | create_board.py:107-109 | A white pawn on (6, 3) with its start flag may move to (4, 3) even when a piece stands on (5, 3). |
| `Check.Scan` | create_board.py:162-175 | One scan loop of `is_checked`: true iff some square of the list holds a piece of one of the classes it looks for. |
| `Check.IsChecked` | create_board.py:160-176 | The answer is the disjunction of the four scans in the source's order: pawn captures for `Pawn`, diagonals for `Queen`, orthogonals for `Rock` or `Queen`, knight squares for `Horse`. |
| `Check.PawnScanExactly` | create_board.py:161-164 | The pawn scan succeeds iff an enemy pawn stands on a forward diagonal. |
| `Check.DiagonalScanExactly` | create_board.py:165-167 | The diagonal scan succeeds iff the king is not in column 0 and an enemy queen is diagonally adjacent. |
| `Check.OrthogonalScanExactly` | create_board.py:169-171 | The orthogonal scan succeeds iff an enemy rook or queen is orthogonally adjacent. |
| `Check.HorseScanExactly` | create_board.py:173-175 | The knight scan succeeds iff an enemy knight stands at one of the table's targets. |
| `Check.CheckedExactly` | create_board.py:160-176 | `is_checked` holds iff one of the board-level threats holds: pawn, adjacent diagonal queen, adjacent orthogonal rook or queen, or table knight. |
| `Check.BishopNeverChecks` | create_board.py:160-176 | On any board, removing a bishop from any square leaves the answer of `is_checked` unchanged, so no bishop, wherever it stands, ever gives check. |
| `Check.DistantQueenMissed` | create_board.py:169-171 | A white king on (7, 4) is not in check from a black queen on (0, 4) down an empty file. |
| `Check.AdjacentQueenChecks` | create_board.py:169-171 | A white king on (7, 4) is in check from a black queen on (6, 4). |
| `Pieces.Moves` | create_board.py:11-16 | `access_fields` returns no list (`None`) exactly for the king, which keeps the base stub. |
| `Pieces.AccessFields` | create_board.py:91-149 | Dispatch by class returns that class's specification. |
| `Pieces.MovesAllowed` | create_board.py:91-149 | For every class, every square offered is on the board and holds no piece of the mover's colour. |
| `Pieces.TakePictureName` | create_board.py:85-88 | The name has two characters. The first is `w` iff the piece is white and `b` iff it is black. The second is the lower-cased initial of the class: `p`, `q`, `b`, `r`, `h` or `k` for `Pawn`, `Queen`, `Bishop`, `Rock`, `Horse` or `King`. |
| `Pieces.PictureNameInjective` | create_board.py:85-88 | Two pieces have the same picture name iff they have the same colour and class. |
| `Pieces.PictureNamesLoaded` | main.py:24 | Every picture name is one of the twelve image keys, and every key is the picture name of some piece. |

## Left out

- The `Rays.PlainSearch` and `Rays.PopulateRows` requirements cover how the
  source is used: the piece's own square is always on the board, so the first
  probed square is always on it. A search that starts off the board is not modelled.
  Python would index with a negative number or fail there.
- Python's negative-index wrap-around and `IndexError` on edge rows are not
  modelled. They occur at `board[row_adder]` and `board[move_forward_row]` for
  a pawn, and at the forward row of `is_checked`. Instead, those rows are
  required to be on the board (`PawnRowsInBoard`, `ForwardRow`).
- `check_if_boundary` appends to its caller's list in place. The model passes
  the list in and returns the new one. In `populate_diagonals`, each
  direction's probe returns what it appends, and the iteration appends the
  four contributions in the source's order: the resulting list is the same.
  No list is shared, so aliasing is not modelled.
- `King.castle` and the base body of `Piece.access_fields` are empty stubs.
  The model records only that `access_fields` of a king gives no list.
- The `is_king` field is never read by the code shown, so it is not part of
  `Piece`.
- The base class `Piece` itself is never placed on a board, so `Kind` has no
  value for it.
- `take_picture_name` uses `__class__.__name__`. The model maps the six
  classes to their names explicitly, and `str.lower` only on ASCII capitals.
- `main.py` is not part of this model. It covers the pygame window, image
  loading, drawing and the event loop, which are I/O over a foreign library.
  Its `GameState` board holds string codes, not pieces. The only use made of
  it is the list of image keys.
- Move application, turn order, checkmate, castling, en passant and promotion
  do not exist in the source.
