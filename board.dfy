/**
 * The board and the cell predicates shared by every piece (class `Piece` of
 * create_board.py). A board is a grid of cells, each either a piece or a
 * non-piece filler; the generators only ever read it, so it is a value here.
 */
module Boards {

  import opened Wrappers

  /** `DIMENSION`: the number of rows and columns. */
  const DIMENSION: int := 8

  /** The piece classes, named as the classes are: `Rock` is the rook and
      `Horse` the knight. */
  datatype Kind = Pawn | Queen | Bishop | Rock | Horse | King

  /** A piece: its class, `is_white`, and the `start_pos` flag that only a
      pawn has (it is `True` when the pawn is created and nothing shown here
      changes it; for other classes it is ignored). */
  datatype Piece = Piece(kind: Kind, isWhite: bool, startPos: bool)

  /** A cell holds a piece (`Some`) or a non-piece filler (`None`). */
  type Cell = Option<Piece>

  type Board = seq<seq<Cell>>

  /** A `(row, col)` tuple as the generators return them. */
  type Square = (int, int)

  /** The board is DIMENSION rows of DIMENSION cells. */
  predicate Wellformed(board: Board)
  {
    |board| == DIMENSION && forall r :: 0 <= r < |board| ==> |board[r]| == DIMENSION
  }

  /** `check_in_board_boundaries`: both coordinates lie in `0..len(board)`
      (the column is also checked against the number of rows). */
  predicate InBoardBoundaries(row: int, col: int, board: Board)
  {
    0 <= row < |board| && 0 <= col < |board|
  }

  /** `attack_same_kind`: the cell holds a piece whose colour is `white`. */
  predicate AttackSameKind(white: bool, row: int, col: int, board: Board)
    requires Wellformed(board) && InBoardBoundaries(row, col, board)
  {
    board[row][col].Some? && board[row][col].value.isWhite == white
  }

  /** The cell holds a piece of the other colour than `white`. */
  predicate Capturable(white: bool, row: int, col: int, board: Board)
    requires Wellformed(board) && InBoardBoundaries(row, col, board)
  {
    board[row][col].Some? && board[row][col].value.isWhite != white
  }

  /** What `check_if_boundary` appends for an in-board square. */
  function Capture(white: bool, row: int, col: int, board: Board): seq<Square>
    requires Wellformed(board) && InBoardBoundaries(row, col, board)
  {
    if Capturable(white, row, col, board) then [(row, col)] else []
  }

  /** The one square a ray towards `(row, col)` can contribute: nothing when
      the square is off the board, else what `check_if_boundary` appends. */
  function Adjacent(white: bool, row: int, col: int, board: Board): seq<Square>
    requires Wellformed(board)
  {
    if InBoardBoundaries(row, col, board) then Capture(white, row, col, board) else []
  }

  /** Every square of `squares` is on the board and free of the colour `white`:
      what every generator promises of the squares it returns. */
  predicate Allowed(white: bool, squares: seq<Square>, board: Board)
    requires Wellformed(board)
  {
    forall i :: 0 <= i < |squares| ==>
      InBoardBoundaries(squares[i].0, squares[i].1, board) && !AttackSameKind(white, squares[i].0, squares[i].1, board)
  }

  /** On a well-formed board, `check_in_board_boundaries` holds exactly when
      both coordinates lie in `0..DIMENSION`, and then the cell can be read
      even though the column is compared with the number of rows. */
  lemma InBoardBoundariesExactly(row: int, col: int, board: Board)
    requires Wellformed(board)
    ensures InBoardBoundaries(row, col, board) <==> 0 <= row < DIMENSION && 0 <= col < DIMENSION
    ensures InBoardBoundaries(row, col, board) ==> 0 <= col < |board[row]|
  {
  }

  /** `attack_same_kind` holds exactly when the cell holds a piece of the
      colour `white`. Every in-board cell is exactly one of: filler, own
      colour, other colour. */
  lemma CellClassification(white: bool, row: int, col: int, board: Board)
    requires Wellformed(board) && InBoardBoundaries(row, col, board)
    ensures AttackSameKind(white, row, col, board) <==> board[row][col].Some? && board[row][col].value.isWhite == white
    ensures board[row][col].None? ==> !AttackSameKind(white, row, col, board) && !Capturable(white, row, col, board)
    ensures board[row][col].Some? ==> AttackSameKind(white, row, col, board) != Capturable(white, row, col, board)
  {
  }

  /** Every square `Adjacent` yields is the probed square, on the board and
      holding a piece of the other colour; it yields it whenever that holds. */
  lemma AdjacentExactly(white: bool, row: int, col: int, board: Board, r: int, c: int)
    requires Wellformed(board)
    ensures |Adjacent(white, row, col, board)| <= 1
    ensures (r, c) in Adjacent(white, row, col, board) <==>
              r == row && c == col && InBoardBoundaries(row, col, board) && Capturable(white, row, col, board)
  {
  }

  /**
   * `check_if_boundary`: appends `(row, col)` to `res` exactly when the cell
   * holds a piece of the other colour and, in every case, answers true, so a
   * caller always treats the square as the end of its ray.
   */
  method CheckIfBoundary(white: bool, row: int, col: int, board: Board, res: seq<Square>)
    returns (blocked: bool, res': seq<Square>)
    requires Wellformed(board) && InBoardBoundaries(row, col, board)
    ensures blocked
    ensures Capturable(white, row, col, board) ==> res' == res + [(row, col)]
    ensures !Capturable(white, row, col, board) ==> res' == res
  {
    CellClassification(white, row, col, board);
    if board[row][col].Some? {
      if AttackSameKind(white, row, col, board) {
        return true, res;
      }
      return true, res + [(row, col)];
    }
    return true, res;
  }

  /** A board of fillers only. */
  function EmptyBoard(): (board: Board)
    ensures Wellformed(board)
    ensures forall r, c :: 0 <= r < DIMENSION && 0 <= c < DIMENSION ==> board[r][c].None?
  {
    seq(DIMENSION, _ => seq(DIMENSION, _ => None))
  }

  /** `board` with `cell` written at `(row, col)`. */
  function Place(board: Board, row: int, col: int, cell: Cell): (board': Board)
    requires Wellformed(board) && InBoardBoundaries(row, col, board)
    ensures Wellformed(board')
    ensures board'[row][col] == cell
    ensures forall r, c :: 0 <= r < DIMENSION && 0 <= c < DIMENSION && (r, c) != (row, col) ==>
              board'[r][c] == board[r][c]
  {
    board[row := board[row][col := cell]]
  }
}
