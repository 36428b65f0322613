/**
 * The sliding-piece generators of create_board.py: `plain_search` and
 * `populate_rows` for the orthogonal rays, `populate_diagonals` for the
 * diagonal ones, and the `access_fields` of `Queen`, `Bishop` and `Rock`.
 *
 * Because `check_if_boundary` answers true for every in-board square, a ray
 * never gets past its first in-board square: it contributes that square when
 * it holds a piece of the other colour, and nothing otherwise.
 */
module Rays {

  import opened Wrappers
  import opened Boards

  /** The number of indices Python's `range(start, end, step)` visits, for a step of one either way. */
  function RangeLength(start: int, end: int, step: int): (n: nat)
    requires step == 1 || step == -1
    ensures n > 0 <==> (if step == 1 then start < end else end < start)
  {
    if step == 1 then (if start < end then end - start else 0)
    else (if end < start then start - end else 0)
  }

  /** The square `plain_search` probes at `index`: along the row when `isCol`, else along the column. */
  function SearchSquare(index: int, row: int, col: int, isCol: bool): Square
  {
    if isCol then (row, index) else (index, col)
  }

  /**
   * `plain_search`: walks `range(start, end, step)` and returns at its first
   * index. The result is empty when the range is, and otherwise holds the first
   * probed square exactly when it holds a piece of the other colour.
   */
  method PlainSearch(white: bool, start: int, end: int, row: int, col: int, isCol: bool, board: Board, step: int)
    returns (res: seq<Square>)
    requires Wellformed(board)
    requires step == 1 || step == -1
    requires RangeLength(start, end, step) > 0 ==>
               InBoardBoundaries(SearchSquare(start, row, col, isCol).0, SearchSquare(start, row, col, isCol).1, board)
    ensures RangeLength(start, end, step) == 0 ==> res == []
    ensures RangeLength(start, end, step) > 0 ==>
              res == Capture(white, SearchSquare(start, row, col, isCol).0, SearchSquare(start, row, col, isCol).1, board)
  {
    res := [];
    for k := 0 to RangeLength(start, end, step)
      invariant k == 0 && res == []
    {
      var index := start + k * step;
      var sq := SearchSquare(index, row, col, isCol);
      var blocked;
      blocked, res := CheckIfBoundary(white, sq.0, sq.1, board, res);
      if !blocked {
        res := res + [sq];
      } else {
        return;
      }
    }
  }

  /** What `populate_rows` returns: up, down, left, right, each only its adjacent square. */
  function RowSquares(white: bool, row: int, col: int, board: Board): seq<Square>
    requires Wellformed(board)
  {
    Adjacent(white, row - 1, col, board) + Adjacent(white, row + 1, col, board) +
    Adjacent(white, row, col - 1, board) + Adjacent(white, row, col + 1, board)
  }

  /** `populate_rows`: the four orthogonal `plain_search`es, concatenated. */
  method PopulateRows(white: bool, row: int, col: int, board: Board) returns (res: seq<Square>)
    requires Wellformed(board) && InBoardBoundaries(row, col, board)
    ensures res == RowSquares(white, row, col, board)
  {
    var up := PlainSearch(white, row - 1, -1, row, col, false, board, -1);
    var down := PlainSearch(white, row + 1, DIMENSION, row, col, false, board, 1);
    var left := PlainSearch(white, col - 1, -1, row, col, true, board, -1);
    var right := PlainSearch(white, col + 1, DIMENSION, row, col, true, board, 1);
    res := up + down + left + right;
  }

  /** The squares `populate_rows` can return: exactly the orthogonal neighbours
      on the board that hold a piece of the other colour, at most four. */
  lemma RowSquaresExactly(white: bool, row: int, col: int, board: Board, r: int, c: int)
    requires Wellformed(board)
    ensures |RowSquares(white, row, col, board)| <= 4
    ensures (r, c) in RowSquares(white, row, col, board) <==>
              InBoardBoundaries(r, c, board) && Capturable(white, r, c, board) &&
              ((r == row && (c == col - 1 || c == col + 1)) || (c == col && (r == row - 1 || r == row + 1)))
  {
    var up, down := Adjacent(white, row - 1, col, board), Adjacent(white, row + 1, col, board);
    var left, right := Adjacent(white, row, col - 1, board), Adjacent(white, row, col + 1, board);
    AdjacentExactly(white, row - 1, col, board, r, c);
    AdjacentExactly(white, row + 1, col, board, r, c);
    AdjacentExactly(white, row, col - 1, board, r, c);
    AdjacentExactly(white, row, col + 1, board, r, c);
    assert RowSquares(white, row, col, board) == up + down + left + right;
    assert (r, c) in up + down + left + right <==> (r, c) in up || (r, c) in down || (r, c) in left || (r, c) in right;
  }

  /** What `populate_diagonals` returns: nothing from column 0, otherwise each
      diagonal's adjacent square, in the loop's order of directions. */
  function DiagonalSquares(white: bool, row: int, col: int, board: Board): seq<Square>
    requires Wellformed(board)
  {
    if col < 1 then [] else DiagonalRing(white, row, col, board, 1)
  }

  /** The four diagonal squares at distance `d`, each probed once, in the loop's order. */
  function DiagonalRing(white: bool, row: int, col: int, board: Board, d: int): seq<Square>
    requires Wellformed(board)
  {
    Adjacent(white, row - d, col - d, board) + Adjacent(white, row + d, col - d, board) +
    Adjacent(white, row - d, col + d, board) + Adjacent(white, row + d, col + d, board)
  }

  /** The four direction flags of `populate_diagonals`: `row_down_col_down_block`,
      `row_up_col_down_block`, `row_down_col_up_block` and `row_up_col_up_block`. */
  datatype Blocks = Blocks(downDown: bool, upDown: bool, downUp: bool, upUp: bool)

  /** What one direction adds to the result: nothing once it is blocked,
      otherwise what a probe of `(row, col)` yields. */
  function Contribution(white: bool, blocked: bool, row: int, col: int, board: Board): seq<Square>
    requires Wellformed(board)
  {
    if blocked then [] else Adjacent(white, row, col, board)
  }

  /** One direction of the loop body of `populate_diagonals`: an unblocked
      direction that reaches the board probes the square and becomes blocked;
      `added` is what `check_if_boundary` appends to the result. */
  method Probe(white: bool, blocked: bool, row: int, col: int, board: Board)
    returns (blocked': bool, added: seq<Square>)
    requires Wellformed(board)
    ensures blocked' == (blocked || InBoardBoundaries(row, col, board))
    ensures added == Contribution(white, blocked, row, col, board)
  {
    blocked', added := blocked, [];
    if !blocked && InBoardBoundaries(row, col, board) {
      var stop;
      stop, added := CheckIfBoundary(white, row, col, board, added);
      if stop {
        blocked' := true;
      } else {
        added := added + [(row, col)];
      }
    }
  }

  /** The flags after the iteration at distance `index`. */
  function BlocksAfter(row: int, col: int, board: Board, index: int, b: Blocks): Blocks
  {
    Blocks(b.downDown || InBoardBoundaries(row - index, col - index, board),
           b.upDown || InBoardBoundaries(row + index, col - index, board),
           b.downUp || InBoardBoundaries(row - index, col + index, board),
           b.upUp || InBoardBoundaries(row + index, col + index, board))
  }

  /** What the iteration at distance `index` appends, in the loop's order of directions. */
  function Gained(white: bool, row: int, col: int, board: Board, index: int, b: Blocks): seq<Square>
    requires Wellformed(board)
  {
    Contribution(white, b.downDown, row - index, col - index, board) +
    Contribution(white, b.upDown, row + index, col - index, board) +
    Contribution(white, b.downUp, row - index, col + index, board) +
    Contribution(white, b.upUp, row + index, col + index, board)
  }

  /** A diagonal whose adjacent square is off the board stays off it. */
  lemma FartherDiagonalsOffBoard(row: int, col: int, index: int, board: Board)
    requires Wellformed(board) && InBoardBoundaries(row, col, board) && 1 < index <= col
    ensures !InBoardBoundaries(row - 1, col - 1, board) ==> !InBoardBoundaries(row - index, col - index, board)
    ensures !InBoardBoundaries(row + 1, col - 1, board) ==> !InBoardBoundaries(row + index, col - index, board)
    ensures !InBoardBoundaries(row - 1, col + 1, board) ==> !InBoardBoundaries(row - index, col + index, board)
    ensures !InBoardBoundaries(row + 1, col + 1, board) ==> !InBoardBoundaries(row + index, col + index, board)
  {
  }

  /** The state of `populate_diagonals` before iteration `index`: nothing done
      before the first one, every direction settled after it. */
  ghost predicate DiagonalsBefore(white: bool, row: int, col: int, board: Board, index: int,
                                  b: Blocks, res: seq<Square>)
    requires Wellformed(board)
  {
    && (index == 1 ==> res == [] && b == Blocks(false, false, false, false))
    && (index > 1 ==>
          && b == BlocksAfter(row, col, board, 1, Blocks(false, false, false, false))
          && res == DiagonalSquares(white, row, col, board))
  }

  /** One iteration of the loop of `populate_diagonals` keeps `DiagonalsBefore`:
      the first settles every direction on its adjacent square, and a later one
      changes nothing because every direction is blocked or off the board. */
  lemma DiagonalsStep(white: bool, row: int, col: int, board: Board, index: int, b: Blocks, res: seq<Square>)
    requires Wellformed(board) && InBoardBoundaries(row, col, board) && 1 <= index <= col
    requires DiagonalsBefore(white, row, col, board, index, b, res)
    ensures DiagonalsBefore(white, row, col, board, index + 1, BlocksAfter(row, col, board, index, b),
                            res + Gained(white, row, col, board, index, b))
  {
    if index == 1 {
      assert Gained(white, row, col, board, index, b) == DiagonalRing(white, row, col, board, 1);
    } else {
      FartherDiagonalsOffBoard(row, col, index, board);
      assert Gained(white, row, col, board, index, b) == [];
    }
  }

  /** The body of the loop of `populate_diagonals`: the four directions at
      distance `index`, in the source's order. */
  method DiagonalsAt(white: bool, row: int, col: int, board: Board, index: int, b: Blocks, res: seq<Square>)
    returns (b': Blocks, res': seq<Square>)
    requires Wellformed(board)
    ensures b' == BlocksAfter(row, col, board, index, b)
    ensures res' == res + Gained(white, row, col, board, index, b)
  {
    var downDown, c1 := Probe(white, b.downDown, row - index, col - index, board);
    var upDown, c2 := Probe(white, b.upDown, row + index, col - index, board);
    var downUp, c3 := Probe(white, b.downUp, row - index, col + index, board);
    var upUp, c4 := Probe(white, b.upUp, row + index, col + index, board);
    b', res' := Blocks(downDown, upDown, downUp, upUp), res + (c1 + c2 + c3 + c4);
  }

  /** `populate_diagonals`: four direction flags over `index` in `1..col`.
      Each flag is set on its direction's first in-board square, which is the
      adjacent one or none, so the result is `DiagonalSquares`. */
  method PopulateDiagonals(white: bool, row: int, col: int, board: Board) returns (res: seq<Square>)
    requires Wellformed(board) && InBoardBoundaries(row, col, board)
    ensures res == DiagonalSquares(white, row, col, board)
  {
    res := [];
    var blocks := Blocks(false, false, false, false);
    for index := 1 to col + 1
      invariant DiagonalsBefore(white, row, col, board, index, blocks, res)
    {
      DiagonalsStep(white, row, col, board, index, blocks, res);
      blocks, res := DiagonalsAt(white, row, col, board, index, blocks, res);
    }
  }

  /** The squares `populate_diagonals` can return: exactly the diagonal
      neighbours on the board that hold a piece of the other colour, and none
      at all for a piece in column 0. */
  lemma DiagonalSquaresExactly(white: bool, row: int, col: int, board: Board, r: int, c: int)
    requires Wellformed(board)
    ensures |DiagonalSquares(white, row, col, board)| <= 4
    ensures col == 0 ==> DiagonalSquares(white, row, col, board) == []
    ensures (r, c) in DiagonalSquares(white, row, col, board) <==>
              col >= 1 && InBoardBoundaries(r, c, board) && Capturable(white, r, c, board) &&
              (r == row - 1 || r == row + 1) && (c == col - 1 || c == col + 1)
  {
    var dd, ud := Adjacent(white, row - 1, col - 1, board), Adjacent(white, row + 1, col - 1, board);
    var du, uu := Adjacent(white, row - 1, col + 1, board), Adjacent(white, row + 1, col + 1, board);
    AdjacentExactly(white, row - 1, col - 1, board, r, c);
    AdjacentExactly(white, row + 1, col - 1, board, r, c);
    AdjacentExactly(white, row - 1, col + 1, board, r, c);
    AdjacentExactly(white, row + 1, col + 1, board, r, c);
    if col >= 1 {
      assert DiagonalSquares(white, row, col, board) == dd + ud + du + uu;
      assert (r, c) in dd + ud + du + uu <==> (r, c) in dd || (r, c) in ud || (r, c) in du || (r, c) in uu;
    }
  }

  /** `Queen.access_fields`: the orthogonal result followed by the diagonal one. */
  method QueenAccessFields(white: bool, row: int, col: int, board: Board) returns (res: seq<Square>)
    requires Wellformed(board) && InBoardBoundaries(row, col, board)
    ensures res == RowSquares(white, row, col, board) + DiagonalSquares(white, row, col, board)
  {
    var rows := PopulateRows(white, row, col, board);
    var diagonals := PopulateDiagonals(white, row, col, board);
    res := rows + diagonals;
  }

  /** `Bishop.access_fields`: the diagonal result alone. */
  method BishopAccessFields(white: bool, row: int, col: int, board: Board) returns (res: seq<Square>)
    requires Wellformed(board) && InBoardBoundaries(row, col, board)
    ensures res == DiagonalSquares(white, row, col, board)
  {
    res := PopulateDiagonals(white, row, col, board);
  }

  /** `Rock.access_fields`: the orthogonal result alone. */
  method RockAccessFields(white: bool, row: int, col: int, board: Board) returns (res: seq<Square>)
    requires Wellformed(board) && InBoardBoundaries(row, col, board)
    ensures res == RowSquares(white, row, col, board)
  {
    res := PopulateRows(white, row, col, board);
  }

  /** Every square `populate_rows` returns is on the board and free of the mover's colour. */
  lemma RowSquaresAllowed(white: bool, row: int, col: int, board: Board)
    requires Wellformed(board)
    ensures Allowed(white, RowSquares(white, row, col, board), board)
  {
    var s := RowSquares(white, row, col, board);
    forall i | 0 <= i < |s|
      ensures InBoardBoundaries(s[i].0, s[i].1, board) && !AttackSameKind(white, s[i].0, s[i].1, board)
    {
      RowSquaresExactly(white, row, col, board, s[i].0, s[i].1);
    }
  }

  /** Every square `populate_diagonals` returns is on the board and free of the mover's colour. */
  lemma DiagonalSquaresAllowed(white: bool, row: int, col: int, board: Board)
    requires Wellformed(board)
    ensures Allowed(white, DiagonalSquares(white, row, col, board), board)
  {
    var s := DiagonalSquares(white, row, col, board);
    forall i | 0 <= i < |s|
      ensures InBoardBoundaries(s[i].0, s[i].1, board) && !AttackSameKind(white, s[i].0, s[i].1, board)
    {
      DiagonalSquaresExactly(white, row, col, board, s[i].0, s[i].1);
    }
  }

  /** Every queen square is on the origin's row, column or a diagonal, one step away. */
  lemma QueenSquaresOneStep(white: bool, row: int, col: int, board: Board, sq: Square)
    requires Wellformed(board)
    requires sq in RowSquares(white, row, col, board) + DiagonalSquares(white, row, col, board)
    ensures InBoardBoundaries(sq.0, sq.1, board) && !AttackSameKind(white, sq.0, sq.1, board)
    ensures -1 <= sq.0 - row <= 1 && -1 <= sq.1 - col <= 1 && sq != (row, col)
    ensures sq in RowSquares(white, row, col, board) ==> sq.0 == row || sq.1 == col
    ensures sq in DiagonalSquares(white, row, col, board) ==> sq.0 != row && sq.1 != col
  {
    RowSquaresExactly(white, row, col, board, sq.0, sq.1);
    DiagonalSquaresExactly(white, row, col, board, sq.0, sq.1);
  }

  /** A white rook at (7, 0) with a black pawn further up its file at (2, 0)
      and nothing else on the board gets no squares at all: the file ray ends
      at the empty square (6, 0) and the rank ray at the empty square (7, 1). */
  lemma RookStopsAtFirstSquare()
    ensures var board := Place(Place(EmptyBoard(), 7, 0, Some(Piece(Rock, true, false))), 2, 0, Some(Piece(Pawn, false, true)));
            RowSquares(true, 7, 0, board) == []
  {
    var board: Board := Place(Place(EmptyBoard(), 7, 0, Some(Piece(Rock, true, false))), 2, 0, Some(Piece(Pawn, false, true)));
    assert board[6][0].None? && board[7][1].None?;
  }
}
