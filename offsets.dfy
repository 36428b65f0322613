/**
 * The fixed-offset generators of create_board.py: `Horse.access_fields` (the
 * knight) and `Pawn.access_fields` with its helper `append_only_if_beatable`.
 */
module Offsets {

  import opened Wrappers
  import opened Boards

  /** `row_list` and `col_list` of `Horse.access_fields`, in table order.
      The pair (-1, +2) is listed twice, at indices 2 and 5, and (+1, +2) not at all. */
  const HorseRows: seq<int> := [-2, -2, -1, -1, 1, -1, 2, 2]
  const HorseCols: seq<int> := [-1, 1, 2, -2, -2, 2, -1, 1]

  /** The square the `i`-th table entry points at from `(row, col)`. */
  function HorseTarget(row: int, col: int, i: int): Square
    requires 0 <= i < |HorseRows| == |HorseCols|
  {
    (row + HorseRows[i], col + HorseCols[i])
  }

  /** The test of `Horse.access_fields`: the target is inside the board and
      does not hold a piece of the knight's colour. */
  predicate HorseLands(white: bool, row: int, col: int, board: Board, i: int)
    requires Wellformed(board) && 0 <= i < |HorseRows| == |HorseCols|
  {
    var (r, c) := HorseTarget(row, col, i);
    0 <= c < DIMENSION && 0 <= r < DIMENSION && !AttackSameKind(white, r, c, board)
  }

  /** What table entry `i` contributes. */
  function HorseHop(white: bool, row: int, col: int, board: Board, i: int): seq<Square>
    requires Wellformed(board) && 0 <= i < |HorseRows| == |HorseCols|
  {
    if HorseLands(white, row, col, board, i) then [HorseTarget(row, col, i)] else []
  }

  /** What the loop of `Horse.access_fields` has collected after `n` table entries. */
  function HorseSquaresUpTo(white: bool, row: int, col: int, board: Board, n: nat): seq<Square>
    requires Wellformed(board) && n <= |HorseRows| == |HorseCols|
  {
    if n == 0 then [] else HorseSquaresUpTo(white, row, col, board, n - 1) + HorseHop(white, row, col, board, n - 1)
  }

  /** What `Horse.access_fields` returns. */
  function HorseSquares(white: bool, row: int, col: int, board: Board): seq<Square>
    requires Wellformed(board)
  {
    HorseSquaresUpTo(white, row, col, board, |HorseRows|)
  }

  /** `Horse.access_fields`: the in-board targets of the offset table that do
      not hold a piece of the knight's colour, in table order. */
  method HorseAccessFields(white: bool, row: int, col: int, board: Board) returns (res: seq<Square>)
    requires Wellformed(board)
    ensures res == HorseSquares(white, row, col, board)
  {
    res := [];
    for index := 0 to |HorseRows|
      invariant res == HorseSquaresUpTo(white, row, col, board, index)
    {
      var currentRow := HorseRows[index] + row;
      var currentCol := HorseCols[index] + col;
      if 0 <= currentCol < DIMENSION && 0 <= currentRow < DIMENSION &&
         !AttackSameKind(white, currentRow, currentCol, board) {
        res := res + [(currentRow, currentCol)];
      }
    }
  }

  /** A square is collected from the first `n` entries exactly when one of
      them points at it and passes the test. */
  lemma {:induction false} HorseSquaresUpToExactly(white: bool, row: int, col: int, board: Board, n: nat, sq: Square)
    requires Wellformed(board) && n <= |HorseRows|
    ensures sq in HorseSquaresUpTo(white, row, col, board, n) <==>
              exists i :: 0 <= i < n && HorseTarget(row, col, i) == sq && HorseLands(white, row, col, board, i)
  {
    if n > 0 {
      HorseSquaresUpToExactly(white, row, col, board, n - 1, sq);
    }
  }

  /** Every knight square is the origin plus some table entry, on the board
      and free of the knight's own colour; every such target is returned. */
  lemma HorseSquaresExactly(white: bool, row: int, col: int, board: Board, sq: Square)
    requires Wellformed(board)
    ensures sq in HorseSquares(white, row, col, board) <==>
              exists i :: 0 <= i < |HorseRows| && HorseTarget(row, col, i) == sq && HorseLands(white, row, col, board, i)
    ensures sq in HorseSquares(white, row, col, board) ==>
              InBoardBoundaries(sq.0, sq.1, board) && !AttackSameKind(white, sq.0, sq.1, board)
  {
    HorseSquaresUpToExactly(white, row, col, board, |HorseRows|, sq);
  }

  /** Every square `Horse.access_fields` returns is on the board and free of the knight's colour. */
  lemma HorseSquaresAllowed(white: bool, row: int, col: int, board: Board)
    requires Wellformed(board)
    ensures Allowed(white, HorseSquares(white, row, col, board), board)
  {
    var s := HorseSquares(white, row, col, board);
    forall i | 0 <= i < |s|
      ensures InBoardBoundaries(s[i].0, s[i].1, board) && !AttackSameKind(white, s[i].0, s[i].1, board)
    {
      HorseSquaresExactly(white, row, col, board, s[i]);
    }
  }

  /** The table has no (+1, +2) entry, so the knight never gets that square. */
  lemma HorseMissesOneTwo(white: bool, row: int, col: int, board: Board)
    requires Wellformed(board)
    ensures (row + 1, col + 2) !in HorseSquares(white, row, col, board)
  {
    HorseSquaresExactly(white, row, col, board, (row + 1, col + 2));
  }

  /** The doubled (-1, +2) entry makes that square appear twice whenever it is
      open to the knight. */
  lemma HorseRepeatsMinusOneTwo(white: bool, row: int, col: int, board: Board)
    requires Wellformed(board)
    requires 0 <= row - 1 < DIMENSION && 0 <= col + 2 < DIMENSION && !AttackSameKind(white, row - 1, col + 2, board)
    ensures multiset(HorseSquares(white, row, col, board))[(row - 1, col + 2)] == 2
  {
    var sq := (row - 1, col + 2);
    HorseSquaresUnrolled(white, row, col, board);
    var h0, h1 := HorseHop(white, row, col, board, 0), HorseHop(white, row, col, board, 1);
    var h2, h3 := HorseHop(white, row, col, board, 2), HorseHop(white, row, col, board, 3);
    var h4, h5 := HorseHop(white, row, col, board, 4), HorseHop(white, row, col, board, 5);
    var h6, h7 := HorseHop(white, row, col, board, 6), HorseHop(white, row, col, board, 7);
    assert h2 == [sq] && h5 == [sq];
    assert sq !in h0 && sq !in h1 && sq !in h3 && sq !in h4 && sq !in h6 && sq !in h7;
    CountInEight(h0, h1, h2, h3, h4, h5, h6, h7, sq);
  }

  /** The knight's squares are the eight entries' contributions in table order. */
  lemma HorseSquaresUnrolled(white: bool, row: int, col: int, board: Board)
    requires Wellformed(board)
    ensures HorseSquares(white, row, col, board) ==
            HorseHop(white, row, col, board, 0) + HorseHop(white, row, col, board, 1) +
            HorseHop(white, row, col, board, 2) + HorseHop(white, row, col, board, 3) +
            HorseHop(white, row, col, board, 4) + HorseHop(white, row, col, board, 5) +
            HorseHop(white, row, col, board, 6) + HorseHop(white, row, col, board, 7)
  {
    var h0, h1 := HorseHop(white, row, col, board, 0), HorseHop(white, row, col, board, 1);
    var h2, h3 := HorseHop(white, row, col, board, 2), HorseHop(white, row, col, board, 3);
    var h4, h5 := HorseHop(white, row, col, board, 4), HorseHop(white, row, col, board, 5);
    var h6, h7 := HorseHop(white, row, col, board, 6), HorseHop(white, row, col, board, 7);
    assert HorseSquaresUpTo(white, row, col, board, 1) == h0;
    assert HorseSquaresUpTo(white, row, col, board, 2) == h0 + h1;
    assert HorseSquaresUpTo(white, row, col, board, 3) == h0 + h1 + h2;
    assert HorseSquaresUpTo(white, row, col, board, 4) == h0 + h1 + h2 + h3;
    assert HorseSquaresUpTo(white, row, col, board, 5) == h0 + h1 + h2 + h3 + h4;
    assert HorseSquaresUpTo(white, row, col, board, 6) == h0 + h1 + h2 + h3 + h4 + h5;
    assert HorseSquaresUpTo(white, row, col, board, 7) == h0 + h1 + h2 + h3 + h4 + h5 + h6;
  }

  /** Counting one value in eight concatenated pieces, two of which are exactly it. */
  lemma CountInEight<T>(h0: seq<T>, h1: seq<T>, h2: seq<T>, h3: seq<T>, h4: seq<T>, h5: seq<T>, h6: seq<T>, h7: seq<T>, x: T)
    requires h2 == [x] && h5 == [x]
    requires x !in h0 && x !in h1 && x !in h3 && x !in h4 && x !in h6 && x !in h7
    ensures multiset(h0 + h1 + h2 + h3 + h4 + h5 + h6 + h7)[x] == 2
  {
  }

  /** The row a pawn moves forward to: up the board for white, down for black. */
  function ForwardRow(white: bool, row: int): int
  {
    if white then row - 1 else row + 1
  }

  /** The row of the double step: two rows forward. */
  function DoubleStepRow(white: bool, row: int): int
  {
    if white then row - 2 else row + 2
  }

  /** What `append_only_if_beatable` returns: `col + 1`, then `col - 1`, on
      the forward row, each when it is a column and holds a piece of the other colour. */
  function BeatableSquares(white: bool, forwardRow: int, col: int, board: Board): seq<Square>
    requires Wellformed(board) && 0 <= forwardRow < DIMENSION
  {
    (if 0 <= col + 1 < DIMENSION && Capturable(white, forwardRow, col + 1, board) then [(forwardRow, col + 1)] else []) +
    (if 0 <= col - 1 < DIMENSION && Capturable(white, forwardRow, col - 1, board) then [(forwardRow, col - 1)] else [])
  }

  /** `Pawn.append_only_if_beatable`. */
  method AppendOnlyIfBeatable(white: bool, forwardRow: int, col: int, board: Board) returns (res: seq<Square>)
    requires Wellformed(board) && 0 <= forwardRow < DIMENSION
    ensures res == BeatableSquares(white, forwardRow, col, board)
  {
    res := [];
    if 0 <= col + 1 < DIMENSION && board[forwardRow][col + 1].Some? &&
       board[forwardRow][col + 1].value.isWhite != white {
      res := res + [(forwardRow, col + 1)];
    }
    if 0 <= col - 1 < DIMENSION && board[forwardRow][col - 1].Some? &&
       board[forwardRow][col - 1].value.isWhite != white {
      res := res + [(forwardRow, col - 1)];
    }
  }

  /** The capture squares are exactly the two forward diagonals that are on
      the board and hold a piece of the other colour. */
  lemma BeatableExactly(white: bool, forwardRow: int, col: int, board: Board, r: int, c: int)
    requires Wellformed(board) && 0 <= forwardRow < DIMENSION
    ensures |BeatableSquares(white, forwardRow, col, board)| <= 2
    ensures (r, c) in BeatableSquares(white, forwardRow, col, board) <==>
              r == forwardRow && (c == col + 1 || c == col - 1) &&
              InBoardBoundaries(r, c, board) && Capturable(white, r, c, board)
  {
    var right := if 0 <= col + 1 < DIMENSION && Capturable(white, forwardRow, col + 1, board) then [(forwardRow, col + 1)] else [];
    var left := if 0 <= col - 1 < DIMENSION && Capturable(white, forwardRow, col - 1, board) then [(forwardRow, col - 1)] else [];
    assert BeatableSquares(white, forwardRow, col, board) == right + left;
    assert (r, c) in right + left <==> (r, c) in right || (r, c) in left;
  }

  /** Every capture square is on the board and free of the pawn's colour. */
  lemma BeatableSquaresAllowed(white: bool, forwardRow: int, col: int, board: Board)
    requires Wellformed(board) && 0 <= forwardRow < DIMENSION
    ensures Allowed(white, BeatableSquares(white, forwardRow, col, board), board)
  {
    var s := BeatableSquares(white, forwardRow, col, board);
    forall i | 0 <= i < |s|
      ensures InBoardBoundaries(s[i].0, s[i].1, board) && !AttackSameKind(white, s[i].0, s[i].1, board)
    {
      BeatableExactly(white, forwardRow, col, board, s[i].0, s[i].1);
    }
  }

  /** What the rows a pawn reads must satisfy: Python would otherwise wrap a
      negative row round to the far edge or fail on row 8. */
  predicate PawnRowsInBoard(white: bool, startPos: bool, row: int)
  {
    0 <= ForwardRow(white, row) < DIMENSION && (startPos ==> 0 <= DoubleStepRow(white, row) < DIMENSION)
  }

  /** What `Pawn.access_fields` returns: the double step, the single step, then the captures. */
  function PawnSquares(white: bool, startPos: bool, row: int, col: int, board: Board): seq<Square>
    requires Wellformed(board) && 0 <= col < DIMENSION && PawnRowsInBoard(white, startPos, row)
  {
    var two := DoubleStepRow(white, row);
    var one := ForwardRow(white, row);
    (if startPos && board[two][col].None? then [(two, col)] else []) +
    (if board[one][col].None? then [(one, col)] else []) +
    BeatableSquares(white, one, col, board)
  }

  /** `Pawn.access_fields`. */
  method PawnAccessFields(white: bool, startPos: bool, row: int, col: int, board: Board) returns (res: seq<Square>)
    requires Wellformed(board) && 0 <= col < DIMENSION && PawnRowsInBoard(white, startPos, row)
    ensures res == PawnSquares(white, startPos, row, col, board)
  {
    res := [];
    var rowAdder := if white then row - 2 else row + 2;
    if startPos && board[rowAdder][col].None? {
      res := res + [(rowAdder, col)];
    }
    var moveForwardRow := if white then row - 1 else row + 1;
    if board[moveForwardRow][col].None? {
      res := res + [(moveForwardRow, col)];
    }
    var beatable := AppendOnlyIfBeatable(white, moveForwardRow, col, board);
    res := res + beatable;
  }

  /** The pawn's squares: the double step exactly when the pawn has its start
      flag and the destination is empty (the square it passes is not looked
      at), the single step exactly when it is empty, and the two captures. */
  lemma PawnSquaresExactly(white: bool, startPos: bool, row: int, col: int, board: Board, r: int, c: int)
    requires Wellformed(board) && 0 <= col < DIMENSION && PawnRowsInBoard(white, startPos, row)
    ensures |PawnSquares(white, startPos, row, col, board)| <= 4
    ensures (r, c) in PawnSquares(white, startPos, row, col, board) <==>
              (startPos && r == DoubleStepRow(white, row) && c == col && board[r][c].None?) ||
              (r == ForwardRow(white, row) && c == col && board[r][c].None?) ||
              (r == ForwardRow(white, row) && (c == col + 1 || c == col - 1) &&
               InBoardBoundaries(r, c, board) && Capturable(white, r, c, board))
    ensures (r, c) in PawnSquares(white, startPos, row, col, board) ==>
              InBoardBoundaries(r, c, board) && !AttackSameKind(white, r, c, board)
  {
    var two := DoubleStepRow(white, row);
    var one := ForwardRow(white, row);
    var double := if startPos && board[two][col].None? then [(two, col)] else [];
    var single := if board[one][col].None? then [(one, col)] else [];
    var captures := BeatableSquares(white, one, col, board);
    BeatableExactly(white, one, col, board, r, c);
    assert PawnSquares(white, startPos, row, col, board) == double + single + captures;
    assert (r, c) in double + single + captures <==> (r, c) in double || (r, c) in single || (r, c) in captures;
  }

  /** Every pawn square is on the board and free of the pawn's colour. */
  lemma PawnSquaresAllowed(white: bool, startPos: bool, row: int, col: int, board: Board)
    requires Wellformed(board) && 0 <= col < DIMENSION && PawnRowsInBoard(white, startPos, row)
    ensures Allowed(white, PawnSquares(white, startPos, row, col, board), board)
  {
    var s := PawnSquares(white, startPos, row, col, board);
    forall i | 0 <= i < |s|
      ensures InBoardBoundaries(s[i].0, s[i].1, board) && !AttackSameKind(white, s[i].0, s[i].1, board)
    {
      PawnSquaresExactly(white, startPos, row, col, board, s[i].0, s[i].1);
    }
  }

  /** A white pawn on (6, 3) with its start flag may move to (4, 3) even when
      a piece stands on (5, 3) in between. */
  lemma PawnJumpsOverPiece()
    ensures var board := Place(EmptyBoard(), 5, 3, Some(Piece(Rock, false, false)));
            (4, 3) in PawnSquares(true, true, 6, 3, board) && (5, 3) !in PawnSquares(true, true, 6, 3, board)
  {
    var board: Board := Place(EmptyBoard(), 5, 3, Some(Piece(Rock, false, false)));
    PawnSquaresExactly(true, true, 6, 3, board, 4, 3);
    PawnSquaresExactly(true, true, 6, 3, board, 5, 3);
  }
}
