/**
 * `King.is_checked` of create_board.py: the king replays the pawn-capture,
 * diagonal, orthogonal and knight generators from its own square and reports
 * check when one of them reaches a piece of the matching class.
 */
module Check {

  import opened Wrappers
  import opened Boards
  import opened Rays
  import opened Offsets

  /** The square holds a piece whose class is one of `kinds` (Python's `isinstance`). */
  predicate HoldsOneOf(board: Board, sq: Square, kinds: set<Kind>)
    requires Wellformed(board)
  {
    InBoardBoundaries(sq.0, sq.1, board) && board[sq.0][sq.1].Some? && board[sq.0][sq.1].value.kind in kinds
  }

  /** Some square of `squares` holds a piece whose class is one of `kinds`. */
  predicate Finds(board: Board, squares: seq<Square>, kinds: set<Kind>)
    requires Wellformed(board)
  {
    exists i :: 0 <= i < |squares| && HoldsOneOf(board, squares[i], kinds)
  }

  /** The checks of `is_checked`, over the squares its generators return. */
  predicate Checked(white: bool, row: int, col: int, board: Board)
    requires Wellformed(board) && InBoardBoundaries(row, col, board)
    requires 0 <= ForwardRow(white, row) < DIMENSION
  {
    || Finds(board, BeatableSquares(white, ForwardRow(white, row), col, board), {Pawn})
    || Finds(board, DiagonalSquares(white, row, col, board), {Queen})
    || Finds(board, RowSquares(white, row, col, board), {Rock, Queen})
    || Finds(board, HorseSquares(white, row, col, board), {Horse})
  }

  /** One `for (r, c) in ...: if isinstance(board[r][c], ...): return True` loop
      of `is_checked`: true at the first square of `squares` whose piece has a
      class in `kinds`. */
  method Scan(board: Board, squares: seq<Square>, kinds: set<Kind>) returns (found: bool)
    requires Wellformed(board)
    requires forall i :: 0 <= i < |squares| ==> InBoardBoundaries(squares[i].0, squares[i].1, board)
    ensures found == Finds(board, squares, kinds)
  {
    for i := 0 to |squares|
      invariant forall j :: 0 <= j < i ==> !HoldsOneOf(board, squares[j], kinds)
    {
      var (r, c) := squares[i];
      if board[r][c].Some? && board[r][c].value.kind in kinds {
        assert HoldsOneOf(board, squares[i], kinds);
        return true;
      }
    }
    return false;
  }

  /**
   * `King.is_checked`: scans the pawn captures, the diagonal result, the
   * orthogonal result and the knight result in that order and answers true at
   * the first square holding, respectively, a pawn, a queen (the code tests
   * `Queen` twice and never `Bishop`), a rook or queen, or a knight.
   */
  method IsChecked(white: bool, row: int, col: int, board: Board) returns (checked: bool)
    requires Wellformed(board) && InBoardBoundaries(row, col, board)
    requires 0 <= ForwardRow(white, row) < DIMENSION
    ensures checked == Checked(white, row, col, board)
  {
    var moveForwardRow := if white then row - 1 else row + 1;
    var pawns := AppendOnlyIfBeatable(white, moveForwardRow, col, board);
    BeatableSquaresAllowed(white, moveForwardRow, col, board);
    checked := Scan(board, pawns, {Pawn});
    if checked {
      return;
    }
    var diagonals := PopulateDiagonals(white, row, col, board);
    DiagonalSquaresAllowed(white, row, col, board);
    checked := Scan(board, diagonals, {Queen, Queen});
    if checked {
      return;
    }
    var rows := PopulateRows(white, row, col, board);
    RowSquaresAllowed(white, row, col, board);
    checked := Scan(board, rows, {Rock, Queen});
    if checked {
      return;
    }
    var horses := HorseAccessFields(white, row, col, board);
    HorseSquaresAllowed(white, row, col, board);
    checked := Scan(board, horses, {Horse});
  }

  /** The square is on the board and holds a piece of the other colour whose class is in `kinds`. */
  predicate Enemy(white: bool, r: int, c: int, board: Board, kinds: set<Kind>)
    requires Wellformed(board)
  {
    InBoardBoundaries(r, c, board) && Capturable(white, r, c, board) && board[r][c].value.kind in kinds
  }

  /** An enemy pawn on one of the king's two forward diagonals. */
  predicate PawnThreat(white: bool, row: int, col: int, board: Board)
    requires Wellformed(board)
  {
    Enemy(white, ForwardRow(white, row), col + 1, board, {Pawn}) ||
    Enemy(white, ForwardRow(white, row), col - 1, board, {Pawn})
  }

  /** An enemy queen diagonally adjacent to the king, unless the king is in column 0. */
  predicate DiagonalThreat(white: bool, row: int, col: int, board: Board)
    requires Wellformed(board)
  {
    col >= 1 &&
    (Enemy(white, row - 1, col - 1, board, {Queen}) || Enemy(white, row + 1, col - 1, board, {Queen}) ||
     Enemy(white, row - 1, col + 1, board, {Queen}) || Enemy(white, row + 1, col + 1, board, {Queen}))
  }

  /** An enemy rook or queen orthogonally adjacent to the king. */
  predicate OrthogonalThreat(white: bool, row: int, col: int, board: Board)
    requires Wellformed(board)
  {
    Enemy(white, row - 1, col, board, {Rock, Queen}) || Enemy(white, row + 1, col, board, {Rock, Queen}) ||
    Enemy(white, row, col - 1, board, {Rock, Queen}) || Enemy(white, row, col + 1, board, {Rock, Queen})
  }

  /** An enemy knight at one of the entries of the knight's offset table. */
  predicate HorseThreat(white: bool, row: int, col: int, board: Board)
    requires Wellformed(board)
  {
    exists i :: 0 <= i < |HorseRows| && Enemy(white, HorseTarget(row, col, i).0, HorseTarget(row, col, i).1, board, {Horse})
  }

  /** `Finds` over squares that are all known to hold no own-colour piece and
      to be on the board, in terms of membership. */
  lemma FindsMember(board: Board, squares: seq<Square>, kinds: set<Kind>, sq: Square)
    requires Wellformed(board)
    ensures sq in squares && HoldsOneOf(board, sq, kinds) ==> Finds(board, squares, kinds)
  {
    if sq in squares && HoldsOneOf(board, sq, kinds) {
      var i :| 0 <= i < |squares| && squares[i] == sq;
      assert HoldsOneOf(board, squares[i], kinds);
    }
  }

  lemma PawnScanExactly(white: bool, row: int, col: int, board: Board)
    requires Wellformed(board) && 0 <= ForwardRow(white, row) < DIMENSION
    ensures Finds(board, BeatableSquares(white, ForwardRow(white, row), col, board), {Pawn}) <==> PawnThreat(white, row, col, board)
  {
    var f := ForwardRow(white, row);
    var s := BeatableSquares(white, f, col, board);
    if Finds(board, s, {Pawn}) {
      var i :| 0 <= i < |s| && HoldsOneOf(board, s[i], {Pawn});
      BeatableExactly(white, f, col, board, s[i].0, s[i].1);
    }
    BeatableExactly(white, f, col, board, f, col + 1);
    BeatableExactly(white, f, col, board, f, col - 1);
    FindsMember(board, s, {Pawn}, (f, col + 1));
    FindsMember(board, s, {Pawn}, (f, col - 1));
  }

  lemma DiagonalScanExactly(white: bool, row: int, col: int, board: Board)
    requires Wellformed(board)
    ensures Finds(board, DiagonalSquares(white, row, col, board), {Queen}) <==> DiagonalThreat(white, row, col, board)
  {
    var s := DiagonalSquares(white, row, col, board);
    if Finds(board, s, {Queen}) {
      var i :| 0 <= i < |s| && HoldsOneOf(board, s[i], {Queen});
      DiagonalFoundIsThreat(white, row, col, board, s[i].0, s[i].1);
    }
    if DiagonalThreat(white, row, col, board) {
      DiagonalNeighbourFound(white, row, col, board, row - 1, col - 1);
      DiagonalNeighbourFound(white, row, col, board, row + 1, col - 1);
      DiagonalNeighbourFound(white, row, col, board, row - 1, col + 1);
      DiagonalNeighbourFound(white, row, col, board, row + 1, col + 1);
    }
  }

  /** A queen the diagonal scan finds is an enemy queen on a diagonal neighbour. */
  lemma DiagonalFoundIsThreat(white: bool, row: int, col: int, board: Board, r: int, c: int)
    requires Wellformed(board)
    requires (r, c) in DiagonalSquares(white, row, col, board) && HoldsOneOf(board, (r, c), {Queen})
    ensures DiagonalThreat(white, row, col, board)
  {
    DiagonalSquaresExactly(white, row, col, board, r, c);
    assert Enemy(white, r, c, board, {Queen});
    if r == row - 1 {
      if c == col - 1 {
        assert Enemy(white, row - 1, col - 1, board, {Queen});
      } else {
        assert Enemy(white, row - 1, col + 1, board, {Queen});
      }
    } else {
      if c == col - 1 {
        assert Enemy(white, row + 1, col - 1, board, {Queen});
      } else {
        assert Enemy(white, row + 1, col + 1, board, {Queen});
      }
    }
  }

  /** An enemy queen on a diagonal neighbour is found by the diagonal scan
      (the king not being in column 0). */
  lemma DiagonalNeighbourFound(white: bool, row: int, col: int, board: Board, r: int, c: int)
    requires Wellformed(board) && col >= 1
    requires (r == row - 1 || r == row + 1) && (c == col - 1 || c == col + 1)
    ensures Enemy(white, r, c, board, {Queen}) ==> Finds(board, DiagonalSquares(white, row, col, board), {Queen})
  {
    DiagonalSquaresExactly(white, row, col, board, r, c);
    FindsMember(board, DiagonalSquares(white, row, col, board), {Queen}, (r, c));
  }

  lemma OrthogonalScanExactly(white: bool, row: int, col: int, board: Board)
    requires Wellformed(board)
    ensures Finds(board, RowSquares(white, row, col, board), {Rock, Queen}) <==> OrthogonalThreat(white, row, col, board)
  {
    var s := RowSquares(white, row, col, board);
    if Finds(board, s, {Rock, Queen}) {
      var i :| 0 <= i < |s| && HoldsOneOf(board, s[i], {Rock, Queen});
      RowSquaresExactly(white, row, col, board, s[i].0, s[i].1);
    }
    if OrthogonalThreat(white, row, col, board) {
      forall r, c | (r == row && (c == col - 1 || c == col + 1)) || (c == col && (r == row - 1 || r == row + 1))
        ensures Enemy(white, r, c, board, {Rock, Queen}) ==> Finds(board, s, {Rock, Queen})
      {
        RowSquaresExactly(white, row, col, board, r, c);
        FindsMember(board, s, {Rock, Queen}, (r, c));
      }
    }
  }

  lemma HorseScanExactly(white: bool, row: int, col: int, board: Board)
    requires Wellformed(board)
    ensures Finds(board, HorseSquares(white, row, col, board), {Horse}) <==> HorseThreat(white, row, col, board)
  {
    var s := HorseSquares(white, row, col, board);
    if Finds(board, s, {Horse}) {
      var i :| 0 <= i < |s| && HoldsOneOf(board, s[i], {Horse});
      HorseSquaresExactly(white, row, col, board, s[i]);
      var k :| 0 <= k < |HorseRows| && HorseTarget(row, col, k) == s[i] && HorseLands(white, row, col, board, k);
      assert Enemy(white, HorseTarget(row, col, k).0, HorseTarget(row, col, k).1, board, {Horse});
    }
    if HorseThreat(white, row, col, board) {
      var k :| 0 <= k < |HorseRows| && Enemy(white, HorseTarget(row, col, k).0, HorseTarget(row, col, k).1, board, {Horse});
      HorseSquaresExactly(white, row, col, board, HorseTarget(row, col, k));
      FindsMember(board, s, {Horse}, HorseTarget(row, col, k));
    }
  }

  /** What `is_checked` answers, stated on the board itself: an enemy pawn on
      a forward diagonal, an enemy queen diagonally adjacent (not from column
      0), an enemy rook or queen orthogonally adjacent, or an enemy knight at
      a table offset. A bishop never gives check. */
  lemma CheckedExactly(white: bool, row: int, col: int, board: Board)
    requires Wellformed(board) && InBoardBoundaries(row, col, board)
    requires 0 <= ForwardRow(white, row) < DIMENSION
    ensures Checked(white, row, col, board) <==>
              PawnThreat(white, row, col, board) || DiagonalThreat(white, row, col, board) ||
              OrthogonalThreat(white, row, col, board) || HorseThreat(white, row, col, board)
  {
    PawnScanExactly(white, row, col, board);
    DiagonalScanExactly(white, row, col, board);
    OrthogonalScanExactly(white, row, col, board);
    HorseScanExactly(white, row, col, board);
  }

  /** Emptying a square that holds a bishop changes no `Enemy` test that does
      not look for bishops. */
  lemma EnemyIgnoresBishop(white: bool, x: int, y: int, board: Board, kinds: set<Kind>, r: int, c: int)
    requires Wellformed(board) && InBoardBoundaries(r, c, board)
    requires board[r][c].Some? && board[r][c].value.kind == Bishop && Bishop !in kinds
    ensures Enemy(white, x, y, board, kinds) == Enemy(white, x, y, Place(board, r, c, None), kinds)
  {
  }

  /** `is_checked` never sees a bishop: on any board, removing a bishop from
      any square leaves the answer unchanged, whatever its colour and wherever
      it stands relative to the king. */
  lemma BishopNeverChecks(white: bool, row: int, col: int, board: Board, r: int, c: int)
    requires Wellformed(board) && InBoardBoundaries(row, col, board)
    requires 0 <= ForwardRow(white, row) < DIMENSION
    requires InBoardBoundaries(r, c, board) && board[r][c].Some? && board[r][c].value.kind == Bishop
    ensures Checked(white, row, col, board) == Checked(white, row, col, Place(board, r, c, None))
  {
    var board' := Place(board, r, c, None);
    var f := ForwardRow(white, row);
    CheckedExactly(white, row, col, board);
    CheckedExactly(white, row, col, board');
    EnemyIgnoresBishop(white, f, col + 1, board, {Pawn}, r, c);
    EnemyIgnoresBishop(white, f, col - 1, board, {Pawn}, r, c);
    EnemyIgnoresBishop(white, row - 1, col - 1, board, {Queen}, r, c);
    EnemyIgnoresBishop(white, row + 1, col - 1, board, {Queen}, r, c);
    EnemyIgnoresBishop(white, row - 1, col + 1, board, {Queen}, r, c);
    EnemyIgnoresBishop(white, row + 1, col + 1, board, {Queen}, r, c);
    EnemyIgnoresBishop(white, row - 1, col, board, {Rock, Queen}, r, c);
    EnemyIgnoresBishop(white, row + 1, col, board, {Rock, Queen}, r, c);
    EnemyIgnoresBishop(white, row, col - 1, board, {Rock, Queen}, r, c);
    EnemyIgnoresBishop(white, row, col + 1, board, {Rock, Queen}, r, c);
    forall i | 0 <= i < |HorseRows|
      ensures Enemy(white, HorseTarget(row, col, i).0, HorseTarget(row, col, i).1, board, {Horse}) ==
              Enemy(white, HorseTarget(row, col, i).0, HorseTarget(row, col, i).1, board', {Horse})
    {
      EnemyIgnoresBishop(white, HorseTarget(row, col, i).0, HorseTarget(row, col, i).1, board, {Horse}, r, c);
    }
    assert HorseThreat(white, row, col, board) == HorseThreat(white, row, col, board');
  }

  /** A white king on (7, 4) facing a black queen on (0, 4) down an otherwise
      empty board is not in check: the file scan ends at the empty square (6, 4). */
  lemma DistantQueenMissed(board: Board)
    requires Wellformed(board)
    requires board[0][4] == Some(Piece(Queen, false, false))
    requires forall r, c :: 0 <= r < DIMENSION && 0 <= c < DIMENSION && (r, c) != (0, 4) && (r, c) != (7, 4) ==>
               board[r][c].None?
    ensures !Checked(true, 7, 4, board)
  {
    assert !OrthogonalThreat(true, 7, 4, board) by {
      assert board[6][4].None? && board[7][3].None? && board[7][5].None?;
    }
    assert !HorseThreat(true, 7, 4, board);
    CheckedExactly(true, 7, 4, board);
  }

  /** A white king on (7, 4) with a black queen right in front of it on (6, 4) is in check. */
  lemma AdjacentQueenChecks(board: Board)
    requires Wellformed(board)
    requires board[6][4] == Some(Piece(Queen, false, false))
    ensures Checked(true, 7, 4, board)
  {
    CheckedExactly(true, 7, 4, board);
    assert Enemy(true, 6, 4, board, {Rock, Queen});
  }
}
