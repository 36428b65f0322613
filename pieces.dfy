/**
 * The per-class entry points of create_board.py: `access_fields`, which
 * Python dispatches on the piece's class, and `take_picture_name`, the
 * two-letter key under which a piece's image is loaded.
 */
module Pieces {

  import opened Wrappers
  import opened Boards
  import opened Rays
  import opened Offsets

  /** What the rows a piece of this class reads must satisfy. */
  predicate RowsInBoard(p: Piece, row: int)
  {
    p.kind == Pawn ==> PawnRowsInBoard(p.isWhite, p.startPos, row)
  }

  /** What `p.access_fields(row, col, board)` returns. `King` does not
      override the base method, whose body is only a docstring, so it
      returns Python's `None`. */
  function Moves(p: Piece, row: int, col: int, board: Board): (r: Option<seq<Square>>)
    requires Wellformed(board) && InBoardBoundaries(row, col, board) && RowsInBoard(p, row)
    ensures r.None? <==> p.kind == King
  {
    match p.kind
    case Queen => Some(RowSquares(p.isWhite, row, col, board) + DiagonalSquares(p.isWhite, row, col, board))
    case Bishop => Some(DiagonalSquares(p.isWhite, row, col, board))
    case Rock => Some(RowSquares(p.isWhite, row, col, board))
    case Horse => Some(HorseSquares(p.isWhite, row, col, board))
    case Pawn => Some(PawnSquares(p.isWhite, p.startPos, row, col, board))
    case King => None
  }

  /** `access_fields`, dispatched on the piece's class. */
  method AccessFields(p: Piece, row: int, col: int, board: Board) returns (r: Option<seq<Square>>)
    requires Wellformed(board) && InBoardBoundaries(row, col, board) && RowsInBoard(p, row)
    ensures r == Moves(p, row, col, board)
  {
    match p.kind {
      case Queen =>
        var squares := QueenAccessFields(p.isWhite, row, col, board);
        r := Some(squares);
      case Bishop =>
        var squares := BishopAccessFields(p.isWhite, row, col, board);
        r := Some(squares);
      case Rock =>
        var squares := RockAccessFields(p.isWhite, row, col, board);
        r := Some(squares);
      case Horse =>
        var squares := HorseAccessFields(p.isWhite, row, col, board);
        r := Some(squares);
      case Pawn =>
        var squares := PawnAccessFields(p.isWhite, p.startPos, row, col, board);
        r := Some(squares);
      case King =>
        r := None;
    }
  }

  /** Whatever class moves, every square it is offered is on the board and
      free of its own colour. */
  lemma MovesAllowed(p: Piece, row: int, col: int, board: Board)
    requires Wellformed(board) && InBoardBoundaries(row, col, board) && RowsInBoard(p, row)
    ensures Moves(p, row, col, board).Some? ==> Allowed(p.isWhite, Moves(p, row, col, board).value, board)
  {
    var w := p.isWhite;
    match p.kind
    case Queen =>
      RowSquaresAllowed(w, row, col, board);
      DiagonalSquaresAllowed(w, row, col, board);
      AllowedConcat(w, RowSquares(w, row, col, board), DiagonalSquares(w, row, col, board), board);
    case Bishop => DiagonalSquaresAllowed(w, row, col, board);
    case Rock => RowSquaresAllowed(w, row, col, board);
    case Horse => HorseSquaresAllowed(w, row, col, board);
    case Pawn => PawnSquaresAllowed(w, p.startPos, row, col, board);
    case King =>
  }

  /** Two allowed lists concatenate to an allowed list. */
  lemma AllowedConcat(white: bool, s: seq<Square>, t: seq<Square>, board: Board)
    requires Wellformed(board) && Allowed(white, s, board) && Allowed(white, t, board)
    ensures Allowed(white, s + t, board)
  {
    var u := s + t;
    forall i | 0 <= i < |u|
      ensures InBoardBoundaries(u[i].0, u[i].1, board) && !AttackSameKind(white, u[i].0, u[i].1, board)
    {
      if i < |s| {
        assert u[i] == s[i];
      } else {
        assert u[i] == t[i - |s|];
      }
    }
  }

  /** `self.__class__.__name__`. */
  function ClassName(k: Kind): string
  {
    match k
    case Pawn => "Pawn"
    case Queen => "Queen"
    case Bishop => "Bishop"
    case Rock => "Rock"
    case Horse => "Horse"
    case King => "King"
  }

  /** `str.lower` on one character, for the ASCII letters a class name uses. */
  function Lower(ch: char): char
  {
    if 'A' <= ch <= 'Z' then (ch as int + 32) as char else ch
  }

  /** `take_picture_name`: `w` or `b` for the colour, then the lower-cased
      first letter of the class name. */
  function TakePictureName(p: Piece): (name: string)
    ensures |name| == 2
    ensures name[0] == 'w' <==> p.isWhite
    ensures name[0] == 'b' <==> !p.isWhite
    ensures 'a' <= name[1] <= 'z'
    ensures name[1] == match p.kind
                       case Pawn => 'p' case Queen => 'q' case Bishop => 'b'
                       case Rock => 'r' case Horse => 'h' case King => 'k'
  {
    var firstLetter := if p.isWhite then 'w' else 'b';
    var secondLetter := Lower(ClassName(p.kind)[0]);
    [firstLetter, secondLetter]
  }

  /** Two pieces share a picture name exactly when they have the same colour
      and class: the six class names start with six different letters. */
  lemma PictureNameInjective(p: Piece, q: Piece)
    ensures TakePictureName(p) == TakePictureName(q) <==> p.isWhite == q.isWhite && p.kind == q.kind
  {
    if TakePictureName(p) == TakePictureName(q) {
      assert TakePictureName(p)[1] == TakePictureName(q)[1];
      assert Lower(ClassName(p.kind)[0]) == Lower(ClassName(q.kind)[0]);
    }
  }

  /** The twelve keys `Game.load_images` loads an image for (main.py). */
  const ImageKeys: seq<string> := ["bb", "bh", "bk", "bq", "br", "bp", "wr", "wb", "wh", "wk", "wq", "wp"]

  /** Every piece's picture name has an image, and every image belongs to
      some piece: the keys are exactly the twelve picture names. */
  lemma PictureNamesLoaded(p: Piece, key: string)
    ensures TakePictureName(p) in ImageKeys
    ensures key in ImageKeys ==> exists q: Piece :: TakePictureName(q) == key
  {
    if key in ImageKeys {
      var i :| 0 <= i < |ImageKeys| && ImageKeys[i] == key;
      var kinds := [Bishop, Horse, King, Queen, Rock, Pawn, Rock, Bishop, Horse, King, Queen, Pawn];
      var q := Piece(kinds[i], i >= 6, false);
      assert TakePictureName(q) == key;
    }
  }
}
