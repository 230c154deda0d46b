/** The opening position worked through: which moves Black has on the
    starting board, and the board after Black's first move at (3, 1). These
    pin the general rules of the model to concrete outcomes. */
module Openings {
  import opened Board
  import opened Rules
  import opened Placement

  /** Black's four opening moves: each lands next to a White stone that has
      a Black stone directly behind it. */
  predicate OpeningMove(x: int, y: int) {
    (x, y) == (3, 1) || (x, y) == (4, 2) || (x, y) == (1, 3) || (x, y) == (2, 4)
  }

  /** The legal cells of the starting board for Black, as a table. */
  const OpeningMask: seq<seq<bool>> := [
    [false, false, false, false, false, false],
    [false, false, false, true, false, false],
    [false, false, false, false, true, false],
    [false, true, false, false, false, false],
    [false, false, true, false, false, false],
    [false, false, false, false, false, false]
  ]

  /** The board after Black plays (3, 1) on the starting board: (3, 2) is
      turned and nothing else changes. */
  const AfterOpeningMove: Grid := [
    [0, 0, 0, 0, 0, 0],
    [0, 0, 0, 1, 0, 0],
    [0, 0, 1, 1, 0, 0],
    [0, 0, 2, 1, 0, 0],
    [0, 0, 0, 0, 0, 0],
    [0, 0, 0, 0, 0, 0]
  ]

  /** On the starting board, the only runs Black can bracket are single
      White stones, seen from one of the four opening cells. */
  lemma OpeningBracket(x: int, y: int, d: Dir, k: int)
    requires Bracketed(InitialBoard, Black, x, y, d, k)
    ensures k == 1
    ensures ((x, y) == (3, 1) && d == (0, 1)) || ((x, y) == (4, 2) && d == (-1, 0)) ||
            ((x, y) == (1, 3) && d == (1, 0)) || ((x, y) == (2, 4) && d == (0, -1))
  {
    InitialLayout();
    assert InBounds(Offset(x, d.0, 1), Offset(y, d.1, 1)) &&
      InitialBoard[Offset(y, d.1, 1)][Offset(x, d.0, 1)] == White;
  }

  /** A cell of the starting board that is legal for Black is one of the
      four opening moves. */
  lemma OpeningLegalIsListed(x: int, y: int)
    requires InBounds(x, y)
    ensures IsLegal(InitialBoard, Black, x, y) ==> OpeningMove(x, y)
  {
    IsLegalIffBracketed(InitialBoard, Black, x, y);
    if i, k :| 0 <= i < |Directions| && Bracketed(InitialBoard, Black, x, y, Directions[i], k) {
      OpeningBracket(x, y, Directions[i], k);
    }
  }

  /** Each of the four opening moves is legal for Black. */
  lemma OpeningListedIsLegal(x: int, y: int)
    requires OpeningMove(x, y)
    ensures InBounds(x, y) && IsLegal(InitialBoard, Black, x, y)
  {
    InitialLayout();
    var i := if (x, y) == (3, 1) then 4 else if (x, y) == (4, 2) then 1 else if (x, y) == (1, 3) then 6 else 3;
    assert Bracketed(InitialBoard, Black, x, y, Directions[i], 1);
    IsLegalIffBracketed(InitialBoard, Black, x, y);
  }

  /** The legal cells of the starting board for Black are the four opening
      moves. */
  lemma OpeningLegalCells()
    ensures LegalCells(InitialBoard, Black) == OpeningMask
  {
    var mask := LegalCells(InitialBoard, Black);
    forall y | 0 <= y < Size
      ensures mask[y] == OpeningMask[y]
    {
      forall x | 0 <= x < Size
        ensures mask[y][x] == OpeningMask[y][x]
      {
        if IsLegal(InitialBoard, Black, x, y) {
          OpeningLegalIsListed(x, y);
        }
        if OpeningMove(x, y) {
          OpeningListedIsLegal(x, y);
        }
      }
    }
  }

  /** can_place_x_y on the starting board for Black holds exactly at the
      four opening moves. */
  lemma OpeningLegal()
    ensures forall x, y :: InBounds(x, y) ==> (IsLegal(InitialBoard, Black, x, y) <==> OpeningMove(x, y))
  {
    forall x, y | InBounds(x, y)
      ensures IsLegal(InitialBoard, Black, x, y) <==> OpeningMove(x, y)
    {
      OpeningLegalIsListed(x, y);
      if OpeningMove(x, y) {
        OpeningListedIsLegal(x, y);
      }
    }
  }

  /** get_valid_moves on the starting board for Black returns the four
      opening moves, in row-major order. */
  lemma OpeningMoves()
    ensures ValidMoves(InitialBoard, Black) == [(3, 1), (4, 2), (1, 3), (2, 4)]
  {
    OpeningLegalCells();
    OpeningMaskMoves();
  }

  /** Scanning the opening table row by row lists its four flagged cells. */
  lemma OpeningMaskMoves()
    ensures MovesBefore(OpeningMask, Size) == [(3, 1), (4, 2), (1, 3), (2, 4)]
  {
    OpeningMaskRows();
    assert MovesBefore(OpeningMask, 1) == [];
    assert MovesBefore(OpeningMask, 2) == [(3, 1)];
    assert MovesBefore(OpeningMask, 3) == [(3, 1), (4, 2)];
    assert MovesBefore(OpeningMask, 4) == [(3, 1), (4, 2), (1, 3)];
    assert MovesBefore(OpeningMask, 5) == [(3, 1), (4, 2), (1, 3), (2, 4)];
  }

  /** The flagged cells of each row of the opening table. */
  lemma OpeningMaskRows()
    ensures RowMoves(OpeningMask, 0, Size) == []
    ensures RowMoves(OpeningMask, 1, Size) == [(3, 1)]
    ensures RowMoves(OpeningMask, 2, Size) == [(4, 2)]
    ensures RowMoves(OpeningMask, 3, Size) == [(1, 3)]
    ensures RowMoves(OpeningMask, 4, Size) == [(2, 4)]
    ensures RowMoves(OpeningMask, 5, Size) == []
  {
  }

  /** The cell (cx, cy) after Black plays (3, 1): the stone lands on (3, 1),
      (3, 2) is turned, and every other cell keeps its value. */
  lemma OpeningMoveCell(cx: int, cy: int)
    requires InBounds(cx, cy)
    ensures AfterMove(InitialBoard, Black, 3, 1)[cy][cx] ==
      if (cx, cy) == (3, 1) || (cx, cy) == (3, 2) then Black else InitialBoard[cy][cx]
  {
    AfterMoveCell(InitialBoard, Black, 3, 1, cx, cy);
    if i, k :| 0 <= i < |Directions| && Bracketed(InitialBoard, Black, 3, 1, Directions[i], k) &&
               OnRay(3, 1, Directions[i], k, cx, cy) {
      OpeningBracket(3, 1, Directions[i], k);
    }
    if (cx, cy) == (3, 2) {
      InitialLayout();
      assert Bracketed(InitialBoard, Black, 3, 1, Directions[4], 1) && OnRay(3, 1, Directions[4], 1, cx, cy);
    }
  }

  /** place_stone(board, 1, 3, 1) on the starting board turns the White
      stone at (3, 2) and leaves the rest as it was. */
  lemma OpeningMoveBoard()
    ensures AfterMove(InitialBoard, Black, 3, 1) == AfterOpeningMove
  {
    var h := AfterMove(InitialBoard, Black, 3, 1);
    forall cy | 0 <= cy < Size
      ensures h[cy] == AfterOpeningMove[cy]
    {
      forall cx | 0 <= cx < Size
        ensures h[cy][cx] == AfterOpeningMove[cy][cx]
      {
        OpeningMoveCell(cx, cy);
      }
    }
  }
}
