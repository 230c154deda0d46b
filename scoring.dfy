/** Static evaluation: position tables, the table score of a board for one
    side, and the risk-adjusted score that penalises stones next to a
    corner. */
module Scoring {
  import opened Board

  /** Opening table: corners are prized, the squares next to them are
      heavily penalised. */
  const EarlyTable: Grid := [
    [200, -100, 50, 50, -100, 200],
    [-100, -200, -10, -10, -200, -100],
    [50, -10, 0, 0, -10, 50],
    [50, -10, 0, 0, -10, 50],
    [-100, -200, -10, -10, -200, -100],
    [200, -100, 50, 50, -100, 200]
  ]

  const MidTable: Grid := [
    [100, -20, 10, 10, -20, 100],
    [-20, -50, 0, 0, -50, -20],
    [10, 0, 5, 5, 0, 10],
    [10, 0, 5, 5, 0, 10],
    [-20, -50, 0, 0, -50, -20],
    [100, -20, 10, 10, -20, 100]
  ]

  const LateTable: Grid := [
    [100, -20, 10, 10, -20, 100],
    [-20, -50, 20, 20, -50, -20],
    [10, 20, 50, 50, 20, 10],
    [10, 20, 50, 50, 20, 10],
    [-20, -50, 20, 20, -50, -20],
    [100, -20, 10, 10, -20, 100]
  ]

  /** What one cell contributes: its table weight when it holds `stone`,
      minus the weight when it holds the opponent, nothing otherwise. */
  function CellScore(g: Grid, stone: Stone, t: Grid, x: int, y: int): int
    requires IsGrid(g) && IsGrid(t) && InBounds(x, y)
  {
    if g[y][x] == stone then t[y][x]
    else if g[y][x] == Opponent(stone) then -t[y][x]
    else 0
  }

  /** Sum of the cell scores of the first n cells of row y. */
  function RowScore(g: Grid, stone: Stone, t: Grid, y: int, n: int): int
    requires IsGrid(g) && IsGrid(t) && 0 <= y < Size && 0 <= n <= Size
  {
    if n == 0 then 0 else RowScore(g, stone, t, y, n - 1) + CellScore(g, stone, t, n - 1, y)
  }

  /** Sum of the row scores of the first n rows. */
  function ScoreBefore(g: Grid, stone: Stone, t: Grid, n: int): int
    requires IsGrid(g) && IsGrid(t) && 0 <= n <= Size
  {
    if n == 0 then 0 else ScoreBefore(g, stone, t, n - 1) + RowScore(g, stone, t, n - 1, Size)
  }

  /** The table score of the whole board from `stone`'s side. */
  function TableScore(g: Grid, stone: Stone, t: Grid): int
    requires IsGrid(g) && IsGrid(t)
  {
    ScoreBefore(g, stone, t, Size)
  }

  /** evaluate_board_with_table: scans the board row by row, adding the
      weight of each of `stone`'s cells and subtracting the weight of each
      of the opponent's. */
  method EvaluateBoardWithTable(b: array2<int>, stone: Stone, t: Grid) returns (score: int)
    requires IsBoardArray(b) && IsGrid(t)
    ensures score == TableScore(Cells(b), stone, t)
  {
    ghost var g := Cells(b);
    score := 0;
    for y := 0 to Size
      invariant score == ScoreBefore(g, stone, t, y)
    {
      for x := 0 to Size
        invariant score == ScoreBefore(g, stone, t, y) + RowScore(g, stone, t, y, x)
      {
        if b[y, x] == stone {
          score := score + t[y][x];
        } else if b[y, x] == 3 - stone {
          score := score - t[y][x];
        }
      }
    }
  }

  // ---------------------------------------------------------------------
  // Properties of the table score

  lemma {:induction false} RowScoreAntisymmetric(g: Grid, stone: Stone, t: Grid, y: int, n: int)
    requires IsGrid(g) && IsGrid(t) && 0 <= y < Size && 0 <= n <= Size
    ensures RowScore(g, Opponent(stone), t, y, n) == -RowScore(g, stone, t, y, n)
  {
    if n > 0 {
      RowScoreAntisymmetric(g, stone, t, y, n - 1);
    }
  }

  lemma {:induction false} ScoreBeforeAntisymmetric(g: Grid, stone: Stone, t: Grid, n: int)
    requires IsGrid(g) && IsGrid(t) && 0 <= n <= Size
    ensures ScoreBefore(g, Opponent(stone), t, n) == -ScoreBefore(g, stone, t, n)
  {
    if n > 0 {
      ScoreBeforeAntisymmetric(g, stone, t, n - 1);
      RowScoreAntisymmetric(g, stone, t, n - 1, Size);
    }
  }

  /** The table evaluation is zero-sum: the opponent's score is the negation
      of the mover's. */
  lemma TableScoreAntisymmetric(g: Grid, stone: Stone, t: Grid)
    requires IsGrid(g) && IsGrid(t)
    ensures TableScore(g, Opponent(stone), t) == -TableScore(g, stone, t)
  {
    ScoreBeforeAntisymmetric(g, stone, t, Size);
  }

  lemma {:induction false} RowScoreOfEmptyRow(g: Grid, stone: Stone, t: Grid, y: int, n: int)
    requires IsGrid(g) && IsGrid(t) && 0 <= y < Size && 0 <= n <= Size
    requires forall x :: 0 <= x < Size ==> g[y][x] == Empty
    ensures RowScore(g, stone, t, y, n) == 0
  {
    if n > 0 {
      RowScoreOfEmptyRow(g, stone, t, y, n - 1);
    }
  }

  lemma {:induction false} ScoreBeforeOfEmptyRows(g: Grid, stone: Stone, t: Grid, n: int)
    requires IsGrid(g) && IsGrid(t) && 0 <= n <= Size
    requires forall x, y :: InBounds(x, y) ==> g[y][x] == Empty
    ensures ScoreBefore(g, stone, t, n) == 0
  {
    if n > 0 {
      ScoreBeforeOfEmptyRows(g, stone, t, n - 1);
      RowScoreOfEmptyRow(g, stone, t, n - 1, Size);
    }
  }

  /** An empty board scores zero under any table. */
  lemma EmptyBoardScoresZero(g: Grid, stone: Stone, t: Grid)
    requires IsGrid(g) && IsGrid(t)
    requires forall x, y :: InBounds(x, y) ==> g[y][x] == Empty
    ensures TableScore(g, stone, t) == 0
  {
    ScoreBeforeOfEmptyRows(g, stone, t, Size);
  }

  lemma {:induction false} RowScoreUpdate(g: Grid, stone: Stone, t: Grid, y: int, n: int, cx: int, cy: int, v: int)
    requires IsGrid(g) && IsGrid(t) && 0 <= y < Size && 0 <= n <= Size && InBounds(cx, cy)
    ensures IsGrid(g[cy := g[cy][cx := v]])
    ensures RowScore(g[cy := g[cy][cx := v]], stone, t, y, n) ==
      RowScore(g, stone, t, y, n) +
      (if y == cy && cx < n then CellScore(g[cy := g[cy][cx := v]], stone, t, cx, cy) - CellScore(g, stone, t, cx, cy) else 0)
  {
    if n > 0 {
      RowScoreUpdate(g, stone, t, y, n - 1, cx, cy, v);
    }
  }

  lemma {:induction false} ScoreBeforeUpdate(g: Grid, stone: Stone, t: Grid, n: int, cx: int, cy: int, v: int)
    requires IsGrid(g) && IsGrid(t) && 0 <= n <= Size && InBounds(cx, cy)
    ensures IsGrid(g[cy := g[cy][cx := v]])
    ensures ScoreBefore(g[cy := g[cy][cx := v]], stone, t, n) ==
      ScoreBefore(g, stone, t, n) +
      (if cy < n then CellScore(g[cy := g[cy][cx := v]], stone, t, cx, cy) - CellScore(g, stone, t, cx, cy) else 0)
  {
    if n > 0 {
      ScoreBeforeUpdate(g, stone, t, n - 1, cx, cy, v);
      RowScoreUpdate(g, stone, t, n - 1, Size, cx, cy, v);
    }
  }

  /** The score is a sum over cells: changing one cell changes the score by
      exactly the change in that cell's contribution. */
  lemma TableScoreUpdate(g: Grid, stone: Stone, t: Grid, cx: int, cy: int, v: int)
    requires IsGrid(g) && IsGrid(t) && InBounds(cx, cy)
    ensures IsGrid(g[cy := g[cy][cx := v]])
    ensures TableScore(g[cy := g[cy][cx := v]], stone, t) ==
      TableScore(g, stone, t) + CellScore(g[cy := g[cy][cx := v]], stone, t, cx, cy) - CellScore(g, stone, t, cx, cy)
  {
    ScoreBeforeUpdate(g, stone, t, Size, cx, cy, v);
  }

  // ---------------------------------------------------------------------
  // Risk-adjusted evaluation

  /** The squares evaluate_with_risk penalises, as (x, y), in its order. */
  const XSquares: seq<Pos> := [(0, 1), (1, 0), (1, 1), (0, 4), (1, 5), (1, 4),
                               (4, 0), (5, 1), (4, 1), (4, 5), (5, 4), (4, 4)]

  /** The corner nearest to coordinate c along one axis. */
  function NearCorner(c: int): int {
    if c < Size / 2 then 0 else Size - 1
  }

  /** A square touching a corner (orthogonally or diagonally) that is not
      itself a corner. */
  predicate NextToCorner(x: int, y: int) {
    InBounds(x, y) &&
    -1 <= x - NearCorner(x) <= 1 && -1 <= y - NearCorner(y) <= 1 &&
    (x, y) != (NearCorner(x), NearCorner(y))
  }

  /** Every penalised square lies next to a corner, and the list holds
      each of them once. */
  lemma XSquaresDistinct()
    ensures forall i :: 0 <= i < |XSquares| ==> NextToCorner(XSquares[i].0, XSquares[i].1)
    ensures forall i, j :: 0 <= i < j < |XSquares| ==> XSquares[i] != XSquares[j]
  {
  }

  /** Every square next to a corner is in the penalised list. */
  lemma NextToCornerListed(x: int, y: int)
    requires NextToCorner(x, y)
    ensures (x, y) in XSquares
  {
  }

  /** How many of the first n penalised squares hold `stone`. */
  function RiskCount(g: Grid, stone: Stone, n: int): (c: nat)
    requires IsGrid(g) && 0 <= n <= |XSquares|
    ensures c <= n
  {
    if n == 0 then 0
    else RiskCount(g, stone, n - 1) + (if g[XSquares[n - 1].1][XSquares[n - 1].0] == stone then 1 else 0)
  }

  /** evaluate_with_risk's value: the opening-table score less 100 for each
      penalised square held. */
  function RiskScore(g: Grid, stone: Stone): int
    requires IsGrid(g)
  {
    TableScore(g, stone, EarlyTable) - 100 * RiskCount(g, stone, |XSquares|)
  }

  /** evaluate_with_risk. */
  method EvaluateWithRisk(b: array2<int>, stone: Stone) returns (score: int)
    requires IsBoardArray(b)
    ensures score == RiskScore(Cells(b), stone)
  {
    ghost var g := Cells(b);
    score := EvaluateBoardWithTable(b, stone, EarlyTable);
    XSquaresDistinct();
    for i := 0 to |XSquares|
      invariant score == TableScore(g, stone, EarlyTable) - 100 * RiskCount(g, stone, i)
    {
      var (x, y) := XSquares[i];
      if b[y, x] == stone {
        score := score - 100;
      }
    }
  }

  /** The squares next to a corner that hold `stone`. */
  function HeldNextToCorner(g: Grid, stone: Stone): set<Pos>
    requires IsGrid(g)
  {
    set x, y | 0 <= x < Size && 0 <= y < Size && NextToCorner(x, y) && g[y][x] == stone :: (x, y)
  }

  /** The first n penalised squares that hold `stone`. */
  function HeldXSquares(g: Grid, stone: Stone, n: int): set<Pos>
    requires IsGrid(g) && 0 <= n <= |XSquares|
  {
    set p | p in XSquares[..n] && InBounds(p.0, p.1) && g[p.1][p.0] == stone
  }

  /** Adding the n-th penalised square adds it to the held set exactly when
      `stone` holds it; it was not already there. */
  lemma HeldXSquaresStep(g: Grid, stone: Stone, n: int)
    requires IsGrid(g) && 0 < n <= |XSquares|
    ensures XSquares[n - 1] !in HeldXSquares(g, stone, n - 1)
    ensures HeldXSquares(g, stone, n) ==
      HeldXSquares(g, stone, n - 1) + (if g[XSquares[n - 1].1][XSquares[n - 1].0] == stone then {XSquares[n - 1]} else {})
  {
    XSquaresDistinct();
    assert XSquares[..n] == XSquares[..n - 1] + [XSquares[n - 1]];
  }

  lemma {:induction false} RiskCountIsHeld(g: Grid, stone: Stone, n: int)
    requires IsGrid(g) && 0 <= n <= |XSquares|
    ensures RiskCount(g, stone, n) == |HeldXSquares(g, stone, n)|
  {
    if n > 0 {
      RiskCountIsHeld(g, stone, n - 1);
      HeldXSquaresStep(g, stone, n);
    } else {
      assert HeldXSquares(g, stone, n) == {};
    }
  }

  /** The risk score is the opening-table score less 100 for every square
      next to a corner that `stone` holds, and never more than the table
      score. */
  lemma RiskScorePenalty(g: Grid, stone: Stone)
    requires IsGrid(g)
    ensures RiskScore(g, stone) == TableScore(g, stone, EarlyTable) - 100 * |HeldNextToCorner(g, stone)|
    ensures TableScore(g, stone, EarlyTable) - 1200 <= RiskScore(g, stone) <= TableScore(g, stone, EarlyTable)
  {
    RiskCountIsHeld(g, stone, |XSquares|);
    XSquaresDistinct();
    assert XSquares[..|XSquares|] == XSquares;
    forall p | p in HeldNextToCorner(g, stone)
      ensures p in HeldXSquares(g, stone, |XSquares|)
    {
      NextToCornerListed(p.0, p.1);
    }
    assert HeldXSquares(g, stone, |XSquares|) == HeldNextToCorner(g, stone);
  }
}
