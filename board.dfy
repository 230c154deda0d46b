/** The 6x6 Othello board shared by every layer of the engine: cell values,
    sides, coordinates, the pure view of a board array, and stone counting. */
module Board {

  /** Width and height of the board. */
  const Size: int := 6

  /** Cell values as the engine stores them: 0 empty, 1 black, 2 white. */
  const Empty: int := 0
  const Black: int := 1
  const White: int := 2

  /** A side that can move. Any other value is a caller error. */
  type Stone = s: int | s == 1 || s == 2 witness 1

  /** The other side, computed the way the engine does it: `3 - stone`. */
  function Opponent(s: Stone): (o: Stone)
    ensures o != s
  {
    3 - s
  }

  /** A board coordinate (x, y): x is the column, y the row. */
  type Pos = (int, int)

  predicate InBounds(x: int, y: int) {
    0 <= x < Size && 0 <= y < Size
  }

  /** A board as a value: a list of 6 rows of 6 cells, read as g[y][x]. */
  type Grid = seq<seq<int>>

  predicate IsGrid(g: Grid) {
    |g| == Size && forall y :: 0 <= y < Size ==> |g[y]| == Size
  }

  /** Every cell holds one of the three cell values. */
  predicate IsBoard(g: Grid) {
    IsGrid(g) && forall x, y :: 0 <= x < Size && 0 <= y < Size ==> 0 <= g[y][x] <= 2
  }

  /** The board the game starts from: a 2x2 diagonal block in the centre. */
  const InitialBoard: Grid := [
    [0, 0, 0, 0, 0, 0],
    [0, 0, 0, 0, 0, 0],
    [0, 0, 1, 2, 0, 0],
    [0, 0, 2, 1, 0, 0],
    [0, 0, 0, 0, 0, 0],
    [0, 0, 0, 0, 0, 0]
  ]

  /** Black sits on (2,2) and (3,3), White on (3,2) and (2,3), every other
      cell is empty. */
  lemma InitialLayout()
    ensures IsBoard(InitialBoard)
    ensures InitialBoard[2][2] == Black && InitialBoard[3][3] == Black
    ensures InitialBoard[2][3] == White && InitialBoard[3][2] == White
    ensures forall x, y :: InBounds(x, y) && !(2 <= x <= 3 && 2 <= y <= 3) ==> InitialBoard[y][x] == Empty
  {
  }

  /** A board held in memory: a 6x6 array indexed b[y, x]. */
  predicate IsBoardArray(b: array2<int>) {
    b.Length0 == Size && b.Length1 == Size
  }

  /** The value currently held by a board array. */
  function Cells(b: array2<int>): (g: Grid)
    requires IsBoardArray(b)
    reads b
    ensures IsGrid(g)
    ensures forall x, y :: InBounds(x, y) ==> g[y][x] == b[y, x]
  {
    seq(Size, y requires 0 <= y < Size reads b =>
      seq(Size, x requires 0 <= x < Size reads b => b[y, x]))
  }

  /** The set of cells holding value v. */
  function CellsHolding(g: Grid, v: int): set<Pos>
    requires IsGrid(g)
  {
    set x, y | 0 <= x < Size && 0 <= y < Size && g[y][x] == v :: (x, y)
  }

  /** Number of cells holding v among the first n cells of row y. */
  function RowCount(g: Grid, v: int, y: int, n: int): (c: nat)
    requires IsGrid(g) && 0 <= y < Size && 0 <= n <= Size
    ensures c <= n
  {
    if n == 0 then 0
    else RowCount(g, v, y, n - 1) + (if g[y][n - 1] == v then 1 else 0)
  }

  /** Number of cells holding v in the first n rows. */
  function CountBefore(g: Grid, v: int, n: int): (c: nat)
    requires IsGrid(g) && 0 <= n <= Size
    ensures c <= Size * n
  {
    if n == 0 then 0
    else CountBefore(g, v, n - 1) + RowCount(g, v, n - 1, Size)
  }

  /** Number of cells holding v, counted row by row. */
  function Count(g: Grid, v: int): nat
    requires IsGrid(g)
  {
    CountBefore(g, v, Size)
  }

  /** Counting row by row gives the number of cells holding v. */
  lemma {:induction false} CountIsCardinality(g: Grid, v: int)
    requires IsGrid(g)
    ensures Count(g, v) == |CellsHolding(g, v)|
  {
    CountBeforeIsCardinality(g, v, Size);
    assert CellsHolding(g, v) == (set x, y | 0 <= x < Size && 0 <= y < Size && y < Size && g[y][x] == v :: (x, y));
  }

  lemma {:induction false} RowCountIsCardinality(g: Grid, v: int, y: int, n: int)
    requires IsGrid(g) && 0 <= y < Size && 0 <= n <= Size
    ensures RowCount(g, v, y, n) == |set x | 0 <= x < n && g[y][x] == v :: (x, y)|
  {
    var s := set x | 0 <= x < n && g[y][x] == v :: (x, y);
    if n > 0 {
      RowCountIsCardinality(g, v, y, n - 1);
      var s' := set x | 0 <= x < n - 1 && g[y][x] == v :: (x, y);
      if g[y][n - 1] == v {
        assert s == s' + {(n - 1, y)};
        assert (n - 1, y) !in s';
      } else {
        assert s == s';
      }
    } else {
      assert s == {};
    }
  }

  lemma {:induction false} CountBeforeIsCardinality(g: Grid, v: int, n: int)
    requires IsGrid(g) && 0 <= n <= Size
    ensures CountBefore(g, v, n) == |set x, y | 0 <= x < Size && 0 <= y < Size && y < n && g[y][x] == v :: (x, y)|
  {
    var s := set x, y | 0 <= x < Size && 0 <= y < Size && y < n && g[y][x] == v :: (x, y);
    if n > 0 {
      var row := n - 1;
      CountBeforeIsCardinality(g, v, row);
      RowCountIsCardinality(g, v, row, Size);
      var s' := set x, y | 0 <= x < Size && 0 <= y < Size && y < row && g[y][x] == v :: (x, y);
      var r := set x | 0 <= x < Size && g[row][x] == v :: (x, row);
      assert s == s' + r;
      assert s' * r == {};
    } else {
      assert s == {};
    }
  }
}
